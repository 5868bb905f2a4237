/**
 * Departure times of stop_times.txt. The GTFS Schedule Reference lets the hour
 * of `departure_time` reach 24 or more for service that runs past midnight; such
 * a time is placed on the following day.
 */
module DepartureTime {
  import opened Wrappers
  import opened Text

  const SecondsPerDay := 86400

  /** A parsed departure: whole days after the current date, and seconds into that day. */
  datatype Time = Time(day: nat, secs: nat)

  /** Seconds from the start of the current date. */
  function Instant(t: Time): int {
    t.day * SecondsPerDay + t.secs
  }

  /** moment's `isBefore`. */
  predicate Before(a: Time, b: Time) {
    Instant(a) < Instant(b)
  }

  /** The hour, minute and second of "H:MM:SS", when the text has three digit fields. */
  function Fields(text: string): Option<(nat, nat, nat)> {
    var f := Split(text, ':');
    if |f| == 3 && f[0] != [] && f[1] != [] && f[2] != []
       && AllDigits(f[0]) && AllDigits(f[1]) && AllDigits(f[2])
    then Some((DigitsToNat(f[0]), DigitsToNat(f[1]), DigitsToNat(f[2])))
    else None
  }

  /**
   * `parseDepartureTime`: an hour of 24 or more moves the time to the next day,
   * any other hour stays on the current day; malformed text has no time.
   */
  function ParseDepartureTime(text: string): (r: Option<Time>)
    ensures r.Some? ==> r.value.day <= 1
    ensures r.Some? && r.value.day == 0 ==> r.value.secs < SecondsPerDay
  {
    match Fields(text)
    case None => None
    case Some((h, m, s)) =>
      if m >= 60 || s >= 60 then None
      else if h >= 24 then Some(Time(1, (h - 24) * 3600 + m * 60 + s))
      else Some(Time(0, h * 3600 + m * 60 + s))
  }

  /** "HH:MM:SS" as a GTFS feed writes a departure time. */
  function ClockText(h: nat, m: nat, s: nat): string {
    Pad2(h) + ":" + Pad2(m) + ":" + Pad2(s)
  }

  lemma ClockTextFields(h: nat, m: nat, s: nat)
    ensures Fields(ClockText(h, m, s)) == Some((h, m, s))
  {
    var a, b, c := Pad2(h), Pad2(m), Pad2(s);
    assert forall i :: 0 <= i < |a| ==> a[i] != ':';
    assert forall i :: 0 <= i < |b| ==> b[i] != ':';
    assert forall i :: 0 <= i < |c| ==> c[i] != ':';
    assert ClockText(h, m, s) == a + [':'] + (b + [':'] + c);
    SplitAtSeparator(a, b + [':'] + c, ':');
    SplitAtSeparator(b, c, ':');
    SplitNoSeparator(c, ':');
  }

  /** Every well-formed time parses to the instant its three fields denote. */
  lemma ParsedInstant(text: string)
    requires ParseDepartureTime(text).Some?
    ensures Fields(text).Some?
    ensures var (h, m, s) := Fields(text).value;
            m < 60 && s < 60 && Instant(ParseDepartureTime(text).value) == h * 3600 + m * 60 + s
  {
  }

  /** Parsing inverts the GTFS formatting, with the day chosen by the hour. */
  lemma ParseClockText(h: nat, m: nat, s: nat)
    requires m < 60 && s < 60
    ensures var r := ParseDepartureTime(ClockText(h, m, s));
            && r.Some?
            && r.value.day == (if h >= 24 then 1 else 0)
            && Instant(r.value) == h * 3600 + m * 60 + s
  {
    ClockTextFields(h, m, s);
  }

  /** A time with an hour of 24 or more orders after every time with a smaller hour. */
  lemma PastMidnightOrdersLater(early: string, late: string)
    requires ParseDepartureTime(early).Some? && ParseDepartureTime(late).Some?
    requires Fields(early).value.0 < 24 <= Fields(late).value.0
    ensures Before(ParseDepartureTime(early).value, ParseDepartureTime(late).value)
  {
  }

  lemma PostMidnightText()
    ensures ClockText(25, 10, 0) == "25:10:00"
    ensures ClockText(23, 50, 0) == "23:50:00"
  {
    assert Pad2(25) == "25" by { assert NatToDigits(2) == "2"; }
    assert Pad2(10) == "10" by { assert NatToDigits(1) == "1"; }
    assert Pad2(23) == "23" by { assert NatToDigits(2) == "2"; }
    assert Pad2(50) == "50" by { assert NatToDigits(5) == "5"; }
    assert Pad2(0) == "00";
  }

  /** "25:10:00" is 01:10 on the next day and orders after "23:50:00". */
  lemma PostMidnightExample()
    ensures ParseDepartureTime("25:10:00") == Some(Time(1, 4200))
    ensures ParseDepartureTime("23:50:00") == Some(Time(0, 85800))
    ensures Before(ParseDepartureTime("23:50:00").value, ParseDepartureTime("25:10:00").value)
  {
    PostMidnightText();
    ParseClockText(25, 10, 0);
    ParseClockText(23, 50, 0);
  }

  /** moment's `format("HH:mm")` of a parsed time. */
  function HHMM(t: Time): (r: string)
    ensures |r| == 5 && r[2] == ':'
  {
    Pad2((t.secs / 3600) % 24) + ":" + Pad2((t.secs / 60) % 60)
  }

  lemma ClockDivision(hh: nat, m: nat, s: nat)
    requires m < 60 && s < 60
    ensures (hh * 3600 + m * 60 + s) / 3600 == hh
    ensures ((hh * 3600 + m * 60 + s) / 60) % 60 == m
  {
    var y := hh * 60 + m;
    assert hh * 3600 + m * 60 + s == y * 60 + s;
  }

  lemma HHMMOfFields(day: nat, hh: nat, m: nat, s: nat)
    requires m < 60 && s < 60
    ensures HHMM(Time(day, hh * 3600 + m * 60 + s)) == Pad2(hh % 24) + ":" + Pad2(m)
  {
    ClockDivision(hh, m, s);
  }

  lemma NextDayHour(h: nat)
    requires h >= 24
    ensures (h - 24) % 24 == h % 24
  {
  }

  /** The time parsed from three fields: the hour decides the day. */
  lemma ParsedFromFields(text: string, h: nat, m: nat, s: nat)
    requires Fields(text) == Some((h, m, s)) && m < 60 && s < 60
    ensures h >= 24 ==> ParseDepartureTime(text) == Some(Time(1, (h - 24) * 3600 + m * 60 + s))
    ensures h < 24 ==> ParseDepartureTime(text) == Some(Time(0, h * 3600 + m * 60 + s))
  {
  }

  /** The clock reading of "HH:MM:SS" is its hour modulo 24 and its minute. */
  lemma HHMMOfClockText(h: nat, m: nat, s: nat)
    requires m < 60 && s < 60
    ensures var r := ParseDepartureTime(ClockText(h, m, s));
            r.Some? && HHMM(r.value) == Pad2(h % 24) + ":" + Pad2(m)
  {
    var text := ClockText(h, m, s);
    ClockTextFields(h, m, s);
    ParsedFromFields(text, h, m, s);
    if h >= 24 {
      HHMMOfFields(1, h - 24, m, s);
      NextDayHour(h);
    } else {
      HHMMOfFields(0, h, m, s);
    }
  }

  // ---------------------------------------------------- as the code runs it

  /**
   * `parseDepartureTime` as moment executes it. Parsing "HH:mm:ss" flags an
   * hour above 24, or 24 with minutes or seconds, as an overflow and yields an
   * invalid date, which `add(1, "day")` leaves invalid; "24:00:00" is read as
   * midnight of the next day, and the added day moves it one day further.
   */
  function MomentDepartureTime(text: string): (r: Option<Time>)
    ensures r.Some? ==> ParseDepartureTime(text).Some?
    ensures r.Some? && Fields(text).value.0 < 24 ==> r == ParseDepartureTime(text)
  {
    match Fields(text)
    case None => None
    case Some((h, m, s)) =>
      if m >= 60 || s >= 60 then None
      else if h > 24 || (h == 24 && (m > 0 || s > 0)) then None
      else if h == 24 then Some(Time(2, 0))
      else Some(Time(0, h * 3600 + m * 60 + s))
  }

  /**
   * Every well-formed time past 24:00:00 is invalid as the code parses it,
   * while the intended reading places it on the next day.
   */
  lemma MomentRejectsPastMidnight(h: nat, m: nat, s: nat)
    requires m < 60 && s < 60
    requires h > 24 || (h == 24 && m + s > 0)
    ensures MomentDepartureTime(ClockText(h, m, s)).None?
    ensures ParseDepartureTime(ClockText(h, m, s)) == Some(Time(1, (h - 24) * 3600 + m * 60 + s))
  {
    ClockTextFields(h, m, s);
    ParsedFromFields(ClockText(h, m, s), h, m, s);
  }

  /** "25:10:00": no time as written, 01:10 on the next day as intended. */
  lemma MomentPostMidnightExample()
    ensures MomentDepartureTime("25:10:00").None?
    ensures ParseDepartureTime("25:10:00") == Some(Time(1, 4200))
  {
    PostMidnightText();
    MomentRejectsPastMidnight(25, 10, 0);
  }
}
