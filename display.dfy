/**
 * The text of `arduinoOutput`: each result slot becomes one line of a
 * 16-character display, the lines are sorted and joined.
 */
module Display {
  import opened Wrappers
  import opened Text
  import opened GtfsTypes
  import opened DepartureTime
  import opened NextDepartures
  import opened Seqs

  /** Characters per display line. */
  const Width := 16

  /** `mapLine`: a non-empty line name found in the line map is replaced; any other value is kept. */
  function MapLine(lineMap: map<string, string>, line: Option<string>): (r: Option<string>)
    ensures r.None? <==> line.None?
    ensures r != line ==> line.value != "" && line.value in lineMap && r.value == lineMap[line.value]
    ensures line.Some? && line.value != "" && line.value in lineMap ==> r.value == lineMap[line.value]
  {
    match line
    case None => None
    case Some(l) => if l != "" && l in lineMap then Some(lineMap[l]) else line
  }

  /** `getDepartureTimeHHMM`: "HH:mm" of the parsed departure, "----" when it is missing or invalid. */
  function DepartureTimeHHMM(d: StopTripData): (r: string)
    ensures r == "----" <==>
      || d.stopTime.None?
      || d.stopTime.value.departureTime == ""
      || ParseDepartureTime(d.stopTime.value.departureTime).None?
    ensures r != "----" ==> |r| == 5 && r[2] == ':'
  {
    match d.stopTime
    case None => "----"
    case Some(st) =>
      if st.departureTime == "" then "----"
      else
        match ParseDepartureTime(st.departureTime)
        case None => "----"
        case Some(t) => HHMM(t)
  }

  /** A template literal prints an undefined value as "undefined". */
  function Show(s: Option<string>): string {
    match s
    case None => "undefined"
    case Some(v) => v
  }

  /**
   * The destination cut to `limit` characters; a cut destination loses its
   * last kept character and gains ".".
   */
  function CutDestination(dest: Option<string>, limit: int): (r: Option<string>)
    ensures r.None? <==> dest.None?
    ensures dest.Some? && (|dest.value| <= limit || dest.value == "") ==> r == dest
    ensures dest.Some? && |dest.value| > limit && dest.value != "" ==>
      r.value == Prefix(dest.value, limit - 1) + "." && (limit >= 1 ==> |r.value| == limit)
  {
    match dest
    case None => None
    case Some(s) =>
      var cut := Prefix(s, limit);
      if cut != s then
        assert 1 <= limit <= |s| ==> Prefix(cut, |cut| - 1) == s[..limit - 1];
        Some(Prefix(cut, |cut| - 1) + ".")
      else dest
  }

  /** The line's text before centring: time, line (at most three characters) and destination. */
  function LineText(d: StopTripData, lineMap: map<string, string>): string {
    var line := match MapLine(lineMap, LineName(d))
                case None => None
                case Some(l) => Some(Prefix(l, 3));
    var time := DepartureTimeHHMM(d);
    var limit := 14 - (match line case None => 0 case Some(l) => |l|) - |time|;
    time + " " + Show(line) + " " + Show(CutDestination(Headsign(d), limit))
  }

  /**
   * Centres a text in `Width` characters, the odd space going to the right;
   * a text wider than that makes `" ".repeat` throw.
   */
  function Centre(str: string): (r: Result<string, GtfsError>)
    ensures r.Success? <==> |str| <= Width
    ensures r.Failure? ==> r.error == InvalidRepeatCount
    ensures r.Success? ==>
      var left := (Width - |str|) / 2;
      && |r.value| == Width
      && r.value[left..left + |str|] == str
      && (forall i :: 0 <= i < left ==> r.value[i] == ' ')
      && (forall i :: left + |str| <= i < Width ==> r.value[i] == ' ')
      && 0 <= (Width - left - |str|) - left <= 1
  {
    var pad := Width - |str|;
    var leftPad := pad / 2;         // Math.floor(pad / 2)
    var rightPad := (pad + 1) / 2;  // Math.ceil(pad / 2)
    if leftPad < 0 || rightPad < 0 then Failure(InvalidRepeatCount)
    else
      var r := Spaces(leftPad) + str + Spaces(rightPad);
      assert r[leftPad..leftPad + |str|] == str;
      Success(r)
  }

  /** One display line for a result slot. */
  function FormatLine(d: StopTripData, lineMap: map<string, string>): Result<string, GtfsError> {
    Centre(LineText(d, lineMap))
  }

  /**
   * A slot with a line name and a destination always fits: the destination is
   * cut to `14 - len(line) - len(time)` characters, and the line is exactly 16
   * characters wide.
   */
  lemma NamedSlotFits(d: StopTripData, lineMap: map<string, string>)
    requires LineName(d).Some? && Headsign(d).Some?
    ensures var line := Prefix(MapLine(lineMap, LineName(d)).value, 3);
            var time := DepartureTimeHHMM(d);
            var dest := Headsign(d).value;
            var limit := 14 - |line| - |time|;
            && LineText(d, lineMap) == time + " " + line + " " + Show(CutDestination(Some(dest), limit))
            && (|dest| <= limit ==> CutDestination(Some(dest), limit) == Some(dest))
            && (|dest| > limit ==> CutDestination(Some(dest), limit) == Some(dest[..limit - 1] + "."))
            && FormatLine(d, lineMap).Success?
            && |FormatLine(d, lineMap).value| == Width
  {
    var line := Prefix(MapLine(lineMap, LineName(d)).value, 3);
    var time := DepartureTimeHHMM(d);
    assert |time| == 4 || |time| == 5;
    var limit := 14 - |line| - |time|;
    assert limit >= 6;
    var dest := Headsign(d).value;
    var shown := CutDestination(Some(dest), limit).value;
    assert |shown| <= limit;
  }

  /**
   * A slot without stop time, trip and route prints "---- undefined undefined",
   * 24 characters, and formatting it throws.
   */
  lemma EmptySlotThrows(d: StopTripData, lineMap: map<string, string>)
    requires d.stopTime.None? && d.trip.None? && d.route.None?
    ensures LineText(d, lineMap) == "---- undefined undefined"
    ensures FormatLine(d, lineMap) == Failure(InvalidRepeatCount)
  {
  }

  // ------------------------------------------------------- sort and join

  /** JavaScript's default string order, compared character by character. */
  predicate LexLe(a: string, b: string)
    decreases |a|
  {
    a == [] || (b != [] && (a[0] < b[0] || (a[0] == b[0] && LexLe(a[1..], b[1..]))))
  }

  lemma {:induction false} LexTotal(a: string, b: string)
    ensures LexLe(a, b) || LexLe(b, a)
    decreases |a|
  {
    if a != [] && b != [] && a[0] == b[0] {
      LexTotal(a[1..], b[1..]);
    }
  }

  lemma {:induction false} LexAntisymmetric(a: string, b: string)
    requires LexLe(a, b) && LexLe(b, a)
    ensures a == b
    decreases |a|
  {
    if a != [] {
      LexAntisymmetric(a[1..], b[1..]);
      assert a == [a[0]] + a[1..] && b == [b[0]] + b[1..];
    }
  }

  lemma {:induction false} LexTransitive(a: string, b: string, c: string)
    requires LexLe(a, b) && LexLe(b, c)
    ensures LexLe(a, c)
    decreases |a|
  {
    if a != [] && a[0] == b[0] && b[0] == c[0] {
      LexTransitive(a[1..], b[1..], c[1..]);
    }
  }

  /** Every line is at most every later line. */
  ghost predicate LinesSorted(lines: seq<string>) {
    forall i, j :: 0 <= i < j < |lines| ==> LexLe(lines[i], lines[j])
  }

  /** A line at most the first of sorted lines is at most all of them. */
  lemma BelowHead(x: string, lines: seq<string>)
    requires LinesSorted(lines) && lines != [] && LexLe(x, lines[0])
    ensures forall y :: y in lines ==> LexLe(x, y)
  {
    forall y | y in lines ensures LexLe(x, y) {
      var k :| 0 <= k < |lines| && lines[k] == y;
      if k > 0 {
        LexTransitive(x, lines[0], y);
      }
    }
  }

  /** A line at most every sorted line can go in front. */
  lemma ConsLines(h: string, t: seq<string>)
    requires LinesSorted(t)
    requires forall y :: y in t ==> LexLe(h, y)
    ensures LinesSorted([h] + t)
  {
    var r := [h] + t;
    forall i, j | 0 <= i < j < |r| ensures LexLe(r[i], r[j]) {
      assert r[j] == t[j - 1] && t[j - 1] in t;
      if i > 0 {
        assert r[i] == t[i - 1];
      }
    }
  }

  function InsertLine(x: string, lines: seq<string>): (r: seq<string>)
    requires LinesSorted(lines)
    ensures multiset(r) == multiset(lines) + multiset{x}
    ensures LinesSorted(r)
  {
    if lines == [] then [x]
    else if LexLe(x, lines[0]) then
      assert LinesSorted([x] + lines) by {
        BelowHead(x, lines);
        ConsLines(x, lines);
      }
      [x] + lines
    else
      assert lines == [lines[0]] + lines[1..];
      SortedTail(lines);
      var rest := InsertLine(x, lines[1..]);
      assert LinesSorted([lines[0]] + rest) by {
        assert forall y :: y in rest ==> LexLe(lines[0], y) by {
          forall y | y in rest ensures LexLe(lines[0], y) {
            assert y in multiset(rest);
            if y == x {
              LexTotal(x, lines[0]);
            } else {
              assert y in multiset(lines[1..]);
            }
          }
        }
        ConsLines(lines[0], rest);
      }
      [lines[0]] + rest
  }

  /** `res.sort()`: the lines in ascending string order. */
  function SortLines(lines: seq<string>): (r: seq<string>)
    ensures multiset(r) == multiset(lines)
    ensures LinesSorted(r)
  {
    if lines == [] then []
    else
      assert lines == [lines[0]] + lines[1..];
      InsertLine(lines[0], SortLines(lines[1..]))
  }

  /** The first line of a sorted sequence is at most every line in it. */
  lemma SortedHeadIsLeast(lines: seq<string>, x: string)
    requires LinesSorted(lines) && lines != [] && x in multiset(lines)
    ensures LexLe(lines[0], x)
  {
    var k :| 0 <= k < |lines| && lines[k] == x;
    if k == 0 {
      LexTotal(x, x);
    }
  }

  lemma TailsAgree(a: seq<string>, b: seq<string>)
    requires a != [] && b != [] && a[0] == b[0]
    requires multiset(a) == multiset(b)
    ensures multiset(a[1..]) == multiset(b[1..])
  {
    assert a == [a[0]] + a[1..] && b == [b[0]] + b[1..];
    assert multiset(a) == multiset{a[0]} + multiset(a[1..]);
    assert multiset(b) == multiset{a[0]} + multiset(b[1..]);
    assert multiset(a[1..]) == multiset(a) - multiset{a[0]};
    assert multiset(b[1..]) == multiset(b) - multiset{a[0]};
  }

  lemma SortedTail(a: seq<string>)
    requires LinesSorted(a) && a != []
    ensures LinesSorted(a[1..])
    ensures forall y :: y in a[1..] ==> LexLe(a[0], y)
  {
    assert forall k :: 0 <= k < |a| - 1 ==> a[1..][k] == a[k + 1];
    forall i, j | 0 <= i < j < |a| - 1 ensures LexLe(a[1..][i], a[1..][j]) {
      assert a[1..][i] == a[i + 1] && a[1..][j] == a[j + 1];
    }
  }

  /** String order is total, so there is one sorted order of a collection of lines. */
  lemma {:induction false} SortedIsUnique(a: seq<string>, b: seq<string>)
    requires LinesSorted(a) && LinesSorted(b)
    requires multiset(a) == multiset(b)
    ensures a == b
    decreases |a|
  {
    assert |a| == |multiset(a)| == |multiset(b)| == |b|;
    if a != [] {
      assert a[0] in multiset(b) && b[0] in multiset(a);
      SortedHeadIsLeast(b, a[0]);
      SortedHeadIsLeast(a, b[0]);
      LexAntisymmetric(a[0], b[0]);
      TailsAgree(a, b);
      SortedTail(a);
      SortedTail(b);
      SortedIsUnique(a[1..], b[1..]);
      assert a == [a[0]] + a[1..] && b == [b[0]] + b[1..];
    }
  }

  /**
   * Midway through inserting `s[i]` into the sorted prefix: it has moved down
   * to `j`, the other lines up to `i` are in order, and it is at most every
   * line after it.
   */
  ghost predicate Inserting(s: seq<string>, j: int, i: int) {
    && 0 <= j <= i < |s|
    && (forall p, q :: 0 <= p < q <= i && p != j && q != j ==> LexLe(s[p], s[q]))
    && (forall q :: j < q <= i ==> LexLe(s[j], s[q]))
  }

  lemma StartInserting(s: seq<string>, i: int)
    requires 0 <= i < |s| && LinesSorted(s[..i])
    ensures Inserting(s, i, i)
  {
    forall p, q | 0 <= p < q < i ensures LexLe(s[p], s[q]) {
      assert s[p] == s[..i][p] && s[q] == s[..i][q];
    }
  }

  /** Swapping the line with a greater line before it moves it one place down. */
  lemma SwapDown(s: seq<string>, j: int, i: int)
    requires Inserting(s, j, i) && j > 0 && !LexLe(s[j - 1], s[j])
    ensures Inserting(s[j - 1 := s[j]][j := s[j - 1]], j - 1, i)
  {
    var t := s[j - 1 := s[j]][j := s[j - 1]];
    LexTotal(s[j - 1], s[j]);
    forall q | j - 1 < q <= i ensures LexLe(t[j - 1], t[q]) {
      if q > j {
        LexTransitive(s[j], s[j - 1], s[q]);
      }
    }
  }

  /** Once the line meets a line no greater than it, the prefix up to `i` is sorted. */
  lemma StopInserting(s: seq<string>, j: int, i: int)
    requires Inserting(s, j, i) && (j == 0 || LexLe(s[j - 1], s[j]))
    ensures LinesSorted(s[..i + 1])
  {
    forall p, q | 0 <= p < q <= i ensures LexLe(s[p], s[q]) {
      if q == j && p < j - 1 {
        LexTransitive(s[p], s[j - 1], s[j]);
      }
    }
  }

  /** `res.sort()` in place: insertion by adjacent swaps. */
  method SortInPlace(a: array<string>)
    modifies a
    ensures LinesSorted(a[..])
    ensures multiset(a[..]) == multiset(old(a[..]))
  {
    if a.Length == 0 {
      return;
    }
    for i := 1 to a.Length
      invariant LinesSorted(a[..i])
      invariant multiset(a[..]) == multiset(old(a[..]))
    {
      StartInserting(a[..], i);
      var j := i;
      while j > 0 && !LexLe(a[j - 1], a[j])
        invariant Inserting(a[..], j, i)
        invariant multiset(a[..]) == multiset(old(a[..]))
      {
        SwapDown(a[..], j, i);
        a[j - 1], a[j] := a[j], a[j - 1];
        j := j - 1;
      }
      StopInserting(a[..], j, i);
    }
    assert a[..] == a[..a.Length];
  }

  /** `res.join("")`. */
  function Join(lines: seq<string>): (r: string)
    ensures (forall i :: 0 <= i < |lines| ==> |lines[i]| == Width) ==> |r| == Width * |lines|
  {
    if lines == [] then "" else Join(lines[..|lines| - 1]) + lines[|lines| - 1]
  }

  /** The formatting of one slot, as a function value. */
  function Formatter(lineMap: map<string, string>): StopTripData -> Result<string, GtfsError> {
    (d: StopTripData) => FormatLine(d, lineMap)
  }

  /** The lines of the slots in order, or the first slot's formatting error. */
  function FormatAll(ds: seq<StopTripData>, lineMap: map<string, string>): (r: Result<seq<string>, GtfsError>)
    ensures r.Success? ==> |r.value| == |ds| && forall i :: 0 <= i < |ds| ==> |r.value[i]| == Width
  {
    var r := MapAll(ds, Formatter(lineMap));
    assert r.Success? ==> forall i :: 0 <= i < |ds| ==> FormatLine(ds[i], lineMap) == Success(r.value[i]);
    r
  }

  /**
   * The display text for the two results: the first error, if any; otherwise
   * the formatted lines, sorted and joined.
   */
  function DisplayText(buses: Result<seq<StopTripData>, GtfsError>, trams: Result<seq<StopTripData>, GtfsError>,
                       lineMap: map<string, string>): (r: Result<string, GtfsError>)
    ensures r.Success? ==>
      buses.Success? && trams.Success? && |r.value| == Width * (|buses.value| + |trams.value|)
  {
    match buses
    case Failure(e) => Failure(e)
    case Success(b) =>
      match trams
      case Failure(e) => Failure(e)
      case Success(t) =>
        match FormatAll(b + t, lineMap)
        case Failure(e) => Failure(e)
        case Success(lines) =>
          var sorted := SortLines(lines);
          assert forall i :: 0 <= i < |sorted| ==> |sorted[i]| == Width by {
            forall i | 0 <= i < |sorted| ensures |sorted[i]| == Width {
              assert sorted[i] in multiset(lines);
            }
          }
          assert |sorted| == |lines| by {
            assert |multiset(sorted)| == |multiset(lines)|;
          }
          Success(Join(sorted))
  }

  /**
   * A display text is the formatted lines of the bus slots then the tram
   * slots, rearranged into ascending string order and joined.
   */
  lemma DisplayTextIsSortedLines(buses: Result<seq<StopTripData>, GtfsError>,
                                 trams: Result<seq<StopTripData>, GtfsError>, lineMap: map<string, string>)
    requires DisplayText(buses, trams, lineMap).Success?
    ensures buses.Success? && trams.Success?
    ensures FormatAll(buses.value + trams.value, lineMap).Success?
    ensures exists lines :: LinesSorted(lines)
              && multiset(lines) == multiset(FormatAll(buses.value + trams.value, lineMap).value)
              && DisplayText(buses, trams, lineMap).value == Join(lines)
  {
    var lines := SortLines(FormatAll(buses.value + trams.value, lineMap).value);
    assert LinesSorted(lines);
  }

  /** A slot with no stop time, trip or route: what the query fills in once departures run out. */
  predicate EmptySlot(d: StopTripData) {
    d.stopTime.None? && d.trip.None? && d.route.None?
  }

  predicate NoEmptySlot(ds: seq<StopTripData>) {
    forall k :: 0 <= k < |ds| ==> !EmptySlot(ds[k])
  }

  /** No empty slot formats, so formatting succeeds only on slots that are not empty. */
  lemma FormattedSlotsAreFilled(all: seq<StopTripData>, lineMap: map<string, string>)
    requires MapAll(all, Formatter(lineMap)).Success?
    ensures NoEmptySlot(all)
  {
    forall k | 0 <= k < |all| ensures !EmptySlot(all[k]) {
      assert Formatter(lineMap)(all[k]).Success?;
      if EmptySlot(all[k]) {
        EmptySlotThrows(all[k], lineMap);
      }
    }
  }

  lemma NoEmptySlotSplits(a: seq<StopTripData>, b: seq<StopTripData>)
    requires NoEmptySlot(a + b)
    ensures NoEmptySlot(a) && NoEmptySlot(b)
  {
    assert forall k :: 0 <= k < |a| ==> a[k] == (a + b)[k];
    assert forall k :: 0 <= k < |b| ==> b[k] == (a + b)[|a| + k];
  }

  /** A display text exists only when no slot is empty. */
  lemma DisplayedSlotsAreFilled(buses: Result<seq<StopTripData>, GtfsError>, trams: Result<seq<StopTripData>, GtfsError>,
                                lineMap: map<string, string>)
    requires DisplayText(buses, trams, lineMap).Success?
    ensures buses.Success? && trams.Success?
    ensures NoEmptySlot(buses.value) && NoEmptySlot(trams.value)
  {
    assert MapAll(buses.value + trams.value, Formatter(lineMap)).Success?;
    FormattedSlotsAreFilled(buses.value + trams.value, lineMap);
    NoEmptySlotSplits(buses.value, trams.value);
  }

  /** Every slot has a line name and a destination. */
  predicate AllNamed(ds: seq<StopTripData>) {
    forall k :: 0 <= k < |ds| ==> LineName(ds[k]).Some? && Headsign(ds[k]).Some?
  }

  lemma NamedPair(x: StopTripData, y: StopTripData)
    requires LineName(x).Some? && Headsign(x).Some? && LineName(y).Some? && Headsign(y).Some?
    ensures AllNamed([x, y])
  {
  }

  /** Slots that all have a line name and a destination give one 16-character line each. */
  lemma NamedSlotsDisplay(buses: Result<seq<StopTripData>, GtfsError>, trams: Result<seq<StopTripData>, GtfsError>,
                          lineMap: map<string, string>)
    requires buses.Success? && trams.Success?
    requires AllNamed(buses.value) && AllNamed(trams.value)
    ensures var r := DisplayText(buses, trams, lineMap);
            r.Success? && |r.value| == Width * (|buses.value| + |trams.value|)
  {
    var all := buses.value + trams.value;
    forall k | 0 <= k < |all| ensures Formatter(lineMap)(all[k]).Success? {
      if k < |buses.value| {
        assert all[k] == buses.value[k];
      } else {
        assert all[k] == trams.value[k - |buses.value|];
      }
      NamedSlotFits(all[k], lineMap);
    }
    MapAllSucceeds(all, Formatter(lineMap));
  }
}
