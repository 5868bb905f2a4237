/**
 * The next-departures query of `getNextForStop`: which stop times are still to
 * come today, their order, and how back-to-back duplicate listings collapse.
 * The functions here specify the query; the `Gtfs` class runs it.
 */
module NextDepartures {
  import opened Wrappers
  import opened Seqs
  import opened GtfsTypes
  import opened DepartureTime
  import opened Tables
  import opened Sorting

  // ---------------------------------------------------------------- filter

  /**
   * The trip test inside the filter: the trip has this `trip_id` and a
   * non-empty `service_id`, and the first calendar row of that service has
   * "1" in today's column. Calendar date ranges and calendar_dates.txt play
   * no part.
   */
  predicate RunsToday(t: Trip, tripId: string, calendar: seq<Calendar>, weekday: Weekday) {
    && t.tripId == tripId
    && t.serviceId != ""
    && match FindCalendar(calendar, t.serviceId)
       case None => false
       case Some(c) => c.Column(weekday) == "1"
  }

  function Serving(tripId: string, calendar: seq<Calendar>, weekday: Weekday): Trip -> bool {
    (t: Trip) => RunsToday(t, tripId, calendar, weekday)
  }

  /** The filter predicate: a departure time that is not before now, on a trip running today. */
  predicate Upcoming(st: StopTime, trips: seq<Trip>, calendar: seq<Calendar>, weekday: Weekday, now: Time) {
    && st.departureTime != ""
    && (match ParseDepartureTime(st.departureTime)
        case None => false
        case Some(t) => !Before(t, now))
    && Find(trips, Serving(st.tripId, calendar, weekday)).Some?
  }

  function IsUpcoming(trips: seq<Trip>, calendar: seq<Calendar>, weekday: Weekday, now: Time): StopTime -> bool {
    (st: StopTime) => Upcoming(st, trips, calendar, weekday, now)
  }

  /** `stopTimes.filter(...)`: exactly the stop times that are still to come on a trip running today. */
  function Candidates(stopTimes: seq<StopTime>, trips: seq<Trip>, calendar: seq<Calendar>,
                      weekday: Weekday, now: Time): (r: seq<StopTime>)
    ensures forall st :: st in r <==>
      && st in stopTimes
      && st.departureTime != ""
      && ParseDepartureTime(st.departureTime).Some?
      && Instant(ParseDepartureTime(st.departureTime).value) >= Instant(now)
      && exists t :: t in trips && RunsToday(t, st.tripId, calendar, weekday)
  {
    var r := Filter(stopTimes, IsUpcoming(trips, calendar, weekday, now));
    forall st: StopTime | st in stopTimes {
      ServingTripFound(trips, st.tripId, calendar, weekday);
    }
    r
  }

  /** `trips.find(...)` in the filter finds a trip exactly when some trip runs today. */
  lemma ServingTripFound(trips: seq<Trip>, tripId: string, calendar: seq<Calendar>, weekday: Weekday)
    ensures Find(trips, Serving(tripId, calendar, weekday)).Some?
            <==> exists t :: t in trips && RunsToday(t, tripId, calendar, weekday)
  {
    if exists t :: t in trips && RunsToday(t, tripId, calendar, weekday) {
      var t :| t in trips && RunsToday(t, tripId, calendar, weekday);
      var k :| 0 <= k < |trips| && trips[k] == t;
      assert Serving(tripId, calendar, weekday)(trips[k]);
    }
  }

  // ------------------------------------------------------------------ sort

  /** The sort key: seconds from the start of today; candidates always parse. */
  function DepartureKey(st: StopTime): int {
    match ParseDepartureTime(st.departureTime)
    case None => 0
    case Some(t) => Instant(t)
  }

  /** `nextStopTimes.sort(...)`: a stable sort by departure time. */
  function SortByDeparture(s: seq<StopTime>): (r: seq<StopTime>)
    ensures multiset(r) == multiset(s)
    ensures forall i, j :: 0 <= i < j < |r| ==> DepartureKey(r[i]) <= DepartureKey(r[j])
  {
    SortBy(s, DepartureKey)
  }

  /** Stop times that depart at the same moment keep their relative order. */
  lemma SortByDepartureIsStable(s: seq<StopTime>, k: int)
    ensures Filter(SortByDeparture(s), HasKey(DepartureKey, k)) == Filter(s, HasKey(DepartureKey, k))
  {
    SortIsStable(s, DepartureKey, k);
  }

  // -------------------------------------------------------------- records

  /** The tables a result record is assembled from. */
  datatype Lookup = Lookup(trips: seq<Trip>, routes: seq<Route>, stop: Option<Stop>)

  /** `route?.route_short_name` of a record: `getLineName`. */
  function LineName(d: StopTripData): Option<string> {
    match d.route
    case None => None
    case Some(r) => Some(r.routeShortName)
  }

  /** `trip?.trip_headsign` of a record: `getDestinationName`. */
  function Headsign(d: StopTripData): Option<string> {
    match d.trip
    case None => None
    case Some(t) => Some(t.tripHeadsign)
  }

  /** `stopTime?.departure_time` of a record. */
  function DepartureText(d: StopTripData): Option<string> {
    match d.stopTime
    case None => None
    case Some(st) => Some(st.departureTime)
  }

  /** What the duplicate test compares: line, headsign and departure time. */
  datatype Listing = Listing(line: Option<string>, headsign: Option<string>, departure: Option<string>)

  function ListingOf(d: StopTripData): Listing {
    Listing(LineName(d), Headsign(d), DepartureText(d))
  }

  /** The route of a found trip, or none when there is no trip. */
  function RouteOf(ctx: Lookup, trip: Option<Trip>): Option<Route> {
    match trip
    case None => None
    case Some(t) => FindRoute(ctx.routes, t.routeId)
  }

  /** The record pushed for a candidate: its trip and route are the first matches in the tables. */
  function Record(ctx: Lookup, st: StopTime): StopTripData {
    var trip := FindTrip(ctx.trips, st.tripId);
    StopTripData(ctx.stop, Some(st), trip, RouteOf(ctx, trip))
  }

  /** The record pushed once the candidates have run out. */
  function Pad(ctx: Lookup): StopTripData {
    StopTripData(ctx.stop, None, None, None)
  }

  // ------------------------------------------------------------- collapse

  /**
   * The loop's walk over the sorted candidates: `kept` are the records
   * emitted so far; a candidate whose listing repeats the last emitted one is
   * spliced out, any other is emitted.
   */
  function CollapseOnto(ctx: Lookup, kept: seq<StopTripData>, rest: seq<StopTime>): seq<StopTripData>
    decreases |rest|
  {
    if rest == [] then kept
    else
      var rec := Record(ctx, rest[0]);
      if |kept| > 0 && ListingOf(rec) == ListingOf(kept[|kept| - 1]) then CollapseOnto(ctx, kept, rest[1..])
      else CollapseOnto(ctx, kept + [rec], rest[1..])
  }

  /** The records the loop emits when `qty` is large enough. */
  function Listed(ctx: Lookup, cands: seq<StopTime>): seq<StopTripData> {
    CollapseOnto(ctx, [], cands)
  }

  /** Emitted records are never taken back: `kept` stays a prefix. */
  lemma {:induction false} CollapseKeepsPrefix(ctx: Lookup, kept: seq<StopTripData>, rest: seq<StopTime>)
    ensures |CollapseOnto(ctx, kept, rest)| >= |kept|
    ensures CollapseOnto(ctx, kept, rest)[..|kept|] == kept
    decreases |rest|
  {
    if rest != [] {
      var rec := Record(ctx, rest[0]);
      if |kept| > 0 && ListingOf(rec) == ListingOf(kept[|kept| - 1]) {
        CollapseKeepsPrefix(ctx, kept, rest[1..]);
      } else {
        CollapseKeepsPrefix(ctx, kept + [rec], rest[1..]);
        assert (kept + [rec])[..|kept|] == kept;
      }
    }
  }

  ghost predicate NoAdjacentRepeats(rs: seq<StopTripData>) {
    forall k :: 0 < k < |rs| ==> ListingOf(rs[k]) != ListingOf(rs[k - 1])
  }

  /** Every record is the record of one of `sts`. */
  ghost predicate RecordsOf(ctx: Lookup, rs: seq<StopTripData>, sts: seq<StopTime>) {
    forall k :: 0 <= k < |rs| ==>
      rs[k].stopTime.Some? && rs[k].stopTime.value in sts && rs[k] == Record(ctx, rs[k].stopTime.value)
  }

  ghost predicate RecordsSorted(rs: seq<StopTripData>) {
    forall j, k :: 0 <= j < k < |rs| && rs[j].stopTime.Some? && rs[k].stopTime.Some? ==>
      DepartureKey(rs[j].stopTime.value) <= DepartureKey(rs[k].stopTime.value)
  }

  function ListingSet(rs: seq<StopTripData>): set<Listing> {
    set k | 0 <= k < |rs| :: ListingOf(rs[k])
  }

  function CandidateListings(ctx: Lookup, sts: seq<StopTime>): set<Listing> {
    set k | 0 <= k < |sts| :: ListingOf(Record(ctx, sts[k]))
  }

  /** No emitted record repeats the listing of the record just before it. */
  lemma {:induction false} CollapseNoRepeats(ctx: Lookup, kept: seq<StopTripData>, rest: seq<StopTime>)
    requires NoAdjacentRepeats(kept)
    ensures NoAdjacentRepeats(CollapseOnto(ctx, kept, rest))
    decreases |rest|
  {
    if rest != [] {
      var rec := Record(ctx, rest[0]);
      if |kept| > 0 && ListingOf(rec) == ListingOf(kept[|kept| - 1]) {
        CollapseNoRepeats(ctx, kept, rest[1..]);
      } else {
        var next := kept + [rec];
        assert NoAdjacentRepeats(next) by {
          forall k | 0 < k < |next| ensures ListingOf(next[k]) != ListingOf(next[k - 1]) {
            if k < |kept| {
              assert next[k] == kept[k] && next[k - 1] == kept[k - 1];
            }
          }
        }
        CollapseNoRepeats(ctx, next, rest[1..]);
      }
    }
  }

  /** Every record departs no later than `hi`. */
  ghost predicate DepartAtMost(rs: seq<StopTripData>, hi: int) {
    forall k :: 0 <= k < |rs| ==> rs[k].stopTime.Some? && DepartureKey(rs[k].stopTime.value) <= hi
  }

  /** Every stop time departs no earlier than `lo`. */
  ghost predicate DepartAtLeast(sts: seq<StopTime>, lo: int) {
    forall j :: 0 <= j < |sts| ==> lo <= DepartureKey(sts[j])
  }

  lemma AppendRecord(ctx: Lookup, kept: seq<StopTripData>, st: StopTime, sts: seq<StopTime>)
    requires RecordsOf(ctx, kept, sts) && RecordsSorted(kept) && st in sts
    requires DepartAtMost(kept, DepartureKey(st))
    ensures RecordsOf(ctx, kept + [Record(ctx, st)], sts)
    ensures RecordsSorted(kept + [Record(ctx, st)])
    ensures DepartAtMost(kept + [Record(ctx, st)], DepartureKey(st))
  {
    var next := kept + [Record(ctx, st)];
    assert forall k :: 0 <= k < |kept| ==> next[k] == kept[k];
  }

  /**
   * Every emitted record is the record of a candidate, in candidate order;
   * `lo` separates the records emitted so far from the candidates left.
   */
  lemma {:induction false} CollapseRecords(ctx: Lookup, kept: seq<StopTripData>, rest: seq<StopTime>,
                                           sts: seq<StopTime>, lo: int)
    requires RecordsOf(ctx, kept, sts) && RecordsSorted(kept)
    requires forall st :: st in rest ==> st in sts
    requires SortedBy(rest, DepartureKey)
    requires DepartAtMost(kept, lo) && DepartAtLeast(rest, lo)
    ensures RecordsOf(ctx, CollapseOnto(ctx, kept, rest), sts)
    ensures RecordsSorted(CollapseOnto(ctx, kept, rest))
    decreases |rest|
  {
    if rest != [] {
      var st := rest[0];
      var tail := rest[1..];
      var lo' := DepartureKey(st);
      assert forall x :: x in tail ==> x in rest;
      assert SortedBy(tail, DepartureKey) && DepartAtLeast(tail, lo') by {
        SortedTailBy(rest, DepartureKey);
        assert forall j :: 0 <= j < |tail| ==> tail[j] in tail;
      }
      assert DepartAtMost(kept, lo');
      if |kept| > 0 && ListingOf(Record(ctx, st)) == ListingOf(kept[|kept| - 1]) {
        CollapseRecords(ctx, kept, tail, sts, lo');
      } else {
        AppendRecord(ctx, kept, st, sts);
        CollapseRecords(ctx, kept + [Record(ctx, st)], tail, sts, lo');
      }
    }
  }

  /** No distinct listing is lost: each candidate's listing is emitted. */
  lemma {:induction false} CollapseListings(ctx: Lookup, kept: seq<StopTripData>, rest: seq<StopTime>)
    ensures ListingSet(CollapseOnto(ctx, kept, rest)) == ListingSet(kept) + CandidateListings(ctx, rest)
    decreases |rest|
  {
    if rest != [] {
      var rec := Record(ctx, rest[0]);
      var tail := rest[1..];
      assert CandidateListings(ctx, rest) == {ListingOf(rec)} + CandidateListings(ctx, tail) by {
        forall l | l in CandidateListings(ctx, rest) ensures l in {ListingOf(rec)} + CandidateListings(ctx, tail) {
          var k :| 0 <= k < |rest| && l == ListingOf(Record(ctx, rest[k]));
          if k > 0 {
            assert rest[k] == tail[k - 1];
          }
        }
        forall l | l in CandidateListings(ctx, tail) ensures l in CandidateListings(ctx, rest) {
          var k :| 0 <= k < |tail| && l == ListingOf(Record(ctx, tail[k]));
          assert tail[k] == rest[k + 1];
        }
      }
      if |kept| > 0 && ListingOf(rec) == ListingOf(kept[|kept| - 1]) {
        CollapseListings(ctx, kept, tail);
        assert ListingOf(rec) in ListingSet(kept);
      } else {
        var next := kept + [rec];
        assert ListingSet(next) == ListingSet(kept) + {ListingOf(rec)} by {
          forall l | l in ListingSet(next) ensures l in ListingSet(kept) + {ListingOf(rec)} {
            var k :| 0 <= k < |next| && l == ListingOf(next[k]);
            if k < |kept| {
              assert next[k] == kept[k];
            }
          }
          forall l | l in ListingSet(kept) ensures l in ListingSet(next) {
            var k :| 0 <= k < |kept| && l == ListingOf(kept[k]);
            assert next[k] == kept[k];
          }
          assert next[|kept|] == rec;
        }
        CollapseListings(ctx, next, tail);
      }
    }
  }

  // ----------------------------------------------------------------- query

  /**
   * The slots the loop fills: the emitted records up to `qty`; once they run
   * out, one record with no stop time, trip or route. The next slot after such
   * a record finds line and headsign equal (both undefined) and then reads
   * `departure_time` of the missing stop time, which throws.
   */
  function Fill(recs: seq<StopTripData>, qty: int, pad: StopTripData): Result<seq<StopTripData>, GtfsError> {
    if qty <= |recs| then Success(recs[..if qty < 0 then 0 else qty])
    else if |recs| > 0 && LineName(recs[|recs| - 1]).None? && Headsign(recs[|recs| - 1]).None? then
      Failure(ReadOfUndefined)
    else if qty == |recs| + 1 then Success(recs + [pad])
    else Failure(ReadOfUndefined)
  }

  /** The trip and route tables plus the stop, as `getNextForStop` looks them up. */
  function LookupFor(stopTimes: seq<StopTime>, trips: seq<Trip>, routes: seq<Route>,
                     stops: Option<seq<Stop>>, stopId: string): Lookup {
    Lookup(TripsForStop(trips, stopTimes, stopId), routes, FindStop(stops, stopId))
  }

  /** The filtered and sorted candidates at the stop. */
  function SortedCandidates(stopTimes: seq<StopTime>, trips: seq<Trip>, calendar: seq<Calendar>,
                            stopId: string, weekday: Weekday, now: Time): seq<StopTime> {
    SortByDeparture(Candidates(StopTimesAt(stopTimes, stopId), TripsForStop(trips, stopTimes, stopId),
                               calendar, weekday, now))
  }

  /** The distinct upcoming departures at the stop, in departure order. */
  function Distinct(stopTimes: seq<StopTime>, trips: seq<Trip>, calendar: seq<Calendar>, routes: seq<Route>,
                    stops: Option<seq<Stop>>, stopId: string, weekday: Weekday, now: Time): seq<StopTripData> {
    Listed(LookupFor(stopTimes, trips, routes, stops, stopId),
           SortedCandidates(stopTimes, trips, calendar, stopId, weekday, now))
  }

  /** `getNextForStop(stopId, qty)` with the clock read as `weekday` and `now`. */
  function NextForStop(stopTimes: seq<StopTime>, trips: seq<Trip>, calendar: Option<seq<Calendar>>,
                       routes: Option<seq<Route>>, stops: Option<seq<Stop>>,
                       stopId: string, qty: int, weekday: Weekday, now: Time): Result<seq<StopTripData>, GtfsError> {
    if calendar.None? then Failure(CalendarNotLoaded)
    else if routes.None? then Failure(RoutesNotLoaded)
    else
      var ctx := LookupFor(stopTimes, trips, routes.value, stops, stopId);
      Fill(Distinct(stopTimes, trips, calendar.value, routes.value, stops, stopId, weekday, now), qty, Pad(ctx))
  }

  // ------------------------------------------------------------ properties

  /** Filling keeps the records' order and adds no repeat: the pad has no departure time. */
  lemma FillOrdered(recs: seq<StopTripData>, qty: int, pad: StopTripData)
    requires RecordsSorted(recs) && NoAdjacentRepeats(recs)
    requires forall k :: 0 <= k < |recs| ==> recs[k].stopTime.Some? && recs[k].trip.Some?
    requires pad.stopTime.None?
    requires Fill(recs, qty, pad).Success?
    ensures RecordsSorted(Fill(recs, qty, pad).value) && NoAdjacentRepeats(Fill(recs, qty, pad).value)
  {
    var rs := Fill(recs, qty, pad).value;
    FillOutcome(recs, qty, pad);
    forall j, k | 0 <= j < k < |rs| && rs[j].stopTime.Some? && rs[k].stopTime.Some?
      ensures DepartureKey(rs[j].stopTime.value) <= DepartureKey(rs[k].stopTime.value)
    {
      assert rs[j] == recs[j] && rs[k] == recs[k];
    }
    forall k | 0 < k < |rs| ensures ListingOf(rs[k]) != ListingOf(rs[k - 1]) {
      assert rs[k - 1] == recs[k - 1];
      if k < |recs| {
        assert rs[k] == recs[k];
      }
    }
  }

  /**
   * The walk over sorted candidates that all have a trip: no record repeats
   * the listing of the one before it, each is the record of a candidate, with
   * its trip, in departure order, and every candidate's listing appears.
   */
  lemma ListedProperties(ctx: Lookup, cands: seq<StopTime>)
    requires SortedBy(cands, DepartureKey)
    requires forall st :: st in cands ==> FindTrip(ctx.trips, st.tripId).Some?
    ensures var d := Listed(ctx, cands);
            && NoAdjacentRepeats(d)
            && RecordsSorted(d)
            && (forall k :: 0 <= k < |d| ==>
                  && d[k].stopTime.Some? && d[k].trip.Some?
                  && d[k] == Record(ctx, d[k].stopTime.value)
                  && d[k].stopTime.value in cands)
            && ListingSet(d) == CandidateListings(ctx, cands)
  {
    CollapseNoRepeats(ctx, [], cands);
    var lo := if cands == [] then 0 else DepartureKey(cands[0]);
    CollapseRecords(ctx, [], cands, cands, lo);
    CollapseListings(ctx, [], cands);
    assert ListingSet([]) == {};
  }

  /**
   * The slots for records that all have a stop time and a trip: exactly `qty`
   * of them, the records first and then at most one pad; the fill throws
   * exactly when `qty` exceeds the records by two or more.
   */
  lemma FillOutcome(recs: seq<StopTripData>, qty: int, pad: StopTripData)
    requires forall k :: 0 <= k < |recs| ==> recs[k].trip.Some?
    ensures var r := Fill(recs, qty, pad);
            && (r.Failure? <==> qty >= |recs| + 2)
            && (r.Failure? ==> r.error == ReadOfUndefined)
            && (r.Success? ==>
                  && |r.value| == (if qty < 0 then 0 else qty)
                  && (forall k :: 0 <= k < |r.value| && k < |recs| ==> r.value[k] == recs[k])
                  && (forall k :: |recs| <= k < |r.value| ==> k == |recs| && r.value[k] == pad))
  {
    if qty > |recs| && |recs| > 0 {
      assert Headsign(recs[|recs| - 1]).Some?;
    }
  }

  /** A candidate's record always has a trip: the filter found one with its `trip_id`. */
  lemma CandidatesHaveTrips(stopTimes: seq<StopTime>, trips: seq<Trip>, calendar: seq<Calendar>,
                            weekday: Weekday, now: Time)
    ensures forall st :: st in Candidates(stopTimes, trips, calendar, weekday, now) ==>
              FindTrip(trips, st.tripId).Some?
  {
    forall st | st in Candidates(stopTimes, trips, calendar, weekday, now)
      ensures FindTrip(trips, st.tripId).Some?
    {
      var t :| t in trips && RunsToday(t, st.tripId, calendar, weekday);
      var k :| 0 <= k < |trips| && trips[k] == t;
      assert ((u: Trip) => u.tripId == st.tripId)(trips[k]);
    }
  }

  /** Sorting keeps the candidates: every sorted candidate passed the filter. */
  lemma SortedCandidatesFiltered(stopTimes: seq<StopTime>, trips: seq<Trip>, calendar: seq<Calendar>,
                                 stopId: string, weekday: Weekday, now: Time)
    ensures var here := StopTimesAt(stopTimes, stopId);
            var trs := TripsForStop(trips, stopTimes, stopId);
            var cands := SortedCandidates(stopTimes, trips, calendar, stopId, weekday, now);
            && SortedBy(cands, DepartureKey)
            && (forall st :: st in cands <==> st in Candidates(here, trs, calendar, weekday, now))
            && (forall st :: st in cands ==> FindTrip(trs, st.tripId).Some?)
  {
    var here := StopTimesAt(stopTimes, stopId);
    var trs := TripsForStop(trips, stopTimes, stopId);
    var filtered := Candidates(here, trs, calendar, weekday, now);
    var cands := SortByDeparture(filtered);
    CandidatesHaveTrips(here, trs, calendar, weekday, now);
    forall st ensures st in cands <==> st in filtered {
      assert st in cands <==> st in multiset(cands);
      assert st in filtered <==> st in multiset(filtered);
    }
  }

  /** While there are enough distinct departures, the result is the first `qty` of them. */
  lemma NextForStopPrefix(stopTimes: seq<StopTime>, trips: seq<Trip>, calendar: Option<seq<Calendar>>,
                          routes: Option<seq<Route>>, stops: Option<seq<Stop>>,
                          stopId: string, qty: nat, weekday: Weekday, now: Time)
    requires calendar.Some? && routes.Some?
    requires qty <= |Distinct(stopTimes, trips, calendar.value, routes.value, stops, stopId, weekday, now)|
    ensures NextForStop(stopTimes, trips, calendar, routes, stops, stopId, qty, weekday, now)
            == Success(Distinct(stopTimes, trips, calendar.value, routes.value, stops, stopId, weekday, now)[..qty])
  {
  }

  /** Every distinct departure has a stop time and a trip, so it has a headsign. */
  lemma DistinctHaveTrips(stopTimes: seq<StopTime>, trips: seq<Trip>, calendar: seq<Calendar>, routes: seq<Route>,
                          stops: Option<seq<Stop>>, stopId: string, weekday: Weekday, now: Time)
    ensures var d := Distinct(stopTimes, trips, calendar, routes, stops, stopId, weekday, now);
            forall k :: 0 <= k < |d| ==> d[k].stopTime.Some? && d[k].trip.Some? && Headsign(d[k]).Some?
  {
    var ctx := LookupFor(stopTimes, trips, routes, stops, stopId);
    var cands := SortedCandidates(stopTimes, trips, calendar, stopId, weekday, now);
    SortedCandidatesFiltered(stopTimes, trips, calendar, stopId, weekday, now);
    ListedProperties(ctx, cands);
  }

  /**
   * `getNextForStop` throws "Calendar not loaded" or "Routes not loaded" when
   * those tables are missing. Otherwise it returns exactly `qty` slots, the
   * distinct departures first and then at most one slot with no stop time,
   * trip or route, or it throws a TypeError exactly when `qty` exceeds the
   * distinct departures by two or more.
   */
  lemma NextForStopOutcome(stopTimes: seq<StopTime>, trips: seq<Trip>, calendar: Option<seq<Calendar>>,
                           routes: Option<seq<Route>>, stops: Option<seq<Stop>>,
                           stopId: string, qty: int, weekday: Weekday, now: Time)
    ensures var r := NextForStop(stopTimes, trips, calendar, routes, stops, stopId, qty, weekday, now);
            && (calendar.None? ==> r == Failure(CalendarNotLoaded))
            && (calendar.Some? && routes.None? ==> r == Failure(RoutesNotLoaded))
            && (calendar.Some? && routes.Some? ==>
                  var d := Distinct(stopTimes, trips, calendar.value, routes.value, stops, stopId, weekday, now);
                  && (r.Failure? <==> qty >= |d| + 2)
                  && (r.Failure? ==> r.error == ReadOfUndefined)
                  && (r.Success? ==>
                        && |r.value| == (if qty < 0 then 0 else qty)
                        && (forall k :: 0 <= k < |r.value| && k < |d| ==> r.value[k] == d[k])
                        && (forall k :: |d| <= k < |r.value| ==>
                              && k == |d|
                              && r.value[k] == StopTripData(FindStop(stops, stopId), None, None, None))))
  {
    if calendar.Some? && routes.Some? {
      var ctx := LookupFor(stopTimes, trips, routes.value, stops, stopId);
      var cands := SortedCandidates(stopTimes, trips, calendar.value, stopId, weekday, now);
      SortedCandidatesFiltered(stopTimes, trips, calendar.value, stopId, weekday, now);
      ListedProperties(ctx, cands);
      FillOutcome(Listed(ctx, cands), qty, Pad(ctx));
    }
  }

  /** Every real slot of a result is an upcoming stop time at the stop, on a trip running today. */
  lemma NextForStopUpcoming(stopTimes: seq<StopTime>, trips: seq<Trip>, calendar: Option<seq<Calendar>>,
                            routes: Option<seq<Route>>, stops: Option<seq<Stop>>,
                            stopId: string, qty: int, weekday: Weekday, now: Time)
    requires NextForStop(stopTimes, trips, calendar, routes, stops, stopId, qty, weekday, now).Success?
    ensures var rs := NextForStop(stopTimes, trips, calendar, routes, stops, stopId, qty, weekday, now).value;
            forall k :: 0 <= k < |rs| && rs[k].stopTime.Some? ==>
              var st := rs[k].stopTime.value;
              && st in stopTimes && st.stopId == stopId
              && st.departureTime != ""
              && ParseDepartureTime(st.departureTime).Some?
              && Instant(ParseDepartureTime(st.departureTime).value) >= Instant(now)
              && exists t :: t in trips && RunsToday(t, st.tripId, calendar.value, weekday)
  {
    var ctx := LookupFor(stopTimes, trips, routes.value, stops, stopId);
    var here := StopTimesAt(stopTimes, stopId);
    var trs := TripsForStop(trips, stopTimes, stopId);
    var cands := SortedCandidates(stopTimes, trips, calendar.value, stopId, weekday, now);
    var d := Listed(ctx, cands);
    var rs := NextForStop(stopTimes, trips, calendar, routes, stops, stopId, qty, weekday, now).value;
    SortedCandidatesFiltered(stopTimes, trips, calendar.value, stopId, weekday, now);
    ListedProperties(ctx, cands);
    FillOutcome(d, qty, Pad(ctx));
    forall k | 0 <= k < |rs| && rs[k].stopTime.Some?
      ensures var st := rs[k].stopTime.value;
              && st in here
              && st.departureTime != ""
              && ParseDepartureTime(st.departureTime).Some?
              && Instant(ParseDepartureTime(st.departureTime).value) >= Instant(now)
              && exists t :: t in trs && RunsToday(t, st.tripId, calendar.value, weekday)
    {
      assert k < |d| && rs[k] == d[k];
    }
  }

  /**
   * The slots of a result are in departure order, and no slot repeats the
   * line, headsign and departure time of the slot before it.
   */
  lemma NextForStopOrdered(stopTimes: seq<StopTime>, trips: seq<Trip>, calendar: Option<seq<Calendar>>,
                           routes: Option<seq<Route>>, stops: Option<seq<Stop>>,
                           stopId: string, qty: int, weekday: Weekday, now: Time)
    requires NextForStop(stopTimes, trips, calendar, routes, stops, stopId, qty, weekday, now).Success?
    ensures var rs := NextForStop(stopTimes, trips, calendar, routes, stops, stopId, qty, weekday, now).value;
            && (forall j, k :: 0 <= j < k < |rs| && rs[j].stopTime.Some? && rs[k].stopTime.Some? ==>
                  DepartureKey(rs[j].stopTime.value) <= DepartureKey(rs[k].stopTime.value))
            && (forall k :: 0 < k < |rs| ==> ListingOf(rs[k]) != ListingOf(rs[k - 1]))
  {
    var ctx := LookupFor(stopTimes, trips, routes.value, stops, stopId);
    var cands := SortedCandidates(stopTimes, trips, calendar.value, stopId, weekday, now);
    var d := Listed(ctx, cands);
    var rs := NextForStop(stopTimes, trips, calendar, routes, stops, stopId, qty, weekday, now).value;
    SortedCandidatesFiltered(stopTimes, trips, calendar.value, stopId, weekday, now);
    ListedProperties(ctx, cands);
    FillOrdered(d, qty, Pad(ctx));
  }

  /**
   * A stop with no stop times gives one slot with nothing but the stop for
   * `qty` 1, and throws for any larger `qty`.
   */
  lemma UnknownStop(stopTimes: seq<StopTime>, trips: seq<Trip>, calendar: Option<seq<Calendar>>,
                    routes: Option<seq<Route>>, stops: Option<seq<Stop>>,
                    stopId: string, qty: int, weekday: Weekday, now: Time)
    requires calendar.Some? && routes.Some?
    requires forall st :: st in stopTimes ==> st.stopId != stopId
    ensures var r := NextForStop(stopTimes, trips, calendar, routes, stops, stopId, qty, weekday, now);
            && (qty == 1 ==> r == Success([StopTripData(FindStop(stops, stopId), None, None, None)]))
            && (qty >= 2 ==> r == Failure(ReadOfUndefined))
  {
    var here := StopTimesAt(stopTimes, stopId);
    var trs := TripsForStop(trips, stopTimes, stopId);
    var cands := SortedCandidates(stopTimes, trips, calendar.value, stopId, weekday, now);
    assert here == [];
    assert |Candidates(here, trs, calendar.value, weekday, now)| == 0;
    assert |cands| == 0 by {
      assert |multiset(cands)| == |multiset(Candidates(here, trs, calendar.value, weekday, now))|;
    }
    var ctx := LookupFor(stopTimes, trips, routes.value, stops, stopId);
    assert Listed(ctx, cands) == [];
    NextForStopOutcome(stopTimes, trips, calendar, routes, stops, stopId, qty, weekday, now);
    var r := NextForStop(stopTimes, trips, calendar, routes, stops, stopId, qty, weekday, now);
    if qty == 1 {
      assert r.value == [StopTripData(FindStop(stops, stopId), None, None, None)];
    }
  }
}
