/**
 * The `Gtfs` object: the static tables it loaded, the cached realtime feed,
 * and its queries. The clock is a parameter of each query (`weekday` and
 * `now` for the static tables; `nowMs` for the freshness test of the cache
 * and `fetchedMs`, the clock read again once the feed has arrived, for its
 * new stamp), and the realtime feed the network would deliver is the
 * parameter `upstream`.
 */
module GtfsService {
  import opened Wrappers
  import opened GtfsTypes
  import opened DepartureTime
  import opened Tables
  import opened NextDepartures
  import opened Realtime
  import opened Display
  import opened Seqs

  /** The stop whose buses and the stop whose trams `arduinoOutput` shows. */
  const BusStop := "U1252Z2"
  const TramStop := "U1659Z2"

  /** `getNextForStop` on tables that may be missing: the query reads stop times and trips first. */
  function NextOnTables(stopTimes: Option<seq<StopTime>>, trips: Option<seq<Trip>>,
                        calendar: Option<seq<Calendar>>, routes: Option<seq<Route>>, stops: Option<seq<Stop>>,
                        stopId: string, qty: int, weekday: Weekday, now: Time): Result<seq<StopTripData>, GtfsError>
  {
    if stopTimes.None? || trips.None? then Failure(StaticNotLoaded)
    else NextForStop(stopTimes.value, trips.value, calendar, routes, stops, stopId, qty, weekday, now)
  }

  /** The departures `arduinoOutput` reads at a stop, when the tables it needs are loaded. */
  function Departures(stopTimes: Option<seq<StopTime>>, trips: Option<seq<Trip>>,
                      calendar: Option<seq<Calendar>>, routes: Option<seq<Route>>, stops: Option<seq<Stop>>,
                      stopId: string, weekday: Weekday, now: Time): seq<StopTripData>
    requires stopTimes.Some? && trips.Some? && calendar.Some? && routes.Some?
  {
    Distinct(stopTimes.value, trips.value, calendar.value, routes.value, stops, stopId, weekday, now)
  }

  /**
   * The outcome of `getNextForStop` on the object's tables: a missing stop-time
   * or trip table fails first, then a missing calendar, then missing routes;
   * with all four loaded, the query fails reading past the end exactly when
   * `qty` exceeds the distinct departures by two or more, and otherwise fills
   * `qty` slots with the distinct departures in departure order, no listing
   * repeating the one before it, then one empty slot for the stop.
   */
  lemma NextOnTablesOutcome(stopTimes: Option<seq<StopTime>>, trips: Option<seq<Trip>>,
                            calendar: Option<seq<Calendar>>, routes: Option<seq<Route>>, stops: Option<seq<Stop>>,
                            stopId: string, qty: int, weekday: Weekday, now: Time)
    ensures var r := NextOnTables(stopTimes, trips, calendar, routes, stops, stopId, qty, weekday, now);
            && (stopTimes.None? || trips.None? ==> r == Failure(StaticNotLoaded))
            && (stopTimes.Some? && trips.Some? && calendar.None? ==> r == Failure(CalendarNotLoaded))
            && (stopTimes.Some? && trips.Some? && calendar.Some? && routes.None? ==> r == Failure(RoutesNotLoaded))
            && (stopTimes.Some? && trips.Some? && calendar.Some? && routes.Some? ==>
                  var d := Departures(stopTimes, trips, calendar, routes, stops, stopId, weekday, now);
                  && (r.Failure? <==> qty >= |d| + 2)
                  && (r.Failure? ==> r.error == ReadOfUndefined)
                  && (r.Success? ==>
                        && |r.value| == (if qty < 0 then 0 else qty)
                        && (forall k :: 0 <= k < |r.value| && k < |d| ==> r.value[k] == d[k])
                        && (forall k :: |d| <= k < |r.value| ==>
                              && k == |d|
                              && r.value[k] == StopTripData(FindStop(stops, stopId), None, None, None))
                        && (forall j, k :: 0 <= j < k < |r.value| && r.value[j].stopTime.Some? && r.value[k].stopTime.Some? ==>
                              DepartureKey(r.value[j].stopTime.value) <= DepartureKey(r.value[k].stopTime.value))
                        && (forall k :: 0 < k < |r.value| ==> ListingOf(r.value[k]) != ListingOf(r.value[k - 1]))))
  {
    if stopTimes.Some? && trips.Some? {
      NextForStopOutcome(stopTimes.value, trips.value, calendar, routes, stops, stopId, qty, weekday, now);
      if NextForStop(stopTimes.value, trips.value, calendar, routes, stops, stopId, qty, weekday, now).Success? {
        NextForStopOrdered(stopTimes.value, trips.value, calendar, routes, stops, stopId, qty, weekday, now);
      }
    }
  }

  /** Two slots without an empty one mean two distinct departures at the stop. */
  lemma FilledSlotsNeedDepartures(stopTimes: Option<seq<StopTime>>, trips: Option<seq<Trip>>,
                                  calendar: Option<seq<Calendar>>, routes: Option<seq<Route>>,
                                  stops: Option<seq<Stop>>, stopId: string, weekday: Weekday, now: Time)
    requires var r := NextOnTables(stopTimes, trips, calendar, routes, stops, stopId, 2, weekday, now);
             r.Success? && NoEmptySlot(r.value)
    ensures stopTimes.Some? && trips.Some? && calendar.Some? && routes.Some?
    ensures |Departures(stopTimes, trips, calendar, routes, stops, stopId, weekday, now)| >= 2
  {
    var r := NextOnTables(stopTimes, trips, calendar, routes, stops, stopId, 2, weekday, now);
    NextForStopOutcome(stopTimes.value, trips.value, calendar, routes, stops, stopId, 2, weekday, now);
    assert !EmptySlot(r.value[1]);
    assert r.value[1] != StopTripData(FindStop(stops, stopId), None, None, None);
  }

  /** Two departures fill both slots of a stop; a found route gives each a line name. */
  lemma TwoDeparturesFillSlots(stopTimes: Option<seq<StopTime>>, trips: Option<seq<Trip>>,
                               calendar: Option<seq<Calendar>>, routes: Option<seq<Route>>,
                               stops: Option<seq<Stop>>, stopId: string, weekday: Weekday, now: Time)
    requires stopTimes.Some? && trips.Some? && calendar.Some? && routes.Some?
    requires |Departures(stopTimes, trips, calendar, routes, stops, stopId, weekday, now)| >= 2
    ensures var d := Departures(stopTimes, trips, calendar, routes, stops, stopId, weekday, now);
            && NextOnTables(stopTimes, trips, calendar, routes, stops, stopId, 2, weekday, now) == Success([d[0], d[1]])
            && Headsign(d[0]).Some? && Headsign(d[1]).Some?
  {
    var d := Departures(stopTimes, trips, calendar, routes, stops, stopId, weekday, now);
    var r := NextOnTables(stopTimes, trips, calendar, routes, stops, stopId, 2, weekday, now);
    assert r == Success(d[..2]) by {
      NextForStopPrefix(stopTimes.value, trips.value, calendar, routes, stops, stopId, 2, weekday, now);
    }
    FirstTwo(d);
    assert Headsign(d[0]).Some? && Headsign(d[1]).Some? by {
      DistinctHaveTrips(stopTimes.value, trips.value, calendar.value, routes.value, stops, stopId, weekday, now);
    }
  }

  /**
   * The display shows a result only when both stops have at least two
   * distinct departures left: a stop with one gets an empty slot, whose line
   * is too wide to centre, and a stop with none throws in the query.
   */
  lemma DisplayNeedsTwoDepartures(stopTimes: Option<seq<StopTime>>, trips: Option<seq<Trip>>,
                                  calendar: Option<seq<Calendar>>, routes: Option<seq<Route>>,
                                  stops: Option<seq<Stop>>, weekday: Weekday, now: Time, lineMap: map<string, string>)
    requires DisplayText(NextOnTables(stopTimes, trips, calendar, routes, stops, BusStop, 2, weekday, now),
                         NextOnTables(stopTimes, trips, calendar, routes, stops, TramStop, 2, weekday, now),
                         lineMap).Success?
    ensures stopTimes.Some? && trips.Some? && calendar.Some? && routes.Some?
    ensures |Departures(stopTimes, trips, calendar, routes, stops, BusStop, weekday, now)| >= 2
    ensures |Departures(stopTimes, trips, calendar, routes, stops, TramStop, weekday, now)| >= 2
  {
    var buses := NextOnTables(stopTimes, trips, calendar, routes, stops, BusStop, 2, weekday, now);
    var trams := NextOnTables(stopTimes, trips, calendar, routes, stops, TramStop, 2, weekday, now);
    DisplayedSlotsAreFilled(buses, trams, lineMap);
    FilledSlotsNeedDepartures(stopTimes, trips, calendar, routes, stops, BusStop, weekday, now);
    FilledSlotsNeedDepartures(stopTimes, trips, calendar, routes, stops, TramStop, weekday, now);
  }

  /**
   * With two departures at each stop whose routes are found, the display
   * shows four lines of 16 characters.
   */
  lemma DisplayShowsFourLines(stopTimes: Option<seq<StopTime>>, trips: Option<seq<Trip>>,
                              calendar: Option<seq<Calendar>>, routes: Option<seq<Route>>,
                              stops: Option<seq<Stop>>, weekday: Weekday, now: Time, lineMap: map<string, string>)
    requires stopTimes.Some? && trips.Some? && calendar.Some? && routes.Some?
    requires var b := Departures(stopTimes, trips, calendar, routes, stops, BusStop, weekday, now);
             |b| >= 2 && LineName(b[0]).Some? && LineName(b[1]).Some?
    requires var t := Departures(stopTimes, trips, calendar, routes, stops, TramStop, weekday, now);
             |t| >= 2 && LineName(t[0]).Some? && LineName(t[1]).Some?
    ensures var r := DisplayText(NextOnTables(stopTimes, trips, calendar, routes, stops, BusStop, 2, weekday, now),
                                 NextOnTables(stopTimes, trips, calendar, routes, stops, TramStop, 2, weekday, now),
                                 lineMap);
            r.Success? && |r.value| == 4 * Width
  {
    var b := Departures(stopTimes, trips, calendar, routes, stops, BusStop, weekday, now);
    var t := Departures(stopTimes, trips, calendar, routes, stops, TramStop, weekday, now);
    var buses := NextOnTables(stopTimes, trips, calendar, routes, stops, BusStop, 2, weekday, now);
    var trams := NextOnTables(stopTimes, trips, calendar, routes, stops, TramStop, 2, weekday, now);
    assert buses == Success([b[0], b[1]]) && Headsign(b[0]).Some? && Headsign(b[1]).Some? by {
      TwoDeparturesFillSlots(stopTimes, trips, calendar, routes, stops, BusStop, weekday, now);
    }
    assert trams == Success([t[0], t[1]]) && Headsign(t[0]).Some? && Headsign(t[1]).Some? by {
      TwoDeparturesFillSlots(stopTimes, trips, calendar, routes, stops, TramStop, weekday, now);
    }
    NamedPair(b[0], b[1]);
    NamedPair(t[0], t[1]);
    NamedSlotsDisplay(buses, trams, lineMap);
  }

  /** A candidate whose listing repeats the last record is spliced out. */
  lemma SkipStep(ctx: Lookup, kept: seq<StopTripData>, rest: seq<StopTime>)
    requires rest != [] && |kept| > 0 && ListingOf(Record(ctx, rest[0])) == ListingOf(kept[|kept| - 1])
    ensures CollapseOnto(ctx, kept, rest[1..]) == CollapseOnto(ctx, kept, rest)
  {
  }

  /** Any other candidate is pushed. */
  lemma PushStep(ctx: Lookup, kept: seq<StopTripData>, rest: seq<StopTime>)
    requires rest != [] && !(|kept| > 0 && ListingOf(Record(ctx, rest[0])) == ListingOf(kept[|kept| - 1]))
    ensures CollapseOnto(ctx, kept + [Record(ctx, rest[0])], rest[1..]) == CollapseOnto(ctx, kept, rest)
  {
  }

  /**
   * The loop of `getNextForStop` over the sorted candidates `next`: each slot
   * takes the candidate at `i` with its first trip and route, or nothing once
   * the candidates have run out; a candidate whose line, headsign and
   * departure time repeat the previous slot is spliced out of `next`.
   */
  method FillSlots(next0: seq<StopTime>, trips: seq<Trip>, routes: seq<Route>, stop: Option<Stop>, qty: int)
    returns (r: Result<seq<StopTripData>, GtfsError>)
    ensures var ctx := Lookup(trips, routes, stop);
            r == Fill(Listed(ctx, next0), qty, Pad(ctx))
  {
    var next := next0;
    ghost var ctx := Lookup(trips, routes, stop);
    ghost var listed := Listed(ctx, next);
    var res: seq<StopTripData> := [];
    var i := 0;
    while i < qty
      invariant 0 <= i == |res|
      invariant i <= qty || i == 0
      invariant i <= |next| ==> CollapseOnto(ctx, res, next[i..]) == listed
      invariant i > |next| ==> i == |next| + 1 && res == listed + [Pad(ctx)]
      invariant i > |next| ==> |listed| == 0 || LineName(listed[|listed| - 1]).Some?
                               || Headsign(listed[|listed| - 1]).Some?
      decreases qty - i + |next|
    {
      var nextTrip := if i < |next| then FindTrip(trips, next[i].tripId) else None;
      var nextRoute := match nextTrip
                       case None => None
                       case Some(t) => FindRoute(routes, t.routeId);
      var obj := StopTripData(stop, if i < |next| then Some(next[i]) else None, nextTrip, nextRoute);
      if i > 0 && LineName(obj) == LineName(res[i - 1]) && Headsign(obj) == Headsign(res[i - 1]) {
        if i >= |next| {
          // `nextStopTimes[i].departure_time` of a missing stop time
          return Failure(ReadOfUndefined);
        }
        if Some(next[i].departureTime) == DepartureText(res[i - 1]) {
          ghost var before := next;
          next := next[..i] + next[i + 1..];
          assert CollapseOnto(ctx, res, next[i..]) == listed by {
            assert next[i..] == before[i + 1..];
            SkipStep(ctx, res, before[i..]);
          }
          continue;
        }
      }
      if i < |next| {
        assert CollapseOnto(ctx, res + [obj], next[i + 1..]) == listed by {
          assert next[i + 1..] == next[i..][1..];
          PushStep(ctx, res, next[i..]);
        }
      }
      res := res + [obj];
      i := i + 1;
    }
    CollapseKeepsPrefix(ctx, res, if i <= |next| then next[i..] else []);
    return Success(res);
  }

  /** The push loop of `arduinoOutput`: one line per slot, or the first slot's error. */
  method FormatLines(all: seq<StopTripData>, lineMap: map<string, string>) returns (r: Result<seq<string>, GtfsError>)
    ensures r == FormatAll(all, lineMap)
  {
    var res: seq<string> := [];
    for k := 0 to |all|
      invariant MapAll(all[..k], Formatter(lineMap)) == Success(res)
    {
      var line := FormatLine(all[k], lineMap);
      MapAllStep(all, k, Formatter(lineMap));
      if line.Failure? {
        MapAllKeepsFailure(all, k + 1, Formatter(lineMap));
        return Failure(line.error);
      }
      res := res + [line.value];
    }
    assert all[..|all|] == all;
    return Success(res);
  }

  /** `res.sort()` on the lines, then `res.join("")`. */
  method SortAndJoin(lines: seq<string>) returns (text: string)
    ensures text == Join(SortLines(lines))
  {
    var a := new string[|lines|](j => if 0 <= j < |lines| then lines[j] else "");
    assert a[..] == lines;
    SortInPlace(a);
    SortedIsUnique(a[..], SortLines(lines));
    text := Join(a[..]);
  }

  class Gtfs {
    var agency: Option<seq<Agency>>
    var calendar: Option<seq<Calendar>>
    var calendarDates: Option<seq<CalendarDate>>
    var routes: Option<seq<Route>>
    var stopTimes: Option<seq<StopTime>>
    var stops: Option<seq<Stop>>
    var trips: Option<seq<Trip>>

    var rtFeed: Option<FeedMessage>
    /** When the cached feed was fetched, in milliseconds. */
    var rtCacheDate: Option<int>

    /** The object once `loadStaticGtfs` has settled: a table it could not load stays missing. */
    constructor (agency: Option<seq<Agency>>, calendar: Option<seq<Calendar>>,
                 calendarDates: Option<seq<CalendarDate>>, routes: Option<seq<Route>>,
                 stopTimes: Option<seq<StopTime>>, stops: Option<seq<Stop>>, trips: Option<seq<Trip>>)
      ensures this.agency == agency && this.calendar == calendar && this.calendarDates == calendarDates
      ensures this.routes == routes && this.stopTimes == stopTimes && this.stops == stops && this.trips == trips
      ensures rtFeed.None? && rtCacheDate.None?
    {
      this.agency := agency;
      this.calendar := calendar;
      this.calendarDates := calendarDates;
      this.routes := routes;
      this.stopTimes := stopTimes;
      this.stops := stops;
      this.trips := trips;
      rtFeed := None;
      rtCacheDate := None;
    }

    /** `getStopTimesForStop`: the stop times at the stop, in table order. */
    function GetStopTimesForStop(stopId: string): (r: Result<seq<StopTime>, GtfsError>)
      reads this
      ensures r.Success? <==> stopTimes.Some?
      ensures r.Success? ==> forall st :: st in r.value <==> st in stopTimes.value && st.stopId == stopId
    {
      if stopTimes.None? then Failure(StaticNotLoaded) else Success(StopTimesAt(stopTimes.value, stopId))
    }

    /** `getTripsForStop`: the trips with a stop time at the stop, in table order. */
    function GetTripsForStop(stopId: string): (r: Result<seq<Trip>, GtfsError>)
      reads this
      ensures r.Success? <==> stopTimes.Some? && trips.Some?
      ensures r.Success? ==> forall t :: t in r.value <==>
                t in trips.value && exists st :: st in stopTimes.value && st.stopId == stopId && st.tripId == t.tripId
    {
      if trips.None? || stopTimes.None? then Failure(StaticNotLoaded)
      else Success(TripsForStop(trips.value, stopTimes.value, stopId))
    }

    /**
     * `getNextForStop(stopId, qty)`: filter, sort, then fill `qty` slots,
     * splicing out a candidate that repeats the slot before it.
     */
    method GetNextForStop(stopId: string, qty: int, weekday: Weekday, now: Time)
      returns (r: Result<seq<StopTripData>, GtfsError>)
      ensures r == NextOnTables(stopTimes, trips, calendar, routes, stops, stopId, qty, weekday, now)
      ensures r.Success? ==> |r.value| == (if qty < 0 then 0 else qty)
    {
      var here :- GetStopTimesForStop(stopId);
      var trs :- GetTripsForStop(stopId);
      if calendar.None? {
        return Failure(CalendarNotLoaded);
      } else if routes.None? {
        return Failure(RoutesNotLoaded);
      }
      NextForStopOutcome(stopTimes.value, trips.value, calendar, routes, stops, stopId, qty, weekday, now);
      var next := SortByDeparture(Candidates(here, trs, calendar.value, weekday, now));
      r := FillSlots(next, trs, routes.value, FindStop(stops, stopId), qty);
    }
  
    /**
     * `fetchRealtimeGtfs`: the cached feed while it is fresh at `nowMs`;
     * otherwise the feed the network delivers, which becomes the cache,
     * stamped with the clock read after it arrived (`fetchedMs`).
     */
    method FetchRealtimeGtfs(nowMs: int, fetchedMs: int, upstream: FeedMessage) returns (feed: FeedMessage)
      modifies this`rtFeed, this`rtCacheDate
      ensures CacheFresh(old(rtFeed), old(rtCacheDate), nowMs) ==>
                feed == old(rtFeed).value && rtFeed == old(rtFeed) && rtCacheDate == old(rtCacheDate)
      ensures !CacheFresh(old(rtFeed), old(rtCacheDate), nowMs) ==>
                feed == upstream && rtFeed == Some(upstream) && rtCacheDate == Some(fetchedMs)
      ensures !CacheFresh(old(rtFeed), old(rtCacheDate), nowMs) ==> CacheFresh(rtFeed, rtCacheDate, fetchedMs)
      ensures nowMs <= fetchedMs ==> CacheFresh(rtFeed, rtCacheDate, nowMs)
    {
      if rtFeed.Some? && rtCacheDate.Some? {
        if DiffSeconds(nowMs, rtCacheDate.value) < RtCacheSeconds {
          return rtFeed.value;
        }
      }
      rtFeed := Some(upstream);
      rtCacheDate := Some(fetchedMs);
      return upstream;
    }

    /** `getRealtimeForTrip`: the first entity of the served feed whose vehicle runs the trip. */
    method GetRealtimeForTrip(tripId: string, nowMs: int, fetchedMs: int, upstream: FeedMessage)
      returns (e: Option<FeedEntity>)
      modifies this`rtFeed, this`rtCacheDate
      ensures rtFeed.Some? && e == EntityForTrip(rtFeed.value.entity, tripId)
      ensures !CacheFresh(old(rtFeed), old(rtCacheDate), nowMs) ==>
                rtFeed == Some(upstream) && rtCacheDate == Some(fetchedMs)
      ensures CacheFresh(old(rtFeed), old(rtCacheDate), nowMs) ==>
                rtFeed == old(rtFeed) && rtCacheDate == old(rtCacheDate)
      ensures nowMs <= fetchedMs ==> CacheFresh(rtFeed, rtCacheDate, nowMs)
    {
      var feed := FetchRealtimeGtfs(nowMs, fetchedMs, upstream);
      e := EntityForTrip(feed.entity, tripId);
    }

    /**
     * `arduinoOutput`: two slots for the bus stop and two for the tram stop,
     * one centred 16-character line each, sorted and joined.
     */
    method ArduinoOutput(weekday: Weekday, now: Time, lineMap: map<string, string>)
      returns (r: Result<string, GtfsError>)
      ensures r == DisplayText(NextOnTables(stopTimes, trips, calendar, routes, stops, BusStop, 2, weekday, now),
                               NextOnTables(stopTimes, trips, calendar, routes, stops, TramStop, 2, weekday, now),
                               lineMap)
      ensures r.Success? ==> |r.value| == 4 * Width
    {
      var nextBuses :- GetNextForStop(BusStop, 2, weekday, now);
      var nextTrams :- GetNextForStop(TramStop, 2, weekday, now);
      var lines :- FormatLines(nextBuses + nextTrams, lineMap);
      var text := SortAndJoin(lines);
      return Success(text);
    }
  }
}
