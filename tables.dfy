/** Lookups over the loaded schedule tables: order-preserving filters and first-match finds. */
module Tables {
  import opened Wrappers
  import opened Seqs
  import opened GtfsTypes

  function AtStop(stopId: string): StopTime -> bool {
    (st: StopTime) => st.stopId == stopId
  }

  /** `getStopTimesForStop`: the loaded stop times at `stopId`. */
  function StopTimesAt(stopTimes: seq<StopTime>, stopId: string): (r: seq<StopTime>)
    ensures forall st :: st in r <==> st in stopTimes && st.stopId == stopId
  {
    Filter(stopTimes, AtStop(stopId))
  }

  /** The lookup keeps load order and the multiplicity of every matching row. */
  lemma StopTimesAtExact(a: seq<StopTime>, b: seq<StopTime>, stopId: string)
    ensures StopTimesAt(a + b, stopId) == StopTimesAt(a, stopId) + StopTimesAt(b, stopId)
    ensures forall st :: multiset(StopTimesAt(a, stopId))[st]
                         == if st.stopId == stopId then multiset(a)[st] else 0
  {
    FilterAppend(a, b, AtStop(stopId));
    FilterCount(a, AtStop(stopId));
  }

  /** `stopTimes.map(st => st.trip_id)`. */
  function TripIds(stopTimes: seq<StopTime>): (r: seq<string>)
    ensures forall id :: id in r <==> exists st :: st in stopTimes && st.tripId == id
  {
    var r := seq(|stopTimes|, k requires 0 <= k < |stopTimes| => stopTimes[k].tripId);
    assert forall k :: 0 <= k < |stopTimes| ==> r[k] == stopTimes[k].tripId;
    r
  }

  function WithTripIdIn(ids: seq<string>): Trip -> bool {
    (t: Trip) => t.tripId in ids
  }

  /**
   * `getTripsForStop`: the loaded trips whose `trip_id` occurs among the stop
   * times at `stopId`.
   */
  function TripsForStop(trips: seq<Trip>, stopTimes: seq<StopTime>, stopId: string): (r: seq<Trip>)
    ensures forall t :: t in r <==>
      t in trips && exists st :: st in stopTimes && st.stopId == stopId && st.tripId == t.tripId
  {
    Filter(trips, WithTripIdIn(TripIds(StopTimesAt(stopTimes, stopId))))
  }

  /** The trip lookup keeps trips-table order and multiplicity. */
  lemma TripsForStopExact(a: seq<Trip>, b: seq<Trip>, stopTimes: seq<StopTime>, stopId: string)
    ensures TripsForStop(a + b, stopTimes, stopId)
            == TripsForStop(a, stopTimes, stopId) + TripsForStop(b, stopTimes, stopId)
    ensures forall t :: multiset(TripsForStop(a, stopTimes, stopId))[t]
                        == if t.tripId in TripIds(StopTimesAt(stopTimes, stopId)) then multiset(a)[t] else 0
  {
    var p := WithTripIdIn(TripIds(StopTimesAt(stopTimes, stopId)));
    FilterAppend(a, b, p);
    FilterCount(a, p);
  }

  /** `trips.find(t => t.trip_id === tripId)`. */
  function FindTrip(trips: seq<Trip>, tripId: string): Option<Trip> {
    Find(trips, (t: Trip) => t.tripId == tripId)
  }

  /** `routes.find(r => r.route_id === routeId)`. */
  function FindRoute(routes: seq<Route>, routeId: string): Option<Route> {
    Find(routes, (r: Route) => r.routeId == routeId)
  }

  /** `stops?.find(s => s.stop_id === stopId)`: undefined when stops.txt is not loaded. */
  function FindStop(stops: Option<seq<Stop>>, stopId: string): Option<Stop> {
    match stops
    case None => None
    case Some(rows) => Find(rows, (s: Stop) => s.stopId == stopId)
  }

  /** `calendar.find(c => c.service_id === serviceId)`: the first row of the service. */
  function FindCalendar(calendar: seq<Calendar>, serviceId: string): Option<Calendar> {
    Find(calendar, (c: Calendar) => c.serviceId == serviceId)
  }
}
