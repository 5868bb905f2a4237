/**
 * The realtime feed as the decoder delivers it, the time-to-live test of the
 * cache, and the lookup of a trip's entity.
 */
module Realtime {
  import opened Wrappers
  import opened Seqs

  datatype TripDescriptor = TripDescriptor(tripId: Option<string>)
  datatype VehiclePosition = VehiclePosition(trip: Option<TripDescriptor>)
  datatype FeedEntity = FeedEntity(id: string, vehicle: Option<VehiclePosition>)
  datatype FeedMessage = FeedMessage(entity: seq<FeedEntity>)

  /** How long a fetched feed is served from the cache. */
  const RtCacheSeconds := 30

  /** moment's `diff(..., "seconds")` of two millisecond instants: truncated toward zero. */
  function DiffSeconds(nowMs: int, thenMs: int): int {
    if nowMs >= thenMs then (nowMs - thenMs) / 1000 else -((thenMs - nowMs) / 1000)
  }

  /** A feed is cached and younger than the time-to-live, counted in whole seconds. */
  predicate CacheFresh(feed: Option<FeedMessage>, cachedAtMs: Option<int>, nowMs: int) {
    feed.Some? && cachedAtMs.Some? && DiffSeconds(nowMs, cachedAtMs.value) < RtCacheSeconds
  }

  /**
   * A feed cached at `cachedAtMs` is served until 30 seconds have passed, and
   * is fetched again from then on; a clock that went backwards keeps it fresh.
   */
  lemma FreshnessWindow(feed: FeedMessage, cachedAtMs: int, nowMs: int)
    ensures CacheFresh(Some(feed), Some(cachedAtMs), nowMs) <==> nowMs < cachedAtMs + RtCacheSeconds * 1000
  {
    if nowMs >= cachedAtMs {
      var d := nowMs - cachedAtMs;
      assert d / 1000 < 30 <==> d < 30000;
    } else {
      assert (cachedAtMs - nowMs) / 1000 >= 0;
    }
  }

  function VehicleTripId(e: FeedEntity): Option<string> {
    match e.vehicle
    case None => None
    case Some(v) =>
      match v.trip
      case None => None
      case Some(t) => t.tripId
  }

  /** `feed.entity.find(e => e.vehicle?.trip?.tripId === tripId)`. */
  function EntityForTrip(entities: seq<FeedEntity>, tripId: string): (r: Option<FeedEntity>)
    ensures r.None? <==> forall k :: 0 <= k < |entities| ==> VehicleTripId(entities[k]) != Some(tripId)
    ensures r.Some? ==> exists k :: 0 <= k < |entities| && entities[k] == r.value
                                    && VehicleTripId(r.value) == Some(tripId)
                                    && forall j :: 0 <= j < k ==> VehicleTripId(entities[j]) != Some(tripId)
  {
    Find(entities, (e: FeedEntity) => VehicleTripId(e) == Some(tripId))
  }
}
