# GTFS next departures, in Dafny

This project models the `Gtfs` service of a small transit display. It keeps
the static GTFS Schedule tables (agency, calendar, calendar dates, routes,
stop times, stops, trips) and a cached GTFS Realtime feed. It answers three
queries:

- **the next departures at a stop** (`getNextForStop`): stop times still to
  come today, on a trip whose service runs today, sorted by departure time,
  with back-to-back duplicates spliced out, filling `qty` slots;
- **the realtime entity of a trip** (`getRealtimeForTrip`): served from a
  cache that lives for 30 seconds;
- **the text for a 16-character Arduino display** (`arduinoOutput`): two
  slots for a bus stop and two for a tram stop, one centred line each. The
  lines are sorted and joined.

Layout:

- `wrappers.dfy`: `Option` and `Result`.
- `text.dfy`: digits, `split(":")`, padding and the JavaScript substring clamp.
- `seqs.dfy` and `sorting.dfy`: `filter`, `find`, a map that stops at the first error, and a stable sort.
- `gtfs_types.dfy`: the GTFS records and the errors the service throws.
- `departure_time.dfy`: `parseDepartureTime`, including hours past 24.
- `tables.dfy`: the per-stop lookups.
- `next_departures.dfy`: the specification of the query.
- `display.dfy`: the display text.
- `realtime.dfy`: the feed, the cache test and the trip lookup.
- `gtfs.dfy`: the `Gtfs` class.

The functions in `next_departures.dfy` and `display.dfy` say what the queries
compute. The class's methods (`GetNextForStop` with its loop in `FillSlots`,
`ArduinoOutput` with `FormatLines` and the in-place `SortInPlace`) are proved
to compute exactly that.

An exception thrown by the source becomes a `Failure` value:

- `StaticNotLoaded`: a stop-time or trip table that is missing after loading.
- `CalendarNotLoaded`: "Calendar not loaded".
- `RoutesNotLoaded`: "Routes not loaded".
- `ReadOfUndefined`: the TypeError raised when the loop reads `departure_time` of a slot past the end.
- `InvalidRepeatCount`: the RangeError of `" ".repeat` with a negative count.

Two readings differ from a plain description of the service:

- The model reports the source's errors as values. It does not assume that
  every table is present.
- The source sorts with moment's `diff`. In the model's filter only stop
  times whose departure text parses survive, so sorting by the parsed instant
  is the same comparison. In the source an unparsable time is an invalid
  moment: `isBefore` is false for it, so it is kept, and the sort compares it
  as NaN. The model follows the intended reading here; see the line about
  unparsable times under "## Left out" and the row under "## Findings".

## Model

| member | source | states |
|---|---|---|
| Tables.StopTimesAt | src/index.ts:136-144 | a stop time is returned exactly when it is loaded and its `stop_id` is the stop |
| Tables.StopTimesAtExact | src/index.ts:141-143 | the lookup keeps table order (it distributes over concatenation) and keeps each matching row as often as it occurs |
| Tables.TripIds | src/index.ts:152 | an id is listed exactly when some stop time carries it |
| Tables.TripsForStop | src/index.ts:146-156 | a trip is returned exactly when it is loaded and some stop time at the stop has its `trip_id` |
| Tables.TripsForStopExact | src/index.ts:153-155 | the trip lookup keeps trips-table order and multiplicity |
| GtfsService.Gtfs.GetStopTimesForStop | src/index.ts:136-144 | fails when stop times are not loaded; otherwise returns the stop times at the stop |
| GtfsService.Gtfs.GetTripsForStop | src/index.ts:146-156 | fails when trips or stop times are not loaded; otherwise returns the trips that call at the stop |
| DepartureTime.ParseDepartureTime | src/index.ts:158-165 | a parsed time is on the current day or the next, and a current-day time lies within that day |
| DepartureTime.ParsedInstant | src/index.ts:158-165 | a parsed time has minutes and seconds below 60, and its instant is h·3600 + m·60 + s from the start of today |
| DepartureTime.ParseClockText | src/index.ts:159-164 | "HH:MM:SS" with valid minutes and seconds always parses; an hour of 24 or more is placed on the next day, with the instant its fields denote |
| DepartureTime.PastMidnightOrdersLater | src/index.ts:159-164 | a time with an hour of 24 or more orders after every time with a smaller hour |
| DepartureTime.PostMidnightExample | src/index.ts:159-164 | "25:10:00" is 01:10 on the next day and orders after "23:50:00" |
| DepartureTime.HHMMOfClockText | src/index.ts:294-299 | the "HH:mm" of a parsed "HH:MM:SS" is its hour modulo 24 and its minute |
| DepartureTime.MomentDepartureTime | src/index.ts:161-164 | the parse as moment runs it: when it gives a time, the intended parse gives one too, and both agree for hours below 24 |
| DepartureTime.MomentRejectsPastMidnight | src/index.ts:161-162 | every well-formed time after 24:00:00 has no time as the code runs it, but a next-day time as intended |
| DepartureTime.MomentPostMidnightExample | src/index.ts:161-162 | "25:10:00" is invalid as written and 01:10 tomorrow as intended |
| NextDepartures.Candidates | src/index.ts:184-203 | a stop time passes the filter exactly when its departure is present, parses, is not before now, and some trip with its `trip_id` and a non-empty service runs today |
| NextDepartures.ServingTripFound | src/index.ts:191-201 | `trips.find` in the filter finds a trip exactly when some trip runs today by the first calendar row of its service |
| NextDepartures.SortByDeparture | src/index.ts:205-210 | the sort is a permutation, in non-decreasing departure order |
| NextDepartures.SortByDepartureIsStable | src/index.ts:206-210 | stop times with equal departure keep their relative order |
| NextDepartures.CollapseKeepsPrefix | src/index.ts:225-244 | a record, once pushed, is never removed |
| NextDepartures.CollapseNoRepeats | src/index.ts:225-236 | no pushed record repeats the line, headsign and departure time of the record before it |
| NextDepartures.CollapseRecords | src/index.ts:214-244 | every pushed record is the record of a candidate, with its first trip and route, in departure order |
| NextDepartures.CollapseListings | src/index.ts:225-236 | splicing loses no listing: every candidate's line, headsign and departure time is pushed |
| NextDepartures.ListedProperties | src/index.ts:212-245 | over sorted candidates that all have a trip, the pushed records have no adjacent repeats, are sorted, have a stop time and a trip, and cover every candidate listing |
| NextDepartures.FillOutcome | src/index.ts:214-245 | the loop yields exactly `qty` slots (none when `qty` ≤ 0), the records first and then at most one empty slot; it throws exactly when `qty` exceeds the records by two or more |
| NextDepartures.FillOrdered | src/index.ts:214-245 | filling keeps the slots sorted and free of adjacent repeats |
| NextDepartures.CandidatesHaveTrips | src/index.ts:191-202 | every candidate's `trip_id` finds a trip |
| NextDepartures.SortedCandidatesFiltered | src/index.ts:184-210 | the sorted candidates are sorted, are exactly the filtered stop times, and each finds a trip |
| NextDepartures.NextForStopPrefix | src/index.ts:212-247 | while there are enough distinct departures, the result is the first `qty` of them |
| NextDepartures.DistinctHaveTrips | src/index.ts:215-217 | every distinct departure has a stop time, a trip and so a headsign |
| NextDepartures.NextForStopOutcome | src/index.ts:174-247 | missing calendar or routes throw their errors; otherwise the result has exactly `qty` slots, the distinct departures then at most one slot holding only the stop, or it throws exactly when `qty` ≥ distinct + 2 |
| NextDepartures.NextForStopUpcoming | src/index.ts:184-203 | every filled slot is a stop time at the stop, not before now, on a trip running today |
| NextDepartures.NextForStopOrdered | src/index.ts:205-236 | the slots are in departure order and no slot repeats the listing of the one before |
| NextDepartures.UnknownStop | src/index.ts:212-247 | a stop without stop times gives one slot holding only the stop for `qty` 1, and throws for `qty` ≥ 2 |
| GtfsService.NextOnTablesOutcome | src/index.ts:136-247 | on the object's tables: a missing stop-time or trip table fails first, then a missing calendar, then missing routes; with all loaded it throws exactly when `qty` ≥ distinct + 2, and otherwise gives exactly `qty` slots, the distinct departures in departure order without adjacent repeats, then at most one slot holding only the stop |
| GtfsService.FillSlots | src/index.ts:212-247 | the loop with its splice computes exactly the records of the collapsed candidates filled to `qty` |
| GtfsService.Gtfs.GetNextForStop | src/index.ts:167-248 | the method returns what the query specifies, with exactly `qty` slots on success |
| GtfsService.FilledSlotsNeedDepartures | src/index.ts:212-247 | two slots with no empty one mean that every table is loaded and there are at least two distinct departures |
| GtfsService.TwoDeparturesFillSlots | src/index.ts:212-247 | with two distinct departures, `qty` 2 returns exactly those two, both with a headsign |
| Realtime.FreshnessWindow | src/index.ts:61-67 | a cached feed is served exactly while less than 30 000 ms have passed since it was fetched |
| GtfsService.Gtfs.FetchRealtimeGtfs | src/index.ts:60-89 | a cache fresh at the first clock read is returned unchanged; otherwise the upstream feed is returned and becomes the cache, stamped with the clock read after the fetch, and is fresh at that time; the cache is fresh at the first read afterwards whenever the clock did not go back |
| Realtime.EntityForTrip | src/index.ts:95-97 | the first entity whose vehicle's trip id is the trip, or none exactly when no entity has it |
| GtfsService.Gtfs.GetRealtimeForTrip | src/index.ts:91-99 | the entity of the trip in the feed now cached; a stale cache is replaced by the upstream feed stamped with the clock read after the fetch, a fresh one is kept with its stamp; the cache is fresh afterwards whenever the clock did not go back |
| Display.MapLine | src/index.ts:315-319 | a non-empty line name in the line map is replaced by its mapping; any other value is kept |
| Display.DepartureTimeHHMM | src/index.ts:294-299 | "----" exactly when the departure is missing, empty or invalid; otherwise five characters "HH:mm" |
| Display.CutDestination | src/index.ts:334-342 | a destination longer than the limit keeps its first limit−1 characters plus "."; any other is unchanged |
| Display.Centre | src/index.ts:346-350 | centring succeeds exactly when the text has at most 16 characters; it then yields 16 characters, the text surrounded by spaces, the odd space on the right |
| Display.NamedSlotFits | src/index.ts:327-350 | a slot with a line name and a destination gives "time line destination", cut to fit, and always formats to 16 characters |
| Display.EmptySlotThrows | src/index.ts:327-350 | a slot with no stop time, trip or route prints "---- undefined undefined" and throws in `repeat` |
| Display.LexTotal | src/index.ts:354 | any two lines are ordered one way or the other |
| Display.LexAntisymmetric | src/index.ts:354 | lines ordered both ways are equal |
| Display.LexTransitive | src/index.ts:354 | the string order is transitive |
| Display.SortLines | src/index.ts:354 | the sorted lines are a permutation, in ascending order |
| Display.SortedIsUnique | src/index.ts:354 | two sorted permutations of the same lines are equal |
| Display.SortInPlace | src/index.ts:354 | the array is sorted in place and keeps its lines |
| Display.Join | src/index.ts:355 | joining lines of 16 characters gives 16 characters per line |
| Display.FormatAll | src/index.ts:327-351 | on success there is one 16-character line per slot |
| Display.DisplayText | src/index.ts:321-356 | a display text means both queries succeeded, and it has 16 characters per slot |
| Display.DisplayTextIsSortedLines | src/index.ts:327-355 | the display text is the formatted lines of all slots, in ascending order, joined |
| Display.FormattedSlotsAreFilled | src/index.ts:327-351 | formatting succeeds only when no slot is empty |
| Display.DisplayedSlotsAreFilled | src/index.ts:321-351 | a display text means both queries succeeded with no empty slot |
| Display.NamedSlotsDisplay | src/index.ts:321-356 | slots that all have a line name and a destination always display, 16 characters each |
| GtfsService.FormatLines | src/index.ts:325-351 | the loop computes exactly the formatted lines, or the first slot's error |
| GtfsService.SortAndJoin | src/index.ts:354-355 | sorting an array of the lines in place and joining gives the joined sorted lines |
| GtfsService.Gtfs.ArduinoOutput | src/index.ts:321-356 | the method returns the specified display text, which is 64 characters on success |
| GtfsService.DisplayNeedsTwoDepartures | src/index.ts:321-356 | a display text exists only when every table is loaded and both stops have at least two distinct departures |
| GtfsService.DisplayShowsFourLines | src/index.ts:321-356 | two departures with a route at each stop always give a display of four 16-character lines |
| GtfsService.Gtfs.constructor | src/index.ts:23-41 | the object after loading: the tables it read, no realtime feed cached |

## Left out

- Loading the static GTFS is left out: download, unzip, CSV parsing and `gtfsExists`. The constructor takes the tables that loading produced. A table it could not load is `None`.
- Awaiting `loadingPromise` is left out. A query on a table that is still missing fails with `StaticNotLoaded`, as `filter` on `undefined` would.
- The network fetch and protobuf decoding of the realtime feed are left out. The feed the network would deliver is the parameter `upstream`.
- The `writeFileSync` dump of the realtime feed is left out. It is I/O.
- Logging is left out.
- The cron job and `exec` are left out. They are outside the class.
- The clock is a parameter. `moment()` becomes `now` (seconds into today), `weekday`, `nowMs` (the read that tests the cache) and `fetchedMs` (the read after the fetch that stamps it).
- The weekday is a datatype. Each value selects its calendar column; the source builds the lowercase weekday name as a string.
- DepartureTime.ParseDepartureTime: moment's validity and overflow rules are modelled only as the intended reading; the Findings row shows where they differ. The parse is strict "H:MM:SS" with minutes and seconds below 60.
- Times that do not parse are dropped by the model's filter. In the source an invalid moment is not before now, so the stop time is kept, and the sort comparator returns NaN for it, which leaves its position unspecified.
- Hours of any number of digits are read as `HH`. Moment reads at most two.
- `getStopName` is left out. Its only caller is commented out.
- The commented-out `returnHHMM` is left out.
- `anyAscii` is left out. `DisplayText` is the text before transliteration. Headsigns may carry Czech diacritics, and the model counts widths in characters before transliteration.
- The contents of the line map are left out. The map is a parameter.
- `line in lineMap` is a plain key test. It does not model keys inherited from `Object.prototype`.
- Display.LexLe compares characters by code point. JavaScript's default sort compares UTF-16 code units; the two agree on text without surrogate pairs.
- The calendar dates table is stored but never read, exactly as in the source. So are the agency table and calendar date ranges.
- CSV fields are always present strings. A field missing from a row is not modelled.
- `nextStop` is looked up once per query in the model. The source repeats the same lookup on each iteration.
- A stop time whose `trip_id` is undefined is not modelled. The loop's read past the candidates would otherwise match it.
- The realtime entity types keep only the fields the lookup reads: entity id, vehicle, trip and trip id.

## Findings

| source | as written | input that shows it | evidently intended | confidence | as-written member | corrected member |
|---|---|---|---|---|---|---|
| src/index.ts:161-162 | parses a past-midnight time with moment's "HH:mm:ss" format, which flags an hour above 24 (or 24 with minutes or seconds) as an overflow and gives an invalid date | "25:10:00" | 01:10:00 on the next day, ordered after "23:50:00" | medium: rests on moment's overflow check; not executed | DepartureTime.MomentDepartureTime, DepartureTime.MomentRejectsPastMidnight | DepartureTime.ParseDepartureTime, DepartureTime.ParseClockText |
