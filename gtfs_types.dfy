/**
 * The rows of the GTFS Schedule tables as the CSV reader delivers them: every
 * column is a string. Only the columns the query reads are kept, plus the
 * calendar's date range, which the query never consults.
 */
module GtfsTypes {
  import opened Wrappers

  datatype Agency = Agency(agencyId: string, agencyName: string)

  datatype Route = Route(routeId: string, routeShortName: string)

  datatype Stop = Stop(stopId: string, stopName: string)

  datatype Trip = Trip(routeId: string, serviceId: string, tripId: string, tripHeadsign: string)

  /** One row of stop_times.txt; `departureTime` is "H:MM:SS", "" when the cell is empty. */
  datatype StopTime = StopTime(tripId: string, stopId: string, departureTime: string)

  /** The lowercase English weekday names that index a calendar row's day columns. */
  datatype Weekday = Monday | Tuesday | Wednesday | Thursday | Friday | Saturday | Sunday

  /** One row of calendar.txt: a day column holds "1" when the service runs on that weekday. */
  datatype Calendar = Calendar(
    serviceId: string,
    monday: string, tuesday: string, wednesday: string, thursday: string,
    friday: string, saturday: string, sunday: string,
    startDate: string, endDate: string)
  {
    /** The column named by the weekday, `c[curWeekday]`. */
    function Column(day: Weekday): string {
      match day
      case Monday => monday
      case Tuesday => tuesday
      case Wednesday => wednesday
      case Thursday => thursday
      case Friday => friday
      case Saturday => saturday
      case Sunday => sunday
    }
  }

  /** One row of calendar_dates.txt; it is loaded but never read. */
  datatype CalendarDate = CalendarDate(serviceId: string, date: string, exceptionType: string)

  /** One result slot of the query: four optional parts. */
  datatype StopTripData = StopTripData(
    stop: Option<Stop>, stopTime: Option<StopTime>, trip: Option<Trip>, route: Option<Route>)

  /** What `getNextForStop` and `arduinoOutput` can throw. */
  datatype GtfsError =
    | StaticNotLoaded     // a static table the query reads was never loaded
    | CalendarNotLoaded   // "Calendar not loaded"
    | RoutesNotLoaded     // "Routes not loaded"
    | ReadOfUndefined     // TypeError: reading `departure_time` of an undefined stop time
    | InvalidRepeatCount  // RangeError: `" ".repeat` with a negative count
}
