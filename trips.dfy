/** The trip table's records: a raw row as loaded from the trips file, the row
    after its timestamp columns are coerced, and a cleaned row carrying the two
    derived columns. A missing cell (pandas' NaN or NaT) is `None`. */
module Trips {

  datatype Option<T> = None | Some(value: T)

  /** A calendar date, the `date` component of a timestamp. */
  datatype Date = Date(year: int, month: int, day: int)

  /** Chronological order on dates: lexicographic on (year, month, day). */
  predicate Before(a: Date, b: Date)
  {
    a.year < b.year
    || (a.year == b.year && a.month < b.month)
    || (a.year == b.year && a.month == b.month && a.day < b.day)
  }

  lemma BeforeIsStrictTotalOrder(a: Date, b: Date, c: Date)
    ensures !Before(a, a)
    ensures Before(a, b) && Before(b, c) ==> Before(a, c)
    ensures a != b ==> Before(a, b) || Before(b, a)
    ensures !(Before(a, b) && Before(b, a))
  {
  }

  /** A parsed timestamp: its calendar date and its time of day. */
  datatype DateTime = DateTime(date: Date, hour: int, minute: int, second: int)

  /** One row as read from the trips file; timestamps are still text. */
  datatype RawTrip = RawTrip(
    departureText: Option<string>,
    returnText: Option<string>,
    distance: Option<real>,        // Covered distance (m)
    duration: Option<real>,        // Duration (sec.)
    departureStation: Option<string>,
    returnStation: Option<string>)

  /** One row after `Departure` and `Return` are coerced to timestamps. */
  datatype Trip = Trip(
    departure: Option<DateTime>,
    returnTime: Option<DateTime>,
    distance: Option<real>,
    duration: Option<real>,
    departureStation: Option<string>,
    returnStation: Option<string>)

  /** A row of the cleaned table: the trip and its two derived columns,
      `Duration (min)` and `Date`. */
  datatype CleanTrip = CleanTrip(trip: Trip, durationMinutes: Option<real>, date: Option<Date>)
}
