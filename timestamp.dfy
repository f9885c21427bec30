/** The part of Go's `time.Time` that the fixed text layout can express. */
module Timestamps {

  /** Calendar date, wall-clock time to the second, and offset from UTC in minutes (east positive). */
  datatype Timestamp = Timestamp(
    year: int,
    month: int,
    day: int,
    hour: int,
    minute: int,
    second: int,
    offsetMinutes: int)

  /** The field ranges a normalised time value always has. */
  predicate WellFormed(t: Timestamp)
  {
    && 1 <= t.month <= 12
    && 1 <= t.day <= 31
    && 0 <= t.hour <= 23
    && 0 <= t.minute <= 59
    && 0 <= t.second <= 59
    && -24 * 60 < t.offsetMinutes < 24 * 60
  }

  /** A time value; the year is unbounded, as Go's is for all practical purposes. */
  type Time = t: Timestamp | WellFormed(t) witness Timestamp(1, 1, 1, 0, 0, 0, 0)

  /** The zero time value: January 1 of year 1, 00:00:00 UTC. */
  const Zero: Time := Timestamp(1, 1, 1, 0, 0, 0, 0)
}
