/**
 * The parts of `java.time` the toll engine relies on, at whole-second resolution.
 * A `LocalDate` is a day index, a `LocalTime` the seconds since midnight, and a
 * `LocalDateTime` the pair of both. Month and weekday of a day index come from a
 * `Calendar` value instead of Gregorian arithmetic.
 */
module Clock {

  const SecondsPerMinute := 60
  const SecondsPerDay := 86400

  /** A `LocalTime`: seconds since midnight. */
  type SecondOfDay = s: int | 0 <= s < 86400

  /** A `LocalDateTime`: the calendar day (`toLocalDate()`) and the clock time (`toLocalTime()`). */
  datatype DateTime = DateTime(day: int, time: SecondOfDay)

  /** A clock time given by hour and minute, as `LocalTime.of` builds it. */
  function TimeOf(hour: int, minute: int): SecondOfDay
    requires 0 <= hour < 24 && 0 <= minute < 60
  {
    hour * 3600 + minute * SecondsPerMinute
  }

  /** `LocalDateTime.isBefore`: earlier date, or same date and earlier time. */
  predicate IsBefore(a: DateTime, b: DateTime) {
    a.day < b.day || (a.day == b.day && a.time < b.time)
  }

  /** `LocalDateTime.isAfter`. */
  predicate IsAfter(a: DateTime, b: DateTime) {
    IsBefore(b, a)
  }

  /** Seconds since the start of day 0; `Duration.between` is a difference of these. */
  function EpochSecond(t: DateTime): int {
    t.day * SecondsPerDay + t.time
  }

  /** Midnight at the start of a day, as `atStartOfDay` builds it. */
  function StartOfDay(day: int): DateTime {
    DateTime(day, 0)
  }

  /** The last whole second of a day, as `atTime` builds it. */
  function EndOfDay(day: int): DateTime {
    DateTime(day, TimeOf(23, 59) + 59)
  }

  /** The date-time order agrees with the order of the instants it denotes. */
  lemma IsBeforeIsInstantOrder(a: DateTime, b: DateTime)
    ensures IsBefore(a, b) <==> EpochSecond(a) < EpochSecond(b)
  {
  }

  /** A date-time lies in the window `[StartOfDay(d), EndOfDay(d)]` exactly when its date is `d`. */
  lemma DayWindowIsOneDay(t: DateTime, d: int)
    ensures (!IsBefore(t, StartOfDay(d)) && !IsAfter(t, EndOfDay(d))) <==> t.day == d
  {
  }

  datatype DayOfWeek = Monday | Tuesday | Wednesday | Thursday | Friday | Saturday | Sunday

  datatype Month =
    | January | February | March | April | May | June
    | July | August | September | October | November | December

  /** The calendar facts `getMonth()` and `getDayOfWeek()` read off a date. */
  datatype Calendar = Calendar(monthOf: int -> Month, dayOfWeekOf: int -> DayOfWeek)
}
