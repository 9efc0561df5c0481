/**
 The time values (`Zaman`) of the planets' calendars, kept abstract.

 The ship never looks inside a time value: it only asks a calendar how many
 hours lie between two times, moves a time forward by a number of hours, and
 compares two times, each time with the hours-per-day of the planet the time
 belongs to. Those three operations are given here as a record of total
 functions over an arbitrary time type `T`, so that every result about the
 ship holds for any calendar implementation.
 */
module Calendar {

  /** The calendar operations of a time type `T`. */
  datatype Calendar<!T> = Calendar(
    /** `hoursUntil(from, to, hoursPerDay)`: hours that pass from `from` until `to` (`Zaman.kacSaatSonra`). */
    hoursUntil: (T, T, int) -> int,
    /** `addHours(t, n, hoursPerDay)`: the time `n` hours after `t` (`Zaman.saatEkle`). */
    addHours: (T, int, int) -> T,
    /** `compare(a, b)`: negative, zero or positive as `a` is before, at or after `b` (`Zaman.compareTo`). */
    compare: (T, T) -> int)

  /** Three-way comparison of absolute hours. */
  function CompareHours(a: int, b: int): (c: int)
    ensures c < 0 <==> a < b
    ensures c == 0 <==> a == b
    ensures c > 0 <==> a > b
  {
    if a < b then -1 else if a == b then 0 else 1
  }

  /**
   The reference calendar: a time is an absolute hour counted from a shared
   instant, so the hours-per-day of a planet changes how a time is written but
   not how many hours lie between two times.
   */
  function AbsoluteHours(): Calendar<int>
  {
    Calendar((from: int, to: int, hoursPerDay: int) => to - from,
             (t: int, n: int, hoursPerDay: int) => t + n,
             CompareHours)
  }
}
