/** The slice of JavaScript's `Date` that the claim engine relies on: a time
    value in milliseconds, `getTime()` comparisons and `setHours(0, 0, 0, 0)`. */
module Dates {

  /** Milliseconds in one calendar day. */
  const MsPerDay: int := 86_400_000

  /** A `Date` object. `Valid(ms)` holds a time value, read as local time;
      `Invalid` is the invalid date whose time value is NaN, which is what
      `new Date(...)` yields for missing or unparseable text. */
  datatype Date = Valid(ms: int) | Invalid

  /** The day number (days since the epoch) that a time value falls on. */
  function DayOf(ms: int): int {
    ms / MsPerDay
  }

  /** The date at midnight that starts the given day number. */
  function FromDay(day: int): (d: Date)
    ensures d.Valid? && DayOf(d.ms) == day
    ensures d == StartOfDay(d)
  {
    Valid(day * MsPerDay)
  }

  /** `d.setHours(0, 0, 0, 0)`: the same day at midnight. The invalid date stays invalid. */
  function StartOfDay(d: Date): (r: Date)
    ensures r.Valid? <==> d.Valid?
    ensures d.Valid? ==> r.ms <= d.ms < r.ms + MsPerDay && r.ms % MsPerDay == 0
    ensures d.Valid? ==> DayOf(r.ms) == DayOf(d.ms)
  {
    match d
    case Invalid => Invalid
    case Valid(t) => Valid(t - t % MsPerDay)
  }

  /** `a.getTime() >= b.getTime()`: every comparison involving NaN is false. */
  function TimeAtLeast(a: Date, b: Date): (r: bool)
    ensures a.Invalid? || b.Invalid? ==> !r
    ensures a.Valid? && b.Valid? ==> (r <==> a.ms >= b.ms)
  {
    a.Valid? && b.Valid? && a.ms >= b.ms
  }

  /** `a.getTime() < b.getTime()`: the complement of `TimeAtLeast` on valid
      dates, but also false when either date is invalid. */
  function TimeBefore(a: Date, b: Date): (r: bool)
    ensures a.Invalid? || b.Invalid? ==> !r
    ensures a.Valid? && b.Valid? ==> (r <==> !TimeAtLeast(a, b))
  {
    a.Valid? && b.Valid? && a.ms < b.ms
  }

  /** Comparing two dates after `setHours(0, 0, 0, 0)` is comparing their day numbers. */
  lemma StartOfDayOrder(a: int, b: int)
    ensures StartOfDay(Valid(a)).ms <= StartOfDay(Valid(b)).ms <==> DayOf(a) <= DayOf(b)
    ensures StartOfDay(Valid(a)).ms < StartOfDay(Valid(b)).ms <==> DayOf(a) < DayOf(b)
  { }
}
