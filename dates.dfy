/**
 * The date-range test shared by the list pages. A `Date` is a timestamp in
 * milliseconds. `new Date(s)` is the calendar's `parse`, which gives `None`
 * for an Invalid Date; `setHours(23, 59, 59, 999)` on a valid date is the
 * calendar's `endOfDay`. An Invalid Date compares false with everything, so
 * a side of the range that does not parse never excludes anything.
 */
module Dates {
  import opened Common

  datatype Calendar = Calendar(parse: string -> Option<int>, endOfDay: int -> int)

  /** `if (from) { if (date < new Date(from)) excluded }`. */
  predicate BeforeFrom(cal: Calendar, t: int, from: string) {
    from != "" && cal.parse(from).Some? && t < cal.parse(from).value
  }

  /** `if (to) { toDate.setHours(23, 59, 59, 999); if (date > toDate) excluded }`. */
  predicate AfterTo(cal: Calendar, t: int, to: string) {
    to != "" && cal.parse(to).Some? && t > cal.endOfDay(cal.parse(to).value)
  }

  /** The flag `matchesDate` after both side checks ran on a timestamp `t`. */
  predicate WithinRange(cal: Calendar, t: int, from: string, to: string) {
    !BeforeFrom(cal, t, from) && !AfterTo(cal, t, to)
  }

  /**
   * With both sides given and valid, the range is closed at both ends: it
   * holds exactly the instants from the start of `from` to the end of the
   * `to` day, both included.
   */
  lemma WithinClosedRange(cal: Calendar, t: int, from: string, to: string, a: int, b: int)
    requires from != "" && to != ""
    requires cal.parse(from) == Some(a) && cal.parse(to) == Some(b)
    ensures WithinRange(cal, t, from, to) <==> a <= t <= cal.endOfDay(b)
  {
  }

  /** An empty or unparsable side constrains nothing: the other side decides alone. */
  lemma OpenSide(cal: Calendar, t: int, from: string, to: string)
    ensures (from == "" || cal.parse(from).None?) ==> (WithinRange(cal, t, from, to) <==> !AfterTo(cal, t, to))
    ensures (to == "" || cal.parse(to).None?) ==> (WithinRange(cal, t, from, to) <==> !BeforeFrom(cal, t, from))
  {
  }
}
