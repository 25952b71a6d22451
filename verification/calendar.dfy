/** Calendar dates and points in time, as Python's `datetime` compares them:
    field by field, year first. */
module Calendar {

  datatype Date = Date(year: int, month: int, day: int)

  /** A point in time: a date and the microseconds elapsed since its midnight
      (what `datetime.now()` returns, without a time zone). */
  datatype Instant = Instant(date: Date, micros: nat)

  /** Gregorian leap year. */
  predicate IsLeap(y: int) {
    y % 4 == 0 && (y % 100 != 0 || y % 400 == 0)
  }

  function DaysInMonth(y: int, m: int): (n: int)
    requires 1 <= m <= 12
    ensures 28 <= n <= 31
    ensures m == 2 ==> n <= 29 && (n == 29 <==> IsLeap(y))
  {
    if m == 2 then (if IsLeap(y) then 29 else 28)
    else if m == 4 || m == 6 || m == 9 || m == 11 then 30
    else 31
  }

  /** A date `datetime` accepts: year 1 to 9999 and a day that exists in its
      month. */
  predicate ValidDate(d: Date) {
    && 1 <= d.year <= 9999
    && 1 <= d.month <= 12
    && 1 <= d.day <= DaysInMonth(d.year, d.month)
  }

  /** `a < b` on dates. */
  predicate Before(a: Date, b: Date) {
    || a.year < b.year
    || (a.year == b.year && a.month < b.month)
    || (a.year == b.year && a.month == b.month && a.day < b.day)
  }

  /** The date parsed from a string is its midnight. */
  function Midnight(d: Date): (t: Instant)
    ensures t.date == d
  {
    Instant(d, 0)
  }

  /** `a < b` on points in time. */
  predicate InstantBefore(a: Instant, b: Instant) {
    Before(a.date, b.date) || (a.date == b.date && a.micros < b.micros)
  }

  /** `Before` is a strict total order. */
  lemma BeforeTrichotomy(a: Date, b: Date)
    ensures Before(a, b) || a == b || Before(b, a)
    ensures !(Before(a, b) && Before(b, a))
    ensures !Before(a, a)
  {
  }

  /** A point in time is after the midnight of a date exactly when it lies in
      a later day or later in that same day; it is before it exactly when it
      lies in an earlier day. */
  lemma MidnightOrder(d: Date, now: Instant)
    ensures InstantBefore(now, Midnight(d)) <==> Before(now.date, d)
    ensures InstantBefore(Midnight(d), now) <==> Before(d, now.date) || (d == now.date && now.micros > 0)
  {
  }
}
