/**
 * Calendar days as the store keeps them (a `Date` column): proleptic Gregorian
 * (year, month, day) triples, ordered chronologically.
 */
module Dates {

  datatype Date = Date(year: int, month: int, day: int)

  predicate IsLeapYear(y: int) {
    y % 4 == 0 && (y % 100 != 0 || y % 400 == 0)
  }

  function DaysInMonth(y: int, m: int): (n: int)
    requires 1 <= m <= 12
    ensures 28 <= n <= 31
    ensures n == 29 <==> m == 2 && IsLeapYear(y)
  {
    if m == 2 then (if IsLeapYear(y) then 29 else 28)
    else if m == 4 || m == 6 || m == 9 || m == 11 then 30
    else 31
  }

  /** A day that exists on the calendar. */
  predicate IsValid(d: Date) {
    1 <= d.month <= 12 && 1 <= d.day <= DaysInMonth(d.year, d.month)
  }

  /** Strict chronological order: `a` is an earlier day than `b`. */
  predicate Before(a: Date, b: Date) {
    || a.year < b.year
    || (a.year == b.year && a.month < b.month)
    || (a.year == b.year && a.month == b.month && a.day < b.day)
  }

  /** The comparison `d >= start` on dates. */
  predicate OnOrAfter(d: Date, start: Date) {
    !Before(d, start)
  }

  /** The test "same `%Y-%m`": both days fall in one calendar month. */
  predicate SameMonth(a: Date, b: Date) {
    a.year == b.year && a.month == b.month
  }

  /** The calendar day before `d`: it is earlier, and no valid day lies strictly between the two. */
  function PrevDay(d: Date): (r: Date)
    requires IsValid(d)
    ensures IsValid(r) && Before(r, d)
    ensures forall e :: IsValid(e) && Before(r, e) ==> !Before(e, d)
  {
    if d.day > 1 then Date(d.year, d.month, d.day - 1)
    else if d.month > 1 then Date(d.year, d.month - 1, DaysInMonth(d.year, d.month - 1))
    else Date(d.year - 1, 12, 31)
  }

  /** `d - timedelta(days = n)`: the day `n` calendar days before `d`. */
  function MinusDays(d: Date, n: nat): (r: Date)
    requires IsValid(d)
    ensures IsValid(r)
    ensures n > 0 ==> Before(r, d)
  {
    if n == 0 then d else PrevDay(MinusDays(d, n - 1))
  }

  /** Going further back gives a strictly earlier day. */
  lemma {:induction false} MinusDaysStrictlyDecreasing(d: Date, i: nat, j: nat)
    requires IsValid(d) && i < j
    ensures Before(MinusDays(d, j), MinusDays(d, i))
  {
    if j > i + 1 {
      MinusDaysStrictlyDecreasing(d, i, j - 1);
    }
  }

  /** The day `k` days back is on or after the day `w` days back exactly when `k <= w`. */
  lemma {:induction false} MinusDaysOnOrAfter(d: Date, k: nat, w: nat)
    requires IsValid(d)
    ensures OnOrAfter(MinusDays(d, k), MinusDays(d, w)) <==> k <= w
  {
    if k < w {
      MinusDaysStrictlyDecreasing(d, k, w);
    } else if k > w {
      MinusDaysStrictlyDecreasing(d, w, k);
    }
  }
}
