/** Proleptic Gregorian calendar dates as plain integers, and months numbered
    consecutively so that stepping forward or back carries into the year the
    way JavaScript's `Date` normalises an out-of-range month. */
module Calendar {

  datatype Date = Date(year: int, month: int, day: int)

  /** A calendar month, identified by its year and its month number 1..12. */
  datatype YearMonth = YearMonth(year: int, month: int)

  predicate IsLeapYear(y: int) {
    (y % 4 == 0 && y % 100 != 0) || y % 400 == 0
  }

  /** The last day of month `m` of year `y` (JavaScript `new Date(y, m, 0).getDate()`). */
  function DaysInMonth(y: int, m: int): (n: int)
    requires 1 <= m <= 12
    ensures 28 <= n <= 31
    ensures n == 29 <==> m == 2 && IsLeapYear(y)
    ensures n == 28 <==> m == 2 && !IsLeapYear(y)
    ensures n == 30 <==> m == 4 || m == 6 || m == 9 || m == 11
  {
    if m == 2 then (if IsLeapYear(y) then 29 else 28)
    else if m == 4 || m == 6 || m == 9 || m == 11 then 30
    else 31
  }

  predicate ValidMonth(ym: YearMonth) {
    1 <= ym.month <= 12
  }

  predicate ValidDate(d: Date) {
    1 <= d.month <= 12 && 1 <= d.day <= DaysInMonth(d.year, d.month)
  }

  function MonthOf(d: Date): YearMonth {
    YearMonth(d.year, d.month)
  }

  /** `a` is strictly earlier than `b`; for valid dates the lexicographic
      order on (year, month, day) is the chronological order. */
  predicate Before(a: Date, b: Date) {
    a.year < b.year
    || (a.year == b.year && a.month < b.month)
    || (a.year == b.year && a.month == b.month && a.day < b.day)
  }

  /** `a` is no later than `b`. */
  predicate NotAfter(a: Date, b: Date) {
    !Before(b, a)
  }

  /** Consecutive numbering of months: January of year 0 is 0, and each
      following month is one more. */
  function MonthIndex(ym: YearMonth): int {
    12 * ym.year + ym.month - 1
  }

  /** The month with a given index; `/` and `%` by 12 floor, as `Date` does
      when it normalises a month number outside 0..11. */
  function OfIndex(k: int): (ym: YearMonth)
    ensures ValidMonth(ym)
    ensures MonthIndex(ym) == k
  {
    YearMonth(k / 12, k % 12 + 1)
  }

  /** Numbering a valid month and reading the number back gives the month. */
  lemma IndexRoundTrip(ym: YearMonth)
    requires ValidMonth(ym)
    ensures OfIndex(MonthIndex(ym)) == ym
  {
    var k := MonthIndex(ym);
    var r := OfIndex(k);
    assert 12 * r.year + r.month == 12 * ym.year + ym.month;
    assert 1 <= r.month <= 12;
  }

  /** Two valid months are equal exactly when their indices are. */
  lemma IndexInjective(a: YearMonth, b: YearMonth)
    requires ValidMonth(a) && ValidMonth(b)
    ensures MonthIndex(a) == MonthIndex(b) <==> a == b
  {
    if MonthIndex(a) == MonthIndex(b) {
      IndexRoundTrip(a);
      IndexRoundTrip(b);
    }
  }

  /** For valid dates, a later month means a later date: the index order of
      months agrees with the date order. */
  lemma IndexOrderIsDateOrder(a: Date, b: Date)
    requires ValidDate(a) && ValidDate(b)
    requires MonthIndex(MonthOf(a)) < MonthIndex(MonthOf(b))
    ensures Before(a, b)
  {
  }

  /** Being no later than is transitive. */
  lemma NotAfterTransitive(a: Date, b: Date, c: Date)
    requires NotAfter(a, b) && NotAfter(b, c)
    ensures NotAfter(a, c)
  {
  }
}
