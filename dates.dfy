/**
 * ISO calendar dates (`java.time.LocalDate`) and the years part of
 * `Period.between(start, end)`, computed as `LocalDate.until` does: the
 * difference in proleptic months, adjusted by one when the day of month has not
 * yet been reached, divided by 12 with Java's truncating division.
 */
module Dates {

  datatype Date = Date(year: int, month: int, day: int)

  /** `IsoChronology.isLeapYear`. */
  predicate IsLeapYear(y: int) {
    y % 4 == 0 && (y % 100 != 0 || y % 400 == 0)
  }

  function DaysInMonth(y: int, m: int): int
    requires 1 <= m <= 12
  {
    if m == 2 then (if IsLeapYear(y) then 29 else 28)
    else if m == 4 || m == 6 || m == 9 || m == 11 then 30
    else 31
  }

  predicate IsValidDate(d: Date) {
    1 <= d.month <= 12 && 1 <= d.day <= DaysInMonth(d.year, d.month)
  }

  /** The dates a `LocalDate` can hold. */
  type LocalDate = d: Date | IsValidDate(d) witness Date(2000, 1, 1)

  /** `a.isBefore(b)`: chronological order, year then month then day. */
  predicate IsBefore(a: LocalDate, b: LocalDate) {
    || a.year < b.year
    || (a.year == b.year && a.month < b.month)
    || (a.year == b.year && a.month == b.month && a.day < b.day)
  }

  /** `LocalDate.getProlepticMonth()`: months counted from year 0. */
  function ProlepticMonth(d: LocalDate): int {
    d.year * 12 + d.month - 1
  }

  /** Java's `long` division, which truncates toward zero. */
  function JavaDiv(a: int, b: int): int
    requires b != 0
  {
    if a >= 0 then a / b else -((-a) / b)
  }

  /** Period.between(start, end).getYears(), step by step as LocalDate.until computes it. */
  function PeriodYears(start: LocalDate, end: LocalDate): int {
    var totalMonths := ProlepticMonth(end) - ProlepticMonth(start);
    var days := end.day - start.day;
    var adjusted :=
      if totalMonths > 0 && days < 0 then totalMonths - 1
      else if totalMonths < 0 && days > 0 then totalMonths + 1
      else totalMonths;
    JavaDiv(adjusted, 12)
  }

  /** Whether (month, day) of `a` comes before (month, day) of `b` within a year. */
  predicate EarlierInYear(a: Date, b: Date) {
    a.month < b.month || (a.month == b.month && a.day < b.day)
  }

  /**
   * For a start no later than the end, the years of the period are the
   * difference of the years, less one if the anniversary has not been reached.
   */
  lemma PeriodYearsClosedForm(start: LocalDate, end: LocalDate)
    requires !IsBefore(end, start)
    ensures PeriodYears(start, end) == end.year - start.year - (if EarlierInYear(end, start) then 1 else 0)
    ensures PeriodYears(start, end) >= 0
  {
    var dy := end.year - start.year;
    var totalMonths := ProlepticMonth(end) - ProlepticMonth(start);
    assert totalMonths == 12 * dy + (end.month - start.month);
    var days := end.day - start.day;
    var adjusted := if totalMonths > 0 && days < 0 then totalMonths - 1 else totalMonths;
    assert adjusted >= 0;
    var expected := dy - (if EarlierInYear(end, start) then 1 else 0);
    assert 12 * expected <= adjusted < 12 * expected + 12;
    DivBetween(adjusted, expected);
  }

  lemma DivBetween(a: int, q: int)
    requires 0 <= a && 12 * q <= a < 12 * q + 12
    ensures a / 12 == q
  {
  }

  /** Swapping the two dates negates the years of the period. */
  lemma PeriodYearsAntisymmetric(a: LocalDate, b: LocalDate)
    ensures PeriodYears(b, a) == -PeriodYears(a, b)
  {
  }

  /** A start after the end gives no positive number of years. */
  lemma PeriodYearsOfFutureStart(start: LocalDate, end: LocalDate)
    requires IsBefore(end, start)
    ensures PeriodYears(start, end) <= 0
  {
    PeriodYearsAntisymmetric(start, end);
    PeriodYearsClosedForm(end, start);
  }

  /** Both cases together: the closed form when the start is not later, at most 0 otherwise. */
  lemma PeriodYearsCases(start: LocalDate, end: LocalDate)
    ensures !IsBefore(end, start) ==>
      PeriodYears(start, end) == end.year - start.year - (if EarlierInYear(end, start) then 1 else 0)
      && PeriodYears(start, end) >= 0
    ensures IsBefore(end, start) ==> PeriodYears(start, end) <= 0
  {
    if IsBefore(end, start) {
      PeriodYearsOfFutureStart(start, end);
    } else {
      PeriodYearsClosedForm(start, end);
    }
  }

  /** On the n-th anniversary the period counts exactly n years. */
  lemma PeriodYearsOnAnniversary(birth: LocalDate, today: LocalDate, n: nat)
    requires today.year == birth.year + n && today.month == birth.month && today.day == birth.day
    ensures PeriodYears(birth, today) == n
  {
    PeriodYearsClosedForm(birth, today);
  }

  /** The day before the n-th anniversary (n >= 1) still counts n - 1 years. */
  lemma PeriodYearsBeforeAnniversary(birth: LocalDate, today: LocalDate, n: nat)
    requires n >= 1 && today.year == birth.year + n && EarlierInYear(today, birth)
    ensures PeriodYears(birth, today) == n - 1
  {
    PeriodYearsClosedForm(birth, today);
  }

  /** For a fixed start, the years of the period never decrease as the end advances. */
  lemma PeriodYearsMonotonic(start: LocalDate, end1: LocalDate, end2: LocalDate)
    requires !IsBefore(end1, start) && !IsBefore(end2, end1)
    ensures PeriodYears(start, end1) <= PeriodYears(start, end2)
  {
    PeriodYearsClosedForm(start, end1);
    PeriodYearsClosedForm(start, end2);
  }
}
