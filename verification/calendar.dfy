/**
 * The proleptic Gregorian calendar as java.time uses it: dates, year-months,
 * month arithmetic with floor division, day stepping and the date order.
 * Years are unbounded integers here.
 */
module Calendar {

  predicate IsLeapYear(year: int) {
    year % 4 == 0 && (year % 100 != 0 || year % 400 == 0)
  }

  /** `YearMonth.lengthOfMonth()`. */
  function LengthOfMonth(year: int, month: int): (n: int)
    requires 1 <= month <= 12
    ensures 28 <= n <= 31
    ensures n == 31 <==> month in {1, 3, 5, 7, 8, 10, 12}
    ensures n == 29 <==> month == 2 && IsLeapYear(year)
  {
    if month == 2 then (if IsLeapYear(year) then 29 else 28)
    else if month == 4 || month == 6 || month == 9 || month == 11 then 30
    else 31
  }

  datatype DateFields = DateFields(year: int, month: int, day: int)

  predicate ValidDate(d: DateFields) {
    1 <= d.month <= 12 && 1 <= d.day <= LengthOfMonth(d.year, d.month)
  }

  /** A `LocalDate`: a day that exists in the calendar. */
  type Date = d: DateFields | ValidDate(d) witness DateFields(1970, 1, 1)

  datatype YearMonthFields = YearMonthFields(year: int, month: int)

  /** A `YearMonth`. */
  type YearMonth = ym: YearMonthFields | 1 <= ym.month <= 12 witness YearMonthFields(1970, 1)

  /** A `LocalDateTime`: a date and a time of day (in nanoseconds). */
  datatype DateTime = DateTime(date: Date, nanoOfDay: nat)

  /** `YearMonth.from(date)`. */
  function YearMonthOf(d: Date): YearMonth {
    YearMonthFields(d.year, d.month)
  }

  /** Months counted from January of year 0; consecutive months have consecutive indices. */
  function MonthIndex(ym: YearMonth): int {
    ym.year * 12 + (ym.month - 1)
  }

  function FromMonthIndex(i: int): (ym: YearMonth)
    ensures MonthIndex(ym) == i
  {
    YearMonthFields(i / 12, i % 12 + 1)
  }

  lemma MonthIndexInjective(a: YearMonth, b: YearMonth)
    requires MonthIndex(a) == MonthIndex(b)
    ensures a == b
  {
  }

  /** Month indices order year-months lexicographically by (year, month). */
  lemma MonthIndexOrder(a: YearMonth, b: YearMonth)
    ensures MonthIndex(a) < MonthIndex(b) <==> a.year < b.year || (a.year == b.year && a.month < b.month)
  {
    if a.year < b.year {
      assert MonthIndex(a) <= a.year * 12 + 11 < b.year * 12 <= MonthIndex(b);
    } else if b.year < a.year {
      assert MonthIndex(b) <= b.year * 12 + 11 < a.year * 12 <= MonthIndex(a);
    }
  }

  /** `YearMonth.plusMonths(n)`: floorDiv / floorMod of the month count. */
  function PlusMonths(ym: YearMonth, n: int): (r: YearMonth)
    ensures MonthIndex(r) == MonthIndex(ym) + n
  {
    FromMonthIndex(MonthIndex(ym) + n)
  }

  /** `YearMonth.minusMonths(n)`. */
  function MinusMonths(ym: YearMonth, n: int): (r: YearMonth)
    ensures MonthIndex(r) == MonthIndex(ym) - n
  {
    PlusMonths(ym, -n)
  }

  /** The month before is the previous month of the same year, or December of the year before. */
  lemma PreviousMonthShape(ym: YearMonth)
    ensures MinusMonths(ym, 1) == if ym.month == 1 then YearMonthFields(ym.year - 1, 12)
                                  else YearMonthFields(ym.year, ym.month - 1)
  {
    var expected: YearMonth := if ym.month == 1 then YearMonthFields(ym.year - 1, 12)
                               else YearMonthFields(ym.year, ym.month - 1);
    assert MonthIndex(expected) == MonthIndex(ym) - 1;
    MonthIndexInjective(MinusMonths(ym, 1), expected);
  }

  lemma MonthsDiffer(ym: YearMonth, n: int)
    requires n != 0
    ensures MinusMonths(ym, n) != ym
  {
  }

  /** `YearMonth.atDay(day)`. */
  function AtDay(ym: YearMonth, day: int): (d: Date)
    requires 1 <= day <= LengthOfMonth(ym.year, ym.month)
    ensures YearMonthOf(d) == ym && d.day == day
  {
    DateFields(ym.year, ym.month, day)
  }

  /** `YearMonth.atEndOfMonth()`, also `date.with(lastDayOfMonth())` for a date of that month. */
  function AtEndOfMonth(ym: YearMonth): (d: Date)
    ensures YearMonthOf(d) == ym && d.day == LengthOfMonth(ym.year, ym.month)
  {
    AtDay(ym, LengthOfMonth(ym.year, ym.month))
  }

  /** `LocalDate.minusMonths(n)`: same day in the target month, clamped to its length. */
  function DateMinusMonths(d: Date, n: int): (r: Date)
    ensures YearMonthOf(r) == MinusMonths(YearMonthOf(d), n)
    ensures r.day <= d.day
    ensures var ym := MinusMonths(YearMonthOf(d), n);
            d.day <= LengthOfMonth(ym.year, ym.month) ==> r.day == d.day
    ensures var ym := MinusMonths(YearMonthOf(d), n);
            r.day == d.day || r.day == LengthOfMonth(ym.year, ym.month)
  {
    var ym := MinusMonths(YearMonthOf(d), n);
    var len := LengthOfMonth(ym.year, ym.month);
    AtDay(ym, if d.day <= len then d.day else len)
  }

  /** `LocalDate.withDayOfMonth(day)`. */
  function WithDayOfMonth(d: Date, day: int): (r: Date)
    requires 1 <= day <= LengthOfMonth(d.year, d.month)
    ensures YearMonthOf(r) == YearMonthOf(d) && r.day == day
  {
    AtDay(YearMonthOf(d), day)
  }

  /** `LocalDate.isBefore`: lexicographic order on (year, month, day). */
  predicate IsBefore(a: Date, b: Date) {
    a.year < b.year
    || (a.year == b.year && a.month < b.month)
    || (a.year == b.year && a.month == b.month && a.day < b.day)
  }

  /** `LocalDate.isAfter`. */
  predicate IsAfter(a: Date, b: Date) {
    IsBefore(b, a)
  }

  /** `LocalDate.plusDays(1)`. */
  function NextDay(d: Date): (r: Date)
    ensures IsBefore(d, r)
  {
    if d.day < LengthOfMonth(d.year, d.month) then DateFields(d.year, d.month, d.day + 1)
    else if d.month < 12 then DateFields(d.year, d.month + 1, 1)
    else DateFields(d.year + 1, 1, 1)
  }

  /** `LocalDate.minusDays(1)`. */
  function PreviousDay(d: Date): (r: Date)
    ensures IsBefore(r, d)
  {
    if d.day > 1 then DateFields(d.year, d.month, d.day - 1)
    else if d.month > 1 then DateFields(d.year, d.month - 1, LengthOfMonth(d.year, d.month - 1))
    else DateFields(d.year - 1, 12, 31)
  }

  /** No date lies strictly between a day and the next one. */
  lemma {:induction false} AfterPreviousDay(x: Date, s: Date)
    ensures IsAfter(x, PreviousDay(s)) <==> !IsBefore(x, s)
  {
  }

  lemma {:induction false} BeforeNextDay(x: Date, e: Date)
    ensures IsBefore(x, NextDay(e)) <==> !IsAfter(x, e)
  {
  }

  /** `!x.isBefore(first day of a) && !x.isAfter(last day of b)` holds exactly for the months a..b. */
  lemma {:induction false} MonthRangeWindow(x: Date, a: YearMonth, b: YearMonth)
    ensures !IsBefore(x, AtDay(a, 1)) && !IsAfter(x, AtEndOfMonth(b))
            <==> MonthIndex(a) <= MonthIndex(YearMonthOf(x)) <= MonthIndex(b)
  {
    MonthIndexOrder(YearMonthOf(x), a);
    MonthIndexOrder(b, YearMonthOf(x));
  }

  /** The inclusive window [first day, last day] of a month holds exactly that month's dates. */
  lemma {:induction false} MonthWindow(x: Date, ym: YearMonth)
    ensures !IsBefore(x, AtDay(ym, 1)) && !IsAfter(x, AtEndOfMonth(ym)) <==> YearMonthOf(x) == ym
  {
    MonthRangeWindow(x, ym, ym);
    if MonthIndex(YearMonthOf(x)) == MonthIndex(ym) {
      MonthIndexInjective(YearMonthOf(x), ym);
    }
  }

  /** `LocalDateTime.compareTo`, reduced to its sign. */
  function CompareDateTime(a: DateTime, b: DateTime): (c: int)
    ensures c == 0 <==> a == b
    ensures c < 0 <==> IsBefore(a.date, b.date) || (a.date == b.date && a.nanoOfDay < b.nanoOfDay)
  {
    if IsBefore(a.date, b.date) then -1
    else if IsBefore(b.date, a.date) then 1
    else if a.nanoOfDay < b.nanoOfDay then -1
    else if b.nanoOfDay < a.nanoOfDay then 1
    else 0
  }

  lemma CompareDateTimeTransitive(a: DateTime, b: DateTime, c: DateTime)
    requires CompareDateTime(a, b) <= 0 && CompareDateTime(b, c) <= 0
    ensures CompareDateTime(a, c) <= 0
  {
  }
}
