/**
 * The effective financial month: a user whose month starts on day `s`
 * still belongs, on days 1..s-1, to the month that began in the previous
 * calendar month.
 */
module FinancialMonth {
  import opened Wrappers
  import opened Calendar
  import opened Entities

  /**
   * `getEffectiveBudgetMonth` (and its copy `getEffectiveMonthForUser` in the
   * scheduler): step the date back one month when its day is before the
   * start day, then take its year and month.
   */
  function EffectiveMonth(user: User, today: Date): (ym: YearMonth)
    ensures today.day < StartDay(user) ==> ym == MinusMonths(YearMonthOf(today), 1)
    ensures today.day >= StartDay(user) ==> ym == YearMonthOf(today)
  {
    var startDay := StartDay(user);
    var date := if today.day < startDay then DateMinusMonths(today, 1) else today;
    YearMonthOf(date)
  }

  /** With no stored start day, or start day 1, the financial month is the calendar month. */
  lemma EffectiveMonthDefault(user: User, today: Date)
    requires user.monthStartDay.None? || user.monthStartDay == Some(1)
    ensures EffectiveMonth(user, today) == YearMonthOf(today)
  {
  }

  /** The financial month is the calendar month or the one just before it. */
  lemma EffectiveMonthWithinOne(user: User, today: Date)
    ensures var i := MonthIndex(EffectiveMonth(user, today));
            MonthIndex(YearMonthOf(today)) - 1 <= i <= MonthIndex(YearMonthOf(today))
  {
  }

  /** Early January belongs to December of the previous year. */
  lemma {:induction false} EffectiveMonthJanuary(user: User, today: Date)
    requires today.month == 1 && today.day < StartDay(user)
    ensures EffectiveMonth(user, today) == YearMonthFields(today.year - 1, 12)
  {
    PreviousMonthShape(YearMonthOf(today));
  }

  /** Start day 5: 3 November 2024 is still in October, 5 November 2024 is in November. */
  lemma EffectiveMonthExample()
    ensures EffectiveMonth(User(1, Some(5)), DateFields(2024, 11, 3)) == YearMonthFields(2024, 10)
    ensures EffectiveMonth(User(1, Some(5)), DateFields(2024, 11, 5)) == YearMonthFields(2024, 11)
  {
    PreviousMonthShape(YearMonthFields(2024, 11));
  }

  /**
   * With a start day s in 1..28, the day falls inside its financial month:
   * on or after day s of that month and before day s of the next.
   */
  lemma {:induction false} EffectiveMonthContainsDay(user: User, today: Date)
    requires 1 <= StartDay(user) <= 28
    ensures var ym := EffectiveMonth(user, today);
            var s := StartDay(user);
            !IsBefore(today, AtDay(ym, s)) && IsBefore(today, AtDay(PlusMonths(ym, 1), s))
  {
    var ym := EffectiveMonth(user, today);
    var s := StartDay(user);
    var next := PlusMonths(ym, 1);
    var cur := YearMonthOf(today);
    if today.day < s {
      assert MonthIndex(ym) + 1 == MonthIndex(cur);
      MonthIndexOrder(ym, cur);
      MonthIndexInjective(next, cur);
    } else {
      MonthIndexOrder(cur, next);
    }
  }

  /** On a user's start day the financial month is the calendar month, and the previous one is a month earlier. */
  lemma EffectiveMonthOnStartDay(user: User, today: Date)
    requires today.day == StartDay(user)
    ensures EffectiveMonth(user, today) == YearMonthOf(today)
    ensures MonthIndex(MinusMonths(EffectiveMonth(user, today), 1)) == MonthIndex(YearMonthOf(today)) - 1
  {
  }
}
