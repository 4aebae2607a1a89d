/**
 * The dashboard: budget total, this month's and last month's spending,
 * daily averages, savings and their percentage changes, and the five most
 * recently created expenses.
 */
module Dashboard {
  import opened Wrappers
  import opened Calendar
  import opened Entities
  import opened Repositories
  import opened ExpenseService
  import opened Seqs

  // ------------------------------------------------------------ percentages

  /**
   * `formatChange` before rendering: the change from `previous` to `current`
   * in percent, and 0 when `previous` is 0.
   */
  function ChangePercent(current: real, previous: real): (r: real)
    ensures previous == 0.0 ==> r == 0.0
    ensures previous != 0.0 ==> r * previous == (current - previous) * 100.0
  {
    if previous == 0.0 then 0.0 else (current - previous) / previous * 100.0
  }

  /** From a positive base the change is non-negative (rendered with '+') exactly when the value did not drop. */
  lemma ChangePercentSign(current: real, previous: real)
    requires previous > 0.0
    ensures ChangePercent(current, previous) >= 0.0 <==> current >= previous
  {
  }

  lemma ChangePercentExamples()
    ensures ChangePercent(150.0, 100.0) == 50.0
    ensures ChangePercent(80.0, 100.0) == -20.0
    ensures ChangePercent(80.0, 0.0) == 0.0
  {
  }

  // ------------------------------------------------------------------ stats

  /** The figures of the stats response, with each change as a percentage. */
  datatype Stats = Stats(
    totalBalance: real,
    expenses: real,
    avgDailySpending: real,
    savings: real,
    balanceChange: real,
    expensesChange: real,
    spendingsChange: real,
    savingsChange: real)

  function BudgetAmount(b: Budget): real {
    b.amount.GetOr(0.0)
  }

  function HasAmount(): Budget -> bool {
    (b: Budget) => b.amount.Some?
  }

  function Dated(): Expense -> bool {
    (e: Expense) => e.date.Some?
  }

  /** The source's month filter: after the day before `start` and before the day after `end`. */
  function InDayWindow(start: Date, end: Date): Expense -> bool {
    (e: Expense) => e.date.Some? && IsAfter(e.date.value, PreviousDay(start)) && IsBefore(e.date.value, NextDay(end))
  }

  /** The reference: dated in calendar month `ym`. */
  function InCalendarMonth(ym: YearMonth): Expense -> bool {
    (e: Expense) => e.date.Some? && YearMonthOf(e.date.value) == ym
  }

  /** Budgets counted in last month's total: created on or before `prevEnd`, or with no creation time. */
  function CreatedBy(prevEnd: Date): Budget -> bool {
    (b: Budget) => b.createdAt.None? || !IsAfter(b.createdAt.value.date, prevEnd)
  }

  /** The sum of the (null as 0) amounts of the dated expenses in month `ym`, filtered as the source does. */
  function MonthExpenses(all: seq<Expense>, ym: YearMonth): (r: real)
    ensures r == CalendarMonthSpending(all, ym)
  {
    MonthWindowIsCalendarMonth(all, ym);
    Sum(Filter(Filter(all, Dated()), InDayWindow(AtDay(ym, 1), AtEndOfMonth(ym))), AmountOrZero)
  }

  /** The two-stage window filter selects exactly the expenses dated in that calendar month. */
  lemma MonthWindowIsCalendarMonth(all: seq<Expense>, ym: YearMonth)
    ensures Filter(Filter(all, Dated()), InDayWindow(AtDay(ym, 1), AtEndOfMonth(ym))) == Filter(all, InCalendarMonth(ym))
  {
    forall e | e in all
      ensures InCalendarMonth(ym)(e) <==> Dated()(e) && InDayWindow(AtDay(ym, 1), AtEndOfMonth(ym))(e)
    {
      if e.date.Some? {
        var x := e.date.value;
        AfterPreviousDay(x, AtDay(ym, 1));
        BeforeNextDay(x, AtEndOfMonth(ym));
        MonthWindow(x, ym);
      }
    }
    FilterCompose(all, Dated(), InDayWindow(AtDay(ym, 1), AtEndOfMonth(ym)), InCalendarMonth(ym));
  }

  /** The reference: the (null as 0) amounts of the expenses dated in calendar month `ym`. */
  function CalendarMonthSpending(all: seq<Expense>, ym: YearMonth): real {
    Sum(Filter(all, InCalendarMonth(ym)), AmountOrZero)
  }

  /** The sum of the user's budgets with an amount, in every month. */
  function TotalBudget(budgets: seq<Budget>): real {
    Sum(Filter(budgets, HasAmount()), BudgetAmount)
  }

  /** The total of the budgets created by the end of last month. */
  function PrevTotalBudget(budgets: seq<Budget>, prevEnd: Date): real {
    Sum(Filter(Filter(budgets, CreatedBy(prevEnd)), HasAmount()), BudgetAmount)
  }

  /** `total / days`, or 0 when there are no days. */
  function DailyAverage(total: real, days: int): (r: real)
    ensures days > 0 ==> r * (days as real) == total
  {
    if days > 0 then total / (days as real) else 0.0
  }

  /** The response built from the four sums the source computes. */
  function StatsOf(totalBudget: real, currentExpenses: real, prevExpenses: real, prevTotalBudget: real,
                   daysElapsed: int, daysInPrevMonth: int): (r: Stats)
    ensures r.totalBalance == totalBudget && r.expenses == currentExpenses
    ensures r.avgDailySpending == DailyAverage(currentExpenses, daysElapsed)
    ensures r.savings == totalBudget - currentExpenses
    ensures r.balanceChange == ChangePercent(totalBudget, prevTotalBudget)
    ensures r.expensesChange == ChangePercent(currentExpenses, prevExpenses)
    ensures r.spendingsChange == ChangePercent(r.avgDailySpending, DailyAverage(prevExpenses, daysInPrevMonth))
    ensures r.savingsChange == ChangePercent(r.savings, prevTotalBudget - prevExpenses)
  {
    var avgDaily := DailyAverage(currentExpenses, daysElapsed);
    var avgPrevDaily := DailyAverage(prevExpenses, daysInPrevMonth);
    var savings := totalBudget - currentExpenses;
    var prevSavings := prevTotalBudget - prevExpenses;
    Stats(totalBudget, currentExpenses, avgDaily, savings,
          ChangePercent(totalBudget, prevTotalBudget), ChangePercent(currentExpenses, prevExpenses),
          ChangePercent(avgDaily, avgPrevDaily), ChangePercent(savings, prevSavings))
  }

  /** The calendar month before the one of `today`. */
  function LastMonth(today: Date): YearMonth {
    MinusMonths(YearMonthOf(today), 1)
  }

  /**
   * `getStats` for the user at `today`: the response built from the user's
   * budget total, the calendar-month spending of this month and of the last,
   * and the total of the budgets created by the end of last month.
   */
  function GetStats(budgetRows: seq<Budget>, expenseRows: seq<Expense>, userId: nat, today: Date): (r: Stats)
    ensures r == StatsOf(Sum(FindByUser(budgetRows, userId), BudgetAmount),
                         CalendarMonthSpending(FindExpensesByUser(expenseRows, userId), YearMonthOf(today)),
                         CalendarMonthSpending(FindExpensesByUser(expenseRows, userId), LastMonth(today)),
                         PrevTotalBudget(FindByUser(budgetRows, userId), AtEndOfMonth(LastMonth(today))),
                         today.day, LengthOfMonth(LastMonth(today).year, LastMonth(today).month))
  {
    var budgets := FindByUser(budgetRows, userId);
    var all := FindExpensesByUser(expenseRows, userId);
    var currentYm := YearMonthOf(today);
    var prevYm := MinusMonths(currentYm, 1);
    var total := TotalBudget(budgets);
    assert total == Sum(budgets, BudgetAmount) by {
      SumFilterZeros(budgets, HasAmount(), BudgetAmount);
    }
    var current := MonthExpenses(all, currentYm);
    var previous := MonthExpenses(all, prevYm);
    StatsOf(total, current, previous, PrevTotalBudget(budgets, AtEndOfMonth(prevYm)),
            today.day, LengthOfMonth(prevYm.year, prevYm.month))
  }

  /** With non-negative amounts, last month's budget total never exceeds the total. */
  lemma PrevTotalBudgetAtMost(budgets: seq<Budget>, prevEnd: Date)
    requires forall b :: b in budgets ==> BudgetAmount(b) >= 0.0
    ensures PrevTotalBudget(budgets, prevEnd) <= TotalBudget(budgets)
  {
    var created := Filter(budgets, CreatedBy(prevEnd));
    SumFilterZeros(created, HasAmount(), BudgetAmount);
    SumFilterLe(budgets, CreatedBy(prevEnd), BudgetAmount);
    SumFilterZeros(budgets, HasAmount(), BudgetAmount);
  }

  /** When every budget was created by the end of last month, both totals agree. */
  lemma PrevTotalBudgetAllOld(budgets: seq<Budget>, prevEnd: Date)
    requires forall b :: b in budgets ==> CreatedBy(prevEnd)(b)
    ensures PrevTotalBudget(budgets, prevEnd) == TotalBudget(budgets)
  {
    FilterKeepsAll(budgets, CreatedBy(prevEnd));
  }

  /** 300 spent by the 10th of the month is 30 a day. */
  lemma AvgDailyExample(budgetRows: seq<Budget>, expenseRows: seq<Expense>, userId: nat, today: Date)
    requires today.day == 10
    requires CalendarMonthSpending(FindExpensesByUser(expenseRows, userId), YearMonthOf(today)) == 300.0
    ensures GetStats(budgetRows, expenseRows, userId, today).avgDailySpending == 30.0
  {
  }

  // ----------------------------------------------------- recent transactions

  /** The comparator of `getRecentTransactions`: newer creation time first, 0 when either time is null. */
  function CompareRecent(a: Expense, b: Expense): (c: int)
    ensures c < 0 <==> a.createdAt.Some? && b.createdAt.Some?
                       && (IsBefore(b.createdAt.value.date, a.createdAt.value.date)
                           || (b.createdAt.value.date == a.createdAt.value.date
                               && b.createdAt.value.nanoOfDay < a.createdAt.value.nanoOfDay))
    ensures c == 0 <==> a.createdAt.None? || b.createdAt.None? || a.createdAt == b.createdAt
  {
    if a.createdAt.Some? && b.createdAt.Some? then CompareDateTime(b.createdAt.value, a.createdAt.value) else 0
  }

  /** Places `x` before the first element it does not sort after, so earlier equals stay first. */
  function InsertRecent(x: Expense, s: seq<Expense>): (r: seq<Expense>)
    ensures multiset(r) == multiset(s) + multiset{x}
    decreases |s|
  {
    if s == [] then [x]
    else if CompareRecent(x, s[0]) <= 0 then [x] + s
    else
      assert s == [s[0]] + s[1..];
      [s[0]] + InsertRecent(x, s[1..])
  }

  /** `sorted(comparator)`: a stable insertion sort with the same comparator. */
  function SortRecent(s: seq<Expense>): (r: seq<Expense>)
    ensures multiset(r) == multiset(s)
    decreases |s|
  {
    if s == [] then []
    else
      assert s == [s[0]] + s[1..];
      InsertRecent(s[0], SortRecent(s[1..]))
  }

  predicate AllStamped(s: seq<Expense>) {
    forall e :: e in s ==> e.createdAt.Some?
  }

  /** Newest first: no expense is created after one listed before it. */
  predicate NewestFirst(s: seq<Expense>) {
    forall i, j :: 0 <= i < j < |s| ==> CompareRecent(s[i], s[j]) <= 0
  }

  /** An expense that sorts no later than every element of a newest-first sequence keeps it newest first in front. */
  lemma ConsNewestFirst(h: Expense, t: seq<Expense>)
    requires NewestFirst(t) && forall j :: 0 <= j < |t| ==> CompareRecent(h, t[j]) <= 0
    ensures NewestFirst([h] + t)
  {
    var r := [h] + t;
    forall i, j | 0 <= i < j < |r| ensures CompareRecent(r[i], r[j]) <= 0 {
      assert r[j] == t[j - 1];
      if i > 0 {
        assert r[i] == t[i - 1];
      }
    }
  }

  lemma {:induction false} InsertRecentSorted(x: Expense, s: seq<Expense>)
    requires x.createdAt.Some? && AllStamped(s) && NewestFirst(s)
    ensures NewestFirst(InsertRecent(x, s))
    decreases |s|
  {
    if s == [] {
    } else if CompareRecent(x, s[0]) <= 0 {
      forall j | 0 <= j < |s| ensures CompareRecent(x, s[j]) <= 0 {
        assert s[j] in s;
        if j > 0 {
          CompareDateTimeTransitive(s[j].createdAt.value, s[0].createdAt.value, x.createdAt.value);
        }
      }
      ConsNewestFirst(x, s);
    } else {
      var t := InsertRecent(x, s[1..]);
      assert forall e :: e in s[1..] ==> e in s;
      InsertRecentSorted(x, s[1..]);
      forall j | 0 <= j < |t| ensures CompareRecent(s[0], t[j]) <= 0 {
        assert t[j] in multiset(t);
        if t[j] == x {
          CompareRecentFlip(x, s[0]);
        } else {
          assert t[j] in multiset(s[1..]);
          var k :| 1 <= k < |s| && s[k] == t[j];
          assert CompareRecent(s[0], s[k]) <= 0;
        }
      }
      ConsNewestFirst(s[0], t);
    }
  }

  /** Between stamped expenses, one that sorts after the other has the other sort no later than it. */
  lemma CompareRecentFlip(a: Expense, b: Expense)
    requires a.createdAt.Some? && b.createdAt.Some? && CompareRecent(a, b) > 0
    ensures CompareRecent(b, a) <= 0
  {
  }

  lemma {:induction false} SortRecentSorted(s: seq<Expense>)
    requires AllStamped(s)
    ensures NewestFirst(SortRecent(s))
    decreases |s|
  {
    if s != [] {
      assert forall e :: e in s[1..] ==> e in s;
      SortRecentSorted(s[1..]);
      var t := SortRecent(s[1..]);
      assert forall e :: e in t ==> e in multiset(s[1..]);
      InsertRecentSorted(s[0], t);
    }
  }

  /** `getRecentTransactions`: the first five of the user's expenses in the comparator's order. */
  function RecentTransactions(rows: seq<Expense>, userId: nat): (r: seq<Expense>)
    ensures |r| <= 5
    ensures |r| == if |FindExpensesByUser(rows, userId)| < 5 then |FindExpensesByUser(rows, userId)| else 5
    ensures multiset(r) <= multiset(FindExpensesByUser(rows, userId))
  {
    var sorted := SortRecent(FindExpensesByUser(rows, userId));
    var r := Take(sorted, 5);
    assert sorted == r + sorted[|r|..];
    assert multiset(sorted) == multiset(r) + multiset(sorted[|r|..]);
    r
  }

  /** In a newest-first sequence, nothing after position `n` is newer than anything before it. */
  lemma NewestFirstSplit(sorted: seq<Expense>, n: nat)
    requires NewestFirst(sorted) && n <= |sorted|
    ensures NewestFirst(sorted[..n])
    ensures forall y, x :: y in sorted[n..] && x in sorted[..n] ==> CompareRecent(x, y) <= 0
  {
    forall y, x | y in sorted[n..] && x in sorted[..n] ensures CompareRecent(x, y) <= 0 {
      var rest := sorted[n..];
      var j :| 0 <= j < |rest| && rest[j] == y;
      var i :| 0 <= i < n && sorted[..n][i] == x;
      assert sorted[n + j] == y && sorted[i] == x;
    }
  }

  lemma MultisetOfSplit(a: seq<Expense>, b: seq<Expense>)
    ensures multiset(a + b) - multiset(a) == multiset(b)
  {
  }

  /**
   * When every expense has a creation time, the result is newest first and no
   * expense left out is newer than any expense shown.
   */
  lemma RecentTransactionsAreNewest(rows: seq<Expense>, userId: nat)
    requires AllStamped(FindExpensesByUser(rows, userId))
    ensures var mine := FindExpensesByUser(rows, userId);
            var r := RecentTransactions(rows, userId);
            && NewestFirst(r)
            && forall y, x :: y in multiset(mine) - multiset(r) && x in r ==> CompareRecent(x, y) <= 0
  {
    var mine := FindExpensesByUser(rows, userId);
    var sorted := SortRecent(mine);
    var r := RecentTransactions(rows, userId);
    SortRecentSorted(mine);
    var rest := sorted[|r|..];
    assert sorted == r + rest;
    MultisetOfSplit(r, rest);
    assert multiset(mine) - multiset(r) == multiset(rest);
    NewestFirstSplit(sorted, |r|);
  }
}
