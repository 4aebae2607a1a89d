/**
 * Reports: the user's spending summed by budget category, by calendar month
 * (sorted by month key and labelled "MON yyyy") and by payment type, over all
 * expenses or over the six calendar months ending with the current one.
 */
module Report {
  import opened Wrappers
  import opened Calendar
  import opened Text
  import opened DateText
  import opened Entities
  import opened Repositories
  import opened ExpenseService
  import opened Seqs

  // ---------------------------------------------------------------- grouping

  /** A group: its key and the sum of its members' amounts. */
  type Group = (string, real)

  function Total(g: Group): real {
    g.1
  }

  function WithKey(key: Expense -> string, k: string): Expense -> bool {
    (e: Expense) => key(e) == k
  }

  function KeyIs(k: string): Group -> bool {
    (g: Group) => g.0 == k
  }

  /** Adds `v` to the group of `k`, opening a group at the end when `k` is new. */
  function AddTo(groups: seq<Group>, k: string, v: real): seq<Group> {
    match FirstIndex(groups, KeyIs(k))
    case Some(i) => groups[i := (k, groups[i].1 + v)]
    case None => groups + [(k, v)]
  }

  /**
   * `groupingBy(key, summingDouble(amount))` with null amounts read as 0; the
   * groups are kept in the order their keys first occur.
   */
  function GroupTotals(s: seq<Expense>, key: Expense -> string): (r: seq<Group>)
    ensures |r| <= |s|
    decreases |s|
  {
    if s == [] then []
    else AddTo(GroupTotals(s[..|s| - 1], key), key(s[|s| - 1]), AmountOrZero(s[|s| - 1]))
  }

  predicate DistinctKeys(groups: seq<Group>) {
    forall i, j :: 0 <= i < j < |groups| ==> groups[i].0 != groups[j].0
  }

  function Keys(groups: seq<Group>): set<string> {
    set i | 0 <= i < |groups| :: groups[i].0
  }

  lemma AddToKeys(groups: seq<Group>, k: string, v: real)
    requires DistinctKeys(groups)
    ensures DistinctKeys(AddTo(groups, k, v))
    ensures Keys(AddTo(groups, k, v)) == Keys(groups) + {k}
  {
    var r := AddTo(groups, k, v);
    match FirstIndex(groups, KeyIs(k)) {
      case Some(i) =>
        assert forall j :: 0 <= j < |r| ==> r[j].0 == groups[j].0;
        assert k == groups[i].0;
      case None =>
        assert forall j :: 0 <= j < |groups| ==> r[j] == groups[j];
        assert r[|groups|].0 == k;
    }
  }

  /** The groups have distinct keys, one for each key that occurs. */
  lemma {:induction false} GroupTotalsKeys(s: seq<Expense>, key: Expense -> string)
    ensures DistinctKeys(GroupTotals(s, key))
    ensures Keys(GroupTotals(s, key)) == set e | e in s :: key(e)
    decreases |s|
  {
    if s != [] {
      var init := s[..|s| - 1];
      var last := s[|s| - 1];
      GroupTotalsKeys(init, key);
      AddToKeys(GroupTotals(init, key), key(last), AmountOrZero(last));
      assert s == init + [last];
      assert (set e | e in s :: key(e)) == (set e | e in init :: key(e)) + {key(last)};
    }
  }

  lemma FilterNone(s: seq<Expense>, p: Expense -> bool)
    requires forall e :: e in s ==> !p(e)
    ensures Filter(s, p) == []
  {
    if Filter(s, p) != [] {
      assert Filter(s, p)[0] in Filter(s, p);
    }
  }

  /** The sum over the expenses with key `k` of `init + [last]`. */
  lemma SumWithLast(init: seq<Expense>, last: Expense, key: Expense -> string, k: string)
    ensures Sum(Filter(init + [last], WithKey(key, k)), AmountOrZero)
            == Sum(Filter(init, WithKey(key, k)), AmountOrZero) + (if key(last) == k then AmountOrZero(last) else 0.0)
  {
    FilterAppend(init, [last], WithKey(key, k));
    SumAppend(Filter(init, WithKey(key, k)), Filter([last], WithKey(key, k)), AmountOrZero);
    assert [last][1..] == [];
  }

  predicate SumsHold(s: seq<Expense>, key: Expense -> string, groups: seq<Group>) {
    forall i :: 0 <= i < |groups| ==> groups[i].1 == Sum(Filter(s, WithKey(key, groups[i].0)), AmountOrZero)
  }

  /** One step of the grouping keeps every total equal to the sum over its key. */
  lemma AddToSums(init: seq<Expense>, last: Expense, key: Expense -> string, g0: seq<Group>)
    requires SumsHold(init, key, g0)
    requires DistinctKeys(g0)
    requires Keys(g0) == set e | e in init :: key(e)
    ensures SumsHold(init + [last], key, AddTo(g0, key(last), AmountOrZero(last)))
  {
    var k := key(last);
    var v := AmountOrZero(last);
    var groups := AddTo(g0, k, v);
    forall i | 0 <= i < |groups|
      ensures groups[i].1 == Sum(Filter(init + [last], WithKey(key, groups[i].0)), AmountOrZero)
    {
      SumWithLast(init, last, key, groups[i].0);
      match FirstIndex(g0, KeyIs(k)) {
        case Some(j) =>
          assert KeyIs(k)(g0[j]);
          assert groups == g0[j := (k, g0[j].1 + v)];
          if i != j {
            assert groups[i] == g0[i];
            assert g0[i].0 != k;
          } else {
            assert groups[i] == (k, g0[j].1 + v);
          }
        case None =>
          assert groups == g0 + [(k, v)];
          if i == |g0| {
            assert groups[i] == (k, v);
            forall e | e in init ensures !WithKey(key, k)(e) {
              assert key(e) in Keys(g0);
            }
            FilterNone(init, WithKey(key, k));
          } else {
            assert groups[i] == g0[i];
            assert !KeyIs(k)(g0[i]);
          }
      }
    }
  }

  /** Each group's total is the sum of the amounts of exactly the expenses with its key. */
  lemma {:induction false} GroupTotalsSums(s: seq<Expense>, key: Expense -> string)
    ensures SumsHold(s, key, GroupTotals(s, key))
    decreases |s|
  {
    if s != [] {
      var init := s[..|s| - 1];
      GroupTotalsSums(init, key);
      GroupTotalsKeys(init, key);
      AddToSums(init, s[|s| - 1], key, GroupTotals(init, key));
      assert s == init + [s[|s| - 1]];
    }
  }

  lemma {:induction false} SumUpdate(groups: seq<Group>, i: nat, k: string, v: real)
    requires i < |groups|
    ensures Sum(groups[i := (k, groups[i].1 + v)], Total) == Sum(groups, Total) + v
    decreases |groups|
  {
    if i > 0 {
      SumUpdate(groups[1..], i - 1, k, v);
      assert groups[i := (k, groups[i].1 + v)][1..] == groups[1..][i - 1 := (k, groups[i].1 + v)];
    }
  }

  /** Grouping loses and invents nothing: the group totals add up to the total amount. */
  lemma {:induction false} GroupTotalsConserve(s: seq<Expense>, key: Expense -> string)
    ensures Sum(GroupTotals(s, key), Total) == Sum(s, AmountOrZero)
    decreases |s|
  {
    if s != [] {
      var init := s[..|s| - 1];
      var last := s[|s| - 1];
      var g0 := GroupTotals(init, key);
      GroupTotalsConserve(init, key);
      assert s == init + [last];
      SumAppend(init, [last], AmountOrZero);
      match FirstIndex(g0, KeyIs(key(last))) {
        case Some(j) => SumUpdate(g0, j, key(last), AmountOrZero(last));
        case None => SumAppend(g0, [(key(last), AmountOrZero(last))], Total);
      }
    }
  }

  // ---------------------------------------------------------------- responses

  /** A chart entry: a label and a value. */
  datatype ReportLine = ReportLine(name: string, value: real)

  datatype ReportError =
    | NullAmount          // summingDouble unboxing a null amount
    | UnlabelledMonth     // a month key whose year part does not parse

  function Value(l: ReportLine): real {
    l.value
  }

  function Lines(groups: seq<Group>): (r: seq<ReportLine>)
    ensures |r| == |groups|
    ensures forall i :: 0 <= i < |r| ==> r[i].name == groups[i].0 && r[i].value == groups[i].1
  {
    seq(|groups|, i requires 0 <= i < |groups| => ReportLine(groups[i].0, groups[i].1))
  }

  predicate AllAmounts(es: seq<Expense>) {
    forall e :: e in es ==> e.amount.Some?
  }

  // ------------------------------------------------------------------ range

  /** The first day of the six-month window: day 1 of the month five months back. */
  function SixMonthStart(today: Date): Date {
    WithDayOfMonth(DateMinusMonths(today, 5), 1)
  }

  /** `fetchExpensesForRange`. */
  function ExpensesForRange(rows: seq<Expense>, userId: nat, lastSixMonths: bool, today: Date): (r: seq<Expense>)
    ensures forall e :: e in r ==> e in rows && e.userId == userId
    ensures !lastSixMonths ==> forall e :: e in rows && e.userId == userId ==> e in r
    ensures lastSixMonths ==> forall e :: e in r ==> e.date.Some?
  {
    if !lastSixMonths then FindExpensesByUser(rows, userId)
    else FindByUserAndExpenseDateBetween(rows, userId, SixMonthStart(today), AtEndOfMonth(YearMonthOf(today)))
  }

  /** The six-month window holds exactly the current calendar month and the five before it. */
  lemma SixMonthWindow(today: Date, x: Date)
    ensures !IsBefore(x, SixMonthStart(today)) && !IsAfter(x, AtEndOfMonth(YearMonthOf(today)))
            <==> MonthIndex(YearMonthOf(today)) - 5 <= MonthIndex(YearMonthOf(x)) <= MonthIndex(YearMonthOf(today))
  {
    var first := MinusMonths(YearMonthOf(today), 5);
    assert SixMonthStart(today) == AtDay(first, 1);
    MonthRangeWindow(x, first, YearMonthOf(today));
  }

  /** The range is the user's expenses, limited to the six-month window when asked. */
  lemma ExpensesForRangeMembers(rows: seq<Expense>, userId: nat, lastSixMonths: bool, today: Date, e: Expense)
    ensures e in ExpensesForRange(rows, userId, lastSixMonths, today)
            <==> e in rows && e.userId == userId
                 && (lastSixMonths ==>
                       e.date.Some? &&
                       MonthIndex(YearMonthOf(today)) - 5 <= MonthIndex(YearMonthOf(e.date.value)) <= MonthIndex(YearMonthOf(today)))
  {
    if e.date.Some? {
      SixMonthWindow(today, e.date.value);
    }
  }

  // -------------------------------------------------------------- by category

  /** The category of the expense's budget ("" when the budget is missing, which the filter excludes). */
  function CategoryKey(budgets: seq<Budget>): Expense -> string {
    (e: Expense) => match FindBudgetById(budgets, e.budgetId)
                    case Some(i) => budgets[i].category
                    case None => ""
  }

  function WithBudget(budgets: seq<Budget>): Expense -> bool {
    (e: Expense) => FindBudgetById(budgets, e.budgetId).Some?
  }

  /** The expenses `getExpenseByCategory` groups. */
  function CategorySource(rows: seq<Expense>, budgets: seq<Budget>, userId: nat, lastSixMonths: bool, today: Date): seq<Expense> {
    Filter(ExpensesForRange(rows, userId, lastSixMonths, today), WithBudget(budgets))
  }

  /** `getExpenseByCategory`. */
  function ExpenseByCategory(rows: seq<Expense>, budgets: seq<Budget>, userId: nat, lastSixMonths: bool, today: Date)
    : (r: Result<seq<ReportLine>, ReportError>)
    ensures r.Err? <==> !AllAmounts(CategorySource(rows, budgets, userId, lastSixMonths, today))
  {
    var es := CategorySource(rows, budgets, userId, lastSixMonths, today);
    if !AllAmounts(es) then Err(NullAmount) else Ok(Lines(GroupTotals(es, CategoryKey(budgets))))
  }

  /**
   * One line per category, each the sum over the expenses of budgets of that
   * category, and all lines together the sum over every expense grouped.
   */
  lemma ExpenseByCategoryTotals(rows: seq<Expense>, budgets: seq<Budget>, userId: nat, lastSixMonths: bool, today: Date)
    requires ExpenseByCategory(rows, budgets, userId, lastSixMonths, today).Ok?
    ensures var lines := ExpenseByCategory(rows, budgets, userId, lastSixMonths, today).value;
            var es := CategorySource(rows, budgets, userId, lastSixMonths, today);
            && (forall i, j :: 0 <= i < j < |lines| ==> lines[i].name != lines[j].name)
            && (forall i :: 0 <= i < |lines| ==>
                  lines[i].value == Sum(Filter(es, WithKey(CategoryKey(budgets), lines[i].name)), AmountOrZero))
            && (set i | 0 <= i < |lines| :: lines[i].name) == (set e | e in es :: CategoryKey(budgets)(e))
            && Sum(lines, Value) == Sum(es, AmountOrZero)
  {
    var es := CategorySource(rows, budgets, userId, lastSixMonths, today);
    var groups := GroupTotals(es, CategoryKey(budgets));
    GroupLines(es, CategoryKey(budgets));
  }

  /** What every grouped report inherits from the grouping. */
  lemma GroupLines(es: seq<Expense>, key: Expense -> string)
    ensures var lines := Lines(GroupTotals(es, key));
            && (forall i, j :: 0 <= i < j < |lines| ==> lines[i].name != lines[j].name)
            && (forall i :: 0 <= i < |lines| ==> lines[i].value == Sum(Filter(es, WithKey(key, lines[i].name)), AmountOrZero))
            && (set i | 0 <= i < |lines| :: lines[i].name) == (set e | e in es :: key(e))
            && Sum(lines, Value) == Sum(es, AmountOrZero)
  {
    var groups := GroupTotals(es, key);
    var lines := Lines(groups);
    GroupTotalsKeys(es, key);
    GroupTotalsSums(es, key);
    GroupTotalsConserve(es, key);
    assert (set i | 0 <= i < |lines| :: lines[i].name) == Keys(groups);
    LinesSum(groups);
  }

  lemma {:induction false} LinesSum(groups: seq<Group>)
    ensures Sum(Lines(groups), Value) == Sum(groups, Total)
    decreases |groups|
  {
    if groups != [] {
      LinesSum(groups[1..]);
      assert Lines(groups)[1..] == Lines(groups[1..]);
    }
  }

  // ----------------------------------------------------------- by payment type

  function PaymentKey(): Expense -> string {
    (e: Expense) => if e.payment.Some? then e.payment.value.typeName else ""
  }

  function WithPayment(): Expense -> bool {
    (e: Expense) => e.payment.Some?
  }

  function PaymentSource(rows: seq<Expense>, userId: nat, lastSixMonths: bool, today: Date): seq<Expense> {
    Filter(ExpensesForRange(rows, userId, lastSixMonths, today), WithPayment())
  }

  /** `getPaymentTypeSummary`: grouped by the payment type's name, case-sensitively. */
  function PaymentTypeSummary(rows: seq<Expense>, userId: nat, lastSixMonths: bool, today: Date)
    : (r: Result<seq<ReportLine>, ReportError>)
    ensures r.Err? <==> !AllAmounts(PaymentSource(rows, userId, lastSixMonths, today))
  {
    var es := PaymentSource(rows, userId, lastSixMonths, today);
    if !AllAmounts(es) then Err(NullAmount) else Ok(Lines(GroupTotals(es, PaymentKey())))
  }

  /** One line per payment type name, each the sum over that type's expenses, adding up to the total. */
  lemma PaymentTypeSummaryTotals(rows: seq<Expense>, userId: nat, lastSixMonths: bool, today: Date)
    requires PaymentTypeSummary(rows, userId, lastSixMonths, today).Ok?
    ensures var lines := PaymentTypeSummary(rows, userId, lastSixMonths, today).value;
            var es := PaymentSource(rows, userId, lastSixMonths, today);
            && (forall i, j :: 0 <= i < j < |lines| ==> lines[i].name != lines[j].name)
            && (forall i :: 0 <= i < |lines| ==>
                  lines[i].value == Sum(Filter(es, WithKey(PaymentKey(), lines[i].name)), AmountOrZero))
            && (set i | 0 <= i < |lines| :: lines[i].name) == (set e | e in es :: PaymentKey()(e))
            && Sum(lines, Value) == Sum(es, AmountOrZero)
  {
    GroupLines(PaymentSource(rows, userId, lastSixMonths, today), PaymentKey());
  }

  // ------------------------------------------------------------------ monthly

  /** The month key of a dated expense ("" for an undated one, which the filter excludes). */
  function MonthKeyOf(): Expense -> string {
    (e: Expense) => if e.date.Some? then MonthKey(YearMonthOf(e.date.value)) else ""
  }

  function Dated(): Expense -> bool {
    (e: Expense) => e.date.Some?
  }

  function MonthlySource(rows: seq<Expense>, userId: nat, lastSixMonths: bool, today: Date): seq<Expense> {
    Filter(ExpensesForRange(rows, userId, lastSixMonths, today), Dated())
  }

  /** Places a group before the first group with a greater key. */
  function InsertByKey(g: Group, s: seq<Group>): (r: seq<Group>)
    ensures multiset(r) == multiset(s) + multiset{g}
    decreases |s|
  {
    if s == [] then [g]
    else if LexLess(g.0, s[0].0) then [g] + s
    else
      assert s == [s[0]] + s[1..];
      [s[0]] + InsertByKey(g, s[1..])
  }

  /** `sorted(Map.Entry.comparingByKey())`. */
  function SortByKey(s: seq<Group>): (r: seq<Group>)
    ensures multiset(r) == multiset(s)
    decreases |s|
  {
    if s == [] then []
    else
      assert s == [s[0]] + s[1..];
      InsertByKey(s[0], SortByKey(s[1..]))
  }

  predicate KeysAscending(s: seq<Group>) {
    forall i, j :: 0 <= i < j < |s| ==> LexLess(s[i].0, s[j].0)
  }

  /** A group whose key precedes every key of an ascending sequence keeps it ascending in front. */
  lemma ConsAscending(h: Group, t: seq<Group>)
    requires KeysAscending(t) && forall j :: 0 <= j < |t| ==> LexLess(h.0, t[j].0)
    ensures KeysAscending([h] + t)
  {
    var r := [h] + t;
    forall i, j | 0 <= i < j < |r| ensures LexLess(r[i].0, r[j].0) {
      assert r[j] == t[j - 1];
      if i > 0 {
        assert r[i] == t[i - 1];
      }
    }
  }

  lemma {:induction false} InsertByKeySorted(g: Group, s: seq<Group>)
    requires KeysAscending(s) && forall h :: h in s ==> h.0 != g.0
    ensures KeysAscending(InsertByKey(g, s))
    decreases |s|
  {
    if s == [] {
    } else if LexLess(g.0, s[0].0) {
      forall j | 0 <= j < |s| ensures LexLess(g.0, s[j].0) {
        if j > 0 {
          LexLessTransitive(g.0, s[0].0, s[j].0);
        }
      }
      ConsAscending(g, s);
    } else {
      assert s[0] in s;
      LexLessTotal(g.0, s[0].0);
      var t := InsertByKey(g, s[1..]);
      assert forall h :: h in s[1..] ==> h in s;
      InsertByKeySorted(g, s[1..]);
      forall j | 0 <= j < |t| ensures LexLess(s[0].0, t[j].0) {
        assert t[j] in multiset(t);
        if t[j] != g {
          assert t[j] in multiset(s[1..]);
          var k :| 0 <= k < |s[1..]| && s[1..][k] == t[j];
          assert s[k + 1] == t[j];
        }
      }
      ConsAscending(s[0], t);
    }
  }

  lemma {:induction false} SortByKeySorted(s: seq<Group>)
    requires DistinctKeys(s)
    ensures KeysAscending(SortByKey(s))
    decreases |s|
  {
    if s != [] {
      SortByKeySorted(s[1..]);
      var t := SortByKey(s[1..]);
      forall h | h in t ensures h.0 != s[0].0 {
        assert h in multiset(s[1..]);
        var k :| 0 <= k < |s[1..]| && s[1..][k] == h;
        assert s[k + 1] == h;
      }
      InsertByKeySorted(s[0], t);
    }
  }

  /** The labels of the sorted groups, `None` as soon as one key cannot be labelled. */
  function Labelled(groups: seq<Group>): (r: Option<seq<ReportLine>>)
    ensures r.Some? <==> forall i :: 0 <= i < |groups| ==> MonthLabel(groups[i].0).Some?
    ensures r.Some? ==> |r.value| == |groups|
                        && forall i :: 0 <= i < |groups| ==>
                             r.value[i] == ReportLine(MonthLabel(groups[i].0).value, groups[i].1)
    decreases |groups|
  {
    if groups == [] then Some([])
    else match (MonthLabel(groups[0].0), Labelled(groups[1..]))
      case (Some(text), Some(rest)) => Some([ReportLine(text, groups[0].1)] + rest)
      case _ => None
  }

  /** The monthly groups of the source, sorted by key. */
  function SortedMonths(rows: seq<Expense>, userId: nat, lastSixMonths: bool, today: Date): seq<Group> {
    SortByKey(GroupTotals(MonthlySource(rows, userId, lastSixMonths, today), MonthKeyOf()))
  }

  /** `getMonthlySummary`. */
  function MonthlySummary(rows: seq<Expense>, userId: nat, lastSixMonths: bool, today: Date)
    : (r: Result<seq<ReportLine>, ReportError>)
    ensures r.Ok? ==> |r.value| == |SortedMonths(rows, userId, lastSixMonths, today)|
    ensures r.Ok? ==> AllAmounts(MonthlySource(rows, userId, lastSixMonths, today))
  {
    var es := MonthlySource(rows, userId, lastSixMonths, today);
    if !AllAmounts(es) then Err(NullAmount)
    else match Labelled(SortedMonths(rows, userId, lastSixMonths, today))
      case None => Err(UnlabelledMonth)
      case Some(lines) => Ok(lines)
  }

  lemma SortedMember(groups: seq<Group>, i: nat)
    requires i < |SortByKey(groups)|
    ensures SortByKey(groups)[i] in groups
  {
    assert SortByKey(groups)[i] in multiset(SortByKey(groups));
  }

  lemma MemberSorted(groups: seq<Group>, k: nat)
    requires k < |groups|
    ensures groups[k] in SortByKey(groups)
  {
    assert groups[k] in multiset(groups);
  }

  /** The sorted month keys strictly increase. */
  lemma SortedMonthsAscending(rows: seq<Expense>, userId: nat, lastSixMonths: bool, today: Date)
    ensures KeysAscending(SortedMonths(rows, userId, lastSixMonths, today))
  {
    var es := MonthlySource(rows, userId, lastSixMonths, today);
    GroupTotalsKeys(es, MonthKeyOf());
    SortByKeySorted(GroupTotals(es, MonthKeyOf()));
  }

  /** Every sorted month key is the key of the month of some dated expense. */
  lemma SortedMonthsKeys(rows: seq<Expense>, userId: nat, lastSixMonths: bool, today: Date, i: nat)
    requires i < |SortedMonths(rows, userId, lastSixMonths, today)|
    ensures exists e :: e in MonthlySource(rows, userId, lastSixMonths, today) && e.date.Some?
                        && SortedMonths(rows, userId, lastSixMonths, today)[i].0 == MonthKey(YearMonthOf(e.date.value))
  {
    var es := MonthlySource(rows, userId, lastSixMonths, today);
    var groups := GroupTotals(es, MonthKeyOf());
    GroupTotalsKeys(es, MonthKeyOf());
    SortedMember(groups, i);
    var k :| 0 <= k < |groups| && groups[k] == SortByKey(groups)[i];
    assert groups[k].0 in Keys(groups);
    var e :| e in es && MonthKeyOf()(e) == groups[k].0;
  }

  /** Every month's total is the sum of the amounts of that month's expenses. */
  lemma SortedMonthsTotals(rows: seq<Expense>, userId: nat, lastSixMonths: bool, today: Date, i: nat)
    requires i < |SortedMonths(rows, userId, lastSixMonths, today)|
    ensures var sorted := SortedMonths(rows, userId, lastSixMonths, today);
            sorted[i].1 == Sum(Filter(MonthlySource(rows, userId, lastSixMonths, today), WithKey(MonthKeyOf(), sorted[i].0)), AmountOrZero)
  {
    var es := MonthlySource(rows, userId, lastSixMonths, today);
    var groups := GroupTotals(es, MonthKeyOf());
    GroupTotalsSums(es, MonthKeyOf());
    SortedMember(groups, i);
  }

  /** With four-digit years, the monthly lines come in calendar order. */
  lemma MonthlySummaryChronological(rows: seq<Expense>, userId: nat, lastSixMonths: bool, today: Date,
                                    i: nat, j: nat, a: YearMonth, b: YearMonth)
    requires var sorted := SortedMonths(rows, userId, lastSixMonths, today);
             i < j < |sorted| && sorted[i].0 == MonthKey(a) && sorted[j].0 == MonthKey(b)
    requires 0 <= a.year <= 9999 && 0 <= b.year <= 9999
    ensures MonthIndex(a) < MonthIndex(b)
  {
    SortedMonthsAscending(rows, userId, lastSixMonths, today);
    MonthKeyOrder(a, b);
  }

  predicate NegativeYear(es: seq<Expense>) {
    exists e :: e in es && e.date.Some? && e.date.value.year < 0
  }

  /** The key of every grouped expense is the key of some sorted group. */
  lemma KeyInSorted(es: seq<Expense>, key: Expense -> string, e: Expense)
    requires e in es
    ensures exists m :: 0 <= m < |SortByKey(GroupTotals(es, key))| && SortByKey(GroupTotals(es, key))[m].0 == key(e)
  {
    var groups := GroupTotals(es, key);
    GroupTotalsKeys(es, key);
    assert key(e) in Keys(groups);
    var k :| 0 <= k < |groups| && groups[k].0 == key(e);
    MemberSorted(groups, k);
    var m :| 0 <= m < |SortByKey(groups)| && SortByKey(groups)[m] == groups[k];
  }

  /** The month of an expense dated in a negative year is among the sorted keys and cannot be labelled. */
  lemma NegativeYearUnlabelled(rows: seq<Expense>, userId: nat, lastSixMonths: bool, today: Date, e: Expense)
    requires e in MonthlySource(rows, userId, lastSixMonths, today) && e.date.Some? && e.date.value.year < 0
    ensures exists m :: 0 <= m < |SortedMonths(rows, userId, lastSixMonths, today)|
                        && MonthLabel(SortedMonths(rows, userId, lastSixMonths, today)[m].0).None?
  {
    var sorted := SortedMonths(rows, userId, lastSixMonths, today);
    var ym := YearMonthOf(e.date.value);
    KeyInSorted(MonthlySource(rows, userId, lastSixMonths, today), MonthKeyOf(), e);
    var m :| 0 <= m < |sorted| && sorted[m].0 == MonthKeyOf()(e);
    assert sorted[m].0 == MonthKey(ym);
    MonthLabelOfNegativeYear(ym);
  }

  /** Without negative years every sorted key can be labelled. */
  lemma NonNegativeLabelled(rows: seq<Expense>, userId: nat, lastSixMonths: bool, today: Date, i: nat)
    requires !NegativeYear(MonthlySource(rows, userId, lastSixMonths, today))
    requires i < |SortedMonths(rows, userId, lastSixMonths, today)|
    ensures MonthLabel(SortedMonths(rows, userId, lastSixMonths, today)[i].0).Some?
  {
    var es := MonthlySource(rows, userId, lastSixMonths, today);
    SortedMonthsKeys(rows, userId, lastSixMonths, today, i);
    var e :| e in es && e.date.Some? && SortedMonths(rows, userId, lastSixMonths, today)[i].0 == MonthKey(YearMonthOf(e.date.value));
    MonthLabelOfKey(YearMonthOf(e.date.value));
  }

  /** Some month cannot be labelled exactly when some expense is dated in a negative year. */
  lemma UnlabelledIffNegativeYear(rows: seq<Expense>, userId: nat, lastSixMonths: bool, today: Date)
    ensures Labelled(SortedMonths(rows, userId, lastSixMonths, today)).None?
            <==> NegativeYear(MonthlySource(rows, userId, lastSixMonths, today))
  {
    var es := MonthlySource(rows, userId, lastSixMonths, today);
    var sorted := SortedMonths(rows, userId, lastSixMonths, today);
    if e :| e in es && e.date.Some? && e.date.value.year < 0 {
      NegativeYearUnlabelled(rows, userId, lastSixMonths, today, e);
    } else {
      forall i | 0 <= i < |sorted| ensures MonthLabel(sorted[i].0).Some? {
        NonNegativeLabelled(rows, userId, lastSixMonths, today, i);
      }
    }
  }

  /** A null amount fails first; otherwise a month in a negative year cannot be labelled. */
  lemma MonthlySummaryErrors(rows: seq<Expense>, userId: nat, lastSixMonths: bool, today: Date)
    ensures var es := MonthlySource(rows, userId, lastSixMonths, today);
            MonthlySummary(rows, userId, lastSixMonths, today) == Err(NullAmount) <==> !AllAmounts(es)
    ensures var es := MonthlySource(rows, userId, lastSixMonths, today);
            MonthlySummary(rows, userId, lastSixMonths, today) == Err(UnlabelledMonth) <==> AllAmounts(es) && NegativeYear(es)
  {
    UnlabelledIffNegativeYear(rows, userId, lastSixMonths, today);
  }

  /** Every month of a grouped expense has its line, labelled with the month's abbreviation and year. */
  lemma MonthlySummaryCovers(rows: seq<Expense>, userId: nat, lastSixMonths: bool, today: Date, e: Expense)
    requires MonthlySummary(rows, userId, lastSixMonths, today).Ok?
    requires e in MonthlySource(rows, userId, lastSixMonths, today)
    ensures e.date.Some? && YearMonthOf(e.date.value).year >= 0
    ensures var ym := YearMonthOf(e.date.value);
            var lines := MonthlySummary(rows, userId, lastSixMonths, today).value;
            exists m :: 0 <= m < |lines| && lines[m].name == MonthName(ym.month)[..3] + " " + NatToString(ym.year)
  {
    var es := MonthlySource(rows, userId, lastSixMonths, today);
    var sorted := SortedMonths(rows, userId, lastSixMonths, today);
    var lines := MonthlySummary(rows, userId, lastSixMonths, today).value;
    MonthlySummaryErrors(rows, userId, lastSixMonths, today);
    assert e.date.Some? && YearMonthOf(e.date.value).year >= 0;
    var ym := YearMonthOf(e.date.value);
    KeyInSorted(es, MonthKeyOf(), e);
    var m :| 0 <= m < |sorted| && sorted[m].0 == MonthKeyOf()(e);
    MonthLabelOfKey(ym);
    assert lines[m].name == MonthLabel(MonthKey(ym)).value;
  }

  lemma {:induction false} InsertByKeySum(g: Group, s: seq<Group>)
    ensures Sum(InsertByKey(g, s), Total) == g.1 + Sum(s, Total)
    decreases |s|
  {
    if s != [] && !LexLess(g.0, s[0].0) {
      InsertByKeySum(g, s[1..]);
      assert ([s[0]] + InsertByKey(g, s[1..]))[1..] == InsertByKey(g, s[1..]);
    }
  }

  /** Sorting the groups keeps their total. */
  lemma {:induction false} SortByKeySum(s: seq<Group>)
    ensures Sum(SortByKey(s), Total) == Sum(s, Total)
    decreases |s|
  {
    if s != [] {
      SortByKeySum(s[1..]);
      InsertByKeySum(s[0], SortByKey(s[1..]));
    }
  }

  lemma {:induction false} LabelledSum(groups: seq<Group>)
    requires Labelled(groups).Some?
    ensures Sum(Labelled(groups).value, Value) == Sum(groups, Total)
    decreases |groups|
  {
    if groups != [] {
      LabelledSum(groups[1..]);
      assert Labelled(groups).value[1..] == Labelled(groups[1..]).value;
    }
  }

  /** The monthly lines add up to the total amount of the expenses grouped. */
  lemma MonthlySummaryConserve(rows: seq<Expense>, userId: nat, lastSixMonths: bool, today: Date)
    requires MonthlySummary(rows, userId, lastSixMonths, today).Ok?
    ensures Sum(MonthlySummary(rows, userId, lastSixMonths, today).value, Value)
            == Sum(MonthlySource(rows, userId, lastSixMonths, today), AmountOrZero)
  {
    var es := MonthlySource(rows, userId, lastSixMonths, today);
    var groups := GroupTotals(es, MonthKeyOf());
    GroupTotalsConserve(es, MonthKeyOf());
    SortByKeySum(groups);
    LabelledSum(SortByKey(groups));
  }

  /** A month key can be labelled exactly when its year is not negative. */
  lemma MonthLabelSign(ym: YearMonth)
    ensures MonthLabel(MonthKey(ym)).Some? <==> ym.year >= 0
  {
    if ym.year >= 0 {
      MonthLabelOfKey(ym);
    } else {
      MonthLabelOfNegativeYear(ym);
    }
  }

  /** Each monthly line is its sorted group, labelled with the month's abbreviation and year. */
  lemma MonthlySummaryLines(rows: seq<Expense>, userId: nat, lastSixMonths: bool, today: Date, i: nat)
    requires MonthlySummary(rows, userId, lastSixMonths, today).Ok?
    ensures |MonthlySummary(rows, userId, lastSixMonths, today).value| == |SortedMonths(rows, userId, lastSixMonths, today)|
    ensures var sorted := SortedMonths(rows, userId, lastSixMonths, today);
            var lines := MonthlySummary(rows, userId, lastSixMonths, today).value;
            i < |sorted| ==>
              exists ym: YearMonth :: ym.year >= 0 && sorted[i].0 == MonthKey(ym)
                && lines[i] == ReportLine(MonthName(ym.month)[..3] + " " + NatToString(ym.year), sorted[i].1)
  {
    var es := MonthlySource(rows, userId, lastSixMonths, today);
    var sorted := SortedMonths(rows, userId, lastSixMonths, today);
    if i < |sorted| {
      SortedMonthsKeys(rows, userId, lastSixMonths, today, i);
      var e :| e in es && e.date.Some? && sorted[i].0 == MonthKey(YearMonthOf(e.date.value));
      var ym := YearMonthOf(e.date.value);
      assert Labelled(sorted).Some?;
      assert MonthLabel(MonthKey(ym)).Some?;
      MonthLabelSign(ym);
      MonthLabelOfKey(ym);
    }
  }
}
