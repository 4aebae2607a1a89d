/**
 * Budgets of the user's financial month: the upsert on save, the listings,
 * the spent/over-budget summary, the update of an owned budget and its
 * deletion together with its expenses.
 */
module BudgetService {
  import opened Wrappers
  import opened Calendar
  import opened DateText
  import opened Entities
  import opened Repositories
  import opened FinancialMonth
  import opened ExpenseService
  import opened Seqs

  /** What the service returns for a budget; the month as `YearMonth.toString()`, or "N/A" when unset. */
  datatype BudgetResponse = BudgetResponse(id: nat, category: string, amount: Option<real>, month: string)

  /** One line of the summary. */
  datatype SummaryLine = SummaryLine(category: string, budget: Option<real>, spent: real, overBudget: bool)

  datatype BudgetError =
    | InvalidMonthFormat          // listByMonth with a month that does not parse
    | NotFoundOrNotOwned          // update and delete of a budget the user does not own

  function MonthText(month: Option<YearMonth>): string {
    if month.Some? then FormatYearMonth(month.value) else "N/A"
  }

  function ToResponse(b: Budget): BudgetResponse {
    BudgetResponse(b.id, b.category, b.amount, MonthText(b.month))
  }

  function Responses(bs: seq<Budget>): (r: seq<BudgetResponse>)
    ensures |r| == |bs|
    ensures forall k :: 0 <= k < |bs| ==> r[k].id == bs[k].id && r[k].category == bs[k].category && r[k].amount == bs[k].amount
  {
    seq(|bs|, k requires 0 <= k < |bs| => ToResponse(bs[k]))
  }

  // ----------------------------------------------------------------------- save

  /** `save`: the budget of that key gets the amount; without one, a new budget is appended. */
  function SaveRows(rows: seq<Budget>, nextId: nat, userId: nat, category: string, amount: Option<real>,
                    month: YearMonth, now: DateTime): (r: seq<Budget>)
    ensures HasBudget(r, userId, category, month)
    ensures |r| == |rows| + (if HasBudget(rows, userId, category, month) then 0 else 1)
  {
    match FindByUserAndCategoryAndBudgetMonth(rows, userId, category, month)
    case Some(i) =>
      var r := rows[i := rows[i].(amount := amount)];
      assert r[i] in r;
      r
    case None =>
      var r := rows + [Budget(nextId, userId, category, amount, Some(month), Some(now))];
      assert r[|rows|] in r;
      r
  }

  /** `save` for the user's financial month at `now`; the response describes the stored budget. */
  method Save(store: BudgetRepository, user: User, now: DateTime, category: string, amount: Option<real>)
    returns (resp: BudgetResponse)
    requires store.Valid()
    modifies store
    ensures store.Valid()
    ensures var month := EffectiveMonth(user, now.date);
            && store.rows == SaveRows(old(store.rows), old(store.nextId), user.id, category, amount, month, now)
            && resp.category == category && resp.amount == amount && resp.month == FormatYearMonth(month)
            && exists b :: b in store.rows && b.id == resp.id && IsKey(b, user.id, category, month)
    ensures store.nextId == old(store.nextId) + |store.rows| - |old(store.rows)|
  {
    var month := EffectiveMonth(user, now.date);
    var found := FindByUserAndCategoryAndBudgetMonth(store.rows, user.id, category, month);
    match found {
      case Some(i) =>
        var saved := store.rows[i].(amount := amount);
        store.Store(i, saved);
        assert store.rows[i] == saved;
        resp := ToResponse(saved);
      case None =>
        var saved := store.Insert(Budget(0, user.id, category, amount, Some(month), Some(now)));
        assert store.rows[|store.rows| - 1] == saved;
        resp := ToResponse(saved);
    }
  }

  /** After a save the key has a budget, and the one the lookup finds holds the requested amount. */
  lemma SaveUpserts(rows: seq<Budget>, nextId: nat, userId: nat, category: string, amount: Option<real>,
                    month: YearMonth, now: DateTime)
    ensures var r := SaveRows(rows, nextId, userId, category, amount, month, now);
            var k := FindByUserAndCategoryAndBudgetMonth(r, userId, category, month);
            k.Some? && r[k.value].amount == amount
  {
    var r := SaveRows(rows, nextId, userId, category, amount, month, now);
    match FindByUserAndCategoryAndBudgetMonth(rows, userId, category, month) {
      case Some(i) =>
        assert IsKey(r[i], userId, category, month);
        assert forall j :: 0 <= j < i ==> r[j] == rows[j];
      case None =>
        assert IsKey(r[|rows|], userId, category, month);
        assert forall j :: 0 <= j < |rows| ==> r[j] == rows[j];
    }
  }

  /**
   * A save leaves every budget of another key as it was. When the key has a
   * budget, only that budget's amount changes (its identifier, owner, category,
   * month and creation time stay); otherwise one budget is appended with the
   * next identifier, the key, the amount and the creation time `now`.
   */
  lemma SaveKeepsOthers(rows: seq<Budget>, nextId: nat, userId: nat, category: string, amount: Option<real>,
                        month: YearMonth, now: DateTime)
    ensures var r := SaveRows(rows, nextId, userId, category, amount, month, now);
            forall k :: 0 <= k < |rows| && !IsKey(rows[k], userId, category, month) ==> r[k] == rows[k]
    ensures var r := SaveRows(rows, nextId, userId, category, amount, month, now);
            var found := FindByUserAndCategoryAndBudgetMonth(rows, userId, category, month);
            found.Some? ==> r[found.value] == rows[found.value].(amount := amount)
    ensures var r := SaveRows(rows, nextId, userId, category, amount, month, now);
            !HasBudget(rows, userId, category, month) ==>
              r == rows + [Budget(nextId, userId, category, amount, Some(month), Some(now))]
  {
  }

  /** A save never creates a second budget for a key. */
  lemma SavePreservesUniqueKeys(rows: seq<Budget>, nextId: nat, userId: nat, category: string, amount: Option<real>,
                                month: YearMonth, now: DateTime)
    requires UniqueKeys(rows)
    ensures UniqueKeys(SaveRows(rows, nextId, userId, category, amount, month, now))
  {
    var r := SaveRows(rows, nextId, userId, category, amount, month, now);
    match FindByUserAndCategoryAndBudgetMonth(rows, userId, category, month) {
      case Some(i) =>
        forall a, b | 0 <= a < b < |r| ensures !SameKey(r[a], r[b]) {
          assert !SameKey(rows[a], rows[b]);
        }
      case None =>
        forall a, b | 0 <= a < b < |r| ensures !SameKey(r[a], r[b]) {
          if b < |rows| {
            assert !SameKey(rows[a], rows[b]);
          } else {
            assert rows[a] in rows;
          }
        }
    }
  }

  /** Saving the same request twice leaves the table as saving it once. */
  lemma SaveIdempotent(rows: seq<Budget>, nextId: nat, nextId2: nat, userId: nat, category: string,
                       amount: Option<real>, month: YearMonth, now: DateTime, now2: DateTime)
    ensures var once := SaveRows(rows, nextId, userId, category, amount, month, now);
            SaveRows(once, nextId2, userId, category, amount, month, now2) == once
  {
    var once := SaveRows(rows, nextId, userId, category, amount, month, now);
    match FindByUserAndCategoryAndBudgetMonth(rows, userId, category, month) {
      case Some(i) =>
        assert forall j :: 0 <= j < i ==> once[j] == rows[j];
        assert IsKey(once[i], userId, category, month);
        assert FindByUserAndCategoryAndBudgetMonth(once, userId, category, month) == Some(i);
      case None =>
        assert forall j :: 0 <= j < |rows| ==> once[j] == rows[j];
        assert IsKey(once[|rows|], userId, category, month);
        assert FindByUserAndCategoryAndBudgetMonth(once, userId, category, month) == Some(|rows|);
    }
  }

  // ------------------------------------------------------------------- listings

  /**
   * The responses list the budgets of `userId` in `month`, each shown with
   * `text` as its month: every response describes such a budget, and every
   * such budget has its response.
   */
  predicate ListsMonth(r: seq<BudgetResponse>, rows: seq<Budget>, userId: nat, month: YearMonth, text: string) {
    && (forall x :: x in r ==>
          exists b :: b in rows && b.userId == userId && b.month == Some(month)
                      && x == BudgetResponse(b.id, b.category, b.amount, text))
    && (forall b :: b in rows && b.userId == userId && b.month == Some(month) ==>
          BudgetResponse(b.id, b.category, b.amount, text) in r)
  }

  /** The responses of a month's budgets list exactly those budgets. */
  lemma {:induction false} ResponsesListMonth(rows: seq<Budget>, userId: nat, month: YearMonth)
    ensures ListsMonth(Responses(FindByUserAndBudgetMonth(rows, userId, month)), rows, userId, month, FormatYearMonth(month))
  {
    var bs := FindByUserAndBudgetMonth(rows, userId, month);
    var r := Responses(bs);
    var text := FormatYearMonth(month);
    forall x | x in r
      ensures exists b :: b in rows && b.userId == userId && b.month == Some(month)
                          && x == BudgetResponse(b.id, b.category, b.amount, text)
    {
      var k :| 0 <= k < |r| && r[k] == x;
      assert bs[k] in bs;
      assert x == BudgetResponse(bs[k].id, bs[k].category, bs[k].amount, text);
    }
    forall b | b in rows && b.userId == userId && b.month == Some(month)
      ensures BudgetResponse(b.id, b.category, b.amount, text) in r
    {
      assert b in bs;
      var k :| 0 <= k < |bs| && bs[k] == b;
      assert r[k] == BudgetResponse(b.id, b.category, b.amount, text);
    }
  }

  /** `list`: the user's budgets of the financial month containing `today`. */
  function List(rows: seq<Budget>, user: User, today: Date): (r: seq<BudgetResponse>)
    ensures |r| == |FindByUserAndBudgetMonth(rows, user.id, EffectiveMonth(user, today))|
    ensures ListsMonth(r, rows, user.id, EffectiveMonth(user, today), FormatYearMonth(EffectiveMonth(user, today)))
  {
    ResponsesListMonth(rows, user.id, EffectiveMonth(user, today));
    Responses(FindByUserAndBudgetMonth(rows, user.id, EffectiveMonth(user, today)))
  }

  /** `listByMonth`: the month must parse as "yyyy-MM"; every listed budget then carries exactly that text. */
  function ListByMonth(rows: seq<Budget>, userId: nat, month: string): (r: Result<seq<BudgetResponse>, BudgetError>)
    ensures r.Err? <==> ParseYearMonth(month).None?
    ensures r.Ok? ==> |r.value| == |FindByUserAndBudgetMonth(rows, userId, ParseYearMonth(month).value)|
    ensures r.Ok? ==> ListsMonth(r.value, rows, userId, ParseYearMonth(month).value, month)
  {
    match ParseYearMonth(month)
    case None => Err(InvalidMonthFormat)
    case Some(target) =>
      ResponsesListMonth(rows, userId, target);
      FormatParseYearMonth(month);
      Ok(Responses(FindByUserAndBudgetMonth(rows, userId, target)))
  }

  // -------------------------------------------------------------------- summary

  /**
   * One summary line. Without the expense service, or when computing the
   * spent amount fails (a null expense amount), spent is 0.
   */
  function SummaryOf(expenses: seq<Expense>, userId: nat, b: Budget, expenseServicePresent: bool): (s: SummaryLine)
    ensures s.category == b.category && s.budget == b.amount
    ensures s.overBudget <==> b.amount.Some? && s.spent > b.amount.value
    ensures !expenseServicePresent || SpentForBudget(expenses, userId, b).None? ==> s.spent == 0.0
    ensures expenseServicePresent && SpentForBudget(expenses, userId, b).Some? ==>
              s.spent == Sum(Filter(expenses, (e: Expense) => e.budgetId == b.id && e.userId == userId), AmountOrZero)
  {
    var spent := if expenseServicePresent then SpentForBudget(expenses, userId, b).GetOr(0.0) else 0.0;
    assert expenseServicePresent && SpentForBudget(expenses, userId, b).Some? ==>
             spent == Sum(Filter(expenses, (e: Expense) => e.budgetId == b.id && e.userId == userId), AmountOrZero) by {
      if expenseServicePresent && SpentForBudget(expenses, userId, b).Some? {
        SpentForBudgetValue(expenses, userId, b);
      }
    }
    SummaryLine(b.category, b.amount, spent, b.amount.Some? && spent > b.amount.value)
  }

  /** `summary`: one line per budget of the user's financial month, in table order. */
  function Summary(budgets: seq<Budget>, expenses: seq<Expense>, user: User, today: Date, expenseServicePresent: bool)
    : (r: seq<SummaryLine>)
    ensures var bs := FindByUserAndBudgetMonth(budgets, user.id, EffectiveMonth(user, today));
            && |r| == |bs|
            && forall k :: 0 <= k < |r| ==> r[k] == SummaryOf(expenses, user.id, bs[k], expenseServicePresent)
  {
    var bs := FindByUserAndBudgetMonth(budgets, user.id, EffectiveMonth(user, today));
    seq(|bs|, k requires 0 <= k < |bs| => SummaryOf(expenses, user.id, bs[k], expenseServicePresent))
  }

  /** Each summary line belongs to a budget of the user's financial month, and is over budget exactly when spent exceeds it. */
  lemma SummaryLines(budgets: seq<Budget>, expenses: seq<Expense>, user: User, today: Date, expenseServicePresent: bool, k: nat)
    requires k < |Summary(budgets, expenses, user, today, expenseServicePresent)|
    ensures var s := Summary(budgets, expenses, user, today, expenseServicePresent)[k];
            && (s.overBudget <==> s.budget.Some? && s.spent > s.budget.value)
            && exists b :: b in budgets && b.userId == user.id && b.month == Some(EffectiveMonth(user, today))
                           && b.category == s.category && b.amount == s.budget
  {
    var bs := FindByUserAndBudgetMonth(budgets, user.id, EffectiveMonth(user, today));
    assert bs[k] in bs;
  }

  // --------------------------------------------------------------------- update

  /** `update` up to the repository call: the position of the owned budget and its new state. */
  function UpdatedBudget(rows: seq<Budget>, userId: nat, id: nat, amount: Option<real>, currentMonth: YearMonth)
    : (r: Result<(nat, Budget), BudgetError>)
    ensures r.Err? <==> forall b :: b in rows ==> !(b.id == id && b.userId == userId)
    ensures r.Ok? ==> var (i, b) := r.value;
                      && i < |rows| && rows[i].id == id && rows[i].userId == userId
                      && b.id == rows[i].id && b.userId == rows[i].userId && b.category == rows[i].category
                      && b.createdAt == rows[i].createdAt
                      && b.amount == (if amount.Some? then amount else rows[i].amount)
                      && b.month == (if rows[i].month.Some? then rows[i].month else Some(currentMonth))
  {
    match FindByIdAndUser(rows, id, userId)
    case None => Err(NotFoundOrNotOwned)
    case Some(i) =>
      var b0 := rows[i];
      var b1 := if amount.Some? then b0.(amount := amount) else b0;
      var b2 := if b1.month.None? then b1.(month := Some(currentMonth)) else b1;
      assert rows[i] in rows;
      Ok((i, b2))
  }

  /** `update` for the user's financial month at `today`. */
  method Update(store: BudgetRepository, user: User, today: Date, id: nat, amount: Option<real>)
    returns (r: Result<BudgetResponse, BudgetError>)
    requires store.Valid()
    modifies store
    ensures store.Valid() && store.nextId == old(store.nextId)
    ensures match UpdatedBudget(old(store.rows), user.id, id, amount, EffectiveMonth(user, today))
            case Ok((i, b)) => r == Ok(ToResponse(b)) && store.rows == old(store.rows)[i := b]
            case Err(x) => r == Err(x) && store.rows == old(store.rows)
  {
    var currentMonth := EffectiveMonth(user, today);
    match UpdatedBudget(store.rows, user.id, id, amount, currentMonth) {
      case Err(x) =>
        r := Err(x);
      case Ok((i, b)) =>
        store.Store(i, b);
        r := Ok(ToResponse(b));
    }
  }

  /**
   * An update keeps keys unique unless it gives a month to a budget that had
   * none while another budget already holds that key.
   */
  lemma UpdatePreservesUniqueKeys(rows: seq<Budget>, userId: nat, id: nat, amount: Option<real>, currentMonth: YearMonth)
    requires UniqueKeys(rows)
    requires UpdatedBudget(rows, userId, id, amount, currentMonth).Ok?
    requires var (i, _) := UpdatedBudget(rows, userId, id, amount, currentMonth).value;
             rows[i].month.None? ==> !HasBudget(rows, rows[i].userId, rows[i].category, currentMonth)
    ensures var (i, b) := UpdatedBudget(rows, userId, id, amount, currentMonth).value;
            UniqueKeys(rows[i := b])
  {
    var (i, b) := UpdatedBudget(rows, userId, id, amount, currentMonth).value;
    var r := rows[i := b];
    forall x, y | 0 <= x < y < |r| ensures !SameKey(r[x], r[y]) {
      if x != i && y != i {
        assert !SameKey(rows[x], rows[y]);
      } else if rows[i].month.Some? {
        assert !SameKey(rows[x], rows[y]);
      } else if x == i {
        assert rows[y] in rows;
      } else {
        assert rows[x] in rows;
      }
    }
  }

  // --------------------------------------------------------------------- delete

  /** The expenses that survive deleting budget `id`. */
  function NotOfBudget(id: nat): Expense -> bool {
    (e: Expense) => e.budgetId != id
  }

  /** `delete`: the owned budget goes, and with it every expense recorded against it. */
  method Delete(budgets: BudgetRepository, expenses: ExpenseRepository, userId: nat, id: nat)
    returns (r: Result<(), BudgetError>)
    requires budgets.Valid() && expenses.Valid()
    modifies budgets, expenses
    ensures budgets.Valid() && expenses.Valid()
    ensures budgets.nextId == old(budgets.nextId) && expenses.nextId == old(expenses.nextId)
    ensures match FindByIdAndUser(old(budgets.rows), id, userId)
            case Some(i) => && r == Ok(())
                            && budgets.rows == old(budgets.rows)[..i] + old(budgets.rows)[i + 1..]
                            && expenses.rows == Filter(old(expenses.rows), NotOfBudget(id))
            case None => && r == Err(NotFoundOrNotOwned)
                         && budgets.rows == old(budgets.rows) && expenses.rows == old(expenses.rows)
  {
    match FindByIdAndUser(budgets.rows, id, userId) {
      case None =>
        r := Err(NotFoundOrNotOwned);
      case Some(i) =>
        budgets.Delete(i);
        expenses.DeleteWhere(NotOfBudget(id));
        r := Ok(());
    }
  }

  /**
   * After a delete no budget with that identifier is left, every other budget
   * is, no expense refers to it and every other expense is kept.
   */
  lemma DeleteRemoves(rows: seq<Budget>, nextId: nat, expenses: seq<Expense>, i: nat)
    requires BudgetIdsValid(rows, nextId) && i < |rows|
    ensures var left := rows[..i] + rows[i + 1..];
            && (forall b :: b in left ==> b.id != rows[i].id)
            && (forall k :: 0 <= k < |rows| && k != i ==> rows[k] in left)
    ensures forall e :: e in Filter(expenses, NotOfBudget(rows[i].id)) <==> e in expenses && e.budgetId != rows[i].id
  {
    var left := rows[..i] + rows[i + 1..];
    forall b | b in left ensures b.id != rows[i].id {
      var k :| 0 <= k < |left| && left[k] == b;
      if k < i { assert left[k] == rows[k]; } else { assert left[k] == rows[k + 1]; }
    }
    forall k | 0 <= k < |rows| && k != i ensures rows[k] in left {
      if k < i { assert left[k] == rows[k]; } else { assert left[k - 1] == rows[k]; }
    }
  }
}
