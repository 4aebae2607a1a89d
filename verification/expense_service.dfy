/**
 * Expenses: creation and update with their validation, ownership-checked
 * deletion, the listing queries, the amount spent against a budget and the
 * multi-criteria filter.
 */
module ExpenseService {
  import opened Wrappers
  import opened Calendar
  import opened Text
  import opened DateText
  import opened Entities
  import opened Repositories
  import opened Seqs

  /** The request body of create and update; every field may be null. */
  datatype ExpenseRequest = ExpenseRequest(
    amount: Option<real>,
    description: Option<string>,
    budgetId: Option<nat>,
    subCategoryId: Option<nat>,
    expenseDate: Option<string>,
    paymentTypeId: Option<nat>)

  datatype ExpenseError =
    | IdRequired           // a repository lookup by a null identifier
    | BudgetNotFound
    | BudgetNotOwned
    | DateRequired
    | InvalidDateFormat
    | PaymentTypeRequired
    | PaymentTypeNotFound
    | SubCategoryNotFound
    | ExpenseNotFound
    | ExpenseNotOwned
    | UnparsableDate       // LocalDate.parse failing outside a try block
    | NullExpenseDate      // a date filter reaching an expense without a date

  function FindPaymentType(types: seq<PaymentType>, id: nat): (r: Option<PaymentType>)
    ensures r.Some? ==> r.value in types && r.value.id == id
    ensures r.None? ==> forall t :: t in types ==> t.id != id
  {
    match FirstIndex(types, (t: PaymentType) => t.id == id)
    case Some(i) => Some(types[i])
    case None => None
  }

  /** Everything `save` needs before it stores anything. */
  predicate SaveAcceptable(budgets: seq<Budget>, types: seq<PaymentType>, subCategories: set<nat>, userId: nat, req: ExpenseRequest) {
    && req.budgetId.Some?
    && FindBudgetById(budgets, req.budgetId.value).Some?
    && budgets[FindBudgetById(budgets, req.budgetId.value).value].userId == userId
    && req.expenseDate.Some? && ParseDate(req.expenseDate.value).Some?
    && req.paymentTypeId.Some? && FindPaymentType(types, req.paymentTypeId.value).Some?
    && (req.subCategoryId.None? || req.subCategoryId.value in subCategories)
  }

  /** `save` up to the repository call: the checks in source order, then the new expense (identifier 0 until stored). */
  function NewExpense(budgets: seq<Budget>, types: seq<PaymentType>, subCategories: set<nat>,
                      userId: nat, req: ExpenseRequest, now: DateTime): (r: Result<Expense, ExpenseError>)
    ensures r.Ok? <==> SaveAcceptable(budgets, types, subCategories, userId, req)
    ensures r.Ok? ==> && r.value.userId == userId
                      && Some(r.value.budgetId) == req.budgetId
                      && r.value.amount == req.amount
                      && r.value.description == req.description
                      && r.value.date == ParseDate(req.expenseDate.value)
                      && r.value.payment == FindPaymentType(types, req.paymentTypeId.value)
                      && r.value.subCategoryId == req.subCategoryId
                      && r.value.createdAt == Some(now) && r.value.updatedAt == Some(now)
  {
    if req.budgetId.None? then Err(IdRequired)
    else match FindBudgetById(budgets, req.budgetId.value)
      case None => Err(BudgetNotFound)
      case Some(bi) =>
        if budgets[bi].userId != userId then Err(BudgetNotOwned)
        else if req.expenseDate.None? then Err(DateRequired)
        else match ParseDate(req.expenseDate.value)
          case None => Err(InvalidDateFormat)
          case Some(date) =>
            if req.paymentTypeId.None? then Err(PaymentTypeRequired)
            else match FindPaymentType(types, req.paymentTypeId.value)
              case None => Err(PaymentTypeNotFound)
              case Some(pt) =>
                if req.subCategoryId.Some? && req.subCategoryId.value !in subCategories then Err(SubCategoryNotFound)
                else Ok(Expense(0, userId, budgets[bi].id, req.amount, req.description, Some(date),
                                Some(pt), req.subCategoryId, Some(now), Some(now)))
  }

  /** `save`: on success the new expense is appended with a fresh identifier; on failure nothing is stored. */
  method Save(store: ExpenseRepository, budgets: seq<Budget>, types: seq<PaymentType>, subCategories: set<nat>,
              userId: nat, req: ExpenseRequest, now: DateTime) returns (r: Result<Expense, ExpenseError>)
    requires store.Valid()
    modifies store
    ensures store.Valid()
    ensures match NewExpense(budgets, types, subCategories, userId, req, now)
            case Ok(e) => r == Ok(e.(id := old(store.nextId))) && store.rows == old(store.rows) + [r.value]
            case Err(x) => r == Err(x) && store.rows == old(store.rows) && store.nextId == old(store.nextId)
  {
    var built := NewExpense(budgets, types, subCategories, userId, req, now);
    match built {
      case Err(x) =>
        r := Err(x);
      case Ok(e) =>
        var saved := store.Insert(e);
        r := Ok(saved);
    }
  }

  /** A saved expense belongs to the requesting user and carries the requested budget and amount. */
  lemma SavedExpenseFields(budgets: seq<Budget>, types: seq<PaymentType>, subCategories: set<nat>,
                           userId: nat, req: ExpenseRequest, now: DateTime)
    requires NewExpense(budgets, types, subCategories, userId, req, now).Ok?
    ensures var e := NewExpense(budgets, types, subCategories, userId, req, now).value;
            e.userId == userId && req.budgetId == Some(e.budgetId) && e.amount == req.amount
            && exists b :: b in budgets && b.id == e.budgetId && b.userId == userId
  {
    var bi := FindBudgetById(budgets, req.budgetId.value).value;
    assert budgets[bi] in budgets;
  }

  /** The expense with that identifier exists and belongs to `userId`. */
  predicate OwnsExpense(rows: seq<Expense>, userId: nat, expenseId: nat) {
    FindExpenseById(rows, expenseId).Some? && rows[FindExpenseById(rows, expenseId).value].userId == userId
  }

  /** A date in the request is absent or reads as `yyyy-MM-dd`. */
  predicate DateAccepted(req: ExpenseRequest) {
    req.expenseDate.None? || ParseDate(req.expenseDate.value).Some?
  }

  /** A payment type in the request is absent or names a stored type. */
  predicate PaymentTypeAccepted(types: seq<PaymentType>, req: ExpenseRequest) {
    req.paymentTypeId.None? || FindPaymentType(types, req.paymentTypeId.value).Some?
  }

  /**
   * `updateExpense` up to the repository call: the position and the new state
   * of the expense. The checks run in the source's order: found, owned, date
   * readable, payment type known.
   */
  function UpdatedExpense(rows: seq<Expense>, types: seq<PaymentType>, userId: nat, expenseId: nat,
                          req: ExpenseRequest, now: DateTime): (r: Result<(nat, Expense), ExpenseError>)
    ensures r == Err(ExpenseNotFound) <==> FindExpenseById(rows, expenseId).None?
    ensures r == Err(ExpenseNotOwned) <==> FindExpenseById(rows, expenseId).Some? && !OwnsExpense(rows, userId, expenseId)
    ensures r == Err(InvalidDateFormat) <==> OwnsExpense(rows, userId, expenseId) && !DateAccepted(req)
    ensures r == Err(PaymentTypeNotFound) <==>
              OwnsExpense(rows, userId, expenseId) && DateAccepted(req) && !PaymentTypeAccepted(types, req)
    ensures r.Ok? <==> OwnsExpense(rows, userId, expenseId) && DateAccepted(req) && PaymentTypeAccepted(types, req)
    ensures r.Ok? ==> r.value.0 == FindExpenseById(rows, expenseId).value
    ensures r.Ok? ==> r.value.0 < |rows| && rows[r.value.0].id == expenseId && rows[r.value.0].userId == userId
    ensures r.Ok? ==> var old_, new_ := rows[r.value.0], r.value.1;
                      && new_.id == old_.id && new_.userId == old_.userId && new_.budgetId == old_.budgetId
                      && new_.subCategoryId == old_.subCategoryId && new_.createdAt == old_.createdAt
                      && new_.amount == (if req.amount.Some? then req.amount else old_.amount)
                      && new_.description == (if req.description.Some? then req.description else old_.description)
                      && new_.date == (if req.expenseDate.Some? then ParseDate(req.expenseDate.value) else old_.date)
                      && new_.payment == (if req.paymentTypeId.Some? then FindPaymentType(types, req.paymentTypeId.value) else old_.payment)
                      && new_.updatedAt == Some(now)
  {
    match FindExpenseById(rows, expenseId)
    case None => Err(ExpenseNotFound)
    case Some(i) =>
      var e := rows[i];
      if e.userId != userId then Err(ExpenseNotOwned)
      else
        var e1 := if req.amount.Some? then e.(amount := req.amount) else e;
        var e2 := if req.description.Some? then e1.(description := req.description) else e1;
        if req.expenseDate.Some? && ParseDate(req.expenseDate.value).None? then Err(InvalidDateFormat)
        else
          var e3 := if req.expenseDate.Some? then e2.(date := ParseDate(req.expenseDate.value)) else e2;
          if req.paymentTypeId.Some? && FindPaymentType(types, req.paymentTypeId.value).None? then Err(PaymentTypeNotFound)
          else
            var e4 := if req.paymentTypeId.Some? then e3.(payment := FindPaymentType(types, req.paymentTypeId.value)) else e3;
            Ok((i, e4.(updatedAt := Some(now))))
  }

  /** `updateExpense`: the one expense changes as `UpdatedExpense` says; on failure nothing changes. */
  method UpdateExpense(store: ExpenseRepository, types: seq<PaymentType>, userId: nat, expenseId: nat,
                       req: ExpenseRequest, now: DateTime) returns (r: Result<Expense, ExpenseError>)
    requires store.Valid()
    modifies store
    ensures store.Valid() && store.nextId == old(store.nextId)
    ensures match UpdatedExpense(old(store.rows), types, userId, expenseId, req, now)
            case Ok((i, e)) => r == Ok(e) && store.rows == old(store.rows)[i := e]
            case Err(x) => r == Err(x) && store.rows == old(store.rows)
  {
    match UpdatedExpense(store.rows, types, userId, expenseId, req, now) {
      case Err(x) =>
        r := Err(x);
      case Ok((i, e)) =>
        store.Store(i, e);
        r := Ok(e);
    }
  }

  /** An update changes only the target expense; all other expenses, and the count, stay. */
  lemma UpdateTouchesOneExpense(rows: seq<Expense>, types: seq<PaymentType>, userId: nat, expenseId: nat,
                                req: ExpenseRequest, now: DateTime, k: nat)
    requires UpdatedExpense(rows, types, userId, expenseId, req, now).Ok?
    requires k < |rows| && rows[k].id != expenseId
    ensures var (i, e) := UpdatedExpense(rows, types, userId, expenseId, req, now).value;
            |rows[i := e]| == |rows| && rows[i := e][k] == rows[k]
  {
  }

  /** `deleteExpense`: the position of the expense to remove, after the ownership check. */
  function DeletedExpense(rows: seq<Expense>, userId: nat, expenseId: nat): (r: Result<nat, ExpenseError>)
    ensures r.Ok? <==> OwnsExpense(rows, userId, expenseId)
    ensures r.Ok? ==> r.value < |rows| && rows[r.value].id == expenseId && rows[r.value].userId == userId
    ensures r == Err(ExpenseNotFound) <==> forall e :: e in rows ==> e.id != expenseId
    ensures r == Err(ExpenseNotOwned) <==> FindExpenseById(rows, expenseId).Some? && !OwnsExpense(rows, userId, expenseId)
    ensures r.Err? ==> r == Err(ExpenseNotFound) || r == Err(ExpenseNotOwned)
  {
    match FindExpenseById(rows, expenseId)
    case None => Err(ExpenseNotFound)
    case Some(i) =>
      assert rows[i] in rows;
      if rows[i].userId != userId then Err(ExpenseNotOwned) else Ok(i)
  }

  /** After a successful delete no expense has the identifier, and every other expense remains. */
  lemma {:induction false} DeleteExpenseRemoves(rows: seq<Expense>, nextId: nat, userId: nat, expenseId: nat)
    requires ExpenseIdsValid(rows, nextId)
    requires DeletedExpense(rows, userId, expenseId).Ok?
    ensures var i := DeletedExpense(rows, userId, expenseId).value;
            var left := rows[..i] + rows[i + 1..];
            && |left| == |rows| - 1
            && (forall e :: e in left ==> e.id != expenseId)
            && (forall k :: 0 <= k < |rows| && k != i ==> rows[k] in left)
  {
    var i := DeletedExpense(rows, userId, expenseId).value;
    var left := rows[..i] + rows[i + 1..];
    forall e | e in left ensures e.id != expenseId {
      var k :| 0 <= k < |left| && left[k] == e;
      if k < i {
        assert e == rows[k];
      } else {
        assert e == rows[k + 1];
      }
    }
    forall k | 0 <= k < |rows| && k != i ensures rows[k] in left {
      if k < i {
        assert left[k] == rows[k];
      } else {
        assert left[k - 1] == rows[k];
      }
    }
  }

  method DeleteExpense(store: ExpenseRepository, userId: nat, expenseId: nat) returns (r: Result<(), ExpenseError>)
    requires store.Valid()
    modifies store
    ensures store.Valid() && store.nextId == old(store.nextId)
    ensures match DeletedExpense(old(store.rows), userId, expenseId)
            case Ok(i) => r == Ok(()) && store.rows == old(store.rows)[..i] + old(store.rows)[i + 1..]
            case Err(x) => r == Err(x) && store.rows == old(store.rows)
  {
    match DeletedExpense(store.rows, userId, expenseId) {
      case Err(x) =>
        r := Err(x);
      case Ok(i) =>
        store.Delete(i);
        r := Ok(());
    }
  }

  // ------------------------------------------------------------------ queries

  /** Both bounds given and both readable. */
  predicate BoundsParse(fromDate: Option<string>, toDate: Option<string>) {
    fromDate.Some? && toDate.Some? && ParseDate(fromDate.value).Some? && ParseDate(toDate.value).Some?
  }

  /** Both bounds given, but one of them unreadable: `LocalDate.parse` throws. */
  predicate BoundsFail(fromDate: Option<string>, toDate: Option<string>) {
    fromDate.Some? && toDate.Some? && (ParseDate(fromDate.value).None? || ParseDate(toDate.value).None?)
  }

  /**
   * The date restriction of the listings: with both bounds, a date between
   * them, both included; with either bound missing, any expense, dated or not.
   */
  predicate InRequestedRange(e: Expense, fromDate: Option<string>, toDate: Option<string>) {
    BoundsParse(fromDate, toDate) ==> InRange(e, ParseDate(fromDate.value).value, ParseDate(toDate.value).value)
  }

  /** `list`: the user's expenses, restricted to [from, to] when both bounds are given. */
  function List(rows: seq<Expense>, userId: nat, fromDate: Option<string>, toDate: Option<string>): (r: Result<seq<Expense>, ExpenseError>)
    ensures r.Err? <==> BoundsFail(fromDate, toDate)
    ensures r.Err? ==> r.error == UnparsableDate
    ensures fromDate.None? || toDate.None? ==> r == Ok(FindExpensesByUser(rows, userId))
    ensures r.Ok? ==> forall e :: e in r.value <==> e in rows && e.userId == userId && InRequestedRange(e, fromDate, toDate)
  {
    if fromDate.Some? && toDate.Some? then
      match (ParseDate(fromDate.value), ParseDate(toDate.value))
      case (Some(from), Some(to)) => Ok(FindByUserAndExpenseDateBetween(rows, userId, from, to))
      case _ => Err(UnparsableDate)
    else Ok(FindExpensesByUser(rows, userId))
  }

  /** The current-month window of the listing: the first of today's month up to and including today. */
  function CurrentMonthWindow(today: Date): (w: (Date, Date))
    ensures YearMonthOf(w.0) == YearMonthOf(today) && w.0.day == 1 && w.1 == today
  {
    (WithDayOfMonth(today, 1), today)
  }

  /** The window holds exactly the days of today's month that are not after today. */
  lemma CurrentMonthWindowDays(today: Date, x: Date)
    ensures var (from, to) := CurrentMonthWindow(today);
            !IsBefore(x, from) && !IsAfter(x, to) <==> YearMonthOf(x) == YearMonthOf(today) && x.day <= today.day
  {
    MonthIndexOrder(YearMonthOf(x), YearMonthOf(today));
  }

  /** Dated in today's calendar month, on or before today. */
  predicate InCurrentMonth(e: Expense, today: Date) {
    e.date.Some? && YearMonthOf(e.date.value) == YearMonthOf(today) && e.date.value.day <= today.day
  }

  /** The current-month window selects exactly the expenses dated this month up to today. */
  lemma CurrentMonthWindowSelects(today: Date)
    ensures forall e: Expense :: InRange(e, CurrentMonthWindow(today).0, CurrentMonthWindow(today).1) <==> InCurrentMonth(e, today)
  {
    forall e: Expense | e.date.Some?
      ensures InRange(e, CurrentMonthWindow(today).0, CurrentMonthWindow(today).1) <==> InCurrentMonth(e, today)
    {
      CurrentMonthWindowDays(today, e.date.value);
    }
  }

  /** `listExpenseCurrentMonth`. */
  function ListCurrentMonth(rows: seq<Expense>, userId: nat, today: Date): (r: seq<Expense>)
    ensures forall e :: e in r <==> e in rows && e.userId == userId && InCurrentMonth(e, today)
  {
    CurrentMonthWindowSelects(today);
    var (from, to) := CurrentMonthWindow(today);
    FindByUserAndExpenseDateBetween(rows, userId, from, to)
  }

  /** `getBudget`: the budget with that identifier, owned by the user. */
  function OwnedBudget(budgets: seq<Budget>, userId: nat, budgetId: nat): (r: Result<Budget, ExpenseError>)
    ensures r == Err(BudgetNotFound) <==> forall b :: b in budgets ==> b.id != budgetId
    ensures r.Ok? <==> FindBudgetById(budgets, budgetId).Some? && budgets[FindBudgetById(budgets, budgetId).value].userId == userId
    ensures r.Err? ==> r == Err(BudgetNotFound) || r == Err(BudgetNotOwned)
    ensures r.Ok? ==> r.value in budgets && r.value.id == budgetId && r.value.userId == userId
  {
    match FindBudgetById(budgets, budgetId)
    case None => Err(BudgetNotFound)
    case Some(i) =>
      assert budgets[i] in budgets;
      if budgets[i].userId != userId then Err(BudgetNotOwned) else Ok(budgets[i])
  }

  /** `listExpenseByBudget`. */
  function ListByBudget(rows: seq<Expense>, budgets: seq<Budget>, userId: nat, budgetId: nat,
                        fromDate: Option<string>, toDate: Option<string>): (r: Result<seq<Expense>, ExpenseError>)
    ensures OwnedBudget(budgets, userId, budgetId).Err? ==> r == Err(OwnedBudget(budgets, userId, budgetId).error)
    ensures OwnedBudget(budgets, userId, budgetId).Ok? ==> (r == Err(UnparsableDate) <==> BoundsFail(fromDate, toDate))
    ensures r.Ok? <==> OwnedBudget(budgets, userId, budgetId).Ok? && !BoundsFail(fromDate, toDate)
    ensures r.Ok? ==> forall e :: e in r.value <==>
                        e in rows && e.userId == userId && e.budgetId == budgetId && InRequestedRange(e, fromDate, toDate)
  {
    match OwnedBudget(budgets, userId, budgetId)
    case Err(x) => Err(x)
    case Ok(b) =>
      if fromDate.Some? && toDate.Some? then
        match (ParseDate(fromDate.value), ParseDate(toDate.value))
        case (Some(from), Some(to)) => Ok(FindByBudgetAndUserAndExpenseDateBetween(rows, b.id, userId, from, to))
        case _ => Err(UnparsableDate)
      else Ok(FindByBudgetAndUser(rows, b.id, userId))
  }

  /** Listing by budget is the plain listing restricted to that budget, once the budget is the user's. */
  lemma ListByBudgetRestrictsList(rows: seq<Expense>, budgets: seq<Budget>, userId: nat, budgetId: nat,
                                  fromDate: Option<string>, toDate: Option<string>)
    requires OwnedBudget(budgets, userId, budgetId).Ok?
    ensures ListByBudget(rows, budgets, userId, budgetId, fromDate, toDate).Ok? == List(rows, userId, fromDate, toDate).Ok?
    ensures ListByBudget(rows, budgets, userId, budgetId, fromDate, toDate).Ok? ==>
              forall e :: e in ListByBudget(rows, budgets, userId, budgetId, fromDate, toDate).value
                          <==> e in List(rows, userId, fromDate, toDate).value && e.budgetId == budgetId
  {
  }

  /**
   * The current-month listing by budget is the listing by budget between the
   * first of the month and today, written as `yyyy-MM-dd` text.
   */
  lemma {:induction false} CurrentMonthByBudgetIsWindow(rows: seq<Expense>, budgets: seq<Budget>, userId: nat,
                                                        budgetId: nat, today: Date)
    requires 1 <= today.year <= 9999
    ensures var (from, to) := CurrentMonthWindow(today);
            ListCurrentMonthByBudget(rows, budgets, userId, budgetId, today)
            == ListByBudget(rows, budgets, userId, budgetId, Some(FormatDate(from)), Some(FormatDate(to)))
  {
    var (from, to) := CurrentMonthWindow(today);
    ParseFormatDate(from);
    ParseFormatDate(to);
  }

  /** `listExpenseCurrentMonthByBudget`. */
  function ListCurrentMonthByBudget(rows: seq<Expense>, budgets: seq<Budget>, userId: nat, budgetId: nat,
                                    today: Date): (r: Result<seq<Expense>, ExpenseError>)
    ensures OwnedBudget(budgets, userId, budgetId).Err? ==> r == Err(OwnedBudget(budgets, userId, budgetId).error)
    ensures r.Ok? <==> OwnedBudget(budgets, userId, budgetId).Ok?
    ensures r.Ok? ==> forall e :: e in r.value <==>
                        e in rows && e.userId == userId && e.budgetId == budgetId && InCurrentMonth(e, today)
  {
    match OwnedBudget(budgets, userId, budgetId)
    case Err(x) => Err(x)
    case Ok(b) =>
      CurrentMonthWindowSelects(today);
      var (from, to) := CurrentMonthWindow(today);
      Ok(FindByBudgetAndUserAndExpenseDateBetween(rows, b.id, userId, from, to))
  }

  // -------------------------------------------------------------------- sums

  /** `mapToDouble(Expense::getExpenseAmount).sum()`: unboxing a null amount throws, modelled as `None`. */
  function SumAmounts(es: seq<Expense>): (r: Option<real>)
    ensures r.Some? <==> forall e :: e in es ==> e.amount.Some?
    decreases |es|
  {
    if es == [] then Some(0.0)
    else match (es[0].amount, SumAmounts(es[1..]))
      case (Some(a), Some(rest)) => Some(a + rest)
      case _ => None
  }

  function AmountOrZero(e: Expense): real {
    e.amount.GetOr(0.0)
  }

  /** When every amount is present the sum is the ordinary sum of the amounts. */
  lemma {:induction false} SumAmountsValue(es: seq<Expense>)
    requires SumAmounts(es).Some?
    ensures SumAmounts(es).value == Sum(es, AmountOrZero)
    decreases |es|
  {
    if es != [] {
      SumAmountsValue(es[1..]);
    }
  }

  /** `getSpentForBudget`: the amounts of the user's expenses on that budget, whatever their dates. */
  function SpentForBudget(rows: seq<Expense>, userId: nat, budget: Budget): (r: Option<real>)
    ensures r.Some? <==> forall e :: e in rows && e.budgetId == budget.id && e.userId == userId ==> e.amount.Some?
  {
    SumAmounts(FindByBudgetAndUser(rows, budget.id, userId))
  }

  /** Spent is the sum over exactly the user's expenses on the budget, with no date filter. */
  lemma SpentForBudgetValue(rows: seq<Expense>, userId: nat, budget: Budget)
    requires SpentForBudget(rows, userId, budget).Some?
    ensures SpentForBudget(rows, userId, budget).value
            == Sum(Filter(rows, (e: Expense) => e.budgetId == budget.id && e.userId == userId), AmountOrZero)
  {
    SumAmountsValue(FindByBudgetAndUser(rows, budget.id, userId));
  }

  // ------------------------------------------------------------------ filter

  /** The parameters of `filterExpenses`; `None` stands for null. */
  datatype FilterParams = FilterParams(
    budgetId: Option<nat>,
    subCategoryId: Option<nat>,
    paymentType: Option<string>,
    startDate: Option<string>,
    endDate: Option<string>)

  predicate PaymentFilterOn(p: FilterParams) {
    p.paymentType.Some? && p.paymentType.value != []
  }

  predicate DateFilterOn(p: FilterParams) {
    p.startDate.Some? && p.endDate.Some?
  }

  predicate InRange(e: Expense, start: Date, end: Date) {
    e.date.Some? && !IsBefore(e.date.value, start) && !IsAfter(e.date.value, end)
  }

  function ByBudget(id: nat): Expense -> bool {
    (e: Expense) => e.budgetId == id
  }

  function BySubCategory(id: nat): Expense -> bool {
    (e: Expense) => e.subCategoryId == Some(id)
  }

  /** The payment criterion compares type names ignoring case. */
  function ByPaymentType(name: string): Expense -> bool {
    (e: Expense) => e.payment.Some? && EqualsIgnoreCase(e.payment.value.typeName, name)
  }

  function ByDateRange(start: Date, end: Date): Expense -> bool {
    (e: Expense) => InRange(e, start, end)
  }

  /** The budget, sub-category and payment criteria, each applying only when its parameter is given. */
  predicate ReachesDateStage(e: Expense, p: FilterParams) {
    && (p.budgetId.None? || e.budgetId == p.budgetId.value)
    && (p.subCategoryId.None? || e.subCategoryId == p.subCategoryId)
    && (!PaymentFilterOn(p) || (e.payment.Some? && EqualsIgnoreCase(e.payment.value.typeName, p.paymentType.value)))
  }

  /** The first three stages of `filterExpenses`: the user's expenses that reach the date stage. */
  function BeforeDateStage(rows: seq<Expense>, userId: nat, p: FilterParams): (r: seq<Expense>)
    ensures forall e :: e in r <==> e in FindExpensesByUser(rows, userId) && ReachesDateStage(e, p)
  {
    var es0 := FindExpensesByUser(rows, userId);
    var es1 := if p.budgetId.Some? then Filter(es0, ByBudget(p.budgetId.value)) else es0;
    var es2 := if p.subCategoryId.Some? then Filter(es1, BySubCategory(p.subCategoryId.value)) else es1;
    if PaymentFilterOn(p) then Filter(es2, ByPaymentType(p.paymentType.value)) else es2
  }

  /**
   * `filterExpenses`, stage by stage as the source applies them. The date
   * stage throws when a bound does not parse, or when an expense that reached
   * it has no date.
   */
  function FilterExpenses(rows: seq<Expense>, userId: nat, p: FilterParams): (r: Result<seq<Expense>, ExpenseError>)
    ensures r.Ok? ==> forall e :: e in r.value ==> e in rows && e.userId == userId
  {
    var es3 := BeforeDateStage(rows, userId, p);
    if DateFilterOn(p) then
      match (ParseDate(p.startDate.value), ParseDate(p.endDate.value))
      case (Some(start), Some(end)) =>
        if exists e :: e in es3 && e.date.None? then Err(NullExpenseDate)
        else Ok(Filter(es3, ByDateRange(start, end)))
      case _ => Err(UnparsableDate)
    else Ok(es3)
  }

  /** The criteria of `filterExpenses` as one condition: each applies only when its parameter is given. */
  predicate MatchesCriteria(e: Expense, p: FilterParams, start: Date, end: Date) {
    ReachesDateStage(e, p) && (!DateFilterOn(p) || InRange(e, start, end))
  }

  /** The date bounds the filter works with (any date when the date filter is off). */
  function Bounds(p: FilterParams): (Date, Date)
    requires DateFilterOn(p) ==> ParseDate(p.startDate.value).Some? && ParseDate(p.endDate.value).Some?
  {
    if DateFilterOn(p) then (ParseDate(p.startDate.value).value, ParseDate(p.endDate.value).value)
    else (DateFields(1970, 1, 1), DateFields(1970, 1, 1))
  }

  function Criteria(p: FilterParams, start: Date, end: Date): Expense -> bool {
    (e: Expense) => MatchesCriteria(e, p, start, end)
  }

  // Each criterion on its own, holding of every expense when its parameter is absent.
  function BudgetCriterion(p: FilterParams): Expense -> bool {
    (e: Expense) => p.budgetId.None? || e.budgetId == p.budgetId.value
  }

  function SubCategoryCriterion(p: FilterParams): Expense -> bool {
    (e: Expense) => p.subCategoryId.None? || e.subCategoryId == p.subCategoryId
  }

  function PaymentCriterion(p: FilterParams): Expense -> bool {
    (e: Expense) => !PaymentFilterOn(p) || (e.payment.Some? && EqualsIgnoreCase(e.payment.value.typeName, p.paymentType.value))
  }

  function DateCriterion(p: FilterParams, start: Date, end: Date): Expense -> bool {
    (e: Expense) => !DateFilterOn(p) || InRange(e, start, end)
  }

  function BudgetAndSubCategory(p: FilterParams): Expense -> bool {
    (e: Expense) => BudgetCriterion(p)(e) && SubCategoryCriterion(p)(e)
  }

  function FirstThree(p: FilterParams): Expense -> bool {
    (e: Expense) => BudgetAndSubCategory(p)(e) && PaymentCriterion(p)(e)
  }

  /** Four criteria filtered one after the other are one filter by their conjunction. */
  lemma StagesCompose(es0: seq<Expense>, p: FilterParams, start: Date, end: Date)
    ensures Filter(Filter(Filter(Filter(es0, BudgetCriterion(p)), SubCategoryCriterion(p)), PaymentCriterion(p)), DateCriterion(p, start, end))
            == Filter(es0, Criteria(p, start, end))
  {
    FilterCompose(es0, BudgetCriterion(p), SubCategoryCriterion(p), BudgetAndSubCategory(p));
    FilterCompose(es0, BudgetAndSubCategory(p), PaymentCriterion(p), FirstThree(p));
    FilterCompose(es0, FirstThree(p), DateCriterion(p, start, end), Criteria(p, start, end));
  }

  /** The staged filter equals one filter by the combined criteria over the user's expenses. */
  lemma {:induction false} FilterExpensesSelects(rows: seq<Expense>, userId: nat, p: FilterParams)
    requires FilterExpenses(rows, userId, p).Ok?
    ensures DateFilterOn(p) ==> ParseDate(p.startDate.value).Some? && ParseDate(p.endDate.value).Some?
    ensures var (start, end) := Bounds(p);
            FilterExpenses(rows, userId, p).value == Filter(FindExpensesByUser(rows, userId), Criteria(p, start, end))
  {
    var (start, end) := Bounds(p);
    var es0 := FindExpensesByUser(rows, userId);
    var es1 := Filter(es0, BudgetCriterion(p));
    var es2 := Filter(es1, SubCategoryCriterion(p));
    var es3 := Filter(es2, PaymentCriterion(p));
    // each stage is the guarded filter
    if p.budgetId.Some? {
      FilterCongruent(es0, BudgetCriterion(p), ByBudget(p.budgetId.value));
    } else {
      FilterKeepsAll(es0, BudgetCriterion(p));
    }
    if p.subCategoryId.Some? {
      FilterCongruent(es1, SubCategoryCriterion(p), BySubCategory(p.subCategoryId.value));
    } else {
      FilterKeepsAll(es1, SubCategoryCriterion(p));
    }
    if PaymentFilterOn(p) {
      FilterCongruent(es2, PaymentCriterion(p), ByPaymentType(p.paymentType.value));
    } else {
      FilterKeepsAll(es2, PaymentCriterion(p));
    }
    if DateFilterOn(p) {
      FilterCongruent(es3, DateCriterion(p, start, end), ByDateRange(start, end));
    } else {
      FilterKeepsAll(es3, DateCriterion(p, start, end));
    }
    // and the stages compose into one filter
    StagesCompose(es0, p, start, end);
  }

  /** The result keeps the user's expenses in their order: a subsequence of them. */
  lemma FilterExpensesSubsequence(rows: seq<Expense>, userId: nat, p: FilterParams)
    requires FilterExpenses(rows, userId, p).Ok?
    ensures IsSubsequence(FilterExpenses(rows, userId, p).value, FindExpensesByUser(rows, userId))
  {
    FilterExpensesSelects(rows, userId, p);
    var (start, end) := Bounds(p);
    FilterIsSubsequence(FindExpensesByUser(rows, userId), Criteria(p, start, end));
  }

  /** With no parameter given, the filter returns all the user's expenses. */
  lemma FilterExpensesNoParams(rows: seq<Expense>, userId: nat)
    ensures FilterExpenses(rows, userId, FilterParams(None, None, None, None, None)) == Ok(FindExpensesByUser(rows, userId))
  {
  }

  /** An empty payment type disables the payment criterion. */
  lemma FilterExpensesEmptyPaymentType(rows: seq<Expense>, userId: nat, p: FilterParams)
    requires p.paymentType == Some([])
    ensures FilterExpenses(rows, userId, p) == FilterExpenses(rows, userId, p.(paymentType := None))
  {
  }

  /** The date criterion keeps both end days: an expense dated on a bound is included. */
  lemma FilterExpensesInclusiveBounds(e: Expense, start: Date, end: Date)
    requires e.date == Some(start) || e.date == Some(end)
    requires !IsAfter(start, end)
    ensures InRange(e, start, end)
  {
  }

  /** An expense that passes the other criteria but has no date: the date stage dereferences its null date. */
  predicate NullDateReached(rows: seq<Expense>, userId: nat, p: FilterParams) {
    exists e :: e in FindExpensesByUser(rows, userId) && ReachesDateStage(e, p) && e.date.None?
  }

  /**
   * Only the date stage can fail: with an unparsable bound exactly when both
   * bounds are given and one of them does not parse, and with a null date
   * exactly when the bounds parse and an undated expense reaches the stage.
   * Otherwise the filter succeeds.
   */
  lemma FilterExpensesFails(rows: seq<Expense>, userId: nat, p: FilterParams)
    ensures FilterExpenses(rows, userId, p).Err? ==> DateFilterOn(p)
    ensures FilterExpenses(rows, userId, p) == Err(UnparsableDate)
            <==> DateFilterOn(p) && (ParseDate(p.startDate.value).None? || ParseDate(p.endDate.value).None?)
    ensures FilterExpenses(rows, userId, p) == Err(NullExpenseDate)
            <==> DateFilterOn(p) && ParseDate(p.startDate.value).Some? && ParseDate(p.endDate.value).Some?
                 && NullDateReached(rows, userId, p)
    ensures FilterExpenses(rows, userId, p).Ok?
            <==> !DateFilterOn(p)
                 || (ParseDate(p.startDate.value).Some? && ParseDate(p.endDate.value).Some?
                     && !NullDateReached(rows, userId, p))
  {
  }
}
