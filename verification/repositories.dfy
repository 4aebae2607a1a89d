/**
 * The budget and expense tables: each a sequence of rows plus the next
 * identifier to hand out, with the derived queries the services use.
 * Query results come back in table order.
 */
module Repositories {
  import opened Wrappers
  import opened Calendar
  import opened Entities
  import opened Seqs

  predicate BudgetIdsValid(rows: seq<Budget>, nextId: nat) {
    (forall i :: 0 <= i < |rows| ==> rows[i].id < nextId)
    && (forall i, j :: 0 <= i < j < |rows| ==> rows[i].id != rows[j].id)
  }

  predicate ExpenseIdsValid(rows: seq<Expense>, nextId: nat) {
    (forall i :: 0 <= i < |rows| ==> rows[i].id < nextId)
    && (forall i, j :: 0 <= i < j < |rows| ==> rows[i].id != rows[j].id)
  }

  // ---------------------------------------------------------------- budgets

  /** The row identity the budget services look up: owner, category and month. */
  predicate IsKey(b: Budget, userId: nat, category: string, month: YearMonth) {
    b.userId == userId && b.category == category && b.month == Some(month)
  }

  /** Some budget of `userId` for `category` in `month` exists. */
  predicate HasBudget(rows: seq<Budget>, userId: nat, category: string, month: YearMonth) {
    exists b :: b in rows && IsKey(b, userId, category, month)
  }

  /** `findByUser`. */
  function FindByUser(rows: seq<Budget>, userId: nat): seq<Budget> {
    Filter(rows, (b: Budget) => b.userId == userId)
  }

  /** `findByUserAndBudgetMonth`. */
  function FindByUserAndBudgetMonth(rows: seq<Budget>, userId: nat, month: YearMonth): seq<Budget> {
    Filter(rows, (b: Budget) => b.userId == userId && b.month == Some(month))
  }

  /** `findByUserAndCategoryAndBudgetMonth`: the position of the matching row, the first one if several match. */
  function FindByUserAndCategoryAndBudgetMonth(rows: seq<Budget>, userId: nat, category: string, month: YearMonth): (r: Option<nat>)
    ensures r.Some? ==> r.value < |rows| && IsKey(rows[r.value], userId, category, month)
    ensures r.Some? ==> forall j :: 0 <= j < r.value ==> !IsKey(rows[j], userId, category, month)
    ensures r.None? <==> !HasBudget(rows, userId, category, month)
  {
    var r := FirstIndex(rows, (b: Budget) => IsKey(b, userId, category, month));
    assert r.Some? ==> rows[r.value] in rows;
    r
  }

  /** `findById`. */
  function FindBudgetById(rows: seq<Budget>, id: nat): (r: Option<nat>)
    ensures r.Some? ==> r.value < |rows| && rows[r.value].id == id
    ensures r.None? ==> forall b :: b in rows ==> b.id != id
  {
    FirstIndex(rows, (b: Budget) => b.id == id)
  }

  /** `findByIdAndUser`: the row with that identifier, provided `userId` owns it. */
  function FindByIdAndUser(rows: seq<Budget>, id: nat, userId: nat): (r: Option<nat>)
    ensures r.Some? ==> r.value < |rows| && rows[r.value].id == id && rows[r.value].userId == userId
    ensures r.None? ==> forall b :: b in rows ==> !(b.id == id && b.userId == userId)
  {
    FirstIndex(rows, (b: Budget) => b.id == id && b.userId == userId)
  }

  lemma HasBudgetGrows(rows: seq<Budget>, more: seq<Budget>, userId: nat, category: string, month: YearMonth)
    requires HasBudget(rows, userId, category, month)
    ensures HasBudget(rows + more, userId, category, month)
  {
    var b :| b in rows && IsKey(b, userId, category, month);
    assert b in rows + more;
  }


  /** Two budgets with the same owner, category and (set) month. */
  predicate SameKey(a: Budget, b: Budget) {
    a.userId == b.userId && a.category == b.category && a.month.Some? && a.month == b.month
  }

  /** No (owner, category, month) key occurs twice: the single-result lookup never sees two rows. */
  predicate UniqueKeys(rows: seq<Budget>) {
    forall i, j :: 0 <= i < j < |rows| ==> !SameKey(rows[i], rows[j])
  }

  /** No key of month `m` occurs twice; other months may hold duplicates. */
  predicate UniqueKeysIn(rows: seq<Budget>, m: YearMonth) {
    forall i, j :: 0 <= i < j < |rows| && rows[i].month == Some(m) ==> !SameKey(rows[i], rows[j])
  }

  /** Keys are unique exactly when they are unique within every month. */
  lemma UniqueKeysByMonth(rows: seq<Budget>)
    ensures UniqueKeys(rows) <==> forall m :: UniqueKeysIn(rows, m)
  {
    if forall m :: UniqueKeysIn(rows, m) {
      forall i, j | 0 <= i < j < |rows| ensures !SameKey(rows[i], rows[j]) {
        if rows[i].month.Some? {
          assert UniqueKeysIn(rows, rows[i].month.value);
        }
      }
    }
  }

  /** Under unique keys the row the lookup returns is the only row with that key. */
  lemma UniqueKeysSingleMatch(rows: seq<Budget>, userId: nat, category: string, month: YearMonth)
    requires UniqueKeys(rows)
    requires FindByUserAndCategoryAndBudgetMonth(rows, userId, category, month).Some?
    ensures var i := FindByUserAndCategoryAndBudgetMonth(rows, userId, category, month).value;
            forall j :: 0 <= j < |rows| && j != i ==> !IsKey(rows[j], userId, category, month)
  {
    var i := FindByUserAndCategoryAndBudgetMonth(rows, userId, category, month).value;
    forall j | 0 <= j < |rows| && j != i
      ensures !IsKey(rows[j], userId, category, month)
    {
      if j < i {
      } else {
        assert !SameKey(rows[i], rows[j]);
      }
    }
  }

  /** The budgets table. */
  class BudgetRepository {
    var rows: seq<Budget>
    var nextId: nat

    ghost predicate Valid()
      reads this
    {
      BudgetIdsValid(rows, nextId)
    }

    constructor ()
      ensures Valid() && rows == [] && nextId == 1
    {
      rows := [];
      nextId := 1;
    }

    /** `save` of a new entity: it gets the next identifier and is appended. */
    method Insert(b: Budget) returns (saved: Budget)
      requires Valid()
      modifies this
      ensures Valid()
      ensures saved == b.(id := old(nextId))
      ensures rows == old(rows) + [saved] && nextId == old(nextId) + 1
    {
      saved := b.(id := nextId);
      rows := rows + [saved];
      nextId := nextId + 1;
    }

    /** `save` of an entity already stored at position `i`. */
    method Store(i: nat, b: Budget)
      requires Valid() && i < |rows| && b.id == rows[i].id
      modifies this
      ensures Valid()
      ensures rows == old(rows)[i := b] && nextId == old(nextId)
    {
      rows := rows[i := b];
    }

    /** `delete` of the entity stored at position `i`. */
    method Delete(i: nat)
      requires Valid() && i < |rows|
      modifies this
      ensures Valid()
      ensures rows == old(rows)[..i] + old(rows)[i + 1..] && nextId == old(nextId)
    {
      ghost var before := rows;
      rows := rows[..i] + rows[i + 1..];
      assert forall k :: 0 <= k < |rows| ==> rows[k] == before[if k < i then k else k + 1];
    }
  }

  // --------------------------------------------------------------- expenses

  /** `findByUser`. */
  function FindExpensesByUser(rows: seq<Expense>, userId: nat): seq<Expense> {
    Filter(rows, (e: Expense) => e.userId == userId)
  }

  /** SQL `BETWEEN from AND to` on the expense date: inclusive, and a missing date never matches. */
  predicate DateBetween(e: Expense, from: Date, to: Date) {
    e.date.Some? && !IsBefore(e.date.value, from) && !IsAfter(e.date.value, to)
  }

  /** `findByUserAndExpenseDateBetween`. */
  function FindByUserAndExpenseDateBetween(rows: seq<Expense>, userId: nat, from: Date, to: Date): seq<Expense> {
    Filter(rows, (e: Expense) => e.userId == userId && DateBetween(e, from, to))
  }

  /** `findByBudgetAndUser`. */
  function FindByBudgetAndUser(rows: seq<Expense>, budgetId: nat, userId: nat): seq<Expense> {
    Filter(rows, (e: Expense) => e.budgetId == budgetId && e.userId == userId)
  }

  /** `findByBudgetAndUserAndExpenseDateBetween`. */
  function FindByBudgetAndUserAndExpenseDateBetween(rows: seq<Expense>, budgetId: nat, userId: nat, from: Date, to: Date): seq<Expense> {
    Filter(rows, (e: Expense) => e.budgetId == budgetId && e.userId == userId && DateBetween(e, from, to))
  }

  /** `findById`. */
  function FindExpenseById(rows: seq<Expense>, id: nat): (r: Option<nat>)
    ensures r.Some? ==> r.value < |rows| && rows[r.value].id == id
    ensures r.None? ==> forall e :: e in rows ==> e.id != id
  {
    FirstIndex(rows, (e: Expense) => e.id == id)
  }

  /** The expenses table. */
  class ExpenseRepository {
    var rows: seq<Expense>
    var nextId: nat

    ghost predicate Valid()
      reads this
    {
      ExpenseIdsValid(rows, nextId)
    }

    constructor ()
      ensures Valid() && rows == [] && nextId == 1
    {
      rows := [];
      nextId := 1;
    }

    method Insert(e: Expense) returns (saved: Expense)
      requires Valid()
      modifies this
      ensures Valid()
      ensures saved == e.(id := old(nextId))
      ensures rows == old(rows) + [saved] && nextId == old(nextId) + 1
    {
      saved := e.(id := nextId);
      rows := rows + [saved];
      nextId := nextId + 1;
    }

    method Store(i: nat, e: Expense)
      requires Valid() && i < |rows| && e.id == rows[i].id
      modifies this
      ensures Valid()
      ensures rows == old(rows)[i := e] && nextId == old(nextId)
    {
      rows := rows[i := e];
    }

    method Delete(i: nat)
      requires Valid() && i < |rows|
      modifies this
      ensures Valid()
      ensures rows == old(rows)[..i] + old(rows)[i + 1..] && nextId == old(nextId)
    {
      ghost var before := rows;
      rows := rows[..i] + rows[i + 1..];
      assert forall k :: 0 <= k < |rows| ==> rows[k] == before[if k < i then k else k + 1];
    }

    /** Removes every row `keep` rejects (the cascade from a deleted budget). */
    method DeleteWhere(keep: Expense -> bool)
      requires Valid()
      modifies this
      ensures Valid()
      ensures rows == Filter(old(rows), keep) && nextId == old(nextId)
    {
      FilterIdsValid(rows, keep, nextId);
      rows := Filter(rows, keep);
    }
  }

  lemma {:induction false} FilterIdsValid(rows: seq<Expense>, keep: Expense -> bool, bound: nat)
    requires ExpenseIdsValid(rows, bound)
    ensures ExpenseIdsValid(Filter(rows, keep), bound)
    decreases |rows|
  {
    if rows != [] {
      var tail := rows[1..];
      assert ExpenseIdsValid(tail, bound) by {
        assert forall i :: 0 <= i < |tail| ==> tail[i] == rows[i + 1];
      }
      FilterIdsValid(tail, keep, bound);
      var f := Filter(tail, keep);
      if keep(rows[0]) {
        assert Filter(rows, keep) == [rows[0]] + f;
        HeadIdNotInTail(rows);
        ConsIdsValid(rows[0], f, bound);
      } else {
        assert Filter(rows, keep) == f;
      }
    }
  }

  lemma HeadIdNotInTail(rows: seq<Expense>)
    requires rows != [] && forall i, j :: 0 <= i < j < |rows| ==> rows[i].id != rows[j].id
    ensures forall e :: e in rows[1..] ==> e.id != rows[0].id
  {
    forall e | e in rows[1..] ensures e.id != rows[0].id {
      var k :| 0 <= k < |rows[1..]| && rows[1..][k] == e;
      assert rows[k + 1] == e;
    }
  }

  lemma ConsIdsValid(x: Expense, f: seq<Expense>, bound: nat)
    requires ExpenseIdsValid(f, bound) && x.id < bound
    requires forall e :: e in f ==> e.id != x.id
    ensures ExpenseIdsValid([x] + f, bound)
  {
    var r := [x] + f;
    forall i, j | 0 <= i < j < |r| ensures r[i].id != r[j].id {
      assert r[j] == f[j - 1];
      if i > 0 {
        assert r[i] == f[i - 1];
      } else {
        assert f[j - 1] in f;
      }
    }
  }
}
