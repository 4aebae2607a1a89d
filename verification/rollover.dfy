/**
 * The monthly rollover: on the day a user's financial month starts, every
 * budget of the previous month whose category has no budget yet in the new
 * month is copied into it.
 */
module MonthlyBudgetScheduler {
  import opened Wrappers
  import opened Calendar
  import opened Entities
  import opened Repositories
  import opened FinancialMonth

  /** The budget made from `prev` for month `cur`: same category and amount, created `now`. */
  function CopyOf(prev: Budget, id: nat, userId: nat, cur: YearMonth, now: DateTime): Budget {
    Budget(id, userId, prev.category, prev.amount, Some(cur), Some(now))
  }

  /**
   * The inner loop over one user's previous budgets: each is copied unless its
   * category already has a budget in `cur` (copies made earlier in the loop count).
   * The result is the table and its next identifier.
   */
  function CopyMissing(rows: seq<Budget>, nextId: nat, userId: nat, cur: YearMonth, now: DateTime, prevs: seq<Budget>)
    : (r: (seq<Budget>, nat))
    ensures rows <= r.0 && r.1 == nextId + |r.0| - |rows|
    decreases |prevs|
  {
    if prevs == [] then (rows, nextId)
    else if HasBudget(rows, userId, prevs[0].category, cur) then CopyMissing(rows, nextId, userId, cur, now, prevs[1..])
    else CopyMissing(rows + [CopyOf(prevs[0], nextId, userId, cur, now)], nextId + 1, userId, cur, now, prevs[1..])
  }

  /** A user is due for rollover on the day their financial month starts. */
  predicate Due(user: User, today: Date): (due: bool)
    ensures due ==> EffectiveMonth(user, today) == YearMonthOf(today)
  {
    today.day == StartDay(user)
  }

  /** The outer loop's body for one user. */
  function RolloverUser(rows: seq<Budget>, nextId: nat, user: User, now: DateTime): (r: (seq<Budget>, nat))
    ensures rows <= r.0 && r.1 == nextId + |r.0| - |rows|
    ensures !Due(user, now.date) ==> r == (rows, nextId)
  {
    var today := now.date;
    if !Due(user, today) then (rows, nextId)
    else
      var cur := EffectiveMonth(user, today);
      var prevs := FindByUserAndBudgetMonth(rows, user.id, MinusMonths(cur, 1));
      if prevs == [] then (rows, nextId)
      else CopyMissing(rows, nextId, user.id, cur, now, prevs)
  }

  /** `rolloverBudgets` over `users` in order, as a function of the table. */
  function Rollover(rows: seq<Budget>, nextId: nat, users: seq<User>, now: DateTime): (r: (seq<Budget>, nat))
    ensures rows <= r.0 && r.1 == nextId + |r.0| - |rows|
    decreases |users|
  {
    if users == [] then (rows, nextId)
    else
      var (rows1, next1) := RolloverUser(rows, nextId, users[0], now);
      Rollover(rows1, next1, users[1..], now)
  }

  /** `rolloverBudgets`: the table afterwards is the one `Rollover` describes. */
  method RolloverBudgets(store: BudgetRepository, users: seq<User>, now: DateTime)
    requires store.Valid()
    modifies store
    ensures store.Valid()
    ensures (store.rows, store.nextId) == Rollover(old(store.rows), old(store.nextId), users, now)
  {
    var today := now.date;
    var i := 0;
    while i < |users|
      invariant 0 <= i <= |users|
      invariant store.Valid()
      invariant Rollover(store.rows, store.nextId, users[i..], now) == Rollover(old(store.rows), old(store.nextId), users, now)
    {
      var user := users[i];
      assert users[i..][0] == user && users[i..][1..] == users[i + 1..];
      ghost var before := RolloverUser(store.rows, store.nextId, user, now);
      var startDay := StartDay(user);
      if today.day != startDay {
        i := i + 1;
        continue;
      }
      var currentMonth := EffectiveMonth(user, today);
      var prevMonth := MinusMonths(currentMonth, 1);
      var prevBudgets := FindByUserAndBudgetMonth(store.rows, user.id, prevMonth);
      if |prevBudgets| == 0 {
        i := i + 1;
        continue;
      }
      CopyPrevious(store, user.id, currentMonth, now, prevBudgets);
      assert (store.rows, store.nextId) == before;
      i := i + 1;
    }
  }

  /** The inner loop of `rolloverBudgets`: one user's previous budgets copied into `cur` where missing. */
  method CopyPrevious(store: BudgetRepository, userId: nat, cur: YearMonth, now: DateTime, prevBudgets: seq<Budget>)
    requires store.Valid()
    modifies store
    ensures store.Valid()
    ensures (store.rows, store.nextId) == CopyMissing(old(store.rows), old(store.nextId), userId, cur, now, prevBudgets)
  {
    var j := 0;
    while j < |prevBudgets|
      invariant 0 <= j <= |prevBudgets|
      invariant store.Valid()
      invariant CopyMissing(store.rows, store.nextId, userId, cur, now, prevBudgets[j..])
                == CopyMissing(old(store.rows), old(store.nextId), userId, cur, now, prevBudgets)
    {
      var prev := prevBudgets[j];
      assert prevBudgets[j..][0] == prev && prevBudgets[j..][1..] == prevBudgets[j + 1..];
      var exists_ := FindByUserAndCategoryAndBudgetMonth(store.rows, userId, prev.category, cur).Some?;
      if !exists_ {
        var _ := store.Insert(Budget(0, userId, prev.category, prev.amount, Some(cur), Some(now)));
      }
      j := j + 1;
    }
  }

  // ------------------------------------------------------------ the inner loop

  /** The inner loop only appends: copies of previous budgets, for `cur`, with consecutive fresh identifiers. */
  lemma {:induction false} CopyMissingAppends(rows: seq<Budget>, nextId: nat, userId: nat, cur: YearMonth, now: DateTime,
                                              prevs: seq<Budget>)
    ensures var (r, n) := CopyMissing(rows, nextId, userId, cur, now, prevs);
            && rows <= r && n == nextId + (|r| - |rows|)
            && forall k :: |rows| <= k < |r| ==>
                 && r[k].userId == userId && r[k].month == Some(cur) && r[k].createdAt == Some(now)
                 && r[k].id == nextId + (k - |rows|)
                 && exists p :: p in prevs && p.category == r[k].category && p.amount == r[k].amount
    decreases |prevs|
  {
    if prevs != [] {
      var p := prevs[0];
      var rest := prevs[1..];
      assert forall q :: q in rest ==> q in prevs;
      if HasBudget(rows, userId, p.category, cur) {
        CopyMissingAppends(rows, nextId, userId, cur, now, rest);
      } else {
        var rows1 := rows + [CopyOf(p, nextId, userId, cur, now)];
        CopyMissingAppends(rows1, nextId + 1, userId, cur, now, rest);
        var (r, n) := CopyMissing(rows1, nextId + 1, userId, cur, now, rest);
        assert r[|rows|] == rows1[|rows|];
      }
    }
  }

  /** After the inner loop every previous category has a budget in `cur`. */
  lemma {:induction false} CopyMissingCovers(rows: seq<Budget>, nextId: nat, userId: nat, cur: YearMonth, now: DateTime,
                                             prevs: seq<Budget>)
    ensures forall p :: p in prevs ==> HasBudget(CopyMissing(rows, nextId, userId, cur, now, prevs).0, userId, p.category, cur)
    decreases |prevs|
  {
    if prevs != [] {
      var p := prevs[0];
      var rest := prevs[1..];
      var rows1 := if HasBudget(rows, userId, p.category, cur) then rows
                   else rows + [CopyOf(p, nextId, userId, cur, now)];
      var next1 := if HasBudget(rows, userId, p.category, cur) then nextId else nextId + 1;
      CopyMissingCovers(rows1, next1, userId, cur, now, rest);
      CopyMissingAppends(rows1, next1, userId, cur, now, rest);
      var r := CopyMissing(rows1, next1, userId, cur, now, rest).0;
      assert r == rows1 + r[|rows1|..];
      if !HasBudget(rows, userId, p.category, cur) {
        assert IsKey(rows1[|rows|], userId, p.category, cur);
        assert rows1[|rows|] in rows1;
      }
      HasBudgetGrows(rows1, r[|rows1|..], userId, p.category, cur);
      assert prevs == [p] + rest;
    }
  }

  /**
   * Appending a budget whose key is not yet taken keeps the keys of any month
   * unique: for its own month because the key is free, for the others because
   * its month differs.
   */
  lemma AppendFreshKey(rows: seq<Budget>, x: Budget, m: YearMonth)
    requires UniqueKeysIn(rows, m)
    requires x.month.Some? && !HasBudget(rows, x.userId, x.category, x.month.value)
    ensures UniqueKeysIn(rows + [x], m)
  {
    var r := rows + [x];
    forall i, j | 0 <= i < j < |r| && r[i].month == Some(m) ensures !SameKey(r[i], r[j]) {
      if j < |rows| {
        assert !SameKey(rows[i], rows[j]);
      } else {
        assert rows[i] in rows;
      }
    }
  }

  /**
   * The inner loop never gives a key of a month a second budget, whatever the
   * other months hold, and even when the previous month lists a category
   * twice: the second occurrence finds the first one's copy.
   */
  lemma {:induction false} CopyMissingUniqueKeysIn(rows: seq<Budget>, nextId: nat, userId: nat, cur: YearMonth, now: DateTime,
                                                   prevs: seq<Budget>, m: YearMonth)
    requires UniqueKeysIn(rows, m)
    ensures UniqueKeysIn(CopyMissing(rows, nextId, userId, cur, now, prevs).0, m)
    decreases |prevs|
  {
    if prevs != [] {
      var p := prevs[0];
      if HasBudget(rows, userId, p.category, cur) {
        CopyMissingUniqueKeysIn(rows, nextId, userId, cur, now, prevs[1..], m);
      } else {
        AppendFreshKey(rows, CopyOf(p, nextId, userId, cur, now), m);
        CopyMissingUniqueKeysIn(rows + [CopyOf(p, nextId, userId, cur, now)], nextId + 1, userId, cur, now, prevs[1..], m);
      }
    }
  }

  /** Each budget appended after `rows` had no budget with its key in the table before it. */
  predicate AddedFresh(rows: seq<Budget>, r: seq<Budget>, userId: nat, cur: YearMonth) {
    forall k :: |rows| <= k < |r| ==> !HasBudget(r[..k], userId, r[k].category, cur)
  }

  /** Each budget the inner loop appends had no budget with its key in the table before it. */
  lemma {:induction false} CopyMissingFreshWhenAdded(rows: seq<Budget>, nextId: nat, userId: nat, cur: YearMonth,
                                                     now: DateTime, prevs: seq<Budget>)
    ensures AddedFresh(rows, CopyMissing(rows, nextId, userId, cur, now, prevs).0, userId, cur)
    decreases |prevs|
  {
    if prevs != [] {
      var p := prevs[0];
      if HasBudget(rows, userId, p.category, cur) {
        CopyMissingFreshWhenAdded(rows, nextId, userId, cur, now, prevs[1..]);
      } else {
        var x := CopyOf(p, nextId, userId, cur, now);
        var rows1 := rows + [x];
        CopyMissingFreshWhenAdded(rows1, nextId + 1, userId, cur, now, prevs[1..]);
        var r := CopyMissing(rows1, nextId + 1, userId, cur, now, prevs[1..]).0;
        assert r[..|rows|] == rows && r[|rows|] == x;
        assert !HasBudget(r[..|rows|], userId, r[|rows|].category, cur);
      }
    }
  }

  /**
   * The copies one inner loop makes have pairwise different categories, even
   * when the previous month lists a category twice.
   */
  lemma CopyMissingOneCopyPerCategory(rows: seq<Budget>, nextId: nat, userId: nat, cur: YearMonth, now: DateTime,
                                      prevs: seq<Budget>)
    ensures var r := CopyMissing(rows, nextId, userId, cur, now, prevs).0;
            forall k1, k2 :: |rows| <= k1 < k2 < |r| ==> r[k1].category != r[k2].category
  {
    var r := CopyMissing(rows, nextId, userId, cur, now, prevs).0;
    CopyMissingAppends(rows, nextId, userId, cur, now, prevs);
    CopyMissingFreshWhenAdded(rows, nextId, userId, cur, now, prevs);
    assert AddedFresh(rows, r, userId, cur);
    forall k1, k2 | |rows| <= k1 < k2 < |r| ensures r[k1].category != r[k2].category {
      assert r[k1] == r[..k2][k1];
      assert IsKey(r[k1], userId, r[k1].category, cur);
    }
  }

  /** On a table with unique keys the inner loop keeps them unique. */
  lemma CopyMissingUniqueKeys(rows: seq<Budget>, nextId: nat, userId: nat, cur: YearMonth, now: DateTime,
                              prevs: seq<Budget>)
    requires UniqueKeys(rows)
    ensures UniqueKeys(CopyMissing(rows, nextId, userId, cur, now, prevs).0)
  {
    UniqueKeysByMonth(rows);
    forall m ensures UniqueKeysIn(CopyMissing(rows, nextId, userId, cur, now, prevs).0, m) {
      CopyMissingUniqueKeysIn(rows, nextId, userId, cur, now, prevs, m);
    }
    UniqueKeysByMonth(CopyMissing(rows, nextId, userId, cur, now, prevs).0);
  }

  /** When every previous category already has a budget in `cur`, the inner loop changes nothing. */
  lemma {:induction false} CopyMissingNoop(rows: seq<Budget>, nextId: nat, userId: nat, cur: YearMonth, now: DateTime,
                                           prevs: seq<Budget>)
    requires forall p :: p in prevs ==> HasBudget(rows, userId, p.category, cur)
    ensures CopyMissing(rows, nextId, userId, cur, now, prevs) == (rows, nextId)
    decreases |prevs|
  {
    if prevs != [] {
      assert prevs[0] in prevs;
      assert forall q :: q in prevs[1..] ==> q in prevs;
      CopyMissingNoop(rows, nextId, userId, cur, now, prevs[1..]);
    }
  }

  // ------------------------------------------------------------ the outer loop

  /** The rollover only appends to the table and hands out one identifier per appended budget. */
  lemma {:induction false} RolloverAppends(rows: seq<Budget>, nextId: nat, users: seq<User>, now: DateTime)
    ensures var (r, n) := Rollover(rows, nextId, users, now);
            rows <= r && n == nextId + (|r| - |rows|)
    decreases |users|
  {
    if users != [] {
      var (rows1, next1) := RolloverUser(rows, nextId, users[0], now);
      var today := now.date;
      if Due(users[0], today) {
        var cur := EffectiveMonth(users[0], today);
        CopyMissingAppends(rows, nextId, users[0].id, cur, now, FindByUserAndBudgetMonth(rows, users[0].id, MinusMonths(cur, 1)));
      }
      RolloverAppends(rows1, next1, users[1..], now);
    }
  }

  /**
   * A budget the rollover added: dated this calendar month and created `now`,
   * for a user that was due, copying the category and amount of that user's
   * budget of the previous month in `original`.
   */
  predicate IsCopy(x: Budget, original: seq<Budget>, users: seq<User>, now: DateTime) {
    var cur := YearMonthOf(now.date);
    && x.month == Some(cur) && x.createdAt == Some(now)
    && (exists u :: u in users && u.id == x.userId && Due(u, now.date))
    && (exists p :: p in original && p.userId == x.userId && p.month == Some(MinusMonths(cur, 1))
                    && p.category == x.category && p.amount == x.amount)
  }

  /** Rows of the previous month are never added, so each one found after copying was there before. */
  lemma PrevRowIsOriginal(original: seq<Budget>, rows: seq<Budget>, all: seq<User>, now: DateTime, p: Budget)
    requires original <= rows
    requires forall k :: |original| <= k < |rows| ==> IsCopy(rows[k], original, all, now)
    requires p in rows && p.month == Some(MinusMonths(YearMonthOf(now.date), 1))
    ensures p in original
  {
    MonthsDiffer(YearMonthOf(now.date), 1);
    var k :| 0 <= k < |rows| && rows[k] == p;
    assert k < |original|;
    assert original[k] == p;
  }

  lemma {:induction false} RolloverAddsCopies(original: seq<Budget>, rows: seq<Budget>, nextId: nat, users: seq<User>,
                                              all: seq<User>, now: DateTime)
    requires original <= rows
    requires forall u :: u in users ==> u in all
    requires forall k :: |original| <= k < |rows| ==> IsCopy(rows[k], original, all, now)
    ensures var r := Rollover(rows, nextId, users, now).0;
            forall k :: |original| <= k < |r| ==> IsCopy(r[k], original, all, now)
    decreases |users|
  {
    if users != [] {
      var u := users[0];
      var today := now.date;
      var (rows1, next1) := RolloverUser(rows, nextId, u, now);
      if Due(u, today) {
        var cur := EffectiveMonth(u, today);
        var prevs := FindByUserAndBudgetMonth(rows, u.id, MinusMonths(cur, 1));
        if prevs != [] {
          CopyMissingAppends(rows, nextId, u.id, cur, now, prevs);
          forall k | |rows| <= k < |rows1| ensures IsCopy(rows1[k], original, all, now) {
            var p :| p in prevs && p.category == rows1[k].category && p.amount == rows1[k].amount;
            PrevRowIsOriginal(original, rows, all, now, p);
            assert u in all;
          }
        }
      }
      assert rows <= rows1;
      assert original <= rows1;
      assert forall k :: |original| <= k < |rows| ==> rows1[k] == rows[k];
      assert forall k :: |original| <= k < |rows1| ==> IsCopy(rows1[k], original, all, now);
      assert forall v :: v in users[1..] ==> v in users;
      RolloverAddsCopies(original, rows1, next1, users[1..], all, now);
      assert Rollover(rows, nextId, users, now) == Rollover(rows1, next1, users[1..], now);
      var r := Rollover(rows, nextId, users, now).0;
      assert forall k :: |original| <= k < |r| ==> IsCopy(r[k], original, all, now);
    }
  }

  /** Every budget the rollover adds is a copy of a previous-month budget of a due user. */
  lemma RolloverOnlyCopies(rows: seq<Budget>, nextId: nat, users: seq<User>, now: DateTime)
    ensures var r := Rollover(rows, nextId, users, now).0;
            rows <= r && forall k :: |rows| <= k < |r| ==> IsCopy(r[k], rows, users, now)
  {
    RolloverAppends(rows, nextId, users, now);
    RolloverAddsCopies(rows, rows, nextId, users, users, now);
  }

  /** After the rollover, every category a due user budgeted last month has a budget this month. */
  lemma {:induction false} RolloverCovers(rows: seq<Budget>, nextId: nat, users: seq<User>, now: DateTime, u: User, p: Budget)
    requires u in users && Due(u, now.date)
    requires p in rows && p.userId == u.id && p.month == Some(MinusMonths(YearMonthOf(now.date), 1))
    ensures HasBudget(Rollover(rows, nextId, users, now).0, u.id, p.category, YearMonthOf(now.date))
    decreases |users|
  {
    var today := now.date;
    var (rows1, next1) := RolloverUser(rows, nextId, users[0], now);
    RolloverAppends(rows1, next1, users[1..], now);
    var r := Rollover(rows1, next1, users[1..], now).0;
    assert r == rows1 + r[|rows1|..];
    if u in users[1..] {
      RolloverAppends(rows, nextId, [users[0]], now);
      assert Rollover(rows, nextId, [users[0]], now) == (rows1, next1);
      assert p in rows1;
      RolloverCovers(rows1, next1, users[1..], now, u, p);
    } else {
      assert users[0] == u;
      var cur := EffectiveMonth(u, today);
      var prevs := FindByUserAndBudgetMonth(rows, u.id, MinusMonths(cur, 1));
      assert p in prevs;
      CopyMissingCovers(rows, nextId, u.id, cur, now, prevs);
      HasBudgetGrows(rows1, r[|rows1|..], u.id, p.category, cur);
    }
  }

  /** The rollover never gives a key of a month a second budget, whatever the other months hold. */
  lemma {:induction false} RolloverUniqueKeysIn(rows: seq<Budget>, nextId: nat, users: seq<User>, now: DateTime, m: YearMonth)
    requires UniqueKeysIn(rows, m)
    ensures UniqueKeysIn(Rollover(rows, nextId, users, now).0, m)
    decreases |users|
  {
    if users != [] {
      var u := users[0];
      var (rows1, next1) := RolloverUser(rows, nextId, u, now);
      if Due(u, now.date) {
        var cur := EffectiveMonth(u, now.date);
        CopyMissingUniqueKeysIn(rows, nextId, u.id, cur, now, FindByUserAndBudgetMonth(rows, u.id, MinusMonths(cur, 1)), m);
      }
      RolloverUniqueKeysIn(rows1, next1, users[1..], now, m);
    }
  }

  /** On a table with unique keys the rollover keeps them unique. */
  lemma RolloverUniqueKeys(rows: seq<Budget>, nextId: nat, users: seq<User>, now: DateTime)
    requires UniqueKeys(rows)
    ensures UniqueKeys(Rollover(rows, nextId, users, now).0)
  {
    UniqueKeysByMonth(rows);
    forall m ensures UniqueKeysIn(Rollover(rows, nextId, users, now).0, m) {
      RolloverUniqueKeysIn(rows, nextId, users, now, m);
    }
    UniqueKeysByMonth(Rollover(rows, nextId, users, now).0);
  }

  /** Every previous-month category of every due user already has a budget this month. */
  predicate Covered(rows: seq<Budget>, users: seq<User>, now: DateTime) {
    var cur := YearMonthOf(now.date);
    forall u, p :: (u in users && Due(u, now.date) && p in rows && p.userId == u.id
                    && p.month == Some(MinusMonths(cur, 1))) ==> HasBudget(rows, u.id, p.category, cur)
  }

  /** A rollover over a covered table changes nothing. */
  lemma {:induction false} RolloverNoop(rows: seq<Budget>, nextId: nat, users: seq<User>, now: DateTime)
    requires Covered(rows, users, now)
    ensures Rollover(rows, nextId, users, now) == (rows, nextId)
    decreases |users|
  {
    if users != [] {
      var u := users[0];
      if Due(u, now.date) {
        var cur := EffectiveMonth(u, now.date);
        var prevs := FindByUserAndBudgetMonth(rows, u.id, MinusMonths(cur, 1));
        assert u in users;
        CopyMissingNoop(rows, nextId, u.id, cur, now, prevs);
      }
      assert forall v :: v in users[1..] ==> v in users;
      RolloverNoop(rows, nextId, users[1..], now);
    }
  }

  /** Running the rollover a second time on the same day adds nothing. */
  lemma RolloverIdempotent(rows: seq<Budget>, nextId: nat, users: seq<User>, now: DateTime)
    ensures var (r, n) := Rollover(rows, nextId, users, now);
            Rollover(r, n, users, now) == (r, n)
  {
    var (r, n) := Rollover(rows, nextId, users, now);
    RolloverOnlyCopies(rows, nextId, users, now);
    forall u, p | u in users && Due(u, now.date) && p in r && p.userId == u.id
                  && p.month == Some(MinusMonths(YearMonthOf(now.date), 1))
      ensures HasBudget(r, u.id, p.category, YearMonthOf(now.date))
    {
      PrevRowIsOriginal(rows, r, users, now, p);
      RolloverCovers(rows, nextId, users, now, u, p);
    }
    RolloverNoop(r, n, users, now);
  }

  /** A rollover on a day that is nobody's start day changes nothing. */
  lemma RolloverNobodyDue(rows: seq<Budget>, nextId: nat, users: seq<User>, now: DateTime)
    requires forall u :: u in users ==> !Due(u, now.date)
    ensures Rollover(rows, nextId, users, now) == (rows, nextId)
  {
    RolloverNoop(rows, nextId, users, now);
  }
}
