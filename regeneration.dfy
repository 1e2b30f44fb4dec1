/** Keeping the share table consistent with the expense table: on creation
    an expense's shares are appended, on every later save they are deleted
    and allocated afresh against the users active at that moment. */
module Regeneration {
  import opened LedgerTypes
  import opened Allocation

  /** The shares that belong to expense `id`, in table order. */
  function SharesOf(shares: seq<ExpenseShare>, id: ExpenseId): (r: seq<ExpenseShare>)
    ensures forall s :: s in r <==> s in shares && s.expense == id
  {
    if shares == [] then []
    else
      var last := shares[|shares| - 1];
      SharesOf(shares[..|shares| - 1], id) + (if last.expense == id then [last] else [])
  }

  /** The share table with every share of expense `id` deleted. */
  function WithoutExpense(shares: seq<ExpenseShare>, id: ExpenseId): (r: seq<ExpenseShare>)
    ensures forall s :: s in r <==> s in shares && s.expense != id
  {
    if shares == [] then []
    else
      var last := shares[|shares| - 1];
      WithoutExpense(shares[..|shares| - 1], id) + (if last.expense != id then [last] else [])
  }

  /** The primary keys of the saved expenses. */
  function StoredPks(expenses: seq<Expense>): set<ExpenseId> {
    set i | 0 <= i < |expenses| && expenses[i].pk.Some? :: expenses[i].pk.value
  }

  /** The position of the expense saved under `pk`, if there is one. */
  function PkIndex(expenses: seq<Expense>, pk: ExpenseId): (r: Option<nat>)
    ensures r.Some? ==> r.value < |expenses| && expenses[r.value].pk == Some(pk)
    ensures r.None? ==> forall i :: 0 <= i < |expenses| ==> expenses[i].pk != Some(pk)
  {
    if expenses == [] then None
    else if expenses[|expenses| - 1].pk == Some(pk) then Some(|expenses| - 1)
    else PkIndex(expenses[..|expenses| - 1], pk)
  }

  /** Every saved expense has a distinct key below `nextPk` and a positive
      amount, every share belongs to a saved expense, and the shares of each
      expense are exactly its allocation over the distinct users it was last
      allocated against (`allocatedTo`). */
  ghost predicate Consistent(expenses: seq<Expense>, shares: seq<ExpenseShare>,
                             nextPk: ExpenseId, allocatedTo: map<ExpenseId, seq<UserId>>)
  {
    && (forall i :: 0 <= i < |expenses| ==>
          expenses[i].pk.Some? && expenses[i].pk.value < nextPk && expenses[i].amount > 0.0)
    && (forall i, j :: 0 <= i < j < |expenses| ==> expenses[i].pk != expenses[j].pk)
    && (forall i :: 0 <= i < |shares| ==> shares[i].expense in StoredPks(expenses))
    && (forall i :: 0 <= i < |expenses| ==>
          && expenses[i].pk.value in allocatedTo
          && Distinct(allocatedTo[expenses[i].pk.value])
          && SharesOf(shares, expenses[i].pk.value) == Allocate(expenses[i], allocatedTo[expenses[i].pk.value]))
  }

  /** In a consistent ledger no share points at the next fresh key, so
      deleting that key's shares changes nothing. */
  lemma FreshKeyUnused(expenses: seq<Expense>, shares: seq<ExpenseShare>,
                       nextPk: ExpenseId, allocatedTo: map<ExpenseId, seq<UserId>>)
    requires Consistent(expenses, shares, nextPk, allocatedTo)
    ensures WithoutExpense(shares, nextPk) == shares
  {
    forall i | 0 <= i < |shares| ensures shares[i].expense != nextPk {
      assert shares[i].expense in StoredPks(expenses);
    }
    WithoutAbsent(shares, nextPk);
  }

  lemma {:induction false} SharesOfAppend(a: seq<ExpenseShare>, b: seq<ExpenseShare>, id: ExpenseId)
    ensures SharesOf(a + b, id) == SharesOf(a, id) + SharesOf(b, id)
  {
    if b != [] {
      var b' := b[..|b| - 1];
      assert (a + b)[..|a + b| - 1] == a + b';
      SharesOfAppend(a, b', id);
    } else {
      assert a + b == a;
    }
  }

  lemma {:induction false} WithoutExpenseAppend(a: seq<ExpenseShare>, b: seq<ExpenseShare>, id: ExpenseId)
    ensures WithoutExpense(a + b, id) == WithoutExpense(a, id) + WithoutExpense(b, id)
  {
    if b != [] {
      var b' := b[..|b| - 1];
      assert (a + b)[..|a + b| - 1] == a + b';
      WithoutExpenseAppend(a, b', id);
    } else {
      assert a + b == a;
    }
  }

  /** Deleting the shares of `id` empties them and leaves every other
      expense's shares as they were. */
  lemma {:induction false} SharesOfWithout(shares: seq<ExpenseShare>, id: ExpenseId, other: ExpenseId)
    ensures SharesOf(WithoutExpense(shares, id), id) == []
    ensures other != id ==> SharesOf(WithoutExpense(shares, id), other) == SharesOf(shares, other)
  {
    if shares != [] {
      var init := shares[..|shares| - 1];
      var last := shares[|shares| - 1];
      SharesOfWithout(init, id, other);
      SharesOfAppend(WithoutExpense(init, id), if last.expense != id then [last] else [], id);
      SharesOfAppend(WithoutExpense(init, id), if last.expense != id then [last] else [], other);
    }
  }

  /** A table with no share of `id` is unchanged by deleting them. */
  lemma WithoutAbsent(shares: seq<ExpenseShare>, id: ExpenseId)
    requires forall i :: 0 <= i < |shares| ==> shares[i].expense != id
    ensures WithoutExpense(shares, id) == shares
    ensures SharesOf(shares, id) == []
  {
    WithoutAbsentKeeps(shares, id);
    SharesOfAbsent(shares, id);
  }

  lemma {:induction false} WithoutAbsentKeeps(shares: seq<ExpenseShare>, id: ExpenseId)
    requires forall i :: 0 <= i < |shares| ==> shares[i].expense != id
    ensures WithoutExpense(shares, id) == shares
  {
    if shares != [] {
      var init := shares[..|shares| - 1];
      var last := shares[|shares| - 1];
      assert last.expense != id;
      WithoutAbsentKeeps(init, id);
      assert init + [last] == shares;
    }
  }

  lemma {:induction false} SharesOfAbsent(shares: seq<ExpenseShare>, id: ExpenseId)
    requires forall i :: 0 <= i < |shares| ==> shares[i].expense != id
    ensures SharesOf(shares, id) == []
  {
    if shares != [] {
      SharesOfAbsent(shares[..|shares| - 1], id);
    }
  }

  lemma {:induction false} SharesFromTo(e: Expense, us: seq<UserId>, n: nat, other: ExpenseId)
    requires e.pk.Some? && (n > 0 || us == [])
    ensures SharesOf(SharesFor(e, us, n), e.pk.value) == SharesFor(e, us, n)
    ensures other != e.pk.value ==> SharesOf(SharesFor(e, us, n), other) == []
  {
    if us != [] {
      var s := SharesFor(e, us, n);
      assert s[..|s| - 1] == SharesFor(e, us[..|us| - 1], n);
      SharesFromTo(e, us[..|us| - 1], n, other);
    }
  }

  /** Every share of an allocation belongs to its expense. */
  lemma SharesOfAllocate(e: Expense, active: seq<UserId>, other: ExpenseId)
    requires e.pk.Some?
    ensures SharesOf(Allocate(e, active), e.pk.value) == Allocate(e, active)
    ensures other != e.pk.value ==> SharesOf(Allocate(e, active), other) == []
  {
    SharesFromTo(e, active, |active|, other);
  }

  /** After deleting and re-allocating expense `e`, its shares are exactly
      the allocation over `active`, and every other expense keeps its shares. */
  lemma Regenerated(shares: seq<ExpenseShare>, e: Expense, active: seq<UserId>, other: ExpenseId)
    requires e.pk.Some?
    ensures SharesOf(WithoutExpense(shares, e.pk.value) + Allocate(e, active), e.pk.value) == Allocate(e, active)
    ensures other != e.pk.value ==>
      SharesOf(WithoutExpense(shares, e.pk.value) + Allocate(e, active), other) == SharesOf(shares, other)
  {
    var pk := e.pk.value;
    SharesOfAppend(WithoutExpense(shares, pk), Allocate(e, active), pk);
    SharesOfAppend(WithoutExpense(shares, pk), Allocate(e, active), other);
    SharesOfWithout(shares, pk, other);
    SharesOfAllocate(e, active, other);
  }

  /** `Regenerated` for every other expense at once. */
  lemma RegeneratedAll(shares: seq<ExpenseShare>, e: Expense, active: seq<UserId>)
    requires e.pk.Some?
    ensures SharesOf(WithoutExpense(shares, e.pk.value) + Allocate(e, active), e.pk.value) == Allocate(e, active)
    ensures forall id :: id != e.pk.value ==>
      SharesOf(WithoutExpense(shares, e.pk.value) + Allocate(e, active), id) == SharesOf(shares, id)
  {
    Regenerated(shares, e, active, e.pk.value);
    forall id | id != e.pk.value
      ensures SharesOf(WithoutExpense(shares, e.pk.value) + Allocate(e, active), id) == SharesOf(shares, id)
    {
      Regenerated(shares, e, active, id);
    }
  }

  /** The regeneration leaves exactly as many shares for the expense as
      there are active users: no stale share of an earlier user set lingers. */
  lemma RegeneratedCount(shares: seq<ExpenseShare>, e: Expense, active: seq<UserId>)
    requires e.pk.Some?
    ensures |SharesOf(WithoutExpense(shares, e.pk.value) + Allocate(e, active), e.pk.value)| == |active|
  {
    Regenerated(shares, e, active, e.pk.value);
    AllocateRows(e, active);
  }

  /** The key a save gives an expense: a new one is numbered `nextPk`. */
  function SavedPk(e: Expense, nextPk: ExpenseId): ExpenseId {
    if e.pk.Some? then e.pk.value else nextPk
  }

  /** The expense table after a save: an unsaved expense is appended under
      `nextPk`; a saved one overwrites the row with its key or, when there
      is none, is inserted. */
  function StoreExpense(expenses: seq<Expense>, e: Expense, nextPk: ExpenseId): seq<Expense> {
    var saved := e.(pk := Some(SavedPk(e, nextPk)));
    if e.pk.None? then expenses + [saved]
    else
      match PkIndex(expenses, e.pk.value)
      case Some(k) => expenses[k := saved]
      case None => expenses + [saved]
  }

  function NextPkAfter(e: Expense, nextPk: ExpenseId): ExpenseId {
    if SavedPk(e, nextPk) < nextPk then nextPk else SavedPk(e, nextPk) + 1
  }

  lemma StoredPksAfter(expenses: seq<Expense>, e: Expense, nextPk: ExpenseId)
    requires forall i :: 0 <= i < |expenses| ==> expenses[i].pk.Some?
    ensures StoredPks(StoreExpense(expenses, e, nextPk)) == StoredPks(expenses) + {SavedPk(e, nextPk)}
  {
    var pk := SavedPk(e, nextPk);
    var r := StoreExpense(expenses, e, nextPk);
    if e.pk.Some? && PkIndex(expenses, pk).Some? {
      var k := PkIndex(expenses, pk).value;
      assert pk in StoredPks(expenses);
      forall id | id in StoredPks(expenses) ensures id in StoredPks(r) {
        var i :| 0 <= i < |expenses| && expenses[i].pk == Some(id);
        assert r[i].pk == Some(id);
      }
      forall id | id in StoredPks(r) ensures id in StoredPks(expenses) {
        var i :| 0 <= i < |r| && r[i].pk == Some(id);
        assert expenses[i].pk == Some(id);
      }
    } else {
      assert r == expenses + [e.(pk := Some(pk))];
      forall id | id in StoredPks(expenses) ensures id in StoredPks(r) {
        var i :| 0 <= i < |expenses| && expenses[i].pk == Some(id);
        assert r[i].pk == Some(id);
      }
      assert r[|expenses|].pk == Some(pk);
    }
  }

  /** Saving an expense with a positive amount and regenerating its shares
      against the distinct active users keeps the tables consistent. */
  lemma SaveKeepsConsistent(expenses: seq<Expense>, shares: seq<ExpenseShare>, nextPk: ExpenseId,
                            allocatedTo: map<ExpenseId, seq<UserId>>, e: Expense, active: seq<UserId>)
    requires Consistent(expenses, shares, nextPk, allocatedTo)
    requires e.amount > 0.0 && Distinct(active)
    ensures
      var pk := SavedPk(e, nextPk);
      Consistent(StoreExpense(expenses, e, nextPk),
                 WithoutExpense(shares, pk) + Allocate(e.(pk := Some(pk)), active),
                 NextPkAfter(e, nextPk),
                 allocatedTo[pk := active])
  {
    var pk := SavedPk(e, nextPk);
    var saved := e.(pk := Some(pk));
    var es := StoreExpense(expenses, e, nextPk);
    var sh := WithoutExpense(shares, pk) + Allocate(saved, active);
    var alloc := allocatedTo[pk := active];
    var np := NextPkAfter(e, nextPk);
    StoredPksAfter(expenses, e, nextPk);
    var updating := e.pk.Some? && PkIndex(expenses, pk).Some?;
    if !updating {
      assert pk !in StoredPks(expenses);
      assert es == expenses + [saved];
    }
    forall i | 0 <= i < |es|
      ensures es[i].pk.Some? && es[i].pk.value < np && es[i].amount > 0.0
      ensures es[i].pk.value in alloc && Distinct(alloc[es[i].pk.value])
      ensures SharesOf(sh, es[i].pk.value) == Allocate(es[i], alloc[es[i].pk.value])
    {
      Regenerated(shares, saved, active, es[i].pk.value);
      if es[i] != saved {
        assert es[i] == expenses[i];
      }
    }
    forall i, j | 0 <= i < j < |es| ensures es[i].pk != es[j].pk {
      if updating {
        var k := PkIndex(expenses, pk).value;
        if i != k && j != k {
          assert es[i] == expenses[i] && es[j] == expenses[j];
        } else if i == k {
          assert es[i].pk == expenses[k].pk && es[j] == expenses[j];
        } else {
          assert es[j].pk == expenses[k].pk && es[i] == expenses[i];
        }
      } else if j == |expenses| {
        assert es[i] == expenses[i];
        assert pk !in StoredPks(expenses);
      } else {
        assert es[i] == expenses[i] && es[j] == expenses[j];
      }
    }
    forall i | 0 <= i < |sh| ensures sh[i].expense in StoredPks(es) {
      assert sh[i] in sh;
      if sh[i] !in WithoutExpense(shares, pk) {
        SharesOfAllocate(saved, active, sh[i].expense);
        assert sh[i] in SharesOf(Allocate(saved, active), sh[i].expense);
      } else {
        var j :| 0 <= j < |shares| && shares[j] == sh[i];
      }
    }
  }

  /** Everything one save does to the tables, stated on values: the new
      tables are consistent, the saved expense's shares are its allocation,
      the other expenses keep theirs, and a fresh expense's shares are just
      appended. */
  lemma SaveStep(expenses: seq<Expense>, shares: seq<ExpenseShare>, nextPk: ExpenseId,
                 allocatedTo: map<ExpenseId, seq<UserId>>, e: Expense, active: seq<UserId>)
    requires Consistent(expenses, shares, nextPk, allocatedTo)
    requires e.amount > 0.0 && Distinct(active)
    ensures
      var pk := SavedPk(e, nextPk);
      var saved := e.(pk := Some(pk));
      var sh := WithoutExpense(shares, pk) + Allocate(saved, active);
      && Consistent(StoreExpense(expenses, e, nextPk), sh, NextPkAfter(e, nextPk), allocatedTo[pk := active])
      && (e.pk.None? ==> sh == shares + Allocate(saved, active))
      && SharesOf(sh, pk) == Allocate(saved, active)
      && (forall id :: id != pk ==> SharesOf(sh, id) == SharesOf(shares, id))
  {
    var pk := SavedPk(e, nextPk);
    SaveKeepsConsistent(expenses, shares, nextPk, allocatedTo, e, active);
    if e.pk.None? {
      FreshKeyUnused(expenses, shares, nextPk, allocatedTo);
    }
    RegeneratedAll(shares, e.(pk := Some(pk)), active);
  }
}
