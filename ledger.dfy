/** The ledger's four tables and the operations on them: saving an expense
    (which allocates or regenerates its shares), the monthly sums, the
    generation of monthly summaries and marking a summary paid. */
module ExpenseLedger {
  import opened LedgerTypes
  import opened Allocation
  import opened Regeneration
  import opened Monthly

  /** `t` with the k-th summary marked paid and nothing else changed. */
  function PaidAt(t: seq<ExpenseShareSummary>, k: nat): seq<ExpenseShareSummary>
    requires k < |t|
  {
    t[k := t[k].(paid := true)]
  }

  /** Marking a summary paid is idempotent and changes nothing else. */
  lemma PaidAtIdempotent(t: seq<ExpenseShareSummary>, k: nat)
    requires k < |t|
    ensures |PaidAt(t, k)| == |t| && PaidAt(t, k)[k].paid
    ensures PaidAt(t, k)[k] == t[k].(paid := true)
    ensures forall j :: 0 <= j < |t| && j != k ==> PaidAt(t, k)[j] == t[j]
    ensures PaidAt(PaidAt(t, k), k) == PaidAt(t, k)
  {
  }

  class Ledger {
    var users: seq<User>
    var expenses: seq<Expense>
    var shares: seq<ExpenseShare>
    var summaries: seq<ExpenseShareSummary>
    /** The key the next new expense gets. */
    var nextPk: ExpenseId
    /** The active users each saved expense was last allocated against. */
    ghost var allocatedTo: map<ExpenseId, seq<UserId>>

    ghost predicate Valid()
      reads this
    {
      && UniqueIds(users)
      && Consistent(expenses, shares, nextPk, allocatedTo)
      && (forall k :: 0 <= k < |summaries| ==> ToPayConsistent(summaries[k]))
    }

    constructor (users0: seq<User>)
      requires UniqueIds(users0)
      ensures Valid()
      ensures users == users0 && expenses == [] && shares == [] && summaries == [] && nextPk == 0
    {
      users := users0;
      expenses := [];
      shares := [];
      summaries := [];
      nextPk := 0;
      allocatedTo := map[];
    }

    /** The active users, in table order. */
    function ActiveUsers(): seq<UserId>
      reads this
    {
      ActiveIds(users)
    }

    /** The month's total over the active users; only meaningful when
        someone is active. */
    function PerUserTotal(year: int, month: int): Money
      reads this
    {
      if |ActiveUsers()| == 0 then 0.0 else MonthlyTotal(expenses, year, month) / |ActiveUsers()| as real
    }

    /** The authentication collaborator switching a user's `is_active` flag;
        the shares already stored are left as they are. */
    method SetUserActive(id: UserId, active: bool)
      requires Valid()
      modifies this`users
      ensures Valid()
      ensures |users| == |old(users)|
      ensures forall i :: 0 <= i < |users| ==>
        users[i] == if old(users)[i].id == id then old(users)[i].(isActive := active) else old(users)[i]
    {
      var us := users;
      users := seq(|us|, i requires 0 <= i < |us| => if us[i].id == id then us[i].(isActive := active) else us[i]);
    }

    /** Appends one share per active user for the saved expense `e`. */
    method CreateFromExpense(e: Expense)
      requires e.pk.Some?
      modifies this`shares
      ensures shares == old(shares) + Allocate(e, ActiveUsers())
    {
      var active := ActiveUsers();
      var totalUsers := |active|;
      var created: seq<ExpenseShare> := [];
      for i := 0 to |active|
        invariant created == SharesFor(e, active[..i], totalUsers)
      {
        var user := active[i];
        created := created + [ShareFor(e, user, totalUsers)];
        assert active[..i + 1] == active[..i] + [user];
      }
      assert active[..|active|] == active;
      shares := shares + created;
    }

    /** Deletes the shares of the saved expense `e` and allocates it afresh
        against the users active now. */
    method UpdateFromExpense(e: Expense)
      requires e.pk.Some?
      modifies this`shares
      ensures shares == WithoutExpense(old(shares), e.pk.value) + Allocate(e, ActiveUsers())
    {
      shares := WithoutExpense(shares, e.pk.value);
      CreateFromExpense(e);
    }

    /** Writes the expense row: an unsaved expense is inserted under a new
        key; a saved one overwrites its row, or is inserted under its own key
        when it has no row. */
    method StoreRow(e: Expense) returns (saved: Expense)
      modifies this`expenses, this`nextPk
      ensures saved == e.(pk := Some(SavedPk(e, old(nextPk))))
      ensures expenses == StoreExpense(old(expenses), e, old(nextPk))
      ensures nextPk == NextPkAfter(e, old(nextPk))
    {
      if e.pk.None? {
        saved := e.(pk := Some(nextPk));
        expenses := expenses + [saved];
        nextPk := nextPk + 1;
      } else {
        saved := e;
        var k := PkIndex(expenses, e.pk.value);
        if k.Some? {
          expenses := expenses[k.value := saved];
        } else {
          expenses := expenses + [saved];
        }
        if nextPk <= e.pk.value {
          nextPk := e.pk.value + 1;
        }
      }
    }

    /** Stores the expense, then allocates its shares when it had never been
        saved and regenerates them otherwise. */
    method Save(e: Expense) returns (saved: Expense)
      requires Valid() && e.amount > 0.0
      modifies this`expenses, this`nextPk, this`shares, this`allocatedTo
      ensures Valid()
      ensures saved == e.(pk := Some(SavedPk(e, old(nextPk))))
      ensures expenses == StoreExpense(old(expenses), e, old(nextPk))
      ensures nextPk == NextPkAfter(e, old(nextPk))
      ensures e.pk.None? ==> shares == old(shares) + Allocate(saved, ActiveUsers())
      ensures e.pk.Some? ==> shares == WithoutExpense(old(shares), e.pk.value) + Allocate(saved, ActiveUsers())
      ensures SharesOf(shares, saved.pk.value) == Allocate(saved, ActiveUsers())
      ensures forall id :: id != saved.pk.value ==> SharesOf(shares, id) == SharesOf(old(shares), id)
    {
      ghost var es0, sh0, np0, al0 := expenses, shares, nextPk, allocatedTo;
      var created := e.pk.None?;
      saved := StoreRow(e);
      ghost var np1 := nextPk;
      assert np1 == NextPkAfter(e, np0);
      var pk := saved.pk.value;
      if created {
        CreateFromExpense(saved);
      } else {
        UpdateFromExpense(saved);
      }
      ghost var active := ActiveUsers();
      ActiveIdsDistinct(users);
      SaveStep(es0, sh0, np0, al0, e, active);
      allocatedTo := allocatedTo[pk := active];
      assert nextPk == np1;
    }

    /** The sum of the amounts of the expenses dated in (year, month). */
    method GetMonthlyTotal(year: int, month: int) returns (total: Money)
      ensures total == MonthlyTotal(expenses, year, month)
    {
      var rows := ByMonth(expenses, year, month);
      total := 0.0;
      for i := 0 to |rows|
        invariant total == SumExpenseAmounts(rows[..i])
      {
        total := total + rows[i].amount;
        assert rows[..i + 1][..i] == rows[..i];
      }
      assert rows[..|rows|] == rows;
    }

    /** The month's total split evenly over the active users; a division
        error when there is none. */
    method GetPerUserMonthlyTotal(year: int, month: int) returns (r: Result<Money>)
      ensures r.Success? <==> |ActiveUsers()| > 0
      ensures r.Success? ==> IsQuotient(r.value, MonthlyTotal(expenses, year, month), |ActiveUsers()|)
      ensures r.Failure? ==> (r.error == DivisionUndefined <==> MonthlyTotal(expenses, year, month) == 0.0)
    {
      var monthlyTotal := GetMonthlyTotal(year, month);
      r := Divide(monthlyTotal, |ActiveUsers()|);
    }

    /** The sum of the discounts of `user`'s shares dated in (year, month). */
    method GetMonthlyDiscountedTotal(year: int, month: int, user: UserId) returns (total: Money)
      ensures total == DiscountedTotal(shares, expenses, year, month, user)
    {
      var rows := SharesByMonth(shares, expenses, year, month, user);
      total := 0.0;
      for i := 0 to |rows|
        invariant total == SumDiscounts(rows[..i])
      {
        total := total + rows[i].discount;
        assert rows[..i + 1][..i] == rows[..i];
      }
      assert rows[..|rows|] == rows;
    }

    /** Appends the month's summaries, pairing the k-th active user with
        the k-th grouped row `rows` (the month's discounts summed per user,
        in the order the storage returns them). Fails, writing nothing,
        when no user is active. */
    method CalcMonthlyExpense(year: int, month: int, rows: seq<DiscountRow>) returns (r: Outcome)
      requires Valid() && GroupedDiscounts(rows, shares, expenses, year, month)
      modifies this`summaries
      ensures Valid()
      ensures r.Fail? <==> |ActiveUsers()| == 0
      ensures r.Fail? ==> summaries == old(summaries)
      ensures r.Fail? ==> (r.error == DivisionUndefined <==> MonthlyTotal(expenses, year, month) == 0.0)
      ensures r.Pass? ==>
        summaries == old(summaries) + ZipSummaries(ActiveUsers(), rows, year, month, PerUserTotal(year, month))
    {
      var active := ActiveUsers();
      var monthlyTotal := GetMonthlyTotal(year, month);
      var perUser := Divide(monthlyTotal, |active|);
      if perUser.Failure? {
        return Fail(perUser.error);
      }
      var totalAmount := perUser.value;
      ZipSummariesRows(active, rows, year, month, totalAmount);
      summaries := summaries + ZipSummaries(active, rows, year, month, totalAmount);
      r := Pass;
    }

    /** The same generation, pairing every active user with the grouped row
        that carries that user's identity. */
    method CalcMonthlyExpenseByUser(year: int, month: int, rows: seq<DiscountRow>) returns (r: Outcome)
      requires Valid() && GroupedDiscounts(rows, shares, expenses, year, month)
      modifies this`summaries
      ensures Valid()
      ensures r.Fail? <==> |ActiveUsers()| == 0
      ensures r.Fail? ==> summaries == old(summaries)
      ensures r.Fail? ==> (r.error == DivisionUndefined <==> MonthlyTotal(expenses, year, month) == 0.0)
      ensures r.Pass? ==>
        summaries == old(summaries) + KeyedSummaries(ActiveUsers(), rows, year, month, PerUserTotal(year, month))
      ensures r.Pass? ==> |summaries| == |old(summaries)| + |ActiveUsers()|
      ensures r.Pass? ==> forall k :: 0 <= k < |ActiveUsers()| ==>
        && summaries[|old(summaries)| + k].user == ActiveUsers()[k]
        && summaries[|old(summaries)| + k].totalDiscount == DiscountedTotal(shares, expenses, year, month, ActiveUsers()[k])
    {
      var active := ActiveUsers();
      var monthlyTotal := GetMonthlyTotal(year, month);
      var perUser := Divide(monthlyTotal, |active|);
      if perUser.Failure? {
        return Fail(perUser.error);
      }
      var totalAmount := perUser.value;
      KeyedSummariesCorrect(active, rows, shares, expenses, year, month, totalAmount);
      summaries := summaries + KeyedSummaries(active, rows, year, month, totalAmount);
      r := Pass;
    }

    /** Marks the k-th summary paid. */
    method SetPaid(k: nat)
      requires Valid() && k < |summaries|
      modifies this`summaries
      ensures Valid()
      ensures summaries == PaidAt(old(summaries), k)
    {
      summaries := summaries[k := summaries[k].(paid := true)];
    }
  }
}
