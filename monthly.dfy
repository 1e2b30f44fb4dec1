/** The monthly projections of the ledger (expenses and shares dated in a
    year and month, and their sums) and the summary rows built from them. */
module Monthly {
  import opened LedgerTypes
  import opened Allocation

  /** The expenses dated in (year, month), in table order. */
  function ByMonth(expenses: seq<Expense>, year: int, month: int): (r: seq<Expense>)
    ensures |r| <= |expenses|
    ensures forall e :: e in r <==> e in expenses && InMonth(e.date, year, month)
  {
    if expenses == [] then []
    else
      var last := expenses[|expenses| - 1];
      ByMonth(expenses[..|expenses| - 1], year, month) + (if InMonth(last.date, year, month) then [last] else [])
  }

  function SumExpenseAmounts(es: seq<Expense>): Money {
    if es == [] then 0.0 else SumExpenseAmounts(es[..|es| - 1]) + es[|es| - 1].amount
  }

  /** The total spent in (year, month). */
  function MonthlyTotal(expenses: seq<Expense>, year: int, month: int): Money {
    SumExpenseAmounts(ByMonth(expenses, year, month))
  }

  /** The month is the one of a saved expense with key `id`. */
  predicate DatedIn(expenses: seq<Expense>, id: ExpenseId, year: int, month: int) {
    exists i :: 0 <= i < |expenses| && expenses[i].pk == Some(id) && InMonth(expenses[i].date, year, month)
  }

  /** The shares of `user` whose expense is dated in (year, month), in table order. */
  function SharesByMonth(shares: seq<ExpenseShare>, expenses: seq<Expense>, year: int, month: int, user: UserId): (r: seq<ExpenseShare>)
    ensures |r| <= |shares|
    ensures forall s :: s in r <==> s in shares && s.user == user && DatedIn(expenses, s.expense, year, month)
  {
    if shares == [] then []
    else
      var last := shares[|shares| - 1];
      SharesByMonth(shares[..|shares| - 1], expenses, year, month, user)
        + (if last.user == user && DatedIn(expenses, last.expense, year, month) then [last] else [])
  }

  /** What `user` gets off in (year, month): the sum of the discounts of the user's shares. */
  function DiscountedTotal(shares: seq<ExpenseShare>, expenses: seq<Expense>, year: int, month: int, user: UserId): Money {
    SumDiscounts(SharesByMonth(shares, expenses, year, month, user))
  }

  /** The month's total is zero when nothing is dated in it, and, amounts
      being positive, positive exactly when something is. */
  lemma {:induction false} MonthlyTotalSign(expenses: seq<Expense>, year: int, month: int)
    requires forall i :: 0 <= i < |expenses| ==> expenses[i].amount > 0.0
    ensures ByMonth(expenses, year, month) == [] ==> MonthlyTotal(expenses, year, month) == 0.0
    ensures MonthlyTotal(expenses, year, month) > 0.0 <==> ByMonth(expenses, year, month) != []
  {
    if expenses != [] {
      var init := expenses[..|expenses| - 1];
      MonthlyTotalSign(init, year, month);
      var last := expenses[|expenses| - 1];
      var r := ByMonth(expenses, year, month);
      if InMonth(last.date, year, month) {
        assert r == ByMonth(init, year, month) + [last];
        assert r[..|r| - 1] == ByMonth(init, year, month);
        assert SumExpenseAmounts(r) == MonthlyTotal(init, year, month) + last.amount;
      } else {
        assert r == ByMonth(init, year, month) + [];
        assert r == ByMonth(init, year, month);
      }
    }
  }

  /** Recording one more expense adds its amount to the total of its own
      month and leaves every other month's total as it was. */
  lemma MonthlyTotalAppend(expenses: seq<Expense>, e: Expense, year: int, month: int)
    ensures MonthlyTotal(expenses + [e], year, month)
         == MonthlyTotal(expenses, year, month) + (if InMonth(e.date, year, month) then e.amount else 0.0)
  {
    assert (expenses + [e])[..|expenses + [e]| - 1] == expenses;
    var r := ByMonth(expenses + [e], year, month);
    if InMonth(e.date, year, month) {
      assert r == ByMonth(expenses, year, month) + [e];
      assert r[..|r| - 1] == ByMonth(expenses, year, month);
    } else {
      assert r == ByMonth(expenses, year, month) + [];
      assert r == ByMonth(expenses, year, month);
    }
  }

  /** A user with no share dated in the month gets nothing off. */
  lemma DiscountedTotalNone(shares: seq<ExpenseShare>, expenses: seq<Expense>, year: int, month: int, user: UserId)
    requires SharesByMonth(shares, expenses, year, month, user) == []
    ensures DiscountedTotal(shares, expenses, year, month, user) == 0.0
  {
  }

  /** The summary row of `user` paired with the grouped row `row`. */
  function SummaryRow(user: UserId, year: int, month: int, row: DiscountRow, totalAmount: Money): ExpenseShareSummary {
    ExpenseShareSummary(user, year, month, row.totalDiscount, totalAmount, totalAmount - row.totalDiscount, false)
  }

  /** The summaries built by pairing the k-th active user with the k-th
      grouped row, as far as the shorter of the two goes. */
  function ZipSummaries(active: seq<UserId>, rows: seq<DiscountRow>, year: int, month: int, totalAmount: Money): seq<ExpenseShareSummary> {
    seq(Min(|active|, |rows|), k requires 0 <= k < Min(|active|, |rows|) => SummaryRow(active[k], year, month, rows[k], totalAmount))
  }

  /** The users that have a grouped row. */
  function RowUsers(rows: seq<DiscountRow>): set<UserId> {
    set k | 0 <= k < |rows| :: rows[k].user
  }

  /** `rows` is what grouping the month's shares by user and summing their
      discounts gives, in some order: one row for each user that has a share
      dated in the month and for no one else, each carrying that user's sum. */
  ghost predicate GroupedDiscounts(rows: seq<DiscountRow>, shares: seq<ExpenseShare>, expenses: seq<Expense>, year: int, month: int) {
    && (forall i, j :: 0 <= i < j < |rows| ==> rows[i].user != rows[j].user)
    && (forall k :: 0 <= k < |rows| ==> rows[k].totalDiscount == DiscountedTotal(shares, expenses, year, month, rows[k].user))
    && (forall u :: u in RowUsers(rows) <==> SharesByMonth(shares, expenses, year, month, u) != [])
  }

  /** The zip yields min(#active users, #grouped rows) summaries, all for
      (year, month), all with the same per-user amount, unpaid, each owing
      its amount less its discount; the k-th goes to the k-th active user
      and takes the k-th row's discount whoever that row belongs to. */
  lemma ZipSummariesRows(active: seq<UserId>, rows: seq<DiscountRow>, year: int, month: int, totalAmount: Money)
    ensures |ZipSummaries(active, rows, year, month, totalAmount)| == Min(|active|, |rows|)
    ensures forall k :: 0 <= k < Min(|active|, |rows|) ==>
      var s := ZipSummaries(active, rows, year, month, totalAmount)[k];
      && s.user == active[k] && s.year == year && s.month == month
      && s.totalAmount == totalAmount && s.totalDiscount == rows[k].totalDiscount
      && ToPayConsistent(s) && !s.paid
  {
  }

  /** Under the hypothesis that the grouped rows come in active-user order,
      every summary carries its own user's discounted total for the month. */
  lemma CoOrderedSummaries(active: seq<UserId>, rows: seq<DiscountRow>, shares: seq<ExpenseShare>,
                           expenses: seq<Expense>, year: int, month: int, totalAmount: Money)
    requires GroupedDiscounts(rows, shares, expenses, year, month)
    requires forall k :: 0 <= k < Min(|active|, |rows|) ==> rows[k].user == active[k]
    ensures forall k :: 0 <= k < Min(|active|, |rows|) ==>
      ZipSummaries(active, rows, year, month, totalAmount)[k].totalDiscount
        == DiscountedTotal(shares, expenses, year, month, active[k])
  {
  }

  /** The discount of `user` in the grouped rows, 0 when it has no row. */
  function LookupDiscount(rows: seq<DiscountRow>, user: UserId): Money {
    if rows == [] then 0.0
    else if rows[0].user == user then rows[0].totalDiscount
    else LookupDiscount(rows[1..], user)
  }

  lemma {:induction false} LookupDiscountFinds(rows: seq<DiscountRow>, user: UserId)
    requires forall i, j :: 0 <= i < j < |rows| ==> rows[i].user != rows[j].user
    ensures user !in RowUsers(rows) ==> LookupDiscount(rows, user) == 0.0
    ensures forall k :: 0 <= k < |rows| && rows[k].user == user ==> LookupDiscount(rows, user) == rows[k].totalDiscount
  {
    if rows != [] {
      LookupDiscountFinds(rows[1..], user);
      assert RowUsers(rows) == {rows[0].user} + RowUsers(rows[1..]) by {
        forall u | u in RowUsers(rows) ensures u in {rows[0].user} + RowUsers(rows[1..]) {
          var k :| 0 <= k < |rows| && rows[k].user == u;
          if k > 0 { assert rows[1..][k - 1].user == u; }
        }
      }
      forall k | 0 <= k < |rows| && rows[k].user == user
        ensures LookupDiscount(rows, user) == rows[k].totalDiscount
      {
        if k > 0 { assert rows[1..][k - 1] == rows[k]; }
      }
    }
  }

  /** The summaries built by pairing every active user with the grouped
      row that carries that user's identity. */
  function KeyedSummaries(active: seq<UserId>, rows: seq<DiscountRow>, year: int, month: int, totalAmount: Money): seq<ExpenseShareSummary> {
    seq(|active|, k requires 0 <= k < |active| =>
      SummaryRow(active[k], year, month, DiscountRow(active[k], LookupDiscount(rows, active[k])), totalAmount))
  }

  /** Pairing by identity gives every active user one summary for (year,
      month), unpaid, owing the per-user amount less exactly the user's own
      discounted total for the month, in whatever order the rows come. */
  lemma KeyedSummariesCorrect(active: seq<UserId>, rows: seq<DiscountRow>, shares: seq<ExpenseShare>,
                              expenses: seq<Expense>, year: int, month: int, totalAmount: Money)
    requires GroupedDiscounts(rows, shares, expenses, year, month)
    ensures |KeyedSummaries(active, rows, year, month, totalAmount)| == |active|
    ensures forall k :: 0 <= k < |active| ==>
      var s := KeyedSummaries(active, rows, year, month, totalAmount)[k];
      && s.user == active[k] && s.year == year && s.month == month && s.totalAmount == totalAmount
      && s.totalDiscount == DiscountedTotal(shares, expenses, year, month, active[k])
      && ToPayConsistent(s) && !s.paid
  {
    forall k | 0 <= k < |active|
      ensures LookupDiscount(rows, active[k]) == DiscountedTotal(shares, expenses, year, month, active[k])
    {
      var u := active[k];
      LookupDiscountFinds(rows, u);
      if u in RowUsers(rows) {
        var j :| 0 <= j < |rows| && rows[j].user == u;
      } else {
        DiscountedTotalNone(shares, expenses, year, month, u);
      }
    }
  }

  /** How many summaries are for (year, month). */
  function CountFor(summaries: seq<ExpenseShareSummary>, year: int, month: int): nat {
    if summaries == [] then 0
    else
      var last := summaries[|summaries| - 1];
      CountFor(summaries[..|summaries| - 1], year, month) + (if last.year == year && last.month == month then 1 else 0)
  }

  /** Appending a block of summaries for (year, month) adds its length to
      that month's count: rows from an earlier run stay, so a second run
      for the same month duplicates them instead of replacing them. */
  lemma {:induction false} CountForAppend(prior: seq<ExpenseShareSummary>, block: seq<ExpenseShareSummary>, year: int, month: int)
    requires forall k :: 0 <= k < |block| ==> block[k].year == year && block[k].month == month
    ensures CountFor(prior + block, year, month) == CountFor(prior, year, month) + |block|
  {
    if block == [] {
      assert prior + block == prior;
    } else {
      var init := block[..|block| - 1];
      CountForAppend(prior, init, year, month);
      assert (prior + block)[..|prior + block| - 1] == prior + init;
    }
  }
}
