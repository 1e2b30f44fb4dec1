/** Worked cases of the ledger: a three-way split, its regeneration after a
    user is deactivated, a month's summaries, and the grouped-row order that
    makes the positional pairing give a user another user's discount. */
module Scenarios {
  import opened LedgerTypes
  import opened Allocation
  import opened Monthly
  import opened ExpenseLedger
  import Regeneration

  const Alice: UserId := 1
  const Bob: UserId := 2
  const Carol: UserId := 3

  /** 90.00 paid by Alice in March 2024, saved under key 0. */
  function Dinner(): Expense {
    Expense(Some(0), Alice, 0, 90.0, None, Alice, Date(2024, 3))
  }

  /** With Alice, Bob and Carol active, Alice's share is zero with a discount
      of 60.00, and Bob and Carol owe 30.00 each. */
  lemma ThreeWaySplit()
    ensures Allocate(Dinner(), [Alice, Bob, Carol])
         == [ExpenseShare(0, Alice, 0.0, 60.0), ExpenseShare(0, Bob, 30.0, 0.0), ExpenseShare(0, Carol, 30.0, 0.0)]
  {
    var us := [Alice, Bob, Carol];
    AllocateRows(Dinner(), us);
    var r := Allocate(Dinner(), us);
    assert PayerDiscount(90.0, 3) == 60.0;
    assert r[0] == ExpenseShare(0, Alice, 0.0, 60.0);
    assert r[1] == ExpenseShare(0, Bob, 30.0, 0.0);
    assert r[2] == ExpenseShare(0, Carol, 30.0, 0.0);
  }

  /** Once Bob is inactive, regenerating the same expense leaves two shares:
      Alice's with a discount of 45.00 and Carol's of 45.00. */
  lemma SplitAfterDeactivation()
    ensures Allocate(Dinner(), [Alice, Carol])
         == [ExpenseShare(0, Alice, 0.0, 45.0), ExpenseShare(0, Carol, 45.0, 0.0)]
  {
    var us := [Alice, Carol];
    AllocateRows(Dinner(), us);
    var r := Allocate(Dinner(), us);
    assert PayerDiscount(90.0, 2) == 45.0;
    assert r[0] == ExpenseShare(0, Alice, 0.0, 45.0);
    assert r[1] == ExpenseShare(0, Carol, 45.0, 0.0);
  }

  /** The same dinner as the only expense of March 2024, its three shares,
      and the grouped rows in active-user order. */
  function MarchShares(): seq<ExpenseShare> {
    [ExpenseShare(0, Alice, 0.0, 60.0), ExpenseShare(0, Bob, 30.0, 0.0), ExpenseShare(0, Carol, 30.0, 0.0)]
  }

  /** Every summary owes the per-user amount 30.00 less its discount: Alice
      -30.00, Bob and Carol 30.00, so the amounts to pay add up to 30.00
      rather than to zero. */
  lemma MarchSummaries()
    ensures ZipSummaries([Alice, Bob, Carol], [DiscountRow(Alice, 60.0), DiscountRow(Bob, 0.0), DiscountRow(Carol, 0.0)],
                         2024, 3, MonthlyTotal([Dinner()], 2024, 3) / 3.0)
         == [ExpenseShareSummary(Alice, 2024, 3, 60.0, 30.0, -30.0, false),
             ExpenseShareSummary(Bob, 2024, 3, 0.0, 30.0, 30.0, false),
             ExpenseShareSummary(Carol, 2024, 3, 0.0, 30.0, 30.0, false)]
  {
    assert [Dinner()][..0] == [];
    assert ByMonth([Dinner()], 2024, 3) == [Dinner()];
    assert MonthlyTotal([Dinner()], 2024, 3) == 90.0;
  }

  /** 60.00 paid by Bob in March 2024, with Alice and Bob active. */
  function Groceries(): Expense {
    Expense(Some(0), Bob, 0, 60.0, None, Bob, Date(2024, 3))
  }

  function GroceryShares(): seq<ExpenseShare> {
    [ExpenseShare(0, Alice, 30.0, 0.0), ExpenseShare(0, Bob, 0.0, 30.0)]
  }

  lemma GrocerySharesByMonth(u: UserId)
    ensures SharesByMonth(GroceryShares(), [Groceries()], 2024, 3, u)
         == if u == Alice then [ExpenseShare(0, Alice, 30.0, 0.0)]
            else if u == Bob then [ExpenseShare(0, Bob, 0.0, 30.0)]
            else []
  {
    var s := GroceryShares();
    assert DatedIn([Groceries()], 0, 2024, 3) by {
      assert [Groceries()][0].pk == Some(0);
    }
    assert s[..1] == [s[0]];
    assert s[..1][..0] == [];
  }

  /** The storage may return the grouped rows with Bob's first. The rows are
      a correct grouping of March's shares, yet the zip gives Alice, the
      first active user, Bob's discount of 30.00 although Alice has none. */
  lemma ZipMisattributes()
    ensures GroupedDiscounts([DiscountRow(Bob, 30.0), DiscountRow(Alice, 0.0)], GroceryShares(), [Groceries()], 2024, 3)
    ensures var s := ZipSummaries([Alice, Bob], [DiscountRow(Bob, 30.0), DiscountRow(Alice, 0.0)], 2024, 3, 30.0)[0];
      && s.user == Alice
      && s.totalDiscount == 30.0
      && DiscountedTotal(GroceryShares(), [Groceries()], 2024, 3, Alice) == 0.0
  {
    var rows := [DiscountRow(Bob, 30.0), DiscountRow(Alice, 0.0)];
    GrocerySharesByMonth(Alice);
    GrocerySharesByMonth(Bob);
    var a := [ExpenseShare(0, Alice, 30.0, 0.0)];
    var b := [ExpenseShare(0, Bob, 0.0, 30.0)];
    assert a[..0] == [] && b[..0] == [];
    assert RowUsers(rows) == {Bob, Alice} by {
      assert rows[0].user == Bob && rows[1].user == Alice;
    }
    forall u ensures u in RowUsers(rows) <==> SharesByMonth(GroceryShares(), [Groceries()], 2024, 3, u) != [] {
      GrocerySharesByMonth(u);
    }
  }

  lemma ActiveOfThree(bobActive: bool)
    ensures ActiveIds([User(Alice, true), User(Bob, bobActive), User(Carol, true)])
         == if bobActive then [Alice, Bob, Carol] else [Alice, Carol]
  {
    var us := [User(Alice, true), User(Bob, bobActive), User(Carol, true)];
    assert us[..2] == [User(Alice, true), User(Bob, bobActive)];
    assert us[..2][..1] == [User(Alice, true)];
    assert us[..2][..1][..0] == [];
    assert ActiveIds(us[..2][..1]) == [Alice];
    assert ActiveIds(us[..2]) == if bobActive then [Alice, Bob] else [Alice];
  }

  /** A client of the ledger: an expense saved with three active users gets
      three shares; after Bob is deactivated, saving it again leaves the
      two shares of Alice and Carol. */
  method Client() {
    var ledger := new Ledger([User(Alice, true), User(Bob, true), User(Carol, true)]);
    var dinner := SaveDinner(ledger);
    assert dinner == Dinner();
    ledger.SetUserActive(Bob, false);
    assert ledger.users[0] == User(Alice, true) && ledger.users[1] == User(Bob, false) && ledger.users[2] == User(Carol, true);
    assert ledger.users == [User(Alice, true), User(Bob, false), User(Carol, true)];
    ResaveDinner(ledger);
    assert Regeneration.SharesOf(ledger.shares, 0)
        == [ExpenseShare(0, Alice, 0.0, 45.0), ExpenseShare(0, Carol, 45.0, 0.0)];
  }

  /** The second half of `Client`: with Bob inactive, saving the dinner again
      regenerates its shares over Alice and Carol. */
  method ResaveDinner(ledger: Ledger)
    requires ledger.Valid() && ledger.users == [User(Alice, true), User(Bob, false), User(Carol, true)]
    modifies ledger
    ensures Regeneration.SharesOf(ledger.shares, 0)
         == [ExpenseShare(0, Alice, 0.0, 45.0), ExpenseShare(0, Carol, 45.0, 0.0)]
  {
    ActiveOfThree(false);
    assert ledger.ActiveUsers() == [Alice, Carol];
    var dinner := ledger.Save(Dinner());
    SplitAfterDeactivation();
  }

  /** The first half of `Client`: the dinner saved into a fresh ledger with
      all three users active gets key 0 and the three-way split. */
  method SaveDinner(ledger: Ledger) returns (dinner: Expense)
    requires ledger.Valid() && ledger.nextPk == 0 && ledger.expenses == [] && ledger.shares == []
    requires ledger.users == [User(Alice, true), User(Bob, true), User(Carol, true)]
    modifies ledger
    ensures ledger.Valid() && ledger.users == old(ledger.users)
    ensures dinner == Dinner()
    ensures Regeneration.SharesOf(ledger.shares, 0) == MarchShares()
  {
    ActiveOfThree(true);
    assert ledger.ActiveUsers() == [Alice, Bob, Carol];
    dinner := ledger.Save(Expense(None, Alice, 0, 90.0, None, Alice, Date(2024, 3)));
    ThreeWaySplit();
  }

  /** Two new expenses saved into a fresh ledger get the keys 0 and 1. */
  method ClientTwoExpenses() {
    var ledger := new Ledger([User(Alice, true), User(Bob, true)]);
    var first := ledger.Save(Expense(None, Alice, 0, 90.0, None, Alice, Date(2024, 3)));
    var second := ledger.Save(Groceries().(pk := None));
    assert first.pk == Some(0) && second.pk == Some(1);
    assert ledger.nextPk == 2;
  }

  /** With nobody active, generating March's summaries fails on the division
      and writes no summary. */
  method ClientNoActiveUsers() {
    var ledger := new Ledger([User(Alice, false)]);
    assert [User(Alice, false)][..0] == [];
    assert ledger.ActiveUsers() == [];
    var r := ledger.CalcMonthlyExpense(2024, 3, []);
    assert r.Fail? && ledger.summaries == [];
  }
}
