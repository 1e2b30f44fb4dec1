/** The allocation of one expense over the active users: every active user
    gets a share, the payer's share is zero and carries a discount of
    what the others owe. */
module Allocation {
  import opened LedgerTypes

  /** The identities of the active users, in table order. */
  function ActiveIds(users: seq<User>): (r: seq<UserId>)
    ensures |r| <= |users|
    ensures forall i :: 0 <= i < |users| && users[i].isActive ==> users[i].id in r
    ensures forall u :: u in r ==> exists i :: 0 <= i < |users| && users[i].isActive && users[i].id == u
  {
    if users == [] then []
    else
      var last := users[|users| - 1];
      ActiveIds(users[..|users| - 1]) + (if last.isActive then [last.id] else [])
  }

  lemma {:induction false} ActiveIdsDistinct(users: seq<User>)
    requires UniqueIds(users)
    ensures Distinct(ActiveIds(users))
  {
    if users != [] {
      var init := users[..|users| - 1];
      ActiveIdsDistinct(init);
      var last := users[|users| - 1];
      if last.isActive {
        var r0 := ActiveIds(init);
        assert last.id !in r0 by {
          forall i | 0 <= i < |init| ensures init[i].id != last.id {
            assert init[i] == users[i];
          }
        }
        assert ActiveIds(users) == r0 + [last.id];
      }
    }
  }

  /** The share user `u` gets of the saved expense `e` when `n` users are
      active: amount / n for everyone but the payer, whose share is zero and
      who gets the payer discount instead. */
  function ShareFor(e: Expense, u: UserId, n: nat): ExpenseShare
    requires e.pk.Some? && n > 0
  {
    var amount := if u != e.paidBy then e.amount / n as real else 0.0;
    var discount := if u == e.paidBy then PayerDiscount(e.amount, n) else 0.0;
    ExpenseShare(e.pk.value, u, amount, discount)
  }

  /** The shares of the users `us`, in order, `n` being the active count. */
  function SharesFor(e: Expense, us: seq<UserId>, n: nat): seq<ExpenseShare>
    requires e.pk.Some? && (n > 0 || us == [])
  {
    if us == [] then [] else SharesFor(e, us[..|us| - 1], n) + [ShareFor(e, us[|us| - 1], n)]
  }

  /** The shares of expense `e` over the active users `active`. */
  function Allocate(e: Expense, active: seq<UserId>): seq<ExpenseShare>
    requires e.pk.Some?
  {
    SharesFor(e, active, |active|)
  }

  /** What the payer gets off: the amount times (N - 1) / N. */
  function PayerDiscount(amount: Money, n: nat): Money
    requires n > 0
  {
    (amount * (n - 1) as real) / n as real
  }

  function SumAmounts(s: seq<ExpenseShare>): Money {
    if s == [] then 0.0 else SumAmounts(s[..|s| - 1]) + s[|s| - 1].amount
  }

  function SumDiscounts(s: seq<ExpenseShare>): Money {
    if s == [] then 0.0 else SumDiscounts(s[..|s| - 1]) + s[|s| - 1].discount
  }

  /** How many times `p` occurs in `us`. */
  function Count(us: seq<UserId>, p: UserId): (c: nat)
    ensures c <= |us|
    ensures c == 0 <==> p !in us
  {
    if us == [] then 0 else Count(us[..|us| - 1], p) + (if us[|us| - 1] == p then 1 else 0)
  }

  lemma {:induction false} CountDistinct(us: seq<UserId>, p: UserId)
    requires Distinct(us)
    ensures Count(us, p) == if p in us then 1 else 0
  {
    if us != [] {
      var init := us[..|us| - 1];
      CountDistinct(init, p);
    }
  }

  lemma {:induction false} SharesForRows(e: Expense, us: seq<UserId>, n: nat)
    requires e.pk.Some? && n > 0
    ensures |SharesFor(e, us, n)| == |us|
    ensures forall k :: 0 <= k < |us| ==> SharesFor(e, us, n)[k] == ShareFor(e, us[k], n)
  {
    if us != [] {
      SharesForRows(e, us[..|us| - 1], n);
    }
  }

  /** One share per active user, in active-user order, each linked to the
      expense; the payer's share is zero with the payer discount, every
      other share is amount / N with no discount. With no active user there
      is no share at all. */
  lemma AllocateRows(e: Expense, active: seq<UserId>)
    requires e.pk.Some?
    ensures |Allocate(e, active)| == |active|
    ensures forall k :: 0 <= k < |active| ==>
      var s := Allocate(e, active)[k];
      && s.expense == e.pk.value
      && s.user == active[k]
      && (active[k] == e.paidBy ==> s.amount == 0.0 && s.discount == PayerDiscount(e.amount, |active|))
      && (active[k] != e.paidBy ==> s.amount == e.amount / |active| as real && s.discount == 0.0)
  {
    if active != [] {
      SharesForRows(e, active, |active|);
    }
  }

  /** `k` copies of `q` added up. */
  function Repeat(k: nat, q: Money): Money {
    if k == 0 then 0.0 else Repeat(k - 1, q) + q
  }

  lemma {:induction false} RepeatIsProduct(k: nat, q: Money)
    ensures Repeat(k, q) == k as real * q
  {
    if k > 0 {
      RepeatIsProduct(k - 1, q);
      MulSucc(k - 1, q);
    }
  }

  lemma {:induction false} SharesForSums(e: Expense, us: seq<UserId>, n: nat)
    requires e.pk.Some? && n > 0
    ensures SumAmounts(SharesFor(e, us, n)) == Repeat(|us| - Count(us, e.paidBy), e.amount / n as real)
    ensures SumDiscounts(SharesFor(e, us, n)) == Repeat(Count(us, e.paidBy), PayerDiscount(e.amount, n))
  {
    if us != [] {
      var init := us[..|us| - 1];
      SharesForSums(e, init, n);
      var s := SharesFor(e, us, n);
      assert s[..|s| - 1] == SharesFor(e, init, n);
    }
  }

  /** The sums of an allocation over distinct active users. With the payer
      active, the shares' amounts add up to the payer's discount (what the
      others owe), which is amount * (N - 1) / N, and not to the amount.
      With the payer inactive, the amounts add up to the whole amount and no
      share carries a discount. */
  lemma AllocationSums(e: Expense, active: seq<UserId>)
    requires e.pk.Some? && Distinct(active) && |active| > 0
    ensures e.paidBy in active ==>
      && SumAmounts(Allocate(e, active)) == PayerDiscount(e.amount, |active|)
      && SumDiscounts(Allocate(e, active)) == PayerDiscount(e.amount, |active|)
    ensures e.paidBy !in active ==>
      && SumAmounts(Allocate(e, active)) == e.amount
      && SumDiscounts(Allocate(e, active)) == 0.0
      && forall k :: 0 <= k < |Allocate(e, active)| ==> Allocate(e, active)[k].discount == 0.0
  {
    var n := |active|;
    SharesForSums(e, active, n);
    CountDistinct(active, e.paidBy);
    if e.paidBy in active {
      PayerActiveSums(e.amount, n);
    } else {
      RepeatIsProduct(n, e.amount / n as real);
      ShareOfCount(e.amount, n);
      AllocateRows(e, active);
    }
  }

  /** With the payer among the n active users, the n - 1 others' shares and
      the payer's one discount both come to amount * (n - 1) / n. */
  lemma PayerActiveSums(a: Money, n: nat)
    requires n > 0
    ensures Repeat(n - 1, a / n as real) == PayerDiscount(a, n)
    ensures Repeat(1, PayerDiscount(a, n)) == PayerDiscount(a, n)
  {
    var q := a / n as real;
    var k: nat := n - 1;
    RepeatIsProduct(k, q);
    ShareOfCount(a, n);
    assert k as real * q == PayerDiscount(a, n);
    RepeatIsProduct(1, PayerDiscount(a, n));
  }

  lemma MulSucc(k: int, q: real)
    ensures (k + 1) as real * q == k as real * q + q
  {
  }

  lemma ShareOfCount(a: real, n: nat)
    requires n > 0
    ensures n as real * (a / n as real) == a
    ensures (n - 1) as real * (a / n as real) == PayerDiscount(a, n)
  {
  }
}
