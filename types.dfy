/** The records of the expense ledger: users, expenses, expense shares and
    monthly summaries, together with the error kinds its arithmetic can raise. */
module LedgerTypes {

  type UserId = nat
  type ExpenseId = nat
  type CategoryId = nat

  /** Currency amounts, kept exact. */
  type Money = real

  datatype Option<+T> = None | Some(value: T)

  /** The two ways a decimal division by a zero user count fails: a non-zero
      dividend raises division-by-zero, a zero dividend raises the
      "undefined" invalid operation. */
  datatype Error = DivisionByZero | DivisionUndefined

  datatype Result<+T> = Success(value: T) | Failure(error: Error)

  datatype Outcome = Pass | Fail(error: Error)

  /** A user of the authentication system; only active users take part. */
  datatype User = User(id: UserId, isActive: bool)

  /** The calendar date of an expense, down to the month it falls in. */
  datatype Date = Date(year: int, month: int)

  /** An expense. `pk` is `None` while the record has never been saved. */
  datatype Expense = Expense(
    pk: Option<ExpenseId>,
    paidBy: UserId,
    category: CategoryId,
    amount: Money,
    description: Option<string>,
    createdBy: UserId,
    date: Date)

  /** One user's portion of one expense. */
  datatype ExpenseShare = ExpenseShare(expense: ExpenseId, user: UserId, amount: Money, discount: Money)

  /** One user's rollup for a (year, month). */
  datatype ExpenseShareSummary = ExpenseShareSummary(
    user: UserId,
    year: int,
    month: int,
    totalDiscount: Money,
    totalAmount: Money,
    toPay: Money,
    paid: bool)

  /** One row of the per-user grouped sum of discounts for a month. */
  datatype DiscountRow = DiscountRow(user: UserId, totalDiscount: Money)

  predicate InMonth(d: Date, year: int, month: int) {
    d.year == year && d.month == month
  }

  predicate Distinct(us: seq<UserId>) {
    forall i, j :: 0 <= i < j < |us| ==> us[i] != us[j]
  }

  /** No two user records share an identity. */
  predicate UniqueIds(users: seq<User>) {
    forall i, j :: 0 <= i < j < |users| ==> users[i].id != users[j].id
  }

  /** A summary row whose amount to pay is what it owes less its discount. */
  predicate ToPayConsistent(s: ExpenseShareSummary) {
    s.toPay == s.totalAmount - s.totalDiscount
  }

  function Min(a: nat, b: nat): nat {
    if a <= b then a else b
  }

  /** `q` times `n` is `x`. */
  predicate IsQuotient(q: Money, x: Money, n: nat) {
    q * n as real == x
  }

  /** Decimal division of an amount by a user count. */
  function Divide(x: Money, n: nat): (r: Result<Money>)
    ensures r.Success? <==> n > 0
    ensures r.Success? ==> IsQuotient(r.value, x, n)
    ensures r.Failure? ==> (r.error == DivisionUndefined <==> x == 0.0)
  {
    if n == 0 then
      Failure(if x == 0.0 then DivisionUndefined else DivisionByZero)
    else
      Success(x / n as real)
  }
}
