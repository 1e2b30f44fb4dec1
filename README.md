# Home-expenses ledger, modelled in Dafny

This project models the bookkeeping core of a household expense-splitting
application. A group of users records shared expenses. Each expense is split
over the users active at the time, and its payer gets a discount. Monthly
totals and per-user monthly summaries are derived from those shares, and a
summary can be marked paid.

The model is one `Ledger` class (`ledger.dfy`) that holds, as sequences, the
users table of the authentication system (with each user's `is_active` flag)
and three tables of `source/expenses/models.py`: expenses, expense shares and
expense-share summaries. Its methods are the
module's operations. The share formula, the monthly sums and the summary rows
are pure functions in their own modules, with lemmas about them:

- `types.dfy` (`LedgerTypes`): the records, money (`real`, exact), the
  (year, month) date, and decimal division by a user count with its two
  failure modes.
- `allocation.dfy` (`Allocation`): the share each active user gets of one
  expense, and what those shares add up to.
- `regeneration.dfy` (`Regeneration`): deleting and re-creating an expense's
  shares, and the table invariant that the shares of every saved expense are
  exactly an allocation of it.
- `monthly.dfy` (`Monthly`): expenses and shares dated in a month, their sums,
  and the summary rows built by `calc_monthly_expense`.
- `ledger.dfy` (`ExpenseLedger`): the `Ledger` class, whose methods change
  the tables or compute sums with loops.
- `scenarios.dfy` (`Scenarios`): worked cases, plus three client methods that
  drive a `Ledger` object (`Client`, `ClientTwoExpenses`, `ClientNoActiveUsers`).

Money is exact. The database's rounding to two decimal places is not
modelled, so a share of 100.00 split three ways is exactly 100/3.

Four behaviours of the code are easy to mistake; the model follows the code:

- With the payer active, the `amount` fields of an expense's shares add up to
  amount * (N - 1) / N, not to the amount (`Allocation.AllocationSums`). The
  payer's discount equals that sum.
- With no active user, allocation creates no shares and raises no error.
- `calc_monthly_expense` never deletes the summaries of earlier runs. Running
  it again for the same month appends a second set of rows
  (`Monthly.CountForAppend`).
- Summaries pair users with grouped discount rows by position, not by user
  (see Findings).

The query `values('user').annotate(total_discount=Sum('discount'))` is given
to the summary generation as a parameter `rows`, because the storage returns
its rows in no fixed order. Both summary methods require
`Monthly.GroupedDiscounts` of it, which states what the query guarantees. There
are distinct users, each row carries its user's sum of discounts for the month,
and there is exactly one row for each user with a share in that month. Only the
order of the rows is left open.

`Ledger.SetUserActive` stands in for the authentication system changing a
user's `is_active` flag. It leaves stored shares alone. For that reason the
ghost map `allocatedTo` records the active users each expense was last
allocated against.

## Model

| member | source | states |
|---|---|---|
| `LedgerTypes.Divide` | source/expenses/models.py:96-98 | Dividing a monthly total by the active-user count succeeds exactly when someone is active. The quotient times the count gives back the total (`IsQuotient`). A zero count fails with "undefined" when the total is zero and with division-by-zero otherwise. |
| `Allocation.ActiveIds` | source/expenses/models.py:60-62 | The ids in the result are exactly the ids of the users whose `is_active` flag is set, and there are no more of them than users. |
| `Allocation.ActiveIdsDistinct` | source/expenses/models.py:60-62 | No user appears twice among the active users. |
| `Allocation.AllocateRows` | source/expenses/models.py:73-88 | There is one share per active user, in active-user order, each linked to the expense. The payer's share has amount 0 and discount amount*(N-1)/N. Every other share has amount amount/N and discount 0. With no active user there are no shares. |
| `Allocation.AllocationSums` | source/expenses/models.py:79-83 | With the payer active, the shares' amounts add up to the payer's discount, amount*(N-1)/N, and the discounts add up to the same value. With the payer inactive, the amounts add up to the whole amount, and every share's discount is 0. |
| `Regeneration.SharesOf` | source/expenses/models.py:92 | The shares selected for an expense are exactly the shares that belong to it. |
| `Regeneration.WithoutExpense` | source/expenses/models.py:92 | Deleting an expense's shares keeps exactly the shares of the other expenses. |
| `Regeneration.PkIndex` | source/expenses/models.py:43 | Finds the row that holds a primary key, or reports that no row does. |
| `Regeneration.SharesOfWithout` | source/expenses/models.py:92 | After the delete, the expense has no shares left and every other expense keeps its shares. |
| `Regeneration.Regenerated` | source/expenses/models.py:90-93 | After delete-then-create, the expense's shares are exactly the allocation over the current active users, and every other expense's shares are unchanged. |
| `Regeneration.RegeneratedCount` | source/expenses/models.py:90-93 | After regeneration, the expense has exactly as many shares as there are active users now. |
| `Regeneration.SaveKeepsConsistent` | source/expenses/models.py:41-48 | Saving an expense and allocating or regenerating its shares keeps the invariant: keys are distinct, every share belongs to a saved expense, and each expense's shares are its allocation. |
| `Monthly.ByMonth` | source/expenses/models.py:27-29 | Returns exactly the expenses dated in the (year, month). |
| `Monthly.SharesByMonth` | source/expenses/models.py:64-70 | Returns exactly the user's shares whose expense is dated in the (year, month). |
| `Monthly.MonthlyTotalSign` | source/expenses/models.py:31-39 | The monthly total is 0 when no expense is dated in the month. Since amounts are positive, it is positive exactly when some expense is. |
| `Monthly.MonthlyTotalAppend` | source/expenses/models.py:31-39 | Recording an expense adds its amount to its own month's total and leaves every other month's total unchanged. |
| `Monthly.DiscountedTotalNone` | source/expenses/models.py:100-112 | A user with no share in the month has a discounted total of 0. |
| `Monthly.ZipSummariesRows` | source/expenses/models.py:126-135 | The zip gives min(#active users, #rows) summaries. Each has the given year and month, the same per-user total, `to_pay` = total - discount, and is unpaid. The k-th summary goes to the k-th active user and takes the k-th row's discount. |
| `Monthly.CoOrderedSummaries` | source/expenses/models.py:119-134 | If the k-th row belongs to the k-th active user, every summary carries its own user's discounted total for the month. |
| `Monthly.KeyedSummariesCorrect` | source/expenses/models.py:119-135 | Pairing by user identity gives every active user one summary with that user's own discounted total, whatever order the rows come in. |
| `Monthly.CountForAppend` | source/expenses/models.py:126-135 | Appending a run's summaries raises that month's row count by the run's size; earlier rows stay. |
| `ExpenseLedger.PaidAtIdempotent` | source/expenses/models.py:150-152 | Marking a summary paid sets `paid`, changes no other field and no other summary, and doing it twice is the same as doing it once. |
| `ExpenseLedger.Ledger.CreateFromExpense` | source/expenses/models.py:72-88 | Appends exactly the allocation of the expense over the current active users to the share table. |
| `ExpenseLedger.Ledger.UpdateFromExpense` | source/expenses/models.py:90-93 | Deletes the expense's shares, then appends its allocation over the current active users. |
| `ExpenseLedger.Ledger.StoreRow` | source/expenses/models.py:41-43 | Writes the expense row. An unsaved expense is appended under a new key. A saved one overwrites its row, or is inserted when it has none. |
| `ExpenseLedger.Ledger.Save` | source/expenses/models.py:41-48 | A new expense's allocation is appended. A saved expense's shares are regenerated. Either way its shares end up equal to the allocation over the current active users, every other expense's shares are unchanged, the next key is advanced past the saved one, and the invariant holds. |
| `ExpenseLedger.Ledger.GetMonthlyTotal` | source/expenses/models.py:31-39 | Returns the sum of the amounts of the expenses dated in the month. |
| `ExpenseLedger.Ledger.GetPerUserMonthlyTotal` | source/expenses/models.py:95-98 | Succeeds exactly when someone is active, and then returns the monthly total divided by the active count. With no active user it returns the division error. |
| `ExpenseLedger.Ledger.GetMonthlyDiscountedTotal` | source/expenses/models.py:100-112 | Returns the sum of the discounts of the user's shares dated in the month. |
| `ExpenseLedger.Ledger.CalcMonthlyExpense` | source/expenses/models.py:114-135 | Takes rows that are a correct grouping of the month's shares. Fails and writes nothing when no user is active. Otherwise it appends the zipped summaries (monthly total / N each) after the existing rows, which stay untouched. |
| `ExpenseLedger.Ledger.CalcMonthlyExpenseByUser` | source/expenses/models.py:114-135 | The same generation, with every active user paired with the row bearing their identity. Given rows that are a correct grouping of the month's shares, it appends exactly one summary per active user, in order, and each carries that user's own discounted total for the month. |
| `ExpenseLedger.Ledger.SetPaid` | source/expenses/models.py:150-152 | Sets `paid` on that summary and changes nothing else. |
| `Scenarios.ThreeWaySplit` | source/expenses/models.py:79-83 | 90.00 paid by Alice with three active users: Alice gets 0 with a 60.00 discount; Bob and Carol owe 30.00 each. |
| `Scenarios.SplitAfterDeactivation` | source/expenses/models.py:79-83 | The same expense split over Alice and Carol: Alice gets 0 with a 45.00 discount; Carol owes 45.00. |
| `Scenarios.MarchSummaries` | source/expenses/models.py:115-135 | The March summaries for that dinner owe -30.00, 30.00 and 30.00. |
| `Scenarios.ZipMisattributes` | source/expenses/models.py:134 | A correct grouping in a different order makes the zip give Alice Bob's 30.00 discount, although Alice's own discounted total is 0. |

## Left out

- Web views, templates, URL routing, the admin site, the forms, the request
  mixins, the chat-bot, the monthly management command and the migrations.
  These are rendering, request parsing, network and clock code.
- The rule `amount > 0` from the expense form is a precondition of `Ledger.Save`.
- The database's rounding to 2 decimal places and its 8-digit limit, and
  the decimal context's precision. Money is an exact `real`. The float
  `0.0` literals are exact zeros.
- Transactions, atomicity and concurrent runs. The model is sequential.
- The iteration order of the active-user query. The model takes table order.
  The order of the grouped discount rows is a parameter.
- Category, description and `created_by` are carried on the expense and play no
  part. `__str__` formatting is not modelled.
- Cascade deletion. No core operation deletes an expense or a user.
- Keys of share and summary rows. Shares point to their expense by key; a summary
  is addressed by its position in the table.
- `Save` ignores the keyword arguments passed through to the storage layer.

## Findings

| source | as written | input that shows it | evidently intended | confidence | as-written member | corrected member |
|---|---|---|---|---|---|---|
| source/expenses/models.py:134 | `zip(users, shares)` pairs the k-th active user with the k-th grouped discount row, whoever that row belongs to. It also stops at the shorter of the two. | Groceries of 60.00 paid by Bob, with Alice and Bob active. The grouped rows come back as [Bob: 30.00, Alice: 0.00]. Alice's summary gets discount 30.00 and owes 0.00, while Bob owes 30.00. | Each active user's summary carries that user's own discount total for the month. | medium (not executed) | `Scenarios.ZipMisattributes` | `Monthly.KeyedSummariesCorrect` |

The as-written pairing is `Monthly.ZipSummaries`, used by
`ExpenseLedger.Ledger.CalcMonthlyExpense`. The corrected pairing is
`Monthly.KeyedSummaries`, used by `ExpenseLedger.Ledger.CalcMonthlyExpenseByUser`.
