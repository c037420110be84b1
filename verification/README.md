# Budget bookkeeping of the finance backend, in Dafny

This project models the budget-aggregation core of an Express/Mongo personal
finance backend. The backend stores spending **transactions**
`{amount, description, date, category, month}` and one **budget** per month. A
budget maps each category name to a line `{limit, spent}`. Every HTTP handler is
modelled as a pure state transition once its database calls are removed. Each
takes a `State` (the transaction list, the month-to-budget map, and the next
record id) and returns a `Step`: the state afterwards plus `Success(payload)`
or `Failure(NotFound | Invalid | Thrown)`. `Thrown` stands for an exception that
the handler's `catch` turns into a 500 response.

The modelled handlers are:

- create a transaction (`CreateTransaction`);
- edit and delete a transaction (`UpdateTransaction`, `DeleteTransaction`);
- the two limit setters, kept apart because they behave differently:
  `PostBudgets` is the route registered in app.js and `SetBudget` is the controller;
- the read-only budget fetch of app.js (`FetchBudget`);
- the reconciling budget fetch of the controller (`Reconcile`);
- the transaction list with its all-months resync (`ResyncAll`).

The app.js budget routes are registered before the router mount, so they shadow
the controller routes for the same paths. Both variants are modelled anyway.

The ground truth behind the stored `spent` values is `Ledger.Total(txns, m, c)`:
the sum of the amounts of the transactions whose stored month is `m` and whose
category is `c`. The `Consistency` module states when the incremental writes keep
every budget line equal to that total, and shows that a reconcile restores it.

Modules:

- `Wrappers`: `Option` and `Result`.
- `Schema`: the persisted shapes, month derivation, the schema defaults and the
  schema's `month` requirement.
- `Ledger`: bucket totals, the two reductions the controllers compute, and
  sum-over-map facts.
- `DateOrder`: the newest-first ordering of the list endpoints.
- `TransactionHandlers`: create, edit and delete.
- `BudgetHandlers`: the budget endpoints and the resync.
- `Consistency`: invariant preservation.
- `Scenarios`: worked request sequences.

Inputs are taken as already-typed values:

- amounts and limits are `int`;
- a request value whose `Number(...)` conversion gives NaN is `None`;
- `Number(x) || 0` is `LimitValue`, which maps `None` to 0.

## Model

| member | source | states |
|---|---|---|
| Schema.MonthOf | controllers/transaction.js:15-16 | The stored month is a prefix of the date, seven characters long, or the whole date when it is shorter (`substring(0, 7)` clamps). |
| Schema.DefaultBudget | Model/budget.js:9-50 | The declared category set is exactly Shopping, Meal, Movie and Other, and each line defaults to limit 0 and spent 0. |
| Schema.CreateBudget | Model/budget.js:4-8 | `month` is required: inserting a budget document fails exactly when the month is empty. Otherwise that one month is added and every other month is kept. |
| Ledger.SpentAmountsTotals | controllers/budget.js:69-78 | The per-month reduction holds exactly the categories that have transactions stored under the month. Each value, or 0 for an absent category, is that bucket's total. |
| Ledger.GroupRows | controllers/getTransaction.js:10-21 | A month appears in the grouping exactly when some transaction is stored under it. Its row equals that month's per-category reduction. |
| Ledger.GroupTotals | controllers/getTransaction.js:10-21 | Every (month, category) with transactions has a grouped cell, and every cell holds the sum of the matching amounts. |
| Ledger.GroupConserves | controllers/getTransaction.js:10-21 | The grouped totals add up to the sum of all amounts: nothing is dropped or double-counted. |
| Ledger.TotalPermutation | controllers/getTransaction.js:7-21 | Grouping the date-sorted list instead of the stored one gives the same bucket totals. |
| DateOrder.SortByDateDesc | controllers/getTransaction.js:7 | The returned list is a permutation of the stored one and is ordered newest date first under string comparison. |
| TransactionHandlers.FindById | app.js:42-43 | The lookup finds the first record with the id, or reports that no record has it. |
| TransactionHandlers.CreateTransaction | controllers/transaction.js:7-72 | A non-numeric amount fails before any write. Otherwise the record is appended with `month = MonthOf(date)`. The (month, category) line becomes `{old limit or 0, old spent or 0 + amount}` in every branch. A missing budget is created with only that category. No other line or month changes. The response carries that line. |
| TransactionHandlers.CreateEmptyDatePartialWrite | controllers/transaction.js:18-37 | An empty date gives an empty month, which the budget schema rejects. The record is still stored and the request fails. |
| TransactionHandlers.CreateKeepsUniqueIds | controllers/transaction.js:18-25 | A created record gets a fresh id, so ids stay distinct. |
| TransactionHandlers.UpdateTransaction | app.js:40-84 | An unknown id gives not-found and changes nothing. Otherwise the body is merged into the record and the reply is the whole list, newest first. No month or category line is created or removed, and no limit changes. |
| TransactionHandlers.UpdateSameAmountAndCategory | app.js:59-63 | Sending the stored amount and category leaves every budget untouched. |
| TransactionHandlers.UpdateTouchesOnlyOriginalMonth | app.js:64-65 | Only the budget of the original date's month can change, even when the body changes the date. |
| TransactionHandlers.UpdateMovesAmount | app.js:67-79 | In the original month, a line loses the old amount if it is the old category and gains the new amount if it is the sent category. A sent category with no line is not created. |
| TransactionHandlers.UpdateSameCategoryDelta | app.js:68-79 | With the category unchanged and its line present, that line's `spent` moves by exactly new minus old. Every other line and all limits are unchanged. |
| TransactionHandlers.DeleteTransaction | app.js:96-117 | An unknown id gives not-found and changes nothing. Otherwise the record is removed. The line of (date month, category) loses exactly the amount if it exists, and nothing else changes. |
| TransactionHandlers.DeleteTwiceNotFound | app.js:99-117 | With unique ids, deleting the same id a second time is not-found. |
| BudgetHandlers.FetchBudget | app.js:132-148 | The fetch never changes the state. It returns the stored budget, or for a month without one the four declared categories at limit 0 and spent 0. |
| BudgetHandlers.PostBudgets | app.js:155-190 | A missing or empty month, or a missing limits object, is rejected with no change. Otherwise each sent category gets `Number(v) || 0` as its limit and keeps its `spent` (0 if new). Unsent categories and other months are untouched. Negative limits are accepted. |
| BudgetHandlers.PostBudgetsIdempotent | app.js:165-188 | Sending the same limits twice yields the state of the first call. |
| BudgetHandlers.SetBudget | controllers/budget.js:6-57 | A missing limits object throws and a negative limit is rejected, both before any read or write; a missing month is rejected too. On an existing budget only the limits of sent categories already present change. No `spent` changes and unknown categories are ignored. A new budget holds exactly the sent categories with `spent` 0. |
| BudgetHandlers.SetBudgetIdempotent | controllers/budget.js:25-45 | Sending the same limits twice yields the state of the first call. |
| BudgetHandlers.LimitSettersDiffer | controllers/budget.js:9-31 | On an existing budget lacking the category, the app.js route adds the category and the controller ignores it. A negative limit is stored by the route and rejected by the controller. |
| BudgetHandlers.Reconcile | controllers/budget.js:61-122 | Transactions are unchanged and only this month's budget is written. The result's categories are the old lines plus every category with transactions that month. Each `spent` is its bucket total, and each limit is the old one or 0. It fails only when a budget would have to be created for an empty month. |
| BudgetHandlers.ReconcileIdempotent | controllers/budget.js:80-107 | A second reconcile of the month changes nothing. |
| BudgetHandlers.ReconcileIgnoresSpent | controllers/budget.js:84-90 | The result does not depend on the previously stored `spent` values. |
| BudgetHandlers.ResyncAll | controllers/getTransaction.js:5-51 | Transactions are unchanged and the reply is them newest first. No month gains a budget. In a month with a budget, each category with transactions gets its total as `spent`, keeping its limit, or 0 for an added line. Every other line is unchanged. |
| BudgetHandlers.ResyncIdempotent | controllers/getTransaction.js:24-45 | A second resync changes nothing. |
| Consistency.CreatePreserves | controllers/transaction.js:27-61 | If stored months match dates, every line equals its total and every record's bucket has a line, a successful create keeps all three. |
| Consistency.CreateEmptyDateBreaksComplete | controllers/transaction.js:18-37 | The failed create with an empty date keeps months matching dates and every line equal to its total. The stored record's bucket has no line, though, so completeness is lost and `CreatePreserves` no longer applies to later creates. |
| Consistency.DeletePreserves | app.js:108-117 | A delete keeps the same three invariants. |
| Consistency.UpdatePreserves | app.js:59-81 | An edit that sends a category and changes neither date nor month keeps months matching dates and every existing line equal to its total. |
| Consistency.UpdateKeepsComplete | app.js:59-79 | An edit that leaves the stored month alone keeps every record's bucket covered, provided the edited record lands in a bucket that already has a line (its sent category, or its own when none is sent). |
| Consistency.UpdateToMissingLineBreaksComplete | app.js:74-77 | An edit that sends a category with no line in the record's month succeeds, but the record's bucket is left without a line, because the edit never creates one. |
| Consistency.UpdateWithoutCategoryDrifts | app.js:59-79 | An edit whose body omits the category still passes the guard, because an absent category differs from the stored one. The old amount comes off the record's line and the new amount is credited nowhere. The record keeps its category, so that line ends short of its total by exactly the new amount, and a non-zero amount breaks consistency. |
| Consistency.ReconcileHeals | controllers/budget.js:69-122 | Whatever drift existed, after a reconcile of a non-empty month every line of it equals its total, and every category with transactions has a line. |
| Consistency.ReconcilePreserves | controllers/budget.js:80-107 | Reconcile keeps every line of every month equal to its total. |
| Scenarios.MealToTravelScenario | app.js:40-117 | Create 50 on Meal, edit it to 80 on Travel, an undeclared category with no line, then delete it. Meal goes 50 then 0, the 80 is credited to no line and no Travel line is created, and a second delete is not-found. |
| Scenarios.EditWithoutCategoryScenario | app.js:59-79 | A consistent store with one 50 on Meal, edited to 80 by a body without a category, succeeds but leaves Meal's line at 0 while its bucket totals 80, so the store is no longer consistent. |
| Scenarios.EditThenCreateScenario | app.js:59-79 | From a consistent, complete store with 50 on Meal, an edit to Travel (no line) keeps every line equal to its total but breaks completeness. A following create of 10 on Travel opens the line at 10 while the bucket totals 60, so the store is no longer consistent. |

## Left out

- HTTP plumbing is not modelled: Express setup, the CORS allow-list, the Mongo connection, process exit and the router module. Status codes, message strings and console logging become the `Error` variants.
- Concurrency is not modelled. Each handler is one atomic step, so the lost updates the `await` gaps between `findOne` and `save`/`updateOne` allow are out of scope.
- Amounts and limits are unbounded `int`, not JavaScript floating-point numbers. There is no rounding and no NaN in stored values.
- JavaScript coercion is not modelled; inputs arrive typed. In particular, the strict `!==` at app.js:61 never compares a string body amount with a stored number.
- Category names that are members of `Object.prototype` (`constructor`, `toString`, `valueOf`, `hasOwnProperty`, …) are ordinary map keys here. The reductions in controllers/budget.js:69-107 and controllers/getTransaction.js:10-45 build plain JavaScript objects, which see inherited values for such names: a total becomes a string concatenated onto a function, a category counts as present so no line is added, or a function is stored as `spent`. The model gives these categories integer totals like any other name.
- TransactionHandlers.UpdateTransaction: an `Edit` always carries a numeric amount. Of the bodies without an amount, only one that also sends a category with a line is out of reach, because app.js:75-76 then credits `Number(undefined)` (NaN) to that line. Any other body without an amount passes the guard at app.js:61 and behaves like an `Edit` that resends the stored amount: the stored amount comes off the record's line and nothing is credited. A description-only edit is of this kind, so it drifts as `Consistency.UpdateWithoutCategoryDrifts` shows. An absent category is modelled.
- Consistency.UpdatePreserves: holds only for an edit that sends a category and leaves date and month alone. Without a category the guard at app.js:61-62 still fires, the old amount is subtracted and the new one is credited to no line (`Consistency.UpdateWithoutCategoryDrifts`). A sent date is stored without recomputing the month, which breaks the month-matches-date invariant, and a sent month moves the record to another bucket while only the original date's month is adjusted. It does not state completeness: an edit to a category with no line leaves the record's bucket uncovered (`Consistency.UpdateToMissingLineBreaksComplete`), after which `CreatePreserves` no longer applies and a later create of that category opens its line below the bucket total (`Scenarios.EditThenCreateScenario`). `Consistency.UpdateKeepsComplete` states when completeness survives.
- Schema.MonthOf: strings are sequences of Unicode scalar values, while JavaScript's `substring` counts UTF-16 code units. The two agree on ASCII dates such as `YYYY-MM-DD`. They differ when a character outside the Basic Multilingual Plane falls in the first seven units, and JavaScript can then split a surrogate pair.
- Mongoose internals are not modelled:
  - the four declared categories are not materialised into every budget document;
  - strict mode does not strip undeclared category keys;
  - `findByIdAndUpdate` casting is left out.
  Budgets hold exactly the lines the handlers write. The only schema validation modelled is the required `month`.
- Persistence failures other than that validation are not modelled (store unavailable, write rejected).
- Database-side sorting is modelled as some newest-first permutation. The order of records with equal dates is unspecified, as it is in the store.
- The model follows the code as written; in particular:
  - an edit to a category with no line does not create that line;
  - a missing limits object in the controller's setter throws, so it is a 500 rather than a validation error;
  - the resync only touches months that already have a budget;
  - the read-only fetch returns the four-category default without writing.
