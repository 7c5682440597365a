# Expense Tracker: a Dafny model of its core

Expense Tracker is a personal-finance web application. An Express/Mongoose backend stores one
user's transactions and recurring rules. A React dashboard shows the transactions with
totals, a monthly series, a category breakdown and a month-over-month comparison. This
project models the parts of it that decide what is stored and what is shown:

- **Records** (`records.dfy`): the two schemas, Transaction and RecurringTransaction. It
  covers their required paths, the `type` and `frequency` enums, and the rule's defaults
  (name "Recurring Transaction", trimmed; `isActive` true; `startDate` now). Validation
  returns either the record or the set of failing paths.
- **Civil dates** (`civil_date.dfy`): JavaScript's local `Date` arithmetic.
  - `setDate`, `setMonth` and `setFullYear` are written out with their overflow
    normalisation: 31 January plus one month is 3 March, and 29 February plus one year is
    1 March.
  - Each date is mapped to a proleptic Gregorian day number, so that order and distance
    between dates are stated exactly.
- **Store** (`db.dfy`): the two collections as a class with `seq` fields and an id counter.
  Its `find`, `create`, `insertMany`, `save` and `deleteOne` are methods whose contracts
  give the whole new state.
- **Recurring processor** (`recurring_processor.dfy`): `processRecurringTransactions`.
  - A `while` loop over the stored rules emits one transaction per due rule, dated at the
    rule's due date.
  - The same loop advances each due rule by exactly one period.
  - The emitted transactions are then inserted together.
  - Further lemmas cover repeated runs: a rule k periods overdue needs k runs, and the dates
    it emits over successive runs strictly increase.
- **Route handlers** (`recurring_routes.dfy`, `transaction_controller.dfy`):
  - The recurring routes: GET, which processes and then lists; POST, which creates with
    `nextDueDate = startDate` and then processes; DELETE, which answers 404, 401 or removes.
  - The transaction controller: get, which filters to the owner and sorts newest first; add,
    which rejects a falsy field with 400; delete, which answers 404, 401, 401 or removes.
- **Analytics** (`analytics.dfy`, `verify_analytics.dfy`):
  - `detectAnomalies` with its per-category grouping loop, including the TypeError that loop
    throws on a category named after a member every plain object inherits.
  - `calculateTrends` and `predictMonthEnd`, with the clock as a parameter.
  - The z-score variant `detectAnomaliesTest` and `predictMonthEndTest`. For these, it is
    proved via Samuelson's inequality that the z-score never exceeds 2 on five or fewer
    expenses.
- **Dashboard** (`dashboard_stats.dfy`, `dashboard_state.dfy`):
  - The page's computations: totals and savings rate, the monthly series (proved sorted,
    duplicate-free and summing to the totals) and the category breakdown (first-occurrence
    order, one slice per category, values summing to total expenses).
  - `calculateChange` and the month filter, pagination and "available months" list.
  - A `Dashboard` class holding the page state and its handlers: category add, delete and
    edit; submit; transaction delete; month selection; page navigation.

Modelling conventions:
- Amounts are integers. Means, variances and percentages are reals, and `Math.round(x)` is
  the integer r with x − 0.5 < r ≤ x + 0.5.
- A square root is never taken: `z > 2` is stated as `amount > mean` together with
  `(amount − mean)² > 4·variance`.
- Months are 0..11, as `getMonth()` returns them.
- Ids are natural numbers handed out by the store's counter.
- The clock (`new Date()`) is a `now`/`today` parameter.
- The server's answer to a dashboard request enters as a parameter:
  - `delivered` says whether the categories PUT resolved;
  - `stored` is the transaction the POST returned, if it succeeded;
  - `completed` says whether the DELETE resolved.

Two behaviours of the code run against what its own text suggests:

- **The z-score script.** `frontend/verify_analytics.js` marks the 5000 laptop in its
  five-item mock list as the anomaly (the `// Anomaly` comment at line 10), and calls the
  2.0 threshold one lowered "to trigger for this small dataset" (line 48). Yet that item's
  z-score is about 1.994, below the threshold. By Samuelson's inequality no z-score over
  five values can exceed 2, so the script reports nothing (`VerifyAnalytics.FiveOrFewerNeverFlagged`,
  `VerifyAnalytics.MockLaptopNotFound`).
- **`predictMonthEnd` on day 1.** The code guards only `dayOfMonth === 0`, which never
  happens because `getDate()` is at least 1. So on day 1 the day's total is divided by 1 and
  projected over the whole month (`Analytics.PredictMonthEndBounds`).

Two more consequences of expenses being stored negative (`dashboard.tsx:177`) are stated as
lemmas:
- `calculateTrends` reports "up" exactly when spending has fallen
  (`Analytics.TrendUpWhenSpendingFalls`).
- `predictMonthEnd` projects a figure at or below this month's (non-positive) sum, which
  follows from `Analytics.PredictMonthEndBounds`.

## Model

| member | source | states |
|---|---|---|
| Records.ParseKind | backend/src/models/Transaction.js:8 | a `type` string is accepted exactly when it is "income" or "expense", and the parsed kind prints back as the same string |
| Records.ParseFrequency | backend/src/models/RecurringTransaction.js:27-31 | a `frequency` string is accepted exactly when it is one of daily/weekly/monthly/yearly, and the parsed value prints back as the same string |
| Records.TransactionErrors | backend/src/models/Transaction.js:3-10 | a transaction draft passes validation iff user, amount, a non-empty category, a listed type and a date are all present; name is optional |
| Records.NewTransaction | backend/src/models/Transaction.js:3-10 | creation fails exactly when validation reports errors, with those errors; a created record holds exactly the draft's fields, the name staying absent when not given (no schema default) |
| Records.RuleErrors | backend/src/models/RecurringTransaction.js:3-46 | a rule draft passes iff user, amount, non-empty category, listed type, listed frequency and nextDueDate are present; name, startDate and isActive never fail |
| Records.NewRule | backend/src/models/RecurringTransaction.js:9-43 | a created rule holds the draft's fields, with name trimmed or "Recurring Transaction" when absent, isActive true unless given false, and startDate defaulting to now; an invalid draft is an error with its failing paths |
| Text.Trim | backend/src/models/RecurringTransaction.js:11 | the trimmed string is the contiguous middle of the input with only whitespace cut from both ends, and neither of its ends is whitespace; whitespace is JavaScript's: tab, vertical tab, form feed, byte-order mark, every Unicode space separator, and the four line terminators |
| Text.TrimEmptyIffBlank | frontend/src/pages/dashboard.tsx:134 | `s.trim()` is empty (falsy) exactly when s is all whitespace |
| Text.TrimIdempotent | backend/src/models/RecurringTransaction.js:11 | trimming a trimmed name changes nothing |
| Text.WideSpacesTrimmed | frontend/src/pages/dashboard.tsx:134 | an ideographic space (U+3000) is trimmed off a category name, and an em space (U+2003) alone counts as blank |
| CivilDate.DaysInMonth | frontend/src/utils/analytics.ts:62 | a month has 28 to 31 days, and February has 29 exactly in a leap year |
| CivilDate.PrevMonth | frontend/src/utils/analytics.ts:44-46 | the previous calendar month (January to December of the year before) is the month whose next month is the given one |
| CivilDate.NormalizeFacts | backend/src/utils/recurringProcessor.js:26-30 | JavaScript date normalisation of (y, m, d) yields a valid date denoting the same day number, and leaves an already valid date unchanged |
| CivilDate.AddDaysLength | backend/src/utils/recurringProcessor.js:27-28 | `setDate(getDate() + k)` moves the date by exactly k days and yields a valid date |
| CivilDate.AddOneMonthLength | backend/src/utils/recurringProcessor.js:29 | `setMonth(getMonth() + 1)` moves the date forward by the length of its own month and yields a valid date |
| CivilDate.AddOneMonthExact | backend/src/utils/recurringProcessor.js:29 | one month later is the same day of the next month when that month has it; otherwise the overflow days run into the month after |
| CivilDate.AddOneYearLength | backend/src/utils/recurringProcessor.js:30 | `setFullYear(getFullYear() + 1)` moves the date forward by 365 or 366 days and yields a valid date |
| CivilDate.AddOneYearExact | backend/src/utils/recurringProcessor.js:30 | one year later keeps month and day, except that 29 February becomes 1 March |
| CivilDate.DayZeroIsLastDay | frontend/src/utils/analytics.ts:62 | `new Date(y, m + 1, 0)` is the last day of month m |
| Db.WithIds | backend/src/utils/recurringProcessor.js:36-37 | `insertMany` keeps the documents' order and every field but the id; the new ids are consecutive from the first fresh one, strictly increasing (so pairwise distinct) and all within [first, first + count) |
| Db.Store.constructor | backend/src/models/Transaction.js:12 | both collections start empty, and the store's id invariant holds |
| Db.Store.FindRule | backend/src/routes/recurring.js:50 | `findById` finds a rule with that id, or reports that no stored rule has it |
| Db.Store.FindTransaction | backend/src/controllers/transactionController.js:37 | `findById` finds a transaction with that id, or reports that none has it |
| Db.Store.CreateRule | backend/src/routes/recurring.js:27-36 | `RecurringTransaction.create` appends the validated rule under a fresh id, or changes nothing on a validation error; transactions are untouched |
| Db.Store.CreateTransaction | backend/src/controllers/transactionController.js:21-28 | `Transaction.create` appends the validated record under a fresh id, or changes nothing on a validation error; rules are untouched |
| Db.Store.InsertTransactions | backend/src/utils/recurringProcessor.js:36-37 | `insertMany` appends the documents, in order, under fresh consecutive ids; rules are untouched |
| Db.Store.SaveRule | backend/src/utils/recurringProcessor.js:32-33 | `rule.save()` replaces exactly that rule and nothing else |
| Db.Store.DeleteRule | backend/src/routes/recurring.js:54 | `deleteOne` removes the rule with that id and keeps the others in order |
| Db.Store.DeleteTransaction | backend/src/controllers/transactionController.js:53 | `deleteOne` removes the transaction with that id and keeps the others in order |
| Keyed.Owned | backend/src/routes/recurring.js:13 | `find({ user })` returns at most the collection and exactly the documents owned by that user: for rules, inactive ones included; for transactions (`transactionController.js:7`), exactly the requester's |
| Keyed.IndexOf | backend/src/controllers/transactionController.js:37 | the position found is the first document with that id; none is found exactly when no document has it |
| Keyed.WithoutMembers | frontend/src/pages/dashboard.tsx:202 | filtering by `_id !== id` keeps exactly the documents with another id |
| Keyed.WithoutAt | backend/src/controllers/transactionController.js:53 | with distinct ids, deleting the id found at position i removes exactly that document and keeps the rest in order |
| Keyed.WithoutDistinct | backend/src/routes/recurring.js:54 | deleting keeps the ids distinct |
| RecurringProcessor.NextDueDate | backend/src/utils/recurringProcessor.js:26-30 | the advanced due date keeps the time of day and is a normalised month |
| RecurringProcessor.NextDueDateIsOnePeriod | backend/src/utils/recurringProcessor.js:26-30 | the advance is exactly one period (+1 day, +7 days, +the month's length, +365/366 days), strictly later, and a valid date |
| RecurringProcessor.Processed | backend/src/utils/recurringProcessor.js:14-33 | processing keeps the number of rules |
| RecurringProcessor.ProcessRecurring | backend/src/utils/recurringProcessor.js:4-40 | one run leaves the due rules advanced once and every other rule unchanged, and appends one transaction per due rule under fresh ids |
| RecurringProcessor.AdvanceDueRules | backend/src/utils/recurringProcessor.js:14-34 | the loop over the rules saves each due rule advanced once and returns exactly the emissions of the due rules, in store order, without touching the transactions |
| RecurringProcessor.EmittedAreDueRules | backend/src/utils/recurringProcessor.js:14-23 | there is one emission per due rule, and the k-th emission is built from the k-th due rule |
| RecurringProcessor.DueRulesExact | backend/src/utils/recurringProcessor.js:6-10 | the query selects exactly the stored rules of that user that are active and due on or before now |
| RecurringProcessor.EmissionContents | backend/src/utils/recurringProcessor.js:16-23 | each emitted transaction copies its due rule's name, amount, category and type, belongs to the user and is dated at the pre-advance due date (≤ now, strictly before the new due date), not at now |
| RecurringProcessor.ProcessedChangesOnlyDue | backend/src/utils/recurringProcessor.js:6-10 | a rule of another user, an inactive rule or a rule not yet due is left exactly as it was; a due rule changes only in its nextDueDate, advanced one period |
| RecurringProcessor.NothingDueIsNoop | backend/src/utils/recurringProcessor.js:36-39 | when no rule is due nothing is emitted and no rule changes |
| RecurringProcessor.SingleStep | backend/src/utils/recurringProcessor.js:14-33 | one run emits at most one transaction per rule, one exactly when it is due, and advances it by one period |
| RecurringProcessor.RunAgainSameTime | backend/src/utils/recurringProcessor.js:26-33 | calling again at the same now emits for the rule again exactly when its advanced date is still ≤ now |
| RecurringProcessor.EmissionDatesIncrease | backend/src/utils/recurringProcessor.js:22 | over any sequence of runs the dates emitted for one rule start at its due date and strictly increase, so no period is emitted twice |
| RecurringProcessor.AdvanceByMonotone | backend/src/utils/recurringProcessor.js:26-30 | advancing more periods never gives an earlier date |
| RecurringProcessor.ScheduleAt | backend/src/utils/recurringProcessor.js:26-30 | the i-th date of a rule's schedule is its due date advanced i periods |
| RecurringProcessor.CatchUpTakesKRuns | backend/src/utils/recurringProcessor.js:14-33 | a rule overdue for k periods needs k runs at the same now, which emit exactly its next k scheduled dates |
| RecurringProcessor.MonthlyOverflowsShortMonth | backend/src/utils/recurringProcessor.js:29 | a monthly rule due 31 January is next due 3 March, or 2 March in a leap year |
| RecurringProcessor.YearlyLeapDayOverflows | backend/src/utils/recurringProcessor.js:30 | a yearly rule due 29 February is next due 1 March |
| RecurringProcessor.MonthlyDayKept | backend/src/utils/recurringProcessor.js:29 | from a valid date on day 28 or earlier, any number of monthly advances gives a valid date on that same day |
| RecurringProcessor.MonthlyDriftPersists | backend/src/utils/recurringProcessor.js:29 | after the overflow to 3 March, the next advance is 3 April and every later monthly advance stays on the 3rd |
| RecurringRoutes.ListAfterProcess | backend/src/routes/recurring.js:11-13 | listing after processing gives the user's rules, each processed as the run did |
| RecurringRoutes.ListRules | backend/src/routes/recurring.js:8-18 | GET runs the processor for the user, then returns all that user's rules as processed |
| RecurringRoutes.CreateDraft | backend/src/routes/recurring.js:23-36 | the create call passes the user, the body's fields, startDate = the supplied date or now, and nextDueDate equal to startDate |
| RecurringRoutes.CreatedRuleShape | backend/src/routes/recurring.js:25-36 | a created rule belongs to the user, is active and has nextDueDate = startDate = the supplied date or now |
| RecurringRoutes.AppendThenProcess | backend/src/routes/recurring.js:39 | processing after an append treats the existing rules as before and steps the new rule last, its emission (if due) coming after the others |
| RecurringRoutes.CreateRule | backend/src/routes/recurring.js:21-45 | POST answers 400 and changes nothing exactly on a validation error; otherwise stores the rule, runs the processor (the new rule, if its start is ≤ now, emits one transaction and is advanced once) and answers 201 with the rule as created |
| RecurringRoutes.ProcessAfterCreate | backend/src/routes/recurring.js:39 | the state after creating and processing is the old rules processed plus the new rule stepped, with its emission last when it is due |
| RecurringRoutes.DeleteRule | backend/src/routes/recurring.js:48-59 | DELETE answers 404 iff no rule has the id, 401 iff it belongs to another user, changing nothing in both cases; 200 removes exactly that rule |
| TransactionController.DescendingIsNewestFirst | backend/src/controllers/transactionController.js:7 | a list descending by date key is ordered newest first |
| TransactionController.InsertByKey | backend/src/controllers/transactionController.js:7 | inserting into a descending list gives a descending permutation with the element added |
| TransactionController.SortByKey | backend/src/controllers/transactionController.js:7 | `sort({ date: -1 })` returns a permutation of its input in descending date order |
| TransactionController.GetTransactions | backend/src/controllers/transactionController.js:6-9 | returns exactly the requester's transactions (as a multiset), newest first |
| TransactionController.GuardLeavesOnlyEnum | backend/src/controllers/transactionController.js:17-28 | past the truthiness guard, the only way creation can still fail is an unlisted type |
| TransactionController.AddTransaction | backend/src/controllers/transactionController.js:14-31 | a falsy amount, category, type or date gives 400 and stores nothing; an unlisted type makes the create throw with no response; otherwise the requester's record with the given fields is stored and returned with 201 |
| TransactionController.ZeroAmountRejected | backend/src/controllers/transactionController.js:17-19 | an amount of 0 is falsy and is rejected |
| TransactionController.DeleteTransaction | backend/src/controllers/transactionController.js:36-56 | 404 iff no transaction has the id (before any user check); 401 for a missing user or another owner; the store is unchanged on every refusal; 200 removes exactly that transaction and echoes its id |
| Numbers.Round | frontend/src/utils/analytics.ts:77 | `Math.round(x)` is the integer within half a unit of x, halves rounding up |
| Analytics.ExpenseAmounts | frontend/src/utils/analytics.ts:19 | the expense amounts are empty exactly when there is no expense |
| Analytics.FirstHigh | frontend/src/utils/analytics.ts:22 | `find` returns the first expense above the threshold, or nothing when none is |
| Analytics.Anomalies | frontend/src/utils/analytics.ts:1-28 | at most one alert; none below 5 transactions; otherwise it is the first expense whose signed amount exceeds three times the signed expense mean, and none is reported only when no expense does |
| Analytics.CategoryGroupsThrow | frontend/src/utils/analytics.ts:5-11 | the grouping throws exactly when some expense's category names a member a plain object inherits (`toString`, `constructor`, `__proto__`, …): that member is truthy, so no array is created, and `push` is not a function of it |
| Analytics.CategoryGroupsExact | frontend/src/utils/analytics.ts:5-11 | when the grouping completes, it has a key for exactly the categories with an expense, each holding that category's expense amounts in order |
| Analytics.GroupExpensesByCategory | frontend/src/utils/analytics.ts:5-11 | the `forEach`/`push` loop builds exactly that grouping, or stops with the TypeError exactly when an expense has an inherited category name |
| Analytics.DetectAnomalies | frontend/src/utils/analytics.ts:1-28 | the function throws exactly when there are at least 5 transactions and some expense has an inherited category name; otherwise it returns the alert the heuristic defines, the grouping having no effect on it |
| Analytics.AlwaysFlagsNegativeExpenses | frontend/src/utils/analytics.ts:19-24 | with at least 5 transactions and every expense negative, exactly one alert is always raised |
| Analytics.UniformSpendingFlagged | frontend/src/utils/analytics.ts:19-24 | five identical −100 expenses raise an alert on the first |
| Analytics.AnomaliesByMagnitude | frontend/src/utils/analytics.ts:19-24 | the corrected heuristic: at most one alert, none below 5 transactions; an alert is the first expense whose spending exceeds three times the mean spending, and from 5 transactions on none is raised only when no expense does |
| Analytics.FewExpensesNotFlagged | frontend/src/utils/analytics.ts:19-24 | with the corrected heuristic, three or fewer expenses never raise an alert |
| Analytics.UniformSpendingNeverFlagged | frontend/src/utils/analytics.ts:19-24 | with the corrected heuristic, expenses all of the same size never raise an alert |
| Analytics.UniformSpendingNotFlagged | frontend/src/utils/analytics.ts:19-24 | five identical −100 expenses raise no alert under the corrected heuristic |
| Analytics.TrendCases | frontend/src/utils/analytics.ts:51-56 | gathering iff last month sums to 0; up iff the signed sum grew; the percentage recovers this month's sum from last month's; equal sums read as down 0 |
| Analytics.CalculateTrendsCases | frontend/src/utils/analytics.ts:30-57 | the trend compares this month's signed expense sum with the previous calendar month's (January against December of the year before): gathering iff the latter is 0, up iff the sum grew |
| Analytics.TrendUpWhenSpendingFalls | frontend/src/utils/analytics.ts:39-56 | with expenses stored negative, the trend says "up" exactly when the spending magnitude fell |
| Analytics.DaysThisMonth | frontend/src/utils/analytics.ts:62 | `daysInMonth` is the length of the current month, leap-aware |
| Analytics.ProjectBounds | frontend/src/utils/analytics.ts:74-77 | scaling a total from day to days keeps it on its side of 0 and never shrinks its magnitude; on the last day it is the total |
| Analytics.PredictMonthEndBounds | frontend/src/utils/analytics.ts:59-78 | the day-0 guard is never taken; the prediction lies at or beyond this month's expense sum on its side of 0 and equals it on the month's last day |
| Analytics.PredictMonthEndExample | frontend/src/utils/analytics.ts:59-78 | −100 spent by day 10 of a 30-day month projects −300 |
| VerifyAnalytics.Expenses | frontend/verify_analytics.js:26-28 | no more expenses than transactions, each with a non-negative amount |
| VerifyAnalytics.ExpensesExact | frontend/verify_analytics.js:26-28 | the expenses are exactly the expense-type transactions, each copied with its amount replaced by its magnitude; their amount list (`allAmounts`, line 38) is the list of expense magnitudes |
| VerifyAnalytics.SqDev | frontend/verify_analytics.js:33 | a sum of squared deviations is non-negative |
| VerifyAnalytics.Variance | frontend/verify_analytics.js:32-35 | the population variance is non-negative |
| VerifyAnalytics.FirstZ | frontend/verify_analytics.js:45-49 | `find` returns the first expense with z > 2, or nothing when none has it |
| VerifyAnalytics.DetectAnomaliesTest | frontend/verify_analytics.js:24-53 | at most one name; none below 5 transactions; otherwise the first expense whose amount lies more than two population standard deviations above the mean, and none only when no expense does |
| VerifyAnalytics.Samuelson | frontend/verify_analytics.js:31-40 | no value lies further than √(n−1) population standard deviations from the mean |
| VerifyAnalytics.NoZAboveFew | frontend/verify_analytics.js:45-48 | among five or fewer values no z-score exceeds 2 |
| VerifyAnalytics.FiveOrFewerNeverFlagged | frontend/verify_analytics.js:24-53 | with five or fewer expenses nothing is ever flagged |
| VerifyAnalytics.MockLaptopNotFound | frontend/verify_analytics.js:5-12 | on the mock data, the laptop marked as the anomaly is not found |
| VerifyAnalytics.SumOfMagnitudes | frontend/verify_analytics.js:64 | the sum of magnitudes is non-negative |
| VerifyAnalytics.OnlyAmountsMatter | frontend/verify_analytics.js:64 | the sum depends only on the amounts, not on dates or types |
| VerifyAnalytics.PredictMonthEndTestBounds | frontend/verify_analytics.js:59-70 | the 30-day projection is non-negative, never below the sum of magnitudes up to day 30, and equal to it on day 30 |
| DashboardStats.TotalAppend | frontend/src/pages/dashboard.tsx:244-245 | the totals of two lists add up |
| DashboardStats.ExpensesNonNegative | frontend/src/pages/dashboard.tsx:245 | total expenses, a sum of magnitudes, is never negative |
| DashboardStats.SavingsRateBounds | frontend/src/pages/dashboard.tsx:244-247 | the savings rate is 0 when income is ≤ 0; otherwise at most 100, exactly 100 iff there are no expenses, and negative iff the balance is |
| DashboardStats.MonthNamesDistinct | frontend/src/pages/dashboard.tsx:251 | the twelve month names are pairwise distinct |
| DashboardStats.MonthsBelow | frontend/src/pages/dashboard.tsx:266-267 | the months in the series are strictly increasing month indices, exactly those some transaction falls in |
| DashboardStats.MonthlyData | frontend/src/pages/dashboard.tsx:250-268 | the Map-filling `forEach` followed by the sort yields the monthly series |
| DashboardStats.SeriesBelowMonths | frontend/src/pages/dashboard.tsx:250-268 | the i-th point of the series is the bucket of the i-th month present |
| DashboardStats.MonthlySeriesShape | frontend/src/pages/dashboard.tsx:250-268 | one bucket per month present, ignoring the year, sorted by month index, no name repeated; each carries signed income and the magnitudes of the others |
| DashboardStats.AbsentMonthIsZero | frontend/src/pages/dashboard.tsx:253-264 | a month with no transaction contributes nothing |
| DashboardStats.MonthlySeriesTotals | frontend/src/pages/dashboard.tsx:244-268 | the buckets' incomes sum to total income and their expenses to total expenses |
| DashboardStats.FirstOccurrencesFacts | frontend/src/pages/dashboard.tsx:282-293 | the Map's insertion order keeps each key once and exactly the keys seen |
| DashboardStats.PaletteCoversDefaults | frontend/src/pages/dashboard.tsx:271-280 | the fixed palette has a colour for exactly the default categories |
| DashboardStats.SlicesOf | frontend/src/pages/dashboard.tsx:293 | one slice per category listed |
| DashboardStats.SliceIndex | frontend/src/pages/dashboard.tsx:284 | the Map lookup finds a slice of that name, or reports that none has it |
| DashboardStats.CategoryData | frontend/src/pages/dashboard.tsx:282-293 | the Map-filling `forEach` yields the category breakdown |
| DashboardStats.CategoryBreakdownTotal | frontend/src/pages/dashboard.tsx:282-293 | the slice values sum to total expenses |
| DashboardStats.CategoryBreakdownExact | frontend/src/pages/dashboard.tsx:271-293 | one slice per distinct expense category, in first-occurrence order, valued at the sum of its magnitudes, coloured from the palette when known |
| DashboardStats.UnseenCategoryIsZero | frontend/src/pages/dashboard.tsx:283-292 | a category with no expense has spent nothing |
| DashboardStats.MonthTransactions | frontend/src/pages/dashboard.tsx:317-320 | the month filter keeps exactly the transactions of that month and year |
| DashboardStats.CalculateChangeMeaning | frontend/src/pages/dashboard.tsx:344-347 | from 0 the change is 100 iff current > 0 and 0 otherwise; from a positive base it is positive iff current grew and 0 iff unchanged, and it scales back to the difference |
| DashboardStats.SelfChangeIsZero | frontend/src/pages/dashboard.tsx:344-347 | comparing a figure with itself gives 0 |
| DashboardStats.PrevMonthAsWrittenCases | frontend/src/pages/dashboard.tsx:331-334 | `setMonth(getMonth() − 1)` gives the previous calendar month when today's day exists in it, and the current month otherwise |
| DashboardStats.PrevMonthOn31May | frontend/src/pages/dashboard.tsx:331-334 | on 31 May the "previous month" is May |
| DashboardStats.PrevMonthOn30March | frontend/src/pages/dashboard.tsx:331-334 | on 30 March the "previous month" is March |
| DashboardStats.ChangesAsWrittenVanish | frontend/src/pages/dashboard.tsx:331-350 | on such a day both changes compare the current month with itself and read 0 |
| DashboardStats.ComparisonMonth | frontend/src/pages/dashboard.tsx:331-334 | the corrected comparison month is the calendar month before the current one, never the current month |
| DashboardStats.SummaryOf | frontend/src/pages/dashboard.tsx:244-350 | the stats cards: the income and expense totals over all transactions, balance = income − expenses, the savings rate of those totals, this month's expense and income totals, and both changes measured against the corrected previous month |
| DashboardState.Filtered | frontend/src/pages/dashboard.tsx:393-398 | "all" keeps everything; a month label keeps exactly that month's transactions |
| DashboardState.AvailableMonthsExact | frontend/src/pages/dashboard.tsx:406-409 | every month option is listed once, names a month some transaction has, and selects a non-empty list |
| DashboardState.TotalPages | frontend/src/pages/dashboard.tsx:400 | `totalPages` is ⌈n/5⌉: enough pages for n items, and no empty last page |
| DashboardState.JsSlice | frontend/src/pages/dashboard.tsx:401-404 | `slice` within bounds is the subsequence; starting past the end it is empty |
| DashboardState.PagePositions | frontend/src/pages/dashboard.tsx:401-404 | a page holds at most 5 items; a page past the last is empty; item i is shown on page i/5 + 1 at position i mod 5 |
| DashboardState.PagesPrefix | frontend/src/pages/dashboard.tsx:401-404 | the first k pages together are the first 5k items |
| DashboardState.PagesConcatenate | frontend/src/pages/dashboard.tsx:400-404 | pages 1..totalPages concatenate to the filtered list |
| DashboardState.PageBefore | frontend/src/pages/dashboard.tsx:905 | Previous goes one page back but not below 1 |
| DashboardState.PageAfter | frontend/src/pages/dashboard.tsx:917 | Next goes one page on but not past the last page |
| DashboardState.DropIndexExact | frontend/src/pages/dashboard.tsx:142 | filtering `i !== index` removes exactly the entry at the index, keeping the order of the others, and changes nothing for an index out of range |
| DashboardState.WriteAt | frontend/src/pages/dashboard.tsx:152-153 | writing at an index replaces only that entry, or appends one at the end |
| DashboardState.SignedAmount | frontend/src/pages/dashboard.tsx:177 | the amount sent has the typed magnitude, non-positive for an expense, non-negative for income |
| DashboardState.RequestBody | frontend/src/pages/dashboard.tsx:175-181 | the POST body carries the name or "Untitled", the signed amount, the category, the type and the date |
| DashboardState.SubmitMeetsServer | frontend/src/pages/dashboard.tsx:175-181 | a form the client lets through is refused by the server's guard exactly when its amount is 0, and otherwise validates |
| DashboardState.KindNameParses | frontend/src/pages/dashboard.tsx:179 | the type the form sends is one the schema accepts |
| DashboardState.SubmissionMovesTotals | frontend/src/pages/dashboard.tsx:186 | prepending the stored transaction raises total income or total expenses by the typed magnitude |
| DashboardState.Dashboard.Visible | frontend/src/pages/dashboard.tsx:401-404 | the page shown holds at most 5 transactions, each of the selected month |
| DashboardState.Dashboard.constructor | frontend/src/pages/dashboard.tsx:56-69 | the page starts with nothing loaded, an empty expense form dated today, page 1 and all months |
| DashboardState.Dashboard.Load | frontend/src/pages/dashboard.tsx:84-104 | a failed user request changes nothing (the page redirects and fetches no transactions); otherwise the categories become the user's list or [], and the transactions the fetched list when that request succeeded |
| DashboardState.Dashboard.AddCategory | frontend/src/pages/dashboard.tsx:133-139 | a non-blank input is appended trimmed and the input cleared; a blank input changes nothing |
| DashboardState.Dashboard.DeleteCategory | frontend/src/pages/dashboard.tsx:141-144 | only the entry at the index is removed, the others keep their order |
| DashboardState.Dashboard.StartEditing | frontend/src/pages/dashboard.tsx:146-148 | the edit opens on that index and text |
| DashboardState.Dashboard.TypeEdit | frontend/src/pages/dashboard.tsx:478-480 | typing replaces the edit text only |
| DashboardState.Dashboard.CancelEdit | frontend/src/pages/dashboard.tsx:504 | cancel closes the edit and changes no category |
| DashboardState.Dashboard.SaveCategoryEdit | frontend/src/pages/dashboard.tsx:150-157 | a non-blank edit writes its trimmed text at its index only and closes; no edit or a blank one changes nothing |
| DashboardState.Dashboard.Submit | frontend/src/pages/dashboard.tsx:159-193 | a refused form or a failed POST changes nothing; otherwise the stored transaction is put first and the name and amount are cleared |
| DashboardState.Dashboard.DeleteTransaction | frontend/src/pages/dashboard.tsx:195-206 | the transactions with that id are removed and exactly the others kept |
| DashboardState.Dashboard.SelectMonth | frontend/src/pages/dashboard.tsx:834 | choosing a month resets to page 1, which then shows the first page of that month's list |
| DashboardState.Dashboard.PreviousPage | frontend/src/pages/dashboard.tsx:905 | Previous moves one page back, not below 1 |
| DashboardState.Dashboard.NextPage | frontend/src/pages/dashboard.tsx:917 | Next moves one page on and stays within 1..totalPages |

## Left out

- HTTP and Express plumbing: routing, `protect` and `req.user` (the user is a parameter), and the JSON bodies (modelled as records of optional fields). The `try`/`catch` mapping to 500 is left out, as is `backend/server.js`. The authentication routes and their controllers are not part of this model.
- Persistence: Mongoose connection and query internals (`backend/src/config/db.js`), `timestamps`, ObjectId generation (a counter) and `backend/seed.js`. Stores are in-memory sequences.
- `backend/src/models/User.js`: only its default category list is kept, as a constant. Its behaviour lives in controllers that are not part of this model.
- Concurrency: two processor runs for the same user are not modelled. The source does no locking.
- DashboardState.Dashboard.AddCategory, DashboardState.Dashboard.DeleteCategory and DashboardState.Dashboard.SaveCategoryEdit: each runs to completion with its PUT reply given as `delivered`. In the page, `updateCategoriesOnServer` (`dashboard.tsx:116-131`) installs a list built from the `categories` of the render that started it, and only once the PUT resolves. So two edits made before the first reply arrives are not composed: the later list overwrites the earlier, and, for instance, one of two quick additions is lost. The model does not capture this interleaving.
- DashboardState.Dashboard.Submit and DashboardState.Dashboard.DeleteTransaction: each runs to completion with its server reply given as `stored` or `completed`. In the page, both handlers rebuild the list, after their `await`, from the `transactions` of the render that started them: `handleSubmit` sets `[newTrans, ...transactions]` (`dashboard.tsx:186`), and `handleDeleteTransaction` sets `transactions.filter(t => t._id !== id)` (`dashboard.tsx:202`). So overlapping requests lose updates. Deleting A and then B before A's reply arrives shows A again, although the server deleted it. A delete that completes while a POST is pending is undone when the POST resolves. Of two quick submissions, only the second new row is kept. The model does not capture these interleavings.
- Analytics.DetectAnomalies: the TypeError is a single `ThrewTypeError` outcome. Its message, and what it does to the dashboard's render, are not modelled.
- Time zones and daylight saving: dates are local civil dates with a millisecond time of day.
- Floating point: amounts are integers, and averages and percentages are exact reals.
- `parseFloat` of the amount text becomes an optional integer. The date string of the form becomes an optional date.
- Text formatting: `toFixed`, `toLocaleString`, `formatDate`, `formatTime` and the exact message strings are left out. Only the branch taken and the percentage's real value are kept.
- Month labels: `"<long month name> <year>"` labels in the filter become (year, month) pairs, which they name one to one.
- The random colour of a category without a palette entry is modelled as "no colour".
- DashboardStats.ColorOf: `categoryColors[t.category]` (`dashboard.tsx:288`) reads a plain object, so a category named after an inherited member (`toString`, `constructor`, …) gets that function as its colour. ColorOf returns "no colour" for it, as for any name missing from the palette.
- Browser I/O: `fetch`, `localStorage`, navigation and the loading flag. Server replies enter the model as the `delivered`, `stored` and `completed` parameters.
- jsPDF report generation, all JSX rendering, and the dialogs' open/close state.
- The form's field setters are plain assignments to one field each.
- `login.tsx`, `App.tsx` and the UI components are not part of this model.
- DashboardStats.MonthlyData: the JavaScript `Map` becomes a Dafny `map` keyed by month name, and `sort` by index followed by stripping the index becomes a pass over the twelve month indices in order. The resulting series is the same; the sort algorithm itself is not modelled.
- DashboardStats.MonthlyData: requires months 0..11, which every `Date` has.
- TransactionController.GetTransactions: the order of transactions with equal dates is not fixed, as the database does not fix it either. Only a newest-first permutation is promised.
- DashboardState.Dashboard.SaveCategoryEdit: requires the edited index to be at most the list's length. In JavaScript, writing further past the end leaves holes in the array, which a sequence cannot hold.
- DashboardState.Dashboard.PreviousPage and DashboardState.Dashboard.NextPage: require more than one page, because the buttons are only rendered then (`dashboard.tsx:900`).
- The amount sent by the form as a JSON number that is not an integer is not modelled. A non-numeric amount or date reaching the server, making `create` throw a cast error, is not modelled either.

## Findings

| source | as written | input that shows it | evidently intended | confidence | as-written member | corrected member |
|---|---|---|---|---|---|---|
| frontend/src/utils/analytics.ts:19-24 | the alert threshold is three times the mean of the signed expense amounts, which the dashboard stores as negative numbers | five expenses of −100: the mean is −100, the threshold −300, and −100 > −300 flags the first one; any such list of 5 or more raises an alert | compare spending magnitudes, so that uniform spending raises no alert | high; not executed | Analytics.AlwaysFlagsNegativeExpenses, Analytics.UniformSpendingFlagged | Analytics.AnomaliesByMagnitude, Analytics.UniformSpendingNeverFlagged, Analytics.FewExpensesNotFlagged |
| frontend/src/pages/dashboard.tsx:331-334 | the previous month is `setMonth(getMonth() − 1)` applied to today's date | on 31 May, "31 April" normalises to 1 May, so both changes compare May with itself and read 0 | the calendar month before the current one | high; not executed | DashboardStats.PrevMonthAsWrittenCases, DashboardStats.PrevMonthOn31May, DashboardStats.ChangesAsWrittenVanish | DashboardStats.ComparisonMonth, DashboardStats.SummaryOf |
