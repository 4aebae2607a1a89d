# spendBuddy budgets, expenses, dashboard and reports in Dafny

This project models the core of the spendBuddy backend: a personal-finance
service where a user keeps monthly budgets by category and records expenses
against them. The model covers five parts:

- **Budgets** (`BudgetService`): create-or-update a budget for the user's
  *financial month*, list budgets, summarise spending against them, update
  them, and delete them together with their expenses.
- **Monthly rollover** (`MonthlyBudgetScheduler`): on the day a user's
  financial month starts, every budget of the previous month is copied into
  the new month unless that category already has a budget there.
- **Expenses** (`ExpenseService`): save with validation, update, delete, the
  listings, the spent-for-budget sum, and the multi-criteria filter.
- **Dashboard** (`Dashboard`): the month statistics with their
  percentage changes, and the five most recent transactions.
- **Reports** (`Report`): spending grouped by budget category, by calendar
  month and by payment type, over all expenses or over the last six months.

A financial month is a calendar month shifted by the user's start day. The
start day defaults to 1. A day before the start day belongs to the previous
month.

The database tables are the `seq` fields `rows` of two repository classes,
`Repositories.BudgetRepository` and `Repositories.ExpenseRepository`. Each
class also has a `nextId` counter and methods that insert, store and delete
rows. The services that change the tables are methods on those objects.
Each method's contract ties the new table to a pure function of the old one
(`SaveRows`, `UpdatedBudget`, `NewExpense`, `UpdatedExpense`, `Rollover`,
…). The lemmas prove what the service promises about that function.
Read-only queries are functions.

Java's nulls become `Option`. Each exception becomes a `Result` error, and on
an error the tables are left unchanged. The clock (`LocalDate.now()`,
`LocalDateTime.now()`) is a parameter (`today` or `now`). So are the
authenticated user and the list of users. Amounts are `real`.

The modules are:

- `Wrappers`: `Option` and `Result`.
- `Seqs`: the stream operations `filter` and `sum`, and first match.
- `Calendar`: the `java.time` dates and months.
- `Text` and `DateText`: digits, `split`, `String.format` and the date
  parsers.
- `Entities`: the JPA entities.
- `Repositories`: the Spring Data queries and the two tables.
- `FinancialMonth`.
- The five services: `ExpenseService`, `BudgetService`,
  `MonthlyBudgetScheduler`, `Dashboard` and `Report`.

Where the code disagrees with itself, the model follows the service.
`BudgetService` builds its `BudgetResponse` with four arguments: id,
category, amount and the month as text. The `BudgetResponse` class in
`response/dto/BudgetResponse.java` declares only a three-argument
constructor. The model's `BudgetService.BudgetResponse` carries the month
text the service passes.

## Model

| member | source | states |
|---|---|---|
| Repositories.FindByUserAndCategoryAndBudgetMonth | src/main/java/com/spendbuddy/repository/BudgetRepository.java:37 | the position of the first budget with that user, category and month, none before it has the key, and `None` exactly when no budget has the key |
| Repositories.FindByIdAndUser | src/main/java/com/spendbuddy/repository/BudgetRepository.java:22 | a position whose budget has that id and that owner; `None` only when no budget has both |
| Repositories.FindBudgetById | src/main/java/com/spendbuddy/repository/BudgetRepository.java:15 | `findById`: a position holding that id; `None` only when no budget has it |
| Repositories.FindExpenseById | src/main/java/com/spendbuddy/repository/ExpenseRepository.java:16 | `findById` on expenses: a position holding that id; `None` only when no expense has it |
| Repositories.UniqueKeysSingleMatch | src/main/java/com/spendbuddy/repository/BudgetRepository.java:37 | while (user, category, month) keys are unique, the budget the lookup finds is the only one with its key, so taking the first match is the single result Spring returns |
| Repositories.BudgetRepository.Insert | src/main/java/com/spendbuddy/repository/BudgetRepository.java:15 | `save` of a new budget: it is appended with the next identifier, which then advances; identifiers stay distinct and below the counter |
| Repositories.BudgetRepository.Store | src/main/java/com/spendbuddy/repository/BudgetRepository.java:15 | `save` of a stored budget: only its row is replaced |
| Repositories.BudgetRepository.Delete | src/main/java/com/spendbuddy/repository/BudgetRepository.java:15 | `delete`: exactly that row is removed, the others keep their order |
| Repositories.ExpenseRepository.Insert | src/main/java/com/spendbuddy/repository/ExpenseRepository.java:16 | `save` of a new expense: appended with the next identifier |
| Repositories.ExpenseRepository.Store | src/main/java/com/spendbuddy/repository/ExpenseRepository.java:16 | `save` of a stored expense: only its row is replaced |
| Repositories.ExpenseRepository.Delete | src/main/java/com/spendbuddy/repository/ExpenseRepository.java:16 | `delete`: exactly that row is removed |
| Repositories.ExpenseRepository.DeleteWhere | src/main/java/com/spendbuddy/entity/budget/Budget.java:33-35 | the cascade on a budget's expenses: the table becomes the kept rows in their order |
| FinancialMonth.EffectiveMonth | src/main/java/com/spendbuddy/service/BudgetService.java:53-64 | before the start day the financial month is the calendar month before today's, otherwise today's month |
| FinancialMonth.EffectiveMonthDefault | src/main/java/com/spendbuddy/service/BudgetService.java:54 | with no stored start day, or start day 1, the financial month is the calendar month |
| FinancialMonth.EffectiveMonthWithinOne | src/main/java/com/spendbuddy/service/BudgetService.java:59-63 | the financial month is today's calendar month or the one just before |
| FinancialMonth.EffectiveMonthJanuary | src/main/java/com/spendbuddy/service/BudgetService.java:59-63 | before the start day in January, the financial month is December of the previous year |
| FinancialMonth.EffectiveMonthExample | src/main/java/com/spendbuddy/service/BudgetService.java:57-63 | start day 5: 3 November 2024 is in October, 5 November 2024 in November |
| FinancialMonth.EffectiveMonthContainsDay | src/main/java/com/spendbuddy/service/BudgetService.java:57-58 | for a start day s in 1..28, today lies on or after day s of its financial month and before day s of the next month |
| FinancialMonth.EffectiveMonthOnStartDay | src/main/java/com/spendbuddy/scheduler/MonthlyBudgetScheduler.java:46-49 | on the start day the current month is the calendar month and the previous month is one month earlier |
| BudgetService.Responses | src/main/java/com/spendbuddy/service/BudgetService.java:109-116 | one response per budget, in order, each with the budget's id, category and amount |
| BudgetService.SaveRows | src/main/java/com/spendbuddy/service/BudgetService.java:74-98 | after the upsert the key has a budget, and the table grows by one exactly when the key had none |
| BudgetService.Save | src/main/java/com/spendbuddy/service/BudgetService.java:70-99 | the table becomes `SaveRows` for the effective month; the response carries the requested category and amount and the month text, and names a stored budget with that key; the counter advances only when a budget is added |
| BudgetService.SaveUpserts | src/main/java/com/spendbuddy/service/BudgetService.java:74-90 | after a save the key has a budget, and the one the lookup finds holds the requested amount |
| BudgetService.SaveKeepsOthers | src/main/java/com/spendbuddy/service/BudgetService.java:74-91 | a save leaves every budget of another key as it was; when the key has a budget only the first match's amount changes, keeping its id, owner, category, month and creation time; otherwise one budget with the next id, the key, the amount and creation time `now` is appended |
| BudgetService.SavePreservesUniqueKeys | src/main/java/com/spendbuddy/service/BudgetService.java:74-91 | a save never gives a key a second budget |
| BudgetService.SaveIdempotent | src/main/java/com/spendbuddy/service/BudgetService.java:74-91 | saving the same request again, at any time in the same financial month and with any counter, leaves the table as the first save did |
| BudgetService.List | src/main/java/com/spendbuddy/service/BudgetService.java:104-117 | one response per budget of the user in the financial month containing today: every response is such a budget's id, category and amount with that month as text, and every such budget has its response |
| BudgetService.ResponsesListMonth | src/main/java/com/spendbuddy/service/BudgetService.java:131-139 | mapping a month's budgets to responses lists exactly the user's budgets of that month, with their id, category and amount |
| BudgetService.ListByMonth | src/main/java/com/spendbuddy/service/BudgetService.java:122-141 | an error exactly when the text is not a `YYYY-MM` month; otherwise one response per budget of the user in that month: every response is such a budget's id, category and amount with the requested text, and every such budget has its response |
| BudgetService.SummaryOf | src/main/java/com/spendbuddy/service/BudgetService.java:152-162 | over budget exactly when an amount is set and spending exceeds it; spending is 0 without the expense service or when an amount is null (the swallowed exception), otherwise the sum over all the user's expenses on the budget, any date |
| BudgetService.Summary | src/main/java/com/spendbuddy/service/BudgetService.java:146-163 | one line per budget of the financial month, in order |
| BudgetService.SummaryLines | src/main/java/com/spendbuddy/service/BudgetService.java:152-162 | each line carries its budget's category and amount |
| BudgetService.UpdatedBudget | src/main/java/com/spendbuddy/service/BudgetService.java:181-203 | not found exactly when no budget has that id and owner; otherwise the budget keeps its id, owner, category and creation time, takes the amount only when one is given, and takes the current month only when it had none |
| BudgetService.Update | src/main/java/com/spendbuddy/service/BudgetService.java:181-203 | on success that one row becomes the updated budget and the response describes it; on an error nothing changes |
| BudgetService.UpdatePreservesUniqueKeys | src/main/java/com/spendbuddy/service/BudgetService.java:192-196 | an update keeps keys unique, provided that filling in a missing month does not land on a key already taken |
| BudgetService.Delete | src/main/java/com/spendbuddy/service/BudgetService.java:170-175 | not found or not owned leaves both tables unchanged; otherwise the budget's row is removed and its expenses with it (the cascade) |
| BudgetService.DeleteRemoves | src/main/java/com/spendbuddy/entity/budget/Budget.java:33-35 | after a delete no budget has that id, every other budget remains, and the kept expenses are exactly those not on the budget |
| MonthlyBudgetScheduler.RolloverBudgets | src/main/java/com/spendbuddy/scheduler/MonthlyBudgetScheduler.java:39-74 | the tables after the loop over users are those `Rollover` gives |
| MonthlyBudgetScheduler.CopyPrevious | src/main/java/com/spendbuddy/scheduler/MonthlyBudgetScheduler.java:54-70 | the inner loop over one user's previous budgets leaves the tables `CopyMissing` gives |
| MonthlyBudgetScheduler.Due | src/main/java/com/spendbuddy/scheduler/MonthlyBudgetScheduler.java:44-46 | a user is due on the start day of the financial month, and then the current month is the calendar month |
| MonthlyBudgetScheduler.CopyMissing | src/main/java/com/spendbuddy/scheduler/MonthlyBudgetScheduler.java:54-70 | the inner loop only appends to the table, one identifier per appended budget |
| MonthlyBudgetScheduler.RolloverUser | src/main/java/com/spendbuddy/scheduler/MonthlyBudgetScheduler.java:43-70 | one user's turn only appends, one identifier per budget, and changes nothing when the user is not due |
| MonthlyBudgetScheduler.Rollover | src/main/java/com/spendbuddy/scheduler/MonthlyBudgetScheduler.java:39-74 | the loop over users only appends, one identifier per budget |
| MonthlyBudgetScheduler.CopyMissingAppends | src/main/java/com/spendbuddy/scheduler/MonthlyBudgetScheduler.java:54-70 | the inner loop only appends: each new budget belongs to the user, is for the current month, is created now, takes the next identifier, and copies the category and amount of a previous budget |
| MonthlyBudgetScheduler.CopyMissingCovers | src/main/java/com/spendbuddy/scheduler/MonthlyBudgetScheduler.java:55-66 | afterwards every previous category has a budget in the current month |
| MonthlyBudgetScheduler.AppendFreshKey | src/main/java/com/spendbuddy/scheduler/MonthlyBudgetScheduler.java:59-66 | adding a budget whose key has none keeps the keys of every month unique |
| MonthlyBudgetScheduler.CopyMissingFreshWhenAdded | src/main/java/com/spendbuddy/scheduler/MonthlyBudgetScheduler.java:55-66 | each budget the inner loop appends had no budget with its key in the table before it |
| MonthlyBudgetScheduler.CopyMissingOneCopyPerCategory | src/main/java/com/spendbuddy/scheduler/MonthlyBudgetScheduler.java:55-66 | the copies one inner loop makes have pairwise different categories, whatever the table holds and even when the previous month lists a category twice |
| MonthlyBudgetScheduler.CopyMissingUniqueKeysIn | src/main/java/com/spendbuddy/scheduler/MonthlyBudgetScheduler.java:55-66 | the inner loop never gives a key of a month a second budget if that month had none, whatever duplicates other months (the previous one included) hold |
| MonthlyBudgetScheduler.CopyMissingUniqueKeys | src/main/java/com/spendbuddy/scheduler/MonthlyBudgetScheduler.java:55-66 | on a table with unique keys the inner loop keeps them unique |
| MonthlyBudgetScheduler.CopyMissingNoop | src/main/java/com/spendbuddy/scheduler/MonthlyBudgetScheduler.java:55-59 | when every previous category already has a budget, the inner loop changes nothing |
| MonthlyBudgetScheduler.RolloverAppends | src/main/java/com/spendbuddy/scheduler/MonthlyBudgetScheduler.java:39-74 | the rollover only appends budgets, and hands out one identifier per budget appended |
| MonthlyBudgetScheduler.PrevRowIsOriginal | src/main/java/com/spendbuddy/scheduler/MonthlyBudgetScheduler.java:49-51 | copies are made for the current month only, so any previous-month budget found during the rollover was there before it |
| MonthlyBudgetScheduler.RolloverAddsCopies | src/main/java/com/spendbuddy/scheduler/MonthlyBudgetScheduler.java:43-70 | each appended budget copies an original previous-month budget of a due user |
| MonthlyBudgetScheduler.RolloverOnlyCopies | src/main/java/com/spendbuddy/scheduler/MonthlyBudgetScheduler.java:43-70 | the old table is a prefix of the new one, and every budget after it is such a copy |
| MonthlyBudgetScheduler.RolloverCovers | src/main/java/com/spendbuddy/scheduler/MonthlyBudgetScheduler.java:46-66 | after the rollover, each category a due user budgeted last month has a budget this month |
| MonthlyBudgetScheduler.RolloverUniqueKeysIn | src/main/java/com/spendbuddy/scheduler/MonthlyBudgetScheduler.java:39-70 | the rollover never gives a key of a month a second budget if that month had none, whatever the other months hold |
| MonthlyBudgetScheduler.RolloverUniqueKeys | src/main/java/com/spendbuddy/scheduler/MonthlyBudgetScheduler.java:39-70 | on a table with unique keys the rollover keeps them unique |
| MonthlyBudgetScheduler.RolloverNoop | src/main/java/com/spendbuddy/scheduler/MonthlyBudgetScheduler.java:55-59 | on a table where every due user's previous categories are already covered, nothing changes |
| MonthlyBudgetScheduler.RolloverIdempotent | src/main/java/com/spendbuddy/scheduler/MonthlyBudgetScheduler.java:31-33 | running the rollover a second time on the same day adds nothing |
| MonthlyBudgetScheduler.RolloverNobodyDue | src/main/java/com/spendbuddy/scheduler/MonthlyBudgetScheduler.java:44-46 | on a day that is no user's start day nothing changes |
| ExpenseService.FindPaymentType | src/main/java/com/spendbuddy/service/ExpenseService.java:74-75 | a payment type with that id from the table; `None` only when none has it |
| ExpenseService.NewExpense | src/main/java/com/spendbuddy/service/ExpenseService.java:46-90 | succeeds exactly when all of these hold: the budget id is given and names a budget of the user; the date is given and parses; the payment type is given and exists; any sub-category given exists. The new expense then carries the user, budget, amount, description, parsed date, payment type and sub-category, and is created and updated now |
| ExpenseService.Save | src/main/java/com/spendbuddy/service/ExpenseService.java:46-93 | on success the new expense is appended with a fresh identifier and returned; on an error nothing is stored |
| ExpenseService.SavedExpenseFields | src/main/java/com/spendbuddy/service/ExpenseService.java:47-59 | a saved expense belongs to the requesting user and to one of that user's budgets, with the requested amount |
| ExpenseService.UpdatedExpense | src/main/java/com/spendbuddy/service/ExpenseService.java:161-187 | the errors in the source's order: not found exactly when no expense has the id, not owned exactly when it is another user's, invalid date exactly when the owner gives an unreadable date, unknown payment type exactly when the date is fine and the type id is unknown; success exactly otherwise. On success only the given amount, description, date and payment type change, owner, budget, sub-category and creation time stay, and the update time is now |
| ExpenseService.UpdateExpense | src/main/java/com/spendbuddy/service/ExpenseService.java:161-190 | on success exactly that row becomes the updated expense; on an error nothing changes |
| ExpenseService.UpdateTouchesOneExpense | src/main/java/com/spendbuddy/service/ExpenseService.java:163-188 | every other expense, and the number of expenses, stay as they were |
| ExpenseService.DeletedExpense | src/main/java/com/spendbuddy/service/ExpenseService.java:194-200 | succeeds exactly when the expense exists and is the user's; not found exactly when no expense has the id, not owned exactly when it is another user's |
| ExpenseService.DeleteExpenseRemoves | src/main/java/com/spendbuddy/service/ExpenseService.java:194-201 | after a successful delete one expense fewer remains, none has the identifier, and every other expense is still there |
| ExpenseService.DeleteExpense | src/main/java/com/spendbuddy/service/ExpenseService.java:194-202 | on success exactly that row is removed; on an error nothing changes |
| ExpenseService.List | src/main/java/com/spendbuddy/service/ExpenseService.java:97-112 | fails, with the parse error, exactly when both bounds are given and one does not read as `yyyy-MM-dd`; otherwise the result holds exactly the user's expenses, and with both bounds only those dated between them, both included; without both bounds it is all the user's expenses |
| ExpenseService.CurrentMonthWindow | src/main/java/com/spendbuddy/service/ExpenseService.java:118-119 | the window runs from day 1 of today's month to today |
| ExpenseService.CurrentMonthWindowDays | src/main/java/com/spendbuddy/service/ExpenseService.java:116-124 | a day is in the window exactly when it is in today's month and not after today |
| ExpenseService.CurrentMonthWindowSelects | src/main/java/com/spendbuddy/service/ExpenseService.java:118-120 | the window selects exactly the expenses dated in today's month, on or before today |
| ExpenseService.ListCurrentMonth | src/main/java/com/spendbuddy/service/ExpenseService.java:116-124 | exactly the user's expenses dated in today's calendar month, on or before today |
| ExpenseService.OwnedBudget | src/main/java/com/spendbuddy/service/ExpenseService.java:264-271 | not found exactly when no budget has the id; success exactly when the budget found is the user's, and then it is that budget; the only other error is not owned |
| ExpenseService.ListByBudget | src/main/java/com/spendbuddy/service/ExpenseService.java:128-144 | the budget's lookup error when it is missing or foreign; otherwise the parse error exactly when both bounds are given and one is unreadable; a result holds exactly the user's expenses on that budget, dated between the bounds, both included, when both are given |
| ExpenseService.ListCurrentMonthByBudget | src/main/java/com/spendbuddy/service/ExpenseService.java:148-157 | the budget's lookup error when it is missing or foreign; otherwise exactly the user's expenses on that budget dated in today's calendar month, on or before today |
| ExpenseService.ListByBudgetRestrictsList | src/main/java/com/spendbuddy/service/ExpenseService.java:128-144 | for an owned budget, listing by budget fails exactly when the plain listing does, and holds exactly the plain listing's expenses on that budget |
| ExpenseService.CurrentMonthByBudgetIsWindow | src/main/java/com/spendbuddy/service/ExpenseService.java:148-157 | for four-digit years, the current-month listing by budget equals the listing by budget between the first of the month and today given as text |
| ExpenseService.SumAmounts | src/main/java/com/spendbuddy/service/ExpenseService.java:209-211 | the sum exists exactly when no amount is null |
| ExpenseService.SumAmountsValue | src/main/java/com/spendbuddy/service/ExpenseService.java:209-211 | when it exists it is the ordinary sum of the amounts |
| ExpenseService.SpentForBudget | src/main/java/com/spendbuddy/service/ExpenseService.java:206-212 | defined exactly when none of the user's expenses on the budget has a null amount |
| ExpenseService.SpentForBudgetValue | src/main/java/com/spendbuddy/service/ExpenseService.java:206-212 | it is the sum over exactly the user's expenses on the budget, whatever their dates |
| ExpenseService.FilterExpensesSelects | src/main/java/com/spendbuddy/service/ExpenseService.java:216-256 | on success the staged filter equals one filter of the user's expenses by the combined criteria, each criterion applying only when its parameter is given |
| ExpenseService.FilterExpenses | src/main/java/com/spendbuddy/service/ExpenseService.java:216-256 | a result holds only the user's expenses |
| ExpenseService.FilterExpensesSubsequence | src/main/java/com/spendbuddy/service/ExpenseService.java:224-255 | the result keeps the user's expenses in their original order |
| ExpenseService.FilterExpensesNoParams | src/main/java/com/spendbuddy/service/ExpenseService.java:224-255 | with no parameter given, the result is all the user's expenses |
| ExpenseService.FilterExpensesEmptyPaymentType | src/main/java/com/spendbuddy/service/ExpenseService.java:238 | an empty payment type acts as no payment type |
| ExpenseService.FilterExpensesInclusiveBounds | src/main/java/com/spendbuddy/service/ExpenseService.java:249 | an expense dated on either bound is kept |
| ExpenseService.BeforeDateStage | src/main/java/com/spendbuddy/service/ExpenseService.java:223-243 | the expenses reaching the date stage are exactly the user's expenses meeting the budget, sub-category and payment criteria that were given |
| ExpenseService.FilterExpensesFails | src/main/java/com/spendbuddy/service/ExpenseService.java:245-251 | only the date stage can fail: on an unparsable bound exactly when both bounds are given and one does not parse, on a null date exactly when both parse and an undated expense meets the other criteria; otherwise the filter succeeds |
| Dashboard.ChangePercent | src/main/java/com/spendbuddy/service/DashboardService.java:35-39 | 0 from a zero base, otherwise the change relative to the base times 100 |
| Dashboard.ChangePercentSign | src/main/java/com/spendbuddy/service/DashboardService.java:36-38 | from a positive base the change is non-negative exactly when the value did not drop |
| Dashboard.ChangePercentExamples | src/main/java/com/spendbuddy/service/DashboardService.java:35-39 | 150 against 100 is +50, 80 against 100 is -20, and anything against 0 is 0 |
| Dashboard.MonthWindowIsCalendarMonth | src/main/java/com/spendbuddy/service/DashboardService.java:72-78 | the source's two month filters, on dates after the day before the first and before the day after the last, select exactly the expenses dated in that calendar month |
| Dashboard.MonthExpenses | src/main/java/com/spendbuddy/service/DashboardService.java:72-91 | the month's expense sum, dated expenses between the day before the first and the day after the last, null amounts as 0, is the calendar-month spending |
| Dashboard.DailyAverage | src/main/java/com/spendbuddy/service/DashboardService.java:94-95 | for a positive number of days, average times days is the total |
| Dashboard.StatsOf | src/main/java/com/spendbuddy/service/DashboardService.java:94-128 | savings are budget minus expenses; each change is `ChangePercent` of the current value against the previous one (budget, expenses, daily average, savings) |
| Dashboard.GetStats | src/main/java/com/spendbuddy/service/DashboardService.java:44-131 | the statistics are `StatsOf` the user's budget total (null amounts as 0), this and last calendar month's spending, and the total of budgets created by the end of last month, with today's day and last month's length as day counts |
| Dashboard.PrevTotalBudgetAtMost | src/main/java/com/spendbuddy/service/DashboardService.java:101-108 | with non-negative amounts, last month's budget total never exceeds the total |
| Dashboard.PrevTotalBudgetAllOld | src/main/java/com/spendbuddy/service/DashboardService.java:101-108 | when every budget was created by the end of last month, both totals agree |
| Dashboard.AvgDailyExample | src/main/java/com/spendbuddy/service/DashboardService.java:94 | 300 spent by the 10th is 30 a day |
| Dashboard.InsertRecent | src/main/java/com/spendbuddy/service/DashboardService.java:142-147 | inserting keeps every element (a permutation plus the new one) |
| Dashboard.CompareRecent | src/main/java/com/spendbuddy/service/DashboardService.java:142-147 | the comparator puts a first before b exactly when both are stamped and a was created later, and answers 0 exactly when a stamp is missing or both are equal |
| Dashboard.SortRecent | src/main/java/com/spendbuddy/service/DashboardService.java:142-147 | the sort is a permutation |
| Dashboard.SortRecentSorted | src/main/java/com/spendbuddy/service/DashboardService.java:142-147 | with every creation time present, the sort puts newer expenses first |
| Dashboard.RecentTransactions | src/main/java/com/spendbuddy/service/DashboardService.java:136-151 | at most five, exactly five when the user has that many, and all drawn from the user's expenses |
| Dashboard.RecentTransactionsAreNewest | src/main/java/com/spendbuddy/service/DashboardService.java:140-150 | with every creation time present, the five are newest first and none left out is newer than one shown |
| Report.GroupTotalsKeys | src/main/java/com/spendbuddy/service/ReportService.java:41-44 | grouping gives one group per key that occurs, with no key twice |
| Report.GroupTotalsSums | src/main/java/com/spendbuddy/service/ReportService.java:41-44 | each group's total is the sum of the amounts of exactly the expenses with its key |
| Report.GroupTotalsConserve | src/main/java/com/spendbuddy/service/ReportService.java:41-44 | the group totals add up to the total of all amounts grouped |
| Report.GroupTotals | src/main/java/com/spendbuddy/service/ReportService.java:41-44 | at most one group per expense; the keys and totals are stated by `GroupTotalsKeys` and `GroupTotalsSums` |
| Report.Lines | src/main/java/com/spendbuddy/service/ReportService.java:104-108 | one line per group, with the group's key as label and its total as value |
| Report.SixMonthWindow | src/main/java/com/spendbuddy/service/ReportService.java:98-100 | the window from day 1 five months back to the end of this month holds exactly the days of this calendar month and the five before |
| Report.ExpensesForRange | src/main/java/com/spendbuddy/service/ReportService.java:94-102 | only the user's expenses; all of them without the six-month limit, and only dated ones with it |
| Report.ExpensesForRangeMembers | src/main/java/com/spendbuddy/service/ReportService.java:94-102 | the range is the user's expenses, limited, when asked, to those dated in the six-month window |
| Report.ExpenseByCategory | src/main/java/com/spendbuddy/service/ReportService.java:35-47 | fails exactly when an expense that has a budget has a null amount |
| Report.ExpenseByCategoryTotals | src/main/java/com/spendbuddy/service/ReportService.java:39-46 | one line per category, each the sum over the expenses of budgets of that category, together the sum over every grouped expense |
| Report.PaymentTypeSummary | src/main/java/com/spendbuddy/service/ReportService.java:78-90 | fails exactly when an expense with a payment type has a null amount |
| Report.PaymentTypeSummaryTotals | src/main/java/com/spendbuddy/service/ReportService.java:82-89 | exactly one line per payment type name that occurs, each the sum over that type's expenses, together the sum over all |
| Report.InsertByKey | src/main/java/com/spendbuddy/service/ReportService.java:63-64 | inserting keeps every group |
| Report.SortByKey | src/main/java/com/spendbuddy/service/ReportService.java:63-64 | the sort by key is a permutation |
| Report.SortByKeySorted | src/main/java/com/spendbuddy/service/ReportService.java:63-64 | groups with distinct keys come out in strictly increasing key order |
| Report.Labelled | src/main/java/com/spendbuddy/service/ReportService.java:65-71 | labels exist exactly when every key can be labelled, and then line i is group i under its label |
| Report.SortedMonthsAscending | src/main/java/com/spendbuddy/service/ReportService.java:56-64 | the monthly keys come out in strictly increasing text order |
| Report.SortedMonthsKeys | src/main/java/com/spendbuddy/service/ReportService.java:57-59 | every monthly key is the `%04d-%02d` key of some dated expense's month |
| Report.SortedMonthsTotals | src/main/java/com/spendbuddy/service/ReportService.java:58-60 | every monthly total is the sum over exactly the expenses of that month |
| Report.MonthlySummaryChronological | src/main/java/com/spendbuddy/service/ReportService.java:59-64 | with four-digit years, text order of the keys is calendar order |
| Report.UnlabelledIffNegativeYear | src/main/java/com/spendbuddy/service/ReportService.java:66-69 | some month cannot be labelled exactly when some expense is dated in a negative year |
| Report.MonthlySummaryErrors | src/main/java/com/spendbuddy/service/ReportService.java:52-73 | a null amount is the first error; otherwise the report fails exactly when some expense is dated in a negative year |
| Report.MonthlySummary | src/main/java/com/spendbuddy/service/ReportService.java:52-73 | a report has one line per sorted month and exists only when no grouped amount is null |
| Report.MonthLabelSign | src/main/java/com/spendbuddy/service/ReportService.java:66-69 | a month key can be labelled exactly when its year is not negative |
| Report.MonthlySummaryLines | src/main/java/com/spendbuddy/service/ReportService.java:65-71 | each line is its sorted month's total, labelled with the month's three-letter upper-case name and the year |
| Report.MonthlySummaryCovers | src/main/java/com/spendbuddy/service/ReportService.java:52-73 | every grouped expense's month has a line labelled with its month's name and year |
| Report.MonthlySummaryConserve | src/main/java/com/spendbuddy/service/ReportService.java:52-73 | the monthly lines add up to the total amount of the expenses grouped |
| Calendar.LengthOfMonth | src/main/java/com/spendbuddy/service/DashboardService.java:69 | 28 to 31 days; 31 exactly in the long months, 29 exactly in a leap February |
| Calendar.MinusMonths | src/main/java/com/spendbuddy/service/DashboardService.java:61 | moves the month index back by n |
| Calendar.PlusMonths | src/main/java/com/spendbuddy/service/BudgetService.java:57-58 | moves the month index forward by n |
| Calendar.DateMinusMonths | src/main/java/com/spendbuddy/service/BudgetService.java:60 | lands in the month n before, on the same day when that month is long enough and otherwise on its last day |
| Calendar.WithDayOfMonth | src/main/java/com/spendbuddy/service/ExpenseService.java:118 | same month, the given day |
| Calendar.AtEndOfMonth | src/main/java/com/spendbuddy/service/DashboardService.java:64 | the month's last day |
| Calendar.MonthRangeWindow | src/main/java/com/spendbuddy/service/ReportService.java:99-101 | from day 1 of one month to the last day of another holds exactly the days of the months between |
| Calendar.MonthWindow | src/main/java/com/spendbuddy/service/DashboardService.java:63-64 | from day 1 to the last day of a month holds exactly that month's days |
| Calendar.CompareDateTime | src/main/java/com/spendbuddy/service/DashboardService.java:144 | 0 exactly for equal times, negative exactly when the first is earlier |
| Calendar.CompareDateTimeTransitive | src/main/java/com/spendbuddy/service/DashboardService.java:144 | the comparison is transitive, so the sort's order is consistent when all times are present |
| DateText.ParseYearMonth | src/main/java/com/spendbuddy/service/BudgetService.java:127 | a parsed month has a year in 0..9999 |
| DateText.ParseFormatYearMonth | src/main/java/com/spendbuddy/service/BudgetService.java:127 | parsing a month's text gives the month back |
| DateText.FormatParseYearMonth | src/main/java/com/spendbuddy/service/BudgetService.java:138 | a parsed text is exactly the text of the parsed month |
| DateText.ParseDate | src/main/java/com/spendbuddy/service/ExpenseService.java:42 | a parsed date has a positive year |
| DateText.ParseFormatDate | src/main/java/com/spendbuddy/service/ExpenseService.java:64 | parsing a date's `yyyy-MM-dd` text gives the date back |
| DateText.ParseDateMovesDayBack | src/main/java/com/spendbuddy/service/ExpenseService.java:64 | "2023-02-30" is read as 28 February 2023, not refused |
| DateText.MonthKeyOrder | src/main/java/com/spendbuddy/service/ReportService.java:59-64 | for years 0..9999 the month keys sort as text in calendar order |
| DateText.MonthLabelOfKey | src/main/java/com/spendbuddy/service/ReportService.java:66-69 | the key of a month with a non-negative year is labelled with its three-letter name and its year |
| DateText.MonthLabelOfNegativeYear | src/main/java/com/spendbuddy/service/ReportService.java:66-69 | the key of a month in a negative year cannot be labelled |
| DateText.MonthLabelExample | src/main/java/com/spendbuddy/service/ReportService.java:69 | November 2024 is labelled "NOV 2024" |
| Text.LexLessTotal | src/main/java/com/spendbuddy/service/ReportService.java:64 | any two distinct strings are ordered one way |
| Text.LexLessTransitive | src/main/java/com/spendbuddy/service/ReportService.java:64 | the text order is transitive |
| Text.PadDigitsOrder | src/main/java/com/spendbuddy/service/ReportService.java:59 | zero-padded numbers of one width sort as text in numeric order |

## Left out

- HTTP controllers, authentication and user lookup are not modelled. The user is a parameter, and a missing user is not a case.
- Logging (`System.out`) is not modelled.
- `@Scheduled` timing is not modelled: the rollover runs when called, with `now` given. Concurrent requests and transactions other than rollback on error are not modelled either.
- The real clock and time zones are not modelled: `now` and `today` are parameters.
- Amounts are exact reals. `double` rounding is not modelled, nor the `%+.2f%%` text of the dashboard changes. `Dashboard.ChangePercent` is the number before formatting.
- `Dashboard.RecentTransactions` does not state the order when some creation time is null. The source's comparator then answers 0, which is not a consistent order, and TimSort's result is unspecified. The model's stable insertion sort is exact only when every time is present, and `Dashboard.RecentTransactionsAreNewest` requires that.
- The order of the category and payment-type reports is not modelled. The source reads them from a `HashMap`, whose order is unspecified; the model keeps first appearance. The monthly report is sorted and fully specified.
- BudgetService.List: the contract states which budgets are listed and how many, not their order, which is table order.
- `DateText.ParseYearMonth` accepts four-digit years 0..9999 only. `YearMonth.parse` also accepts signed years beyond four digits.
- `DateText.ParseDate` accepts four-digit years only. `yyyy` also reads longer years.
- `Repositories.FindByUserAndCategoryAndBudgetMonth` takes the first match where Spring would throw on two matches. Save and rollover never create a second match (`SavePreservesUniqueKeys`, `RolloverUniqueKeys`); the rollover never creates one within a month that had none, whatever other months hold (`RolloverUniqueKeysIn`).
- BudgetService.UpdatePreservesUniqueKeys: `update` gives a budget without a month the current month without looking the key up (`BudgetService.java:192-194`), so it can create a second budget for a key. The lemma needs that the key is still free. Budgets stored through the modelled operations always have a month.
- Budget `updatedAt` and the `@PreUpdate` hooks are not modelled. Nothing in the core reads them.
- The `EntityException` class is not part of this model. It is taken to roll the transaction back, so an error leaves the tables unchanged.
- A null budget category is not modelled: categories are strings. The category report's filter on it therefore only drops expenses whose budget is missing.
- A null payment type name is not modelled: type names are strings.
- An expense whose budget reference is missing is not modelled in the expense filter: `budgetId` always holds a number.
- `BudgetController` calls a `rolloverForCurrentUser` operation on the budget service, which `BudgetService.java` does not define. It is not modelled.
- `Integer.parseInt` overflow and signs in the month labels are not modelled beyond what the `%04d-%02d` keys can contain.
- Non-ASCII case folding in the payment-type filter is not modelled: only ASCII letters are folded.
