# Expense tracker core, in Dafny

A model of the client-side logic of a personal expense tracker. The tracker
is a React application over a hosted table store. It keeps five tables:

- expenses, with a description, amount, category, type and `YYYY-MM-DD` date;
- monthly salary rows, with the gross and four saving contributions (EPF, MF,
  VPF, ETF);
- a master table mapping each category to an expense type;
- daily milk deliveries;
- the user table, holding the password that switches the app into edit mode
  (read and written by `Auth`).

The model covers what the screens and hooks compute from those rows:

- **Aggregation.** Selecting rows by month and year, and the monthly and
  yearly salary-against-expense summaries with their saving percentage. Also
  the monthly, per-type and per-year sums charted on the analysis page, the
  overall rows, the dashboard's current-month totals and type chart, and the
  income and expense cards.
- **Filtering and selection.** The transaction filter with its first-twenty
  rule when nothing is filtered, the filter bar's state and option lists, the
  description search, the searchable select and the multi-select checkbox
  list.
- **Keeping lists in memory.** The paged fetch of expenses, and the prepend,
  replace-by-id and delete-by-id updates after a write. The case-insensitive
  master lookup and append, with seeding of an empty master table. The
  recurring-expense rows and the propagation of their dates. The milk
  dialog's edit cycle and totals.
- **Forms and access mode.** Validation and the two-step submit of the
  expense form, the salary form's checks and year box, the ordered password
  checks of the login screen and password dialog, and the view/edit access
  state machine.

Each source file has one module. `ExpenseStore` is `useExpenses`,
`SalaryHook` is `useSalary`, `AnalysisPage` is the analysis page, and so on.
They rest on shared modules:

- `Seqs`: filter, map, sum, de-duplication;
- `Grouping`: keyed sums and sorting by a rank;
- `StringOrder`: JavaScript's default string order and sort;
- `Text`: trim, case, search, split;
- `Numbers`: `parseInt`, `parseFloat`, `toString`;
- `Dates`: the stored date form and its parsed views.

Amounts are exact reals. A parsed number that may be NaN is
`Numbers.Number`. Every remote call becomes a parameter carrying its answer:
a `Result` for reads and an `Outcome` for writes, so each success and
failure path is modelled. The current date is also a parameter, and so are
the renderings of numbers into form text.

These behaviours of the program are reproduced as written:

- The saving percentage is computed from gross and expenses only; direct
  saving does not enter it.
- The monthly salary summary is absent when there are no salary rows, even
  if there are expenses.
- The analysis page's type chart groups types as written, while the
  dashboard's groups them ignoring case.
- The dashboard's "expense" figure sums every record of the month, income
  included, so its balance is minus the non-income sum.
- The category list built from the master table keeps duplicates.
- The salary form's edit path accepts a gross of zero, which the add path
  rejects.
- An expense amount that does not parse passes the form's check, because a
  NaN comparison is false.
- Select-all compares counts only.

The two month conventions are kept apart:

- 0-based: `getMonth()` in the salary hook and the analysis page.
- 1-based: the split-and-parse reading on the dashboard and the analysis
  type chart.

`DashboardPage.MonthConventionsAgree` and `Dates.SplitYearMonthOfParsed`
relate the two. `Dates.StringOrderIsChronological` proves that comparing two
stored dates as strings compares them as calendar dates; the date-range
filter relies on this.

## Model

| member | source | states |
|---|---|---|
| SalaryHook.SelectByMonthYear | src/hooks/useSalary.ts:73-88 | the selection keeps the rows' order, every row kept matches the given month and year, and every matching row is kept |
| SalaryHook.InMonthYear | src/hooks/useSalary.ts:76-86 | plain definition without an ensures: the four month/year cases; `InMonthYearBoth`, `SelectUnrestricted` and `SelectByMonthYear` characterise it |
| SalaryHook.InMonthYearBoth | src/hooks/useSalary.ts:79-80 | with both a month and a year, a row matches exactly when its 0-based month and its year both equal them |
| SalaryHook.SelectUnrestricted | src/hooks/useSalary.ts:86 | with neither month nor year every row is returned, in order |
| SalaryHook.SelectNone | src/hooks/useSalary.ts:74-87 | when no row matches, nothing is returned |
| SalaryHook.SelectCons | src/hooks/useSalary.ts:74-87 | the head of the list is kept exactly when it matches, and the rest is selected in the same way |
| SalaryHook.SelectSnoc | src/hooks/useSalary.ts:74-87 | appending a row appends it to the selection exactly when it matches |
| SalaryHook.SumSelectSnoc | src/hooks/useSalary.ts:74-87 | appending a row adds its value to the sum over the selection exactly when it matches |
| SalaryHook.SelectYearThenMonth | src/hooks/useSalary.ts:79-85 | selecting by year, then by month and year, is selecting by month and year at once |
| SalaryHook.SavingPercentage | src/hooks/useSalary.ts:115 | the percentage is zero whenever the gross is not positive |
| SalaryHook.SavingPercentageScales | src/hooks/useSalary.ts:115 | with a positive gross, the percentage times the gross is one hundred times what is left after expenses |
| SalaryHook.SavingPercentageRange | src/hooks/useSalary.ts:115 | with a positive gross and expenses between zero and the gross, the percentage lies in 0..100, and it is 100 exactly when nothing was spent |
| SalaryHook.Totals | src/hooks/useSalary.ts:110-115 | gross, direct saving and expenses are the sums over the rows; the balance is the gross less direct saving and expenses; the percentage ignores direct saving |
| SalaryHook.SavingIgnoresDirectSaving | src/hooks/useSalary.ts:115 | two sets of salary rows with the same gross give the same saving percentage, whatever their contributions |
| SalaryHook.MonthlySummary | src/hooks/useSalary.ts:107-124 | there is no summary exactly when there are no salary rows, whatever the expenses; otherwise it is the totals of the rows |
| SalaryHook.MonthsFrom | src/hooks/useSalary.ts:129-155 | the loop from a given month on pushes one entry per remaining month |
| SalaryHook.MonthsFromAt | src/hooks/useSalary.ts:129-155 | the entry at position i, counting from month m, is the entry for month m + i |
| SalaryHook.YearlySummary | src/hooks/useSalary.ts:126-158 | exactly twelve entries; entry i is for month i and holds the totals over the salary rows and expenses dated in month i of the year |
| SalaryHook.MonthsWithGross | src/pages/Salary.tsx:318-320 | the months with a positive gross, in order: a subsequence, every kept month has salary, no month with salary is dropped, months strictly increase |
| SalaryHook.MonthsWithGrossAt | src/pages/Salary.tsx:318-320 | each kept month of a yearly summary is the entry at its own month's index |
| SalaryHook.RowShareOnce | src/hooks/useSalary.ts:129-138 | a row dated in the year adds its value to exactly one of the months it has not yet passed, and a row of another year adds nothing |
| SalaryHook.MonthsPartitionYear | src/hooks/useSalary.ts:129-143 | summing over the rows of the twelve months of a year is summing over the rows of that year |
| SalaryHook.MonthsFromGross | src/hooks/useSalary.ts:140 | the gross figures of the entries from month m on add up to the gross of the salary rows of those months |
| SalaryHook.MonthsFromDirectSaving | src/hooks/useSalary.ts:141-142 | the direct-saving figures from month m on add up to the contributions of the salary rows of those months |
| SalaryHook.MonthsFromExpenses | src/hooks/useSalary.ts:143 | the expense figures from month m on add up to the amounts of the expenses of those months |
| SalaryHook.MonthsFromBalance | src/hooks/useSalary.ts:144 | when each entry's balance is its gross less direct saving and expenses, so is the sum of the balances |
| SalaryHook.YearlySumsAreYearTotals | src/hooks/useSalary.ts:129-157 | the twelve entries' gross, direct saving and expenses add up to the sums over all rows dated in the year, and their balances to gross less direct saving less expenses |
| SalaryHook.Overall | src/pages/Salary.tsx:182-193 | the overall row sums the four figures over the months and recomputes the percentage from the summed gross and expenses |
| SalaryHook.OverallIsYearTotals | src/pages/Salary.tsx:182-193 | the overall row of a yearly summary equals the totals of the year's rows taken as a whole |
| SalaryHook.AddSalaryDetail | src/hooks/useSalary.ts:28-47 | a failed insert keeps the list and returns the thrown error's message, or "Failed to add salary detail" when what was thrown is not an `Error`; a returned row goes in front of the unchanged list; success without a row keeps the list and still reports success |
| SalaryHook.AddThenRemoveSalary | src/hooks/useSalary.ts:37-39 | a row inserted under an id no other row has is undone by removing that id: the list is as before |
| SalaryHook.UpdateSalaryDetail | src/hooks/useSalary.ts:49-71 | a failed update keeps the list and returns the thrown error's message, or "Failed to update salary detail" when what was thrown is not an `Error`; a returned row replaces every row with the id and the others stay; success without a row keeps the list and still reports success |
| SalaryHook.UpdateSalaryTwice | src/hooks/useSalary.ts:59-63 | applying the same accepted update twice, the row carrying the updated id, gives the same list as applying it once |
| AnalysisPage.SalaryYearlySummary | src/pages/Analysis.tsx:42-62 | there is always a result (the null branch cannot be taken), and it is the totals of the year's salary rows and the year's expenses |
| AnalysisPage.SavingPercentageByMonth | src/pages/Analysis.tsx:64-79 | at most twelve points, each labelled with a month name, in increasing month order; each point's month has a positive gross and the point's value is that month's saving percentage over the rows dated in it |
| AnalysisPage.SavingPointsNameSalaryMonths | src/pages/Analysis.tsx:73-78 | a month's label appears exactly when that month of the year has a positive gross |
| AnalysisPage.MonthPoints | src/pages/Analysis.tsx:75-78 | one point per month, labelled with its month name and valued at its saving percentage |
| AnalysisPage.MonthPointsOrdered | src/pages/Analysis.tsx:73-78 | months in increasing order give labels in increasing calendar order |
| AnalysisPage.MonthIndex | src/pages/Analysis.tsx:32-40 | a label's position among the twelve month labels, below 12 exactly when it is a month label |
| AnalysisPage.LabelIndex | src/pages/Analysis.tsx:32-40 | each month label maps back to its own month |
| AnalysisPage.AddToMonth | src/pages/Analysis.tsx:272-275 | one loop step adds the row's amount to the month it is dated in, when it is dated in the year, and changes no other month |
| AnalysisPage.MonthlyAmounts | src/pages/Analysis.tsx:265-275 | twelve running sums; sum m is the total of the expenses dated in 0-based month m of the year |
| AnalysisPage.MonthlyExpensesData | src/pages/Analysis.tsx:264-281 | twelve points in calendar order; each is the total of its month, zero for a month without expenses, and the points add up to the year's total |
| AnalysisPage.MonthPointsSum | src/pages/Analysis.tsx:270-280 | points holding the monthly sums add up to the sum over the rows of those months |
| AnalysisPage.InTypeChart | src/pages/Analysis.tsx:284-288 | plain definition without an ensures (the year and, when given, the 1-based month); `TypeChartRows` and `TypeChartRowsAreSelection` characterise it |
| AnalysisPage.TypeChartRows | src/pages/Analysis.tsx:284-288 | the rows of the year and, when given, of the 1-based month, in order, none missed |
| AnalysisPage.TypeChartRowsAreSelection | src/pages/Analysis.tsx:286-287 | the 1-based month test selects the same rows as the 0-based month selection of the salary hook |
| AnalysisPage.TypeTotals | src/pages/Analysis.tsx:290-301 | one entry per exact type string among the counted rows, each the total of that type, largest first, all adding up to the counted total |
| AnalysisPage.ExpenseTypeData | src/pages/Analysis.tsx:283-302 | points named by the distinct types, each valued at its type's total, non-increasing, adding up to the counted total |
| AnalysisPage.YearTotals | src/pages/Analysis.tsx:305-314 | one entry per distinct year of a dated row, in ascending year order, each the total of that year, adding up to the dated total |
| AnalysisPage.DatedYearsCovered | src/pages/Analysis.tsx:307-311 | every dated row's year has an entry |
| AnalysisPage.YearlyExpensesData | src/pages/Analysis.tsx:304-319 | one point per year, labelled with the year's numeral and valued at its total, adding up to the dated total |
| AnalysisPage.YearlyCoversAll | src/pages/Analysis.tsx:304-319 | when every row is dated, the yearly points account for every amount |
| AnalysisPage.AcceptedYear | src/pages/Analysis.tsx:147-149 | plain definition without an ensures (four characters reading as 2016..2050); `OnSalaryYearInput` and `SalaryYearFilterStaysValid` characterise it |
| AnalysisPage.OnSalaryYearInput | src/pages/Analysis.tsx:144-155 | the box always shows the text; a length other than 4 clears the filter; an accepted year sets it; a 4-character text outside 2016..2050 leaves it unchanged |
| AnalysisPage.SalaryYearFilterStaysValid | src/pages/Analysis.tsx:144-155 | whatever is typed, the filter stays empty or an accepted year |
| SalaryPage.ValidateForm | src/pages/Salary.tsx:69-79 | a date error exactly when the date is empty; a gross-salary error exactly when the gross is empty or parses to a number at most zero |
| SalaryPage.Contribution | src/pages/Salary.tsx:88-91 | an empty or unparsable contribution counts as zero; a parsable one counts at its value |
| SalaryPage.ContributionOfDigits | src/pages/Salary.tsx:88-91 | a contribution typed as a plain numeral counts at that numeral's value |
| SalaryPage.Payload | src/pages/Salary.tsx:85-92 | the row sent carries the date, the parsed gross and the four contributions defaulted to zero |
| SalaryPage.EmptyContributionsAreZero | src/pages/Salary.tsx:88-91 | with no parsable contribution the direct saving sent is zero |
| SalaryPage.SubmitAdd | src/pages/Salary.tsx:81-106 | a row is sent exactly when the form is valid, and it is the payload of the form; on success the dialog closes and the form is cleared, otherwise the form stays |
| SalaryPage.ValidateEdit | src/pages/Salary.tsx:134-139 | the edit check only asks for a non-empty date and a non-empty gross salary |
| SalaryPage.EditCheckIsWeaker | src/pages/Salary.tsx:134-140 | every form the add check accepts the edit check accepts, and a gross of zero passes the edit check but not the add check |
| SalaryPage.SubmitEdit | src/pages/Salary.tsx:132-165 | a row is sent exactly when date and gross are filled in, together with the form's id as the target; on success the dialog closes and the form and selected date are cleared; on failure nothing changes |
| SalaryPage.SelectEditDate | src/pages/Salary.tsx:108-123 | the date is selected and errors cleared; the form shows the first row stored under exactly that date, and stays as it was when there is none |
| SalaryPage.RowForm | src/pages/Salary.tsx:113-121 | the edit form shows the row's id and date, and its gross salary and four contributions written as text |
| SalaryPage.ResubmitUnchangedRow | src/pages/Salary.tsx:111-151 | submitting a stored row's form untouched sends the row back under its own id with its own date and figures, when its figures' text reads back under `parseFloat` |
| SalaryPage.ApplyEditDate | src/pages/Salary.tsx:467-474 | text not shaped like YYYY-MM-DD only sets the date error; shaped text runs the date lookup |
| SalaryPage.OnYearInput | src/pages/Salary.tsx:235-251 | empty text clears box and year; text with a non-digit or over four characters is ignored; one to three digits leave the year; four digits select the year in 2016..2050 and deselect it otherwise |
| SalaryPage.ResetYear | src/pages/Salary.tsx:167-170 | the reset clears the box and the selected year |
| SalaryPage.YearBoxStaysOk | src/pages/Salary.tsx:235-251 | typing keeps the box at most four digits with any selected year in 2016..2050 |
| SalaryPage.PageSummary | src/pages/Salary.tsx:172-180 | a yearly summary exists exactly when a year is selected, and its twelve entries are the totals of that year's months |
| SalaryPage.OverallRow | src/pages/Salary.tsx:182-193 | the overall row exists exactly when a year is selected, and it is the totals of the whole year |
| SalaryPage.MonthRows | src/pages/Salary.tsx:318-320 | rows only for months with a positive gross, in month order, each the totals of its month, and none of those months missing |
| ExpensesPage.PassesFilters | src/pages/Expenses.tsx:81-104 | plain definition without an ensures (the conjunction of the five active filters); `MatcherMeaning` and `Staged` show the staged filtering equals it |
| ExpensesPage.MatcherMeaning | src/pages/Expenses.tsx:81-104 | the five stages together keep an expense exactly when its date part lies within the set bounds and it meets every category, description and type restriction that is not the sentinel or empty |
| ExpensesPage.Staged | src/pages/Expenses.tsx:79-104 | filtering stage by stage, in the page's order, is filtering once by the conjunction of the active predicates |
| ExpensesPage.FilteredExpenses | src/pages/Expenses.tsx:78-110 | an order-preserving subsequence of expenses meeting every active filter; with a filter active nothing meeting them is dropped; with none active it is exactly the first twenty expenses |
| ExpensesPage.DateBoundsAreChronological | src/pages/Expenses.tsx:80-92 | for YYYY-MM-DD dates and bounds, the inclusive string comparisons keep exactly the dates between the bounds in calendar order |
| ExpensesPage.UniqueDescriptions | src/pages/Expenses.tsx:64-67 | strictly sorted (so without duplicates), holding every description of the expenses and nothing else |
| ExpensesPage.UniqueCategories | src/pages/Expenses.tsx:69-71 | sorted, one entry per master row: the same multiset of categories, duplicates kept |
| ExpensesPage.CategoryListKeepsDuplicates | src/pages/Expenses.tsx:69-71 | two master rows under one category list it twice |
| ExpensesPage.UniqueExpenseTypes | src/pages/Expenses.tsx:73-76 | strictly sorted, holding every type of the master rows and nothing else |
| ExpensesPage.AddExpenses | src/pages/Expenses.tsx:133-146 | with a bulk insert its answer is the result; otherwise items are sent in order, stopping at the first failure, which is returned, and success means every item was added |
| FilterBar.HasActiveFilters | src/components/AdvancedFilterBar.tsx:66 | plain definition without an ensures (a bound, category, description or type is set); `ActiveIffNotDefault` characterises it |
| FilterBar.ActiveIffNotDefault | src/components/AdvancedFilterBar.tsx:66 | the filters are active exactly when they differ from the initial and reset state |
| FilterBar.CategoryOptions | src/components/AdvancedFilterBar.tsx:36-42 | the sentinel option first, then each category in order with its value as its label |
| FilterBar.TypeOptions | src/components/AdvancedFilterBar.tsx:43-49 | the sentinel option first, then each type in order with its raw value |
| FilterBar.CapitalizedLabels | src/components/AdvancedFilterBar.tsx:46-49 | each type keeps its value and is labelled with its first character upper-cased |
| FilterBar.TypeLabelsMatchValues | src/components/AdvancedFilterBar.tsx:48 | a label differs from its type only in the case of the first character: same length, same rest, same lower-case form |
| FilterBar.Apply | src/components/AdvancedFilterBar.tsx:50-53 | the edited filters are handed on unchanged and the panel closes |
| FilterBar.Reset | src/components/AdvancedFilterBar.tsx:54-65 | both the bar and the page return to filters that restrict nothing, and the panel closes |
| DashboardPage.InCurrentMonth | src/pages/Dashboard.tsx:29-35 | plain definition without an ensures (split-and-parse year and 1-based month equal the current ones); `MonthRecords` and `MonthConventionsAgree` characterise it |
| DashboardPage.MonthRecords | src/pages/Dashboard.tsx:29-35 | the records whose split-and-parse year and 1-based month are the current ones, in stored order, none missed |
| DashboardPage.MonthConventionsAgree | src/pages/Dashboard.tsx:31-34 | for a date that parses, the dashboard's 1-based reading selects a record exactly when the salary hook's 0-based reading selects it for the month before |
| DashboardPage.CurrentMonthData | src/pages/Dashboard.tsx:24-48 | the month's records, counted; income sums those typed exactly income; expense is income plus all the others, since it sums every month record; the balance is therefore minus the non-income sum, and the total is income plus expense |
| DashboardPage.TypeTotals | src/pages/Dashboard.tsx:53-56 | one entry per lower-cased type, each the total of the records of that type up to case, largest first, adding up to the month's expense |
| DashboardPage.TypeChart | src/pages/Dashboard.tsx:50-66 | one bar per type up to case, every record's type present, each bar valued at its type's total, non-increasing, adding up to the month's expense |
| DashboardPage.LabelsLowerToKeys | src/pages/Dashboard.tsx:62 | lower-casing a bar's capitalised label gives back its grouping key |
| DashboardPage.LabelLowersToKey | src/pages/Dashboard.tsx:62-70 | a key taken from a record is lower case, so capitalising and lower-casing it again gives the key |
| DashboardPage.BarClick | src/pages/Dashboard.tsx:68-80 | the dialog opens with the clicked label and lists, in order, exactly the month records whose lower-cased type equals the lower-cased label |
| DashboardPage.BarClickMatchesBar | src/pages/Dashboard.tsx:50-74 | the records listed after clicking a bar add up to that bar's value |
| SummaryCards.CardsOf | src/components/SummaryCards.tsx:10-12 | plain definition without an ensures (income sum, expense sum, their difference); `CardsPartition`, `OtherTypesDoNotCount` and `CardsOfAppended` characterise it |
| SummaryCards.CardsPartition | src/components/SummaryCards.tsx:10-12 | the income card, the expense card and the records of any other type together account for the sum of all amounts, so other types reach neither card |
| SummaryCards.OtherTypesDoNotCount | src/components/SummaryCards.tsx:10-11 | a record of any other type changes no card |
| SummaryCards.CardsOfAppended | src/components/SummaryCards.tsx:10-12 | an income record raises the balance by its amount and an expense record lowers it by its amount |
| ExpenseStore.Page | src/hooks/useExpenses.ts:17-21 | a request for the range starting at an offset returns the next 1000 rows of the table, fewer at its end, none past it |
| ExpenseStore.FetchExpenses | src/hooks/useExpenses.ts:8-37 | requests go to ranges 0-999, 1000-1999, ... and number at most n/1000 + 1; without a failure exactly that many are made and the list becomes the whole table in order; a failing request stops the loop, keeps the previous list and records its message |
| ExpenseStore.WithinRequests | src/hooks/useExpenses.ts:16-30 | a request at an offset within the table is within the request bound |
| ExpenseStore.LastRequest | src/hooks/useExpenses.ts:23-29 | the request that sees fewer than 1000 remaining rows is the last one |
| ExpenseStore.AddExpense | src/hooks/useExpenses.ts:39-61 | a failure keeps the list and returns the message; an echoed row goes in front of the list; an empty echo leaves the state of a refetch |
| ExpenseStore.AddExpenses | src/hooks/useExpenses.ts:63-85 | as for one row, but every echoed row goes in front, in the order returned, followed by the previous list |
| ExpenseStore.AddOneIsAddBatch | src/hooks/useExpenses.ts:39-85 | inserting one row is inserting a batch of one |
| ExpenseStore.UpdateExpense | src/hooks/useExpenses.ts:86-105 | a failure changes nothing; on success the length stays, rows with the id become the returned row and all others are untouched |
| ExpenseStore.DeleteExpense | src/hooks/useExpenses.ts:106-122 | a failure changes nothing; on success no row with the id remains, every other row remains, and the order is kept |
| ExpenseStore.RemoveIsFilter | src/hooks/useExpenses.ts:112 | the id removal is the filter keeping rows with another id |
| ExpenseStore.AddThenDelete | src/hooks/useExpenses.ts:39-122 | deleting a row just added under a fresh id gives back the previous list |
| ExpenseStore.UpdateIdempotent | src/hooks/useExpenses.ts:94 | applying the same update twice is applying it once |
| ExpenseStore.DeleteIdempotent | src/hooks/useExpenses.ts:112 | deleting twice is deleting once |
| ExpenseStore.UniqueCategories | src/hooks/useExpenses.ts:123-126 | strictly sorted, holding every category of the loaded rows and nothing else |
| ExpenseStore.UniqueCategoriesStable | src/hooks/useExpenses.ts:123-126 | sorting and de-duplicating the list again changes nothing |
| Records.ReplaceById | src/hooks/useExpenses.ts:94 | same length; rows with the id become the new row, all others stay in place |
| Records.ReplaceAbsentId | src/hooks/useExpenses.ts:94 | replacing by an id no row carries changes nothing |
| Records.ReplaceIdempotent | src/hooks/useSalary.ts:60-62 | replacing twice with the same row is replacing once |
| Records.RemoveById | src/hooks/useExpenses.ts:112 | no row with the id remains, every other row remains, and nothing is added |
| Records.RemoveByIdAppend | src/hooks/useExpenses.ts:112 | removal keeps the survivors' order: removing from a concatenation removes from each part |
| Records.RemoveUndoesPrepend | src/hooks/useExpenses.ts:39-122 | removing a just-prepended row whose id was fresh gives back the list |
| Records.RemoveAbsentId | src/hooks/useExpenses.ts:112 | removing an id no row carries changes nothing |
| MasterStore.ExpenseTypeByCategory | src/hooks/useMaster.ts:46-49 | no type exactly when no row's category agrees ignoring case; otherwise the type of the first row that agrees |
| MasterStore.IsCategoryInMaster | src/hooks/useMaster.ts:51-53 | true exactly when some row's category agrees with the input ignoring case |
| MasterStore.LookupIffKnown | src/hooks/useMaster.ts:46-53 | the lookup finds a type exactly when the category is known |
| MasterStore.LookupIgnoresCase | src/hooks/useMaster.ts:46-53 | two names equal up to case get the same answers from both questions |
| MasterStore.AddMasterEntry | src/hooks/useMaster.ts:55-74 | on success the returned row is appended at the end and the rest is untouched; on failure the table stays and the message is returned |
| MasterStore.AddedCategoryResolves | src/hooks/useMaster.ts:46-74 | after adding a row its category is known, known categories keep their type, and a category unknown before resolves to the new row's type |
| MasterStore.FindAppend | src/hooks/useMaster.ts:47 | appending rows does not move the first match among the rows before |
| MasterStore.SeedRows | src/lib/initMasterTable.ts:25-28 | one seeding row per default category, in order, each typed expense |
| MasterStore.FetchMaster | src/hooks/useMaster.ts:11-44 | a non-empty answer is stored as is; an empty one triggers seeding and a second read whose answer is stored; a seeding failure keeps the table and reports its message, or a fixed message when it has none; any read failure keeps the table and reports its message |
| MasterStore.FetchOutcomes | src/hooks/useMaster.ts:11-44 | the error is cleared exactly when a table answer is stored, and whenever an error is recorded the table is unchanged |
| ExpenseForm.AllCategories | src/components/ExpenseForm.tsx:26 | no name twice, and a name is offered exactly when it is a given or a default category |
| ExpenseForm.GivenCategoriesFirst | src/components/ExpenseForm.tsx:26 | the given categories come before every default that is not one of them |
| ExpenseForm.Validate | src/components/ExpenseForm.tsx:52-65 | a description error exactly when the description is blank; an amount error exactly when the amount is empty or parses to at most zero; a date error exactly when the date is empty |
| ExpenseForm.CurrentExpenseType | src/components/ExpenseForm.tsx:41-44 | expense while the table loads; afterwards the manual type when one was typed, else the table's type for the category, else empty |
| ExpenseForm.IsNewCategory | src/components/ExpenseForm.tsx:41 | plain definition without an ensures (never while loading, else not in the master table ignoring case); `LoadingDerivesExpense` and `TypeOfKnownAndNewCategories` characterise it |
| ExpenseForm.TypeOfKnownAndNewCategories | src/components/ExpenseForm.tsx:41-44 | without a manual type a new category has the empty type and a known one the type of its first matching row |
| ExpenseForm.Decide | src/components/ExpenseForm.tsx:66-106 | validation errors stop everything; a master row is written exactly for a valid new category with a type; the expense is sent exactly when valid, typed if new, and after a successful master write; the form closes exactly on success |
| ExpenseForm.Submit | src/components/ExpenseForm.tsx:66-106 | the submit sequence over the form: the payload carries the trimmed description, the parsed amount, the category, the current type and the date; a master failure aborts with a message; a store failure shows its message |
| ExpenseForm.LoadingDerivesExpense | src/components/ExpenseForm.tsx:41-44 | while the table loads, no category counts as new and the derived type is expense whatever the table, the typed type and the category; no submit happens then, since the form is replaced by a spinner |
| ExpenseForm.WrittenCategoryIsKnown | src/components/ExpenseForm.tsx:79-97 | once the new category's row is written, the table resolves the category to the type the expense was sent with |
| Recurring.FirstSeen | src/components/RecurringExpensesModal.tsx:74-80 | a category already in the map keeps its entry |
| Recurring.CategoryMap | src/components/RecurringExpensesModal.tsx:74-80 | plain definition without an ensures (the first-seen fold from an empty map); `FirstSeenIsFirst` characterises it |
| Recurring.FirstSeenIsFirst | src/components/RecurringExpensesModal.tsx:74-80 | a category is in the map exactly when some row has it, and then it maps to the first such row |
| Recurring.RowFor | src/components/RecurringExpensesModal.tsx:84-91 | a category without last month's row gets its own name, type expense and zero; otherwise the row's description and type unless empty, and its amount; dated today |
| Recurring.BuildFrom | src/components/RecurringExpensesModal.tsx:83-92 | one row per category, in the order given |
| Recurring.BuildRows | src/components/RecurringExpensesModal.tsx:83-92 | exactly seven rows, one per recurring category in the fixed order |
| Recurring.RowsFromFirstOfCategory | src/components/RecurringExpensesModal.tsx:74-92 | each row takes the amount of the first (newest) row of its category last month, or the defaults when there is none |
| Recurring.FetchRows | src/components/RecurringExpensesModal.tsx:58-100 | a failed query leaves the rows; a successful one rebuilds them from its answer |
| Recurring.AmountChange | src/components/RecurringExpensesModal.tsx:121-125 | only the indexed row changes, taking the parsed amount, zero when it does not parse |
| Recurring.DateChange | src/components/RecurringExpensesModal.tsx:127-139 | a date typed in the first row goes to every row; elsewhere only that row changes |
| Recurring.SetDates | src/components/RecurringExpensesModal.tsx:132-136 | every row takes the date and nothing else changes |
| Recurring.ToAdd | src/components/RecurringExpensesModal.tsx:143-151 | the rows with a positive amount, in order, as inserts |
| Recurring.HandleUpdate | src/components/RecurringExpensesModal.tsx:141-164 | no call exactly when no row is positive; otherwise the positive rows are sent, and the dialog closes exactly on success |
| Recurring.UnparsableAmountNotSent | src/components/RecurringExpensesModal.tsx:121-151 | a row whose amount text does not parse is not positive, and nothing is sent that was not sent before the change |
| Recurring.OnlyOldPositivesSent | src/components/RecurringExpensesModal.tsx:143-151 | when the one changed row is not positive, every insert sent afterwards was already among those sent before |
| Recurring.FirstRowDateReachesBatch | src/components/RecurringExpensesModal.tsx:127-151 | after a date is typed in the first row, every expense sent carries it |
| Milk.Initial | src/components/MilkTrackingModal.tsx:14-18 | no rows, the rate 45, nothing under edit and an empty box |
| Milk.Fetch | src/components/MilkTrackingModal.tsx:20-35 | a failed read keeps the rows; a successful one replaces them with the answer |
| Milk.Edit | src/components/MilkTrackingModal.tsx:64-67 | the serial number goes under edit with its weight as text in the box; rows and rate stay |
| Milk.Cancel | src/components/MilkTrackingModal.tsx:97-100 | nothing under edit and an empty box; rows and rate stay |
| Milk.OnMode | src/components/MilkTrackingModal.tsx:57-62 | switching to view mode clears the edit; other modes change nothing |
| Milk.SetKg | src/components/MilkTrackingModal.tsx:84-88 | same length and order; rows with the serial number take the new weight and all others are untouched |
| Milk.Save | src/components/MilkTrackingModal.tsx:69-95 | a write happens exactly when a row is under edit and the box parses; otherwise nothing changes; a rejected write changes nothing; an accepted one sets the weight and ends the edit |
| Milk.SaveMovesWeight | src/components/MilkTrackingModal.tsx:69-103 | an accepted save keeps the rate and moves the total weight by the change of each row carrying the edited serial number |
| Milk.TotalKg | src/components/MilkTrackingModal.tsx:102 | plain definition without an ensures (the sum of the weights); `SetKgTotal`, `SaveMovesWeight` and `OnRateTotals` state how it moves |
| Milk.TotalAmount | src/components/MilkTrackingModal.tsx:103 | plain definition without an ensures (total weight times rate); `AmountFollowsWeight` and `OnRateTotals` state how it moves |
| Milk.AmountFollowsWeight | src/components/MilkTrackingModal.tsx:102-103 | at a fixed rate, moving the total weight moves the amount owed by that change times the rate |
| Milk.OnRate | src/components/MilkTrackingModal.tsx:128 | the rate becomes the parsed text, or zero when it does not parse; rows and the edit state stay |
| Milk.OnRateTotals | src/components/MilkTrackingModal.tsx:102-128 | typing a rate keeps the total weight, and a rate box that is empty or does not parse makes the amount owed zero |
| Milk.SetKgTotal | src/components/MilkTrackingModal.tsx:84-103 | setting a serial number's weight moves the total weight by the change of each row carrying it |
| Milk.ResaveKeepsTotals | src/components/MilkTrackingModal.tsx:64-91 | editing a row and saving text that reads back as its own weight leaves the rows as they were, for a serial number held by one row |
| Auth.Initial | src/hooks/useAuth.ts:25 | a session starts with no mode |
| Auth.VerifyPassword | src/hooks/useAuth.ts:27-50 | true, and edit mode, exactly when the store can be read and holds exactly the given password; otherwise false with the mode unchanged |
| Auth.ChangePassword | src/hooks/useAuth.ts:52-84 | true exactly when the store can be read, holds the current password and the write succeeds, and then the stored password is the new one; otherwise nothing is written; the mode never changes |
| Auth.Logout | src/hooks/useAuth.ts:86-88 | the mode is cleared from any state and the stored password kept |
| Auth.ChangeThenVerify | src/hooks/useAuth.ts:27-84 | after a successful change the new password verifies and the old one no longer does |
| Auth.FailedVerifyKeepsMode | src/hooks/useAuth.ts:35-45 | a failed verification keeps the mode held before |
| Auth.VerifyThenLogout | src/hooks/useAuth.ts:25-88 | logging out after a verification returns to the starting state |
| LoginScreen.HandleEditMode | src/components/LoginScreen.tsx:21-42 | the verifier is called exactly when the password is not blank, and with that password; blank sets its error; a rejection clears the box and sets an error; a thrown error sets a different error and keeps the box; the busy flag is off after every call that reaches the verifier, and a blank password leaves it as it was |
| LoginScreen.HandleKeyPress | src/components/LoginScreen.tsx:44-48 | Enter runs exactly the button's handler; other keys change nothing |
| LoginScreen.LoginWithHook | src/components/LoginScreen.tsx:21-42 | wired to the hook, edit mode results exactly when it was already held or the password matches the stored one, and the box is cleared exactly when it does not match |
| ChangePasswordDialog.FirstFailure | src/components/ChangePasswordModal.tsx:32-55 | only the first failing check is reported, in the order blank current, blank new, new shorter than four, new differs from confirmation, new equals current; none exactly when all five pass |
| ChangePasswordDialog.Respond | src/components/ChangePasswordModal.tsx:57-77 | the callback is called exactly when no check failed, with the current and new passwords; a failed check shows its message; success, refusal and a thrown error each show their own message, and the busy flag ends off; the fields are kept |
| ChangePasswordDialog.Submit | src/components/ChangePasswordModal.tsx:27-78 | the callback is called exactly when all five checks pass; otherwise the first failure is shown; the answers are reported as in the response |
| ChangePasswordDialog.Close | src/components/ChangePasswordModal.tsx:80-87 | all three fields and both messages are cleared |
| ChangePasswordDialog.DialogWithHook | src/components/ChangePasswordModal.tsx:52-61 | wired to the hook, a reported success replaced the stored password by a different one, which then verifies while the old one does not |
| DescriptionFilter.Containing | src/components/DescriptionFilter.tsx:19-21 | exactly the descriptions whose lower-cased text contains the term: every kept one comes from the list and contains it, and none containing it is dropped |
| DescriptionFilter.Matches | src/components/DescriptionFilter.tsx:17-23 | a blank search offers nothing; otherwise the offer is sorted, holds the same descriptions with the same multiplicities as the case-insensitive matches, and misses none of them |
| DescriptionFilter.MatchesIgnoresCase | src/components/DescriptionFilter.tsx:19-21 | two searches that differ only in letter case offer the same descriptions |
| DescriptionFilter.CheckboxChange | src/components/DescriptionFilter.tsx:25-31 | checking appends the description at the end, keeping what was there; unchecking removes every copy of it and keeps every other description |
| DescriptionFilter.CheckThenUncheck | src/components/DescriptionFilter.tsx:25-31 | unchecking right after checking ends where unchecking alone ends |
| SearchableSelect.FilteredOptions | src/components/SearchableSelect.tsx:27 | the options, in order, whose label contains the search ignoring case, none missed |
| SearchableSelect.EmptySearchKeepsAll | src/components/SearchableSelect.tsx:27 | an empty search narrows nothing |
| SearchableSelect.SelectedOption | src/components/SearchableSelect.tsx:28 | no option is shown exactly when no option carries the value; otherwise the shown option is the first in the list carrying the value, so with two options of that value the earlier label is shown |
| SearchableSelect.ShowAddNew | src/components/SearchableSelect.tsx:29 | plain definition without an ensures (allowed, non-blank search, no narrowed label equal ignoring case); `ShowAddNewOverAllOptions` restates it over all options |
| SearchableSelect.ShowAddNewOverAllOptions | src/components/SearchableSelect.tsx:27-29 | adding is offered exactly when allowed, the search is not blank and no option at all has the search as its label ignoring case |
| SearchableSelect.Pick | src/components/SearchableSelect.tsx:63-66 | the option's value becomes the value, the search empties and the list closes; `PickedIsShown` states the consequence |
| SearchableSelect.PickedIsShown | src/components/SearchableSelect.tsx:63-66 | after picking an option, the control shows an option with the picked value |
| SearchableSelect.AddNew | src/components/SearchableSelect.tsx:70-76 | the trimmed search goes to the add handler when there is one and always to the change handler, the same text to both; the box empties and the list closes |
| SearchableSelect.AddedValueNotEmpty | src/components/SearchableSelect.tsx:29-74 | when the add button is offered, the value it hands on is never empty |
| MultiSelect.Toggle | src/components/MultiSelectCheckbox.tsx:35-41 | the toggled value is present afterwards exactly when it was absent before; every other value keeps its membership; a removal keeps the others in order, an addition appends at the end |
| MultiSelect.ToggleTwice | src/components/MultiSelectCheckbox.tsx:35-41 | toggling an unselected value twice gives the selection back |
| MultiSelect.SelectAll | src/components/MultiSelectCheckbox.tsx:43-49 | when the counts are equal the selection is cleared; otherwise it becomes every option's value in option order |
| MultiSelect.SelectAllTwice | src/components/MultiSelectCheckbox.tsx:43-49 | pressing select-all twice from a partial selection leaves nothing selected |
| MultiSelect.SelectAllComparesCounts | src/components/MultiSelectCheckbox.tsx:43-49 | two selections of the same size give the same result whatever values they hold, and the selection is cleared exactly when its size equals the number of options (or there are none) |
| MultiSelect.Join | src/components/MultiSelectCheckbox.tsx:54 | no parts join to empty text and one part to itself; `JoinSnoc` states the general case |
| MultiSelect.JoinSnoc | src/components/MultiSelectCheckbox.tsx:54 | joining one more part gives the earlier joined text, the separator, then the new part, so the parts appear in order with the separator between neighbours |
| MultiSelect.SelectedLabels | src/components/MultiSelectCheckbox.tsx:51-54 | plain definition without an ensures (filter by selected value, take labels, join with ", "); `SelectedLabelsSnoc` and `PlaceholderIffNothingSelected` characterise it |
| MultiSelect.SelectedLabelsSnoc | src/components/MultiSelectCheckbox.tsx:51-54 | one more option at the end adds its label at the end exactly when its value is selected: alone when no earlier option is selected, after ", " otherwise; an unselected option leaves the text unchanged |
| MultiSelect.DisplayText | src/components/MultiSelectCheckbox.tsx:56 | the placeholder shows when the label list is empty, and the labels otherwise |
| MultiSelect.PlaceholderIffNothingSelected | src/components/MultiSelectCheckbox.tsx:51-56 | with non-empty option labels, the placeholder shows exactly when no option's value is selected |
| Dates.Parse | src/hooks/useSalary.ts:75 | a date that parses has a four-digit year, a month from 1 to 12 and a day from 1 to 31 |
| Dates.FullYear | src/pages/Analysis.tsx:308 | the year is defined exactly when the date parses, and is then the parsed year |
| Dates.Month0 | src/pages/Analysis.tsx:273 | the month is defined exactly when the date parses, and is then from 0 to 11 and one less than the written month |
| Dates.Format | src/components/ExpenseForm.tsx:36 | the stored form of a valid date has the `YYYY-MM-DD` shape |
| Dates.ParseFormat | src/components/ExpenseForm.tsx:36 | parsing the stored form of a valid date gives the date back |
| Dates.FormatParse | src/hooks/useSalary.ts:75 | a string that parses is the stored form of what it parses to |
| Dates.StringOrderIsChronological | src/pages/Expenses.tsx:81-91 | for two `YYYY-MM-DD` strings, string order is calendar order and string equality is date equality |
| Dates.BoundIsChronological | src/pages/Expenses.tsx:81-91 | the inclusive range checks on date strings agree with calendar order |
| Dates.SplitYearMonthOfIso | src/pages/Dashboard.tsx:31-33 | on a `YYYY-MM-DD` string, splitting at dashes and parsing gives the written year and the 1-based month |
| Dates.SplitYearMonth | src/pages/Dashboard.tsx:31-33 | plain definition without an ensures (`parseInt` of the first and second dash-separated fields); `SplitYearMonthOfIso` and `SplitYearMonthOfParsed` characterise it |
| Dates.SplitYearMonthOfParsed | src/pages/Dashboard.tsx:31-33 | for a date that parses, the split-and-parse reading is the full year and one more than the 0-based month |
| Numbers.ParseInt | src/pages/Analysis.tsx:116 | the result is NaN exactly when no digit follows the leading white space and optional sign |
| Numbers.ParseIntDigits | src/pages/Analysis.tsx:148 | a plain numeral parses to its value |
| Numbers.ParseFloatDigits | src/pages/Salary.tsx:87 | a plain numeral parses to its value, with no fraction |
| Numbers.ParseFloat | src/pages/Salary.tsx:87 | the empty string is NaN; `ParseFloatDecimal`, `ParseFloatWhole` and `ParseFloatNaN` pin the value and the NaN condition, and `Numbers.Number.OrZero` gives `|| 0` |
| Numbers.ParseFloatDecimal | src/pages/Salary.tsx:87-91 | white space, an optional `+` or `-`, whole digits w, a point and fraction digits f (one of them non-empty), then anything but a digit, parse to ± the value of w plus the fraction digits read as tenths, hundredths and so on |
| Numbers.ParseFloatWhole | src/pages/Salary.tsx:87 | white space, an optional sign and a whole numeral, followed by neither a digit nor a point, parse to the numeral's value with the sign applied |
| Numbers.ParseFloatNaN | src/pages/Salary.tsx:87 | the result is NaN exactly when, after white space and a sign, the text starts neither with a digit nor with a point followed by a digit |
| Numbers.HalfAmount | src/pages/Salary.tsx:87 | "2.5", the kind of two-decimal figure the gross box holds, parses to 2.5 |
| Numbers.ParseFloatSigned | src/pages/Salary.tsx:87 | after leading white space and a written sign, the numeral that follows is read and the sign applied; a numeral with no digits gives NaN |
| Numbers.Number.OrZero | src/components/MilkTrackingModal.tsx:128 | plain definition without an ensures (`n || 0`: the value when finite, else zero); `Contribution`, `EmptyContributionsAreZero` and `OnRate` state it for its callers |
| Numbers.DigitsOrder | src/pages/Expenses.tsx:81-91 | equal-length numerals compare as strings exactly as their values compare as numbers |
| Numbers.ValueOfDigits | src/components/ExpenseForm.tsx:36 | a number written zero-padded in enough digits reads back as the number |
| Numbers.DigitsOfValue | src/components/ExpenseForm.tsx:36 | a numeral read and written back at its own width is unchanged |
| Numbers.NatToString | src/pages/Analysis.tsx:316 | a natural number renders as a non-empty numeral without leading zeros |
| Numbers.IntToStringValue | src/pages/Analysis.tsx:316 | reading a year's label back with `parseInt` gives the year |
| Grouping.Group | src/pages/Analysis.tsx:285-295 | one entry per key, every record's key present, every entry's key taken from a record, each total the sum of the amounts of the records with that key |
| Grouping.AccumulateTotals | src/pages/Analysis.tsx:306-311 | after folding records into a map, each key's total is its old total plus the amounts of the records with that key |
| Grouping.AccumulateKeys | src/pages/Analysis.tsx:306-311 | folding records into a map keeps keys distinct and adds exactly the records' keys |
| Grouping.SortBy | src/pages/Analysis.tsx:301 | the sorted list is ordered by rank and is a permutation of the input |
| Grouping.SumSortBy | src/pages/Analysis.tsx:301 | sorting does not change any sum over the list |
| Grouping.SortByDistinctKeys | src/pages/Analysis.tsx:314 | sorting entries with distinct keys keeps the keys distinct |
| Grouping.GroupSorted | src/pages/Dashboard.tsx:53-65 | grouping then sorting still gives one entry per key, every record's key, and each key's total |
| Grouping.ToPointsTotal | src/pages/Analysis.tsx:296-300 | the chart points add up to the entries' total |
| Grouping.SumForIsFilteredSum | src/pages/Dashboard.tsx:70-74 | a key's total is the sum over the records selected by that key |
| Seqs.Filter | src/pages/Expenses.tsx:78-96 | the kept items are in order, each from the list and satisfying the test, and no item satisfying it is dropped |
| Seqs.SumPartition | src/components/SummaryCards.tsx:10-12 | splitting a list by a test and its negation splits its sum |
| Seqs.FilterFilter | src/pages/Expenses.tsx:78-96 | filtering twice is filtering once by both tests |
| Seqs.Dedup | src/components/ExpenseForm.tsx:26 | the result has no repeats and holds exactly the items of the input |
| Seqs.DedupOrder | src/components/ExpenseForm.tsx:26 | distinct items keep the order of their first occurrence, as a `Set` does |
| Seqs.Find | src/hooks/useMaster.ts:47 | nothing is found exactly when no item passes; otherwise the first item that passes |
| Seqs.Without | src/components/MultiSelectCheckbox.tsx:37 | every copy of the value goes, the rest stay in order |
| Seqs.WithoutAppended | src/components/MultiSelectCheckbox.tsx:35-41 | removing a just-appended absent value gives the list back |
| StringOrder.LtTransitive | src/pages/Expenses.tsx:66 | string order is transitive |
| StringOrder.LtTotal | src/pages/Expenses.tsx:66 | any two distinct strings are ordered one way |
| StringOrder.LtConcat | src/pages/Expenses.tsx:81-91 | comparing equal-length heads decides, and equal heads defer to the tails |
| StringOrder.Sort | src/components/DescriptionFilter.tsx:22 | the result is sorted and a permutation of the input |
| StringOrder.SortedUnique | src/pages/Expenses.tsx:64-67 | the result is strictly ascending and holds exactly the input's strings |
| StringOrder.StrictlySortedUnique | src/pages/Expenses.tsx:64-67 | two strictly ascending lists with the same strings are equal |
| StringOrder.SortedUniqueIdempotent | src/pages/Expenses.tsx:64-67 | applying the unique-and-sort step twice is applying it once |
| Text.TrimStart | src/components/ExpenseForm.tsx:54 | what is dropped is a blank prefix and what remains does not start with white space, over the ECMAScript white-space and line-terminator characters |
| Text.TrimEnd | src/components/ExpenseForm.tsx:54 | what is dropped is a blank suffix and what remains does not end with white space, over the ECMAScript white-space and line-terminator characters |
| Text.Trim | src/components/ExpenseForm.tsx:54 | what remains neither starts nor ends with white space; `TrimKeepsMiddle` and `TrimEmptyIffBlank` characterise it |
| Text.TrimKeepsMiddle | src/components/ExpenseForm.tsx:54 | trimming keeps one contiguous stretch of the string and drops only white space on either side of it |
| Text.TrimStartBlankPrefix | src/components/ExpenseForm.tsx:54 | white space in front of text that does not itself start with white space is exactly what the leading trim removes |
| Text.TrimEmptyIffBlank | src/components/ExpenseForm.tsx:54 | trimming gives the empty string exactly when every character is ECMAScript white space or a line terminator (no-break space and byte-order mark included) |
| Text.NoBreakSpaceIsBlank | src/components/ExpenseForm.tsx:54 | a lone no-break space is blank and trims to the empty string, so a description of only that is rejected |
| Text.Lower | src/hooks/useMaster.ts:47 | same length, each character lower-cased |
| Text.LowerIdempotent | src/hooks/useMaster.ts:47 | lower-casing twice is lower-casing once |
| Text.Capitalize | src/components/AdvancedFilterBar.tsx:48 | same length, the first character upper-cased and the rest unchanged |
| Text.LowerCapitalize | src/pages/Dashboard.tsx:62-70 | lower-casing a capitalised string is lower-casing the string |
| Text.After | src/pages/Dashboard.tsx:31 | nothing exactly when the separator is absent; otherwise the text is the first field, the separator and the rest |
| Numbers.NatToStringValue | src/pages/Analysis.tsx:38 | a month number rendered with `toString` reads back under `parseInt` as itself |
| Text.Before | src/pages/Dashboard.tsx:31 | the first field is a prefix free of the separator, the whole text when the separator is absent, and otherwise followed by the separator |
| Text.SecondField | src/pages/Dashboard.tsx:31-33 | there is a second field exactly when the separator occurs; it is the text that starts just after the first separator and runs, without a separator, up to the second separator or the end of the string |
| AnalysisPage.DatedRows | src/pages/Analysis.tsx:307-311 | the rows whose date yields a year, in order, none missed |

## Left out

- Remote store calls. Each query or mutation is replaced by a parameter
  holding its answer. The seeding rows in `src/lib/initMasterTable.ts` are
  modelled only as the list that is inserted.
- Concurrency. Overlapping fetches and the order in which their answers
  arrive are not modelled; each operation sees one answer.
- JavaScript `Date`. Time zones, the wall clock and the last-month range of
  the recurring dialog are not modelled. "Today", the current year and the
  current month are parameters. Only the stored `YYYY-MM-DD` form (month
  1-12, day 1-31) parses; every other string is an invalid date. Day-of-month
  validity beyond 31 is not checked.
- Locale-dependent output. `toLocaleString`, `toFixed`, `Intl` currency
  formatting and the locale month names are not modelled. The month labels
  are fixed English abbreviations.
- Floating point. Amounts and percentages are exact reals, so rounding and
  overflow are not modelled.
- `parseFloat` and `parseInt` cover leading white space, a sign, decimal
  digits and one decimal point. Exponents, `Infinity`, hexadecimal prefixes
  and other radices are not modelled.
- Letter case is ASCII only. Full Unicode case mapping and UTF-16 code-unit
  details are not modelled.
- Sort stability. The sorts are proved ordered and permutations. Where
  several entries share a rank, the order among them is not pinned to the
  source's stable sort. The dashboard's type totals live in a plain object,
  not a `Map`: `Object.entries` lists integer-like keys first, and a type
  named like an inherited property (`constructor`, say) starts from that
  property instead of 0. Neither is modelled; the grouping reads entries
  back in insertion order.
- Undated rows on the yearly chart. The source groups a row with an
  unparsable date under a NaN year. The model drops such rows, and
  `AnalysisPage.YearlyCoversAll` assumes every row is dated.
- AnalysisPage.YearTotals: the ascending year order is stated as distinct
  keys sorted by year, which together give strictly ascending years, rather
  than as a single strict-order clause.
- The delayed clearing of the password dialog's success message
  (`setTimeout`) is not modelled; the dialog's reply is modelled up to that
  point.
- Error texts come from thrown `Error` values. An exception is one case with
  its own message; the message text of the thrown error is not modelled.
- `fetchSalaryDetails` is the same remote read as the other fetches, and
  only its answer is modelled.
- Rendering a number as form text is a parameter, because it is not
  modelled. This covers the milk weight, an amount and the salary figures.
- Presentation is not modelled: loading flags, `useEffect` re-runs,
  chart geometry, the open and closed state of lists, and the `onViewMode`
  and `setMode` pass-through wiring.
- Bar-click UI state is not modelled: the analysis page's month and year bar
  clicks, and its type-chart month click. They only set display state. The
  dashboard's bar click, which selects records, is modelled.
- Password hashing. The stored password is an opaque string compared for
  equality.
