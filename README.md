# Finance ledger of the GID Partners finance system, in Dafny

The system keeps a ledger of two tables: transactions (date, type, category,
optional project, description, amount) and projects (unique name, client,
budget, status). From the transactions of a date window it computes the
dashboard's figures: income, expense, profit and margin. It also computes each
project's net, a monthly income/expense pivot, and per-category tables for
the profit and loss statement. Rows enter the ledger through the transaction
form, the project form, and a spreadsheet import.

This project models that ledger and its aggregation rules. It proves the
properties the code promises:
- sum identities;
- independence from row order;
- sortedness with permutation;
- which rows each group holds;
- what each save or import appends, and that a refused save changes nothing.

Modules, one per component:
- `LedgerTypes` (types.dfy): the entities. It also holds the date key used for
  `BETWEEN` and `ORDER BY` on the `YYYY-MM-DD` text, and the reading of the
  type text.
- `Order` (order.dfy): the lexicographic string order used for `groupby` keys.
- `Sums` (sums.dfy): the amount sum over all rows, and over the rows of one type.
- `Sorting` (sorting.dfy): sorting by a numeric key, largest first.
- `Grouping` (grouping.dfy): `groupby` on the month, category or project column.
- `Metrics` (metrics.dfy): `calculate_metrics`.
- `Profitability` (profitability.dfy): `project_profitability`.
- `Reports` (reports.dfy): the monthly pivot and the category tables.
- `Views` (views.dfy): the list filters and the filtered total, the recent
  rows, and a project's card with its budget progress.
- `LedgerStore` (ledger.dfy): the `Ledger` class and its two queries. The class
  holds the tables as `seq` fields, with one id counter per table.

Behaviours of the code worth knowing, which the model keeps:
- `project_profitability` keeps every row whose project is not null
  (`notna`), so an empty-string project forms a group of its own.
- `project_profitability` has no tie-break between equal nets, so only
  non-increasing order is stated.
- There is no separate validation step. The page refuses an interactive save
  with `amount <= 0` and a project with an empty name. The store refuses a
  duplicate name, and `add_project` reports that as `False`. The model has the
  same split: `SaveTransaction` and `SaveProject` for the page, and
  `AddProject` for the store. Import checks nothing.

## Model

| member | source | states |
|---|---|---|
| `LedgerTypes.DateKeyOrder` | app.py:82-85 | for valid dates, comparing the date keys is comparing (year, month, day) lexicographically, which is the order `BETWEEN` and `ORDER BY date` give the `YYYY-MM-DD` text |
| `LedgerTypes.ParseKind` | app.py:102-103 | the type text reads as Income exactly when it is '수입' and as Expense exactly when it is '지출'; any other text reads as Other, carrying that text; the kind reads back as the same text |
| `LedgerTypes.ParseKindLabel` | app.py:253-254 | writing a well-formed kind as text and reading it back gives the same kind |
| `LedgerTypes.MonthOfMonotone` | app.py:173-174 | dates with the same year and month get the same month key; later dates never get an earlier month |
| `Sums.KindTotalIsFilteredSum` | app.py:102-103 | the type total `KindTotal` is the amount sum of the rows filtered to that type |
| `Sums.KindTotalPermutation` | app.py:102-103 | the total of one type is the same for any reordering of the rows |
| `Sums.KindTotalAbsent` | app.py:403 | a type that no row carries has total 0 (the `fillna(0)` cell) |
| `Sums.AmountTotalSplits` | app.py:296 | when every row is Income or Expense, the plain amount sum is income plus expense |
| `Sorting.SortDesc` | app.py:119 | the result is a permutation of the input, ordered by the key from largest to smallest |
| `Grouping.GroupKeys` | app.py:114 | the group keys are strictly ascending (so each appears once) and are exactly the non-missing keys of the rows |
| `Grouping.Group` | app.py:114-115 | a group holds exactly the rows whose key is the group's key, each as many times as in the frame |
| `Grouping.GroupKeysTotal` | app.py:402 | the totals of the groups add up to the total of all rows that `groupby` keeps |
| `Metrics.Margin` | app.py:105 | when income is positive, margin × income = profit × 100; otherwise margin is 0 |
| `Metrics.CalculateMetrics` | app.py:98-107 | income is the sum over Income rows and expense the sum over Expense rows, on the empty frame too; profit = income − expense; margin is the `Margin` of the two |
| `Metrics.MetricsOfEmpty` | app.py:99-100 | an empty frame yields (0, 0, 0, 0) |
| `Metrics.MetricsOrderIndependent` | app.py:102-105 | reordering the rows leaves all four figures as they are |
| `Metrics.MetricsIgnoreOtherTypes` | app.py:102-103 | keeping only the Income and Expense rows leaves the figures as they are |
| `Metrics.MetricsIgnoreOtherRow` | app.py:102-103 | appending a row of any other type leaves the figures as they are |
| `Metrics.MarginAtMostHundred` | app.py:104-105 | with non-negative amounts and positive income, the margin is at most 100 |
| `Profitability.ProjectProfitability` | app.py:110-119 | the output rows run from the largest net to the smallest, and each row's net is its project's Income sum minus its Expense sum |
| `Profitability.NetRows` | app.py:114-117 | one row per project key, in key order, each carrying that project's net |
| `Profitability.ProfitabilityNames` | app.py:114 | a name is listed exactly when some row names that project |
| `Profitability.ProfitabilityOrder` | app.py:114-119 | each project is listed once |
| `Profitability.ExpenseOnlyComesLast` | app.py:114-119 | with non-negative amounts, a project without Income rows has net ≤ 0, and so does every project listed after it; no project with a positive net comes after an expense-only one |
| `Profitability.UnattributedRowsExcluded` | app.py:111-114 | rows without a project produce no output, and neither does an empty frame |
| `Profitability.ProfitabilityNetsAddUp` | app.py:114-116 | the listed nets add up to income minus expense over the rows that name a project |
| `Profitability.TwoProjectExample` | app.py:110-119 | A earning 100 and B spending 50 give [(A, 100), (B, −50)] |
| `Reports.MonthlyPivot` | app.py:399-404 | the pivot's months are strictly ascending, and each row's net is its Income cell minus its Expense cell |
| `Reports.PivotMonths` | app.py:399-403 | the month axis holds exactly the months in which some row is dated |
| `Reports.PivotCells` | app.py:402-404 | each row has the month's Income sum, its Expense sum and net = Income − Expense; a missing type reads 0 |
| `Reports.SameMonthSameBucket` | app.py:399-400 | two rows with the same year and month fall in the same pivot row |
| `Reports.PivotAgreesWithMetrics` | app.py:402-404 | the Income, Expense and net columns add up to the dashboard's income, expense and profit |
| `Reports.CategoryBreakdownKeys` | app.py:372-373 | a category is listed in the table of a type exactly when some row of that type has it; the dashboard's expense breakdown (app.py:186) is the Expense table |
| `Reports.CategoryBreakdown` | app.py:372-373 | the categories of a type's table are listed in strictly ascending text order, each once, and each category's amount is the sum of the amounts of that type's rows in that category (also the dashboard's expense breakdown, app.py:186) |
| `Reports.CategoryBreakdownTotal` | app.py:372-389 | a category table adds up to the total of its type |
| `Reports.StatementNetIsProfit` | app.py:381-392 | the statement's net profit (income table total minus expense table total) equals the dashboard's profit |
| `Views.Visible` | app.py:274-281 | a row is listed exactly when it passes every column whose pick is not empty, as many times as it occurs in the frame |
| `Views.Keep` | app.py:277-281 | one `isin` step keeps exactly the rows that meet its column's pick, each as many times as before, and never adds a row |
| `Views.KeepNarrows` | app.py:276-281 | filtering the listed rows by one more column gives the rows listed under the narrower selection |
| `Views.EmptySelectionShowsAll` | app.py:274-281 | with nothing picked, the list is the whole frame |
| `Views.FilterList` | app.py:274-296 | the step-by-step filtering gives exactly `Visible` of the selection, and the total is that list's amount sum |
| `Views.FilteredTotalIsGross` | app.py:296 | the filtered total adds Income and Expense amounts alike: it is income plus expense, not the net |
| `Views.Recent` | app.py:213 | the first ten rows, or all rows when there are fewer than ten |
| `Views.RecentAreLatest` | app.py:213 | on a frame sorted by date, no row left out of the recent view is later than a row in it |
| `Views.BudgetProgress` | app.py:355-356 | progress exists exactly when the budget is positive; it is at most 1, and exactly 1 when income reaches the budget; below that it is income / budget; it is non-negative when income is |
| `Views.Cards` | app.py:342-356 | a card exists exactly when some row names the project; it holds the project's income, expense, profit = income − expense, and the budget progress of that income |
| `Views.CardAgreesWithProfitability` | app.py:345-347 | a card's profit is the net that `project_profitability` lists for the same project |
| `Views.ProgressInUnitRange` | app.py:355-358 | with non-negative amounts, a shown progress value lies in [0, 1] |
| `LedgerStore.Stamp` | app.py:433 | an imported batch becomes one row per input row, in order, with consecutive ids |
| `LedgerStore.ReimportDuplicates` | app.py:433 | importing the same batch again gives the same rows, differing only in id |
| `LedgerStore.FromRow` | app.py:433 | an imported row is stored column for column under its id; its type text is kept as it is and reads back unchanged |
| `LedgerStore.InWindow` | app.py:83 | for valid dates, `BETWEEN` holds exactly when start ≤ date ≤ end in calendar order, both ends included |
| `LedgerStore.Window` | app.py:82-83 | when both bounds are given, the selected rows are exactly those with start ≤ date ≤ end, each as many times as in the table |
| `LedgerStore.ActiveProjects` | app.py:93 | the result holds exactly the projects whose status is 'active', each as many times as in the table |
| `LedgerStore.Ledger.constructor` | app.py:17-45 | both tables start empty and both id counters start at 1 |
| `LedgerStore.Ledger.AddTransaction` | app.py:51-59 | appends exactly one row under the next id and advances the counter by one; the projects are unchanged; every stored type stands for exactly one text |
| `LedgerStore.Ledger.AddProject` | app.py:62-75 | returns true exactly when no project (of any status) has that exact name; on true it appends one 'active' project; on false nothing changes |
| `LedgerStore.Ledger.SaveTransaction` | app.py:251-258 | saves exactly when amount > 0, and then appends one row under the next id and advances the counter by one; otherwise the ledger is unchanged |
| `LedgerStore.Ledger.SaveProject` | app.py:318-326 | an empty name is refused and changes nothing; a taken name is refused and changes nothing; otherwise one 'active' project is appended under the next id and the counter advances by one |
| `LedgerStore.Ledger.Import` | app.py:431-435 | appends every row of the batch without checks and reports the batch length; the table grows by exactly that many rows |
| `LedgerStore.Ledger.GetTransactions` | app.py:78-89 | the result is sorted by date (latest first) and is a permutation of the window; with both bounds it holds exactly the rows in the inclusive range; with a bound missing it holds every row |
| `LedgerStore.Ledger.GetProjects` | app.py:91-95 | the result holds exactly the active projects, each as many times as in the table (no order is promised by the query; the model returns them in table order) |

## Left out

- Page rendering, widgets, menus, `st.rerun` and the messages shown to the user (app.py:122-460). These are presentation. The deciding conditions they guard are modelled: the positive amount, the non-empty name, and the `False` from `add_project`.
- Plotly charts (app.py:178-206), which are drawn by a library. The dashboard's long-form monthly `groupby` (app.py:176) feeds only a chart: its sums are the pivot's cells, without the fill.
- The sqlite connection, commits and the f-string query text (app.py:17-95). The tables are the `Ledger` class fields, and the query is modelled by what it selects, not by its text.
- The `created_at` timestamps of both tables. They come from the clock.
- Excel read and write (app.py:427, app.py:446-451), which is serialisation done by pandas/openpyxl. Export runs only when the filtered frame is non-empty (app.py:443). An import row is modelled as the six columns already parsed. A batch that lacks a column is not modelled, and neither is the broad `except` (app.py:437-438). Nor is a batch with extra columns, such as the file the export writes (app.py:447), which carries `id` and `created_at`: `to_sql` would insert those ids, which collide with the primary key (app.py:24). So `ReimportDuplicates` (nothing is deduplicated) holds for six-column batches only.
- A time of day on imported dates. pandas may write an imported date as `YYYY-MM-DD HH:MM:SS`, and that text sorts after the bare end date, so `BETWEEN` could drop imported rows dated on the end day. The model keeps dates as (year, month, day), so it does not show this.
- Currency and percentage formatting (`₩{:,.0f}`, `.1f%`), which is presentation.
- Dates that are not calendar dates. `Valid()` does not demand `ValidDate` of stored rows, because the import stores whatever its date column holds. The date key orders dates as the `YYYY-MM-DD` text does only for valid dates, and `DateKeyOrder` and `InWindow` state that only for them.
- Changing a project's status. No code in the repository does it; the schema only sets the default 'active' (app.py:42). `Ledger` creates only active projects. `Inactive` stands for a status written to the table by other means, and `Valid()` keeps it from carrying the text 'active'.
- Floating-point `REAL` amounts. Amounts are integers (won), and margin and progress are exact reals.
- The pivot columns for types other than Income and Expense (app.py:403). Rows of such types still create their month's pivot row, and they count toward neither sum.
- Sorting.SortDesc: the order among rows with equal keys is left open. Neither `ORDER BY date DESC` nor `sort_values` fixes it, so equal dates and equal nets get no tie-break.
- LedgerStore.Ledger.Import: a batch that fails part way through is not modelled. The source gives no definite rule for what stays in the table in that case.
