# AccountLedger 2.0 — a Dafny model of the ledger logic

AccountLedger 2.0 is a personal finance app. It keeps transactions in a
MySQL table and shows them in a Swing window with three tabs: the ledger,
the reports and an entry form. A console reports menu works over the same
data. This project models the in-memory logic behind these screens and
proves what it does:

- **Ledger model**: the ledger tab's table state (`LedgerTableModel`). It
  holds every loaded transaction, newest first, in `all`. The rows passing
  the stored filter are in `visible`. The model reloads from the store,
  re-filters in one pass, totals the visible rows and adds a record.
- **Ledger filter**: the ledger tab's filter (`LedgerPanel`). A type
  criterion (All, Deposits, Payments) is decided by the sign of the amount.
  It is ANDed with an optional case-insensitive vendor match. The panel's
  Refresh reloads the model and then re-filters.
- **Reports tab**: the five reports (`ReportsPanel`). They are month to
  date, previous month, year to date, previous year and vendor search.
  Each loads the store, keeps the records in its window, sorts them newest
  first by (date, time) and totals them. The panel remembers the last
  report, and Refresh re-runs it.
- **Console reports**: the console menu (`Reports`). It covers the same
  windows, the multi-criteria custom search, `displayResults` with its
  in-place date-only sort, and the menu loop.
- **Entry form**: `onSave` in `AddTransactionPanel`. It validates the
  trimmed fields and the amount, stores payments as minus their
  magnitude, saves exactly one record, and clears the form.
- **Database credentials**: the precedence rules in `DbConfig`. A system
  property beats an environment variable, which beats a default. The user
  lookup skips blank values; the password lookup accepts empty ones.

The store, `TransactionManager`, is modelled as a class whose `rows` are
in insertion order, that is, ascending id. `Save` appends a row. `Load`
returns the rows in the query's order: date descending, then time, then
id. Amounts are unbounded integer cents. The `DECIMAL(10,2)` column
also keeps cents, but only within its range (see "Left out"). Today's
date, the current time, the amount parser, the date parser and the amount
rendering are parameters.

Modules and files:

| file | module | models |
|---|---|---|
| wrappers.dfy | Wrappers | `Option`, `Result` |
| text.dfy | Text | `String.trim`, `isBlank`, `toLowerCase` (ASCII), `contains` |
| transactions.dfy | Transactions | the `Transaction` record, order-preserving selection, sums |
| sorting.dfy | Sorting | the two newest-first comparators and a stable sort for them |
| store.dfy | Store | the transactions table: insert and the ordered select |
| ledger_table_model.dfy | LedgerModel | `LedgerTableModel` |
| ledger_panel.dfy | LedgerView | `LedgerPanel`'s filter and Refresh |
| report_windows.dfy | ReportWindows | the report windows and titles shared by both front ends |
| reports_panel.dfy | ReportsView | `ReportsPanel` |
| reports.dfy | ConsoleReports | `Reports` (console) |
| db_config.dfy | DbSettings | `DbConfig` |
| add_transaction_panel.dfy | EntryForm | `AddTransactionPanel.onSave` |

Java's `List.sort` is a stable merge sort. Here an insertion sort,
`SortNewestFirst`, stands in for it. `StableSortIsUnique` proves that any
list that is newest first and keeps the input's order among equal keys is
that same list. So the choice of algorithm changes nothing.

Some of this behaviour is easy to miss when reading the source:

- The console's `displayResults` sorts by date only. Records of one day
  keep the order they were given in (`DateSortKeepsSameDayOrder`). The
  Reports tab sorts by date, then time. On the store's own order both
  sorts change nothing (`ConsoleMatchesPanel`).
- `customSearch` calls `displayResults` after every match, on the list so
  far. That call sorts the list in place before the next record is
  appended. `CustomSearch` models every printed block. `AppendMatch` and
  `SortAgainAfterAppend` show that block *i* lists exactly the first
  *i + 1* matches. When nothing matches, nothing is printed, not even the
  no-match line. The menu has no choice that reaches `customSearch`.
- `trim` and `isBlank` disagree. A lone U+3000 is blank but survives
  `trim`; a lone U+0000 is trimmed away but is not blank
  (`BlankSurvivesTrim`, `TrimmedAwayButNotBlank`).

## Model

| member | source | states |
|---|---|---|
| Text.IsBlank | src/main/java/com/pluralsight/DbConfig.java:20 | `isBlank`: every character is whitespace (the empty string is blank); the definition the user lookup and `BlankSurvivesTrim` are stated in |
| Text.TrimStart | src/main/java/com/pluralsight/LedgerPanel.java:98 | the leading part of `trim`: what is kept is a suffix of the input, every character cut off is at most U+0020, and the result does not start with such a character |
| Text.TrimEnd | src/main/java/com/pluralsight/LedgerPanel.java:98 | the trailing part of `trim`: a prefix of the input, only characters at most U+0020 cut off, and the result does not end with one |
| Text.TrimIsSlice | src/main/java/com/pluralsight/AddTransactionPanel.java:172-174 | `trim` returns a contiguous slice of its input with only characters at most U+0020 on either side, and the slice starts and ends with a character above U+0020 |
| Text.Trim | src/main/java/com/pluralsight/AddTransactionPanel.java:172-174 | `trim`: the leading then the trailing cut; `TrimIsSlice` pins it to the slice Java returns |
| Text.TrimIdempotent | src/main/java/com/pluralsight/AddTransactionPanel.java:172-174 | trimming a trimmed string changes nothing |
| Text.BlankSurvivesTrim | src/main/java/com/pluralsight/DbConfig.java:20 | a string can be blank (`isBlank`) and still survive `trim` unchanged: the ideographic space |
| Text.TrimmedAwayButNotBlank | src/main/java/com/pluralsight/DbConfig.java:20 | a string can be trimmed to nothing although `isBlank` is false: U+0000 |
| Text.LowerChar | src/main/java/com/pluralsight/LedgerPanel.java:98 | lower-casing maps 'A'..'Z' onto 'a'..'z' letter for letter, changes no other character, and never yields an upper-case ASCII letter |
| Text.Lower | src/main/java/com/pluralsight/LedgerPanel.java:98-105 | `toLowerCase` keeps the length and lower-cases each character in place |
| Text.LowerIdempotent | src/main/java/com/pluralsight/Reports.java:115-119 | lower-casing an already lower-cased query changes nothing |
| Text.LowerTrimStart | src/main/java/com/pluralsight/ReportsPanel.java:155 | lower-casing commutes with cutting leading characters at most U+0020 |
| Text.LowerTrimEnd | src/main/java/com/pluralsight/ReportsPanel.java:155 | lower-casing commutes with cutting trailing characters at most U+0020 |
| Text.LowerTrim | src/main/java/com/pluralsight/ReportsPanel.java:155 | `trim().toLowerCase()` equals `toLowerCase().trim()` |
| Text.Contains | src/main/java/com/pluralsight/Reports.java:119 | `contains`: the query occurs as a block somewhere in the text; `ContainsAt` states this with an explicit index |
| Text.ContainsAt | src/main/java/com/pluralsight/Reports.java:119 | `contains` holds exactly when the query is the block of the text starting at some index |
| Text.ContainsEmpty | src/main/java/com/pluralsight/Reports.java:119 | every text contains the empty query |
| Text.MatchIsCaseInsensitive | src/main/java/com/pluralsight/Reports.java:115-119 | changing the case of letters in the vendor or in the query never changes whether a vendor search matches |
| Text.EmptyQueryMatches | src/main/java/com/pluralsight/ReportsPanel.java:155-162 | a query that trims to nothing matches every vendor |
| Text.MatchesIgnoringCase | src/main/java/com/pluralsight/ReportsPanel.java:155-162 | the vendor match: the lower-cased vendor contains the trimmed, lower-cased query; `MatchIsCaseInsensitive` and `EmptyQueryMatches` are proved of it |
| Text.AcmeMatches | src/main/java/com/pluralsight/Reports.java:115-119 | the query "acme" finds the vendor "Acme Co" |
| Transactions.Select | src/main/java/com/pluralsight/LedgerTableModel.java:42-47 | the filtering loops keep at most as many records as they are given |
| Transactions.SelectConcat | src/main/java/com/pluralsight/LedgerTableModel.java:43-47 | filtering a concatenation filters each part and concatenates, so order is kept |
| Transactions.SelectMembers | src/main/java/com/pluralsight/LedgerTableModel.java:42-47 | a record is in the filtered list iff it is in the input and passes the filter |
| Transactions.SelectMultiset | src/main/java/com/pluralsight/LedgerTableModel.java:42-47 | the filtered list is a sub-multiset of the input: nothing is duplicated or invented |
| Transactions.SelectAll | src/main/java/com/pluralsight/LedgerTableModel.java:40 | the accept-all filter keeps the list unchanged |
| Transactions.SelectAgree | src/main/java/com/pluralsight/LedgerTableModel.java:42-47 | two filters that agree on the records of a list select the same list |
| Transactions.Collect | src/main/java/com/pluralsight/ReportsPanel.java:105-110 | the loop appending each accepted record to a new list returns exactly the order-preserving selection |
| Transactions.SumAmounts | src/main/java/com/pluralsight/ReportsPanel.java:182-183 | the summing loop returns the sum of all amounts |
| Transactions.Income | src/main/java/com/pluralsight/LedgerTableModel.java:56-61 | the sum of the amounts at least 0 is non-negative |
| Transactions.Expenses | src/main/java/com/pluralsight/LedgerTableModel.java:56-61 | the sum of the negative amounts is non-positive |
| Transactions.IncomePlusExpenses | src/main/java/com/pluralsight/LedgerTableModel.java:121-125 | income plus expenses is the sum of all amounts, so `net` is the plain total |
| Transactions.TotalConcat | src/main/java/com/pluralsight/Reports.java:193-197 | total, income and expenses of a concatenation add up part by part |
| Transactions.Total | src/main/java/com/pluralsight/ReportsPanel.java:182-183 | the sum of the amounts; `SumAmounts` and `IncomePlusExpenses` tie the loops and the income/expense split to it |
| Transactions.DateBefore | src/main/java/com/pluralsight/Reports.java:158-159 | `LocalDate.isBefore`: year, then month, then day |
| Transactions.TimeBefore | src/main/java/com/pluralsight/ReportsPanel.java:176-180 | `LocalTime.isBefore` at second precision: hour, then minute, then second |
| Transactions.Reversed | src/main/java/com/pluralsight/TransactionManager.java:85 | the reversal lists position i of the result as position n-1-i of the input (id descending) |
| Transactions.ReversedMultiset | src/main/java/com/pluralsight/TransactionManager.java:85 | reversing keeps every row, once per copy |
| Transactions.SelectReversed | src/main/java/com/pluralsight/TransactionManager.java:85 | filtering the reversed rows is reversing the filtered rows |
| Transactions.ReversedConcat | src/main/java/com/pluralsight/TransactionManager.java:85 | the reversal of a concatenation is the reversed parts in swapped order |
| Sorting.Trichotomy | src/main/java/com/pluralsight/ReportsPanel.java:177-179 | under either comparator exactly one holds: a sorts first, b sorts first, or they tie |
| Sorting.Newer | src/main/java/com/pluralsight/ReportsPanel.java:176-180 | the two comparators: by date, or by date then time, newest first; `Trichotomy` shows each is a strict order with ties |
| Sorting.Insert | src/main/java/com/pluralsight/LedgerTableModel.java:32-34 | insertion adds exactly the one record |
| Sorting.SortNewestFirst | src/main/java/com/pluralsight/LedgerTableModel.java:32-34 | the sort returns a permutation of its input |
| Sorting.InsertSorted | src/main/java/com/pluralsight/LedgerTableModel.java:32-34 | inserting into a newest-first list keeps it newest first |
| Sorting.SortIsSorted | src/main/java/com/pluralsight/LedgerTableModel.java:32-34 | the sort's result is newest first |
| Sorting.InsertKeepsTieOrder | src/main/java/com/pluralsight/Reports.java:178 | inserting puts the new record before every record it ties with, the place it has in `[x] + s` |
| Sorting.SortIsStable | src/main/java/com/pluralsight/Reports.java:178 | the sort is stable: the records of every key keep their input order |
| Sorting.StableSortIsUnique | src/main/java/com/pluralsight/LedgerTableModel.java:32-34 | two newest-first lists with the same per-key order are equal, so every stable sort gives the same list |
| Sorting.StableSortResult | src/main/java/com/pluralsight/LedgerTableModel.java:32-34 | any newest-first, order-keeping rearrangement of a list is its sort |
| Sorting.SortSortedIsIdentity | src/main/java/com/pluralsight/LedgerTableModel.java:32-34 | sorting a list that is already newest first changes nothing |
| Sorting.SortAgainAfterAppend | src/main/java/com/pluralsight/Reports.java:165-178 | sorting in place, appending, then sorting again equals sorting the whole list once |
| Sorting.DateTimeOrderRefinesDateOrder | src/main/java/com/pluralsight/Reports.java:178 | newest first by (date, time) implies newest first by date |
| Sorting.SelectKeepsOrder | src/main/java/com/pluralsight/ReportsPanel.java:106-110 | filtering a newest-first list keeps it newest first |
| Sorting.InsertTotals | src/main/java/com/pluralsight/ReportsPanel.java:182-183 | inserting a record adds its amount to the total |
| Sorting.SortKeepsTotal | src/main/java/com/pluralsight/ReportsPanel.java:182-183 | sorting does not change the total |
| Store.TransactionStore.Save | src/main/java/com/pluralsight/TransactionManager.java:55-74 | an insert appends exactly the one row |
| Store.TransactionStore.Load | src/main/java/com/pluralsight/TransactionManager.java:79-106 | the select returns every stored row once per copy |
| Store.TransactionStore.LoadOrder | src/main/java/com/pluralsight/TransactionManager.java:82-86 | the loaded rows are newest first by (date, time), and rows with equal date and time come newest id first |
| Store.TransactionStore.SaveIntoEmptyLoadsIt | src/main/java/com/pluralsight/TransactionManager.java:55-106 | saving into an empty table and loading gives back exactly that record |
| LedgerModel.AcceptAll | src/main/java/com/pluralsight/LedgerTableModel.java:25 | the default filter, accepting every record; `SelectAll` shows it keeps the list unchanged |
| LedgerModel.LedgerTableModel.constructor | src/main/java/com/pluralsight/LedgerTableModel.java:23-25 | the model starts empty with the accept-all filter |
| LedgerModel.LedgerTableModel.ReloadAll | src/main/java/com/pluralsight/LedgerTableModel.java:27-37 | `all` becomes the loaded rows sorted newest first by (date, time), `visible` is re-filtered, and the stored filter is kept |
| LedgerModel.LedgerTableModel.ApplyFilter | src/main/java/com/pluralsight/LedgerTableModel.java:39-49 | the filter is stored (null installs accept-all), `visible` becomes the in-order selection of `all`, `all` is unchanged, and with null `visible == all` |
| LedgerModel.LedgerTableModel.GetVisibleTransactions | src/main/java/com/pluralsight/LedgerTableModel.java:51-53 | the copy equals `visible` |
| LedgerModel.LedgerTableModel.GetRowCount | src/main/java/com/pluralsight/LedgerTableModel.java:66-68 | the row count is the number of visible rows |
| LedgerModel.LedgerTableModel.GetTotalsForVisible | src/main/java/com/pluralsight/LedgerTableModel.java:55-63 | income sums the visible amounts at least 0, expenses the negative ones, `income >= 0`, `expenses <= 0` and `net` is their sum, equal to the visible total |
| LedgerModel.LedgerTableModel.AddTransaction | src/main/java/com/pluralsight/LedgerTableModel.java:107-110 | the record is appended to the store, `all` is reloaded and contains it, and it is visible iff the stored filter accepts it |
| LedgerModel.ReloadKeepsStoreOrder | src/main/java/com/pluralsight/LedgerTableModel.java:27-37 | the model's sort leaves the store's order unchanged |
| LedgerModel.ReloadContents | src/main/java/com/pluralsight/LedgerTableModel.java:27-37 | after a reload `all` is a newest-first permutation of the stored rows that keeps the loaded order among ties |
| LedgerModel.VisibleMembers | src/main/java/com/pluralsight/LedgerTableModel.java:42-47 | a row is visible iff it is in `all` and passes the filter |
| LedgerModel.AddToEmptyStoreRoundTrip | src/main/java/com/pluralsight/LedgerTableModel.java:107-110 | adding one record to an empty store shows exactly that record |
| LedgerView.FilterIsConjunction | src/main/java/com/pluralsight/LedgerPanel.java:96-108 | the filter is the type criterion AND, for a search text that does not trim to nothing, the case-insensitive vendor match |
| LedgerView.KindFiltersBySign | src/main/java/com/pluralsight/LedgerPanel.java:101-102 | "Deposits" rejects every negative amount and "Payments" every non-negative one |
| LedgerView.BlankSearchPartitions | src/main/java/com/pluralsight/LedgerPanel.java:100-107 | with a blank search "All" accepts everything and each record passes exactly one of "Deposits" and "Payments" |
| LedgerView.OneSidedTotals | src/main/java/com/pluralsight/LedgerPanel.java:100-117 | under "Deposits" the totals show no expenses, and under "Payments" no income |
| LedgerView.Passes | src/main/java/com/pluralsight/LedgerPanel.java:100-108 | the filter lambda: the type check by sign, then the vendor match when the search text is not empty; `FilterIsConjunction` states it as a conjunction |
| LedgerView.LedgerFilter | src/main/java/com/pluralsight/LedgerPanel.java:96-108 | the predicate `applyFilters` builds from the type box and the search text, trimmed and lower-cased |
| LedgerView.LedgerPanel.constructor | src/main/java/com/pluralsight/LedgerPanel.java:25-48 | the controls start at "All" and an empty search, and the labels show the model's visible totals |
| LedgerView.LedgerPanel.RefreshTotals | src/main/java/com/pluralsight/LedgerPanel.java:113-118 | the labels show income, expenses and net of the visible rows |
| LedgerView.LedgerPanel.ApplyFilters | src/main/java/com/pluralsight/LedgerPanel.java:96-111 | the filter for the current controls is installed first, and the totals then describe the new visible rows |
| LedgerView.LedgerPanel.SelectType | src/main/java/com/pluralsight/LedgerPanel.java:43 | choosing a type installs the filter for the new type and the current search text in the model, so later reloads and additions keep using it; the visible rows and the totals follow it |
| LedgerView.LedgerPanel.EditSearch | src/main/java/com/pluralsight/LedgerPanel.java:44 | editing the search text installs the filter for the current type and the new text in the model; the visible rows and the totals follow it |
| LedgerView.LedgerPanel.Refresh | src/main/java/com/pluralsight/LedgerPanel.java:78-81 | Refresh reloads `all` from the store and then installs the filter for the current controls again; the visible rows and the totals follow it |
| ReportWindows.MonthIndexDivMod | src/main/java/com/pluralsight/ReportsPanel.java:117 | numbering year-months consecutively loses nothing: year and month are its quotient and remainder by 12 |
| ReportWindows.MonthIndexInjective | src/main/java/com/pluralsight/ReportsPanel.java:121 | equal numbers mean equal year-months |
| ReportWindows.MinusOneMonth | src/main/java/com/pluralsight/ReportsPanel.java:117 | `minusMonths(1)` is one step back in the numbering, rolling January back to December |
| ReportWindows.MinusOneMonthUnique | src/main/java/com/pluralsight/ReportsPanel.java:117 | the month before is the only year-month one step back |
| ReportWindows.InWindow | src/main/java/com/pluralsight/ReportsPanel.java:102-162 | which records each report keeps: same year and month, the month before, same year, the year before, or a vendor containing the query; `PreviousMonthWindow`, `WindowsNest` and `VendorSearchMatches` state the windows |
| ReportWindows.Window | src/main/java/com/pluralsight/ReportsPanel.java:106-108 | the window of a report as the filter its loop applies |
| ReportWindows.Title | src/main/java/com/pluralsight/ReportsPanel.java:111-166 | the five titles, the vendor one being "VENDOR SEARCH: " plus the query; `TitleNotEmpty` is proved of it |
| ReportWindows.VendorQuery | src/main/java/com/pluralsight/ReportsPanel.java:155 | the query trimmed then lower-cased; `VendorQueryIsNormal` shows it is in normal form |
| ReportWindows.TitleNotEmpty | src/main/java/com/pluralsight/ReportsPanel.java:173 | every report title is non-empty, so the label reads "Report: " plus the title |
| ReportWindows.VendorQueryIsNormal | src/main/java/com/pluralsight/ReportsPanel.java:155 | the trimmed, lower-cased query is left unchanged by another trim or lower-casing |
| ReportWindows.VendorSearchMatches | src/main/java/com/pluralsight/ReportsPanel.java:155-162 | a vendor search keeps a record iff its vendor contains the query case-insensitively, and a blank query keeps every record |
| ReportWindows.PreviousMonthWindow | src/main/java/com/pluralsight/ReportsPanel.java:114-126 | the previous month holds exactly the records one month before today's, and in January that is December of the year before |
| ReportWindows.WindowsNest | src/main/java/com/pluralsight/ReportsPanel.java:102-150 | month to date lies inside year to date; the previous month lies in this year or the last; no record is in both this month and the previous one, or in both this year and the previous one |
| ReportWindows.MonthToDateIgnoresDay | src/main/java/com/pluralsight/ReportsPanel.java:107 | month to date also keeps records dated later in the month than today |
| ReportsView.TitleText | src/main/java/com/pluralsight/ReportsPanel.java:173 | an empty name shows "Pick a report..."; any other name shows "Report: " followed by the name |
| ReportsView.ReportsPanel.constructor | src/main/java/com/pluralsight/ReportsPanel.java:26-49 | the panel starts with the empty report, total 0, and no last report |
| ReportsView.ReportsPanel.SetReport | src/main/java/com/pluralsight/ReportsPanel.java:172-186 | the rows are the input sorted newest first by (date, time), the total is their sum and equals the unsorted sum, and the label is green iff the total is non-negative |
| ReportsView.ReportsPanel.RunReport | src/main/java/com/pluralsight/ReportsPanel.java:105-111 | a report shows the sorted selection of the loaded rows in its window, with its title and total |
| ReportsView.ReportsPanel.ShowMonthToDate | src/main/java/com/pluralsight/ReportsPanel.java:102-112 | records this report as the last one and shows the month-to-date records, sorted and totalled |
| ReportsView.ReportsPanel.ShowPreviousMonth | src/main/java/com/pluralsight/ReportsPanel.java:114-126 | records this report as the last one and shows the previous month's records, sorted and totalled |
| ReportsView.ReportsPanel.ShowYearToDate | src/main/java/com/pluralsight/ReportsPanel.java:128-138 | records this report as the last one and shows this year's records, sorted and totalled |
| ReportsView.ReportsPanel.ShowPreviousYear | src/main/java/com/pluralsight/ReportsPanel.java:140-150 | records this report as the last one and shows last year's records, sorted and totalled |
| ReportsView.ReportsPanel.SearchByVendor | src/main/java/com/pluralsight/ReportsPanel.java:152-170 | a cancelled dialog changes nothing; otherwise the search with the trimmed, lower-cased query becomes the last report and is shown with the title "VENDOR SEARCH: " plus the query |
| ReportsView.ReportsPanel.Refresh | src/main/java/com/pluralsight/ReportsPanel.java:83-89 | Refresh keeps the last report and re-runs it on the current rows and date, or, with none, shows the empty "Pick a report..." report |
| ReportsView.ReportRows | src/main/java/com/pluralsight/ReportsPanel.java:104-111 | a report lists exactly the stored records in its window, and the sort in `setReport` keeps the loaded order |
| ReportsView.MarchLoad | src/main/java/com/pluralsight/TransactionManager.java:82-86 | three stored records load as 15 March, 1 March, 1 February |
| ReportsView.MarchWindows | src/main/java/com/pluralsight/ReportsPanel.java:102-126 | on 20 March 2024 month to date keeps the two March records and the previous month keeps the February one |
| ReportsView.MarchTotals | src/main/java/com/pluralsight/ReportsPanel.java:182-183 | their totals are 60 and 10 |
| ReportsView.MarchMonthToDate | src/main/java/com/pluralsight/ReportsPanel.java:102-112 | run on 20 March 2024, month to date shows the two March records newest first, with total 60 |
| ReportsView.MarchPreviousMonth | src/main/java/com/pluralsight/ReportsPanel.java:114-126 | run on the same day, the previous month shows the February record, with total 10 |
| ConsoleReports.ShownListing | src/main/java/com/pluralsight/Reports.java:172-202 | only an empty list prints the no-match line; a listing is a permutation of the input, newest date first, same-date records in input order, with their total |
| ConsoleReports.DisplayResults | src/main/java/com/pluralsight/Reports.java:172-202 | prints the block for the list and leaves the caller's list sorted by date in place (unchanged when empty) |
| ConsoleReports.Shown | src/main/java/com/pluralsight/Reports.java:172-202 | the block `displayResults` prints: the no-match line for an empty list, otherwise the list sorted by date with its total; `ShownListing` states its properties |
| ConsoleReports.ShowReport | src/main/java/com/pluralsight/Reports.java:62-125 | a console report prints the block for the loaded records in its window |
| ConsoleReports.ReportShown | src/main/java/com/pluralsight/Reports.java:62-125 | what a console report prints: the block for the loaded records in the report's window, under its title |
| ConsoleReports.ConsoleMatchesPanel | src/main/java/com/pluralsight/Reports.java:62-111 | the console lists the same records in the same order as the Reports tab |
| ConsoleReports.DateSortKeepsSameDayOrder | src/main/java/com/pluralsight/Reports.java:178 | the console's date-only sort keeps two same-day records in input order, while the tab's (date, time) sort swaps them |
| ConsoleReports.MenuRuns | src/main/java/com/pluralsight/Reports.java:19-58 | a session runs at most one report per line read |
| ConsoleReports.Choose | src/main/java/com/pluralsight/Reports.java:35-56 | the switch: "1" to "4" the date reports, "5" the vendor search, "0" back, anything else invalid; `MenuStep` states each case |
| ConsoleReports.MenuDispatch | src/main/java/com/pluralsight/Reports.java:33-56 | for every typed line: the trimmed "1" to "4" and only those run the four date reports, "5" and only it asks for a vendor, "0" and only it goes back |
| ConsoleReports.ChoiceIsTrimmed | src/main/java/com/pluralsight/Reports.java:33 | the choice is trimmed: " 3 " runs year to date |
| ConsoleReports.BackEndsMenu | src/main/java/com/pluralsight/Reports.java:51-53 | after "0" nothing more is read or run |
| ConsoleReports.InvalidChoiceSkipped | src/main/java/com/pluralsight/Reports.java:54-55 | any other choice runs nothing and the menu asks again |
| ConsoleReports.ShownInTurn | src/main/java/com/pluralsight/Reports.java:23-57 | a session prints one block per report run |
| ConsoleReports.ShownInTurnIndex | src/main/java/com/pluralsight/Reports.java:23-57 | the i-th block printed is the i-th report run |
| ConsoleReports.MenuStep | src/main/java/com/pluralsight/Reports.java:33-56 | the step lemma of the menu loop: how one line, read and dispatched, changes the reports still to run |
| ConsoleReports.ShowReportsMenu | src/main/java/com/pluralsight/Reports.java:19-58 | the loop runs exactly the reports the typed lines select and prints their blocks in turn |
| ConsoleReports.ProgressiveDisplays | src/main/java/com/pluralsight/Reports.java:151-168 | custom search prints one block per match |
| ConsoleReports.ProgressiveDisplaysShowPrefixes | src/main/java/com/pluralsight/Reports.java:165-167 | the i-th block lists the first i+1 matches, and every block is a listing, never the no-match line |
| ConsoleReports.CustomSearch | src/main/java/com/pluralsight/Reports.java:131-169 | the loop prints, after each loaded record passing every criterion, the block for the matches so far |
| ConsoleReports.CheckCriteria | src/main/java/com/pluralsight/Reports.java:158-162 | the `continue` chain lets a record through iff every non-blank criterion holds |
| ConsoleReports.ReadSearchInput | src/main/java/com/pluralsight/Reports.java:133-146 | the five inputs trimmed, description and vendor also lower-cased |
| ConsoleReports.MatchesSearch | src/main/java/com/pluralsight/Reports.java:158-162 | a record passes when it passes all five criteria; `CheckCriteria` is proved equal to it |
| ConsoleReports.OnOrAfterStart | src/main/java/com/pluralsight/Reports.java:158 | a blank start or a date not before the start |
| ConsoleReports.OnOrBeforeEnd | src/main/java/com/pluralsight/Reports.java:159 | a blank end or a date not after the end |
| ConsoleReports.DescriptionMatches | src/main/java/com/pluralsight/Reports.java:160 | a blank description or a lower-cased description containing it |
| ConsoleReports.VendorMatches | src/main/java/com/pluralsight/Reports.java:161 | a blank vendor or a lower-cased vendor containing it |
| ConsoleReports.AmountMatches | src/main/java/com/pluralsight/Reports.java:162 | a blank amount or a rendered amount equal to it |
| ConsoleReports.CustomSearchStep | src/main/java/com/pluralsight/Reports.java:151-165 | each loop turn either finds the next match in load order or leaves the matches unchanged |
| ConsoleReports.AppendMatch | src/main/java/com/pluralsight/Reports.java:165-167 | appending a match to the in-place sorted list and displaying shows the matches so far, and leaves them sorted |
| ConsoleReports.ShownAfterAppend | src/main/java/com/pluralsight/Reports.java:165-178 | the earlier in-place sort does not change what the next display shows |
| ConsoleReports.BlankSearchKeepsAll | src/main/java/com/pluralsight/Reports.java:133-162 | any five inputs that trim to nothing keep every record |
| ConsoleReports.BlankLinesKeepAll | src/main/java/com/pluralsight/Reports.java:133-146 | for example a space, an empty line, a tab, an empty line and two spaces keep every record |
| ConsoleReports.DateBoundsInclusive | src/main/java/com/pluralsight/Reports.java:158-159 | both date bounds are inclusive |
| ConsoleReports.SearchIgnoresCase | src/main/java/com/pluralsight/Reports.java:140-160 | the description criterion is a case-insensitive substring match |
| DbSettings.FirstAcceptable | src/main/java/com/pluralsight/DbConfig.java:18-38 | the result is the default or a present, acceptable candidate |
| DbSettings.FirstAcceptableIsFirst | src/main/java/com/pluralsight/DbConfig.java:18-38 | the result is the earliest set and acceptable candidate, and the default comes back only when no candidate is acceptable |
| DbSettings.GetUser | src/main/java/com/pluralsight/DbConfig.java:18-27 | the user is never blank, and a non-blank property always wins |
| DbSettings.GetPassword | src/main/java/com/pluralsight/DbConfig.java:29-38 | a set password property always wins, even when empty |
| DbSettings.UserPrecedence | src/main/java/com/pluralsight/DbConfig.java:18-27 | the user is the first non-blank of property, then environment, else "root" |
| DbSettings.PasswordPrecedence | src/main/java/com/pluralsight/DbConfig.java:29-38 | the password is the first set one of property, then environment, else "" |
| DbSettings.BlankPropertyHandling | src/main/java/com/pluralsight/DbConfig.java:18-38 | a blank user property falls through to the environment or "root"; an empty password property does not fall through |
| EntryForm.SignedAmount | src/main/java/com/pluralsight/AddTransactionPanel.java:202-207 | a deposit keeps the parsed amount; a payment stores minus its magnitude, never positive |
| EntryForm.Entry | src/main/java/com/pluralsight/AddTransactionPanel.java:169-216 | the form is refused iff a trimmed field is empty or the amount does not parse: "Missing fields" exactly when a trimmed field is empty, "Invalid amount" exactly when all three are filled in and the amount does not parse; otherwise the record carries today's date, the current time, the trimmed texts and the signed amount |
| EntryForm.AddTransactionPanel.constructor | src/main/java/com/pluralsight/AddTransactionPanel.java:19-29 | the form starts empty with Deposit selected |
| EntryForm.AddTransactionPanel.Validate | src/main/java/com/pluralsight/AddTransactionPanel.java:169-216 | the early-return checks produce exactly the outcome `Entry` describes |
| EntryForm.AddTransactionPanel.OnSave | src/main/java/com/pluralsight/AddTransactionPanel.java:169-231 | on failure nothing is stored, the model is untouched and the fields keep their text; on success exactly one record is appended, the model is reloaded and contains it, and the three fields are cleared |
| EntryForm.AddTransactionPanel.Commit | src/main/java/com/pluralsight/AddTransactionPanel.java:218-224 | the success path: one record added through the model, then the fields cleared |
| EntryForm.BlankAmountIsMissing | src/main/java/com/pluralsight/AddTransactionPanel.java:177-190 | a blank amount is reported as a missing field, whatever the parser would say |
| EntryForm.StoredSign | src/main/java/com/pluralsight/AddTransactionPanel.java:202-207 | a saved payment is never positive; a deposit typed negative stays negative |
| EntryForm.SavedTextIsTrimmed | src/main/java/com/pluralsight/AddTransactionPanel.java:172-216 | a saved record has a non-empty, already trimmed description and vendor |
| EntryForm.SavedPayment | src/main/java/com/pluralsight/AddTransactionPanel.java:169-216 | a valid payment with a non-negative parsed amount is stored as its negation |

## Left out

- Persistence: JDBC, SQL text, schema creation and connection handling are
  left out. So is the error path that prints a message and returns an
  empty or partial list. The store is a sequence of rows.
- The Swing UI is left out: layout, table column metadata, cell
  formatting, the amount renderer's colours and the dialog texts. Only
  the label texts and values, the table rows and the total label's
  green/red choice are modelled.
- Console output is left out: the menu text, the ANSI colours, the row
  formatting and the duplicated total line. A printed block is a
  `ConsoleDisplay` value.
- Console input is a list of lines. Running out of lines ends the session
  instead of raising `NoSuchElementException`.
- Floating point is left out. Amounts are integer cents.
  `Double.parseDouble` is a parameter returning `Option<int>`, and
  `Double.toString` for the custom-search amount match is a parameter
  `render`. Rounding in double sums, `NaN`, infinities and exponent
  syntax are not modelled.
- `LocalDate.parse` in `customSearch` is a total parameter. The
  `DateTimeParseException` it throws on bad input is not modelled.
- Lower-casing is ASCII only. Locale-dependent and non-ASCII case mappings
  are not modelled.
- The clock is a parameter: `LocalDate.now()` and `LocalTime.now()`.
  Times have second precision, as the `TIME` column keeps them;
  nanoseconds are dropped.
- The `getVendor() != null` guards are not modelled because vendors are
  never null: the column is `NOT NULL`.
- `getValueAt`, `getColumnCount`, `getColumnName` and `getColumnClass` are
  table rendering metadata and are left out.
- Transaction.java is not part of this model. The record's fields are
  read from the store's columns.
- TransactionManager.java is modelled only as the `Store` class: insert and
  the ordered select.
- Sorting.SortNewestFirst: Java's stable merge sort is replaced by a
  stable insertion sort. `StableSortIsUnique` shows that both give the
  same list.
- Store.TransactionStore.Save: a failing insert is not modelled. Java catches the `SQLException`, prints a message and stores nothing, which happens when the connection fails or a value breaks a column. `Save` always appends.
- Store.TransactionStore.Save: the column limits are not modelled: `VARCHAR(255)` texts and `DECIMAL(10,2)` amounts. Texts and amounts are unbounded. MySQL would reject or clamp values outside these limits, depending on its mode.
- LedgerModel.LedgerTableModel.AddTransaction: promises the record is in `all` because `Save` never fails; with a failed insert the Java model reloads without it.
- EntryForm.AddTransactionPanel.OnSave: promises the record was stored and shows in the model on every valid form, for the same reason. The failed insert and the column limits are not modelled.
- Dates are not checked for validity: `Day` is 1 to 31 in every month. So the model can represent dates such as 31 February that `LocalDate` cannot hold. Every lemma holds for these dates as well.
- The JDBC URL constant in `DbConfig` is not modelled, since connections are not modelled.
