# finance-manager: the page script, modelled in Dafny

The page script `static/chart.js` of a personal ledger shows the stored
entries (id, date, amount, description, category) four ways:

- a table of every entry;
- a table of the entries of the current month;
- a table of the monthly balance;
- a bar chart of the monthly totals per category.

It also keeps two global flags:

- `warnOnExit` guards leaving the page.
- `lastEnteredDate` carries the date of the entry form from one submission to the next.

This project models that script in Dafny 4.11, as follows.

- **Categories and text helpers.** These become functions with contracts:
  - the category registry `CATEGORY_CONFIG`;
  - the color, label and CSS-class lookups;
  - the category selector of an edited row;
  - the month key `YYYY-MM` and its label `monthLabel`.
- **The two `data.forEach` grouping loops** (chart and balance) become methods with `while` loops. Each is proved against a specification of the totals it must build: for every month, and every month and category, the sum of the amounts of the entries that fall there.
- **The chart and the balance table.** Each is specified as a function of the entries. The loading methods are proved to compute exactly that function. Lemmas then state:
  - the month axis and the datasets;
  - the error raised by an unknown category;
  - that the balance agrees with the chart.
- **The entry tables.** `renderTable` sorts its argument in place, newest first. It is an in-place stable sort on an `array`, proved against an insertion-sort specification. Lemmas show that this specification is the unique stable sort, so it also stands for `Array.prototype.sort`. Rendering stops at the first row whose category lookup throws. The current-month filter is modelled too.
- **`makeTableSortable`** becomes a class. It holds the rows array and the shared direction flag.
- **The page's handlers** become methods of a `Page` class. Each handler logs the requests it issues. A function on that log, `Stale`, says which views still show entries from before the last change to them.

Amounts are integers (cents). Dates are already-parsed (year, month, day)
triples. A sortable cell's value is an abstract integer key.

Modules, in dependency order:

- `Wrappers` (wrappers.dfy): `Option` and `Result`.
- `Text` (text.dfy): strings.
- `Seqs` (seqs.dfy): distinct values in order of first appearance, filtering.
- `StringSort` (string_sort.dfy): sorting strings.
- `StableSort` (stable_sort.dfy): the stable sort and its in-place version.
- `Dates` (dates.dfy): dates and month keys.
- `Categories` (categories.dfy): the registry and its lookups.
- `Ledger` (ledger.dfy): entries and their sums.
- `Chart` (chart.dfy): `loadChartData`.
- `Balance` (balance.dfy): `loadBalanceTable`.
- `EntryTables` (entry_tables.dfy): `renderTable` and `loadEntryTables`.
- `Sortable` (sortable.dfy): `makeTableSortable`.
- `Session` (session.dfy): the flags and the handlers.

### What the code does where it reads as if it meant otherwise

The model follows the code in each case.

- **Unknown categories.** Both label lookups end in a fallback to the key (`CATEGORY_CONFIG[cell].label || cell`, `static/chart.js:119`, `218`). But they read `.label` without optional chaining, so a key the registry does not hold throws a TypeError before the fallback is reached. In the chart this stops the datasets from being built. In a table it stops the rows after the offending one. `Categories.CategoryLabel` returns an error, and `Chart.ChartFailsAtFirstUnknown` and `EntryTables.RenderShows` say where the throw happens. Only the color lookup uses optional chaining and falls back (`getCategoryColor`, `static/chart.js:61-63`). Keys inherited from `Object.prototype` are an exception the model does not follow (see Left out).
- **Clicking a header twice.** `makeTableSortable` keeps one direction per table and flips it after every click (`static/chart.js:68`, `86`). So a second click on the same header sorts descending; it does not bring back the order before the first click (`Sortable.SecondClickReverses`).
- **Chart layout.** The chart options set `stacked: false` on both axes (`static/chart.js:245`, `248`), so a month's bars stand side by side. `Chart.ChartColumnsAreMonthTotals` states what a month's bars add up to.
- **Reloading after a change.** The entry form reloads all three views after a submission (`static/chart.js:454-456`). `deleteEntry` and `saveEditEntry` change the stored entries too, but skip the balance table (see Findings).

## Model

| member | source | states |
|---|---|---|
| Text.StrLessIrreflexive | static/chart.js:211 | the default string order of `sort()` (code-unit comparison, as `StrLess`) is irreflexive |
| Text.StrLessTransitive | static/chart.js:211 | the string order is transitive |
| Text.StrLessTotal | static/chart.js:211 | any two different strings are ordered one way or the other |
| Text.StrLessConcat | static/chart.js:194 | comparing two concatenations whose first parts have equal length compares the first parts, then the rest |
| Text.DecimalOrder | static/chart.js:194 | for decimal numerals of equal length, string order is numeric order, and equal numerals are equal numbers |
| Text.PadStart | static/chart.js:194 | `padStart(n, c)` yields a string of length max(|s|, n) |
| Text.SplitPair | static/chart.js:95 | `split("-")` of `a + "-" + b` with no dash in `a` or `b` is `[a, b]` |
| Text.ReplaceSpaceRunsNoSpace | static/chart.js:120 | `replace(/\s+/g, "-")` leaves no whitespace |
| Text.ReplaceSpaceRunsNone | static/chart.js:120 | a string without whitespace is left unchanged |
| Text.ToLowerKeepsOthers | static/chart.js:120 | `toLowerCase()` leaves a string without ASCII or Latin-1 capitals unchanged |
| Text.DigitsValueDecimal | static/chart.js:97 | the digits of a number's decimal text denote that number |
| Text.ParseIntDecimal | static/chart.js:97 | `parseInt` of a number's decimal text gives the number back |
| Seqs.FirstSeenMembers | static/chart.js:212-214 | `Array.from(new Set(xs))` holds every value of `xs` and no other |
| Seqs.FirstSeenDistinct | static/chart.js:212-214 | it holds each value once |
| Seqs.FirstSeenOrder | static/chart.js:212-214 | its values are in order of first appearance in `xs` |
| Seqs.FirstWhereFirstSeen | static/chart.js:216-222 | the first value meeting a condition is the same in `xs` and in its distinct values |
| Seqs.FilterConcat | static/chart.js:291-297 | `filter` of a concatenation is the concatenation of the filters |
| Seqs.FilterMultiset | static/chart.js:291-297 | `filter` keeps each matching value exactly as often as it occurs, and drops the others |
| StringSort.SortStringsPermutes | static/chart.js:211 | `sort()` of the month keys rearranges them |
| StringSort.SortStringsAscending | static/chart.js:211 | the sorted distinct keys are strictly ascending |
| StableSort.SortByPermutes | static/chart.js:77-85 | the stable sort by a key rearranges its input |
| StableSort.SortBySorted | static/chart.js:77-85 | its result is ordered by the key |
| StableSort.SortByStable | static/chart.js:77-85 | elements with equal keys keep their relative order |
| StableSort.SortUnique | static/chart.js:108 | any ordered rearrangement that keeps equal keys in order is the sort: `Array.prototype.sort`, being stable, computes it |
| StableSort.SortBySortedIsIdentity | static/chart.js:108 | sorting an ordered sequence changes nothing |
| StableSort.SortByFilter | static/chart.js:291-297 | filtering a sorted sequence gives the sort of the filtered sequence |
| StableSort.SortInPlace | static/chart.js:108 | `rows.sort(...)` in place: the array afterwards holds the stable sort of its old contents |
| Dates.TwoDigitsOfMonth | static/chart.js:194 | `String(m).padStart(2, "0")` of a month 1 to 12 is its tens digit followed by its units digit |
| Dates.TimestampChronological | static/chart.js:108 | `new Date(b) - new Date(a)` orders dates chronologically, and equal time values mean equal dates |
| Dates.MonthKeyText | static/chart.js:194 | the month key is the year, a dash and the month padded to two digits |
| Dates.MonthKeySameMonth | static/chart.js:266 | two dates have the same month key exactly when they share year and month |
| Dates.MonthKeyChronological | static/chart.js:211 | for four-digit years, string order of month keys is chronological order of the months |
| Dates.ParseTwoDigits | static/chart.js:97 | `parseInt` of a padded month reads back the month |
| Dates.MonthLabelOfKey | static/chart.js:94-98 | `monthLabel` of a date's month key is the French month name, a space and the year ("Mai 2024") |
| Categories.ConfigKeysDistinct | static/chart.js:1-34 | the configured keys are distinct |
| Categories.ConfigValuesPresent | static/chart.js:1-34 | every configured label and color is non-empty and no color is the fallback |
| Categories.CategoryColor | static/chart.js:61-63 | `getCategoryColor` never fails; it gives the configured color for a configured key, and `#bbb` exactly for the others |
| Categories.CategoryLabel | static/chart.js:218 | the label lookup succeeds exactly for configured keys, with their non-empty label; for any other key it throws (keys inherited from `Object.prototype` excepted, see Left out) |
| Categories.CategoryClassIsToken | static/chart.js:120 | the category class starts with `cat-` and holds no whitespace |
| Categories.ConfiguredCategoryClass | static/chart.js:120 | for a configured key the class is `cat-` followed by the key |
| Categories.EditCategoryOptions | static/chart.js:333-340 | one option per configured category, in configuration order, with its key and label, selected exactly when its key is the entry's category |
| Categories.EditOptionsSelection | static/chart.js:333-340 | such a selector marks exactly one option when the category is configured, and none otherwise |
| Ledger.MonthKeysHas | static/chart.js:194 | the month keys of the entries are exactly the keys of their dates |
| Ledger.CategoriesHas | static/chart.js:213 | the category list holds exactly the entries' categories |
| Ledger.MonthSumSnoc | static/chart.js:271 | one more entry adds its amount to its month's sum and to no other |
| Ledger.CellSumSnoc | static/chart.js:207 | one more entry adds its amount to its month-and-category sum and to no other |
| Ledger.TotalsOrderIndependent | static/chart.js:192-208 | month sums and month-and-category sums do not depend on the order of the entries |
| Chart.CategoryTotalsStep | static/chart.js:192-208 | adding one entry to exact totals of the entries before it gives exact totals of the entries so far |
| Chart.GroupedTotalsExact | static/chart.js:192-208 | the grouping fold builds a row for exactly the entries' months, a cell for exactly the categories recorded in each, each holding its sum |
| Chart.GroupEntry | static/chart.js:193-207 | the loop body creates a missing month row, starts a missing or zero cell at 0, adds the amount, and records a new month in key order |
| Chart.MonthlyCategoryTotals | static/chart.js:192-208 | the grouping loop builds exact month x category totals, and its key order is the months' order of first appearance |
| Chart.ValuesExact | static/chart.js:219 | `monthlyCategoryTotals[month][category] \|\| 0` read from exact totals is the category's sum in that month (0 where it has none) |
| Chart.BuildDatasetsExact | static/chart.js:216-222 | `categories.map(...)` throws at the first unconfigured category, and otherwise yields the datasets of the specification |
| Chart.LoadChartData | static/chart.js:188-232 | `loadChartData` after the fetch draws exactly the chart specified by `ChartOf` |
| Chart.ChartSucceedsIffConfigured | static/chart.js:216-222 | the chart is drawn exactly when every entry's category is configured |
| Chart.ChartFailsAtFirstUnknown | static/chart.js:212-222 | otherwise the error names the category of the first entry whose category is not configured |
| Chart.SortedMonthKeys | static/chart.js:211 | the sorted distinct month keys are strictly ascending and are exactly the entries' month keys |
| Chart.ChartMonthAxis | static/chart.js:211 | the month axis holds each month with an entry exactly once, in ascending order, one label per month |
| Chart.ChartMonthsChronological | static/chart.js:211 | for four-digit years a month left of another on the axis is earlier |
| Chart.ChartLabels | static/chart.js:232 | the axis label of a month is its French name and year |
| Chart.ChartCategories | static/chart.js:212-214 | the categories hold each category of the entries once, and no other, in order of first appearance |
| Chart.DatasetsOfAt | static/chart.js:216-222 | the specified datasets: one per category, with its label, its color and its sum in each month |
| Chart.ChartDatasets | static/chart.js:216-222 | a drawn chart has one dataset per category, in category order, each with the category's label, color and sum in every month of the axis |
| Chart.SumCellsIsMonthSum | static/chart.js:192-208 | over all categories, a month's cells add up to the month's total: each entry lands in exactly one cell |
| Chart.ColumnTotalOfCells | static/chart.js:219 | a month's values across the specified datasets add up to its cells |
| Chart.ChartColumnsAreMonthTotals | static/chart.js:216-222 | a month's values across the chart's datasets add up to the month's total |
| Balance.MonthTotalsStep | static/chart.js:263-272 | adding one entry's amount to exact monthly totals keeps them exact |
| Balance.GroupedAmountsExact | static/chart.js:263-272 | the balance fold builds a total for exactly the entries' months, each the month's sum |
| Balance.GroupAmount | static/chart.js:263-272 | the loop body starts a missing or zero month at 0, adds the amount, and records a new month in key order |
| Balance.MonthlyTotals | static/chart.js:261-272 | the loop builds exact monthly totals, with the months in order of first appearance |
| Balance.LoadBalanceTable | static/chart.js:261-277 | the rows `Object.entries(monthlyTotals)` are exactly the specified balance: each month once, in order of first appearance, with its sum |
| Balance.BalanceMonths | static/chart.js:275-277 | the balance has one row per month with an entry and no other, in order of first appearance |
| Balance.BalanceIsSumOfCells | static/chart.js:261-272 | a month's balance is the sum over the categories of its month x category totals |
| Balance.BalanceMatchesChart | static/chart.js:256-280 | the balance and the chart have the same months, and a month's balance is the sum of its values across the chart's datasets |
| EntryTables.NewestFirstOrder | static/chart.js:108 | sorting newest first rearranges the entries, puts no entry before a later one, and keeps same-day entries in order |
| EntryTables.CategoryCell | static/chart.js:118-121 | the category cell succeeds exactly for an empty or configured category; an empty one is shown as it is with no class; an unknown one throws (keys inherited from `Object.prototype` excepted, see Left out) |
| EntryTables.ConfiguredCategoryCell | static/chart.js:118-121 | a configured category shows its label with the class `cat-` followed by its key |
| EntryTables.RenderRow | static/chart.js:110-150 | a row renders exactly when its category cell does; otherwise it fails with its category |
| EntryTables.RenderWithBody | static/chart.js:110-150 | the rows appended are a prefix of the entries, each rendered from the entry at its position |
| EntryTables.RenderWithFailure | static/chart.js:110-150 | rendering fails exactly when some row throws, and then at the first one, with its error |
| EntryTables.RenderShows | static/chart.js:110-150 | the table shows the rows up to the first entry with an unknown category, and fails exactly when there is one, naming its category |
| EntryTables.RenderStops | static/chart.js:110-150 | once a row has thrown, later rows change nothing |
| EntryTables.RenderRows | static/chart.js:110-150 | the rendering loop builds exactly the specified table |
| EntryTables.RenderTable | static/chart.js:101-153 | `renderTable` sorts its argument in place, newest first, and renders the sorted rows |
| EntryTables.CurrentMonthKeeps | static/chart.js:291-297 | the current-month filter keeps each entry of the month of now exactly as often as it is stored, in order, and drops all others |
| EntryTables.CurrentMonthOfSorted | static/chart.js:287-297 | filtering the already sorted entries gives the newest-first sort of the month's entries, which the second sort leaves unchanged |
| EntryTables.LoadEntryTables | static/chart.js:285-299 | `data` ends sorted newest first; the first table shows all of it; the second table is rendered only if the first did not throw, and then shows the month's entries newest first |
| Sortable.ClickOrder | static/chart.js:77-85 | a click's sort rearranges the rows, ascending by the column for direction 1 and descending for -1, keeping rows with equal cells in order |
| Sortable.SecondClickReverses | static/chart.js:84-87 | two clicks on one header do not restore rows that had two cells of that column in ascending order |
| Sortable.SortableTable.constructor | static/chart.js:65-68 | a table is made sortable with direction 1 |
| Sortable.SortableTable.ClickHeader | static/chart.js:70-89 | a click on column 4 changes nothing; a click on any other column sorts the rows stably by it in the current direction and then flips the direction |
| Session.ReloadAllFresh | static/chart.js:454-456 | reloading the entry tables, the balance and the chart after a change leaves no view stale |
| Session.StaleAfter | static/chart.js:302-312 | after a change followed by reloads, exactly the views not reloaded are stale |
| Session.Page.BlocksUnload | static/chart.js:467-470 | leaving the page is stopped exactly while `warnOnExit` holds |
| Session.Page.constructor | static/chart.js:396-463 | at load `warnOnExit` is set, `lastEnteredDate` is today and fills the date field, and the three views are loaded, none stale |
| Session.ThrownActionIsPrefix | static/chart.js:412-418 | when the action handler throws, it has issued at most the start of the button's requests and no alert |
| Session.Page.SubmitAction | static/chart.js:407-429 | the action form issues the clicked button's requests with `warnOnExit` cleared; it sets `warnOnExit` again exactly when it runs to its end, so no submitting button or a rejected `/save` leaves leaving the page unguarded |
| Session.Page.SubmitEntry | static/chart.js:437-457 | the entry form keeps the submitted date as `lastEnteredDate` and submits; once the request resolves it resets the form but re-applies that date and reloads all three views, leaving none stale; a rejected request leaves the form as it was, reloads nothing and leaves every view stale |
| Session.Page.DeleteEntryAsWritten | static/chart.js:302-312 | an unconfirmed deletion issues nothing; a confirmed one issues the deletion and reloads the entry tables and the chart only, which leaves the balance table stale |
| Session.Page.DeleteEntry | static/chart.js:302-312 | an unconfirmed deletion issues nothing; a confirmed one issues the deletion and reloads the entry tables, the balance and the chart, which leaves no view stale |
| Session.Page.SaveEditAsWritten | static/chart.js:377-393 | the update is sent; a refused one is followed by the error alert only and changes no view's staleness; an accepted one reloads the entry tables and the chart only, which leaves the balance table stale |
| Session.Page.SaveEdit | static/chart.js:377-393 | the update is sent; a refused one is followed by the error alert only; an accepted one reloads the entry tables, the balance and the chart, which leaves no view stale |

## Left out

- **I/O and the browser are not modelled.**
  - The `fetch` calls, `confirm`, `alert` and page navigation become entries in the request log (`Session`) or parameters: the fetched entries, the user's answer, whether the server accepted the update, whether the `/save` and `/submit` requests resolved, the submitting button, the current date.
  - DOM construction, `innerHTML` clearing and the Chart.js constructor and `destroy` (`static/chart.js:225-253`) are UI-library calls. The model stops at the data handed to them.
  - The action buttons of a row (`static/chart.js:128-147`) are not modelled.
- **Time and concurrency are not modelled.**
  - Overlapping asynchronous reloads are not modelled; each handler's requests are logged in program order.
  - The timing of `beforeunload` relative to a running handler is not modelled.
  - Duplicate click listeners from calling `makeTableSortable` again on every render are not modelled; the model attaches one handler set per table.
- **Numbers are modelled as exact integers.**
  - Amounts are exact integer cents. `parseFloat`, NaN propagation and `toFixed(2)` (`static/chart.js:201`, `265`, `276`) are floating point and are not modelled.
- **Dates are modelled as already-parsed triples.**
  - `new Date(...)` parsing, local-timezone month extraction, `toISOString` and `toLocaleDateString("fr-FR")` are not modelled. A date is an already parsed (year, month, day).
  - `Dates.MonthKeyChronological` holds for four-digit years only, because shorter or longer years break string order.
- **Sorting uses abstract keys.**
  - `Sortable.ClickOrder` uses the cell's sort value, an abstract integer key per column. The JavaScript classification of a cell as number, date or text, and the comparison of values of different types (`static/chart.js:78-84`), are not modelled.
  - `Sortable.SortableTable.ClickHeader`: the re-appending of the rows in their new order (`static/chart.js:88`) is modelled as the new contents of the rows array.
- **The balance table's own sort is not modelled.** `renderBalanceTable` sorts the balance rows (`static/chart.js:160`) by `new Date(row[1])`, and `row[1]` is the formatted total, not a date. The order it produces depends on how the engine parses such strings, so the balance rows are modelled in the order `Object.entries` yields them.
- **Keys inherited from `Object.prototype` are treated as unknown.**
  - CategoryLabel: for a key such as `toString`, `constructor`, `valueOf` or `__proto__`, `CATEGORY_CONFIG[key]` is an inherited value whose `.label` is undefined, so the source shows the key and does not throw; the model fails on such a key as on any other unconfigured one.
  - CategoryCell: for the same keys the source shows the key with its class; the model fails.
  - RenderShows: because CategoryCell fails on such a key, a table stops at such a row where the source renders it and goes on.
  - ChartSucceedsIffConfigured: for the same keys the source's grouping test sees the inherited value, and `+=` concatenates the amount onto it as text; that string arithmetic is not modelled, and the model fails on such a key where the source builds a dataset.
  - ChartFailsAtFirstUnknown: for the same reason, the failure it names may be such a key, on which the source does not throw.
  - BuildDatasetsExact: for the same reason, it fails on such a key where the source builds a dataset labelled with the key.
- **Rejected requests in two handlers are not modelled.**
  - DeleteEntry: a rejected `/delete` request (`static/chart.js:306`) throws before the reloads; the model, and `DeleteEntryAsWritten` with it, assumes the request resolves.
  - SaveEdit: a rejected `/update` request (`static/chart.js:378`) throws before `response.ok` is read, so neither the alert nor the reloads happen; the model, and `SaveEditAsWritten` with it, assumes the request resolves and takes only the server's answer as a parameter.
- **Some text conversions are partial.**
  - PadStart: its contract states only the length of the result; the contents are stated for the one use the page makes of it, the month, by `Dates.TwoDigitsOfMonth` (two digits for months 1 to 12).
  - ToLowerKeepsOthers: `Text.ToLower` lowers ASCII and Latin-1 capitals only, so the lemma speaks of strings free of those capitals, not of every upper-case letter.
- **Some page helpers are not modelled.**
  - `generateCategoryCSS` and `populateCategorySelect` (`static/chart.js:36-59`) only emit markup from the registry.
  - `startEditEntry` (`static/chart.js:314-375`) is modelled through its category selector only; the inputs and buttons it creates are markup.
  - The server (`app.py`) is not part of this model.
- **Keys of the totals object.** Month keys are `YYYY-MM` strings, never array-index-like. So `Object.keys` and `Object.entries` list them in insertion order, which is how the model lists them.

## Findings

| source | as written | input that shows it | evidently intended | confidence | as-written member | corrected member |
|---|---|---|---|---|---|---|
| static/chart.js:302-312 | after a confirmed deletion only the entry tables and the chart are reloaded | delete a confirmed entry while the balance table is shown: the log ends with `Delete`, `Reload(EntryTables)`, `Reload(MoneyChart)` and the balance table is stale | reload the balance table too, as the entry form does (`static/chart.js:454-456`) | not executed; the stale view follows from the code, the intent from the entry form's handler | Session.Page.DeleteEntryAsWritten | Session.Page.DeleteEntry |
| static/chart.js:377-393 | after an accepted update only the entry tables and the chart are reloaded | save an edit the server accepts: the balance table keeps the old month totals | reload the balance table too | not executed; same reasoning | Session.Page.SaveEditAsWritten | Session.Page.SaveEdit |
