# US counties COVID-19 bar-chart dashboard, modelled in Dafny

The dashboard loads a table of `(state, county, date, cases, deaths)` rows
once. It offers three multi-select dropdowns and redraws a grouped bar chart
whenever a selection changes:

- the **state** dropdown offers every state of the table once, in ascending
  order;
- the **date** dropdown offers every date once, in the order the dates first
  appear in the table (no sort);
- the **county** dropdown is refilled by `update_county_options`: nothing
  while no state is picked, otherwise every county of the picked states once,
  in ascending order;
- the **bar chart** is redrawn by `update_bar_chart`:
  - while any of the three dropdowns is empty or unset, the chart is left
    alone (`dash.no_update`);
  - otherwise the rows are filtered by the three selections;
  - they are grouped by `(state, county, date)` with `cases` and `deaths`
    summed, in ascending key order;
  - the result is melted into a long table of `(state, county, date, Type,
    Count)` rows, which the figure is drawn from.

The model is purely functional, like the program's logic: datatypes for the
table, the dropdown values and the long table; functions for each step; and
lemmas for what each step promises. The modules follow the pipeline:

- `Seqs`: distinctness, first-occurrence position and `Series.unique`.
- `Sorting`: `sorted` as an insertion sort, over any strict total order.
- `Lex`: Python's `str` order, proved to be a strict total order.
- `Table`: the row type, column extraction and the `isin` filter.
- `Aggregate`: the group key and its order, `groupby(...).sum()` and `melt`.
- `Dashboard`: the three option lists and the two callbacks.

The chart table's row order is pandas' default: `groupby` sorts its keys
and `melt` writes the whole `cases` column before the whole `deaths` column.
The model follows that order (`Dashboard.UpdateBarChartOrder`); the other
chart lemmas state only rows, keys and sums.

## Model

| member | source | states |
|---|---|---|
| Seqs.Unique | barChart_us-conties.py:26 | `Series.unique` returns each value of the column exactly once: no duplicates, nothing that is not in the input, and nothing of the input missing |
| Seqs.UniqueFirstOccurrenceOrder | barChart_us-conties.py:26 | `Series.unique` keeps the values in the order of their first occurrence in the column |
| Sorting.Sort | barChart_us-conties.py:15 | `sorted` returns a permutation of its input (same multiset) |
| Sorting.SortSorted | barChart_us-conties.py:15 | `sorted` returns its input in ascending order, for any strict total order |
| Sorting.SortDistinct | barChart_us-conties.py:15 | sorting a duplicate-free list gives a strictly ascending, duplicate-free list with exactly the same members |
| Sorting.StrictlyAscendingUnique | barChart_us-conties.py:15 | two strictly ascending lists with the same members are equal, so the sorted option list is determined by the set of values alone |
| Lex.LessOrder | barChart_us-conties.py:15 | Python's string comparison, used by `sorted`, is irreflexive, transitive and total |
| Table.Col | barChart_us-conties.py:15 | `df[c]` has one entry per row, and entry i is row i's value in column c |
| Table.InCol | barChart_us-conties.py:15 | a value occurs in a column exactly when some row holds it there |
| Table.WhereInCount | barChart_us-conties.py:56 | `df[df[c].isin(values)]` keeps every row whose value in c is selected, as often as it occurs, and drops every other row |
| Table.InWhereIn | barChart_us-conties.py:40 | a row survives `isin` exactly when it is a row of the input with a selected value |
| Table.WhereInCommute | barChart_us-conties.py:55-60 | two `isin` filters give the same rows in either order |
| Table.WhereMatchingCount | barChart_us-conties.py:53-60 | the reference single-pass filter keeps each row that lies in all three selections, as often as it occurs, and no other row |
| Table.InWhereMatching | barChart_us-conties.py:53-60 | a row survives the single pass exactly when it is an input row lying in all three selections |
| Table.WhereInChain | barChart_us-conties.py:55-60 | filtering by state, then county, then date equals the single pass over all three selections, rows and order included |
| Aggregate.Keys | barChart_us-conties.py:62 | the group key of each row `(state, county, date)`, one per row in table order |
| Aggregate.InKeys | barChart_us-conties.py:62 | a key occurs among the row keys exactly when some row carries it |
| Aggregate.KeyOrder | barChart_us-conties.py:62 | the order of the `groupby` keys (state, then county, then date, each as a Python string) is a strict total order |
| Aggregate.GroupKeysSpec | barChart_us-conties.py:62 | the groups' keys are strictly ascending, one per distinct key of the rows, and they are exactly the keys some row carries |
| Aggregate.GroupRows | barChart_us-conties.py:62 | one output row per requested key, carrying exactly that key, in the given order |
| Aggregate.GroupByKeys | barChart_us-conties.py:62 | `groupby(...).sum().reset_index()` has one row per distinct key, with strictly ascending and so distinct keys; the keys are exactly those of the input rows; each row's `cases` and `deaths` are the sums over exactly the input rows with its key |
| Aggregate.GroupRowsTotal | barChart_us-conties.py:62 | summing over groups whose distinct keys cover every row neither loses nor double-counts a row |
| Aggregate.GroupByTotal | barChart_us-conties.py:62 | the grouped table has the same `cases` total and the same `deaths` total as the rows it groups |
| Aggregate.SumForWhereMatching | barChart_us-conties.py:53-62 | a group's sum over the filtered rows is the sum over all table rows with that key if the key lies in the selections, and zero otherwise |
| Aggregate.MeltColumn | barChart_us-conties.py:65 | melting one value column gives one long row per group: the group's key, the column name as `Type`, the group's value as `Count` |
| Aggregate.MeltShape | barChart_us-conties.py:65 | `melt` gives 2n rows for n groups: row i is group i's `cases` row and row n+i its `deaths` row |
| Aggregate.Pivot | barChart_us-conties.py:65 | pivoting a long table of even length back gives half as many wide rows |
| Aggregate.MeltPivot | barChart_us-conties.py:65 | `melt` loses nothing: pivoting its result back gives the grouped table |
| Aggregate.MeltColumnTotal | barChart_us-conties.py:65 | melting one column contributes that column's total under its own name and nothing under the other |
| Aggregate.MeltTotal | barChart_us-conties.py:65 | the `Count` of the long table's `cases` rows adds up to the groups' `cases` total, and likewise for `deaths` |
| Aggregate.MeltGroupRowsDistinct | barChart_us-conties.py:62-65 | melting the groups of distinct keys repeats no long row |
| Aggregate.MeltGroupRowsOrder | barChart_us-conties.py:62-65 | the melted groups list all `cases` rows, then all `deaths` rows, with row i of each half carrying the i-th key |
| Aggregate.GroupedLongTable | barChart_us-conties.py:62-65 | the melted group table has two rows per distinct key and no duplicates; its rows are exactly one `cases` row and one `deaths` row per key of the input, each with the sum over the rows of that key |
| Aggregate.GroupedLongLayout | barChart_us-conties.py:62-65 | the melted group table has the `cases` rows in its first half and the `deaths` rows in its second; each half's keys are strictly ascending, and row i of each half has the same key |
| Dashboard.Choices | barChart_us-conties.py:15 | an option list has one `{'label': x, 'value': x}` entry per value, in the order given |
| Dashboard.SortedUniqueSpec | barChart_us-conties.py:40 | `sorted(column.unique())` is strictly ascending and has exactly the column's values |
| Dashboard.StateOptionsSpec | barChart_us-conties.py:15 | the state dropdown offers each state of the table exactly once in strictly ascending order, and only states of the table; each option's label and value are the state |
| Dashboard.StateValuesCanonical | barChart_us-conties.py:15 | any strictly ascending list of exactly the table's states is the state dropdown's list |
| Dashboard.DateOptionsSpec | barChart_us-conties.py:26 | the date dropdown offers each date of the table exactly once and only dates of the table, in the order of their first appearance; each option's label and value are the date |
| Dashboard.DateOptionsKeepTableOrder | barChart_us-conties.py:26 | the date options are not sorted: for the table (2020-03-02, 2020-03-01) the later date is offered first |
| Dashboard.UpdateCountyOptionsSpec | barChart_us-conties.py:37-41 | with no state picked (`None` or empty) the county options are empty; otherwise they list, once each and strictly ascending, exactly the counties of rows whose state is picked; label and value are the county |
| Dashboard.UpdateBarChartNoUpdate | barChart_us-conties.py:50-51 | the chart is left as it is (`dash.no_update`) exactly when one of the three selections is `None` or empty |
| Dashboard.FilteredSpec | barChart_us-conties.py:53-60 | once all three selections are set, the guarded filters keep exactly the rows lying in all three selections, in table order; applying the filters in the opposite order gives the same rows |
| Dashboard.UpdateBarChartSpec | barChart_us-conties.py:49-65 | with all three selections set, the chart data is a duplicate-free long table with two rows per distinct key of the matching rows: for each such key a `cases` and a `deaths` row carrying the table-wide sum for that key, and no other row |
| Dashboard.UpdateBarChartTotals | barChart_us-conties.py:49-65 | the chart's `cases` rows add up to the `cases` total of the matching rows, and the `deaths` rows to their `deaths` total |
| Dashboard.UpdateBarChartOrder | barChart_us-conties.py:62-65 | the chart data lists a `cases` row per group, then a `deaths` row per group in the same order, both halves in ascending (state, county, date) order |
| Dashboard.UpdateBarChartNoMatch | barChart_us-conties.py:49-65 | selections that no row matches, such as a county left over from states no longer picked, give a chart with no rows rather than no update |
| Dashboard.UpdateBarChartExample | barChart_us-conties.py:49-65 | two Cook County rows of one day (5/0 and 3/1) become the long rows `cases` 8 and `deaths` 1, and the DuPage row is filtered out |

## Left out

- Loading `us-counties.csv` (line 7): the table is a parameter `df` of every function; file I/O and CSV parsing are not modelled.
- The Dash application, layout and callback wiring (lines 9-36, 43-48): the dropdowns' `multi`/`placeholder` settings and the mapping of inputs to outputs are not modelled. Each callback is a function of the table and the dropdown values.
- The plotly figure (lines 64-75): the model stops at the long table given to `px.bar` as `data_frame`. Axis choice, colours, labels, title and width are presentation only.
- `run_server` (lines 77-78): serving over HTTP is I/O.
- Integer width: `cases` and `deaths` are unbounded integers, so pandas' int64 overflow in the sums is not modelled.
- Missing values (NaN) and column dtypes: every row is assumed to hold strings in the three key columns and integers in the two value columns. pandas' `groupby` would drop rows with a missing key.
- Strings are compared code point by code point, as Python's `str` does. pandas' locale-independent object sort agrees with that; no Unicode normalisation is modelled.
- Purity: the callbacks read the table and change nothing; idempotence is immediate for pure functions and is not stated separately.
- Option field name: the option field `'label'` is named `caption`, because `label` is a reserved word in Dafny.
