# Smart-manufacturing dashboard: record selection and counting

This project models the data pipeline beneath the Streamlit dashboard in
`Dashboard.py`. The dashboard loads a table of machine sensor readings. The
operator narrows it down from the sidebar. The dashboard then shows metrics
and charts derived from that narrowed view. Underneath the widgets and charts
sits a small pure core. It is made of pandas boolean masks, `isin` tests,
`pd.cut`, `value_counts` and `groupby().size()`, and each of these builds a
new table from its input. The model states this core as Dafny functions over
a `seq<Record>` and proves what each step keeps and counts.

Files and modules:

- `frame.dfy`, module `Frame`: boolean indexing `frame[mask]` (`Where`), the
  order-preserving subsequence relation, and the general facts about
  selections. These facts are: selections are subsequences, the exact
  multiset of kept rows, size and monotonicity.
- `binning.dfy`, module `Binning`: `pd.cut` with right-open bins (`Cut`).
- `histogram.dfy`, module `Histogram`: `value_counts` / `groupby().size()`
  as a list of `(key, count)` bins (`CountBy`). Its correctness is proved
  against the multiset of the counted column.
- `table.dfy`, module `Table`: the `Record` type (one sensor reading), its
  text columns and the column-wise mask builders. The builders cover `isin`,
  `==`, `!=`, `>=`, `<=`, `>` and the element-wise `&` and `|`.
- `dashboard.dfy`, module `Dashboard`: the day-part column, the sidebar
  filter and maintenance choice, the anomaly view, the failure metrics and
  the three histograms. This module holds the lemmas that state what the
  dashboard promises.

A `Record` has the fields `machine`, `machineStatus`, `failureType`,
`maintenanceRequired` (the raw text, "Yes" or "No" in the data), `date` (a
day number), `hour`, `temperature` and `vibration`.

The model follows the code literally in two places where a reader might
expect otherwise:

- `maintenance_required` is compared with the strings `'Yes'` and `'No'`
  (`Dashboard.py:96`, `98`, `308`), not treated as a boolean. A row holding
  any other text therefore survives only the 'Todas' choice.
- An hour outside [0,24) gets no day part, as `pd.cut` yields NaN there
  (`Dashboard.py:41-44`). It does not raise an error.

The model differs from pandas in one place: the order of the bins of the
three summaries. pandas' `value_counts()` (`Dashboard.py:125`, `293`) orders
its bins by descending count, and `groupby().size()` (`Dashboard.py:310`)
orders them by ascending key. `Histogram.CountBy` keeps its bins in order of
first appearance instead. The summaries' lemmas state every bin's key and
count but not the bins' order (see "Left out").

## Model

| member | source | states |
|---|---|---|
| `Binning.Cut` | Dashboard.py:41-44 | With strictly increasing edges and distinct labels, the result is the label of bin i exactly when edges[i] <= x < edges[i+1], and any label it returns is that of the bin holding x. It is None exactly when x is below the first edge or at or above the last one (right-open bins, NaN outside). |
| `Dashboard.DayPartOf` | Dashboard.py:41-44 | An hour gets a day part exactly when 0 <= hour < 24. |
| `Dashboard.DayPartBuckets` | Dashboard.py:41-44 | The day part is Madrugada iff 0 <= h < 6, Manhã iff 6 <= h < 12, Tarde iff 12 <= h < 18 and Noite iff 18 <= h < 24. It is absent iff h < 0 or h >= 24, so hour 6 is morning and hour 18 is evening. |
| `Frame.Where` | Dashboard.py:87-93 | Boolean indexing keeps as many rows as the mask has true entries. |
| `Dashboard.FacetFilter` | Dashboard.py:87-93 | The four-facet selection of the table has no more rows than the table (which rows it holds: `Dashboard.FacetFilterSelects`). |
| `Dashboard.ApplyMaintenance` | Dashboard.py:95-98 | The maintenance choice applied to a view leaves no more rows than the view (which rows: `Dashboard.MaintenanceFilterSelects`). |
| `Dashboard.FilteredView` | Dashboard.py:87-98 | The view every tab works on has no more rows than the loaded table (which rows: `Dashboard.FilteredViewSelects`). |
| `Frame.WhereIsSubsequence` | Dashboard.py:87-93 | A boolean-mask selection is an order-preserving subsequence of the table. |
| `Frame.WhereByRowTest` | Dashboard.py:87-93 | When each mask entry is a test of its row, the selection holds each row passing the test exactly as often as the table does, and holds no other row. |
| `Frame.WhereSize` | Dashboard.py:118-119 | A selection is no longer than the table. It keeps every row iff the mask has no false entry, and keeps no row iff the mask has no true entry. |
| `Frame.WhereMonotone` | Dashboard.py:263-266 | A mask that is true in fewer places selects a subsequence of what the wider mask selects. |
| `Dashboard.FacetFilterSelects` | Dashboard.py:87-93 | The faceted filter is an order-preserving subsequence of the table. A row is in it iff the row is in the table, its machine, status and failure type are selected, and first date <= date <= last date. Each such row appears with its full multiplicity. |
| `Dashboard.EmptySelectionEmptiesView` | Dashboard.py:87-93 | If the machine, status or failure-type selection is empty, the filtered view is empty under every maintenance choice. |
| `Dashboard.FullSelectionKeepsAll` | Dashboard.py:87-93 | If every row's machine, status and failure type are selected, every date lies in the range and the choice is 'Todas', the filtered view is the whole table. |
| `Dashboard.MaintenanceFilterSelects` | Dashboard.py:95-98 | 'Todas' leaves the view unchanged. 'Apenas com manutenção' keeps, in order, exactly the rows whose maintenance text is "Yes". 'Sem manutenção' keeps exactly those with "No". The result is always a subsequence of the view. |
| `Dashboard.OtherMaintenanceOnlyUnderTodas` | Dashboard.py:95-98 | A row whose maintenance text is neither "Yes" nor "No" survives iff the choice is 'Todas' and the row is in the view. |
| `Dashboard.FilteredViewSelects` | Dashboard.py:87-98 | The dashboard's filtered view is an order-preserving subsequence of the loaded table. A row is in it iff the row passes all four facets and the maintenance choice, and it appears with its full multiplicity. |
| `Dashboard.Anomalies` | Dashboard.py:263-266 | The anomaly view has no more rows than the view it is taken from (which rows: `Dashboard.AnomaliesSelect`). |
| `Dashboard.AnomaliesSelect` | Dashboard.py:263-266 | The anomalies are an order-preserving subsequence of the view. A row is one iff temperature > temperature limit or vibration > vibration limit (strictly), so a reading equal to both limits is not an anomaly. |
| `Dashboard.FilteredAnomaliesInTable` | Dashboard.py:263-266 | The anomalies of the filtered view are also a subsequence of the loaded table. |
| `Dashboard.AnomaliesMonotone` | Dashboard.py:263-266 | Raising either limit never adds a row. The anomalies under higher limits are a subsequence of those under lower limits, and there are no more of them. |
| `Dashboard.AnomalyScenario` | Dashboard.py:263-266 | With limits 90 and 70, readings (95, 10) at 02:00, (50, 80) at 08:00 and (40, 20) at 20:00 give exactly the first two as anomalies. Their day parts are Madrugada, Manhã and Noite. |
| `Dashboard.Failures` | Dashboard.py:118 | The rows with status "Failure" are no more than the view (which rows and how many: `Dashboard.FailureCountBounds`). |
| `Dashboard.FailureCount` | Dashboard.py:118-119 | The failure count is at most the view's length. |
| `Dashboard.FailureRate` | Dashboard.py:121 | The failure rate, zero for an empty view, lies in [0, 100]. |
| `Dashboard.FailureCountBounds` | Dashboard.py:118-119 | The failure count is the number of "Failure" entries in the status column, so it is at most the view's length. It is 0 iff no row has status "Failure", and it equals the length iff every row does. |
| `Dashboard.FailureRateBounds` | Dashboard.py:121 | The failure rate lies in [0, 100]. It is 0 iff no row failed, which includes the empty view. For a non-empty view it is 100 iff every row failed. |
| `Dashboard.PercentBounds` | Dashboard.py:121 | count / len * 100 lies in [0, 100] when 0 <= count <= len and len > 0. It is 0 iff count is 0 and 100 iff count equals len. |
| `Histogram.CountBy` | Dashboard.py:125 | The counts of a column's histogram add up to the column's length (bin by bin: `Histogram.CountByCorrect`). |
| `Histogram.Tally` | Dashboard.py:125 | Counting one more occurrence raises the total by one. |
| `Histogram.CountByCorrect` | Dashboard.py:125 | A histogram has one bin per distinct key of the column, and no key appears in two bins. Every count is at least 1 and equals the key's number of occurrences in the column. The counts sum to the column's length. |
| `Histogram.TallyCounts` | Dashboard.py:125 | Counting one more occurrence of a key adds 1 to that key's count and to the total. It adds the key if it was absent and keeps the bins distinct and positive. |
| `Table.ColumnCount` | Dashboard.py:125 | A key occurs in a text column as often as there are rows whose entry in that column equals it. |
| `Dashboard.StatusCounts` | Dashboard.py:125 | The status histogram's counts add up to the view's length. |
| `Dashboard.StatusCountsSummary` | Dashboard.py:125 | The status histogram has one bin per status present in the view. Each count is at least 1 and equals the number of rows with that status, and the counts sum to the view's length. |
| `Dashboard.NonNormalRows` | Dashboard.py:291 | The rows whose failure type is not "Normal" are no more than the view (which rows: `Dashboard.FailureTypeKeys`, `Dashboard.FailureTypeOccurrences`). |
| `Dashboard.FailureTypeCounts` | Dashboard.py:291-293 | The failure-type histogram's counts add up to the number of non-"Normal" rows. |
| `Dashboard.FailureTypeCountsSummary` | Dashboard.py:291-293 | The failure-type histogram has one bin per failure type other than "Normal" that is present in the view, and "Normal" gets none. Each count is at least 1 and equals the number of view rows of that type. The counts sum to the number of non-"Normal" rows. |
| `Dashboard.FailureTypeKeys` | Dashboard.py:291 | The failure types among the non-"Normal" rows are exactly the view's failure types other than "Normal". |
| `Dashboard.FailureTypeOccurrences` | Dashboard.py:291-293 | A failure type other than "Normal" occurs among the non-"Normal" rows as often as in the whole view. "Normal" does not occur there. |
| `Dashboard.MaintenanceRows` | Dashboard.py:308 | The rows whose maintenance text is "Yes" are no more than the view. |
| `Dashboard.MaintenanceByMachine` | Dashboard.py:308-310 | The per-machine maintenance histogram's counts add up to the number of "Yes" rows. |
| `Dashboard.MaintenanceByMachineSummary` | Dashboard.py:308-310 | The per-machine maintenance histogram has one bin per machine that has a row with maintenance text "Yes". Each count is at least 1 and equals that machine's number of such rows. The counts sum to the number of "Yes" rows. |

## Left out

- Page layout, sidebar widgets, tabs, `st.stop`, warnings and CSS (`Dashboard.py:8-32`, `49-85`, `100-116`, `361-365`): presentation only. The widgets' outputs are the inputs of `Criteria` and `MaintenanceChoice`.
- The default selection of the first five machines (`Dashboard.py:55`): a widget default. The filter is modelled for any selection.
- The date widget can return fewer than two dates while the operator is choosing one, and `date_range[1]` then raises an indexing error (`Dashboard.py:89-90`). The model takes the two bounds as given.
- Plotly figure construction, including the trace loop (`Dashboard.py:128-140`, `151-159`, `171-178`, `209-236`, `246-253`, `269-286`, `296-303`, `313-320`): charting library.
- CSV reading, timestamp parsing and caching (`Dashboard.py:34-40`): file I/O and pandas internals. `date` and `hour` are fields already derived from the timestamp.
- The sensor means per machine and per hour (`Dashboard.py:143`, `245`) and the correlation matrix (`Dashboard.py:170`): floating-point numerics.
- CSV/JSON export and the timestamp-based file name (`Dashboard.py:338-359`): pandas serialisers and the clock.
- "Latest value" metrics (`.iloc[-1]`), the per-machine detail view that feeds them and its charts (`Dashboard.py:191-198`), and number formatting (`Dashboard.py:122`): presentation only.
- Missing values (NaN) in text columns: `value_counts` and `isin` treat them specially. The model's text columns always hold a string.
- Dashboard.StatusCountsSummary: says nothing about the order of the bins. Here bins come in first-seen order, while `value_counts` sorts by count, and that order only affects chart layout.
- Dashboard.FailureTypeCountsSummary: says nothing about the order of the bins, for the same reason.
- Dashboard.MaintenanceByMachineSummary: says nothing about the order of the bins. Here bins come in first-seen order, while `groupby().size()` sorts by machine name; the chart re-sorts by count anyway (`Dashboard.py:314`).
- Temperatures and vibrations are exact reals, and the limits are the integers the sliders produce. Floating-point rounding is not modelled.
