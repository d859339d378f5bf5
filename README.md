# Plant measurement store and series alignment, in Dafny

This project models the data core of the plant-monitoring dashboard: the measurement
store `PlantDataBase` (functions/db.py), the lookup of a series by its measurement name
(functions/query.py) and the data logic of the dashboard `DashApp`
(functions/dashboard.py). The store holds two relations. `Metadata` has one
`Descriptor` per measurement series, keyed by `series_id`. `Data` holds the timestamped
`Record`s of every series. Series ids come from a key string built out of six fields and
then hashed.

The operations are the window query, the compound delete, listing all metadata and the
three folds that line several series up on one time axis. Each fold is a chain of outer
joins on `date`:
- `query_multiple` names its columns `m_0, m_1, …`;
- `query_multiple_msr` names them by msr;
- `query_multiple_measurements` replaces the accumulated table while it has no rows.

Modules:
- `Wrappers`: Option, Result and Outcome.
- `Seqs`: an order-keeping filter and its laws.
- `Text`: the string order of Python and SQLite, the text SQLite reads as a number, and Python's `str(int)`.
- `Timestamps`: the fixed `YYYY-MM-DD HH:MM:SS` format, the heatmap keys and how pandas reads a window bound.
- `Schema`: the two row types and the errors.
- `Align`: the aligned table, the pairwise outer join and both folds.
- `Store`: the class `PlantDataBase`.
- `MsrQuery`: the functions of functions/query.py.
- `Dashboard`: the class `DashApp` and its callbacks.

Timestamps are strings. `Data.date` is declared `DATETIME`, which gives the column
NUMERIC affinity. The stored dates are in a fixed format that is not a number, so they are
kept as TEXT. In `query_data` a quoted bound that reads as a number, such as a bare year
`2024`, is converted to a number, and SQLite sorts every number before every TEXT value.
Such a bound admits every row as a start bound and none as an end bound
(`Store.NumericStartKeepsAll`, `Store.NumericEndKeepsNone`, `Store.YearBound`). Any other
bound compares as text, and `Text.LexLe` is that order. After `pd.to_datetime`, pandas
compares timestamps as instants, and on the fixed format that agrees with the text order,
so the model keeps strings throughout. `Store.PlantDataBase.Valid` requires every stored
date to be in the fixed format, which is what makes the conversions succeed.

Three points of the code's behaviour are easy to get wrong:
- `delete_measurements` is atomic. Both `DELETE`s run in one implicit sqlite3 transaction
  that is committed only after the second. A failure of either leaves both tables as they
  were (`Store.PlantDataBase.DeleteMeasurements`). `drop_tables` is not: `DROP TABLE` is
  committed at once, so a failing second drop leaves `Data` dropped
  (`Store.PlantDataBase.DropTables`).
- A bare `YYYY-MM-DD` bound is compared as text with full timestamps. In `query_data` a
  bare end date therefore excludes that whole day (`Store.BareEndBoundExcludesDay`). In
  the dashboard's plot filter pandas reads it as midnight, and it keeps only midnight of
  that day (`Timestamps.BareEndStampKeepsMidnight`).
- The key string joins six fields with `_` and escapes nothing, so it is not injective
  and two different six-tuples can share an id (`Store.KeyCollision`,
  `Store.IdCollision`).

`query_multiple` does not reject an id without a metadata row. Such an id gets a column
and no metadata row, and nothing is raised (`Store.LabelAll`). The dashboard's
`query_multiple_measurements` differs. It labels the id's metadata rows by setting a new
column to a scalar through `.loc`, and pandas raises a `ValueError` for that on a frame
with no rows. The first such id therefore makes the call fail
(`Dashboard.DashApp.QueryMultipleMeasurements`, `Schema.Error.NoMetadataRow`).

## Model

| member | source | states |
|---|---|---|
| Store.SeriesKeyRoundTrip | functions/db.py:146-152 | when msr, attribute and both dates hold no `_`, cutting the key string at its first five `_` and parsing the size gives back all six fields |
| Store.SeriesKeyInjective | functions/db.py:150 | under the same condition, equal key strings come only from equal six-tuples |
| Store.KeyCollision | functions/db.py:150 | without that condition the key is not injective: msr `a_b` with attribute `c` and msr `a` with attribute `b_c` are different tuples with the same key string |
| Store.IdCollision | functions/db.py:146-152 | hence those two tuples get the same series id, whatever the hash |
| Text.IntRoundTrip | functions/db.py:150 | the raster size written as Python writes an int parses back to itself |
| Text.IntToStringInjective | functions/db.py:150 | different raster sizes are written differently |
| Text.LexLeTotal | functions/db.py:103-105 | any two strings are comparable under the text order used for date bounds |
| Text.LexLeTransitive | functions/db.py:103-105 | the text order is transitive |
| Text.LexLeAntisymmetric | functions/db.py:103-105 | the text order is antisymmetric |
| Text.PrefixIsLe | functions/db.py:103-105 | a string sorts at or before each of its extensions |
| Text.ExtensionNotLe | functions/db.py:103-105 | a proper extension never sorts at or before the string it extends |
| Store.SelectData | functions/db.py:96-113 | a record is returned iff it is stored, carries the id, and lies within each given bound as SQLite compares it with the NUMERIC-affinity `date` column; an empty bound is no bound |
| Store.SelectDataKeepsOrder | functions/db.py:96-113 | the query keeps stored order: selecting from two stretches of the table is selecting from each in turn |
| Store.SelectUnknownId | functions/db.py:96-113 | an id no row carries gives an empty result, not an error |
| Store.BareEndBoundExcludesDay | functions/db.py:102-105 | a bare `YYYY-MM-DD` end bound excludes every timestamp of that day, while the same start bound admits all of them |
| Store.FixedBoundComparesAsText | functions/db.py:102-105 | a bound that is a date or a timestamp in the fixed format compares with a stored date in the text order |
| Timestamps.FixedFormatIsText | functions/db.py:42 | a date or timestamp in the fixed format is not text SQLite reads as a number |
| Text.DigitsAreNumeric | functions/db.py:42 | a non-empty string of digits is text SQLite reads as a number |
| Store.NumericStartKeepsAll | functions/db.py:102-103 | a start bound that reads as a number selects what no start bound selects |
| Store.NumericEndKeepsNone | functions/db.py:104-105 | an end bound that reads as a number selects nothing |
| Store.YearBound | functions/db.py:102-105 | a bare year keeps every row of the series as a start bound and none as an end bound |
| Timestamps.BareDateAgainstSameDay | functions/db.py:104-105 | a bare date sorts strictly before every timestamp of its own day |
| Store.MetaFor | functions/db.py:124 | a descriptor is selected iff it is in the table and carries the id |
| Store.RemoveSeries | functions/db.py:90 | after the Data delete a record remains iff it was stored and carries another id |
| Store.RemoveDescriptors | functions/db.py:91 | after the Metadata delete a descriptor remains iff it was stored and carries another id |
| Store.DeleteLeavesNothing | functions/db.py:85-94 | after the compound delete, the window query and the metadata selection for that id are both empty |
| Store.RemoveSeriesKeepsOrder | functions/db.py:90 | the delete keeps the other rows in stored order |
| Store.DeleteAbsentIsNoop | functions/db.py:85-94 | deleting an id no row carries leaves both tables unchanged |
| Store.PlantDataBase.constructor | functions/db.py:9-10 | the store opens on the tables and rows the database file holds |
| Store.PlantDataBase.CreateTables | functions/db.py:12-50 | afterwards both tables exist and existing rows are untouched (`IF NOT EXISTS`) |
| Store.PlantDataBase.DropTables | functions/db.py:154-163 | drops Data, then Metadata; no Data table fails with nothing changed; no Metadata table fails after Data is already gone; otherwise both are gone |
| Store.PlantDataBase.QueryAllMetadata | functions/db.py:72-83 | every descriptor in stored order, or the missing-table error |
| Store.PlantDataBase.QueryData | functions/db.py:96-113 | the `WHERE` clause built condition by condition selects exactly `SelectData`; a missing Data table is an error |
| Store.PlantDataBase.QueryMeasurements | functions/db.py:52-70 | with raster 15 `min` by default, the id is the hash of the six fields and the result is exactly the Data rows and the Metadata rows carrying it; Data is read first |
| Store.PlantDataBase.DeleteMeasurements | functions/db.py:85-94 | on success Data loses exactly that id's rows and then Metadata its descriptors; on a missing table nothing changes; the tables' presence never changes |
| Store.PlantDataBase.QueryMultiple | functions/db.py:115-132 | no Metadata table fails first; an empty id list fails (table never bound); otherwise the result is the join fold over the ids' series named `m_0…` and their metadata rows labelled by the same names, in input order |
| Store.QueryMultipleStep | functions/db.py:118-130 | one loop turn: the first series initialises the table, each later one is outer-joined, and its labelled metadata rows are appended |
| Store.QueryMultipleAligns | functions/db.py:118-132 | columns are `m_0…m_{n-1}` in input order; the dates are the union of all series' dates; if no series repeats a date, each row holds in `m_i` the i-th series' value at that date, or none |
| Store.SeriesDates | functions/db.py:119-123 | the dates of the i-th series are exactly the dates of the Data rows carrying the i-th id |
| Store.PositionalNamesDistinct | functions/db.py:121 | the names `m_i` of different positions differ |
| Store.LabelAll | functions/db.py:124-130 | every labelled row is a stored descriptor of some input id, labelled with that id's name; every stored descriptor of an input id appears with its name; an id without metadata adds no row |
| Align.JoinShape | functions/db.py:127 | an outer join appends the new column, keeps every row as wide as the header, and its dates are the union of both sides' dates |
| Align.JoinDescribes | functions/db.py:127 | if neither side repeats a date, each joined row has each series' value at its date, or none where the series lacks it |
| Align.ProjectIsJoinOfEmpty | functions/db.py:122-123 | initialising the table with the first series equals joining it onto the empty table |
| Align.AlignAllShape | functions/db.py:118-130 | the join fold has the given column names, is well formed, and its dates are the union of all series' dates |
| Align.AlignAllDescribes | functions/db.py:118-130 | if no series repeats a date, the join fold has one row per date and the right value in every cell |
| Align.Kept | functions/dashboard.py:374-375 | the first series that survives the replacing fold: every earlier series is empty, and it is non-empty unless it is the last |
| Align.ReplacingIsSuffixAlign | functions/dashboard.py:374-377 | the replacing fold equals the join fold over the series from `Kept` on |
| Align.ReplacingShape | functions/dashboard.py:374-377 | the replacing fold's columns are the names from `Kept` on; its dates are the union of all series' dates; it has no rows iff all series are empty; with no repeated dates it aligns the series from `Kept` on |
| Align.EmptyFirstSeriesLosesColumn | functions/dashboard.py:374-375 | an empty first series followed by a non-empty one leaves no `m_0` column |
| MsrQuery.FindByMsrSpec | functions/query.py:5-9 | "not found" iff no row has the msr; "multiple entries" iff two rows do; otherwise the result is the one row that has it |
| MsrQuery.LookupMessage | functions/query.py:7-9 | each `ValueError` text starts with `Measurement ` and the msr, then ends in `not found in metadata` or `has multiple entries in metadata` by failure kind |
| MsrQuery.LookupMessageIdentifiesError | functions/query.py:7-9 | two lookup failures with the same message are the same failure: the text gives back both the kind and the msr |
| MsrQuery.QueryAndPrepareData | functions/query.py:4-16 | a failed lookup is returned before the store is read; otherwise the one matching metadata row and that series' rows inside the window, or the missing-table error |
| MsrQuery.MsrStepsSucceeds | functions/query.py:20-21 | the gathering over the names succeeds iff every lookup does and, for a non-empty list, the Data table exists |
| MsrQuery.MsrStepsLast | functions/query.py:20-29 | a successful gathering is that of all names but the last, extended by the last name's row and its series in the window |
| MsrQuery.FindByMsrName | functions/query.py:5-12 | the row a successful lookup returns carries the msr looked up |
| MsrQuery.MsrStepsContents | functions/query.py:20-29 | on success, the i-th metadata row is the unique row of the i-th msr, and the i-th series is its rows in the fixed window `2023-01-01`…`2023-02-31` |
| MsrQuery.MsrStepsFirstFailure | functions/query.py:20-21 | a failure is the error of the first failing lookup (or the missing Data table), with every earlier lookup successful |
| MsrQuery.MsrStepsFailureSticks | functions/query.py:20-21 | once a prefix of the names fails, the whole call fails with that error |
| MsrQuery.MsrStepsStep | functions/query.py:22-29 | one loop turn extends the series and metadata by the next lookup, initialising the table on the first turn and outer-joining afterwards |
| MsrQuery.QueryMultipleMsr | functions/query.py:19-31 | an empty list fails (table never bound); otherwise the first failure aborts the call, or the result is the join fold with columns named by the msrs and the metadata rows in input order |
| MsrQuery.QueryMultipleMsrAligns | functions/query.py:23-28 | columns are the msr names in input order; the dates are the union of all series' dates; with no repeated dates, each cell holds the right value |
| Dashboard.OptionLabelEnds | functions/dashboard.py:132-134 | an option label starts with `description - ` and ends with `msr.attribute)` |
| Dashboard.DropdownOptions | functions/dashboard.py:130-139 | one option per metadata row, in row order, with value the row's series id |
| Dashboard.DropdownOffersEverySeries | functions/dashboard.py:130-139 | an id is offered iff some metadata row carries it |
| Dashboard.Keyed | functions/dashboard.py:353-354 | one keyed row per record, in order, carrying that record |
| Dashboard.KeyedRecoversTimestamps | functions/dashboard.py:353-354 | each day key is a calendar date, each minute-of-day key is below 1440, and the two keys give the timestamp back up to its seconds |
| Timestamps.MinuteOfDay | functions/dashboard.py:354 | the key divided by 60 equals the `hour + minute / 60` column, and it is below 1440 |
| Timestamps.KeysRoundTrip | functions/dashboard.py:353-354 | day key, a blank, the key as `HH:MM` and the seconds rebuild the timestamp |
| Timestamps.KeysIdentifyMinute | functions/dashboard.py:353-354 | two timestamps get the same keys iff they agree up to the minute |
| Dashboard.PyIndex | functions/dashboard.py:325 | Python list indexing: in range iff `-n <= i < n`, and a negative index counts from the end |
| Dashboard.SelectedIds | functions/dashboard.py:325 | the selected rows' ids in selection order, or the first index out of range with all earlier ones in range |
| Dashboard.RemoveAllSeriesIsFilter | functions/dashboard.py:326-327 | deleting the ids one by one keeps, in stored order, exactly the records carrying none of them |
| Dashboard.RemoveAllDescriptorsIsFilter | functions/dashboard.py:326-327 | the same for the metadata rows |
| Timestamps.BoundStamp | functions/dashboard.py:264 | a bound is read iff it is a date or a full timestamp; a bare date becomes midnight of that day, and a full timestamp is read as itself |
| Timestamps.BareEndStampKeepsMidnight | functions/dashboard.py:264 | as an end bound, a bare date keeps only the 00:00:00 timestamp of its own day |
| Dashboard.Draw | functions/dashboard.py:265-285 | after the window filter: an evaluator failure gives the error panel with its message; a result of the wrong length gives the length-mismatch text; otherwise the line holds the kept rows' dates in order and the evaluator's values; each line date lies in the window and every row in the window appears |
| Dashboard.Plot | functions/dashboard.py:264-285 | an unreadable start bound fails, then an unreadable end bound; with both read as timestamps the result is always a figure, the one `Draw` makes |
| Dashboard.ReplacingStep | functions/dashboard.py:374-377 | one loop turn: a table with no rows is replaced by the new series, otherwise the series is outer-joined |
| Dashboard.MeasurementsAlign | functions/dashboard.py:359-379 | the columns are the `m_i` from the first selection with rows in the window on; the dates are the union; with no repeated dates the cells are right |
| Dashboard.DashApp.constructor | functions/dashboard.py:14-24 | on a non-empty Metadata table, the app holds all metadata and the options derived from it |
| Dashboard.DashApp.GenerateDropdownOptions | functions/dashboard.py:130-139 | one option per held metadata row with that row's series id |
| Dashboard.DashApp.UpdateDropdownOptions | functions/dashboard.py:345-347 | the same options four times, from the held metadata, whatever the table data |
| Dashboard.DashApp.QueryAndPrepareData | functions/dashboard.py:349-357 | the held metadata rows of the series and its rows in the window with their day and minute keys, or the missing-table error |
| Dashboard.FirstUndescribed | functions/dashboard.py:366-370 | the first selected id without a held metadata row: every earlier id has one, and it has none; the number of ids when all have one |
| Dashboard.DashApp.QueryMultipleMeasurements | functions/dashboard.py:359-379 | a missing Data table fails first; otherwise the first selected id without a held metadata row fails; otherwise the replacing fold over the selections' windowed series named `m_i`, and the held metadata rows labelled `m_i` in input order; an empty selection gives empty results |
| Dashboard.DashApp.DeleteRows | functions/dashboard.py:322-332 | without a click, rows and store are unchanged; a bad index fails before any delete; otherwise every selected id is deleted in turn and the held metadata becomes the store's; a missing table fails with the store unchanged; the dropdown options never change |
| Dashboard.DashApp.UpdateOutputPlot | functions/dashboard.py:262-287 | errors of `query_multiple` propagate; otherwise the result is `Plot` of its table |

## Left out

- SQLite connections, cursors, commit and close are not modelled. Each table is a presence flag and a sequence of rows in memory.
- `execute_query` (functions/db.py:134-144) is not modelled. It runs arbitrary SQL.
- The string interpolation in `query_data` is not modelled; only its filter is. A quote inside an id or a bound would change the query text.
- The declared foreign key of `Data` is not enforced by SQLite by default. The model assumes no referential integrity.
- SHA-256 is the opaque deterministic function `Store.PlantDataBase.hash`.
- Inserting rows is outside the modelled core. Rows come from the constructor.
- Timestamps.IsDate: does not check calendar validity (a 30 February passes), because `pd.to_datetime` parsing is not modelled.
- Timestamps.BoundStamp: reads only a bare date or a full timestamp in the fixed format. Other strings pandas would accept count as unreadable bounds.
- Store.SelectData: takes every stored date to be TEXT, which `Valid` guarantees. The numeric text it recognises is an optional sign, digits with an optional decimal point and an optional exponent, with surrounding blanks. Finer points of SQLite's number parser are not modelled.
- Store.PlantDataBase.Valid: assumes every stored date is a full timestamp in the fixed format. A malformed date, on which `pd.to_datetime` raises, is not modelled. Nor is a NULL date, which sqlite3 returns as `None` and `pd.to_datetime` turns into `NaT`; an outer merge would match `NaT` keys with each other.
- Nullable text columns of `Metadata` are carried as plain strings.
- `mean` values are carried and never computed on. Floating-point work is not modelled: the `pivot_table` averaging, `groupby('hour').mean()` and `np.polyfit`.
- Dashboard.DashApp.QueryAndPrepareData: does not return the pivot grid `df_pivot`, only the keyed rows it is built from.
- Align.Join: orders rows as the left rows followed by the right-only points. pandas may sort the keys of an outer merge, so the model claims the set of dates and the cell contents, not the row order.
- Align.JoinDescribes: cells are stated only when no series repeats a date. On repeated dates the join gives every matching pair (a cartesian product), and the model claims only the set of dates.
- MsrQuery.QueryMultipleMsr: an msr equal to the name of another `Data` column (`date`, `series_id`, `data_id` or `status`) is not modelled. `rename(columns={'mean': msr})` then gives two columns with that label, so `df_single[['date', msr]]` selects more columns than two, and a later merge raises on the non-unique label or adds suffixed columns. A repeated msr makes pandas rename the clashing columns with `_x`/`_y` suffixes, which is not modelled either. In the model the columns are the msr names.
- MsrQuery.QueryMultipleMsrAligns: describes the model's msr-named columns, so it does not describe pandas' result for the msr names in the line above.
- `numexpr.evaluate` is the parameter `Dashboard.Evaluator`. A scalar result broadcast over all rows is not modelled.
- Dashboard.DashApp.UpdateOutputPlot: drops the unused click count. Only the line's dates and values are kept, not the plotly layout.
- Dashboard.DashApp.constructor: requires the Metadata table to exist and to hold a row. The source raises in `__init__` otherwise: `query_all_metadata` fails on a missing table, and `create_layout` reads the first row's series id.
- Not modelled: all Dash layout, callback registration, `update_univariate_graphs`, `update_multivariate_graphs`, `update_calculate_selection` and the figure builders (functions/dashboard.py:27-128, 141-261, 289-311, 381-481).
- The `__main__` blocks are not modelled.
- Concurrency between callers is not modelled. Every operation runs alone.
