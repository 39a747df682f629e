# Station catalogue standardization, in Dafny

This project models the core of a station-catalogue pipeline. Agencies publish station tables
with their own column names. The pipeline maps each table onto one canonical ten-field schema,
merges the tables into a master table, and derives a QA report and a duplicate report from it.
A helper script works on CoCoRaHS stations. It turns the rows of a scraped station grid into
station records, and it builds a per-station timeline of first and last report dates.

Modules:

- `Wrappers`: `Option` and `Result`.
- `Seqs`: counting, filtering, mapping, concatenation and de-duplication of sequences, and
  the "first error wins" loop (`MapResult`).
- `Order`: Python's ordering of strings and lists, and a sort by key.
- `Utils`: the value normalizers `clean_str`, `normalize_site_id`, `to_float`, `to_date` and the
  column resolver `pick_first_col` (src/utils.py).
- `Schema`: the canonical column names and `MASTER_COL_ORDER` (src/schema.py), and the row
  types.
- `Qa`: the Arizona bounding box, the QA report and the duplicate detector (src/qa.py).
- `Pipeline`: `read_any`'s suffix dispatch, `standardize_one`, and the selection, merge,
  reorder and summary part of `run_pipeline` (src/pipeline.py).
- `Cocorahs`: the grid-row extraction and de-duplication, `choose_col` and `make_timeline`
  (scripts/cocorahs_stations.py).

The source's loops are methods proved against specification functions. These methods are
`BuildQaReport`, `StandardizeOne`, `StandardizeAll`, `RunPipeline`, `FillMissingColumns`,
`ExtractPage`, `CollectObservations`, `GroupSpans`, `JoinStations` and `MakeTimeline`. The
functions are then characterised by lemmas.

The outside world is passed in as parameters:

- the directory listing (`glob`);
- the file readers (`read`);
- Python's `float` and pandas' `to_datetime`, as partial parsers returning `Option`;
- the scraped grid, as the cell texts of its rows.

## Model

| member | source | states |
|---|---|---|
| Schema.ColumnNameInjective | src/schema.py:3-14 | two fields with the same column name are the same field, so the ten canonical names are pairwise distinct |
| Schema.MasterHeaderSpec | src/schema.py:18-29 | `MASTER_COL_ORDER` is exactly site_id, operator, name, lat, lon, datum, status, start_date, end_date, url; every field's name is in it; `source_file` is not |
| Schema.MasterHeaderDistinct | src/pipeline.py:87 | the eleven-name master header has no name twice |
| Utils.Strip | src/utils.py:7 | the result has no whitespace at either end and is no longer than the input |
| Utils.StripSlice | src/utils.py:7 | the result is a contiguous piece of the input, and only whitespace is cut off on each side |
| Utils.StripIdempotent | src/utils.py:7 | stripping twice is stripping once |
| Utils.StripEmpty | src/utils.py:7 | stripping leaves nothing exactly when the input is all whitespace |
| Utils.CleanStr | src/utils.py:4-7 | `""` for a missing cell, otherwise the stripped text; the result never has surrounding whitespace |
| Utils.CleanStrEmpty | src/utils.py:4-7 | the result is `""` exactly when the cell is missing or all whitespace |
| Utils.CleanStrIdempotent | src/utils.py:4-7 | cleaning a cleaned value changes nothing |
| Utils.RemoveSpaces | src/utils.py:11 | the result contains no whitespace character anywhere and is no longer than the input |
| Utils.RemoveSpacesKeeps | src/utils.py:11 | every non-whitespace character occurs as often in the result as in the input |
| Utils.RemoveSpacesAppend | src/utils.py:11 | removal commutes with concatenation, so the kept characters stay in order |
| Utils.RemoveSpacesNoSpace | src/utils.py:11 | a string without whitespace is left unchanged |
| Utils.RemoveSpacesEmpty | src/utils.py:11 | the result is empty exactly when the input is all whitespace |
| Utils.NormalizeSiteId | src/utils.py:9-12 | the id has no whitespace anywhere, and is `""` exactly when the cell is missing or all whitespace |
| Utils.NormalizeSiteIdIdempotent | src/utils.py:9-12 | normalizing a normalized id changes nothing |
| Utils.ToFloat | src/utils.py:14-20 | `None` for a missing cell, otherwise the parser's answer (`None` on rejection); it never fails |
| Utils.ToDate | src/utils.py:22-25 | no date for a missing cell or one blank after stripping, otherwise the parser's answer |
| Utils.LastWithLower | src/utils.py:28 | the position found is that of a column with the given lower-case form, and no later column has it |
| Utils.LowerIndex | src/utils.py:28 | a lower-case key is in the index exactly when some column has that form, and it maps to the last such column |
| Utils.PickFirstColSpec | src/utils.py:27-33 | `None` exactly when no candidate matches any column up to case; otherwise the column is the last one matching the first candidate that matches |
| Utils.PickFromSpec | src/utils.py:30-33 | the same, for the search from any candidate position on |
| Seqs.Concat | src/pipeline.py:81 | the merged table is as long as all the parts together |
| Seqs.ConcatAt | src/pipeline.py:81 | row `k` of part `i` sits in the merged table after all rows of the earlier parts |
| Seqs.MapResultOk | src/pipeline.py:75-79 | on success there is one part per path, each that path's own result |
| Seqs.MapResultErr | src/pipeline.py:75-79 | the loop fails exactly when some path fails, and the error is that of the first failing path |
| Seqs.MapResultErrPersists | src/pipeline.py:75-79 | once a path has failed, the later paths do not change the outcome |
| Seqs.Dedup | scripts/cocorahs_stations.py:162 | no record twice, and the same records as the input |
| Seqs.DedupOrder | scripts/cocorahs_stations.py:162 | the kept elements come in the order of their first occurrences in the input |
| Seqs.DedupDistinct | scripts/cocorahs_stations.py:162 | a list without repeats is left unchanged |
| Order.StrsLtStrictTotal | src/pipeline.py:68 | Python's order on paths (lists of strings) is a strict total order |
| Order.SortBy | src/qa.py:48 | sorting returns a permutation of its input |
| Order.SortBySorted | src/qa.py:48 | under a strict total order on keys, the sort's result is in ascending key order |
| Qa.BboxSpec | src/qa.py:6-10 | a missing coordinate is never inside; the four corners are inside because the edges are included; points just past an edge are outside |
| Qa.BboxEdges | src/qa.py:10 | every point on an edge of the box is inside |
| Qa.BboxBeyond | src/qa.py:10 | every point beyond an edge is outside |
| Qa.BboxConvex | src/qa.py:10 | a point between two inside points (in both coordinates) is inside |
| Qa.IssueCount | src/qa.py:18-35 | no check counts more rows than the master table has |
| Qa.CoordinateCounts | src/qa.py:18-27 | rows missing a coordinate plus rows having both add up to all rows; the box check counts exactly the rows that have both coordinates and are outside the box |
| Qa.BlankMeansEmpty | src/qa.py:29-35 | for a cleaned text, "blank after stripping" means empty |
| Qa.ReportedStep | src/qa.py:19-35 | each check appends its finding, with its count, exactly when it runs and its count is nonzero, after the earlier checks' findings |
| Qa.FlaggedReported | src/qa.py:16-35 | the four checks leave one finding per enabled check with a nonzero count, in check order |
| Qa.ReportSpec | src/qa.py:16-38 | the report is never empty; it is exactly the no-issues row when every enabled check counts zero, and that row never appears otherwise; an enabled check is reported, with its count, exactly when its count is nonzero; the findings come in check order |
| Qa.QaReportSpec | src/qa.py:12-40 | the same on a master table, with every reported count at most the number of rows; the box check is reported only when its rule is on |
| Qa.AppendFinding | src/qa.py:19-20 | appending a nonzero count adds the one finding of that check |
| Qa.BuildQaReport | src/qa.py:12-40 | the report built step by step is the specified report, the box rule defaulting to on |
| Qa.FindDuplicatesSpec | src/qa.py:42-48 | the result holds each row of the table whose id occurs at least twice, as many times as it occurs, and nothing else; it is sorted by (site_id, operator, source_file) |
| Qa.FindDuplicatesNeverSingle | src/qa.py:44 | the result never has exactly one row |
| Qa.FindDuplicatesEmpty | src/qa.py:44-46 | the result is empty exactly when no two rows share an id |
| Pipeline.FirstMissing | src/pipeline.py:21-32 | the canonical columns before the returned position all have candidate lists, and the one at it has none |
| Pipeline.LookUpCandidates | src/pipeline.py:21-32 | the lookup loop stops at the first canonical column without candidates |
| Pipeline.StandardizeFails | src/pipeline.py:21-32 | standardizing fails exactly when some canonical column has no candidate list, and the error names the first such column in schema order |
| Pipeline.StandardizeRowFields | src/pipeline.py:34-46 | each output cell is its field's normalizer (id: `normalize_site_id`; text: `clean_str`; coordinates: `to_float`; dates: `to_date`) applied to the row's cell in the resolved column, or the field's empty value (`""`, `None`, no date) when no column resolves; `source_file` is the source name |
| Pipeline.BuildRows | src/pipeline.py:34-46 | the rows built are the standardized rows, one per input row, in input order |
| Pipeline.DropEmptyIds | src/pipeline.py:48-50 | exactly the rows with a non-empty id are kept, in order |
| Pipeline.StandardizeOne | src/pipeline.py:20-52 | the method computes the specified standardization |
| Pipeline.StandardizeProvenance | src/pipeline.py:46 | every output row's `source_file` is the source name |
| Pipeline.StandardizeIds | src/pipeline.py:35-50 | every output row has a non-empty id with no whitespace in it |
| Pipeline.KeepsRowSpec | src/pipeline.py:35-50 | a row survives exactly when the id column resolves and the row's id cell is present and not all whitespace |
| Pipeline.StandardizeRowsCount | src/pipeline.py:35-50 | the rows with a non-empty id are as many as the input rows that survive |
| Pipeline.StandardizeCount | src/pipeline.py:23-50 | the output has one row per surviving input row; when no id column resolves, the output is empty |
| Pipeline.StandardizeAppend | src/pipeline.py:48-50 | standardizing two row blocks one after the other is standardizing each block, so relative order is kept |
| Pipeline.StandardizeSingle | src/pipeline.py:34-50 | a single row comes out as its standardized row when its id is non-empty, and not at all otherwise |
| Pipeline.LastDot | src/pipeline.py:13 | the position found holds a dot, and no later position does |
| Pipeline.SuffixSpec | src/pipeline.py:13-15 | a suffix is empty, or a proper ending of the name starting at its last dot with something after it; it is empty exactly when the last dot starts or ends the name or there is none |
| Pipeline.SuffixExamples | src/pipeline.py:13-15 | "station.csv" has ".csv"; ".csv" and "notes." have none; "a.tar.xlsx" has ".xlsx" |
| Pipeline.ReadAnySpec | src/pipeline.py:12-18 | a file is read exactly when its lower-cased suffix is `.csv` or `.xlsx`, with the matching reader; otherwise the error names the file |
| Pipeline.MatchesSpec | src/pipeline.py:67-68 | one pattern's matches are exactly the listed paths, as often as listed, in ascending path order |
| Pipeline.SelectedSpec | src/pipeline.py:70 | a discovered path is selected, as often as discovered, exactly when its suffix is supported |
| Pipeline.SelectedReadable | src/pipeline.py:70 | every selected path is one `read_any` reads, so the unsupported-file error cannot arise in a run |
| Pipeline.DiscoverPaths | src/pipeline.py:66-68 | the loop collects each pattern's sorted matches, pattern after pattern |
| Pipeline.ReadAndStandardize | src/pipeline.py:77-78 | one file's part is its table standardized under its file name |
| Pipeline.StandardizeAll | src/pipeline.py:75-79 | the loop returns the parts in path order, or the error of the first path that fails |
| Pipeline.FillMissingColumns | src/pipeline.py:84-86 | the existing columns come first and unchanged; every canonical column is present afterwards; only missing canonical columns are added; a table with all of them is unchanged |
| Pipeline.ProjectColumns | src/pipeline.py:87 | the projection succeeds exactly when every wanted column is present, and then gives the wanted columns in the wanted order |
| Pipeline.RunPipeline | src/pipeline.py:64-114 | the method computes the specified run |
| Pipeline.RunErrors | src/pipeline.py:64-79 | the run fails with "no input files" exactly when no path is selected; it never fails with the unsupported-file error; it fails exactly when no path is selected or some canonical column has no candidate list |
| Pipeline.RunMaster | src/pipeline.py:75-114 | on success every path yields its part; the master table is their concatenation, as long as all parts together; the header is `MASTER_COL_ORDER` plus `source_file`; every row has a non-empty id and a `source_file` among the selected file names; the QA and duplicate reports are those of the master table; the three row counts are those of the tables, and the QA report has at least one row |
| Cocorahs.ExtractRowSpec | scripts/cocorahs_stations.py:133-141 | a grid row gives a record exactly when it has three cells or more and its first cell is not all whitespace; the record's id is non-empty; its texts are the stripped first three cells; its state is the one searched for |
| Cocorahs.ExtractPage | scripts/cocorahs_stations.py:132-141 | one page's loop appends that page's records, in row order, to the records so far |
| Cocorahs.ExtractedPages | scripts/cocorahs_stations.py:125-141 | extracting two pages in turn gives the first page's records, then the second's |
| Cocorahs.ExtractedSpec | scripts/cocorahs_stations.py:132-141 | one record per qualifying row, each with a non-empty stripped id and the searched state; every qualifying row's record is among them |
| Cocorahs.StationListSpec | scripts/cocorahs_stations.py:162 | the station list has no record twice, holds exactly the extracted records in the order of their first extraction, and its ids need no further stripping |
| Cocorahs.ChooseColSpec | scripts/cocorahs_stations.py:175-179 | `None` exactly when no candidate is a column; otherwise the first candidate, in list order, that is exactly a column |
| Cocorahs.ChooseColWeaker | scripts/cocorahs_stations.py:175-179 | whenever `choose_col` finds a column, the case-insensitive `pick_first_col` finds one too |
| Cocorahs.CollectObservations | scripts/cocorahs_stations.py:188-190 | the loop keeps the rows with a station cell and a parsable date, with the station id stripped |
| Cocorahs.ObservationsSpec | scripts/cocorahs_stations.py:188-190 | every kept observation comes from a row with both cells and that row's stripped id and parsed date; every such row gives one |
| Cocorahs.GroupSpans | scripts/cocorahs_stations.py:195 | the loop computes each station's span |
| Cocorahs.SpansKeys | scripts/cocorahs_stations.py:195 | a station has a span exactly when it has an observation |
| Cocorahs.SpansBound | scripts/cocorahs_stations.py:195 | every observation's date lies within its station's span |
| Cocorahs.SpansAttained | scripts/cocorahs_stations.py:195 | each span's earliest and latest dates are dates of that station's observations, so they are the minimum and maximum |
| Cocorahs.SpansOrdered | scripts/cocorahs_stations.py:195 | earliest is never after latest |
| Cocorahs.SpanOf | scripts/cocorahs_stations.py:195 | the four facts above, for one station |
| Cocorahs.JoinStations | scripts/cocorahs_stations.py:192-198 | the loop computes the inner join of the station list with the spans, in station-list order |
| Cocorahs.JoinSpec | scripts/cocorahs_stations.py:192-198 | one joined row per listed station whose stripped id has a span; each carries that station's name, county and state and that id's span; every such station is joined |
| Cocorahs.JoinedRow | scripts/cocorahs_stations.py:192-198 | every joined row's id is a listed station's stripped id, and its dates are the minimum and maximum of that station's report dates |
| Cocorahs.KeyLtStrictTotal | scripts/cocorahs_stations.py:199 | ordering by (earliest, StationID) is a strict total order |
| Cocorahs.MakeTimeline | scripts/cocorahs_stations.py:181-202 | the method computes the timeline as the code is written, failures included |
| Cocorahs.TimelineErrors | scripts/cocorahs_stations.py:183-199 | the intended timeline fails exactly when the report file lacks a station-id candidate column or a date candidate column; as written it also fails exactly when the station list is empty or the station column is `StationID` |
| Cocorahs.EmptyStationListFails | scripts/cocorahs_stations.py:192-193 | with an empty station list and a usable report file, the intended result is an empty timeline, but the code as written fails |
| Cocorahs.DroppedKeyFails | scripts/cocorahs_stations.py:196-199 | with a report file whose station column is `StationID`, the intended timeline exists, but the code as written fails at the sort |
| Cocorahs.TimelineAgrees | scripts/cocorahs_stations.py:181-202 | away from those two inputs, the code as written gives the intended timeline |
| Cocorahs.TimelineSorted | scripts/cocorahs_stations.py:196-201 | the timeline is sorted by (earliest, StationID) and is a permutation of the joined rows |
| Cocorahs.TimelineRows | scripts/cocorahs_stations.py:188-202 | every timeline row belongs to a listed station with reports, and its dates are the minimum and maximum of that station's report dates |
| Cocorahs.TimelineComplete | scripts/cocorahs_stations.py:188-202 | every listed station that has a report appears in the timeline, with its name, county and state |

## Left out

- Reading and writing files is not modelled, and neither are `load_config`'s YAML, `mkdir`, the `to_csv` writes and the output paths in the returned dictionary. The directory listing and the readers are parameters, and a run returns its tables and the three row counts. The `cfg["input_dir"]` and `cfg["outputs"]` keys are assumed present.
- src/geo.py and the call to `write_geo_outputs` are not part of this model (foreign geometry libraries).
- `fuzzy_name_match` is a wrapper over an external fuzzy-matching library and is not modelled.
- The CoCoRaHS browser automation is not modelled: the driver, the form, the waits, the retries and the paging loop. A page is given as the cell texts of its grid rows, and `main` is left out.
- scripts/make_example_data.py and scripts/run_pipeline.py are not part of this model.
- Utils.ToFloat, Utils.ToDate: Python's `float` grammar and pandas' date inference are parameters. A whole-column `to_datetime` that infers one format for the column is modelled cell by cell. Coordinates are `real`, with no rounding and no NaN other than "missing".
- Utils.Lower: only ASCII letters are lower-cased. Python's `str.lower` also maps other letters.
- A raw cell is its Python string form. `astype(str)` of numbers read from a CSV (such as `"123.0"`) is whatever text the reader provides.
- Utils.ToDate: the parser sees only a cell's text. `to_date` hands pandas the original value, and an integer cell such as 20200101 (as `read_csv` types a column of YYYYMMDD dates) is read by `pd.to_datetime` as nanoseconds since the epoch, while the text "20200101" is read as 1 January 2020. The model cannot tell these two cells apart.
- Utils.ToFloat: likewise, a boolean cell converts (`float(True)` is 1.0) while its text "True" is rejected; the model sees only the text.
- A raw row is a map from column names, so a table with two columns of exactly the same name cannot be expressed. Column names that are not strings (on which `c.lower()` would raise) cannot be expressed either.
- Qa.FlagBbox: the rule is `Option<bool>`. Python truthiness of other YAML values is not modelled.
- Pipeline.Standardize: `standardize_one` builds the output column by column in a pandas frame. The model builds it row by row, which gives the same rows. pandas dtype coercion is not modelled.
- Pipeline.FillMissingColumns: works on column names only. Every part already has all canonical columns, so on a run it adds nothing; the header is the projection of the filled columns onto `MASTER_COL_ORDER` plus `source_file` (Pipeline.ProjectColumns), which always succeeds.
- Order.SortBy: a stable insertion sort. The sorts in the source (`sorted`, `sort_values`) are claimed only to produce a sorted permutation. The order of rows with equal keys is not claimed to match pandas.
- Cocorahs.Join: the rows come in station-list order before the sort. Only sortedness and the set of rows are claimed, not pandas' merge order for rows with equal keys.
- Cocorahs.StationList: `drop_duplicates` on an empty frame returns the empty frame. A station list is a sequence of records, and a frame without columns is the empty sequence.

## Findings

| source | as written | input that shows it | evidently intended | confidence | as-written member | corrected member |
|---|---|---|---|---|---|---|
| scripts/cocorahs_stations.py:193 | `stations_df["StationID"]` is read from the station list, which is `pd.DataFrame(rows_all)` | a grid with no qualifying rows: `rows_all == []` gives a frame with no columns, and line 193 raises `KeyError` | an empty timeline | medium; not executed | Cocorahs.TimelineAsWritten, Cocorahs.EmptyStationListFails | Cocorahs.Timeline, Cocorahs.EmptyStationListFails |
| scripts/cocorahs_stations.py:197-199 | the merge joins `StationID` with `st_col`, then drops `st_col` and sorts on `StationID` | a report file whose station column is `StationID` and which has no `stationnumber` column: the merge keeps one `StationID` column, line 198 drops it, and line 199 raises `KeyError` | the timeline, keyed by the station list's `StationID` | medium; not executed | Cocorahs.TimelineAsWritten, Cocorahs.DroppedKeyFails | Cocorahs.Timeline, Cocorahs.TimelineSorted |
