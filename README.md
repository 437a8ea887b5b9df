# Campus energy pipeline, modelled in Dafny

`campusenergy.py` is a batch script that runs in one pass:

1. It reads every meter-data CSV file of a campus. Each row is tagged with a building. Files without a `timestamp` column, or that cannot be read, are dropped. The accepted rows are concatenated.
2. It sorts the combined rows by time.
3. It computes daily and weekly kWh totals, and a per-building `{mean, min, max, sum}` table.
4. It loads the rows into a small object model: a `BuildingManager` maps each name to a `Building`, which holds that building's `MeterReading`s.
5. It computes three executive-summary figures: the campus total, the highest-consuming building, and the time of the peak reading.

This project models those five steps and proves the properties the script relies on.

Modules, one per step, following the script's structure:

- `Energy` (`energy.dfy`):
  - the combined row `Row(timestamp, kwh, building)`;
  - the kWh total of a sequence of rows, and the rows of one building (`Group`);
  - the set of building names (`Names`);
  - the facts about totals that the later steps share.
- `Ingestion` (`ingestion.dfy`):
  - a discovered file is `CsvFile(stem, contents)`, where the read gives a missing file, a reader failure, or a parsed table (column names and rows);
  - the per-file `try` body is the function `IngestFile`, whose result is the rows or the logged error;
  - the loop over the files is an imperative method, `IngestAll`.
- `Merge` (`merge.dfy`): `set_index` plus `sort_index(inplace=True)` is an in-place insertion sort on an `array<Row>`.
- `Aggregation` (`aggregation.dfy`):
  - `resample("D"|"W").sum()` turns rows into a sequence of buckets;
  - `groupby("building").agg(...)` becomes a name-sorted sequence of summary rows.
- `StringOrder` (`string_order.dfy`): Python's `str` ordering, which `groupby` uses to order its keys.
- `Registry` (`registry.dfy`):
  - `Building` and `BuildingManager` are classes whose methods update their fields in place;
  - what the manager holds is specified by a pure filing function over a `map<string, seq<MeterReading>>` (`File`/`FileAll`).
- `ExecutiveSummary` (`executive_summary.dfy`): the sum and the two `idxmax` computations.
- `Pipeline` (`pipeline.dfy`): the whole run wired together. The two exceptions the script raises on degenerate input are modelled as failure outcomes.

Representation choices:

- kWh values are `int`, so sums are exact. The per-building mean is a `real`.
- Timestamps are `int` seconds from 1970-01-01 00:00.
  - A day bin is `ts / 86400`.
  - A week bin is named by the Sunday that ends the week, as pandas' `"W"` (`"W-SUN"`) does.
  - The aggregation lemmas are proved for any monotone bin function, then instantiated for both.
- `pd.to_datetime` and the CSV reader are not modelled. A parsed timestamp cell is given as an `Option<int>`: `None` means the text was not a date.
- Where the code and its documentation disagree, the model follows the code. For an empty input the script does not harden:
  - with no file accepted, `set_index("timestamp")` raises;
  - with no row accepted, `idxmax` raises.

  `Pipeline.Run` returns those two cases as `NoFileLoaded` and `EmptyDataset`, rather than assuming them away with a precondition.

## Model

| member | source | states |
|---|---|---|
| Ingestion.DefaultBuildingName | campusenergy.py:23 | the default name is a prefix of the stem, holds no `_`, and is followed in the stem by `_` unless it is the whole stem (so it is never longer than the stem) |
| Ingestion.DefaultBuildingNameOfPrefix | campusenergy.py:23 | a stem `name_rest` with `name` free of `_` names building `name` |
| Ingestion.SplitJoin | campusenergy.py:23 | `split` on `_` inverts `join` of `_`-free pieces (and `Split` itself yields `_`-free pieces that rejoin to the input) |
| Ingestion.TagBuilding | campusenergy.py:24 | row count, timestamps and kWh are unchanged; with a `building` column each row keeps its own value, otherwise every row carries the file's default name |
| Ingestion.ParseTimestamps | campusenergy.py:27 | parsing succeeds exactly when every timestamp cell is a date, and then keeps every row, in order, with its time |
| Ingestion.IngestFile | campusenergy.py:19-31 | a file is accepted only if it was read and has a `timestamp` column, and then exactly when every timestamp parses; an accepted file gives one row per table row with the tagged building |
| Ingestion.IngestFileErrors | campusenergy.py:34-37 | a vanished file is a missing-file error; a reader failure or a missing `timestamp` column is an invalid-file error |
| Ingestion.IngestAll | campusenergy.py:16-37 | the loop's accumulator is the concatenation, in discovery order, of the accepted files' rows; `loaded` holds exactly when some file was accepted |
| Ingestion.CombinedAppend | campusenergy.py:18-31 | the dataset of two runs of files is the two datasets one after the other |
| Ingestion.RejectedFileExcluded | campusenergy.py:34-37 | a rejected file contributes no row wherever it occurs, and the files after it are still ingested |
| Ingestion.MissingTimestampContributesNothing | campusenergy.py:26-29 | a table without a `timestamp` column contributes no row at all |
| Ingestion.CombinedMembers | campusenergy.py:31 | a row is in the combined dataset exactly when it is a row of some accepted file |
| Merge.Sift | campusenergy.py:41 | one insertion pass leaves `a[..i+1]` in time order, reorders only, touches nothing above `i`, and moves nothing when the row is already in place |
| Merge.SortIndex | campusenergy.py:41 | the array ends sorted by time, as a permutation of its old contents, and an already sorted array is left unchanged |
| Merge.MergeRows | campusenergy.py:40-41 | the merged rows are sorted by time, are a permutation of the combined rows, and equal them when those were already sorted |
| Merge.SortedPermutationsAgree | campusenergy.py:40-41 | any two time-sorted orders of the same rows have the same timestamp at every position |
| Energy.TotalPermutation | campusenergy.py:40-41 | reordering rows keeps their kWh total |
| Aggregation.DayOf | campusenergy.py:50 | a timestamp's day is the one whose midnight-to-midnight interval contains it |
| Aggregation.WeekOf | campusenergy.py:53 | a timestamp's week is named by a Sunday no earlier than its day and at most six days later |
| Aggregation.BinTotalsConserve | campusenergy.py:49-53 | the bucket totals of any binning add up to the dataset's kWh |
| Aggregation.BinTotalsPerBin | campusenergy.py:49-53 | over time-sorted rows and a monotone bin, each bucket's total is the kWh of exactly the rows in its bin |
| Aggregation.ResampledTotalsConserve | campusenergy.py:49-53 | daily totals and weekly totals each add up to the dataset's kWh |
| Aggregation.ResampledBinsExact | campusenergy.py:49-53 | over sorted rows, the daily and weekly buckets are the occupied bins, in increasing order, each holding exactly its rows' kWh |
| Aggregation.StatsOfBounds | campusenergy.py:56 | a group's `sum` is its kWh total and `mean` that total over its size; `min` and `max` are attained readings that bound all others; `min <= mean <= max` |
| Aggregation.SortedNames | campusenergy.py:56 | the summary's index holds each building name once, in ascending string order |
| StringOrder.Insert | campusenergy.py:56 | inserting a name into a strictly ascending list keeps it strictly ascending and adds exactly that name |
| Aggregation.BuildingSummary | campusenergy.py:55-56 | one row per building name, in ascending name order, each holding the statistics of that building's non-empty group |
| Aggregation.SummarySums | campusenergy.py:55-56 | every building has a summary row, and each row's `sum` is the kWh total of that building's rows |
| Aggregation.SummaryConserves | campusenergy.py:55-56 | the per-building sums add up to the dataset's kWh |
| Registry.Building.AddReading | campusenergy.py:77-78 | one reading is appended, and the building's total grows by exactly its kWh |
| Registry.ReadingsTotal | campusenergy.py:80-81 | rows filed as readings keep their kWh total |
| Registry.BuildingManager.Open | campusenergy.py:95-97 | the row's building is looked up, or created empty on first sight; no other entry changes |
| Registry.BuildingManager.FileRow | campusenergy.py:95-98 | one row is appended to its own building's readings, creating that building if new; every other building is the same object with the same readings |
| Registry.BuildingManager.AddReadingsFromRows | campusenergy.py:93-98 | existing buildings are kept, new ones are fresh, every building is filed under its own name, and what each holds is the filing of all rows in order |
| Registry.FileAllContents | campusenergy.py:93-98 | after filing, the names are the old names plus the rows' buildings, and each entry is its old readings followed by its own rows, in row order |
| Registry.FileAllFromEmpty | campusenergy.py:100-101 | filing into a fresh manager opens exactly one entry per building, holding exactly that building's rows in order |
| ExecutiveSummary.FirstMaxIndex | campusenergy.py:131-132 | `idxmax` by position: a position no value exceeds, with every earlier value smaller |
| ExecutiveSummary.HighestBuilding | campusenergy.py:131 | the label of a summary row whose `sum` no row exceeds, with every earlier row's `sum` smaller |
| ExecutiveSummary.PeakIndex | campusenergy.py:132 | the first row holding the largest reading |
| ExecutiveSummary.CampusTotalConserves | campusenergy.py:130 | the campus total of the summary is the dataset's kWh |
| ExecutiveSummary.HighestBuildingIsLargest | campusenergy.py:131 | over a non-empty dataset, the highest building is one of its buildings and no building consumed more |
| Pipeline.Analysed | campusenergy.py:40-132 | the figures computed from the merged rows describe the combined rows: sorted permutation, daily, weekly and total each equal to the dataset's kWh, the `idxmax` building of the summary (first in name order on a tie), which no building out-consumes, and the peak row's time |
| Pipeline.DescribedHighest | campusenergy.py:131 | the building a described report names is exactly `HighestBuilding` of its summary |
| Pipeline.RegistryAgrees | campusenergy.py:93-101 | the registry built from the merged rows has one entry per building, and each entry's total is that building's summary `sum` |
| Pipeline.Register | campusenergy.py:100-101 | a fresh, well-formed manager holding the filing of the merged rows, and empty for an empty dataset |
| Pipeline.Analyse | campusenergy.py:40-132 | everything after ingestion: failure exactly on an empty dataset; otherwise the report describes the rows (including the `idxmax` choice of the highest building) and the registry agrees with the summary |
| Pipeline.Run | campusenergy.py:16-132 | no accepted file fails with `NoFileLoaded`, accepted files with no row fail with `EmptyDataset`; otherwise the report describes the combined dataset, naming the `idxmax` building of its summary, and every building's `calculate_total_consumption()` is its summary `sum` |

## Left out

- CSV tokenizing and the silent skipping of malformed lines (campusenergy.py:20). A file arrives as already-parsed column names and rows.
- `pd.to_datetime` text parsing (campusenergy.py:27). A timestamp cell is given as parsed or not, and one unparseable cell rejects the whole file, as the exception does.
- Directory globbing, `mkdir`, every `to_csv`/`open`/`write`, and the logging calls. These are file I/O and diagnostics. Discovery is the order of the given file sequence, and the two `except` handlers are the two `IngestError` values.
- Columns other than `timestamp`, `kwh` and `building`. A table without a `kwh` column is not modelled: every row carries a kWh value.
- Missing (`NaN`) cells in those columns are not modelled.
- Building cells are taken as strings. `read_csv` would give an all-numeric `building` column a numeric type. `groupby` would then order those names numerically, and a numeric `101` would be a different key from a stem-derived `"101"`.
- The matplotlib dashboard (campusenergy.py:104-125), which is rendering only.
- The summary text, its `:.2f` rounding and the final prints (campusenergy.py:134-147).
- Floating-point arithmetic. kWh values are integers, and the mean is an exact `real` quotient.
- Aggregation.BinTotals: pandas fills empty periods between occupied ones with zero-total bins. The model keeps only the occupied bins. Neither the bin totals nor their sum changes.
- Merge.SortIndex: pandas' default sort is not stable. The model is an insertion sort, and no order among rows with equal timestamps is claimed. `Merge.SortedPermutationsAgree` shows that the timestamp index does not depend on that order.
- Registry.MeterReading is a datatype, not a class: the script never updates a reading after creating it.
- Registry.Building.GenerateReport returns the name and the total. Its contract restates that dictionary literal (campusenergy.py:83-87), so it has no row above.
- The aggregates and the executive summary are computed after the registry inside `Pipeline.Analyse`. The script computes the aggregates before building the registry. Both read the same merged rows and neither changes them, so the results are the same.
