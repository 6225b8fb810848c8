# Outage preprocessing and aggregation, modelled in Dafny

This project models the two stages of iaomai's outage pipeline (`iaomai/outages.py`):

- `preprocess_outages_data` cleans raw ENTSOE outage announcements. It drops
  the `resolution` column and then exact duplicates, keeping the first
  occurrence. It numbers the surviving rows `0..n-1` as `unique_id`. It raises
  an error when the requested generation type is not among the plant types
  present. It keeps the Nuclear, non-cancelled rows that are strictly longer
  than the optional minimum duration. It projects them onto the output
  columns, adds `delta = nominal_power - avail_qty`, and drops duplicates once
  more.
- `aggregate_outages` turns those events into a time series of unavailable
  capacity. The input is pivoted with one column per
  `(unique_id, businesstype, unit)`. The pivot is stacked twice, indexed once
  by `end` and once by `start`. Rows that share an instant are merged by max,
  zeros become NaN and the axis is sorted. Each column is forward-filled only
  between its first and last known value. Columns are then collapsed per
  `(unit, businesstype)` by max. Finally the result is reduced by `total`
  (sum), `production_unit` (max over business types) or `businesstype` (sum
  over units). Any other `by` is an error.

Timestamps are integer UTC instants. Capacities are integers. A NaN cell is
`None` of an `Option`. Tables are sequences of row datatypes. The error
returns are `Result` values carrying the `ValueError` the pipeline raises.

Files and modules:

- `tables.dfy` (`Tables`): `Option` and `Result`, and keep-first duplicate
  removal (`FirstOccurrences`). It also has the NaN-skipping max (`MaxAll`,
  characterised by `IsMaxOf`) and the sums with the regrouping lemma.
- `preprocess.dfy` (`Preprocess`): the row types and the specification
  `Preprocessed`. The method `PreprocessOutagesData` follows
  `preprocess_outages_data`'s sequence of table updates (drop, dedup, number, check, mask, `loc`, project,
  dedup). The lemmas state what the output satisfies.
- `timeline.dfy` (`Timeline`): the sorted, duplicate-free time axis.
- `aggregate.dfy` (`Aggregate`): each reshaping step as a function, from
  `Stacked` through `MergedAt`, `Observed`, `FillInside`, `GroupValue`,
  `UnitAt`, `BusinessTypeAt` and `TotalAt` to `AggregateOutages`. The lemmas
  connect these steps to what they mean. `Contribution(e, t)` is an event's
  delta when `min(start, end) <= t <= max(start, end)` and its delta is not 0,
  and nothing otherwise.

Where the code behaves differently from what a reader of its comments or
docstring might expect, the model follows the code:

- The plant-type filter compares with the constant `"Nuclear"`. The
  `generation_type` argument only decides whether the error is raised
  (`GenerationTypeOnlyValidated`).
- `unique_id` is assigned before filtering. Output ids are therefore strictly
  increasing and below the number of deduplicated rows. They are `0..N-1`
  over the output exactly when every row the filters drop comes after every
  row they keep (`SelectedDenseIds`), for instance when nothing is dropped
  (`SelectedAllKept`).
- The forward fill reaches the `end` instant itself. An event counts on the
  closed interval from start to end, so in `OverlappingOutages` the later
  outage still reads 150 at its own end instant. When `end < start`, the
  interval runs from `end` to `start`.

## Model

| member | source | states |
|---|---|---|
| `Tables.FirstOccurrencesElements` | iaomai/outages.py:45 | dropping duplicates keeps every distinct row value and adds none |
| `Tables.FirstOccurrencesNoDuplicates` | iaomai/outages.py:45 | after dropping duplicates no two rows are identical |
| `Tables.FirstOccurrencesOfDistinct` | iaomai/outages.py:82 | dropping duplicates from rows that are already distinct returns them unchanged |
| `Tables.FirstIndex` | iaomai/outages.py:45 | the position of the first occurrence of a value, or the length when it does not occur |
| `Tables.FirstOccurrencesOrder` | iaomai/outages.py:45 | the survivors of dropping duplicates appear in the order in which their values first occur in the input |
| `Tables.FirstOccurrencesIdempotent` | iaomai/outages.py:45 | dropping duplicates twice equals dropping them once |
| `Tables.MaxAll` | iaomai/outages.py:121-123 | the NaN-skipping max is absent exactly when every value is absent; otherwise it is one of the values and bounds all of them |
| `Tables.SumRegroup` | iaomai/outages.py:140-156 | summing all entries equals summing the per-label group sums, when each label is listed once |
| `Timeline.SortedDistinct` | iaomai/outages.py:121-125 | grouping by instant and sorting gives a strictly ascending axis that holds exactly the input instants |
| `Timeline.StrictlyIncreasingUnique` | iaomai/outages.py:121-125 | two strictly ascending axes with the same instants are equal, so the axis is determined by its instants |
| `Preprocess.Number` | iaomai/outages.py:49 | row i of the deduplicated table gets `unique_id` i |
| `Preprocess.PreprocessOutagesData` | iaomai/outages.py:25-82 | the step-by-step table updates (drop, dedup, number, type check, mask, `loc`, projection with delta, final dedup) return what `Preprocessed` specifies |
| `Preprocess.LocSelected` | iaomai/outages.py:56-81 | masking the numbered rows with the three filters and projecting them is the in-order selection of the kept rows, each with its position as id |
| `Preprocess.DeduplicatedOrder` | iaomai/outages.py:45-49 | the deduplicated rows, which `unique_id` numbers in order, appear in the order in which they first occur in the raw table |
| `Preprocess.DeduplicatedRows` | iaomai/outages.py:45 | once `resolution` is dropped the rows are pairwise distinct, and a row occurs exactly when some raw row projects to it |
| `Preprocess.SelectedRows` | iaomai/outages.py:56-81 | each selected row comes from a kept row with its id and projection; ids strictly increase; every kept row is selected |
| `Preprocess.SelectedNoDuplicates` | iaomai/outages.py:82 | the selected rows are pairwise distinct |
| `Preprocess.PreprocessedRows` | iaomai/outages.py:45-82 | on success: the final dedup removes nothing; every row is Nuclear, not cancelled and strictly longer than the minimum; ids strictly increase and index the deduplicated rows; columns are copied and `delta = nominal_power - avail_qty`; every kept row is present |
| `Preprocess.PreprocessedFailure` | iaomai/outages.py:51-54 | preprocessing fails exactly when no raw row has the requested plant type, and the error lists every plant type present, each once |
| `Preprocess.GenerationTypeOnlyValidated` | iaomai/outages.py:51-56 | two successful calls that differ only in the generation type return the same rows |
| `Preprocess.SelectedAllKept` | iaomai/outages.py:49 | when every deduplicated row passes the filters, the output ids are exactly `0..N-1` |
| `Preprocess.SelectedLength` | iaomai/outages.py:56-81 | the selection is never longer than the deduplicated rows, and is as long exactly when every row passes the filters |
| `Preprocess.SelectedDenseIds` | iaomai/outages.py:49-81 | the output ids are exactly `0..N-1` if and only if no row the filters drop precedes a row they keep |
| `Aggregate.Instants` | iaomai/outages.py:110-116 | the concatenated index holds exactly the start and end instants of the events |
| `Aggregate.TimeIndex` | iaomai/outages.py:103-125 | the output axis is strictly ascending and holds exactly the events' start and end instants |
| `Aggregate.ObservedEvent` | iaomai/outages.py:103-125 | before the fill, an event's column holds its delta exactly at its start and end instants, and nothing when its delta is 0 |
| `Aggregate.LastValid` | iaomai/outages.py:126 | the value carried forward is the last known value at or before the position, absent when there is none |
| `Aggregate.FillInside` | iaomai/outages.py:126 | the inside forward fill keeps known values; a position holds a value exactly when a value is known at or before it and one is known at or after it, and that value is the last one known at or before it |
| `Aggregate.FillInsideSpan` | iaomai/outages.py:126 | a column known only at positions a <= b, both with value d, is filled with d exactly on [a, b] |
| `Aggregate.FilledEvent` | iaomai/outages.py:103-126 | after the fill an event's column equals its contribution: its delta on the closed interval between its instants, absent elsewhere or when its delta is 0 |
| `Aggregate.GroupValueMeaning` | iaomai/outages.py:130-139 | the max-collapse of a `(unit, businesstype)` group is the largest contribution of its events, absent when none contributes |
| `Aggregate.GroupsOfEvents` | iaomai/outages.py:130-139 | the groups are pairwise distinct and are exactly the `(unit, businesstype)` pairs of the events |
| `Aggregate.UnitAtMeaning` | iaomai/outages.py:143-150 | the max over a unit's business types is the largest contribution of any event of that unit |
| `Aggregate.AggregateOutages` | iaomai/outages.py:85-160 | fails, naming the three options, exactly for an unknown `by`; otherwise it is indexed by the axis, and its columns are exactly the units (`production_unit`) or the business types (`businesstype`) of the input |
| `Aggregate.ProductionUnitOutput` | iaomai/outages.py:143-150 | `production_unit`: columns are exactly the input units, and each cell is the largest contribution of that unit's events at that instant |
| `Aggregate.CapacityBound` | tests/tests.py:15-40 | `production_unit`: no present cell exceeds the largest nominal power recorded for the unit |
| `Aggregate.TotalOutput` | iaomai/outages.py:141-142 | `total`: at each instant, the sum over all groups of the group's largest contribution, absent counted as 0 |
| `Aggregate.BusinessTypeOutput` | iaomai/outages.py:151-156 | `businesstype`: columns are exactly the input business types; each cell sums that type's groups' largest contributions, absent counted as 0 |
| `Aggregate.TotalIsSumOfBusinessTypes` | iaomai/outages.py:140-156 | the total at each instant equals the sum of the `businesstype` columns at that instant |
| `Aggregate.OverlappingOutages` | iaomai/outages.py:103-150 | outages A on [t0, t2] with delta 100 and B on [t1, t3] with delta 150 of one unit read 100, 150, 150, 150 on the axis t0 < t1 < t2 < t3 |
| `Aggregate.PreprocessedFeedsAggregation` | iaomai/outages.py:49 | preprocessing output has one event per `unique_id`, which is what aggregation requires |

## Left out

- `preprocess_installed_generation_data` (iaomai/outages.py:7-22) is not modelled. It reads a CSV file, and its `pivot_table` averages in floating point.
- `iaomai/miscellaneous.py` (the CSV caching decorator) and `tests/conftest.py` (fixtures that read CSV files) are I/O and are not part of this model.
- Parsing and time zones are not modelled. That covers `pd.to_datetime`, the conversion to CET, and the in-place overwrite of the caller's `start` and `end` columns (iaomai/outages.py:42-43). Instants are integers, and the conversion changes neither their order nor their differences.
- `pd.to_numeric` on `avail_qty` is not modelled: `avail_qty` is already an integer. Float arithmetic and NaN capacities are left out too: capacities and deltas are integers and never absent.
- NaN as a key is not modelled. A missing `plant_type`, unit name or business type would be dropped or grouped by pandas' NaN rules; here these fields are always strings.
- `generation_type` is modelled as one string. Its default is the list `["Nuclear"]`, whose membership test relies on numpy broadcasting.
- Row labels are not modelled: `reset_index(drop=True)` only relabels rows.
- Output column order is not modelled. The per-unit and per-type frames are maps, so pandas' sorted group keys have no counterpart.
- The pivot's mean over duplicate `(start, end, column)` cells is not modelled. `AggregateOutages` requires one event per `unique_id`, as preprocessing guarantees (`PreprocessedFeedsAggregation`).
- pandas' behaviour on an empty event table is not modelled. The model returns an empty axis.
- CapacityBound: requires every `avail_qty >= 0` and `delta = nominal_power - avail_qty`. The repository's test states the bound without these conditions, and without them it fails: `avail_qty < 0` makes `delta` exceed `nominal_power`.
- CapacityBound: bounds only the present cells. The test's `>=` comparison is False at a NaN cell, so its assertion also demands that every cell of the `production_unit` frame be present; the model does not promise that, and it does not hold before an outage starts or after one ends.
