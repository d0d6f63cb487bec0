# Bike-sharing dashboard: a Dafny model of its record pipeline

The dashboard loads a table of daily bicycle rentals and derives a weekend indicator
from each day's weekday index. On every interaction it keeps the days that fall inside
a date interval and a rental-count interval, optionally restricted to one season, and
shows the mean rental count per season, per weekend indicator and per
(season, indicator) pair. This project models that pipeline in Dafny and proves what
it promises.

- `records.dfy` (module `Records`): the row type, the weekend indicator, its derivation
  over the whole table as a pure function (`WithWeekend`), and the in-place column
  assignment as a method over an array (`DeriveWeekend`), proved equal to that function.
- `filtering.dfy` (module `Filtering`): the selection (`Selection`), the two-step filter
  exactly as the source applies it (date and count mask, then the season mask unless the
  selector is the sentinel 0), and a single-pass reference mask of the three-way
  conjunction (`Mask`). The properties are proved about `Mask` and transferred to `Filter`.
- `grouping.dfy` (module `Grouping`): group-by-mean as a left fold into a map from key to
  (sum, count), with exact `real` means. The reference for each key is the
  order-preserving selection of that key's rows (`Group`) and their total (`SumCnt`).
- `pipeline.dfy` (module `Pipeline`): one render, from the loaded table to the three
  aggregate tables, with the properties that link the stages.
- `labels.dfy` (module `Labels`): the captions of the season selector.
- `examples.dfy` (module `Examples`): two worked two-day examples, checked concretely.

Dates are already-parsed day numbers. Counts are `nat`. Means are exact rationals. The
filter's inputs are plain parameters. The model follows the code in these details:
- the code assigns the weekend column into the loaded table in place (line 20), so the
  model has an in-place method;
- the indicator is the integer 1 or 0, not a boolean;
- there is a third grouping, by (season, indicator), besides the two one-key groupings;
- any non-zero selector value filters by season equality, not only 1 to 4.

## Model

| member | source | states |
|---|---|---|
| `Records.WeekendFlag` | dashboard.py:20 | the indicator is 0 or 1, and it is 1 exactly when the weekday index is 0 or 6 |
| `Records.WithWeekend` | dashboard.py:20 | same length as the table; each row keeps every other column; its indicator is 1 exactly when its weekday is 0 or 6, and otherwise 0 |
| `Records.WithWeekendDerived` | dashboard.py:20 | after derivation every row's indicator agrees with its weekday, and deriving a second time changes nothing |
| `Records.DeriveWeekend` | dashboard.py:20 | the in-place column assignment over an array leaves the array equal to `WithWeekend` of its old contents |
| `Filtering.WindowFilter` | dashboard.py:50-53 | the first mask's result is no longer than the table, and each of its rows is a table row with `start <= date <= end` and `min <= cnt <= max` |
| `Filtering.SeasonFilter` | dashboard.py:56 | the season mask's result is no longer than its input, and each of its rows is an input row of the selected season |
| `Filtering.Filter` | dashboard.py:50-56 | the filtered table is no longer than the table, and each of its rows is a table row meeting all three conditions (the remaining direction and the multiplicities are `FilterMultiplicity`) |
| `Filtering.FilterIsMask` | dashboard.py:50-56 | the two-step filter (window mask, then season mask when the selector is not 0) equals one mask holding the conjunction of the three conditions |
| `Filtering.FilterMultiplicity` | dashboard.py:50-56 | a row meeting all three conditions occurs in the result exactly as often as in the table; any other row does not occur |
| `Filtering.FilterSound` | dashboard.py:50-56 | every result row is a table row with `start <= date <= end` and `min <= cnt <= max` (both ends included), and it has the selected season when the selector is not 0 |
| `Filtering.FilterComplete` | dashboard.py:50-56 | every table row inside both intervals whose season the selector admits is in the result |
| `Filtering.SentinelIgnoresSeason` | dashboard.py:55-56 | with selector 0 the result is exactly the rows inside the two intervals, with their multiplicities, whatever their season |
| `Filtering.FilterPositions` | dashboard.py:50-56 | the result is the table's rows, unaltered, at strictly increasing positions, and those positions are exactly the ones whose rows meet the three conditions |
| `Filtering.FilterIdempotent` | dashboard.py:50-56 | filtering the result again with the same selection returns it unchanged |
| `Grouping.Add` | dashboard.py:69 | no contract of its own: `Grouping.GroupByCorrect`, through its step lemma `GroupByStep`, states what adding one row to the accumulators yields |
| `Grouping.GroupBy` | dashboard.py:69 | no contract of its own: `Grouping.GroupByCorrect` states its keys and accumulators |
| `Grouping.Mean` | dashboard.py:69 | the mean of a non-empty group, multiplied by its row count, gives its total count, and it is never negative |
| `Grouping.GroupByCorrect` | dashboard.py:69 | the fold's keys are exactly the keys present in the rows; each key's accumulator holds the total count and the number of that key's rows, and that number is positive |
| `Grouping.GroupMean` | dashboard.py:69 | one entry per key present in the rows, equal to the total `cnt` of that key's rows divided by their number |
| `Grouping.SeasonAverage` | dashboard.py:69 | keys are exactly the seasons present; each value is the season's total count over its row number; no rows give an empty map |
| `Grouping.WeekendAverage` | dashboard.py:74 | keys are exactly the indicator values present; each value is the mean over those rows; no rows give an empty map; with derived indicators the keys are a subset of {0, 1} |
| `Grouping.SeasonWeekendAverage` | dashboard.py:91 | a (season, indicator) cell is present exactly when some row has both values, and it then holds the mean count of those rows; no rows give an empty map |
| `Grouping.GroupMembers` | dashboard.py:69 | the rows of a group are exactly the table rows with that key |
| `Grouping.MeanBounds` | dashboard.py:69 | the mean of a non-empty group lies between any common lower and upper bound of the counts |
| `Grouping.SeasonSplitsByFlag` | dashboard.py:91 | with indicators in {0, 1}, a season's rows split into its two cells, in number and in total count |
| `Grouping.GroupPresence` | dashboard.py:69 | a key has a mean exactly when its group is non-empty; a key without one has a group of total 0 |
| `Grouping.SeasonPresentIffCell` | dashboard.py:91 | with indicators in {0, 1}, a season has a mean exactly when one of its two cells is present |
| `Grouping.SeasonMeanPoolsCells` | dashboard.py:91 | with indicators in {0, 1}, a season's mean is the pooled mean of the rows of its two cells |
| `Pipeline.Filtered` | dashboard.py:20-56 | every row of a render's filtered table meets the three conditions of the selection and has its indicator derived from its weekday |
| `Pipeline.FilteredFlags` | dashboard.py:20 | every row of a render's filtered table has an indicator of 0 or 1 |
| `Pipeline.Summarize` | dashboard.py:69-91 | the three tables are empty exactly when no row is selected, and every (season, indicator) cell has its season in the season table and its indicator in the weekend table |
| `Pipeline.WeekendKeysAreFlags` | dashboard.py:74 | in a render the weekend table has no key other than 0 and 1; key 1 is present exactly when a selected row has weekday 0 or 6, and key 0 exactly when a selected row has another weekday |
| `Pipeline.AveragesWithinSelection` | dashboard.py:50-91 | every mean in the three tables of a render lies inside the selected rental-count interval |
| `Pipeline.SeasonTableMatchesCells` | dashboard.py:69-91 | in a render a season is in the season table exactly when one of its two cells is in the split table |
| `Pipeline.SeasonMeanMatchesCells` | dashboard.py:69-91 | in a render each season's mean is the pooled mean of the rows of its two cells |
| `Labels.SeasonLabel` | dashboard.py:46 | the "all seasons" caption is shown for the sentinel 0 and for no other option |
| `Labels.SeasonLabelInjective` | dashboard.py:46 | distinct options among 0 to 4 carry distinct captions |
| `Examples.BothDaysSelected` | dashboard.py:50-91 | a day with weekday index 3 and 500 rentals and a day with weekday index 6 and 800, both selected: season 1 mean 650, weekday mean 500, weekend mean 800, and cells (1,0) = 500 and (1,1) = 800 |
| `Examples.OnlyWeekendDaySelected` | dashboard.py:50-69 | with counts from 600 to 1000 only the day with weekday index 6 remains, and the season table is {1: 800} |

## Left out

- The file-existence check, the error message and halt, and reading the CSV (lines 11-16) are file I/O and process control. The model starts from rows that are already loaded.
- Parsing the date strings (lines 19 and 51) is library behaviour. Dates are integer day numbers, and the midnight timestamps the library compares behave the same way.
- The sidebar widgets are left out: the date picker with its bounds, the slider with its default window 100 to 5000, the selectbox and the preview checkbox with its `head()` (lines 27-47 and 60-62). They are user interface; their values enter as the fields of `Selection`.
- Charts and chart labels, and the wide `unstack` reshape used only for the grouped bar chart (lines 78-104), are rendering through foreign libraries. `SeasonWeekendAverage` holds the same cells.
- The library's `mean` uses 64-bit floating point. The model computes exact rational means.
- The column renaming after `reset_index` (lines 70 and 75) is presentation only. So is the sorted row order of a group-by result: the model's maps are unordered.
- Labels.SeasonLabel: it requires an option in 0 to 4. The selector only ever offers those, so the model does not follow list indexing for negative or larger values.
- Records.DeriveWeekend: before derivation the indicator slot holds whatever the loader put there, because the source adds a new column while the model's row type always has the field.
