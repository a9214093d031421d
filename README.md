# Bubbles9: a verified model of the COVID-19 death-count dashboard

`Bubbles9.py` reads a CSV with a `date` column and one death-count column per
country, one row per day. It reads a shapefile of country boundaries, derives
several tables, and draws a Bokeh dashboard. The dashboard has per-country
bubble series, a cumulative plot and a world map. A slider on the map picks
the day whose counts the map's markers show.

This project models the data side of that script and proves what each
derived table holds:

- `change`: the day-over-day difference of every count column (`Change`).
- `growth`: the transposed count table and its row labels (`Growth`,
  `ColumnLabels`). The labels are taken before the `day` column exists.
- `scaleFactor`: the spread of all count cells over 100 (`ScaleFactor`).
- `rescaled`: the counts divided by that factor (`Rescale`).
- The `day` column `0..N-1`, given to the count frame in place. `count` and
  `countCopy` are other names for `source`, so the `day` column shows up
  through every name (`CountFrame`, `JoinOnDay`).
- `big`: the left merge of counts and rescaled counts on `day`, with the
  United States columns renamed. Its rows come from `MergeOnDay`, and its
  column names from pandas' suffixing rule (`MergeColumns`) and the rename
  (`RenameColumns`).
- `dfSum`: the running totals of `countCopy`, which by then carries the
  `day` column. That column is summed and then overwritten (`Cumulate`).
  The predicate `SeriesOf` gathers all of these tables, and `FrameAfterLoad`
  describes the shared frame once it is loaded.
- The shape catalogue: the shapefile cut to `NAME` and `geometry`, with
  Antarctica dropped, plus each shape's centroid (`Catalogue`,
  `AttachCentroids`).
- `get_data(day)`: the centroid table left-joined on `NAME` with one day of
  `growth`, with `rates` and `scaledsize` columns (`GetData`).
- `datelist`: the 107 labels `dd-mm-YYYY` from 2020-01-01 to 2020-04-16
  (`DateList`, `RangeLabels`).
- The map state: the slider, the frame shown, the map title, and the
  `update_plot` handler (`Dashboard` class, `SelectDay`).

Modules:

- `Wrappers`: the `Option` type. A missing pandas value (`NaN`) is `None`.
- `Tables`: tables as sequences of rows, transposition, and the cell
  maximum and minimum.
- `Joins`: the index pairs of a pandas left merge.
- `Calendar`: Gregorian day arithmetic, `date_range` and `strftime`.
- `TimeSeries`: the load-time tables derived from the CSV.
- `Geometry`: the shape catalogue and its centroids.
- `DayFrames`: `get_data`.
- `Dashboard`: the shared count frame, the script's load sequence as
  methods, and the map and slider as a class.

The load-time mutations and the slider handler are imperative. The count
frame that `source`, `count` and `countCopy` share is a class, and so is the
dashboard whose fields `update_plot` reassigns. Everything else is a pure
function with lemmas about it.

## Model

| member | source | states |
|---|---|---|
| Tables.TransposeRoundTrip | Bubbles9.py:44 | `growth` has one row per country and one column per day. Cell (c, d) of the transpose is cell (d, c) of the counts, and transposing back gives the counts again. |
| Tables.MaxOf | Bubbles9.py:257 | The maximum is an element of the list, and no element exceeds it. |
| Tables.MinOf | Bubbles9.py:256 | The minimum is an element of the list, and no element is below it. |
| Tables.TableExtremes | Bubbles9.py:61-62 | The maximum of the column maxima and the minimum of the column minima are both cells of the table. Every cell lies between them. |
| Joins.IndexOf | Bubbles9.py:236 | The lookup finds nothing exactly when the key is absent. Otherwise it returns the first position holding the key. |
| Joins.MatchesOfSpec | Bubbles9.py:82 | The matches of a key are exactly the right positions holding that key, in ascending order. |
| Joins.LeftJoinSpec | Bubbles9.py:82 | Every row of a left merge pairs a left row with a right row of equal key, or with nothing when no right row has that key. The rows come in left-row order. LeftJoinComplete gives the other direction. |
| Joins.MatchesOfAbsent | Bubbles9.py:236 | A key that no right row has matches nothing. |
| Joins.LeftJoinHasMatch | Bubbles9.py:82 | Every pairing of a left row with a right row of the same key is a row of the merge. |
| Joins.LeftJoinKeepsUnmatched | Bubbles9.py:236 | A left row whose key no right row has is kept, unpaired. |
| Joins.LeftJoinComplete | Bubbles9.py:82 | No left row is lost: each is paired with every right row of its key, or appears unpaired when there is none. |
| Joins.MatchesOfDistinct | Bubbles9.py:236 | Among distinct keys, a key matches its one position, or nothing when it is absent. |
| Joins.LeftJoinOneToOne | Bubbles9.py:236 | With distinct right keys, the merge keeps the left rows one for one, in order. Row i is paired with the position of its key among the right keys. |
| Joins.RangeKeys | Bubbles9.py:78-80 | The `day` keys 0..n-1 are distinct, and day i is found at position i. |
| Calendar.FirstOfNextMonthOrdinal | Bubbles9.py:245 | Stepping to the first of the next month gives a valid date. The day number grows by the days left in the month plus one. |
| Calendar.OrdinalYearOrder | Bubbles9.py:245 | A date whose day number is no later than another's lies in the same year or an earlier one. |
| Calendar.AddDays | Bubbles9.py:245 | d plus n days is a valid date exactly n day numbers after d. |
| Calendar.DateRange | Bubbles9.py:245 | `date_range(start, end)` holds one valid date per day number from start through end, both included, and nothing when end precedes start. |
| Calendar.Strftime | Bubbles9.py:246 | `%d-%m-%Y` renders a date as ten characters, with dashes at positions 2 and 5. |
| Calendar.StrftimeInjective | Bubbles9.py:246 | Two different dates never render to the same label. |
| Calendar.DateList | Bubbles9.py:245-246 | There is one ten-character label per day of the range. |
| Calendar.RangeYears | Bubbles9.py:245 | Every day of a range falls between the years of its two ends. |
| Calendar.LastDayOfRange | Bubbles9.py:245 | 106 days after 2020-01-01 is 2020-04-16. |
| Calendar.DateListEnds | Bubbles9.py:245-246 | `datelist` has 107 labels, from `01-01-2020` to `16-04-2020`. |
| Calendar.DateListDistinct | Bubbles9.py:245-246 | No two labels of `datelist` are equal. |
| Calendar.LabelsOfRangeEnds | Bubbles9.py:245-246 | Any label list of the range starts at `01-01-2020` and ends at `16-04-2020`. |
| Calendar.RangeLabels | Bubbles9.py:245-246 | `datelist` holds, in order, the label of each of the 107 days from 2020-01-01, and no two labels are equal. |
| TimeSeries.ChangeTelescopes | Bubbles9.py:42 | The first row of `change` is missing. Day 0's count plus the changes of days 1..d gives day d's count. |
| TimeSeries.ChangesOf | Bubbles9.py:42 | The changes of days 1..d of one column are all present and are listed in order. |
| TimeSeries.SumToPrefix | Bubbles9.py:164 | A running total depends only on the cells it adds. |
| TimeSeries.CumSumRecurrence | Bubbles9.py:164 | Row 0 of the running sums is row 0 of the table. Every later cell is the cell above plus that day's value. |
| TimeSeries.CumSumIsColumnTotal | Bubbles9.py:164 | Cell (d, c) of the running sums is column c's total over days 0..d. |
| TimeSeries.CumSumMonotone | Bubbles9.py:164 | With non-negative counts, a country's running total never decreases from one day to a later day. |
| TimeSeries.ChangeUndoesCumSum | Bubbles9.py:42 | Differencing the running totals gives back each day's count from day 1 on, with day 0 missing. |
| TimeSeries.RunningWithColumn | Bubbles9.py:163-164 | Summing a table with an extra column sums the old columns as before and gives the extra column its own running total. |
| TimeSeries.SumToRange | Bubbles9.py:164 | The running total of the `day` column 0, 1, 2, ... at day d is d(d+1)/2. |
| TimeSeries.DfSumLayout | Bubbles9.py:161-165 | The running sum of the aliased `day` column is d(d+1)/2. After the reassignment, row d of `dfSum` is the countries' running totals followed by d. |
| TimeSeries.ScaleFactorPositive | Bubbles9.py:61-66 | The scale factor is never negative. It is positive exactly when two count cells differ. |
| TimeSeries.Rescale | Bubbles9.py:73-75 | `rescaled` has the shape of the count table. |
| TimeSeries.RescaleUndone | Bubbles9.py:75 | A rescaled cell times the factor gives back the count. |
| TimeSeries.RescaledSpan | Bubbles9.py:61-75 | Rescaled by the global factor, the counts span exactly 100: every cell lies in [min/f, min/f + 100], and the maximum lands on the top of that range. |
| TimeSeries.RescaledCell | Bubbles9.py:75 | Each rescaled cell lies between the rescaled minimum and maximum. |
| TimeSeries.MergeOnDayAligned | Bubbles9.py:82 | With both `day` columns equal to 0..N-1, `big` has N rows in day order. Row d pairs day d's date and counts with day d's rescaled counts, and none is missing. |
| TimeSeries.WithoutAppendKey | Bubbles9.py:82 | Dropping the key from right columns that end in it leaves the other columns. |
| TimeSeries.MergeColumnsLayout | Bubbles9.py:82 | Merging `date`, the countries and `day` with the countries and `day` on `day` gives `date`, each country with `_x`, a single `day`, then each country with `_y`. |
| TimeSeries.BigColumnsLayout | Bubbles9.py:82-84 | The columns of `big` follow that layout, with the two United States columns renamed to `USA_x` and `USA_y`. |
| Geometry.DropName | Bubbles9.py:52-53 | After the drop, no feature carries the dropped name, and no feature was added. |
| Geometry.DropNameMembers | Bubbles9.py:52-53 | A feature survives the drop exactly when it was present and does not carry the dropped name. |
| Geometry.DropNameKeepsOrder | Bubbles9.py:52-53 | The drop works row by row: the survivors of a concatenation are the survivors of each part, one after the other, so relative order is kept. |
| Geometry.DropNameIdle | Bubbles9.py:52-53 | A catalogue without the name passes unchanged, so dropping twice is dropping once. |
| Geometry.CatalogueMembers | Bubbles9.py:49-53 | A feature is in the catalogue exactly when some record has its name and shape and the name is not Antarctica. |
| Geometry.AttachCentroids | Bubbles9.py:209-213 | The centroid table has one row per catalogue feature. |
| Geometry.CentroidRows | Bubbles9.py:209-213 | Row i of the centroid table keeps feature i's name and shape, and its x and y are that shape's centroid. |
| Geometry.PointsFromCatalogue | Bubbles9.py:209-213 | The centroid table never contains Antarctica, nor any name absent from the shapefile. |
| DayFrames.GrowthLookup | Bubbles9.py:236 | The labels of `growth` are distinct. A name other than `date` is found among them exactly when it is a country, one position after that country's column. |
| DayFrames.GrowthAt | Bubbles9.py:235 | `growth[day]` at country c is c's count on that day. |
| DayFrames.FrameJoin | Bubbles9.py:236 | The merge in `get_data` keeps the centroid rows one for one. A row has a partner exactly when its name is a country, and the partner is that country's label. |
| DayFrames.FrameRowMatches | Bubbles9.py:236-238 | A join row with those properties yields a frame row with the point's name, shape and centroid, that country's count and the scaled size. |
| DayFrames.GetDataRows | Bubbles9.py:233-241 | `get_data(day)` has exactly one row per centroid row, in order, with its name, shape and centroid. `rates` is missing exactly when no country has the name. Otherwise it is that country's count on that day. `scaledsize` is `rates / scaleFactorMap`, missing with it. |
| DayFrames.ScaledSizeIsTwiceRescaled | Bubbles9.py:231-238 | A marker's size is twice the rescaled count of the same country and day, because the map divides by half the factor. |
| DayFrames.SameRowsEveryDay | Bubbles9.py:233-241 | Whatever day is chosen, the frame has the same rows, names, shapes and centroids. The same rows have a rate. |
| DayFrames.NoExcludedInFrame | Bubbles9.py:233-241 | A frame built from the catalogue never shows Antarctica, on any day. |
| Dashboard.CountFrame.constructor | Bubbles9.py:37-38 | The frame read from the CSV holds the dates, countries and counts, and has no `day` column. |
| Dashboard.CountFrame.AssignDay | Bubbles9.py:79 | `count['day'] = numbers['day']` aligns on the row index. Row i gets numbers[i], and the surplus entries are dropped. Only the `day` field changes. |
| Dashboard.DeriveSeries | Bubbles9.py:41-75 | Before `day` exists: `change` is the day-over-day difference, the `growth` labels are `date` and the countries, the factor is the spread over 100 and is positive, and `rescaled` is the counts over it. |
| Dashboard.JoinOnDay | Bubbles9.py:77-84 | The shared frame, and only its `day` field, gets 0..N-1. `numbers` is 0..N. `big` pairs each day's date and counts with its rescaled counts. Its column names are the merge's names for the frame's columns and the rescaled table's columns, then renamed. |
| Dashboard.Cumulate | Bubbles9.py:161-165 | `countCopy` sees the `day` column given through `count`. `dfSum`'s columns are the countries and `day`, and row d is the running totals followed by d. |
| Dashboard.LoadSeries | Bubbles9.py:37-165 | `SeriesOf`: `change`, `growth`'s labels, the positive factor, `rescaled`, `numbers` = 0..N, the rescaled table's `day` = 0..N-1, `big` row by row with its merged and renamed column names, and `dfSum`'s columns and running sums, each as the functions above define it. The one frame read from the CSV keeps the CSV's dates, countries and counts and ends with columns `date`, the countries and `day`, the `day` column being 0..N-1. |
| Dashboard.SliderBounds | Bubbles9.py:255-261 | The slider runs from `min(x) = 0` to `max(x) = N-1` over the day labels of `growth`. |
| Dashboard.Dashboard.Load | Bubbles9.py:231-261 | The map factor is half the global factor. `datelist` holds the range's labels. The slider starts at day 0 and ends at N-1. The map shows `get_data(0)` under its initial title. |
| Dashboard.Dashboard.SelectDay | Bubbles9.py:248-253 | The slider value becomes d. A day with a label gets frame `get_data(d)` and title `Death count on date: ` plus its label. A day past `datelist` fails at the lookup and leaves frame and title as they were. |
| Dashboard.RunScript | Bubbles9.py:37-262 | Everything LoadSeries states (`SeriesOf`, and the shared frame with its `day` column). The dashboard holds the CSV, its date labels satisfy `LabelsOfRange` (consecutive days, each written dd-mm-YYYY), the slider runs from 0 to N-1, and the map shows the catalogue's centroid points for day 0 under the initial title, with a factor half the one the series were rescaled by. |
| Dashboard.SelectionIsRepeatable | Bubbles9.py:248-253 | Selecting a day shows the same frame whatever was selected in between. |

## Left out

- Command-line parsing, CSV and shapefile reading (lines 19-39): the CSV is a `Store` value and the shapefile a sequence of `ShapeRow` values.
- All Bokeh figures, glyphs, hover tools, palettes, layout and page output (lines 11-15, 58-59, 96-154, 167-229, 262-287): they draw the tables but do not change them.
- The JSON round trip in `get_data` (lines 239-240): the frame is returned as rows rather than as GeoJSON text.
- The centroid computation (line 210) belongs to the geometry library, so it is the parameter `centroidOf`.
- The column-name slicing at lines 86-94 only feeds plot labels, and `changeRate` (line 47) and `pointsmerged` (line 215) are computed but never used by the dashboard's data.
- `basemap` (line 207) is an unchanged copy of the catalogue used only for drawing.
- `TimeSeries.Change` covers the count columns only: the `Timedelta` difference of the `date` column is not modelled.
- Counts are integers: missing CSV cells (`NaN`) and floating-point rounding in the division by the factor are not modelled; reals are exact.
- `Dashboard.DeriveSeries` requires two count cells to differ: with all counts equal the factor is 0 and pandas divides by zero into `inf`/`NaN`, which the model does not represent.
- Geometry.Catalogue: requires every shapefile record to carry `NAME`. Without that column, `shapefile[columns]` (line 50) raises KeyError and the script stops; the model does not represent that failure.
- Dashboard.RunScript: requires the same `NAME` attribute, for the same reason, and requires a CSV with at least one day and one country (see the next lines).
- Dashboard.LoadSeries: requires at least one day and one country. With a header-only CSV the factor at lines 61-65 is NaN and the script later fails; the model does not represent that run.
- Dashboard.Dashboard.Load: requires at least one day and one country. With no rows, `get_data(0)` (line 243) raises KeyError on `growth[0]`; the model does not represent that failure.
- `Dashboard.CountFrame.AssignDay` requires at least as many numbers as rows; the script always passes N+1 numbers, so the shorter case never arises.
- `DayFrames.GetData` requires that no shape is named `date`, because `growth` has a `date` row of timestamps and dividing one of those fails.
- `TimeSeries.Store.Valid` assumes no country column is named `date` or `day`, since such a column would collide with the script's own columns.
- Row positions stand for the pandas index: the shapefile and CSV are taken to carry the default 0..n-1 index, which is what both readers produce.
- `Calendar.Strftime` renders four-digit years only, which covers the 2020 range the script uses.
- Tables are sequences of rows; pandas' general index alignment is modelled only where the script relies on it (`AssignDay`, the merges).
