# nanoplotter: flowcell layout, channel activity and axis ticks

A Dafny model of the parts of nanoplotter's plotting module that compute
something, rather than hand data to a plotting library:

- **Flowcell layout** (`Flowcell`, `flowcell.dfy`). `make_layout` builds the
  physical arrangement of the 512 channels of a MinION flowcell. Each of
  eight blocks has a top seed and a bottom seed, and contributes four rows.
  A row is an ascending run of 8 IDs followed by a descending run of 8.
  The 32 rows are transposed into a 16 x 32 grid. `MakeLayout` does this with
  the same nested loops and appends as the source. The model proves that the
  result equals a closed cell formula. It also gives the reverse index
  (`Position`) and proves that the grid holds every ID 1..512 exactly once.
- **Channel activity** (`Heatmap`, `heatmap.dfy`). `spatial_heatmap` starts
  from a zero 16 x 32 grid. It tallies the observed channel IDs. For each
  distinct ID, it sets every cell whose layout value equals that ID to the
  ID's count. `ActivityGrid` does this on a 2-D array, one scatter per
  distinct ID, visiting the IDs in no fixed order. It is proved equal to
  the specification `Activity`: the cell at a position counts the
  observations of the channel placed there. The lemmas cover these cases:
  no observations, a single observation, one more observation, invalid IDs,
  reordering, and the grid total.
- **Axis ticks** (`Ticks`, `ticks.dfy`). In `length_plots`, the length ticks
  are the powers 10^0..10^9 up to ten times the longest read. In
  `time_plots`, the hour ticks use a step of 4 or 8 and are placed at
  hour * 3600 seconds.
- **Sequence idioms** (`Sequences`, `sequences.dfy`). Python's
  `range(start, stop, step)` and the filtering list comprehension, which the
  three parts above are built from.

The `=` in the aggregation assigns a count; it does not add one. This is
correct because a cell is only ever written with the count of its own
channel. The model shows this without assuming injectivity: `Scatter`
writes only cells whose layout value is the entry. `ChannelOccursOnce` and
`NonChannelOccursNowhere` add that each ID writes at most one cell.

The layout is oriented as the code leaves it, after the transpose. Channel
33 is at row 0, column 0. Channel 8 is at row 8, column 0, not at row 0,
column 15. The observations [33, 33, 8] therefore give 2 at (0, 0) and 1 at
(8, 0) (`ActivityExample`). Observations outside 1..512 are dropped silently,
as in the code. No count of dropped observations is reported.

## Model

| member | source | states |
|---|---|---|
| `Sequences.Range` | nanoplotter/nanoplotter.py:366-367 | `range(start, stop, step)`: element k is start + k*step, every element lies before stop in the step's direction, and the next one would not |
| `Sequences.Filter` | nanoplotter/nanoplotter.py:342 | a filtering comprehension keeps exactly the elements satisfying the condition, each with as many occurrences as in the input (and none of the others), never grows, and keeps an increasing list increasing |
| `Sequences.AtMost` | nanoplotter/nanoplotter.py:233 | the comprehension condition "not x > bound" holds exactly when x <= bound |
| `Sequences.FilterAtMostIsPrefix` | nanoplotter/nanoplotter.py:233 | filtering an increasing list by "not x > bound" keeps a prefix, and the first element left out exceeds the bound |
| `Sequences.FilterAtMostRange` | nanoplotter/nanoplotter.py:233 | an ascending `range` is increasing, and what such a filter keeps of it is start, start + step, ... |
| `Flowcell.Transpose` | nanoplotter/nanoplotter.py:368 | the transpose of a rectangular list of rows swaps the dimensions and cell (i, j) is input cell (j, i) |
| `Flowcell.RunLength` | nanoplotter/nanoplotter.py:366-367 | each ascending or descending run of 8 has 8 IDs |
| `Flowcell.LayoutRow` | nanoplotter/nanoplotter.py:366-367 | each appended row has 16 IDs |
| `Flowcell.Layout` | nanoplotter/nanoplotter.py:363-368 | the layout has 16 rows of 32 |
| `Flowcell.LayoutCellFormula` | nanoplotter/nanoplotter.py:364-368 | cell (r, c) with c = 4k + n is top[k] + 8n + r in the top eight rows and bottom[k] + 8n - (r - 8) in the bottom eight |
| `Flowcell.MakeLayout` | nanoplotter/nanoplotter.py:357-368 | the nested append loops and the transpose produce the 16 x 32 layout whose every cell follows the closed formula |
| `Flowcell.Position` | nanoplotter/nanoplotter.py:364-367 | the reverse index: every ID 1..512 has a grid position whose cell formula gives back that ID |
| `Flowcell.PositionOfParts` | nanoplotter/nanoplotter.py:364-367 | the ID at offset 8n + m of 32-ID band q is a channel ID, and its reverse index is row m or 15 - m (by the band's parity) in column 4*block + n |
| `Flowcell.PositionOfChannel` | nanoplotter/nanoplotter.py:364-368 | every position holds an ID in 1..512, and the reverse index of that ID is the position itself |
| `Flowcell.LayoutIsBijection` | nanoplotter/nanoplotter.py:364-368 | every cell holds an ID in 1..512, no two cells hold the same ID, and every ID is held by some cell |
| `Flowcell.ChannelOccursOnce` | nanoplotter/nanoplotter.py:364-368 | the set of cells holding a channel ID is exactly the one cell at its reverse index |
| `Flowcell.NonChannelOccursNowhere` | nanoplotter/nanoplotter.py:364-368 | an ID outside 1..512 is held by no cell |
| `Flowcell.LayoutCorners` | nanoplotter/nanoplotter.py:364-368 | sample cells: (0,0) = 33, (7,0) = 40, (8,0) = 8, (15,0) = 1, (0,31) = 121, (15,31) = 89 |
| `Heatmap.ValueCounts` | nanoplotter/nanoplotter.py:380 | the frequency table's keys are the observed IDs and each value is that ID's number of occurrences, at least one |
| `Heatmap.Pick` | nanoplotter/nanoplotter.py:381 | the next ID visited is some member of the non-empty set of keys still pending, with no fixed order |
| `Heatmap.Activity` | nanoplotter/nanoplotter.py:379-382 | the activity grid has 16 rows of 32 |
| `Heatmap.Scatter` | nanoplotter/nanoplotter.py:382 | `activityData[np.where(layout == entry)] = count` sets exactly the cells whose layout value is the entry and leaves every other cell unchanged |
| `Heatmap.ActivityGrid` | nanoplotter/nanoplotter.py:378-382 | a fresh 16 x 32 array whose cell (r, c) is the number of observations of the channel at (r, c), whatever order the distinct IDs are visited in |
| `Heatmap.ActivityAtChannel` | nanoplotter/nanoplotter.py:381-382 | each channel's count sits at that channel's position |
| `Heatmap.ActivityOfNothing` | nanoplotter/nanoplotter.py:379-382 | no observations give the all-zero 16 x 32 grid |
| `Heatmap.ActivityIgnoresOrder` | nanoplotter/nanoplotter.py:380-382 | two observation lists with the same multiset give the same grid |
| `Heatmap.ActivityOfPrepend` | nanoplotter/nanoplotter.py:380-382 | one more observation raises exactly its channel's cell by one, or changes nothing if it is not a channel ID |
| `Heatmap.ActivityIgnoresInvalid` | nanoplotter/nanoplotter.py:381-382 | an observation outside 1..512 changes no cell |
| `Heatmap.ActivityOfOne` | nanoplotter/nanoplotter.py:379-382 | a single valid observation gives 1 at its channel's position and 0 everywhere else |
| `Heatmap.ActivityExample` | nanoplotter/nanoplotter.py:378-382 | observations 33, 33, 8 give 2 at (0,0), 1 at (8,0) and 0 elsewhere |
| `Heatmap.ActivityTotal` | nanoplotter/nanoplotter.py:379-382 | the sum of all cells equals the number of observations in 1..512 |
| `Ticks.Pow10Increasing` | nanoplotter/nanoplotter.py:342 | the candidate powers of ten strictly increase |
| `Ticks.Powers` | nanoplotter/nanoplotter.py:342 | the candidate ticks `10**i for i in range(10)` are ten values, the i-th being 10^i, strictly increasing |
| `Ticks.LengthTicks` | nanoplotter/nanoplotter.py:342 | at most ten ticks, increasing, each between 1 and 10 * maxvalx |
| `Ticks.LengthTicksArePrefix` | nanoplotter/nanoplotter.py:342 | the length ticks are an ascending prefix of 1, 10, ..., 10^9, all at most 10 * maxvalx, and the first power left out exceeds 10 * maxvalx |
| `Ticks.LengthTicksMembers` | nanoplotter/nanoplotter.py:342 | x is a length tick exactly when x = 10^i for some i < 10 with 10^i <= 10 * maxvalx |
| `Ticks.TimeStep` | nanoplotter/nanoplotter.py:229-232 | the tick step is 4 or 8 hours, and it is 4 exactly when maxtime < 72 * 3600 |
| `Ticks.TimeTicks` | nanoplotter/nanoplotter.py:233 | the hour ticks increase, and each lies in [0, 168) with hour * 3600 <= maxtime |
| `Ticks.TickPositions` | nanoplotter/nanoplotter.py:246 | one position per tick, the j-th being tick j * 3600 seconds, increasing when the ticks increase |
| `Ticks.HourNotAfter` | nanoplotter/nanoplotter.py:233 | "not i > maxtime / 3600" holds exactly when i * 3600 <= maxtime |
| `Ticks.HourRange` | nanoplotter/nanoplotter.py:233 | `range(0, 168, steps)` for a step of 4 or 8 holds exactly the multiples of the step in [0, 168) |
| `Ticks.TimeTicksMembers` | nanoplotter/nanoplotter.py:229-233 | x is a time tick exactly when 0 <= x < 168, x is a multiple of 4 (run under 72 h) or 8 (otherwise), and x * 3600 <= maxtime |
| `Ticks.TimeTicksProgression` | nanoplotter/nanoplotter.py:229-233 | the time ticks are 0, step, 2*step, ... in ascending order, with step 4 below 72 h and 8 otherwise, and they stop before the first multiple that is past maxtime or reaches hour 168 |
| `Ticks.TimeTickPositionsWithinRun` | nanoplotter/nanoplotter.py:228-246 | the tick positions `i * 3600` ascend and all lie in [0, maxtime] |

## Left out

- Rendering is not modelled: the seaborn joint, heat, violin, box, count and bar plots, the matplotlib figures, `savefig`/`plt.close` and pauvre's `margin_plot` are foreign library calls with no logic to check.
- `Plot.encode` is not modelled: it reads a file and builds base64 HTML with a library encoder (I/O).
- `check_valid_color` and `check_valid_format` are not modelled: they test membership in sets that matplotlib supplies at run time, and they write to stderr and the log.
- `check_valid_time_and_sort`, the cumulative yield (`cumsum() / 10**9`), the random `sample` of 2000 reads and the `pd.cut` time bins are not modelled. They rest on pandas DataFrame, timedelta and sampling semantics and on float division. The latest start time `maxtime` that the time ticks use is a parameter.
- The log-scale ticks of `scatter` and `violin_or_box_plot` are not modelled: they raise 10 to a float and use `np.log10`.
- `run_tests` is not modelled: it loads pickles and plots end to end.
- `Ticks.TimeTicks` takes `maxtime` as an integer number of seconds, where the source holds a float. Both of the source's comparisons, `maxtime < 72 * 3600` and "not i > maxtime / 3600" for a whole hour i, give the same answer for the floor of `maxtime`. So the integer model loses nothing except NaN and float rounding.
- `Ticks.LengthTicks` takes `maxvalx` as an integer number of bases. The source takes it as the maximum of the read-length array, which holds integers.
- `Heatmap.ActivityGrid` holds counts as natural numbers, where the source uses a float array that only ever receives integer counts. Logging of the read count and the plot title is not modelled.
- `Heatmap.ValueCounts` models `pd.value_counts` as a frequency table with no iteration order. The source visits the IDs by descending count. The result does not depend on that order, and `ActivityGrid` proves this for any order.
