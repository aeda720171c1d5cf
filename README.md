# Total-tasks plots of the parsl monitoring dashboard, in Dafny

This project models the chart data behind the two "total tasks" plots of the
parsl monitoring web app, `TotalTasksPlot` and `TotalTasksMultiplePlot`.
Both plots read one run's `task_status` rows (task id, status name,
timestamp) and `task` rows (task id, function name). From them they:

- propose a default bin width (`setup`);
- cut the run's time span into half-open bins starting at the earliest
  status timestamp;
- group the tasks by function name (`apps_dict`);
- count, per bin, the `done` and the `failed` events of every group's tasks,
  and add the group vectors element by element (`y_axis_setup`).

The multiple-series plot also rewrites its `apps` argument and keeps only
the task rows whose function name is in it. The bin boundaries still come
from every status row of the run.

Modules, one per concept:

- `Records` (records.dfy): the two row types, the error outcomes, and the
  minimum, maximum and span of the timestamps.
- `Arith` (arith.dfy): a multiplication fact shared by the arithmetic proofs.
- `BinWidth` (bin_width.dfy): the `setup` arithmetic.
- `TimeAxis` (time_axis.dfy): Python's `range` and the appending `x_axis` loop.
- `Grouping` (grouping.dfy): `apps_dict`, a map from function name to task
  ids, plus its key order.
- `Counting` (counting.dfy): `y_axis_setup` and its counting.
- `AppFilter` (app_filter.dfy): the `apps` rewriting and the `IN` filter.
- `TotalTasks` (total_tasks.dfy): the two `plot` methods and the chart-level
  lemmas.

The source's loops are methods with loop invariants, each proved equal to a
specification function. `BuildAxis` is proved against `PyRange`,
`GroupByFuncName` against `IdsWithName` and `DistinctNames`, and
`YAxisSetup` against `Series`. The lemmas state what those functions mean.

Timestamps are whole seconds (`int`). The source compares the store's
timestamp strings with the formatted boundaries. The model compares integers
instead. This assumes that the fixed date format orders strings the same way
as the instants they name. Python raises in four places, and each becomes an
`Err` result:

- `min`/`max` of an empty status table;
- `setup` with zero columns;
- `range` with a zero step;
- a dict `apps` without a `label` key.

Where a plain reading of the code and the code itself differ, the model
follows the code:

- The loop bound `max_time + time_step` looks as if it keeps every event.
  It does not: when the span is a whole number of widths, the last boundary
  equals the latest timestamp. Events at that instant then fall in no bin,
  because bins are half-open (`LatestEventUnbinned`, `TotalsBound`).
- Whenever the span is shorter than `columns` seconds (under 20 s with the
  default column count), `int(span / columns)` is 0 and `setup` proposes
  0 m 0 s rather than raising. This includes one status event, or all events
  at the same instant. `plot` then raises only because `range` refuses a
  zero step.
- A negative width is not refused. `range` then yields at most the single
  boundary `min_time` (`PyRangeDownwardShort`), so there are no bins.
- With no task rows, `y_axis_setup` returns its initial empty list. The
  series is then empty rather than a zero vector as long as the labels.

## Model

| member | source | states |
|---|---|---|
| Records.MinTime | parsl/monitoring/web_app/plots/default/total_tasks.py:21 | `min_time` is one of the status timestamps and no timestamp is below it (also lines 43, 119, 147) |
| Records.MaxTime | parsl/monitoring/web_app/plots/default/total_tasks.py:22 | `max_time` is one of the status timestamps and no timestamp is above it (also lines 44, 120, 148) |
| Records.Span | parsl/monitoring/web_app/plots/default/total_tasks.py:24 | `max_time - min_time` is non-negative and bounds the distance between any two timestamps |
| BinWidth.TruncDiv | parsl/monitoring/web_app/plots/default/total_tasks.py:24 | `int(a / b)` is the quotient whose product with `b` lies at most `a` and within one `abs(b)` below it, with the sign of `b` |
| BinWidth.SuggestBinWidth | parsl/monitoring/web_app/plots/default/total_tasks.py:21-26 | `setup` (and its twin at lines 119-124): it fails exactly on an empty table or zero columns; otherwise seconds lie in [0, 60), `60*minutes + seconds` is the truncated quotient of the span by `columns`, and minutes are non-negative for positive `columns`; `columns` defaults to 20 (`DefaultColumns`), as in the signature at line 15 |
| BinWidth.SuggestionFillsColumns | parsl/monitoring/web_app/plots/default/total_tasks.py:24-26 | for 0 < columns <= span, the proposed width is positive and yields at least `columns` bins when fed back to `plot` |
| TimeAxis.PyRange | parsl/monitoring/web_app/plots/default/total_tasks.py:48 | defines the values of Python's `range(start, stop, step)` for either sign of the step; its meaning is stated by `PyRangeAt` and `PyRangeUpward` |
| TimeAxis.BinCount | parsl/monitoring/web_app/plots/default/total_tasks.py:65 | defines the number of bins, `len(x_axis) - 1` as iterated by `range(len(x_axis) - 1)`, and 0 for an empty axis (also the length of `x_axis[:-1]` at line 76) |
| TimeAxis.BuildAxis | parsl/monitoring/web_app/plots/default/total_tasks.py:47-49 | the appending loop yields exactly the values of `range(min_time, max_time + time_step, time_step)` (also lines 151-153) |
| TimeAxis.PyRangeAt | parsl/monitoring/web_app/plots/default/total_tasks.py:48 | the k-th value of the range is `start + k*step` |
| TimeAxis.PyRangeUpward | parsl/monitoring/web_app/plots/default/total_tasks.py:48 | an upward range is non-empty iff start < stop; all its values lie below `stop`, and the last lies within one step of it |
| TimeAxis.PyRangeDownwardShort | parsl/monitoring/web_app/plots/default/total_tasks.py:48 | with a negative width the axis has at most one boundary |
| TimeAxis.AxisShape | parsl/monitoring/web_app/plots/default/total_tasks.py:45-49 | for a positive width the axis starts at `min_time`, rises by exactly one width per boundary (so it is strictly increasing), has `max_time <= last < max_time + width`, and has ceil(span / width) bins; `min == max` gives zero bins |
| TimeAxis.LastBoundary | parsl/monitoring/web_app/plots/default/total_tasks.py:48 | the last boundary equals `max_time` iff the span is a whole number of widths |
| Grouping.DistinctNames | parsl/monitoring/web_app/plots/default/total_tasks.py:55-58 | defines the keys of `apps_dict` in insertion order: a name is added when its first row is reached; `DistinctNamesElements` and `DistinctNamesFirstAppearance` state what this means |
| Grouping.IdsWithName | parsl/monitoring/web_app/plots/default/total_tasks.py:55-58 | defines one name's list in `apps_dict`: the ids of its rows in row order; `IdsWithNameMembers` states its members |
| Grouping.GroupLists | parsl/monitoring/web_app/plots/default/total_tasks.py:62 | defines the id lists of `apps_dict.items()`, one per key in key order |
| Grouping.GroupByFuncName | parsl/monitoring/web_app/plots/default/total_tasks.py:52-58 | the keys of `apps_dict` are exactly the rows' function names, in first-appearance order; each name's list is the ids of its rows in row order (also lines 156-162) |
| Grouping.DistinctNamesElements | parsl/monitoring/web_app/plots/default/total_tasks.py:55-58 | the key order holds each row's function name exactly once, and no other name |
| Grouping.DistinctNamesFirstAppearance | parsl/monitoring/web_app/plots/default/total_tasks.py:55-58 | the keys come in the order of the first row carrying each |
| Grouping.IdsWithNameMembers | parsl/monitoring/web_app/plots/default/total_tasks.py:55-58 | an id is in a name's list iff some row carries that id and that name |
| Grouping.GroupSizesTotal | parsl/monitoring/web_app/plots/default/total_tasks.py:52-58 | the lists of `apps_dict` hold as many ids in total as there are task rows |
| Grouping.GroupsDisjoint | parsl/monitoring/web_app/plots/default/total_tasks.py:52-58 | when task ids are unique among the rows, no id is in two lists |
| Grouping.InGroupsIffRow | parsl/monitoring/web_app/plots/default/total_tasks.py:62-64 | a status event's task is in some group iff its id is the id of a task row |
| Grouping.GroupListsOfMap | parsl/monitoring/web_app/plots/default/total_tasks.py:52-62 | taking the filled map's lists in its key order gives the lists of `apps_dict.items()`, every key of the order being in the map |
| Grouping.GroupListsEmpty | parsl/monitoring/web_app/plots/default/total_tasks.py:52-58 | `apps_dict` has no entries exactly when the task table has no rows |
| Grouping.FirstRow | parsl/monitoring/web_app/plots/default/total_tasks.py:55-58 | the index of the earliest row carrying a name |
| Counting.CountMatching | parsl/monitoring/web_app/plots/default/total_tasks.py:64-68 | counts one group's events with the status in a bin (`isin`, the two comparisons and `== value`); the count is zero exactly when no event matches |
| Counting.GroupSeries | parsl/monitoring/web_app/plots/default/total_tasks.py:63-68 | defines one group's vector `tmp`: one in-bin count per bin of the axis |
| Counting.Accumulate | parsl/monitoring/web_app/plots/default/total_tasks.py:69 | `np.sum([items, tmp], axis=0)` has the length of `tmp`, and entry i is `items[i] + tmp[i]`, where the initial empty `items` acts as a zero vector |
| Counting.Sum | parsl/monitoring/web_app/plots/default/total_tasks.py:182-185 | Python's `sum` of a series (also at lines 92 and 100); no entry exceeds the total |
| Counting.Series | parsl/monitoring/web_app/plots/default/total_tasks.py:60-71 | the accumulated series has one entry per bin (`len(x_axis) - 1`) when there is a group, and none when `apps_dict` is empty |
| Counting.YAxisSetup | parsl/monitoring/web_app/plots/default/total_tasks.py:60-71 | the nested loops and the accumulation compute `Series` over `apps_dict.items()` in key order (also lines 164-175) |
| Counting.SeriesAt | parsl/monitoring/web_app/plots/default/total_tasks.py:64-69 | entry i is the sum, over groups, of the events whose task is in the group's list, whose status equals the value and whose timestamp lies in `[x_axis[i], x_axis[i+1])` |
| Counting.GroupSeriesTotal | parsl/monitoring/web_app/plots/default/total_tasks.py:65-68 | a group's bin counts add up to its matching events between the first and the last boundary |
| Counting.SeriesTotal | parsl/monitoring/web_app/plots/default/total_tasks.py:73-74 | the total of a series is the matching events between the first and the last boundary, summed over the groups |
| Counting.SeriesWithOneMoreEvent | parsl/monitoring/web_app/plots/default/total_tasks.py:64-68 | one more event raises exactly the bin holding its timestamp, by the number of groups holding its task, and only when its status is the value |
| Counting.IgnoredEvent | parsl/monitoring/web_app/plots/default/total_tasks.py:64-68 | an event with another status, of a task in no group, or at or beyond the last boundary leaves the series unchanged |
| Counting.BoundaryEventInLaterBin | parsl/monitoring/web_app/plots/default/total_tasks.py:66-67 | an event exactly on an interior boundary is counted in the later bin, not the earlier one |
| Counting.DisjointGroupsCountOnce | parsl/monitoring/web_app/plots/default/total_tasks.py:62-69 | when no id is in two groups, the per-group counts add up to the number of in-group events, each counted once |
| Counting.RangeCount | parsl/monitoring/web_app/plots/default/total_tasks.py:66-67 | restricting to a time range never adds events, and drops none when all events lie in the range |
| AppFilter.PaddedNames | parsl/monitoring/web_app/plots/default/total_tasks.py:139-140 | a one-element list gets `''` appended and any other list is kept; the result never has one element and contains the same non-empty names |
| AppFilter.NormalisedNames | parsl/monitoring/web_app/plots/default/total_tasks.py:137-140 | a dict becomes `['', label]` (a KeyError without `label`), and a list is padded; the result never has exactly one element |
| AppFilter.NormaliseApps | parsl/monitoring/web_app/plots/default/total_tasks.py:137-140 | returns the normalised names, and pads a one-element list in place so that the caller's list changes too |
| AppFilter.SelectTasks | parsl/monitoring/web_app/plots/default/total_tasks.py:142 | the task query keeps exactly the rows whose function name is one of the normalised names |
| AppFilter.SelectKeepsUniqueIds | parsl/monitoring/web_app/plots/default/total_tasks.py:142 | the query returns rows of the task table, so ids unique in the table stay unique among the selected rows |
| AppFilter.PaddingSelectsSameRows | parsl/monitoring/web_app/plots/default/total_tasks.py:139-142 | when no row has the empty function name, the appended `''` selects the same rows |
| TotalTasks.AxisOf | parsl/monitoring/web_app/plots/default/total_tasks.py:45-49 | `x_axis` built from all status rows; for a positive width it is non-empty, and every status timestamp lies between its first and its last boundary |
| TotalTasks.Labels | parsl/monitoring/web_app/plots/default/total_tasks.py:76 | `x_axis[:-1]`: one label per bin, each the bin's lower boundary |
| TotalTasks.ChartOf | parsl/monitoring/web_app/plots/default/total_tasks.py:76-81 | the figure data: both series are as long as the labels, or empty when there are no task rows, and the bin width is the requested one |
| TotalTasks.BuildChart | parsl/monitoring/web_app/plots/default/total_tasks.py:43-74 | an empty status table or a zero width is an error; otherwise the result is the chart of the axis, the groups and the two series |
| TotalTasks.TotalTasksPlot | parsl/monitoring/web_app/plots/default/total_tasks.py:34-106 | the width is `60*minutes + seconds`; the plot fails exactly on an empty status table or a zero width and otherwise gives `ChartOf` |
| TotalTasks.TotalTasksMultiplePlot | parsl/monitoring/web_app/plots/default/total_tasks.py:132-185 | the `apps` error comes first; the rows are narrowed to the normalised names; a one-element caller list is padded; the labels depend only on the status rows and the width, whatever the filter |
| TotalTasks.LabelsShape | parsl/monitoring/web_app/plots/default/total_tasks.py:47-49 | for a positive width there are ceil(span / width) bar labels `x_axis[:-1]`, the first at `min_time`, each one width after the previous |
| TotalTasks.ChartShape | parsl/monitoring/web_app/plots/default/total_tasks.py:76-81 | ceil(span / width) labels `x_axis[:-1]`, starting at `min_time` one width apart; both series as long as the labels, or empty when there are no task rows |
| TotalTasks.ChartEntries | parsl/monitoring/web_app/plots/default/total_tasks.py:73-74 | entry i of the done and failed series is the in-bin count of that status summed over the groups |
| TotalTasks.TotalsBound | parsl/monitoring/web_app/plots/default/total_tasks.py:92 | with unique task ids, a displayed total is at most the events of that status whose task is in a group, and equal to it when the span is not a whole number of widths |
| TotalTasks.ChartTotals | parsl/monitoring/web_app/plots/default/total_tasks.py:182-185 | the done and failed totals shown in the bar names (and in the annotations at lines 92 and 100) obey that bound |
| TotalTasks.EventsInsideAxis | parsl/monitoring/web_app/plots/default/total_tasks.py:48 | when the span is not a whole number of widths, every status timestamp lies in [first boundary, last boundary) |
| TotalTasks.SelectedGroupsMembers | parsl/monitoring/web_app/plots/default/total_tasks.py:142-162 | the groups of the multiple-series plot hold an id exactly when some task row with that id has a selected function name |
| TotalTasks.MultiplePlotTotals | parsl/monitoring/web_app/plots/default/total_tasks.py:182-185 | for unique task ids, the multiple-series plot's displayed totals obey the totals bound over the selected groups, with equality off the multiple-of-width case |
| TotalTasks.LatestEventUnbinned | parsl/monitoring/web_app/plots/default/total_tasks.py:48 | when the span is a whole number of widths, the last boundary is `max_time` and an event at `max_time` lies in no bin |

## Left out

- Database access (`get_db`, `close_db`, `pd.read_sql_query`): the two
  tables are parameters. The `run_id` selection is done by the caller.
- Building the SQL text with `format(tuple(apps))`: the filter is modelled
  as membership in the normalised names. Rows are assumed to come back in
  table order.
- `timestamp_to_int`, `num_to_timestamp` and `DB_DATE_FORMAT`: their module
  is not part of this model. Timestamps and boundaries are integers, and the
  labels are the boundaries themselves.
- BinWidth.TruncDiv: `int((max_time - min_time) / columns)` is float
  division in the source. It is modelled as exact truncating division, so
  rounding on very large spans is not captured.
- Counting.Accumulate: `np.sum([items, tmp], axis=0)` starting from `[]` is
  modelled as "the first vector as is, then element-wise sums". That is what
  numpy versions that accepted the ragged pair do. Newer numpy raises there.
- The plotly figure, the dash input components and the `'%Mm%Ss'`
  bin-width label are rendering only. The chart is returned as data, with
  the bin width in seconds.
- `BasePlot` and the `__init__` constructors only wire the classes: that
  module is not part of this model.
- An `apps` argument that is neither a dict nor a list, such as `None`,
  would raise in `len(apps)`. This is not modelled; `AppsArg` has only the
  two cases.
- Running the same call twice gives the same chart. This follows from every
  result being a function of the inputs, so no lemma states it.
