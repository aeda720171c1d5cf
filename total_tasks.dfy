/** The two total-tasks plots, `TotalTasksPlot` and `TotalTasksMultiplePlot`.
    Both compute the same chart data; the second first narrows the task rows
    to the function names chosen in the `apps` argument.  The two tables are
    the parameters `events` (task_status rows of the run) and `tasks` (task
    rows of the run); the chart is returned as data instead of as a figure. */
module TotalTasks {
  import opened Records
  import opened TimeAxis
  import opened Grouping
  import opened Counting
  import opened AppFilter

  /** What the figure shows: the bin starts `x_axis[:-1]`, the two stacked
      series, their totals and the bin width in seconds. */
  datatype Chart = Chart(xLabels: seq<int>, done: seq<nat>, failed: seq<nat>,
                         totalDone: nat, totalFailed: nat, timeStep: int)

  /** `x_axis` of a run: the boundaries from the earliest status timestamp
      upward, for every status row of the run whatever the task filter. */
  function AxisOf(events: seq<StatusEvent>, step: int): (axis: seq<int>)
    requires |events| > 0 && step != 0
    ensures step > 0 ==> |axis| >= 1 && forall k :: 0 <= k < |events| ==>
              axis[0] <= events[k].timestamp <= axis[|axis| - 1]
  {
    if step > 0 then
      AxisShape(MinTime(events), MaxTime(events), step);
      PyRange(MinTime(events), MaxTime(events) + step, step)
    else PyRange(MinTime(events), MaxTime(events) + step, step)
  }

  /** `x_axis[:-1]`, the labels of the bars. */
  function Labels(axis: seq<int>): (labels: seq<int>)
    ensures |labels| == BinCount(axis)
    ensures forall i :: 0 <= i < |labels| ==> labels[i] == axis[i]
  {
    axis[..BinCount(axis)]
  }

  /** The chart data `plot` computes from the two tables and a non-zero width. */
  function ChartOf(events: seq<StatusEvent>, tasks: seq<TaskRow>, step: int): (c: Chart)
    requires |events| > 0 && step != 0
    ensures |c.done| == |c.failed| == (if |tasks| == 0 then 0 else |c.xLabels|)
    ensures c.timeStep == step
  {
    GroupListsEmpty(tasks);
    var axis := AxisOf(events, step);
    var done := Series(events, GroupLists(tasks), "done", axis);
    var failed := Series(events, GroupLists(tasks), "failed", axis);
    Chart(Labels(axis), done, failed, Sum(done), Sum(failed), step)
  }

  /** The part of `plot` after the queries, shared by both classes. */
  method BuildChart(events: seq<StatusEvent>, tasks: seq<TaskRow>, step: int) returns (r: Result<Chart>)
    ensures |events| == 0 ==> r == Err(EmptyStatusTable)
    ensures |events| > 0 && step == 0 ==> r == Err(ZeroTimeStep)
    ensures |events| > 0 && step != 0 ==> r == Ok(ChartOf(events, tasks, step))
  {
    if |events| == 0 {
      return Err(EmptyStatusTable);
    }
    var minTime, maxTime := MinTime(events), MaxTime(events);
    if step == 0 {
      return Err(ZeroTimeStep);
    }
    var axis := BuildAxis(minTime, maxTime, step);
    var apps, order := GroupByFuncName(tasks);
    GroupListsOfMap(tasks, apps, order);
    var done := YAxisSetup(events, apps, order, axis, "done");
    var failed := YAxisSetup(events, apps, order, axis, "failed");
    r := Ok(Chart(axis[..BinCount(axis)], done, failed, Sum(done), Sum(failed), step));
  }

  /** `TotalTasksPlot.plot`: the bin width is given as minutes and seconds. */
  method TotalTasksPlot(events: seq<StatusEvent>, tasks: seq<TaskRow>, minutes: int, seconds: int)
    returns (r: Result<Chart>)
    ensures var step := 60 * minutes + seconds;
            && (r.Err? <==> |events| == 0 || step == 0)
            && (|events| == 0 ==> r == Err(EmptyStatusTable))
            && (r.Ok? ==> r.value == ChartOf(events, tasks, step))
  {
    r := BuildChart(events, tasks, 60 * minutes + seconds);
  }

  /** `TotalTasksMultiplePlot.plot`: the task rows are first narrowed to the
      normalised `apps` names; the axis still comes from every status row. */
  method TotalTasksMultiplePlot(events: seq<StatusEvent>, tasks: seq<TaskRow>, minutes: int, seconds: int,
                                apps: AppsArg) returns (r: Result<Chart>)
    modifies if apps.AppsList? then {apps.list} else {}
    ensures apps.AppsList? ==> apps.list.elems == PaddedNames(old(apps.list.elems))
    ensures var step := 60 * minutes + seconds;
            var names := old(NormalisedNames(apps));
            && (names.Err? ==> r == Err(names.error))
            && (names.Ok? ==> (r.Err? <==> |events| == 0 || step == 0))
            && (names.Ok? && r.Ok? ==> r.value == ChartOf(events, SelectTasks(tasks, names.value), step))
            && (r.Ok? ==> r.value.xLabels == Labels(AxisOf(events, step)))
  {
    var names := NormaliseApps(apps);
    if names.Err? {
      return Err(names.error);
    }
    var selected := SelectTasks(tasks, names.value);
    r := BuildChart(events, selected, 60 * minutes + seconds);
  }

  /** The bar labels for a positive width: ceil(span / width) of them,
      starting at the earliest timestamp, one width apart. */
  lemma LabelsShape(events: seq<StatusEvent>, step: int)
    requires |events| > 0 && step > 0
    ensures var labels := Labels(AxisOf(events, step));
            && |labels| == (Span(events) + step - 1) / step
            && (|labels| > 0 ==> labels[0] == MinTime(events))
            && (forall i :: 0 <= i < |labels| - 1 ==> labels[i + 1] == labels[i] + step)
  {
    AxisShape(MinTime(events), MaxTime(events), step);
  }

  /** The shape of the chart for a positive width: the labels as above, and
      two series as long as the labels, or empty ones when the run has no
      task rows. */
  lemma ChartShape(events: seq<StatusEvent>, tasks: seq<TaskRow>, step: int)
    requires |events| > 0 && step > 0
    ensures var c := ChartOf(events, tasks, step);
            && |c.xLabels| == (Span(events) + step - 1) / step
            && (|c.xLabels| > 0 ==> c.xLabels[0] == MinTime(events))
            && (forall i :: 0 <= i < |c.xLabels| - 1 ==> c.xLabels[i + 1] == c.xLabels[i] + step)
            && |c.done| == |c.failed| == (if |tasks| == 0 then 0 else |c.xLabels|)
  {
    LabelsShape(events, step);
    GroupListsEmpty(tasks);
  }

  /** Entry i of each series: the status events of bin i summed over the groups. */
  lemma ChartEntries(events: seq<StatusEvent>, tasks: seq<TaskRow>, step: int, i: nat)
    requires |events| > 0 && step != 0 && |tasks| > 0
    requires i < BinCount(AxisOf(events, step))
    ensures var c, axis, groups := ChartOf(events, tasks, step), AxisOf(events, step), GroupLists(tasks);
            && |c.done| == |c.failed| == BinCount(axis)
            && c.done[i] == SumOverGroups(events, groups, "done", axis[i], axis[i + 1])
            && c.failed[i] == SumOverGroups(events, groups, "failed", axis[i], axis[i + 1])
  {
    GroupListsEmpty(tasks);
    SeriesAt(events, GroupLists(tasks), "done", AxisOf(events, step), i);
    SeriesAt(events, GroupLists(tasks), "failed", AxisOf(events, step), i);
  }

  /** The displayed total of a status, for unique task ids: at most the events
      with that status whose task is in some group, and exactly that when the
      span is not a whole number of widths. */
  lemma TotalsBound(events: seq<StatusEvent>, tasks: seq<TaskRow>, step: int, value: string)
    requires |events| > 0 && step > 0 && UniqueIds(tasks)
    ensures var total := Sum(Series(events, GroupLists(tasks), value, AxisOf(events, step)));
            var all := CountStatusInGroups(events, GroupLists(tasks), value);
            && total <= all
            && (Span(events) % step != 0 ==> total == all)
  {
    var axis, groups := AxisOf(events, step), GroupLists(tasks);
    var first, last := axis[0], axis[|axis| - 1];
    AxisShape(MinTime(events), MaxTime(events), step);
    SeriesTotal(events, groups, value, axis);
    GroupsDisjoint(tasks);
    DisjointGroupsCountOnce(events, groups, value, first, last);
    RangeCount(events, groups, value, first, last);
    EventsInsideAxis(events, step);
  }

  /** Off the multiple-of-width case every status event lies before the last
      boundary, so inside the axis. */
  lemma EventsInsideAxis(events: seq<StatusEvent>, step: int)
    requires |events| > 0 && step > 0
    ensures var axis := AxisOf(events, step);
            Span(events) % step != 0 ==>
              forall k :: 0 <= k < |events| ==> axis[0] <= events[k].timestamp < axis[|axis| - 1]
  {
    AxisShape(MinTime(events), MaxTime(events), step);
    LastBoundary(MinTime(events), MaxTime(events), step);
  }

  /** The two displayed totals are within those bounds. */
  lemma ChartTotals(events: seq<StatusEvent>, tasks: seq<TaskRow>, step: int)
    requires |events| > 0 && step > 0 && UniqueIds(tasks)
    ensures var c, groups := ChartOf(events, tasks, step), GroupLists(tasks);
            && c.totalDone <= CountStatusInGroups(events, groups, "done")
            && c.totalFailed <= CountStatusInGroups(events, groups, "failed")
            && (Span(events) % step != 0 ==>
                  && c.totalDone == CountStatusInGroups(events, groups, "done")
                  && c.totalFailed == CountStatusInGroups(events, groups, "failed"))
  {
    TotalsBound(events, tasks, step, "done");
    TotalsBound(events, tasks, step, "failed");
  }

  /** The groups of the multiple-series plot hold exactly the ids of the task
      rows whose function name was selected. */
  lemma SelectedGroupsMembers(tasks: seq<TaskRow>, names: seq<string>, x: int)
    ensures InSomeGroup(x, GroupLists(SelectTasks(tasks, names))) <==>
            exists t :: t in tasks && t.taskId == x && t.funcName in names
  {
    var selected := SelectTasks(tasks, names);
    InGroupsIffRow(selected, x);
    if exists t :: t in tasks && t.taskId == x && t.funcName in names {
      var t :| t in tasks && t.taskId == x && t.funcName in names;
      var i :| 0 <= i < |selected| && selected[i] == t;
    }
  }

  /** The totals bound for the multiple-series plot: the selected rows keep
      unique ids, so its displayed totals obey the same bound over the
      selected groups. */
  lemma MultiplePlotTotals(events: seq<StatusEvent>, tasks: seq<TaskRow>, names: seq<string>, step: int)
    requires |events| > 0 && step > 0 && UniqueIds(tasks)
    ensures var selected := SelectTasks(tasks, names);
            var c, groups := ChartOf(events, selected, step), GroupLists(selected);
            && c.totalDone <= CountStatusInGroups(events, groups, "done")
            && c.totalFailed <= CountStatusInGroups(events, groups, "failed")
            && (Span(events) % step != 0 ==>
                  && c.totalDone == CountStatusInGroups(events, groups, "done")
                  && c.totalFailed == CountStatusInGroups(events, groups, "failed"))
  {
    SelectKeepsUniqueIds(tasks, names);
    ChartTotals(events, SelectTasks(tasks, names), step);
  }

  /** When the span is a whole number of widths the last boundary is the
      latest timestamp, so an event at that instant lies in no bin. */
  lemma LatestEventUnbinned(events: seq<StatusEvent>, step: int)
    requires |events| > 0 && step > 0 && Span(events) % step == 0
    ensures var axis := AxisOf(events, step);
            && axis[|axis| - 1] == MaxTime(events)
            && forall i :: 0 <= i < BinCount(axis) ==> !InBin(axis, i, MaxTime(events))
  {
    var axis := AxisOf(events, step);
    AxisShape(MinTime(events), MaxTime(events), step);
    LastBoundary(MinTime(events), MaxTime(events), step);
    forall i | 0 <= i < BinCount(axis)
      ensures !InBin(axis, i, MaxTime(events))
    {
      assert axis[i + 1] <= axis[|axis| - 1];
    }
  }
}
