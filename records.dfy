/** The two tables the total-tasks plots read for one run, as records,
    and the error outcomes of the plots.

    Timestamps are whole seconds.  The source compares the database's
    fixed-format timestamp strings with the formatted axis boundaries; the
    model compares integers instead, which assumes that the fixed date format
    orders strings as their instants are ordered. */
module Records {

  /** A row of the `task_status` table of the run: one status transition. */
  datatype StatusEvent = StatusEvent(taskId: int, statusName: string, timestamp: int)

  /** A row of the `task` table of the run. */
  datatype TaskRow = TaskRow(taskId: int, funcName: string)

  /** The ways in which the plotting code raises instead of returning. */
  datatype PlotError =
    | EmptyStatusTable   // `min`/`max` over an empty timestamp column (ValueError)
    | ZeroColumns        // `(max_time - min_time) / columns` with columns == 0 (ZeroDivisionError)
    | ZeroTimeStep       // `range(..., ..., 0)` when the bin width is zero (ValueError)
    | MissingLabel       // `apps['label']` on a dict without that key (KeyError)

  datatype Result<T> = Ok(value: T) | Err(error: PlotError)

  /** The smallest timestamp of a non-empty status table. */
  function MinTime(events: seq<StatusEvent>): (m: int)
    requires |events| > 0
    ensures exists k :: 0 <= k < |events| && events[k].timestamp == m
    ensures forall k :: 0 <= k < |events| ==> m <= events[k].timestamp
  {
    if |events| == 1 then events[0].timestamp
    else
      var rest := MinTime(events[1..]);
      assert forall k :: 1 <= k < |events| ==> events[k] == events[1..][k - 1];
      if events[0].timestamp <= rest then events[0].timestamp else rest
  }

  /** The largest timestamp of a non-empty status table. */
  function MaxTime(events: seq<StatusEvent>): (m: int)
    requires |events| > 0
    ensures exists k :: 0 <= k < |events| && events[k].timestamp == m
    ensures forall k :: 0 <= k < |events| ==> events[k].timestamp <= m
  {
    if |events| == 1 then events[0].timestamp
    else
      var rest := MaxTime(events[1..]);
      assert forall k :: 1 <= k < |events| ==> events[k] == events[1..][k - 1];
      if rest <= events[0].timestamp then events[0].timestamp else rest
  }

  /** The span of the status table's timestamps. */
  function Span(events: seq<StatusEvent>): (d: nat)
    requires |events| > 0
    ensures forall j, k :: 0 <= j < |events| && 0 <= k < |events| ==>
              events[k].timestamp - events[j].timestamp <= d
  {
    MaxTime(events) - MinTime(events)
  }
}
