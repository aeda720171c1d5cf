/** `y_axis_setup(value)`: for each group of `apps_dict` and each half-open
    bin `[x_axis[i], x_axis[i + 1])`, the number of status events of the
    group's tasks with status `value` in that bin; the per-group vectors are
    summed element by element. */
module Counting {
  import opened Records
  import opened TimeAxis
  import opened Grouping

  /** Whether an event counts for a group and a status in the bin [lo, hi). */
  predicate Matches(e: StatusEvent, ids: seq<int>, value: string, lo: int, hi: int)
  {
    e.taskId in ids && e.statusName == value && lo <= e.timestamp < hi
  }

  /** The events of a group's tasks with status `value` in [lo, hi):
      `sum(task.loc[x & y]['task_status_name'] == value)`. */
  function CountMatching(events: seq<StatusEvent>, ids: seq<int>, value: string, lo: int, hi: int): (c: nat)
    ensures c == 0 <==> forall k :: 0 <= k < |events| ==> !Matches(events[k], ids, value, lo, hi)
  {
    if |events| == 0 then 0
    else (if Matches(events[0], ids, value, lo, hi) then 1 else 0) + CountMatching(events[1..], ids, value, lo, hi)
  }

  /** One group's vector `tmp`, one count per bin. */
  function GroupSeries(events: seq<StatusEvent>, ids: seq<int>, value: string, axis: seq<int>): seq<nat>
  {
    seq(BinCount(axis), i requires 0 <= i < BinCount(axis) => CountMatching(events, ids, value, axis[i], axis[i + 1]))
  }

  function AddVec(a: seq<nat>, b: seq<nat>): seq<nat>
    requires |a| == |b|
  {
    seq(|a|, i requires 0 <= i < |a| => a[i] + b[i])
  }

  /** `items = np.sum([items, tmp], axis=0)`: the accumulator starts as the
      empty list, which takes on the first group's vector; later vectors are
      added element by element. */
  function Accumulate(items: seq<nat>, tmp: seq<nat>): (r: seq<nat>)
    requires items == [] || |items| == |tmp|
    ensures |r| == |tmp|
    ensures forall i :: 0 <= i < |r| ==> r[i] == (if items == [] then 0 else items[i]) + tmp[i]
  {
    if items == [] then tmp else AddVec(items, tmp)
  }

  /** The result of `y_axis_setup(value)` over the groups in `apps_dict`'s order. */
  function Series(events: seq<StatusEvent>, groups: seq<seq<int>>, value: string, axis: seq<int>): (s: seq<nat>)
    ensures |s| == if |groups| == 0 then 0 else BinCount(axis)
  {
    if |groups| == 0 then []
    else
      Accumulate(Series(events, groups[..|groups| - 1], value, axis),
                 GroupSeries(events, groups[|groups| - 1], value, axis))
  }

  /** The count of matching events in [lo, hi), added up over the groups. */
  function SumOverGroups(events: seq<StatusEvent>, groups: seq<seq<int>>, value: string, lo: int, hi: int): nat
  {
    if |groups| == 0 then 0
    else SumOverGroups(events, groups[..|groups| - 1], value, lo, hi) + CountMatching(events, groups[|groups| - 1], value, lo, hi)
  }

  /** Python's `sum` of a series. */
  function Sum(s: seq<nat>): (total: nat)
    ensures forall i :: 0 <= i < |s| ==> s[i] <= total
  {
    if |s| == 0 then 0 else Sum(s[..|s| - 1]) + s[|s| - 1]
  }

  /** The number of groups whose list holds an id. */
  function Multiplicity(x: int, groups: seq<seq<int>>): nat
  {
    if |groups| == 0 then 0
    else Multiplicity(x, groups[..|groups| - 1]) + (if x in groups[|groups| - 1] then 1 else 0)
  }

  /** The events with status `value` in [lo, hi) whose task is in some group. */
  function CountInGroups(events: seq<StatusEvent>, groups: seq<seq<int>>, value: string, lo: int, hi: int): nat
  {
    if |events| == 0 then 0
    else
      var e := events[0];
      (if InSomeGroup(e.taskId, groups) && e.statusName == value && lo <= e.timestamp < hi then 1 else 0)
      + CountInGroups(events[1..], groups, value, lo, hi)
  }

  /** The events with status `value` whose task is in some group, at any time. */
  function CountStatusInGroups(events: seq<StatusEvent>, groups: seq<seq<int>>, value: string): nat
  {
    if |events| == 0 then 0
    else
      var e := events[0];
      (if InSomeGroup(e.taskId, groups) && e.statusName == value then 1 else 0)
      + CountStatusInGroups(events[1..], groups, value)
  }

  /** `y_axis_setup(value)`: the outer loop over `apps_dict.items()`, the inner
      loop over the bins, and the accumulation of the group vectors. */
  method YAxisSetup(events: seq<StatusEvent>, apps: map<string, seq<int>>, order: seq<string>,
                    axis: seq<int>, value: string) returns (items: seq<nat>)
    requires forall k :: 0 <= k < |order| ==> order[k] in apps
    ensures items == Series(events, ListsInOrder(apps, order), value, axis)
  {
    ghost var groups := ListsInOrder(apps, order);
    items := [];
    for g := 0 to |order|
      invariant items == Series(events, groups[..g], value, axis)
    {
      var tasks := apps[order[g]];
      var tmp: seq<nat> := [];
      for i := 0 to BinCount(axis)
        invariant tmp == GroupSeries(events, tasks, value, axis)[..i]
      {
        tmp := tmp + [CountMatching(events, tasks, value, axis[i], axis[i + 1])];
      }
      assert groups[..g + 1][..g] == groups[..g];
      items := Accumulate(items, tmp);
    }
    assert groups[..|order|] == groups;
  }

  /** Entry i of a status series is the number of matching events in bin i,
      added up over the groups. */
  lemma {:induction false} SeriesAt(events: seq<StatusEvent>, groups: seq<seq<int>>, value: string, axis: seq<int>, i: nat)
    requires |groups| > 0 && i < BinCount(axis)
    ensures Series(events, groups, value, axis)[i] == SumOverGroups(events, groups, value, axis[i], axis[i + 1])
  {
    var init := groups[..|groups| - 1];
    if |init| > 0 {
      SeriesAt(events, init, value, axis, i);
    }
  }

  /** Adjacent ranges add up. */
  lemma {:induction false} CountSplit(events: seq<StatusEvent>, ids: seq<int>, value: string, lo: int, mid: int, hi: int)
    requires lo <= mid <= hi
    ensures CountMatching(events, ids, value, lo, mid) + CountMatching(events, ids, value, mid, hi)
            == CountMatching(events, ids, value, lo, hi)
  {
    if |events| > 0 {
      CountSplit(events[1..], ids, value, lo, mid, hi);
    }
  }

  lemma {:induction false} SumAddVec(a: seq<nat>, b: seq<nat>)
    requires |a| == |b|
    ensures Sum(AddVec(a, b)) == Sum(a) + Sum(b)
  {
    if |a| > 0 {
      var n := |a| - 1;
      assert AddVec(a, b)[..n] == AddVec(a[..n], b[..n]);
      SumAddVec(a[..n], b[..n]);
    }
  }

  /** A group's counts over all bins add up to its matching events between
      the first and the last boundary. */
  lemma {:induction false} GroupSeriesTotal(events: seq<StatusEvent>, ids: seq<int>, value: string, axis: seq<int>)
    requires |axis| >= 1 && Increasing(axis)
    ensures Sum(GroupSeries(events, ids, value, axis)) == CountMatching(events, ids, value, axis[0], axis[|axis| - 1])
  {
    var n := |axis|;
    if n == 1 {
      assert CountMatching(events, ids, value, axis[0], axis[0]) == 0 by {
        assert CountMatching(events, ids, value, axis[0], axis[0]) + CountMatching(events, ids, value, axis[0], axis[0])
               == CountMatching(events, ids, value, axis[0], axis[0]) by {
          CountSplit(events, ids, value, axis[0], axis[0], axis[0]);
        }
      }
    } else {
      var shorter := axis[..n - 1];
      var s := GroupSeries(events, ids, value, axis);
      assert s[..n - 2] == GroupSeries(events, ids, value, shorter);
      GroupSeriesTotal(events, ids, value, shorter);
      CountSplit(events, ids, value, axis[0], axis[n - 2], axis[n - 1]);
    }
  }

  /** The total of a status series: the matching events between the first
      and the last boundary, added up over the groups. */
  lemma {:induction false} SeriesTotal(events: seq<StatusEvent>, groups: seq<seq<int>>, value: string, axis: seq<int>)
    requires |axis| >= 1 && Increasing(axis)
    ensures Sum(Series(events, groups, value, axis)) == SumOverGroups(events, groups, value, axis[0], axis[|axis| - 1])
  {
    if |groups| > 0 {
      var init, g := groups[..|groups| - 1], groups[|groups| - 1];
      SeriesTotal(events, init, value, axis);
      GroupSeriesTotal(events, g, value, axis);
      var prev := Series(events, init, value, axis);
      if prev != [] {
        SumAddVec(prev, GroupSeries(events, g, value, axis));
      } else {
        assert Sum(prev) == 0;
      }
    }
  }

  lemma {:induction false} CountMatchingAppend(events: seq<StatusEvent>, e: StatusEvent, ids: seq<int>, value: string, lo: int, hi: int)
    ensures CountMatching(events + [e], ids, value, lo, hi)
            == CountMatching(events, ids, value, lo, hi) + (if Matches(e, ids, value, lo, hi) then 1 else 0)
  {
    if |events| > 0 {
      assert (events + [e])[1..] == events[1..] + [e];
      CountMatchingAppend(events[1..], e, ids, value, lo, hi);
    }
  }

  lemma {:induction false} SumOverGroupsAppend(events: seq<StatusEvent>, e: StatusEvent, groups: seq<seq<int>>, value: string, lo: int, hi: int)
    ensures SumOverGroups(events + [e], groups, value, lo, hi)
            == SumOverGroups(events, groups, value, lo, hi)
               + (if e.statusName == value && lo <= e.timestamp < hi then Multiplicity(e.taskId, groups) else 0)
  {
    if |groups| > 0 {
      SumOverGroupsAppend(events, e, groups[..|groups| - 1], value, lo, hi);
      CountMatchingAppend(events, e, groups[|groups| - 1], value, lo, hi);
    }
  }

  lemma {:induction false} MultiplicityZero(x: int, groups: seq<seq<int>>)
    ensures Multiplicity(x, groups) == 0 <==> !InSomeGroup(x, groups)
  {
    if |groups| > 0 {
      MultiplicityZero(x, groups[..|groups| - 1]);
    }
  }

  /** One more status event adds, in the one bin that holds its timestamp, one
      count per group holding its task, provided its status is `value`; every
      other entry stays as it was. */
  lemma SeriesWithOneMoreEvent(events: seq<StatusEvent>, e: StatusEvent, groups: seq<seq<int>>, value: string, axis: seq<int>)
    ensures var before, after := Series(events, groups, value, axis), Series(events + [e], groups, value, axis);
            && |after| == |before|
            && forall i :: 0 <= i < |before| ==>
                 after[i] == before[i] + (if e.statusName == value && InBin(axis, i, e.timestamp)
                                          then Multiplicity(e.taskId, groups) else 0)
  {
    var before, after := Series(events, groups, value, axis), Series(events + [e], groups, value, axis);
    forall i | 0 <= i < |before|
      ensures after[i] == before[i] + (if e.statusName == value && InBin(axis, i, e.timestamp)
                                       then Multiplicity(e.taskId, groups) else 0)
    {
      SeriesAt(events, groups, value, axis, i);
      SeriesAt(events + [e], groups, value, axis, i);
      SumOverGroupsAppend(events, e, groups, value, axis[i], axis[i + 1]);
    }
  }

  /** An event with another status, of a task in no group, or at or beyond
      the last boundary (or before the first) changes no count. */
  lemma IgnoredEvent(events: seq<StatusEvent>, e: StatusEvent, groups: seq<seq<int>>, value: string, axis: seq<int>)
    requires Increasing(axis)
    requires || e.statusName != value
             || !InSomeGroup(e.taskId, groups)
             || (|axis| > 0 && (e.timestamp >= axis[|axis| - 1] || e.timestamp < axis[0]))
    ensures Series(events + [e], groups, value, axis) == Series(events, groups, value, axis)
  {
    SeriesWithOneMoreEvent(events, e, groups, value, axis);
    MultiplicityZero(e.taskId, groups);
  }

  /** An event exactly on an interior boundary is counted in the later bin
      and not in the earlier one. */
  lemma BoundaryEventInLaterBin(events: seq<StatusEvent>, e: StatusEvent, groups: seq<seq<int>>, value: string, axis: seq<int>, j: nat)
    requires Increasing(axis) && 0 < j < BinCount(axis) && e.timestamp == axis[j]
    requires e.statusName == value && InSomeGroup(e.taskId, groups)
    ensures var before, after := Series(events, groups, value, axis), Series(events + [e], groups, value, axis);
            && after[j] > before[j]
            && after[j - 1] == before[j - 1]
  {
    SeriesWithOneMoreEvent(events, e, groups, value, axis);
    MultiplicityZero(e.taskId, groups);
  }

  /** A group sharing no id with the others adds exactly its own count. */
  lemma {:induction false} CountInGroupsAddGroup(events: seq<StatusEvent>, groups: seq<seq<int>>, g: seq<int>, value: string, lo: int, hi: int)
    requires forall x :: x in g ==> !InSomeGroup(x, groups)
    ensures CountInGroups(events, groups + [g], value, lo, hi)
            == CountInGroups(events, groups, value, lo, hi) + CountMatching(events, g, value, lo, hi)
  {
    assert (groups + [g])[..|groups|] == groups;
    if |events| > 0 {
      CountInGroupsAddGroup(events[1..], groups, g, value, lo, hi);
    }
  }

  /** With no id in two groups, adding the groups' counts counts each event once. */
  lemma {:induction false} DisjointGroupsCountOnce(events: seq<StatusEvent>, groups: seq<seq<int>>, value: string, lo: int, hi: int)
    requires PairwiseDisjoint(groups)
    ensures SumOverGroups(events, groups, value, lo, hi) == CountInGroups(events, groups, value, lo, hi)
  {
    if |groups| == 0 {
      CountInNoGroups(events, groups, value, lo, hi);
    } else {
      var init, g := groups[..|groups| - 1], groups[|groups| - 1];
      assert PairwiseDisjoint(init);
      DisjointGroupsCountOnce(events, init, value, lo, hi);
      forall x | x in g
        ensures !InSomeGroup(x, init)
      {
        InSomeGroupMembers(x, init);
      }
      assert init + [g] == groups;
      CountInGroupsAddGroup(events, init, g, value, lo, hi);
    }
  }

  lemma {:induction false} CountInNoGroups(events: seq<StatusEvent>, groups: seq<seq<int>>, value: string, lo: int, hi: int)
    requires |groups| == 0
    ensures CountInGroups(events, groups, value, lo, hi) == 0
  {
    if |events| > 0 {
      CountInNoGroups(events[1..], groups, value, lo, hi);
    }
  }

  /** Restricting to a time range never adds events, and drops none when every
      event lies in the range. */
  lemma {:induction false} RangeCount(events: seq<StatusEvent>, groups: seq<seq<int>>, value: string, lo: int, hi: int)
    ensures CountInGroups(events, groups, value, lo, hi) <= CountStatusInGroups(events, groups, value)
    ensures (forall k :: 0 <= k < |events| ==> lo <= events[k].timestamp < hi) ==>
              CountInGroups(events, groups, value, lo, hi) == CountStatusInGroups(events, groups, value)
  {
    if |events| > 0 {
      RangeCount(events[1..], groups, value, lo, hi);
      assert forall k :: 1 <= k < |events| ==> events[1..][k - 1] == events[k];
    }
  }
}
