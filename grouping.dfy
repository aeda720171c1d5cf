/** `apps_dict`: the task rows grouped by function name, each name mapped to
    the ids of its rows.  A Python dict remembers the order in which its keys
    were first inserted and `apps_dict.items()` follows it; the model keeps
    that order as a sequence beside the map. */
module Grouping {
  import opened Records

  /** The function names occurring among the task rows. */
  function NamesOf(tasks: seq<TaskRow>): set<string>
  {
    set i | 0 <= i < |tasks| :: tasks[i].funcName
  }

  /** The distinct function names in the order of their first row. */
  function DistinctNames(tasks: seq<TaskRow>): seq<string>
  {
    if |tasks| == 0 then []
    else
      var ns := DistinctNames(tasks[..|tasks| - 1]);
      var name := tasks[|tasks| - 1].funcName;
      if name in ns then ns else ns + [name]
  }

  /** The ids of the rows with the given function name, in row order. */
  function IdsWithName(tasks: seq<TaskRow>, name: string): seq<int>
  {
    if |tasks| == 0 then []
    else
      var last := tasks[|tasks| - 1];
      IdsWithName(tasks[..|tasks| - 1], name) + (if last.funcName == name then [last.taskId] else [])
  }

  /** The id lists of `apps_dict.items()`, in key order. */
  function GroupLists(tasks: seq<TaskRow>): seq<seq<int>>
  {
    var ns := DistinctNames(tasks);
    seq(|ns|, k requires 0 <= k < |ns| => IdsWithName(tasks, ns[k]))
  }

  /** The id lists of a map, taken in the given key order. */
  function ListsInOrder(groups: map<string, seq<int>>, order: seq<string>): seq<seq<int>>
    requires forall k :: 0 <= k < |order| ==> order[k] in groups
  {
    seq(|order|, k requires 0 <= k < |order| => groups[order[k]])
  }

  /** The row-by-row filling of `apps_dict`: a name seen before gets the row's
      id appended to its list, a new name gets a one-element list. */
  method GroupByFuncName(tasks: seq<TaskRow>) returns (groups: map<string, seq<int>>, order: seq<string>)
    ensures groups.Keys == NamesOf(tasks)
    ensures forall name :: name in groups ==> groups[name] == IdsWithName(tasks, name)
    ensures order == DistinctNames(tasks)
  {
    groups, order := map[], [];
    for i := 0 to |tasks|
      invariant groups.Keys == NamesOf(tasks[..i])
      invariant forall name :: name in groups ==> groups[name] == IdsWithName(tasks[..i], name)
      invariant order == DistinctNames(tasks[..i])
    {
      var row := tasks[i];
      assert tasks[..i + 1] == tasks[..i] + [row];
      AppendRow(tasks[..i], row);
      if row.funcName in groups {
        groups := groups[row.funcName := groups[row.funcName] + [row.taskId]];
      } else {
        IdsOfAbsentName(tasks[..i], row.funcName);
        groups := groups[row.funcName := [row.taskId]];
        order := order + [row.funcName];
      }
    }
    assert tasks[..|tasks|] == tasks;
  }

  /** What one more row changes in the names, the order and the id lists. */
  lemma AppendRow(prefix: seq<TaskRow>, row: TaskRow)
    ensures var next := prefix + [row];
            && NamesOf(next) == NamesOf(prefix) + {row.funcName}
            && (row.funcName in DistinctNames(prefix) <==> row.funcName in NamesOf(prefix))
            && DistinctNames(next) == (if row.funcName in DistinctNames(prefix) then DistinctNames(prefix)
                                       else DistinctNames(prefix) + [row.funcName])
            && forall name :: IdsWithName(next, name) ==
                 IdsWithName(prefix, name) + (if row.funcName == name then [row.taskId] else [])
  {
    var next := prefix + [row];
    assert next[..|prefix|] == prefix;
    assert NamesOf(next) == NamesOf(prefix) + {row.funcName} by {
      assert next[|prefix|] == row;
      assert forall j :: 0 <= j < |prefix| ==> next[j] == prefix[j];
    }
    DistinctNamesElements(prefix);
  }

  /** The lists of a map filled as `GroupByFuncName` fills it, taken in its
      key order, are the lists of `apps_dict.items()`. */
  lemma GroupListsOfMap(tasks: seq<TaskRow>, groups: map<string, seq<int>>, order: seq<string>)
    requires groups.Keys == NamesOf(tasks)
    requires forall name :: name in groups ==> groups[name] == IdsWithName(tasks, name)
    requires order == DistinctNames(tasks)
    ensures forall k :: 0 <= k < |order| ==> order[k] in groups
    ensures ListsInOrder(groups, order) == GroupLists(tasks)
  {
    DistinctNamesElements(tasks);
  }

  /** `apps_dict` is empty exactly when there are no task rows. */
  lemma GroupListsEmpty(tasks: seq<TaskRow>)
    ensures |GroupLists(tasks)| == 0 <==> |tasks| == 0
  {
    DistinctNamesElements(tasks);
    if |tasks| > 0 {
      assert tasks[0].funcName in NamesOf(tasks);
    }
  }

  /** A name with no rows has an empty id list. */
  lemma {:induction false} IdsOfAbsentName(tasks: seq<TaskRow>, name: string)
    requires name !in NamesOf(tasks)
    ensures IdsWithName(tasks, name) == []
  {
    if |tasks| > 0 {
      var init := tasks[..|tasks| - 1];
      assert NamesOf(init) <= NamesOf(tasks) by {
        assert forall j :: 0 <= j < |init| ==> init[j] == tasks[j];
      }
      IdsOfAbsentName(init, name);
    }
  }

  /** Whether no name occurs twice. */
  ghost predicate Distinct(ns: seq<string>)
  {
    forall i, j :: 0 <= i < j < |ns| ==> ns[i] != ns[j]
  }

  /** The keys of `apps_dict` are exactly the names of the rows, each once. */
  lemma {:induction false} DistinctNamesElements(tasks: seq<TaskRow>)
    ensures forall n :: n in DistinctNames(tasks) <==> n in NamesOf(tasks)
    ensures Distinct(DistinctNames(tasks))
  {
    if |tasks| > 0 {
      var init := tasks[..|tasks| - 1];
      var name := tasks[|tasks| - 1].funcName;
      var ns := DistinctNames(init);
      DistinctNamesElements(init);
      assert NamesOf(tasks) == NamesOf(init) + {name} by {
        assert forall j :: 0 <= j < |init| ==> init[j] == tasks[j];
      }
      if name !in ns {
        assert forall i :: 0 <= i < |ns| ==> (ns + [name])[i] == ns[i];
      }
    }
  }

  /** The index of the first row carrying a name. */
  function FirstRow(tasks: seq<TaskRow>, name: string): (r: nat)
    requires name in NamesOf(tasks)
    ensures r < |tasks| && tasks[r].funcName == name
    ensures forall k :: 0 <= k < r ==> tasks[k].funcName != name
  {
    if tasks[0].funcName == name then 0
    else
      assert name in NamesOf(tasks[1..]) by {
        var j :| 0 <= j < |tasks| && tasks[j].funcName == name;
        assert tasks[1..][j - 1] == tasks[j];
      }
      var r := 1 + FirstRow(tasks[1..], name);
      assert forall k :: 1 <= k < r ==> tasks[k] == tasks[1..][k - 1];
      r
  }

  /** A name of a prefix of the rows keeps its first row in the whole table. */
  lemma FirstRowOfPrefix(tasks: seq<TaskRow>, m: nat, name: string)
    requires m <= |tasks| && name in NamesOf(tasks[..m])
    ensures name in NamesOf(tasks) && FirstRow(tasks, name) == FirstRow(tasks[..m], name)
  {
    var prefix := tasks[..m];
    var b := FirstRow(prefix, name);
    assert tasks[b] == prefix[b];
  }

  /** The first row of a name absent from the earlier rows is the last row. */
  lemma FirstRowOfNewName(tasks: seq<TaskRow>)
    requires |tasks| > 0 && tasks[|tasks| - 1].funcName !in NamesOf(tasks[..|tasks| - 1])
    ensures tasks[|tasks| - 1].funcName in NamesOf(tasks)
    ensures FirstRow(tasks, tasks[|tasks| - 1].funcName) == |tasks| - 1
  {
    var m := |tasks| - 1;
    forall k | 0 <= k < m
      ensures tasks[k].funcName != tasks[m].funcName
    {
      assert tasks[..m][k] == tasks[k];
    }
  }

  /** Whether the names come in the order of their first rows. */
  ghost predicate InFirstRowOrder(tasks: seq<TaskRow>, ns: seq<string>)
  {
    && (forall i :: 0 <= i < |ns| ==> ns[i] in NamesOf(tasks))
    && (forall i, j :: 0 <= i < j < |ns| ==> FirstRow(tasks, ns[i]) < FirstRow(tasks, ns[j]))
  }

  /** The keys of `apps_dict` come in the order of their first rows. */
  lemma {:induction false} DistinctNamesFirstAppearance(tasks: seq<TaskRow>)
    ensures InFirstRowOrder(tasks, DistinctNames(tasks))
  {
    if |tasks| > 0 {
      var m := |tasks| - 1;
      var init, name := tasks[..m], tasks[m].funcName;
      DistinctNamesFirstAppearance(init);
      DistinctNamesElements(init);
      OrderExtends(tasks, DistinctNames(init));
    }
  }

  /** Names in first-row order for all but the last row stay in that order
      over all rows, and stay so with the last row's name put after them when
      it is new. */
  lemma OrderExtends(tasks: seq<TaskRow>, nsInit: seq<string>)
    requires |tasks| > 0
    requires InFirstRowOrder(tasks[..|tasks| - 1], nsInit)
    requires forall n :: n in nsInit <==> n in NamesOf(tasks[..|tasks| - 1])
    ensures InFirstRowOrder(tasks, nsInit)
    ensures tasks[|tasks| - 1].funcName !in nsInit ==>
              InFirstRowOrder(tasks, nsInit + [tasks[|tasks| - 1].funcName])
  {
    var m := |tasks| - 1;
    var init, name := tasks[..m], tasks[m].funcName;
    forall i | 0 <= i < |nsInit|
      ensures nsInit[i] in NamesOf(tasks) && FirstRow(tasks, nsInit[i]) == FirstRow(init, nsInit[i]) < m
    {
      FirstRowOfPrefix(tasks, m, nsInit[i]);
    }
    if name !in nsInit {
      FirstRowOfNewName(tasks);
      var ns := nsInit + [name];
      forall i, j | 0 <= i < j < |ns|
        ensures FirstRow(tasks, ns[i]) < FirstRow(tasks, ns[j])
      {
        assert ns[i] == nsInit[i];
        if j < |nsInit| {
          assert ns[j] == nsInit[j];
        }
      }
    }
  }

  /** Every id appended to a name's list comes from a row with that name,
      and every such row's id is there. */
  lemma {:induction false} IdsWithNameMembers(tasks: seq<TaskRow>, name: string, x: int)
    ensures x in IdsWithName(tasks, name) <==>
            exists i :: 0 <= i < |tasks| && tasks[i].taskId == x && tasks[i].funcName == name
  {
    if |tasks| > 0 {
      var init := tasks[..|tasks| - 1];
      IdsWithNameMembers(init, name, x);
      assert forall j :: 0 <= j < |init| ==> init[j] == tasks[j];
    }
  }

  /** The total size of the lists of the names in `ns`. */
  function SizeSum(tasks: seq<TaskRow>, ns: seq<string>): nat
  {
    if |ns| == 0 then 0 else SizeSum(tasks, ns[..|ns| - 1]) + |IdsWithName(tasks, ns[|ns| - 1])|
  }

  /** The number of times a name occurs in `ns`. */
  function Occurrences(ns: seq<string>, name: string): nat
  {
    if |ns| == 0 then 0 else Occurrences(ns[..|ns| - 1], name) + (if ns[|ns| - 1] == name then 1 else 0)
  }

  lemma {:induction false} SizeSumAppendRow(tasks: seq<TaskRow>, row: TaskRow, ns: seq<string>)
    ensures SizeSum(tasks + [row], ns) == SizeSum(tasks, ns) + Occurrences(ns, row.funcName)
  {
    assert (tasks + [row])[..|tasks|] == tasks;
    if |ns| > 0 {
      SizeSumAppendRow(tasks, row, ns[..|ns| - 1]);
    }
  }

  lemma {:induction false} OccursOnce(ns: seq<string>, name: string)
    requires name in ns && Distinct(ns)
    ensures Occurrences(ns, name) == 1
  {
    var init := ns[..|ns| - 1];
    if ns[|ns| - 1] == name {
      OccursNot(init, name);
    } else {
      OccursOnce(init, name);
    }
  }

  lemma {:induction false} OccursNot(ns: seq<string>, name: string)
    requires name !in ns
    ensures Occurrences(ns, name) == 0
  {
    if |ns| > 0 {
      OccursNot(ns[..|ns| - 1], name);
    }
  }

  /** Lists of pairwise distinct names covering every row's name hold, between
      them, exactly one id per row. */
  lemma {:induction false} SizeSumCoversRows(tasks: seq<TaskRow>, ns: seq<string>)
    requires Distinct(ns)
    requires forall n :: n in NamesOf(tasks) ==> n in ns
    ensures SizeSum(tasks, ns) == |tasks|
  {
    if |tasks| == 0 {
      SizeSumNoRows(ns);
    } else {
      var init, row := tasks[..|tasks| - 1], tasks[|tasks| - 1];
      assert init + [row] == tasks;
      assert NamesOf(init) <= NamesOf(tasks) by {
        assert forall j :: 0 <= j < |init| ==> init[j] == tasks[j];
      }
      SizeSumCoversRows(init, ns);
      SizeSumAppendRow(init, row, ns);
      OccursOnce(ns, row.funcName);
    }
  }

  lemma {:induction false} SizeSumNoRows(ns: seq<string>)
    ensures SizeSum([], ns) == 0
  {
    if |ns| > 0 {
      SizeSumNoRows(ns[..|ns| - 1]);
    }
  }

  /** Across all the lists of `apps_dict` there are as many ids as rows. */
  lemma GroupSizesTotal(tasks: seq<TaskRow>)
    ensures SizeSum(tasks, DistinctNames(tasks)) == |tasks|
  {
    DistinctNamesElements(tasks);
    SizeSumCoversRows(tasks, DistinctNames(tasks));
  }

  /** Whether an id is in one of the lists. */
  predicate InSomeGroup(x: int, groups: seq<seq<int>>)
  {
    |groups| > 0 && (x in groups[|groups| - 1] || InSomeGroup(x, groups[..|groups| - 1]))
  }

  /** No id is in two of the lists. */
  ghost predicate PairwiseDisjoint(groups: seq<seq<int>>)
  {
    forall i, j, x :: 0 <= i < j < |groups| && x in groups[i] ==> x !in groups[j]
  }

  lemma {:induction false} InSomeGroupMembers(x: int, groups: seq<seq<int>>)
    ensures InSomeGroup(x, groups) <==> exists k :: 0 <= k < |groups| && x in groups[k]
  {
    if |groups| > 0 {
      var init := groups[..|groups| - 1];
      InSomeGroupMembers(x, init);
      assert forall k :: 0 <= k < |init| ==> init[k] == groups[k];
    }
  }

  /** Whether no two rows share a task id (task ids are unique within a run). */
  ghost predicate UniqueIds(tasks: seq<TaskRow>)
  {
    forall i, j :: 0 <= i < j < |tasks| ==> tasks[i].taskId != tasks[j].taskId
  }

  /** With unique task ids, no id is in two of `apps_dict`'s lists. */
  lemma GroupsDisjoint(tasks: seq<TaskRow>)
    requires UniqueIds(tasks)
    ensures PairwiseDisjoint(GroupLists(tasks))
  {
    var ns, gs := DistinctNames(tasks), GroupLists(tasks);
    DistinctNamesElements(tasks);
    forall i, j, x | 0 <= i < j < |gs| && x in gs[i]
      ensures x !in gs[j]
    {
      IdsWithNameMembers(tasks, ns[i], x);
      IdsWithNameMembers(tasks, ns[j], x);
    }
  }

  /** An id is in some list of `apps_dict` exactly when it is the id of a row. */
  lemma InGroupsIffRow(tasks: seq<TaskRow>, x: int)
    ensures InSomeGroup(x, GroupLists(tasks)) <==> exists i :: 0 <= i < |tasks| && tasks[i].taskId == x
  {
    var ns, gs := DistinctNames(tasks), GroupLists(tasks);
    DistinctNamesElements(tasks);
    InSomeGroupMembers(x, gs);
    if i :| 0 <= i < |tasks| && tasks[i].taskId == x {
      var name := tasks[i].funcName;
      assert name in NamesOf(tasks);
      var k :| 0 <= k < |ns| && ns[k] == name;
      IdsWithNameMembers(tasks, name, x);
      assert x in gs[k];
    }
    if k :| 0 <= k < |gs| && x in gs[k] {
      IdsWithNameMembers(tasks, ns[k], x);
    }
  }
}
