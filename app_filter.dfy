/** The `apps` argument of the multiple-series plot: a dropdown option dict
    or a list of function names, rewritten before it becomes the `IN` set of
    the task query. */
module AppFilter {
  import opened Records
  import opened Grouping

  /** A Python list of function names; the caller holds the same object, so
      an append is visible to it. */
  class NameList {
    var elems: seq<string>

    constructor (elems: seq<string>)
      ensures this.elems == elems
    {
      this.elems := elems;
    }
  }

  /** A dict (of which only the `label` entry is read) or a list. */
  datatype AppsArg = AppsDict(entries: map<string, string>) | AppsList(list: NameList)

  /** The list branch: a one-element list gets `''` appended, any other list
      is kept.  The padded list is never of length one, and it selects the
      same non-empty names as before. */
  function PaddedNames(names: seq<string>): (r: seq<string>)
    ensures |r| != 1
    ensures |r| >= |names| && r[..|names|] == names
    ensures forall x :: x != "" ==> (x in r <==> x in names)
    ensures |names| != 1 ==> r == names
  {
    if |names| == 1 then names + [""] else names
  }

  /** The names the task query filters on, read in the current state of the list. */
  function NormalisedNames(apps: AppsArg): (r: Result<seq<string>>)
    reads if apps.AppsList? then {apps.list} else {}
    ensures r.Err? <==> apps.AppsDict? && "label" !in apps.entries
    ensures r.Err? ==> r.error == MissingLabel
    ensures r.Ok? ==> |r.value| != 1
    ensures r.Ok? && apps.AppsDict? ==>
              forall x :: x != "" ==> (x in r.value <==> x == apps.entries["label"])
  {
    match apps
    case AppsDict(entries) =>
      if "label" in entries then Ok(["", entries["label"]]) else Err(MissingLabel)
    case AppsList(list) => Ok(PaddedNames(list.elems))
  }

  /** The rewriting of `apps` in `TotalTasksMultiplePlot.plot`; a one-element
      list is padded in place, so the caller sees the padding. */
  method NormaliseApps(apps: AppsArg) returns (r: Result<seq<string>>)
    modifies if apps.AppsList? then {apps.list} else {}
    ensures r == old(NormalisedNames(apps))
    ensures apps.AppsList? ==> apps.list.elems == PaddedNames(old(apps.list.elems)) && r == Ok(apps.list.elems)
  {
    match apps
    case AppsDict(entries) =>
      if "label" in entries {
        r := Ok(["", entries["label"]]);
      } else {
        r := Err(MissingLabel);
      }
    case AppsList(list) =>
      if |list.elems| == 1 {
        list.elems := list.elems + [""];
      }
      r := Ok(list.elems);
  }

  /** The task rows the query `task_func_name IN (...)` returns, in table order:
      exactly the rows whose function name is one of `names`. */
  function SelectTasks(tasks: seq<TaskRow>, names: seq<string>): (r: seq<TaskRow>)
    ensures |r| <= |tasks|
    ensures forall t :: t in r <==> t in tasks && t.funcName in names
  {
    if |tasks| == 0 then []
    else (if tasks[0].funcName in names then [tasks[0]] else []) + SelectTasks(tasks[1..], names)
  }

  /** The query returns table rows, so ids unique among all the rows stay
      unique among the selected ones. */
  lemma {:induction false} SelectKeepsUniqueIds(tasks: seq<TaskRow>, names: seq<string>)
    requires UniqueIds(tasks)
    ensures UniqueIds(SelectTasks(tasks, names))
  {
    if |tasks| > 0 {
      var rest := tasks[1..];
      assert UniqueIds(rest) by {
        forall i, j | 0 <= i < j < |rest|
          ensures rest[i].taskId != rest[j].taskId
        {
          assert rest[i] == tasks[i + 1] && rest[j] == tasks[j + 1];
        }
      }
      SelectKeepsUniqueIds(rest, names);
      var s := SelectTasks(rest, names);
      if tasks[0].funcName in names {
        forall u | u in s
          ensures u.taskId != tasks[0].taskId
        {
          assert u in rest;
          var k :| 0 <= k < |rest| && rest[k] == u;
          assert tasks[k + 1] == u;
        }
        PrependUnique(tasks[0], s);
      }
    }
  }

  /** A row whose id no other row has keeps the ids unique when put in front. */
  lemma PrependUnique(row: TaskRow, rows: seq<TaskRow>)
    requires UniqueIds(rows)
    requires forall u :: u in rows ==> u.taskId != row.taskId
    ensures UniqueIds([row] + rows)
  {
    var r := [row] + rows;
    forall i, j | 0 <= i < j < |r|
      ensures r[i].taskId != r[j].taskId
    {
      assert r[j] == rows[j - 1];
      if i > 0 {
        assert r[i] == rows[i - 1];
      }
    }
  }

  /** Padding a one-element list with `''` selects the same rows, unless some
      task has the empty function name. */
  lemma {:induction false} PaddingSelectsSameRows(tasks: seq<TaskRow>, names: seq<string>)
    requires forall k :: 0 <= k < |tasks| ==> tasks[k].funcName != ""
    ensures SelectTasks(tasks, PaddedNames(names)) == SelectTasks(tasks, names)
  {
    if |tasks| > 0 {
      PaddingSelectsSameRows(tasks[1..], names);
    }
  }
}
