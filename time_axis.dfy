/** The bin boundaries of the plots: `range(min_time, max_time + time_step,
    time_step)`, collected into `x_axis` by an appending loop. */
module TimeAxis {
  import opened Arith

  /** The values of Python's `range(start, stop, step)`, in order. */
  function PyRange(start: int, stop: int, step: int): (r: seq<int>)
    requires step != 0
    decreases if step > 0 then stop - start else start - stop
  {
    if (step > 0 && start < stop) || (step < 0 && stop < start)
    then [start] + PyRange(start + step, stop, step)
    else []
  }

  /** The number of bins of an axis: one fewer than its boundaries, as
      `range(len(x_axis) - 1)` and `x_axis[:-1]` have it (none for an empty axis). */
  function BinCount(axis: seq<int>): nat
  {
    if |axis| == 0 then 0 else |axis| - 1
  }

  /** Whether `t` lies in the half-open bin `[axis[i], axis[i + 1])`. */
  predicate InBin(axis: seq<int>, i: nat, t: int)
    requires i < BinCount(axis)
  {
    axis[i] <= t < axis[i + 1]
  }

  ghost predicate Increasing(axis: seq<int>)
  {
    forall i, j :: 0 <= i < j < |axis| ==> axis[i] < axis[j]
  }

  /** The bin-boundary loop of `plot`; a zero step is refused by the caller,
      as `range` raises on it. */
  method BuildAxis(minTime: int, maxTime: int, step: int) returns (axis: seq<int>)
    requires step != 0
    ensures axis == PyRange(minTime, maxTime + step, step)
  {
    axis := [];
    var stop := maxTime + step;
    var i := minTime;
    while (step > 0 && i < stop) || (step < 0 && stop < i)
      invariant axis + PyRange(i, stop, step) == PyRange(minTime, stop, step)
      decreases if step > 0 then stop - i else i - stop
    {
      assert PyRange(i, stop, step) == [i] + PyRange(i + step, stop, step);
      axis := axis + [i];
      i := i + step;
    }
  }

  /** Every value of a range is the start plus a whole number of steps. */
  lemma {:induction false} PyRangeAt(start: int, stop: int, step: int)
    requires step != 0
    ensures forall k :: 0 <= k < |PyRange(start, stop, step)| ==>
              PyRange(start, stop, step)[k] == start + k * step
    decreases if step > 0 then stop - start else start - stop
  {
    var r := PyRange(start, stop, step);
    if |r| > 0 {
      PyRangeAt(start + step, stop, step);
      var rest := PyRange(start + step, stop, step);
      forall k | 0 < k < |r|
        ensures r[k] == start + k * step
      {
        assert r[k] == rest[k - 1];
        assert (k - 1) * step + step == k * step;
      }
    }
  }

  /** An upward range stops at the first value at or past `stop`. */
  lemma {:induction false} PyRangeUpward(start: int, stop: int, step: int)
    requires step > 0
    ensures var r := PyRange(start, stop, step);
            && (|r| > 0 <==> start < stop)
            && (forall k :: 0 <= k < |r| ==> r[k] < stop)
            && (|r| > 0 ==> stop <= r[|r| - 1] + step)
    decreases stop - start
  {
    var r := PyRange(start, stop, step);
    if start < stop {
      PyRangeUpward(start + step, stop, step);
      var rest := PyRange(start + step, stop, step);
      assert forall k :: 0 < k < |r| ==> r[k] == rest[k - 1];
    }
  }

  /** A downward range from `start` to `stop` has at most one value once
      `stop` is at or below `start` by less than one step. */
  lemma {:induction false} PyRangeDownwardShort(start: int, stop: int, step: int)
    requires step < 0 && start + step <= stop
    ensures |PyRange(start, stop, step)| <= 1
  {
    if stop < start {
      assert PyRange(start + step, stop, step) == [];
    }
  }

  /** Division with a positive divisor is determined by its defining inequalities. */
  lemma DivUnique(a: int, b: int, q: int)
    requires b > 0 && q * b <= a < q * b + b
    ensures a / b == q && a % b == a - q * b
  {
    var d, m := a / b, a % b;
    assert d * b + m == a && 0 <= m < b;
    assert (q + 1) * b == q * b + b && (d + 1) * b == d * b + b;
    MulLe(q + 1, d, b);
    MulLe(d + 1, q, b);
  }

  /** The axis of a run whose timestamps lie in [minTime, maxTime], for a
      positive step: it starts at minTime, rises by exactly one step at a time,
      its last boundary is at or past maxTime by less than one step, and it has
      ceil((maxTime - minTime) / step) bins. */
  lemma AxisShape(minTime: int, maxTime: int, step: int)
    requires step > 0 && minTime <= maxTime
    ensures var a := PyRange(minTime, maxTime + step, step);
            && |a| >= 1 && a[0] == minTime
            && (forall i :: 0 <= i < |a| - 1 ==> a[i + 1] == a[i] + step)
            && Increasing(a)
            && maxTime <= a[|a| - 1] < maxTime + step
            && BinCount(a) == (maxTime - minTime + step - 1) / step
  {
    var a := PyRange(minTime, maxTime + step, step);
    PyRangeAt(minTime, maxTime + step, step);
    PyRangeUpward(minTime, maxTime + step, step);
    forall i | 0 <= i < |a| - 1
      ensures a[i + 1] == a[i] + step
    {
      assert (i + 1) * step == i * step + step;
    }
    forall i, j | 0 <= i < j < |a|
      ensures a[i] < a[j]
    {
      MulLe(i + 1, j, step);
      assert (i + 1) * step == i * step + step;
    }
    var n := |a| - 1;
    assert a[n] == minTime + n * step;
    // n steps stay within maxTime + step, n + 1 would not.
    assert (n + 1) * step == n * step + step;
    DivUnique(maxTime - minTime + step - 1, step, n);
  }

  /** When the span is a whole number of steps, the last boundary is exactly
      maxTime, otherwise it lies strictly beyond it. */
  lemma LastBoundary(minTime: int, maxTime: int, step: int)
    requires step > 0 && minTime <= maxTime
    ensures var a := PyRange(minTime, maxTime + step, step);
            |a| >= 1 && (a[|a| - 1] == maxTime <==> (maxTime - minTime) % step == 0)
  {
    var a := PyRange(minTime, maxTime + step, step);
    AxisShape(minTime, maxTime, step);
    PyRangeAt(minTime, maxTime + step, step);
    var n := |a| - 1;
    var d := a[n] - maxTime;
    assert maxTime - minTime == n * step - d && 0 <= d < step;
    if d == 0 {
      DivUnique(maxTime - minTime, step, n);
    } else {
      assert (n - 1) * step == n * step - step;
      DivUnique(maxTime - minTime, step, n - 1);
    }
  }
}
