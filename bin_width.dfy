/** The default bin width that `setup` offers in its two inputs:
    the span of the run's status timestamps divided by a column count,
    split into minutes and seconds. */
module BinWidth {
  import opened Records
  import opened Arith

  /** The column count `setup` uses when none is given. */
  const DefaultColumns := 20

  function Abs(x: int): nat { if x < 0 then -x else x }

  /** `int(a / b)` for a non-negative `a`: the quotient truncated toward zero. */
  function TruncDiv(a: nat, b: int): (q: int)
    requires b != 0
    ensures q * b <= a < q * b + Abs(b)
    ensures (b > 0 ==> q >= 0) && (b < 0 ==> q <= 0)
  {
    if b > 0 then a / b else -(a / -b)
  }

  /** A bin width in the form the two inputs show it. */
  datatype Suggestion = Suggestion(minutes: int, seconds: int)

  /** The bin width `setup` proposes for a status table and a column count. */
  function SuggestBinWidth(events: seq<StatusEvent>, columns: int := DefaultColumns): (r: Result<Suggestion>)
    ensures |events| == 0 ==> r == Err(EmptyStatusTable)
    ensures |events| > 0 && columns == 0 ==> r == Err(ZeroColumns)
    ensures r.Ok? <==> |events| > 0 && columns != 0
    ensures r.Ok? ==>
              var step := 60 * r.value.minutes + r.value.seconds;
              && 0 <= r.value.seconds < 60
              && step * columns <= Span(events) < step * columns + Abs(columns)
    ensures r.Ok? && columns > 0 ==> r.value.minutes >= 0
  {
    if |events| == 0 then Err(EmptyStatusTable)
    else if columns == 0 then Err(ZeroColumns)
    else
      var step := TruncDiv(Span(events), columns);
      Ok(Suggestion(step / 60, step % 60))
  }

  /** With a positive column count no larger than the span, the suggested
      width is positive and cuts the span into at least `columns` bins of
      that width: ceil(span / width) >= columns. */
  lemma {:induction false} SuggestionFillsColumns(events: seq<StatusEvent>, columns: int)
    requires |events| > 0 && 0 < columns <= Span(events)
    ensures var r := SuggestBinWidth(events, columns);
            var step := 60 * r.value.minutes + r.value.seconds;
            && r.Ok? && step > 0
            && (Span(events) + step - 1) / step >= columns
  {
    var r := SuggestBinWidth(events, columns);
    var step := 60 * r.value.minutes + r.value.seconds;
    assert step * columns <= Span(events) < step * columns + columns;
    MulLe(step, 0, columns);
    CeilQuotientBound(Span(events), step, columns);
  }

  /** If `columns` widths fit into the span, ceil(span / width) >= columns. */
  lemma CeilQuotientBound(span: nat, step: int, columns: nat)
    requires step > 0 && step * columns <= span
    ensures (span + step - 1) / step >= columns
  {
    var q := (span + step - 1) / step;
    var rem := (span + step - 1) % step;
    assert q * step + rem == span + step - 1 && 0 <= rem < step;
    assert (q + 1) * step == q * step + step;
    MulLe(q + 1, columns, step);
  }
}
