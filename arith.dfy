/** Multiplication facts the solver does not find on its own. */
module Arith {

  /** Multiplying by a non-negative factor keeps the order. */
  lemma MulLe(a: int, b: int, c: int)
    ensures a <= b && c >= 0 ==> a * c <= b * c
  {
    assert b * c - a * c == (b - a) * c;
  }
}
