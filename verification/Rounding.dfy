/** Conversions of Python from numbers with a fraction to whole ones. */
module Rounding {
  /** Python's `round`: to the nearest integer, ties to the even one. */
  function Round(x: real): int {
    var f := x.Floor;
    var d := x - f as real;
    if d < 0.5 then f else if d > 0.5 then f + 1 else if f % 2 == 0 then f else f + 1
  }

  /** Python's `int`: towards zero. */
  function Truncate(x: real): int {
    if x >= 0.0 then x.Floor else -((-x).Floor)
  }

  lemma RoundOfInt(n: int)
    ensures Round(n as real) == n && Truncate(n as real) == n
  {
    if n < 0 {
      assert -(n as real) == (-n) as real;
    }
  }
}
