/** Python's built-in `round` on a number, returning an integer.

    Python rounds half-way cases to the nearest EVEN integer ("banker's
    rounding"): round(0.5) == 0, round(1.5) == 2, round(-0.5) == 0.
    Frames are computed from exact reals here; the add-on's floating-point
    error is not modelled.
 */
module Rounding {

  /** Round `x` to the nearest integer, ties to even. */
  function Round(x: real): (r: int)
    ensures (r as real) - 0.5 <= x <= (r as real) + 0.5
    ensures x == (r as real) - 0.5 || x == (r as real) + 0.5 ==> r % 2 == 0
  {
    var f := x.Floor;
    var d := x - f as real;
    if d < 0.5 then f
    else if d > 0.5 then f + 1
    else if f % 2 == 0 then f
    else f + 1
  }

  /** Rounding never reverses the order of two values. */
  lemma RoundMonotone(x: real, y: real)
    requires x <= y
    ensures Round(x) <= Round(y)
  {
    var fx, fy := x.Floor, y.Floor;
    if fx < fy {
      assert Round(x) <= fx + 1 <= fy <= Round(y);
    } else {
      assert fx == fy;
      assert x - fx as real <= y - fy as real;
    }
  }

  /** An integer rounds to itself. */
  lemma RoundOfInt(n: int)
    ensures Round(n as real) == n
  {
    assert (n as real).Floor == n;
  }

  /** Adding an integer moves the rounded value by that integer, give or take one. */
  lemma RoundShiftNear(x: real, k: int)
    ensures Round(x) + k - 1 <= Round(x + k as real) <= Round(x) + k + 1
  {
  }
}
