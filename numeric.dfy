/** Rounding of prices and rates, as Python's `round(x, 3)` does on exact values. */
module Numeric {

  /**
   * `x` rounded to the nearest multiple of 0.001, an exact half going to the
   * even neighbour. The result is within half a thousandth of `x` and lies on
   * the grid of thousandths.
   */
  function Round3(x: real): (r: real)
    ensures -0.0005 <= r - x <= 0.0005
    ensures (r * 1000.0).Floor as real == r * 1000.0
  {
    var y := x * 1000.0;
    var f := y.Floor;
    var frac := y - f as real;
    var n := if frac < 0.5 then f
             else if frac > 0.5 then f + 1
             else if f % 2 == 0 then f else f + 1;
    assert -0.5 <= n as real - y <= 0.5;
    var r := n as real / 1000.0;
    assert r * 1000.0 == n as real;
    r
  }
}
