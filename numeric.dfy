/** Python's numeric conversions on exact rationals: `round(x)`, `round(x, 1)`
    and `int(x)` of a float. */
module Numeric {

  /** Python's `round(x)`: the nearest integer, ties going to the even one. */
  function RoundHalfEven(x: real): (r: int)
    ensures r as real - 0.5 <= x <= r as real + 0.5
    ensures (x == r as real - 0.5 || x == r as real + 0.5) ==> r % 2 == 0
  {
    var f := x.Floor;
    var d := x - f as real;
    if d < 0.5 then f
    else if d > 0.5 then f + 1
    else if f % 2 == 0 then f
    else f + 1
  }

  /** Rounding never reverses the order of two values. */
  lemma RoundHalfEvenMonotone(x: real, y: real)
    requires x <= y
    ensures RoundHalfEven(x) <= RoundHalfEven(y)
  {
    var a, b := RoundHalfEven(x), RoundHalfEven(y);
    if a > b {
      // then a - 0.5 <= x <= y <= b + 0.5 <= a - 0.5, so x == y
      assert a as real - 0.5 <= b as real + 0.5;
      assert a == b + 1;
      assert x == y;
    }
  }

  /** Python's `round(x, 1)`: the nearest tenth, ties going to an even tenth. */
  function RoundTenths(x: real): (r: real)
    ensures r - 0.05 <= x <= r + 0.05
    ensures (r * 10.0).Floor as real == r * 10.0
    ensures (x == r - 0.05 || x == r + 0.05) ==> (r * 10.0).Floor % 2 == 0
  {
    RoundHalfEven(x * 10.0) as real / 10.0
  }

  lemma RoundTenthsMonotone(x: real, y: real)
    requires x <= y
    ensures RoundTenths(x) <= RoundTenths(y)
  {
    RoundHalfEvenMonotone(x * 10.0, y * 10.0);
  }

  /** Python's `int(x)` of a finite float: truncation toward zero. */
  function Trunc(x: real): (r: int)
    ensures x >= 0.0 ==> 0 <= r && r as real <= x < r as real + 1.0
    ensures x < 0.0 ==> r <= 0 && r as real - 1.0 < x <= r as real
  {
    if x >= 0.0 then x.Floor else -((-x).Floor)
  }
}
