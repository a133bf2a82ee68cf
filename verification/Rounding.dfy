/** The rounding helpers of `src/common/utils.h` and the eight-decimal floor used for prices. */
module Rounding {
  import opened Exchange

  const SCALE: real := 100000000.0
  const PRECISION: real := 0.00000001

  /** Conversion of a real to an integer the way a C++ cast does it: towards zero. */
  function Truncate(x: real): (n: int)
    ensures x >= 0.0 ==> n as real <= x < n as real + 1.0
    ensures x < 0.0 ==> n as real - 1.0 < x <= n as real
  {
    if x >= 0.0 then x.Floor else -((-x).Floor)
  }

  /** `r` is a whole number of steps. */
  predicate IsMultiple(step: Positive, r: real) {
    (r / step).Floor as real * step == r
  }

  lemma WholeSteps(step: Positive, n: int)
    ensures (n as real * step) / step == n as real
    ensures IsMultiple(step, n as real * step)
  {}

  lemma ProductSign(d: real, step: Positive)
    ensures d >= 0.0 ==> d * step >= 0.0
    ensures d > 0.0 ==> d * step > 0.0
  {}

  /** A quotient within one of `a` brackets the dividend by whole steps. */
  lemma Bracket(step: Positive, a: real, q: real, x: real)
    requires q * step == x
    ensures a <= q ==> a * step <= x
    ensures q <= a ==> x <= a * step
    ensures q < a + 1.0 ==> x < a * step + step
    ensures a - 1.0 < q ==> a * step - step < x
  {
    ProductSign(q - a, step);
    ProductSign(a - q, step);
    var up, down := a + 1.0 - q, q - a + 1.0;
    ProductSign(up, step);
    ProductSign(down, step);
    assert up * step == a * step + step - x;
    assert down * step == x - a * step + step;
  }

  /** Whole steps towards zero: prices, sell volumes, and the min-notional fix-up. */
  function RoundTruncate(step: Positive, x: real): (r: real)
    ensures IsMultiple(step, r)
    ensures x >= 0.0 ==> 0.0 <= r <= x < r + step
    ensures x < 0.0 ==> r - step < x <= r <= 0.0
  {
    var n := Truncate((x * SCALE) / (step * SCALE));
    assert (x * SCALE) / (step * SCALE) == x / step;
    WholeSteps(step, n);
    if x >= 0.0 then
      assert x / step >= 0.0;
      Bracket(step, n as real, x / step, x);
      n as real * step
    else
      assert x / step < 0.0;
      Bracket(step, n as real, x / step, x);
      n as real * step
  }

  /** Whole steps upwards: buy volumes. */
  function RoundCeil(step: Positive, x: real): (r: real)
    ensures IsMultiple(step, r)
    ensures r - step < x <= r
  {
    var n := -((-(x / step)).Floor);
    WholeSteps(step, n);
    Bracket(step, n as real, x / step, x);
    n as real * step
  }

  /** Eight decimals, downwards. */
  function Floor8(x: real): (r: real)
    ensures r <= x < r + PRECISION
    ensures x >= 0.0 ==> r >= 0.0
  {
    (x * SCALE).Floor as real * PRECISION
  }

  /** It is the largest value with eight decimals that is not above. */
  lemma Floor8IsLargest(x: real)
    ensures IsMultiple(0.00000001, Floor8(x)) && Floor8(x) <= x < Floor8(x) + 0.00000001
  {
    WholeSteps(0.00000001, (x * SCALE).Floor);
  }

  lemma Floor8Monotone(x: real, y: real)
    requires x <= y
    ensures Floor8(x) <= Floor8(y)
  {
    assert (x * SCALE).Floor <= (y * SCALE).Floor;
  }

  /** Different multiples are at least a step apart. */
  lemma MultiplesApart(step: Positive, a: real, b: real)
    requires IsMultiple(step, a) && IsMultiple(step, b) && a < b
    ensures a + step <= b
  {
    var m, n := (a / step).Floor, (b / step).Floor;
    Bracket(step, n as real, m as real, a);
    assert m + 1 <= n;
    Bracket(step, m as real + 1.0, n as real, b);
    assert (m as real + 1.0) * step == m as real * step + step;
  }

  /** No multiple of the step lies strictly between a value and its truncation. */
  lemma LargestMultiple(step: Positive, m: real, x: real)
    requires IsMultiple(step, m) && 0.0 <= m <= x
    ensures m <= RoundTruncate(step, x)
  {
    hide IsMultiple;
    var r := RoundTruncate(step, x);
    if r < m {
      MultiplesApart(step, r, m);
    }
  }

  /** A whole number of steps is kept by both roundings. */
  lemma WholeIsKept(step: Positive, x: real)
    requires IsMultiple(step, x) && x >= 0.0
    ensures RoundTruncate(step, x) == x == RoundCeil(step, x)
  {
    hide IsMultiple, RoundTruncate, RoundCeil;
    LargestMultiple(step, x, x);
    if x < RoundCeil(step, x) {
      MultiplesApart(step, x, RoundCeil(step, x));
    }
  }
}
