/** Small numeric helpers shared by the audio and animation models:
    JavaScript's `Math.min`/`Math.max` clamps, `Math.round`, `Math.pow`
    with a natural exponent, and integer-valued `Math.floor`. */
module Numeric {

  function Min(a: real, b: real): real { if a <= b then a else b }

  function Max(a: real, b: real): real { if a >= b then a else b }

  /** `Math.max(lo, Math.min(hi, x))` */
  function Clamp(lo: real, hi: real, x: real): (r: real)
    requires lo <= hi
    ensures lo <= r <= hi
    ensures lo <= x <= hi ==> r == x
    ensures x < lo ==> r == lo
    ensures x > hi ==> r == hi
  {
    Max(lo, Min(hi, x))
  }

  /** `Math.round`: halves go towards positive infinity. */
  function Round(x: real): (r: int)
    ensures x - 0.5 < r as real <= x + 0.5
  {
    (x + 0.5).Floor
  }

  /** `Math.pow(x, k)` for a natural exponent, without rounding. */
  function Pow(x: real, k: nat): real {
    if k == 0 then 1.0 else x * Pow(x, k - 1)
  }

  lemma {:induction false} PowBounds(x: real, k: nat)
    requires 0.0 <= x <= 1.0
    ensures 0.0 <= Pow(x, k) <= 1.0
  {
    if k > 0 {
      PowBounds(x, k - 1);
      MulBounds(x, Pow(x, k - 1));
    }
  }

  /** The product of two values of [0, 1] lies in [0, 1] and below each factor. */
  lemma MulBounds(a: real, b: real)
    requires 0.0 <= a <= 1.0 && 0.0 <= b <= 1.0
    ensures 0.0 <= a * b <= a && a * b <= b
  {
  }

  /** Multiplying by a non-negative factor keeps an order. */
  lemma MulMono(c: real, x: real, y: real)
    requires 0.0 <= c && x <= y
    ensures c * x <= c * y
  {
  }

  lemma MulNonneg(a: real, b: real)
    requires 0.0 <= a && 0.0 <= b
    ensures 0.0 <= a * b
  {
  }

  lemma MulPos(a: real, b: real)
    requires 0.0 < a && 0.0 < b
    ensures 0.0 < a * b
  {
  }

  /** Left-to-right sum of a sequence of reals. */
  function SumR(xs: seq<real>): real {
    if |xs| == 0 then 0.0 else SumR(xs[..|xs| - 1]) + xs[|xs| - 1]
  }

  /** A positive factor of at least one does not shrink a positive integer. */
  lemma MulAtLeast(k: int, d: int)
    requires k >= 1 && d > 0
    ensures k * d >= d
  {
    assert k * d == (k - 1) * d + d;
  }

  /** Euclidean remainders are unique: any decomposition `x == q * d + r`
      with `0 <= r < d` names the remainder. */
  lemma ModUnique(x: int, d: int, q: int, r: int)
    requires d > 0 && 0 <= r < d && x == q * d + r
    ensures x % d == r && x / d == q
  {
    var q0, r0 := x / d, x % d;
    assert x == q0 * d + r0;
    assert (q - q0) * d == r0 - r;
    if q > q0 { MulAtLeast(q - q0, d); }
    else if q < q0 { MulAtLeast(q0 - q, d); }
  }

  /** JavaScript's `%`: the remainder takes the sign of the dividend. */
  function JsRem(a: int, d: int): (r: int)
    requires d > 0
    ensures a >= 0 ==> 0 <= r < d
    ensures a < 0 ==> -r < d && r <= 0
  {
    if a >= 0 then a % d else -((-a) % d)
  }

  /** The truncating remainder is odd in the dividend and leaves a whole
      number of divisors behind. */
  lemma JsRemSpec(a: int, d: int)
    requires d > 0
    ensures JsRem(-a, d) == -JsRem(a, d)
    ensures (a - JsRem(a, d)) % d == 0
  {
    if a > 0 {
      assert JsRem(-a, d) == -(a % d);
    } else if a < 0 {
      assert JsRem(a, d) == -((-a) % d);
    } else {
      assert 0 % d == 0;
    }
    JsRemMultiple(a, d);
  }

  lemma JsRemMultiple(a: int, d: int)
    requires d > 0
    ensures (a - JsRem(a, d)) % d == 0
  {
    if a >= 0 {
      RemainderLeavesMultiple(a, d);
    } else {
      var b := -a;
      var x := b - b % d;
      RemainderLeavesMultiple(b, d);
      NegatedMultiple(x, d);
      assert a - JsRem(a, d) == -x;
    }
  }

  lemma RemainderLeavesMultiple(b: int, d: int)
    requires b >= 0 && d > 0
    ensures (b - b % d) % d == 0
  {
    assert b == (b / d) * d + b % d;
    ModUnique(b - b % d, d, b / d, 0);
  }

  lemma NegatedMultiple(x: int, d: int)
    requires d > 0 && x % d == 0
    ensures (-x) % d == 0
  {
    var q := x / d;
    assert x == q * d;
    assert -x == (-q) * d;
    ModUnique(-x, d, -q, 0);
  }
}
