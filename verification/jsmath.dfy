/** JavaScript's `Math.round` and `Math.floor` applied to a ratio of whole
    numbers, computed exactly. Where the pages round a floating-point
    product such as `(a / b) * 100`, this is the exact value that product
    approximates; the two can differ at a half. */
module JsMath {

  /** `Math.round(p / q)` for a positive `q`, on the exact ratio: the
      nearest whole number, with halves rounded up. */
  function RoundRatio(p: int, q: int): (r: int)
    requires q > 0
    ensures 2 * q * r <= 2 * p + q < 2 * q * (r + 1)
  {
    var n := 2 * p + q;
    var d := 2 * q;
    assert n == d * (n / d) + n % d && 0 <= n % d < d;
    n / d
  }

  /** The rounding is unique: any `r` meeting the bounds is the result. */
  lemma RoundRatioUnique(p: int, q: int, r: int)
    requires q > 0
    requires 2 * q * r <= 2 * p + q < 2 * q * (r + 1)
    ensures RoundRatio(p, q) == r
  {
    var k := RoundRatio(p, q);
    if k < r {
      assert 2 * q * (k + 1) <= 2 * q * r by { MulMonotone(2 * q, k + 1, r); }
    } else if k > r {
      assert 2 * q * (r + 1) <= 2 * q * k by { MulMonotone(2 * q, r + 1, k); }
    }
  }

  lemma MulMonotone(c: int, a: int, b: int)
    requires c >= 0 && a <= b
    ensures c * a <= c * b
  {
  }

  /** Rounding a ratio no greater than one, scaled by `scale`, stays within
      [0, scale]. */
  lemma RoundRatioScaledBounds(part: int, whole: int, scale: int)
    requires 0 <= part <= whole && whole > 0 && scale >= 0
    ensures 0 <= RoundRatio(scale * part, whole) <= scale
  {
    var r := RoundRatio(scale * part, whole);
    MulMonotone(scale, part, whole);
    MulMonotone(scale, 0, part);
    if r > scale {
      MulMonotone(2 * whole, scale + 1, r);
    }
    if r < 0 {
      MulMonotone(2 * whole, r + 1, 0);
    }
  }

  /** Rounding a ratio that lies in [0, hi] gives a whole number in
      [0, hi]. */
  lemma RoundRatioWithin(p: int, q: int, hi: int)
    requires q > 0 && 0 <= p <= hi * q
    ensures 0 <= RoundRatio(p, q) <= hi
  {
    var r := RoundRatio(p, q);
    if r > hi {
      MulMonotone(2 * q, hi + 1, r);
    }
    if r < 0 {
      MulMonotone(2 * q, r + 1, 0);
    }
  }

  /** `Math.floor(a / b)` for a non-negative `a` and positive `b`. */
  function FloorDiv(a: nat, b: int): (r: nat)
    requires b > 0
    ensures b * r <= a < b * (r + 1)
  {
    assert a == b * (a / b) + a % b && 0 <= a % b < b;
    a / b
  }
}
