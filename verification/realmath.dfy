/** Real-number helpers matching the Python built-ins the pipeline uses on floats. */
module RealMath {

  /** Python's `min(a, b)`. */
  function Min(a: real, b: real): real {
    if b < a then b else a
  }

  /** Python's `max(a, b)`. */
  function Max(a: real, b: real): real {
    if b > a then b else a
  }

  function Abs(x: real): real {
    if x < 0.0 then -x else x
  }

  /** `min(hi, max(lo, x))`, the closing clamp of every metric. */
  function Clamp(x: real, lo: real, hi: real): (r: real)
    requires lo <= hi
    ensures lo <= r <= hi
    ensures lo <= x <= hi ==> r == x
    ensures x < lo ==> r == lo
    ensures hi < x ==> r == hi
  {
    Min(hi, Max(lo, x))
  }

  /** Python's `int(x)` on a float: truncation toward zero, not rounding and not flooring. */
  function Trunc(x: real): (n: int)
    ensures 0.0 <= x ==> 0 <= n && n as real <= x < n as real + 1.0
    ensures x < 0.0 ==> n <= 0 && n as real - 1.0 < x <= n as real
  {
    if x >= 0.0 then x.Floor else -((-x).Floor)
  }

  /** Comparing a quotient with `k` is comparing the numerator with `k` times a positive divisor. */
  lemma QuotientAbove(x: real, t: real, k: real)
    requires t > 0.0
    ensures x / t > k <==> x > k * t
  {
    var q := x / t;
    assert q * t == x;
    if q > k {
      assert (q - k) * t > 0.0;
    } else {
      assert (k - q) * t >= 0.0;
    }
  }

  /** A part over a non-empty whole is a share in [0, 1]. */
  lemma ShareInUnit(part: nat, whole: nat)
    requires 0 < whole && part <= whole
    ensures 0.0 <= part as real / whole as real <= 1.0
  {
    QuotientAbove(part as real, whole as real, 1.0);
    QuotientAbove(part as real, whole as real, 0.0);
  }

  /** Dividing by a positive number keeps order. */
  lemma QuotientMonotone(x: real, y: real, t: real)
    requires t > 0.0 && x <= y
    ensures x / t <= y / t
  {
    assert (y / t) * t == y;
    QuotientAbove(x, t, y / t);
  }

  /** Truncation is not rounding: 29.97 native fps over a 1 fps target gives a stride of 29. */
  lemma TruncDropsFraction()
    ensures Trunc(29.97) == 29 && Trunc(-2.5) == -2
  {
  }
}
