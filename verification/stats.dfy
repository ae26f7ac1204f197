/** Sums, means and population variances of finite samples (numpy's mean, var and std with ddof = 0). */
module Stats {

  function Sum(xs: seq<real>): real
    decreases |xs|
  {
    if |xs| == 0 then 0.0 else xs[0] + Sum(xs[1..])
  }

  function Mean(xs: seq<real>): real
    requires |xs| > 0
  {
    Sum(xs) / |xs| as real
  }

  function Square(d: real): (r: real)
    ensures r >= 0.0
  {
    if d < 0.0 then (-d) * (-d) else d * d
  }

  /** Sum of squared deviations from `m`. */
  function SquaredDeviation(xs: seq<real>, m: real): (r: real)
    ensures r >= 0.0
    decreases |xs|
  {
    if |xs| == 0 then 0.0
    else Square(xs[0] - m) + SquaredDeviation(xs[1..], m)
  }

  /** Population variance; the standard deviation numpy reports is its square root. */
  function Variance(xs: seq<real>): (v: real)
    requires |xs| > 0
    ensures v >= 0.0
  {
    SquaredDeviation(xs, Mean(xs)) / |xs| as real
  }

  /** Every sample lies in [lo, hi], so the sum lies between |xs|*lo and |xs|*hi. */
  lemma {:induction false} SumBounds(xs: seq<real>, lo: real, hi: real)
    requires forall i :: 0 <= i < |xs| ==> lo <= xs[i] <= hi
    ensures |xs| as real * lo <= Sum(xs) <= |xs| as real * hi
    decreases |xs|
  {
    if |xs| > 0 {
      SumBounds(xs[1..], lo, hi);
      assert (|xs| - 1) as real * lo + lo == |xs| as real * lo;
      assert (|xs| - 1) as real * hi + hi == |xs| as real * hi;
    }
  }

  /** The mean of a sample lies between any lower and upper bound of its values. */
  lemma MeanBetween(xs: seq<real>, lo: real, hi: real)
    requires |xs| > 0
    requires forall i :: 0 <= i < |xs| ==> lo <= xs[i] <= hi
    ensures lo <= Mean(xs) <= hi
  {
    SumBounds(xs, lo, hi);
    var n := |xs| as real;
    assert n * lo <= Sum(xs) <= n * hi;
    assert lo == (n * lo) / n;
    assert hi == (n * hi) / n;
  }

  /** A constant sample sums to its length times the constant. */
  lemma {:induction false} ConstantSum(xs: seq<real>, c: real)
    requires forall i :: 0 <= i < |xs| ==> xs[i] == c
    ensures Sum(xs) == |xs| as real * c
    decreases |xs|
  {
    if |xs| > 0 {
      ConstantSum(xs[1..], c);
    }
  }

  /** A constant sample has no squared deviation from that constant. */
  lemma {:induction false} ConstantDeviation(xs: seq<real>, c: real)
    requires forall i :: 0 <= i < |xs| ==> xs[i] == c
    ensures SquaredDeviation(xs, c) == 0.0
    decreases |xs|
  {
    if |xs| > 0 {
      ConstantDeviation(xs[1..], c);
    }
  }

  /** A constant sample has that constant as its mean and zero variance. */
  lemma ConstantStats(xs: seq<real>, c: real)
    requires |xs| > 0
    requires forall i :: 0 <= i < |xs| ==> xs[i] == c
    ensures Mean(xs) == c
    ensures Variance(xs) == 0.0
  {
    ConstantSum(xs, c);
    ConstantDeviation(xs, c);
  }
}
