/**
 * Exposure balance of a frame's luminance: a centring term for the mean, a
 * clipping term for the extreme histogram bins and a contrast band on the
 * standard deviation, summed and clamped to [0, 100]. The grey conversion is a
 * foreign call; the model starts from the grey values (0..255, one per pixel).
 */
module Brightness {
  import opened RealMath
  import Stats

  /** A non-empty list of 8-bit grey values. */
  predicate IsGray(g: seq<int>) {
    |g| > 0 && forall i :: 0 <= i < |g| ==> 0 <= g[i] <= 255
  }

  /** The mid-grey the mean is compared with, and the deviation that scores 0. */
  const Ideal: real := 127.0
  /** Bins [0, DarkEnd) count as crushed blacks. */
  const DarkEnd: nat := 10
  /** Bins [BrightStart, 256) count as clipped whites. */
  const BrightStart: nat := 246

  /** Number of pixels whose value lies in [lo, hi). */
  function CountInRange(g: seq<int>, lo: int, hi: int): (n: nat)
    ensures n <= |g|
    decreases |g|
  {
    if |g| == 0 then 0
    else (if lo <= g[0] < hi then 1 else 0) + CountInRange(g[1..], lo, hi)
  }

  /** The 256-bin intensity histogram. */
  function Histogram(g: seq<int>): (h: seq<nat>)
    ensures |h| == 256
  {
    seq(256, b => CountInRange(g, b, b + 1))
  }

  /** Sum of histogram bins [lo, hi). */
  function BinSum(h: seq<nat>, lo: nat, hi: nat): nat
    requires lo <= hi <= |h|
    decreases hi - lo
  {
    if lo == hi then 0 else BinSum(h, lo, hi - 1) + h[hi - 1]
  }

  lemma {:induction false} CountSplit(g: seq<int>, lo: int, mid: int, hi: int)
    requires lo <= mid <= hi
    ensures CountInRange(g, lo, hi) == CountInRange(g, lo, mid) + CountInRange(g, mid, hi)
    decreases |g|
  {
    if |g| > 0 {
      CountSplit(g[1..], lo, mid, hi);
    }
  }

  /** Summing histogram bins counts exactly the pixels whose value falls in those bins. */
  lemma {:induction false} HistogramCountsRange(g: seq<int>, lo: nat, hi: nat)
    requires lo <= hi <= 256
    ensures BinSum(Histogram(g), lo, hi) == CountInRange(g, lo, hi)
    decreases hi - lo
  {
    if lo < hi {
      HistogramCountsRange(g, lo, hi - 1);
      CountSplit(g, lo, hi - 1, hi);
      var h := Histogram(g);
      assert h[hi - 1] == CountInRange(g, hi - 1, hi);
      assert BinSum(h, lo, hi) == BinSum(h, lo, hi - 1) + h[hi - 1];
    } else {
      CountSplit(g, lo, lo, lo);
    }
  }

  /** Share of pixels in bins [lo, hi) of the normalised histogram. */
  function BinFraction(g: seq<int>, lo: nat, hi: nat): (f: real)
    requires IsGray(g) && lo <= hi <= 256
    ensures f == CountInRange(g, lo, hi) as real / |g| as real
    ensures 0.0 <= f <= 1.0
  {
    HistogramCountsRange(g, lo, hi);
    ShareInUnit(CountInRange(g, lo, hi), |g|);
    BinSum(Histogram(g), lo, hi) as real / |g| as real
  }

  /** Fraction of pixels in the dark bins [0, 10). */
  function DarkFraction(g: seq<int>): (f: real)
    requires IsGray(g)
    ensures f == CountInRange(g, 0, DarkEnd) as real / |g| as real
    ensures 0.0 <= f <= 1.0
  {
    BinFraction(g, 0, DarkEnd)
  }

  /** Fraction of pixels in the bright bins [246, 256). */
  function BrightFraction(g: seq<int>): (f: real)
    requires IsGray(g)
    ensures f == CountInRange(g, BrightStart, 256) as real / |g| as real
    ensures 0.0 <= f <= 1.0
  {
    BinFraction(g, BrightStart, 256)
  }

  function ToReals(g: seq<int>): (r: seq<real>)
    ensures |r| == |g| && forall i :: 0 <= i < |g| ==> r[i] == g[i] as real
  {
    seq(|g|, i requires 0 <= i < |g| => g[i] as real)
  }

  /** Mean luminance; it lies in [0, 255]. */
  function MeanBrightness(g: seq<int>): (m: real)
    requires IsGray(g)
    ensures 0.0 <= m <= 255.0
  {
    Stats.MeanBetween(ToReals(g), 0.0, 255.0);
    Stats.Mean(ToReals(g))
  }

  /** Population variance of the luminance, the square of numpy's `std`. */
  function VarianceBrightness(g: seq<int>): (v: real)
    requires IsGray(g)
    ensures v >= 0.0
  {
    Stats.Variance(ToReals(g))
  }

  /** Exposure centring, `(1 - |mean - 127| / 127) * 50`. */
  function CenteringScore(mean: real): (r: real)
    ensures 0.0 <= mean <= 255.0 ==> -50.0 / 127.0 <= r <= 50.0
    ensures r == 50.0 <==> mean == Ideal
    ensures r == 0.0 <==> (mean == 0.0 || mean == 254.0)
  {
    (1.0 - Abs(mean - Ideal) / Ideal) * 50.0
  }

  /** Clipping term, `max(0, 30 - 100 * (dark + bright))`. */
  function ClippingScore(dark: real, bright: real): (r: real)
    ensures r >= 0.0
    ensures dark + bright >= 0.0 ==> r <= 30.0
    ensures r == 0.0 <==> dark + bright >= 0.3
    ensures dark + bright == 0.0 ==> r == 30.0
  {
    Max(0.0, 30.0 - (dark + bright) * 100.0)
  }

  /** The contrast band as written, on the standard deviation sigma; ties go to the higher band. */
  function ContrastBand(sigma: real): real {
    if 40.0 <= sigma <= 80.0 then 20.0
    else if (30.0 <= sigma < 40.0) || (80.0 < sigma <= 100.0) then 15.0
    else if (20.0 <= sigma < 30.0) || (100.0 < sigma <= 120.0) then 10.0
    else 5.0
  }

  /** The same band stated on the variance against squared thresholds, so no square root is needed. */
  function ContrastScore(variance: real): (r: real)
    ensures 5.0 <= r <= 20.0
  {
    if 1600.0 <= variance <= 6400.0 then 20.0
    else if (900.0 <= variance < 1600.0) || (6400.0 < variance <= 10000.0) then 15.0
    else if (400.0 <= variance < 900.0) || (10000.0 < variance <= 14400.0) then 10.0
    else 5.0
  }

  /** Squaring preserves order on non-negative reals, in both directions. */
  lemma SquareOrder(a: real, b: real)
    requires 0.0 <= a && 0.0 <= b
    ensures a <= b <==> a * a <= b * b
    ensures a < b <==> a * a < b * b
  {
    if a < b {
      calc {
        a * a;
      <=
        a * b;
      <
        b * b;
      }
    } else if b < a {
      calc {
        b * b;
      <=
        b * a;
      <
        a * a;
      }
    }
  }

  /** For every sigma >= 0, the variance-based band equals the band `calculate_brightness_balance` computes on sigma. */
  lemma ContrastMatchesSigma(sigma: real, variance: real)
    requires sigma >= 0.0 && sigma * sigma == variance
    ensures ContrastScore(variance) == ContrastBand(sigma)
  {
    SquareOrder(sigma, 20.0);
    SquareOrder(sigma, 30.0);
    SquareOrder(sigma, 40.0);
    SquareOrder(sigma, 80.0);
    SquareOrder(sigma, 100.0);
    SquareOrder(sigma, 120.0);
  }

  /** `calculate_brightness_balance`: positive and at most 100, and the final clamp never changes the sum. */
  function BrightnessBalance(g: seq<int>): (r: real)
    requires IsGray(g)
    ensures 0.0 < r <= 100.0
    ensures r == CenteringScore(MeanBrightness(g))
               + ClippingScore(DarkFraction(g), BrightFraction(g))
               + ContrastScore(VarianceBrightness(g))
  {
    var total := CenteringScore(MeanBrightness(g))
               + ClippingScore(DarkFraction(g), BrightFraction(g))
               + ContrastScore(VarianceBrightness(g));
    Clamp(total, 0.0, 100.0)
  }

  /** The report of `get_brightness_stats`; `variance` stands in for `std`, its square root. */
  datatype BrightnessStats = BrightnessStats(
    mean: real, variance: real, min: int, max: int, darkPercent: real, brightPercent: real)

  function SeqMin(g: seq<int>): (m: int)
    requires |g| > 0
    ensures forall i :: 0 <= i < |g| ==> m <= g[i]
    ensures exists i :: 0 <= i < |g| && g[i] == m
    decreases |g|
  {
    if |g| == 1 then g[0]
    else var rest := SeqMin(g[1..]); if g[0] <= rest then g[0] else rest
  }

  function SeqMax(g: seq<int>): (m: int)
    requires |g| > 0
    ensures forall i :: 0 <= i < |g| ==> g[i] <= m
    ensures exists i :: 0 <= i < |g| && g[i] == m
    decreases |g|
  {
    if |g| == 1 then g[0]
    else var rest := SeqMax(g[1..]); if g[0] >= rest then g[0] else rest
  }

  /** `get_brightness_stats`: the extremes bracket the mean, and the percentages are the scorer's fractions times 100. */
  function GetBrightnessStats(g: seq<int>): (s: BrightnessStats)
    requires IsGray(g)
    ensures s.min as real <= s.mean <= s.max as real
    ensures 0 <= s.min <= s.max <= 255
    ensures s.mean == MeanBrightness(g) && s.variance == VarianceBrightness(g)
    ensures s.darkPercent == DarkFraction(g) * 100.0
    ensures s.brightPercent == BrightFraction(g) * 100.0
    ensures 0.0 <= s.darkPercent + s.brightPercent <= 100.0
  {
    var lo := SeqMin(g);
    var hi := SeqMax(g);
    MeanBetweenExtremes(g);
    ClippedShareAtMostOne(g);
    BrightnessStats(MeanBrightness(g), VarianceBrightness(g), lo, hi,
                    DarkFraction(g) * 100.0, BrightFraction(g) * 100.0)
  }

  lemma MeanBetweenExtremes(g: seq<int>)
    requires IsGray(g)
    ensures SeqMin(g) as real <= MeanBrightness(g) <= SeqMax(g) as real
  {
    var r := ToReals(g);
    forall i | 0 <= i < |r|
      ensures SeqMin(g) as real <= r[i] <= SeqMax(g) as real
    {
    }
    Stats.MeanBetween(r, SeqMin(g) as real, SeqMax(g) as real);
  }

  /** The dark and bright bins are disjoint, so their shares add up to at most the whole frame. */
  lemma ClippedShareAtMostOne(g: seq<int>)
    requires IsGray(g)
    ensures DarkFraction(g) + BrightFraction(g) <= 1.0
  {
    var dc := CountInRange(g, 0, DarkEnd);
    var bc := CountInRange(g, BrightStart, 256);
    assert dc + bc <= |g| by {
      CountSplit(g, 0, DarkEnd, BrightStart);
      CountSplit(g, 0, BrightStart, 256);
    }
    SharesAddUp(dc, bc, |g|);
  }

  lemma SharesAddUp(d: nat, b: nat, n: nat)
    requires 0 < n && d + b <= n
    ensures d as real / n as real + b as real / n as real <= 1.0
  {
    assert d as real / n as real + b as real / n as real == (d + b) as real / n as real;
  }

  /** A uniform mid-grey frame: full centring, no clipping, lowest contrast band: 50 + 30 + 5. */
  lemma UniformMidGrayScores85(g: seq<int>)
    requires |g| > 0 && forall i :: 0 <= i < |g| ==> g[i] == 127
    ensures BrightnessBalance(g) == 85.0
  {
    Stats.ConstantStats(ToReals(g), 127.0);
    assert CountInRange(g, 0, DarkEnd) == 0 by { NoneInRange(g, 127, 0, DarkEnd); }
    assert CountInRange(g, BrightStart, 256) == 0 by { NoneInRange(g, 127, BrightStart, 256); }
    assert CenteringScore(MeanBrightness(g)) == 50.0;
    assert ClippingScore(DarkFraction(g), BrightFraction(g)) == 30.0;
    assert ContrastScore(VarianceBrightness(g)) == 5.0;
  }

  lemma {:induction false} NoneInRange(g: seq<int>, v: int, lo: int, hi: int)
    requires forall i :: 0 <= i < |g| ==> g[i] == v
    requires !(lo <= v < hi)
    ensures CountInRange(g, lo, hi) == 0
    decreases |g|
  {
    if |g| > 0 {
      NoneInRange(g[1..], v, lo, hi);
    }
  }
}
