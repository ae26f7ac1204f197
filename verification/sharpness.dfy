/**
 * Focus measure: the variance of the Laplacian response of a frame's luminance,
 * divided by ten and capped at 100. The Laplacian itself is a foreign call; the
 * model starts from the response values it hands back.
 */
module Sharpness {
  import opened RealMath
  import Stats

  /** Default cut-off of `is_sharp`. */
  const DefaultThreshold: real := 30.0

  /** `min(100, variance / 10)`, the score for a given Laplacian variance. */
  function ScoreOfVariance(variance: real): (r: real)
    ensures r <= 100.0
    ensures r == 100.0 <==> variance >= 1000.0
    ensures variance < 1000.0 ==> r * 10.0 == variance
    ensures variance >= 0.0 ==> r >= 0.0
  {
    Min(100.0, variance / 10.0)
  }

  /** Sharpness score of a frame whose Laplacian response is `response`. */
  function CalculateSharpness(response: seq<real>): (r: real)
    requires |response| > 0
    ensures 0.0 <= r <= 100.0
  {
    ScoreOfVariance(Stats.Variance(response))
  }

  /** `is_sharp`: the frame is sharp when its score reaches the threshold. */
  function IsSharp(response: seq<real>, threshold: real): bool
    requires |response| > 0
  {
    CalculateSharpness(response) >= threshold
  }

  /** More Laplacian variance never lowers the score. */
  lemma ScoreMonotone(v1: real, v2: real)
    requires v1 <= v2
    ensures ScoreOfVariance(v1) <= ScoreOfVariance(v2)
  {
  }

  /** A flat response (no detail at all) scores exactly 0. */
  lemma ConstantResponseScoresZero(response: seq<real>, c: real)
    requires |response| > 0
    requires forall i :: 0 <= i < |response| ==> response[i] == c
    ensures CalculateSharpness(response) == 0.0
  {
    Stats.ConstantStats(response, c);
  }

  /** For any threshold up to 100, a frame is sharp exactly when its variance is at least ten times it. */
  lemma IsSharpIffVariance(response: seq<real>, threshold: real)
    requires |response| > 0
    requires threshold <= 100.0
    ensures IsSharp(response, threshold) <==> Stats.Variance(response) >= 10.0 * threshold
  {
  }

  /** With the default threshold, sharp means a Laplacian variance of at least 300. */
  lemma DefaultIsSharp(response: seq<real>)
    requires |response| > 0
    ensures IsSharp(response, DefaultThreshold) <==> Stats.Variance(response) >= 300.0
  {
    IsSharpIffVariance(response, DefaultThreshold);
  }

  /** A threshold above 100 can never be met. */
  lemma UnreachableThreshold(response: seq<real>, threshold: real)
    requires |response| > 0
    requires threshold > 100.0
    ensures !IsSharp(response, threshold)
  {
  }
}
