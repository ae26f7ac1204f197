/**
 * The pure decisions of the web front end: normalising the four weight
 * sliders, the progress-bar fraction, the export format, the download and
 * metadata file names, the frame estimate, and the analysis run that chains
 * frame extraction into best-frame selection.
 */
module App {
  import opened Errors
  import opened RealMath
  import opened Text
  import opened AestheticScorer
  import FrameExtractor

  /** The uniform fallback when every slider is at 0. */
  const UniformWeight: real := 0.25

  /** Each slider's share of the slider total, or 0.25 each when the total is not positive. */
  function NormaliseWeights(sliders: Weights): (w: Weights)
    ensures WeightTotal(w) == 1.0
    ensures WeightTotal(sliders) > 0.0 ==>
      && w.sharpness * WeightTotal(sliders) == sliders.sharpness
      && w.faceClarity * WeightTotal(sliders) == sliders.faceClarity
      && w.brightness * WeightTotal(sliders) == sliders.brightness
      && w.composition * WeightTotal(sliders) == sliders.composition
    ensures WeightTotal(sliders) <= 0.0 ==>
      w == Weights(UniformWeight, UniformWeight, UniformWeight, UniformWeight)
  {
    var total := WeightTotal(sliders);
    if total > 0.0 then
      var w := Weights(sliders.sharpness / total, sliders.faceClarity / total,
                       sliders.brightness / total, sliders.composition / total);
      SharesOfTotal(sliders, total);
      w
    else
      Weights(UniformWeight, UniformWeight, UniformWeight, UniformWeight)
  }

  lemma SharesOfTotal(sliders: Weights, total: real)
    requires total == WeightTotal(sliders) && total > 0.0
    ensures sliders.sharpness / total + sliders.faceClarity / total
            + sliders.brightness / total + sliders.composition / total == 1.0
  {
    calc {
      sliders.sharpness / total + sliders.faceClarity / total
        + sliders.brightness / total + sliders.composition / total;
      (sliders.sharpness + sliders.faceClarity + sliders.brightness + sliders.composition) / total;
      total / total;
      1.0;
    }
  }

  /** A slider value in the UI's range [0, 1]. */
  predicate InSliderRange(x: real) {
    0.0 <= x <= 1.0
  }

  predicate SlidersInRange(s: Weights) {
    InSliderRange(s.sharpness) && InSliderRange(s.faceClarity)
    && InSliderRange(s.brightness) && InSliderRange(s.composition)
  }

  /** Sliders in [0, 1] normalise to convex weights, each in [0, 1]. */
  lemma SlidersGiveConvexWeights(sliders: Weights)
    requires SlidersInRange(sliders)
    ensures IsConvex(NormaliseWeights(sliders))
    ensures SlidersInRange(NormaliseWeights(sliders))
  {
    var total := WeightTotal(sliders);
    if total > 0.0 {
      var w := NormaliseWeights(sliders);
      ShareInUnitReal(sliders.sharpness, total);
      ShareInUnitReal(sliders.faceClarity, total);
      ShareInUnitReal(sliders.brightness, total);
      ShareInUnitReal(sliders.composition, total);
    }
  }

  /** A non-negative part of a positive total, as a share, lies in [0, 1]. */
  lemma ShareInUnitReal(part: real, total: real)
    requires 0.0 <= part <= total && total > 0.0
    ensures 0.0 <= part / total <= 1.0
  {
    QuotientAbove(part, total, 1.0);
    QuotientAbove(part, total, 0.0);
  }

  /** Each normalised weight is its slider divided by the slider total. */
  lemma NormalisedWeightOf(sliders: Weights, k: Metric)
    requires WeightTotal(sliders) > 0.0
    ensures WeightOf(NormaliseWeights(sliders), k) == WeightOf(sliders, k) / WeightTotal(sliders)
  {
  }

  /** Normalising keeps the sliders' pairwise ratios. */
  lemma NormalisingKeepsRatios(sliders: Weights, a: Metric, b: Metric)
    requires WeightTotal(sliders) > 0.0
    ensures WeightOf(NormaliseWeights(sliders), a) * WeightOf(sliders, b)
         == WeightOf(NormaliseWeights(sliders), b) * WeightOf(sliders, a)
  {
    NormalisedWeightOf(sliders, a);
    NormalisedWeightOf(sliders, b);
    CrossRatio(WeightOf(sliders, a), WeightOf(sliders, b), WeightTotal(sliders));
  }

  lemma CrossRatio(x: real, y: real, t: real)
    requires t > 0.0
    ensures (x / t) * y == (y / t) * x
  {
    assert (x / t) * y == (x * y) / t;
    assert (y / t) * x == (y * x) / t;
  }

  /** With sliders in [0, 1] and sub-scores in [0, 100], the overall score is in [0, 100]. */
  lemma NormalisedOverallInRange(sliders: Weights, s: ScoreBreakdown)
    requires SlidersInRange(sliders) && SubScoresInRange(s)
    ensures 0.0 <= Overall(NormaliseWeights(sliders), s) <= 100.0
  {
    SlidersGiveConvexWeights(sliders);
    ConvexOverallInRange(NormaliseWeights(sliders), s);
  }

  /** `min(current / total, 1.0)`; a zero total raises, so it is excluded. */
  function ProgressFraction(current: int, total: int): (f: real)
    requires total != 0
    ensures f <= 1.0
    ensures total > 0 && current >= 0 ==> 0.0 <= f
    ensures total > 0 ==> (f == 1.0 <==> current >= total)
  {
    QuotientFacts(current, total);
    Min(current as real / total as real, 1.0)
  }

  lemma QuotientFacts(current: int, total: int)
    requires total != 0
    ensures total > 0 ==>
      && (current as real / total as real >= 1.0 <==> current >= total)
      && (current >= 0 ==> current as real / total as real >= 0.0)
  {
    if total > 0 {
      var q := current as real / total as real;
      QuotientAbove(current as real, total as real, 0.0);
      QuotientAbove(current as real, total as real, 1.0);
      if q == 1.0 {
        assert q * total as real == current as real;
      }
    }
  }

  /** Along a scan the bar only moves forward, stays in (0, 1], and is full after the last frame. */
  lemma ProgressAlongScan(n: nat)
    requires n > 0
    ensures var calls := ProgressCalls(n, n);
      && (forall i :: 0 <= i < n ==> 0.0 < ProgressFraction(calls[i].0, calls[i].1) <= 1.0)
      && (forall i, j :: 0 <= i < j < n ==>
            ProgressFraction(calls[i].0, calls[i].1) < ProgressFraction(calls[j].0, calls[j].1))
      && ProgressFraction(calls[n - 1].0, calls[n - 1].1) == 1.0
  {
    var calls := ProgressCalls(n, n);
    forall i | 0 <= i < n
      ensures 0.0 < ProgressFraction(calls[i].0, calls[i].1) <= 1.0
    {
      QuotientAbove((i + 1) as real, n as real, 0.0);
    }
    forall i, j | 0 <= i < j < n
      ensures ProgressFraction(calls[i].0, calls[i].1) < ProgressFraction(calls[j].0, calls[j].1)
    {
      FrameExtractor.QuotientIncreases((i + 1) as real, (j + 1) as real, n as real);
      QuotientAbove((j + 1) as real, n as real, 1.0);
    }
  }

  /** The export format picked in the UI. */
  datatype Export = Export(extension: string, mime: string)

  /** `"PNG"` exports PNG; any other choice exports JPEG. */
  function ExportChoice(format: string): (e: Export)
    ensures format == "PNG" ==> e == Export("png", "image/png")
    ensures format != "PNG" ==> e == Export("jpg", "image/jpeg")
  {
    if format == "PNG" then Export("png", "image/png") else Export("jpg", "image/jpeg")
  }

  /** The part of the download name before the extension: `<base>_thumbnail_<seconds>s`. */
  function ThumbnailStem(videoName: string, bestTimestamp: real): (stem: string)
    ensures |stem| > 0 && stem[|stem| - 1] == 's'
  {
    SplitExt(videoName).0 + "_thumbnail_" + IntToString(Trunc(bestTimestamp)) + "s"
  }

  /** `f"{base}_thumbnail_{int(best_ts)}s.{ext}"` with `base` the video name without its extension. */
  function DownloadName(videoName: string, bestTimestamp: real, format: string): string {
    ThumbnailStem(videoName, bestTimestamp) + "." + ExportChoice(format).extension
  }

  /**
   * The download name splits back into its stem and the chosen extension,
   * and the stem starts with the video's base name and records the whole
   * seconds of the timestamp.
   */
  lemma DownloadNameSplits(videoName: string, bestTimestamp: real, format: string)
    ensures var (root, ext) := SplitExt(DownloadName(videoName, bestTimestamp, format));
      && root == ThumbnailStem(videoName, bestTimestamp)
      && ext == "." + ExportChoice(format).extension
      && root == SplitExt(videoName).0 + "_thumbnail_" + IntToString(Trunc(bestTimestamp)) + "s"
    ensures var ext := SplitExt(DownloadName(videoName, bestTimestamp, format)).1;
      (ext == ".png" <==> format == "PNG")
  {
    var e := ExportChoice(format).extension;
    assert e == "png" || e == "jpg";
    SplitExtOfJoined(ThumbnailStem(videoName, bestTimestamp), e);
  }

  /** `f"{base_name}_metadata.txt"`, written next to the thumbnail. */
  function MetadataName(videoName: string): string {
    SplitExt(videoName).0 + "_metadata.txt"
  }

  /** The thumbnail and its metadata file start with the same base name. */
  lemma NamesShareBase(videoName: string, bestTimestamp: real, format: string)
    ensures var base := SplitExt(videoName).0;
      && DownloadName(videoName, bestTimestamp, format)[..|base|] == base
      && MetadataName(videoName)[..|base|] == base
  {
  }

  /** `int(duration * fps_sampling)`: the estimate shown before analysis. */
  function EstimatedFrames(duration: real, samplingFps: real): (n: int)
    ensures duration * samplingFps >= 0.0 ==> 0 <= n && n as real <= duration * samplingFps < n as real + 1.0
  {
    Trunc(duration * samplingFps)
  }

  /** The sampling slider runs from 0.1 to 2.0, so extraction never divides by a zero rate. */
  lemma SliderRateNeverZero<F>(src: FrameExtractor.VideoSource<F>, samplingFps: real)
    requires 0.1 <= samplingFps <= 2.0
    ensures FrameExtractor.ExtractFrames(src, samplingFps) != Err(ZeroTargetRate)
  {
  }

  /** Samples as the (frame, timestamp) pairs the scorer takes. */
  function AsPairs<F>(samples: seq<FrameExtractor.Sample<F>>): (pairs: seq<(F, real)>)
    ensures |pairs| == |samples|
    ensures forall i :: 0 <= i < |samples| ==> pairs[i] == (samples[i].frame, samples[i].timestamp)
  {
    seq(|samples|, i requires 0 <= i < |samples| => (samples[i].frame, samples[i].timestamp))
  }

  /** The "Find Best Thumbnail" action: extract at the sampling rate, then select with the normalised weights. */
  function Analyse<F>(m: Metrics<F>, src: FrameExtractor.VideoSource<F>, samplingFps: real, sliders: Weights)
    : (r: Result<Selection<F>>)
    ensures FrameExtractor.ExtractFrames(src, samplingFps).Err? ==>
      r == Err(FrameExtractor.ExtractFrames(src, samplingFps).error)
    ensures r.Ok? ==> FrameExtractor.ExtractFrames(src, samplingFps).Ok?
    ensures FrameExtractor.ExtractFrames(src, samplingFps).Ok? ==> r.Ok?
  {
    match FrameExtractor.ExtractFrames(src, samplingFps)
    case Err(e) => Err(e)
    case Ok(samples) => FindBestFrame(m, AsPairs(samples), Some(NormaliseWeights(sliders)))
  }

  /**
   * End to end, with the model's metrics and sliders in [0, 1]: a successful
   * analysis returns one of the extracted samples together with its score
   * breakdown, whose overall score is in [0, 100] and is the highest of all.
   */
  lemma AnalysisPicksBestSample<F>(v: Vision<F>, src: FrameExtractor.VideoSource<F>, samplingFps: real, sliders: Weights)
    requires SlidersInRange(sliders)
    requires Analyse(StandardMetrics(v), src, samplingFps, sliders).Ok?
    ensures var samples := FrameExtractor.ExtractFrames(src, samplingFps).value;
      var r := Analyse(StandardMetrics(v), src, samplingFps, sliders).value;
      && r.index < |samples|
      && r.frame == samples[r.index].frame && r.timestamp == samples[r.index].timestamp
      && r.scores.Some?
      && 0.0 <= r.scores.value.overall <= 100.0
      && (forall k :: 0 <= k < |samples| ==>
            ScoreFrame(StandardMetrics(v), samples[k].frame, Some(NormaliseWeights(sliders))).overall
              <= r.scores.value.overall)
  {
    var m := StandardMetrics(v);
    var samples := FrameExtractor.ExtractFrames(src, samplingFps).value;
    var pairs := AsPairs(samples);
    var w := Some(NormaliseWeights(sliders));
    forall k | 0 <= k < |pairs|
      ensures 0.0 <= ScoreFrame(m, pairs[k].0, w).overall <= 100.0
    {
      StandardScoresInRange(v, pairs[k].0);
      NormalisedOverallInRange(sliders, ScoreFrame(m, pairs[k].0, w));
    }
    NonNegativeScoresAlwaysRecorded(m, pairs, w);
  }
}
