/**
 * Combines the four metrics into one weighted score per frame, picks the best
 * frame with a single left-to-right scan, and scores every frame in order.
 * The frame type is a parameter and each metric is a function of the frame, so
 * the scorer depends only on what the metrics return.
 */
module AestheticScorer {
  import opened Errors
  import opened RealMath
  import FaceDetector
  import Sharpness
  import Brightness
  import Composition

  /** One weight per metric; nothing forces them to sum to 1. */
  datatype Weights = Weights(sharpness: real, faceClarity: real, brightness: real, composition: real)

  function WeightTotal(w: Weights): real {
    w.sharpness + w.faceClarity + w.brightness + w.composition
  }

  /** Non-negative weights summing to 1. */
  predicate IsConvex(w: Weights) {
    && w.sharpness >= 0.0 && w.faceClarity >= 0.0 && w.brightness >= 0.0 && w.composition >= 0.0
    && WeightTotal(w) == 1.0
  }

  /** `DEFAULT_WEIGHTS`: 0.30 / 0.25 / 0.20 / 0.25, a convex combination. */
  function DefaultWeights(): (w: Weights)
    ensures IsConvex(w)
    ensures w.sharpness > w.faceClarity && w.faceClarity == w.composition && w.composition > w.brightness
  {
    Weights(0.30, 0.25, 0.20, 0.25)
  }

  /** `weights=None` selects the defaults; supplied weights are used as they are. */
  function ResolveWeights(weights: Option<Weights>): (w: Weights)
    ensures weights.None? ==> IsConvex(w)
    ensures weights.Some? ==> w == weights.value
  {
    weights.GetOr(DefaultWeights())
  }

  /** The score dictionary of one frame. */
  datatype ScoreBreakdown = ScoreBreakdown(
    overall: real, sharpness: real, faceClarity: real, faceCount: nat, brightness: real, composition: real)

  /** The four metric calls, as functions of a frame. */
  datatype Metrics<!F> = Metrics(
    sharpness: F -> real,
    faces: F -> FaceDetector.FaceReading,
    brightness: F -> real,
    composition: F -> real)

  /** Weighted sum of the four sub-scores, with no renormalisation. */
  function Overall(w: Weights, s: ScoreBreakdown): real {
    s.sharpness * w.sharpness + s.faceClarity * w.faceClarity
      + s.brightness * w.brightness + s.composition * w.composition
  }

  /** `score_frame`: each sub-score is its metric's value, and `overall` is their weighted sum. */
  function ScoreFrame<F>(m: Metrics<F>, frame: F, weights: Option<Weights>): (s: ScoreBreakdown)
    ensures s.sharpness == m.sharpness(frame) && s.brightness == m.brightness(frame)
    ensures s.faceClarity == m.faces(frame).score && s.faceCount == m.faces(frame).count
    ensures s.composition == m.composition(frame)
    ensures s.overall == Overall(ResolveWeights(weights), s)
  {
    var w := ResolveWeights(weights);
    var face := m.faces(frame);
    var parts := ScoreBreakdown(0.0, m.sharpness(frame), face.score, face.count,
                                m.brightness(frame), m.composition(frame));
    parts.(overall := Overall(w, parts))
  }

  /** Every sub-score lies in [0, 100]. */
  predicate SubScoresInRange(s: ScoreBreakdown) {
    && 0.0 <= s.sharpness <= 100.0 && 0.0 <= s.faceClarity <= 100.0
    && 0.0 <= s.brightness <= 100.0 && 0.0 <= s.composition <= 100.0
  }

  /** With convex weights, the overall score is a convex combination and stays in [0, 100]. */
  lemma ConvexOverallInRange(w: Weights, s: ScoreBreakdown)
    requires IsConvex(w) && SubScoresInRange(s)
    ensures 0.0 <= Overall(w, s) <= 100.0
  {
    ConvexCombination(s.sharpness, s.faceClarity, s.brightness, s.composition,
                      w.sharpness, w.faceClarity, w.brightness, w.composition);
  }

  lemma ConvexCombination(a1: real, a2: real, a3: real, a4: real, w1: real, w2: real, w3: real, w4: real)
    requires 0.0 <= a1 <= 100.0 && 0.0 <= a2 <= 100.0 && 0.0 <= a3 <= 100.0 && 0.0 <= a4 <= 100.0
    requires 0.0 <= w1 && 0.0 <= w2 && 0.0 <= w3 && 0.0 <= w4 && w1 + w2 + w3 + w4 == 1.0
    ensures 0.0 <= a1 * w1 + a2 * w2 + a3 * w3 + a4 * w4 <= 100.0
  {
    WeightedTermInRange(a1, w1);
    WeightedTermInRange(a2, w2);
    WeightedTermInRange(a3, w3);
    WeightedTermInRange(a4, w4);
    calc {
      a1 * w1 + a2 * w2 + a3 * w3 + a4 * w4;
    <=
      100.0 * w1 + a2 * w2 + a3 * w3 + a4 * w4;
    <=
      100.0 * w1 + 100.0 * w2 + a3 * w3 + a4 * w4;
    <=
      100.0 * w1 + 100.0 * w2 + 100.0 * w3 + a4 * w4;
    <=
      100.0 * w1 + 100.0 * w2 + 100.0 * w3 + 100.0 * w4;
    ==
      100.0;
    }
  }

  lemma WeightedTermInRange(a: real, w: real)
    requires 0.0 <= a <= 100.0 && w >= 0.0
    ensures 0.0 <= a * w <= 100.0 * w
  {
    calc {
      0.0;
    <=
      a * w;
    <=
      100.0 * w;
    }
  }

  /** The metrics a weight can be moved between. */
  datatype Metric = SharpnessMetric | FaceMetric | BrightnessMetric | CompositionMetric

  function WeightOf(w: Weights, k: Metric): real {
    match k
    case SharpnessMetric => w.sharpness
    case FaceMetric => w.faceClarity
    case BrightnessMetric => w.brightness
    case CompositionMetric => w.composition
  }

  function SubScore(s: ScoreBreakdown, k: Metric): real {
    match k
    case SharpnessMetric => s.sharpness
    case FaceMetric => s.faceClarity
    case BrightnessMetric => s.brightness
    case CompositionMetric => s.composition
  }

  /** The weights with `d` moved from metric `src` to metric `dst`. */
  function ShiftWeight(w: Weights, src: Metric, dst: Metric, d: real): (w': Weights)
    requires src != dst
    ensures WeightTotal(w') == WeightTotal(w)
    ensures WeightOf(w', src) == WeightOf(w, src) - d && WeightOf(w', dst) == WeightOf(w, dst) + d
  {
    var lowered := match src
      case SharpnessMetric => w.(sharpness := w.sharpness - d)
      case FaceMetric => w.(faceClarity := w.faceClarity - d)
      case BrightnessMetric => w.(brightness := w.brightness - d)
      case CompositionMetric => w.(composition := w.composition - d);
    match dst
    case SharpnessMetric => lowered.(sharpness := lowered.sharpness + d)
    case FaceMetric => lowered.(faceClarity := lowered.faceClarity + d)
    case BrightnessMetric => lowered.(brightness := lowered.brightness + d)
    case CompositionMetric => lowered.(composition := lowered.composition + d)
  }

  /** Moving weight `d > 0` onto a metric raises the overall score exactly when that metric outscores the one it was taken from. */
  lemma WeightShiftSensitivity(w: Weights, s: ScoreBreakdown, src: Metric, dst: Metric, d: real)
    requires src != dst && d > 0.0
    ensures Overall(ShiftWeight(w, src, dst, d), s) - Overall(w, s) == d * (SubScore(s, dst) - SubScore(s, src))
    ensures Overall(ShiftWeight(w, src, dst, d), s) > Overall(w, s) <==> SubScore(s, dst) > SubScore(s, src)
  {
    var down, up := Unit(src, -d), Unit(dst, d);
    ShiftIsTwoUnits(w, src, dst, d);
    OverallAdditive(w, down, s);
    OverallAdditive(AddWeights(w, down), up, s);
    OverallOfUnit(src, -d, s);
    OverallOfUnit(dst, d, s);
    ShiftArithmetic(Overall(w, s), Overall(ShiftWeight(w, src, dst, d), s), SubScore(s, src), SubScore(s, dst), d);
  }

  /** The real-number step: a gain of `b * d - a * d` is `d * (b - a)`, positive exactly when `b > a`. */
  lemma ShiftArithmetic(before: real, after: real, a: real, b: real, d: real)
    requires d > 0.0 && after == before + a * -d + b * d
    ensures after - before == d * (b - a)
    ensures after > before <==> b > a
  {
  }

  function AddWeights(w: Weights, v: Weights): Weights {
    Weights(w.sharpness + v.sharpness, w.faceClarity + v.faceClarity,
      w.brightness + v.brightness, w.composition + v.composition)
  }

  /** Weight `c` on metric `k` alone. */
  function Unit(k: Metric, c: real): Weights {
    match k
    case SharpnessMetric => Weights(c, 0.0, 0.0, 0.0)
    case FaceMetric => Weights(0.0, c, 0.0, 0.0)
    case BrightnessMetric => Weights(0.0, 0.0, c, 0.0)
    case CompositionMetric => Weights(0.0, 0.0, 0.0, c)
  }

  lemma ShiftIsTwoUnits(w: Weights, src: Metric, dst: Metric, d: real)
    requires src != dst
    ensures ShiftWeight(w, src, dst, d) == AddWeights(AddWeights(w, Unit(src, -d)), Unit(dst, d))
  {
  }

  lemma OverallAdditive(w: Weights, v: Weights, s: ScoreBreakdown)
    ensures Overall(AddWeights(w, v), s) == Overall(w, s) + Overall(v, s)
  {
  }

  lemma OverallOfUnit(k: Metric, c: real, s: ScoreBreakdown)
    ensures Overall(Unit(k, c), s) == SubScore(s, k) * c
  {
  }

  // ---------------------------------------------------------------- selection

  /** `find_best_frame`'s result: index, frame, timestamp and the winner's scores (absent if nothing beat -1). */
  datatype Selection<F> = Selection(index: nat, frame: F, timestamp: real, scores: Option<ScoreBreakdown>)

  /** Scan state: best index so far, best score so far (starts at -1) and its breakdown. */
  datatype ScanState = ScanState(index: nat, score: real, best: Option<ScoreBreakdown>)

  /** The state before any frame is scored. */
  const Start: ScanState := ScanState(0, -1.0, None)

  /** `k` is the first index attaining the maximum overall score of `xs`. */
  predicate IsFirstMax(xs: seq<ScoreBreakdown>, k: nat) {
    && k < |xs|
    && (forall j :: 0 <= j < |xs| ==> xs[j].overall <= xs[k].overall)
    && (forall j :: 0 <= j < k ==> xs[j].overall < xs[k].overall)
  }

  /** Some score among the first `n` beats the initial -1. */
  predicate BeatsStart(xs: seq<ScoreBreakdown>, n: nat)
    requires n <= |xs|
  {
    exists j :: 0 <= j < n && xs[j].overall > -1.0
  }

  /** What the scan state means after the first `n` frames. */
  predicate ScanInv(xs: seq<ScoreBreakdown>, n: nat, st: ScanState)
    requires n <= |xs|
  {
    if BeatsStart(xs, n) then
      && IsFirstMax(xs[..n], st.index)
      && st.score == xs[st.index].overall
      && st.best == Some(xs[st.index])
    else st == Start
  }

  /** One loop step: a strictly greater score replaces the best; ties keep the earlier frame. */
  function Step(st: ScanState, i: nat, s: ScoreBreakdown): ScanState {
    if s.overall > st.score then ScanState(i, s.overall, Some(s)) else st
  }

  lemma StepKeepsInv(xs: seq<ScoreBreakdown>, n: nat, st: ScanState)
    requires n < |xs| && ScanInv(xs, n, st)
    ensures ScanInv(xs, n + 1, Step(st, n, xs[n]))
  {
    var st' := Step(st, n, xs[n]);
    assert xs[..n + 1][..n] == xs[..n];
    if BeatsStart(xs, n) {
      var k :| 0 <= k < n && xs[k].overall > -1.0;
      assert BeatsStart(xs, n + 1);
      assert xs[..n][st.index] == xs[st.index];
    } else if xs[n].overall > -1.0 {
      assert BeatsStart(xs, n + 1);
      assert forall j :: 0 <= j < n ==> xs[j].overall <= -1.0;
    }
  }

  /** Continues the scan from frame `n` to the end; the invariant then covers every frame. */
  function ScanFrom(xs: seq<ScoreBreakdown>, n: nat, st: ScanState): (r: ScanState)
    requires n <= |xs| && ScanInv(xs, n, st)
    ensures ScanInv(xs, |xs|, r)
    decreases |xs| - n
  {
    if n == |xs| then st
    else
      StepKeepsInv(xs, n, st);
      ScanFrom(xs, n + 1, Step(st, n, xs[n]))
  }

  /** Scores of all frames, in order. */
  function Scores<F>(m: Metrics<F>, frames: seq<(F, real)>, weights: Option<Weights>): (xs: seq<ScoreBreakdown>)
    ensures |xs| == |frames|
    ensures forall i :: 0 <= i < |frames| ==> xs[i] == ScoreFrame(m, frames[i].0, weights)
  {
    seq(|frames|, i requires 0 <= i < |frames| => ScoreFrame(m, frames[i].0, weights))
  }

  /** `find_best_frame`: fails on an empty list; otherwise returns the first frame with the highest overall
      score, unless no score exceeds -1, in which case frame 0 is returned with no breakdown. */
  function FindBestFrame<F>(m: Metrics<F>, frames: seq<(F, real)>, weights: Option<Weights>): (r: Result<Selection<F>>)
    ensures r.Err? <==> |frames| == 0
    ensures r.Err? ==> r.error == EmptyInput
    ensures r.Ok? ==> (r.value.index < |frames|
                       && r.value.frame == frames[r.value.index].0
                       && r.value.timestamp == frames[r.value.index].1)
    ensures r.Ok? && BeatsStart(Scores(m, frames, weights), |frames|) ==>
              (IsFirstMax(Scores(m, frames, weights), r.value.index)
               && r.value.scores == Some(ScoreFrame(m, frames[r.value.index].0, weights)))
    ensures r.Ok? && !BeatsStart(Scores(m, frames, weights), |frames|) ==>
              (r.value.index == 0 && r.value.scores == None)
  {
    if |frames| == 0 then Err(EmptyInput)
    else
      var xs := Scores(m, frames, weights);
      assert xs[..0] == [];
      assert !BeatsStart(xs, 0);
      var st := ScanFrom(xs, 0, Start);
      assert xs[..|xs|] == xs;
      Ok(Selection(st.index, frames[st.index].0, frames[st.index].1, st.best))
  }

  /** Ties go to the earlier frame: no later frame with an equal top score is ever selected. */
  lemma FirstFrameWinsTies<F>(m: Metrics<F>, frames: seq<(F, real)>, weights: Option<Weights>, i: nat, j: nat)
    requires i < j < |frames|
    requires ScoreFrame(m, frames[i].0, weights).overall == ScoreFrame(m, frames[j].0, weights).overall
    requires forall k :: 0 <= k < |frames| ==> ScoreFrame(m, frames[k].0, weights).overall > -1.0
    ensures FindBestFrame(m, frames, weights).Ok?
    ensures FindBestFrame(m, frames, weights).value.index != j
  {
    var xs := Scores(m, frames, weights);
    assert xs[0].overall > -1.0;
    assert BeatsStart(xs, |frames|);
  }

  /** With non-negative weights and sub-scores, every overall score beats -1, so the winner always carries its breakdown. */
  lemma NonNegativeScoresAlwaysRecorded<F>(m: Metrics<F>, frames: seq<(F, real)>, weights: Option<Weights>)
    requires |frames| > 0
    requires forall k :: 0 <= k < |frames| ==> ScoreFrame(m, frames[k].0, weights).overall >= 0.0
    ensures FindBestFrame(m, frames, weights).Ok?
    ensures var r := FindBestFrame(m, frames, weights).value;
            r.scores == Some(ScoreFrame(m, frames[r.index].0, weights))
            && forall k :: 0 <= k < |frames| ==>
                 ScoreFrame(m, frames[k].0, weights).overall <= r.scores.value.overall
  {
    var xs := Scores(m, frames, weights);
    assert xs[0].overall > -1.0;
    assert BeatsStart(xs, |frames|);
  }

  /** `score_all_frames`: one (timestamp, scores) pair per frame, in input order; empty input gives an empty list. */
  function ScoreAllFrames<F>(m: Metrics<F>, frames: seq<(F, real)>, weights: Option<Weights>): (r: seq<(real, ScoreBreakdown)>)
    ensures |r| == |frames|
    ensures forall i :: 0 <= i < |frames| ==> r[i] == (frames[i].1, ScoreFrame(m, frames[i].0, weights))
    decreases |frames|
  {
    if |frames| == 0 then []
    else
      var last := frames[|frames| - 1];
      ScoreAllFrames(m, frames[..|frames| - 1], weights) + [(last.1, ScoreFrame(m, last.0, weights))]
  }

  /** Scoring is an order-preserving map: scoring a concatenation concatenates the results. */
  lemma ScoreAllFramesAppend<F>(m: Metrics<F>, a: seq<(F, real)>, b: seq<(F, real)>, weights: Option<Weights>)
    ensures ScoreAllFrames(m, a + b, weights) == ScoreAllFrames(m, a, weights) + ScoreAllFrames(m, b, weights)
  {
  }

  /** The selected frame's scores are the ones `score_all_frames` reports at that index, and no reported overall exceeds them. */
  lemma SelectionAgreesWithScoreAll<F>(m: Metrics<F>, frames: seq<(F, real)>, weights: Option<Weights>)
    requires FindBestFrame(m, frames, weights).Ok?
    requires FindBestFrame(m, frames, weights).value.scores.Some?
    ensures var r := FindBestFrame(m, frames, weights).value;
            var all := ScoreAllFrames(m, frames, weights);
            all[r.index] == (r.timestamp, r.scores.value)
            && forall k :: 0 <= k < |all| ==> all[k].1.overall <= r.scores.value.overall
  {
  }

  // ------------------------------------------------------ progress reporting

  /** The calls a progress callback has received after `done` of `total` frames: (i + 1, total) after frame i. */
  function ProgressCalls(done: nat, total: nat): (calls: seq<(nat, nat)>)
    ensures |calls| == done
    ensures forall i :: 0 <= i < done ==> calls[i] == (i + 1, total)
  {
    seq(done, i => (i + 1, total))
  }

  /** `find_best_frame` as a loop, with the callback's calls returned as a trace.
      The trace never feeds back into the scan, so the result is the same with or without a callback. */
  method FindBestFrameWithProgress<F>(m: Metrics<F>, frames: seq<(F, real)>, weights: Option<Weights>, hasCallback: bool)
    returns (r: Result<Selection<F>>, calls: seq<(nat, nat)>)
    ensures r == FindBestFrame(m, frames, weights)
    ensures calls == if hasCallback && |frames| > 0 then ProgressCalls(|frames|, |frames|) else []
  {
    if |frames| == 0 {
      return Err(EmptyInput), [];
    }
    var xs := Scores(m, frames, weights);
    assert xs[..0] == [];
    var st := Start;
    calls := [];
    var i := 0;
    while i < |frames|
      invariant 0 <= i <= |frames|
      invariant ScanInv(xs, i, st)
      invariant ScanFrom(xs, i, st) == ScanFrom(xs, 0, Start)
      invariant calls == if hasCallback then ProgressCalls(i, |frames|) else []
    {
      var scores := ScoreFrame(m, frames[i].0, weights);
      StepKeepsInv(xs, i, st);
      st := Step(st, i, scores);
      if hasCallback {
        assert ProgressCalls(i, |frames|) + [(i + 1, |frames|)] == ProgressCalls(i + 1, |frames|);
        calls := calls + [(i + 1, |frames|)];
      }
      i := i + 1;
    }
    r := Ok(Selection(st.index, frames[st.index].0, frames[st.index].1, st.best));
  }

  /** `score_all_frames` as a loop appending one pair per frame, with the callback's calls returned as a trace. */
  method ScoreAllFramesWithProgress<F>(m: Metrics<F>, frames: seq<(F, real)>, weights: Option<Weights>, hasCallback: bool)
    returns (results: seq<(real, ScoreBreakdown)>, calls: seq<(nat, nat)>)
    ensures results == ScoreAllFrames(m, frames, weights)
    ensures calls == if hasCallback then ProgressCalls(|frames|, |frames|) else []
  {
    results := [];
    calls := [];
    var i := 0;
    while i < |frames|
      invariant 0 <= i <= |frames|
      invariant results == ScoreAllFrames(m, frames[..i], weights)
      invariant calls == if hasCallback then ProgressCalls(i, |frames|) else []
    {
      assert frames[..i + 1][..i] == frames[..i];
      results := results + [(frames[i].1, ScoreFrame(m, frames[i].0, weights))];
      if hasCallback {
        assert ProgressCalls(i, |frames|) + [(i + 1, |frames|)] == ProgressCalls(i + 1, |frames|);
        calls := calls + [(i + 1, |frames|)];
      }
      i := i + 1;
    }
    assert frames[..i] == frames;
  }

  // ------------------------------------------------------------- the metrics

  /** Foreign-call outputs the metrics start from, each of the shape the library hands back. */
  type Response = r: seq<real> | |r| > 0 witness [0.0]
  type GrayValues = g: seq<int> | Brightness.IsGray(g) witness [0]
  /** Edge maps of frames the composition metric accepts: at least one 20-pixel interest cell, sums within uint64. */
  type EdgeMap = e: seq<seq<int>>
    | Composition.IsEdgeMap(e) && Composition.WithinPixelCap(e)
      && Composition.Height(e) >= Composition.GridSize && Composition.Width(e) >= Composition.GridSize
    witness Composition.FullMap(20, 20)
  type Side = n: nat | n > 0 witness 1

  /** The image operations the metrics call: Laplacian, cascade detector, frame size, grey conversion, Canny. */
  datatype Vision<!F> = Vision(
    laplacian: F -> Response,
    faceBoxes: F -> seq<FaceDetector.Box>,
    height: F -> Side,
    width: F -> Side,
    gray: F -> GrayValues,
    edges: F -> EdgeMap)

  /** The four metrics as the program computes them, composition with its wrapping subtraction. */
  function StandardMetrics<F>(v: Vision<F>): Metrics<F> {
    Metrics(
      f => Sharpness.CalculateSharpness(v.laplacian(f)),
      f => FaceDetector.DetectFaces(v.faceBoxes(f), v.height(f), v.width(f)),
      f => Brightness.BrightnessBalance(v.gray(f)),
      f => Composition.CalculateCompositionScore(v.edges(f)).value)
  }

  /** The same metrics with the composition balance computed as intended. */
  function IntendedMetrics<F>(v: Vision<F>): Metrics<F> {
    Metrics(
      f => Sharpness.CalculateSharpness(v.laplacian(f)),
      f => FaceDetector.DetectFaces(v.faceBoxes(f), v.height(f), v.width(f)),
      f => Brightness.BrightnessBalance(v.gray(f)),
      f => Composition.CompositionScore(v.edges(f)))
  }

  /** Every frame scored by either set of metrics has sub-scores in [0, 100], and with the default
      weights an overall score in [0, 100]. */
  lemma StandardScoresInRange<F>(v: Vision<F>, frame: F)
    ensures SubScoresInRange(ScoreFrame(StandardMetrics(v), frame, None))
    ensures 0.0 <= ScoreFrame(StandardMetrics(v), frame, None).overall <= 100.0
    ensures SubScoresInRange(ScoreFrame(IntendedMetrics(v), frame, None))
    ensures 0.0 <= ScoreFrame(IntendedMetrics(v), frame, None).overall <= 100.0
  {
    ConvexOverallInRange(DefaultWeights(), ScoreFrame(StandardMetrics(v), frame, None));
    ConvexOverallInRange(DefaultWeights(), ScoreFrame(IntendedMetrics(v), frame, None));
  }

  /** The two sets of metrics differ only in composition, and agree on a frame whose edge mass
      is no heavier on the right or at the bottom. */
  lemma MetricsAgreeWithoutWrap<F>(v: Vision<F>, frame: F, weights: Option<Weights>)
    ensures var a, b := ScoreFrame(StandardMetrics(v), frame, weights), ScoreFrame(IntendedMetrics(v), frame, weights);
      a.sharpness == b.sharpness && a.faceClarity == b.faceClarity && a.faceCount == b.faceCount
      && a.brightness == b.brightness
    ensures var m := Composition.EdgeMasses(v.edges(frame));
      m.left >= m.right && m.top >= m.bottom
      ==> ScoreFrame(StandardMetrics(v), frame, weights) == ScoreFrame(IntendedMetrics(v), frame, weights)
  {
  }
}
