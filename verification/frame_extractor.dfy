/**
 * Frame sampling: from the frames a decoder hands back, keep every
 * `stride`-th one together with its timestamp in seconds. Decoding is cut
 * away; a source is described by whether it opened, the native frame rate it
 * reports and the sequence of frames it decodes.
 */
module FrameExtractor {
  import opened Errors
  import opened RealMath

  /** What the capture object reports: whether it opened, its native rate, and every frame `read` returns. */
  datatype VideoSource<F> = VideoSource(isOpen: bool, nativeFps: real, decoded: seq<F>)

  /** A kept frame and its timestamp in seconds. */
  datatype Sample<F> = Sample(frame: F, timestamp: real)

  /**
   * `max(1, int(video_fps / fps))`: the quotient is truncated, not rounded, and
   * anything below 1 (including every negative quotient) becomes 1.
   */
  function Stride(nativeFps: real, fps: real): (s: nat)
    requires fps != 0.0
    ensures s >= 1
    ensures nativeFps / fps >= 1.0 ==> s as real <= nativeFps / fps < s as real + 1.0
    ensures nativeFps / fps < 2.0 ==> s == 1
  {
    var q := Trunc(nativeFps / fps);
    if q < 1 then 1 else q
  }

  /** Ceiling of `n / s`: the number of multiples of `s` below `n`. */
  function CeilDiv(n: nat, s: nat): nat
    requires s >= 1
  {
    (n + s - 1) / s
  }

  /** `d * s >= s` for every positive `d`. */
  lemma MulAtLeast(d: nat, s: nat)
    requires d >= 1
    ensures d * s >= s
  {
    if d > 1 {
      MulAtLeast(d - 1, s);
      assert d * s == (d - 1) * s + s;
    }
  }

  /** Euclidean division is unique: a decomposition `q * s + r` with `0 <= r < s` is `n / s` and `n % s`. */
  lemma DivModUnique(n: int, s: int, q: int, r: int)
    requires s >= 1 && 0 <= r < s && n == q * s + r
    ensures n / s == q && n % s == r
  {
    var q', r' := n / s, n % s;
    assert n == q' * s + r';
    if q > q' {
      assert (q - q') * s == q * s - q' * s;
      MulAtLeast(q - q', s);
      assert false;
    } else if q < q' {
      assert (q' - q) * s == q' * s - q * s;
      MulAtLeast(q' - q, s);
      assert false;
    }
  }

  /** `CeilDiv(n, s)` is the least count `c` with `c * s >= n`. */
  lemma CeilDivIsLeast(n: nat, s: nat)
    requires s >= 1
    ensures CeilDiv(n, s) * s >= n
    ensures CeilDiv(n, s) == 0 || (CeilDiv(n, s) - 1) * s < n
  {
    var c := CeilDiv(n, s);
    var r := (n + s - 1) % s;
    DivModUnique(n + s - 1, s, c, r);
    if c > 0 {
      assert (c - 1) * s == c * s - s;
    }
  }

  /** Every sample index below `CeilDiv(n, s)` names a native index below `n`. */
  lemma SampleIndexInRange(n: nat, s: nat, i: nat)
    requires s >= 1 && i < CeilDiv(n, s)
    ensures i * s < n
  {
    CeilDivIsLeast(n, s);
    var c := CeilDiv(n, s);
    assert i <= c - 1;
    assert i * s <= (c - 1) * s by {
      assert (c - 1) * s - i * s == (c - 1 - i) * s;
    }
  }

  /** Native frame `k` is kept exactly when it falls on the stride. */
  predicate IsKept(k: nat, stride: nat)
    requires stride >= 1
  {
    k % stride == 0
  }

  /** `frame_count / video_fps`. */
  function Timestamp(k: nat, nativeFps: real): real
    requires nativeFps != 0.0
  {
    k as real / nativeFps
  }

  /** The `i`-th kept sample is native frame `i * stride`. */
  function Sampled<F>(decoded: seq<F>, stride: nat, nativeFps: real): (r: seq<Sample<F>>)
    requires stride >= 1 && nativeFps != 0.0
    ensures |r| == CeilDiv(|decoded|, stride)
  {
    seq(CeilDiv(|decoded|, stride), (i: int) requires 0 <= i < CeilDiv(|decoded|, stride) =>
      SampleIndexInRange(|decoded|, stride, i);
      Sample(decoded[i * stride], Timestamp(i * stride, nativeFps)))
  }

  /** Stepping the read counter past `count` adds one sample exactly when `count` is on the stride. */
  lemma CeilDivStep(count: nat, s: nat)
    requires s >= 1
    ensures count % s == 0 ==> CeilDiv(count + 1, s) == CeilDiv(count, s) + 1 && CeilDiv(count, s) * s == count
    ensures count % s != 0 ==> CeilDiv(count + 1, s) == CeilDiv(count, s)
  {
    var q, r := count / s, count % s;
    DivModUnique(count, s, q, r);
    if r == 0 {
      DivModUnique(count + s - 1, s, q, s - 1);
      assert count + 1 + s - 1 == (q + 1) * s;
      DivModUnique(count + 1 + s - 1, s, q + 1, 0);
    } else {
      assert count + s - 1 == (q + 1) * s + (r - 1);
      DivModUnique(count + s - 1, s, q + 1, r - 1);
      DivModUnique(count + 1 + s - 1, s, q + 1, r);
    }
  }
  /**
   * The read loop of `extract_frames`: read frames one at a time, counting
   * them, and append `(frame, count / video_fps)` when the count is on the stride.
   */
  method ReadLoop<F>(decoded: seq<F>, stride: nat, nativeFps: real) returns (samples: seq<Sample<F>>)
    requires stride >= 1 && nativeFps != 0.0
    ensures samples == Sampled(decoded, stride, nativeFps)
  {
    samples := [];
    var count := 0;
    while count < |decoded|
      invariant 0 <= count <= |decoded|
      invariant |samples| == CeilDiv(count, stride)
      invariant forall i :: 0 <= i < |samples| ==>
        i * stride < count && samples[i] == Sample(decoded[i * stride], Timestamp(i * stride, nativeFps))
    {
      CeilDivStep(count, stride);
      if count % stride == 0 {
        samples := samples + [Sample(decoded[count], Timestamp(count, nativeFps))];
      }
      count := count + 1;
    }
  }

  /**
   * `extract_frames`: an unopenable source fails first, then a native rate of
   * exactly 0, then a zero target rate (the division raises), and finally an
   * empty sample list. Negative rates are not rejected.
   */
  function ExtractFrames<F>(src: VideoSource<F>, fps: real): (r: Result<seq<Sample<F>>>)
    ensures !src.isOpen ==> r == Err(SourceUnreadable)
    ensures src.isOpen && src.nativeFps == 0.0 ==> r == Err(RateIndeterminate)
    ensures src.isOpen && src.nativeFps != 0.0 && fps == 0.0 ==> r == Err(ZeroTargetRate)
    ensures src.isOpen && src.nativeFps != 0.0 && fps != 0.0 ==>
      (r == Err(NoFramesExtracted) <==> |src.decoded| == 0)
    ensures r.Ok? <==> src.isOpen && src.nativeFps != 0.0 && fps != 0.0 && |src.decoded| > 0
    ensures r.Ok? ==> |r.value| > 0 && r.value == Sampled(src.decoded, Stride(src.nativeFps, fps), src.nativeFps)
  {
    if !src.isOpen then Err(SourceUnreadable)
    else if src.nativeFps == 0.0 then Err(RateIndeterminate)
    else if fps == 0.0 then Err(ZeroTargetRate)
    else
      var samples := Sampled(src.decoded, Stride(src.nativeFps, fps), src.nativeFps);
      if |samples| == 0 then Err(NoFramesExtracted) else Ok(samples)
  }

  /**
   * A native frame appears among the samples exactly when its index is a
   * multiple of the stride, and then with its own timestamp.
   */
  lemma KeptIffOnStride<F>(decoded: seq<F>, stride: nat, nativeFps: real, k: nat)
    requires stride >= 1 && nativeFps != 0.0 && k < |decoded|
    ensures var r := Sampled(decoded, stride, nativeFps);
      (exists i :: 0 <= i < |r| && i * stride == k) <==> IsKept(k, stride)
    ensures var r := Sampled(decoded, stride, nativeFps);
      IsKept(k, stride) ==> k / stride < |r| && r[k / stride] == Sample(decoded[k], Timestamp(k, nativeFps))
  {
    var r := Sampled(decoded, stride, nativeFps);
    if IsKept(k, stride) {
      var i := k / stride;
      assert k == i * stride + k % stride;
      SampleIndexOfKept(|decoded|, stride, i);
      assert r[i] == Sample(decoded[k], Timestamp(k, nativeFps));
    }
    if exists i :: 0 <= i < |r| && i * stride == k {
      var i :| 0 <= i < |r| && i * stride == k;
      MultipleModulo(i, stride);
    }
  }

  /** A native index on the stride below `n` has its sample among the first `CeilDiv(n, s)`. */
  lemma SampleIndexOfKept(n: nat, s: nat, i: nat)
    requires s >= 1 && i * s < n
    ensures i < CeilDiv(n, s)
  {
    var c := CeilDiv(n, s);
    CeilDivIsLeast(n, s);
    if i >= c {
      assert false;
    }
  }

  /** A multiple of `s` leaves no remainder and divides back exactly. */
  lemma MultipleModulo(i: nat, s: nat)
    requires s >= 1
    ensures (i * s) % s == 0 && (i * s) / s == i
  {
    DivModUnique(i * s, s, i, 0);
  }
  /** Samples keep native order, so with a positive native rate their timestamps start at 0 and strictly increase. */
  lemma TimestampsIncrease<F>(decoded: seq<F>, stride: nat, nativeFps: real)
    requires stride >= 1 && nativeFps > 0.0
    ensures var r := Sampled(decoded, stride, nativeFps);
      |r| > 0 ==> r[0].timestamp == 0.0
    ensures var r := Sampled(decoded, stride, nativeFps);
      forall i, j :: 0 <= i < j < |r| ==> r[i].timestamp < r[j].timestamp
  {
    var r := Sampled(decoded, stride, nativeFps);
    forall i, j | 0 <= i < j < |r|
      ensures r[i].timestamp < r[j].timestamp
    {
      assert i * stride < j * stride by {
        assert j * stride - i * stride == (j - i) * stride;
      }
      QuotientIncreases((i * stride) as real, (j * stride) as real, nativeFps);
    }
  }

  lemma QuotientIncreases(a: real, b: real, t: real)
    requires a < b && t > 0.0
    ensures a / t < b / t
  {
    QuotientAbove(a, t, b / t);
    assert (b / t) * t == b;
  }

  /** When the target rate is at least the native rate (both positive), every decoded frame is kept. */
  lemma FastTargetKeepsAll<F>(src: VideoSource<F>, fps: real)
    requires src.isOpen && 0.0 < src.nativeFps <= fps && |src.decoded| > 0
    ensures Stride(src.nativeFps, fps) == 1
    ensures var r := ExtractFrames(src, fps);
      r.Ok? && |r.value| == |src.decoded| &&
      forall k :: 0 <= k < |src.decoded| ==> r.value[k].frame == src.decoded[k]
  {
    QuotientAbove(src.nativeFps, fps, 1.0);
    assert CeilDiv(|src.decoded|, 1) == |src.decoded|;
  }

  /** A negative native rate is accepted: the stride is 1 and the timestamps are not positive. */
  lemma NegativeRateAccepted<F>(src: VideoSource<F>, fps: real)
    requires src.isOpen && src.nativeFps < 0.0 && fps > 0.0 && |src.decoded| > 0
    ensures var r := ExtractFrames(src, fps);
      r.Ok? && |r.value| == |src.decoded| &&
      forall i :: 0 <= i < |r.value| ==> r.value[i].timestamp <= 0.0
  {
    QuotientAbove(src.nativeFps, fps, 0.0);
    assert CeilDiv(|src.decoded|, 1) == |src.decoded|;
    var r := ExtractFrames(src, fps);
    forall i | 0 <= i < |r.value|
      ensures r.value[i].timestamp <= 0.0
    {
      var k := i as real;
      QuotientAbove(-k, -src.nativeFps, 0.0);
      assert k / src.nativeFps == (-k) / (-src.nativeFps);
    }
  }

  /** Two seconds of 30 fps video sampled at 1 fps give exactly two samples, at 0 s and 1 s. */
  lemma TwoSecondClip<F>(decoded: seq<F>)
    requires |decoded| == 60
    ensures var r := ExtractFrames(VideoSource(true, 30.0, decoded), 1.0);
      r.Ok? && |r.value| == 2 &&
      r.value[0] == Sample(decoded[0], 0.0) && r.value[1] == Sample(decoded[30], 1.0)
  {
  }

  /** A 29.97 fps source sampled at 1 fps uses a stride of 29, not 30. */
  lemma StrideTruncates()
    ensures Stride(29.97, 1.0) == 29
  {
    TruncDropsFraction();
  }
}
