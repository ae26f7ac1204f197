/**
 * Face clarity: scores a frame from the face boxes the cascade detector found.
 * Detection (scale step 1.1, 5 neighbours, 30x30 minimum) is a foreign call;
 * the model takes its boxes and the frame's height and width as inputs.
 */
module FaceDetector {
  import opened RealMath

  /** One detector hit: top-left corner and size in pixels. */
  datatype Box = Box(x: int, y: int, w: nat, h: nat)

  /** What `detect_faces` returns: the clarity score and how many faces were found. */
  datatype FaceReading = FaceReading(score: real, count: nat)

  /** Cap on the coverage-driven part of the score. */
  const CoverageCap: real := 70.0

  /** Summed box area; overlapping boxes are counted twice, never de-duplicated. */
  function TotalArea(boxes: seq<Box>): nat
    decreases |boxes|
  {
    if |boxes| == 0 then 0 else boxes[0].w * boxes[0].h + TotalArea(boxes[1..])
  }

  /** Percentage of the frame the boxes cover; may exceed 100 when boxes overlap. */
  function Coverage(boxes: seq<Box>, height: nat, width: nat): (c: real)
    requires height > 0 && width > 0
    ensures c >= 0.0
    ensures c == 0.0 <==> TotalArea(boxes) == 0
  {
    (TotalArea(boxes) as real / (height * width) as real) * 100.0
  }

  /** Step-table bonus: 1-3 faces ideal, 4 and 5 tolerated, 6 or more cluttered. */
  function CountBonus(count: nat): (b: real)
    requires count >= 1
    ensures 5.0 <= b <= 30.0
    ensures b == 30.0 <==> count <= 3
    ensures count >= 6 <==> b == 5.0
    ensures count == 4 <==> b == 20.0
    ensures count == 5 <==> b == 10.0
  {
    if count <= 3 then 30.0
    else if count == 4 then 20.0
    else if count == 5 then 10.0
    else 5.0
  }

  /** Coverage-driven base score, `min(3 * coverage, 70)`. */
  function BaseScore(coverage: real): (b: real)
    ensures b <= CoverageCap
    ensures coverage >= 0.0 ==> b >= 0.0
    ensures 3.0 * coverage <= CoverageCap ==> b == 3.0 * coverage
    ensures 3.0 * coverage >= CoverageCap ==> b == CoverageCap
  {
    Min(coverage * 3.0, CoverageCap)
  }

  /** `detect_faces` scoring, from the detector's boxes onward. */
  function DetectFaces(boxes: seq<Box>, height: nat, width: nat): (r: FaceReading)
    requires height > 0 && width > 0
    ensures r.count == |boxes|
    ensures |boxes| == 0 ==> r == FaceReading(0.0, 0)
    ensures 0.0 <= r.score <= 100.0
    ensures 1 <= |boxes| <= 3 ==> r.score >= 30.0
    ensures |boxes| > 0 ==> r.score >= 5.0
  {
    var count := |boxes|;
    if count == 0 then FaceReading(0.0, 0)
    else
      var base := BaseScore(Coverage(boxes, height, width));
      FaceReading(Min(base + CountBonus(count), 100.0), count)
  }

  /** The final 100 cap never bites: base plus bonus is at most 70 + 30. */
  lemma CapIsRedundant(boxes: seq<Box>, height: nat, width: nat)
    requires height > 0 && width > 0 && |boxes| > 0
    ensures DetectFaces(boxes, height, width).score
         == BaseScore(Coverage(boxes, height, width)) + CountBonus(|boxes|)
  {
  }

  /** Coverage adds up box by box: listing the same boxes twice doubles it. */
  lemma {:induction false} TotalAreaAppend(a: seq<Box>, b: seq<Box>)
    ensures TotalArea(a + b) == TotalArea(a) + TotalArea(b)
    decreases |a|
  {
    if |a| == 0 {
      assert a + b == b;
    } else {
      assert (a + b)[0] == a[0];
      assert (a + b)[1..] == a[1..] + b;
      TotalAreaAppend(a[1..], b);
    }
  }

  /** Duplicated detections are not merged: they double the coverage. */
  lemma DuplicatesDoubleCoverage(boxes: seq<Box>, height: nat, width: nat)
    requires height > 0 && width > 0
    ensures Coverage(boxes + boxes, height, width) == 2.0 * Coverage(boxes, height, width)
  {
    TotalAreaAppend(boxes, boxes);
  }

  /** With a face count fixed, more covered area never lowers the score. */
  lemma ScoreMonotoneInArea(a: seq<Box>, b: seq<Box>, height: nat, width: nat)
    requires height > 0 && width > 0
    requires |a| == |b| && TotalArea(a) <= TotalArea(b)
    ensures DetectFaces(a, height, width).score <= DetectFaces(b, height, width).score
  {
    QuotientMonotone(TotalArea(a) as real, TotalArea(b) as real, (height * width) as real);
  }
}
