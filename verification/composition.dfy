/**
 * Composition: rule-of-thirds edge density, left/right and top/bottom edge
 * balance and a penalty for edge mass piled in the centre cell. Edge detection
 * (Canny, thresholds 50/150) is a foreign call; the model starts from its edge
 * map, `height` rows of `width` values, each 0 or 255.
 *
 * `calculate_composition_score` subtracts numpy sums of a uint8 array, which
 * numpy accumulates as uint64: `left - right` wraps modulo 2^64 whenever
 * `right > left`. Both the arithmetic as written (`CompositionScoreAsWritten`)
 * and the evidently intended arithmetic (`CompositionScore`) are modelled, and
 * lemmas relate the two. Before any scoring it builds an interest map of
 * 20-pixel cells and takes its maximum, which raises on a frame under 20 pixels
 * on either side (`CalculateCompositionScore`); the cell sums themselves never
 * reach the score.
 */
module Composition {
  import opened RealMath
  import opened Errors

  /** Value of an edge pixel in the map. */
  const Edge: nat := 255
  /** Modulus of numpy's unsigned 64-bit accumulator. */
  const U64: nat := 0x1_0000_0000_0000_0000

  /** A non-empty rectangular map whose pixels are 0 or 255. */
  predicate IsEdgeMap(e: seq<seq<int>>) {
    && |e| > 0 && |e[0]| > 0
    && (forall y :: 0 <= y < |e| ==> |e[y]| == |e[0]|)
    && (forall y, x :: 0 <= y < |e| && 0 <= x < |e[y]| ==> e[y][x] == 0 || e[y][x] == Edge)
  }

  function Height(e: seq<seq<int>>): nat {
    |e|
  }

  function Width(e: seq<seq<int>>): nat
    requires |e| > 0
  {
    |e[0]|
  }

  /** Sum of `row[x1..x2]`. */
  function RowSum(row: seq<int>, x1: nat, x2: nat): (s: nat)
    requires x1 <= x2 <= |row|
    requires forall x :: 0 <= x < |row| ==> row[x] == 0 || row[x] == Edge
    ensures s <= Edge * (x2 - x1)
    decreases x2 - x1
  {
    if x1 == x2 then 0 else RowSum(row, x1, x2 - 1) + row[x2 - 1]
  }

  /** Sum of the sub-array `e[y1:y2, x1:x2]`. */
  function RegionSum(e: seq<seq<int>>, y1: nat, y2: nat, x1: nat, x2: nat): (s: nat)
    requires IsEdgeMap(e)
    requires y1 <= y2 <= Height(e) && x1 <= x2 <= Width(e)
    ensures s <= Edge * ((y2 - y1) * (x2 - x1))
    decreases y2 - y1
  {
    if y1 == y2 then 0
    else
      var rows := y2 - y1;
      assert (rows - 1) * (x2 - x1) + (x2 - x1) == rows * (x2 - x1);
      RegionSum(e, y1, y2 - 1, x1, x2) + RowSum(e[y2 - 1], x1, x2)
  }

  lemma {:induction false} RowSplit(row: seq<int>, x1: nat, m: nat, x2: nat)
    requires x1 <= m <= x2 <= |row|
    requires forall x :: 0 <= x < |row| ==> row[x] == 0 || row[x] == Edge
    ensures RowSum(row, x1, x2) == RowSum(row, x1, m) + RowSum(row, m, x2)
    decreases x2 - m
  {
    if m < x2 {
      RowSplit(row, x1, m, x2 - 1);
    }
  }

  /** Cutting a region at row `m` splits its edge mass exactly. */
  lemma {:induction false} RowBandSplit(e: seq<seq<int>>, y1: nat, m: nat, y2: nat, x1: nat, x2: nat)
    requires IsEdgeMap(e)
    requires y1 <= m <= y2 <= Height(e) && x1 <= x2 <= Width(e)
    ensures RegionSum(e, y1, y2, x1, x2) == RegionSum(e, y1, m, x1, x2) + RegionSum(e, m, y2, x1, x2)
    decreases y2 - m
  {
    if m < y2 {
      RowBandSplit(e, y1, m, y2 - 1, x1, x2);
    }
  }

  /** Cutting a region at column `m` splits its edge mass exactly. */
  lemma {:induction false} ColumnSplit(e: seq<seq<int>>, y1: nat, y2: nat, x1: nat, m: nat, x2: nat)
    requires IsEdgeMap(e)
    requires y1 <= y2 <= Height(e) && x1 <= m <= x2 <= Width(e)
    ensures RegionSum(e, y1, y2, x1, x2) == RegionSum(e, y1, y2, x1, m) + RegionSum(e, y1, y2, m, x2)
    decreases y2 - y1
  {
    if y1 < y2 {
      ColumnSplit(e, y1, y2 - 1, x1, m, x2);
      RowSplit(e[y2 - 1], x1, m, x2);
    }
  }

  /** A sub-rectangle never holds more edge mass than the whole map. */
  lemma SubRegion(e: seq<seq<int>>, y1: nat, y2: nat, x1: nat, x2: nat)
    requires IsEdgeMap(e)
    requires y1 <= y2 <= Height(e) && x1 <= x2 <= Width(e)
    ensures RegionSum(e, y1, y2, x1, x2) <= RegionSum(e, 0, Height(e), 0, Width(e))
  {
    var h, w := Height(e), Width(e);
    RowBandSplit(e, 0, y1, h, 0, w);
    RowBandSplit(e, y1, y2, h, 0, w);
    ColumnSplit(e, y1, y2, 0, x1, w);
    ColumnSplit(e, y1, y2, x1, x2, w);
  }

  /** An intersection point of the rule-of-thirds grid, column `x` and row `y`. */
  datatype Point = Point(x: nat, y: nat)

  /** The four intersections: top-left, top-right, bottom-left, bottom-right. */
  function ThirdsPoints(height: nat, width: nat): (ps: seq<Point>)
    ensures |ps| == 4
    ensures forall i :: 0 <= i < 4 ==> ps[i].x <= width && ps[i].y <= height
    ensures ps[0].y == ps[1].y && ps[2].y == ps[3].y && ps[0].x == ps[2].x && ps[1].x == ps[3].x
    ensures ps[1].x == 2 * ps[0].x && ps[2].y == 2 * ps[0].y
    ensures 3 * ps[0].x <= width < 3 * ps[0].x + 3
    ensures 3 * ps[0].y <= height < 3 * ps[0].y + 3
  {
    var tw, th := width / 3, height / 3;
    [Point(tw, th), Point(2 * tw, th), Point(tw, 2 * th), Point(2 * tw, 2 * th)]
  }

  /** A half-open index range `[lo, hi)`. */
  datatype Span = Span(lo: nat, hi: nat)

  /** The range `[p - r, p + r)` clipped to `[0, limit)`. */
  function Window(p: nat, r: nat, limit: nat): (s: Span)
    requires p <= limit
    ensures s.lo <= p <= s.hi <= limit
    ensures s.hi - s.lo <= 2 * r
  {
    Span(if p >= r then p - r else 0, if p + r <= limit then p + r else limit)
  }

  /** An index lies in the window exactly when it is in the frame and within `r` of the point (upper end open). */
  lemma WindowMembers(p: nat, r: nat, limit: nat, k: int)
    requires p <= limit
    ensures Window(p, r, limit).lo <= k < Window(p, r, limit).hi
        <==> 0 <= k < limit && p - r <= k < p + r
  {
  }

  /** Half-width of the windows: a twelfth of the longer side, rounded down. */
  function CheckRadius(e: seq<seq<int>>): (r: nat)
    requires IsEdgeMap(e)
    ensures 12 * r <= Height(e) || 12 * r <= Width(e)
    ensures r == 0 <==> Height(e) < 12 && Width(e) < 12
    ensures var longer := if Height(e) >= Width(e) then Height(e) else Width(e);
      12 * r <= longer < 12 * r + 12
  {
    (if Height(e) >= Width(e) then Height(e) else Width(e)) / 12
  }

  /** One intersection's share: `min(25, mean edge value in its window / 10)`, nothing for an empty window. */
  function PointScore(e: seq<seq<int>>, p: Point, r: nat): (s: real)
    requires IsEdgeMap(e) && p.x <= Width(e) && p.y <= Height(e)
    ensures 0.0 <= s <= 25.0
    ensures r == 0 ==> s == 0.0
  {
    var ys := Window(p.y, r, Height(e));
    var xs := Window(p.x, r, Width(e));
    var size := (ys.hi - ys.lo) * (xs.hi - xs.lo);
    if size > 0 then
      Min(25.0, (RegionSum(e, ys.lo, ys.hi, xs.lo, xs.hi) as real / size as real) / 10.0)
    else 0.0
  }

  /** Rule-of-thirds total over the four intersections; frames under 12 pixels on both sides get 0. */
  function RuleOfThirdsScore(e: seq<seq<int>>): (s: real)
    requires IsEdgeMap(e)
    ensures 0.0 <= s <= 100.0
    ensures Height(e) < 12 && Width(e) < 12 ==> s == 0.0
  {
    var ps := ThirdsPoints(Height(e), Width(e));
    var r := CheckRadius(e);
    PointScore(e, ps[0], r) + PointScore(e, ps[1], r) + PointScore(e, ps[2], r) + PointScore(e, ps[3], r)
  }

  /** Edge mass in the two halves along each axis, in the centre cell and in the whole map. */
  datatype Masses = Masses(left: nat, right: nat, top: nat, bottom: nat, center: nat, total: nat)

  /** The column split at width/2 and the row split at height/2 each partition the total mass. */
  function EdgeMasses(e: seq<seq<int>>): (m: Masses)
    requires IsEdgeMap(e)
    ensures m.left + m.right == m.total
    ensures m.top + m.bottom == m.total
    ensures m.center <= m.total
    ensures m.total <= Edge * (Height(e) * Width(e))
  {
    var h, w := Height(e), Width(e);
    var th, tw := h / 3, w / 3;
    ColumnSplit(e, 0, h, 0, w / 2, w);
    RowBandSplit(e, 0, h / 2, h, 0, w);
    SubRegion(e, th, 2 * th, tw, 2 * tw);
    Masses(RegionSum(e, 0, h, 0, w / 2), RegionSum(e, 0, h, w / 2, w),
           RegionSum(e, 0, h / 2, 0, w), RegionSum(e, h / 2, h, 0, w),
           RegionSum(e, th, 2 * th, tw, 2 * tw), RegionSum(e, 0, h, 0, w))
  }

  /** Intended balance of two masses, `1 - |a - b| / (a + b)`, or 0 when both are empty. */
  function Balance(a: nat, b: nat): (r: real)
    ensures 0.0 <= r <= 1.0
    ensures r == 1.0 <==> a == b && a > 0
    ensures r == 0.0 <==> a == 0 || b == 0
  {
    if a + b > 0 then
      BalanceQuotient(a, b);
      1.0 - Abs(a as real - b as real) / (a + b) as real
    else 0.0
  }

  /** The difference's share of the total lies in [0, 1]; it is 0 iff the masses are equal and 1 iff one is 0. */
  lemma BalanceQuotient(a: nat, b: nat)
    requires a + b > 0
    ensures var q := Abs(a as real - b as real) / (a + b) as real;
      && 0.0 <= q <= 1.0 && (q == 0.0 <==> a == b) && (q == 1.0 <==> a == 0 || b == 0)
  {
    var t := (a + b) as real;
    var d: nat := if a >= b then a - b else b - a;
    assert Abs(a as real - b as real) == d as real;
    ShareInUnit(d, a + b);
    var q := d as real / t;
    assert q * t == d as real;
    if q == 1.0 {
      assert d as real == 1.0 * t;
      assert d == a + b;
    }
    if a == 0 || b == 0 {
      assert d as real == t;
      assert (q - 1.0) * t == 0.0;
    }
    if q == 0.0 {
      assert d as real == 0.0 * t;
    }
    if a == b {
      assert d == 0;
    }
  }

  /** numpy's uint64 `a - b`: exact when `a >= b`, wrapped modulo 2^64 otherwise. */
  function WrappingSub(a: nat, b: nat): (d: nat)
    requires a < U64 && b < U64
    ensures a >= b ==> d == a - b
    ensures a < b ==> d == U64 - (b - a)
  {
    (a - b) % U64
  }

  /** The balance as `calculate_composition_score` computes it; `abs` of an unsigned value is the value itself. */
  function BalanceAsWritten(a: nat, b: nat): (r: real)
    requires a < U64 && b < U64
    ensures r <= 1.0
    ensures a >= b ==> r == Balance(a, b)
  {
    if a + b > 0 then 1.0 - WrappingSub(a, b) as real / (a + b) as real else 0.0
  }

  /** Centre penalty `(c - 0.5) * 20` when the centre cell holds more than half of all edge mass. */
  function CenterPenalty(center: nat, total: nat): (r: real)
    requires center <= total
    ensures 0.0 <= r <= 10.0
    ensures r > 0.0 <==> 2 * center > total
  {
    if total > 0 then
      var c := center as real / total as real;
      QuotientAbove(center as real, total as real, 0.5);
      QuotientAbove(center as real, total as real, 1.0);
      if c > 0.5 then Max(0.0, (c - 0.5) * 20.0) else 0.0
    else 0.0
  }

  /** The three terms summed before the final clamp. */
  datatype Terms = Terms(thirds: real, balance: real, penalty: real)

  /** `clamp(thirds + balance - penalty, 0, 100)`. */
  function Combine(t: Terms): (s: real)
    ensures 0.0 <= s <= 100.0
  {
    Clamp(t.thirds + t.balance - t.penalty, 0.0, 100.0)
  }

  /** Terms with the balance computed as intended: thirds in [0, 100], balance in [0, 20], penalty in [0, 10]. */
  function IntendedTerms(e: seq<seq<int>>): (t: Terms)
    requires IsEdgeMap(e)
    ensures 0.0 <= t.thirds <= 100.0
    ensures 0.0 <= t.balance <= 20.0
    ensures 0.0 <= t.penalty <= 10.0
  {
    var m := EdgeMasses(e);
    Terms(RuleOfThirdsScore(e),
          (Balance(m.left, m.right) + Balance(m.top, m.bottom)) * 10.0,
          CenterPenalty(m.center, m.total))
  }

  /** Pixel cap of the as-written model, 2^32. Every edge mass is then at most 255 * 2^32, far
      below 2^64, so a wrapped difference is large enough for `WrappedBalanceCollapses`. */
  const MaxPixels: nat := 0x1_0000_0000

  /** The edge map has at most `MaxPixels` pixels. */
  predicate WithinPixelCap(e: seq<seq<int>>)
    requires IsEdgeMap(e)
  {
    Height(e) * Width(e) <= MaxPixels
  }

  /** Terms with the balance computed on wrapping uint64 differences, as written. */
  function AsWrittenTerms(e: seq<seq<int>>): (t: Terms)
    requires IsEdgeMap(e) && WithinPixelCap(e)
    ensures t.thirds == IntendedTerms(e).thirds && t.penalty == IntendedTerms(e).penalty
    ensures t.balance <= 20.0
  {
    var m := EdgeMasses(e);
    TotalFits(e);
    Terms(RuleOfThirdsScore(e),
          (BalanceAsWritten(m.left, m.right) + BalanceAsWritten(m.top, m.bottom)) * 10.0,
          CenterPenalty(m.center, m.total))
  }

  lemma TotalFits(e: seq<seq<int>>)
    requires IsEdgeMap(e) && WithinPixelCap(e)
    ensures EdgeMasses(e).total <= Edge * MaxPixels
  {
    var m := EdgeMasses(e);
    assert m.total <= Edge * (Height(e) * Width(e));
  }

  /** `calculate_composition_score` with the intended balance. */
  function CompositionScore(e: seq<seq<int>>): (s: real)
    requires IsEdgeMap(e)
    ensures 0.0 <= s <= 100.0
  {
    Combine(IntendedTerms(e))
  }

  /** `calculate_composition_score` with numpy's wrapping subtraction, as written. */
  function CompositionScoreAsWritten(e: seq<seq<int>>): (s: real)
    requires IsEdgeMap(e) && WithinPixelCap(e)
    ensures 0.0 <= s <= 100.0
  {
    Combine(AsWrittenTerms(e))
  }

  /** When neither subtraction wraps, the code as written computes the intended score. */
  lemma AsWrittenAgreesWithoutWrap(e: seq<seq<int>>)
    requires IsEdgeMap(e) && WithinPixelCap(e)
    requires EdgeMasses(e).left >= EdgeMasses(e).right
    requires EdgeMasses(e).top >= EdgeMasses(e).bottom
    ensures CompositionScoreAsWritten(e) == CompositionScore(e)
  {
  }

  /** A wrapped difference is at least 2^64 minus the total, so the balance falls below -1,000,000. */
  lemma WrappedBalanceCollapses(a: nat, b: nat)
    requires a < b && a + b <= Edge * MaxPixels
    ensures BalanceAsWritten(a, b) <= -1000000.0
  {
    var s := (a + b) as real;
    var d := WrappingSub(a, b) as real;
    assert d >= U64 as real - s;
    assert d >= 1000001.0 * s;
    assert d / s >= 1000001.0;
  }

  /** As written, an edge map heavier on the right or at the bottom always scores 0. */
  lemma AsWrittenZeroWhenWrapped(e: seq<seq<int>>)
    requires IsEdgeMap(e) && WithinPixelCap(e)
    requires EdgeMasses(e).right > EdgeMasses(e).left || EdgeMasses(e).bottom > EdgeMasses(e).top
    ensures CompositionScoreAsWritten(e) == 0.0
  {
    var m := EdgeMasses(e);
    TotalFits(e);
    if m.right > m.left {
      WrappedBalanceCollapses(m.left, m.right);
    } else {
      WrappedBalanceCollapses(m.top, m.bottom);
    }
  }

  /** The intended balance treats both sides alike; the as-written one does not. */
  lemma BalanceSymmetric(a: nat, b: nat)
    ensures Balance(a, b) == Balance(b, a)
  {
  }

  /** A map without any edge pixel scores 0 either way. */
  lemma EmptyMapScoresZero(e: seq<seq<int>>)
    requires IsEdgeMap(e) && WithinPixelCap(e)
    requires forall y, x :: 0 <= y < |e| && 0 <= x < |e[y]| ==> e[y][x] == 0
    ensures CompositionScore(e) == 0.0
    ensures CompositionScoreAsWritten(e) == 0.0
  {
    var h, w := Height(e), Width(e);
    ZeroRegion(e, 0, h, 0, w);
    assert EdgeMasses(e).total == 0;
    var r := CheckRadius(e);
    var ps := ThirdsPoints(h, w);
    forall i | 0 <= i < 4
      ensures PointScore(e, ps[i], r) == 0.0
    {
      ZeroPointScore(e, ps[i], r);
    }
    assert RuleOfThirdsScore(e) == 0.0;
  }

  /** Without any edge pixel every window is empty of edges, so no intersection earns anything. */
  lemma ZeroPointScore(e: seq<seq<int>>, p: Point, r: nat)
    requires IsEdgeMap(e) && p.x <= Width(e) && p.y <= Height(e)
    requires forall y, x :: 0 <= y < |e| && 0 <= x < |e[y]| ==> e[y][x] == 0
    ensures PointScore(e, p, r) == 0.0
  {
    var ys := Window(p.y, r, Height(e));
    var xs := Window(p.x, r, Width(e));
    ZeroRegion(e, ys.lo, ys.hi, xs.lo, xs.hi);
  }

  lemma {:induction false} ZeroRow(row: seq<int>, x1: nat, x2: nat)
    requires x1 <= x2 <= |row|
    requires forall x :: 0 <= x < |row| ==> row[x] == 0
    ensures RowSum(row, x1, x2) == 0
    decreases x2 - x1
  {
    if x1 < x2 {
      ZeroRow(row, x1, x2 - 1);
    }
  }

  lemma {:induction false} ZeroRegion(e: seq<seq<int>>, y1: nat, y2: nat, x1: nat, x2: nat)
    requires IsEdgeMap(e)
    requires forall y, x :: 0 <= y < |e| && 0 <= x < |e[y]| ==> e[y][x] == 0
    requires y1 <= y2 <= Height(e) && x1 <= x2 <= Width(e)
    ensures RegionSum(e, y1, y2, x1, x2) == 0
    decreases y2 - y1
  {
    if y1 < y2 {
      ZeroRegion(e, y1, y2 - 1, x1, x2);
      ZeroRow(e[y2 - 1], x1, x2);
    }
  }

  /** Side of the square cells of the interest map. */
  const GridSize: nat := 20

  /**
   * `calculate_composition_score` end to end: the interest map has
   * `(height // 20) x (width // 20)` cells, and taking the maximum of an empty
   * one raises before any score is computed; otherwise the result is the score
   * as written, which is the intended one whenever neither subtraction wraps.
   */
  function CalculateCompositionScore(e: seq<seq<int>>): (r: Result<real>)
    requires IsEdgeMap(e) && WithinPixelCap(e)
    ensures r.Err? <==> Height(e) / GridSize == 0 || Width(e) / GridSize == 0
    ensures r.Err? ==> r.error == EmptyInterestMap
    ensures r.Ok? ==> 0.0 <= r.value <= 100.0 && r.value == CompositionScoreAsWritten(e)
    ensures r.Ok? && EdgeMasses(e).left >= EdgeMasses(e).right && EdgeMasses(e).top >= EdgeMasses(e).bottom
      ==> r.value == CompositionScore(e)
    ensures r.Ok? && (EdgeMasses(e).right > EdgeMasses(e).left || EdgeMasses(e).bottom > EdgeMasses(e).top)
      ==> r.value == 0.0
  {
    if Height(e) < GridSize || Width(e) < GridSize then Err(EmptyInterestMap)
    else
      AsWrittenCases(e);
      Ok(CompositionScoreAsWritten(e))
  }

  /** The score as written is the intended one without a wrap, and 0 with one. */
  lemma AsWrittenCases(e: seq<seq<int>>)
    requires IsEdgeMap(e) && WithinPixelCap(e)
    ensures EdgeMasses(e).left >= EdgeMasses(e).right && EdgeMasses(e).top >= EdgeMasses(e).bottom
      ==> CompositionScoreAsWritten(e) == CompositionScore(e)
    ensures EdgeMasses(e).right > EdgeMasses(e).left || EdgeMasses(e).bottom > EdgeMasses(e).top
      ==> CompositionScoreAsWritten(e) == 0.0
  {
    var m := EdgeMasses(e);
    if m.right > m.left || m.bottom > m.top {
      AsWrittenZeroWhenWrapped(e);
    } else {
      AsWrittenAgreesWithoutWrap(e);
    }
  }

  lemma {:induction false} FullRow(row: seq<int>, x1: nat, x2: nat)
    requires x1 <= x2 <= |row|
    requires forall x :: 0 <= x < |row| ==> row[x] == Edge
    ensures RowSum(row, x1, x2) == Edge * (x2 - x1)
    decreases x2 - x1
  {
    if x1 < x2 {
      FullRow(row, x1, x2 - 1);
    }
  }

  /** In a map of edges only, a region's mass is 255 times its area. */
  lemma {:induction false} FullRegion(e: seq<seq<int>>, y1: nat, y2: nat, x1: nat, x2: nat)
    requires IsEdgeMap(e)
    requires forall y, x :: 0 <= y < |e| && 0 <= x < |e[y]| ==> e[y][x] == Edge
    requires y1 <= y2 <= Height(e) && x1 <= x2 <= Width(e)
    ensures RegionSum(e, y1, y2, x1, x2) == Edge * ((y2 - y1) * (x2 - x1))
    decreases y2 - y1
  {
    if y1 < y2 {
      FullRegion(e, y1, y2 - 1, x1, x2);
      FullRow(e[y2 - 1], x1, x2);
      assert (y2 - 1 - y1) * (x2 - x1) + (x2 - x1) == (y2 - y1) * (x2 - x1);
    }
  }

  /** `height` rows of `width` edge pixels. */
  function FullMap(height: nat, width: nat): (e: seq<seq<int>>)
    requires height > 0 && width > 0
    ensures IsEdgeMap(e) && Height(e) == height && Width(e) == width
    ensures forall y, x :: 0 <= y < |e| && 0 <= x < |e[y]| ==> e[y][x] == Edge
  {
    seq(height, _ => seq(width, _ => Edge))
  }

  /** The masses of a map full of edges: 255 times the area of each part. */
  lemma FullMapMasses(h: nat, w: nat)
    requires h > 0 && w > 0
    ensures var m := EdgeMasses(FullMap(h, w));
      && m.left == Edge * (h * (w / 2)) && m.right == Edge * (h * (w - w / 2))
      && m.top == Edge * ((h / 2) * w) && m.bottom == Edge * ((h - h / 2) * w)
      && m.center == Edge * ((h / 3) * (w / 3)) && m.total == Edge * (h * w)
  {
    var e := FullMap(h, w);
    FullRegion(e, 0, h, 0, w / 2);
    FullRegion(e, 0, h, w / 2, w);
    FullRegion(e, 0, h / 2, 0, w);
    FullRegion(e, h / 2, h, 0, w);
    FullRegion(e, h / 3, 2 * (h / 3), w / 3, 2 * (w / 3));
    FullRegion(e, 0, h, 0, w);
  }

  /** In a map full of edges every non-empty window has mean 255, so its intersection earns the full 25. */
  lemma FullPointScore(e: seq<seq<int>>, p: Point, r: nat)
    requires IsEdgeMap(e)
    requires forall y, x :: 0 <= y < |e| && 0 <= x < |e[y]| ==> e[y][x] == Edge
    requires p.x < Width(e) && p.y < Height(e) && r > 0
    ensures PointScore(e, p, r) == 25.0
  {
    var ys := Window(p.y, r, Height(e));
    var xs := Window(p.x, r, Width(e));
    WindowNonEmpty(p.y, r, Height(e));
    WindowNonEmpty(p.x, r, Width(e));
    var size := (ys.hi - ys.lo) * (xs.hi - xs.lo);
    PositiveProduct(ys.hi - ys.lo, xs.hi - xs.lo);
    FullRegion(e, ys.lo, ys.hi, xs.lo, xs.hi);
    UniformMean(RegionSum(e, ys.lo, ys.hi, xs.lo, xs.hi), size);
  }

  /** A window around a point inside the frame, of radius at least 1, holds that point. */
  lemma WindowNonEmpty(p: nat, r: nat, limit: nat)
    requires p < limit && r > 0
    ensures Window(p, r, limit).lo < Window(p, r, limit).hi
  {
  }

  lemma PositiveProduct(a: nat, b: nat)
    requires a > 0 && b > 0
    ensures a * b > 0
  {
  }

  /** `Edge * size` spread over `size` pixels has mean 255, a tenth of which exceeds 25. */
  lemma UniformMean(sum: nat, size: nat)
    requires size > 0 && sum == Edge * size
    ensures Min(25.0, (sum as real / size as real) / 10.0) == 25.0
  {
    assert sum as real == 255.0 * size as real;
    assert (255.0 * size as real) / size as real == 255.0;
  }

  /** A map full of edges with a side of at least 12 pixels earns the full 100 for the rule of thirds. */
  lemma FullMapThirds(h: nat, w: nat)
    requires h > 0 && w > 0 && (h >= 12 || w >= 12)
    ensures RuleOfThirdsScore(FullMap(h, w)) == 100.0
  {
    var e := FullMap(h, w);
    var r := CheckRadius(e);
    var ps := ThirdsPoints(h, w);
    forall i | 0 <= i < 4
      ensures PointScore(e, ps[i], r) == 25.0
    {
      FullPointScore(e, ps[i], r);
    }
  }

  /** Nine times the centre cell's area is at most the whole frame's. */
  lemma CenterCellNinth(h: nat, w: nat)
    ensures 9 * ((h / 3) * (w / 3)) <= h * w
  {
    var a, b := h / 3, w / 3;
    assert 9 * (a * b) == (3 * a) * (3 * b);
    assert (3 * a) * (3 * b) <= h * (3 * b);
    assert h * (3 * b) <= h * w;
  }

  /** A map full of edges with a side of at least 12 pixels scores the full 100 as intended. */
  lemma FullMapIntended(h: nat, w: nat)
    requires h > 0 && w > 0 && (h >= 12 || w >= 12)
    ensures CompositionScore(FullMap(h, w)) == 100.0
  {
    var e := FullMap(h, w);
    FullMapThirds(h, w);
    FullMapNoPenalty(h, w);
    var t := IntendedTerms(e);
    assert t.thirds == 100.0 && t.penalty == 0.0 && t.balance >= 0.0;
  }

  /** The centre cell of a map full of edges holds at most a ninth of the mass, so it draws no penalty. */
  lemma FullMapNoPenalty(h: nat, w: nat)
    requires h > 0 && w > 0
    ensures 2 * EdgeMasses(FullMap(h, w)).center <= EdgeMasses(FullMap(h, w)).total
  {
    FullMapMasses(h, w);
    CenterCellNinth(h, w);
    NinthBelowHalf((h / 3) * (w / 3), h * w);
  }

  lemma NinthBelowHalf(part: nat, whole: nat)
    requires 9 * part <= whole
    ensures 2 * (Edge * part) <= Edge * whole
  {
  }

  /** In a map full of edges of odd width the right half outweighs the left by one column. */
  lemma FullMapHeavierRight(h: nat, w: nat)
    requires h > 0 && w % 2 == 1
    ensures EdgeMasses(FullMap(h, w)).right == EdgeMasses(FullMap(h, w)).left + Edge * h
  {
    FullMapMasses(h, w);
    OneMoreColumn(h, w, w / 2);
  }

  lemma OneMoreColumn(h: nat, w: nat, k: nat)
    requires w - k == k + 1
    ensures Edge * (h * (w - k)) == Edge * (h * k) + Edge * h
  {
    assert h * (w - k) == h * k + h;
  }

  /**
   * A family of maps on which the code as written goes wrong: full of edges,
   * at least 20x20 so the interest map has a cell, and of odd width so the
   * right half holds one column more than the left. The intended score is
   * the full 100; as written the left/right subtraction wraps and the score is 0.
   */
  lemma WrapCounterexample(h: nat, w: nat)
    requires GridSize <= h && GridSize <= w && w % 2 == 1 && h * w <= MaxPixels
    ensures WithinPixelCap(FullMap(h, w))
    ensures CompositionScore(FullMap(h, w)) == 100.0
    ensures CalculateCompositionScore(FullMap(h, w)) == Ok(0.0)
  {
    FullMapIntended(h, w);
    FullMapHeavierRight(h, w);
  }

  /** The smallest member of the family: 20 rows of 21 edge pixels. */
  lemma WrapWitness()
    ensures CompositionScore(FullMap(20, 21)) == 100.0
    ensures CalculateCompositionScore(FullMap(20, 21)) == Ok(0.0)
  {
    WrapCounterexample(20, 21);
  }
}
