/** The chevron as coverage (ios/ChevronCoverage.h) and the painter that turns coverage into runs
    (ios/CrossPointIOSShim.cpp). Lengths are reals. */
module Chevron {
  import opened Numbers

  datatype Geometry = Geometry(cx: real, top: real, chevH: real, arm: real, keyboardUp: bool)

  /** How far below the apex a sample height is. */
  function Drop(g: Geometry, sy: real): real {
    if g.keyboardUp then g.top + g.chevH - sy else sy - g.top
  }

  /** The length of a pixel's row that the two arms cover at drop `u`. */
  function ArmsOver(cx: real, arm: real, px: int, u: real): real {
    var half := arm / 2.0;
    var lo0, hi0 := cx - u - half, cx - u + half;
    var lo1, hi1 := cx + u - half, cx + u + half;
    var a, b := px as real, px as real + 1.0;
    var c0 := Max(0.0, Min(b, hi0) - Max(a, lo0));
    var c1 := Max(0.0, Min(b, hi1) - Max(a, lo1));
    var outer := Max(0.0, Min(b, Max(hi0, hi1)) - Max(a, Min(lo0, lo1)));
    Min(outer, c0 + c1)
  }

  function CoverageAtRow(g: Geometry, px: int, sy: real): real {
    var u := Drop(g, sy);
    if u < 0.0 || u > g.chevH then 0.0 else ArmsOver(g.cx, g.arm, px, u)
  }

  /** Sample heights of a pixel row: the middles of `subY` equal slices. */
  function SampleY(py: int, k: nat, subY: nat): real
    requires subY > 0
  {
    py as real + (k as real + 0.5) / subY as real
  }

  function RowSum(g: Geometry, px: int, py: int, subY: nat, k: nat): real
    requires k <= subY && subY > 0
  {
    if k == 0 then 0.0
    else RowSum(g, px, py, subY, k - 1) + CoverageAtRow(g, px, SampleY(py, k - 1, subY))
  }

  function PixelCoverage(g: Geometry, px: int, py: int, subY: nat): real
    requires subY > 0
  {
    Min(1.0, RowSum(g, px, py, subY, subY) / subY as real)
  }

  method Coverage(g: Geometry, px: int, py: int, subY: nat) returns (cov: real)
    requires subY > 0
    ensures cov == PixelCoverage(g, px, py, subY)
  {
    cov := 0.0;
    for k := 0 to subY
      invariant cov == RowSum(g, px, py, subY, k)
    {
      cov := cov + CoverageAtRow(g, px, SampleY(py, k, subY));
    }
    cov := Min(1.0, cov / subY as real);
  }

  datatype Bounds = Bounds(x0: int, x1: int, y0: int, y1: int)

  function Ceil(x: real): int {
    -((-x).Floor)
  }

  function BoundsOf(g: Geometry): Bounds {
    var half := g.arm / 2.0;
    Bounds((g.cx - g.chevH - half).Floor, Ceil(g.cx + g.chevH + half), g.top.Floor, Ceil(g.top + g.chevH))
  }

  // --- intervals and their measure ---

  datatype Interval = Interval(lo: real, hi: real) {
    function Length(): (m: real)
      ensures m >= 0.0
    {
      if lo < hi then hi - lo else 0.0
    }

    function Meet(i: Interval): Interval {
      Interval(Max(lo, i.lo), Min(hi, i.hi))
    }
  }

  /** The measure of the union of two intervals, both cut to a window: each part once. */
  function UnionMeasure(window: Interval, i: Interval, j: Interval): real {
    window.Meet(i).Length() + window.Meet(j).Length() - window.Meet(i).Meet(j).Length()
  }

  function LeftArm(g: Geometry, u: real): Interval {
    Interval(g.cx - u - g.arm / 2.0, g.cx - u + g.arm / 2.0)
  }

  function RightArm(g: Geometry, u: real): Interval {
    Interval(g.cx + u - g.arm / 2.0, g.cx + u + g.arm / 2.0)
  }

  function Pixel(px: int): Interval {
    Interval(px as real, px as real + 1.0)
  }

  /** The `min` formula is the exact measure of the pixel's overlap with the union of the two arms. */
  lemma CoverageIsUnionMeasure(g: Geometry, px: int, sy: real)
    requires g.arm >= 0.0
    ensures var u := Drop(g, sy);
      CoverageAtRow(g, px, sy) ==
        if 0.0 <= u <= g.chevH then UnionMeasure(Pixel(px), LeftArm(g, u), RightArm(g, u)) else 0.0
    ensures 0.0 <= CoverageAtRow(g, px, sy) <= 1.0
  {
  }

  /** Keyboard down, the arms spread below the top; keyboard up, above the bottom; and nothing is covered
      above the one or below the other. */
  lemma CoverageIsUnionOfArms(g: Geometry, px: int, sy: real)
    requires g.arm >= 0.0
    ensures var down, up := sy - g.top, g.top + g.chevH - sy;
      CoverageAtRow(g, px, sy) ==
        if sy < g.top || sy > g.top + g.chevH then 0.0
        else if g.keyboardUp then UnionMeasure(Pixel(px), LeftArm(g, up), RightArm(g, up))
        else UnionMeasure(Pixel(px), LeftArm(g, down), RightArm(g, down))
  {
    hide CoverageAtRow, UnionMeasure;
    CoverageIsUnionMeasure(g, px, sy);
  }

  // --- a whole row ---

  /** Coverage of pixels `x0` up to but not including `x1` at one sample height. */
  function RowCoverage(g: Geometry, x0: int, x1: int, sy: real): real
    requires x0 <= x1
    decreases x1 - x0
  {
    if x0 == x1 then 0.0 else RowCoverage(g, x0, x1 - 1, sy) + CoverageAtRow(g, x1 - 1, sy)
  }

  /** How much of an interval lies left of `x`. */
  function LeftOf(i: Interval, x: real): real {
    Interval(i.lo, Min(i.hi, x)).Length()
  }

  lemma CrossingAdds(i: Interval, px: int)
    ensures Pixel(px).Meet(i).Length() == LeftOf(i, (px + 1) as real) - LeftOf(i, px as real)
  {
  }

  /** What lies left of `x` of the two arms, their overlap counted once. */
  function UnionLeftOf(g: Geometry, u: real, x: real): real {
    LeftOf(LeftArm(g, u), x) + LeftOf(RightArm(g, u), x) - LeftOf(LeftArm(g, u).Meet(RightArm(g, u)), x)
  }

  lemma MeetAssociates(w: Interval, i: Interval, j: Interval)
    ensures w.Meet(i).Meet(j) == w.Meet(i.Meet(j))
  {
  }

  /** A pixel's coverage is what crossing it adds of the union. */
  lemma PixelIsDifference(g: Geometry, px: int, sy: real)
    requires g.arm >= 0.0 && 0.0 <= Drop(g, sy) <= g.chevH
    ensures var u := Drop(g, sy);
      CoverageAtRow(g, px, sy) == UnionLeftOf(g, u, (px + 1) as real) - UnionLeftOf(g, u, px as real)
  {
    hide CoverageAtRow;
    var u := Drop(g, sy);
    CoverageIsUnionMeasure(g, px, sy);
    CrossingAdds(LeftArm(g, u), px);
    CrossingAdds(RightArm(g, u), px);
    CrossingAdds(LeftArm(g, u).Meet(RightArm(g, u)), px);
    MeetAssociates(Pixel(px), LeftArm(g, u), RightArm(g, u));
  }

  lemma {:induction false} RowTelescopes(g: Geometry, x0: int, x1: int, sy: real)
    requires g.arm >= 0.0 && 0.0 <= Drop(g, sy) <= g.chevH && x0 <= x1
    ensures var u := Drop(g, sy);
      RowCoverage(g, x0, x1, sy) == UnionLeftOf(g, u, x1 as real) - UnionLeftOf(g, u, x0 as real)
    decreases x1 - x0
  {
    hide CoverageAtRow, UnionLeftOf;
    if x0 < x1 {
      RowTelescopes(g, x0, x1 - 1, sy);
      PixelIsDifference(g, x1 - 1, sy);
    }
  }

  /** Over the bounds, a row carries the whole union: both arms, or the merged span near the apex. */
  lemma RowCarriesBothArms(g: Geometry, sy: real)
    requires g.arm >= 0.0 && 0.0 <= Drop(g, sy) <= g.chevH
    ensures var bb := BoundsOf(g);
      && bb.x0 <= bb.x1
      && RowCoverage(g, bb.x0, bb.x1 + 1, sy) == Min(2.0 * g.arm, 2.0 * Drop(g, sy) + g.arm)
  {
    var bb := BoundsOf(g);
    RowTelescopes(g, bb.x0, bb.x1 + 1, sy);
  }

  /** The same by the picture: the row carries the most at the foot of the arms, which is the bottom with the
      keyboard down and the top with it up, and one arm's width at the apex. */
  lemma RowSpreadsFromApex(g: Geometry, sy: real)
    requires g.arm >= 0.0 && g.top <= sy <= g.top + g.chevH
    ensures var bb := BoundsOf(g);
      && bb.x0 <= bb.x1
      && RowCoverage(g, bb.x0, bb.x1 + 1, sy) ==
        Min(2.0 * g.arm, 2.0 * (if g.keyboardUp then g.top + g.chevH - sy else sy - g.top) + g.arm)
  {
    RowCarriesBothArms(g, sy);
  }

  // --- the two glyphs ---

  /** The glyphs are mirror images, row by row. */
  lemma RowsMirror(g: Geometry, h: Geometry, px: int, sy: real)
    requires h == g.(keyboardUp := !g.keyboardUp)
    ensures CoverageAtRow(h, px, sy) == CoverageAtRow(g, px, 2.0 * g.top + g.chevH - sy)
  {
    hide ArmsOver;
  }

  lemma PartsOfOne(a: real, b: real, n: real)
    requires n > 0.0 && a + b == n
    ensures a / n + b / n == 1.0
  {
    var p, q := a / n, b / n;
    Quotient(a, n);
    Quotient(b, n);
    AddTimes(p, q, n);
    Cancel(p + q, 1.0, n);
    Cancel(1.0, p + q, n);
  }

  lemma SamplesMirror(py: int, m: int, k: nat, subY: nat)
    requires 0 < k <= subY
    ensures m as real - SampleY(py, k - 1, subY) == SampleY(m - 1 - py, subY - k, subY)
  {
    var a, b := (k - 1) as real + 0.5, (subY - k) as real + 0.5;
    assert a + b == subY as real;
    PartsOfOne(a, b, subY as real);
  }

  lemma {:induction false} SumsMirror(g: Geometry, h: Geometry, px: int, py: int, m: int, subY: nat, k: nat)
    requires h == g.(keyboardUp := !g.keyboardUp) && 2.0 * g.top + g.chevH == m as real
    requires k <= subY && subY > 0
    ensures RowSum(h, px, py, subY, k) + RowSum(g, px, m - 1 - py, subY, subY - k)
      == RowSum(g, px, m - 1 - py, subY, subY)
  {
    hide CoverageAtRow, SampleY;
    if k > 0 {
      SumsMirror(g, h, px, py, m, subY, k - 1);
      RowsMirror(g, h, px, SampleY(py, k - 1, subY));
      SamplesMirror(py, m, k, subY);
    }
  }

  /** And pixel by pixel: where the glyph is centred between pixel rows, turning the keyboard's state over
      turns the picture over. */
  lemma PictureMirrors(g: Geometry, h: Geometry, px: int, py: int, m: int, subY: nat)
    requires h == g.(keyboardUp := !g.keyboardUp) && 2.0 * g.top + g.chevH == m as real && subY > 0
    ensures PixelCoverage(h, px, py, subY) == PixelCoverage(g, px, m - 1 - py, subY)
  {
    SumsMirror(g, h, px, py, m, subY, subY);
    assert RowSum(g, px, m - 1 - py, subY, 0) == 0.0;
  }

  // --- outside the bounds ---

  lemma SampleInRow(py: int, k: nat, subY: nat)
    requires k < subY
    ensures py as real < SampleY(py, k, subY) < py as real + 1.0
  {
    var q := (k as real + 0.5) / subY as real;
    assert q * subY as real == k as real + 0.5;
    Cancel(q, 1.0, subY as real);
    Cancel(0.0, q, subY as real);
  }

  lemma {:induction false} RowSumZero(g: Geometry, px: int, py: int, subY: nat, k: nat)
    requires k <= subY && subY > 0
    requires forall j :: 0 <= j < subY ==> CoverageAtRow(g, px, SampleY(py, j, subY)) == 0.0
    ensures RowSum(g, px, py, subY, k) == 0.0
  {
    if k > 0 {
      RowSumZero(g, px, py, subY, k - 1);
    }
  }

  /** Nothing is covered outside the box the painter visits. */
  lemma NothingOutsideBounds(g: Geometry, px: int, py: int, subY: nat)
    requires subY > 0 && g.arm >= 0.0
    requires var bb := BoundsOf(g); !(bb.x0 <= px <= bb.x1 && bb.y0 <= py <= bb.y1)
    ensures PixelCoverage(g, px, py, subY) == 0.0
  {
    forall k | 0 <= k < subY ensures CoverageAtRow(g, px, SampleY(py, k, subY)) == 0.0 {
      SampleInRow(py, k, subY);
    }
    RowSumZero(g, px, py, subY, subY);
    assert 0.0 / subY as real == 0.0;
  }

  /** The box is no larger than it need be: each side is within a pixel of the glyph's own edge. */
  lemma BoundsAreTight(g: Geometry)
    requires g.arm >= 0.0
    ensures var bb, reach := BoundsOf(g), g.chevH + g.arm / 2.0;
      && bb.x0 as real <= g.cx - reach < bb.x0 as real + 1.0
      && bb.x1 as real - 1.0 < g.cx + reach <= bb.x1 as real
      && bb.y0 as real <= g.top < bb.y0 as real + 1.0
      && bb.y1 as real - 1.0 < g.top + g.chevH <= bb.y1 as real
  {
  }

  // --- the run-length painter ---

  const SUB_Y := 4

  /** `lroundf(coverage * 255)`. */
  function AlphaAt(g: Geometry, px: int, py: int): int {
    (PixelCoverage(g, px, py, SUB_Y) * 255.0 + 0.5).Floor
  }

  lemma {:induction false} RowSumInRange(g: Geometry, px: int, py: int, subY: nat, k: nat)
    requires k <= subY && subY > 0 && g.arm >= 0.0
    ensures 0.0 <= RowSum(g, px, py, subY, k) <= k as real
  {
    hide CoverageAtRow;
    if k > 0 {
      RowSumInRange(g, px, py, subY, k - 1);
      CoverageIsUnionMeasure(g, px, SampleY(py, k - 1, subY));
    }
  }

  /** An alpha fits a byte, and is the one nearest to four rows' worth of coverage. */
  lemma AlphaIsByte(g: Geometry, px: int, py: int)
    requires g.arm >= 0.0
    ensures 0 <= AlphaAt(g, px, py) <= 255
    ensures -0.5 <= AlphaAt(g, px, py) as real - 255.0 * PixelCoverage(g, px, py, 4) <= 0.5
  {
    RowSumInRange(g, px, py, SUB_Y, SUB_Y);
  }

  /** One filled rectangle: columns `x` to `x + w` of a row, at one alpha. */
  datatype Run = Run(x: int, w: int, alpha: int) {
    predicate Covers(px: int) {
      x <= px < x + w
    }
  }

  /** The alphas a list of runs draws on a pixel, in order. */
  function Drawn(runs: seq<Run>, px: int): seq<int> {
    if runs == [] then []
    else
      var last := runs[|runs| - 1];
      Drawn(runs[..|runs| - 1], px) + if last.Covers(px) then [last.alpha] else []
  }

  function Once(alpha: int): seq<int> {
    if alpha > 0 then [alpha] else []
  }

  /** What the pixels `x0` to `x1` of a row should get, and the rest nothing. */
  function Wanted(g: Geometry, x0: int, x1: int, py: int, px: int): seq<int> {
    if x0 <= px < x1 then Once(AlphaAt(g, px, py)) else []
  }

  /** Runs of equal coverage of one row collapse into one rectangle each. */
  method PaintRow(g: Geometry, x0: int, x1: int, py: int) returns (runs: seq<Run>)
    requires g.arm >= 0.0 && x0 <= x1
    ensures forall px :: Drawn(runs, px) == Wanted(g, x0, x1 + 1, py, px)
  {
    hide AlphaAt;
    runs := [];
    var runStart, runAlpha := x0, 0;
    for px := x0 to x1 + 2
      invariant x0 <= runStart <= px
      invariant px == x1 + 2 ==> runAlpha == 0
      invariant forall q :: runStart <= q < px && q <= x1 ==> AlphaAt(g, q, py) == runAlpha
      invariant forall q :: Drawn(runs, q) == Wanted(g, x0, if runStart <= x1 then runStart else x1 + 1, py, q)
    {
      var alpha := 0;
      if px <= x1 {
        AlphaIsByte(g, px, py);
        alpha := Alpha(g, px, py);
      }
      if alpha != runAlpha {
        if runAlpha > 0 {
          ghost var before := runs;
          runs := runs + [Run(runStart, px - runStart, runAlpha)];
          assert runs[..|runs| - 1] == before;
        }
        runStart, runAlpha := px, alpha;
      }
    }
  }

  method Alpha(g: Geometry, px: int, py: int) returns (alpha: int)
    ensures alpha == AlphaAt(g, px, py)
  {
    var cov := Coverage(g, px, py, SUB_Y);
    alpha := (cov * 255.0 + 0.5).Floor;
  }

  /** The runs of a row of the picture: row `k` of `rows` is `y0 + k`, and other rows have none. */
  function RowOf(rows: seq<seq<Run>>, y0: int, py: int): seq<Run> {
    if y0 <= py < y0 + |rows| then rows[py - y0] else []
  }

  /** The whole chevron: every pixel of the plane with a non-zero alpha is drawn exactly once, with its
      own alpha, and no other pixel is drawn. */
  method PaintChevron(g: Geometry) returns (rows: seq<seq<Run>>, y0: int)
    requires g.arm >= 0.0 && g.chevH >= 0.0
    ensures forall px, py :: Drawn(RowOf(rows, y0, py), px) == Once(AlphaAt(g, px, py))
  {
    var bb := BoundsOf(g);
    y0, rows := bb.y0, [];
    for py := bb.y0 to bb.y1 + 1
      invariant |rows| == py - y0
      invariant forall k, px :: 0 <= k < |rows| ==> Drawn(rows[k], px) == Wanted(g, bb.x0, bb.x1 + 1, y0 + k, px)
    {
      var row := PaintRow(g, bb.x0, bb.x1, py);
      rows := rows + [row];
    }
    forall px, py ensures Drawn(RowOf(rows, y0, py), px) == Once(AlphaAt(g, px, py)) {
      if !(bb.x0 <= px <= bb.x1 && bb.y0 <= py <= bb.y1) {
        NothingOutsideBounds(g, px, py, SUB_Y);
      }
    }
  }
}
