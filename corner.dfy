/** `gc9a01a_draw_round_corner` (gc9a01a.c:850-890) and
    `gc9a01a_fill_round_corner` (gc9a01a.c:909-957): quarter circles of the
    midpoint algorithm, selected by a corner bitmask. */
module Corner {
  import opened Common
  import opened Circle
  import opened Columns

  /** `mask & bit` for a single-bit `bit`, on the `uint8_t` corner mask. */
  predicate HasBit(mask: bv8, bit: bv8)
  {
    mask & bit != 0
  }

  /** The quadrant about (x, y) a corner bit selects, rows growing
      downwards: 1 upper left, 2 upper right, 4 lower right, 8 lower left. */
  predicate InQuadrant(bit: bv8, x: int, y: int, p: Point)
  {
    && ((bit == 2 || bit == 4) ==> p.x >= x)
    && ((bit == 1 || bit == 8) ==> p.x <= x)
    && ((bit == 4 || bit == 8) ==> p.y >= y)
    && ((bit == 1 || bit == 2) ==> p.y <= y)
  }

  predicate IsCornerBit(bit: bv8) { bit == 1 || bit == 2 || bit == 4 || bit == 8 }

  /** One step of the corner loop: a non-negative f steps yc down and adds
      ddF_y = -2*(yc - 1); then xc steps up and ddF_x = 2*(xc + 1) + 1 is
      added. ddF_x and ddF_y are always 2*xc + 1 and -2*yc. */
  function CornerNextY(yc: int, f: int): int { if f >= 0 then yc - 1 else yc }

  function CornerNextF(xc: int, yc: int, f: int): int
  {
    (if f >= 0 then f - 2 * (yc - 1) else f) + 2 * (xc + 1) + 1
  }

  /** The pixels one iteration writes at offsets (X, Y), for bits 4, 2, 8 and
      1 in the order of gc9a01a.c:867-886. The source calls an undeclared
      `writePixel`; write_pixel is meant. */
  function CornerPixels(x: int, y: int, mask: bv8, X: int, Y: int): seq<Point>
  {
    (if HasBit(mask, 4) then [Point(x + X, y + Y), Point(x + Y, y + X)] else [])
    + (if HasBit(mask, 2) then [Point(x + X, y - Y), Point(x + Y, y - X)] else [])
    + (if HasBit(mask, 8) then [Point(x - Y, y + X), Point(x - X, y + Y)] else [])
    + (if HasBit(mask, 1) then [Point(x - Y, y - X), Point(x - X, y - Y)] else [])
  }

  /** The two pixels a corner bit writes when it is set. */
  function Pair(b: bool, p: Point, q: Point): seq<Point>
  {
    if b then [p, q] else []
  }

  /** CornerPixels with the eight coordinates given by name. */
  lemma CornerPixelsAt(x: int, y: int, mask: bv8, X: int, Y: int,
                       xp: int, xm: int, yp: int, ym: int, sp: int, sm: int, tp: int, tm: int)
    requires xp == x + X && xm == x - X && yp == y + Y && ym == y - Y
    requires sp == x + Y && sm == x - Y && tp == y + X && tm == y - X
    ensures CornerPixels(x, y, mask, X, Y)
            == Pair(HasBit(mask, 4), Point(xp, yp), Point(sp, tp)) + Pair(HasBit(mask, 2), Point(xp, ym), Point(sp, tm))
             + Pair(HasBit(mask, 8), Point(sm, tp), Point(xm, yp)) + Pair(HasBit(mask, 1), Point(sm, tm), Point(xm, ym))
  {
  }

  /** The loop of draw_round_corner from offsets (xc, yc) with decision f. */
  function CornerRun(x: int, y: int, mask: bv8, xc: int, yc: int, f: int): seq<Point>
    decreases yc - xc
  {
    if xc >= yc then []
    else
      var Y := CornerNextY(yc, f);
      CornerPixels(x, y, mask, xc + 1, Y) + CornerRun(x, y, mask, xc + 1, Y, CornerNextF(xc, yc, f))
  }

  /** One iteration of draw_round_corner: its pixels at the updated
      offsets, then the run from there. */
  lemma CornerNext(x: int, y: int, mask: bv8, xc: int, yc: int, f: int, xc': int, yc': int, f': int)
    requires xc < yc
    requires xc' == xc + 1 && yc' == CornerNextY(yc, f) && f' == CornerNextF(xc, yc, f)
    ensures CornerRun(x, y, mask, xc, yc, f) == CornerPixels(x, y, mask, xc', yc') + CornerRun(x, y, mask, xc', yc', f')
  {
  }

  /** The points draw_round_corner writes for radius r about (x, y). */
  function CornerPoints(x: int, y: int, r: int, mask: bv8): seq<Point>
  {
    CornerRun(x, y, mask, 0, r, 1 - r)
  }

  /** An offset from the centre whose squared distance is within its larger
      coordinate of r*r, on either side. */
  predicate NearArc(r: int, U: int, V: int)
  {
    var m := Max(Abs(U), Abs(V));
    Sq(r) - m <= Sq(U) + Sq(V) <= Sq(r) + m
  }

  /** The loop state of draw_round_corner: f is the midpoint decision of the
      next column, bounded so that the point chosen stays near the arc. */
  predicate CornerInv(r: int, xc: int, yc: int, f: int)
  {
    && 0 <= xc
    && f == Sq(xc + 1) + Sq(yc) - yc - Sq(r)
    && (xc < yc ==> -2 * yc <= f)
    && (xc <= yc - 2 ==> f <= 2 * yc - 2)
    && (xc == yc - 1 ==> f <= 2 * yc - 1)
  }

  lemma CornerInvInit(r: int)
    ensures CornerInv(r, 0, r, 1 - r)
  {
  }

  lemma CornerInvStep(r: int, xc: int, yc: int, f: int)
    requires CornerInv(r, xc, yc, f) && xc < yc
    ensures CornerInv(r, xc + 1, CornerNextY(yc, f), CornerNextF(xc, yc, f))
  {
    SqSteps(xc + 1);
    SqSteps(yc);
  }

  /** The offsets an iteration plots lie near the arc. */
  lemma CornerStepNear(r: int, xc: int, yc: int, f: int)
    requires CornerInv(r, xc, yc, f) && xc < yc
    ensures var Y := CornerNextY(yc, f);
            0 <= Y && NearArc(r, xc + 1, Y)
  {
    SqSteps(yc);
  }

  /** NearArc does not depend on the signs or the order of the offsets. */
  lemma NearArcSymmetric(r: int, U: int, V: int)
    requires NearArc(r, U, V)
    ensures NearArc(r, -U, V) && NearArc(r, U, -V) && NearArc(r, -U, -V)
    ensures NearArc(r, V, U) && NearArc(r, -V, U) && NearArc(r, V, -U) && NearArc(r, -V, -U)
  {
    SqSteps(U);
    SqSteps(V);
  }

  /** (U, V) is (X, Y) with its coordinates possibly exchanged and negated. */
  predicate OctantImage(X: int, Y: int, U: int, V: int)
  {
    || (U == X && V == Y) || (U == Y && V == X) || (U == X && V == -Y) || (U == Y && V == -X)
    || (U == -Y && V == X) || (U == -X && V == Y) || (U == -Y && V == -X) || (U == -X && V == -Y)
  }

  lemma CornerPixelsImages(x: int, y: int, mask: bv8, X: int, Y: int)
    ensures forall p :: p in CornerPixels(x, y, mask, X, Y) ==> OctantImage(X, Y, p.x - x, p.y - y)
  {
  }

  lemma NearArcImage(r: int, X: int, Y: int, U: int, V: int)
    requires NearArc(r, X, Y) && OctantImage(X, Y, U, V)
    ensures NearArc(r, U, V)
  {
    NearArcSymmetric(r, X, Y);
  }

  /** Every point of ps lies near the circle of radius r about (x, y). */
  predicate AllNear(r: int, x: int, y: int, ps: seq<Point>)
  {
    forall p :: p in ps ==> NearArc(r, p.x - x, p.y - y)
  }

  lemma AllNearConcat(r: int, x: int, y: int, a: seq<Point>, b: seq<Point>)
    requires AllNear(r, x, y, a) && AllNear(r, x, y, b)
    ensures AllNear(r, x, y, a + b)
  {
  }

  lemma CornerPixelsNear(x: int, y: int, r: int, mask: bv8, X: int, Y: int)
    requires NearArc(r, X, Y)
    ensures AllNear(r, x, y, CornerPixels(x, y, mask, X, Y))
  {
    CornerPixelsImages(x, y, mask, X, Y);
    forall p | p in CornerPixels(x, y, mask, X, Y) ensures NearArc(r, p.x - x, p.y - y) {
      NearArcImage(r, X, Y, p.x - x, p.y - y);
    }
  }

  lemma {:induction false} CornerRunNear(x: int, y: int, r: int, mask: bv8, xc: int, yc: int, f: int)
    requires CornerInv(r, xc, yc, f)
    ensures AllNear(r, x, y, CornerRun(x, y, mask, xc, yc, f))
    decreases yc - xc
  {
    if xc < yc {
      var X, Y, f' := xc + 1, CornerNextY(yc, f), CornerNextF(xc, yc, f);
      CornerStepNear(r, xc, yc, f);
      CornerInvStep(r, xc, yc, f);
      CornerRunNear(x, y, r, mask, X, Y, f');
      CornerPixelsNear(x, y, r, mask, X, Y);
      CornerNext(x, y, mask, xc, yc, f, X, Y, f');
      AllNearConcat(r, x, y, CornerPixels(x, y, mask, X, Y), CornerRun(x, y, mask, X, Y, f'));
    }
  }

  lemma CornerPixelsQuadrant(x: int, y: int, bit: bv8, X: int, Y: int)
    requires IsCornerBit(bit) && 0 <= X && 0 <= Y
    ensures forall p :: p in CornerPixels(x, y, bit, X, Y) ==> InQuadrant(bit, x, y, p)
  {
  }

  lemma {:induction false} CornerRunQuadrant(x: int, y: int, bit: bv8, xc: int, yc: int, f: int)
    requires IsCornerBit(bit) && 0 <= xc
    ensures forall p :: p in CornerRun(x, y, bit, xc, yc, f) ==> InQuadrant(bit, x, y, p)
    decreases yc - xc
  {
    if xc < yc {
      var Y := CornerNextY(yc, f);
      CornerPixelsQuadrant(x, y, bit, xc + 1, Y);
      CornerRunQuadrant(x, y, bit, xc + 1, Y, CornerNextF(xc, yc, f));
      assert CornerRun(x, y, bit, xc, yc, f)
          == CornerPixels(x, y, bit, xc + 1, Y) + CornerRun(x, y, bit, xc + 1, Y, CornerNextF(xc, yc, f));
    }
  }

  lemma CornerPixelsSplit(x: int, y: int, mask: bv8, X: int, Y: int)
    ensures forall p :: p in CornerPixels(x, y, mask, X, Y) <==>
              || (HasBit(mask, 1) && p in CornerPixels(x, y, 1, X, Y))
              || (HasBit(mask, 2) && p in CornerPixels(x, y, 2, X, Y))
              || (HasBit(mask, 4) && p in CornerPixels(x, y, 4, X, Y))
              || (HasBit(mask, 8) && p in CornerPixels(x, y, 8, X, Y))
  {
    assert HasBit(1, 1) && !HasBit(1, 2) && !HasBit(1, 4) && !HasBit(1, 8);
    assert !HasBit(2, 1) && HasBit(2, 2) && !HasBit(2, 4) && !HasBit(2, 8);
    assert !HasBit(4, 1) && !HasBit(4, 2) && HasBit(4, 4) && !HasBit(4, 8);
    assert !HasBit(8, 1) && !HasBit(8, 2) && !HasBit(8, 4) && HasBit(8, 8);
  }

  lemma {:induction false} CornerRunSplit(x: int, y: int, mask: bv8, xc: int, yc: int, f: int)
    ensures forall p :: p in CornerRun(x, y, mask, xc, yc, f) <==>
              || (HasBit(mask, 1) && p in CornerRun(x, y, 1, xc, yc, f))
              || (HasBit(mask, 2) && p in CornerRun(x, y, 2, xc, yc, f))
              || (HasBit(mask, 4) && p in CornerRun(x, y, 4, xc, yc, f))
              || (HasBit(mask, 8) && p in CornerRun(x, y, 8, xc, yc, f))
    decreases yc - xc
  {
    if xc < yc {
      var Y := CornerNextY(yc, f);
      var f' := CornerNextF(xc, yc, f);
      CornerPixelsSplit(x, y, mask, xc + 1, Y);
      CornerRunSplit(x, y, mask, xc + 1, Y, f');
      assert forall m: bv8 ::
        CornerRun(x, y, m, xc, yc, f) == CornerPixels(x, y, m, xc + 1, Y) + CornerRun(x, y, m, xc + 1, Y, f');
    }
  }

  /** Corner bits that are mirror images in a vertical axis. */
  predicate MirrorBits(m: bv8, n: bv8)
  {
    (m == 1 && n == 2) || (m == 2 && n == 1) || (m == 4 && n == 8) || (m == 8 && n == 4)
  }

  /** The pair of pixels each single corner bit selects. */
  lemma SingleBitPixels(x: int, y: int, X: int, Y: int)
    ensures CornerPixels(x, y, 1, X, Y) == [Point(x - Y, y - X), Point(x - X, y - Y)]
    ensures CornerPixels(x, y, 2, X, Y) == [Point(x + X, y - Y), Point(x + Y, y - X)]
    ensures CornerPixels(x, y, 4, X, Y) == [Point(x + X, y + Y), Point(x + Y, y + X)]
    ensures CornerPixels(x, y, 8, X, Y) == [Point(x - Y, y + X), Point(x - X, y + Y)]
  {
  }

  lemma CornerPixelsReflect(s: int, x: int, x': int, y: int, m: bv8, n: bv8, X: int, Y: int)
    requires MirrorBits(m, n) && x' == s - x
    ensures ReflectsInto(s, CornerPixels(x, y, m, X, Y), CornerPixels(x', y, n, X, Y))
  {
    SingleBitPixels(x, y, X, Y);
    SingleBitPixels(x', y, X, Y);
    if m == 1 {
      PairReflects(s, Point(x - Y, y - X), Point(x - X, y - Y), Point(x' + X, y - Y), Point(x' + Y, y - X));
    } else if m == 2 {
      PairReflects(s, Point(x + X, y - Y), Point(x + Y, y - X), Point(x' - Y, y - X), Point(x' - X, y - Y));
    } else if m == 4 {
      PairReflects(s, Point(x + X, y + Y), Point(x + Y, y + X), Point(x' - Y, y + X), Point(x' - X, y + Y));
    } else {
      PairReflects(s, Point(x - Y, y + X), Point(x - X, y + Y), Point(x' + X, y + Y), Point(x' + Y, y + X));
    }
  }

  /** Two points whose mirror images are the other pair's, crosswise. */
  lemma PairReflects(s: int, p: Point, q: Point, p': Point, q': Point)
    requires Reflect(s, p) == q' && Reflect(s, q) == p'
    ensures ReflectsInto(s, [p, q], [p', q'])
  {
  }

  lemma {:induction false} CornerRunReflect(s: int, x: int, x': int, y: int, m: bv8, n: bv8, xc: int, yc: int, f: int)
    requires MirrorBits(m, n) && x' == s - x
    ensures ReflectsInto(s, CornerRun(x, y, m, xc, yc, f), CornerRun(x', y, n, xc, yc, f))
    decreases yc - xc
  {
    if xc < yc {
      var X, Y, f' := xc + 1, CornerNextY(yc, f), CornerNextF(xc, yc, f);
      CornerRunReflect(s, x, x', y, m, n, X, Y, f');
      CornerPixelsReflect(s, x, x', y, m, n, X, Y);
      CornerNext(x, y, m, xc, yc, f, X, Y, f');
      CornerNext(x', y, n, xc, yc, f, X, Y, f');
      ReflectsConcat(s, CornerPixels(x, y, m, X, Y), CornerRun(x, y, m, X, Y, f'),
                     CornerPixels(x', y, n, X, Y), CornerRun(x', y, n, X, Y, f'));
    }
  }

  /** The lines bits 1 and 2 of a fill corner draw for column offset a:
      bit 1 at x0 + a, then bit 2 at x0 - a (gc9a01a.c:938-941, 945-948). */
  function ColumnPair(x0: int, mask: bv8, a: int, top: int, h: int): seq<Column>
  {
    (if HasBit(mask, 1) then [Column(x0 + a, top, h)] else [])
    + (if HasBit(mask, 2) then [Column(x0 - a, top, h)] else [])
  }

  /** The lines one iteration of fill_round_corner draws: those at the new
      offset while it is still below the diagonal, then those at the
      previous offset when y has just stepped down. At the head of every
      iteration px == x and py == y (both start as x and y and are set to
      them at the end), so the lines at the previous offset are drawn at
      (py, px) = (y, x) (gc9a01a.c:932-951). */
  function FillCornerStep(x0: int, y0: int, mask: bv8, delta: int, x: int, y: int, f: int): seq<Column>
  {
    var y' := CornerNextY(y, f);
    (if x + 1 < y' + 1 then ColumnPair(x0, mask, x + 1, y0 - y', 2 * y' + delta) else [])
    + (if y' != y then ColumnPair(x0, mask, y, y0 - x, 2 * x + delta) else [])
  }

  /** FillCornerStep with the updated offsets and the line arguments given
      by name. */
  lemma FillCornerStepAt(x0: int, y0: int, mask: bv8, d: int, xo: int, yo: int, fo: int, x: int, y: int,
                         top1: int, h1: int, top2: int, h2: int)
    requires x == xo + 1 && y == CornerNextY(yo, fo)
    requires top1 == y0 - y && h1 == 2 * y + d && top2 == y0 - xo && h2 == 2 * xo + d
    ensures FillCornerStep(x0, y0, mask, d, xo, yo, fo)
            == (if x < y + 1 then ColumnPair(x0, mask, x, top1, h1) else [])
             + (if y != yo then ColumnPair(x0, mask, yo, top2, h2) else [])
  {
  }

  /** The loop of fill_round_corner from offsets (x, y) with decision f,
      delta already incremented (gc9a01a.c:930-955). */
  function FillCornerRun(x0: int, y0: int, mask: bv8, delta: int, x: int, y: int, f: int): seq<Column>
    decreases y - x
  {
    if x >= y then []
    else FillCornerStep(x0, y0, mask, delta, x, y, f) + FillCornerRun(x0, y0, mask, delta, x + 1, CornerNextY(y, f), CornerNextF(x, y, f))
  }

  /** One iteration of fill_round_corner: its lines, then the run from the
      updated offsets. */
  lemma FillCornerNext(x0: int, y0: int, mask: bv8, delta: int, x: int, y: int, f: int, x': int, y': int, f': int)
    requires x < y
    requires x' == x + 1 && y' == CornerNextY(y, f) && f' == CornerNextF(x, y, f)
    ensures FillCornerRun(x0, y0, mask, delta, x, y, f)
            == FillCornerStep(x0, y0, mask, delta, x, y, f) + FillCornerRun(x0, y0, mask, delta, x', y', f')
  {
  }

  /** The vertical lines fill_round_corner draws (gc9a01a.c:921 increments
      delta first). */
  function FillCornerColumns(x0: int, y0: int, r: int, mask: bv8, delta: int): seq<Column>
  {
    FillCornerRun(x0, y0, mask, delta + 1, 0, r, 1 - r)
  }

  function FillCornerPoints(x0: int, y0: int, r: int, mask: bv8, delta: int): seq<Point>
  {
    ColumnsPoints(FillCornerColumns(x0, y0, r, mask, delta))
  }

  /** Bit 1 draws columns right of x0 and bit 2 columns left of it, at
      most r away. */
  predicate OnSide(x0: int, r: int, mask: bv8, c: Column)
  {
    if mask == 1 then x0 < c.x <= x0 + r else x0 - r <= c.x < x0
  }

  lemma {:induction false} FillCornerRunSides(x0: int, y0: int, r: int, mask: bv8, delta: int, x: int, y: int, f: int)
    requires 0 <= x && y <= r && (mask == 1 || mask == 2)
    ensures forall c :: c in FillCornerRun(x0, y0, mask, delta, x, y, f) ==> OnSide(x0, r, mask, c)
    decreases y - x
  {
    if x < y {
      FillCornerRunSides(x0, y0, r, mask, delta, x + 1, CornerNextY(y, f), CornerNextF(x, y, f));
    }
  }

  lemma ColumnPairReflect(s: int, x0: int, x0': int, m: bv8, n: bv8, a: int, top: int, h: int)
    requires ((m == 1 && n == 2) || (m == 2 && n == 1)) && x0' == s - x0
    ensures MirrorsInto(s, ColumnPair(x0, m, a, top, h), ColumnPair(x0', n, a, top, h))
  {
  }

  lemma FillCornerStepReflect(s: int, x0: int, x0': int, y0: int, m: bv8, n: bv8, delta: int, x: int, y: int, f: int)
    requires ((m == 1 && n == 2) || (m == 2 && n == 1)) && x0' == s - x0
    ensures MirrorsInto(s, FillCornerStep(x0, y0, m, delta, x, y, f), FillCornerStep(x0', y0, n, delta, x, y, f))
  {
    var y' := CornerNextY(y, f);
    var a1 := if x + 1 < y' + 1 then ColumnPair(x0, m, x + 1, y0 - y', 2 * y' + delta) else [];
    var a2 := if y' != y then ColumnPair(x0, m, y, y0 - x, 2 * x + delta) else [];
    var b1 := if x + 1 < y' + 1 then ColumnPair(x0', n, x + 1, y0 - y', 2 * y' + delta) else [];
    var b2 := if y' != y then ColumnPair(x0', n, y, y0 - x, 2 * x + delta) else [];
    if x + 1 < y' + 1 {
      ColumnPairReflect(s, x0, x0', m, n, x + 1, y0 - y', 2 * y' + delta);
    }
    if y' != y {
      ColumnPairReflect(s, x0, x0', m, n, y, y0 - x, 2 * x + delta);
    }
    MirrorsConcat(s, a1, a2, b1, b2);
    assert FillCornerStep(x0, y0, m, delta, x, y, f) == a1 + a2;
    assert FillCornerStep(x0', y0, n, delta, x, y, f) == b1 + b2;
  }

  /** The bit-m loop about x0 and the bit-n loop about s - x0 draw mirrored lines. */
  lemma {:induction false} FillCornerRunReflect(s: int, x0: int, x0': int, y0: int, m: bv8, n: bv8, delta: int, x: int, y: int, f: int)
    requires ((m == 1 && n == 2) || (m == 2 && n == 1)) && x0' == s - x0
    ensures MirrorsInto(s, FillCornerRun(x0, y0, m, delta, x, y, f), FillCornerRun(x0', y0, n, delta, x, y, f))
    decreases y - x
  {
    if x < y {
      var y', f' := CornerNextY(y, f), CornerNextF(x, y, f);
      FillCornerRunReflect(s, x0, x0', y0, m, n, delta, x + 1, y', f');
      FillCornerStepReflect(s, x0, x0', y0, m, n, delta, x, y, f);
      FillCornerNext(x0, y0, m, delta, x, y, f, x + 1, y', f');
      FillCornerNext(x0', y0, n, delta, x, y, f, x + 1, y', f');
      MirrorsConcat(s, FillCornerStep(x0, y0, m, delta, x, y, f), FillCornerRun(x0, y0, m, delta, x + 1, y', f'),
                    FillCornerStep(x0', y0, n, delta, x, y, f), FillCornerRun(x0', y0, n, delta, x + 1, y', f'));
    }
  }

  lemma FillCornerColumnSides(x0: int, y0: int, r: int, mask: bv8, delta: int)
    requires mask == 1 || mask == 2
    ensures forall c :: c in FillCornerColumns(x0, y0, r, mask, delta) ==> OnSide(x0, r, mask, c)
  {
    FillCornerRunSides(x0, y0, r, mask, delta + 1, 0, r, 1 - r);
  }
}

/** What one round corner draws, for any centre and radius. */
module CornerShape {
  import opened Common
  import opened Columns
  import opened Corner

  /** Every point of a round corner lies near the circle of radius r about
      its centre. */
  lemma CornerNear(x: int, y: int, r: int, mask: bv8)
    ensures forall p :: p in CornerPoints(x, y, r, mask) ==> NearArc(r, p.x - x, p.y - y)
  {
    CornerInvInit(r);
    CornerRunNear(x, y, r, mask, 0, r, 1 - r);
  }

  /** A single corner bit draws only in its own quadrant. */
  lemma CornerQuadrant(x: int, y: int, r: int, bit: bv8)
    requires IsCornerBit(bit)
    ensures forall p :: p in CornerPoints(x, y, r, bit) ==> InQuadrant(bit, x, y, p)
  {
    CornerRunQuadrant(x, y, bit, 0, r, 1 - r);
  }

  /** A mask draws exactly the union of the quadrants its bits select. */
  lemma CornerMask(x: int, y: int, r: int, mask: bv8)
    ensures forall p :: p in CornerPoints(x, y, r, mask) <==>
              || (HasBit(mask, 1) && p in CornerPoints(x, y, r, 1))
              || (HasBit(mask, 2) && p in CornerPoints(x, y, r, 2))
              || (HasBit(mask, 4) && p in CornerPoints(x, y, r, 4))
              || (HasBit(mask, 8) && p in CornerPoints(x, y, r, 8))
  {
    CornerRunSplit(x, y, mask, 0, r, 1 - r);
  }

  /** Corners of mirrored bits about mirrored centres are mirror images:
      1 and 2 swap, and so do 4 and 8. */
  lemma CornerReflect(s: int, x: int, x': int, y: int, r: int, m: bv8, n: bv8)
    requires MirrorBits(m, n) && x' == s - x
    ensures ReflectsInto(s, CornerPoints(x, y, r, m), CornerPoints(x', y, r, n))
  {
    CornerRunReflect(s, x, x', y, m, n, 0, r, 1 - r);
  }

  /** Bit 1 of a fill corner draws only columns right of x0 and bit 2 only
      columns left of it, never further than r. */
  lemma FillCornerSides(x0: int, y0: int, r: int, delta: int)
    ensures forall p :: p in FillCornerPoints(x0, y0, r, 1, delta) ==> x0 < p.x <= x0 + r
    ensures forall p :: p in FillCornerPoints(x0, y0, r, 2, delta) ==> x0 - r <= p.x < x0
  {
    FillCornerColumnSides(x0, y0, r, 1, delta);
    FillCornerColumnSides(x0, y0, r, 2, delta);
    ColumnsColumn(FillCornerColumns(x0, y0, r, 1, delta));
    ColumnsColumn(FillCornerColumns(x0, y0, r, 2, delta));
  }

  /** The bit-1 corner at x0 and the bit-2 corner at s - x0 are mirror images. */
  lemma FillCornerReflect(s: int, x0: int, x0': int, y0: int, r: int, m: bv8, n: bv8, delta: int)
    requires ((m == 1 && n == 2) || (m == 2 && n == 1)) && x0' == s - x0
    ensures ReflectsInto(s, FillCornerPoints(x0, y0, r, m, delta), FillCornerPoints(x0', y0, r, n, delta))
  {
    var d, f := delta + 1, 1 - r;
    var a, b := FillCornerRun(x0, y0, m, d, 0, r, f), FillCornerRun(x0', y0, n, d, 0, r, f);
    assert FillCornerColumns(x0, y0, r, m, delta) == a && FillCornerColumns(x0', y0, r, n, delta) == b;
    FillCornerRunReflect(s, x0, x0', y0, m, n, d, 0, r, f);
    ColumnsReflect(s, a, b);
  }
}
