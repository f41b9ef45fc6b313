/** The GC9A01A driver on its bus (gc9a01a.c:101-965): every drawing entry
    point as a method that appends the command and data transfers it makes
    to a log, proved equal to the point, span and glyph sequences of the
    pure modules. */
module Panel {
  import opened Common
  import opened Protocol
  import opened Line
  import opened Rect
  import opened Spans
  import opened Circle
  import opened Ellipse
  import opened Columns
  import opened Corner
  import opened RoundRect
  import opened Triangle
  import opened Text
  import opened Image

  lemma PlotSpansSnoc(cx: int, cy: int, done: seq<Span>, s: Span, c: u16)
    ensures Plot(SpansPoints(cx, cy, done + [s]), c) == Plot(SpansPoints(cx, cy, done), c) + Plot(SpanPoints(cx, cy, s), c)
  {
    SpansAppend(cx, cy, done, [s]);
    assert [s][1..] == [];
    assert SpansPoints(cx, cy, [s]) == SpanPoints(cx, cy, s) + [];
    assert SpanPoints(cx, cy, s) + [] == SpanPoints(cx, cy, s);
    PlotAppend(SpansPoints(cx, cy, done), SpanPoints(cx, cy, s), c);
  }

  lemma PlotColumnsSnoc(done: seq<Column>, col: Column, c: u16)
    ensures Plot(ColumnsPoints(done + [col]), c) == Plot(ColumnsPoints(done), c) + Plot(VLinePoints(col.x, col.top, col.h), c)
  {
    ColumnsAppend(done, [col]);
    assert [col][1..] == [];
    assert ColumnsPoints([col]) == VLinePoints(col.x, col.top, col.h) + [];
    assert VLinePoints(col.x, col.top, col.h) + [] == VLinePoints(col.x, col.top, col.h);
    PlotAppend(ColumnsPoints(done), VLinePoints(col.x, col.top, col.h), c);
  }

  lemma Plot4(a: seq<Point>, b: seq<Point>, d: seq<Point>, e: seq<Point>, c: u16)
    ensures Plot(a + b + d + e, c) == Plot(a, c) + Plot(b, c) + Plot(d, c) + Plot(e, c)
  {
    PlotAppend(a, b, c);
    PlotAppend(a + b, d, c);
    PlotAppend(a + b + d, e, c);
  }

  lemma PlotPair(p: Point, q: Point, c: u16)
    ensures Plot([p, q], c) == PixelEvents(p, c) + PixelEvents(q, c)
  {
    assert [p, q] == [p] + [q];
    PlotSnoc([p], q, c);
    PlotSingle(p, c);
  }

  /** The eight write_pixel calls of one draw_circle iteration. */
  lemma PlotOctants(cx: int, cy: int, a: int, b: int, c: u16)
    ensures Plot(Octants(cx, cy, a, b), c) == Plot(Quadrants(cx, cy, a, b), c) + Plot(Quadrants(cx, cy, b, a), c)
  {
    assert Octants(cx, cy, a, b) == Quadrants(cx, cy, a, b) + Quadrants(cx, cy, b, a);
    PlotAppend(Quadrants(cx, cy, a, b), Quadrants(cx, cy, b, a), c);
  }

  /** Appending the events of two point sequences to a log in turn is
      appending those of their concatenation. */
  lemma PlotExtend(log: seq<Event>, a: seq<Point>, b: seq<Point>, c: u16)
    ensures log + Plot(a, c) + Plot(b, c) == log + Plot(a + b, c)
  {
    PlotAppend(a, b, c);
    AppendAssoc(log, Plot(a, c), Plot(b, c));
  }

  /** The four edges of draw_rectangle, drawn one after another, append
      the outline's events. */
  lemma RectSteps(l0: seq<Event>, l1: seq<Event>, l2: seq<Event>, l3: seq<Event>, l4: seq<Event>,
                  x: int, y: int, width: int, height: int, right: int, bottom: int, c: u16)
    requires right == x + width - 1 && bottom == y + height - 1
    requires l1 == l0 + Plot(VLinePoints(x, y, height), c)
    requires l2 == l1 + Plot(HLinePoints(x, y, width), c)
    requires l3 == l2 + Plot(VLinePoints(right, y, height), c)
    requires l4 == l3 + Plot(HLinePoints(x, bottom, width), c)
    ensures l4 == l0 + Plot(RectPoints(x, y, width, height), c)
  {
    var a, b := VLinePoints(x, y, height), HLinePoints(x, y, width);
    var d, e := VLinePoints(right, y, height), HLinePoints(x, bottom, width);
    assert RectPoints(x, y, width, height) == Edges(x, y, width, height, right, bottom);
    assert Edges(x, y, width, height, right, bottom) == a + b + d + e;
    PlotExtend(l0, a, b, c);
    PlotExtend(l0, a + b, d, c);
    PlotExtend(l0, a + b + d, e, c);
  }

  /** The window of draw_image followed by its colours make its events. */
  lemma ImageSteps(l0: seq<Event>, l1: seq<Event>, l2: seq<Event>, x: int, y: int, width: int, height: int,
                   image: seq<u16>, right: int, bottom: int)
    requires x < Width && y < Height && ImageFits(x, y, width, height, image)
    requires right == x + ClipWidth(x, width) - 1 && bottom == y + ClipHeight(y, height) - 1
    requires l1 == l0 + WindowEvents(x, y, right, bottom)
    requires l2 == l1 + Stream(ImageColours(x, y, width, height, image))
    ensures l2 == l0 + ImageEvents(x, y, width, height, image)
  {
    AppendAssoc(l0, WindowEvents(x, y, right, bottom), Stream(ImageColours(x, y, width, height, image)));
  }

  /** One more row of fill_rectangle extends the fill by that row. */
  lemma FillStep(start: seq<Event>, l1: seq<Event>, l2: seq<Event>, x: int, y: int, width: int, row: int, n: int, n': int, c: u16)
    requires 0 <= n && row == y + n && n' == n + 1
    requires l1 == start + Plot(FillPoints(x, y, width, n), c)
    requires l2 == l1 + Plot(HLinePoints(x, row, width), c)
    ensures l2 == start + Plot(FillPoints(x, y, width, n'), c)
  {
    assert FillPoints(x, y, width, n') == FillPoints(x, y, width, n) + HLinePoints(x, row, width);
    PlotExtend(start, FillPoints(x, y, width, n), HLinePoints(x, row, width), c);
  }

  lemma Plot4Points(p0: Point, p1: Point, p2: Point, p3: Point, c: u16)
    ensures Plot([p0, p1, p2, p3], c) == PixelEvents(p0, c) + PixelEvents(p1, c) + PixelEvents(p2, c) + PixelEvents(p3, c)
  {
    PlotSingle(p0, c);
    assert [p0] + [p1] == [p0, p1];
    PlotSnoc([p0], p1, c);
    assert [p0, p1] + [p2] == [p0, p1, p2];
    PlotSnoc([p0, p1], p2, c);
    assert [p0, p1, p2] + [p3] == [p0, p1, p2, p3];
    PlotSnoc([p0, p1, p2], p3, c);
  }

  /** Four write_pixel calls at the mirror images of an offset (a, b). */
  lemma QuadSteps(l0: seq<Event>, l1: seq<Event>, l2: seq<Event>, l3: seq<Event>, l4: seq<Event>,
                  cx: int, cy: int, a: int, b: int, xp: int, xm: int, yp: int, ym: int, c: u16)
    requires xp == cx + a && xm == cx - a && yp == cy + b && ym == cy - b
    requires l1 == l0 + PixelEvents(Point(xp, yp), c)
    requires l2 == l1 + PixelEvents(Point(xm, yp), c)
    requires l3 == l2 + PixelEvents(Point(xp, ym), c)
    requires l4 == l3 + PixelEvents(Point(xm, ym), c)
    ensures l4 == l0 + Plot(Quadrants(cx, cy, a, b), c)
  {
    assert Quadrants(cx, cy, a, b) == [Point(xp, yp), Point(xm, yp), Point(xp, ym), Point(xm, ym)];
    Plot4Points(Point(xp, yp), Point(xm, yp), Point(xp, ym), Point(xm, ym), c);
    var e0, e1 := PixelEvents(Point(xp, yp), c), PixelEvents(Point(xm, yp), c);
    var e2, e3 := PixelEvents(Point(xp, ym), c), PixelEvents(Point(xm, ym), c);
    AppendAssoc(l0, e0, e1);
    AppendAssoc(l0, e0 + e1, e2);
    AppendAssoc(l0, e0 + e1 + e2, e3);
  }

  /** One iteration of draw_circle: its eight points extend what is drawn. */
  lemma OctantStep(start: seq<Event>, l0: seq<Event>, l1: seq<Event>, l2: seq<Event>,
                   cx: int, cy: int, a: int, b: int, done: seq<Point>, c: u16)
    requires l0 == start + Plot(done, c)
    requires l1 == l0 + Plot(Quadrants(cx, cy, a, b), c)
    requires l2 == l1 + Plot(Quadrants(cx, cy, b, a), c)
    ensures l2 == start + Plot(done + Octants(cx, cy, a, b), c)
  {
    PlotOctants(cx, cy, a, b, c);
    AppendAssoc(l0, Plot(Quadrants(cx, cy, a, b), c), Plot(Quadrants(cx, cy, b, a), c));
    PlotExtend(start, done, Octants(cx, cy, a, b), c);
  }

  lemma SpansSingle(cx: int, cy: int, s: Span)
    ensures SpansPoints(cx, cy, [s]) == SpanPoints(cx, cy, s)
  {
    assert [s][1..] == [];
    assert SpanPoints(cx, cy, s) + [] == SpanPoints(cx, cy, s);
  }

  lemma Spans4(cx: int, cy: int, s0: Span, s1: Span, s2: Span, s3: Span)
    ensures SpansPoints(cx, cy, [s0, s1, s2, s3])
            == SpanPoints(cx, cy, s0) + SpanPoints(cx, cy, s1) + SpanPoints(cx, cy, s2) + SpanPoints(cx, cy, s3)
  {
    SpansSingle(cx, cy, s0);
    SpansSingle(cx, cy, s1);
    SpansSingle(cx, cy, s2);
    SpansSingle(cx, cy, s3);
    assert [s0] + [s1] == [s0, s1];
    SpansAppend(cx, cy, [s0], [s1]);
    assert [s0, s1] + [s2] == [s0, s1, s2];
    SpansAppend(cx, cy, [s0, s1], [s2]);
    assert [s0, s1, s2] + [s3] == [s0, s1, s2, s3];
    SpansAppend(cx, cy, [s0, s1, s2], [s3]);
  }

  /** A draw_line across row cy + s.dy from cx - s.half to cx + s.half is the span s. */
  lemma SpanAt(cx: int, cy: int, s: Span, left: int, right: int, row: int)
    requires left == cx - s.half && right == cx + s.half && row == cy + s.dy
    ensures LinePoints(left, row, right, row) == SpanPoints(cx, cy, s)
  {
  }

  /** The four spans of one fill_circle iteration, drawn one after another,
      plot Quad(a, b). */
  lemma QuadSpanSteps(l0: seq<Event>, l1: seq<Event>, l2: seq<Event>, l3: seq<Event>, l4: seq<Event>,
                      cx: int, cy: int, a: int, b: int, c: u16)
    requires l1 == l0 + Plot(SpanPoints(cx, cy, Span(b, a)), c)
    requires l2 == l1 + Plot(SpanPoints(cx, cy, Span(-b, a)), c)
    requires l3 == l2 + Plot(SpanPoints(cx, cy, Span(a, b)), c)
    requires l4 == l3 + Plot(SpanPoints(cx, cy, Span(-a, b)), c)
    ensures l4 == l0 + Plot(SpansPoints(cx, cy, Quad(a, b)), c)
  {
    var e0, e1 := SpanPoints(cx, cy, Span(b, a)), SpanPoints(cx, cy, Span(-b, a));
    var e2, e3 := SpanPoints(cx, cy, Span(a, b)), SpanPoints(cx, cy, Span(-a, b));
    Spans4(cx, cy, Span(b, a), Span(-b, a), Span(a, b), Span(-a, b));
    Plot4(e0, e1, e2, e3, c);
    var p0, p1, p2, p3 := Plot(e0, c), Plot(e1, c), Plot(e2, c), Plot(e3, c);
    AppendAssoc(l0, p0, p1);
    AppendAssoc(l0, p0 + p1, p2);
    AppendAssoc(l0, p0 + p1 + p2, p3);
  }

  /** A fast horizontal line from cx - s.half of width 2*s.half + 1 on row
      cy + s.dy is the span s. */
  lemma HLineSpan(cx: int, cy: int, s: Span, left: int, row: int, w: int)
    requires left == cx - s.half && row == cy + s.dy && w == 2 * s.half + 1
    ensures HLinePoints(left, row, w) == SpanPoints(cx, cy, s)
  {
  }

  /** Two spans drawn one after the other. */
  lemma TwoSpans(l0: seq<Event>, l1: seq<Event>, l2: seq<Event>, cx: int, cy: int, s0: Span, s1: Span, c: u16)
    requires l1 == l0 + Plot(SpanPoints(cx, cy, s0), c)
    requires l2 == l1 + Plot(SpanPoints(cx, cy, s1), c)
    ensures l2 == l0 + Plot(SpansPoints(cx, cy, [s0, s1]), c)
  {
    SpansSingle(cx, cy, s0);
    SpansSingle(cx, cy, s1);
    assert [s0] + [s1] == [s0, s1];
    SpansAppend(cx, cy, [s0], [s1]);
    PlotExtend(l0, SpanPoints(cx, cy, s0), SpanPoints(cx, cy, s1), c);
  }

  /** The spans of one iteration of region 1 of fill_ellipse: a pair
      when the decision is not negative, else nothing. */
  lemma RowsIfSteps(l0: seq<Event>, l1: seq<Event>, cx: int, cy: int, x: int, y: int, dec: int, c: u16)
    requires !(dec < 0) ==> l1 == l0 + Plot(SpansPoints(cx, cy, [Span(y, x), Span(-y, x)]), c)
    requires dec < 0 ==> l1 == l0
    ensures l1 == l0 + Plot(SpansPoints(cx, cy, Region1Rows(x, y, dec)), c)
  {
    if dec < 0 {
      assert l0 + [] == l0;
    }
  }

  /** Spans drawn after the spans drawn so far extend them. */
  lemma SpansExtend(start: seq<Event>, l0: seq<Event>, l1: seq<Event>, cx: int, cy: int, done: seq<Span>, more: seq<Span>, c: u16)
    requires l0 == start + Plot(SpansPoints(cx, cy, done), c)
    requires l1 == l0 + Plot(SpansPoints(cx, cy, more), c)
    ensures l1 == start + Plot(SpansPoints(cx, cy, done + more), c)
  {
    SpansAppend(cx, cy, done, more);
    PlotExtend(start, SpansPoints(cx, cy, done), SpansPoints(cx, cy, more), c);
  }

  /** The three edges of draw_triangle, drawn one after another. */
  lemma TriangleSteps(l0: seq<Event>, l1: seq<Event>, l2: seq<Event>, l3: seq<Event>,
                      x0: int, y0: int, x1: int, y1: int, x2: int, y2: int, c: u16)
    requires l1 == l0 + Plot(LinePoints(x0, y0, x1, y1), c)
    requires l2 == l1 + Plot(LinePoints(x1, y1, x2, y2), c)
    requires l3 == l2 + Plot(LinePoints(x0, y0, x2, y2), c)
    ensures l3 == l0 + Plot(TrianglePoints(x0, y0, x1, y1, x2, y2), c)
  {
    var a, b, d := LinePoints(x0, y0, x1, y1), LinePoints(x1, y1, x2, y2), LinePoints(x0, y0, x2, y2);
    PlotExtend(l0, a, b, c);
    PlotExtend(l0, a + b, d, c);
  }

  /** A pair of write_pixel calls under a corner bit: both points when the
      bit is set, nothing otherwise. */
  lemma PairSteps(l0: seq<Event>, l1: seq<Event>, b: bool, p: Point, q: Point, c: u16)
    requires b ==> l1 == l0 + PixelEvents(p, c) + PixelEvents(q, c)
    requires !b ==> l1 == l0
    ensures l1 == l0 + Plot(Pair(b, p, q), c)
  {
    if b {
      PlotPair(p, q, c);
      AppendAssoc(l0, PixelEvents(p, c), PixelEvents(q, c));
    } else {
      assert l0 + [] == l0;
    }
  }

  /** Four pieces plotted one after another. */
  lemma Plot4Steps(l0: seq<Event>, l1: seq<Event>, l2: seq<Event>, l3: seq<Event>, l4: seq<Event>,
                   a: seq<Point>, b: seq<Point>, d: seq<Point>, e: seq<Point>, c: u16)
    requires l1 == l0 + Plot(a, c) && l2 == l1 + Plot(b, c) && l3 == l2 + Plot(d, c) && l4 == l3 + Plot(e, c)
    ensures l4 == l0 + Plot(a + b + d + e, c)
  {
    PlotExtend(l0, a, b, c);
    PlotExtend(l0, a + b, d, c);
    PlotExtend(l0, a + b + d, e, c);
  }

  /** The frame and the radius of a round rectangle, from the arguments
      the calls receive. */
  lemma FrameAt(x: int, y: int, width: int, height: int, r: int,
                right: int, bottom: int, inL: int, inR: int, inT: int, inB: int, sw: int, sh: int, st: int)
    requires right == x + width - 1 && bottom == y + height - 1
    requires inL == x + r && inR == x + width - r - 1 && inT == y + r && inB == y + height - r - 1
    requires sw == width - 2 * r && sh == height - 2 * r && st == height - 2 * r - 1
    ensures FrameOf(x, y, width, height, r) == Frame(x, right, y, bottom, height, inL, inR, inT, inB, sw, sh, st)
  {
  }

  /** The eight calls of draw_round_rectangle: four sides, then four corners. */
  lemma RoundRectSteps(l0: seq<Event>, l1: seq<Event>, l2: seq<Event>, l3: seq<Event>, l4: seq<Event>,
                       l5: seq<Event>, l6: seq<Event>, l7: seq<Event>, l8: seq<Event>, f: Frame, r: int, c: u16)
    requires l1 == l0 + Plot(HLinePoints(f.innerLeft, f.top, f.sideWidth), c)
    requires l2 == l1 + Plot(HLinePoints(f.innerLeft, f.bottom, f.sideWidth), c)
    requires l3 == l2 + Plot(VLinePoints(f.left, f.innerTop, f.sideHeight), c)
    requires l4 == l3 + Plot(VLinePoints(f.right, f.innerTop, f.sideHeight), c)
    requires l5 == l4 + Plot(CornerPoints(f.innerLeft, f.innerTop, r, 1), c)
    requires l6 == l5 + Plot(CornerPoints(f.innerRight, f.innerTop, r, 2), c)
    requires l7 == l6 + Plot(CornerPoints(f.innerRight, f.innerBottom, r, 4), c)
    requires l8 == l7 + Plot(CornerPoints(f.innerLeft, f.innerBottom, r, 8), c)
    ensures l8 == l0 + Plot(RoundSides(f) + RoundCorners(f, r), c)
  {
    Plot4Steps(l0, l1, l2, l3, l4, HLinePoints(f.innerLeft, f.top, f.sideWidth), HLinePoints(f.innerLeft, f.bottom, f.sideWidth),
               VLinePoints(f.left, f.innerTop, f.sideHeight), VLinePoints(f.right, f.innerTop, f.sideHeight), c);
    Plot4Steps(l4, l5, l6, l7, l8, CornerPoints(f.innerLeft, f.innerTop, r, 1), CornerPoints(f.innerRight, f.innerTop, r, 2),
               CornerPoints(f.innerRight, f.innerBottom, r, 4), CornerPoints(f.innerLeft, f.innerBottom, r, 8), c);
    PlotExtend(l0, RoundSides(f), RoundCorners(f, r), c);
  }

  /** The three calls of fill_round_rectangle: the band, then the two half discs. */
  lemma RoundFillSteps(l0: seq<Event>, l1: seq<Event>, l2: seq<Event>, l3: seq<Event>, f: Frame, r: int, c: u16)
    requires l1 == l0 + Plot(FillPoints(f.innerLeft, f.top, f.sideWidth, f.height), c)
    requires l2 == l1 + Plot(FillCornerPoints(f.innerRight, f.innerTop, r, 1, f.stretch), c)
    requires l3 == l2 + Plot(FillCornerPoints(f.innerLeft, f.innerTop, r, 2, f.stretch), c)
    ensures l3 == l0 + Plot(RoundFill(f, r), c)
  {
    var a, b, d := FillPoints(f.innerLeft, f.top, f.sideWidth, f.height),
                   FillCornerPoints(f.innerRight, f.innerTop, r, 1, f.stretch), FillCornerPoints(f.innerLeft, f.innerTop, r, 2, f.stretch);
    PlotExtend(l0, a, b, c);
    PlotExtend(l0, a + b, d, c);
  }

  /** A vertical line drawn under a corner bit, as a run of at most one line. */
  lemma ColumnIf(l0: seq<Event>, l1: seq<Event>, b: bool, col: Column, c: u16)
    requires b ==> l1 == l0 + Plot(VLinePoints(col.x, col.top, col.h), c)
    requires !b ==> l1 == l0
    ensures l1 == l0 + Plot(ColumnsPoints(if b then [col] else []), c)
  {
    if b {
      assert [col][1..] == [];
      assert ColumnsPoints([col]) == VLinePoints(col.x, col.top, col.h) + [];
      assert VLinePoints(col.x, col.top, col.h) + [] == VLinePoints(col.x, col.top, col.h);
    } else {
      assert l0 + [] == l0;
    }
  }

  /** The bit-1 and bit-2 lines of one column offset. */
  lemma ColumnPairSteps(l0: seq<Event>, l1: seq<Event>, l2: seq<Event>, x0: int, mask: bv8, a: int, top: int, h: int,
                        right: int, left: int, c: u16)
    requires right == x0 + a && left == x0 - a
    requires HasBit(mask, 1) ==> l1 == l0 + Plot(VLinePoints(right, top, h), c)
    requires !HasBit(mask, 1) ==> l1 == l0
    requires HasBit(mask, 2) ==> l2 == l1 + Plot(VLinePoints(left, top, h), c)
    requires !HasBit(mask, 2) ==> l2 == l1
    ensures l2 == l0 + Plot(ColumnsPoints(ColumnPair(x0, mask, a, top, h)), c)
  {
    var A: seq<Column> := if HasBit(mask, 1) then [Column(x0 + a, top, h)] else [];
    var B: seq<Column> := if HasBit(mask, 2) then [Column(x0 - a, top, h)] else [];
    ColumnIf(l0, l1, HasBit(mask, 1), Column(x0 + a, top, h), c);
    ColumnIf(l1, l2, HasBit(mask, 2), Column(x0 - a, top, h), c);
    ColumnsAppend(A, B);
    PlotExtend(l0, ColumnsPoints(A), ColumnsPoints(B), c);
  }

  /** One iteration of fill_round_corner from offsets (xo, yo) and
      decision fo to (x, y): its lines extend the run drawn so far. */
  lemma FillCornerSteps(start: seq<Event>, l0: seq<Event>, l1: seq<Event>, l2: seq<Event>, done: seq<Column>,
                        x0: int, y0: int, mask: bv8, d: int, xo: int, yo: int, fo: int, x: int, y: int,
                        top1: int, h1: int, top2: int, h2: int, c: u16)
    requires x == xo + 1 && y == CornerNextY(yo, fo)
    requires top1 == y0 - y && h1 == 2 * y + d && top2 == y0 - xo && h2 == 2 * xo + d
    requires l0 == start + Plot(ColumnsPoints(done), c)
    requires x < y + 1 ==> l1 == l0 + Plot(ColumnsPoints(ColumnPair(x0, mask, x, top1, h1)), c)
    requires !(x < y + 1) ==> l1 == l0
    requires y != yo ==> l2 == l1 + Plot(ColumnsPoints(ColumnPair(x0, mask, yo, top2, h2)), c)
    requires !(y != yo) ==> l2 == l1
    ensures l2 == start + Plot(ColumnsPoints(done + FillCornerStep(x0, y0, mask, d, xo, yo, fo)), c)
  {
    var A: seq<Column> := if x < y + 1 then ColumnPair(x0, mask, x, top1, h1) else [];
    var B: seq<Column> := if y != yo then ColumnPair(x0, mask, yo, top2, h2) else [];
    FillCornerStepAt(x0, y0, mask, d, xo, yo, fo, x, y, top1, h1, top2, h2);
    assert ColumnsPoints([]) == [] && Plot([], c) == [];
    assert l1 == l0 + Plot(ColumnsPoints(A), c) by {
      if !(x < y + 1) { assert l0 + [] == l0; }
    }
    assert l2 == l1 + Plot(ColumnsPoints(B), c) by {
      if !(y != yo) { assert l1 + [] == l1; }
    }
    ColumnsAppend(A, B);
    ColumnsAppend(done, A + B);
    PlotExtend(start, ColumnsPoints(done), ColumnsPoints(A), c);
    PlotExtend(start, ColumnsPoints(done) + ColumnsPoints(A), ColumnsPoints(B), c);
    AppendAssoc(ColumnsPoints(done), ColumnsPoints(A), ColumnsPoints(B));
  }

  lemma PixelExtend(log: seq<Event>, ps: seq<Point>, p: Point, c: u16)
    ensures log + Plot(ps, c) + PixelEvents(p, c) == log + Plot(ps + [p], c)
  {
    PlotSnoc(ps, p, c);
    AppendAssoc(log, Plot(ps, c), PixelEvents(p, c));
  }

  /** Streaming one more glyph row. */
  lemma RowsStream(font: Font, ch: byte, color: u16, bgcolor: u16, i: nat)
    requires HasGlyph(font, ch) && font.width <= 32 && i < font.height
    ensures Stream(Rows(font, ch, color, bgcolor, i + 1))
            == Stream(Rows(font, ch, color, bgcolor, i)) + Stream(RowColours(GlyphRow(font, ch, i), font.width, color, bgcolor))
  {
    StreamAppend(Rows(font, ch, color, bgcolor, i), RowColours(GlyphRow(font, ch, i), font.width, color, bgcolor));
  }

  /** A wrap at character i that would reach the bottom row ends the string. */
  lemma LayoutStops(x: int, y: int, str: seq<byte>, i: nat, font: Font)
    requires i < |str| && x + font.width >= Width && Wrap16(y + font.height) + font.height >= Height
    ensures Layout(x, y, str[i..], font) == []
  {
  }

  /** A space at a wrap is skipped. */
  lemma LayoutSkips(x: int, y: int, str: seq<byte>, i: nat, font: Font)
    requires i < |str| && x + font.width >= Width && Wrap16(y + font.height) + font.height < Height
    requires str[i] == Space
    ensures Layout(x, y, str[i..], font) == Layout(0, Wrap16(y + font.height), str[i + 1..], font)
  {
    assert str[i..][1..] == str[i + 1..];
  }

  /** Otherwise character i is placed at the cursor (x', y'), wrapped or not. */
  lemma LayoutPlaces(x: int, y: int, str: seq<byte>, i: nat, font: Font, x': int, y': int)
    requires i < |str|
    requires x + font.width >= Width ==> Wrap16(y + font.height) + font.height < Height && str[i] != Space
    requires x' == (if x + font.width >= Width then 0 else x)
    requires y' == (if x + font.width >= Width then Wrap16(y + font.height) else y)
    ensures Layout(x, y, str[i..], font) == [Glyph(x', y', str[i])] + Layout(Wrap16(x' + font.width), y', str[i + 1..], font)
  {
    assert str[i..][1..] == str[i + 1..];
  }

  lemma StringEventsSnoc(gs: seq<Glyph>, g: Glyph, font: Font, color: u16, bgcolor: u16)
    requires font.width <= 32 && HasGlyph(font, g.ch) && Drawable(font, gs)
    ensures Drawable(font, gs + [g])
    ensures StringEvents(gs + [g], font, color, bgcolor)
            == StringEvents(gs, font, color, bgcolor) + CharEvents(ToU16(g.x), ToU16(g.y), g.ch, font, color, bgcolor)
  {
    assert (gs + [g])[..|gs|] == gs;
  }

  /** A placed character moves from the rest of the layout to the glyphs done. */
  lemma LayoutAdvance(all: seq<Glyph>, done: seq<Glyph>, x1: int, y1: int, str: seq<byte>, i: nat, font: Font, x: int, y: int)
    requires i < |str|
    requires x1 + font.width >= Width ==> Wrap16(y1 + font.height) + font.height < Height && str[i] != Space
    requires x == (if x1 + font.width >= Width then 0 else x1)
    requires y == (if x1 + font.width >= Width then Wrap16(y1 + font.height) else y1)
    requires all == done + Layout(x1, y1, str[i..], font)
    ensures all == (done + [Glyph(x, y, str[i])]) + Layout(Wrap16(x + font.width), y, str[i + 1..], font)
  {
    LayoutPlaces(x1, y1, str, i, font, x, y);
    AppendAssoc(done, [Glyph(x, y, str[i])], Layout(Wrap16(x + font.width), y, str[i + 1..], font));
  }

  /** The log after one more write_char holds the events of one more glyph. */
  lemma StringStep(start: seq<Event>, l0: seq<Event>, l1: seq<Event>, done: seq<Glyph>, g: Glyph,
                   font: Font, color: u16, bgcolor: u16)
    requires font.width <= 32 && HasGlyph(font, g.ch) && Drawable(font, done)
    requires l0 == start + StringEvents(done, font, color, bgcolor)
    requires l1 == l0 + CharEvents(ToU16(g.x), ToU16(g.y), g.ch, font, color, bgcolor)
    ensures Drawable(font, done + [g])
    ensures l1 == start + StringEvents(done + [g], font, color, bgcolor)
  {
    StringEventsSnoc(done, g, font, color, bgcolor);
    AppendAssoc(start, StringEvents(done, font, color, bgcolor), CharEvents(ToU16(g.x), ToU16(g.y), g.ch, font, color, bgcolor));
  }

  /** The panel, seen from the bus: every transfer sent to it, in order. */
  class Gc9a01a {
    var log: seq<Event>

    constructor ()
      ensures log == []
    {
      log := [];
    }

    /** `gc9a01a_write_cmd`: one command byte. */
    method WriteCommand(op: byte)
      modifies this
      ensures log == old(log) + [Command(op)]
    {
      log := log + [Command(op)];
    }

    /** `gc9a01a_write_data_buf`: one block of data bytes. */
    method WriteData(bytes: seq<byte>)
      modifies this
      ensures log == old(log) + [Data(bytes)]
    {
      log := log + [Data(bytes)];
    }

    /** gc9a01a.c:101-107, with the row bytes sent under RASET. */
    method SetAddressWindow(x0: u16, y0: u16, x1: u16, y1: u16)
      modifies this
      ensures log == old(log) + WindowEvents(x0, y0, x1, y1)
    {
      ghost var start := log;
      WriteCommand(CASET);
      WriteData(Split16(x0) + Split16(x1));
      WriteCommand(RASET);
      WriteData(Split16(y0) + Split16(y1));
      WriteCommand(RAMWR);
      assert log == start + [Command(CASET), Data(Split16(x0) + Split16(x1)),
                             Command(RASET), Data(Split16(y0) + Split16(y1)), Command(RAMWR)];
    }

    /** gc9a01a.c:404-418. */
    method SetOrientation(orientation: byte)
      modifies this
      ensures log == old(log) + OrientationEvents(orientation)
    {
      ghost var start := log;
      var params: seq<byte> := [0x00, 0x00, 0x00, 0xF0];
      WriteCommand(CASET);
      WriteData(params);
      WriteCommand(RASET);
      WriteData(params);
      if orientation == LANDSCAPE {
        params := params[0 := MADCTL_MV + MADCTL_BGR];
      } else if orientation == PORTRAIT {
        params := params[0 := MADCTL_MX + MADCTL_BGR];
      }
      assert params[..1] == [OrientationByte(orientation)];
      WriteCommand(MADCTL);
      WriteData(params[..1]);
      assert log == start + OrientationEvents(orientation);
    }

    /** gc9a01a.c:487-498, with a one-pixel window. */
    method WritePixel(x: int, y: int, color: u16)
      modifies this
      ensures log == old(log) + PixelEvents(Point(x, y), color)
    {
      if x >= Width || y >= Height {
        return;
      }
      SetAddressWindow(ToU16(x), ToU16(y), ToU16(x), ToU16(y));
      WriteData(Split16(color));
    }

    /** gc9a01a.c:430-456: the window, then each glyph row, each column
        the foreground or the background colour. */
    method WriteChar(x: u16, y: u16, ch: byte, font: Font, color: u16, bgcolor: u16)
      requires HasGlyph(font, ch) && font.width <= 32
      modifies this
      ensures log == old(log) + CharEvents(x, y, ch, font, color, bgcolor)
    {
      ghost var o := log;
      SetAddressWindow(x, y, ToU16(x + font.width - 1), ToU16(y + font.height - 1));
      WindowEventsU16(x, y, x + font.width - 1, y + font.height - 1);
      ghost var start := log;
      var i := 0;
      while i < font.height
        invariant 0 <= i <= font.height
        invariant log == start + Stream(Rows(font, ch, color, bgcolor, i))
      {
        var b := GlyphRow(font, ch, i);
        WriteGlyphRow(b, font.width, color, bgcolor);
        RowsStream(font, ch, color, bgcolor, i);
        AppendAssoc(start, Stream(Rows(font, ch, color, bgcolor, i)), Stream(RowColours(b, font.width, color, bgcolor)));
        i := i + 1;
      }
      AppendAssoc(o, WindowEvents(x, y, x + font.width - 1, y + font.height - 1), Stream(GlyphColours(font, ch, color, bgcolor)));
    }

    /** The inner loop of write_char (gc9a01a.c:441-451): one colour per
        column, the foreground where the column's bit of the row is set. */
    method WriteGlyphRow(b: u16, width: byte, color: u16, bgcolor: u16)
      requires width <= 32
      modifies this
      ensures log == old(log) + Stream(RowColours(b, width, color, bgcolor))
    {
      ghost var row := RowColours(b, width, color, bgcolor);
      var j := 0;
      while j < width
        invariant 0 <= j <= width
        invariant log == old(log) + Stream(row[..j])
      {
        if ShiftTest(b, j) {
          WriteData(Split16(color));
        } else {
          WriteData(Split16(bgcolor));
        }
        StreamPrefix(row, j);
        j := j + 1;
      }
      assert row[..j] == row;
    }

    /** The write_char call of write_string (gc9a01a.c:477): the glyph at
        the cursor joins the glyphs drawn so far. */
    method WriteStringGlyph(ghost start: seq<Event>, ghost done: seq<Glyph>, x: int, y: int, ch: byte,
                            font: Font, color: u16, bgcolor: u16)
      requires font.width <= 32 && HasGlyph(font, ch) && Drawable(font, done)
      requires log == start + StringEvents(done, font, color, bgcolor)
      modifies this
      ensures Drawable(font, done + [Glyph(x, y, ch)])
      ensures log == start + StringEvents(done + [Glyph(x, y, ch)], font, color, bgcolor)
    {
      ghost var l0 := log;
      WriteChar(ToU16(x), ToU16(y), ch, font, color, bgcolor);
      StringStep(start, l0, log, done, Glyph(x, y, ch), font, color, bgcolor);
    }

    /** gc9a01a.c:456-485. The cursor is stored back into the `int16_t`
        parameters; write_char receives it as `uint16_t`. */
    method WriteString(x0: int, y0: int, str: seq<byte>, font: Font, color: u16, bgcolor: u16)
      requires IsInt16(x0) && IsInt16(y0) && IsCString(str)
      requires font.width <= 32 && forall k :: 0 <= k < |str| ==> HasGlyph(font, str[k])
      modifies this
      ensures Drawable(font, Layout(x0, y0, str, font))
      ensures log == old(log) + StringEvents(Layout(x0, y0, str, font), font, color, bgcolor)
    {
      LayoutDrawable(x0, y0, str, font);
      ghost var start := log;
      ghost var all := Layout(x0, y0, str, font);
      var x, y, i := x0, y0, 0;
      ghost var done: seq<Glyph> := [];
      while i < |str|
        invariant 0 <= i <= |str|
        invariant all == done + Layout(x, y, str[i..], font)
        invariant Drawable(font, done)
        invariant log == start + StringEvents(done, font, color, bgcolor)
      {
        ghost var x1, y1 := x, y;
        if x + font.width >= Width {
          x := 0;
          y := Wrap16(y + font.height);
          if y + font.height >= Height {
            LayoutStops(x1, y1, str, i, font);
            assert done + [] == done;
            break;
          }
          if str[i] == Space {
            LayoutSkips(x1, y1, str, i, font);
            i := i + 1;
            continue;
          }
        }
        LayoutAdvance(all, done, x1, y1, str, i, font, x, y);
        WriteStringGlyph(start, done, x, y, str[i], font, color, bgcolor);
        done := done + [Glyph(x, y, str[i])];
        x := Wrap16(x + font.width);
        i := i + 1;
      }
      assert all == done;
    }

    /** gc9a01a.c:500-520 with the intended clip and loop. */
    method DrawImage(x: int, y: int, width: int, height: int, image: seq<u16>)
      requires ImageFits(x, y, width, height, image)
      modifies this
      ensures log == old(log) + ImageEvents(x, y, width, height, image)
    {
      if x >= Width || y >= Height {
        return;
      }
      var w, h := width, height;
      if x + w - 1 >= Width {
        w := Width - x;
      }
      if y + h - 1 >= Height {
        h := Height - y;
      }
      assert w == ClipWidth(x, width) && h == ClipHeight(y, height);
      var right, bottom, n := x + w - 1, y + h - 1, w * h;
      ghost var l0 := log;
      SetAddressWindow(ToU16(x), ToU16(y), ToU16(right), ToU16(bottom));
      WindowEventsU16(x, y, right, bottom);
      ghost var l1 := log;
      ghost var cs := ImageColours(x, y, width, height, image);
      var i := 0;
      while i < n
        invariant 0 <= i <= n == |cs| <= |image|
        invariant log == l1 + Stream(cs[..i])
      {
        assert cs[i] == image[i];
        WriteData(Split16(image[i]));
        StreamPrefix(cs, i);
        AppendAssoc(l1, Stream(cs[..i]), [ColourEvent(cs[i])]);
        i := i + 1;
      }
      assert cs[..i] == cs;
      ImageSteps(l0, l1, log, x, y, width, height, image, right, bottom);
    }

    /** gc9a01a.c:522-567 with the intended steep swap (x and y of each
        endpoint exchanged) and loop guard `x_0 <= x_1`. */
    method DrawLine(x0: int, y0: int, x1: int, y1: int, color: u16)
      modifies this
      ensures log == old(log) + Plot(LinePoints(x0, y0, x1, y1), color)
    {
      var steep := Abs(y1 - y0) > Abs(x1 - x0);
      var xa, ya, xb, yb := x0, y0, x1, y1;
      if steep {
        xa, ya := ya, xa;
        xb, yb := yb, xb;
      }
      if xa > xb {
        xa, xb := xb, xa;
        ya, yb := yb, ya;
      }
      var dx := xb - xa;
      var dy := Abs(yb - ya);
      var err := dx / 2;
      var ystep;
      if ya < yb {
        ystep := 1;
      } else {
        ystep := -1;
      }
      ghost var s := Setup(steep, xa, ya, xb, yb, dx, dy, ystep);
      assert s == Normalise(x0, y0, x1, y1);
      ghost var whole := LinePoints(x0, y0, x1, y1);
      ghost var start := log;
      ghost var done: seq<Point> := [];
      while xa <= xb
        invariant xa <= xb + 1
        invariant whole == done + Run(s, xa, ya, err)
        invariant log == start + Plot(done, color)
        decreases xb - xa + 1
      {
        ghost var p := Place(s, xa, ya);
        ghost var xo, yo, eo := xa, ya, err;
        if steep {
          assert p == Point(ya, xa);
          WritePixel(ya, xa, color);
        } else {
          assert p == Point(xa, ya);
          WritePixel(xa, ya, color);
        }
        PixelExtend(start, done, p, color);
        err := err - dy;
        if err < 0 {
          ya := ya + ystep;
          err := err + dx;
        }
        xa := xa + 1;
        RunNext(s, xo, yo, eo, ya, err);
        AppendAssoc(done, [p], Run(s, xa, ya, err));
        done := done + [p];
      }
      RunDone(s, xa, ya, err);
      assert whole == done + [];
      assert whole == done;
      assert log == start + Plot(whole, color);
      assert start == old(log);
    }

    /** gc9a01a.c:569-575. */
    method DrawFastVLine(x: int, y: int, height: int, color: u16)
      modifies this
      ensures log == old(log) + Plot(VLinePoints(x, y, height), color)
    {
      DrawLine(x, y, x, y + height - 1, color);
    }

    /** gc9a01a.c:577-583. */
    method DrawFastHLine(x: int, y: int, width: int, color: u16)
      modifies this
      ensures log == old(log) + Plot(HLinePoints(x, y, width), color)
    {
      DrawLine(x, y, x + width - 1, y, color);
    }

    /** gc9a01a.c:585-594. */
    method DrawRectangle(x: int, y: int, width: int, height: int, color: u16)
      modifies this
      ensures log == old(log) + Plot(RectPoints(x, y, width, height), color)
    {
      var right, bottom := x + width - 1, y + height - 1;
      ghost var l0 := log;
      DrawFastVLine(x, y, height, color);
      ghost var l1 := log;
      DrawFastHLine(x, y, width, color);
      ghost var l2 := log;
      DrawFastVLine(right, y, height, color);
      ghost var l3 := log;
      DrawFastHLine(x, bottom, width, color);
      RectSteps(l0, l1, l2, l3, log, x, y, width, height, right, bottom, color);
    }

    /** gc9a01a.c:596-603 with the intended loop: one fast horizontal line
        of the full width for each row y .. y + height - 1. */
    method FillRectangle(x: int, y: int, width: int, height: int, color: u16)
      modifies this
      ensures log == old(log) + Plot(FillPoints(x, y, width, height), color)
    {
      ghost var start := log;
      ghost var n := 0;
      var i := y;
      var end := y + height;
      while i < end
        invariant i == y + n && 0 <= n && (n == 0 || n <= height)
        invariant log == start + Plot(FillPoints(x, y, width, n), color)
      {
        ghost var before, m := log, n;
        DrawFastHLine(x, i, width, color);
        i := i + 1;
        n := n + 1;
        FillStep(start, before, log, x, y, width, i - 1, m, n, color);
      }
      assert FillPoints(x, y, width, n) == FillPoints(x, y, width, height);
    }

    /** gc9a01a.c:605-636 with the intended updates of the offsets xd and
        yd where the source steps the centre. */
    method DrawCircle(x: int, y: int, radius: int, color: u16)
      modifies this
      ensures log == old(log) + Plot(CirclePoints(x, y, radius), color)
    {
      if radius < 0 {
        assert CirclePoints(x, y, radius) == [];
        return;
      }
      var xd, yd := 0, radius;
      var d := 3 - 2 * radius;
      ghost var start := log;
      ghost var done: seq<Point> := [];
      while yd >= xd
        invariant CirclePoints(x, y, radius) == done + CircleRun(x, y, xd, yd, d)
        invariant log == start + Plot(done, color)
        decreases yd - xd + 1
      {
        ghost var l0 := log;
        var xp, xm, yp, ym := x + xd, x - xd, y + yd, y - yd;
        WritePixel(xp, yp, color);
        ghost var l1 := log;
        WritePixel(xm, yp, color);
        ghost var l2 := log;
        WritePixel(xp, ym, color);
        ghost var l3 := log;
        WritePixel(xm, ym, color);
        QuadSteps(l0, l1, l2, l3, log, x, y, xd, yd, xp, xm, yp, ym, color);
        ghost var l4 := log;
        var sp, sm, tp, tm := x + yd, x - yd, y + xd, y - xd;
        WritePixel(sp, tp, color);
        ghost var l5 := log;
        WritePixel(sm, tp, color);
        ghost var l6 := log;
        WritePixel(sp, tm, color);
        ghost var l7 := log;
        WritePixel(sm, tm, color);
        QuadSteps(l4, l5, l6, l7, log, x, y, yd, xd, sp, sm, tp, tm, color);
        OctantStep(start, l0, l4, log, x, y, xd, yd, done, color);
        ghost var xo, yo, dold := xd, yd, d;
        xd := xd + 1;
        if d > 0 {
          yd := yd - 1;
          d := d + 4 * (xd - yd) + 10;
        } else {
          d := d + 4 * xd + 6;
        }
        CircleNext(x, y, xo, yo, dold, xd, yd, d);
        AppendAssoc(done, Octants(x, y, xo, yo), CircleRun(x, y, xd, yd, d));
        done := done + Octants(x, y, xo, yo);
      }
      assert CircleRun(x, y, xd, yd, d) == [];
      assert CirclePoints(x, y, radius) == done + [];
      assert CirclePoints(x, y, radius) == done;
      assert start == old(log);
    }

    /** One iteration of fill_circle draws four spans (gc9a01a.c:648-651):
        rows y + yd and y - yd of half-width xd, then rows y + xd and
        y - xd of half-width yd. */
    method DrawQuadSpans(x: int, y: int, xd: int, yd: int, color: u16)
      modifies this
      ensures log == old(log) + Plot(SpansPoints(x, y, Quad(xd, yd)), color)
    {
      ghost var l0 := log;
      var xm, xp, yp, ym := x - xd, x + xd, y + yd, y - yd;
      var sm, sp, tp, tm := x - yd, x + yd, y + xd, y - xd;
      DrawLine(xm, yp, xp, yp, color);
      SpanAt(x, y, Span(yd, xd), xm, xp, yp);
      ghost var l1 := log;
      DrawLine(xm, ym, xp, ym, color);
      SpanAt(x, y, Span(-yd, xd), xm, xp, ym);
      ghost var l2 := log;
      DrawLine(sm, tp, sp, tp, color);
      SpanAt(x, y, Span(xd, yd), sm, sp, tp);
      ghost var l3 := log;
      DrawLine(sm, tm, sp, tm, color);
      SpanAt(x, y, Span(-xd, yd), sm, sp, tm);
      QuadSpanSteps(l0, l1, l2, l3, log, x, y, xd, yd, color);
    }

    /** gc9a01a.c:638-665 with the intended midpoint loop over the
        offsets xd and yd and the colour passed to each draw_line. */
    method FillCircle(x: int, y: int, radius: int, color: u16)
      modifies this
      ensures log == old(log) + Plot(FillCirclePoints(x, y, radius), color)
    {
      if radius < 0 {
        assert FillCircleSpans(radius) == [];
        return;
      }
      var xd, yd := 0, radius;
      var d := 1 - radius;
      ghost var start := log;
      ghost var done: seq<Span> := [];
      while yd >= xd
        invariant FillCircleSpans(radius) == done + FillRun(xd, yd, d)
        invariant log == start + Plot(SpansPoints(x, y, done), color)
        decreases yd - xd + 1
      {
        ghost var l0 := log;
        DrawQuadSpans(x, y, xd, yd, color);
        SpansExtend(start, l0, log, x, y, done, Quad(xd, yd), color);
        ghost var xo, yo, dold := xd, yd, d;
        xd := xd + 1;
        if d < 0 {
          d := d + (2 * xd + 1);
        } else {
          yd := yd - 1;
          d := d + (2 * (xd - yd) + 1);
        }
        FillNext(xo, yo, dold, xd, yd, d);
        AppendAssoc(done, Quad(xo, yo), FillRun(xd, yd, d));
        done := done + Quad(xo, yo);
      }
      assert FillRun(xd, yd, d) == [];
      assert FillCircleSpans(radius) == done + [];
      assert FillCircleSpans(radius) == done;
      assert start == old(log);
    }

    /** gc9a01a.c:669-714 with the intended loops over the offsets xd and
        yd where the source reads and steps the centre, and (2*xd + 1)
        twice in the region-2 decision. */
    method DrawEllipse(x: int, y: int, width: int, height: int, color: u16)
      modifies this
      ensures log == old(log) + Plot(EllipsePoints(x, y, width, height), color)
    {
      var rw2, rh2 := width * width, height * height;
      SquarePositive(width);
      SquarePositive(height);
      ghost var l0 := log;
      var xd, yd := DrawEllipseRegion1(x, y, rw2, rh2, height, color);
      ghost var l1 := log;
      DrawEllipseRegion2(x, y, rw2, rh2, xd, yd, color);
      ghost var arc := DrawRegion1(x, y, rw2, rh2, 0, height, Region1Decision(rw2, rh2, height));
      EllipseSplit(x, y, width, height, rw2, rh2, Region1Decision(rw2, rh2, height), arc,
                   Region2Decision(rw2, rh2, xd, yd));
      PlotExtend(l0, arc.out, DrawRegion2(x, y, rw2, rh2, xd, yd, Region2Decision(rw2, rh2, xd, yd)), color);
    }

    /** Region 1 of draw_ellipse (gc9a01a.c:670-691): from (0, height)
        while the slope is below one; returns the offsets it stops at. */
    method DrawEllipseRegion1(x: int, y: int, rw2: int, rh2: int, height: int, color: u16)
      returns (xd: int, yd: int)
      requires Axes(rw2, rh2, height)
      modifies this
      ensures var a := DrawRegion1(x, y, rw2, rh2, 0, height, Region1Decision(rw2, rh2, height));
              xd == a.xd && yd == a.yd && log == old(log) + Plot(a.out, color)
    {
      xd, yd := 0, height;
      var twoRw2, twoRh2 := 2 * rw2, 2 * rh2;
      var decision := rh2 - (rw2 * height) + (rw2 / 4);
      ghost var arc := DrawRegion1(x, y, rw2, rh2, 0, height, decision);
      ghost var start := log;
      ghost var done: seq<Point> := [];
      while twoRh2 * xd < twoRw2 * yd
        invariant 0 <= xd && Axes(rw2, rh2, yd)
        invariant var r := DrawRegion1(x, y, rw2, rh2, xd, yd, decision);
                  arc.out == done + r.out && arc.xd == r.xd && arc.yd == r.yd
        invariant log == start + Plot(done, color)
        decreases 2 * rw2 * yd - 2 * rh2 * xd
      {
        Region1Enter(rw2, rh2, xd, yd);
        ghost var l0 := log;
        var xp, xm, yp, ym := x + xd, x - xd, y + yd, y - yd;
        WritePixel(xp, yp, color);
        ghost var l1 := log;
        WritePixel(xm, yp, color);
        ghost var l2 := log;
        WritePixel(xp, ym, color);
        ghost var l3 := log;
        WritePixel(xm, ym, color);
        QuadSteps(l0, l1, l2, l3, log, x, y, xd, yd, xp, xm, yp, ym, color);
        PlotExtend(start, done, Quadrants(x, y, xd, yd), color);
        ghost var xo, yo, dold := xd, yd, decision;
        xd := xd + 1;
        if decision < 0 {
          decision := decision + rh2 + (twoRh2 * xd);
        } else {
          decision := decision + rh2 + (twoRh2 * xd) - (twoRw2 * yd);
          yd := yd - 1;
        }
        DrawRegion1Next(x, y, rw2, rh2, xo, yo, dold, xd, yd, decision);
        AppendAssoc(done, Quadrants(x, y, xo, yo), DrawRegion1(x, y, rw2, rh2, xd, yd, decision).out);
        done := done + Quadrants(x, y, xo, yo);
      }
      assert DrawRegion1(x, y, rw2, rh2, xd, yd, decision) == Arc([], xd, yd);
      assert done + [] == done;
      assert start == old(log);
    }

    /** Region 2 of draw_ellipse (gc9a01a.c:693-711): the decision is
        recomputed from the offsets region 1 stops at, then one row per
        iteration down to the centre row. */
    method DrawEllipseRegion2(x: int, y: int, rw2: int, rh2: int, xd0: int, yd0: int, color: u16)
      modifies this
      ensures log == old(log) + Plot(DrawRegion2(x, y, rw2, rh2, xd0, yd0, Region2Decision(rw2, rh2, xd0, yd0)), color)
    {
      var xd, yd := xd0, yd0;
      var twoRw2, twoRh2 := 2 * rw2, 2 * rh2;
      var decision := ((rh2 * ((2 * xd + 1) * (2 * xd + 1))) / 4) + (rw2 * ((yd - 1) * (yd - 1))) - (rw2 * rh2);
      ghost var all := DrawRegion2(x, y, rw2, rh2, xd, yd, decision);
      ghost var start := log;
      ghost var done: seq<Point> := [];
      while yd >= 0
        invariant all == done + DrawRegion2(x, y, rw2, rh2, xd, yd, decision)
        invariant log == start + Plot(done, color)
        decreases yd + 1
      {
        ghost var l0 := log;
        var xp, xm, yp, ym := x + xd, x - xd, y + yd, y - yd;
        WritePixel(xp, yp, color);
        ghost var l1 := log;
        WritePixel(xm, yp, color);
        ghost var l2 := log;
        WritePixel(xp, ym, color);
        ghost var l3 := log;
        WritePixel(xm, ym, color);
        QuadSteps(l0, l1, l2, l3, log, x, y, xd, yd, xp, xm, yp, ym, color);
        PlotExtend(start, done, Quadrants(x, y, xd, yd), color);
        ghost var xo, yo, dold := xd, yd, decision;
        yd := yd - 1;
        if decision > 0 {
          decision := decision + rw2 - (twoRw2 * yd);
        } else {
          decision := decision + rw2 + (twoRh2 * xd) - (twoRw2 * yd);
          xd := xd + 1;
        }
        DrawRegion2Next(x, y, rw2, rh2, xo, yo, dold, xd, yd, decision);
        AppendAssoc(done, Quadrants(x, y, xo, yo), DrawRegion2(x, y, rw2, rh2, xd, yd, decision));
        done := done + Quadrants(x, y, xo, yo);
      }
      assert DrawRegion2(x, y, rw2, rh2, xd, yd, decision) == [];
      assert done + [] == done;
      assert start == old(log);
    }

    /** gc9a01a.c:716-762: region 1, then region 2 from where it stops. */
    method FillEllipse(x0: int, y0: int, width: int, height: int, color: u16)
      modifies this
      ensures log == old(log) + Plot(FillEllipsePoints(x0, y0, width, height), color)
    {
      var rw2, rh2 := width * width, height * height;
      SquarePositive(width);
      SquarePositive(height);
      ghost var l0 := log;
      var x, y := FillEllipseRegion1(x0, y0, rw2, rh2, height, color);
      FillEllipseRegion2(x0, y0, rw2, rh2, x, y, color);
      ghost var arc := FillRegion1(rw2, rh2, 0, height, Region1Decision(rw2, rh2, height));
      FillEllipseSplit(width, height, rw2, rh2, arc);
      ghost var rest := FillRegion2(rw2, rh2, x, y, Region2Decision(rw2, rh2, x, y));
      SpansAppend(x0, y0, arc.out, rest);
      PlotExtend(l0, SpansPoints(x0, y0, arc.out), SpansPoints(x0, y0, rest), color);
    }

    /** The two horizontal lines fill_ellipse draws for one row offset:
        rows y0 + y and y0 - y of half-width x about column x0
        (gc9a01a.c:737-738, 747-748). */
    method DrawSpanPair(x0: int, y0: int, y: int, x: int, color: u16)
      modifies this
      ensures log == old(log) + Plot(SpansPoints(x0, y0, [Span(y, x), Span(-y, x)]), color)
    {
      var left, w, yp, ym := x0 - x, 2 * x + 1, y0 + y, y0 - y;
      ghost var l0 := log;
      DrawFastHLine(left, yp, w, color);
      HLineSpan(x0, y0, Span(y, x), left, yp, w);
      ghost var l1 := log;
      DrawFastHLine(left, ym, w, color);
      HLineSpan(x0, y0, Span(-y, x), left, ym, w);
      TwoSpans(l0, l1, log, x0, y0, Span(y, x), Span(-y, x), color);
    }

    /** Region 1 of fill_ellipse (gc9a01a.c:718-742): after `x++`, a
        non-negative decision draws the rows y0 + y and y0 - y of half-width
        x - 1 before y steps down; returns the offsets it stops at. */
    method FillEllipseRegion1(x0: int, y0: int, rw2: int, rh2: int, height: int, color: u16)
      returns (x: int, y: int)
      requires Axes(rw2, rh2, height)
      modifies this
      ensures var a := FillRegion1(rw2, rh2, 0, height, Region1Decision(rw2, rh2, height));
              x == a.xd && y == a.yd && log == old(log) + Plot(SpansPoints(x0, y0, a.out), color)
    {
      x, y := 0, height;
      var twoRw2, twoRh2 := 2 * rw2, 2 * rh2;
      var decision := rh2 - (rw2 * height) + (rw2 / 4);
      ghost var arc := FillRegion1(rw2, rh2, 0, height, decision);
      ghost var start := log;
      ghost var done: seq<Span> := [];
      while twoRh2 * x < twoRw2 * y
        invariant 0 <= x && Axes(rw2, rh2, y)
        invariant var r := FillRegion1(rw2, rh2, x, y, decision);
                  arc.out == done + r.out && arc.xd == r.xd && arc.yd == r.yd
        invariant log == start + Plot(SpansPoints(x0, y0, done), color)
        decreases 2 * rw2 * y - 2 * rh2 * x
      {
        Region1Doubled(rw2, rh2, twoRw2, twoRh2, x, y, decision);
        Region1Enter(rw2, rh2, x, y);
        ghost var xo, yo, dold := x, y, decision;
        ghost var l0 := log;
        x := x + 1;
        if decision < 0 {
          decision := decision + rh2 + (twoRh2 * x);
        } else {
          decision := decision + rh2 + (twoRh2 * x) - (twoRw2 * y);
          var half := x - 1;
          DrawSpanPair(x0, y0, y, half, color);
          y := y - 1;
        }
        RowsIfSteps(l0, log, x0, y0, xo, yo, dold, color);
        SpansExtend(start, l0, log, x0, y0, done, Region1Rows(xo, yo, dold), color);
        FillRegion1Next(rw2, rh2, xo, yo, dold, x, y, decision);
        AppendAssoc(done, Region1Rows(xo, yo, dold), FillRegion1(rw2, rh2, x, y, decision).out);
        done := done + Region1Rows(xo, yo, dold);
      }
      Region1Doubled(rw2, rh2, twoRw2, twoRh2, x, y, decision);
      assert FillRegion1(rw2, rh2, x, y, decision) == Arc([], x, y);
      assert done + [] == done;
      assert start == old(log);
    }

    /** Region 2 of fill_ellipse (gc9a01a.c:744-757): the decision is
        recomputed from the offsets region 1 stops at, then rows y0 + y and
        y0 - y of half-width x for every y down to 0. */
    method FillEllipseRegion2(x0: int, y0: int, rw2: int, rh2: int, xs: int, ys: int, color: u16)
      modifies this
      ensures log == old(log) + Plot(SpansPoints(x0, y0, FillRegion2(rw2, rh2, xs, ys, Region2Decision(rw2, rh2, xs, ys))), color)
    {
      var x, y := xs, ys;
      var twoRw2, twoRh2 := 2 * rw2, 2 * rh2;
      var decision := ((rh2 * ((2 * x + 1) * (2 * x + 1))) / 4) + (rw2 * ((y - 1) * (y - 1))) - (rw2 * rh2);
      ghost var all := FillRegion2(rw2, rh2, x, y, decision);
      ghost var start := log;
      ghost var done: seq<Span> := [];
      while y >= 0
        invariant all == done + FillRegion2(rw2, rh2, x, y, decision)
        invariant log == start + Plot(SpansPoints(x0, y0, done), color)
        decreases y + 1
      {
        ghost var l0 := log;
        DrawSpanPair(x0, y0, y, x, color);
        SpansExtend(start, l0, log, x0, y0, done, [Span(y, x), Span(-y, x)], color);
        ghost var xo, yo, dold := x, y, decision;
        y := y - 1;
        if decision > 0 {
          decision := decision + rw2 - (twoRw2 * y);
        } else {
          decision := decision + rw2 + (twoRh2 * x) - (twoRw2 * y);
          x := x + 1;
        }
        FillRegion2Next(rw2, rh2, xo, yo, dold, x, y, decision);
        AppendAssoc(done, [Span(yo, xo), Span(-yo, xo)], FillRegion2(rw2, rh2, x, y, decision));
        done := done + [Span(yo, xo), Span(-yo, xo)];
      }
      assert FillRegion2(rw2, rh2, x, y, decision) == [];
      assert done + [] == done;
      assert start == old(log);
    }

    /** gc9a01a.c:766-774. */
    method DrawTriangle(x0: int, y0: int, x1: int, y1: int, x2: int, y2: int, color: u16)
      modifies this
      ensures log == old(log) + Plot(TrianglePoints(x0, y0, x1, y1, x2, y2), color)
    {
      ghost var l0 := log;
      DrawLine(x0, y0, x1, y1, color);
      ghost var l1 := log;
      DrawLine(x1, y1, x2, y2, color);
      ghost var l2 := log;
      DrawLine(x0, y0, x2, y2, color);
      TriangleSteps(l0, l1, l2, log, x0, y0, x1, y1, x2, y2, color);
    }

    /** The pixels of one draw_round_corner iteration at offsets (xc, yc),
        the body of the loop at gc9a01a.c:867-886 taken out as a method. */
    method WriteCornerPixels(x: int, y: int, cornername: bv8, xc: int, yc: int, color: u16)
      modifies this
      ensures log == old(log) + Plot(CornerPixels(x, y, cornername, xc, yc), color)
    {
      var xp, xm, yp, ym := x + xc, x - xc, y + yc, y - yc;
      var sp, sm, tp, tm := x + yc, x - yc, y + xc, y - xc;
      ghost var l0 := log;
      if cornername & 0x4 != 0 {
        WritePixel(xp, yp, color);
        WritePixel(sp, tp, color);
      }
      ghost var a := Pair(HasBit(cornername, 4), Point(xp, yp), Point(sp, tp));
      PairSteps(l0, log, HasBit(cornername, 4), Point(xp, yp), Point(sp, tp), color);
      ghost var l1 := log;
      if cornername & 0x2 != 0 {
        WritePixel(xp, ym, color);
        WritePixel(sp, tm, color);
      }
      ghost var b := Pair(HasBit(cornername, 2), Point(xp, ym), Point(sp, tm));
      PairSteps(l1, log, HasBit(cornername, 2), Point(xp, ym), Point(sp, tm), color);
      ghost var l2 := log;
      if cornername & 0x8 != 0 {
        WritePixel(sm, tp, color);
        WritePixel(xm, yp, color);
      }
      ghost var d := Pair(HasBit(cornername, 8), Point(sm, tp), Point(xm, yp));
      PairSteps(l2, log, HasBit(cornername, 8), Point(sm, tp), Point(xm, yp), color);
      ghost var l3 := log;
      if cornername & 0x1 != 0 {
        WritePixel(sm, tm, color);
        WritePixel(xm, ym, color);
      }
      ghost var e := Pair(HasBit(cornername, 1), Point(sm, tm), Point(xm, ym));
      PairSteps(l3, log, HasBit(cornername, 1), Point(sm, tm), Point(xm, ym), color);
      Plot4Steps(l0, l1, l2, l3, log, a, b, d, e, color);
      CornerPixelsAt(x, y, cornername, xc, yc, xp, xm, yp, ym, sp, sm, tp, tm);
    }

    /** gc9a01a.c:850-890, with write_pixel where the source calls an
        undeclared `writePixel`. */
    method DrawRoundCorner(x: int, y: int, r: int, cornername: bv8, color: u16)
      modifies this
      ensures log == old(log) + Plot(CornerPoints(x, y, r, cornername), color)
    {
      var f := 1 - r;
      var ddF_x := 1;
      var ddF_y := -2 * r;
      var xc := 0;
      var yc := r;
      ghost var all := CornerPoints(x, y, r, cornername);
      ghost var start := log;
      ghost var done: seq<Point> := [];
      while xc < yc
        invariant ddF_x == 2 * xc + 1 && ddF_y == -2 * yc
        invariant all == done + CornerRun(x, y, cornername, xc, yc, f)
        invariant log == start + Plot(done, color)
        decreases yc - xc
      {
        ghost var xo, yo, fo := xc, yc, f;
        if f >= 0 {
          yc := yc - 1;
          ddF_y := ddF_y + 2;
          f := f + ddF_y;
        }
        xc := xc + 1;
        ddF_x := ddF_x + 2;
        f := f + ddF_x;
        CornerNext(x, y, cornername, xo, yo, fo, xc, yc, f);
        WriteCornerPixels(x, y, cornername, xc, yc, color);
        PlotExtend(start, done, CornerPixels(x, y, cornername, xc, yc), color);
        AppendAssoc(done, CornerPixels(x, y, cornername, xc, yc), CornerRun(x, y, cornername, xc, yc, f));
        done := done + CornerPixels(x, y, cornername, xc, yc);
      }
      assert CornerRun(x, y, cornername, xc, yc, f) == [];
      assert done + [] == done;
      assert start == old(log);
    }

    /** gc9a01a.c:826-848. */
    method DrawRoundRect(x: int, y: int, width: int, height: int, radius: int, color: u16)
      modifies this
      ensures log == old(log) + Plot(DrawRoundRectPoints(x, y, width, height, radius), color)
    {
      var maxRadius := TruncDiv(if width < height then width else height, 2);
      var r := radius;
      if r > maxRadius {
        r := maxRadius;
      }
      var right, bottom := x + width - 1, y + height - 1;
      var inL, inR, inT, inB := x + r, x + width - r - 1, y + r, y + height - r - 1;
      var sw, sh := width - 2 * r, height - 2 * r;
      ghost var l0 := log;
      DrawFastHLine(inL, y, sw, color);
      ghost var l1 := log;
      DrawFastHLine(inL, bottom, sw, color);
      ghost var l2 := log;
      DrawFastVLine(x, inT, sh, color);
      ghost var l3 := log;
      DrawFastVLine(right, inT, sh, color);
      ghost var l4 := log;
      DrawRoundCorner(inL, inT, r, 1, color);
      ghost var l5 := log;
      DrawRoundCorner(inR, inT, r, 2, color);
      ghost var l6 := log;
      DrawRoundCorner(inR, inB, r, 4, color);
      ghost var l7 := log;
      DrawRoundCorner(inL, inB, r, 8, color);
      FrameAt(x, y, width, height, r, right, bottom, inL, inR, inT, inB, sw, sh, height - 2 * r - 1);
      assert r == ClampRadius(radius, width, height);
      RoundRectSteps(l0, l1, l2, l3, l4, l5, l6, l7, log, FrameOf(x, y, width, height, r), r, color);
    }

    /** gc9a01a.c:894-907. */
    method FillRoundRect(x: int, y: int, width: int, height: int, radius: int, color: u16)
      modifies this
      ensures log == old(log) + Plot(FillRoundRectPoints(x, y, width, height, radius), color)
    {
      var maxRadius := TruncDiv(if width < height then width else height, 2);
      var r := radius;
      if r > maxRadius {
        r := maxRadius;
      }
      var inL, inR, inT := x + r, x + width - r - 1, y + r;
      var sw, st := width - 2 * r, height - 2 * r - 1;
      ghost var l0 := log;
      FillRectangle(inL, y, sw, height, color);
      ghost var l1 := log;
      FillRoundCorner(inR, inT, r, 1, st, color);
      ghost var l2 := log;
      FillRoundCorner(inL, inT, r, 2, st, color);
      FrameAt(x, y, width, height, r, x + width - 1, y + height - 1, inL, inR, inT, y + height - r - 1,
              sw, height - 2 * r, st);
      assert r == ClampRadius(radius, width, height);
      RoundFillSteps(l0, l1, l2, log, FrameOf(x, y, width, height, r), r, color);
    }

    /** The bit-1 and bit-2 lines fill_round_corner draws for one column
        offset a (gc9a01a.c:936-941 and 943-948). */
    method DrawColumnPair(x0: int, corners: bv8, a: int, top: int, h: int, color: u16)
      modifies this
      ensures log == old(log) + Plot(ColumnsPoints(ColumnPair(x0, corners, a, top, h)), color)
    {
      var right, left := x0 + a, x0 - a;
      ghost var l0 := log;
      if corners & 1 != 0 {
        DrawFastVLine(right, top, h, color);
      }
      ghost var l1 := log;
      if corners & 2 != 0 {
        DrawFastVLine(left, top, h, color);
      }
      ColumnPairSteps(l0, l1, log, x0, corners, a, top, h, right, left, color);
    }

    /** gc9a01a.c:909-957. */
    method FillRoundCorner(x0: int, y0: int, r: int, corners: bv8, delta: int, color: u16)
      modifies this
      ensures log == old(log) + Plot(FillCornerPoints(x0, y0, r, corners, delta), color)
    {
      var f := 1 - r;
      var ddF_x := 1;
      var ddF_y := -2 * r;
      var x := 0;
      var y := r;
      var px := x;
      var py := y;
      var d := delta + 1;
      ghost var all := FillCornerColumns(x0, y0, r, corners, delta);
      ghost var start := log;
      ghost var done: seq<Column> := [];
      while x < y
        invariant ddF_x == 2 * x + 1 && ddF_y == -2 * y && px == x && py == y
        invariant all == done + FillCornerRun(x0, y0, corners, d, x, y, f)
        invariant log == start + Plot(ColumnsPoints(done), color)
        decreases y - x
      {
        ghost var xo, yo, fo := x, y, f;
        if f >= 0 {
          y := y - 1;
          ddF_y := ddF_y + 2;
          f := f + ddF_y;
        }
        x := x + 1;
        ddF_x := ddF_x + 2;
        f := f + ddF_x;
        FillCornerNext(x0, y0, corners, d, xo, yo, fo, x, y, f);
        var top1, h1 := y0 - y, 2 * y + d;
        var top2, h2 := y0 - px, 2 * px + d;
        ghost var l0 := log;
        if x < y + 1 {
          DrawColumnPair(x0, corners, x, top1, h1, color);
        }
        ghost var l1 := log;
        if y != py {
          DrawColumnPair(x0, corners, py, top2, h2, color);
          py := y;
        }
        px := x;
        FillCornerSteps(start, l0, l1, log, done, x0, y0, corners, d, xo, yo, fo, x, y, top1, h1, top2, h2, color);
        AppendAssoc(done, FillCornerStep(x0, y0, corners, d, xo, yo, fo), FillCornerRun(x0, y0, corners, d, x, y, f));
        done := done + FillCornerStep(x0, y0, corners, d, xo, yo, fo);
      }
      assert FillCornerRun(x0, y0, corners, d, x, y, f) == [];
      assert done + [] == done;
      assert start == old(log);
    }

    /** gc9a01a.c:959-965 with the intended arguments (0, 0, 240, 240). */
    method FillScreen(color: u16)
      modifies this
      ensures log == old(log) + Plot(FillScreenPoints(), color)
    {
      FillRectangle(0, 0, Width, Height, color);
    }

  }
}
