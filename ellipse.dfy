/** `gc9a01a_draw_ellipse` (gc9a01a.c:669-717) and `gc9a01a_fill_ellipse`
    (gc9a01a.c:719-764): the two-region midpoint ellipse with semi-axes
    `width` and `height`, as the sequence of drawing calls each makes. */
module Ellipse {
  import opened Common
  import opened Spans

  /** The four points one iteration writes, in the order of
      gc9a01a.c:679-682 and 699-702. */
  function Quadrants(cx: int, cy: int, a: int, b: int): seq<Point>
  {
    [Point(cx + a, cy + b), Point(cx - a, cy + b), Point(cx + a, cy - b), Point(cx - a, cy - b)]
  }

  /** The state the first region hands to the second. */
  datatype Arc<T> = Arc(out: seq<T>, xd: int, yd: int)

  /** The ellipse parameters: rw2 = width^2, rh2 = height^2 (gc9a01a.c:671-672). */
  predicate Axes(rw2: int, rh2: int, yd: int)
  {
    rw2 >= 0 && rh2 >= 0 && (rh2 > 0 || yd <= 0)
  }

  /** Region 1 runs while the slope is below one: 2*rh2*xd < 2*rw2*yd. */
  predicate InRegion1(rw2: int, rh2: int, xd: int, yd: int)
  {
    2 * rh2 * xd < 2 * rw2 * yd
  }

  /** One step of region 1, shared by both ellipses: xd is incremented;
      a non-negative decision also steps yd down. Both updates read yd
      before it is decremented (gc9a01a.c:684-690, 730-740). */
  function Region1NextY(yd: int, dec: int): int { if dec < 0 then yd else yd - 1 }

  function Region1NextD(rw2: int, rh2: int, xd: int, yd: int, dec: int): int
  {
    if dec < 0 then dec + rh2 + 2 * rh2 * (xd + 1) else dec + rh2 + 2 * rh2 * (xd + 1) - 2 * rw2 * yd
  }

  /** One step of region 2, shared by both ellipses: yd is decremented; a
      decision that is not positive also steps xd up, after the update has
      read it (gc9a01a.c:703-710, 748-756). */
  function Region2NextX(xd: int, dec: int): int { if dec > 0 then xd else xd + 1 }

  function Region2NextD(rw2: int, rh2: int, xd: int, yd: int, dec: int): int
  {
    if dec > 0 then dec + rw2 - 2 * rw2 * (yd - 1) else dec + rw2 + 2 * rh2 * xd - 2 * rw2 * (yd - 1)
  }

  /** Region 1 of draw_ellipse from offsets (xd, yd) with decision dec. The
      source reads and updates the centre `x`/`y` where the offsets are
      meant (gc9a01a.c:677-690); this is the intended loop. */
  function DrawRegion1(cx: int, cy: int, rw2: int, rh2: int, xd: int, yd: int, dec: int): Arc<Point>
    requires Axes(rw2, rh2, yd)
    decreases 2 * rw2 * yd - 2 * rh2 * xd
  {
    if !InRegion1(rw2, rh2, xd, yd) then Arc([], xd, yd)
    else
      var rest := DrawRegion1(cx, cy, rw2, rh2, xd + 1, Region1NextY(yd, dec), Region1NextD(rw2, rh2, xd, yd, dec));
      Arc(Quadrants(cx, cy, xd, yd) + rest.out, rest.xd, rest.yd)
  }

  /** Region 1 is only entered with yd > 0. */
  lemma Region1Enter(rw2: int, rh2: int, xd: int, yd: int)
    requires rw2 >= 0 && rh2 >= 0 && 0 <= xd && InRegion1(rw2, rh2, xd, yd)
    ensures yd > 0
  {
    MulNonNeg(2 * rh2, xd);
    PositiveFactor(2 * rw2, yd);
  }

  /** One iteration of region 1 of draw_ellipse: its quadrants, then the
      rest of the region from the updated state. */
  lemma DrawRegion1Next(cx: int, cy: int, rw2: int, rh2: int, xd: int, yd: int, dec: int, xd': int, yd': int, dec': int)
    requires Axes(rw2, rh2, yd) && 0 <= xd && 0 <= yd && InRegion1(rw2, rh2, xd, yd)
    requires xd' == xd + 1 && yd' == Region1NextY(yd, dec) && dec' == Region1NextD(rw2, rh2, xd, yd, dec)
    ensures Axes(rw2, rh2, yd') && 0 <= yd'
    ensures 2 * rw2 * yd' - 2 * rh2 * xd' < 2 * rw2 * yd - 2 * rh2 * xd
    ensures var a, r := DrawRegion1(cx, cy, rw2, rh2, xd, yd, dec), DrawRegion1(cx, cy, rw2, rh2, xd', yd', dec');
            a.out == Quadrants(cx, cy, xd, yd) + r.out && a.xd == r.xd && a.yd == r.yd
  {
    Region1Step(rw2, rh2, xd, yd, dec);
  }

  /** One iteration of region 2 of draw_ellipse. */
  lemma DrawRegion2Next(cx: int, cy: int, rw2: int, rh2: int, xd: int, yd: int, dec: int, xd': int, yd': int, dec': int)
    requires yd >= 0
    requires xd' == Region2NextX(xd, dec) && yd' == yd - 1 && dec' == Region2NextD(rw2, rh2, xd, yd, dec)
    ensures DrawRegion2(cx, cy, rw2, rh2, xd, yd, dec) == Quadrants(cx, cy, xd, yd) + DrawRegion2(cx, cy, rw2, rh2, xd', yd', dec')
  {
  }

  /** Region 2 of draw_ellipse: one row per iteration down to yd = 0
      (gc9a01a.c:697-710). */
  function DrawRegion2(cx: int, cy: int, rw2: int, rh2: int, xd: int, yd: int, dec: int): seq<Point>
    decreases yd + 1
  {
    if yd < 0 then []
    else
      Quadrants(cx, cy, xd, yd)
        + DrawRegion2(cx, cy, rw2, rh2, Region2NextX(xd, dec), yd - 1, Region2NextD(rw2, rh2, xd, yd, dec))
  }

  lemma SquarePositive(v: int)
    ensures v * v >= 0 && (v != 0 ==> v * v > 0)
  {
    if v < 0 {
      assert v * v == (-v) * (-v);
    }
  }

  /** The decision of region 2, from the state region 1 ends in. The `>> 2`
      acts on a non-negative value. The source of draw_ellipse multiplies by
      (2*x + 1) where (2*xd + 1) is meant (gc9a01a.c:696). */
  function Region2Decision(rw2: int, rh2: int, xd: int, yd: int): int
  {
    (rh2 * ((2 * xd + 1) * (2 * xd + 1))) / 4 + rw2 * ((yd - 1) * (yd - 1)) - rw2 * rh2
  }

  /** The decision region 1 starts from: rh2 - rw2*height + rw2/4. */
  function Region1Decision(rw2: int, rh2: int, height: int): int
  {
    rh2 - rw2 * height + rw2 / 4
  }

  /** The points draw_ellipse passes to write_pixel. */
  function EllipsePoints(cx: int, cy: int, width: int, height: int): seq<Point>
  {
    var rw2 := width * width;
    var rh2 := height * height;
    SquarePositive(width);
    SquarePositive(height);
    var a := DrawRegion1(cx, cy, rw2, rh2, 0, height, Region1Decision(rw2, rh2, height));
    a.out + DrawRegion2(cx, cy, rw2, rh2, a.xd, a.yd, Region2Decision(rw2, rh2, a.xd, a.yd))
  }

  /** draw_ellipse is region 1 from the top of the vertical axis, then
      region 2 from where region 1 stops. */
  lemma EllipseSplit(cx: int, cy: int, width: int, height: int, rw2: int, rh2: int, d1: int, arc: Arc<Point>, d2: int)
    requires rw2 == width * width && rh2 == height * height && Axes(rw2, rh2, height)
    requires d1 == Region1Decision(rw2, rh2, height) && arc == DrawRegion1(cx, cy, rw2, rh2, 0, height, d1)
    requires d2 == Region2Decision(rw2, rh2, arc.xd, arc.yd)
    ensures EllipsePoints(cx, cy, width, height) == arc.out + DrawRegion2(cx, cy, rw2, rh2, arc.xd, arc.yd, d2)
  {
  }

  lemma QuadrantsClosed(cx: int, cy: int, a: int, b: int)
    ensures ClosedUnderMirrors(cx, cy, Quadrants(cx, cy, a, b))
  {
  }

  lemma PositiveFactor(a: int, b: int)
    requires 0 <= a && 0 < a * b
    ensures 0 < b
  {
  }

  lemma MulNonNeg(a: int, b: int)
    requires 0 <= a && 0 <= b
    ensures 0 <= a * b
  {
  }

  /** A step of region 1 is only taken with yd > 0 and rh2 > 0, and it
      decreases the measure 2*rw2*yd - 2*rh2*xd. */
  lemma Region1Step(rw2: int, rh2: int, xd: int, yd: int, dec: int)
    requires Axes(rw2, rh2, yd) && 0 <= xd && 0 <= yd && InRegion1(rw2, rh2, xd, yd)
    ensures 0 < yd && 0 < rh2 && 0 <= Region1NextY(yd, dec) <= yd
    ensures 2 * rw2 * Region1NextY(yd, dec) - 2 * rh2 * (xd + 1) < 2 * rw2 * yd - 2 * rh2 * xd
  {
    MulNonNeg(2 * rh2, xd);
    var y' := Region1NextY(yd, dec);
    MulNonNeg(2 * rw2, yd - y');
    assert 2 * rw2 * (yd - y') == 2 * rw2 * yd - 2 * rw2 * y';
    assert 2 * rh2 * (xd + 1) == 2 * rh2 * xd + 2 * rh2;
  }

  /** Region 1 keeps 0 <= xd and 0 <= yd, writes only rows within yd of the
      centre, and its points are closed under both mirrors. */
  lemma {:induction false} DrawRegion1Facts(cx: int, cy: int, rw2: int, rh2: int, xd: int, yd: int, dec: int)
    requires Axes(rw2, rh2, yd) && 0 <= xd && 0 <= yd
    ensures var a := DrawRegion1(cx, cy, rw2, rh2, xd, yd, dec);
            && ClosedUnderMirrors(cx, cy, a.out) && xd <= a.xd && 0 <= a.yd <= yd
            && (forall p :: p in a.out ==> Abs(p.y - cy) <= yd)
            && (InRegion1(rw2, rh2, xd, yd) ==> a.out[..4] == Quadrants(cx, cy, xd, yd))
            && (!InRegion1(rw2, rh2, xd, yd) ==> a == Arc([], xd, yd))
    decreases 2 * rw2 * yd - 2 * rh2 * xd
  {
    if InRegion1(rw2, rh2, xd, yd) {
      var y' := Region1NextY(yd, dec);
      Region1Step(rw2, rh2, xd, yd, dec);
      DrawRegion1Facts(cx, cy, rw2, rh2, xd + 1, y', Region1NextD(rw2, rh2, xd, yd, dec));
      QuadrantsClosed(cx, cy, xd, yd);
      var rest := DrawRegion1(cx, cy, rw2, rh2, xd + 1, y', Region1NextD(rw2, rh2, xd, yd, dec));
      ClosedAppend(cx, cy, Quadrants(cx, cy, xd, yd), rest.out);
      assert DrawRegion1(cx, cy, rw2, rh2, xd, yd, dec).out == Quadrants(cx, cy, xd, yd) + rest.out;
    }
  }


  /** Region 2 writes rows yd down to 0 and is closed under both mirrors. */
  lemma {:induction false} DrawRegion2Facts(cx: int, cy: int, rw2: int, rh2: int, xd: int, yd: int, dec: int)
    ensures var ps := DrawRegion2(cx, cy, rw2, rh2, xd, yd, dec);
            && ClosedUnderMirrors(cx, cy, ps)
            && (forall p :: p in ps ==> Abs(p.y - cy) <= yd)
            && (yd < 0 ==> ps == [])
    decreases yd + 1
  {
    if yd >= 0 {
      var rest := DrawRegion2(cx, cy, rw2, rh2, Region2NextX(xd, dec), yd - 1, Region2NextD(rw2, rh2, xd, yd, dec));
      DrawRegion2Facts(cx, cy, rw2, rh2, Region2NextX(xd, dec), yd - 1, Region2NextD(rw2, rh2, xd, yd, dec));
      QuadrantsClosed(cx, cy, xd, yd);
      ClosedAppend(cx, cy, Quadrants(cx, cy, xd, yd), rest);
      assert DrawRegion2(cx, cy, rw2, rh2, xd, yd, dec) == Quadrants(cx, cy, xd, yd) + rest;
    }
  }

  /** Region 2 starts with the quadrants of (xd, yd) and its last iteration
      lies on the centre row. */
  lemma {:induction false} DrawRegion2Ends(cx: int, cy: int, rw2: int, rh2: int, xd: int, yd: int, dec: int)
    requires yd >= 0
    ensures var ps := DrawRegion2(cx, cy, rw2, rh2, xd, yd, dec);
            ps[..4] == Quadrants(cx, cy, xd, yd) && exists p :: p in ps && p.y == cy
    decreases yd
  {
    var rest := DrawRegion2(cx, cy, rw2, rh2, Region2NextX(xd, dec), yd - 1, Region2NextD(rw2, rh2, xd, yd, dec));
    var ps := DrawRegion2(cx, cy, rw2, rh2, xd, yd, dec);
    assert ps == Quadrants(cx, cy, xd, yd) + rest;
    if yd == 0 {
      assert ps[0] in ps && ps[0].y == cy;
    } else {
      DrawRegion2Ends(cx, cy, rw2, rh2, Region2NextX(xd, dec), yd - 1, Region2NextD(rw2, rh2, xd, yd, dec));
      var p :| p in rest && p.y == cy;
      assert p in ps;
    }
  }

  /** draw_ellipse writes a point set closed under reflection in both axes
      through the centre, within height rows of the centre. */
  lemma EllipseSymmetric(cx: int, cy: int, width: int, height: int)
    ensures ClosedUnderMirrors(cx, cy, EllipsePoints(cx, cy, width, height))
    ensures forall p :: p in EllipsePoints(cx, cy, width, height) ==> Abs(p.y - cy) <= Abs(height)
  {
    var rw2 := width * width;
    var rh2 := height * height;
    SquarePositive(width);
    SquarePositive(height);
    var d1 := Region1Decision(rw2, rh2, height);
    if height >= 0 {
      DrawRegion1Facts(cx, cy, rw2, rh2, 0, height, d1);
      var a := DrawRegion1(cx, cy, rw2, rh2, 0, height, d1);
      var d2 := Region2Decision(rw2, rh2, a.xd, a.yd);
      DrawRegion2Facts(cx, cy, rw2, rh2, a.xd, a.yd, d2);
      ClosedAppend(cx, cy, a.out, DrawRegion2(cx, cy, rw2, rh2, a.xd, a.yd, d2));
    } else {
      EllipseNegative(cx, cy, width, height);
    }
  }

  /** A negative height writes nothing. */
  lemma EllipseNegative(cx: int, cy: int, width: int, height: int)
    requires height < 0
    ensures EllipsePoints(cx, cy, width, height) == []
  {
    var rw2 := width * width;
    var rh2 := height * height;
    SquarePositive(width);
    SquarePositive(height);
    assert !InRegion1(rw2, rh2, 0, height) by {
      MulNonNeg(2 * rw2, -height);
      assert 2 * rw2 * (-height) == -(2 * rw2 * height);
    }
    DrawRegion2Facts(cx, cy, rw2, rh2, 0, height, Region2Decision(rw2, rh2, 0, height));
  }

  /** With height >= 0, draw_ellipse starts at the top and bottom of the
      vertical axis and reaches the centre row. */
  lemma EllipseEnds(cx: int, cy: int, width: int, height: int)
    requires height >= 0
    ensures EllipsePoints(cx, cy, width, height)[..4] == Quadrants(cx, cy, 0, height)
    ensures exists p :: p in EllipsePoints(cx, cy, width, height) && p.y == cy
  {
    var rw2 := width * width;
    var rh2 := height * height;
    SquarePositive(width);
    SquarePositive(height);
    var d1 := Region1Decision(rw2, rh2, height);
    DrawRegion1Facts(cx, cy, rw2, rh2, 0, height, d1);
    var a := DrawRegion1(cx, cy, rw2, rh2, 0, height, d1);
    var d2 := Region2Decision(rw2, rh2, a.xd, a.yd);
    DrawRegion2Ends(cx, cy, rw2, rh2, a.xd, a.yd, d2);
    var b := DrawRegion2(cx, cy, rw2, rh2, a.xd, a.yd, d2);
    assert EllipsePoints(cx, cy, width, height) == a.out + b;
    var p :| p in b && p.y == cy;
    assert p in a.out + b;
  }

  /** Region 1 of fill_ellipse: after `x++`, a non-negative decision draws
      the rows y0 + y and y0 - y from x0 - (x - 1) with width 2*(x - 1) + 1,
      that is the span of half-width x - 1 (gc9a01a.c:728-741). */
  /** The spans one iteration of region 1 draws: rows y and -y of
      half-width x when the decision is not negative, else none. */
  function Region1Rows(x: int, y: int, dec: int): seq<Span>
  {
    if dec < 0 then [] else [Span(y, x), Span(-y, x)]
  }

  function FillRegion1(rw2: int, rh2: int, x: int, y: int, dec: int): Arc<Span>
    requires Axes(rw2, rh2, y)
    decreases 2 * rw2 * y - 2 * rh2 * x
  {
    if !InRegion1(rw2, rh2, x, y) then Arc([], x, y)
    else
      var rest := FillRegion1(rw2, rh2, x + 1, Region1NextY(y, dec), Region1NextD(rw2, rh2, x, y, dec));
      Arc(Region1Rows(x, y, dec) + rest.out, rest.xd, rest.yd)
  }

  /** The source keeps 2*rw2 and 2*rh2 in locals: its guard and decision
      update are InRegion1 and Region1NextD written with them. */
  lemma Region1Doubled(rw2: int, rh2: int, twoRw2: int, twoRh2: int, x: int, y: int, dec: int)
    requires twoRw2 == 2 * rw2 && twoRh2 == 2 * rh2
    ensures InRegion1(rw2, rh2, x, y) == (twoRh2 * x < twoRw2 * y)
    ensures Region1NextD(rw2, rh2, x, y, dec)
            == if dec < 0 then dec + rh2 + twoRh2 * (x + 1) else dec + rh2 + twoRh2 * (x + 1) - twoRw2 * y
  {
  }

  /** One iteration of region 1 of fill_ellipse: the pair of spans it draws
      when the decision is not negative, then the rest of the region. */
  lemma FillRegion1Next(rw2: int, rh2: int, x: int, y: int, dec: int, x': int, y': int, dec': int)
    requires Axes(rw2, rh2, y) && 0 <= x && 0 <= y && InRegion1(rw2, rh2, x, y)
    requires x' == x + 1 && y' == Region1NextY(y, dec) && dec' == Region1NextD(rw2, rh2, x, y, dec)
    ensures Axes(rw2, rh2, y') && 0 <= y'
    ensures 2 * rw2 * y' - 2 * rh2 * x' < 2 * rw2 * y - 2 * rh2 * x
    ensures var a, r := FillRegion1(rw2, rh2, x, y, dec), FillRegion1(rw2, rh2, x', y', dec');
            && a.out == Region1Rows(x, y, dec) + r.out
            && a.xd == r.xd && a.yd == r.yd
  {
    Region1Step(rw2, rh2, x, y, dec);
  }

  /** Region 2 of fill_ellipse: rows y0 + y and y0 - y of half-width x for
      every y down to 0 (gc9a01a.c:744-757). */
  function FillRegion2(rw2: int, rh2: int, x: int, y: int, dec: int): seq<Span>
    decreases y + 1
  {
    if y < 0 then []
    else [Span(y, x), Span(-y, x)] + FillRegion2(rw2, rh2, Region2NextX(x, dec), y - 1, Region2NextD(rw2, rh2, x, y, dec))
  }

  /** The spans fill_ellipse draws, each a fast horizontal line from
      cx - half of width 2*half + 1. */
  function FillEllipseSpans(width: int, height: int): seq<Span>
  {
    var rw2 := width * width;
    var rh2 := height * height;
    SquarePositive(width);
    SquarePositive(height);
    var a := FillRegion1(rw2, rh2, 0, height, Region1Decision(rw2, rh2, height));
    a.out + FillRegion2(rw2, rh2, a.xd, a.yd, Region2Decision(rw2, rh2, a.xd, a.yd))
  }

  /** One iteration of region 2 of fill_ellipse. */
  lemma FillRegion2Next(rw2: int, rh2: int, x: int, y: int, dec: int, x': int, y': int, dec': int)
    requires y >= 0
    requires x' == Region2NextX(x, dec) && y' == y - 1 && dec' == Region2NextD(rw2, rh2, x, y, dec)
    ensures FillRegion2(rw2, rh2, x, y, dec) == [Span(y, x), Span(-y, x)] + FillRegion2(rw2, rh2, x', y', dec')
  {
  }

  /** fill_ellipse is region 1 from the top of the vertical axis, then
      region 2 from where region 1 stops. */
  lemma FillEllipseSplit(width: int, height: int, rw2: int, rh2: int, arc: Arc<Span>)
    requires rw2 == width * width && rh2 == height * height && Axes(rw2, rh2, height)
    requires arc == FillRegion1(rw2, rh2, 0, height, Region1Decision(rw2, rh2, height))
    ensures FillEllipseSpans(width, height)
            == arc.out + FillRegion2(rw2, rh2, arc.xd, arc.yd, Region2Decision(rw2, rh2, arc.xd, arc.yd))
  {
  }

  function FillEllipsePoints(cx: int, cy: int, width: int, height: int): seq<Point>
  {
    SpansPoints(cx, cy, FillEllipseSpans(width, height))
  }

  /** Spans of non-negative half-width that come in pairs about the centre row. */
  predicate Paired(spans: seq<Span>)
  {
    forall s :: s in spans ==> s.half >= 0 && Span(-s.dy, s.half) in spans
  }

  lemma {:induction false} FillRegion1Facts(rw2: int, rh2: int, x: int, y: int, dec: int)
    requires Axes(rw2, rh2, y) && 0 <= x && 0 <= y
    ensures var a := FillRegion1(rw2, rh2, x, y, dec);
            && Paired(a.out) && x <= a.xd && 0 <= a.yd <= y
            && (forall s :: s in a.out ==> Abs(s.dy) <= y)
    decreases 2 * rw2 * y - 2 * rh2 * x
  {
    if InRegion1(rw2, rh2, x, y) {
      var y' := Region1NextY(y, dec);
      Region1Step(rw2, rh2, x, y, dec);
      FillRegion1Facts(rw2, rh2, x + 1, y', Region1NextD(rw2, rh2, x, y, dec));
      var rest := FillRegion1(rw2, rh2, x + 1, y', Region1NextD(rw2, rh2, x, y, dec));
      var here: seq<Span> := if dec < 0 then [] else [Span(y, x), Span(-y, x)];
      assert FillRegion1(rw2, rh2, x, y, dec).out == here + rest.out;
      assert Span(-(-y), x) == Span(y, x);
    }
  }

  lemma {:induction false} FillRegion2Facts(rw2: int, rh2: int, x: int, y: int, dec: int)
    requires 0 <= x
    ensures var spans := FillRegion2(rw2, rh2, x, y, dec);
            && Paired(spans)
            && (forall s :: s in spans ==> Abs(s.dy) <= y)
            && (y < 0 ==> spans == [])
    decreases y + 1
  {
    if y >= 0 {
      var next := Region2NextD(rw2, rh2, x, y, dec);
      FillRegion2Facts(rw2, rh2, Region2NextX(x, dec), y - 1, next);
      var rest := FillRegion2(rw2, rh2, Region2NextX(x, dec), y - 1, next);
      assert FillRegion2(rw2, rh2, x, y, dec) == [Span(y, x), Span(-y, x)] + rest;
      assert Span(-(-y), x) == Span(y, x);
    }
  }

  /** The last iteration of region 2 fills the centre row. */
  lemma {:induction false} FillRegion2Centre(rw2: int, rh2: int, x: int, y: int, dec: int)
    requires y >= 0
    ensures exists s :: s in FillRegion2(rw2, rh2, x, y, dec) && s.dy == 0
    decreases y
  {
    var next := Region2NextD(rw2, rh2, x, y, dec);
    var rest := FillRegion2(rw2, rh2, Region2NextX(x, dec), y - 1, next);
    var spans := FillRegion2(rw2, rh2, x, y, dec);
    assert spans == [Span(y, x), Span(-y, x)] + rest;
    if y == 0 {
      assert spans[0] in spans;
    } else {
      FillRegion2Centre(rw2, rh2, Region2NextX(x, dec), y - 1, next);
      var s :| s in rest && s.dy == 0;
      assert s in spans;
    }
  }

  /** With height < 0 fill_ellipse draws no span. */
  lemma FillEllipseNegative(width: int, height: int)
    requires height < 0
    ensures FillEllipseSpans(width, height) == []
  {
    var rw2 := width * width;
    var rh2 := height * height;
    SquarePositive(width);
    SquarePositive(height);
    assert !InRegion1(rw2, rh2, 0, height) by {
      MulNonNeg(2 * rw2, -height);
      assert 2 * rw2 * (-height) == -(2 * rw2 * height);
    }
    FillRegion2Facts(rw2, rh2, 0, height, Region2Decision(rw2, rh2, 0, height));
  }

  /** With height >= 0 fill_ellipse draws spans paired about the centre
      row, within height rows of it, including the centre row itself. */
  lemma FillEllipseSpansShape(width: int, height: int)
    requires height >= 0
    ensures Paired(FillEllipseSpans(width, height))
    ensures forall s :: s in FillEllipseSpans(width, height) ==> Abs(s.dy) <= height
    ensures exists s :: s in FillEllipseSpans(width, height) && s.dy == 0
  {
    var rw2 := width * width;
    var rh2 := height * height;
    SquarePositive(width);
    SquarePositive(height);
    var d1 := Region1Decision(rw2, rh2, height);
    FillRegion1Facts(rw2, rh2, 0, height, d1);
    var a := FillRegion1(rw2, rh2, 0, height, d1);
    var d2 := Region2Decision(rw2, rh2, a.xd, a.yd);
    FillRegion2Facts(rw2, rh2, a.xd, a.yd, d2);
    FillRegion2Centre(rw2, rh2, a.xd, a.yd, d2);
    var b := FillRegion2(rw2, rh2, a.xd, a.yd, d2);
    assert FillEllipseSpans(width, height) == a.out + b;
    var s :| s in b && s.dy == 0;
    assert s in a.out + b;
  }

  /** The filled ellipse is closed under both axis reflections, stays
      within height rows of the centre and contains the centre itself when
      height >= 0. */
  lemma FillEllipseShape(cx: int, cy: int, width: int, height: int)
    ensures ClosedUnderMirrors(cx, cy, FillEllipsePoints(cx, cy, width, height))
    ensures forall p :: p in FillEllipsePoints(cx, cy, width, height) ==> Abs(p.y - cy) <= Abs(height)
    ensures height >= 0 ==> Point(cx, cy) in FillEllipsePoints(cx, cy, width, height)
  {
    var spans := FillEllipseSpans(width, height);
    if height < 0 {
      FillEllipseNegative(width, height);
    } else {
      FillEllipseSpansShape(width, height);
      SpansSymmetric(cx, cy, spans);
      SpansCover(cx, cy, spans);
      var s :| s in spans && s.dy == 0;
      assert InSpan(cx, cy, s, Point(cx, cy));
    }
  }
}
