/** `gc9a01a_draw_circle` (gc9a01a.c:605-635) and `gc9a01a_fill_circle`
    (gc9a01a.c:637-667), each as the sequence of drawing calls it makes. */
module Circle {
  import opened Common
  import opened Spans

  /** The eight points one iteration of draw_circle writes, in the order of
      gc9a01a.c:613-620. */
  function Octants(cx: int, cy: int, a: int, b: int): seq<Point>
  {
    [Point(cx + a, cy + b), Point(cx - a, cy + b), Point(cx + a, cy - b), Point(cx - a, cy - b),
     Point(cx + b, cy + a), Point(cx - b, cy + a), Point(cx + b, cy - a), Point(cx - b, cy - a)]
  }

  /** The loop of draw_circle from offsets (xd, yd) with decision d. The
      source steps the centre `x`/`y` where the offsets `xd`/`yd` are meant
      (gc9a01a.c:625-628); this is the intended update. */
  function CircleRun(cx: int, cy: int, xd: int, yd: int, d: int): seq<Point>
    decreases yd - xd + 1
  {
    if yd < xd then []
    else Octants(cx, cy, xd, yd) + CircleRun(cx, cy, xd + 1, CircleNextY(yd, d), CircleNextD(xd, yd, d))
  }

  /** After `xd++`: a positive decision steps yd down and adds
      4*(xd - yd) + 10, otherwise 4*xd + 6 is added. */
  function CircleNextY(yd: int, d: int): int { if d > 0 then yd - 1 else yd }

  function CircleNextD(xd: int, yd: int, d: int): int
  {
    if d > 0 then d + 4 * (xd + 1 - (yd - 1)) + 10 else d + 4 * (xd + 1) + 6
  }

  /** One iteration of draw_circle: its eight points, then the run from
      the updated offsets and decision. */
  lemma CircleNext(cx: int, cy: int, xd: int, yd: int, d: int, xd': int, yd': int, d': int)
    requires yd >= xd
    requires xd' == xd + 1 && yd' == CircleNextY(yd, d) && d' == CircleNextD(xd, yd, d)
    ensures CircleRun(cx, cy, xd, yd, d) == Octants(cx, cy, xd, yd) + CircleRun(cx, cy, xd', yd', d')
  {
  }

  /** The points draw_circle passes to write_pixel; none for a negative radius. */
  function CirclePoints(cx: int, cy: int, radius: int): seq<Point>
  {
    if radius < 0 then [] else CircleRun(cx, cy, 0, radius, 3 - 2 * radius)
  }

  /** An offset (X, Y) from the centre that lies within the radius on both
      axes and whose squared distance exceeds r*r by at most its larger
      coordinate (about half a cell outside the circle) and falls short of
      it by at most 3r (about one and a half cells inside). */
  predicate NearCircle(X: int, Y: int, r: int)
  {
    && Abs(X) <= r && Abs(Y) <= r
    && Sq(X) + Sq(Y) <= Sq(r) + Max(Abs(X), Abs(Y))
    && Sq(r) - 3 * r <= Sq(X) + Sq(Y)
  }

  function Sq(v: int): int { v * v }

  lemma SqSteps(v: int)
    ensures Sq(v + 1) == Sq(v) + 2 * v + 1 && Sq(v - 1) == Sq(v) - 2 * v + 1 && Sq(-v) == Sq(v)
  {
  }

  /** The loop state of draw_circle: the closed form of the decision
      variable, and the distance bound of the point about to be drawn. */
  predicate DrawInv(r: int, xd: int, yd: int, d: int)
  {
    && 0 <= xd && yd <= r
    && d == 2 * Sq(xd) + 2 * Sq(yd) + 8 * xd - 6 * yd - 2 * Sq(r) + 4 * r + 3
    && (xd <= yd ==> Sq(xd) + Sq(yd) <= Sq(r) + yd)
    && (xd <= yd ==> Sq(r) - 3 * r <= Sq(xd) + Sq(yd))
  }

  lemma DrawInvStep(r: int, xd: int, yd: int, d: int)
    requires DrawInv(r, xd, yd, d) && xd <= yd
    ensures DrawInv(r, xd + 1, CircleNextY(yd, d), CircleNextD(xd, yd, d))
  {
    SqSteps(xd);
    SqSteps(yd);
  }

  /** An offset whose coordinates are a and b up to sign and order. */
  lemma OffsetNear(X: int, Y: int, a: int, b: int, r: int)
    requires 0 <= a <= b <= r && Sq(a) + Sq(b) <= Sq(r) + b && Sq(r) - 3 * r <= Sq(a) + Sq(b)
    requires (Abs(X) == a && Abs(Y) == b) || (Abs(X) == b && Abs(Y) == a)
    ensures NearCircle(X, Y, r)
  {
    SqSteps(X);
    SqSteps(Y);
  }

  lemma OctantsNear(cx: int, cy: int, a: int, b: int, r: int)
    requires 0 <= a <= b <= r && Sq(a) + Sq(b) <= Sq(r) + b && Sq(r) - 3 * r <= Sq(a) + Sq(b)
    ensures forall p :: p in Octants(cx, cy, a, b) ==> NearCircle(p.x - cx, p.y - cy, r)
  {
    forall p | p in Octants(cx, cy, a, b) ensures NearCircle(p.x - cx, p.y - cy, r) {
      OffsetNear(p.x - cx, p.y - cy, a, b, r);
    }
  }

  lemma {:induction false} CircleRunNear(cx: int, cy: int, r: int, xd: int, yd: int, d: int)
    requires DrawInv(r, xd, yd, d)
    ensures forall p :: p in CircleRun(cx, cy, xd, yd, d) ==> NearCircle(p.x - cx, p.y - cy, r)
    decreases yd - xd + 1
  {
    if xd <= yd {
      OctantsNear(cx, cy, xd, yd, r);
      DrawInvStep(r, xd, yd, d);
      CircleRunNear(cx, cy, r, xd + 1, CircleNextY(yd, d), CircleNextD(xd, yd, d));
      var rest := CircleRun(cx, cy, xd + 1, CircleNextY(yd, d), CircleNextD(xd, yd, d));
      assert CircleRun(cx, cy, xd, yd, d) == Octants(cx, cy, xd, yd) + rest;
    }
  }

  /** Every point of the circle lies in the radius box, at a squared
      distance from the centre of at most r*r plus its larger offset. */
  lemma CircleNearRadius(cx: int, cy: int, radius: int)
    ensures forall p :: p in CirclePoints(cx, cy, radius) ==> NearCircle(p.x - cx, p.y - cy, radius)
  {
    if radius >= 0 {
      CircleRunNear(cx, cy, radius, 0, radius, 3 - 2 * radius);
    }
  }

  lemma {:induction false} CircleRunSymmetric(cx: int, cy: int, xd: int, yd: int, d: int)
    ensures ClosedUnderMirrors(cx, cy, CircleRun(cx, cy, xd, yd, d))
    ensures ClosedUnderTranspose(cx, cy, CircleRun(cx, cy, xd, yd, d))
    decreases yd - xd + 1
  {
    if xd <= yd {
      CircleRunSymmetric(cx, cy, xd + 1, CircleNextY(yd, d), CircleNextD(xd, yd, d));
      var oct := Octants(cx, cy, xd, yd);
      var rest := CircleRun(cx, cy, xd + 1, CircleNextY(yd, d), CircleNextD(xd, yd, d));
      OctantsSymmetric(cx, cy, xd, yd);
      ClosedAppend(cx, cy, oct, rest);
      TransposeAppend(cx, cy, oct, rest);
      assert CircleRun(cx, cy, xd, yd, d) == oct + rest;
    }
  }

  /** The eight points of one iteration are the images of (a, b) under the
      reflections: MirrorX pairs them as 0-1, 2-3, 4-5, 6-7, MirrorY as 0-2,
      1-3, 4-6, 5-7 and Transpose as 0-4, 1-6, 2-5, 3-7. */
  lemma OctantsSymmetric(cx: int, cy: int, a: int, b: int)
    ensures ClosedUnderMirrors(cx, cy, Octants(cx, cy, a, b))
    ensures ClosedUnderTranspose(cx, cy, Octants(cx, cy, a, b))
  {
    var o := Octants(cx, cy, a, b);
    assert MirrorX(cx, o[0]) == o[1] && MirrorX(cx, o[1]) == o[0] && MirrorX(cx, o[2]) == o[3] && MirrorX(cx, o[3]) == o[2];
    assert MirrorX(cx, o[4]) == o[5] && MirrorX(cx, o[5]) == o[4] && MirrorX(cx, o[6]) == o[7] && MirrorX(cx, o[7]) == o[6];
    assert MirrorY(cy, o[0]) == o[2] && MirrorY(cy, o[2]) == o[0] && MirrorY(cy, o[1]) == o[3] && MirrorY(cy, o[3]) == o[1];
    assert MirrorY(cy, o[4]) == o[6] && MirrorY(cy, o[6]) == o[4] && MirrorY(cy, o[5]) == o[7] && MirrorY(cy, o[7]) == o[5];
    assert Transpose(cx, cy, o[0]) == o[4] && Transpose(cx, cy, o[4]) == o[0] && Transpose(cx, cy, o[1]) == o[6] && Transpose(cx, cy, o[6]) == o[1];
    assert Transpose(cx, cy, o[2]) == o[5] && Transpose(cx, cy, o[5]) == o[2] && Transpose(cx, cy, o[3]) == o[7] && Transpose(cx, cy, o[7]) == o[3];
    forall p | p in o ensures MirrorX(cx, p) in o && MirrorY(cy, p) in o && Transpose(cx, cy, p) in o {
      var k :| 0 <= k < 8 && o[k] == p;
    }
  }

  /** The set of points draw_circle writes is closed under reflection in
      both axes through the centre and in the diagonal. */
  lemma CircleSymmetric(cx: int, cy: int, radius: int)
    ensures ClosedUnderMirrors(cx, cy, CirclePoints(cx, cy, radius))
    ensures ClosedUnderTranspose(cx, cy, CirclePoints(cx, cy, radius))
  {
    if radius >= 0 {
      CircleRunSymmetric(cx, cy, 0, radius, 3 - 2 * radius);
    }
  }

  /** A negative radius writes nothing; otherwise the four points at
      distance r on the axes are written first. */
  lemma CircleExtremes(cx: int, cy: int, radius: int)
    ensures radius < 0 ==> CirclePoints(cx, cy, radius) == []
    ensures radius >= 0 ==>
              CirclePoints(cx, cy, radius)[..8] == Octants(cx, cy, 0, radius) &&
              Point(cx, cy + radius) in CirclePoints(cx, cy, radius) &&
              Point(cx, cy - radius) in CirclePoints(cx, cy, radius) &&
              Point(cx + radius, cy) in CirclePoints(cx, cy, radius) &&
              Point(cx - radius, cy) in CirclePoints(cx, cy, radius)
  {
    if radius >= 0 {
      var ps := CirclePoints(cx, cy, radius);
      assert ps[..8] == Octants(cx, cy, 0, radius);
      assert ps[0] == Point(cx, cy + radius) && ps[2] == Point(cx, cy - radius);
      assert ps[4] == Point(cx + radius, cy) && ps[5] == Point(cx - radius, cy);
    }
  }

  /** The loop of fill_circle from offsets (xd, yd) with midpoint decision d:
      four spans per iteration, in the order of gc9a01a.c:646-649. The
      source declares `radius` but reads an undeclared `r` (638, 643),
      loops on the centre `y >= x` and updates the centre rather than the
      offsets (645, 654-660), and leaves out the colour of each draw_line
      (646-649); this is the intended midpoint loop over xd and yd. */
  function FillRun(xd: int, yd: int, d: int): seq<Span>
    decreases yd - xd + 1
  {
    if yd < xd then []
    else Quad(xd, yd) + FillRun(xd + 1, FillNextY(yd, d), FillNextD(xd, yd, d))
  }

  /** The four spans of one iteration. */
  function Quad(xd: int, yd: int): seq<Span>
  {
    [Span(yd, xd), Span(-yd, xd), Span(xd, yd), Span(-xd, yd)]
  }

  /** After `++xd`: a negative decision adds 2*xd + 1, otherwise yd steps
      down and 2*(xd - yd) + 1 is added. */
  function FillNextY(yd: int, d: int): int { if d < 0 then yd else yd - 1 }

  function FillNextD(xd: int, yd: int, d: int): int
  {
    if d < 0 then d + 2 * (xd + 1) + 1 else d + 2 * (xd + 1 - (yd - 1)) + 1
  }

  /** One iteration of fill_circle: its four spans, then the run from the
      updated offsets and decision. */
  lemma FillNext(xd: int, yd: int, d: int, xd': int, yd': int, d': int)
    requires yd >= xd
    requires xd' == xd + 1 && yd' == FillNextY(yd, d) && d' == FillNextD(xd, yd, d)
    ensures FillRun(xd, yd, d) == Quad(xd, yd) + FillRun(xd', yd', d')
  {
  }

  /** The spans fill_circle draws; none for a negative radius. */
  function FillCircleSpans(radius: int): seq<Span>
  {
    if radius < 0 then [] else FillRun(0, radius, 1 - radius)
  }

  function FillCirclePoints(cx: int, cy: int, radius: int): seq<Point>
  {
    SpansPoints(cx, cy, FillCircleSpans(radius))
  }

  /** A span whose ends lie near the circle of radius r: their squared
      distance is within the larger offset of r*r, on either side. */
  predicate SpanNear(r: int, s: Span)
  {
    var m := Max(s.half, Abs(s.dy));
    0 <= s.half && Sq(r) - m <= Sq(s.half) + Sq(s.dy) <= Sq(r) + m
  }

  predicate FillInv(r: int, xd: int, yd: int, d: int)
  {
    && 0 <= xd
    && d == Sq(xd) + Sq(yd) + 2 * xd - yd - Sq(r) + 1
    && (xd <= yd ==> Sq(r) - yd <= Sq(xd) + Sq(yd) <= Sq(r) + yd)
  }

  lemma FillInvStep(r: int, xd: int, yd: int, d: int)
    requires FillInv(r, xd, yd, d) && xd <= yd
    ensures FillInv(r, xd + 1, FillNextY(yd, d), FillNextD(xd, yd, d))
  {
    SqSteps(xd);
    SqSteps(yd);
  }

  lemma {:induction false} FillRunNear(r: int, xd: int, yd: int, d: int)
    requires FillInv(r, xd, yd, d)
    ensures forall s :: s in FillRun(xd, yd, d) ==> SpanNear(r, s) && Span(-s.dy, s.half) in FillRun(xd, yd, d)
    decreases yd - xd + 1
  {
    if xd <= yd {
      FillInvStep(r, xd, yd, d);
      FillRunNear(r, xd + 1, FillNextY(yd, d), FillNextD(xd, yd, d));
      var q := Quad(xd, yd);
      var rest := FillRun(xd + 1, FillNextY(yd, d), FillNextD(xd, yd, d));
      assert FillRun(xd, yd, d) == q + rest;
      forall s | s in q ensures SpanNear(r, s) && Span(-s.dy, s.half) in q {
        SqSteps(xd);
        SqSteps(yd);
        assert Span(-(-yd), xd) == Span(yd, xd);
        assert Span(-(-xd), yd) == Span(xd, yd);
      }
    }
  }

  /** Every span of the filled circle ends near the circle, and each has
      its mirror image on the other side of the centre row. */
  lemma FillCircleSpansNear(radius: int)
    ensures forall s :: s in FillCircleSpans(radius) ==>
              SpanNear(radius, s) && Span(-s.dy, s.half) in FillCircleSpans(radius)
  {
    if radius >= 0 {
      FillRunNear(radius, 0, radius, 1 - radius);
    }
  }

  /** The filled circle is closed under both axis reflections, covers its
      centre row from cx - r to cx + r, and is empty for a negative radius. */
  lemma FillCircleShape(cx: int, cy: int, radius: int)
    ensures ClosedUnderMirrors(cx, cy, FillCirclePoints(cx, cy, radius))
    ensures forall p :: p in FillCirclePoints(cx, cy, radius) <==>
              exists s :: s in FillCircleSpans(radius) && InSpan(cx, cy, s, p)
    ensures radius < 0 ==> FillCirclePoints(cx, cy, radius) == []
    ensures forall p: Point :: p.y == cy && cx - radius <= p.x <= cx + radius ==> p in FillCirclePoints(cx, cy, radius)
  {
    FillCircleSpansNear(radius);
    var spans := FillCircleSpans(radius);
    SpansSymmetric(cx, cy, spans);
    SpansCover(cx, cy, spans);
    if radius >= 0 {
      assert spans[2] == Span(0, radius);
      forall p: Point | p.y == cy && cx - radius <= p.x <= cx + radius
        ensures p in FillCirclePoints(cx, cy, radius)
      {
        assert InSpan(cx, cy, spans[2], p);
      }
    }
  }
}
