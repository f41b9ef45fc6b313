/** Horizontal spans centred on a column, the building block of the filled
    circle (gc9a01a.c:645-649) and the filled ellipse (gc9a01a.c:736-737,
    744-745): each span is one draw_line from (cx - half, cy + dy) to
    (cx + half, cy + dy). */
module Spans {
  import opened Common
  import opened Line

  datatype Span = Span(dy: int, half: int)

  function SpanPoints(cx: int, cy: int, s: Span): seq<Point>
  {
    LinePoints(cx - s.half, cy + s.dy, cx + s.half, cy + s.dy)
  }

  /** The points of a sequence of spans, drawn in order. */
  function SpansPoints(cx: int, cy: int, spans: seq<Span>): seq<Point>
  {
    if spans == [] then [] else SpanPoints(cx, cy, spans[0]) + SpansPoints(cx, cy, spans[1..])
  }

  lemma {:induction false} SpansAppend(cx: int, cy: int, a: seq<Span>, b: seq<Span>)
    ensures SpansPoints(cx, cy, a + b) == SpansPoints(cx, cy, a) + SpansPoints(cx, cy, b)
  {
    if a == [] {
      assert a + b == b;
    } else {
      assert (a + b)[0] == a[0];
      assert (a + b)[1..] == a[1..] + b;
      SpansAppend(cx, cy, a[1..], b);
    }
  }

  /** The cells a span covers. */
  predicate InSpan(cx: int, cy: int, s: Span, p: Point)
  {
    p.y == cy + s.dy && cx - s.half <= p.x <= cx + s.half
  }

  /** A span of non-negative half-width is the run of its cells, left to right. */
  lemma SpanShape(cx: int, cy: int, s: Span)
    requires s.half >= 0
    ensures SpanPoints(cx, cy, s) == seq(2 * s.half + 1, k => Point(cx - s.half + k, cy + s.dy))
    ensures forall p :: p in SpanPoints(cx, cy, s) <==> InSpan(cx, cy, s, p)
  {
    HorizontalLine(cx - s.half, cx + s.half, cy + s.dy);
    var ps := SpanPoints(cx, cy, s);
    forall p | InSpan(cx, cy, s, p) ensures p in ps {
      assert ps[p.x - (cx - s.half)] == p;
    }
  }

  /** The points of a span sequence are exactly the cells of its spans. */
  lemma {:induction false} SpansCover(cx: int, cy: int, spans: seq<Span>)
    requires forall s :: s in spans ==> s.half >= 0
    ensures forall p :: p in SpansPoints(cx, cy, spans) <==> exists s :: s in spans && InSpan(cx, cy, s, p)
  {
    if spans != [] {
      SpanShape(cx, cy, spans[0]);
      SpansCover(cx, cy, spans[1..]);
      forall p | exists s :: s in spans && InSpan(cx, cy, s, p)
        ensures p in SpansPoints(cx, cy, spans)
      {
        var s :| s in spans && InSpan(cx, cy, s, p);
        if s != spans[0] {
          assert s in spans[1..];
        }
      }
    }
  }

  /** Spans that come in pairs above and below the centre row draw a point
      set closed under both axis reflections. */
  lemma SpansSymmetric(cx: int, cy: int, spans: seq<Span>)
    requires forall s :: s in spans ==> s.half >= 0 && Span(-s.dy, s.half) in spans
    ensures ClosedUnderMirrors(cx, cy, SpansPoints(cx, cy, spans))
  {
    SpansCover(cx, cy, spans);
    forall p | p in SpansPoints(cx, cy, spans)
      ensures MirrorX(cx, p) in SpansPoints(cx, cy, spans) && MirrorY(cy, p) in SpansPoints(cx, cy, spans)
    {
      var s :| s in spans && InSpan(cx, cy, s, p);
      assert InSpan(cx, cy, s, MirrorX(cx, p));
      assert InSpan(cx, cy, Span(-s.dy, s.half), MirrorY(cy, p));
    }
  }
}
