/** Triangles: `gc9a01a_draw_triangle` (gc9a01a.c:766-774), three lines
    through the vertices, and the vertex sort that opens
    `gc9a01a_fill_triangle` (gc9a01a.c:776-794). */
module Triangle {
  import opened Common
  import opened Line

  /** The points of draw_triangle: edge 0-1, edge 1-2, then edge 0-2. */
  function TrianglePoints(x0: int, y0: int, x1: int, y1: int, x2: int, y2: int): seq<Point>
  {
    LinePoints(x0, y0, x1, y1) + LinePoints(x1, y1, x2, y2) + LinePoints(x0, y0, x2, y2)
  }

  /** All three vertices are drawn. */
  lemma TriangleVertices(x0: int, y0: int, x1: int, y1: int, x2: int, y2: int)
    ensures var ps := TrianglePoints(x0, y0, x1, y1, x2, y2);
            Point(x0, y0) in ps && Point(x1, y1) in ps && Point(x2, y2) in ps
  {
    LineEndpoints(x0, y0, x1, y1);
    LineEndpoints(x1, y1, x2, y2);
  }

  /** Every point drawn lies in the bounding box of the three vertices. */
  lemma TriangleInBox(x0: int, y0: int, x1: int, y1: int, x2: int, y2: int)
    ensures forall p :: p in TrianglePoints(x0, y0, x1, y1, x2, y2) ==>
              Min(x0, Min(x1, x2)) <= p.x <= Max(x0, Max(x1, x2)) &&
              Min(y0, Min(y1, y2)) <= p.y <= Max(y0, Max(y1, y2))
  {
    var lx, hx := Min(x0, Min(x1, x2)), Max(x0, Max(x1, x2));
    var ly, hy := Min(y0, Min(y1, y2)), Max(y0, Max(y1, y2));
    assert lx <= x0 <= hx && lx <= x1 <= hx && lx <= x2 <= hx;
    assert ly <= y0 <= hy && ly <= y1 <= hy && ly <= y2 <= hy;
    EdgeInBox(x0, y0, x1, y1, lx, hx, ly, hy);
    EdgeInBox(x1, y1, x2, y2, lx, hx, ly, hy);
    EdgeInBox(x0, y0, x2, y2, lx, hx, ly, hy);
  }

  /** A line between two points of a box stays in the box. */
  lemma EdgeInBox(xa: int, ya: int, xb: int, yb: int, lx: int, hx: int, ly: int, hy: int)
    requires lx <= xa <= hx && lx <= xb <= hx && ly <= ya <= hy && ly <= yb <= hy
    ensures forall p :: p in LinePoints(xa, ya, xb, yb) ==> lx <= p.x <= hx && ly <= p.y <= hy
  {
    LineInBox(xa, ya, xb, yb);
  }

  /** The three compare-and-swaps of fill_triangle (gc9a01a.c:780-794):
      each exchanges a pair of vertices whose rows are out of order. The
      source passes `&y_0, &y_1` to the `_swap_int16_t` macro, which swaps
      its arguments as lvalues (gc9a01a.c:27-32); the exchange of the
      variables is meant. */
  method SortByY(x0: int, y0: int, x1: int, y1: int, x2: int, y2: int)
    returns (a0: int, b0: int, a1: int, b1: int, a2: int, b2: int)
    ensures b0 <= b1 <= b2
    ensures multiset{Point(a0, b0), Point(a1, b1), Point(a2, b2)}
            == multiset{Point(x0, y0), Point(x1, y1), Point(x2, y2)}
    ensures y0 <= y1 <= y2 ==> a0 == x0 && b0 == y0 && a1 == x1 && b1 == y1 && a2 == x2 && b2 == y2
  {
    a0, b0, a1, b1, a2, b2 := x0, y0, x1, y1, x2, y2;
    if b0 > b1 {
      b0, b1 := b1, b0;
      a0, a1 := a1, a0;
    }
    if b1 > b2 {
      b1, b2 := b2, b1;
      a1, a2 := a2, a1;
    }
    if b0 > b1 {
      b0, b1 := b1, b0;
      a0, a1 := a1, a0;
    }
  }
}
