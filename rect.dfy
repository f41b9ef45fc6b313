/** Rectangles and the screen fill (gc9a01a.c:585-603, 959-965): outlines
    from four fast lines, fills as one fast horizontal line per row. */
module Rect {
  import opened Common
  import opened Protocol
  import opened Line

  /** The points of `gc9a01a_draw_rectangle`: left edge, top edge, right
      edge, bottom edge, in that order. */
  function RectPoints(x: int, y: int, width: int, height: int): seq<Point>
  {
    Edges(x, y, width, height, x + width - 1, y + height - 1)
  }

  /** The four edges, with the right column and bottom row given. */
  function Edges(x: int, y: int, width: int, height: int, right: int, bottom: int): seq<Point>
  {
    VLinePoints(x, y, height) + HLinePoints(x, y, width)
      + VLinePoints(right, y, height) + HLinePoints(x, bottom, width)
  }

  predicate InRect(p: Point, x: int, y: int, width: int, height: int)
  {
    x <= p.x < x + width && y <= p.y < y + height
  }

  predicate OnBorder(p: Point, x: int, y: int, width: int, height: int)
  {
    p.x == x || p.x == x + width - 1 || p.y == y || p.y == y + height - 1
  }

  /** The outline of a non-empty rectangle is exactly its border cells. */
  lemma RectOutline(x: int, y: int, width: int, height: int)
    requires width >= 1 && height >= 1
    ensures forall p :: p in RectPoints(x, y, width, height) <==>
              InRect(p, x, y, width, height) && OnBorder(p, x, y, width, height)
  {
    VLineCells(x, y, height);
    HLineCells(x, y, width);
    VLineCells(x + width - 1, y, height);
    HLineCells(x, y + height - 1, width);
  }

  /** The points of `gc9a01a_fill_rectangle`: one fast horizontal line of
      the full width per row, top row first. The source's loop header is
      malformed and offsets each span by one column and one row
      (gc9a01a.c:597-598); this is the evident intent, rows y .. y+height-1. */
  function FillPoints(x: int, y: int, width: int, height: int): seq<Point>
    decreases height
  {
    if height <= 0 then [] else FillPoints(x, y, width, height - 1) + HLinePoints(x, y + height - 1, width)
  }

  /** Whatever the width, every filled point lies in rows y .. y+height-1. */
  lemma {:induction false} FillRows(x: int, y: int, width: int, height: int)
    ensures forall p :: p in FillPoints(x, y, width, height) ==> y <= p.y < y + height
    decreases height
  {
    if height > 0 {
      FillRows(x, y, width, height - 1);
      HLineRow(x, y + height - 1, width);
    }
  }

  /** A fill of positive width covers exactly the rectangle's cells. */
  lemma {:induction false} FillCovers(x: int, y: int, width: int, height: int)
    requires width >= 1
    ensures forall p :: p in FillPoints(x, y, width, height) <==> InRect(p, x, y, width, height)
    decreases height
  {
    if height > 0 {
      FillCovers(x, y, width, height - 1);
      HLineShape(x, y + height - 1, width);
      forall p | InRect(p, x, y, width, height) && p.y == y + height - 1
        ensures p in HLinePoints(x, y + height - 1, width)
      {
        assert p == HLinePoints(x, y + height - 1, width)[p.x - x];
      }
    }
  }

  /** Reference layout of a filled rectangle: `height` rows of `width`
      cells each, top row first, each row left to right. */
  function Row(x: int, y: int, width: nat): seq<Point>
  {
    seq(width, k requires 0 <= k < width => Point(x + k, y))
  }

  function Grid(x: int, y: int, width: nat, height: int): seq<Point>
    decreases height
  {
    if height <= 0 then [] else Grid(x, y, width, height - 1) + Row(x, y + height - 1, width)
  }

  /** Position of column c of row r in a row-major sequence of rows of the given width. */
  function RowMajor(width: int, r: int, c: int): int { r * width + c }

  lemma MulStep(r: int, w: int, c: int, h: int)
    requires 0 <= r < h && 0 <= c < w
    ensures 0 <= r * w + c < h * w
    ensures r < h - 1 ==> r * w + c < (h - 1) * w
  {
    assert r * w + c < (r + 1) * w;
    assert (r + 1) * w <= h * w;
    if r < h - 1 {
      assert (r + 1) * w <= (h - 1) * w;
    }
  }

  lemma {:induction false} GridLength(x: int, y: int, width: nat, height: int)
    requires height >= 0
    ensures |Grid(x, y, width, height)| == height * width
    decreases height
  {
    if height > 0 {
      GridLength(x, y, width, height - 1);
      assert height * width == (height - 1) * width + width;
    }
  }

  lemma {:induction false} GridAt(x: int, y: int, width: nat, height: int, r: int, c: int)
    requires 0 <= r < height && 0 <= c < width
    ensures 0 <= RowMajor(width, r, c) < |Grid(x, y, width, height)|
    ensures Grid(x, y, width, height)[RowMajor(width, r, c)] == Point(x + c, y + r)
    decreases height
  {
    var prev := Grid(x, y, width, height - 1);
    GridLength(x, y, width, height - 1);
    GridLength(x, y, width, height);
    MulStep(r, width, c, height);
    if r < height - 1 {
      GridAt(x, y, width, height - 1, r, c);
    } else {
      assert RowMajor(width, r, c) == |prev| + c;
    }
  }

  /** With a positive width, each fast horizontal line of the fill is one row of the grid. */
  lemma {:induction false} FillIsGrid(x: int, y: int, width: int, height: int)
    requires width >= 1
    ensures FillPoints(x, y, width, height) == Grid(x, y, width, height)
    decreases height
  {
    if height > 0 {
      FillIsGrid(x, y, width, height - 1);
      HLineShape(x, y + height - 1, width);
    }
  }

  /** The reference layout is row-major: point r*width + c is column c of row r. */
  lemma GridRowMajor(x: int, y: int, width: nat, height: int)
    requires height >= 0
    ensures |Grid(x, y, width, height)| == height * width
    ensures forall r, c :: 0 <= r < height && 0 <= c < width ==>
              0 <= RowMajor(width, r, c) < height * width
    ensures forall r, c :: 0 <= r < height && 0 <= c < width ==>
              Grid(x, y, width, height)[RowMajor(width, r, c)] == Point(x + c, y + r)
  {
    GridLength(x, y, width, height);
    forall r, c | 0 <= r < height && 0 <= c < width
      ensures 0 <= RowMajor(width, r, c) < height * width
      ensures Grid(x, y, width, height)[RowMajor(width, r, c)] == Point(x + c, y + r)
    {
      GridAt(x, y, width, height, r, c);
    }
  }

  /** The outline of a rectangle lies inside its fill. */
  lemma OutlineInsideFill(x: int, y: int, width: int, height: int)
    requires width >= 1 && height >= 1
    ensures forall p :: p in RectPoints(x, y, width, height) ==> p in FillPoints(x, y, width, height)
  {
    RectOutline(x, y, width, height);
    FillCovers(x, y, width, height);
  }

  /** `gc9a01a_fill_screen` with the intended call fill_rectangle(0, 0,
      240, 240); the source passes (0, 240, 0, 240) (gc9a01a.c:960). */
  function FillScreenPoints(): seq<Point>
  {
    FillPoints(0, 0, Width, Height)
  }

  /** `gc9a01a_fill_screen` as written: x = 0, y = 240, width 0, height 240. */
  function FillScreenPointsAsWritten(): seq<Point>
  {
    FillPoints(0, Width, 0, Height)
  }

  /** A fill anchored at the origin covers exactly columns 0 .. width-1 of
      rows 0 .. height-1, in row-major order. With width = Width and
      height = Height this is the screen fill: every cell of the surface,
      each accepted by write_pixel. */
  lemma FillFromOrigin(width: int, height: int)
    requires 1 <= width <= Width && 0 <= height <= Height
    ensures FillPoints(0, 0, width, height) == Grid(0, 0, width, height)
    ensures forall p :: p in FillPoints(0, 0, width, height) <==> 0 <= p.x < width && 0 <= p.y < height
    ensures forall p :: p in FillPoints(0, 0, width, height) ==> Accepted(p)
  {
    FillIsGrid(0, 0, width, height);
    FillCovers(0, 0, width, height);
  }

  /** Rows that start below the surface send nothing, whatever their width. */
  lemma RowsBelowSurface(x: int, y: int, width: int, height: int, c: u16)
    requires y >= Height
    ensures Plot(FillPoints(x, y, width, height), c) == []
  {
    FillRows(x, y, width, height);
    PlotRejected(FillPoints(x, y, width, height), c);
  }

  /** As written, every row of the screen fill starts at y = 240, below the
      surface, so write_pixel drops every point and nothing is sent. */
  lemma FillScreenAsWrittenSendsNothing(c: u16)
    ensures Plot(FillScreenPointsAsWritten(), c) == []
  {
    RowsBelowSurface(0, Width, 0, Height, c);
  }

  /** A fast horizontal line is its own mirror image in its centre column:
      the axis whose columns sum to s == 2*a + w - 1. */
  lemma HLineReflect(s: int, a: int, t: int, w: int)
    requires s == 2 * a + w - 1
    ensures ReflectsInto(s, HLinePoints(a, t, w), HLinePoints(a, t, w))
  {
    HLineShape(a, t, w);
    var ps := HLinePoints(a, t, w);
    forall p | p in ps ensures Reflect(s, p) in ps {
      var k :| 0 <= k < |ps| && ps[k] == p;
      assert ps[|ps| - 1 - k] == Reflect(s, p);
    }
  }

  /** So is a filled rectangle, whatever its width and height. */
  lemma {:induction false} FillReflect(s: int, a: int, t: int, w: int, h: int)
    requires s == 2 * a + w - 1
    ensures ReflectsInto(s, FillPoints(a, t, w, h), FillPoints(a, t, w, h))
    decreases h
  {
    if h > 0 {
      FillReflect(s, a, t, w, h - 1);
      HLineReflect(s, a, t + h - 1, w);
      ReflectsBoth(s, FillPoints(a, t, w, h - 1), HLinePoints(a, t + h - 1, w));
    }
  }
}
