/** Runs of `gc9a01a_draw_fast_vertical_line` calls (gc9a01a.c:569-574),
    the building block of the filled round corner. */
module Columns {
  import opened Common
  import opened Line

  /** One `gc9a01a_draw_fast_vertical_line(x, top, h)` call. */
  datatype Column = Column(x: int, top: int, h: int)

  /** The points of a run of vertical lines, in call order. */
  function ColumnsPoints(cols: seq<Column>): seq<Point>
  {
    if cols == [] then [] else VLinePoints(cols[0].x, cols[0].top, cols[0].h) + ColumnsPoints(cols[1..])
  }

  lemma {:induction false} ColumnsAppend(a: seq<Column>, b: seq<Column>)
    ensures ColumnsPoints(a + b) == ColumnsPoints(a) + ColumnsPoints(b)
  {
    if a != [] {
      assert (a + b)[0] == a[0] && (a + b)[1..] == a[1..] + b;
      ColumnsAppend(a[1..], b);
    } else {
      assert a + b == b;
    }
  }

  lemma VLineColumn(c: int, top: int, h: int)
    ensures forall p :: p in VLinePoints(c, top, h) ==> p.x == c
  {
    VLineShape(c, top, h);
  }

  /** Every point of a run of vertical lines lies in the column of one of them. */
  lemma {:induction false} ColumnsColumn(cols: seq<Column>)
    ensures forall p :: p in ColumnsPoints(cols) ==> exists c :: c in cols && p.x == c.x
  {
    if cols != [] {
      VLineColumn(cols[0].x, cols[0].top, cols[0].h);
      ColumnsColumn(cols[1..]);
      forall p | p in ColumnsPoints(cols) ensures exists c :: c in cols && p.x == c.x {
        if p !in VLinePoints(cols[0].x, cols[0].top, cols[0].h) {
          var c :| c in cols[1..] && p.x == c.x;
          assert c in cols;
        }
      }
    }
  }

  lemma VLineReflect(s: int, c: int, c': int, top: int, h: int)
    requires c' == s - c
    ensures ReflectsInto(s, VLinePoints(c, top, h), VLinePoints(c', top, h))
  {
    VLineShape(c, top, h);
    VLineShape(c', top, h);
    var ps, qs := VLinePoints(c, top, h), VLinePoints(c', top, h);
    assert |ps| == |qs|;
    forall p | p in ps ensures Reflect(s, p) in qs {
      var k :| 0 <= k < |ps| && ps[k] == p;
      assert qs[k] == Reflect(s, p);
    }
  }

  /** The line c mirrored in the vertical axis whose columns sum to s. */
  function MirrorColumn(s: int, c: Column): Column
  {
    Column(s - c.x, c.top, c.h)
  }

  /** The run b holds the mirror image in axis s of every line of a. */
  predicate MirrorsInto(s: int, a: seq<Column>, b: seq<Column>)
  {
    forall c {:trigger MirrorColumn(s, c)} :: c in a ==> MirrorColumn(s, c) in b
  }

  lemma MirrorsConcat(s: int, a1: seq<Column>, a2: seq<Column>, b1: seq<Column>, b2: seq<Column>)
    requires MirrorsInto(s, a1, b1) && MirrorsInto(s, a2, b2)
    ensures MirrorsInto(s, a1 + a2, b1 + b2)
  {
  }

  /** Vertical lines whose mirror images are all among other vertical lines
      draw points whose mirror images are all drawn by those. */
  lemma {:induction false} ColumnsReflect(s: int, a: seq<Column>, b: seq<Column>)
    requires MirrorsInto(s, a, b)
    ensures ReflectsInto(s, ColumnsPoints(a), ColumnsPoints(b))
  {
    if a != [] {
      var c := a[0];
      var mc := MirrorColumn(s, c);
      assert mc in b;
      ColumnsReflect(s, a[1..], b);
      ColumnsMember(b, mc);
      VLineReflect(s, c.x, mc.x, c.top, c.h);
      assert ColumnsPoints(a) == VLinePoints(c.x, c.top, c.h) + ColumnsPoints(a[1..]);
    }
  }

  /** The points of a member line are points of the run. */
  lemma {:induction false} ColumnsMember(cols: seq<Column>, c: Column)
    requires c in cols
    ensures forall p :: p in VLinePoints(c.x, c.top, c.h) ==> p in ColumnsPoints(cols)
  {
    if cols[0] != c {
      ColumnsMember(cols[1..], c);
    }
  }
}
