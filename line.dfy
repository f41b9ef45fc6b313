/** `gc9a01a_draw_line` (gc9a01a.c:522-567): Bresenham's line as the sequence
    of points it hands to write_pixel, and the fast horizontal and vertical
    lines built on it (gc9a01a.c:569-583). */
module Line {
  import opened Common

  /** The state of draw_line after the steep swap and the direction swap:
      the line runs from (x0, y0) to (x1, y1) along its major axis. When
      `steep` holds, the major axis is the screen's y axis. */
  datatype Setup = Setup(steep: bool, x0: int, y0: int, x1: int, y1: int, dx: int, dy: int, ystep: int)

  /** Maps a (major, minor) pair back to screen coordinates. */
  function Place(s: Setup, major: int, minor: int): Point
  {
    if s.steep then Point(minor, major) else Point(major, minor)
  }

  function Major(s: Setup, p: Point): int { if s.steep then p.y else p.x }
  function Minor(s: Setup, p: Point): int { if s.steep then p.x else p.y }

  predicate WellFormed(s: Setup)
  {
    && s.x0 <= s.x1 && s.dx == s.x1 - s.x0 && 0 <= s.dy <= s.dx
    && (s.ystep == 1 || s.ystep == -1) && s.y1 == (if s.ystep == 1 then s.y0 + s.dy else s.y0 - s.dy)
  }

  /** gc9a01a.c:523-547, with the steep swap exchanging x and y of each
      endpoint. The source swaps x_0 with x_1 and y_0 with y_1 instead
      (gc9a01a.c:526-527), which only reverses the line. */
  function Normalise(x0: int, y0: int, x1: int, y1: int): (s: Setup)
    ensures WellFormed(s)
    ensures s.steep <==> Abs(y1 - y0) > Abs(x1 - x0)
    ensures s.dx == (if s.steep then Abs(y1 - y0) else Abs(x1 - x0))
    ensures s.dy == (if s.steep then Abs(x1 - x0) else Abs(y1 - y0))
  {
    var steep := Abs(y1 - y0) > Abs(x1 - x0);
    var a := if steep then Point(y0, x0) else Point(x0, y0);
    var b := if steep then Point(y1, x1) else Point(x1, y1);
    var p0 := if a.x > b.x then b else a;
    var p1 := if a.x > b.x then a else b;
    Setup(steep, p0.x, p0.y, p1.x, p1.y, p1.x - p0.x, Abs(p1.y - p0.y), if p0.y < p1.y then 1 else -1)
  }

  /** The normalised endpoints are the two given endpoints, possibly exchanged. */
  lemma NormaliseEndpoints(x0: int, y0: int, x1: int, y1: int)
    ensures var s := Normalise(x0, y0, x1, y1);
            || (Place(s, s.x0, s.y0) == Point(x0, y0) && Place(s, s.x1, s.y1) == Point(x1, y1))
            || (Place(s, s.x0, s.y0) == Point(x1, y1) && Place(s, s.x1, s.y1) == Point(x0, y0))
  {
  }

  /** The loop of gc9a01a.c:549-562 from column x on, with the intended
      guard `x_0 <= x_1`: plot, subtract dy from the error, and on a sign
      flip step the minor coordinate and add dx back. */
  function Run(s: Setup, x: int, y: int, err: int): seq<Point>
    decreases s.x1 - x + 1
  {
    if x > s.x1 then []
    else
      var e := err - s.dy;
      [Place(s, x, y)] + Run(s, x + 1, if e < 0 then y + s.ystep else y, if e < 0 then e + s.dx else e)
  }

  /** One iteration of the loop: the point at column x, then the run
      from the next column with the updated minor coordinate and error. */
  lemma RunNext(s: Setup, x: int, y: int, err: int, y': int, err': int)
    requires x <= s.x1
    requires y' == (if err - s.dy < 0 then y + s.ystep else y)
    requires err' == (if err - s.dy < 0 then err - s.dy + s.dx else err - s.dy)
    ensures Run(s, x, y, err) == [Place(s, x, y)] + Run(s, x + 1, y', err')
  {
  }

  /** Past the last column the run is empty. */
  lemma RunDone(s: Setup, x: int, y: int, err: int)
    requires x > s.x1
    ensures Run(s, x, y, err) == []
  {
  }

  /** The points draw_line passes to write_pixel, in order. */
  function LinePoints(x0: int, y0: int, x1: int, y1: int): seq<Point>
  {
    var s := Normalise(x0, y0, x1, y1);
    Run(s, s.x0, s.y0, s.dx / 2)
  }

  /** The loop state after m minor steps at column x: the error term is
      dx/2 - k*dy + m*dx for the k columns done, and lies in [0, dx). */
  predicate RunInv(s: Setup, x: int, y: int, err: int, m: int)
  {
    && WellFormed(s) && s.x0 <= x <= s.x1 + 1 && 0 <= m && (s.dx == 0 ==> m == 0)
    && y == (if s.ystep == 1 then s.y0 + m else s.y0 - m)
    && err == s.dx / 2 - (x - s.x0) * s.dy + m * s.dx
    && 0 <= err && (err < s.dx || (s.dx == 0 && err == 0))
  }

  /** The minor coordinate v lies between the two endpoints' minor coordinates. */
  predicate Between(s: Setup, v: int)
  {
    if s.ystep == 1 then s.y0 <= v <= s.y1 else s.y1 <= v <= s.y0
  }

  lemma MulBelow(k: int, d: int)
    requires d > 0 && k * d < d
    ensures k <= 0
  {
  }

  lemma MulNonPos(a: int, b: int)
    requires a <= 0 <= b
    ensures a * b <= 0
  {
  }

  /** The arithmetic behind the run: with the error term kept in [0, dx),
      m minor steps after k of dx columns means m <= dy, and m == dy once
      k == dx. */
  lemma StepCount(k: int, m: int, dx: int, dy: int, err: int)
    requires dx > 0 && 0 <= k <= dx && 0 <= dy && 0 <= err < dx
    requires err == dx / 2 - k * dy + m * dx
    ensures m <= dy
    ensures k == dx ==> m == dy
  {
    var h := dx / 2;
    assert (m - dy) * dx == m * dx - dy * dx;
    assert (k - dx) * dy == k * dy - dx * dy;
    assert (m - dy) * dx == err - h + (k - dx) * dy;
    MulNonPos(k - dx, dy);
    MulBelow(m - dy, dx);
    if k == dx {
      MulBetween(m - dy, dx);
    }
  }

  lemma RunInvStep(s: Setup, x: int, y: int, err: int, m: int)
    requires RunInv(s, x, y, err, m) && x <= s.x1
    ensures var e := err - s.dy;
            RunInv(s, x + 1, if e < 0 then y + s.ystep else y, if e < 0 then e + s.dx else e,
                   if e < 0 then m + 1 else m)
  {
    assert (x + 1 - s.x0) * s.dy == (x - s.x0) * s.dy + s.dy;
    assert (m + 1) * s.dx == m * s.dx + s.dx;
  }

  /** Within the run, the minor step count never exceeds dy, and it reaches
      dy exactly at the last column. */
  lemma RunInvBound(s: Setup, x: int, y: int, err: int, m: int)
    requires RunInv(s, x, y, err, m) && x <= s.x1
    ensures m <= s.dy && Between(s, y)
    ensures x == s.x1 ==> m == s.dy
  {
    if s.dx > 0 {
      StepCount(x - s.x0, m, s.dx, s.dy, err);
    }
  }

  lemma {:induction false} RunLength(s: Setup, x: int, y: int, err: int)
    requires x <= s.x1 + 1
    ensures |Run(s, x, y, err)| == s.x1 - x + 1
    decreases s.x1 - x + 1
  {
    if x <= s.x1 {
      var e := err - s.dy;
      RunLength(s, x + 1, if e < 0 then y + s.ystep else y, if e < 0 then e + s.dx else e);
    }
  }

  /** The j-th point of a run sits in column x + j. */
  lemma {:induction false} RunMajor(s: Setup, x: int, y: int, err: int)
    requires x <= s.x1 + 1
    ensures forall j :: 0 <= j < |Run(s, x, y, err)| ==> Major(s, Run(s, x, y, err)[j]) == x + j
    decreases s.x1 - x + 1
  {
    if x <= s.x1 {
      var e := err - s.dy;
      RunMajor(s, x + 1, if e < 0 then y + s.ystep else y, if e < 0 then e + s.dx else e);
    }
  }

  /** A run starts at (x, y) and ends exactly on (x1, y1). */
  lemma {:induction false} RunEnds(s: Setup, x: int, y: int, err: int, m: int)
    requires RunInv(s, x, y, err, m)
    ensures var r := Run(s, x, y, err);
            r != [] ==> r[0] == Place(s, x, y) && r[|r| - 1] == Place(s, s.x1, s.y1)
    decreases s.x1 - x + 1
  {
    if x <= s.x1 {
      var e := err - s.dy;
      var y' := if e < 0 then y + s.ystep else y;
      var err' := if e < 0 then e + s.dx else e;
      RunInvStep(s, x, y, err, m);
      RunInvBound(s, x, y, err, m);
      RunEnds(s, x + 1, y', err', if e < 0 then m + 1 else m);
      RunNext(s, x, y, err, y', err');
    }
  }

  /** The minor coordinate of a run stays between the endpoints. */
  lemma {:induction false} RunBetween(s: Setup, x: int, y: int, err: int, m: int)
    requires RunInv(s, x, y, err, m)
    ensures var r := Run(s, x, y, err);
            forall j :: 0 <= j < |r| ==> Between(s, Minor(s, r[j]))
    decreases s.x1 - x + 1
  {
    if x <= s.x1 {
      var e := err - s.dy;
      var y' := if e < 0 then y + s.ystep else y;
      var err' := if e < 0 then e + s.dx else e;
      RunInvStep(s, x, y, err, m);
      RunInvBound(s, x, y, err, m);
      RunBetween(s, x + 1, y', err', if e < 0 then m + 1 else m);
      RunNext(s, x, y, err, y', err');
    }
  }

  /** The minor coordinate moves by 0 or ystep from each point to the next. */
  lemma {:induction false} RunSteps(s: Setup, x: int, y: int, err: int, m: int)
    requires RunInv(s, x, y, err, m)
    ensures var r := Run(s, x, y, err);
            forall j :: 0 <= j < |r| - 1 ==> Minor(s, r[j + 1]) - Minor(s, r[j]) in {0, s.ystep}
    decreases s.x1 - x + 1
  {
    if x <= s.x1 {
      var e := err - s.dy;
      var y' := if e < 0 then y + s.ystep else y;
      var err' := if e < 0 then e + s.dx else e;
      var m' := if e < 0 then m + 1 else m;
      RunInvStep(s, x, y, err, m);
      RunSteps(s, x + 1, y', err', m');
      RunEnds(s, x + 1, y', err', m');
      var r := Run(s, x, y, err);
      var rest := Run(s, x + 1, y', err');
      RunNext(s, x, y, err, y', err');
      if rest != [] {
        assert Minor(s, rest[0]) == y';
      }
    }
  }

  /** The loop starts in its invariant with the error at dx/2. */
  lemma RunStart(s: Setup)
    requires WellFormed(s)
    ensures RunInv(s, s.x0, s.y0, s.dx / 2, 0)
  {
  }

  lemma LineShape(x0: int, y0: int, x1: int, y1: int)
    ensures var s := Normalise(x0, y0, x1, y1); var ps := LinePoints(x0, y0, x1, y1);
            && |ps| == s.dx + 1
            && ps[0] == Place(s, s.x0, s.y0) && ps[s.dx] == Place(s, s.x1, s.y1)
            && (forall j :: 0 <= j < |ps| ==> Major(s, ps[j]) == s.x0 + j)
            && (forall j :: 0 <= j < |ps| ==> Between(s, Minor(s, ps[j])))
            && (forall j :: 0 <= j < |ps| - 1 ==> Minor(s, ps[j + 1]) - Minor(s, ps[j]) in {0, s.ystep})
  {
    var s := Normalise(x0, y0, x1, y1);
    RunStart(s);
    RunLength(s, s.x0, s.y0, s.dx / 2);
    RunMajor(s, s.x0, s.y0, s.dx / 2);
    RunEnds(s, s.x0, s.y0, s.dx / 2, 0);
    RunBetween(s, s.x0, s.y0, s.dx / 2, 0);
    RunSteps(s, s.x0, s.y0, s.dx / 2, 0);
  }

  /** draw_line draws max(|x1 - x0|, |y1 - y0|) + 1 points, the first and
      last of which are the two endpoints. */
  lemma LineEndpoints(x0: int, y0: int, x1: int, y1: int)
    ensures var ps := LinePoints(x0, y0, x1, y1);
            && |ps| == (if Abs(x1 - x0) < Abs(y1 - y0) then Abs(y1 - y0) else Abs(x1 - x0)) + 1
            && ((ps[0] == Point(x0, y0) && ps[|ps| - 1] == Point(x1, y1)) ||
                (ps[0] == Point(x1, y1) && ps[|ps| - 1] == Point(x0, y0)))
  {
    LineShape(x0, y0, x1, y1);
    NormaliseEndpoints(x0, y0, x1, y1);
  }

  /** A zero-length line is exactly one write_pixel. */
  lemma LineSinglePoint(x: int, y: int)
    ensures LinePoints(x, y, x, y) == [Point(x, y)]
  {
    LineShape(x, y, x, y);
  }

  /** Consecutive points are 8-neighbours: one step along the major axis,
      at most one along the other. */
  lemma LineConnected(x0: int, y0: int, x1: int, y1: int)
    ensures var ps := LinePoints(x0, y0, x1, y1);
            forall j :: 0 <= j < |ps| - 1 ==>
              if Abs(y1 - y0) > Abs(x1 - x0)
              then Abs(ps[j + 1].y - ps[j].y) == 1 && Abs(ps[j + 1].x - ps[j].x) <= 1
              else Abs(ps[j + 1].x - ps[j].x) == 1 && Abs(ps[j + 1].y - ps[j].y) <= 1
  {
    var s := Normalise(x0, y0, x1, y1);
    var ps := LinePoints(x0, y0, x1, y1);
    LineShape(x0, y0, x1, y1);
    forall j | 0 <= j < |ps| - 1
      ensures Major(s, ps[j + 1]) - Major(s, ps[j]) == 1
      ensures Abs(Minor(s, ps[j + 1]) - Minor(s, ps[j])) <= 1
    {
    }
  }

  /** Every point lies in the bounding box of the two endpoints. */
  lemma LineInBox(x0: int, y0: int, x1: int, y1: int)
    ensures forall p :: p in LinePoints(x0, y0, x1, y1) ==>
              Min(x0, x1) <= p.x <= Min(x0, x1) + Abs(x1 - x0) &&
              Min(y0, y1) <= p.y <= Min(y0, y1) + Abs(y1 - y0)
  {
    var s := Normalise(x0, y0, x1, y1);
    var ps := LinePoints(x0, y0, x1, y1);
    LineShape(x0, y0, x1, y1);
    forall p | p in ps
      ensures Min(x0, x1) <= p.x <= Min(x0, x1) + Abs(x1 - x0)
      ensures Min(y0, y1) <= p.y <= Min(y0, y1) + Abs(y1 - y0)
    {
      var j :| 0 <= j < |ps| && ps[j] == p;
      assert Major(s, p) == s.x0 + j;
      assert Between(s, Minor(s, p));
    }
  }

  /** Swapping the endpoints gives the very same point sequence. */
  lemma LineReversible(x0: int, y0: int, x1: int, y1: int)
    ensures LinePoints(x0, y0, x1, y1) == LinePoints(x1, y1, x0, y0)
  {
    assert Normalise(x0, y0, x1, y1) == Normalise(x1, y1, x0, y0);
  }

  /** A horizontal line is the run of its columns, left to right. */
  lemma HorizontalLine(a: int, b: int, y: int)
    ensures LinePoints(a, y, b, y) == seq(Abs(b - a) + 1, k => Point(Min(a, b) + k, y))
  {
    var s := Normalise(a, y, b, y);
    var ps := LinePoints(a, y, b, y);
    LineShape(a, y, b, y);
    forall k | 0 <= k < |ps| ensures ps[k] == Point(Min(a, b) + k, y) {
      assert Major(s, ps[k]) == s.x0 + k;
      assert Between(s, Minor(s, ps[k]));
    }
  }

  /** A vertical line is the run of its rows, top to bottom. */
  lemma VerticalLine(x: int, a: int, b: int)
    ensures LinePoints(x, a, x, b) == seq(Abs(b - a) + 1, k => Point(x, Min(a, b) + k))
  {
    var s := Normalise(x, a, x, b);
    var ps := LinePoints(x, a, x, b);
    LineShape(x, a, x, b);
    forall k | 0 <= k < |ps| ensures ps[k] == Point(x, Min(a, b) + k) {
      assert Major(s, ps[k]) == s.x0 + k;
      assert Between(s, Minor(s, ps[k]));
    }
  }

  /** Whether the loop of gc9a01a.c:549 is entered as written: the source
      normalises so that x_0 <= x_1 (its steep swap at 526-527 exchanges
      the endpoints) and then loops while x_0 > x_1. */
  function LoopEnteredAsWritten(x0: int, y0: int, x1: int, y1: int): bool
  {
    var steep := Abs(y1 - y0) > Abs(x1 - x0);
    var ax := if steep then x1 else x0;
    var bx := if steep then x0 else x1;
    var sx0 := if ax > bx then bx else ax;
    var sx1 := if ax > bx then ax else bx;
    sx0 > sx1
  }

  /** As written, draw_line never plots anything; with the intended guard
      it always plots at least one point. */
  lemma LineAsWrittenDrawsNothing(x0: int, y0: int, x1: int, y1: int)
    ensures !LoopEnteredAsWritten(x0, y0, x1, y1)
    ensures |LinePoints(x0, y0, x1, y1)| >= 1
  {
    LineShape(x0, y0, x1, y1);
  }

  /** `gc9a01a_draw_fast_vertical_line`: draw_line(x, y, x, y + height - 1). */
  function VLinePoints(x: int, y: int, height: int): seq<Point>
  {
    LinePoints(x, y, x, y + height - 1)
  }

  /** `gc9a01a_draw_fast_horizental_line`: draw_line(x, y, x + width - 1, y).
      The source leaves out the colour argument (gc9a01a.c:578). */
  function HLinePoints(x: int, y: int, width: int): seq<Point>
  {
    LinePoints(x, y, x + width - 1, y)
  }

  /** A positive height covers rows y .. y + height - 1 of column x; a
      height of zero or less still draws rows y + height - 1 .. y. */
  lemma VLineShape(x: int, y: int, height: int)
    ensures height >= 1 ==> VLinePoints(x, y, height) == seq(height, k => Point(x, y + k))
    ensures height < 1 ==> VLinePoints(x, y, height) == seq(2 - height, k => Point(x, y + height - 1 + k))
  {
    VerticalLine(x, y, y + height - 1);
  }

  /** A positive width covers columns x .. x + width - 1 of row y; a width of
      zero or less still draws columns x + width - 1 .. x. */
  lemma HLineShape(x: int, y: int, width: int)
    ensures width >= 1 ==> HLinePoints(x, y, width) == seq(width, k => Point(x + k, y))
    ensures width < 1 ==> HLinePoints(x, y, width) == seq(2 - width, k => Point(x + width - 1 + k, y))
  {
    HorizontalLine(x, x + width - 1, y);
  }

  /** Every point of a fast horizontal line lies on its row. */
  lemma HLineRow(x: int, y: int, width: int)
    ensures forall p :: p in HLinePoints(x, y, width) ==> p.y == y
  {
    HLineShape(x, y, width);
  }

  /** A fast horizontal line of positive width holds exactly the cells of
      its row from column x to x + width - 1. */
  lemma HLineCells(x: int, y: int, width: int)
    requires width >= 1
    ensures forall p :: p in HLinePoints(x, y, width) <==> p.y == y && x <= p.x < x + width
  {
    HLineShape(x, y, width);
    var s := HLinePoints(x, y, width);
    forall p: Point | p.y == y && x <= p.x < x + width ensures p in s {
      assert p == s[p.x - x];
    }
  }

  /** A fast vertical line of positive height holds exactly the cells of its
      column from row y to y + height - 1. */
  lemma VLineCells(x: int, y: int, height: int)
    requires height >= 1
    ensures forall p :: p in VLinePoints(x, y, height) <==> p.x == x && y <= p.y < y + height
  {
    VLineShape(x, y, height);
    var s := VLinePoints(x, y, height);
    forall p: Point | p.x == x && y <= p.y < y + height ensures p in s {
      assert p == s[p.y - y];
    }
  }
}
