/** Round rectangles: the radius clamp and `gc9a01a_draw_round_rectangle`
    (gc9a01a.c:826-846) and `gc9a01a_fill_round_rectangle`
    (gc9a01a.c:894-909), built from straight lines and round corners. */
module RoundRect {
  import opened Common
  import opened Line
  import opened Rect
  import opened Columns
  import opened Corner

  /** Half the shorter side, with C's truncating division (gc9a01a.c:828, 896). */
  function MaxRadius(width: int, height: int): int
  {
    TruncDiv(Min(width, height), 2)
  }

  /** The radius both round rectangles use: a request above MaxRadius is
      lowered to it, any other request is kept (gc9a01a.c:829-830, 897-898). */
  function ClampRadius(radius: int, width: int, height: int): (r: int)
    ensures r <= MaxRadius(width, height)
    ensures radius <= MaxRadius(width, height) ==> r == radius
    ensures radius >= MaxRadius(width, height) ==> r == MaxRadius(width, height)
    ensures 0 <= width && 0 <= height && 0 <= radius ==> 0 <= 2 * r <= Min(width, height)
  {
    if radius > MaxRadius(width, height) then MaxRadius(width, height) else radius
  }

  /** Clamping twice is clamping once, and every request at or above
      MaxRadius clamps to the same radius. */
  lemma ClampIdempotent(radius: int, big: int, width: int, height: int)
    ensures ClampRadius(ClampRadius(radius, width, height), width, height) == ClampRadius(radius, width, height)
    ensures radius >= MaxRadius(width, height) && big >= MaxRadius(width, height) ==>
              ClampRadius(radius, width, height) == ClampRadius(big, width, height)
  {
  }

  /** The frame both round rectangles derive from x, y, width, height
      and the clamped radius r (gc9a01a.c:832-841, 900-903). */
  datatype Frame = Frame(
    left: int,          // x: the left side
    right: int,         // x + width - 1: the right side
    top: int,           // y: the top side
    bottom: int,        // y + height - 1: the bottom side
    height: int,        // the height of the central band of the fill
    innerLeft: int,     // x + r: column of the left corner centres
    innerRight: int,    // x + width - r - 1: column of the right corner centres
    innerTop: int,      // y + r: row of the upper corner centres
    innerBottom: int,   // y + height - r - 1: row of the lower corner centres
    sideWidth: int,     // width - 2r: length of the top and bottom sides
    sideHeight: int,    // height - 2r: length of the left and right sides
    stretch: int)       // height - 2r - 1: the delta passed to fill_round_corner

  /** Every part of the frame is centred on the vertical axis whose
      columns sum to s: the two sides, the two corner-centre columns, and
      the band and the straight horizontal sides. */
  predicate Centred(s: int, l: Frame)
  {
    && l.left + l.right == s
    && l.innerLeft + l.innerRight == s
    && 2 * l.innerLeft + l.sideWidth - 1 == s
  }

  function FrameOf(x: int, y: int, width: int, height: int, r: int): (l: Frame)
    ensures Centred(2 * x + width - 1, l)
  {
    Frame(x, x + width - 1, y, y + height - 1, height,
           x + r, x + width - r - 1, y + r, y + height - r - 1,
           width - 2 * r, height - 2 * r, height - 2 * r - 1)
  }

  /** The four straight sides, each shortened by r at both ends (gc9a01a.c:832-835). */
  function RoundSides(l: Frame): seq<Point>
  {
    HLinePoints(l.innerLeft, l.top, l.sideWidth) + HLinePoints(l.innerLeft, l.bottom, l.sideWidth)
    + VLinePoints(l.left, l.innerTop, l.sideHeight) + VLinePoints(l.right, l.innerTop, l.sideHeight)
  }

  /** Corners 1, 2, 4 and 8 about the four corner centres (gc9a01a.c:838-841). */
  function RoundCorners(l: Frame, r: int): seq<Point>
  {
    CornerPoints(l.innerLeft, l.innerTop, r, 1) + CornerPoints(l.innerRight, l.innerTop, r, 2)
    + CornerPoints(l.innerRight, l.innerBottom, r, 4) + CornerPoints(l.innerLeft, l.innerBottom, r, 8)
  }

  /** `gc9a01a_draw_round_rectangle`: the sides, then the corners, for the
      clamped radius. */
  function DrawRoundRectPoints(x: int, y: int, width: int, height: int, radius: int): seq<Point>
  {
    var r := ClampRadius(radius, width, height);
    var l := FrameOf(x, y, width, height, r);
    RoundSides(l) + RoundCorners(l, r)
  }

  /** The central band, then the right half disc (bit 1) and the left half
      disc (bit 2) (gc9a01a.c:900-903). */
  function RoundFill(l: Frame, r: int): seq<Point>
  {
    FillPoints(l.innerLeft, l.top, l.sideWidth, l.height)
    + FillCornerPoints(l.innerRight, l.innerTop, r, 1, l.stretch)
    + FillCornerPoints(l.innerLeft, l.innerTop, r, 2, l.stretch)
  }

  /** `gc9a01a_fill_round_rectangle` for the clamped radius. */
  function FillRoundRectPoints(x: int, y: int, width: int, height: int, radius: int): seq<Point>
  {
    var r := ClampRadius(radius, width, height);
    RoundFill(FrameOf(x, y, width, height, r), r)
  }
}

/** What the round rectangles draw, for any position, size and radius. */
module RoundRectShape {
  import opened Common
  import opened Line
  import opened Rect
  import opened Columns
  import opened Corner
  import opened CornerShape
  import opened RoundRect

  /** A request above the largest radius draws exactly what the largest
      radius draws. */
  lemma RoundRectLargeRadius(x: int, y: int, width: int, height: int, radius: int)
    requires radius >= MaxRadius(width, height)
    ensures DrawRoundRectPoints(x, y, width, height, radius) == DrawRoundRectPoints(x, y, width, height, MaxRadius(width, height))
    ensures FillRoundRectPoints(x, y, width, height, radius) == FillRoundRectPoints(x, y, width, height, MaxRadius(width, height))
  {
    ClampIdempotent(radius, MaxRadius(width, height), width, height);
  }

  /** With radius 0 the round rectangles are the plain ones: the outline
      has the same cells and the fill is the same sequence. */
  lemma RoundRectZeroRadius(x: int, y: int, width: int, height: int)
    requires 0 <= width && 0 <= height
    ensures forall p :: p in DrawRoundRectPoints(x, y, width, height, 0) <==> p in RectPoints(x, y, width, height)
    ensures FillRoundRectPoints(x, y, width, height, 0) == FillPoints(x, y, width, height)
  {
    assert MaxRadius(width, height) >= 0;
    assert ClampRadius(0, width, height) == 0;
    var l := FrameOf(x, y, width, height, 0);
    assert RoundCorners(l, 0) == [];
    var h1, h2 := HLinePoints(x, y, width), HLinePoints(x, y + height - 1, width);
    var v1, v2 := VLinePoints(x, y, height), VLinePoints(x + width - 1, y, height);
    assert RoundSides(l) == h1 + h2 + v1 + v2;
    assert RectPoints(x, y, width, height) == v1 + h1 + v2 + h2;
    assert DrawRoundRectPoints(x, y, width, height, 0) == RoundSides(l) + [];
    assert FillCornerColumns(l.innerRight, l.innerTop, 0, 1, l.stretch) == [];
    assert FillCornerColumns(l.innerLeft, l.innerTop, 0, 2, l.stretch) == [];
    assert RoundFill(l, 0) == FillPoints(x, y, width, height) + [] + [];
  }

  /** The top and bottom sides mirror onto themselves, the left and right
      sides onto each other, about an axis midway between both pairs. */
  lemma RoundSidesSymmetric(s: int, l: Frame)
    requires Centred(s, l)
    ensures ReflectsInto(s, RoundSides(l), RoundSides(l))
  {
    HLineReflect(s, l.innerLeft, l.top, l.sideWidth);
    HLineReflect(s, l.innerLeft, l.bottom, l.sideWidth);
    VLineReflect(s, l.left, l.right, l.innerTop, l.sideHeight);
    VLineReflect(s, l.right, l.left, l.innerTop, l.sideHeight);
    ReflectsSelfSelfSwap(s, HLinePoints(l.innerLeft, l.top, l.sideWidth), HLinePoints(l.innerLeft, l.bottom, l.sideWidth),
                         VLinePoints(l.left, l.innerTop, l.sideHeight), VLinePoints(l.right, l.innerTop, l.sideHeight));
  }

  /** Corner 1 mirrors onto corner 2 and corner 4 onto corner 8 when the
      corner centres are mirror images. */
  lemma RoundCornersSymmetric(s: int, l: Frame, r: int)
    requires Centred(s, l)
    ensures ReflectsInto(s, RoundCorners(l, r), RoundCorners(l, r))
  {
    CornerReflect(s, l.innerLeft, l.innerRight, l.innerTop, r, 1, 2);
    CornerReflect(s, l.innerRight, l.innerLeft, l.innerTop, r, 2, 1);
    CornerReflect(s, l.innerRight, l.innerLeft, l.innerBottom, r, 4, 8);
    CornerReflect(s, l.innerLeft, l.innerRight, l.innerBottom, r, 8, 4);
    ReflectsPairs(s, CornerPoints(l.innerLeft, l.innerTop, r, 1), CornerPoints(l.innerRight, l.innerTop, r, 2),
                  CornerPoints(l.innerRight, l.innerBottom, r, 4), CornerPoints(l.innerLeft, l.innerBottom, r, 8));
  }

  /** The band mirrors onto itself and the half discs onto each other. */
  lemma RoundFillSymmetric(s: int, l: Frame, r: int)
    requires Centred(s, l)
    ensures ReflectsInto(s, RoundFill(l, r), RoundFill(l, r))
  {
    FillReflect(s, l.innerLeft, l.top, l.sideWidth, l.height);
    FillCornerReflect(s, l.innerRight, l.innerLeft, l.innerTop, r, 1, 2, l.stretch);
    FillCornerReflect(s, l.innerLeft, l.innerRight, l.innerTop, r, 2, 1, l.stretch);
    ReflectsSelfThenPair(s, FillPoints(l.innerLeft, l.top, l.sideWidth, l.height),
                         FillCornerPoints(l.innerRight, l.innerTop, r, 1, l.stretch), FillCornerPoints(l.innerLeft, l.innerTop, r, 2, l.stretch));
  }

  /** Both round rectangles are symmetric about their vertical centre line,
      the axis whose columns sum to 2*x + width - 1, whatever the radius. */
  lemma DrawRoundRectSymmetric(x: int, y: int, width: int, height: int, radius: int)
    ensures ReflectsInto(2 * x + width - 1, DrawRoundRectPoints(x, y, width, height, radius), DrawRoundRectPoints(x, y, width, height, radius))
  {
    var s := 2 * x + width - 1;
    var r := ClampRadius(radius, width, height);
    var l := FrameOf(x, y, width, height, r);
    var sides, corners := RoundSides(l), RoundCorners(l, r);
    RoundSidesSymmetric(s, l);
    RoundCornersSymmetric(s, l, r);
    ReflectsBoth(s, sides, corners);
    assert DrawRoundRectPoints(x, y, width, height, radius) == sides + corners;
  }

  lemma FillRoundRectSymmetric(x: int, y: int, width: int, height: int, radius: int)
    ensures ReflectsInto(2 * x + width - 1, FillRoundRectPoints(x, y, width, height, radius), FillRoundRectPoints(x, y, width, height, radius))
  {
    var r := ClampRadius(radius, width, height);
    RoundFillSymmetric(2 * x + width - 1, FrameOf(x, y, width, height, r), r);
  }
}
