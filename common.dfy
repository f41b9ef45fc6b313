/** Shared value types of the GC9A01A driver model: bytes, 16-bit words,
    pixel coordinates and the C integer conversions the driver relies on. */
module Common {

  datatype Option<+T> = None | Some(value: T)

  /** An unsigned 8-bit value (`uint8_t`). */
  type byte = b: int | 0 <= b < 0x100

  /** An unsigned 16-bit value (`uint16_t`): colours and window coordinates. */
  type u16 = v: int | 0 <= v < 0x1_0000

  /** A signed pixel coordinate pair; it may lie off the surface. */
  datatype Point = Point(x: int, y: int)

  predicate IsInt16(v: int) { -0x8000 <= v < 0x8000 }

  function Abs(v: int): (r: nat)
    ensures r == v || r == -v
  {
    if v < 0 then -v else v
  }

  /** Conversion of an `int` to `uint16_t` (C keeps the value modulo 2^16). */
  function ToU16(v: int): (r: u16)
    ensures 0 <= v < 0x1_0000 ==> r == v
    ensures (v - r) % 0x1_0000 == 0
  {
    v % 0x1_0000
  }

  /** Conversion of an `int` to `int16_t`, as the two's-complement targets do it. */
  function Wrap16(v: int): (r: int)
    ensures IsInt16(r)
    ensures IsInt16(v) ==> r == v
    ensures (v - r) % 0x1_0000 == 0
  {
    var m := (v + 0x8000) % 0x1_0000;
    m - 0x8000
  }

  /** C integer division, which truncates toward zero (Dafny's `/` is Euclidean). */
  function TruncDiv(a: int, b: int): (q: int)
    requires b > 0
    ensures a >= 0 ==> q == a / b
    ensures a < 0 ==> q == -((-a) / b)
  {
    if a >= 0 then a / b else -((-a) / b)
  }

  /** The only multiple of d strictly between -d and d is 0. */
  lemma MulBetween(k: int, d: int)
    requires d > 0 && -d < k * d < d
    ensures k == 0
  {
  }

  /** Concatenation regroups; stated once so that long logs need no
      element-wise reasoning. */
  lemma AppendAssoc<T>(a: seq<T>, b: seq<T>, c: seq<T>)
    ensures a + b + c == a + (b + c)
  {
  }

  function Min(a: int, b: int): int { if a < b then a else b }
  function Max(a: int, b: int): int { if a < b then b else a }

  /** Reflection of p in the vertical line through column cx. */
  function MirrorX(cx: int, p: Point): Point { Point(2 * cx - p.x, p.y) }

  /** Reflection of p in the horizontal line through row cy. */
  function MirrorY(cy: int, p: Point): Point { Point(p.x, 2 * cy - p.y) }

  /** Reflection of p in the diagonal through (cx, cy): its offsets from the centre exchanged. */
  function Transpose(cx: int, cy: int, p: Point): Point { Point(cx + (p.y - cy), cy + (p.x - cx)) }

  /** The point sequence ps holds the mirror images of each of its points in
      the vertical line through cx and in the horizontal line through cy. */
  predicate ClosedUnderMirrors(cx: int, cy: int, ps: seq<Point>)
  {
    forall p {:trigger MirrorX(cx, p)} {:trigger MirrorY(cy, p)} :: p in ps ==> MirrorX(cx, p) in ps && MirrorY(cy, p) in ps
  }

  /** The point sequence ps holds the reflection of each of its points in the
      diagonal through (cx, cy). */
  predicate ClosedUnderTranspose(cx: int, cy: int, ps: seq<Point>)
  {
    forall p {:trigger Transpose(cx, cy, p)} :: p in ps ==> Transpose(cx, cy, p) in ps
  }

  lemma ClosedAppend(cx: int, cy: int, a: seq<Point>, b: seq<Point>)
    requires ClosedUnderMirrors(cx, cy, a) && ClosedUnderMirrors(cx, cy, b)
    ensures ClosedUnderMirrors(cx, cy, a + b)
  {
  }

  lemma TransposeAppend(cx: int, cy: int, a: seq<Point>, b: seq<Point>)
    requires ClosedUnderTranspose(cx, cy, a) && ClosedUnderTranspose(cx, cy, b)
    ensures ClosedUnderTranspose(cx, cy, a + b)
  {
  }

  /** Reflection of p in the vertical axis whose columns sum to s: column c maps to s - c. */
  function Reflect(s: int, p: Point): Point { Point(s - p.x, p.y) }

  /** The point sequence b holds the mirror image in axis s of every point of a. */
  predicate ReflectsInto(s: int, a: seq<Point>, b: seq<Point>)
  {
    forall p {:trigger Reflect(s, p)} :: p in a ==> Reflect(s, p) in b
  }

  lemma ReflectsConcat(s: int, a1: seq<Point>, a2: seq<Point>, b1: seq<Point>, b2: seq<Point>)
    requires ReflectsInto(s, a1, b1) && ReflectsInto(s, a2, b2)
    ensures ReflectsInto(s, a1 + a2, b1 + b2)
  {
  }

  /** Parts mirrored onto themselves or swapped in pairs make a whole
      closed under the reflection. */
  lemma ReflectsPairs(s: int, a: seq<Point>, b: seq<Point>, c: seq<Point>, d: seq<Point>)
    requires ReflectsInto(s, a, b) && ReflectsInto(s, b, a) && ReflectsInto(s, c, d) && ReflectsInto(s, d, c)
    ensures ReflectsInto(s, a + b + c + d, a + b + c + d)
  {
  }

  lemma ReflectsSelfThenPair(s: int, a: seq<Point>, b: seq<Point>, c: seq<Point>)
    requires ReflectsInto(s, a, a) && ReflectsInto(s, b, c) && ReflectsInto(s, c, b)
    ensures ReflectsInto(s, a + b + c, a + b + c)
  {
  }

  lemma ReflectsSelfSelfSwap(s: int, a: seq<Point>, b: seq<Point>, c: seq<Point>, d: seq<Point>)
    requires ReflectsInto(s, a, a) && ReflectsInto(s, b, b) && ReflectsInto(s, c, d) && ReflectsInto(s, d, c)
    ensures ReflectsInto(s, a + b + c + d, a + b + c + d)
  {
  }

  lemma ReflectsBoth(s: int, a: seq<Point>, b: seq<Point>)
    requires ReflectsInto(s, a, a) && ReflectsInto(s, b, b)
    ensures ReflectsInto(s, a + b, a + b)
  {
  }
}
