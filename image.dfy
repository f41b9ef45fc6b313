/** `gc9a01a_draw_image` (gc9a01a.c:500-520): a clipped window filled from
    a buffer of colours. */
module Image {
  import opened Common
  import opened Protocol

  /** The width after clipping at the right edge (gc9a01a.c:504-505). */
  function ClipWidth(x: int, width: int): int
  {
    if x + width - 1 >= Width then Width - x else width
  }

  /** The height after clipping at the bottom edge. The source clips to
      240 - x (gc9a01a.c:506-507): see ClipHeightAsWritten. */
  function ClipHeight(y: int, height: int): int
  {
    if y + height - 1 >= Height then Height - y else height
  }

  function ClipHeightAsWritten(x: int, y: int, height: int): int
  {
    if y + height - 1 >= Height then Height - x else height
  }

  lemma MulMono(a: int, b: int, c: int, d: int)
    requires 0 <= a <= b && 0 <= c <= d
    ensures a * c <= b * d
  {
    assert a * c <= b * c;
    assert b * c <= b * d;
  }

  /** What draw_image demands of its caller: for an origin on the surface,
      the clipped size is not negative (the source's unsigned loop counter
      would otherwise run far past the buffer) and the buffer holds that
      many colours. Negative signed sizes are allowed: two of them give a
      positive count, and with one of them zero nothing is streamed. */
  predicate ImageFits(x: int, y: int, width: int, height: int, image: seq<u16>)
  {
    x >= Width || y >= Height || 0 <= ClipWidth(x, width) * ClipHeight(y, height) <= |image|
  }

  /** A buffer of the requested size, as the caller sizes it, is enough. */
  lemma RequestedSizeFits(x: int, y: int, width: int, height: int, image: seq<u16>)
    requires 0 <= width && 0 <= height && width * height <= |image|
    ensures ImageFits(x, y, width, height, image)
  {
    if x < Width && y < Height {
      var w, h := ClipWidth(x, width), ClipHeight(y, height);
      assert 0 <= w <= width && 0 <= h <= height;
      MulMono(w, width, h, height);
    }
  }

  /** The colours draw_image streams: as many as the clipped window
      holds, from the start of the buffer. The source multiplies the
      undeclared `w` and `h` and reads an undeclared `image_data`
      (gc9a01a.c:511-513): the clipped size and `image` are meant. */
  function ImageColours(x: int, y: int, width: int, height: int, image: seq<u16>): (cs: seq<u16>)
    requires x < Width && y < Height && ImageFits(x, y, width, height, image)
    ensures |cs| == ClipWidth(x, width) * ClipHeight(y, height) <= |image|
    ensures cs == image[..|cs|]
  {
    image[..ClipWidth(x, width) * ClipHeight(y, height)]
  }

  /** draw_image on the intended clip: nothing for an origin right of or
      below the surface, else the window of the clipped size and its
      colours. The source tests y against the width constant
      (gc9a01a.c:502), which is also 240. */
  function ImageEvents(x: int, y: int, width: int, height: int, image: seq<u16>): seq<Event>
    requires ImageFits(x, y, width, height, image)
  {
    if x >= Width || y >= Height then []
    else
      WindowEvents(x, y, x + ClipWidth(x, width) - 1, y + ClipHeight(y, height) - 1)
        + Stream(ImageColours(x, y, width, height, image))
  }

  /** Sizes that are not positive are never clipped: the window runs back
      from the origin (wrapped to 16 bits on the wire) and the product of
      the signed sizes gives the number of colours streamed, so -2 by -3
      streams six and a zero height streams none. */
  lemma ImageNonPositive(x: int, y: int, width: int, height: int, image: seq<u16>)
    requires x < Width && y < Height && width <= 0 && height <= 0
    requires width * height <= |image|
    ensures ImageFits(x, y, width, height, image)
    ensures ImageEvents(x, y, width, height, image)
            == WindowEvents(x, y, x + width - 1, y + height - 1) + Stream(image[..width * height])
  {
    assert ClipWidth(x, width) == width && ClipHeight(y, height) == height;
    assert 0 <= width * height by { MulMono(0, -width, 0, -height); }
  }

  /** An image placed on the surface is clipped to it: its window lies
      inside the surface and is at most the requested size. */
  lemma ImageClipped(x: int, y: int, width: int, height: int)
    requires 0 <= x < Width && 0 <= y < Height && 1 <= width && 1 <= height
    ensures 1 <= ClipWidth(x, width) <= width && x + ClipWidth(x, width) <= Width
    ensures 1 <= ClipHeight(y, height) <= height && y + ClipHeight(y, height) <= Height
  {
  }

  /** The controller reads draw_image back as one window holding the
      first w*h colours of the buffer. */
  lemma ImageDecodes(x: int, y: int, width: int, height: int, image: seq<u16>)
    requires 0 <= x < Width && 0 <= y < Height && 1 <= width && 1 <= height
    requires ImageFits(x, y, width, height, image)
    ensures var w, h := ClipWidth(x, width), ClipHeight(y, height);
            Transfers(ImageEvents(x, y, width, height, image))
            == [Transfer(Window(x, y, x + w - 1, y + h - 1), ImageColours(x, y, width, height, image))]
  {
    ImageClipped(x, y, width, height);
    var w, h := ClipWidth(x, width), ClipHeight(y, height);
    var cs := ImageColours(x, y, width, height, image);
    var e := ImageEvents(x, y, width, height, image);
    var right, bottom := x + w - 1, y + h - 1;
    assert e == WindowEvents(x, y, right, bottom) + Stream(cs) + [];
    TransferChunk(x, y, right, bottom, cs, []);
    assert ToU16(x) == x && ToU16(y) == y && ToU16(right) == right && ToU16(bottom) == bottom;
    assert Transfers([]) == [];
  }

  /** The colours draw_image streams fill its window exactly. */
  lemma ImageFills(x: int, y: int, width: int, height: int, image: seq<u16>)
    requires 0 <= x < Width && 0 <= y < Height && 1 <= width && 1 <= height
    requires ImageFits(x, y, width, height, image)
    ensures var w, h := ClipWidth(x, width), ClipHeight(y, height);
            Area(Window(x, y, x + w - 1, y + h - 1)) == |ImageColours(x, y, width, height, image)|
  {
    ImageClipped(x, y, width, height);
    var w, h := ClipWidth(x, width), ClipHeight(y, height);
    assert (x + w - 1) - x + 1 == w && (y + h - 1) - y + 1 == h;
  }

  /** As written, an image low on the surface and left of its middle is not
      clipped enough: at (0, 100) with height 200 the window runs down to
      row 339, and at (200, 10) with height 235 it stops at row 49, which
      loses rows that are on the surface. */
  lemma ImageHeightAsWritten()
    ensures ClipHeight(100, 200) == 140 && ClipHeightAsWritten(0, 100, 200) == 240
    ensures 100 + ClipHeightAsWritten(0, 100, 200) - 1 >= Height
    ensures ClipHeight(10, 235) == 230 && ClipHeightAsWritten(200, 10, 235) == 40
  {
  }
}
