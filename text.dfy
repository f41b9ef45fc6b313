/** Glyph painting and word-wrapped strings: `gc9a01a_write_char`
    (gc9a01a.c:430-454) and the layout `gc9a01a_write_string` computes
    (gc9a01a.c:456-485). */
module Text {
  import opened Common
  import opened Protocol

  /** `glcd_font_t` (glcdfont.h:39-44): glyph cell size and the glyph rows,
      one 16-bit word per row, glyph `ch` starting at row (ch - 32)*height. */
  datatype Font = Font(width: byte, height: byte, data: seq<u16>)

  /** A character as `char`: one byte; strings end at the first zero byte. */
  const Space: byte := 0x20

  /** The glyph of ch lies inside the font's table, so that every row
      write_char reads exists. */
  predicate HasGlyph(font: Font, ch: byte)
  {
    font.height == 0 || (32 <= ch && (ch - 32 + 1) * font.height <= |font.data|)
  }

  function Pow2(n: nat): (p: nat)
    ensures p >= 1
  {
    if n == 0 then 1 else 2 * Pow2(n - 1)
  }

  /** Bit k of b. */
  predicate Bit(b: int, k: nat)
  {
    (b / Pow2(k)) % 2 == 1
  }

  /** The test of gc9a01a.c:442, `(b << j) & 0x8000` on the `uint32_t` row
      word: bit 15 of b shifted left by j. The wrap of the shift at 32 bits
      cannot reach bit 15; a shift of 32 or more is undefined in C. */
  predicate ShiftTest(b: u16, j: nat)
    requires j < 32
  {
    (b * Pow2(j) / 0x8000) % 2 == 1
  }

  lemma Pow2Add(m: nat, n: nat)
    ensures Pow2(m + n) == Pow2(m) * Pow2(n)
    decreases m
  {
    if m > 0 {
      Pow2Add(m - 1, n);
    }
  }

  lemma SubMul(a: int, b: int, d: int)
    ensures (a - b) * d == a * d - b * d
  {
  }

  /** The quotient is the unique k with n == k*d + s and 0 <= s < d. */
  lemma DivUnique(n: int, d: int, k: int, s: int)
    requires d > 0 && n == k * d + s && 0 <= s < d
    ensures n / d == k
  {
    var k', s' := n / d, n % d;
    assert n == k' * d + s';
    SubMul(k, k', d);
    MulBetween(k - k', d);
  }

  lemma DivCancel(b: nat, p: nat, q: nat)
    requires p > 0 && q > 0
    ensures (b * p) / (p * q) == b / q
  {
    var k, r := b / q, b % q;
    var pq := p * q;
    assert b == k * q + r;
    assert b * p == k * pq + r * p by {
      assert b * p == (k * q + r) * p;
      assert (k * q + r) * p == k * q * p + r * p;
    }
    assert r * p < pq by {
      assert r <= q - 1;
      assert r * p <= (q - 1) * p;
      assert (q - 1) * p == pq - p;
    }
    DivUnique(b * p, pq, k, r * p);
  }

  /** Column j of a row is lit exactly when bit 15 - j of the row word is
      set; columns 16 and beyond are never lit. */
  lemma ShiftTestBit(b: u16, j: nat)
    requires j < 32
    ensures ShiftTest(b, j) <==> j <= 15 && Bit(b, 15 - j)
  {
    if j <= 15 {
      ShiftLow(b, j);
    } else {
      ShiftHigh(b, j);
    }
  }

  lemma Pow2Of15()
    ensures Pow2(15) == 0x8000
  {
    assert Pow2(0) == 1;
    assert Pow2(5) == 32;
    assert Pow2(10) == 1024;
  }

  lemma ShiftLow(b: u16, j: nat)
    requires j <= 15
    ensures ShiftTest(b, j) <==> Bit(b, 15 - j)
  {
    Pow2Of15();
    Pow2Add(j, 15 - j);
    DivCancel(b, Pow2(j), Pow2(15 - j));
  }

  lemma ShiftHigh(b: u16, j: nat)
    requires 16 <= j < 32
    ensures !ShiftTest(b, j)
  {
    Pow2Of15();
    Pow2Add(15, j - 15);
    var q := b * Pow2(j - 16);
    assert Pow2(j - 15) == 2 * Pow2(j - 16);
    assert b * Pow2(j) == (2 * q) * 0x8000 by {
      assert b * Pow2(j) == b * (0x8000 * (2 * Pow2(j - 16)));
    }
    DivUnique(b * Pow2(j), 0x8000, 2 * q, 0);
  }

  /** Row i of ch's glyph (gc9a01a.c:440). */
  function GlyphRow(font: Font, ch: byte, i: nat): u16
    requires HasGlyph(font, ch) && i < font.height
  {
    font.data[(ch - 32) * font.height + i]
  }

  /** The colours of one glyph row, left to right (gc9a01a.c:441-451). */
  function RowColours(b: u16, width: nat, color: u16, bgcolor: u16): seq<u16>
    requires width <= 32
  {
    seq(width, j requires 0 <= j < width => if ShiftTest(b, j) then color else bgcolor)
  }

  /** The colours of the first n glyph rows, top row first. */
  function Rows(font: Font, ch: byte, color: u16, bgcolor: u16, n: nat): seq<u16>
    requires HasGlyph(font, ch) && font.width <= 32 && n <= font.height
  {
    if n == 0 then []
    else Rows(font, ch, color, bgcolor, n - 1) + RowColours(GlyphRow(font, ch, n - 1), font.width, color, bgcolor)
  }

  /** The colours write_char streams for ch. */
  function GlyphColours(font: Font, ch: byte, color: u16, bgcolor: u16): seq<u16>
    requires HasGlyph(font, ch) && font.width <= 32
  {
    Rows(font, ch, color, bgcolor, font.height)
  }

  lemma MulRow(i: int, n: int, w: int, j: int)
    requires 0 <= i < n && 0 <= j < w
    ensures 0 <= i * w + j < n * w
    ensures i < n - 1 ==> i * w + j < (n - 1) * w
    ensures i == n - 1 ==> i * w + j - (n - 1) * w == j
  {
    assert i * w + j < i * w + w == (i + 1) * w;
    if i < n - 1 {
      assert (i + 1) * w <= (n - 1) * w;
    }
    assert (i + 1) * w <= n * w;
  }

  lemma {:induction false} RowsAt(font: Font, ch: byte, color: u16, bgcolor: u16, n: nat, i: nat, j: nat)
    requires HasGlyph(font, ch) && font.width <= 32 && n <= font.height
    requires i < n && j < font.width
    ensures |Rows(font, ch, color, bgcolor, n)| == n * font.width
    ensures 0 <= i * font.width + j < n * font.width
    ensures Rows(font, ch, color, bgcolor, n)[i * font.width + j]
            == RowColours(GlyphRow(font, ch, i), font.width, color, bgcolor)[j]
  {
    var w := font.width as int;
    MulRow(i, n, w, j);
    if i < n - 1 {
      RowsAt(font, ch, color, bgcolor, n - 1, i, j);
    } else if n > 1 {
      RowsAt(font, ch, color, bgcolor, n - 1, 0, 0);
    }
    assert (n - 1) * w + w == n * w;
  }

  /** write_char streams height*width colours, row by row, and column j of
      row i is `color` exactly when bit 15 - j of the glyph's row word i is
      set, `bgcolor` otherwise. */
  lemma GlyphPixel(font: Font, ch: byte, color: u16, bgcolor: u16, i: nat, j: nat)
    requires HasGlyph(font, ch) && font.width <= 32
    requires i < font.height && j < font.width
    ensures |GlyphColours(font, ch, color, bgcolor)| == font.height * font.width
    ensures GlyphColours(font, ch, color, bgcolor)[i * font.width + j]
            == if j <= 15 && Bit(GlyphRow(font, ch, i), 15 - j) then color else bgcolor
  {
    RowsAt(font, ch, color, bgcolor, font.height, i, j);
    ShiftTestBit(GlyphRow(font, ch, i), j);
  }

  /** `gc9a01a_write_char` with the window the glyph fills: width columns
      by height rows. The source sizes the window width by width
      (gc9a01a.c:434): see CharEventsAsWritten. */
  function CharEvents(x: u16, y: u16, ch: byte, font: Font, color: u16, bgcolor: u16): seq<Event>
    requires HasGlyph(font, ch) && font.width <= 32
  {
    WindowEvents(x, y, x + font.width - 1, y + font.height - 1) + Stream(GlyphColours(font, ch, color, bgcolor))
  }

  /** `gc9a01a_write_char` as written: a width-by-width window. */
  function CharEventsAsWritten(x: u16, y: u16, ch: byte, font: Font, color: u16, bgcolor: u16): seq<Event>
    requires HasGlyph(font, ch) && font.width <= 32
  {
    WindowEvents(x, y, x + font.width - 1, y + font.width - 1) + Stream(GlyphColours(font, ch, color, bgcolor))
  }

  /** The controller reads one write_char back as one window holding the
      glyph's colours. */
  lemma CharDecodes(x: u16, y: u16, ch: byte, font: Font, color: u16, bgcolor: u16)
    requires HasGlyph(font, ch) && font.width <= 32
    ensures Transfers(CharEvents(x, y, ch, font, color, bgcolor))
            == [Transfer(Window(x, y, ToU16(x + font.width - 1), ToU16(y + font.height - 1)),
                         GlyphColours(font, ch, color, bgcolor))]
  {
    var cs := GlyphColours(font, ch, color, bgcolor);
    var e := CharEvents(x, y, ch, font, color, bgcolor);
    TransferChunk(x, y, x + font.width - 1, y + font.height - 1, cs, []);
    assert e + [] == e;
  }

  /** A glyph inside the 16-bit range fills its window exactly. */
  lemma CharFillsWindow(x: u16, y: u16, ch: byte, font: Font, color: u16, bgcolor: u16)
    requires HasGlyph(font, ch) && font.width <= 32
    requires 1 <= font.width && 1 <= font.height && x + font.width <= 0x1_0000 && y + font.height <= 0x1_0000
    ensures Area(Window(x, y, ToU16(x + font.width - 1), ToU16(y + font.height - 1)))
            == |GlyphColours(font, ch, color, bgcolor)|
  {
    RowsLength(font, ch, color, bgcolor, font.height);
    assert ToU16(x + font.width - 1) == x + font.width - 1;
    assert ToU16(y + font.height - 1) == y + font.height - 1;
  }

  lemma {:induction false} RowsLength(font: Font, ch: byte, color: u16, bgcolor: u16, n: nat)
    requires HasGlyph(font, ch) && font.width <= 32 && n <= font.height
    ensures |Rows(font, ch, color, bgcolor, n)| == n * font.width
  {
    if n > 0 {
      RowsLength(font, ch, color, bgcolor, n - 1);
      assert (n - 1) * font.width + font.width == n * font.width;
    }
  }

  /** As written, a glyph that is taller than wide gets a window of
      width*width pixels for its height*width colours: in a 7x10 font at
      the origin the window holds 49 pixels and the glyph sends 70. */
  lemma CharWindowAsWrittenTooSmall(ch: byte, data: seq<u16>, color: u16, bgcolor: u16)
    requires HasGlyph(Font(7, 10, data), ch)
    ensures Area(Window(0, 0, ToU16(0 + 7 - 1), ToU16(0 + 7 - 1))) == 49
    ensures |GlyphColours(Font(7, 10, data), ch, color, bgcolor)| == 70
    ensures CharEventsAsWritten(0, 0, ch, Font(7, 10, data), color, bgcolor)[3]
            == Data(Split16(0) + Split16(6))
  {
    RowsLength(Font(7, 10, data), ch, color, bgcolor, 10);
  }

  /** A character write_string hands to write_char, at its cursor position. */
  datatype Glyph = Glyph(x: int, y: int, ch: byte)

  /** The characters of a C string before its terminating zero byte. */
  predicate IsCString(str: seq<byte>)
  {
    forall k :: 0 <= k < |str| ==> str[k] != 0
  }

  /** The glyphs write_string draws from cursor (x, y), in order
      (gc9a01a.c:458-480). A glyph that would reach column 240 wraps the
      cursor to column 0 of the next text row; the string stops when that
      row would reach row 240; a space at a wrap is skipped. Both cursor
      stores are to `int16_t` variables. */
  function Layout(x: int, y: int, str: seq<byte>, font: Font): seq<Glyph>
    decreases |str|
  {
    if str == [] then []
    else
      var wrap := x + font.width >= Width;
      var x' := if wrap then 0 else x;
      var y' := if wrap then Wrap16(y + font.height) else y;
      if wrap && y' + font.height >= Height then []
      else if wrap && str[0] == Space then Layout(x', y', str[1..], font)
      else [Glyph(x', y', str[0])] + Layout(Wrap16(x' + font.width), y', str[1..], font)
  }

  /** Every glyph of gs has its rows in the font table. */
  predicate Drawable(font: Font, gs: seq<Glyph>)
  {
    forall k :: 0 <= k < |gs| ==> HasGlyph(font, gs[k].ch)
  }

  /** The events of write_char for each glyph in turn; write_char takes the
      cursor as `uint16_t`. */
  function StringEvents(gs: seq<Glyph>, font: Font, color: u16, bgcolor: u16): seq<Event>
    requires Drawable(font, gs)
    requires font.width <= 32
  {
    if gs == [] then []
    else
      var g := gs[|gs| - 1];
      StringEvents(gs[..|gs| - 1], font, color, bgcolor) + CharEvents(ToU16(g.x), ToU16(g.y), g.ch, font, color, bgcolor)
  }

  /** A string whose every character has a glyph lays out drawable glyphs. */
  lemma LayoutDrawable(x: int, y: int, str: seq<byte>, font: Font)
    requires forall k :: 0 <= k < |str| ==> HasGlyph(font, str[k])
    ensures Drawable(font, Layout(x, y, str, font))
  {
    LayoutChars(x, y, str, font);
    var gs := Layout(x, y, str, font);
    forall k | 0 <= k < |gs|
      ensures HasGlyph(font, gs[k].ch)
    {
      assert gs[k] in gs;
      var j :| 0 <= j < |str| && str[j] == gs[k].ch;
    }
  }

  /** Every glyph starts left of the wrap column, or at column 0 after a
      wrap; every glyph lies on the starting row or on a row that ends
      above row 240. */
  lemma {:induction false} LayoutBounds(x: int, y: int, str: seq<byte>, font: Font)
    ensures forall g :: g in Layout(x, y, str, font) ==> g.x + font.width < Width || g.x == 0
    ensures forall g :: g in Layout(x, y, str, font) ==> g.y == y || g.y + font.height < Height
    decreases |str|
  {
    if str != [] {
      var wrap := x + font.width >= Width;
      var x' := if wrap then 0 else x;
      var y' := if wrap then Wrap16(y + font.height) else y;
      if !(wrap && y' + font.height >= Height) {
        if wrap && str[0] == Space {
          LayoutBounds(x', y', str[1..], font);
        } else {
          LayoutBounds(Wrap16(x' + font.width), y', str[1..], font);
        }
      }
    }
  }

  /** Every glyph drawn is a character of the string, and there are no
      more glyphs than characters. */
  lemma {:induction false} LayoutChars(x: int, y: int, str: seq<byte>, font: Font)
    ensures |Layout(x, y, str, font)| <= |str|
    ensures forall g :: g in Layout(x, y, str, font) ==> g.ch in str
    decreases |str|
  {
    if str != [] {
      var wrap := x + font.width >= Width;
      var x' := if wrap then 0 else x;
      var y' := if wrap then Wrap16(y + font.height) else y;
      if !(wrap && y' + font.height >= Height) {
        var next := if wrap && str[0] == Space then x' else Wrap16(x' + font.width);
        LayoutChars(next, y', str[1..], font);
        assert forall c :: c in str[1..] ==> c in str;
      }
    }
  }

  /** A glyph that fits before the wrap column is drawn where the cursor
      is, and the cursor advances by the font width. */
  lemma LayoutHead(x: int, y: int, str: seq<byte>, font: Font)
    requires str != [] && IsInt16(x) && x + font.width < Width
    ensures Layout(x, y, str, font) == [Glyph(x, y, str[0])] + Layout(x + font.width, y, str[1..], font)
  {
    assert Wrap16(x + font.width) == x + font.width;
  }

  lemma ColumnShift(x: int, w: int, n: int)
    ensures (x + w) + (n - 1) * w == x + n * w
  {
    assert n * w == w + (n - 1) * w;
  }

  lemma RowShift(x: int, w: int, n: int)
    requires 1 <= n && 0 <= w && x + n * w < Width
    ensures x + w < Width && (x + w) + (n - 1) * w == x + n * w
  {
    ColumnShift(x, w, n);
    assert 0 <= (n - 1) * w;
  }

  /** A string that fits on the cursor's row is drawn one glyph per
      character, in string order, glyph k at column x + k*width. */
  lemma {:induction false} LayoutOneRow(x: int, y: int, str: seq<byte>, font: Font)
    requires IsInt16(x) && x + |str| * font.width < Width
    ensures Layout(x, y, str, font) == seq(|str|, k requires 0 <= k < |str| => Glyph(x + k * font.width, y, str[k]))
    decreases |str|
  {
    if str != [] {
      var w := font.width as int;
      RowShift(x, w, |str|);
      LayoutHead(x, y, str, font);
      LayoutOneRow(x + w, y, str[1..], font);
      var l := Layout(x, y, str, font);
      forall k | 0 <= k < |str| ensures l[k] == Glyph(x + k * w, y, str[k]) {
        if k > 0 {
          ColumnShift(x, w, k);
        }
      }
    }
  }
}
