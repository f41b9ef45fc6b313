/** The GC9A01A transfer protocol: the command/data events the driver sends,
    the address-window and pixel encodings, and a decoder that reads an event
    log back as the pixel streams the controller receives. */
module Protocol {
  import opened Common

  // Surface size and controller opcodes (gc9a01a.h:30-31, 47-49, 56).
  const Width: int := 240
  const Height: int := 240
  const CASET: byte := 0x2A
  const RASET: byte := 0x2B
  const RAMWR: byte := 0x2C
  const MADCTL: byte := 0x36

  // Memory-access-control bits (gc9a01a.h:95-101).
  const MADCTL_MY: byte := 0x80
  const MADCTL_MX: byte := 0x40
  const MADCTL_MV: byte := 0x20
  const MADCTL_BGR: byte := 0x08

  // `display_orientation` values (gfx_display.h:28-32).
  const PORTRAIT: int := 0
  const LANDSCAPE: int := 1

  /** One transfer on the bus: a one-byte command (DC low) or a data block (DC high). */
  datatype Event = Command(op: byte) | Data(bytes: seq<byte>)

  /** The address window a pixel stream fills. */
  datatype Window = Window(x0: u16, y0: u16, x1: u16, y1: u16)

  /** A decoded pixel stream: a window followed by the colours written into it. */
  datatype Transfer = Transfer(window: Window, colours: seq<u16>)

  /** `{v >> 8, v & 0xFF}`: a 16-bit value sent high byte first. */
  function Split16(v: u16): (b: seq<byte>)
    ensures |b| == 2
  {
    [v / 0x100, v % 0x100]
  }

  /** `(b[0] << 8) | b[1]`: the value the controller reassembles. */
  function Join16(b: seq<byte>): u16
    requires |b| == 2
  {
    (b[0] as int) * 0x100 + (b[1] as int)
  }

  lemma SplitJoin(v: u16)
    ensures Join16(Split16(v)) == v
  {
  }

  lemma JoinSplit(b: seq<byte>)
    requires |b| == 2
    ensures Split16(Join16(b)) == b
  {
  }

  /** `gc9a01a_set_address_window` with the row range sent: CASET, the four
      column bytes, RASET, the four row bytes, RAMWR. Each coordinate is
      converted to `uint16_t` by the call. The source builds the row bytes
      but never sends them (gc9a01a.c:105-106): see WindowEventsAsWritten. */
  function WindowEvents(x0: int, y0: int, x1: int, y1: int): (r: seq<Event>)
    ensures |r| == 5 && r[0] == Command(CASET) && r[4] == Command(RAMWR)
  {
    [Command(CASET), Data(Split16(ToU16(x0)) + Split16(ToU16(x1))),
     Command(RASET), Data(Split16(ToU16(y0)) + Split16(ToU16(y1))),
     Command(RAMWR)]
  }

  /** The conversion to `uint16_t` at the call changes nothing the window events send. */
  lemma WindowEventsU16(x0: int, y0: int, x1: int, y1: int)
    ensures WindowEvents(ToU16(x0), ToU16(y0), ToU16(x1), ToU16(y1)) == WindowEvents(x0, y0, x1, y1)
  {
  }

  /** `gc9a01a_set_address_window` as written: RASET and the row bytes are
      never sent (gc9a01a.c:101-107). */
  function WindowEventsAsWritten(x0: int, y0: int, x1: int, y1: int): seq<Event>
  {
    [Command(CASET), Data(Split16(ToU16(x0)) + Split16(ToU16(x1))), Command(RAMWR)]
  }

  /** Reads the five window events at the head of a log back as a window. */
  function DecodeWindow(log: seq<Event>): Option<Window>
  {
    if |log| >= 5 && log[0] == Command(CASET) && log[1].Data? && |log[1].bytes| == 4
       && log[2] == Command(RASET) && log[3].Data? && |log[3].bytes| == 4
       && log[4] == Command(RAMWR)
    then Some(Window(Join16(log[1].bytes[..2]), Join16(log[3].bytes[..2]),
                     Join16(log[1].bytes[2..]), Join16(log[3].bytes[2..])))
    else None
  }

  /** The window round trip: the controller reads back exactly the uint16
      coordinates given, high byte first for each. */
  lemma WindowRoundTrip(x0: int, y0: int, x1: int, y1: int)
    ensures DecodeWindow(WindowEvents(x0, y0, x1, y1))
            == Some(Window(ToU16(x0), ToU16(y0), ToU16(x1), ToU16(y1)))
    ensures forall r :: 0 <= r < 5 && WindowEvents(x0, y0, x1, y1)[r].Data? ==>
              |WindowEvents(x0, y0, x1, y1)[r].bytes| == 4
  {
    var e := WindowEvents(x0, y0, x1, y1);
    assert e[1].bytes[..2] == Split16(ToU16(x0));
    assert e[1].bytes[2..] == Split16(ToU16(x1));
    assert e[3].bytes[..2] == Split16(ToU16(y0));
    assert e[3].bytes[2..] == Split16(ToU16(y1));
  }

  /** As written, no RASET is ever sent and so no window can be decoded:
      the row range of every stream is left to whatever it was before. */
  lemma WindowAsWrittenOmitsRows(x0: int, y0: int, x1: int, y1: int, rest: seq<Event>)
    ensures Command(RASET) !in WindowEventsAsWritten(x0, y0, x1, y1)
    ensures |WindowEventsAsWritten(x0, y0, x1, y1)| == 3
    ensures DecodeWindow(WindowEventsAsWritten(x0, y0, x1, y1) + rest) == None
  {
    var e := WindowEventsAsWritten(x0, y0, x1, y1) + rest;
    assert e[2] == Command(RAMWR);
  }

  /** The pixel data of one colour: `{color >> 8, color & 0xFF}`. */
  function ColourEvent(c: u16): Event { Data(Split16(c)) }

  /** A stream of colours, one two-byte data transfer each. */
  function Stream(cs: seq<u16>): (r: seq<Event>)
    ensures |r| == |cs|
    ensures forall i :: 0 <= i < |cs| ==> r[i] == ColourEvent(cs[i])
  {
    seq(|cs|, i requires 0 <= i < |cs| => ColourEvent(cs[i]))
  }

  lemma StreamAppend(a: seq<u16>, b: seq<u16>)
    ensures Stream(a + b) == Stream(a) + Stream(b)
  {
  }

  /** Streaming one more colour of cs appends its event. */
  lemma StreamPrefix(cs: seq<u16>, j: nat)
    requires j < |cs|
    ensures Stream(cs[..j + 1]) == Stream(cs[..j]) + [ColourEvent(cs[j])]
  {
    assert cs[..j + 1] == cs[..j] + [cs[j]];
    StreamAppend(cs[..j], [cs[j]]);
  }

  /** `write_pixel` accepts a point unless it is right of or below the surface;
      negative coordinates are not rejected (gc9a01a.c:488). */
  predicate Accepted(p: Point) { !(p.x >= Width || p.y >= Height) }

  /** `gc9a01a_write_pixel` with a one-pixel window: nothing for a rejected
      point, else the window events and one colour. The source opens the
      window (x, y, x + 1, y + 1) (gc9a01a.c:491): see PixelEventsAsWritten. */
  function PixelEvents(p: Point, c: u16): seq<Event>
  {
    if !Accepted(p) then [] else WindowEvents(p.x, p.y, p.x, p.y) + [ColourEvent(c)]
  }

  /** `gc9a01a_write_pixel` as written: a 2x2 window with a single colour. */
  function PixelEventsAsWritten(p: Point, c: u16): seq<Event>
  {
    if !Accepted(p) then [] else WindowEventsAsWritten(p.x, p.y, p.x + 1, p.y + 1) + [ColourEvent(c)]
  }

  /** Number of pixels a window covers. */
  function Area(w: Window): int
  {
    if w.x0 <= w.x1 && w.y0 <= w.y1 then (w.x1 - w.x0 + 1) * (w.y1 - w.y0 + 1) else 0
  }

  /** Even with the row range sent, the window write_pixel opens covers four
      pixels at every point inside the surface while one colour follows it. */
  lemma PixelWindowAsWrittenTooLarge(p: Point, c: u16)
    requires 0 <= p.x < Width && 0 <= p.y < Height
    ensures Area(Window(ToU16(p.x), ToU16(p.y), ToU16(p.x + 1), ToU16(p.y + 1))) == 4
    ensures |PixelEventsAsWritten(p, c)| == 4
    ensures PixelEventsAsWritten(p, c)[3] == ColourEvent(c)
  {
  }

  /** The events of a sequence of write_pixel calls with one colour. */
  function Plot(ps: seq<Point>, c: u16): seq<Event>
  {
    if ps == [] then [] else Plot(ps[..|ps| - 1], c) + PixelEvents(ps[|ps| - 1], c)
  }

  /** Dropping the last element of a + b, for non-empty b, drops the last
      element of b. */
  lemma DropLastConcat<T>(a: seq<T>, b: seq<T>)
    requires b != []
    ensures (a + b)[..|a + b| - 1] == a + b[..|b| - 1] && (a + b)[|a + b| - 1] == b[|b| - 1]
  {
    assert (a + b)[..|a + b| - 1] == a + b[..|b| - 1];
  }

  lemma {:induction false} PlotAppend(a: seq<Point>, b: seq<Point>, c: u16)
    ensures Plot(a + b, c) == Plot(a, c) + Plot(b, c)
  {
    if b == [] {
      assert a + b == a;
    } else {
      var b' := b[..|b| - 1];
      DropLastConcat(a, b);
      PlotAppend(a, b', c);
      AppendAssoc(Plot(a, c), Plot(b', c), PixelEvents(b[|b| - 1], c));
    }
  }

  /** One more write_pixel appends its events. */
  lemma PlotSnoc(ps: seq<Point>, p: Point, c: u16)
    ensures Plot(ps + [p], c) == Plot(ps, c) + PixelEvents(p, c)
  {
    assert (ps + [p])[..|ps|] == ps;
  }

  lemma PlotSingle(p: Point, c: u16)
    ensures Plot([p], c) == PixelEvents(p, c)
  {
    assert [p][..0] == [];
  }

  lemma PlotCons(p: Point, ps: seq<Point>, c: u16)
    ensures Plot([p] + ps, c) == PixelEvents(p, c) + Plot(ps, c)
  {
    PlotAppend([p], ps, c);
    PlotSingle(p, c);
  }

  /** Points that all lie off the surface send nothing at all. */
  lemma {:induction false} PlotRejected(ps: seq<Point>, c: u16)
    requires forall p :: p in ps ==> !Accepted(p)
    ensures Plot(ps, c) == []
  {
    if ps != [] {
      PlotRejected(ps[..|ps| - 1], c);
    }
  }

  /** A data transfer that carries exactly one colour. */
  predicate IsColour(e: Event) { e.Data? && |e.bytes| == 2 }

  /** Length of the run of colour transfers at the head of a log. */
  function ColourRun(log: seq<Event>): (n: nat)
    ensures n <= |log|
    ensures forall i :: 0 <= i < n ==> IsColour(log[i])
    ensures n < |log| ==> !IsColour(log[n])
  {
    if log != [] && IsColour(log[0]) then 1 + ColourRun(log[1..]) else 0
  }

  /** The colours carried by the first n events of a log. */
  function Colours(body: seq<Event>, n: nat): (cs: seq<u16>)
    requires n <= |body| && forall i :: 0 <= i < n ==> IsColour(body[i])
    ensures |cs| == n
  {
    seq(n, i requires 0 <= i < n => assert IsColour(body[i]); Join16(body[i].bytes))
  }

  /** The controller's view of a log: each window followed by the colours
      streamed into it, up to the first event that is neither. */
  function Transfers(log: seq<Event>): seq<Transfer>
    decreases |log|
  {
    if DecodeWindow(log).None? then []
    else
      var body := log[5..];
      var n := ColourRun(body);
      [Transfer(DecodeWindow(log).value, Colours(body, n))] + Transfers(body[n..])
  }

  lemma {:induction false} ColourRunStream(cs: seq<u16>, rest: seq<Event>)
    requires rest == [] || rest[0].Command?
    ensures ColourRun(Stream(cs) + rest) == |cs|
  {
    if cs != [] {
      assert (Stream(cs) + rest)[1..] == Stream(cs[1..]) + rest;
      ColourRunStream(cs[1..], rest);
    }
  }

  lemma ColoursOfStream(cs: seq<u16>, rest: seq<Event>)
    ensures forall i :: 0 <= i < |cs| ==> IsColour((Stream(cs) + rest)[i])
    ensures Colours(Stream(cs) + rest, |cs|) == cs
  {
    var body := Stream(cs) + rest;
    forall i | 0 <= i < |cs| ensures Colours(body, |cs|)[i] == cs[i] {
      assert body[i] == ColourEvent(cs[i]);
      SplitJoin(cs[i]);
    }
  }

  lemma DecodeWindowPrefix(a: seq<Event>, b: seq<Event>)
    requires |a| == 5
    ensures DecodeWindow(a + b) == DecodeWindow(a)
  {
    assert forall r :: 0 <= r < 5 ==> (a + b)[r] == a[r];
  }

  /** One window followed by a colour stream decodes as one transfer. */
  lemma TransferChunk(x0: int, y0: int, x1: int, y1: int, cs: seq<u16>, rest: seq<Event>)
    requires rest == [] || rest[0].Command?
    ensures Transfers(WindowEvents(x0, y0, x1, y1) + Stream(cs) + rest)
            == [Transfer(Window(ToU16(x0), ToU16(y0), ToU16(x1), ToU16(y1)), cs)] + Transfers(rest)
  {
    var win := WindowEvents(x0, y0, x1, y1);
    var body := Stream(cs) + rest;
    var log := win + Stream(cs) + rest;
    assert log == win + body;
    WindowRoundTrip(x0, y0, x1, y1);
    DecodeWindowPrefix(win, body);
    assert log[5..] == body;
    ColourRunStream(cs, rest);
    ColoursOfStream(cs, rest);
    assert body[|cs|..] == rest;
  }

  /** The transfer one accepted write_pixel produces. */
  function PixelTransfer(p: Point, c: u16): Transfer
  {
    Transfer(Window(ToU16(p.x), ToU16(p.y), ToU16(p.x), ToU16(p.y)), [c])
  }

  /** The transfers of the points write_pixel accepts, in order. */
  function PixelTransfers(ps: seq<Point>, c: u16): (r: seq<Transfer>)
    ensures |r| <= |ps|
    ensures forall t :: t in r ==> exists p :: p in ps && Accepted(p) && t == PixelTransfer(p, c)
  {
    if ps == [] then []
    else (if Accepted(ps[0]) then [PixelTransfer(ps[0], c)] else []) + PixelTransfers(ps[1..], c)
  }

  lemma {:induction false} PlotHead(ps: seq<Point>, c: u16)
    ensures Plot(ps, c) == [] || Plot(ps, c)[0] == Command(CASET)
  {
    if ps != [] {
      PlotCons(ps[0], ps[1..], c);
      assert [ps[0]] + ps[1..] == ps;
      PlotHead(ps[1..], c);
    }
  }

  /** Decoding a plotted point sequence gives back exactly the accepted points,
      in order, each as a one-pixel window holding one colour. */
  lemma {:induction false} PlotDecodes(ps: seq<Point>, c: u16)
    ensures Transfers(Plot(ps, c)) == PixelTransfers(ps, c)
  {
    if ps != [] {
      var p, rest := ps[0], ps[1..];
      assert [p] + rest == ps;
      PlotCons(p, rest, c);
      PlotDecodes(rest, c);
      PlotHead(rest, c);
      if Accepted(p) {
        TransferChunk(p.x, p.y, p.x, p.y, [c], Plot(rest, c));
        assert PixelEvents(p, c) == WindowEvents(p.x, p.y, p.x, p.y) + Stream([c]);
        assert Plot(ps, c) == WindowEvents(p.x, p.y, p.x, p.y) + Stream([c]) + Plot(rest, c);
      } else {
        assert Plot(ps, c) == Plot(rest, c);
      }
    }
  }

  /** The MADCTL byte `set_orientation` sends (gc9a01a.c:405, 410-414). */
  function OrientationByte(orientation: byte): (b: byte)
    ensures orientation == LANDSCAPE <==> b == MADCTL_MV + MADCTL_BGR
    ensures orientation == PORTRAIT <==> b == MADCTL_MX + MADCTL_BGR
    ensures orientation != LANDSCAPE && orientation != PORTRAIT <==> b == 0
  {
    if orientation == LANDSCAPE then MADCTL_MV + MADCTL_BGR
    else if orientation == PORTRAIT then MADCTL_MX + MADCTL_BGR
    else 0
  }

  /** `gc9a01a_set_orientation`: the full column and row ranges (0x0000 to
      0x00F0), then MADCTL with one parameter byte (gc9a01a.c:404-418). */
  function OrientationEvents(orientation: byte): seq<Event>
  {
    [Command(CASET), Data([0x00, 0x00, 0x00, 0xF0]),
     Command(RASET), Data([0x00, 0x00, 0x00, 0xF0]),
     Command(MADCTL), Data([OrientationByte(orientation)])]
  }
}
