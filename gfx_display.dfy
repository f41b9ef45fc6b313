/** The display dispatcher (gfx_display.c, gfx_display.h): one replaceable
    reference to a driver's capability table, and one entry point per
    capability that forwards its arguments to the capability when both the
    table and the capability are present, and does nothing otherwise. */
module GfxDisplay {
  import opened Common
  import opened Text

  /** `int16_t`, the type of coordinates and sizes at the interface. */
  type i16 = v: int | -0x8000 <= v < 0x8000

  /** The capabilities of `gfx_display_driver_t` (gfx_display.h:34-63). */
  datatype Entry =
    | Init | WriteString | WriteChar | WritePixel | DrawImage
    | DrawFastVerticalLine | DrawFastHorizontalLine | DrawLine
    | DrawRectangle | FillRectangle | DrawCircle | FillCircle
    | DrawEllipse | FillEllipse | DrawTriangle | FillTriangle
    | DrawRoundRectangle | FillRoundRectangle | FillScreen | Orientation

  /** The identity of the function a table entry points to. */
  type Impl = nat

  /** A capability table: every entry is a function or NULL. */
  datatype DriverTable = DriverTable(
    init: Option<Impl>,
    writeString: Option<Impl>,
    writeChar: Option<Impl>,
    writePixel: Option<Impl>,
    drawImage: Option<Impl>,
    drawFastVerticalLine: Option<Impl>,
    drawFastHorizontalLine: Option<Impl>,
    drawLine: Option<Impl>,
    drawRectangle: Option<Impl>,
    fillRectangle: Option<Impl>,
    drawCircle: Option<Impl>,
    fillCircle: Option<Impl>,
    drawEllipse: Option<Impl>,
    fillEllipse: Option<Impl>,
    drawTriangle: Option<Impl>,
    fillTriangle: Option<Impl>,
    drawRoundRectangle: Option<Impl>,
    fillRoundRectangle: Option<Impl>,
    fillScreen: Option<Impl>,
    orientation: Option<Impl>)

  /** The field of a table that holds a capability. */
  function Lookup(t: DriverTable, e: Entry): Option<Impl>
  {
    match e
    case Init => t.init
    case WriteString => t.writeString
    case WriteChar => t.writeChar
    case WritePixel => t.writePixel
    case DrawImage => t.drawImage
    case DrawFastVerticalLine => t.drawFastVerticalLine
    case DrawFastHorizontalLine => t.drawFastHorizontalLine
    case DrawLine => t.drawLine
    case DrawRectangle => t.drawRectangle
    case FillRectangle => t.fillRectangle
    case DrawCircle => t.drawCircle
    case FillCircle => t.fillCircle
    case DrawEllipse => t.drawEllipse
    case FillEllipse => t.fillEllipse
    case DrawTriangle => t.drawTriangle
    case FillTriangle => t.fillTriangle
    case DrawRoundRectangle => t.drawRoundRectangle
    case FillRoundRectangle => t.fillRoundRectangle
    case FillScreen => t.fillScreen
    case Orientation => t.orientation
  }

  /** An argument as passed to a capability. Characters, colours and the
      orientation enum (PORTRAIT = 0, LANDSCAPE = 1, gfx_display.h:28-32)
      are numbers. */
  datatype Arg = Num(n: int) | Str(s: seq<byte>) | FontArg(font: Font) | Pixels(image: seq<u16>)

  /** The number of parameters of each capability (gfx_display.h:36-62). */
  function Arity(e: Entry): nat
  {
    match e
    case Init => 0
    case WriteString => 6
    case WriteChar => 6
    case WritePixel => 3
    case DrawImage => 5
    case DrawFastVerticalLine => 4
    case DrawFastHorizontalLine => 4
    case DrawLine => 5
    case DrawRectangle => 5
    case FillRectangle => 5
    case DrawCircle => 4
    case FillCircle => 4
    case DrawEllipse => 5
    case FillEllipse => 5
    case DrawTriangle => 7
    case FillTriangle => 7
    case DrawRoundRectangle => 6
    case FillRoundRectangle => 6
    case FillScreen => 1
    case Orientation => 1
  }

  /** A call of a capability through the table: the function a present
      entry points to, or a NULL entry called anyway. */
  datatype Call = Invoke(entry: Entry, impl: Impl, args: seq<Arg>) | NullInvoke(entry: Entry, args: seq<Arg>)

  /** A guarded call: nothing without a table or when the guard entry is
      NULL, else a call of the target entry. Every entry point has the
      form `if (lcd_driver && lcd_driver->guard) lcd_driver->target(args)`
      (gfx_display.c:28-135); all but one use the same entry twice. */
  function Dispatch(driver: Option<DriverTable>, guard: Entry, target: Entry, args: seq<Arg>): (cs: seq<Call>)
    ensures |cs| <= 1
    ensures driver.None? ==> cs == []
    ensures forall c :: c in cs ==> c.entry == target && c.args == args
  {
    if driver.None? || Lookup(driver.value, guard).None? then []
    else
      match Lookup(driver.value, target)
      case Some(f) => [Invoke(target, f, args)]
      case None => [NullInvoke(target, args)]
  }

  /** The requests of the entry points (gfx_display.h:65-90), one per
      capability, with the arguments the caller passes. */
  datatype Request =
    | InitReq
    | WriteStringReq(x: i16, y: i16, str: seq<byte>, font: Font, color: u16, bg: u16)
    | WriteCharReq(x: i16, y: i16, ch: byte, font: Font, color: u16, bg: u16)
    | WritePixelReq(x: i16, y: i16, color: u16)
    | DrawImageReq(x: i16, y: i16, width: i16, height: i16, image: seq<u16>)
    | DrawFastVerticalLineReq(x: i16, y: i16, height: i16, color: u16)
    | DrawFastHorizontalLineReq(x: i16, y: i16, width: i16, color: u16)
    | DrawLineReq(x0: i16, y0: i16, x1: i16, y1: i16, color: u16)
    | DrawRectangleReq(x: i16, y: i16, width: i16, height: i16, color: u16)
    | FillRectangleReq(x: i16, y: i16, width: i16, height: i16, color: u16)
    | DrawCircleReq(x: i16, y: i16, radius: i16, color: u16)
    | FillCircleReq(x: i16, y: i16, radius: i16, color: u16)
    | DrawEllipseReq(x: i16, y: i16, width: i16, height: i16, color: u16)
    | FillEllipseReq(x: i16, y: i16, width: i16, height: i16, color: u16)
    | DrawTriangleReq(x0: i16, y0: i16, x1: i16, y1: i16, x2: i16, y2: i16, color: u16)
    | FillTriangleReq(x0: i16, y0: i16, x1: i16, y1: i16, x2: i16, y2: i16, scolor: i16)
    | DrawRoundRectangleReq(x: i16, y: i16, width: i16, height: i16, radius: i16, color: u16)
    | FillRoundRectangleReq(x: i16, y: i16, width: i16, height: i16, radius: i16, color: u16)
    | FillScreenReq(color: u16)
    | OrientationReq(orientation: int)

  /** The capability an entry point names. */
  function Target(r: Request): Entry
  {
    match r
    case InitReq => Init
    case WriteStringReq(_, _, _, _, _, _) => WriteString
    case WriteCharReq(_, _, _, _, _, _) => WriteChar
    case WritePixelReq(_, _, _) => WritePixel
    case DrawImageReq(_, _, _, _, _) => DrawImage
    case DrawFastVerticalLineReq(_, _, _, _) => DrawFastVerticalLine
    case DrawFastHorizontalLineReq(_, _, _, _) => DrawFastHorizontalLine
    case DrawLineReq(_, _, _, _, _) => DrawLine
    case DrawRectangleReq(_, _, _, _, _) => DrawRectangle
    case FillRectangleReq(_, _, _, _, _) => FillRectangle
    case DrawCircleReq(_, _, _, _) => DrawCircle
    case FillCircleReq(_, _, _, _) => FillCircle
    case DrawEllipseReq(_, _, _, _, _) => DrawEllipse
    case FillEllipseReq(_, _, _, _, _) => FillEllipse
    case DrawTriangleReq(_, _, _, _, _, _, _) => DrawTriangle
    case FillTriangleReq(_, _, _, _, _, _, _) => FillTriangle
    case DrawRoundRectangleReq(_, _, _, _, _, _) => DrawRoundRectangle
    case FillRoundRectangleReq(_, _, _, _, _, _) => FillRoundRectangle
    case FillScreenReq(_) => FillScreen
    case OrientationReq(_) => Orientation
  }

  /** The arguments of a request in the order of the capability's parameters. */
  function Args(r: Request): seq<Arg>
  {
    match r
    case InitReq => []
    case WriteStringReq(x, y, str, font, color, bg) => [Num(x), Num(y), Str(str), FontArg(font), Num(color), Num(bg)]
    case WriteCharReq(x, y, ch, font, color, bg) => [Num(x), Num(y), Num(ch), FontArg(font), Num(color), Num(bg)]
    case WritePixelReq(x, y, color) => [Num(x), Num(y), Num(color)]
    case DrawImageReq(x, y, width, height, image) => [Num(x), Num(y), Num(width), Num(height), Pixels(image)]
    case DrawFastVerticalLineReq(x, y, height, color) => [Num(x), Num(y), Num(height), Num(color)]
    case DrawFastHorizontalLineReq(x, y, width, color) => [Num(x), Num(y), Num(width), Num(color)]
    case DrawLineReq(x0, y0, x1, y1, color) => [Num(x0), Num(y0), Num(x1), Num(y1), Num(color)]
    case DrawRectangleReq(x, y, width, height, color) => [Num(x), Num(y), Num(width), Num(height), Num(color)]
    case FillRectangleReq(x, y, width, height, color) => [Num(x), Num(y), Num(width), Num(height), Num(color)]
    case DrawCircleReq(x, y, radius, color) => [Num(x), Num(y), Num(radius), Num(color)]
    case FillCircleReq(x, y, radius, color) => [Num(x), Num(y), Num(radius), Num(color)]
    case DrawEllipseReq(x, y, width, height, color) => [Num(x), Num(y), Num(width), Num(height), Num(color)]
    case FillEllipseReq(x, y, width, height, color) => [Num(x), Num(y), Num(width), Num(height), Num(color)]
    case DrawTriangleReq(x0, y0, x1, y1, x2, y2, color) => [Num(x0), Num(y0), Num(x1), Num(y1), Num(x2), Num(y2), Num(color)]
    case FillTriangleReq(x0, y0, x1, y1, x2, y2, scolor) => [Num(x0), Num(y0), Num(x1), Num(y1), Num(x2), Num(y2), Num(scolor)]
    case DrawRoundRectangleReq(x, y, width, height, radius, color) => [Num(x), Num(y), Num(width), Num(height), Num(radius), Num(color)]
    case FillRoundRectangleReq(x, y, width, height, radius, color) => [Num(x), Num(y), Num(width), Num(height), Num(radius), Num(color)]
    case FillScreenReq(color) => [Num(color)]
    case OrientationReq(orientation) => [Num(orientation)]
  }

  /** What an entry point does, as intended: the guarded call of its own
      capability with its own arguments. */
  function Effect(driver: Option<DriverTable>, r: Request): seq<Call>
  {
    Dispatch(driver, Target(r), Target(r), Args(r))
  }

  /** What the entry points do as written. fill_circle checks `fill_circle`
      but calls `draw_circle` (gfx_display.c:89-90), and write_string
      passes five arguments, without the background colour
      (gfx_display.c:36). */
  function EffectAsWritten(driver: Option<DriverTable>, r: Request): seq<Call>
  {
    match r
    case FillCircleReq(_, _, _, _) => Dispatch(driver, FillCircle, DrawCircle, Args(r))
    case WriteStringReq(_, _, _, _, _, _) => Dispatch(driver, WriteString, WriteString, Args(r)[..5])
    case _ => Effect(driver, r)
  }

  /** Every request passes as many arguments as the capability it names
      takes. */
  lemma ArgsFit(r: Request)
    ensures |Args(r)| == Arity(Target(r))
  {
  }

  /** Before any table is registered, an entry point has no effect. */
  lemma NoDriverNoCalls(r: Request)
    ensures Effect(None, r) == [] && EffectAsWritten(None, r) == []
  {
  }

  /** With the table and the capability present, the entry point calls that
      capability exactly once with its arguments unchanged; otherwise it
      calls nothing, and no other capability is tried in its place. */
  lemma EffectForwards(driver: Option<DriverTable>, r: Request)
    ensures driver.Some? && Lookup(driver.value, Target(r)).Some? ==>
              Effect(driver, r) == [Invoke(Target(r), Lookup(driver.value, Target(r)).value, Args(r))]
    ensures Effect(driver, r) != [] <==> driver.Some? && Lookup(driver.value, Target(r)).Some?
    ensures forall c :: c in Effect(driver, r) ==> c.Invoke? && c.entry == Target(r) && c.args == Args(r)
  {
  }

  /** The entry points the source writes correctly do what is intended. */
  lemma AsWrittenAgrees(driver: Option<DriverTable>, r: Request)
    requires !r.FillCircleReq? && !r.WriteStringReq?
    ensures EffectAsWritten(driver, r) == Effect(driver, r)
  {
  }

  /** A table whose fill_circle and draw_circle are different functions:
      fill_circle as written calls the outline. */
  function CircleTable(fill: Option<Impl>, draw: Option<Impl>): DriverTable
  {
    DriverTable(None, None, None, None, None, None, None, None, None, None,
                draw, fill, None, None, None, None, None, None, None, None)
  }

  /** As written, fill_circle calls the outline capability, and calls a
      NULL entry when the table has a fill but no outline. */
  lemma FillCircleAsWritten(r: Request)
    requires r.FillCircleReq?
    ensures EffectAsWritten(Some(CircleTable(Some(1), Some(2))), r) == [Invoke(DrawCircle, 2, Args(r))]
    ensures Effect(Some(CircleTable(Some(1), Some(2))), r) == [Invoke(FillCircle, 1, Args(r))]
    ensures EffectAsWritten(Some(CircleTable(Some(1), None)), r) == [NullInvoke(DrawCircle, Args(r))]
  {
  }

  /** As written, write_string's call passes one argument fewer than the
      capability takes and loses the background colour: two requests that differ
      only in it make the same call. */
  lemma WriteStringAsWritten(driver: Option<DriverTable>, x: i16, y: i16, str: seq<byte>, font: Font,
                             color: u16, bg: u16, bg': u16)
    requires driver.Some? && Lookup(driver.value, WriteString).Some?
    ensures var cs := EffectAsWritten(driver, WriteStringReq(x, y, str, font, color, bg));
            |cs| == 1 && |cs[0].args| == Arity(WriteString) - 1
    ensures EffectAsWritten(driver, WriteStringReq(x, y, str, font, color, bg))
            == EffectAsWritten(driver, WriteStringReq(x, y, str, font, color, bg'))
    ensures bg != bg' ==> Effect(driver, WriteStringReq(x, y, str, font, color, bg))
                          != Effect(driver, WriteStringReq(x, y, str, font, color, bg'))
  {
    var a, a' := Args(WriteStringReq(x, y, str, font, color, bg)), Args(WriteStringReq(x, y, str, font, color, bg'));
    assert a[..5] == a'[..5];
    if bg != bg' {
      assert a[5] != a'[5];
    }
  }

  /** A sequence of calls on the dispatcher: registrations and requests. */
  datatype Op = Register(table: Option<DriverTable>) | Request(req: Request)

  /** The table in force after ops, starting from driver. */
  function DriverAfter(driver: Option<DriverTable>, ops: seq<Op>): Option<DriverTable>
    decreases |ops|
  {
    if ops == [] then driver
    else DriverAfter(if ops[0].Register? then ops[0].table else driver, ops[1..])
  }

  /** The capability calls ops make, starting from driver. */
  function Run(driver: Option<DriverTable>, ops: seq<Op>): seq<Call>
    decreases |ops|
  {
    if ops == [] then []
    else if ops[0].Register? then Run(ops[0].table, ops[1..])
    else Effect(driver, ops[0].req) + Run(driver, ops[1..])
  }

  lemma {:induction false} RunAppend(driver: Option<DriverTable>, a: seq<Op>, b: seq<Op>)
    ensures Run(driver, a + b) == Run(driver, a) + Run(DriverAfter(driver, a), b)
    ensures DriverAfter(driver, a + b) == DriverAfter(DriverAfter(driver, a), b)
    decreases |a|
  {
    if a == [] {
      assert a + b == b;
    } else {
      assert (a + b)[0] == a[0] && (a + b)[1..] == a[1..] + b;
      var d := if a[0].Register? then a[0].table else driver;
      RunAppend(d, a[1..], b);
      if !a[0].Register? {
        AppendAssoc(Effect(driver, a[0].req), Run(driver, a[1..]), Run(DriverAfter(driver, a), b));
      }
    }
  }

  /** Registration replaces the table: what follows a registration depends
      only on the table registered, not on what came before. */
  lemma RegisterLatest(driver: Option<DriverTable>, a: seq<Op>, t: Option<DriverTable>, b: seq<Op>)
    ensures Run(driver, a + [Register(t)] + b) == Run(driver, a) + Run(t, b)
  {
    RunAppend(driver, a + [Register(t)], b);
    RunAppend(driver, a, [Register(t)]);
    RunSingle(DriverAfter(driver, a), Register(t));
    assert Run(driver, a) + [] == Run(driver, a);
  }

  predicate NoRegister(ops: seq<Op>)
  {
    forall i :: 0 <= i < |ops| ==> ops[i].Request?
  }

  /** Only registration changes the table. */
  lemma {:induction false} RequestsKeepDriver(driver: Option<DriverTable>, ops: seq<Op>)
    requires NoRegister(ops)
    ensures DriverAfter(driver, ops) == driver
    decreases |ops|
  {
    if ops != [] {
      assert ops[0].Request?;
      RequestsKeepDriver(driver, ops[1..]);
    }
  }

  /** Requests made before any registration have no effect. */
  lemma {:induction false} UnregisteredSilent(ops: seq<Op>)
    requires NoRegister(ops)
    ensures Run(None, ops) == []
    decreases |ops|
  {
    if ops != [] {
      assert ops[0].Request?;
      NoDriverNoCalls(ops[0].req);
      UnregisteredSilent(ops[1..]);
    }
  }

  /** The dispatcher: the static `lcd_driver` reference (gfx_display.c:22)
      and the calls made through it, in order. */
  class Display {
    var driver: Option<DriverTable>
    var calls: seq<Call>

    /** `lcd_driver` starts as NULL. */
    constructor()
      ensures driver == None && calls == []
    {
      driver := None;
      calls := [];
    }

    /** gfx_display.c:24-26. */
    method RegisterDriver(table: Option<DriverTable>)
      modifies this
      ensures driver == table && calls == old(calls)
    {
      driver := table;
    }

    /** The guard and the call of every entry point. */
    method Guarded(guard: Entry, target: Entry, args: seq<Arg>)
      modifies this
      ensures driver == old(driver)
      ensures calls == old(calls) + Dispatch(driver, guard, target, args)
    {
      if driver.Some? && Lookup(driver.value, guard).Some? {
        var f := Lookup(driver.value, target);
        if f.Some? {
          calls := calls + [Invoke(target, f.value, args)];
        } else {
          calls := calls + [NullInvoke(target, args)];
        }
      }
    }

    /** Any entry point as intended. */
    method Perform(r: Request)
      modifies this
      ensures driver == old(driver)
      ensures calls == old(calls) + Effect(old(driver), r)
    {
      Guarded(Target(r), Target(r), Args(r));
    }

    /** gfx_display.c:28-31. */
    method Init()
      modifies this
      ensures driver == old(driver)
      ensures calls == old(calls) + Effect(old(driver), InitReq)
    {
      Guarded(Entry.Init, Entry.Init, []);
    }

    /** gfx_display.c:33-37 as intended, forwarding the background colour. */
    method WriteString(x: i16, y: i16, str: seq<byte>, font: Font, color: u16, bg: u16)
      modifies this
      ensures driver == old(driver)
      ensures calls == old(calls) + Effect(old(driver), WriteStringReq(x, y, str, font, color, bg))
    {
      Guarded(Entry.WriteString, Entry.WriteString, [Num(x), Num(y), Str(str), FontArg(font), Num(color), Num(bg)]);
    }

    /** gfx_display.c:33-37 as written. */
    method WriteStringAsWritten(x: i16, y: i16, str: seq<byte>, font: Font, color: u16, bg: u16)
      modifies this
      ensures driver == old(driver)
      ensures calls == old(calls) + EffectAsWritten(old(driver), WriteStringReq(x, y, str, font, color, bg))
    {
      Guarded(Entry.WriteString, Entry.WriteString, [Num(x), Num(y), Str(str), FontArg(font), Num(color)]);
      assert Args(WriteStringReq(x, y, str, font, color, bg))[..5] == [Num(x), Num(y), Str(str), FontArg(font), Num(color)];
    }

    /** gfx_display.c:39-43. */
    method WriteChar(x: i16, y: i16, ch: byte, font: Font, color: u16, bg: u16)
      modifies this
      ensures driver == old(driver)
      ensures calls == old(calls) + Effect(old(driver), WriteCharReq(x, y, ch, font, color, bg))
    {
      Guarded(Entry.WriteChar, Entry.WriteChar, [Num(x), Num(y), Num(ch), FontArg(font), Num(color), Num(bg)]);
    }

    /** gfx_display.c:45-48. */
    method WritePixel(x: i16, y: i16, color: u16)
      modifies this
      ensures driver == old(driver)
      ensures calls == old(calls) + Effect(old(driver), WritePixelReq(x, y, color))
    {
      Guarded(Entry.WritePixel, Entry.WritePixel, [Num(x), Num(y), Num(color)]);
    }

    /** gfx_display.c:50-54. */
    method DrawImage(x: i16, y: i16, width: i16, height: i16, image: seq<u16>)
      modifies this
      ensures driver == old(driver)
      ensures calls == old(calls) + Effect(old(driver), DrawImageReq(x, y, width, height, image))
    {
      Guarded(Entry.DrawImage, Entry.DrawImage, [Num(x), Num(y), Num(width), Num(height), Pixels(image)]);
    }

    /** gfx_display.c:56-59. */
    method DrawFastVerticalLine(x: i16, y: i16, height: i16, color: u16)
      modifies this
      ensures driver == old(driver)
      ensures calls == old(calls) + Effect(old(driver), DrawFastVerticalLineReq(x, y, height, color))
    {
      Guarded(Entry.DrawFastVerticalLine, Entry.DrawFastVerticalLine, [Num(x), Num(y), Num(height), Num(color)]);
    }

    /** gfx_display.c:61-64. */
    method DrawFastHorizontalLine(x: i16, y: i16, width: i16, color: u16)
      modifies this
      ensures driver == old(driver)
      ensures calls == old(calls) + Effect(old(driver), DrawFastHorizontalLineReq(x, y, width, color))
    {
      Guarded(Entry.DrawFastHorizontalLine, Entry.DrawFastHorizontalLine, [Num(x), Num(y), Num(width), Num(color)]);
    }

    /** gfx_display.c:66-69 (`gfx_display_darw_line`). */
    method DrawLine(x0: i16, y0: i16, x1: i16, y1: i16, color: u16)
      modifies this
      ensures driver == old(driver)
      ensures calls == old(calls) + Effect(old(driver), DrawLineReq(x0, y0, x1, y1, color))
    {
      Guarded(Entry.DrawLine, Entry.DrawLine, [Num(x0), Num(y0), Num(x1), Num(y1), Num(color)]);
    }

    /** gfx_display.c:71-75. */
    method DrawRectangle(x: i16, y: i16, width: i16, height: i16, color: u16)
      modifies this
      ensures driver == old(driver)
      ensures calls == old(calls) + Effect(old(driver), DrawRectangleReq(x, y, width, height, color))
    {
      Guarded(Entry.DrawRectangle, Entry.DrawRectangle, [Num(x), Num(y), Num(width), Num(height), Num(color)]);
    }

    /** gfx_display.c:77-81. */
    method FillRectangle(x: i16, y: i16, width: i16, height: i16, color: u16)
      modifies this
      ensures driver == old(driver)
      ensures calls == old(calls) + Effect(old(driver), FillRectangleReq(x, y, width, height, color))
    {
      Guarded(Entry.FillRectangle, Entry.FillRectangle, [Num(x), Num(y), Num(width), Num(height), Num(color)]);
    }

    /** gfx_display.c:83-86. */
    method DrawCircle(x: i16, y: i16, radius: i16, color: u16)
      modifies this
      ensures driver == old(driver)
      ensures calls == old(calls) + Effect(old(driver), DrawCircleReq(x, y, radius, color))
    {
      Guarded(Entry.DrawCircle, Entry.DrawCircle, [Num(x), Num(y), Num(radius), Num(color)]);
    }

    /** gfx_display.c:88-91 as intended, calling the fill capability. */
    method FillCircle(x: i16, y: i16, radius: i16, color: u16)
      modifies this
      ensures driver == old(driver)
      ensures calls == old(calls) + Effect(old(driver), FillCircleReq(x, y, radius, color))
    {
      Guarded(Entry.FillCircle, Entry.FillCircle, [Num(x), Num(y), Num(radius), Num(color)]);
    }

    /** gfx_display.c:88-91 as written. */
    method FillCircleAsWritten(x: i16, y: i16, radius: i16, color: u16)
      modifies this
      ensures driver == old(driver)
      ensures calls == old(calls) + EffectAsWritten(old(driver), FillCircleReq(x, y, radius, color))
    {
      Guarded(Entry.FillCircle, Entry.DrawCircle, [Num(x), Num(y), Num(radius), Num(color)]);
    }

    /** gfx_display.c:93-96. */
    method DrawEllipse(x: i16, y: i16, width: i16, height: i16, color: u16)
      modifies this
      ensures driver == old(driver)
      ensures calls == old(calls) + Effect(old(driver), DrawEllipseReq(x, y, width, height, color))
    {
      Guarded(Entry.DrawEllipse, Entry.DrawEllipse, [Num(x), Num(y), Num(width), Num(height), Num(color)]);
    }

    /** gfx_display.c:98-101. */
    method FillEllipse(x: i16, y: i16, width: i16, height: i16, color: u16)
      modifies this
      ensures driver == old(driver)
      ensures calls == old(calls) + Effect(old(driver), FillEllipseReq(x, y, width, height, color))
    {
      Guarded(Entry.FillEllipse, Entry.FillEllipse, [Num(x), Num(y), Num(width), Num(height), Num(color)]);
    }

    /** gfx_display.c:103-107. */
    method DrawTriangle(x0: i16, y0: i16, x1: i16, y1: i16, x2: i16, y2: i16, color: u16)
      modifies this
      ensures driver == old(driver)
      ensures calls == old(calls) + Effect(old(driver), DrawTriangleReq(x0, y0, x1, y1, x2, y2, color))
    {
      Guarded(Entry.DrawTriangle, Entry.DrawTriangle, [Num(x0), Num(y0), Num(x1), Num(y1), Num(x2), Num(y2), Num(color)]);
    }

    /** gfx_display.c:109-113; the colour is an `int16_t` here. */
    method FillTriangle(x0: i16, y0: i16, x1: i16, y1: i16, x2: i16, y2: i16, color: i16)
      modifies this
      ensures driver == old(driver)
      ensures calls == old(calls) + Effect(old(driver), FillTriangleReq(x0, y0, x1, y1, x2, y2, color))
    {
      Guarded(Entry.FillTriangle, Entry.FillTriangle, [Num(x0), Num(y0), Num(x1), Num(y1), Num(x2), Num(y2), Num(color)]);
    }

    /** gfx_display.c:115-119. */
    method DrawRoundRectangle(x: i16, y: i16, width: i16, height: i16, radius: i16, color: u16)
      modifies this
      ensures driver == old(driver)
      ensures calls == old(calls) + Effect(old(driver), DrawRoundRectangleReq(x, y, width, height, radius, color))
    {
      Guarded(Entry.DrawRoundRectangle, Entry.DrawRoundRectangle, [Num(x), Num(y), Num(width), Num(height), Num(radius), Num(color)]);
    }

    /** gfx_display.c:121-125. */
    method FillRoundRectangle(x: i16, y: i16, width: i16, height: i16, radius: i16, color: u16)
      modifies this
      ensures driver == old(driver)
      ensures calls == old(calls) + Effect(old(driver), FillRoundRectangleReq(x, y, width, height, radius, color))
    {
      Guarded(Entry.FillRoundRectangle, Entry.FillRoundRectangle, [Num(x), Num(y), Num(width), Num(height), Num(radius), Num(color)]);
    }

    /** gfx_display.c:127-130. */
    method FillScreen(color: u16)
      modifies this
      ensures driver == old(driver)
      ensures calls == old(calls) + Effect(old(driver), FillScreenReq(color))
    {
      Guarded(Entry.FillScreen, Entry.FillScreen, [Num(color)]);
    }

    /** gfx_display.c:132-135. */
    method SetOrientation(orientation: int)
      modifies this
      ensures driver == old(driver)
      ensures calls == old(calls) + Effect(old(driver), OrientationReq(orientation))
    {
      Guarded(Entry.Orientation, Entry.Orientation, [Num(orientation)]);
    }

    /** A sequence of operations on the dispatcher makes the calls Run
        describes and leaves the table DriverAfter names. */
    method Replay(ops: seq<Op>)
      modifies this
      ensures driver == DriverAfter(old(driver), ops)
      ensures calls == old(calls) + Run(old(driver), ops)
    {
      var i := 0;
      ghost var start, d0 := calls, driver;
      while i < |ops|
        invariant 0 <= i <= |ops|
        invariant driver == DriverAfter(d0, ops[..i])
        invariant calls == start + Run(d0, ops[..i])
        decreases |ops| - i
      {
        ghost var before := calls;
        ghost var dBefore := driver;
        if ops[i].Register? {
          RegisterDriver(ops[i].table);
        } else {
          Perform(ops[i].req);
        }
        RunSingle(dBefore, ops[i]);
        ReplayStep(d0, ops, i);
        AppendAssoc(start, Run(d0, ops[..i]), Run(dBefore, [ops[i]]));
        i := i + 1;
      }
      assert ops[..i] == ops;
    }
  }

  lemma RunSingle(driver: Option<DriverTable>, op: Op)
    ensures Run(driver, [op]) == if op.Register? then [] else Effect(driver, op.req)
    ensures DriverAfter(driver, [op]) == if op.Register? then op.table else driver
  {
    assert [op][1..] == [];
    if !op.Register? {
      assert Effect(driver, op.req) + [] == Effect(driver, op.req);
    }
  }

  /** One more operation, in the terms of Replay's loop. */
  lemma ReplayStep(d0: Option<DriverTable>, ops: seq<Op>, i: nat)
    requires i < |ops|
    ensures Run(d0, ops[..i + 1]) == Run(d0, ops[..i]) + Run(DriverAfter(d0, ops[..i]), [ops[i]])
    ensures DriverAfter(d0, ops[..i + 1]) == DriverAfter(DriverAfter(d0, ops[..i]), [ops[i]])
  {
    assert ops[..i + 1] == ops[..i] + [ops[i]];
    RunAppend(d0, ops[..i], [ops[i]]);
  }
}
