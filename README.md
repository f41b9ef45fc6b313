# GC9A01A rendering engine and display dispatcher

This project models the drawing core of a driver for the GC9A01A 240×240
round TFT controller, together with the generic `gfx_display` layer that
forwards drawing calls to whichever driver is registered.

**The driver (`gc9a01a.c`).** The driver sends commands and data to the controller.
- The model keeps the traffic as a log of events: `Command(op)` for one opcode
  byte and `Data(bytes)` for one data transfer.
- It lives in the class `Panel.Gc9a01a`, whose methods append to `log`.
- DMA is switched off (`USE_DMA` is 0), so every transfer completes before the
  next one starts.

Everything the driver draws comes down to three kinds of traffic:
- an address window: CASET with the four column bytes, RASET with the four
  row bytes, then RAMWR;
- a stream of 16-bit colours, high byte first;
- calls of `write_pixel`, which sends a one-pixel window and one colour, and
  silently rejects points right of or below the surface.

Each shape method is proved against a pure function giving the points it
passes to `write_pixel`, in order:
`log == old(log) + Plot(ShapePoints(..), color)`. The geometric properties
are proved as lemmas about those point sequences:
- the extent of a line;
- the symmetry of circles, ellipses and round rectangles;
- the exact cell set of rectangles;
- the quadrants selected by corner bits.

A decoder (`Protocol.Transfers`) reads a log back as a list of
(window, colours) transfers. The byte-level encodings are proved to
round-trip through it.

**The dispatcher (`gfx_display.c`).** The dispatcher holds one replaceable
reference to a driver's capability table.
- Each entry point calls the table's matching capability with its arguments
  unchanged.
- It does this only when both the table and the capability are present, and
  otherwise does nothing.
- The class `GfxDisplay.Display` keeps the reference as an `Option` and the
  forwarded calls as a log.
- `Run` and `DriverAfter` give the effect of a whole sequence of operations.

**Intended forms.** Much of the driver source does not compile or is evidently
mistyped. Where it is, the model follows the evident intent; each such place
is cited in a comment at the member concerned. Where the intended and the
written behaviour can both be stated, both are modelled; see "## Findings".

Coordinates are unbounded integers. The conversions the program makes
explicitly are modelled:
- `uint16_t` parameters of `set_address_window` and `write_char` (`Common.ToU16`);
- the `int16_t` cursor of `write_string` (`Common.Wrap16`).

## Model

| member | source | states |
|---|---|---|
| Common.ToU16 | gc9a01a.c:101 | a coordinate passed as `uint16_t` keeps its value in range and is otherwise congruent to it modulo 2^16 |
| Common.Wrap16 | gc9a01a.c:464-465 | storing into an `int16_t` yields a value in range, unchanged if it already fits, and congruent modulo 2^16 |
| Protocol.Split16 | gc9a01a.c:103 | a 16-bit value is sent as exactly two bytes |
| Protocol.SplitJoin | gc9a01a.c:103 | the high-byte-then-low-byte split loses nothing: joining the bytes gives back every 16-bit value |
| Protocol.JoinSplit | gc9a01a.c:103 | every pair of bytes is the split of exactly one 16-bit value |
| Protocol.WindowEvents | gc9a01a.c:101-107 | an address window is five events, opened by CASET and closed by RAMWR |
| Protocol.WindowEventsU16 | gc9a01a.c:101 | the window depends on its coordinates only modulo 2^16 |
| Protocol.WindowRoundTrip | gc9a01a.c:101-107 | the controller decodes the window events as exactly the window requested, with four bytes per coordinate pair |
| Protocol.WindowAsWrittenOmitsRows | gc9a01a.c:105-106 | as written, the row bytes are built but RASET is never sent: three events, no RASET, and no window can be decoded |
| Protocol.Stream | gc9a01a.c:443-448 | a colour stream is one two-byte data transfer per colour, in order |
| Protocol.StreamAppend | gc9a01a.c:436-451 | streaming two runs of colours is streaming their concatenation |
| Protocol.PixelWindowAsWrittenTooLarge | gc9a01a.c:491 | as written, write_pixel opens a 2×2 window (area 4) but streams a single colour |
| Protocol.PlotAppend | gc9a01a.c:487-498 | pixel writes are independent: plotting a concatenation is the concatenation of the plots |
| Protocol.PlotRejected | gc9a01a.c:488-489 | points right of or below the surface send nothing at all |
| Protocol.ColourRun | gc9a01a.c:492-493 | the colour run at the head of a log is maximal: all its events are colours and the next one is not |
| Protocol.Colours | gc9a01a.c:492-493 | decoding n colour events gives n colours |
| Protocol.ColourRunStream | gc9a01a.c:443-448 | a stream followed by a command is decoded as a run of exactly its colours |
| Protocol.ColoursOfStream | gc9a01a.c:443-448 | decoding a stream gives back the colours streamed (round trip) |
| Protocol.TransferChunk | gc9a01a.c:101-107 | a window followed by a colour stream decodes as one transfer of those colours into that window |
| Protocol.PixelTransfers | gc9a01a.c:487-498 | the transfers of a point sequence are one-pixel transfers of accepted points only |
| Protocol.PlotHead | gc9a01a.c:491 | the traffic of a point sequence is empty or starts with CASET |
| Protocol.PlotDecodes | gc9a01a.c:487-498 | plotting a point sequence decodes as one one-pixel transfer per accepted point, in order |
| Protocol.OrientationByte | gc9a01a.c:404-418 | LANDSCAPE selects MV\|BGR and PORTRAIT selects MX\|BGR; any other value leaves the MADCTL byte 0, each in both directions |
| Line.Normalise | gc9a01a.c:523-547 | after normalisation x0 ≤ x1, 0 ≤ dy ≤ dx, ystep is ±1, the line is steep exactly when \|Δy\| > \|Δx\|, and dx and dy are the major and minor extents |
| Line.NormaliseEndpoints | gc9a01a.c:523-534 | the normalised endpoints are the requested endpoints, possibly exchanged |
| Line.RunNext | gc9a01a.c:549-562 | one step of the loop: the current point, then the rest of the run from the stepped error and minor coordinate |
| Line.RunDone | gc9a01a.c:549 | the loop stops once the major coordinate passes x1 |
| Line.StepCount | gc9a01a.c:556-561 | with the error term in [0, dx), the minor coordinate has stepped at most dy times, and exactly dy times at the last column |
| Line.RunInvStep | gc9a01a.c:556-561 | the loop invariant tying err, the minor coordinate and the step count is preserved by one step |
| Line.RunInvBound | gc9a01a.c:549-562 | under the invariant the minor coordinate stays between the endpoints and has stepped exactly dy times at x1 |
| Line.RunLength | gc9a01a.c:549 | the run from x has x1 − x + 1 points |
| Line.RunMajor | gc9a01a.c:549 | the j-th point of a run has major coordinate x + j |
| Line.RunEnds | gc9a01a.c:549-562 | a run starts at its current point and ends at the far endpoint |
| Line.RunBetween | gc9a01a.c:556-561 | every point's minor coordinate lies between the endpoints' |
| Line.RunSteps | gc9a01a.c:556-561 | consecutive points differ in the minor coordinate by 0 or ystep |
| Line.RunStart | gc9a01a.c:536-547 | the loop invariant holds with err = dx/2 at the first column |
| Line.LineShape | gc9a01a.c:522-562 | draw_line writes dx + 1 points, one per major column from endpoint to endpoint, minor coordinate within the endpoints, moving by 0 or ystep |
| Line.LineEndpoints | gc9a01a.c:522-562 | the line has max(\|Δx\|, \|Δy\|) + 1 points and runs from one requested endpoint to the other |
| Line.LineSinglePoint | gc9a01a.c:522-562 | a line from a point to itself is that single point |
| Line.LineConnected | gc9a01a.c:549-562 | consecutive points are 8-connected, stepping by exactly 1 along the major axis |
| Line.LineInBox | gc9a01a.c:522-562 | every point lies in the bounding box of the endpoints |
| Line.LineReversible | gc9a01a.c:530-534 | swapping the endpoints draws the same sequence of points |
| Line.HorizontalLine | gc9a01a.c:522-562 | a horizontal line is the run of cells between its ends, left to right |
| Line.VerticalLine | gc9a01a.c:522-562 | a vertical line is the run of cells between its ends, top to bottom |
| Line.LineAsWrittenDrawsNothing | gc9a01a.c:549 | as written, the loop guard `x_0 > x_1` is false after normalisation, so no point would be drawn, while the intended line has at least one point |
| Line.VLineShape | gc9a01a.c:569-575 | a fast vertical line of height h ≥ 1 is the h cells below (x, y); a non-positive height draws the line through y + h − 1 up to y |
| Line.HLineShape | gc9a01a.c:577-583 | a fast horizontal line of width w ≥ 1 is the w cells right of (x, y); a non-positive width is mirrored the same way |
| Line.HLineRow | gc9a01a.c:577-583 | a fast horizontal line stays in its row |
| Line.HLineCells | gc9a01a.c:577-583 | the horizontal line's cells are exactly those of its row between x and x + w − 1 (both directions) |
| Line.VLineCells | gc9a01a.c:569-575 | the vertical line's cells are exactly those of its column between y and y + h − 1 (both directions) |
| Rect.RectOutline | gc9a01a.c:585-594 | draw_rectangle paints exactly the border cells of the rectangle, in both directions |
| Rect.FillRows | gc9a01a.c:596-603 | fill_rectangle stays within rows y to y + height − 1 |
| Rect.FillCovers | gc9a01a.c:596-603 | fill_rectangle paints exactly the cells of the rectangle, in both directions |
| Rect.GridLength | gc9a01a.c:596-603 | a grid of height h and width w has h·w cells |
| Rect.GridAt | gc9a01a.c:596-603 | cell (r, c) of a grid sits at row-major index r·w + c |
| Rect.FillIsGrid | gc9a01a.c:596-603 | fill_rectangle paints row by row, left to right in each row |
| Rect.GridRowMajor | gc9a01a.c:596-603 | every cell of the grid is at its row-major position and the grid has exactly h·w cells |
| Rect.OutlineInsideFill | gc9a01a.c:585-603 | every cell of the outline is painted by the fill of the same rectangle |
| Rect.FillFromOrigin | gc9a01a.c:959-965 | a fill from the origin paints exactly the cells of [0, w) × [0, h) row by row, and every one is on the surface |
| Rect.RowsBelowSurface | gc9a01a.c:488-489 | a fill that starts below the surface sends nothing |
| Rect.FillScreenAsWrittenSendsNothing | gc9a01a.c:960 | as written, fill_screen fills from row 240 and sends nothing |
| Rect.FillReflect | gc9a01a.c:596-603 | a fill is its own mirror image in its vertical centre line |
| Rect.HLineReflect | gc9a01a.c:577-583 | a horizontal line is its own mirror image in its centre |
| Circle.CircleNext | gc9a01a.c:611-628 | one step of draw_circle: the eight octant points, then the rest from the stepped decision |
| Circle.DrawInvStep | gc9a01a.c:622-628 | the midpoint invariant relating d, xd, yd and the radius is preserved by each step |
| Circle.OctantsNear | gc9a01a.c:613-620 | every octant point written lies in the radius box, its squared distance at most r² plus its larger offset (about half a cell outside the circle) and at least r² − 3r (about one and a half cells inside) |
| Circle.CircleRunNear | gc9a01a.c:611-629 | every point the loop writes is at most about half a cell outside and one and a half cells inside the circle of the radius, both bounds kept by the decision variable |
| Circle.CircleNearRadius | gc9a01a.c:605-635 | every point draw_circle writes has squared distance from the centre between r² − 3r and r² plus its larger offset |
| Circle.CircleRunSymmetric | gc9a01a.c:611-629 | the loop's points are closed under both axis reflections and the diagonal |
| Circle.OctantsSymmetric | gc9a01a.c:613-620 | each step's eight points are closed under both axis reflections and the diagonal |
| Circle.CircleSymmetric | gc9a01a.c:605-635 | draw_circle's point set is closed under both axis reflections and the diagonal about the centre |
| Circle.CircleExtremes | gc9a01a.c:605-620 | a negative radius writes nothing; otherwise the first eight points are the first octant step, and the four axis points at the radius are written |
| Circle.FillNext | gc9a01a.c:645-661 | one step of fill_circle: the four spans, then the rest from the stepped decision |
| Circle.FillInvStep | gc9a01a.c:653-661 | the midpoint invariant of fill_circle is preserved by each step |
| Circle.FillRunNear | gc9a01a.c:645-662 | every span ends near the circle, and each span at dy has its twin at −dy |
| Circle.FillCircleSpansNear | gc9a01a.c:637-667 | every span of fill_circle ends near the circle, and each span is paired with its reflection in the centre row |
| Circle.FillCircleShape | gc9a01a.c:637-667 | the filled circle is mirror-symmetric, is exactly the union of its spans, is empty for a negative radius, and contains the whole diameter through the centre row |
| Columns.ColumnsAppend | gc9a01a.c:936-950 | painting two lists of columns is painting their concatenation |
| Columns.VLineColumn | gc9a01a.c:569-575 | a fast vertical line stays in its column |
| Columns.ColumnsColumn | gc9a01a.c:936-950 | every cell painted by a list of columns lies in one of them |
| Columns.VLineReflect | gc9a01a.c:569-575 | a vertical line mirrored in an axis is the same line at the mirrored column |
| Columns.MirrorsConcat | gc9a01a.c:936-950 | concatenations preserve column mirroring |
| Columns.ColumnsReflect | gc9a01a.c:936-950 | mirrored column lists paint mirrored cell sets |
| Columns.ColumnsMember | gc9a01a.c:936-950 | every cell of a listed column is painted |
| Corner.CornerPixelsAt | gc9a01a.c:867-886 | one corner step writes the point pairs of the selected bits, in the source's order 4, 2, 8, 1 |
| Corner.CornerNext | gc9a01a.c:856-887 | one step of the corner loop: the stepped (xc, yc) point pairs, then the rest |
| Corner.CornerInvInit | gc9a01a.c:850-854 | the corner invariant holds at f = 1 − r, xc = 0, yc = r |
| Corner.CornerInvStep | gc9a01a.c:858-866 | the f/ddF_x/ddF_y update preserves the corner invariant |
| Corner.CornerStepNear | gc9a01a.c:858-866 | each stepped point is on the quarter arc of radius r, within the midpoint error |
| Corner.NearArcSymmetric | gc9a01a.c:867-886 | nearness to the arc survives every reflection and the exchange of offsets |
| Corner.CornerPixelsImages | gc9a01a.c:867-886 | every corner pixel is an octant image of the step's offsets |
| Corner.NearArcImage | gc9a01a.c:867-886 | octant images of an arc point are arc points |
| Corner.AllNearConcat | gc9a01a.c:856-887 | nearness to the arc is kept by concatenation |
| Corner.CornerPixelsNear | gc9a01a.c:867-886 | every pixel a step writes is near the arc |
| Corner.CornerRunNear | gc9a01a.c:856-887 | every pixel the corner loop writes lies on the arc of radius r about (x, y) |
| Corner.CornerPixelsQuadrant | gc9a01a.c:867-886 | a single corner bit writes only into its own quadrant |
| Corner.CornerRunQuadrant | gc9a01a.c:856-887 | a single corner bit's loop writes only into its own quadrant |
| Corner.CornerPixelsSplit | gc9a01a.c:867-886 | a mask writes exactly the union of what its set bits write alone |
| Corner.CornerRunSplit | gc9a01a.c:856-887 | the corner loop of a mask writes exactly the union of its bits' loops |
| Corner.SingleBitPixels | gc9a01a.c:867-886 | each corner bit writes exactly its two octant pixels, in source order |
| Corner.CornerPixelsReflect | gc9a01a.c:867-886 | mirror-paired masks about mirrored centres write mirrored pixels |
| Corner.CornerRunReflect | gc9a01a.c:856-887 | mirror-paired masks about mirrored centres draw mirrored corners |
| Corner.FillCornerStepAt | gc9a01a.c:936-950 | one fill step paints the column pair at x when x < y + 1, then the pair at the old y when y changed |
| Corner.FillCornerNext | gc9a01a.c:923-952 | one step of fill_round_corner: that step's columns, then the rest |
| Corner.FillCornerRunSides | gc9a01a.c:936-950 | corner 1 paints only columns right of x0 and corner 2 only left of it, within r |
| Corner.ColumnPairReflect | gc9a01a.c:938-948 | bits 1 and 2 paint the same column pair mirrored |
| Corner.FillCornerStepReflect | gc9a01a.c:936-950 | one fill step of bit 1 mirrors one of bit 2 |
| Corner.FillCornerRunReflect | gc9a01a.c:923-952 | the fill loops of bits 1 and 2 about mirrored centres paint mirrored columns |
| Corner.FillCornerColumnSides | gc9a01a.c:911-957 | every column of a filled corner is on its bit's side of x0 |
| CornerShape.CornerNear | gc9a01a.c:848-892 | every pixel draw_round_corner writes lies on the arc of radius r about (x, y) |
| CornerShape.CornerQuadrant | gc9a01a.c:867-886 | each corner bit 1, 2, 4 or 8 writes only into one quadrant |
| CornerShape.CornerMask | gc9a01a.c:867-886 | a mask draws exactly the union of the corners of its set bits |
| CornerShape.CornerReflect | gc9a01a.c:848-892 | mirror-paired masks about mirrored centres draw mirror-image corners |
| CornerShape.FillCornerSides | gc9a01a.c:936-950 | fill_round_corner with bit 1 paints right of x0 and with bit 2 left of it, within r |
| CornerShape.FillCornerReflect | gc9a01a.c:911-957 | bits 1 and 2 about mirrored centres paint mirror-image filled corners |
| RoundRect.ClampRadius | gc9a01a.c:828-830 | the clamped radius never exceeds min(width, height)/2, is the request when that is smaller and the bound otherwise, and is at most half the shorter side |
| RoundRect.ClampIdempotent | gc9a01a.c:896-898 | clamping twice equals clamping once, and all requests at or beyond the bound clamp alike |
| RoundRect.FrameOf | gc9a01a.c:832-841 | the frame of sides and corner centres is centred on the rectangle's vertical axis |
| RoundRectShape.RoundSidesSymmetric | gc9a01a.c:832-835 | the four straight sides are mirror-symmetric about the vertical axis |
| RoundRectShape.RoundCornersSymmetric | gc9a01a.c:838-841 | the four corners are mirror-symmetric about the vertical axis |
| RoundRectShape.RoundFillSymmetric | gc9a01a.c:900-904 | the filled middle and the two filled corners are mirror-symmetric together |
| RoundRectShape.RoundRectLargeRadius | gc9a01a.c:828-830 | a round rectangle with a radius beyond the bound is drawn and filled exactly as with the clamp value |
| RoundRectShape.RoundRectZeroRadius | gc9a01a.c:826-909 | radius 0 draws the cells of the plain rectangle outline and fills exactly as fill_rectangle |
| RoundRectShape.DrawRoundRectSymmetric | gc9a01a.c:826-846 | draw_round_rectangle is its own mirror image in the rectangle's vertical centre line |
| RoundRectShape.FillRoundRectSymmetric | gc9a01a.c:894-909 | fill_round_rectangle is its own mirror image in the rectangle's vertical centre line |
| Ellipse.Region1Enter | gc9a01a.c:677 | region 1 is entered only above the centre row |
| Ellipse.DrawRegion1Next | gc9a01a.c:677-691 | one region-1 step: the four quadrant points, then the rest, with the termination measure decreasing |
| Ellipse.DrawRegion2Next | gc9a01a.c:697-711 | one region-2 step: the four quadrant points, then the rest |
| Ellipse.EllipseSplit | gc9a01a.c:669-712 | draw_ellipse is region 1 from (0, height), then region 2 from where region 1 stops |
| Ellipse.QuadrantsClosed | gc9a01a.c:679-682 | each step's four points are closed under both axis reflections |
| Ellipse.Region1Step | gc9a01a.c:677-691 | within region 1 the row offset stays non-negative and the loop measure decreases |
| Ellipse.DrawRegion1Facts | gc9a01a.c:677-692 | region 1 is 4-way symmetric, stays within its start row, ends at a non-negative row, and is empty exactly when the guard fails at once |
| Ellipse.DrawRegion2Facts | gc9a01a.c:695-712 | region 2 is 4-way symmetric, stays within its start row, and is empty below the centre |
| Ellipse.DrawRegion2Ends | gc9a01a.c:697-703 | region 2 starts with its first quadrant points and reaches the centre row |
| Ellipse.EllipseSymmetric | gc9a01a.c:669-717 | the ellipse is closed under both axis reflections and stays within height rows of the centre |
| Ellipse.EllipseNegative | gc9a01a.c:669-717 | a negative height draws nothing |
| Ellipse.EllipseEnds | gc9a01a.c:669-717 | the ellipse starts at the ends of its vertical axis and reaches the centre row |
| Ellipse.Region1Doubled | gc9a01a.c:672-689 | the doubled coefficients twoRw2 and twoRh2 give the same guard and decision updates |
| Ellipse.FillRegion1Next | gc9a01a.c:728-740 | one region-1 fill step: the pair of rows drawn when the decision is non-negative, then the rest |
| Ellipse.FillRegion2Next | gc9a01a.c:745-758 | one region-2 fill step: the spans at +y and −y, then the rest |
| Ellipse.FillEllipseSplit | gc9a01a.c:719-759 | fill_ellipse is region 1 from (0, height), then region 2 from where it stops |
| Ellipse.FillRegion1Facts | gc9a01a.c:728-741 | region 1 spans come in ±dy pairs within the start row |
| Ellipse.FillRegion2Facts | gc9a01a.c:744-759 | region 2 spans come in ±dy pairs within the start row, none below the centre |
| Ellipse.FillRegion2Centre | gc9a01a.c:745-750 | region 2 spans the centre row |
| Ellipse.FillEllipseNegative | gc9a01a.c:719-764 | a negative height fills nothing |
| Ellipse.FillEllipseSpansShape | gc9a01a.c:719-764 | the spans come in ±dy pairs, stay within height rows and include the centre row |
| Ellipse.FillEllipseShape | gc9a01a.c:719-764 | the filled ellipse is closed under both axis reflections, stays within height rows, and contains the centre |
| Spans.SpansAppend | gc9a01a.c:648-651 | painting two lists of spans is painting their concatenation |
| Spans.SpanShape | gc9a01a.c:648-651 | a span of half-width h is the 2h + 1 cells of its row centred on the centre column |
| Spans.SpansCover | gc9a01a.c:645-662 | the cells painted by a list of spans are exactly the union of the spans |
| Spans.SpansSymmetric | gc9a01a.c:647-651 | spans paired at ±dy paint a set closed under both axis reflections |
| Text.ShiftTestBit | gc9a01a.c:441 | the test `(b << j) & 0x8000` holds exactly when j ≤ 15 and bit 15 − j of b is set |
| Text.ShiftLow | gc9a01a.c:441 | for j ≤ 15 the shift test reads bit 15 − j |
| Text.ShiftHigh | gc9a01a.c:441 | for 16 ≤ j < 32 the shift test is always false |
| Text.RowsAt | gc9a01a.c:436-451 | the glyph colours are row by row: entry i·width + j is column j of row i |
| Text.GlyphPixel | gc9a01a.c:436-451 | write_char streams height·width colours, where column j of row i is `color` exactly when bit 15 − j of the glyph row is set, else `bgcolor` |
| Text.CharDecodes | gc9a01a.c:430-456 | write_char decodes as one transfer of the glyph's colours into the window of width × height at (x, y) |
| Text.CharFillsWindow | gc9a01a.c:430-456 | on the surface, the window write_char opens holds exactly its colours |
| Text.RowsLength | gc9a01a.c:436-451 | n glyph rows are n·width colours |
| Text.CharWindowAsWrittenTooSmall | gc9a01a.c:434 | as written, the window is font.width tall: a 7×10 font opens a 49-cell window for 70 colours |
| Text.LayoutBounds | gc9a01a.c:460-480 | every placed glyph fits before the right edge or starts a row, and is on the first row or fits above the bottom edge |
| Text.LayoutChars | gc9a01a.c:460-480 | write_string draws at most one glyph per character, each one from the string |
| Text.LayoutHead | gc9a01a.c:477-479 | a character that fits is drawn at the cursor and the cursor advances by the font width |
| Text.LayoutOneRow | gc9a01a.c:460-480 | a string that fits on its row is drawn glyph k at x + k·width, in string order |
| Text.LayoutDrawable | gc9a01a.c:438 | when every character of the string has rows in the font, so does every glyph the layout places |
| Triangle.TriangleVertices | gc9a01a.c:766-775 | draw_triangle paints all three vertices |
| Triangle.TriangleInBox | gc9a01a.c:766-775 | draw_triangle stays within the bounding box of its vertices |
| Triangle.EdgeInBox | gc9a01a.c:768-770 | each edge stays within any box holding both its ends |
| Triangle.SortByY | gc9a01a.c:780-794 | the three compare-and-swaps leave y0 ≤ y1 ≤ y2, the vertices a permutation of the input, and sorted input unchanged |
| Image.ImageColours | gc9a01a.c:511-515 | draw_image streams exactly as many colours as the clipped window holds, from the start of the buffer, for any signed size whose clipped product is not negative |
| Image.RequestedSizeFits | gc9a01a.c:500-515 | for non-negative sizes, a buffer of width·height colours satisfies what draw_image reads |
| Image.ImageNonPositive | gc9a01a.c:504-513 | sizes that are not positive are not clipped: the window runs back from the origin and the product of the signed sizes is the colour count (−2 by −3 streams six, a zero height none) |
| Image.ImageClipped | gc9a01a.c:502-507 | an image placed on the surface has a window inside the surface and no larger than requested |
| Image.ImageDecodes | gc9a01a.c:500-520 | draw_image decodes as one transfer of the clipped buffer into the clipped window |
| Image.ImageFills | gc9a01a.c:509-515 | the colours streamed fill the clipped window exactly |
| Image.ImageHeightAsWritten | gc9a01a.c:506-507 | as written, the height clip uses x: at (0, 100) the window runs past row 239, and at (200, 10) rows on the surface are lost |
| Panel.Gc9a01a.constructor | gc9a01a.c:58-82 | a new panel has sent nothing |
| Panel.Gc9a01a.WriteCommand | gc9a01a.c:58-63 | appends one command byte |
| Panel.Gc9a01a.WriteData | gc9a01a.c:65-82 | appends one data transfer of the given bytes |
| Panel.Gc9a01a.SetAddressWindow | gc9a01a.c:101-107 | appends the five window events |
| Panel.Gc9a01a.SetOrientation | gc9a01a.c:404-418 | appends CASET and RASET each with the full range 0x0000–0x00F0, then MADCTL with the orientation byte |
| Panel.Gc9a01a.WritePixel | gc9a01a.c:487-498 | appends nothing for a rejected point, else one window and one colour |
| Panel.Gc9a01a.WriteGlyphRow | gc9a01a.c:439-450 | streams the width colours of one glyph row |
| Panel.Gc9a01a.WriteChar | gc9a01a.c:430-456 | appends a window and the glyph's colours row by row |
| Panel.Gc9a01a.WriteString | gc9a01a.c:458-485 | appends the glyphs of the word-wrapped layout, in string order |
| Panel.Gc9a01a.WriteStringGlyph | gc9a01a.c:477 | drawing one more glyph extends the string's log by that glyph's events |
| Panel.Gc9a01a.DrawImage | gc9a01a.c:500-520 | appends the clipped window and the clipped buffer |
| Panel.Gc9a01a.DrawLine | gc9a01a.c:522-567 | writes exactly the pixels of the Bresenham line, in order |
| Panel.Gc9a01a.DrawFastVLine | gc9a01a.c:569-575 | writes the vertical line's pixels |
| Panel.Gc9a01a.DrawFastHLine | gc9a01a.c:577-583 | writes the horizontal line's pixels |
| Panel.Gc9a01a.DrawRectangle | gc9a01a.c:585-594 | writes the four sides, left, top, right, bottom |
| Panel.Gc9a01a.FillRectangle | gc9a01a.c:596-603 | writes the rectangle row by row |
| Panel.Gc9a01a.DrawCircle | gc9a01a.c:605-635 | writes the eight octant points of each midpoint step |
| Panel.Gc9a01a.DrawQuadSpans | gc9a01a.c:648-651 | writes one fill_circle step's four spans |
| Panel.Gc9a01a.FillCircle | gc9a01a.c:637-667 | writes the spans of every midpoint step |
| Panel.Gc9a01a.DrawEllipse | gc9a01a.c:669-717 | writes region 1 then region 2 |
| Panel.Gc9a01a.DrawEllipseRegion1 | gc9a01a.c:676-692 | writes region 1 and returns the offsets it stops at |
| Panel.Gc9a01a.DrawEllipseRegion2 | gc9a01a.c:694-712 | writes region 2 from the given offsets |
| Panel.Gc9a01a.FillEllipse | gc9a01a.c:719-764 | writes the spans of both regions |
| Panel.Gc9a01a.DrawSpanPair | gc9a01a.c:747-748 | writes the spans at +y and −y |
| Panel.Gc9a01a.FillEllipseRegion1 | gc9a01a.c:727-741 | writes region 1's spans and returns where it stops |
| Panel.Gc9a01a.FillEllipseRegion2 | gc9a01a.c:743-759 | writes region 2's spans |
| Panel.Gc9a01a.DrawTriangle | gc9a01a.c:766-775 | writes the three edges |
| Panel.Gc9a01a.WriteCornerPixels | gc9a01a.c:867-886 | writes one corner step's selected pairs |
| Panel.Gc9a01a.DrawRoundCorner | gc9a01a.c:848-892 | writes the selected corners' arcs |
| Panel.Gc9a01a.DrawRoundRect | gc9a01a.c:826-846 | writes the four sides and the four corners |
| Panel.Gc9a01a.FillRoundRect | gc9a01a.c:894-909 | writes the middle band and the two filled corners |
| Panel.Gc9a01a.DrawColumnPair | gc9a01a.c:938-948 | writes the columns selected by corner bits 1 and 2 |
| Panel.Gc9a01a.FillRoundCorner | gc9a01a.c:911-957 | writes the columns of the filled corner |
| Panel.Gc9a01a.FillScreen | gc9a01a.c:959-965 | fills the whole surface |
| GfxDisplay.Dispatch | gfx_display.c:28-135 | a guarded call has at most one effect, none without a driver, and only the target entry with the arguments unchanged |
| GfxDisplay.ArgsFit | gfx_display.h:36-62 | every request passes exactly as many arguments as its capability takes |
| GfxDisplay.NoDriverNoCalls | gfx_display.c:22 | before any registration every entry point has no effect |
| GfxDisplay.EffectForwards | gfx_display.c:45-48 | with driver and capability present, the entry point calls that capability once with its arguments unchanged; there is an effect exactly when both are present |
| GfxDisplay.AsWrittenAgrees | gfx_display.c:28-135 | apart from fill_circle and write_string, the entry points as written are the intended ones |
| GfxDisplay.FillCircleAsWritten | gfx_display.c:88-91 | as written, fill_circle calls the draw_circle capability, and calls a NULL one when only fill_circle is present |
| GfxDisplay.WriteStringAsWritten | gfx_display.c:33-37 | as written, write_string passes one argument too few and its effect is independent of the background colour, unlike the intended one |
| GfxDisplay.RunAppend | gfx_display.c:22-135 | running two sequences of operations is running the second from the driver the first leaves |
| GfxDisplay.RegisterLatest | gfx_display.c:24-26 | after a registration, later calls use the newly registered table and nothing before it |
| GfxDisplay.RequestsKeepDriver | gfx_display.c:28-135 | no entry point other than register_driver changes the driver reference |
| GfxDisplay.UnregisteredSilent | gfx_display.c:22 | without a registration any sequence of requests has no effect |
| GfxDisplay.RunSingle | gfx_display.c:22-135 | one operation is a registration that replaces the driver, or a request with its effect |
| GfxDisplay.ReplayStep | gfx_display.c:22-135 | each further operation extends the calls and the driver by its own effect |
| GfxDisplay.Display.constructor | gfx_display.c:22 | the driver reference starts as NULL, with no calls made |
| GfxDisplay.Display.RegisterDriver | gfx_display.c:24-26 | replaces the driver reference and makes no call |
| GfxDisplay.Display.Guarded | gfx_display.c:28-135 | appends the guarded call and keeps the driver |
| GfxDisplay.Display.Perform | gfx_display.c:28-135 | appends the request's effect and keeps the driver |
| GfxDisplay.Display.Init | gfx_display.c:28-31 | forwards init when present |
| GfxDisplay.Display.WriteString | gfx_display.c:33-37 | forwards write_string with all six arguments when present |
| GfxDisplay.Display.WriteStringAsWritten | gfx_display.c:33-37 | forwards write_string without the background colour |
| GfxDisplay.Display.WriteChar | gfx_display.c:39-43 | forwards write_char when present |
| GfxDisplay.Display.WritePixel | gfx_display.c:45-48 | forwards write_pixel when present |
| GfxDisplay.Display.DrawImage | gfx_display.c:50-54 | forwards draw_image when present |
| GfxDisplay.Display.DrawFastVerticalLine | gfx_display.c:56-59 | forwards draw_fast_vertical_line when present |
| GfxDisplay.Display.DrawFastHorizontalLine | gfx_display.c:61-64 | forwards draw_fast_horizental_line when present |
| GfxDisplay.Display.DrawLine | gfx_display.c:66-69 | forwards draw_line when present |
| GfxDisplay.Display.DrawRectangle | gfx_display.c:71-75 | forwards draw_rectangle when present |
| GfxDisplay.Display.FillRectangle | gfx_display.c:77-81 | forwards fill_rectangle when present |
| GfxDisplay.Display.DrawCircle | gfx_display.c:83-86 | forwards draw_circle when present |
| GfxDisplay.Display.FillCircle | gfx_display.c:88-91 | forwards fill_circle to fill_circle when present |
| GfxDisplay.Display.FillCircleAsWritten | gfx_display.c:88-91 | guards on fill_circle but calls draw_circle |
| GfxDisplay.Display.DrawEllipse | gfx_display.c:93-96 | forwards draw_ellipse when present |
| GfxDisplay.Display.FillEllipse | gfx_display.c:98-101 | forwards fill_ellipse when present |
| GfxDisplay.Display.DrawTriangle | gfx_display.c:103-107 | forwards draw_triangle when present |
| GfxDisplay.Display.FillTriangle | gfx_display.c:109-113 | forwards fill_triangle when present |
| GfxDisplay.Display.DrawRoundRectangle | gfx_display.c:115-119 | forwards draw_round_rectangle when present |
| GfxDisplay.Display.FillRoundRectangle | gfx_display.c:121-125 | forwards fill_round_rectangle when present |
| GfxDisplay.Display.FillScreen | gfx_display.c:127-130 | forwards fill_screen when present |
| GfxDisplay.Display.SetOrientation | gfx_display.c:132-135 | forwards the orientation capability when present |
| GfxDisplay.Display.Replay | gfx_display.c:22-135 | performs a sequence of operations: the calls made and the driver left are those of the whole sequence |

## Left out

- Hardware I/O: chip select, the data/command line, HAL_SPI_Transmit, HAL_Delay and the GPIO reset are not modelled. The log records what would go over the wire.
- DMA: the `tx_busy` flag, the completion callback and the `while (tx_busy)` waits are not modelled. DMA is disabled, and the waits only order transfers the log already orders.
- Configuration: `gc9a01a_hw_reset`, the `gc9a01a_configure` register script and `gc9a01a_init` are not modelled. They are a fixed sequence of opcodes with no behaviour to state.
- Integer width: `int16_t` and `int32_t` wrap-around of intermediate values (line errors, ellipse decisions, coordinates near the type limits) is not modelled. The exceptions are the `uint16_t` window parameters and the `int16_t` string cursor, which are wrapped explicitly.
- Panel.Gc9a01a.WriteChar: requires font.width ≤ 32; in C a shift of 32 or more is undefined.
- Panel.Gc9a01a.WriteString: requires every character of the string to have a glyph; the source reads the font table out of bounds otherwise.
- Panel.Gc9a01a.DrawImage: requires, for an origin on the surface, that the product of the clipped signed sizes is not negative and that the buffer holds that many colours. A negative product makes the source's unsigned loop counter run about 2³² times past the buffer; a shorter buffer is read past its end.
- fill_triangle: the floating-point slope interpolation and the two half-fill loops are not modelled. They also pass the wrong arguments to draw_fast_horizental_line. Only the vertex sort is modelled (Triangle.SortByY).
- The `gc9a01a_driver` table initialiser is not modelled; it uses an undeclared type and undeclared functions.
- The font tables and `fonts_get_string_size` are not modelled; they are declared but not defined. A font is its width, height and glyph rows.
- Panel.Gc9a01a.DrawQuadSpans: this method and DrawEllipseRegion1/2, FillEllipseRegion1/2, DrawSpanPair, WriteCornerPixels, DrawColumnPair, WriteGlyphRow and WriteStringGlyph are loop bodies or loops of the source moved into methods of their own.
- GfxDisplay.Arity: arguments are checked only for their number, not for their C types.
- In the following places the model follows the evident intent instead of the source as written. Each is cited in a comment at the member concerned.
  - draw_line's steep swap exchanges x0 with x1 and y0 with y1 (526-527); the model exchanges x and y of each endpoint.
  - draw_circle steps the centre `y` instead of `yd` and uses `x`/`y` in the decision (625-628).
  - fill_circle reads the undeclared `r` and loops on `y >= x`, and its decision uses the centre (638-660).
  - draw_ellipse updates and tests the centre in place of the offsets (677-696); fill_ellipse uses its offsets correctly.
  - fill_circle's four draw_line calls pass no colour (646-649); the model draws each span in the requested colour.
  - fill_rectangle's loop header does not compile and its rows are shifted by one (597-598).
  - fast_horizental_line passes no colour (578).
  - draw_image multiplies the undeclared `w` and `h` and reads an undeclared `image_data` (511-513).
  - draw_image tests y against the width constant (502); the width and height are both 240, so this changes nothing.
  - draw_round_corner calls `writePixel` (869-885); the model uses write_pixel.

## Findings

| source | as written | input that shows it | evidently intended | confidence | as-written member | corrected member |
|---|---|---|---|---|---|---|
| gc9a01a.c:105-106 | the row bytes are built but RASET and its data are never sent | any window | CASET, columns, RASET, rows, RAMWR | not executed | Protocol.WindowAsWrittenOmitsRows | Protocol.WindowRoundTrip |
| gc9a01a.c:491 | write_pixel opens the window (x, y, x + 1, y + 1) | any accepted pixel: a 4-cell window for 1 colour | the window (x, y, x, y) | not executed | Protocol.PixelWindowAsWrittenTooLarge | Protocol.PlotDecodes |
| gc9a01a.c:434 | write_char's window bottom is y + font.width − 1 | a 7×10 font: 49 cells for 70 colours | y + font.height − 1 | not executed | Text.CharWindowAsWrittenTooSmall | Text.CharDecodes |
| gc9a01a.c:549 | draw_line loops while x_0 > x_1, which is false after normalisation | any line, e.g. (0, 0)–(0, 0) | loop while x_0 ≤ x_1 | not executed | Line.LineAsWrittenDrawsNothing | Line.LineShape |
| gc9a01a.c:960 | fill_screen calls fill_rectangle(0, 240, 0, 240) | any colour: rows from 240 on, nothing sent | fill_rectangle(0, 0, 240, 240) | not executed | Rect.FillScreenAsWrittenSendsNothing | Rect.FillFromOrigin |
| gc9a01a.c:506-507 | draw_image clips the height to 240 − x | (0, 100) with height 200: window down to row 339 | 240 − y | not executed | Image.ImageHeightAsWritten | Image.ImageClipped |
| gfx_display.c:89-90 | fill_circle guards on fill_circle but calls draw_circle | a table with both: draw_circle is called | call fill_circle | not executed | GfxDisplay.FillCircleAsWritten | GfxDisplay.EffectForwards |
| gfx_display.c:36 | write_string drops background_color | two calls differing only in bg have the same effect | pass background_color | not executed | GfxDisplay.WriteStringAsWritten | GfxDisplay.EffectForwards |
