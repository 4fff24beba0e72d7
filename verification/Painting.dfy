/** How one view is painted: repaint_view (libswc/compositor.c) and decor_repaint (libswc/decor.c),
    region by region as the source does it, and what that means for one pixel. */
module Painting {
  import opened Words
  import opened Regions
  import opened Views

  /** The screen being painted, and the renderer's blending. */
  datatype Target = Target(geometry: Rect, screen: ScreenId, blend: Blending)

  /** Canvases are in target-local coordinates; everything else is global. */
  function Local(t: Target, p: Point): Point {
    Shift(p, -t.geometry.x, -t.geometry.y)
  }

  function Global(t: Target, q: Point): Point {
    Shift(q, t.geometry.x, t.geometry.y)
  }

  function ToLocal(t: Target, r: Region): Region {
    Translate(r, -t.geometry.x, -t.geometry.y)
  }

  lemma ToLocalAt(t: Target, r: Region, p: Point)
    ensures Local(t, p) in ToLocal(t, r) <==> p in r
  {
    assert Shift(Local(t, p), t.geometry.x, t.geometry.y) == p;
  }

  // ---------------------------------------------------- regions of one view

  /** Where the buffer is drawn: a window's is cut to its geometry. */
  function BufferRegion(v: Look): Region {
    if v.window then Area(v.frame.geometry)
    else if v.buffer.Some? then Area(Rect(OriginX(v), OriginY(v), v.buffer.value.width, v.buffer.value.height))
    else {}
  }

  /** What the borders are drawn around. */
  function Inside(v: Look): Region {
    if ContentClipped(v.frame) then ContentRegion(v.frame) else Area(v.frame.geometry)
  }

  /** expanded_region, on the box the content bounds form. */
  function ExpandedContent(f: Frame, amount: nat): Region {
    if ContentRegion(f) == {} then {}
    else
      var b := ContentBounds(f);
      ClampedBox(Max(b.x1, INT32_MIN) - amount, Max(b.y1, INT32_MIN) - amount,
                 Min(b.x2, INT32_MAX) + amount, Min(b.y2, INT32_MAX) + amount)
  }

  /** The inside grown by a border width. */
  function Grown(v: Look, amount: nat): Region {
    if ContentClipped(v.frame) then ExpandedContent(v.frame, amount) else Expand(v.frame.geometry, amount)
  }

  function Total(v: Look): nat {
    v.border.outwidth + v.border.inwidth
  }

  function ViewDamage(v: View, damage: Region): Region {
    Extents(v.look) * damage - v.clip
  }

  function BufferDamage(v: View, damage: Region): Region {
    var r := ViewDamage(v, damage) * BufferRegion(v.look);
    if ContentClipped(v.look.frame) then r * ContentRegion(v.look.frame) else r
  }

  function BorderDamage(v: View, damage: Region): Region {
    var r := ViewDamage(v, damage) * (Grown(v.look, Total(v.look)) - Inside(v.look));
    if ContentClipped(v.look.frame) && ContentRegion(v.look.frame) == {} then {} else r
  }

  /** In buffer coordinates, as the surface's opaque region is. */
  function LocalDamage(v: View, damage: Region): Region {
    Translate(BufferDamage(v, damage), -OriginX(v.look), -OriginY(v.look))
  }

  function OutBorder(v: View, damage: Region): Region {
    BorderDamage(v, damage) - Grown(v.look, v.look.border.inwidth)
  }

  function InBorder(v: View, damage: Region): Region {
    (Grown(v.look, v.look.border.inwidth) - Inside(v.look)) * BorderDamage(v, damage)
  }

  // ------------------------------------------------------------ decoration

  datatype Placed = Placed(part: Part, area: Rect)

  predicate HasDecor(d: Decor) {
    d.top > 0 || d.right > 0 || d.bottom > 0 || d.left > 0
  }

  /** The difference of two widths: nothing when it does not fit. */
  function Less(a: nat, b: nat): nat {
    if a > b then a - b else 0
  }

  /** The eight parts in drawing order: corners at their own size, edges filling what is between. */
  function PlacedParts(g: Rect, d: Decor): seq<Placed> {
    var o := Outer(g, d);
    [Placed(d.topLeft, Rect(o.x, o.y, d.topLeft.width, d.topLeft.height)),
     Placed(d.topRight, Rect(o.x + o.width - d.topRight.width, o.y, d.topRight.width, d.topRight.height)),
     Placed(d.bottomLeft, Rect(o.x, o.y + o.height - d.bottomLeft.height, d.bottomLeft.width, d.bottomLeft.height)),
     Placed(d.bottomRight, Rect(o.x + o.width - d.bottomRight.width, o.y + o.height - d.bottomRight.height,
                                d.bottomRight.width, d.bottomRight.height))]
    + (if o.width > d.topLeft.width + d.topRight.width then
         [Placed(d.topEdge, Rect(o.x + d.topLeft.width, o.y, o.width - d.topLeft.width - d.topRight.width, d.top)),
          Placed(d.bottomEdge, Rect(o.x + d.bottomLeft.width, o.y + o.height - d.bottom,
                                    Less(o.width, d.bottomLeft.width + d.bottomRight.width), d.bottom))]
       else [])
    + (if o.height > d.topLeft.height + d.bottomLeft.height then
         [Placed(d.leftEdge, Rect(o.x, o.y + d.topLeft.height, d.left,
             o.height - d.topLeft.height - d.bottomLeft.height)),
          Placed(d.rightEdge, Rect(o.x + o.width - d.right, o.y + d.topRight.height, d.right,
                                   Less(o.height, d.topRight.height + d.bottomRight.height)))]
       else [])
  }

  predicate Drawn(placed: Placed) {
    placed.part.loaded && placed.part.width > 0 && placed.part.height > 0
  }

  /** The part repeated over its area. */
  function TilePixel(placed: Placed, p: Point): Colour
    requires Drawn(placed)
  {
    placed.part.pixels(Point((p.x - placed.area.x) % placed.part.width, (p.y - placed.area.y) % placed.part.height))
  }

  function DrawPart(t: Target, v: View, damage: Region, placed: Placed, canvas: Canvas): Canvas {
    if !Drawn(placed) then canvas
    else
      var region := ToLocal(t, Area(placed.area) * damage - v.clip);
      (q: Point) => if q in region then TilePixel(placed, Global(t, q)) else canvas(q)
  }

  function DrawParts(t: Target, v: View, damage: Region, parts: seq<Placed>, canvas: Canvas): Canvas
    decreases |parts|
  {
    if parts == [] then canvas else DrawParts(t, v, damage, parts[1..], DrawPart(t, v, damage, parts[0], canvas))
  }

  function DecorRegion(v: Look): Region {
    Area(Outer(v.frame.geometry, v.decor)) - Area(v.frame.geometry)
  }

  function DecorRepaint(t: Target, v: View, damage: Region, canvas: Canvas): Canvas {
    if !HasDecor(v.look.decor) then canvas
    else
      DrawParts(t, v, damage, PlacedParts(v.look.frame.geometry, v.look.decor),
        Fill(canvas, v.look.decor.color, ToLocal(t, DecorRegion(v.look) * damage - v.clip)))
  }

  // --------------------------------------------------------------- one view

  /** Copies what is opaque and blends the rest; a buffer without alpha is copied whole. `region` and
      `solid` are in buffer coordinates. */
  function DrawPixels(canvas: Canvas, blend: Blending, b: Buffer, dx: int, dy: int, region: Region,
                      solid: Region): Canvas {
    if b.alpha then Blend(Copy(canvas, b.pixels, dx, dy, region * solid), blend, b.pixels, dx, dy, region - solid)
    else Copy(canvas, b.pixels, dx, dy, region)
  }

  function DrawBuffer(t: Target, v: Look, localDamage: Region, canvas: Canvas): Canvas
    requires v.buffer.Some?
  {
    DrawPixels(canvas, t.blend, v.buffer.value, OriginX(v) - t.geometry.x, OriginY(v) - t.geometry.y,
               localDamage, v.opaqueRegion)
  }

  function DrawBorders(t: Target, border: Border, outer: Region, inner: Region, canvas: Canvas): Canvas {
    var c := if border.outwidth > 0 then Fill(canvas, border.outcolor, ToLocal(t, outer)) else canvas;
    if border.inwidth > 0 then Fill(c, border.incolor, ToLocal(t, inner)) else c
  }

  /** repaint_view */
  function RepaintView(t: Target, v: View, damage: Region, canvas: Canvas): Canvas {
    if v.look.buffer.None? then canvas
    else
      var content := DrawBuffer(t, v.look, LocalDamage(v, damage), canvas);
      DecorRepaint(t, v, damage, DrawBorders(t, v.look.border, OutBorder(v, damage), InBorder(v, damage), content))
  }

  // ------------------------------------------------------- what a pixel shows

  /** `p` in the coordinates of the view's buffer. */
  function BufferPoint(v: Look, p: Point): Point {
    Shift(p, -OriginX(v), -OriginY(v))
  }

  /** The buffer's pixel at `p`, over `under` where the surface is not opaque. */
  function BufferPixel(t: Target, v: Look, p: Point, under: Colour): Colour
    requires v.buffer.Some?
  {
    var pixel := v.buffer.value.pixels(BufferPoint(v, p));
    if v.buffer.value.alpha && BufferPoint(v, p) !in v.opaqueRegion then t.blend(pixel, under) else pixel
  }

  function ContentPixel(t: Target, v: Look, p: Point, under: Colour): Colour
    requires v.buffer.Some?
  {
    if p !in BufferRegion(v) || (ContentClipped(v.frame) && p !in ContentRegion(v.frame)) then under
    else BufferPixel(t, v, p, under)
  }

  /** The inner ring, then the outer ring, around the inside. */
  function BorderPixel(v: Look, p: Point, under: Colour): Colour {
    if p in Inside(v) || p !in Grown(v, Total(v)) then under
    else if p in Grown(v, v.border.inwidth) then (if v.border.inwidth > 0 then v.border.incolor else under)
    else if v.border.outwidth > 0 then v.border.outcolor
    else under
  }

  /** The last part whose area holds `p` wins. */
  function PartsPixel(parts: seq<Placed>, p: Point, under: Colour): Colour
    decreases |parts|
  {
    if parts == [] then under
    else PartsPixel(parts[1..], p, if Drawn(parts[0]) && p in Area(parts[0].area) then TilePixel(parts[0], p)
        else under)
  }

  function DecorPixel(v: Look, p: Point, under: Colour): Colour {
    if !HasDecor(v.decor) then under
    else PartsPixel(PlacedParts(v.frame.geometry, v.decor), p, if p in DecorRegion(v) then v.decor.color else under)
  }

  /** The colour `p` takes when the whole view is painted over `under`. */
  function PixelOf(t: Target, v: Look, p: Point, under: Colour): Colour {
    if v.buffer.None? then under
    else
      DecorPixel(v, p, if p in Extents(v) then BorderPixel(v, p, ContentPixel(t, v, p, under)) else under)
  }

  // ------------------------------------------------- what hides what is below

  function Over(ink: Option<Colour>, under: Colour): Colour {
    match ink case None => under case Some(colour) => colour
  }

  function PartsInk(parts: seq<Placed>, p: Point): Option<Colour>
    decreases |parts|
  {
    if parts == [] then None
    else if PartsInk(parts[1..], p).Some? then PartsInk(parts[1..], p)
    else if Drawn(parts[0]) && p in Area(parts[0].area) then Some(TilePixel(parts[0], p))
    else None
  }

  /** The colour that the decoration, or else its background, gives `p`, whatever is under it. */
  function DecorInk(v: Look, p: Point): Option<Colour> {
    var parts := PartsInk(PlacedParts(v.frame.geometry, v.decor), p);
    if !HasDecor(v.decor) then None
    else if parts.Some? then parts
    else if p in DecorRegion(v) then Some(v.decor.color)
    else None
  }

  function BorderInk(v: Look, p: Point): Option<Colour> {
    if p in Inside(v) || p !in Grown(v, Total(v)) then None
    else if p in Grown(v, v.border.inwidth) then (if v.border.inwidth > 0 then Some(v.border.incolor) else None)
    else if v.border.outwidth > 0 then Some(v.border.outcolor)
    else None
  }

  /** What the view draws over its buffer at `p`. */
  function TopInk(v: Look, p: Point): Option<Colour> {
    if v.buffer.None? then None
    else if DecorInk(v, p).Some? then DecorInk(v, p)
    else if p in Extents(v) then BorderInk(v, p)
    else None
  }

  /** The buffer comes out at `p`, as far as the view's own boxes go. */
  predicate ShowsBuffer(v: Look, p: Point) {
    && v.buffer.Some? && p in Extents(v) && p in BufferRegion(v)
    && (ContentClipped(v.frame) ==> p in ContentRegion(v.frame))
  }

  /** Nothing below the view can be seen at `p`: something is drawn over the buffer there, or the buffer
      comes out and is copied, not blended. */
  predicate Hides(v: Look, p: Point) {
    || TopInk(v, p).Some?
    || (ShowsBuffer(v, p) && (v.buffer.value.alpha ==> BufferPoint(v, p) in v.opaqueRegion))
  }

  lemma {:induction false} PartsByInk(parts: seq<Placed>, p: Point, c: Colour)
    ensures PartsPixel(parts, p, c) == Over(PartsInk(parts, p), c)
    decreases |parts|
  {
    if parts != [] {
      PartsByInk(parts[1..], p, if Drawn(parts[0]) && p in Area(parts[0].area) then TilePixel(parts[0], p) else c);
    }
  }

  /** A pixel of a view is its ink, or else its buffer over what is below. */
  lemma PixelByInk(t: Target, v: Look, p: Point, c: Colour)
    ensures PixelOf(t, v, p, c) == Over(TopInk(v, p), if ShowsBuffer(v, p) then BufferPixel(t, v, p, c) else c)
  {
    PartsByInk(PlacedParts(v.frame.geometry, v.decor), p, if p in DecorRegion(v) then v.decor.color else
      if v.buffer.Some? && p in Extents(v) then BorderPixel(v, p, ContentPixel(t, v, p, c)) else c);
  }

  /** Exactly where a view hides what is below: with any blending if it hides it, and with the blending
      that keeps what is below if it does not. */
  lemma HidesExactly(v: Look, p: Point)
    ensures Hides(v, p) <==> forall t: Target, a, b :: PixelOf(t, v, p, a) == PixelOf(t, v, p, b)
  {
    if Hides(v, p) {
      forall t: Target, a, b ensures PixelOf(t, v, p, a) == PixelOf(t, v, p, b) {
        PixelByInk(t, v, p, a);
        PixelByInk(t, v, p, b);
      }
    } else {
      var t := Target(v.frame.geometry, 0, (s: Colour, under: Colour) => under);
      PixelByInk(t, v, p, 0);
      PixelByInk(t, v, p, 1);
      assert PixelOf(t, v, p, 0) == 0 && PixelOf(t, v, p, 1) == 1;
    }
  }

  lemma LocalDamageAt(v: View, damage: Region, p: Point)
    ensures BufferPoint(v.look, p) in LocalDamage(v, damage) <==> p in BufferDamage(v, damage)
  {
    assert Shift(BufferPoint(v.look, p), OriginX(v.look), OriginY(v.look)) == p;
  }

  lemma DrawPixelsAt(canvas: Canvas, blend: Blending, b: Buffer, dx: int, dy: int, region: Region, solid: Region,
                     q: Point)
    ensures DrawPixels(canvas, blend, b, dx, dy, region, solid)(Shift(q, dx, dy))
         == if q !in region then canvas(Shift(q, dx, dy))
            else if b.alpha && q !in solid then blend(b.pixels(q), canvas(Shift(q, dx, dy)))
            else b.pixels(q)
  {
    assert Shift(Shift(q, dx, dy), -dx, -dy) == q;
  }

  lemma DrawnAt(t: Target, v: Look, localDamage: Region, canvas: Canvas, p: Point)
    requires v.buffer.Some?
    ensures DrawBuffer(t, v, localDamage, canvas)(Local(t, p))
         == if BufferPoint(v, p) in localDamage then BufferPixel(t, v, p, canvas(Local(t, p))) else canvas(Local(t, p))
  {
    var dx, dy := OriginX(v) - t.geometry.x, OriginY(v) - t.geometry.y;
    assert Shift(BufferPoint(v, p), dx, dy) == Local(t, p);
    DrawPixelsAt(canvas, t.blend, v.buffer.value, dx, dy, localDamage, v.opaqueRegion, BufferPoint(v, p));
  }

  lemma BufferDamageAt(v: View, damage: Region, p: Point)
    ensures p in BufferDamage(v, damage) <==>
      && p in ViewDamage(v, damage) && p in BufferRegion(v.look)
      && (ContentClipped(v.look.frame) ==> p in ContentRegion(v.look.frame))
  {
  }

  lemma ContentAt(t: Target, v: View, damage: Region, p: Point, under: Colour)
    requires v.look.buffer.Some?
    ensures (if BufferPoint(v.look, p) in LocalDamage(v, damage) then BufferPixel(t, v.look, p, under) else under)
         == if p in ViewDamage(v, damage) then ContentPixel(t, v.look, p, under) else under
  {
    LocalDamageAt(v, damage, p);
    BufferDamageAt(v, damage, p);
  }

  lemma GrownNested(v: Look, p: Point)
    ensures p in Inside(v) ==> p in Grown(v, v.border.inwidth)
    ensures p in Grown(v, v.border.inwidth) ==> p in Grown(v, Total(v))
  {
  }

  lemma BorderPartsAt(v: View, damage: Region, p: Point)
    ensures p in InBorder(v, damage) <==>
      p in ViewDamage(v, damage) && p in Grown(v.look, v.look.border.inwidth) && p !in Inside(v.look)
    ensures p in OutBorder(v, damage) <==>
      p in ViewDamage(v, damage) && p in Grown(v.look, Total(v.look)) && p !in Grown(v.look, v.look.border.inwidth)
  {
    GrownNested(v.look, p);
  }

  lemma DrawnBordersAt(t: Target, border: Border, outer: Region, inner: Region, canvas: Canvas, p: Point)
    ensures DrawBorders(t, border, outer, inner, canvas)(Local(t, p))
         == if border.inwidth > 0 && p in inner then border.incolor
            else if border.outwidth > 0 && p in outer then border.outcolor
            else canvas(Local(t, p))
  {
    ToLocalAt(t, inner, p);
    ToLocalAt(t, outer, p);
  }

  lemma BordersAt(v: View, damage: Region, p: Point, under: Colour)
    ensures (if v.look.border.inwidth > 0 && p in InBorder(v, damage) then v.look.border.incolor
             else if v.look.border.outwidth > 0 && p in OutBorder(v, damage) then v.look.border.outcolor
             else under)
         == if p in ViewDamage(v, damage) then BorderPixel(v.look, p, under) else under
  {
    BorderPartsAt(v, damage, p);
    GrownNested(v.look, p);
  }

  lemma {:induction false} DrawPartsAt(t: Target, v: View, damage: Region, parts: seq<Placed>, canvas: Canvas, p: Point)
    ensures DrawParts(t, v, damage, parts, canvas)(Local(t, p))
         == if p in damage && p !in v.clip then PartsPixel(parts, p, canvas(Local(t, p))) else canvas(Local(t, p))
    decreases |parts|
  {
    if parts != [] {
      assert Global(t, Local(t, p)) == p;
      ToLocalAt(t, Area(parts[0].area) * damage - v.clip, p);
      DrawPartsAt(t, v, damage, parts[1..], DrawPart(t, v, damage, parts[0], canvas), p);
    }
  }

  lemma DecorAt(t: Target, v: View, damage: Region, canvas: Canvas, p: Point)
    ensures DecorRepaint(t, v, damage, canvas)(Local(t, p))
         == if p in damage && p !in v.clip then DecorPixel(v.look, p, canvas(Local(t, p))) else canvas(Local(t, p))
  {
    if HasDecor(v.look.decor) {
      var region := DecorRegion(v.look) * damage - v.clip;
      ToLocalAt(t, region, p);
      DrawPartsAt(t, v, damage, PlacedParts(v.look.frame.geometry, v.look.decor),
                  Fill(canvas, v.look.decor.color, ToLocal(t, region)), p);
    }
  }

  /** All the region arithmetic of repaint_view amounts to this: a pixel is repainted exactly when it
      is damaged and not clipped, and then as if the whole view had been painted over it. */
  lemma RepaintViewAt(t: Target, v: View, damage: Region, canvas: Canvas, p: Point)
    ensures RepaintView(t, v, damage, canvas)(Local(t, p))
         == if p in damage && p !in v.clip then PixelOf(t, v.look, p, canvas(Local(t, p))) else canvas(Local(t, p))
  {
    if v.look.buffer.Some? {
      var under := canvas(Local(t, p));
      var content := DrawBuffer(t, v.look, LocalDamage(v, damage), canvas);
      DrawnAt(t, v.look, LocalDamage(v, damage), canvas, p);
      ContentAt(t, v, damage, p, under);
      var bordered := DrawBorders(t, v.look.border, OutBorder(v, damage), InBorder(v, damage), content);
      DrawnBordersAt(t, v.look.border, OutBorder(v, damage), InBorder(v, damage), content, p);
      BordersAt(v, damage, p, content(Local(t, p)));
      DecorAt(t, v, damage, bordered, p);
    }
  }

  // ---------------------------------------------------------- paint partition

  function OpaquePart(v: View, damage: Region): Region {
    Translate(LocalDamage(v, damage) * v.look.opaqueRegion, OriginX(v.look), OriginY(v.look))
  }

  function BlendPart(v: View, damage: Region): Region {
    Translate(LocalDamage(v, damage) - v.look.opaqueRegion, OriginX(v.look), OriginY(v.look))
  }

  lemma BufferPartsAt(v: View, damage: Region, p: Point)
    ensures p in OpaquePart(v, damage) <==>
        p in BufferDamage(v, damage) && BufferPoint(v.look, p) in v.look.opaqueRegion
    ensures p in BlendPart(v, damage) <==>
        p in BufferDamage(v, damage) && BufferPoint(v.look, p) !in v.look.opaqueRegion
  {
    LocalDamageAt(v, damage, p);
  }

  lemma WindowBufferAt(v: View, damage: Region, p: Point)
    requires v.look.window && Inside(v.look) <= Area(v.look.frame.geometry)
    ensures p in BufferDamage(v, damage) <==> p in ViewDamage(v, damage) && p in Inside(v.look)
  {
  }

  lemma InsideGeometry(v: Look)
    ensures Inside(v) <= Area(v.frame.geometry)
  {
  }

  /** For every window the copied, blended, inner and outer border regions never overlap, and together they
      are exactly what is damaged and not clipped in the bordered box, with or without a content clip
      box, as far as the extents go; extents that are up to date hold all of it. */
  lemma PaintPartition(v: View, damage: Region)
    requires v.look.window
    ensures OpaquePart(v, damage) !! BlendPart(v, damage) !! InBorder(v, damage) !! OutBorder(v, damage)
    ensures OpaquePart(v, damage) + BlendPart(v, damage) + InBorder(v, damage) + OutBorder(v, damage)
         == Extents(v.look) * damage * Grown(v.look, Total(v.look)) - v.clip
  {
    InsideGeometry(v.look);
    forall p: Point
      ensures p in OpaquePart(v, damage) ==> p !in BlendPart(v, damage)
      ensures p in OpaquePart(v, damage) + BlendPart(v, damage) ==> p in Inside(v.look)
      ensures p in InBorder(v, damage) ==> p !in Inside(v.look) && p in Grown(v.look, v.look.border.inwidth)
      ensures p in OutBorder(v, damage) ==> p !in Inside(v.look) && p !in Grown(v.look, v.look.border.inwidth)
      ensures p in OpaquePart(v, damage) + BlendPart(v, damage) + InBorder(v, damage) + OutBorder(v, damage)
         <==> p in Extents(v.look) && p in damage && p in Grown(v.look, Total(v.look)) && p !in v.clip
    {
      GrownNested(v.look, p);
      BufferPartsAt(v, damage, p);
      BorderPartsAt(v, damage, p);
      WindowBufferAt(v, damage, p);
    }
  }
}
