/** When a change of decoration is repainted: compositor_view_set_decor, which updates the extents and flags the
    view, and the damage that calculate_damage makes of the flag (libswc/compositor.c, libswc/decor.c). */
module Decorations {
  import opened Words
  import opened Regions
  import opened Views
  import opened Painting
  import opened Damage
  import opened Borders

  /** A decoration that differs from the one there is; the same one again is not flagged. */
  function WithDecor(v: View, decor: Decor): View {
    var l := v.look;
    v.(look := l.(decor := decor,
         extents := UpdatedExtents(l.frame.geometry, l.border, decor, l.buffer, l.offsetX, l.offsetY)), changed := true)
  }

  /** The view with other pixels in its buffer. */
  function Redrawn(v: Look, pixels: Canvas): Look
    requires v.buffer.Some?
  {
    v.(buffer := Some(v.buffer.value.(pixels := pixels)))
  }

  /** Whatever the client draws, whatever is below and however it is blended, every pixel that comes out
      differently is damaged. */
  ghost predicate RepaintedWhatever(v: View, w: View)
    requires v.look.buffer.Some? && w.look.buffer == v.look.buffer
  {
    forall t: Target, pixels: Canvas, p, c | p !in DamageOf(w) ::
      PixelOf(t, Redrawn(v.look, pixels), p, c) == PixelOf(t, Redrawn(w.look, pixels), p, c)
  }

  lemma RedrawnSame(v: Look, pixels: Canvas, p: Point)
    requires v.buffer.Some?
    ensures var w := Redrawn(v, pixels); TopInk(w, p) == TopInk(v, p) && ShowsBuffer(w, p) == ShowsBuffer(v, p)
  {
    var w := Redrawn(v, pixels);
    assert Inside(w) == Inside(v) && Total(w) == Total(v) && Grown(w, Total(w)) == Grown(v, Total(v));
    assert Grown(w, w.border.inwidth) == Grown(v, v.border.inwidth);
    assert BorderInk(w, p) == BorderInk(v, p);
    assert DecorRegion(w) == DecorRegion(v) && DecorInk(w, p) == DecorInk(v, p);
    assert Extents(w) == Extents(v) && BufferRegion(w) == BufferRegion(v);
  }

  lemma RedrawnPixel(t: Target, v: Look, pixels: Canvas, p: Point, c: Colour)
    requires v.buffer.Some?
    ensures var pixel := pixels(BufferPoint(v, p));
      PixelOf(t, Redrawn(v, pixels), p, c)
      == Over(TopInk(v, p),
           if !ShowsBuffer(v, p) then c
           else if v.buffer.value.alpha && BufferPoint(v, p) !in v.opaqueRegion then t.blend(pixel, c) else pixel)
  {
    RedrawnSame(v, pixels, p);
    PixelByInk(t, Redrawn(v, pixels), p, c);
  }

  /** The two looks differ in what is drawn over the buffer only. */
  ghost predicate SameBuffers(v: Look, w: Look) {
    && v.buffer.Some? && w.buffer == v.buffer && w.opaqueRegion == v.opaqueRegion
    && (forall p :: ShowsBuffer(v, p) == ShowsBuffer(w, p) && BufferPoint(v, p) == BufferPoint(w, p))
  }

  /** Some buffer and something below it tell two different inks apart. */
  lemma ToldApart(v: View, w: View, p: Point) returns (t: Target, pixels: Canvas, c: Colour)
    requires SameBuffers(v.look, w.look) && TopInk(v.look, p) != TopInk(w.look, p)
    ensures PixelOf(t, Redrawn(v.look, pixels), p, c) != PixelOf(t, Redrawn(w.look, pixels), p, c)
  {
    var a, b := TopInk(v.look, p), TopInk(w.look, p);
    var k: Colour := (if a.Some? then a.value else 0) + (if b.Some? then b.value else 0) + 1;
    c := k;
    t := Target(v.look.frame.geometry, 0, (source: Colour, below: Colour) => source);
    pixels := (q: Point) => k;
    RedrawnPixel(t, v.look, pixels, p, c);
    RedrawnPixel(t, w.look, pixels, p, c);
  }

  lemma SameInkSamePixel(t: Target, v: View, w: View, pixels: Canvas, p: Point, c: Colour)
    requires SameBuffers(v.look, w.look) && TopInk(v.look, p) == TopInk(w.look, p)
    ensures PixelOf(t, Redrawn(v.look, pixels), p, c) == PixelOf(t, Redrawn(w.look, pixels), p, c)
  {
    RedrawnPixel(t, v.look, pixels, p, c);
    RedrawnPixel(t, w.look, pixels, p, c);
  }

  /** Any change of what is drawn over the buffer is repainted if and only if at every undamaged pixel the
      same is drawn over it before and after. */
  lemma InkRepaintedExactly(v: View, w: View)
    requires SameBuffers(v.look, w.look)
    ensures RepaintedWhatever(v, w) <==> forall p | p !in DamageOf(w) :: TopInk(v.look, p) == TopInk(w.look, p)
  {
    if RepaintedWhatever(v, w) {
      forall p | p !in DamageOf(w) ensures TopInk(v.look, p) == TopInk(w.look, p) {
        if TopInk(v.look, p) != TopInk(w.look, p) { var t, pixels, c := ToldApart(v, w, p); }
      }
    }
    if forall p | p !in DamageOf(w) :: TopInk(v.look, p) == TopInk(w.look, p) {
      forall t: Target, pixels: Canvas, p, c | p !in DamageOf(w)
        ensures PixelOf(t, Redrawn(v.look, pixels), p, c) == PixelOf(t, Redrawn(w.look, pixels), p, c)
      {
        SameInkSamePixel(t, v, w, pixels, p, c);
      }
    }
  }

  /** The extents before and after hold what the view draws besides its decoration, and after it that too. */
  ghost predicate Ready(v: View, w: View) {
    && v.look.buffer.Some? && v.damage == {}
    && Enclosed(v.look) && Enclosed(w.look)
    && Grown(v.look, Total(v.look)) <= Extents(v.look) * Extents(w.look)
  }

  lemma {:induction false} NoParts(parts: seq<Placed>, p: Point)
    requires forall d | d in parts :: p !in Area(d.area)
    ensures PartsInk(parts, p) == None
    decreases |parts|
  {
    if parts != [] { NoParts(parts[1..], p); }
  }

  lemma NoDecorBeyond(v: Look, p: Point)
    requires Contained(v) && p !in Extents(v)
    ensures DecorInk(v, p) == None
  {
    NoParts(PlacedParts(v.frame.geometry, v.decor), p);
  }

  lemma BorderIgnoresDecor(v: View, decor: Decor, p: Point)
    ensures BorderInk(WithDecor(v, decor).look, p) == BorderInk(v.look, p)
  {
    var w := WithDecor(v, decor).look;
    assert Inside(w) == Inside(v.look) && Total(w) == Total(v.look);
    assert Grown(w, Total(w)) == Grown(v.look, Total(v.look));
    assert Grown(w, w.border.inwidth) == Grown(v.look, v.look.border.inwidth);
  }

  lemma BuffersSame(v: View, decor: Decor)
    requires Ready(v, WithDecor(v, decor))
    ensures SameBuffers(v.look, WithDecor(v, decor).look)
  {
    var w := WithDecor(v, decor).look;
    assert BufferRegion(w) == BufferRegion(v.look);
    assert BufferRegion(w) <= Extents(w) && BufferRegion(v.look) <= Extents(v.look);
    forall p ensures ShowsBuffer(v.look, p) == ShowsBuffer(w, p) && BufferPoint(v.look, p) == BufferPoint(w, p) {
      if p in BufferRegion(w) { assert p in Extents(w) && p in Extents(v.look); }
    }
  }

  /** A new decoration, on its own, is repainted if and only if all of the old one is inside the new extents,
      and inside the geometry the same is drawn over the buffer before and after. */
  lemma DecorRepaintedExactly(v: View, decor: Decor)
    requires Ready(v, WithDecor(v, decor))
    ensures var w := WithDecor(v, decor);
      RepaintedWhatever(v, w) <==>
        && (forall p | DecorInk(v.look, p).Some? :: p in Extents(w.look))
        && (forall p | p in Area(v.look.frame.geometry) :: TopInk(v.look, p) == TopInk(w.look, p))
  {
    var w := WithDecor(v, decor);
    BuffersSame(v, decor);
    InkRepaintedExactly(v, w);
    forall p ensures p !in DamageOf(w) <==> p in Area(v.look.frame.geometry) || p !in Extents(w.look) {
      Undamaged(v, w, p);
    }
    forall p | p !in Extents(w.look)
      ensures TopInk(w.look, p) == None
      ensures TopInk(v.look, p).Some? <==> DecorInk(v.look, p).Some?
    {
      NoDecorBeyond(w.look, p);
      NoBorderBeyond(v.look, p);
    }
  }

  lemma Undamaged(v: View, w: View, p: Point)
    requires v.damage == {} && w.damage == {} && w.changed && w.look.frame == v.look.frame
    ensures p !in DamageOf(w) <==> p in Area(v.look.frame.geometry) || p !in Extents(w.look)
  {
  }

  lemma NoBorderBeyond(v: Look, p: Point)
    requires v.buffer.Some? && (p !in Extents(v) || p !in Grown(v, Total(v)))
    ensures TopInk(v, p) == DecorInk(v, p)
  {
  }

  lemma BesideShowsBorder(v: Look, p: Point)
    requires v.buffer.Some? && PartsBeside(v) && p in Area(v.frame.geometry) && Area(v.frame.geometry) <= Extents(v)
    ensures TopInk(v, p) == BorderInk(v, p)
  {
    NoParts(PlacedParts(v.frame.geometry, v.decor), p);
  }

  /** With parts that stay beside the geometry only the first half matters. */
  lemma DecorBesideExactly(v: View, decor: Decor)
    requires Ready(v, WithDecor(v, decor)) && PartsBeside(v.look) && PartsBeside(WithDecor(v, decor).look)
    ensures var w := WithDecor(v, decor);
      RepaintedWhatever(v, w) <==> forall p | DecorInk(v.look, p).Some? :: p in Extents(w.look)
  {
    var w := WithDecor(v, decor);
    DecorRepaintedExactly(v, decor);
    forall p | p in Area(v.look.frame.geometry) ensures TopInk(v.look, p) == TopInk(w.look, p) {
      BesideShowsBorder(v.look, p);
      BesideShowsBorder(w.look, p);
      BorderIgnoresDecor(v, decor, p);
    }
  }

  /** So taking a decoration away leaves all of it behind that is outside border and buffer. */
  lemma RemovedDecorIsNotDamaged(v: View, decor: Decor, p: Point)
    requires Ready(v, WithDecor(v, decor)) && !HasDecor(decor)
    requires DecorInk(v.look, p).Some? && p !in Extents(WithDecor(v, decor).look)
    ensures p !in DamageOf(WithDecor(v, decor)) && !RepaintedWhatever(v, WithDecor(v, decor))
  {
    DecorRepaintedExactly(v, decor);
    Undamaged(v, WithDecor(v, decor), p);
  }
}
