/** Exactly when occlusion culling is right, and what it makes of a surface whose opaque region was
    committed with another buffer than the one it shows (libswc/compositor.c, libswc/surface.c). */
module Culling {
  import opened Words
  import opened Regions
  import opened Views
  import opened Painting
  import opened Frames

  lemma {:induction false} HiddenOnScreen(t: Target, u: Target, views: seq<View>, p: Point)
    requires t.screen == u.screen && Hidden(t, views, p)
    ensures Hidden(u, views, p)
    decreases |views|
  {
    if views != [] && !HidesLayer(t, views[0], p) { HiddenOnScreen(t, u, views[1..], p); }
  }

  /** Blending that leaves what is below. */
  ghost predicate KeepsBelow(blend: Blending) {
    forall source, below :: blend(source, below) == below
  }

  lemma LayerKeeps(t: Target, v: View, damage: Region, under: Canvas, p: Point)
    requires KeepsBelow(t.blend) && (p in v.clip || BoxClip(v.look) <= v.clip) && (!HidesLayer(t, v, p) || p in v.clip)
    ensures Layer(t, v, damage, under)(Local(t, p)) == under(Local(t, p))
  {
    LayerAt(t, v, damage, under, p);
    PixelByInk(t, v.look, p, under(Local(t, p)));
  }

  /** Views with the pixel in all their clips do not draw it. */
  lemma {:induction false} CulledKeeps(t: Target, views: seq<View>, above: Region, damage: Region, start: Canvas,
                                       p: Point)
    requires p in above
    ensures RepaintViews(t, Clipped(views, above), damage, start)(Local(t, p)) == start(Local(t, p))
    decreases |views|
  {
    if views != [] {
      var v, rest := views[0], views[1..];
      var above' := if v.visible then above + OpaqueOf(v.look) else above;
      RepaintsDown(t, views, above, damage, start);
      CulledKeeps(t, rest, above', damage, start, p);
      LayerAt(t, if v.visible then Calculated(v, above) else v, damage,
              RepaintViews(t, Clipped(rest, above'), damage, start), p);
    }
  }

  /** Where nothing hides it, what the scratch buffer held shows through all of the culled repaint. */
  lemma {:induction false} NotHiddenKeeps(t: Target, views: seq<View>, above: Region, damage: Region, start: Canvas,
                                          p: Point)
    requires KeepsBelow(t.blend) && !Hidden(t, views, p)
    ensures RepaintViews(t, Clipped(views, above), damage, start)(Local(t, p)) == start(Local(t, p))
    ensures p in OpaqueAll(views)
    decreases |views|
  {
    var v, rest := views[0], views[1..];
    var above' := if v.visible then above + OpaqueOf(v.look) else above;
    var under := RepaintViews(t, Clipped(rest, above'), damage, start);
    RepaintsDown(t, views, above, damage, start);
    if v.visible && p in OpaqueOf(v.look) {
      CulledKeeps(t, rest, above', damage, start, p);
    } else {
      NotHiddenKeeps(t, rest, above', damage, start, p);
    }
    if v.visible {
      LayerKeeps(t, Calculated(v, above), damage, under, p);
    } else {
      LayerAt(t, v, damage, under, p);
    }
  }

  /** Culled and painted pictures agree on all that is damaged, whatever the scratch buffer held and
      however buffers are blended. */
  ghost predicate CulledRight(screen: Target, views: seq<View>, damage: Region, o: Overlay) {
    forall t: Target, scratch: Canvas, p: Point
      | t.geometry == screen.geometry && t.screen == screen.screen && p in damage && p in Area(t.geometry) ::
      Composite(t, views, damage, o, scratch)(Local(t, p)) == FullRender(t, views, o, p)
  }

  /** Occlusion culling is right if and only if at every damaged pixel off the overlay some view down to
      the topmost opaque one really hides what is below. */
  lemma CullingExactly(screen: Target, views: seq<View>, damage: Region, o: Overlay)
    ensures CulledRight(screen, views, damage, o) <==>
      forall p | p in damage && p in Area(screen.geometry) && !OnOverlay(o, p) :: Hidden(screen, views, p)
  {
    if CulledRight(screen, views, damage, o) {
      forall p | p in damage && p in Area(screen.geometry) && !OnOverlay(o, p) ensures Hidden(screen, views, p) {
        if !Hidden(screen, views, p) { NotHiddenIsWrong(screen, views, damage, o, p); }
      }
    }
    if forall p | p in damage && p in Area(screen.geometry) && !OnOverlay(o, p) :: Hidden(screen, views, p) {
      forall t: Target, scratch: Canvas, p: Point
        | t.geometry == screen.geometry && t.screen == screen.screen && p in damage && p in Area(t.geometry)
        ensures Composite(t, views, damage, o, scratch)(Local(t, p)) == FullRender(t, views, o, p)
      {
        if !OnOverlay(o, p) { HiddenOnScreen(screen, t, views, p); }
        OcclusionCulling(t, views, damage, o, scratch, p);
      }
    }
  }

  lemma ScratchShowsThrough(t: Target, views: seq<View>, damage: Region, o: Overlay, scratch: Canvas, p: Point)
    requires KeepsBelow(t.blend) && !Hidden(t, views, p)
    requires p in damage && p in Area(t.geometry) && !OnOverlay(o, p)
    ensures Composite(t, views, damage, o, scratch)(Local(t, p)) == scratch(Local(t, p))
  {
    NotHiddenKeeps(t, views, {}, damage, Fill(scratch, DEFAULT_BG, ToLocal(t, damage - OpaqueAll(views))), p);
    CompositeAt(t, views, damage, o, scratch, p);
  }

  lemma SomeScratchIsWrong(t: Target, views: seq<View>, damage: Region, o: Overlay, p: Point)
    returns (scratch: Canvas)
    requires KeepsBelow(t.blend) && !Hidden(t, views, p)
    requires p in damage && p in Area(t.geometry) && !OnOverlay(o, p)
    ensures Composite(t, views, damage, o, scratch)(Local(t, p)) != FullRender(t, views, o, p)
  {
    var full := FullRender(t, views, o, p);
    scratch := (q: Point) => full + 1;
    ScratchShowsThrough(t, views, damage, o, scratch, p);
  }

  lemma NotHiddenIsWrong(screen: Target, views: seq<View>, damage: Region, o: Overlay, p: Point)
    requires p in damage && p in Area(screen.geometry) && !OnOverlay(o, p) && !Hidden(screen, views, p)
    ensures !CulledRight(screen, views, damage, o)
  {
    var t := Target(screen.geometry, screen.screen, (source: Colour, below: Colour) => below);
    if Hidden(t, views, p) {
      HiddenOnScreen(t, screen, views, p);
      assert false;
    }
    var scratch := SomeScratchIsWrong(t, views, damage, o, p);
  }

  // ------------------------------------- an opaque region of another buffer

  /** A popup held back at a 10 by 10 buffer inside a 20 by 20 window geometry, after a commit whose
      opaque region was trimmed to a buffer of the larger size. */
  function HeldPopup(pixels: Canvas): View {
    var none := Part(false, 0, 0, pixels);
    var off := ClipBox(false, 0, 0, 0, 0);
    View(Look(Views.Frame(Rect(0, 0, 20, 20), false, off, off, false, None), false, Bounds(0, 0, 20, 20),
              Some(Buffer(10, 10, false, pixels)), 0, 0, Box(0, 0, 20, 20), Border(0, 0, 0, 0),
              Decor(0, 0, 0, 0, 0, none, none, none, none, none, none, none, none)),
         true, {0}, {}, false, {})
  }

  /** Culling goes wrong for it: right of its buffer what is below is not repainted. */
  lemma HeldPopupIsCulledWrong(pixels: Canvas, damage: Region, o: Overlay, screen: Target)
    requires screen.screen == 0 && Point(15, 15) in damage && Point(15, 15) in Area(screen.geometry)
    requires !OnOverlay(o, Point(15, 15))
    ensures !CulledRight(screen, [HeldPopup(pixels)], damage, o)
  {
    var p := Point(15, 15);
    assert !Hides(HeldPopup(pixels).look, p);
    assert Shift(p, 0, 0) == p && p in Box(0, 0, 20, 20);
    CullingExactly(screen, [HeldPopup(pixels)], damage, o);
  }

  /** Both regions say the same of `p`, or its pixel does not depend on them. */
  predicate Declares(v: Look, region: Region, p: Point) {
    ShowsBuffer(v, p) && TopInk(v, p).None? && v.buffer.value.alpha ==>
      (BufferPoint(v, p) in v.opaqueRegion <==> BufferPoint(v, p) in region)
  }

  lemma BorderInkSame(v: Look, w: Look, p: Point)
    requires w == v.(opaqueRegion := w.opaqueRegion)
    ensures BorderInk(w, p) == BorderInk(v, p)
  {
    assert Inside(w) == Inside(v);
    assert Total(w) == Total(v) && Grown(w, Total(w)) == Grown(v, Total(v));
    assert Grown(w, w.border.inwidth) == Grown(v, v.border.inwidth);
  }

  lemma DecorInkSame(v: Look, w: Look, p: Point)
    requires w == v.(opaqueRegion := w.opaqueRegion)
    ensures DecorInk(w, p) == DecorInk(v, p)
  {
    assert DecorRegion(w) == DecorRegion(v);
  }

  lemma InkSame(v: Look, w: Look, p: Point)
    requires w == v.(opaqueRegion := w.opaqueRegion)
    ensures TopInk(w, p) == TopInk(v, p)
    ensures ShowsBuffer(w, p) == ShowsBuffer(v, p)
  {
    BorderInkSame(v, w, p);
    DecorInkSame(v, w, p);
    assert Extents(w) == Extents(v) && BufferRegion(w) == BufferRegion(v);
  }

  lemma BufferPixels(t: Target, v: Look, region: Region, p: Point, c: Colour)
    requires v.buffer.Some?
    ensures var pixel := v.buffer.value.pixels(BufferPoint(v, p));
      var a, b := BufferPixel(t, v, p, c), BufferPixel(t, v.(opaqueRegion := region), p, c);
      if v.buffer.value.alpha ==> (BufferPoint(v, p) in v.opaqueRegion <==> BufferPoint(v, p) in region) then a == b
      else {a, b} == {pixel, t.blend(pixel, c)}
  {
  }

  lemma OpaqueChangeAt(t: Target, v: Look, region: Region, p: Point, c: Colour)
    ensures var a, b := PixelOf(t, v, p, c), PixelOf(t, v.(opaqueRegion := region), p, c);
      if Declares(v, region, p) then a == b
      else
        var pixel := v.buffer.value.pixels(BufferPoint(v, p));
        {a, b} == {pixel, t.blend(pixel, c)}
  {
    InkSame(v, v.(opaqueRegion := region), p);
    PixelByInk(t, v, p, c);
    PixelByInk(t, v.(opaqueRegion := region), p, c);
    if ShowsBuffer(v, p) { BufferPixels(t, v, region, p, c); }
  }

  /** A commit replaces the surface's opaque region at once, also while the view is held at its old buffer.
      What that changes of the picture, exactly: the pixels where the buffer comes out, has alpha, nothing
      is drawn over it, and only one of the two regions makes it opaque. */
  lemma OpaqueChangeExactly(v: Look, region: Region, p: Point)
    ensures (forall t: Target, c :: PixelOf(t, v, p, c) == PixelOf(t, v.(opaqueRegion := region), p, c)) <==>
      Declares(v, region, p)
  {
    if Declares(v, region, p) {
      forall t: Target, c ensures PixelOf(t, v, p, c) == PixelOf(t, v.(opaqueRegion := region), p, c) {
        OpaqueChangeAt(t, v, region, p, c);
      }
    } else {
      var t := Target(v.frame.geometry, 0, (source: Colour, below: Colour) => source + 1);
      OpaqueChangeAt(t, v, region, p, 0);
      assert PixelOf(t, v, p, 0) != PixelOf(t, v.(opaqueRegion := region), p, 0);
    }
  }
}
