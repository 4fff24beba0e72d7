/** What a new clip box changes of the picture, against the damage of set_clip_box: the boxes of a view also
    cut the subsurfaces below it, wherever they are (libswc/compositor.c). */
module ClipBoxes {
  import opened Words
  import opened Regions
  import opened Views
  import opened Painting
  import opened Frames
  import opened Damage
  import Placement

  /** The boxes of one view. */
  datatype Boxes = Boxes(clip: ClipBox, content: ClipBox)

  function WithBoxes(f: Views.Frame, boxes: Boxes): Views.Frame {
    f.(clipBox := boxes.clip, contentClip := boxes.content)
  }

  /** A new box admits by its distance from the view, like the old one. */
  lemma BoxesExactly(f: Views.Frame, boxes: Boxes, p: Point)
    ensures Admits(WithBoxes(f, boxes), p) <==>
      || f.fullscreen
      || ((boxes.clip.enabled ==> Placement.InPlaced(f.geometry, boxes.clip, p))
          && (boxes.content.enabled ==>
                Placement.InPlaced(f.geometry, boxes.content, p) && p in Area(f.geometry)))
  {
    Placement.AdmitsExactly(WithBoxes(f, boxes), p);
  }

  /** A frame when the boxes of its `n`-th ancestor change; the frame itself is number 0. */
  function Reclip(f: Views.Frame, n: nat, boxes: Boxes): Views.Frame
    decreases n
  {
    if n == 0 then WithBoxes(f, boxes)
    else if f.parent.None? then f
    else f.(parent := Some(Reclip(f.parent.value, n - 1, boxes)))
  }

  /** What the boxes of all ancestors but the `n`-th leave. */
  ghost predicate OthersAdmit(f: Views.Frame, n: nat, p: Point)
    requires n > 0 && Ancestor(f, n).Some?
    decreases n
  {
    if n == 1 then AllAdmit(f.parent.value, p) else Admits(f.parent.value, p) && OthersAdmit(f.parent.value, n - 1, p)
  }

  lemma SameAncestors(f: Views.Frame, g: Views.Frame, p: Point)
    requires f.parent == g.parent && f.subsurface == g.subsurface
    ensures AllAdmit(f, p) <==> AllAdmit(g, p)
  {
    if f.parent.Some? && f.subsurface {
      AllAdmitStep(f, p);
      AllAdmitStep(g, p);
    } else {
      assert forall n: nat | n > 0 :: Ancestor(f, n).None? && Ancestor(g, n).None?;
    }
  }

  /** The boxes of one ancestor count by what they admit. */
  lemma {:induction false} ReclipAdmits(f: Views.Frame, n: nat, boxes: Boxes, p: Point)
    requires n > 0 && Ancestor(f, n).Some?
    ensures AllAdmit(f, p) <==> OthersAdmit(f, n, p) && Admits(Ancestor(f, n).value, p)
    ensures AllAdmit(Reclip(f, n, boxes), p) <==>
      OthersAdmit(f, n, p) && Admits(WithBoxes(Ancestor(f, n).value, boxes), p)
    decreases n
  {
    var g := Reclip(f, n, boxes);
    AllAdmitStep(f, p);
    AllAdmitStep(g, p);
    if n == 1 {
      SameAncestors(f.parent.value, g.parent.value, p);
      assert Ancestor(f, 1) == Ancestor(f.parent.value, 0);
    } else {
      ReclipAdmits(f.parent.value, n - 1, boxes, p);
      assert Admits(g.parent.value, p) <==> Admits(f.parent.value, p);
    }
  }

  /** Which views a view's boxes reach: itself at depth 0, the subsurfaces under it by their depth. */
  type Depths = seq<Option<nat>>

  ghost predicate Family(views: seq<View>, i: nat, depths: Depths) {
    && i < |views| && |depths| == |views|
    && forall j | 0 <= j < |views| ::
         if j == i then depths[j] == Some(0)
         else depths[j].Some? ==>
           depths[j].value > 0 && Ancestor(views[j].look.frame, depths[j].value) == Some(views[i].look.frame)
  }

  function Reclipped(v: View, depth: Option<nat>, boxes: Boxes): View {
    if depth.None? then v else v.(look := v.look.(frame := Reclip(v.look.frame, depth.value, boxes)))
  }

  function ReclippedAll(views: seq<View>, depths: Depths, boxes: Boxes): (r: seq<View>)
    requires |depths| == |views|
    ensures |r| == |views|
    ensures forall j | 0 <= j < |views| :: r[j] == Reclipped(views[j], depths[j], boxes)
  {
    seq(|views|, j requires 0 <= j < |views| => Reclipped(views[j], depths[j], boxes))
  }

  /** damage_view, which does not look at the views below. */
  function ClipDamage(v: View): Region {
    if v.visible then Extents(v.look) else {}
  }

  /** The view draws something at `p` as far as its own box and those of all ancestors but the `n`-th go. */
  ghost predicate Paints(t: Target, v: View, n: nat, p: Point)
    requires n > 0 && Ancestor(v.look.frame, n).Some?
  {
    && OnScreen(t, v) && p in Extents(v.look)
    && (ClipEnabled(v.look.frame) && v.look.frame.clipBox.enabled ==> p in ClipBoxRegion(v.look.frame))
    && OthersAdmit(v.look.frame, n, p)
    && exists c :: PixelOf(t, v.look, p, c) != c
  }

  lemma SameContent(f: Views.Frame, g: Views.Frame)
    requires g == f.(parent := g.parent)
    ensures ContentClipped(g) == ContentClipped(f) && ContentBounds(g) == ContentBounds(f)
    ensures ContentRegion(g) == ContentRegion(f) && ClipBoxRegion(g) == ClipBoxRegion(f)
  {
    assert ContentBounds(g) == ContentBounds(f);
  }

  lemma SameExpanded(f: Views.Frame, g: Views.Frame, amount: nat)
    requires g == f.(parent := g.parent)
    ensures ExpandedContent(g, amount) == ExpandedContent(f, amount)
  {
    SameContent(f, g);
  }

  lemma SameGrown(v: Look, w: Look, p: Point)
    requires w == v.(frame := v.frame.(parent := w.frame.parent))
    ensures p in Grown(w, Total(w)) <==> p in Grown(v, Total(v))
    ensures p in Grown(w, w.border.inwidth) <==> p in Grown(v, v.border.inwidth)
  {
    SameExpanded(v.frame, w.frame, Total(v));
    SameExpanded(v.frame, w.frame, v.border.inwidth);
  }

  lemma SameInside(v: Look, w: Look, p: Point)
    requires w == v.(frame := v.frame.(parent := w.frame.parent))
    ensures p in Inside(w) <==> p in Inside(v)
  {
    SameContent(v.frame, w.frame);
  }

  lemma SameInk(v: Look, w: Look, p: Point)
    requires w.border == v.border && (p in Inside(w) <==> p in Inside(v))
    requires p in Grown(w, Total(w)) <==> p in Grown(v, Total(v))
    requires p in Grown(w, w.border.inwidth) <==> p in Grown(v, v.border.inwidth)
    ensures BorderInk(w, p) == BorderInk(v, p)
  {
  }

  lemma SameBorder(v: Look, w: Look, p: Point)
    requires w == v.(frame := v.frame.(parent := w.frame.parent))
    ensures BorderInk(w, p) == BorderInk(v, p)
  {
    SameGrown(v, w, p);
    SameInside(v, w, p);
    SameInk(v, w, p);
  }

  lemma SameBuffer(t: Target, v: Look, w: Look, p: Point, c: Colour)
    requires w == v.(frame := v.frame.(parent := w.frame.parent))
    ensures Extents(w) == Extents(v) && ShowsBuffer(w, p) == ShowsBuffer(v, p)
    ensures v.buffer.Some? ==> BufferPixel(t, w, p, c) == BufferPixel(t, v, p, c)
    ensures DecorInk(w, p) == DecorInk(v, p)
  {
    SameContent(v.frame, w.frame);
    assert BufferRegion(w) == BufferRegion(v) && DecorRegion(w) == DecorRegion(v);
  }

  /** A view's own pixels do not depend on what it is part of. */
  lemma SamePixel(t: Target, v: Look, w: Look, p: Point, c: Colour)
    requires w == v.(frame := v.frame.(parent := w.frame.parent))
    ensures PixelOf(t, w, p, c) == PixelOf(t, v, p, c)
  {
    SameBorder(v, w, p);
    SameBuffer(t, v, w, p, c);
    PixelByInk(t, v, p, c);
    PixelByInk(t, w, p, c);
  }

  lemma BoxClipAt(v: Look, p: Point)
    ensures p in BoxClip(v) <==> (p in Extents(v)
      && !((ClipEnabled(v.frame) && v.frame.clipBox.enabled ==> p in ClipBoxRegion(v.frame)) && AllAdmit(v.frame, p)))
  {
    InheritedExactly(v.frame, Extents(v), p);
  }

  /** Whatever is below, one pixel of a view below stays the same if and only if nothing is drawn there or the
      old and the new boxes both admit it or neither does. */
  lemma LayerExactly(t: Target, v: View, n: nat, boxes: Boxes, p: Point)
    requires n > 0 && Ancestor(v.look.frame, n).Some? && Contained(v.look)
    ensures var top := Ancestor(v.look.frame, n).value;
      (forall c :: PaintedLayer(t, Reclipped(v, Some(n), boxes), p, c) == PaintedLayer(t, v, p, c)) <==>
        (Paints(t, v, n, p) ==> (Admits(top, p) <==> Admits(WithBoxes(top, boxes), p)))
  {
    var w := Reclipped(v, Some(n), boxes);
    SameContent(v.look.frame, w.look.frame);
    ReclipAdmits(v.look.frame, n, boxes, p);
    BoxClipAt(v.look, p);
    BoxClipAt(w.look, p);
    forall c ensures PixelOf(t, w.look, p, c) == PixelOf(t, v.look, p, c) { SamePixel(t, v.look, w.look, p, c); }
    if p !in Extents(v.look) {
      forall c ensures PixelOf(t, v.look, p, c) == c { PaintsOnlyExtents(t, v.look, p, c); }
    } else {
      LayerInExtents(t, v, w, n, p);
    }
  }

  lemma LayerInExtents(t: Target, v: View, w: View, n: nat, p: Point)
    requires n > 0 && Ancestor(v.look.frame, n).Some? && p in Extents(v.look)
    requires OnScreen(t, w) == OnScreen(t, v) && forall c :: PixelOf(t, w.look, p, c) == PixelOf(t, v.look, p, c)
    ensures (forall c :: PaintedLayer(t, w, p, c) == PaintedLayer(t, v, p, c)) <==>
      (OnScreen(t, v) && (exists c :: PixelOf(t, v.look, p, c) != c) ==>
         (p in BoxClip(v.look) <==> p in BoxClip(w.look)))
  {
    if c :| OnScreen(t, v) && PixelOf(t, v.look, p, c) != c {
      assert PaintedLayer(t, w, p, c) == PaintedLayer(t, v, p, c) <==> (p in BoxClip(v.look) <==> p in BoxClip(w.look));
    }
  }

  /** No view changes a pixel outside the damage, whatever is below it. */
  ghost predicate LayersSame(t: Target, views: seq<View>, now: seq<View>, damage: Region)
    requires |now| == |views|
  {
    forall j, p, c | 0 <= j < |views| && p !in damage ::
      PaintedLayer(t, now[j], p, c) == PaintedLayer(t, views[j], p, c)
  }

  /** In the part of every subsurface that sticks out of the view, the old and the new boxes admit the same
      pixels, as far as anything is drawn there. */
  ghost predicate AdmitAlike(t: Target, views: seq<View>, i: nat, depths: Depths, boxes: Boxes)
    requires Family(views, i, depths)
  {
    var top := views[i].look.frame;
    forall j, p | 0 <= j < |views| && j != i && depths[j].Some? && p !in ClipDamage(views[i])
      && Paints(t, views[j], depths[j].value, p) :: Admits(top, p) <==> Admits(WithBoxes(top, boxes), p)
  }

  lemma OwnLayer(t: Target, v: View, boxes: Boxes, p: Point, c: Colour)
    requires Contained(v.look) && p !in ClipDamage(v)
    ensures PaintedLayer(t, Reclipped(v, Some(0), boxes), p, c) == PaintedLayer(t, v, p, c)
  {
    if v.visible {
      LayerOutside(t, v, p, c);
      LayerOutside(t, Reclipped(v, Some(0), boxes), p, c);
    }
  }

  /** A new clip box, of either kind, damages all it changes, whatever is below, if and only if the old and
      the new boxes admit the same drawn pixels of the subsurfaces outside the view's own extents. */
  lemma ClipBoxDamagedExactly(t: Target, views: seq<View>, i: nat, depths: Depths, boxes: Boxes)
    requires Family(views, i, depths) && forall v | v in views :: Contained(v.look)
    ensures LayersSame(t, views, ReclippedAll(views, depths, boxes), ClipDamage(views[i])) <==>
      AdmitAlike(t, views, i, depths, boxes)
  {
    var now, damage, top := ReclippedAll(views, depths, boxes), ClipDamage(views[i]), views[i].look.frame;
    if LayersSame(t, views, now, damage) {
      forall j, p | 0 <= j < |views| && j != i && depths[j].Some? && p !in damage
        && Paints(t, views[j], depths[j].value, p)
        ensures Admits(top, p) <==> Admits(WithBoxes(top, boxes), p)
      {
        assert views[j] in views && now[j] == Reclipped(views[j], depths[j], boxes);
        LayerExactly(t, views[j], depths[j].value, boxes, p);
      }
    }
    if AdmitAlike(t, views, i, depths, boxes) {
      forall j, p, c | 0 <= j < |views| && p !in damage
        ensures PaintedLayer(t, now[j], p, c) == PaintedLayer(t, views[j], p, c)
      {
        assert views[j] in views && now[j] == Reclipped(views[j], depths[j], boxes);
        if j == i {
          OwnLayer(t, views[i], boxes, p, c);
        } else if depths[j].Some? {
          LayerExactly(t, views[j], depths[j].value, boxes, p);
        }
      }
    }
  }

  lemma {:induction false} SameLayersSamePicture(t: Target, views: seq<View>, now: seq<View>, damage: Region, p: Point)
    requires |now| == |views| && LayersSame(t, views, now, damage) && p !in damage
    ensures Painted(t, now, p) == Painted(t, views, p)
    decreases |views|
  {
    if views != [] {
      assert forall j | 0 <= j < |views[1..]| :: views[1..][j] == views[j + 1] && now[1..][j] == now[j + 1];
      SameLayersSamePicture(t, views[1..], now[1..], damage, p);
      var below := Painted(t, views[1..], p);
      assert PaintedLayer(t, now[0], p, below) == PaintedLayer(t, views[0], p, below);
    }
  }

  /** So then no pixel of the picture changes outside the damage. */
  lemma ClipBoxIsDamaged(t: Target, views: seq<View>, i: nat, depths: Depths, boxes: Boxes, p: Point)
    requires Family(views, i, depths) && forall v | v in views :: Contained(v.look)
    requires AdmitAlike(t, views, i, depths, boxes) && p !in ClipDamage(views[i])
    ensures Painted(t, ReclippedAll(views, depths, boxes), p) == Painted(t, views, p)
  {
    ClipBoxDamagedExactly(t, views, i, depths, boxes);
    SameLayersSamePicture(t, views, ReclippedAll(views, depths, boxes), ClipDamage(views[i]), p);
  }

  // -------------------------------------------------------------- a witness

  const OFF := ClipBox(false, 0, 0, 0, 0)

  function Bare(f: Views.Frame, size: nat, pixels: Canvas): View {
    var none := Part(false, 0, 0, pixels);
    View(Look(f, false, Bounds(f.geometry.x, f.geometry.y, f.geometry.x + size, f.geometry.y + size),
              Some(Buffer(size, size, false, pixels)), 0, 0, {}, Border(0, 0, 0, 0),
              Decor(0, 0, 0, 0, 0, none, none, none, none, none, none, none, none)),
         true, {0}, {}, false, {})
  }

  /** A subsurface that sticks out of its parent at the lower right. */
  function StickingOut(pixels: Canvas): seq<View> {
    var parent := Views.Frame(Rect(0, 0, 20, 20), false, OFF, OFF, false, None);
    [Bare(Views.Frame(Rect(15, 15, 10, 10), false, OFF, OFF, true, Some(parent)), 10, pixels), Bare(parent, 20, pixels)]
  }

  /** A clip box on the parent takes the part outside away, and does not damage it. */
  lemma StickingOutIsNotDamaged(t: Target, pixels: Canvas)
    requires t.screen == 0
    ensures var views, depths: Depths := StickingOut(pixels), [Some(1), Some(0)];
      Family(views, 1, depths) && !AdmitAlike(t, views, 1, depths, Boxes(ClipBox(true, 0, 0, 20, 20), OFF))
  {
    var views, depths: Depths, p := StickingOut(pixels), [Some(1), Some(0)], Point(22, 22);
    var v, top := views[0], views[1].look.frame;
    var boxes := Boxes(ClipBox(true, 0, 0, 20, 20), OFF);
    assert Ancestor(v.look.frame, 1) == Ancestor(top, 0) == Some(top);
    assert Family(views, 1, depths);
    assert AllAdmit(top, p) by { assert forall n: nat | n > 0 :: Ancestor(top, n).None?; }
    var c := v.look.buffer.value.pixels(BufferPoint(v.look, p)) + 1;
    PixelByInk(t, v.look, p, c);
    assert TopInk(v.look, p).None? && ShowsBuffer(v.look, p);
    assert PixelOf(t, v.look, p, c) != c;
    assert Paints(t, v, 1, p);
    assert Admits(top, p) && !Admits(WithBoxes(top, boxes), p);
  }
}
