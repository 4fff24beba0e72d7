/** Whole frames: the top-down clip calculation, the bottom-up repaint into a scratch buffer that is
    never cleared, and the copy to the scanout buffers (libswc/compositor.c). */
module Frames {
  import opened Regions
  import opened Views
  import opened Painting

  const DEFAULT_BG: Colour := 0xff000000

  // ------------------------------------------------------------- overlay

  /** A rectangle outline drawn over everything. */
  datatype Overlay = Overlay(active: bool, x: int, y: int, width: nat, height: nat, color: Colour, borderWidth: nat)

  /** DRAW_CLIPPED: one strip, cut to the screen, in target-local coordinates. */
  function Strip(t: Target, x: int, y: int, w: nat, h: nat): Region {
    Box(Max(x, 0), Max(y, 0), Min(x + w, t.geometry.width), Min(y + h, t.geometry.height))
  }

  predicate OverlayShown(o: Overlay) {
    o.active && o.borderWidth > 0 && o.width > 0 && o.height > 0
  }

  function Thickness(o: Overlay): nat {
    Min(Min(o.borderWidth, o.width), o.height)
  }

  function DrawOverlay(t: Target, o: Overlay, canvas: Canvas): Canvas {
    if !OverlayShown(o) then canvas
    else
      var x, y, w, h, b := o.x - t.geometry.x, o.y - t.geometry.y, o.width, o.height, Thickness(o);
      var top := Fill(canvas, o.color, Strip(t, x, y, w, b));
      var bottom := Fill(top, o.color, Strip(t, x, y + h - b, w, b));
      var left := Fill(bottom, o.color, Strip(t, x, y, b, h));
      Fill(left, o.color, Strip(t, x + w - b, y, b, h))
  }

  /** The outline: the rectangle less its interior. */
  predicate OnOverlay(o: Overlay, p: Point) {
    var b := Thickness(o);
    && OverlayShown(o)
    && o.x <= p.x < o.x + o.width && o.y <= p.y < o.y + o.height
    && !(o.x + b <= p.x < o.x + o.width - b && o.y + b <= p.y < o.y + o.height - b)
  }

  /** The four strips cover exactly the outline. */
  lemma DrawOverlayAt(t: Target, o: Overlay, canvas: Canvas, p: Point)
    requires p in Area(t.geometry)
    ensures DrawOverlay(t, o, canvas)(Local(t, p)) == if OnOverlay(o, p) then o.color else canvas(Local(t, p))
  {
  }

  // ------------------------------------------------------------- one frame

  predicate OnScreen(t: Target, v: View) {
    v.visible && t.screen in v.screens
  }

  function Layer(t: Target, v: View, damage: Region, under: Canvas): Canvas {
    if OnScreen(t, v) then RepaintView(t, v, damage, under) else under
  }

  /** Bottom-up over the stack, which is topmost first. */
  function RepaintViews(t: Target, views: seq<View>, damage: Region, canvas: Canvas): Canvas
    decreases |views|
  {
    if views == [] then canvas
    else Layer(t, views[0], damage, RepaintViews(t, views[1..], damage, canvas))
  }

  /** renderer_repaint, without the copy to the scanout. */
  function RendererRepaint(t: Target, views: seq<View>, damage: Region, base: Region, o: Overlay,
                           scratch: Canvas): Canvas {
    DrawOverlay(t, o, RepaintViews(t, views, damage, Fill(scratch, DEFAULT_BG, ToLocal(t, base))))
  }

  /** calculate_damage followed by the repaint of one screen: only the exposed background is filled. */
  function Composite(t: Target, views: seq<View>, damage: Region, o: Overlay, scratch: Canvas): Canvas {
    RendererRepaint(t, Clipped(views, {}), damage, damage - OpaqueAll(views), o, scratch)
  }

  // ----------------------------------------------- the naive painter

  function PaintedLayer(t: Target, v: View, p: Point, under: Colour): Colour {
    if OnScreen(t, v) && p !in BoxClip(v.look) then PixelOf(t, v.look, p, under) else under
  }

  /** Every visible view of the screen, bottom-up over the background, limited by clip boxes only. */
  function Painted(t: Target, views: seq<View>, p: Point): Colour
    decreases |views|
  {
    if views == [] then DEFAULT_BG
    else PaintedLayer(t, views[0], p, Painted(t, views[1..], p))
  }

  function FullRender(t: Target, views: seq<View>, o: Overlay, p: Point): Colour {
    if OnOverlay(o, p) then o.color else Painted(t, views, p)
  }

  // -------------------------------------------------- what culling relies on

  /** The view is painted at `p` and nothing below it shows there. */
  predicate HidesLayer(t: Target, v: View, p: Point) {
    OnScreen(t, v) && p !in BoxClip(v.look) && Hides(v.look, p)
  }

  /** Looking down at `p`, a view that hides what is below it comes no later than the first that is
      taken to be opaque there. */
  predicate Hidden(t: Target, views: seq<View>, p: Point)
    decreases |views|
  {
    views == [] || HidesLayer(t, views[0], p)
    || (!(views[0].visible && p in OpaqueOf(views[0].look)) && Hidden(t, views[1..], p))
  }

  /** A view that hides whatever is below its own opaque region. */
  ghost predicate Sound(v: Look) {
    forall p | p in OpaqueOf(v) :: Hides(v, p)
  }

  /** A visible view whose geometry reaches the screen has the screen in its mask. */
  ghost predicate MaskSound(t: Target, v: View) {
    v.visible && Area(v.look.frame.geometry) * Area(t.geometry) != {} ==> t.screen in v.screens
  }

  lemma OpaqueAt(v: Look, p: Point)
    requires p in OpaqueOf(v)
    ensures BufferPoint(v, p) in v.opaqueRegion && p in Area(v.frame.geometry)
    ensures ClipEnabled(v.frame) && v.frame.clipBox.enabled ==> p in ClipBoxRegion(v.frame)
    ensures ContentClipped(v.frame) ==> p in ContentRegion(v.frame)
    ensures Constrained(v.frame) ==> p in Allowed(v)
  {
  }

  lemma OpaqueNotBoxed(v: Look, p: Point)
    requires p in OpaqueOf(v)
    ensures p !in BoxClip(v)
  {
    OpaqueAt(v, p);
    if !Constrained(v.frame) { UnconstrainedInherits(v.frame, Extents(v)); }
  }

  /** A window hides what is below its opaque region whatever buffer that region was committed with: its
      buffer fills its geometry, and its extents hold that. A window held back at its old buffer after
      a commit with a larger opaque region is one. */
  lemma WindowIsSound(v: Look)
    requires v.window && v.buffer.Some? && Area(v.frame.geometry) <= Extents(v)
    ensures Sound(v)
  {
    PlainIsSound(v);
  }

  /** So does a view whose geometry lies in its buffer, as it does when the client sets no window
      geometry, */
  lemma PlainIsSound(v: Look)
    requires v.buffer.Some? && Area(v.frame.geometry) <= BufferRegion(v) * Extents(v)
    ensures Sound(v)
  {
    forall p | p in OpaqueOf(v) ensures Hides(v, p) { OpaqueAt(v, p); }
  }

  /** any other view whose opaque region is trimmed to the buffer it shows, */
  lemma TrimmedIsSound(v: Look)
    requires Area(v.frame.geometry) <= Extents(v)
    requires v.opaqueRegion <= if v.buffer.Some? then Box(0, 0, v.buffer.value.width, v.buffer.value.height) else {}
    ensures Sound(v)
  {
    forall p | p in OpaqueOf(v) ensures Hides(v, p) { OpaqueAt(v, p); }
  }

  /** and one of no size, as a view without a buffer is. */
  lemma EmptyIsSound(v: Look)
    requires v.frame.geometry.width == 0 || v.frame.geometry.height == 0
    ensures Sound(v)
  {
    if p :| p in OpaqueOf(v) {
      OpaqueAt(v, p);
      assert false;
    }
  }

  lemma {:induction false} SoundIsHidden(t: Target, views: seq<View>, p: Point)
    requires forall v | v in views :: Sound(v.look) && MaskSound(t, v)
    requires p in Area(t.geometry)
    ensures Hidden(t, views, p)
    decreases |views|
  {
    if views != [] {
      var v := views[0];
      if v.visible && p in OpaqueOf(v.look) {
        OpaqueAt(v.look, p);
        assert p in Area(v.look.frame.geometry) * Area(t.geometry);
        OpaqueNotBoxed(v.look, p);
      } else {
        SoundIsHidden(t, views[1..], p);
      }
    }
  }

  lemma LayerAt(t: Target, v: View, damage: Region, under: Canvas, p: Point)
    ensures Layer(t, v, damage, under)(Local(t, p))
         == if OnScreen(t, v) && p in damage && p !in v.clip then PixelOf(t, v.look, p, under(Local(t, p)))
            else under(Local(t, p))
  {
    RepaintViewAt(t, v, damage, under, p);
  }

  /** One layer of the culled repaint does what the painter does, provided what is under it is right
      or cannot be seen. */
  lemma CulledLayer(t: Target, v: View, above: Region, damage: Region, under: Canvas, below: Colour, p: Point)
    requires p in damage && p !in above
    requires HidesLayer(t, v, p) || under(Local(t, p)) == below
    ensures Layer(t, if v.visible then Calculated(v, above) else v, damage, under)(Local(t, p))
         == PaintedLayer(t, v, p, below)
  {
    LayerAt(t, if v.visible then Calculated(v, above) else v, damage, under, p);
    PixelByInk(t, v.look, p, under(Local(t, p)));
    PixelByInk(t, v.look, p, below);
  }

  lemma RepaintsDown(t: Target, views: seq<View>, above: Region, damage: Region, start: Canvas)
    requires views != []
    ensures var v := views[0];
      var below := Clipped(views[1..], if v.visible then above + OpaqueOf(v.look) else above);
      RepaintViews(t, Clipped(views, above), damage, start)
      == Layer(t, if v.visible then Calculated(v, above) else v, damage, RepaintViews(t, below, damage, start))
  {
    var v := views[0];
    var below := Clipped(views[1..], if v.visible then above + OpaqueOf(v.look) else above);
    assert Clipped(views, above) == [if v.visible then Calculated(v, above) else v] + below;
    assert Clipped(views, above)[1..] == below;
  }

  /** Below a pixel that is hidden the culled repaint may differ from the painter; elsewhere they agree. */
  lemma {:induction false} CulledAgrees(t: Target, views: seq<View>, above: Region, damage: Region, start: Canvas,
                                        p: Point)
    requires Hidden(t, views, p) && p in damage && p !in above
    requires p !in OpaqueAll(views) ==> start(Local(t, p)) == DEFAULT_BG
    ensures RepaintViews(t, Clipped(views, above), damage, start)(Local(t, p)) == Painted(t, views, p)
    decreases |views|
  {
    if views != [] {
      var v, rest := views[0], views[1..];
      var above' := if v.visible then above + OpaqueOf(v.look) else above;
      RepaintsDown(t, views, above, damage, start);
      if !HidesLayer(t, v, p) { CulledAgrees(t, rest, above', damage, start, p); }
      CulledLayer(t, v, above, damage, RepaintViews(t, Clipped(rest, above'), damage, start), Painted(t, rest, p), p);
    }
  }

  lemma CompositeAt(t: Target, views: seq<View>, damage: Region, o: Overlay, scratch: Canvas, p: Point)
    requires p in Area(t.geometry)
    ensures var start := Fill(scratch, DEFAULT_BG, ToLocal(t, damage - OpaqueAll(views)));
      && start(Local(t, p)) == (if p in damage && p !in OpaqueAll(views) then DEFAULT_BG else scratch(Local(t, p)))
      && Composite(t, views, damage, o, scratch)(Local(t, p))
         == if OnOverlay(o, p) then o.color else RepaintViews(t, Clipped(views, {}), damage, start)(Local(t, p))
  {
    var start := Fill(scratch, DEFAULT_BG, ToLocal(t, damage - OpaqueAll(views)));
    ToLocalAt(t, damage - OpaqueAll(views), p);
    DrawOverlayAt(t, o, RepaintViews(t, Clipped(views, {}), damage, start), p);
  }

  /** Occlusion culling is invisible: whatever the scratch buffer held, every damaged pixel comes out
      as the naive painter would have it. */
  lemma OcclusionCulling(t: Target, views: seq<View>, damage: Region, o: Overlay, scratch: Canvas, p: Point)
    requires p in damage && p in Area(t.geometry) && (OnOverlay(o, p) || Hidden(t, views, p))
    ensures Composite(t, views, damage, o, scratch)(Local(t, p)) == FullRender(t, views, o, p)
  {
    CompositeAt(t, views, damage, o, scratch, p);
    if !OnOverlay(o, p) {
      CulledAgrees(t, views, {}, damage, Fill(scratch, DEFAULT_BG, ToLocal(t, damage - OpaqueAll(views))), p);
    }
  }

  /** Outside the damage nothing but the overlay is drawn. */
  lemma {:induction false} UndamagedUntouched(t: Target, views: seq<View>, damage: Region, canvas: Canvas, p: Point)
    requires p !in damage
    ensures RepaintViews(t, views, damage, canvas)(Local(t, p)) == canvas(Local(t, p))
    decreases |views|
  {
    if views != [] {
      UndamagedUntouched(t, views[1..], damage, canvas, p);
      LayerAt(t, views[0], damage, RepaintViews(t, views[1..], damage, canvas), p);
    }
  }

  lemma CompositeUndamaged(t: Target, views: seq<View>, damage: Region, o: Overlay, scratch: Canvas, p: Point)
    requires p !in damage && p in Area(t.geometry)
    ensures Composite(t, views, damage, o, scratch)(Local(t, p)) == if OnOverlay(o, p) then o.color
        else scratch(Local(t, p))
  {
    CompositeAt(t, views, damage, o, scratch, p);
    var start := Fill(scratch, DEFAULT_BG, ToLocal(t, damage - OpaqueAll(views)));
    UndamagedUntouched(t, Clipped(views, {}), damage, start, p);
  }

  // ---------------------------------------------------------- runs of frames

  /** A scanout buffer and where it is out of date. */
  datatype Scanout = Scanout(pixels: Canvas, stale: Region)

  datatype Display = Display(scratch: Canvas, buffers: seq<Scanout>)

  /** One update of the screen, presented in buffer number `back`. `total` is what wld_surface_damage
      makes of the damage: any region that includes it. */
  datatype Update = Update(views: seq<View>, overlay: Overlay, damage: Region, total: Region, back: nat)

  /** The damage makes every buffer out of date. */
  function Age(buffers: seq<Scanout>, damage: Region): (r: seq<Scanout>)
    ensures |r| == |buffers|
    ensures forall i | 0 <= i < |buffers| :: r[i] == Scanout(buffers[i].pixels, buffers[i].stale + damage)
  {
    seq(|buffers|, i requires 0 <= i < |buffers| => Scanout(buffers[i].pixels, buffers[i].stale + damage))
  }

  /** Composites into the scratch, then copies only the damaged part of it out. */
  function Present(t: Target, d: Display, f: Update): (r: Display)
    ensures |r.buffers| == |d.buffers|
  {
    var aged := Age(d.buffers, f.damage);
    var scratch := Composite(t, f.views, f.total, f.overlay, d.scratch);
    if f.back >= |d.buffers| then Display(scratch, aged)
    else
      var pixels := Copy(aged[f.back].pixels, scratch, 0, 0, ToLocal(t, f.total));
      Display(scratch, aged[f.back := Scanout(pixels, aged[f.back].stale - f.total)])
  }

  function Full(t: Target, f: Update, p: Point): Colour {
    FullRender(t, f.views, f.overlay, p)
  }

  ghost predicate ValidUpdate(t: Target, f: Update) {
    f.damage <= f.total && forall p | p in f.total && p in Area(t.geometry) && !OnOverlay(f.overlay, p) ::
      Hidden(t, f.views, p)
  }

  ghost predicate CanvasShows(t: Target, c: Canvas, f: Update, except: Region) {
    forall p | p in Area(t.geometry) && p !in except :: c(Local(t, p)) == Full(t, f, p)
  }

  /** The scratch shows the update everywhere on the screen, and each scanout buffer wherever it is not stale. */
  ghost predicate Shows(t: Target, d: Display, f: Update) {
    && CanvasShows(t, d.scratch, f, {})
    && forall i | 0 <= i < |d.buffers| :: CanvasShows(t, d.buffers[i].pixels, f, d.buffers[i].stale)
  }

  /** The new update's damage covers every pixel that comes out differently. */
  ghost predicate Covers(t: Target, was: Update, now: Update) {
    forall p | p in Area(t.geometry) && p !in now.damage :: Full(t, was, p) == Full(t, now, p)
  }

  /** Where the scratch already shows the update, or the damage is, compositing makes it show it. */
  lemma ScratchShows(t: Target, views: seq<View>, o: Overlay, total: Region, scratch: Canvas, p: Point)
    requires p in Area(t.geometry)
    requires p in total && !OnOverlay(o, p) ==> Hidden(t, views, p)
    requires p in total || OnOverlay(o, p) || scratch(Local(t, p)) == FullRender(t, views, o, p)
    ensures Composite(t, views, total, o, scratch)(Local(t, p)) == FullRender(t, views, o, p)
  {
    if p in total {
      OcclusionCulling(t, views, total, o, scratch, p);
    } else {
      CompositeUndamaged(t, views, total, o, scratch, p);
    }
  }

  lemma CopiedOut(t: Target, before: Canvas, scratch: Canvas, total: Region, p: Point)
    ensures Copy(before, scratch, 0, 0, ToLocal(t, total))(Local(t, p))
         == if p in total then scratch(Local(t, p)) else before(Local(t, p))
  {
    assert Shift(Local(t, p), 0, 0) == Local(t, p);
    ToLocalAt(t, total, p);
  }

  /** What already shows the update outside the damage, scratch and buffers alike. */
  ghost predicate Ready(t: Target, d: Display, f: Update) {
    && ValidUpdate(t, f)
    && (forall p | p in Area(t.geometry) && p !in f.damage :: d.scratch(Local(t, p)) == Full(t, f, p))
    && (forall i | 0 <= i < |d.buffers| :: CanvasShows(t, d.buffers[i].pixels, f, d.buffers[i].stale + f.damage))
  }

  lemma PresentScratch(t: Target, d: Display, f: Update)
    requires Ready(t, d, f)
    ensures CanvasShows(t, Present(t, d, f).scratch, f, {})
  {
    forall p | p in Area(t.geometry) ensures Present(t, d, f).scratch(Local(t, p)) == Full(t, f, p) {
      ScratchShows(t, f.views, f.overlay, f.total, d.scratch, p);
    }
  }

  lemma PresentBuffer(t: Target, d: Display, f: Update, i: nat)
    requires Ready(t, d, f) && CanvasShows(t, Present(t, d, f).scratch, f, {}) && i < |d.buffers|
    ensures CanvasShows(t, Present(t, d, f).buffers[i].pixels, f, Present(t, d, f).buffers[i].stale)
  {
    var scratch := Present(t, d, f).scratch;
    forall p | p in Area(t.geometry) && p !in Present(t, d, f).buffers[i].stale
      ensures Present(t, d, f).buffers[i].pixels(Local(t, p)) == Full(t, f, p)
    {
      if i == f.back {
        CopiedOut(t, d.buffers[i].pixels, scratch, f.total, p);
      }
    }
  }

  lemma PresentShows(t: Target, d: Display, f: Update)
    requires Ready(t, d, f)
    ensures Shows(t, Present(t, d, f), f)
  {
    PresentScratch(t, d, f);
    forall i | 0 <= i < |d.buffers|
      ensures CanvasShows(t, Present(t, d, f).buffers[i].pixels, f, Present(t, d, f).buffers[i].stale)
    {
      PresentBuffer(t, d, f, i);
    }
  }

  lemma CoveredShows(t: Target, c: Canvas, was: Update, f: Update, stale: Region)
    requires Covers(t, was, f) && CanvasShows(t, c, was, stale)
    ensures CanvasShows(t, c, f, stale + f.damage)
  {
  }

  lemma PresentKeepsShowing(t: Target, d: Display, was: Update, f: Update)
    requires ValidUpdate(t, f) && Shows(t, d, was) && Covers(t, was, f)
    ensures Shows(t, Present(t, d, f), f)
  {
    CoveredShows(t, d.scratch, was, f, {});
    forall i | 0 <= i < |d.buffers| ensures CanvasShows(t, d.buffers[i].pixels, f, d.buffers[i].stale + f.damage) {
      CoveredShows(t, d.buffers[i].pixels, was, f, d.buffers[i].stale);
    }
    PresentShows(t, d, f);
  }

  function Run(t: Target, d: Display, updates: seq<Update>): (r: Display)
    ensures |r.buffers| == |d.buffers|
    decreases |updates|
  {
    if updates == [] then d else Run(t, Present(t, d, updates[0]), updates[1..])
  }

  /** Every update is sound and damages what it changes. */
  ghost predicate Follows(t: Target, was: Update, updates: seq<Update>)
    decreases |updates|
  {
    updates == [] ||
    (ValidUpdate(t, updates[0]) && Covers(t, was, updates[0]) && Follows(t, updates[0], updates[1..]))
  }

  function Last(was: Update, updates: seq<Update>): Update
    decreases |updates|
  {
    if updates == [] then was else Last(updates[0], updates[1..])
  }

  lemma {:induction false} RunKeepsShowing(t: Target, d: Display, was: Update, updates: seq<Update>)
    requires Shows(t, d, was) && Follows(t, was, updates)
    ensures Shows(t, Run(t, d, updates), Last(was, updates))
    decreases |updates|
  {
    if updates != [] {
      PresentKeepsShowing(t, d, was, updates[0]);
      RunKeepsShowing(t, Present(t, d, updates[0]), updates[0], updates[1..]);
    }
  }

  lemma FirstShows(t: Target, d: Display, first: Update)
    requires ValidUpdate(t, first) && first.damage == Area(t.geometry)
    ensures Shows(t, Present(t, d, first), first)
  {
    assert Ready(t, d, first);
    PresentShows(t, d, first);
  }

  /** Incremental rendering is full rendering. After any run of updates that begins with one damaging
      the whole screen and then damages what changes, whatever superset of it is repainted, the scratch
      buffer holds the full render of the last update on the whole screen, and every scanout buffer does
      wherever it is not out of date; whatever they held at the start, and overlays, which are drawn
      unclipped, included. */
  lemma IncrementalIsFull(t: Target, d: Display, first: Update, rest: seq<Update>, p: Point)
    requires ValidUpdate(t, first) && first.damage == Area(t.geometry) && Follows(t, first, rest)
    requires p in Area(t.geometry)
    ensures var last, end := Last(first, rest), Run(t, Present(t, d, first), rest);
      && end.scratch(Local(t, p)) == Full(t, last, p)
      && forall i | 0 <= i < |end.buffers| && p !in end.buffers[i].stale ::
           end.buffers[i].pixels(Local(t, p)) == Full(t, last, p)
  {
    FirstShows(t, d, first);
    RunKeepsShowing(t, Present(t, d, first), first, rest);
    ShowsAt(t, Run(t, Present(t, d, first), rest), Last(first, rest), p);
  }

  lemma ShowsAt(t: Target, d: Display, f: Update, p: Point)
    requires Shows(t, d, f) && p in Area(t.geometry)
    ensures d.scratch(Local(t, p)) == Full(t, f, p)
    ensures forall i | 0 <= i < |d.buffers| && p !in d.buffers[i].stale ::
        d.buffers[i].pixels(Local(t, p)) == Full(t, f, p)
  {
    forall i | 0 <= i < |d.buffers| && p !in d.buffers[i].stale
      ensures d.buffers[i].pixels(Local(t, p)) == Full(t, f, p) {
      assert CanvasShows(t, d.buffers[i].pixels, f, d.buffers[i].stale);
    }
  }

  /** What presenting does to a scanout buffer. The one presented gets exactly the total damage from the scratch buffer
      and is out of date no more there; every other only comes to be out of date where this update is damaged. */
  lemma PresentedExactly(t: Target, d: Display, f: Update, i: nat, p: Point)
    requires i < |d.buffers|
    ensures var was, now, scratch := d.buffers[i], Present(t, d, f).buffers[i], Present(t, d, f).scratch;
      if i == f.back then
        && now.pixels(Local(t, p)) == (if p in f.total then scratch(Local(t, p)) else was.pixels(Local(t, p)))
        && (p in now.stale <==> (p in was.stale || p in f.damage) && p !in f.total)
      else now.pixels == was.pixels && (p in now.stale <==> p in was.stale || p in f.damage)
  {
    CopiedOut(t, d.buffers[i].pixels, Present(t, d, f).scratch, f.total, p);
  }
}
