/** Which pixels a change to the view stack can alter, against what the source damages for it, and the
    damage calculation as the loops of the source (libswc/compositor.c). */
module Damage {
  import opened Words
  import opened Regions
  import opened Views
  import opened Painting
  import opened Frames
  import G = Geometry

  /** The decoration and its parts lie inside the extents; update_extents sees to the decoration. */
  ghost predicate Contained(v: Look) {
    && Area(Outer(v.frame.geometry, v.decor)) <= Extents(v)
    && forall d | d in PlacedParts(v.frame.geometry, v.decor) :: Area(d.area) <= Extents(v)
  }

  lemma {:induction false} PartsOutside(parts: seq<Placed>, p: Point, c: Colour)
    requires forall d | d in parts :: p !in Area(d.area)
    ensures PartsPixel(parts, p, c) == c
    decreases |parts|
  {
    if parts != [] { PartsOutside(parts[1..], p, c); }
  }

  /** A view paints nothing outside its extents. */
  lemma PaintsOnlyExtents(t: Target, v: Look, p: Point, c: Colour)
    requires Contained(v) && p !in Extents(v)
    ensures PixelOf(t, v, p, c) == c
  {
    PartsOutside(PlacedParts(v.frame.geometry, v.decor), p, c);
  }

  lemma LayerOutside(t: Target, v: View, p: Point, c: Colour)
    requires Contained(v.look) && p !in Extents(v.look)
    ensures PaintedLayer(t, v, p, c) == c
  {
    PaintsOnlyExtents(t, v.look, p, c);
  }

  lemma {:induction false} SameAbove(t: Target, pre: seq<View>, a: seq<View>, b: seq<View>, p: Point)
    requires Painted(t, a, p) == Painted(t, b, p)
    ensures Painted(t, pre + a, p) == Painted(t, pre + b, p)
    decreases |pre|
  {
    if pre == [] {
      assert pre + a == a && pre + b == b;
    } else {
      assert (pre + a)[1..] == pre[1..] + a && (pre + b)[1..] == pre[1..] + b;
      SameAbove(t, pre[1..], a, b, p);
    }
  }

  lemma OnTop(t: Target, v: View, rest: seq<View>, p: Point)
    ensures Painted(t, [v] + rest, p) == PaintedLayer(t, v, p, Painted(t, rest, p))
  {
    assert ([v] + rest)[1..] == rest;
  }

  /** Whatever a view turns into by a move, a resize, a hide or a show, the picture changes only in its
      extents before and after: the two boxes that are damaged for a move. */
  lemma ReplacedViewIsLocal(t: Target, pre: seq<View>, v: View, v': View, post: seq<View>, p: Point)
    requires Contained(v.look) && Contained(v'.look)
    requires p !in Extents(v.look) + Extents(v'.look)
    ensures Painted(t, pre + ([v] + post), p) == Painted(t, pre + ([v'] + post), p)
  {
    OnTop(t, v, post, p);
    OnTop(t, v', post, p);
    LayerOutside(t, v, p, Painted(t, post, p));
    LayerOutside(t, v', p, Painted(t, post, p));
    SameAbove(t, pre, [v] + post, [v'] + post, p);
  }

  /** Restacking one view, up or down past any others, changes only pixels in that view's extents,
      which is what raising it damages. */
  lemma RestackIsLocal(t: Target, pre: seq<View>, v: View, mid: seq<View>, post: seq<View>, p: Point)
    requires Contained(v.look) && p !in Extents(v.look)
    ensures Painted(t, pre + ([v] + (mid + post)), p) == Painted(t, pre + (mid + ([v] + post)), p)
  {
    OnTop(t, v, mid + post, p);
    LayerOutside(t, v, p, Painted(t, mid + post, p));
    OnTop(t, v, post, p);
    LayerOutside(t, v, p, Painted(t, post, p));
    SameAbove(t, mid, post, [v] + post, p);
    SameAbove(t, pre, [v] + (mid + post), mid + ([v] + post), p);
  }

  /** What move makes of a view: a new place, new extents, a new screen mask if it is visible, and no
      clip until the next calculation. */
  function Moved(v: View, x: int, y: int, screens: set<ScreenId>): View {
    var g := v.look.frame.geometry;
    if x == g.x && y == g.y then v
    else
      var g' := Rect(x, y, g.width, g.height);
      var look := v.look.(frame := v.look.frame.(geometry := g'),
        extents := UpdatedExtents(g', v.look.border, v.look.decor, v.look.buffer, v.look.offsetX, v.look.offsetY));
      if v.visible then v.(look := look, screens := screens, clip := {}) else v.(look := look)
  }

  /** A visible view damages where it was and, if it moved, where it is. */
  function MoveDamage(v: View, w: View): Region {
    if !v.visible then {} else if w.look.frame.geometry == v.look.frame.geometry then Extents(v.look)
    else Extents(v.look) + Extents(w.look)
  }

  /** Moving a view repaints every pixel that the move changes. */
  lemma MoveIsDamaged(t: Target, views: seq<View>, i: nat, x: int, y: int, screens: set<ScreenId>, p: Point)
    requires i < |views| && Contained(views[i].look) && Contained(Moved(views[i], x, y, screens).look)
    requires p !in MoveDamage(views[i], Moved(views[i], x, y, screens))
    ensures Painted(t, views[i := Moved(views[i], x, y, screens)], p) == Painted(t, views, p)
  {
    var v, w := views[i], Moved(views[i], x, y, screens);
    var pre, post := views[..i], views[i + 1..];
    assert views == pre + ([v] + post) && views[i := w] == pre + ([w] + post);
    if v.visible {
      if w != v { ReplacedViewIsLocal(t, pre, v, w, post, p); }
    } else {
      OnTop(t, v, post, p);
      OnTop(t, w, post, p);
      SameAbove(t, pre, [v] + post, [w] + post, p);
    }
  }

  /** How one view may change: not at all, unseen, or with what it covers before and after damaged. */
  ghost predicate ChangeDamaged(v: View, w: View, damage: Region) {
    || v == w
    || (!v.visible && !w.visible)
    || (Contained(v.look) && Contained(w.look) && Extents(v.look) + Extents(w.look) <= damage)
  }

  /** Any number of views changing at once, as when a move takes the subsurfaces along and with them the
      boxes they inherit: if each damages what it covers before and after, no undamaged pixel changes. */
  lemma {:induction false} ChangesAreDamaged(t: Target, views: seq<View>, changed: seq<View>, damage: Region, p: Point)
    requires |changed| == |views| && p !in damage
    requires forall i | 0 <= i < |views| :: ChangeDamaged(views[i], changed[i], damage)
    ensures Painted(t, changed, p) == Painted(t, views, p)
    decreases |views|
  {
    if views != [] {
      var v, w, below := views[0], changed[0], Painted(t, views[1..], p);
      ChangesAreDamaged(t, views[1..], changed[1..], damage, p);
      assert ChangeDamaged(v, w, damage);
      if v != w && (v.visible || w.visible) {
        LayerOutside(t, v, p, below);
        LayerOutside(t, w, p, below);
      }
    }
  }

  // ---------------------------------------------------------- screen masks

  /** The mask computed from the screens' geometries is what the repaint relies on. */
  lemma ComputedMaskIsSound(t: Target, v: View, screens: map<G.Id, Rect>)
    requires t.screen in screens && screens[t.screen] == t.geometry
    requires v.visible ==> v.screens == G.MaskOf(screens, v.look.frame.geometry)
    requires G.RectWidthsAdd(t.geometry, v.look.frame.geometry)
    ensures MaskSound(t, v)
  {
    if v.visible && Area(v.look.frame.geometry) * Area(t.geometry) != {} {
      assert Area(t.geometry) * Area(v.look.frame.geometry) == Area(v.look.frame.geometry) * Area(t.geometry);
      G.OverlapNeverMisses(t.geometry, v.look.frame.geometry);
    }
  }

  // ------------------------------------------------------------- attaching

  /** A client's window geometry inside its buffer. */
  datatype WindowGeometry = WindowGeometry(x: int, y: int, width: nat, height: nat)

  /** Where the geometry comes from: the window geometry if there is a buffer and it is not empty. */
  predicate Cut(buffer: Option<Buffer>, w: Option<WindowGeometry>) {
    buffer.Some? && w.Some? && w.value.width > 0 && w.value.height > 0
  }

  function AttachedGeometry(g: Rect, buffer: Option<Buffer>, w: Option<WindowGeometry>): Rect {
    if Cut(buffer, w) then Rect(g.x, g.y, w.value.width, w.value.height)
    else if buffer.Some? then Rect(g.x, g.y, buffer.value.width, buffer.value.height)
    else Rect(g.x, g.y, 0, 0)
  }

  /** view_attach of a buffer, or of none: the geometry follows the window geometry or the buffer, the
      extents are updated if that changed its size, and only then does the view take the new buffer. */
  function Attached(v: Look, buffer: Option<Buffer>, w: Option<WindowGeometry>): Look {
    var g' := AttachedGeometry(v.frame.geometry, buffer, w);
    var ox, oy := if Cut(buffer, w) then w.value.x else 0, if Cut(buffer, w) then w.value.y else 0;
    var sized := v.(frame := v.frame.(geometry := g'), offsetX := ox, offsetY := oy);
    (if g' == v.frame.geometry then sized
     else sized.(extents := UpdatedExtents(g', v.border, v.decor, v.buffer, ox, oy))).(buffer := buffer)
  }

  predicate Resized(v: Look, buffer: Option<Buffer>, w: Option<WindowGeometry>) {
    AttachedGeometry(v.frame.geometry, buffer, w) != v.frame.geometry
  }

  /** A resized view has its border flagged, and its screens looked up again if it is visible. */
  function AttachedView(v: View, buffer: Option<Buffer>, w: Option<WindowGeometry>, screens: set<ScreenId>): View {
    var look := Attached(v.look, buffer, w);
    if !Resized(v.look, buffer, w) then v.(look := look)
    else v.(look := look, changed := true, screens := if v.visible then screens else v.screens)
  }

  /** What attaching damages by itself: where exactly one of the old and the new extents is. */
  function AttachDamage(v: View, w: View): Region {
    if !v.visible || w.look.frame.geometry == v.look.frame.geometry then {}
    else Extents(v.look) + Extents(w.look) - Extents(v.look) * Extents(w.look)
  }

  lemma OutsideBoth(v: View, v': View, p: Point)
    requires v.visible && v'.changed && v'.look.frame.geometry != v.look.frame.geometry
    requires p !in AttachDamage(v, v') && p !in DamageOf(v') && p !in Area(v'.look.frame.geometry)
    ensures p !in Extents(v.look) + Extents(v'.look)
  {
  }

  lemma ReplacedAtIsLocal(t: Target, views: seq<View>, i: nat, v': View, p: Point)
    requires i < |views| && Contained(views[i].look) && Contained(v'.look)
    requires p !in Extents(views[i].look) + Extents(v'.look)
    ensures Painted(t, views[i := v'], p) == Painted(t, views, p)
  {
    var pre, post := views[..i], views[i + 1..];
    assert views == pre + ([views[i]] + post) && views[i := v'] == pre + ([v'] + post);
    ReplacedViewIsLocal(t, pre, views[i], v', post, p);
  }

  lemma AttachedIsResized(v: View, buffer: Option<Buffer>, w: Option<WindowGeometry>, screens: set<ScreenId>)
    requires Resized(v.look, buffer, w)
    ensures var v' := AttachedView(v, buffer, w, screens);
      v'.changed && v'.look == Attached(v.look, buffer, w) && v'.look.frame.geometry != v.look.frame.geometry
  {
  }

  /** Resizing by an attach repaints all it changes except inside the new geometry, where the client's
      own damage has to say what is new. */
  lemma AttachLeavesContent(t: Target, views: seq<View>, i: nat, buffer: Option<Buffer>, w: Option<WindowGeometry>,
                            screens: set<ScreenId>, p: Point)
    requires i < |views| && views[i].visible && Resized(views[i].look, buffer, w)
    requires Contained(views[i].look) && Contained(Attached(views[i].look, buffer, w))
    requires var v := AttachedView(views[i], buffer, w, screens);
      p !in AttachDamage(views[i], v) && p !in DamageOf(v) && p !in Area(v.look.frame.geometry)
    ensures Painted(t, views[i := AttachedView(views[i], buffer, w, screens)], p) == Painted(t, views, p)
  {
    var v' := AttachedView(views[i], buffer, w, screens);
    AttachedIsResized(views[i], buffer, w, screens);
    OutsideBoth(views[i], v', p);
    ReplacedAtIsLocal(t, views, i, v', p);
  }

  predicate PlacedInInt32(g: Rect) {
    FitsInt32(Bounds(g.x, g.y, g.x + g.width, g.y + g.height))
  }

  /** Without window geometry the extents always hold the attached buffer, although they are computed
      from the previous one. */
  lemma AttachedBufferInside(v: Look, buffer: Buffer)
    requires Area(v.frame.geometry) <= Extents(v)
    requires PlacedInInt32(Rect(v.frame.geometry.x, v.frame.geometry.y, buffer.width, buffer.height))
    ensures var a := Attached(v, Some(buffer), None);
      Area(Rect(OriginX(a), OriginY(a), buffer.width, buffer.height)) <= Extents(a)
          && Area(a.frame.geometry) <= Extents(a)
  {
  }

  function PreviousWidth(v: Look, w: WindowGeometry): nat {
    if v.buffer.Some? then v.buffer.value.width else w.width
  }

  function PreviousHeight(v: Look, w: WindowGeometry): nat {
    if v.buffer.Some? then v.buffer.value.height else w.height
  }

  /** The boxes that the updated extents of a resizing attach are made of fit int32. */
  ghost predicate AttachFits(v: Look, w: WindowGeometry) {
    forall d | d in DrawnBoxes(Rect(v.frame.geometry.x, v.frame.geometry.y, w.width, w.height),
                               v.border, v.decor, v.buffer, w.x, w.y) :: FitsInt32(d)
  }

  lemma AttachedExtents(v: Look, buffer: Buffer, w: WindowGeometry)
    requires w.width > 0 && w.height > 0 && Resized(v, Some(buffer), Some(w)) && AttachFits(v, w)
    ensures var a, g, total := Attached(v, Some(buffer), Some(w)), v.frame.geometry,
        v.border.outwidth + v.border.inwidth;
      && a.extents.x1 <= g.x - w.x && a.extents.y1 <= g.y - w.y
      && a.extents.x2 == g.x + Max(w.width + Max(total, v.decor.right), PreviousWidth(v, w) - w.x)
      && a.extents.y2 == g.y + Max(w.height + Max(total, v.decor.bottom), PreviousHeight(v, w) - w.y)
  {
    var boxes := DrawnBoxes(Rect(v.frame.geometry.x, v.frame.geometry.y, w.width, w.height), v.border, v.decor,
        v.buffer, w.x, w.y);
    assert boxes[0] in boxes && boxes[1] in boxes && boxes[2] in boxes;
  }

  /** A box that is not empty lies in another exactly when its edges do. */
  lemma BoxInBox(r: Rect, b: Bounds)
    requires r.width > 0 && r.height > 0
    ensures Area(r) <= Box(b.x1, b.y1, b.x2, b.y2) <==>
      b.x1 <= r.x && b.y1 <= r.y && r.x + r.width <= b.x2 && r.y + r.height <= b.y2
  {
    assert Point(r.x, r.y) in Area(r) && Point(r.x + r.width - 1, r.y + r.height - 1) in Area(r);
  }

  /** A resizing attach with window geometry, on a view that is not a window: the extents hold the new
      buffer exactly when it ends, to the right and below, no further than border, decoration and the
      previous buffer do. Otherwise the rest of it is outside the extents. */
  lemma AttachedBufferInsideExactly(v: Look, buffer: Buffer, w: WindowGeometry)
    requires !v.window && buffer.width > 0 && buffer.height > 0 && w.width > 0 && w.height > 0
    requires Resized(v, Some(buffer), Some(w)) && AttachFits(v, w)
    ensures var a, total := Attached(v, Some(buffer), Some(w)), v.border.outwidth + v.border.inwidth;
      BufferRegion(a) <= Extents(a) <==>
        && buffer.width - w.x <= Max(w.width + Max(total, v.decor.right), PreviousWidth(v, w) - w.x)
        && buffer.height - w.y <= Max(w.height + Max(total, v.decor.bottom), PreviousHeight(v, w) - w.y)
  {
    var a := Attached(v, Some(buffer), Some(w));
    AttachedExtents(v, buffer, w);
    BoxInBox(Rect(OriginX(a), OriginY(a), buffer.width, buffer.height), a.extents);
  }

  /** An attach that does not resize leaves the extents as they were, although the buffer and its offset
      may have changed. */
  lemma UnresizedBufferInsideExactly(v: Look, buffer: Buffer, w: Option<WindowGeometry>)
    requires !v.window && buffer.width > 0 && buffer.height > 0 && !Resized(v, Some(buffer), w)
    ensures var a, g := Attached(v, Some(buffer), w), v.frame.geometry;
      var ox, oy := if Cut(Some(buffer), w) then w.value.x else 0, if Cut(Some(buffer), w) then w.value.y else 0;
      && a.extents == v.extents
      && (BufferRegion(a) <= Extents(a) <==>
            && v.extents.x1 <= g.x - ox && g.x - ox + buffer.width <= v.extents.x2
            && v.extents.y1 <= g.y - oy && g.y - oy + buffer.height <= v.extents.y2)
  {
    var a := Attached(v, Some(buffer), w);
    BoxInBox(Rect(OriginX(a), OriginY(a), buffer.width, buffer.height), a.extents);
  }

  /** What is outside the extents is not painted: some pixel of the buffer is lost whenever they do not
      hold all of it. */
  lemma OutsideIsLost(t: Target, a: Look, c: Colour) returns (p: Point)
    requires Contained(a) && !(BufferRegion(a) <= Extents(a))
    ensures p in BufferRegion(a) && PixelOf(t, a, p, c) == c
  {
    p :| p in BufferRegion(a) && p !in Extents(a);
    PaintsOnlyExtents(t, a, p, c);
  }

  /** Such a view: a popup whose first buffer has a shadow around its window geometry. */
  lemma AttachedShadowIsLost(t: Target, c: Colour, pixels: Canvas)
    ensures var empty := Part(false, 0, 0, pixels);
      var off := ClipBox(false, 0, 0, 0, 0);
      var v := Look(Views.Frame(Rect(100, 100, 0, 0), false, off, off, false, None),
                    false, Bounds(100, 100, 100, 100), None, 0, 0, {}, Border(0, 0, 0, 0),
                    Decor(0, 0, 0, 0, 0, empty, empty, empty, empty, empty, empty, empty, empty));
      var a := Attached(v, Some(Buffer(40, 40, false, pixels)), Some(WindowGeometry(10, 10, 20, 20)));
      Point(125, 125) in BufferRegion(a) && PixelOf(t, a, Point(125, 125), c) == c
  {
  }
}

/** The compositor's view list and regions, updated in place. */
module RenderObject {
  import opened Words
  import opened Regions
  import opened Views
  import opened Painting
  import opened Frames
  import opened Damage

  /** Walks up the parents; `allowed` only matters when something constrains the view. */
  method InheritedClip(v: Look) returns (constrained: bool, allowed: Region)
    ensures constrained == Constrained(v.frame)
    ensures allowed == Allowed(v)
  {
    allowed, constrained := Extents(v), false;
    var f := v.frame;
    while f.parent.Some? && f.subsurface
      invariant Inherited(f, allowed) == Allowed(v)
      invariant constrained || Constrained(f) <==> Constrained(v.frame)
      decreases f
    {
      var up := f.parent.value;
      if ClipEnabled(up) {
        if up.clipBox.enabled {
          allowed, constrained := allowed * ClipBoxRegion(up), true;
        }
        if up.contentClip.enabled {
          allowed, constrained := allowed * ContentRegion(up), true;
        }
      }
      f := up;
    }
  }

  /** The clip of one view under the opaque region accumulated above it. */
  method ClipUnder(v: Look, above: Region) returns (clip: Region)
    ensures clip == above + BoxClip(v)
  {
    clip := above;
    if ClipEnabled(v.frame) && v.frame.clipBox.enabled {
      clip := clip + (Extents(v) - ClipBoxRegion(v.frame));
    }
    var constrained, allowed := InheritedClip(v);
    if constrained {
      clip := clip + (Extents(v) - allowed);
    } else {
      UnconstrainedInherits(v.frame, Extents(v));
    }
  }

  method SurfaceOpaque(v: Look) returns (r: Region)
    ensures r == OpaqueOf(v)
  {
    r := Translate(v.opaqueRegion, OriginX(v), OriginY(v)) * Area(v.frame.geometry);
    if ClipEnabled(v.frame) && v.frame.clipBox.enabled { r := r * ClipBoxRegion(v.frame); }
    if ClipEnabled(v.frame) && v.frame.contentClip.enabled { r := r * ContentRegion(v.frame); }
    var constrained, allowed := InheritedClip(v);
    if constrained { r := r * allowed; }
  }

  /** One step of calculate_damage: the view with its clip, the opaque region grown, its damage. */
  method CalculateView(v: View, above: Region) returns (clipped: View, opaqueNow: Region, damaged: Region)
    ensures clipped == if v.visible then Calculated(v, above) else v
    ensures opaqueNow == if v.visible then above + OpaqueOf(v.look) else above
    ensures damaged == if v.visible then DamageOf(v) else {}
  {
    clipped, opaqueNow, damaged := v, above, {};
    if !v.visible { return; }
    var clip := ClipUnder(v.look, above);
    var o := SurfaceOpaque(v.look);
    opaqueNow := above + o;
    if v.damage != {} {
      damaged := Translate(v.damage, OriginX(v.look), OriginY(v.look));
    } else {
      assert Translate(v.damage, OriginX(v.look), OriginY(v.look)) == {};
    }
    if v.changed {
      damaged := damaged + (Extents(v.look) - Area(v.look.frame.geometry));
    }
    clipped := v.(clip := clip, damage := {}, changed := false);
  }

  lemma StepDown(views: seq<View>, i: nat, above: Region)
    requires i < |views|
    ensures var v, rest := views[i], views[i + 1..];
      && Clipped(views[i..], above)
         == [if v.visible then Calculated(v, above)
             else v] + Clipped(rest, if v.visible then above + OpaqueOf(v.look) else above)
      && OpaqueAll(views[i..]) == (if v.visible then OpaqueOf(v.look) else {}) + OpaqueAll(rest)
      && DamageAll(views[i..]) == (if v.visible then DamageOf(v) else {}) + DamageAll(rest)
  {
    assert views[i..][0] == views[i] && views[i..][1..] == views[i + 1..];
  }

  lemma SetOne(now: seq<View>, i: nat, v: View, below: seq<View>)
    requires i < |now|
    ensures now[i := v][..i + 1] + below == now[..i] + ([v] + below)
  {
  }

  class Compositor {
    /** Topmost first. */
    var views: seq<View>
    var damage: Region
    var opaqueRegion: Region

    constructor ()
      ensures views == [] && damage == {} && opaqueRegion == {}
    {
      views, damage, opaqueRegion := [], {}, {};
    }

    /** calculate_damage: one pass down the list fills in the clips, accumulates what is opaque, and
        collects the damage of the surfaces. */
    method CalculateDamage()
      modifies this
      ensures views == Clipped(old(views), {})
      ensures opaqueRegion == OpaqueAll(old(views))
      ensures damage == old(damage) + DamageAll(old(views))
    {
      ghost var was := views;
      opaqueRegion := {};
      assert was[0..] == was;
      for i := 0 to |views|
        invariant |views| == |was| && views[i..] == was[i..]
        invariant Clipped(was, {}) == views[..i] + Clipped(was[i..], opaqueRegion)
        invariant opaqueRegion + OpaqueAll(was[i..]) == OpaqueAll(was)
        invariant damage + DamageAll(was[i..]) == old(damage) + DamageAll(was)
      {
        StepDown(was, i, opaqueRegion);
        assert views[i] == was[i..][0] == was[i];
        var v, o, d := CalculateView(views[i], opaqueRegion);
        SetOne(views, i, v, Clipped(was[i + 1..], o));
        assert views[i := v][i + 1..] == views[i..][1..] == was[i + 1..];
        views := views[i := v];
        opaqueRegion, damage := o, damage + d;
      }
    }

    /** move: `screens` is the mask the screens' geometries give for the new place. */
    method MoveView(i: nat, x: int, y: int, screens: set<ScreenId>)
      requires i < |views|
      modifies `views, `damage
      ensures views == old(views)[i := Moved(old(views)[i], x, y, screens)]
      ensures damage == old(damage) + MoveDamage(old(views)[i], views[i])
    {
      var v := views[i];
      var g := v.look.frame.geometry;
      if v.visible { damage := damage + Extents(v.look); }
      if x == g.x && y == g.y { return; }
      var g' := Rect(x, y, g.width, g.height);
      v := v.(look := v.look.(frame := v.look.frame.(geometry := g'),
        extents := UpdatedExtents(g', v.look.border, v.look.decor, v.look.buffer, v.look.offsetX, v.look.offsetY)));
      if v.visible {
        v := v.(clip := {}, screens := screens);
        damage := damage + Extents(v.look);
      }
      views := views[i := v];
    }

    /** view_attach, with the compositor's attach. */
    method AttachBuffer(i: nat, buffer: Option<Buffer>, w: Option<WindowGeometry>, screens: set<ScreenId>)
      requires i < |views|
      modifies `views, `damage
      ensures views == old(views)[i := AttachedView(old(views)[i], buffer, w, screens)]
      ensures damage == old(damage) + AttachDamage(old(views)[i], views[i])
    {
      var v := views[i];
      var width, height := if buffer.Some? then buffer.value.width
          else 0, if buffer.Some? then buffer.value.height else 0;
      var ox, oy := 0, 0;
      if w.Some? && buffer.Some? {
        if w.value.width > 0 && w.value.height > 0 {
          width, height := w.value.width, w.value.height;
          ox, oy := w.value.x, w.value.y;
        }
      }
      var g, g' := v.look.frame.geometry, Rect(v.look.frame.geometry.x, v.look.frame.geometry.y, width, height);
      v := v.(look := v.look.(offsetX := ox, offsetY := oy, frame := v.look.frame.(geometry := g')));
      if g'.width != g.width || g'.height != g.height {
        var before := Extents(v.look);
        v := v.(changed := true,
          look := v.look.(extents := UpdatedExtents(g', v.look.border, v.look.decor, v.look.buffer, ox, oy)));
        if v.visible {
          var now := Extents(v.look);
          damage := damage + (before + now - before * now);
          v := v.(screens := screens);
        }
      }
      views := views[i := v.(look := v.look.(buffer := buffer))];
    }

    /** renderer_repaint: background, then every view from the bottom of the list up, then the overlay. */
    method Repaint(t: Target, damaged: Region, base: Region, o: Overlay, scratch: Canvas) returns (canvas: Canvas)
      ensures canvas == RendererRepaint(t, views, damaged, base, o, scratch)
    {
      ghost var start := Fill(scratch, DEFAULT_BG, ToLocal(t, base));
      canvas := Fill(scratch, DEFAULT_BG, ToLocal(t, base));
      var i := |views|;
      while i > 0
        invariant 0 <= i <= |views|
        invariant canvas == RepaintViews(t, views[i..], damaged, start)
      {
        i := i - 1;
        assert views[i..][1..] == views[i + 1..];
        if views[i].visible && t.screen in views[i].screens {
          canvas := RepaintView(t, views[i], damaged, canvas);
        }
      }
      assert views[0..] == views;
      canvas := DrawOverlay(t, o, canvas);
    }

    /** update_screen once the damage calculation has run over `calculated`: only the background that no
        opaque view covers is filled. */
    method PaintScreen(t: Target, damaged: Region, o: Overlay, scratch: Canvas, ghost calculated: seq<View>)
      returns (canvas: Canvas)
      requires views == Clipped(calculated, {}) && opaqueRegion == OpaqueAll(calculated)
      ensures canvas == Composite(t, calculated, damaged, o, scratch)
    {
      canvas := Repaint(t, damaged, damaged - opaqueRegion, o, scratch);
    }
  }
}
