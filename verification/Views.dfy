/** Clipping, damage and repaint of the view stack: libswc/compositor.c and the region part of
    libswc/decor.c. */
module Views {
  import opened Words
  import opened Regions

  type ScreenId = nat

  /** Relative to the geometry of the view it is set on. */
  datatype ClipBox = ClipBox(enabled: bool, x: int, y: int, width: nat, height: nat)

  /** The part of a view that also limits the subsurfaces below it: where it is, its two clip boxes,
      and whether it is itself a subsurface of something. */
  datatype Frame = Frame(
    geometry: Rect,
    fullscreen: bool,
    clipBox: ClipBox,
    contentClip: ClipBox,
    subsurface: bool,
    parent: Option<Frame>)

  datatype Buffer = Buffer(width: nat, height: nat, alpha: bool, pixels: Canvas)

  datatype Border = Border(outwidth: nat, outcolor: Colour, inwidth: nat, incolor: Colour)

  datatype Part = Part(loaded: bool, width: nat, height: nat, pixels: Canvas)

  datatype Decor = Decor(
    color: Colour, top: nat, right: nat, bottom: nat, left: nat,
    topLeft: Part, topEdge: Part, topRight: Part, leftEdge: Part, rightEdge: Part,
    bottomLeft: Part, bottomEdge: Part, bottomRight: Part)

  datatype Bounds = Bounds(x1: int, y1: int, x2: int, y2: int)

  /** Everything that decides what a view looks like. `opaqueRegion` is the surface's opaque region, in
      buffer coordinates. */
  datatype Look = Look(
    frame: Frame,
    window: bool,
    extents: Bounds,
    buffer: Option<Buffer>,
    offsetX: int,
    offsetY: int,
    opaqueRegion: Region,
    border: Border,
    decor: Decor)

  /** `damage` is the surface's damage, in buffer coordinates; `changed` is any of the border and decor
      flags; `clip` is what the last damage calculation decided not to draw. */
  datatype View = View(
    look: Look,
    visible: bool,
    screens: set<ScreenId>,
    damage: Region,
    changed: bool,
    clip: Region)

  function Extents(v: Look): (r: Region)
    ensures forall p: Point :: p in r <==> v.extents.x1 <= p.x < v.extents.x2 && v.extents.y1 <= p.y < v.extents.y2
  {
    Box(v.extents.x1, v.extents.y1, v.extents.x2, v.extents.y2)
  }

  const INT32_MIN := -0x8000_0000
  const INT32_MAX := 0x7FFF_FFFF

  function Min(a: int, b: int): int { if a < b then a else b }

  function Max(a: int, b: int): int { if a > b then a else b }

  /** region_init_box */
  function ClampedBox(x1: int, y1: int, x2: int, y2: int): (r: Region)
    ensures forall p: Point :: p in r <==>
      x1 <= p.x < x2 && y1 <= p.y < y2 && INT32_MIN <= p.x < INT32_MAX && INT32_MIN <= p.y < INT32_MAX
  {
    Box(Max(x1, INT32_MIN), Max(y1, INT32_MIN), Min(x2, INT32_MAX), Min(y2, INT32_MAX))
  }

  // -------------------------------------------------------------- extents

  /** update_extents: the bounding box of geometry with border, decor and buffer, clamped to int32. */
  function UpdatedExtents(g: Rect, border: Border, decor: Decor, buffer: Option<Buffer>, offsetX: int,
                          offsetY: int): Bounds {
    var total := border.outwidth + border.inwidth;
    var w := if buffer.Some? then buffer.value.width else g.width;
    var h := if buffer.Some? then buffer.value.height else g.height;
    var x1 := Clamp(Min(Min(g.x - total, g.x - decor.left), g.x - offsetX));
    var y1 := Clamp(Min(Min(g.y - total, g.y - decor.top), g.y - offsetY));
    var x2 := Clamp(Max(Max(g.x + g.width + total, g.x + g.width + decor.right), g.x - offsetX + w));
    var y2 := Clamp(Max(Max(g.y + g.height + total, g.y + g.height + decor.bottom), g.y - offsetY + h));
    Bounds(x1, y1, Max(x1, x2), Max(y1, y2))
  }

  function Clamp(v: int): int {
    if v > INT32_MAX then INT32_MAX else if v < INT32_MIN then INT32_MIN else v
  }

  function Expand(g: Rect, amount: nat): (r: Region)
    ensures forall p: Point :: p in r <==>
      g.x - amount <= p.x < g.x + g.width + amount && g.y - amount <= p.y < g.y + g.height + amount
  {
    Box(g.x - amount, g.y - amount, g.x + g.width + amount, g.y + g.height + amount)
  }

  function Outer(g: Rect, d: Decor): Rect {
    Rect(g.x - d.left, g.y - d.top, g.width + d.left + d.right, g.height + d.top + d.bottom)
  }

  /** The boxes a view draws in: geometry with border, geometry with decor, and the buffer. */
  function DrawnBoxes(g: Rect, border: Border, decor: Decor, buffer: Option<Buffer>, offsetX: int,
                      offsetY: int): seq<Bounds> {
    var total := border.outwidth + border.inwidth;
    var w := if buffer.Some? then buffer.value.width else g.width;
    var h := if buffer.Some? then buffer.value.height else g.height;
    [Bounds(g.x - total, g.y - total, g.x + g.width + total, g.y + g.height + total),
     Bounds(g.x - decor.left, g.y - decor.top, g.x + g.width + decor.right, g.y + g.height + decor.bottom),
     Bounds(g.x - offsetX, g.y - offsetY, g.x - offsetX + w, g.y - offsetY + h)]
  }

  predicate Contains(b: Bounds, inner: Bounds) {
    b.x1 <= inner.x1 && b.y1 <= inner.y1 && inner.x2 <= b.x2 && inner.y2 <= b.y2
  }

  predicate FitsInt32(b: Bounds) {
    INT32_MIN <= b.x1 && INT32_MIN <= b.y1 && b.x2 <= INT32_MAX && b.y2 <= INT32_MAX
  }

  function Join(a: Bounds, b: Bounds): (j: Bounds)
    ensures forall c: Bounds :: Contains(c, j) <==> Contains(c, a) && Contains(c, b)
  {
    Bounds(Min(a.x1, b.x1), Min(a.y1, b.y1), Max(a.x2, b.x2), Max(a.y2, b.y2))
  }

  lemma ExtentsAreJoin(g: Rect, border: Border, decor: Decor, buffer: Option<Buffer>, ox: int, oy: int)
    requires var boxes := DrawnBoxes(g, border, decor, buffer, ox, oy);
      FitsInt32(boxes[0]) && FitsInt32(boxes[1]) && FitsInt32(boxes[2])
    ensures var boxes := DrawnBoxes(g, border, decor, buffer, ox, oy);
      UpdatedExtents(g, border, decor, buffer, ox, oy) == Join(Join(boxes[0], boxes[1]), boxes[2])
  {
  }

  /** The extents are the least box around everything the view draws in, as long as that fits int32. */
  lemma ExtentsAreLeast(g: Rect, border: Border, decor: Decor, buffer: Option<Buffer>, ox: int, oy: int, b: Bounds)
    requires var boxes := DrawnBoxes(g, border, decor, buffer, ox, oy);
      FitsInt32(boxes[0]) && FitsInt32(boxes[1]) && FitsInt32(boxes[2])
    ensures var e, boxes := UpdatedExtents(g, border, decor, buffer, ox, oy), DrawnBoxes(g, border, decor, buffer,
        ox, oy);
      Contains(b, e) <==> Contains(b, boxes[0]) && Contains(b, boxes[1]) && Contains(b, boxes[2])
  {
    ExtentsAreJoin(g, border, decor, buffer, ox, oy);
  }

  /** Where it does not fit, only points outside int32 are lost. */
  lemma ExtentsLoseNothing(g: Rect, border: Border, decor: Decor, buffer: Option<Buffer>, ox: int, oy: int, i: nat,
                           p: Point)
    requires i < 3
    requires var d := DrawnBoxes(g, border, decor, buffer, ox, oy)[i]; p in Box(d.x1, d.y1, d.x2, d.y2)
    requires INT32_MIN <= p.x < INT32_MAX && INT32_MIN <= p.y < INT32_MAX
    ensures var e := UpdatedExtents(g, border, decor, buffer, ox, oy); p in Box(e.x1, e.y1, e.x2, e.y2)
  {
  }

  // ------------------------------------------------------------ clip boxes

  /** A fullscreen window ignores its clip boxes. */
  predicate ClipEnabled(f: Frame) {
    !f.fullscreen
  }

  function ClipBoxRegion(f: Frame): Region {
    var x1, y1 := f.geometry.x + f.clipBox.x, f.geometry.y + f.clipBox.y;
    ClampedBox(x1, y1, x1 + f.clipBox.width, y1 + f.clipBox.height)
  }

  predicate ContentClipped(f: Frame) {
    ClipEnabled(f) && f.contentClip.enabled
  }

  function ContentBounds(f: Frame): Bounds {
    var g := f.geometry;
    if ContentClipped(f) then
      var x1, y1 := g.x + f.contentClip.x, g.y + f.contentClip.y;
      Bounds(Max(g.x, x1), Max(g.y, y1),
             Min(g.x + g.width, x1 + f.contentClip.width), Min(g.y + g.height, y1 + f.contentClip.height))
    else Bounds(g.x, g.y, g.x + g.width, g.y + g.height)
  }

  function ContentRegion(f: Frame): Region {
    var b := ContentBounds(f);
    ClampedBox(b.x1, b.y1, b.x2, b.y2)
  }

  /** The boxes of one ancestor that its descendants must stay inside. */
  function Narrow(parent: Frame, allowed: Region): Region {
    if !ClipEnabled(parent) then allowed
    else
      var a := if parent.clipBox.enabled then allowed * ClipBoxRegion(parent) else allowed;
      if parent.contentClip.enabled then a * ContentRegion(parent) else a
  }

  /** init_inherited_clip: narrows by every ancestor, as long as the chain is one of subsurfaces. */
  function Inherited(f: Frame, allowed: Region): (r: Region)
    ensures r <= allowed
    decreases f
  {
    if f.parent.None? || !f.subsurface then allowed
    else Inherited(f.parent.value, Narrow(f.parent.value, allowed))
  }

  function Allowed(v: Look): Region {
    Inherited(v.frame, Extents(v))
  }

  /** What the clip boxes alone keep a view from drawing. */
  function BoxClip(v: Look): Region {
    (if ClipEnabled(v.frame) && v.frame.clipBox.enabled then Extents(v) - ClipBoxRegion(v.frame) else {})
    + (Extents(v) - Allowed(v))
  }

  predicate Constrains(parent: Frame) {
    ClipEnabled(parent) && (parent.clipBox.enabled || parent.contentClip.enabled)
  }

  predicate Constrained(f: Frame)
    decreases f
  {
    f.parent.Some? && f.subsurface && (Constrains(f.parent.value) || Constrained(f.parent.value))
  }

  lemma {:induction false} UnconstrainedInherits(f: Frame, allowed: Region)
    requires !Constrained(f)
    ensures Inherited(f, allowed) == allowed
    decreases f
  {
    if f.parent.Some? && f.subsurface {
      UnconstrainedInherits(f.parent.value, allowed);
    }
  }

  lemma ContentAt(f: Frame, p: Point)
    ensures p in ContentRegion(f) ==> p in Area(f.geometry)
    ensures ContentClipped(f) ==> (p in ContentRegion(f) <==>
      && p in Area(f.geometry) && INT32_MIN <= p.x < INT32_MAX && INT32_MIN <= p.y < INT32_MAX
      && p in Area(Rect(f.geometry.x + f.contentClip.x, f.geometry.y + f.contentClip.y,
                        f.contentClip.width, f.contentClip.height)))
  {
  }

  /** The `n`-th parent up, as long as the way leads through subsurfaces. */
  function Ancestor(f: Frame, n: nat): Option<Frame>
    decreases n
  {
    if n == 0 then Some(f)
    else if f.parent.None? || !f.subsurface then None
    else Ancestor(f.parent.value, n - 1)
  }

  predicate Admits(f: Frame, p: Point) {
    ClipEnabled(f) ==>
      (f.clipBox.enabled ==> p in ClipBoxRegion(f)) && (f.contentClip.enabled ==> p in ContentRegion(f))
  }

  ghost predicate AllAdmit(f: Frame, p: Point) {
    forall n: nat :: n > 0 && Ancestor(f, n).Some? ==> Admits(Ancestor(f, n).value, p)
  }

  lemma AllAdmitStep(f: Frame, p: Point)
    requires f.parent.Some? && f.subsurface
    ensures AllAdmit(f, p) <==> Admits(f.parent.value, p) && AllAdmit(f.parent.value, p)
  {
    var up := f.parent.value;
    assert Ancestor(f, 1) == Ancestor(up, 0) == Some(up);
    if AllAdmit(f, p) {
      forall n: nat | n > 0 && Ancestor(up, n).Some? ensures Admits(Ancestor(up, n).value, p) {
        assert Ancestor(f, n + 1) == Ancestor(up, n);
      }
    }
    if Admits(up, p) && AllAdmit(up, p) {
      forall n: nat | n > 0 && Ancestor(f, n).Some? ensures Admits(Ancestor(f, n).value, p) {
        assert Ancestor(f, n) == Ancestor(up, n - 1);
        if n == 1 { assert Ancestor(f, n).value == up; }
      }
    }
  }

  /** A subsurface may draw a point exactly when every box of every surface it is part of admits it,
      however far up, and a fullscreen window's boxes admit everything. */
  lemma {:induction false} InheritedExactly(f: Frame, allowed: Region, p: Point)
    ensures p in Inherited(f, allowed) <==> p in allowed && AllAdmit(f, p)
    decreases f
  {
    if f.parent.Some? && f.subsurface {
      var up := f.parent.value;
      AllAdmitStep(f, p);
      InheritedExactly(up, Narrow(up, allowed), p);
      assert p in Narrow(up, allowed) <==> p in allowed && Admits(up, p);
    } else {
      assert forall n: nat :: n > 0 ==> Ancestor(f, n).None?;
    }
  }

  // ----------------------------------------------------- damage calculation

  function OriginX(v: Look): int { v.frame.geometry.x - v.offsetX }

  function OriginY(v: Look): int { v.frame.geometry.y - v.offsetY }

  /** The part of the screen a view lets nothing below it show through. */
  function OpaqueOf(v: Look): Region {
    var r := Translate(v.opaqueRegion, OriginX(v), OriginY(v)) * Area(v.frame.geometry);
    var r := if ClipEnabled(v.frame) && v.frame.clipBox.enabled then r * ClipBoxRegion(v.frame) else r;
    var r := if ContentClipped(v.frame) then r * ContentRegion(v.frame) else r;
    if Constrained(v.frame) then r * Allowed(v) else r
  }

  function DamageOf(v: View): Region {
    Translate(v.damage, OriginX(v.look), OriginY(v.look))
    + if v.changed then Extents(v.look) - Area(v.look.frame.geometry) else {}
  }

  function Calculated(v: View, above: Region): View {
    v.(clip := above + BoxClip(v.look), damage := {}, changed := false)
  }

  /** The stack, topmost first, with every clip filled in below what is opaque above it. */
  function Clipped(views: seq<View>, above: Region): (r: seq<View>)
    ensures |r| == |views|
    decreases |views|
  {
    if views == [] then []
    else if !views[0].visible then [views[0]] + Clipped(views[1..], above)
    else [Calculated(views[0], above)] + Clipped(views[1..], above + OpaqueOf(views[0].look))
  }

  function OpaqueAll(views: seq<View>): Region
    decreases |views|
  {
    if views == [] then {}
    else (if views[0].visible then OpaqueOf(views[0].look) else {}) + OpaqueAll(views[1..])
  }

  function DamageAll(views: seq<View>): Region
    decreases |views|
  {
    if views == [] then {}
    else (if views[0].visible then DamageOf(views[0]) else {}) + DamageAll(views[1..])
  }

  ghost predicate Covered(views: seq<View>, i: nat, p: Point) {
    exists j: nat :: j < i && j < |views| && views[j].visible && p in OpaqueOf(views[j].look)
  }

  /** The clip of a visible view is what opaque views above it cover, and what its boxes cut off. */
  lemma {:induction false} ClippedExactly(views: seq<View>, above: Region, i: nat, p: Point)
    requires i < |views| && views[i].visible
    ensures p in Clipped(views, above)[i].clip <==>
      p in above || Covered(views, i, p) || p in BoxClip(views[i].look)
    ensures Clipped(views, above)[i].look == views[i].look
    decreases |views|
  {
    if i > 0 {
      var rest := views[1..];
      var above' := if views[0].visible then above + OpaqueOf(views[0].look) else above;
      assert Clipped(views, above)[i] == Clipped(rest, above')[i - 1];
      ClippedExactly(rest, above', i - 1, p);
      if Covered(rest, i - 1, p) {
        var j: nat :| j < i - 1 && j < |rest| && rest[j].visible && p in OpaqueOf(rest[j].look);
        assert views[j + 1] == rest[j];
      }
      if Covered(views, i, p) {
        var j: nat :| j < i && j < |views| && views[j].visible && p in OpaqueOf(views[j].look);
        if j > 0 { assert rest[j - 1] == views[j]; }
      }
    }
  }

  /** All that is damaged, and nothing else: what the visible surfaces damaged, and the surroundings of
      those whose border or decoration changed. */
  lemma {:induction false} DamageExactly(views: seq<View>, p: Point)
    ensures p in DamageAll(views) <==> exists i: nat :: i < |views| && views[i].visible && p in DamageOf(views[i])
    decreases |views|
  {
    if views != [] {
      var rest := views[1..];
      DamageExactly(rest, p);
      if p in DamageAll(rest) {
        var i: nat :| i < |rest| && rest[i].visible && p in DamageOf(rest[i]);
        assert views[i + 1] == rest[i];
      }
      if i: nat :| i < |views| && views[i].visible && p in DamageOf(views[i]) {
        if i > 0 { assert rest[i - 1] == views[i]; }
      }
    }
  }
}
