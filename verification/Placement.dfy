/** Where things are: clip boxes, decoration parts and pictures, by their distances from the view they belong
    to (libswc/compositor.c, libswc/decor.c). */
module Placement {
  import opened Words
  import opened Regions
  import opened Views
  import opened Painting
  import opened Damage

  /** A coordinate that an int32 region can hold. */
  predicate Representable(p: Point) {
    INT32_MIN <= p.x < INT32_MAX && INT32_MIN <= p.y < INT32_MAX
  }

  /** By its distance from the view's origin, `p` is in the box. */
  predicate InPlaced(g: Rect, b: ClipBox, p: Point) {
    && b.x <= p.x - g.x < b.x + b.width
    && b.y <= p.y - g.y < b.y + b.height
    && Representable(p)
  }

  /** What a view's boxes admit: all, for a fullscreen window; otherwise what is in those that are enabled,
      which are at fixed distances from the view's origin, and for the content box in the view as well. */
  lemma AdmitsExactly(f: Views.Frame, p: Point)
    ensures Admits(f, p) <==>
      || f.fullscreen
      || ((f.clipBox.enabled ==> InPlaced(f.geometry, f.clipBox, p))
          && (f.contentClip.enabled ==> InPlaced(f.geometry, f.contentClip, p) && p in Area(f.geometry)))
  {
    if !f.fullscreen { Views.ContentAt(f, p); }
  }

  function MovedRect(r: Rect, dx: int, dy: int): Rect {
    Rect(r.x + dx, r.y + dy, r.width, r.height)
  }

  /** A view's frame when it and all it is part of move. */
  function Carried(f: Views.Frame, dx: int, dy: int): Views.Frame
    decreases f
  {
    f.(geometry := MovedRect(f.geometry, dx, dy),
       parent := if f.parent.None? then None else Some(Carried(f.parent.value, dx, dy)))
  }

  lemma CarriedAdmits(f: Views.Frame, dx: int, dy: int, p: Point)
    requires Representable(p) && Representable(Shift(p, dx, dy))
    ensures Admits(Carried(f, dx, dy), Shift(p, dx, dy)) <==> Admits(f, p)
  {
    AdmitsExactly(f, p);
    AdmitsExactly(Carried(f, dx, dy), Shift(p, dx, dy));
  }

  /** Clip boxes move with the views they are on, however far up: what a subsurface may draw moves along. */
  lemma {:induction false} CarriedAllAdmit(f: Views.Frame, dx: int, dy: int, p: Point)
    requires Representable(p) && Representable(Shift(p, dx, dy))
    ensures AllAdmit(Carried(f, dx, dy), Shift(p, dx, dy)) <==> AllAdmit(f, p)
    decreases f
  {
    var g := Carried(f, dx, dy);
    if f.parent.Some? && f.subsurface {
      AllAdmitStep(f, p);
      AllAdmitStep(g, Shift(p, dx, dy));
      CarriedAdmits(f.parent.value, dx, dy, p);
      CarriedAllAdmit(f.parent.value, dx, dy, p);
    } else {
      assert forall n: nat | n > 0 :: Ancestor(f, n).None? && Ancestor(g, n).None?;
    }
  }

  lemma CarriedInherited(f: Views.Frame, allowed: Region, dx: int, dy: int, p: Point)
    requires Representable(p) && Representable(Shift(p, dx, dy))
    ensures Shift(p, dx, dy) in Inherited(Carried(f, dx, dy), Translate(allowed, dx, dy)) <==>
      p in Inherited(f, allowed)
  {
    InheritedExactly(f, allowed, p);
    InheritedExactly(Carried(f, dx, dy), Translate(allowed, dx, dy), Shift(p, dx, dy));
    CarriedAllAdmit(f, dx, dy, p);
    assert Shift(Shift(p, dx, dy), -dx, -dy) == p;
  }

  /** A view's own clip box cuts by the same distances, and so do the boxes of all it is part of; its content
      box does not count here, but with what it may draw. */
  lemma BoxClipExactly(v: Look, p: Point)
    ensures p in BoxClip(v) <==> (p in Extents(v) && !(
      && (v.frame.fullscreen || (v.frame.clipBox.enabled ==> InPlaced(v.frame.geometry, v.frame.clipBox, p)))
      && AllAdmit(v.frame, p)))
  {
    InheritedExactly(v.frame, Extents(v), p);
  }

  /** `p` in the buffer, by its distance from the origin of the geometry inside it. */
  function InBuffer(v: Look, p: Point): Point {
    Point(p.x - v.frame.geometry.x + v.offsetX, p.y - v.frame.geometry.y + v.offsetY)
  }

  predicate HasBox(f: Views.Frame) {
    !f.fullscreen && (f.clipBox.enabled || f.contentClip.enabled)
  }

  ghost predicate BoxAbove(f: Views.Frame) {
    exists n: nat :: n > 0 && Ancestor(f, n).Some? && HasBox(Ancestor(f, n).value)
  }

  /** The walk up finds something that narrows the view exactly when some surface it is part of is not fullscreen and
      has a box. */
  lemma {:induction false} ConstrainedExactly(f: Views.Frame)
    ensures Constrained(f) <==> BoxAbove(f)
    decreases f
  {
    if f.parent.Some? && f.subsurface {
      var up := f.parent.value;
      ConstrainedExactly(up);
      assert Ancestor(f, 1) == Ancestor(up, 0) == Some(up);
      if HasBox(up) { assert BoxAbove(f); }
      if BoxAbove(up) {
        var n: nat :| n > 0 && Ancestor(up, n).Some? && HasBox(Ancestor(up, n).value);
        assert Ancestor(f, n + 1) == Ancestor(up, n);
      }
      if BoxAbove(f) {
        var n: nat :| n > 0 && Ancestor(f, n).Some? && HasBox(Ancestor(f, n).value);
        assert Ancestor(f, n) == Ancestor(up, n - 1);
        if n > 1 { assert BoxAbove(up); }
      }
    } else {
      assert forall n: nat | n > 0 :: Ancestor(f, n).None?;
    }
  }

  /** The extents never leave int32. */
  lemma ExtentsInInt32(g: Rect, border: Border, decor: Decor, buffer: Option<Buffer>, ox: int, oy: int)
    ensures var e := UpdatedExtents(g, border, decor, buffer, ox, oy);
      INT32_MIN <= e.x1 <= e.x2 <= INT32_MAX && INT32_MIN <= e.y1 <= e.y2 <= INT32_MAX
  {
  }

  /** A pixel is taken to hide what is below exactly where the client declared it opaque, inside the geometry, and
      every box that applies admits it; what a subsurface may draw is inside its extents as well. */
  lemma OpaqueExactly(v: Look, p: Point)
    ensures p in OpaqueOf(v) <==>
      && InBuffer(v, p) in v.opaqueRegion && p in Area(v.frame.geometry)
      && Admits(v.frame, p) && AllAdmit(v.frame, p) && (Constrained(v.frame) ==> p in Extents(v))
  {
    assert Shift(p, -OriginX(v), -OriginY(v)) == InBuffer(v, p);
    InheritedExactly(v.frame, Extents(v), p);
    InheritedExactly(v.frame, {p}, p);
    if !Constrained(v.frame) { UnconstrainedInherits(v.frame, {p}); }
  }

  /** The damage of a surface is where the client says in its buffer, and a changed border or decoration damages
      all around the geometry. */
  lemma DamagedExactly(v: View, p: Point)
    ensures p in DamageOf(v) <==>
      InBuffer(v.look, p) in v.damage || (v.changed && p in Extents(v.look) && p !in Area(v.look.frame.geometry))
  {
    assert Shift(p, -OriginX(v.look), -OriginY(v.look)) == InBuffer(v.look, p);
  }

  /** Every damage is collected once. */
  lemma {:induction false} CollectedOnce(views: seq<View>, above: Region)
    ensures DamageAll(Clipped(views, above)) == {}
    decreases |views|
  {
    if views != [] {
      var v, rest := views[0], views[1..];
      var above' := if v.visible then above + OpaqueOf(v.look) else above;
      CollectedOnce(rest, above');
      assert Clipped(views, above)[1..] == Clipped(rest, above');
      assert v.visible ==> Translate({}, OriginX(v.look), OriginY(v.look)) == {};
    }
  }

  // ------------------------------------------------------ moving a picture

  /** A move puts the view where it was asked, with the size and the looks it had. */
  lemma MovedExactly(v: View, x: int, y: int, screens: set<ScreenId>)
    ensures var w := Moved(v, x, y, screens);
      && w.look.frame == v.look.frame.(geometry := w.look.frame.geometry)
      && w.look == v.look.(frame := w.look.frame, extents := w.look.extents)
      && (w.look.frame.geometry.x, w.look.frame.geometry.y) == (x, y)
      && w.look.frame.geometry.width == v.look.frame.geometry.width
      && w.look.frame.geometry.height == v.look.frame.geometry.height
      && w.visible == v.visible && w.damage == v.damage && w.changed == v.changed
      && (v.visible && w != v ==> w.screens == screens && w.clip == {})
      && w.look.extents == if w == v then v.look.extents
         else UpdatedExtents(w.look.frame.geometry, v.look.border, v.look.decor, v.look.buffer,
                             v.look.offsetX, v.look.offsetY)
  {
  }

  /** A visible view damages its extents before a move, and after it if it went anywhere. */
  lemma MoveDamagesExactly(v: View, x: int, y: int, screens: set<ScreenId>, p: Point)
    ensures var w := Moved(v, x, y, screens);
      p in MoveDamage(v, w) <==>
        v.visible && (p in Extents(v.look)
          || ((x, y) != (v.look.frame.geometry.x, v.look.frame.geometry.y) && p in Extents(w.look)))
  {
  }

  /** An attach that changes the size of a visible view damages what is in one of its extents, before and after, and
      not in the other. */
  lemma AttachDamagesExactly(v: View, buffer: Option<Buffer>, w: Option<WindowGeometry>, screens: set<ScreenId>,
                             p: Point)
    ensures var a := AttachedView(v, buffer, w, screens);
      p in AttachDamage(v, a) <==>
        v.visible && a.look.frame.geometry != v.look.frame.geometry && (p in Extents(v.look) <==> p !in Extents(a.look))
  {
  }

  /** The geometry is inside int32. */
  predicate Fits(g: Rect) {
    FitsInt32(Bounds(g.x, g.y, g.x + g.width, g.y + g.height))
  }

  ghost predicate SameMoved(v: Look, w: Look, dx: int, dy: int) {
    && w == v.(frame := v.frame.(geometry := MovedRect(v.frame.geometry, dx, dy), parent := w.frame.parent),
               extents := MovedBounds(v.extents, dx, dy))
    && Fits(v.frame.geometry) && Fits(w.frame.geometry)
  }

  lemma InsideMoves(v: Look, w: Look, dx: int, dy: int, p: Point)
    requires SameMoved(v, w, dx, dy) && Representable(p) && Representable(Shift(p, dx, dy))
    ensures Shift(p, dx, dy) in Inside(w) <==> p in Inside(v)
    ensures Shift(p, dx, dy) in ContentRegion(w.frame) <==> p in ContentRegion(v.frame)
  {
  }

  lemma ContentMoves(f: Views.Frame, g: Views.Frame, dx: int, dy: int)
    requires g == f.(geometry := MovedRect(f.geometry, dx, dy), parent := g.parent)
    ensures var a, b := ContentBounds(f), ContentBounds(g); b == Bounds(a.x1 + dx, a.y1 + dy, a.x2 + dx, a.y2 + dy)
    ensures Fits(f.geometry) && Fits(g.geometry) ==> (ContentRegion(g) == {} <==> ContentRegion(f) == {})
  {
    var a, b := ContentBounds(f), ContentBounds(g);
    if Fits(f.geometry) && Fits(g.geometry) {
      if p :| p in ContentRegion(f) { assert Shift(p, dx, dy) in ContentRegion(g); }
      if p :| p in ContentRegion(g) { assert Shift(p, -dx, -dy) in ContentRegion(f); }
    }
  }

  lemma GrownAt(v: Look, amount: nat, p: Point)
    requires Fits(v.frame.geometry) && Representable(p)
    ensures var b := ContentBounds(v.frame);
      p in Grown(v, amount) <==>
        && (ContentClipped(v.frame) ==> ContentRegion(v.frame) != {})
        && b.x1 - amount <= p.x < b.x2 + amount && b.y1 - amount <= p.y < b.y2 + amount
  {
    if ContentClipped(v.frame) && ContentRegion(v.frame) != {} {
      var q :| q in ContentRegion(v.frame);
    }
  }

  lemma GrownMoves(v: Look, w: Look, amount: nat, dx: int, dy: int, p: Point)
    requires SameMoved(v, w, dx, dy) && Representable(p) && Representable(Shift(p, dx, dy))
    ensures Shift(p, dx, dy) in Grown(w, amount) <==> p in Grown(v, amount)
  {
    ContentMoves(v.frame, w.frame, dx, dy);
    GrownAt(v, amount, p);
    GrownAt(w, amount, Shift(p, dx, dy));
  }

  lemma BorderMoves(v: Look, w: Look, dx: int, dy: int, p: Point)
    requires SameMoved(v, w, dx, dy) && Representable(p) && Representable(Shift(p, dx, dy))
    ensures BorderInk(w, Shift(p, dx, dy)) == BorderInk(v, p)
  {
    InsideMoves(v, w, dx, dy, p);
    GrownMoves(v, w, Total(v), dx, dy, p);
    GrownMoves(v, w, v.border.inwidth, dx, dy, p);
    assert Total(w) == Total(v);
  }

  ghost predicate PartMoves(a: Placed, b: Placed, dx: int, dy: int) {
    b == Placed(a.part, MovedRect(a.area, dx, dy))
  }

  ghost predicate PartsMove(a: seq<Placed>, b: seq<Placed>, dx: int, dy: int) {
    |a| == |b| && forall i | 0 <= i < |a| :: PartMoves(a[i], b[i], dx, dy)
  }

  lemma PlacedMove(g: Rect, d: Decor, dx: int, dy: int)
    ensures PartsMove(PlacedParts(g, d), PlacedParts(MovedRect(g, dx, dy), d), dx, dy)
  {
  }

  lemma {:induction false} PartsInkMoves(a: seq<Placed>, b: seq<Placed>, dx: int, dy: int, p: Point)
    requires PartsMove(a, b, dx, dy)
    ensures PartsInk(b, Shift(p, dx, dy)) == PartsInk(a, p)
    decreases |a|
  {
    if a != [] {
      assert PartMoves(a[0], b[0], dx, dy);
      assert forall i | 0 <= i < |a[1..]| :: a[1..][i] == a[i + 1] && b[1..][i] == b[i + 1];
      PartsInkMoves(a[1..], b[1..], dx, dy, p);
    }
  }

  lemma DecorMoves(v: Look, w: Look, dx: int, dy: int, p: Point)
    requires SameMoved(v, w, dx, dy)
    ensures DecorInk(w, Shift(p, dx, dy)) == DecorInk(v, p)
  {
    PlacedMove(v.frame.geometry, v.decor, dx, dy);
    PartsInkMoves(PlacedParts(v.frame.geometry, v.decor), PlacedParts(w.frame.geometry, w.decor), dx, dy, p);
  }

  lemma ShownMoves(v: Look, w: Look, dx: int, dy: int, p: Point)
    requires SameMoved(v, w, dx, dy) && Representable(p) && Representable(Shift(p, dx, dy))
    ensures ShowsBuffer(w, Shift(p, dx, dy)) == ShowsBuffer(v, p)
  {
    InsideMoves(v, w, dx, dy, p);
  }

  lemma BufferMoves(t: Target, v: Look, w: Look, dx: int, dy: int, p: Point, c: Colour)
    requires SameMoved(v, w, dx, dy) && v.buffer.Some?
    ensures BufferPixel(t, w, Shift(p, dx, dy), c) == BufferPixel(t, v, p, c)
  {
    assert BufferPoint(w, Shift(p, dx, dy)) == BufferPoint(v, p);
  }

  /** A picture moves with its view: border, decoration, content box and buffer together. */
  lemma PictureMoves(t: Target, v: Look, w: Look, dx: int, dy: int, p: Point, c: Colour)
    requires SameMoved(v, w, dx, dy) && Representable(p) && Representable(Shift(p, dx, dy))
    ensures PixelOf(t, w, Shift(p, dx, dy), c) == PixelOf(t, v, p, c)
  {
    BorderMoves(v, w, dx, dy, p);
    DecorMoves(v, w, dx, dy, p);
    ShownMoves(v, w, dx, dy, p);
    if v.buffer.Some? { BufferMoves(t, v, w, dx, dy, p, c); }
    PixelByInk(t, v, p, c);
    PixelByInk(t, w, Shift(p, dx, dy), c);
  }

  /** All that the view draws fits int32, and the extents are up to date. */
  ghost predicate Settled(v: Look) {
    && v.extents == UpdatedExtents(v.frame.geometry, v.border, v.decor, v.buffer, v.offsetX, v.offsetY)
    && forall d | d in DrawnBoxes(v.frame.geometry, v.border, v.decor, v.buffer, v.offsetX, v.offsetY) :: FitsInt32(d)
  }

  lemma SettledFits(v: Look)
    requires Settled(v)
    ensures var boxes := DrawnBoxes(v.frame.geometry, v.border, v.decor, v.buffer, v.offsetX, v.offsetY);
      FitsInt32(boxes[0]) && FitsInt32(boxes[1]) && FitsInt32(boxes[2])
    ensures Fits(v.frame.geometry)
  {
    var boxes := DrawnBoxes(v.frame.geometry, v.border, v.decor, v.buffer, v.offsetX, v.offsetY);
    assert boxes[0] in boxes && boxes[1] in boxes && boxes[2] in boxes;
  }

  function MovedBounds(b: Bounds, dx: int, dy: int): Bounds {
    Bounds(b.x1 + dx, b.y1 + dy, b.x2 + dx, b.y2 + dy)
  }

  lemma BoxesMove(g: Rect, border: Border, decor: Decor, buffer: Option<Buffer>, ox: int, oy: int, dx: int, dy: int,
                  i: nat)
    requires i < 3
    ensures DrawnBoxes(MovedRect(g, dx, dy), border, decor, buffer, ox, oy)[i]
         == MovedBounds(DrawnBoxes(g, border, decor, buffer, ox, oy)[i], dx, dy)
  {
  }

  lemma JoinMoves(a: Bounds, b: Bounds, dx: int, dy: int)
    ensures Join(MovedBounds(a, dx, dy), MovedBounds(b, dx, dy)) == MovedBounds(Join(a, b), dx, dy)
  {
  }

  lemma ExtentsMove(v: Look, w: Look, dx: int, dy: int)
    requires w.frame.geometry == MovedRect(v.frame.geometry, dx, dy) && Settled(v) && Settled(w)
    requires w == v.(frame := w.frame, extents := w.extents)
    ensures w.extents == MovedBounds(v.extents, dx, dy)
  {
    var g, h := v.frame.geometry, w.frame.geometry;
    var a := DrawnBoxes(g, v.border, v.decor, v.buffer, v.offsetX, v.offsetY);
    var b := DrawnBoxes(h, v.border, v.decor, v.buffer, v.offsetX, v.offsetY);
    SettledFits(v);
    SettledFits(w);
    ExtentsAreJoin(g, v.border, v.decor, v.buffer, v.offsetX, v.offsetY);
    ExtentsAreJoin(h, v.border, v.decor, v.buffer, v.offsetX, v.offsetY);
    BoxesMove(g, v.border, v.decor, v.buffer, v.offsetX, v.offsetY, dx, dy, 0);
    BoxesMove(g, v.border, v.decor, v.buffer, v.offsetX, v.offsetY, dx, dy, 1);
    BoxesMove(g, v.border, v.decor, v.buffer, v.offsetX, v.offsetY, dx, dy, 2);
    JoinMoves(a[0], a[1], dx, dy);
    JoinMoves(Join(a[0], a[1]), a[2], dx, dy);
  }

  /** So does that of a view that is moved: a move shows at every pixel of the new place what was at the one it
      came from. */
  lemma MovedIsSame(v: View, x: int, y: int, screens: set<ScreenId>)
    requires Settled(v.look) && Settled(Moved(v, x, y, screens).look)
    ensures var g := v.look.frame.geometry;
      SameMoved(v.look, Moved(v, x, y, screens).look, x - g.x, y - g.y)
  {
    var g, w := v.look.frame.geometry, Moved(v, x, y, screens).look;
    MovedExactly(v, x, y, screens);
    assert w.frame.geometry == MovedRect(g, x - g.x, y - g.y);
    ExtentsMove(v.look, w, x - g.x, y - g.y);
    SettledFits(v.look);
    SettledFits(w);
  }

  // ----------------------------------------------- what shows where in a view

  /** Where nothing is drawn over it, the buffer shows by its distance from the geometry, copied where it has no
      alpha or is declared opaque, otherwise blended over what is below. */
  lemma BufferShows(t: Target, v: Look, p: Point, c: Colour)
    requires ShowsBuffer(v, p) && TopInk(v, p).None?
    ensures var pixel := v.buffer.value.pixels(InBuffer(v, p));
      PixelOf(t, v, p, c)
      == if v.buffer.value.alpha && InBuffer(v, p) !in v.opaqueRegion then t.blend(pixel, c) else pixel
  {
    PixelByInk(t, v, p, c);
    assert BufferPoint(v, p) == InBuffer(v, p);
  }

  datatype Corner = TopLeft | TopRight | BottomLeft | BottomRight

  function CornerPart(d: Decor, k: Corner): Part {
    match k
    case TopLeft => d.topLeft
    case TopRight => d.topRight
    case BottomLeft => d.bottomLeft
    case BottomRight => d.bottomRight
  }

  /** How far `p` is from the left and the right, or the top and the bottom, of the decorated box. */
  function FromLeft(v: Look, p: Point): int { p.x - (v.frame.geometry.x - v.decor.left) }

  function FromRight(v: Look, p: Point): int { v.frame.geometry.x + v.frame.geometry.width + v.decor.right - 1 - p.x }

  function FromTop(v: Look, p: Point): int { p.y - (v.frame.geometry.y - v.decor.top) }

  function FromBottom(v: Look, p: Point): int {
    v.frame.geometry.y + v.frame.geometry.height + v.decor.bottom - 1 - p.y
  }

  /** `p` is in the corner that a part of this size takes up. */
  predicate InCorner(v: Look, k: Corner, part: Part, p: Point) {
    && 0 <= (if k.TopLeft? || k.BottomLeft? then FromLeft(v, p) else FromRight(v, p)) < part.width
    && 0 <= (if k.TopLeft? || k.TopRight? then FromTop(v, p) else FromBottom(v, p)) < part.height
  }

  /** The pixel of that part. */
  function CornerPixel(v: Look, k: Corner, part: Part, p: Point): Colour {
    part.pixels(Point(if k.TopLeft? || k.BottomLeft? then FromLeft(v, p) else part.width - 1 - FromRight(v, p),
                      if k.TopLeft? || k.TopRight? then FromTop(v, p) else part.height - 1 - FromBottom(v, p)))
  }

  /** The corners and edges leave each other room. */
  predicate Roomy(v: Look) {
    var d, g := v.decor, v.frame.geometry;
    var width, height := g.width + d.left + d.right, g.height + d.top + d.bottom;
    && d.topLeft.width + d.topRight.width <= width && d.bottomLeft.width + d.bottomRight.width <= width
    && d.topLeft.width + d.bottomRight.width <= width && d.bottomLeft.width + d.topRight.width <= width
    && d.topLeft.height + d.bottomLeft.height <= height && d.topRight.height + d.bottomRight.height <= height
    && d.topLeft.height + d.bottom <= height && d.topRight.height + d.bottom <= height
    && d.bottomLeft.height + d.top <= height && d.bottomRight.height + d.top <= height
    && d.topLeft.width + d.right <= width && d.bottomLeft.width + d.right <= width
    && d.topRight.width + d.left <= width && d.bottomRight.width + d.left <= width
  }

  function Index(k: Corner): nat {
    match k case TopLeft => 0 case TopRight => 1 case BottomLeft => 2 case BottomRight => 3
  }

  lemma {:induction false} OnlyPart(parts: seq<Placed>, n: nat, p: Point)
    requires n < |parts| && Drawn(parts[n]) && p in Area(parts[n].area)
    requires forall i | n < i < |parts| :: p !in Area(parts[i].area)
    ensures PartsInk(parts, p) == Some(TilePixel(parts[n], p))
    decreases n
  {
    if n == 0 {
      NoneLater(parts[1..], p);
    } else {
      OnlyPart(parts[1..], n - 1, p);
    }
  }

  lemma {:induction false} NoneLater(parts: seq<Placed>, p: Point)
    requires forall i | 0 <= i < |parts| :: p !in Area(parts[i].area)
    ensures PartsInk(parts, p) == None
    decreases |parts|
  {
    if parts != [] { NoneLater(parts[1..], p); }
  }

  lemma CornerOfItsOwn(v: Look, k: Corner, p: Point)
    requires Roomy(v) && InCorner(v, k, CornerPart(v.decor, k), p)
    ensures var parts, part := PlacedParts(v.frame.geometry, v.decor), CornerPart(v.decor, k);
      && |parts| >= 4
      && parts[Index(k)].part == part && p in Area(parts[Index(k)].area)
      && (forall i | Index(k) < i < |parts| :: p !in Area(parts[i].area))
      && p.x - parts[Index(k)].area.x
         == (if k.TopLeft? || k.BottomLeft? then FromLeft(v, p) else part.width - 1 - FromRight(v, p))
      && p.y - parts[Index(k)].area.y
         == (if k.TopLeft? || k.TopRight? then FromTop(v, p) else part.height - 1 - FromBottom(v, p))
  {
  }

  lemma Within(a: int, n: int)
    requires 0 <= a < n
    ensures a % n == a
  {
  }

  lemma WithinTile(placed: Placed, p: Point)
    requires Drawn(placed)
    requires 0 <= p.x - placed.area.x < placed.part.width && 0 <= p.y - placed.area.y < placed.part.height
    ensures TilePixel(placed, p) == placed.part.pixels(Point(p.x - placed.area.x, p.y - placed.area.y))
  {
    Within(p.x - placed.area.x, placed.part.width);
    Within(p.y - placed.area.y, placed.part.height);
  }

  /** Every corner shows its own part, unscaled and the right way round. */
  lemma CornerShows(v: Look, k: Corner, p: Point)
    requires Roomy(v) && HasDecor(v.decor) && CornerPart(v.decor, k).loaded
    requires InCorner(v, k, CornerPart(v.decor, k), p)
    ensures DecorInk(v, p) == Some(CornerPixel(v, k, CornerPart(v.decor, k), p))
  {
    var parts := PlacedParts(v.frame.geometry, v.decor);
    CornerOfItsOwn(v, k, p);
    WithinTile(parts[Index(k)], p);
    OnlyPart(parts, Index(k), p);
  }

  datatype Edge = TopEdge | BottomEdge | LeftEdge | RightEdge

  function EdgePart(d: Decor, k: Edge): Part {
    match k
    case TopEdge => d.topEdge
    case BottomEdge => d.bottomEdge
    case LeftEdge => d.leftEdge
    case RightEdge => d.rightEdge
  }

  /** `p` is on that edge, past the corner parts at both ends of it. */
  predicate OnEdge(v: Look, k: Edge, p: Point) {
    var d := v.decor;
    match k
    case TopEdge =>
      0 <= FromTop(v, p) < d.top && d.topLeft.width <= FromLeft(v, p) && d.topRight.width <= FromRight(v, p)
    case BottomEdge =>
      0 <= FromBottom(v, p) < d.bottom && d.bottomLeft.width <= FromLeft(v, p) && d.bottomRight.width <= FromRight(v, p)
    case LeftEdge =>
      0 <= FromLeft(v, p) < d.left && d.topLeft.height <= FromTop(v, p) && d.bottomLeft.height <= FromBottom(v, p)
    case RightEdge =>
      0 <= FromRight(v, p) < d.right && d.topRight.height <= FromTop(v, p) && d.bottomRight.height <= FromBottom(v, p)
  }

  /** Its distances from where the repetition of that edge starts. */
  function AlongEdge(v: Look, k: Edge, p: Point): Point {
    var d := v.decor;
    match k
    case TopEdge => Point(FromLeft(v, p) - d.topLeft.width, FromTop(v, p))
    case BottomEdge => Point(FromLeft(v, p) - d.bottomLeft.width, d.bottom - 1 - FromBottom(v, p))
    case LeftEdge => Point(FromLeft(v, p), FromTop(v, p) - d.topLeft.height)
    case RightEdge => Point(d.right - 1 - FromRight(v, p), FromTop(v, p) - d.topRight.height)
  }

  /** The corner parts along that edge, and those along the opposite one for the bottom and the right, leave it
      some length. */
  predicate HasEdge(v: Look, k: Edge) {
    var d, g := v.decor, v.frame.geometry;
    if k.TopEdge? || k.BottomEdge? then g.width + d.left + d.right > d.topLeft.width + d.topRight.width
    else g.height + d.top + d.bottom > d.topLeft.height + d.bottomLeft.height
  }

  function EdgeIndex(v: Look, k: Edge): nat {
    var sides := if HasEdge(v, TopEdge) then 6 else 4;
    match k case TopEdge => 4 case BottomEdge => 5 case LeftEdge => sides case RightEdge => sides + 1
  }

  lemma EdgePlaced(v: Look, k: Edge, p: Point)
    requires HasEdge(v, k) && OnEdge(v, k, p)
    ensures var parts, n := PlacedParts(v.frame.geometry, v.decor), EdgeIndex(v, k);
      && 4 <= n < |parts| && parts[n].part == EdgePart(v.decor, k) && p in Area(parts[n].area)
      && Point(p.x - parts[n].area.x, p.y - parts[n].area.y) == AlongEdge(v, k, p)
  {
  }

  /** The other way round: past the corners, what is drawn at `p` is an edge it is on. */
  lemma PlacedOnEdge(v: Look, i: nat, p: Point) returns (k: Edge)
    requires var parts := PlacedParts(v.frame.geometry, v.decor); 4 <= i < |parts| && p in Area(parts[i].area)
    ensures HasEdge(v, k) && OnEdge(v, k, p) && EdgeIndex(v, k) == i
  {
    k := if HasEdge(v, TopEdge) && i == 4 then TopEdge
         else if HasEdge(v, TopEdge) && i == 5 then BottomEdge
         else if i == EdgeIndex(v, LeftEdge) then LeftEdge
         else RightEdge;
  }

  /** Every edge repeats its own part from the corner part at its left or upper end, wherever no other edge
      crosses it. */
  lemma EdgeShows(v: Look, k: Edge, p: Point)
    requires HasDecor(v.decor) && HasEdge(v, k) && OnEdge(v, k, p)
    requires var part := EdgePart(v.decor, k); part.loaded && part.width > 0 && part.height > 0
    requires forall other | other != k && HasEdge(v, other) :: !OnEdge(v, other, p)
    ensures var part, q := EdgePart(v.decor, k), AlongEdge(v, k, p);
      DecorInk(v, p) == Some(part.pixels(Point(q.x % part.width, q.y % part.height)))
  {
    var parts, n := PlacedParts(v.frame.geometry, v.decor), EdgeIndex(v, k);
    EdgePlaced(v, k, p);
    forall i | n < i < |parts| ensures p !in Area(parts[i].area) {
      if p in Area(parts[i].area) { var other := PlacedOnEdge(v, i, p); }
    }
    OnlyPart(parts, n, p);
  }

  lemma {:induction false} NoInkNoPart(parts: seq<Placed>, p: Point)
    requires forall d | d in parts :: !Drawn(d) || p !in Area(d.area)
    ensures PartsInk(parts, p) == None
    decreases |parts|
  {
    if parts != [] { NoInkNoPart(parts[1..], p); }
  }

  /** Where no part is drawn, the decoration's colour fills the decorated box around the geometry and nothing
      else; without any side there is no decoration. */
  lemma BackgroundShows(v: Look, p: Point)
    requires forall d | d in PlacedParts(v.frame.geometry, v.decor) :: !Drawn(d) || p !in Area(d.area)
    ensures DecorInk(v, p) ==
      if 0 <= FromLeft(v, p) && 0 <= FromRight(v, p) && 0 <= FromTop(v, p) && 0 <= FromBottom(v, p)
         && p !in Area(v.frame.geometry)
      then Some(v.decor.color) else None
  {
    NoInkNoPart(PlacedParts(v.frame.geometry, v.decor), p);
  }

  /** An attach leaves the view where it is. Its size is the window geometry's if there is a buffer and one of some
      size, else the buffer's, else nothing; the first pixel of the window geometry comes to its upper left. */
  lemma AttachedExactly(v: Look, buffer: Option<Buffer>, w: Option<WindowGeometry>)
    ensures var a, g := Attached(v, buffer, w), Attached(v, buffer, w).frame.geometry;
      && a.buffer == buffer && a.border == v.border && a.decor == v.decor && a.opaqueRegion == v.opaqueRegion
      && a.frame == v.frame.(geometry := g) && (g.x, g.y) == (v.frame.geometry.x, v.frame.geometry.y)
      && (buffer.None? ==> g.width == 0 && g.height == 0 && a.offsetX == 0 && a.offsetY == 0)
      && (buffer.Some? && (w.None? || w.value.width == 0 || w.value.height == 0) ==>
            g.width == buffer.value.width && g.height == buffer.value.height
            && InBuffer(a, Point(g.x, g.y)) == Point(0, 0))
      && (buffer.Some? && w.Some? && w.value.width > 0 && w.value.height > 0 ==>
            g.width == w.value.width && g.height == w.value.height
            && InBuffer(a, Point(g.x, g.y)) == Point(w.value.x, w.value.y))
      && a.extents == if g == v.frame.geometry then v.extents
         else UpdatedExtents(g, v.border, v.decor, v.buffer, a.offsetX, a.offsetY)
  {
  }

  /** Only an attach that changes the size flags the surroundings and looks the screens up, for a visible view. */
  lemma AttachedViewExactly(v: View, buffer: Option<Buffer>, w: Option<WindowGeometry>, screens: set<ScreenId>)
    ensures var a := AttachedView(v, buffer, w, screens);
      && a == v.(look := Attached(v.look, buffer, w), changed := a.changed, screens := a.screens)
      && if a.look.frame.geometry == v.look.frame.geometry then a.changed == v.changed && a.screens == v.screens
         else a.changed && a.screens == if v.visible then screens else v.screens
  {
  }
}
