/** When a change of border is repainted: compositor_view_set_border_width and _color, and the flags that
    calculate_damage turns into damage (libswc/compositor.c). */
module Borders {
  import opened Words
  import opened Regions
  import opened Views
  import opened Painting
  import opened Frames
  import opened Damage

  /** A view whose border was just changed: flagged, with whatever extents the change leaves it. */
  function Rebordered(v: View, border: Border, extents: Bounds): View {
    v.(look := v.look.(border := border, extents := extents), changed := true)
  }

  /** compositor_view_set_border_width: the extents follow. */
  function WithBorder(v: View, border: Border): View {
    Rebordered(v, border, UpdatedExtents(v.look.frame.geometry, border, v.look.decor, v.look.buffer,
                                         v.look.offsetX, v.look.offsetY))
  }

  /** compositor_view_set_border_color: the widths and the extents stay. */
  function WithColours(v: View, outcolor: Colour, incolor: Colour): View {
    Rebordered(v, v.look.border.(outcolor := outcolor, incolor := incolor), v.look.extents)
  }

  /** The extents hold what the view draws besides its border. */
  ghost predicate Enclosed(v: Look) {
    Area(v.frame.geometry) <= Extents(v) && Contained(v) && BufferRegion(v) <= Extents(v)
  }

  /** The box with either border fits int32. */
  predicate BorderFits(g: Rect, b: Border) {
    var total := b.outwidth + b.inwidth;
    FitsInt32(Bounds(g.x - total, g.y - total, g.x + g.width + total, g.y + g.height + total))
  }

  /** Extents as update_extents leaves them, where all the view draws fits int32. */
  ghost predicate UpToDate(v: Look) {
    var g := v.frame.geometry;
    && v.extents == UpdatedExtents(g, v.border, v.decor, v.buffer, v.offsetX, v.offsetY)
    && forall d | d in DrawnBoxes(g, v.border, v.decor, v.buffer, v.offsetX, v.offsetY) :: FitsInt32(d)
  }

  lemma UpToDateContains(v: Look, i: nat)
    requires UpToDate(v) && i < 3
    ensures Contains(v.extents, DrawnBoxes(v.frame.geometry, v.border, v.decor, v.buffer, v.offsetX, v.offsetY)[i])
  {
    var boxes := DrawnBoxes(v.frame.geometry, v.border, v.decor, v.buffer, v.offsetX, v.offsetY);
    assert boxes[0] in boxes && boxes[1] in boxes && boxes[2] in boxes;
    ExtentsAreLeast(v.frame.geometry, v.border, v.decor, v.buffer, v.offsetX, v.offsetY, v.extents);
  }

  lemma HoldsBorder(v: Look)
    requires UpToDate(v)
    ensures Area(v.frame.geometry) <= Extents(v) && Grown(v, Total(v)) <= Extents(v)
  {
    UpToDateContains(v, 0);
    GrownInBox(v);
  }

  lemma HoldsDecor(v: Look)
    requires UpToDate(v)
    ensures Area(Outer(v.frame.geometry, v.decor)) <= Extents(v)
  {
    UpToDateContains(v, 1);
  }

  lemma HoldsBuffer(v: Look)
    requires UpToDate(v)
    ensures BufferRegion(v) <= Extents(v)
  {
    UpToDateContains(v, 2);
    HoldsBorder(v);
  }

  /** They hold everything the view draws, border included, as long as the decoration parts are inside
      the decorated box. */
  lemma UpToDateEncloses(v: Look)
    requires UpToDate(v)
    requires var g := v.frame.geometry;
      forall d | d in PlacedParts(g, v.decor) :: Area(d.area) <= Area(Outer(g, v.decor))
    ensures Enclosed(v) && Grown(v, Total(v)) <= Extents(v)
  {
    HoldsBorder(v);
    HoldsDecor(v);
    HoldsBuffer(v);
  }

  lemma GrownInBox(v: Look)
    ensures Grown(v, Total(v)) <= Expand(v.frame.geometry, Total(v))
  {
    if ContentClipped(v.frame) && ContentRegion(v.frame) != {} {
      var q :| q in ContentRegion(v.frame);
    }
  }

  // ------------------------------------------------- the border by distance

  /** What a border draws at `k` pixels from the content it surrounds. */
  function InkAt(b: Border, k: nat): Option<Colour> {
    if k == 0 then None
    else if k <= b.inwidth then Some(b.incolor)
    else if k <= b.inwidth + b.outwidth then Some(b.outcolor)
    else None
  }

  /** How far `p` is outside the content box. */
  function Distance(f: Frame, p: Point): nat {
    var b := ContentBounds(f);
    Max(0, Max(Max(b.x1 - p.x, p.x - b.x2 + 1), Max(b.y1 - p.y, p.y - b.y2 + 1)))
  }

  /** The widest strip of the geometry that the content clip box leaves outside the content. */
  function Margin(f: Frame): nat {
    var b, g := ContentBounds(f), f.geometry;
    if !ContentClipped(f) || ContentRegion(f) == {} then 0
    else Max(0, Max(Max(b.x1 - g.x, g.x + g.width - b.x2), Max(b.y1 - g.y, g.y + g.height - b.y2)))
  }

  /** A border is drawn unless a content clip box leaves nothing to surround. */
  predicate Bordered(f: Frame) {
    ContentClipped(f) ==> ContentRegion(f) != {}
  }

  function Ink(v: Look, p: Point): Option<Colour> {
    if Bordered(v.frame) then InkAt(v.border, Distance(v.frame, p)) else None
  }

  lemma GrownByDistance(v: Look, amount: nat, p: Point)
    requires Bordered(v.frame) && amount <= Total(v) && BorderFits(v.frame.geometry, v.border)
    ensures p in Grown(v, amount) <==> Distance(v.frame, p) <= amount
  {
    if ContentClipped(v.frame) {
      var q :| q in ContentRegion(v.frame);
    }
  }

  lemma InsideByDistance(v: Look, p: Point)
    requires Bordered(v.frame) && BorderFits(v.frame.geometry, v.border)
    ensures p in Inside(v) <==> Distance(v.frame, p) == 0
  {
  }

  /** Border and distance: the rings of repaint_view are the inner and the outer width counted outwards. */
  lemma BorderByDistance(v: Look, p: Point, c: Colour)
    requires BorderFits(v.frame.geometry, v.border)
    ensures BorderPixel(v, p, c) == Over(Ink(v, p), c)
  {
    if Bordered(v.frame) {
      GrownByDistance(v, v.border.inwidth, p);
      GrownByDistance(v, Total(v), p);
      InsideByDistance(v, p);
    }
  }

  lemma RestSame(t: Target, v: Look, w: Look, p: Point, c: Colour)
    requires w == v.(border := w.border, extents := w.extents)
    ensures DecorPixel(v, p, c) == DecorPixel(w, p, c)
    ensures v.buffer.Some? ==> ContentPixel(t, v, p, c) == ContentPixel(t, w, p, c)
  {
  }

  lemma FarFromGeometry(f: Frame, p: Point)
    requires p in Area(f.geometry) && Bordered(f)
    ensures Distance(f, p) <= Margin(f)
  {
  }

  // -------------------------------------------------- what gets repainted

  /** No decoration part is drawn over the content. */
  ghost predicate PartsBeside(v: Look) {
    forall d | d in PlacedParts(v.frame.geometry, v.decor) :: Area(d.area) !! Area(v.frame.geometry)
  }

  /** Whatever is below the view, every pixel that the new border changes is damaged. */
  ghost predicate Repainted(t: Target, v: View, w: View) {
    forall p, c | p !in DamageOf(w) :: PixelOf(t, v.look, p, c) == PixelOf(t, w.look, p, c)
  }

  /** The condition, known before the call: the old ring does not stick out of the new extents, and the
      two borders look the same as far into the geometry as the content clip box lets them come. */
  ghost predicate Keeps(v: Look, border: Border, extents: Bounds) {
    && Extents(v) * Grown(v, Total(v)) <= Box(extents.x1, extents.y1, extents.x2, extents.y2)
    && forall k | 0 < k <= Margin(v.frame) :: InkAt(v.border, k) == InkAt(border, k)
  }

  ghost predicate Comparable(v: View, border: Border, extents: Bounds) {
    && v.look.buffer.Some?
    && Enclosed(v.look) && Enclosed(Rebordered(v, border, extents).look)
    && BorderFits(v.look.frame.geometry, v.look.border) && BorderFits(v.look.frame.geometry, border)
  }

  lemma NothingBeyond(t: Target, v: Look, w: Look, p: Point, c: Colour)
    requires w == v.(border := w.border, extents := w.extents) && Enclosed(w) && v.buffer.Some?
    requires BorderFits(v.frame.geometry, v.border)
    requires p !in Extents(w) && p in Extents(v)
    ensures PixelOf(t, v, p, c) == Over(Ink(v, p), c)
  {
    BorderByDistance(v, p, c);
    PartsOutside(PlacedParts(v.frame.geometry, v.decor), p, Over(Ink(v, p), c));
  }

  /** An undamaged pixel is unchanged where the old ring is inside the new extents and the inks agree. */
  lemma GrowingBorderIsDamaged(t: Target, v: View, border: Border, extents: Bounds, p: Point, c: Colour)
    requires Comparable(v, border, extents) && Keeps(v.look, border, extents)
    requires p !in DamageOf(Rebordered(v, border, extents))
    ensures PixelOf(t, v.look, p, c) == PixelOf(t, Rebordered(v, border, extents).look, p, c)
  {
    var w := Rebordered(v, border, extents).look;
    if p in Extents(w) {
      assert p in Area(v.look.frame.geometry);
      var content := ContentPixel(t, v.look, p, c);
      RestSame(t, v.look, w, p, c);
      BorderByDistance(v.look, p, content);
      BorderByDistance(w, p, content);
      SameInkInside(v.look, w, p);
      RestSame(t, v.look, w, p, Over(Ink(v.look, p), content));
    } else {
      PaintsOnlyExtents(t, w, p, c);
      if p in Extents(v.look) {
        NothingBeyond(t, v.look, w, p, c);
        NoInkBeyond(v.look, p);
      } else {
        PaintsOnlyExtents(t, v.look, p, c);
      }
    }
  }

  lemma SameInkInside(v: Look, w: Look, p: Point)
    requires w == v.(border := w.border, extents := w.extents) && p in Area(v.frame.geometry)
    requires forall k | 0 < k <= Margin(v.frame) :: InkAt(v.border, k) == InkAt(w.border, k)
    ensures Ink(v, p) == Ink(w, p)
  {
    if Bordered(v.frame) { FarFromGeometry(v.frame, p); }
  }

  lemma NoInkBeyond(v: Look, p: Point)
    requires BorderFits(v.frame.geometry, v.border) && p !in Grown(v, Total(v))
    ensures Ink(v, p) == None
  {
    if Bordered(v.frame) { GrownByDistance(v, Total(v), p); }
  }

  /** A ring that sticks out of the new extents is left behind: nothing of the view is painted there any
      more, and it is not damaged. */
  lemma ShrinkingBorderIsNotDamaged(t: Target, v: View, border: Border, extents: Bounds, p: Point, c: Colour)
    requires Comparable(v, border, extents) && v.damage == {}
    requires p in Extents(v.look) && p in Grown(v.look, Total(v.look))
        && p !in Extents(Rebordered(v, border, extents).look)
    ensures p !in DamageOf(Rebordered(v, border, extents))
    ensures Ink(v.look, p).Some? && PixelOf(t, v.look, p, c) == Ink(v.look, p).value
    ensures PixelOf(t, Rebordered(v, border, extents).look, p, c) == c
  {
    var w := Rebordered(v, border, extents).look;
    PaintsOnlyExtents(t, w, p, c);
    NothingBeyond(t, v.look, w, p, c);
    GrownByDistance(v.look, Total(v.look), p);
    InsideGeometry(v.look);
    InsideByDistance(v.look, p);
  }

  lemma ContentInside(f: Frame)
    requires ContentClipped(f) && ContentRegion(f) != {}
    ensures var b, g := ContentBounds(f), f.geometry;
      g.x <= b.x1 < b.x2 <= g.x + g.width && g.y <= b.y1 < b.y2 <= g.y + g.height
  {
    var q :| q in ContentRegion(f);
  }

  /** Some point of the geometry is at any distance from the content up to the margin. */
  lemma MarginPoint(f: Frame, k: nat) returns (p: Point)
    requires 0 < k <= Margin(f)
    ensures ContentClipped(f) && Bordered(f) && p in Area(f.geometry) && Distance(f, p) == k
  {
    var b, g := ContentBounds(f), f.geometry;
    ContentInside(f);
    p := if b.x1 - g.x >= k then Point(b.x1 - k, b.y1)
         else if g.x + g.width - b.x2 >= k then Point(b.x2 - 1 + k, b.y1)
         else if b.y1 - g.y >= k then Point(b.x1, b.y1 - k)
         else Point(b.x1, b.y2 - 1 + k);
  }

  /** Inside the geometry only the surface's own damage counts, and there the border shows through. */
  lemma ClippedBorderIsNotDamaged(t: Target, v: View, border: Border, extents: Bounds, p: Point, c: Colour)
    requires Comparable(v, border, extents) && v.damage == {} && PartsBeside(v.look)
    requires ContentClipped(v.look.frame) && p in Area(v.look.frame.geometry) && Distance(v.look.frame, p) > 0
    ensures p !in DamageOf(Rebordered(v, border, extents))
    ensures PixelOf(t, v.look, p, c) == Over(Ink(v.look, p), c)
    ensures PixelOf(t, Rebordered(v, border, extents).look, p, c)
        == Over(Ink(Rebordered(v, border, extents).look, p), c)
  {
    ShowsInk(t, v.look, p, c);
    ShowsInk(t, Rebordered(v, border, extents).look, p, c);
  }

  lemma ShowsInk(t: Target, v: Look, p: Point, c: Colour)
    requires v.buffer.Some? && Enclosed(v) && BorderFits(v.frame.geometry, v.border) && PartsBeside(v)
    requires ContentClipped(v.frame) && p in Area(v.frame.geometry) && Distance(v.frame, p) > 0
    ensures PixelOf(t, v, p, c) == Over(Ink(v, p), c)
  {
    assert p !in ContentRegion(v.frame);
    BorderByDistance(v, p, c);
    PartsOutside(PlacedParts(v.frame.geometry, v.decor), p, Over(Ink(v, p), c));
  }

  lemma NotKept(t: Target, v: View, border: Border, extents: Bounds)
    requires Comparable(v, border, extents) && v.damage == {}
    requires Margin(v.look.frame) > 0 ==> PartsBeside(v.look)
    requires !Keeps(v.look, border, extents)
    ensures !Repainted(t, v, Rebordered(v, border, extents))
  {
    var w := Rebordered(v, border, extents);
    if !(Extents(v.look) * Grown(v.look, Total(v.look)) <= Extents(w.look)) {
      var p :| p in Extents(v.look) * Grown(v.look, Total(v.look)) && p !in Extents(w.look);
      var c := Ink(v.look, p);
      var under: Colour := if c == Some(0) then 1 else 0;
      ShrinkingBorderIsNotDamaged(t, v, border, extents, p, under);
      assert PixelOf(t, v.look, p, under) != PixelOf(t, w.look, p, under);
    } else {
      var k :| 0 < k <= Margin(v.look.frame) && InkAt(v.look.border, k) != InkAt(border, k);
      var p := MarginPoint(v.look.frame, k);
      var under: Colour := Unlike(InkAt(v.look.border, k), InkAt(border, k));
      ClippedBorderIsNotDamaged(t, v, border, extents, p, under);
      assert PixelOf(t, v.look, p, under) != PixelOf(t, w.look, p, under);
    }
  }

  /** A colour below that tells two different inks apart. */
  function Unlike(a: Option<Colour>, b: Option<Colour>): (c: Colour)
    ensures a != b ==> Over(a, c) != Over(b, c)
  {
    if a == Some(0) || b == Some(0) then 1 else 0
  }

  /** A border change on its own repaints all it changes, whatever is below, if and only if the old ring
      stays inside the new extents and, in the part of the geometry that a content clip box leaves to
      the border, the two borders look the same. Without a content clip box the second half is empty. */
  lemma BorderRepaintedExactly(t: Target, v: View, border: Border, extents: Bounds)
    requires Comparable(v, border, extents) && v.damage == {}
    requires Margin(v.look.frame) > 0 ==> PartsBeside(v.look)
    ensures Repainted(t, v, Rebordered(v, border, extents)) <==> Keeps(v.look, border, extents)
  {
    if Keeps(v.look, border, extents) {
      forall p, c | p !in DamageOf(Rebordered(v, border, extents))
        ensures PixelOf(t, v.look, p, c) == PixelOf(t, Rebordered(v, border, extents).look, p, c)
      {
        GrowingBorderIsDamaged(t, v, border, extents, p, c);
      }
    } else {
      NotKept(t, v, border, extents);
    }
  }

  /** Without a content clip box: exactly when no part of the old bordered box leaves the extents. */
  lemma UnclippedWidthExactly(t: Target, v: View, border: Border)
    requires !ContentClipped(v.look.frame) && v.damage == {}
    requires Comparable(v, border, WithBorder(v, border).look.extents)
    ensures Repainted(t, v, WithBorder(v, border)) <==>
      Extents(v.look) * Grown(v.look, Total(v.look)) <= Extents(WithBorder(v, border).look)
  {
    BorderRepaintedExactly(t, v, border, WithBorder(v, border).look.extents);
  }

  /** A change of colours is repainted exactly when no changed ring comes into the geometry. */
  lemma ColoursExactly(t: Target, v: View, outcolor: Colour, incolor: Colour)
    requires v.damage == {} && Comparable(v, WithColours(v, outcolor, incolor).look.border, v.look.extents)
    requires Margin(v.look.frame) > 0 ==> PartsBeside(v.look)
    ensures Repainted(t, v, WithColours(v, outcolor, incolor)) <==>
      && (incolor != v.look.border.incolor && v.look.border.inwidth > 0 ==> Margin(v.look.frame) == 0)
      && (outcolor != v.look.border.outcolor && v.look.border.outwidth > 0 ==>
            Margin(v.look.frame) <= v.look.border.inwidth)
  {
    var b := v.look.border;
    var b' := b.(outcolor := outcolor, incolor := incolor);
    BorderRepaintedExactly(t, v, b', v.look.extents);
    assert InkAt(b, 1) == InkAt(b', 1) <==>
        (b.inwidth == 0 || incolor == b.incolor) && (b.inwidth > 0 || b.outwidth == 0 || outcolor == b.outcolor);
    assert InkAt(b, b.inwidth + 1) == InkAt(b', b.inwidth + 1) <==> b.outwidth == 0 || outcolor == b.outcolor;
  }

  // -------------------------------------------------- and what stays on screen

  /** An undamaged pixel of a view with nothing over it keeps in the scratch buffer what the view painted
      there before, through the next composite, where the full render has what the view paints now. */
  lemma StalePixelStays(t: Target, pre: seq<View>, v: View, w: View, post: seq<View>,
                        damage: Region, o: Overlay, scratch: Canvas, p: Point)
    requires OnScreen(t, v) && OnScreen(t, w) && p in Area(t.geometry) && p !in damage
    requires p !in BoxClip(v.look) && p !in BoxClip(w.look) && !OnOverlay(o, p)
    requires forall x | x in pre :: Contained(x.look) && p !in Extents(x.look)
    requires scratch(Local(t, p)) == FullRender(t, pre + ([v] + post), o, p)
    ensures var views, below := pre + ([w] + post), Painted(t, post, p);
      && Composite(t, views, damage, o, scratch)(Local(t, p)) == PixelOf(t, v.look, p, below)
      && FullRender(t, views, o, p) == PixelOf(t, w.look, p, below)
  {
    CompositeUndamaged(t, pre + ([w] + post), damage, o, scratch, p);
    OnTop(t, v, post, p);
    OnTop(t, w, post, p);
    BareAbove(t, pre, [v] + post, p);
    BareAbove(t, pre, [w] + post, p);
  }

  /** So a ring that sticks out stays on the screen, where what is below should be. */
  lemma StaleRingStays(t: Target, pre: seq<View>, v: View, post: seq<View>, border: Border, extents: Bounds,
                       damage: Region, o: Overlay, scratch: Canvas, p: Point)
    requires Comparable(v, border, extents) && v.damage == {} && OnScreen(t, v) && p in Area(t.geometry)
    requires p in Extents(v.look) && p in Grown(v.look, Total(v.look)) && p !in BoxClip(v.look)
    requires p !in Extents(Rebordered(v, border, extents).look) && p !in damage && !OnOverlay(o, p)
    requires forall x | x in pre :: Contained(x.look) && p !in Extents(x.look)
    requires scratch(Local(t, p)) == FullRender(t, pre + ([v] + post), o, p)
    ensures var views := pre + ([Rebordered(v, border, extents)] + post);
      && Ink(v.look, p).Some?
      && Composite(t, views, damage, o, scratch)(Local(t, p)) == Ink(v.look, p).value
      && FullRender(t, views, o, p) == Painted(t, post, p)
  {
    var w := Rebordered(v, border, extents);
    ShrinkingBorderIsNotDamaged(t, v, border, extents, p, Painted(t, post, p));
    StalePixelStays(t, pre, v, w, post, damage, o, scratch, p);
  }

  lemma {:induction false} BareAbove(t: Target, pre: seq<View>, rest: seq<View>, p: Point)
    requires forall x | x in pre :: Contained(x.look) && p !in Extents(x.look)
    ensures Painted(t, pre + rest, p) == Painted(t, rest, p)
    decreases |pre|
  {
    if pre == [] {
      assert pre + rest == rest;
    } else {
      assert (pre + rest)[1..] == pre[1..] + rest;
      BareAbove(t, pre[1..], rest, p);
      LayerOutside(t, pre[0], p, Painted(t, pre[1..] + rest, p));
    }
  }
}
