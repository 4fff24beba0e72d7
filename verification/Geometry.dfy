/** Rectangle tests in the C integer types (libswc/util.h) and the screen masks computed with them
    (libswc/view.c, libswc/compositor.c). */
module Geometry {
  import opened Regions

  const TWO_32 := 0x1_0000_0000

  /** Conversion to uint32_t. */
  function Unsigned(x: int): int {
    x % TWO_32
  }

  predicate IsInt32(x: int) {
    -0x8000_0000 <= x < 0x8000_0000
  }

  predicate IsUint32(x: int) {
    0 <= x < TWO_32
  }

  function Max(a: int, b: int): int { if a > b then a else b }

  function Min(a: int, b: int): int { if a < b then a else b }

  /** One axis of rectangle_overlap: the sums are unsigned, the smaller left edge is taken signed, and
      the difference and the comparison are unsigned. */
  predicate OverlapAxis(x1: int, w1: int, x2: int, w2: int) {
    Unsigned(Max(Unsigned(x1 + w1), Unsigned(x2 + w2)) - Min(x1, x2)) < Unsigned(w1 + w2)
  }

  /** The two half-open intervals share a point. */
  predicate Meets(x1: int, w1: int, x2: int, w2: int) {
    Max(x1, x2) < Min(x1 + w1, x2 + w2)
  }

  /** Edges that fit the types, with widths that can be added up. */
  predicate AxisFits(x1: int, w1: int, x2: int, w2: int) {
    && IsInt32(x1) && IsInt32(x2) && 0 <= w1 && 0 <= w2 && w1 + w2 < TWO_32
    && IsInt32(x1 + w1) && IsInt32(x2 + w2)
  }

  lemma UnsignedOf(x: int)
    requires -TWO_32 <= x < TWO_32
    ensures Unsigned(x) == if x >= 0 then x else x + TWO_32
  {
  }

  lemma SameSignAxis(x1: int, w1: int, x2: int, w2: int)
    requires AxisFits(x1, w1, x2, w2) && (x1 + w1 < 0) == (x2 + w2 < 0)
    ensures OverlapAxis(x1, w1, x2, w2) <==> Max(x1 + w1, x2 + w2) - Min(x1, x2) < w1 + w2
  {
    UnsignedOf(x1 + w1);
    UnsignedOf(x2 + w2);
    UnsignedOf(w1 + w2);
    var d := Max(x1 + w1, x2 + w2) - Min(x1, x2);
    UnsignedOf(d);
    if x1 + w1 < 0 {
      assert Unsigned(d + TWO_32) == Unsigned(d);
    }
  }

  lemma MixedSignAxis(x1: int, w1: int, x2: int, w2: int)
    requires AxisFits(x1, w1, x2, w2) && x1 + w1 < 0 <= x2 + w2
    ensures OverlapAxis(x1, w1, x2, w2) <==> x1 + w1 - Min(x1, x2) < w1 + w2
    ensures OverlapAxis(x2, w2, x1, w1) == OverlapAxis(x1, w1, x2, w2)
  {
    UnsignedOf(x1 + w1);
    UnsignedOf(x2 + w2);
    UnsignedOf(w1 + w2);
    var d := x1 + w1 - Min(x1, x2);
    UnsignedOf(d);
    assert Unsigned(d + TWO_32) == Unsigned(d);
  }

  /** Exact: when the two right edges agree in sign the test is right. When they do not, it is true
      exactly when the interval that ends at or right of zero is not empty. */
  lemma OverlapAxisExactly(x1: int, w1: int, x2: int, w2: int)
    requires AxisFits(x1, w1, x2, w2)
    ensures OverlapAxis(x1, w1, x2, w2) <==>
      if (x1 + w1 < 0) == (x2 + w2 < 0) then Meets(x1, w1, x2, w2)
      else (if x1 + w1 < 0 then w2 else w1) > 0
  {
    if (x1 + w1 < 0) == (x2 + w2 < 0) {
      SameSignAxis(x1, w1, x2, w2);
    } else if x1 + w1 < 0 {
      MixedSignAxis(x1, w1, x2, w2);
    } else {
      MixedSignAxis(x2, w2, x1, w1);
    }
  }

  predicate RectanglesOverlap(a: Rect, b: Rect) {
    OverlapAxis(a.x, a.width, b.x, b.width) && OverlapAxis(a.y, a.height, b.y, b.height)
  }

  predicate RectsFit(a: Rect, b: Rect) {
    AxisFits(a.x, a.width, b.x, b.width) && AxisFits(a.y, a.height, b.y, b.height)
  }

  /** Any edges and widths of the C types whose widths can be added up. */
  predicate WidthsAdd(x1: int, w1: int, x2: int, w2: int) {
    IsInt32(x1) && IsInt32(x2) && IsUint32(w1) && IsUint32(w2) && w1 + w2 < TWO_32
  }

  /** The right edge that is taken as the larger one. */
  lemma ReportedBy(e: int, left: int, sum: int)
    requires 0 <= e - left < sum < TWO_32
    ensures Unsigned(Unsigned(e) - left) < Unsigned(sum)
  {
    var k := (e - Unsigned(e)) / TWO_32;
    assert Unsigned(e) == e - k * TWO_32;
    UnsignedMoved(e - left, -k);
  }

  lemma UnsignedMoved(x: int, k: int)
    requires 0 <= x < TWO_32
    ensures Unsigned(x + k * TWO_32) == x
  {
  }

  lemma MeetsIsReported(x1: int, w1: int, x2: int, w2: int)
    requires WidthsAdd(x1, w1, x2, w2) && Meets(x1, w1, x2, w2)
    ensures OverlapAxis(x1, w1, x2, w2)
  {
    ReportedBy(x1 + w1, Min(x1, x2), w1 + w2);
    ReportedBy(x2 + w2, Min(x1, x2), w1 + w2);
  }

  predicate RectWidthsAdd(a: Rect, b: Rect) {
    WidthsAdd(a.x, a.width, b.x, b.width) && WidthsAdd(a.y, a.height, b.y, b.height)
  }

  /** The wrapping arithmetic never misses an overlap, wherever the right edges come to be. */
  lemma OverlapNeverMisses(a: Rect, b: Rect)
    requires RectWidthsAdd(a, b) && Area(a) * Area(b) != {}
    ensures RectanglesOverlap(a, b)
  {
    var p :| p in Area(a) * Area(b);
    MeetsIsReported(a.x, a.width, b.x, b.width);
    MeetsIsReported(a.y, a.height, b.y, b.height);
  }

  /** The widths do have to add up: when their sum is a multiple of 2^32 nothing is ever reported. */
  lemma WrappedWidthsMiss(x1: int, w1: int, x2: int, w2: int)
    requires (w1 + w2) % TWO_32 == 0
    ensures !OverlapAxis(x1, w1, x2, w2)
  {
  }

  /** It is exact when the right edges agree in sign and the bottom edges do. */
  lemma OverlapExactWhenSignsAgree(a: Rect, b: Rect)
    requires RectsFit(a, b)
    requires (a.x + a.width < 0) == (b.x + b.width < 0) && (a.y + a.height < 0) == (b.y + b.height < 0)
    ensures RectanglesOverlap(a, b) <==> Area(a) * Area(b) != {}
  {
    OverlapAxisExactly(a.x, a.width, b.x, b.width);
    OverlapAxisExactly(a.y, a.height, b.y, b.height);
    if RectanglesOverlap(a, b) {
      assert Point(Max(a.x, b.x), Max(a.y, b.y)) in Area(a) * Area(b);
    }
  }

  /** Otherwise it can report rectangles far apart. */
  lemma OverlapFalseAlarm()
    ensures var a, b := Rect(-300, 0, 100, 100), Rect(500, 0, 100, 100);
      RectsFit(a, b) && RectanglesOverlap(a, b) && Area(a) * Area(b) == {}
  {
    OverlapAxisExactly(-300, 100, 500, 100);
    OverlapAxisExactly(0, 100, 0, 100);
  }

  // -------------------------------------------------------- point containment

  /** One axis of rectangle_contains_point: the left test is signed, the right one unsigned. */
  predicate ContainsAxis(x: int, width: int, p: int) {
    p > x && Unsigned(p) < Unsigned(x + width)
  }

  /** Exact, for all values of the C types: the first column is always left out; a negative point is only
      found in a rectangle that ends before zero; every point from zero on is taken to be in such a
      rectangle; and a right edge past 2^32 counts from zero again. */
  lemma ContainsAxisExactly(x: int, width: int, p: int)
    requires IsInt32(x) && IsInt32(p) && IsUint32(width)
    ensures ContainsAxis(x, width, p) <==>
      && x < p
      && if x + width < 0 then p >= 0 || p < x + width
         else p >= 0 && p < if x + width < TWO_32 then x + width else x + width - TWO_32
  {
    UnsignedOf(p);
  }

  // ------------------------------------------------------------ screen masks

  type Id = nat

  datatype View = View(visible: bool, geometry: Rect, screens: set<Id>)

  datatype State = State(screens: map<Id, Rect>, views: map<Id, View>)

  /** view_update_screens */
  function MaskOf(screens: map<Id, Rect>, geometry: Rect): set<Id> {
    set s | s in screens && RectanglesOverlap(screens[s], geometry)
  }

  function Refresh(screens: map<Id, Rect>, v: View): View {
    if v.visible then v.(screens := MaskOf(screens, v.geometry)) else v
  }

  datatype Event =
    | Shows(view: Id)
    | Hides(view: Id)
    | Moves(view: Id, x: int, y: int)
    | Attaches(view: Id, width: nat, height: nat)
    | ScreenMoves(screen: Id, x: int, y: int)

  function Step(s: State, e: Event): State {
    match e
    case Shows(v) =>
      if v !in s.views || s.views[v].visible then s
      else s.(views := s.views[v := Refresh(s.screens, s.views[v].(visible := true))])
    case Hides(v) =>
      if v !in s.views || !s.views[v].visible then s
      else s.(views := s.views[v := s.views[v].(visible := false, screens := {})])
    case Moves(v, x, y) =>
      if v !in s.views || (s.views[v].geometry.x == x && s.views[v].geometry.y == y) then s
      else
        var g := s.views[v].geometry;
        s.(views := s.views[v := Refresh(s.screens, s.views[v].(geometry := Rect(x, y, g.width, g.height)))])
    case Attaches(v, w, h) =>
      if v !in s.views || (s.views[v].geometry.width == w && s.views[v].geometry.height == h) then s
      else
        var g := s.views[v].geometry;
        s.(views := s.views[v := Refresh(s.screens, s.views[v].(geometry := Rect(g.x, g.y, w, h)))])
    case ScreenMoves(screen, x, y) =>
      if screen !in s.screens || (s.screens[screen].x == x && s.screens[screen].y == y) then s
      else
        var g := s.screens[screen];
        var screens := s.screens[screen := Rect(x, y, g.width, g.height)];
        State(screens, map v | v in s.views :: Refresh(screens, s.views[v]))
  }

  function Run(s: State, events: seq<Event>): State
    decreases |events|
  {
    if events == [] then s else Run(Step(s, events[0]), events[1..])
  }

  ghost predicate Masked(s: State) {
    forall v | v in s.views :: s.views[v].screens
        == if s.views[v].visible then MaskOf(s.screens, s.views[v].geometry) else {}
  }

  lemma StepKeepsMasked(s: State, e: Event)
    requires Masked(s)
    ensures Masked(Step(s, e))
  {
  }

  lemma {:induction false} RunKeepsMasked(s: State, events: seq<Event>)
    requires Masked(s)
    ensures Masked(Run(s, events))
    decreases |events|
  {
    if events != [] {
      StepKeepsMasked(s, events[0]);
      RunKeepsMasked(Step(s, events[0]), events[1..]);
    }
  }

  /** Through every run of shows, hides, moves, attaches and screen rearrangements a visible view's mask
      has every screen its geometry shares a point with: what the repaint relies on. */
  lemma MaskNeverMisses(s: State, events: seq<Event>, v: Id, screen: Id)
    requires Masked(s)
    requires var t := Run(s, events);
      && v in t.views && t.views[v].visible && screen in t.screens
      && RectWidthsAdd(t.screens[screen], t.views[v].geometry)
      && Area(t.screens[screen]) * Area(t.views[v].geometry) != {}
    ensures screen in Run(s, events).views[v].screens
  {
    RunKeepsMasked(s, events);
    OverlapNeverMisses(Run(s, events).screens[screen], Run(s, events).views[v].geometry);
  }

  // --------------------------------------------------- places, by history

  /** Visible, place and size as the last request about each says. */
  datatype Spot = Spot(visible: bool, x: int, y: int, width: nat, height: nat)

  function SpotOf(v: View): Spot {
    Spot(v.visible, v.geometry.x, v.geometry.y, v.geometry.width, v.geometry.height)
  }

  function SpotBy(e: Event, v: Id, was: Spot): Spot {
    match e
    case Shows(w) => if w == v then was.(visible := true) else was
    case Hides(w) => if w == v then was.(visible := false) else was
    case Moves(w, x, y) => if w == v then was.(x := x, y := y) else was
    case Attaches(w, width, height) => if w == v then was.(width := width, height := height) else was
    case ScreenMoves(_, _, _) => was
  }

  function LastSpot(events: seq<Event>, v: Id, was: Spot): Spot
    decreases |events|
  {
    if events == [] then was else LastSpot(events[1..], v, SpotBy(events[0], v, was))
  }

  /** After any run a view is where it was last moved, as large as it was last made and shown or hidden as it last
      was, and its mask has exactly the screens its geometry is reported to overlap, none when it is hidden. */
  lemma {:induction false} SpotByHistory(s: State, events: seq<Event>, v: Id)
    requires Masked(s) && v in s.views
    ensures var t := Run(s, events);
      && v in t.views && SpotOf(t.views[v]) == LastSpot(events, v, SpotOf(s.views[v]))
      && (forall screen :: screen in t.views[v].screens <==>
            t.views[v].visible && screen in t.screens && RectanglesOverlap(t.screens[screen], t.views[v].geometry))
    decreases |events|
  {
    if events != [] {
      StepKeepsMasked(s, events[0]);
      SpotByHistory(Step(s, events[0]), events[1..], v);
    }
  }

  function LastPlace(events: seq<Event>, screen: Id, was: (int, int)): (int, int)
    decreases |events|
  {
    if events == [] then was
    else LastPlace(events[1..], screen, match events[0]
      case ScreenMoves(which, x, y) => if which == screen then (x, y) else was
      case _ => was)
  }

  lemma {:induction false} ScreenByHistory(s: State, events: seq<Event>, screen: Id)
    requires screen in s.screens
    ensures var t, g := Run(s, events), s.screens[screen];
      && screen in t.screens && (t.screens[screen].x, t.screens[screen].y) == LastPlace(events, screen, (g.x, g.y))
      && t.screens[screen].width == g.width && t.screens[screen].height == g.height
    decreases |events|
  {
    if events != [] { ScreenByHistory(Step(s, events[0]), events[1..], screen); }
  }
}

/** The views' geometry and masks, updated in place. */
module GeometryObject {
  import opened Regions
  import opened Geometry

  class ViewTable {
    var screens: map<Id, Rect>
    var views: map<Id, View>

    ghost function Model(): State
      reads this
    {
      State(screens, views)
    }

    constructor (screens: map<Id, Rect>)
      ensures Model() == State(screens, map[]) && Masked(Model())
    {
      this.screens, this.views := screens, map[];
    }

    /** Tests one screen after the other. */
    method ScreensOf(geometry: Rect) returns (mask: set<Id>)
      ensures mask == MaskOf(screens, geometry)
    {
      mask := {};
      var todo := screens.Keys;
      while todo != {}
        invariant todo <= screens.Keys && mask == MaskOf(screens, geometry) - todo
        decreases |todo|
      {
        var s :| s in todo;
        todo := todo - {s};
        if RectanglesOverlap(screens[s], geometry) { mask := mask + {s}; }
      }
    }

    method UpdateScreens(v: Id)
      requires v in views
      modifies `views
      ensures views == old(views)[v := Refresh(screens, old(views)[v])]
    {
      if views[v].visible {
        var mask := ScreensOf(views[v].geometry);
        views := views[v := views[v].(screens := mask)];
      } else {
        assert views == views[v := views[v]];
      }
    }

    /** view_set_position as move calls it. */
    method Move(v: Id, x: int, y: int)
      requires v in views
      modifies `views
      ensures Model() == Step(old(Model()), Moves(v, x, y))
    {
      var g := views[v].geometry;
      if g.x == x && g.y == y { return; }
      views := views[v := views[v].(geometry := Rect(x, y, g.width, g.height))];
      UpdateScreens(v);
    }

    /** view_set_size as attach calls it. */
    method Resize(v: Id, width: nat, height: nat)
      requires v in views
      modifies `views
      ensures Model() == Step(old(Model()), Attaches(v, width, height))
    {
      var g := views[v].geometry;
      if g.width == width && g.height == height { return; }
      views := views[v := views[v].(geometry := Rect(g.x, g.y, width, height))];
      UpdateScreens(v);
    }

    method Show(v: Id)
      requires v in views
      modifies `views
      ensures Model() == Step(old(Model()), Shows(v))
    {
      if views[v].visible { return; }
      views := views[v := views[v].(visible := true)];
      UpdateScreens(v);
    }

    method Hide(v: Id)
      requires v in views
      modifies `views
      ensures Model() == Step(old(Model()), Hides(v))
    {
      if !views[v].visible { return; }
      views := views[v := views[v].(screens := {})];
      views := views[v := views[v].(visible := false)];
    }

    /** swc_screen_set_position, then compositor_update_screens over every view. */
    method MoveScreen(s: Id, x: int, y: int)
      requires s in screens
      modifies this
      ensures Model() == Step(old(Model()), ScreenMoves(s, x, y))
    {
      var g := screens[s];
      if g.x == x && g.y == y { return; }
      screens := screens[s := Rect(x, y, g.width, g.height)];
      RefreshAll();
    }

    method RefreshAll()
      modifies `views
      ensures views == map v | v in old(views) :: Refresh(screens, old(views)[v])
    {
      var todo := views.Keys;
      while todo != {}
        invariant todo <= views.Keys == old(views).Keys
        invariant forall v | v in views :: views[v] == if v in todo then old(views)[v]
            else Refresh(screens, old(views)[v])
        decreases |todo|
      {
        var v :| v in todo;
        todo := todo - {v};
        UpdateScreens(v);
      }
    }
  }
}

/** The pointer stays on the screens: libswc/pointer.c. */
module Confinement {
  import opened Words
  import opened Geometry

  /** wl_fixed_t: 24.8 fixed point in an int32. */
  type Fixed = int

  function Wrap32(x: int): (r: int)
    ensures IsInt32(r) && (IsInt32(x) ==> r == x)
  {
    (x + 0x8000_0000) % TWO_32 - 0x8000_0000
  }

  function FromInt(i: int): Fixed {
    Wrap32(i * 256)
  }

  /** C division truncates toward zero. */
  function ToInt(f: Fixed): int {
    if f >= 0 then f / 256 else -((-f) / 256)
  }

  datatype Box = Box(x1: int, y1: int, x2: int, y2: int)

  predicate InBox(b: Box, x: int, y: int) {
    b.x1 <= x < b.x2 && b.y1 <= y < b.y2
  }

  /** The rectangles of the region, in pixman's order. */
  type Boxes = seq<Box>

  /** pixman_region32_contains_point: the rectangle that holds the point. */
  function BoxAt(region: Boxes, x: int, y: int): (b: Option<Box>)
    ensures b.Some? ==> b.value in region && InBox(b.value, x, y)
    ensures b.None? ==> forall c | c in region :: !InBox(c, x, y)
  {
    if region == [] then None else if InBox(region[0], x, y) then Some(region[0]) else BoxAt(region[1..], x, y)
  }

  datatype Place = Place(region: Boxes, x: Fixed, y: Fixed)

  /** Non-empty boxes whose coordinates fit 24 bits. */
  ghost predicate ValidRegion(region: Boxes) {
    forall b | b in region ::
      && b.x1 < b.x2 && b.y1 < b.y2
      && -0x80_0000 <= b.x1 && b.x2 <= 0x80_0000 && -0x80_0000 <= b.y1 && b.y2 <= 0x80_0000
  }

  /** The pointer is on some screen, unless there are none. */
  ghost predicate Confined(p: Place) {
    p.region != [] ==> exists b | b in p.region :: InBox(b, ToInt(p.x), ToInt(p.y))
  }

  /** recover_position: the centre of the first rectangle, or the origin. */
  function Recover(p: Place): Place {
    if p.region == [] then p.(x := 0, y := 0)
    else
      var b := p.region[0];
      p.(x := FromInt(b.x1 + (b.x2 - b.x1) / 2), y := FromInt(b.y1 + (b.y2 - b.y1) / 2))
  }

  /** clip_position: the position itself if it is on a screen, else the nearest point of the rectangle the
      pointer was in, else a recovered one. */
  function Clip(p: Place, fx: Fixed, fy: Fixed): Place {
    var x, y := ToInt(fx), ToInt(fy);
    if BoxAt(p.region, x, y).Some? then p.(x := fx, y := fy)
    else match BoxAt(p.region, ToInt(p.x), ToInt(p.y))
      case None => Recover(p)
      case Some(b) => p.(x := FromInt(Max(Min(x, b.x2 - 1), b.x1)), y := FromInt(Max(Min(y, b.y2 - 1), b.y1)))
  }

  datatype Event = MovesTo(fx: Fixed, fy: Fixed) | MovesBy(dx: Fixed, dy: Fixed) | ScreensChange(region: Boxes)

  function Rearranged(p: Place, e: Event): Place {
    if e.ScreensChange? then p.(region := e.region) else p
  }

  function WantedX(p: Place, e: Event): Fixed {
    match e
    case MovesTo(fx, _) => fx
    case MovesBy(dx, _) => Wrap32(p.x + dx)
    case ScreensChange(_) => p.x
  }

  function WantedY(p: Place, e: Event): Fixed {
    match e
    case MovesTo(_, fy) => fy
    case MovesBy(_, dy) => Wrap32(p.y + dy)
    case ScreensChange(_) => p.y
  }

  function Step(p: Place, e: Event): Place {
    Clip(Rearranged(p, e), WantedX(p, e), WantedY(p, e))
  }

  function Run(p: Place, events: seq<Event>): Place
    decreases |events|
  {
    if events == [] then p else Run(Step(p, events[0]), events[1..])
  }

  lemma RoundTrip(i: int)
    requires -0x80_0000 <= i < 0x80_0000
    ensures ToInt(FromInt(i)) == i
  {
  }

  lemma Landed(region: Boxes, b: Box, x: int, y: int)
    requires ValidRegion(region) && b in region && InBox(b, x, y)
    ensures InBox(b, ToInt(FromInt(x)), ToInt(FromInt(y)))
  {
    RoundTrip(x);
    RoundTrip(y);
  }

  lemma ClipConfines(p: Place, fx: Fixed, fy: Fixed)
    requires ValidRegion(p.region)
    ensures Confined(Clip(p, fx, fy)) && Clip(p, fx, fy).region == p.region
  {
    if BoxAt(p.region, ToInt(fx), ToInt(fy)).None? && p.region != [] {
      match BoxAt(p.region, ToInt(p.x), ToInt(p.y))
      case None =>
        var b := p.region[0];
        Landed(p.region, b, b.x1 + (b.x2 - b.x1) / 2, b.y1 + (b.y2 - b.y1) / 2);
      case Some(b) =>
        Landed(p.region, b, Max(Min(ToInt(fx), b.x2 - 1), b.x1), Max(Min(ToInt(fy), b.y2 - 1), b.y1));
    }
  }

  /** Whatever the motions, wrapped sums included, and however the screens are rearranged meanwhile, a
      region that is not empty contains the pointer after every event. */
  lemma {:induction false} RunConfines(p: Place, events: seq<Event>)
    requires ValidRegion(p.region) && Confined(p)
    requires forall e | e in events && e.ScreensChange? :: ValidRegion(e.region)
    ensures Confined(Run(p, events))
    decreases |events|
  {
    if events != [] {
      var q := Rearranged(p, events[0]);
      assert ValidRegion(q.region);
      ClipConfines(q, WantedX(p, events[0]), WantedY(p, events[0]));
      RunConfines(Step(p, events[0]), events[1..]);
    }
  }

  function Abs(a: int): nat { if a < 0 then -a else a }

  /** A position off all screens goes to the nearest point of the rectangle the pointer was in, along both axes. */
  lemma OffScreenGoesNearest(p: Place, fx: Fixed, fy: Fixed, b: Box, x: int, y: int)
    requires ValidRegion(p.region) && BoxAt(p.region, ToInt(p.x), ToInt(p.y)) == Some(b)
    requires forall c | c in p.region :: !InBox(c, ToInt(fx), ToInt(fy))
    requires InBox(b, x, y)
    ensures var q := Clip(p, fx, fy);
      && q.region == p.region && InBox(b, ToInt(q.x), ToInt(q.y))
      && Abs(ToInt(q.x) - ToInt(fx)) <= Abs(x - ToInt(fx)) && Abs(ToInt(q.y) - ToInt(fy)) <= Abs(y - ToInt(fy))
  {
    RoundTrip(Max(Min(ToInt(fx), b.x2 - 1), b.x1));
    RoundTrip(Max(Min(ToInt(fy), b.y2 - 1), b.y1));
  }

  /** And when the pointer was on none either, it goes to the middle of the first rectangle, or to the origin. */
  lemma LostIsRecovered(p: Place, fx: Fixed, fy: Fixed)
    requires ValidRegion(p.region)
    requires forall c | c in p.region :: !InBox(c, ToInt(fx), ToInt(fy)) && !InBox(c, ToInt(p.x), ToInt(p.y))
    ensures var q := Clip(p, fx, fy);
      if p.region == [] then q == p.(x := 0, y := 0)
      else
        var b := p.region[0];
        && InBox(b, ToInt(q.x), ToInt(q.y))
        && 0 <= (b.x2 - ToInt(q.x)) - (ToInt(q.x) - b.x1) <= 1 && 0 <= (b.y2 - ToInt(q.y)) - (ToInt(q.y) - b.y1) <= 1
  {
    if p.region != [] {
      var b := p.region[0];
      RoundTrip(b.x1 + (b.x2 - b.x1) / 2);
      RoundTrip(b.y1 + (b.y2 - b.y1) / 2);
    }
  }

  /** What a motion asks for: the sum with where the pointer is, as the int32 it is kept in. */
  lemma MotionAdds(p: Place, dx: Fixed, dy: Fixed)
    ensures Step(p, MovesBy(dx, dy)) == Clip(p, Wrap32(p.x + dx), Wrap32(p.y + dy))
    ensures IsInt32(p.x + dx) && IsInt32(p.y + dy) ==> Step(p, MovesBy(dx, dy)) == Step(p, MovesTo(p.x + dx, p.y + dy))
  {
  }

  /** Screens that are rearranged take the pointer with them only if it is on none any more. */
  lemma RearrangedExactly(p: Place, region: Boxes)
    ensures var q := Step(p, ScreensChange(region));
      && q.region == region
      && ((exists b | b in region :: InBox(b, ToInt(p.x), ToInt(p.y))) ==> q == p.(region := region))
      && ((forall b | b in region :: !InBox(b, ToInt(p.x), ToInt(p.y))) ==> q == Recover(p.(region := region)))
    ensures forall x, y :: Step(p, MovesTo(x, y)) == Clip(p, x, y)
  {
    if b :| b in region && InBox(b, ToInt(p.x), ToInt(p.y)) {
      assert BoxAt(region, ToInt(p.x), ToInt(p.y)).Some?;
    }
  }

  /** The pixel of a position is the one towards the origin. */
  lemma ToIntTruncates(f: Fixed)
    ensures f >= 0 ==> ToInt(f) >= 0 && 0 <= f - 256 * ToInt(f) < 256
    ensures f <= 0 ==> ToInt(f) <= 0 && -256 < f - 256 * ToInt(f) <= 0
  {
  }

  /** Events are handled one by one, in order. */
  lemma {:induction false} RunSnoc(p: Place, events: seq<Event>, e: Event)
    ensures Run(p, events + [e]) == Step(Run(p, events), e)
    decreases |events|
  {
    if events == [] {
      assert [e][1..] == [] && [] + [e] == [e];
    } else {
      assert (events + [e])[1..] == events[1..] + [e];
      RunSnoc(Step(p, events[0]), events[1..], e);
    }
  }

  /** A position on a screen is taken as it is. */
  lemma OnScreenIsKept(p: Place, fx: Fixed, fy: Fixed)
    requires exists b | b in p.region :: InBox(b, ToInt(fx), ToInt(fy))
    ensures Clip(p, fx, fy) == p.(x := fx, y := fy)
  {
    assert BoxAt(p.region, ToInt(fx), ToInt(fy)).Some?;
  }
}

module ConfinementObject {
  import opened Words
  import G = Geometry
  import opened Confinement

  class Pointer {
    var region: Boxes
    var x: Fixed
    var y: Fixed

    ghost function Model(): Place
      reads this
    {
      Place(region, x, y)
    }

    constructor ()
      ensures Model() == Place([], 0, 0) && ValidRegion(region) && Confined(Model())
    {
      region, x, y := [], 0, 0;
    }

    method FindBox(px: int, py: int) returns (box: Option<Box>)
      ensures box == BoxAt(region, px, py)
    {
      var i := 0;
      while i < |region|
        invariant 0 <= i <= |region|
        invariant BoxAt(region, px, py) == BoxAt(region[i..], px, py)
      {
        assert region[i..][1..] == region[i + 1..];
        if InBox(region[i], px, py) { return Some(region[i]); }
        i := i + 1;
      }
      return None;
    }

    method RecoverPosition()
      modifies `x, `y
      ensures Model() == Recover(old(Model()))
    {
      if |region| == 0 {
        x, y := 0, 0;
        return;
      }
      var b := region[0];
      x := FromInt(b.x1 + (b.x2 - b.x1) / 2);
      y := FromInt(b.y1 + (b.y2 - b.y1) / 2);
    }

    method ClipPosition(fx: Fixed, fy: Fixed)
      requires ValidRegion(region)
      modifies `x, `y
      ensures Model() == Clip(old(Model()), fx, fy) && Confined(Model())
    {
      ClipConfines(Model(), fx, fy);
      var px, py, nx, ny := ToInt(fx), ToInt(fy), fx, fy;
      var here := FindBox(px, py);
      if here.None? {
        var last := FindBox(ToInt(x), ToInt(y));
        if last.None? {
          RecoverPosition();
          return;
        }
        nx := FromInt(G.Max(G.Min(px, last.value.x2 - 1), last.value.x1));
        ny := FromInt(G.Max(G.Min(py, last.value.y2 - 1), last.value.y1));
      }
      x, y := nx, ny;
    }

    method SetRegion(r: Boxes)
      requires ValidRegion(r)
      modifies this
      ensures Model() == Step(old(Model()), ScreensChange(r)) && Confined(Model())
    {
      region := r;
      ClipPosition(x, y);
    }

    method RelativeMotion(dx: Fixed, dy: Fixed)
      requires ValidRegion(region)
      modifies `x, `y
      ensures Model() == Step(old(Model()), MovesBy(dx, dy)) && Confined(Model())
    {
      ClipPosition(Wrap32(x + dx), Wrap32(y + dy));
    }
  }
}
