/** What becomes of the damage a client commits while its view is held: surface_apply_pending collects it
    (libswc/surface.c), calculate_damage takes it (libswc/compositor.c), and only the release shows the buffer
    that it is about. */
module HeldDamage {
  import opened Words
  import opened Regions
  import opened Views
  import opened Painting
  import opened Damage
  import opened Decorations

  /** A commit with its damage, or a damage calculation with the opaque region above the view. */
  datatype Event = Commits(damage: Region) | Calculates(above: Region)

  /** trim_region, for commits of buffers as large as the one that is shown. */
  function Trim(v: Look, r: Region): Region {
    if v.buffer.Some? then r * Box(0, 0, v.buffer.value.width, v.buffer.value.height) else {}
  }

  function Step(v: View, e: Event): View {
    match e
    case Commits(damage) => v.(damage := Trim(v.look, v.damage + damage))
    case Calculates(above) => if v.visible then Calculated(v, above) else v
  }

  function Run(v: View, events: seq<Event>): (r: View)
    ensures r.look == v.look
    decreases |events|
  {
    if events == [] then v else Run(Step(v, events[0]), events[1..])
  }

  /** All that was committed. */
  function Committed(v: Look, events: seq<Event>): Region
    decreases |events|
  {
    if events == [] then {}
    else (if events[0].Commits? then Trim(v, events[0].damage) else {}) + Committed(v, events[1..])
  }

  function Commits(events: seq<Event>): nat
    decreases |events|
  {
    if events == [] then 0 else (if events[0].Commits? then 1 else 0) + Commits(events[1..])
  }

  /** `contents` numbers the client's buffers: the one in front of the events is number `k`, and each commit
      brings the next, which differs from it only where that commit's damage says. */
  ghost predicate Honest(v: Look, events: seq<Event>, contents: nat -> Canvas, k: nat)
    decreases |events|
  {
    events == [] ||
    if events[0].Commits? then
      && (forall q | q !in Trim(v, events[0].damage) :: contents(k + 1)(q) == contents(k)(q))
      && Honest(v, events[1..], contents, k + 1)
    else Honest(v, events[1..], contents, k)
  }

  /** Whatever honest clients draw, all that differs between the buffer shown and the last one is damaged. */
  ghost predicate DamagedAtRelease(v: View, events: seq<Event>) {
    forall contents: nat -> Canvas, q | Honest(v.look, events, contents, 0)
      && contents(0)(q) != contents(Commits(events))(q) :: q in Run(v, events).damage
  }

  lemma {:induction false} HonestChanges(v: Look, events: seq<Event>, contents: nat -> Canvas, k: nat, q: Point)
    requires Honest(v, events, contents, k) && q !in Committed(v, events)
    ensures contents(k + Commits(events))(q) == contents(k)(q)
    decreases |events|
  {
    if events != [] { HonestChanges(v, events[1..], contents, if events[0].Commits? then k + 1 else k, q); }
  }

  /** The buffers of a client that changes the one pixel `q`, at commit number `m`. */
  function ChangedAt(q: Point, m: nat): nat -> Canvas {
    (k: nat) => (x: Point) => if k > m && x == q then 1 else 0
  }

  /** Some commit's damage has `q`. */
  lemma {:induction false} HonestlyChanged(v: Look, events: seq<Event>, k: nat, q: Point) returns (m: nat)
    requires q in Committed(v, events)
    ensures k <= m < k + Commits(events) && Honest(v, events, ChangedAt(q, m), k)
    decreases |events|
  {
    var e, rest := events[0], events[1..];
    if e.Commits? && q in Trim(v, e.damage) {
      m := k;
      HonestLater(v, rest, k + 1, q, m);
    } else {
      m := HonestlyChanged(v, rest, if e.Commits? then k + 1 else k, q);
    }
  }

  lemma {:induction false} HonestLater(v: Look, events: seq<Event>, k: nat, q: Point, m: nat)
    requires m < k
    ensures Honest(v, events, ChangedAt(q, m), k)
    decreases |events|
  {
    if events != [] { HonestLater(v, events[1..], if events[0].Commits? then k + 1 else k, q, m); }
  }

  /** The buffer that the release shows has all its changes damaged, whatever an honest client draws, if and
      only if no damage calculation took any of the damage that was not committed again since. The release
      damages nothing by itself when the size stays the same. */
  lemma DamagedAtReleaseExactly(v: View, events: seq<Event>)
    ensures DamagedAtRelease(v, events) <==> Committed(v.look, events) <= Run(v, events).damage
  {
    if DamagedAtRelease(v, events) {
      forall q | q in Committed(v.look, events) ensures q in Run(v, events).damage {
        var m := HonestlyChanged(v.look, events, 0, q);
        var contents := ChangedAt(q, m);
        assert contents(0)(q) == 0 && contents(Commits(events))(q) == 1;
      }
    }
    if Committed(v.look, events) <= Run(v, events).damage {
      forall contents: nat -> Canvas, q | Honest(v.look, events, contents, 0)
        && contents(0)(q) != contents(Commits(events))(q)
        ensures q in Run(v, events).damage
      {
        if q !in Committed(v.look, events) { HonestChanges(v.look, events, contents, 0, q); }
      }
    }
  }

  ghost predicate NoneCalculated(v: View, events: seq<Event>) {
    v.visible ==> forall e | e in events :: !e.Calculates?
  }

  lemma TrimTwice(v: Look, a: Region, b: Region)
    ensures Trim(v, Trim(v, a + b)) == Trim(v, a) + Trim(v, b)
  {
  }

  lemma {:induction false} UntakenStays(v: View, events: seq<Event>)
    requires NoneCalculated(v, events)
    ensures Trim(v.look, v.damage) + Committed(v.look, events) <= Run(v, events).damage
    decreases |events|
  {
    if events != [] {
      assert NoneCalculated(Step(v, events[0]), events[1..]);
      UntakenStays(Step(v, events[0]), events[1..]);
      if events[0].Commits? { TrimTwice(v.look, v.damage, events[0].damage); }
    }
  }

  /** So it is when no frame was calculated while the view was held, or the view was not visible. */
  lemma UncalculatedIsDamaged(v: View, events: seq<Event>)
    requires NoneCalculated(v, events)
    ensures DamagedAtRelease(v, events)
  {
    UntakenStays(v, events);
    DamagedAtReleaseExactly(v, events);
  }

  /** But a frame after the last commit takes it all, and the released buffer's changes are not painted until
      the client damages them again. */
  lemma CalculatedIsLost(v: View, events: seq<Event>, above: Region)
    requires v.visible && Committed(v.look, events) != {}
    ensures !DamagedAtRelease(v, events + [Calculates(above)])
  {
    var all := events + [Calculates(above)];
    TakenLast(v, events, above);
    DamagedAtReleaseExactly(v, all);
  }

  lemma {:induction false} TakenLast(v: View, events: seq<Event>, above: Region)
    requires v.visible
    ensures Run(v, events + [Calculates(above)]).damage == {}
    ensures Committed(v.look, events + [Calculates(above)]) == Committed(v.look, events)
    decreases |events|
  {
    var all := events + [Calculates(above)];
    if events == [] {
      assert all[1..] == [];
    } else {
      assert all[1..] == events[1..] + [Calculates(above)];
      TakenLast(Step(v, events[0]), events[1..], above);
    }
  }

  lemma SamePixel(t: Target, v: Look, a: Canvas, b: Canvas, p: Point, c: Colour)
    requires v.buffer.Some? && a(BufferPoint(v, p)) == b(BufferPoint(v, p))
    ensures PixelOf(t, Redrawn(v, a), p, c) == PixelOf(t, Redrawn(v, b), p, c)
  {
    RedrawnPixel(t, v, a, p, c);
    RedrawnPixel(t, v, b, p, c);
  }

  lemma NotInDamage(v: View, p: Point)
    requires p !in DamageOf(v)
    ensures BufferPoint(v.look, p) !in v.damage
  {
  }

  /** On the screen: when it is all damaged, the release repaints every pixel it changes. */
  lemma ReleaseIsRepainted(t: Target, v: View, events: seq<Event>, contents: nat -> Canvas, p: Point, c: Colour)
    requires v.look.buffer.Some? && Honest(v.look, events, contents, 0)
    requires Committed(v.look, events) <= Run(v, events).damage && p !in DamageOf(Run(v, events))
    ensures PixelOf(t, Redrawn(v.look, contents(Commits(events))), p, c)
         == PixelOf(t, Redrawn(v.look, contents(0)), p, c)
  {
    NotInDamage(Run(v, events), p);
    HonestChanges(v.look, events, contents, 0, BufferPoint(v.look, p));
    SamePixel(t, v.look, contents(Commits(events)), contents(0), p, c);
  }

  /** So it does in any case when presenting also moves the view: that damages both places. */
  lemma MovedReleaseIsRepainted(t: Target, v: View, pixels: Canvas, x: int, y: int, screens: set<ScreenId>, p: Point,
                                c: Colour)
    requires v.look.buffer.Some? && v.visible
    requires Contained(v.look) && Contained(Moved(v, x, y, screens).look)
    requires (x, y) != (v.look.frame.geometry.x, v.look.frame.geometry.y)
    requires p !in MoveDamage(v, Moved(v, x, y, screens))
    ensures PixelOf(t, Redrawn(Moved(v, x, y, screens).look, pixels), p, c) == PixelOf(t, v.look, p, c)
  {
    var w := Redrawn(Moved(v, x, y, screens).look, pixels);
    assert Contained(w);
    PaintsOnlyExtents(t, v.look, p, c);
    PaintsOnlyExtents(t, w, p, c);
  }
}
