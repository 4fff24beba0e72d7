/** What becomes of a client's commits on a tree of surfaces, read off the requests by themselves
    (libswc/surface.c, libswc/subsurface.c). */
module Commits {
  import opened Words
  import opened Surfaces
  import opened Visibility

  // ------------------------------------------------ which requests apply what

  /** The mode of the `k`-th surface on the way, once the addressed one has left sync mode. */
  lemma LeftOnWay(t: Tree, s: State, path: Path, k: nat)
    requires Unique(t) && Ids(t) <= s.Keys && IsPath(t, path) && 0 < k <= |path|
    ensures SyncOnWay(t, LeaveSync(s, Addressed(t, s, path)), path, k) <==> k != |path| && SyncOnWay(t, s, path, k)
  {
    var id := Addressed(t, s, path);
    SyncOnWayAt(t, s, path, k);
    SyncOnWayAt(t, LeaveSync(s, id), path, k);
    assert path[..|path|] == path;
    if k != |path| && At(t, path[..k]).id == id { SameSurface(t, path[..k], path); }
  }

  function Addressed(t: Tree, s: State, path: Path): (id: Id)
    requires IsPath(t, path) && Ids(t) <= s.Keys
    ensures id in s && id == At(t, path).id
  {
    IdsDown(t, path);
    assert At(t, path).id in Ids(At(t, path));
    At(t, path).id
  }

  /** Of all modes on the way only the addressed surface's own is on. */
  ghost predicate OnlyOwnMode(t: Tree, s: State, path: Path)
    requires IsPath(t, path)
  {
    path != [] && forall k | 0 < k <= |path| :: SyncOnWay(t, s, path, k) <==> k == |path|
  }

  lemma OnlyOwnExactly(t: Tree, s: State, path: Path)
    requires Unique(t) && Ids(t) <= s.Keys && IsPath(t, path)
    ensures OnlyOwnMode(t, s, path) <==>
      AnySyncOnWay(t, s, path) && !AnySyncOnWay(t, LeaveSync(s, Addressed(t, s, path)), path)
  {
    var left := LeaveSync(s, Addressed(t, s, path));
    forall k | 0 < k <= |path| ensures SyncOnWay(t, left, path, k) <==> k != |path| && SyncOnWay(t, s, path, k) {
      LeftOnWay(t, s, path, k);
    }
    if OnlyOwnMode(t, s, path) {
      assert SyncOnWay(t, s, path, |path|);
    }
    if AnySyncOnWay(t, s, path) && !AnySyncOnWay(t, left, path) {
      var k :| 0 < k <= |path| && SyncOnWay(t, s, path, k);
      assert !SyncOnWay(t, left, path, k);
      forall j | 0 < j <= |path| ensures SyncOnWay(t, s, path, j) <==> j == |path| {
        assert !SyncOnWay(t, left, path, j);
      }
    }
  }

  /** A request applies the surface it is addressed to exactly when it is a commit and nothing on the way is in
      sync mode, or takes out of sync mode the only surface on the way that is, with a commit waiting. */
  lemma AppliesExactly(t: Tree, s: State, e: Event)
    requires Unique(t) && Ids(t) <= s.Keys
    ensures Applies(t, s, e) <==>
      (IsPath(t, e.path) && (
         || (e.request.Commit? && !AnySyncOnWay(t, s, e.path))
         || (e.request.SetDesync? && s[Addressed(t, s, e.path)].cached && OnlyOwnMode(t, s, e.path))))
  {
    if IsPath(t, e.path) {
      SynchronizedExactly(t, s, e.path);
      SynchronizedExactly(t, LeaveSync(s, Addressed(t, s, e.path)), e.path);
      OnlyOwnExactly(t, s, e.path);
    }
  }

  /** Down `q` from an applied surface everything has a commit waiting, and the first step is in sync mode. */
  ghost predicate AllWait(u: Tree, s: State, q: Path)
    requires IsPath(u, q)
    decreases q
  {
    q == [] || (
      var v := u.children[q[0]];
      v.id in s && s[v.id].cached && s[v.id].sync && WaitBelow(v, s, q[1..]))
  }

  ghost predicate WaitBelow(u: Tree, s: State, q: Path)
    requires IsPath(u, q)
    decreases q
  {
    q == [] || (var v := u.children[q[0]]; v.id in s && s[v.id].cached && WaitBelow(v, s, q[1..]))
  }

  lemma {:induction false} AppliedBelow(u: Tree, s: State, sync: bool, q: Path)
    requires Unique(u) && Ids(u) <= s.Keys && IsPath(u, q)
    ensures At(u, q).id in Applied(u, s, sync) <==> if sync then WaitBelow(u, s, q) else AllWait(u, s, q)
    decreases q
  {
    if q != [] {
      var v, x := u.children[q[0]], At(u, q).id;
      IdsAt(u.children, q[0]);
      UniqueAt(u.children, q[0]);
      IdsDown(v, q[1..]);
      assert x in Ids(At(v, q[1..]));
      InOneChild(u.children, s, sync, q[0], x);
      AppliedBelow(v, s, true, q[1..]);
    }
  }

  /** The rest of the way, below `a`. */
  function Rest(t: Tree, a: Path, way: Path): (q: Path)
    requires IsPath(t, way) && a <= way
    ensures IsPath(t, a) && IsPath(At(t, a), q) && way == a + q && At(t, way) == At(At(t, a), q)
  {
    assert way == a + way[|a|..];
    Prefix(t, a, way[|a|..]);
    way[|a|..]
  }

  lemma {:induction false} WaitBelowSame(u: Tree, s: State, r: State, q: Path)
    requires IsPath(u, q) && SameWaiting(IdsAll(u.children), s, r) && WaitBelow(u, s, q)
    ensures WaitBelow(u, r, q)
    decreases q
  {
    if q != [] {
      IdsAt(u.children, q[0]);
      assert u.children[q[0]].id in Ids(u.children[q[0]]);
      WaitBelowSame(u.children[q[0]], s, r, q[1..]);
    }
  }

  lemma AllWaitSame(u: Tree, s: State, r: State, q: Path)
    requires IsPath(u, q) && SameWaiting(IdsAll(u.children), s, r) && AllWait(u, s, q)
    ensures AllWait(u, r, q)
  {
    if q != [] {
      IdsAt(u.children, q[0]);
      assert u.children[q[0]].id in Ids(u.children[q[0]]);
      WaitBelowSame(u.children[q[0]], s, r, q[1..]);
    }
  }

  /** A request applies a surface exactly when it applies one at or above it, and from there down to it every
      surface has a commit waiting, the first of them in sync mode. */
  lemma AppliedExactly(t: Tree, s: State, e: Event, way: Path)
    requires Unique(t) && Ids(t) <= s.Keys && IsPath(t, way)
    ensures At(t, way).id in AppliedBy(t, s, e) <==>
      Applies(t, s, e) && e.path <= way && AllWait(At(t, e.path), s, Rest(t, e.path, way))
  {
    if Applies(t, s, e) {
      var u, x, before := At(t, e.path), At(t, way).id, Before(t, s, e);
      IdsDown(t, e.path);
      UniqueDown(t, e.path);
      if x in Ids(u) { InsideIsBelow(t, e.path, way); }
      if e.path <= way {
        var q := Rest(t, e.path, way);
        AppliedBelow(u, before, false, q);
        if AllWait(u, s, q) { AllWaitSame(u, s, before, q); }
        if AllWait(u, before, q) { AllWaitSame(u, before, s, q); }
      }
    }
  }

  // --------------------------------------------------------- one request

  /** A commit of a surface that some mode on the way synchronizes only waits; nothing else changes. */
  lemma SynchronizedCommitWaits(t: Tree, s: State, way: Path)
    requires Unique(t) && Ids(t) <= s.Keys && IsPath(t, way) && AnySyncOnWay(t, s, way)
    ensures var d := Addressed(t, s, way);
      Step(t, s, Event(way, Commit)) == s[d := s[d].(cached := true)]
  {
    SynchronizedExactly(t, s, way);
  }

  /** What a client has said of a surface so far: the buffer in effect, the one attached since, if any, and
      whether a commit waits for the parent. */
  datatype Reading = Reading(committed: Buffer, attached: Option<Buffer>, waits: bool)

  function ReadOf(w: Surface): Reading {
    Reading(w.buffer, if w.pendingAttach then Some(w.pendingBuffer) else None, w.cached)
  }

  /** The request as the surface at `way` sees it: it is applied, or addressed. */
  function Next(r: Reading, e: Event, way: Path, applied: bool): Reading {
    if applied then Reading(if r.attached.Some? then r.attached.value else r.committed, None, false)
    else if e.path != way then r
    else match e.request
      case Attach(buffer) => r.(attached := Some(buffer))
      case Commit => r.(waits := true)
      case SetSync => r
      case SetDesync => r
  }

  function Read(t: Tree, s: State, events: seq<Event>, way: Path, r: Reading): Reading
    requires Ids(t) <= s.Keys && IsPath(t, way)
    decreases |events|
  {
    if events == [] then r
    else
      var e := events[0];
      Read(t, Step(t, s, e), events[1..], way, Next(r, e, way, At(t, way).id in AppliedBy(t, s, e)))
  }

  lemma StepApplies(t: Tree, s: State, e: Event, x: Id)
    requires Unique(t) && Ids(t) <= s.Keys && x in s && Applies(t, s, e)
    ensures Step(t, s, e)[x] ==
      if x in AppliedBy(t, s, e) then ApplyOne(Before(t, s, e)[x]) else Before(t, s, e)[x]
  {
    IdsDown(t, e.path);
    UniqueDown(t, e.path);
    ApplyEach(At(t, e.path), Before(t, s, e), false);
  }

  lemma StepOnlyNotes(t: Tree, s: State, e: Event, way: Path)
    requires Unique(t) && Ids(t) <= s.Keys && IsPath(t, way) && !Applies(t, s, e)
    ensures var d := Addressed(t, s, way);
      Step(t, s, e)[d] == if e.path != way then s[d] else match e.request
        case Attach(buffer) => s[d].(pendingBuffer := buffer, pendingAttach := true)
        case Commit => s[d].(cached := true)
        case SetSync => s[d].(sync := true)
        case SetDesync => s[d].(sync := false)
  {
    if IsPath(t, e.path) {
      IdsDown(t, e.path);
      if At(t, e.path).id == At(t, way).id { SameSurface(t, e.path, way); }
    }
  }

  lemma AppliedReading(w: Surface, v: Surface, e: Event, way: Path)
    requires v == w.(sync := v.sync)
    ensures ReadOf(ApplyOne(v)) == Next(ReadOf(w), e, way, true) && ReadOf(v) == ReadOf(w)
  {
  }

  lemma StepReads(t: Tree, s: State, e: Event, way: Path)
    requires Unique(t) && Ids(t) <= s.Keys && IsPath(t, way)
    ensures var d := Addressed(t, s, way);
      ReadOf(Step(t, s, e)[d]) == Next(ReadOf(s[d]), e, way, d in AppliedBy(t, s, e))
  {
    var d := Addressed(t, s, way);
    if Applies(t, s, e) {
      StepApplies(t, s, e, d);
      AppliedExactly(t, s, e, way);
      AppliedReading(s[d], Before(t, s, e)[d], e, way);
    } else {
      StepOnlyNotes(t, s, e, way);
    }
  }

  /** Over every run a surface's buffer, what is attached to it and whether it waits are what the history of
      requests says: the last attach before it was last applied is in effect, a later one is still to come, and
      a commit waits until it is applied. No commit is lost, none is applied twice. */
  lemma {:induction false} RunReads(t: Tree, s: State, events: seq<Event>, way: Path)
    requires Unique(t) && Ids(t) <= s.Keys && IsPath(t, way)
    ensures var d := Addressed(t, s, way);
      ReadOf(Run(t, s, events)[d]) == Read(t, s, events, way, ReadOf(s[d]))
    decreases |events|
  {
    if events != [] {
      StepReads(t, s, events[0], way);
      RunReads(t, Step(t, s, events[0]), events[1..], way);
    }
  }

  /** The mode of a surface is the one its client asked for last. */
  function LastMode(events: seq<Event>, way: Path, was: bool): bool
    decreases |events|
  {
    if events == [] then was
    else
      var e := events[0];
      LastMode(events[1..], way, if e.path != way then was else if e.request.SetSync? then true
        else if e.request.SetDesync? then false else was)
  }

  lemma StepMode(t: Tree, s: State, e: Event, way: Path)
    requires Unique(t) && Ids(t) <= s.Keys && IsPath(t, way)
    ensures var d := Addressed(t, s, way);
      Step(t, s, e)[d].sync == if e.path != way then s[d].sync else if e.request.SetSync? then true
        else if e.request.SetDesync? then false else s[d].sync
  {
    var d := Addressed(t, s, way);
    if Applies(t, s, e) {
      StepApplies(t, s, e, d);
      if At(t, e.path).id == d { SameSurface(t, e.path, way); }
    } else {
      StepOnlyNotes(t, s, e, way);
    }
  }

  lemma {:induction false} RunModes(t: Tree, s: State, events: seq<Event>, way: Path)
    requires Unique(t) && Ids(t) <= s.Keys && IsPath(t, way)
    ensures var d := Addressed(t, s, way); Run(t, s, events)[d].sync == LastMode(events, way, s[d].sync)
    decreases |events|
  {
    if events != [] {
      StepMode(t, s, events[0], way);
      RunModes(t, Step(t, s, events[0]), events[1..], way);
    }
  }

  /** What is seen of a request: a view is given the new buffer and updated when its surface is applied and not
      held, and by nothing else. */
  lemma ShownExactly(t: Tree, s: State, e: Event, way: Path)
    requires Unique(t) && Ids(t) <= s.Keys && IsPath(t, way)
    ensures var d := Addressed(t, s, way);
      var w, r, seen := s[d], Step(t, s, e)[d], d in AppliedBy(t, s, e) && s[d].hasView && !s[d].hold.held;
      && r.shown == (if seen && w.pendingAttach then w.pendingBuffer else w.shown)
      && r.updates == (if seen then w.updates + 1 else w.updates)
      && r.hold.held == w.hold.held
  {
    var d := Addressed(t, s, way);
    if Applies(t, s, e) {
      StepApplies(t, s, e, d);
      AppliedView(s[d], Before(t, s, e)[d]);
    } else {
      StepOnlyNotes(t, s, e, way);
    }
  }

  lemma AppliedView(w: Surface, v: Surface)
    requires v == w.(sync := v.sync)
    ensures var seen := w.hasView && !w.hold.held;
      && ApplyOne(v).shown == (if seen && w.pendingAttach then w.pendingBuffer else w.shown)
      && ApplyOne(v).updates == (if seen then w.updates + 1 else w.updates)
      && ApplyOne(v).hold.held == w.hold.held
  {
  }

  // ------------------------------------------------ a commit comes through

  /** Nothing is addressed to the surface, and nothing applies it. */
  ghost predicate Untaken(t: Tree, s: State, events: seq<Event>, way: Path)
    requires Ids(t) <= s.Keys && IsPath(t, way)
    decreases |events|
  {
    events == [] || (events[0].path != way && At(t, way).id !in AppliedBy(t, s, events[0])
                     && Untaken(t, Step(t, s, events[0]), events[1..], way))
  }

  lemma {:induction false} UntakenReads(t: Tree, s: State, events: seq<Event>, way: Path, r: Reading)
    requires Ids(t) <= s.Keys && IsPath(t, way) && Untaken(t, s, events, way)
    ensures Read(t, s, events, way, r) == r
    decreases |events|
  {
    if events != [] { UntakenReads(t, Step(t, s, events[0]), events[1..], way, r); }
  }

  /** A buffer attached and committed while the surface is synchronized waits through any requests elsewhere,
      and the request that applies it puts it in effect and, unless the view is held, on the view. */
  lemma SynchronizedCommitComesThrough(t: Tree, s: State, way: Path, buffer: Buffer, events: seq<Event>, last: Event)
    requires Unique(t) && Ids(t) <= s.Keys && IsPath(t, way) && AnySyncOnWay(t, s, way)
    requires var s1 := Step(t, Step(t, s, Event(way, Attach(buffer))), Event(way, Commit));
      Untaken(t, s1, events, way) && At(t, way).id in AppliedBy(t, Run(t, s1, events), last)
    ensures var d := Addressed(t, s, way);
      var s1 := Step(t, Step(t, s, Event(way, Attach(buffer))), Event(way, Commit));
      var r := Run(t, s1, events);
      && s1[d].cached && r[d].cached && s1[d].buffer == r[d].buffer == s[d].buffer
      && Step(t, r, last)[d].buffer == buffer && !Step(t, r, last)[d].cached
      && (r[d].hasView && !r[d].hold.held ==> Step(t, r, last)[d].shown == buffer)
  {
    var d, a, c := Addressed(t, s, way), Event(way, Attach(buffer)), Event(way, Commit);
    var s0 := Step(t, s, a);
    var s1 := Step(t, s0, c);
    assert forall k | 0 < k <= |way| :: SyncOnWay(t, s0, way, k) == SyncOnWay(t, s, way, k) by {
      forall k | 0 < k <= |way| ensures SyncOnWay(t, s0, way, k) == SyncOnWay(t, s, way, k) {
        SyncOnWayAt(t, s, way, k);
        SyncOnWayAt(t, s0, way, k);
      }
    }
    SynchronizedCommitWaits(t, s0, way);
    RunReads(t, s1, events, way);
    UntakenReads(t, s1, events, way, ReadOf(s1[d]));
    var r := Run(t, s1, events);
    StepReads(t, r, last, way);
    ShownExactly(t, r, last, way);
  }
}
