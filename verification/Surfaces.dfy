/** Commits, cached commits and the render hold over a fixed tree of surfaces: libswc/surface.c. */
module Surfaces {

  type Id = nat

  /** A surface and its subsurfaces, in list order. Ancestry.dfy proves that the parent links of
      the source always form such trees. */
  datatype Tree = Node(id: Id, children: seq<Tree>)

  function Ids(t: Tree): set<Id> {
    {t.id} + IdsAll(t.children)
  }

  function IdsAll(ts: seq<Tree>): set<Id> {
    if ts == [] then {} else Ids(ts[0]) + IdsAll(ts[1..])
  }

  predicate Unique(t: Tree) {
    t.id !in IdsAll(t.children) && UniqueAll(t.children)
  }

  predicate UniqueAll(ts: seq<Tree>) {
    ts == [] || (Unique(ts[0]) && Ids(ts[0]) !! IdsAll(ts[1..]) && UniqueAll(ts[1..]))
  }

  /** A client buffer; 0 is "none". */
  type Buffer = nat

  datatype Hold = Hold(held: bool, attach: bool, update: bool)

  const UNHELD := Hold(false, false, false)

  /** `shown` is the view's buffer, `updates` counts view_update calls, `cached` is the subsurface's
      "a commit is waiting for the parent". */
  datatype Surface = Surface(
    buffer: Buffer,
    pendingBuffer: Buffer,
    pendingAttach: bool,
    cached: bool,
    sync: bool,
    hasView: bool,
    hold: Hold,
    shown: Buffer,
    updates: nat)

  type State = map<Id, Surface>

  // ------------------------------------------------------------- commit

  /** surface_apply_pending on one surface. */
  function ApplyOne(w: Surface): Surface {
    var w' := w.(buffer := if w.pendingAttach then w.pendingBuffer else w.buffer,
                 pendingAttach := false, cached := false);
    if !w.hasView then w'
    else if w.hold.held then w'.(hold := Hold(true, w.hold.attach || w.pendingAttach, true))
    else w'.(shown := if w.pendingAttach then w'.buffer else w.shown, updates := w.updates + 1)
  }

  /** `sync` is whether the surface is itself synchronized, by its own mode or an ancestor's. */
  function Apply(t: Tree, s: State, sync: bool): (r: State)
    requires Ids(t) <= s.Keys
    ensures r.Keys == s.Keys
    decreases t, 1
  {
    ApplyChildren(t.children, s[t.id := ApplyOne(s[t.id])], sync)
  }

  /** Applies, front to back, the children that have a commit waiting and are still synchronized. */
  function ApplyChildren(ts: seq<Tree>, s: State, sync: bool): (r: State)
    requires IdsAll(ts) <= s.Keys
    ensures r.Keys == s.Keys
    decreases ts, 0
  {
    if ts == [] then s
    else
      assert ts[0].id in Ids(ts[0]);
      var w := s[ts[0].id];
      ApplyChildren(ts[1..], if w.cached && (sync || w.sync) then Apply(ts[0], s, true) else s, sync)
  }

  /** Where a request is addressed: the child indices that lead down from the root. */
  type Path = seq<nat>

  predicate IsPath(t: Tree, path: Path) {
    path == [] || (path[0] < |t.children| && IsPath(t.children[path[0]], path[1..]))
  }

  function At(t: Tree, path: Path): Tree
    requires IsPath(t, path)
  {
    if path == [] then t else At(t.children[path[0]], path[1..])
  }

  lemma {:induction false} IdsAt(ts: seq<Tree>, i: nat)
    requires i < |ts|
    ensures Ids(ts[i]) <= IdsAll(ts)
  {
    if i > 0 { IdsAt(ts[1..], i - 1); }
  }

  lemma {:induction false} IdsDown(t: Tree, path: Path)
    requires IsPath(t, path)
    ensures Ids(At(t, path)) <= Ids(t)
    decreases path
  {
    if path != [] {
      IdsAt(t.children, path[0]);
      IdsDown(t.children[path[0]], path[1..]);
    }
  }

  /** Some subsurface on the way from the root, which has no role itself, to `path` is in sync mode. */
  predicate Synchronized(t: Tree, s: State, path: Path)
    requires IsPath(t, path) && Ids(t) <= s.Keys
    decreases path
  {
    path != [] &&
    (IdsAt(t.children, path[0]); s[t.children[path[0]].id].sync || Synchronized(t.children[path[0]], s, path[1..]))
  }

  /** The `k`-th subsurface on the way down `path` is in sync mode; the root is number 0. */
  predicate SyncOnWay(t: Tree, s: State, path: Path, k: nat)
    requires IsPath(t, path)
    decreases path
  {
    if k == 0 || path == [] then k == 0 && t.id in s && s[t.id].sync
    else SyncOnWay(t.children[path[0]], s, path[1..], k - 1)
  }

  ghost predicate AnySyncOnWay(t: Tree, s: State, path: Path)
    requires IsPath(t, path)
  {
    exists k :: 0 < k <= |path| && SyncOnWay(t, s, path, k)
  }

  /** A commit is cached exactly when some subsurface on the way, the addressed one included, is in
      sync mode, however far up. */
  lemma {:induction false} SynchronizedExactly(t: Tree, s: State, path: Path)
    requires IsPath(t, path) && Ids(t) <= s.Keys
    ensures Synchronized(t, s, path) <==> AnySyncOnWay(t, s, path)
    decreases path
  {
    if path != [] {
      var u, rest := t.children[path[0]], path[1..];
      IdsAt(t.children, path[0]);
      SynchronizedExactly(u, s, rest);
      if s[u.id].sync {
        assert SyncOnWay(u, s, rest, 0) && SyncOnWay(t, s, path, 1);
      }
      if AnySyncOnWay(u, s, rest) {
        var k :| 0 < k <= |rest| && SyncOnWay(u, s, rest, k);
        assert SyncOnWay(t, s, path, k + 1);
      }
      if AnySyncOnWay(t, s, path) {
        var k :| 0 < k <= |path| && SyncOnWay(t, s, path, k);
        assert SyncOnWay(u, s, rest, k - 1);
        assert k > 1 ==> AnySyncOnWay(u, s, rest);
      }
    }
  }

  datatype Request = Attach(buffer: Buffer) | Commit | SetSync | SetDesync

  datatype Event = Event(path: Path, request: Request)

  function LeaveSync(s: State, id: Id): State
    requires id in s
  {
    s[id := s[id].(sync := false)]
  }

  /** What one request does to the surface `u`. `sync` is whether it is synchronized now, and
      `without` whether its ancestors would still synchronize it with its own mode off. */
  function Handle(u: Tree, s: State, request: Request, sync: bool, without: bool): (r: State)
    requires Ids(u) <= s.Keys
    ensures r.Keys == s.Keys
  {
    var w := s[u.id];
    match request
    case Attach(buffer) => s[u.id := w.(pendingBuffer := buffer, pendingAttach := true)]
    case Commit => if sync then s[u.id := w.(cached := true)] else Apply(u, s, false)
    case SetSync => s[u.id := w.(sync := true)]
    case SetDesync =>
      if sync && !without && w.cached then Apply(u, LeaveSync(s, u.id), false) else LeaveSync(s, u.id)
  }

  function Step(t: Tree, s: State, e: Event): (r: State)
    requires Ids(t) <= s.Keys
    ensures r.Keys == s.Keys
  {
    if !IsPath(t, e.path) then s
    else
      IdsDown(t, e.path);
      var u := At(t, e.path);
      Handle(u, s, e.request, Synchronized(t, s, e.path), Synchronized(t, LeaveSync(s, u.id), e.path))
  }

  function Run(t: Tree, s: State, events: seq<Event>): (r: State)
    requires Ids(t) <= s.Keys
    ensures r.Keys == s.Keys
    decreases |events|
  {
    if events == [] then s else Run(t, Step(t, s, events[0]), events[1..])
  }

  // --------------------------------------------------------------- hold

  function HoldOne(w: Surface): Surface {
    w.(hold := w.hold.(held := true))
  }

  function HoldTree(t: Tree, s: State): (r: State)
    requires Ids(t) <= s.Keys
    ensures r.Keys == s.Keys
    decreases t, 1
  {
    if s[t.id].hold.held then s else HoldAll(t.children, s[t.id := HoldOne(s[t.id])])
  }

  function HoldAll(ts: seq<Tree>, s: State): (r: State)
    requires IdsAll(ts) <= s.Keys
    ensures r.Keys == s.Keys
    decreases ts, 0
  {
    if ts == [] then s else HoldAll(ts[1..], HoldTree(ts[0], s))
  }

  function ReleaseOne(w: Surface): Surface {
    var w' := w.(hold := UNHELD);
    if !w.hasView then w'
    else w'.(shown := if w.hold.attach then w.buffer else w.shown,
             updates := if w.hold.update then w.updates + 1 else w.updates)
  }

  /** Children first, so that the whole window changes together. */
  function ReleaseTree(t: Tree, s: State): (r: State)
    requires Ids(t) <= s.Keys
    ensures r.Keys == s.Keys
    decreases t, 1
  {
    if !s[t.id].hold.held then s
    else
      var s := ReleaseAll(t.children, s);
      s[t.id := ReleaseOne(s[t.id])]
  }

  function ReleaseAll(ts: seq<Tree>, s: State): (r: State)
    requires IdsAll(ts) <= s.Keys
    ensures r.Keys == s.Keys
    decreases ts, 0
  {
    if ts == [] then s else ReleaseAll(ts[1..], ReleaseTree(ts[0], s))
  }

  /** Holding a tree no part of which is held holds exactly its surfaces. */
  lemma {:induction false} HoldSpec(t: Tree, s: State)
    requires Unique(t) && Ids(t) <= s.Keys && forall x | x in Ids(t) :: !s[x].hold.held
    ensures HoldTree(t, s) == map x | x in s :: if x in Ids(t) then HoldOne(s[x]) else s[x]
    decreases t, 1
  {
    HoldAllSpec(t.children, s[t.id := HoldOne(s[t.id])]);
  }

  lemma {:induction false} HoldAllSpec(ts: seq<Tree>, s: State)
    requires UniqueAll(ts) && IdsAll(ts) <= s.Keys && forall x | x in IdsAll(ts) :: !s[x].hold.held
    ensures HoldAll(ts, s) == map x | x in s :: if x in IdsAll(ts) then HoldOne(s[x]) else s[x]
    decreases ts, 0
  {
    if ts != [] {
      HoldSpec(ts[0], s);
      HoldAllSpec(ts[1..], HoldTree(ts[0], s));
    }
  }

  /** Releasing a tree that is held throughout replays exactly its surfaces. */
  lemma {:induction false} ReleaseSpec(t: Tree, s: State)
    requires Unique(t) && Ids(t) <= s.Keys && forall x | x in Ids(t) :: s[x].hold.held
    ensures ReleaseTree(t, s) == map x | x in s :: if x in Ids(t) then ReleaseOne(s[x]) else s[x]
    decreases t, 1
  {
    ReleaseAllSpec(t.children, s);
  }

  lemma {:induction false} ReleaseAllSpec(ts: seq<Tree>, s: State)
    requires UniqueAll(ts) && IdsAll(ts) <= s.Keys && forall x | x in IdsAll(ts) :: s[x].hold.held
    ensures ReleaseAll(ts, s) == map x | x in s :: if x in IdsAll(ts) then ReleaseOne(s[x]) else s[x]
    decreases ts, 0
  {
    if ts != [] {
      ReleaseSpec(ts[0], s);
      ReleaseAllSpec(ts[1..], ReleaseTree(ts[0], s));
    }
  }

  /** A second hold is none, and neither is a release of what is not held: both stop there, whatever is below. */
  lemma StopsExactly(t: Tree, s: State)
    requires Ids(t) <= s.Keys
    ensures t.id in s
    ensures s[t.id].hold.held ==> HoldTree(t, s) == s
    ensures !s[t.id].hold.held ==> ReleaseTree(t, s) == s
  {
    assert t.id in Ids(t);
  }

  // ------------------------------------------ held and unheld, side by side

  /** `a` has been held, from a moment when both had made `base` updates, where `b` has not.
      Whatever `a` holds back is what `b` already shows. */
  predicate Mirrors(a: Surface, b: Surface, base: nat) {
    && b == a.(hold := UNHELD, shown := b.shown, updates := b.updates)
    && b.shown == (if a.hold.attach then a.buffer else a.shown)
    && a.updates >= base && b.updates >= base
    && (b.updates > base <==> a.updates > base || a.hold.update)
    && (a.hold.held ==> a.updates == base)
    && (!a.hasView ==> !a.hold.attach && !a.hold.update)
    && (!a.hold.held ==> a.hold == UNHELD)
  }

  ghost predicate Rel(h: State, f: State, base: map<Id, nat>) {
    h.Keys == f.Keys == base.Keys && forall x | x in h :: Mirrors(h[x], f[x], base[x])
  }

  lemma MirrorsApplyOne(a: Surface, b: Surface, base: nat)
    requires Mirrors(a, b, base)
    ensures Mirrors(ApplyOne(a), ApplyOne(b), base)
  {}

  lemma {:induction false} ApplyMirrors(t: Tree, h: State, f: State, sync: bool, base: map<Id, nat>)
    requires Ids(t) <= h.Keys && Rel(h, f, base)
    ensures Rel(Apply(t, h, sync), Apply(t, f, sync), base)
    decreases t, 1
  {
    MirrorsApplyOne(h[t.id], f[t.id], base[t.id]);
    ApplyChildrenMirrors(t.children, h[t.id := ApplyOne(h[t.id])], f[t.id := ApplyOne(f[t.id])], sync, base);
  }

  lemma {:induction false} ApplyChildrenMirrors(ts: seq<Tree>, h: State, f: State, sync: bool, base: map<Id, nat>)
    requires IdsAll(ts) <= h.Keys && Rel(h, f, base)
    ensures Rel(ApplyChildren(ts, h, sync), ApplyChildren(ts, f, sync), base)
    decreases ts, 0
  {
    if ts != [] {
      assert Mirrors(h[ts[0].id], f[ts[0].id], base[ts[0].id]);
      ApplyMirrors(ts[0], h, f, true, base);
      if h[ts[0].id].cached && (sync || h[ts[0].id].sync) {
        ApplyChildrenMirrors(ts[1..], Apply(ts[0], h, true), Apply(ts[0], f, true), sync, base);
      } else {
        ApplyChildrenMirrors(ts[1..], h, f, sync, base);
      }
    }
  }

  lemma {:induction false} SameSync(t: Tree, h: State, f: State, path: Path)
    requires IsPath(t, path) && Ids(t) <= h.Keys == f.Keys && forall x | x in h :: h[x].sync == f[x].sync
    ensures Synchronized(t, h, path) == Synchronized(t, f, path)
    decreases path
  {
    if path != [] {
      IdsAt(t.children, path[0]);
      SameSync(t.children[path[0]], h, f, path[1..]);
    }
  }

  lemma RelUpdate(h: State, f: State, base: map<Id, nat>, id: Id, a: Surface, b: Surface)
    requires Rel(h, f, base) && id in h && Mirrors(a, b, base[id])
    ensures Rel(h[id := a], f[id := b], base)
  {}

  lemma MirrorsRequests(a: Surface, b: Surface, base: nat, buffer: Buffer, sync: bool)
    requires Mirrors(a, b, base)
    ensures Mirrors(a.(pendingBuffer := buffer, pendingAttach := true),
                    b.(pendingBuffer := buffer, pendingAttach := true), base)
    ensures Mirrors(a.(cached := true), b.(cached := true), base)
    ensures Mirrors(a.(sync := sync), b.(sync := sync), base)
  {}

  lemma HandleMirrors(u: Tree, h: State, f: State, request: Request, sync: bool, without: bool, base: map<Id, nat>)
    requires Ids(u) <= h.Keys && Rel(h, f, base)
    ensures Rel(Handle(u, h, request, sync, without), Handle(u, f, request, sync, without), base)
  {
    var id, a, b := u.id, h[u.id], f[u.id];
    assert Mirrors(a, b, base[id]);
    match request
    case Attach(buffer) =>
      MirrorsRequests(a, b, base[id], buffer, true);
      RelUpdate(h, f, base, id, a.(pendingBuffer := buffer, pendingAttach := true),
                b.(pendingBuffer := buffer, pendingAttach := true));
    case Commit =>
      MirrorsRequests(a, b, base[id], 0, true);
      RelUpdate(h, f, base, id, a.(cached := true), b.(cached := true));
      ApplyMirrors(u, h, f, false, base);
    case SetSync =>
      MirrorsRequests(a, b, base[id], 0, true);
      RelUpdate(h, f, base, id, a.(sync := true), b.(sync := true));
    case SetDesync =>
      MirrorsRequests(a, b, base[id], 0, false);
      RelUpdate(h, f, base, id, a.(sync := false), b.(sync := false));
      assert a.cached == b.cached;
      ApplyMirrors(u, LeaveSync(h, id), LeaveSync(f, id), false, base);
  }

  lemma StepMirrors(t: Tree, h: State, f: State, e: Event, base: map<Id, nat>)
    requires Ids(t) <= h.Keys && Rel(h, f, base)
    ensures Rel(Step(t, h, e), Step(t, f, e), base)
  {
    if IsPath(t, e.path) {
      var u := At(t, e.path);
      IdsDown(t, e.path);
      assert forall x | x in h :: Mirrors(h[x], f[x], base[x]);
      SameSync(t, h, f, e.path);
      SameSync(t, LeaveSync(h, u.id), LeaveSync(f, u.id), e.path);
      HandleMirrors(u, h, f, e.request, Synchronized(t, h, e.path), Synchronized(t, LeaveSync(h, u.id), e.path), base);
    }
  }

  lemma {:induction false} RunMirrors(t: Tree, h: State, f: State, events: seq<Event>, base: map<Id, nat>)
    requires Ids(t) <= h.Keys && Rel(h, f, base)
    ensures Rel(Run(t, h, events), Run(t, f, events), base)
    decreases |events|
  {
    if events != [] {
      StepMirrors(t, h, f, events[0], base);
      RunMirrors(t, Step(t, h, events[0]), Step(t, f, events[0]), events[1..], base);
    }
  }

  /** What commits do to a held surface's view: no new buffer, and no update. */
  predicate Frozen(a: Surface, b: Surface) {
    && b.hold.held == a.hold.held
    && (a.hold.held ==> b.shown == a.shown && b.updates == a.updates)
  }

  ghost predicate FrozenAll(s: State, r: State) {
    s.Keys == r.Keys && forall x | x in s :: Frozen(s[x], r[x])
  }

  lemma {:induction false} ApplyFreezes(t: Tree, s: State, sync: bool)
    requires Ids(t) <= s.Keys
    ensures FrozenAll(s, Apply(t, s, sync))
    decreases t, 1
  {
    ApplyChildrenFreezes(t.children, s[t.id := ApplyOne(s[t.id])], sync);
  }

  lemma {:induction false} ApplyChildrenFreezes(ts: seq<Tree>, s: State, sync: bool)
    requires IdsAll(ts) <= s.Keys
    ensures FrozenAll(s, ApplyChildren(ts, s, sync))
    decreases ts, 0
  {
    if ts != [] {
      ApplyFreezes(ts[0], s, true);
      var w := s[ts[0].id];
      ApplyChildrenFreezes(ts[1..], if w.cached && (sync || w.sync) then Apply(ts[0], s, true) else s, sync);
    }
  }

  lemma HandleFreezes(u: Tree, s: State, request: Request, sync: bool, without: bool)
    requires Ids(u) <= s.Keys
    ensures FrozenAll(s, Handle(u, s, request, sync, without))
  {
    ApplyFreezes(u, s, false);
    ApplyFreezes(u, LeaveSync(s, u.id), false);
  }

  lemma StepFreezes(t: Tree, s: State, e: Event)
    requires Ids(t) <= s.Keys
    ensures FrozenAll(s, Step(t, s, e))
  {
    if IsPath(t, e.path) {
      var u := At(t, e.path);
      IdsDown(t, e.path);
      HandleFreezes(u, s, e.request, Synchronized(t, s, e.path), Synchronized(t, LeaveSync(s, u.id), e.path));
    }
  }

  /** While a surface is held its view is neither given another buffer nor updated, whatever is attached,
      committed or desynchronized anywhere in the tree. Whether it is visible is another matter:
      Visibility.dfy. */
  lemma {:induction false} RunFreezes(t: Tree, s: State, events: seq<Event>)
    requires Ids(t) <= s.Keys
    ensures FrozenAll(s, Run(t, s, events))
    decreases |events|
  {
    if events != [] {
      StepFreezes(t, s, events[0]);
      RunFreezes(t, Step(t, s, events[0]), events[1..]);
    }
  }

  /** Hold a window's tree, let anything happen, release it: every view ends up with exactly the buffer it
      would have with no hold, and view_update has been called for it if and only if it would have been.
      Nothing else differs, and nothing is left held. */
  lemma HoldRefines(t: Tree, s: State, events: seq<Event>)
    requires Unique(t) && Ids(t) == s.Keys && forall x | x in s :: s[x].hold == UNHELD
    ensures var held, free := ReleaseTree(t, Run(t, HoldTree(t, s), events)), Run(t, s, events);
      forall x | x in s ::
        && held[x] == free[x].(updates := held[x].updates)
        && (held[x].updates > s[x].updates <==> free[x].updates > s[x].updates)
  {
    var base := map x | x in s :: s[x].updates;
    var h := HoldTree(t, s);
    HoldSpec(t, s);
    assert Rel(h, s, base);
    RunMirrors(t, h, s, events, base);
    RunFreezes(t, h, events);
    var h', f' := Run(t, h, events), Run(t, s, events);
    assert forall x | x in s :: Frozen(h[x], h'[x]) && Mirrors(h'[x], f'[x], base[x]);
    ReleaseSpec(t, h');
  }

  // ------------------------------------------- commits that nobody applies

  lemma {:induction false} UniqueAt(ts: seq<Tree>, i: nat)
    requires UniqueAll(ts) && i < |ts|
    ensures Unique(ts[i])
    ensures forall j | 0 <= j < |ts| && j != i :: Ids(ts[i]) !! Ids(ts[j])
  {
    if i == 0 {
      forall j | 0 < j < |ts| ensures Ids(ts[0]) !! Ids(ts[j]) { IdsAt(ts[1..], j - 1); }
    } else {
      UniqueAt(ts[1..], i - 1);
      IdsAt(ts[1..], i - 1);
      forall j | 0 <= j < |ts| && j != i ensures Ids(ts[i]) !! Ids(ts[j]) {
        if j > 0 { assert ts[j] == ts[1..][j - 1]; }
      }
    }
  }

  lemma {:induction false} UniqueDown(t: Tree, path: Path)
    requires Unique(t) && IsPath(t, path)
    ensures Unique(At(t, path))
    decreases path
  {
    if path != [] {
      UniqueAt(t.children, path[0]);
      UniqueDown(t.children[path[0]], path[1..]);
    }
  }

  /** Only the surfaces from the root of a subtree down are in it. */
  lemma {:induction false} InsideIsBelow(t: Tree, a: Path, way: Path)
    requires Unique(t) && IsPath(t, a) && IsPath(t, way) && At(t, way).id in Ids(At(t, a))
    ensures a <= way
    decreases a
  {
    if a != [] {
      var u := t.children[a[0]];
      IdsAt(t.children, a[0]);
      IdsDown(u, a[1..]);
      UniqueAt(t.children, a[0]);
      var x := At(t, way).id;
      assert x in Ids(u) && x in IdsAll(t.children);
      if way != [] {
        IdsDown(t.children[way[0]], way[1..]);
        assert x in Ids(t.children[way[0]]);
        assert way[0] == a[0];
        InsideIsBelow(u, a[1..], way[1..]);
        assert a == [a[0]] + a[1..] && way == [way[0]] + way[1..];
      }
    }
  }

  lemma {:induction false} Further(t: Tree, a: Path, b: Path)
    requires IsPath(t, a) && IsPath(At(t, a), b)
    ensures IsPath(t, a + b) && At(t, a + b) == At(At(t, a), b)
    decreases a
  {
    if a == [] {
      assert a + b == b;
    } else {
      assert (a + b)[1..] == a[1..] + b;
      Further(t.children[a[0]], a[1..], b);
    }
  }

  lemma {:induction false} Prefix(t: Tree, a: Path, b: Path)
    requires IsPath(t, a + b)
    ensures IsPath(t, a) && IsPath(At(t, a), b) && At(t, a + b) == At(At(t, a), b)
    decreases a
  {
    if a == [] {
      assert a + b == b;
    } else {
      assert (a + b)[1..] == a[1..] + b;
      Prefix(t.children[a[0]], a[1..], b);
    }
  }

  /** The `k`-th subsurface on the way, by its own mode. */
  lemma {:induction false} SyncOnWayAt(t: Tree, s: State, path: Path, k: nat)
    requires IsPath(t, path) && k <= |path| && Ids(t) <= s.Keys
    ensures IsPath(t, path[..k]) && At(t, path[..k]).id in s
    ensures SyncOnWay(t, s, path, k) <==> s[At(t, path[..k]).id].sync
    decreases path
  {
    if k > 0 {
      IdsAt(t.children, path[0]);
      SyncOnWayAt(t.children[path[0]], s, path[1..], k - 1);
      assert path[..k][1..] == path[1..][..k - 1];
    }
  }

  /** Nothing on the way to `path` synchronizes it: every subsurface on it is in desync mode. */
  ghost predicate Unsynced(t: Tree, s: State, path: Path)
    requires IsPath(t, path)
  {
    forall k | 0 < k <= |path| :: !SyncOnWay(t, s, path, k)
  }

  /** Applying a surface touches nothing outside its own subtree, takes nobody's mode away and makes
      nothing wait. */
  ghost predicate Within(ids: set<Id>, s: State, r: State) {
    && r.Keys == s.Keys
    && (forall x | x in s && x !in ids :: r[x] == s[x])
    && (forall x | x in s :: r[x].sync == s[x].sync && (r[x].cached ==> s[x].cached))
  }

  lemma {:induction false} ApplyWithin(t: Tree, s: State, sync: bool)
    requires Ids(t) <= s.Keys
    ensures Within(Ids(t), s, Apply(t, s, sync))
    decreases t, 1
  {
    ApplyChildrenWithin(t.children, s[t.id := ApplyOne(s[t.id])], sync);
  }

  lemma {:induction false} ApplyChildrenWithin(ts: seq<Tree>, s: State, sync: bool)
    requires IdsAll(ts) <= s.Keys
    ensures Within(IdsAll(ts), s, ApplyChildren(ts, s, sync))
    decreases ts, 0
  {
    if ts != [] {
      assert ts[0].id in Ids(ts[0]);
      var w := s[ts[0].id];
      var mid := if w.cached && (sync || w.sync) then Apply(ts[0], s, true) else s;
      ApplyWithin(ts[0], s, true);
      ApplyChildrenWithin(ts[1..], mid, sync);
    }
  }

  /** The surfaces that applying `t` applies: itself, and down from there whatever has a commit waiting. */
  function Applied(t: Tree, s: State, sync: bool): (r: set<Id>)
    requires Ids(t) <= s.Keys
    ensures r <= Ids(t)
    decreases t, 1
  {
    {t.id} + AppliedAll(t.children, s, sync)
  }

  function AppliedAll(ts: seq<Tree>, s: State, sync: bool): (r: set<Id>)
    requires IdsAll(ts) <= s.Keys
    ensures r <= IdsAll(ts)
    decreases ts, 0
  {
    if ts == [] then {}
    else
      assert ts[0].id in Ids(ts[0]);
      (if s[ts[0].id].cached && (sync || s[ts[0].id].sync) then Applied(ts[0], s, true) else {})
      + AppliedAll(ts[1..], s, sync)
  }

  ghost predicate SameWaiting(ids: set<Id>, s: State, r: State) {
    ids <= s.Keys && ids <= r.Keys && forall x | x in ids :: s[x].cached == r[x].cached && s[x].sync == r[x].sync
  }

  lemma {:induction false} AppliedAllSame(ts: seq<Tree>, s: State, r: State, sync: bool)
    requires SameWaiting(IdsAll(ts), s, r)
    ensures AppliedAll(ts, s, sync) == AppliedAll(ts, r, sync)
    decreases ts
  {
    if ts != [] {
      assert ts[0].id in Ids(ts[0]);
      AppliedAllSame(ts[0].children, s, r, true);
      AppliedAllSame(ts[1..], s, r, sync);
    }
  }

  /** Which surfaces are applied is settled before any is, and each is applied once. */
  lemma {:induction false} ApplyEach(t: Tree, s: State, sync: bool)
    requires Unique(t) && Ids(t) <= s.Keys
    ensures forall x | x in s ::
      Apply(t, s, sync)[x] == if x in Applied(t, s, sync) then ApplyOne(s[x]) else s[x]
    decreases t, 1
  {
    var mid := s[t.id := ApplyOne(s[t.id])];
    AppliedAllSame(t.children, s, mid, sync);
    ApplyChildrenEach(t.children, mid, sync);
  }

  lemma {:induction false} ApplyChildrenEach(ts: seq<Tree>, s: State, sync: bool)
    requires UniqueAll(ts) && IdsAll(ts) <= s.Keys
    ensures forall x | x in s ::
      ApplyChildren(ts, s, sync)[x] == if x in AppliedAll(ts, s, sync) then ApplyOne(s[x]) else s[x]
    decreases ts, 0
  {
    if ts != [] {
      assert ts[0].id in Ids(ts[0]);
      var w := s[ts[0].id];
      var mid := if w.cached && (sync || w.sync) then Apply(ts[0], s, true) else s;
      ApplyEach(ts[0], s, true);
      AppliedAllSame(ts[1..], s, mid, sync);
      ApplyChildrenEach(ts[1..], mid, sync);
    }
  }

  /** The commit of a surface that is not synchronized passes by a child in desync mode and all that is
      below it. */
  lemma {:induction false} PassesBy(ts: seq<Tree>, s: State, i: nat, x: Id)
    requires UniqueAll(ts) && IdsAll(ts) <= s.Keys && i < |ts| && x in Ids(ts[i])
    requires ts[i].id in s && !s[ts[i].id].sync && x in s
    ensures ApplyChildren(ts, s, false)[x] == s[x]
    decreases |ts|
  {
    assert ts[0].id in Ids(ts[0]) && ts[i].id in Ids(ts[i]);
    IdsAt(ts, i);
    if i == 0 {
      ApplyChildrenWithin(ts[1..], s, false);
    } else {
      UniqueAt(ts, i);
      var w := s[ts[0].id];
      var mid := if w.cached && w.sync then Apply(ts[0], s, true) else s;
      ApplyWithin(ts[0], s, true);
      assert mid[x] == s[x] && mid[ts[i].id] == s[ts[i].id];
      PassesBy(ts[1..], mid, i - 1, x);
    }
  }

  /** A surface in desync mode all the way up is not touched when anything above it is applied. */
  lemma UnsyncedUntouched(u: Tree, s: State, way: Path)
    requires Unique(u) && Ids(u) <= s.Keys && IsPath(u, way) && way != [] && Unsynced(u, s, way)
    ensures At(u, way).id in s && Apply(u, s, false)[At(u, way).id] == s[At(u, way).id]
  {
    var child, x := u.children[way[0]], At(u, way).id;
    var mid := s[u.id := ApplyOne(s[u.id])];
    IdsAt(u.children, way[0]);
    IdsDown(child, way[1..]);
    SyncOnWayAt(u, s, way, 1);
    assert way[..1] == [way[0]] && At(u, [way[0]]) == child;
    assert child.id in Ids(child);
    PassesBy(u.children, mid, way[0], x);
  }

  lemma SameSurface(t: Tree, a: Path, b: Path)
    requires Unique(t) && IsPath(t, a) && IsPath(t, b) && At(t, a).id == At(t, b).id
    ensures a == b
  {
    assert At(t, a).id in Ids(At(t, b)) && At(t, b).id in Ids(At(t, a));
    InsideIsBelow(t, a, b);
    InsideIsBelow(t, b, a);
  }

  /** set_desync changes the modes on a way through the surface only there. */
  lemma ModesAfterDesync(t: Tree, s: State, p: Path, q: Path, k: nat)
    requires Unique(t) && Ids(t) <= s.Keys && IsPath(t, p) && IsPath(t, p + q) && k <= |p + q|
    ensures SyncOnWay(t, Step(t, s, Event(p, SetDesync)), p + q, k) <==> k != |p| && SyncOnWay(t, s, p + q, k)
  {
    var u, w, s' := At(t, p), p + q, Step(t, s, Event(p, SetDesync));
    IdsDown(t, p);
    assert u.id in Ids(u);
    ApplyWithin(u, LeaveSync(s, u.id), false);
    SyncOnWayAt(t, s, w, k);
    SyncOnWayAt(t, s', w, k);
    if k == |p| {
      assert w[..k] == p;
    } else if At(t, w[..k]).id == u.id {
      SameSurface(t, w[..k], p);
    }
  }

  lemma TailUnsynced(t: Tree, s: State, p: Path, q: Path)
    requires IsPath(t, p) && IsPath(At(t, p), q) && IsPath(t, p + q) && Ids(t) <= s.Keys
    requires forall k | |p| < k <= |p + q| :: !SyncOnWay(t, s, p + q, k)
    ensures Unsynced(At(t, p), s, q)
  {
    IdsDown(t, p);
    forall j | 0 < j <= |q| ensures !SyncOnWay(At(t, p), s, q, j) {
      var k := |p| + j;
      SyncOnWayAt(t, s, p + q, k);
      SyncOnWayAt(At(t, p), s, q, j);
      assert (p + q)[..k] == p + q[..j];
      Further(t, p, q[..j]);
    }
  }

  /** Every mode on the way but the surface's own is off. */
  ghost predicate OnlyModeAt(t: Tree, s: State, way: Path, at: nat)
    requires IsPath(t, way)
  {
    forall k | 0 < k <= |way| && k != at :: !SyncOnWay(t, s, way, k)
  }

  lemma SynchronizedAfterDesync(t: Tree, s: State, p: Path, q: Path)
    requires Unique(t) && Ids(t) <= s.Keys && IsPath(t, p) && IsPath(t, p + q)
    ensures Synchronized(t, Step(t, s, Event(p, SetDesync)), p + q) <==> !OnlyModeAt(t, s, p + q, |p|)
  {
    var w, s' := p + q, Step(t, s, Event(p, SetDesync));
    forall k | 0 < k <= |w| ensures SyncOnWay(t, s', w, k) <==> k != |p| && SyncOnWay(t, s, w, k) {
      ModesAfterDesync(t, s, p, q, k);
    }
    SynchronizedExactly(t, s', w);
  }

  lemma DesyncPassesBy(t: Tree, s: State, p: Path, q: Path)
    requires Unique(t) && Ids(t) <= s.Keys && IsPath(t, p) && IsPath(At(t, p), q) && IsPath(t, p + q) && q != []
    requires OnlyModeAt(t, s, p + q, |p|) && At(t, p + q).id in s && At(t, p + q) == At(At(t, p), q)
    ensures Step(t, s, Event(p, SetDesync))[At(t, p + q).id] == s[At(t, p + q).id]
  {
    var u, w := At(t, p), p + q;
    IdsDown(t, p);
    assert u.id in Ids(u);
    if At(t, w).id == u.id { SameSurface(t, w, p); }
    var mid := LeaveSync(s, u.id);
    forall k | |p| < k <= |w| ensures !SyncOnWay(t, mid, w, k) {
      SyncOnWayAt(t, s, w, k);
      SyncOnWayAt(t, mid, w, k);
    }
    TailUnsynced(t, mid, p, q);
    UniqueDown(t, p);
    UnsyncedUntouched(u, mid, q);
  }

  /** What set_desync leaves stranded, exactly. A commit cached below the surface waits although nothing
      synchronizes it any more if and only if it was cached before and the surface's own mode was the
      only one on the whole way that could have been synchronizing it. */
  lemma DesyncStrandsExactly(t: Tree, s: State, p: Path, q: Path)
    requires Unique(t) && Ids(t) <= s.Keys
    requires IsPath(t, p) && q != [] && IsPath(At(t, p), q)
    ensures IsPath(t, p + q) && At(t, p + q).id in s
    ensures var d, s' := At(t, p + q).id, Step(t, s, Event(p, SetDesync));
      s'[d].cached && !Synchronized(t, s', p + q) <==>
        s[d].cached && OnlyModeAt(t, s, p + q, |p|)
  {
    Further(t, p, q);
    IdsDown(t, p + q);
    assert At(t, p + q).id in Ids(At(t, p + q));
    SynchronizedAfterDesync(t, s, p, q);
    if OnlyModeAt(t, s, p + q, |p|) { DesyncPassesBy(t, s, p, q); }
  }

  /** A request that is not addressed to the surface at `way` and puts nothing on the way in sync mode. */
  predicate Elsewhere(e: Event, way: Path) {
    e.path != way && !(e.request.SetSync? && e.path <= way)
  }

  lemma UnsyncedStays(t: Tree, s: State, r: State, way: Path, other: Id)
    requires Unique(t) && Ids(t) <= s.Keys == r.Keys && IsPath(t, way) && Unsynced(t, s, way)
    requires forall x | x in s && x != other && r[x].sync :: s[x].sync
    requires other in r && r[other].sync && !s[other].sync ==>
      forall k | 0 <= k <= |way| :: IsPath(t, way[..k]) ==> At(t, way[..k]).id != other
    ensures Unsynced(t, r, way)
  {
    forall k | 0 < k <= |way| ensures !SyncOnWay(t, r, way, k) {
      SyncOnWayAt(t, s, way, k);
      SyncOnWayAt(t, r, way, k);
      assert !SyncOnWay(t, s, way, k);
    }
  }

  lemma HandleModes(u: Tree, s: State, request: Request, sync: bool, without: bool)
    requires Ids(u) <= s.Keys && u.id in s
    ensures var r := Handle(u, s, request, sync, without);
      && (forall x | x in s && x != u.id :: r[x].sync == s[x].sync)
      && (r[u.id].sync ==> s[u.id].sync || request.SetSync?)
  {
    match request
    case Commit => ApplyWithin(u, s, false);
    case SetDesync => ApplyWithin(u, LeaveSync(s, u.id), false);
    case Attach(_) =>
    case SetSync =>
  }

  lemma StepModes(t: Tree, s: State, e: Event)
    requires Ids(t) <= s.Keys && IsPath(t, e.path)
    ensures At(t, e.path).id in s
    ensures forall x | x in s && x != At(t, e.path).id :: Step(t, s, e)[x].sync == s[x].sync
    ensures Step(t, s, e)[At(t, e.path).id].sync ==> s[At(t, e.path).id].sync || e.request.SetSync?
  {
    var u := At(t, e.path);
    IdsDown(t, e.path);
    assert u.id in Ids(u);
    HandleModes(u, s, e.request, Synchronized(t, s, e.path), Synchronized(t, LeaveSync(s, u.id), e.path));
  }

  lemma UnsyncedStep(t: Tree, s: State, e: Event, way: Path)
    requires Unique(t) && Ids(t) <= s.Keys && IsPath(t, way) && Unsynced(t, s, way) && Elsewhere(e, way)
    ensures Unsynced(t, Step(t, s, e), way)
  {
    if IsPath(t, e.path) {
      StepModes(t, s, e);
      if e.request.SetSync? {
        forall k | 0 <= k <= |way| && IsPath(t, way[..k]) ensures At(t, way[..k]).id != At(t, e.path).id {
          if At(t, way[..k]).id == At(t, e.path).id { SameSurface(t, way[..k], e.path); }
        }
      }
      UnsyncedStays(t, s, Step(t, s, e), way, At(t, e.path).id);
    }
  }

  /** Applying any other surface leaves an unsynchronized one alone, whether it is above it or not. */
  lemma ApplyElsewhere(t: Tree, s: State, a: Path, way: Path)
    requires Unique(t) && Ids(t) <= s.Keys && IsPath(t, way) && Unsynced(t, s, way)
    requires IsPath(t, a) && a != way && Ids(At(t, a)) <= s.Keys && At(t, way).id in s
    ensures Apply(At(t, a), s, false)[At(t, way).id] == s[At(t, way).id]
  {
    var u, x := At(t, a), At(t, way).id;
    ApplyWithin(u, s, false);
    if x in Ids(u) {
      InsideIsBelow(t, a, way);
      var q := way[|a|..];
      assert way == a + q;
      Prefix(t, a, q);
      TailUnsynced(t, s, a, q);
      UniqueDown(t, a);
      UnsyncedUntouched(u, s, q);
    }
  }

  lemma StrandedStep(t: Tree, s: State, e: Event, way: Path)
    requires Unique(t) && Ids(t) <= s.Keys && IsPath(t, way) && Unsynced(t, s, way) && Elsewhere(e, way)
    ensures At(t, way).id in s && Step(t, s, e)[At(t, way).id] == s[At(t, way).id]
  {
    IdsDown(t, way);
    assert At(t, way).id in Ids(At(t, way));
    if IsPath(t, e.path) {
      var u := At(t, e.path);
      IdsDown(t, e.path);
      assert u.id in Ids(u);
      if u.id == At(t, way).id { SameSurface(t, e.path, way); }
      ApplyElsewhere(t, s, e.path, way);
      var mid := LeaveSync(s, u.id);
      UnsyncedStays(t, s, mid, way, u.id);
      ApplyElsewhere(t, mid, e.path, way);
    }
  }

  /** A stranded commit stays stranded: no sequence of attaches, commits and mode changes anywhere else,
      commits of any ancestor included, touches a surface that nothing on its way synchronizes, until it
      commits itself or something on its way enters sync mode. */
  lemma {:induction false} StrandedForever(t: Tree, s: State, events: seq<Event>, way: Path)
    requires Unique(t) && Ids(t) <= s.Keys && IsPath(t, way) && Unsynced(t, s, way)
    requires forall e | e in events :: Elsewhere(e, way)
    ensures At(t, way).id in s && Run(t, s, events)[At(t, way).id] == s[At(t, way).id]
    ensures Unsynced(t, Run(t, s, events), way)
    decreases |events|
  {
    if events == [] {
      IdsDown(t, way);
      assert At(t, way).id in Ids(At(t, way));
    } else {
      assert Elsewhere(events[0], way);
      UnsyncedStep(t, s, events[0], way);
      StrandedStep(t, s, events[0], way);
      StrandedForever(t, Step(t, s, events[0]), events[1..], way);
    }
  }

  /** A subsurface with a commit waiting for its parent, and an intermediate one without. */
  function Stranding(buffer: Buffer): State {
    map[0 := Surface(0, 0, false, false, false, true, UNHELD, 0, 0),
        1 := Surface(0, 0, false, false, true, true, UNHELD, 0, 0),
        2 := Surface(0, buffer, true, true, false, true, UNHELD, 0, 0)]
  }

  const CHAIN := Node(0, [Node(1, [Node(2, [])])])

  /** Leaving sync mode strands what was cached further down: the grandchild's commit waits although
      nothing synchronizes it any more, and later commits of its ancestors pass it by. */
  lemma DesyncStrandsGrandchild(buffer: Buffer)
    ensures var s := Stranding(buffer);
      var t := Run(CHAIN, s, [Event([0], SetDesync), Event([0], Commit), Event([], Commit)]);
      && Synchronized(CHAIN, s, [0, 0])
      && !Synchronized(CHAIN, t, [0, 0])
      && t[2].cached && t[2].buffer == 0
  {
    var s := Stranding(buffer);
    var leaf, mid := Node(2, []), Node(1, [Node(2, [])]);
    assert mid.children[1..] == [] && CHAIN.children[1..] == [];
    var t1 := Step(CHAIN, s, Event([0], SetDesync));
    assert t1 == LeaveSync(s, 1);
    var t2 := Step(CHAIN, t1, Event([0], Commit));
    assert t2[2] == s[2] && !t2[1].sync && !t2[1].cached;
    var t3 := Step(CHAIN, t2, Event([], Commit));
    assert t3[2] == s[2];
    var e1, e2, e3 := Event([0], SetDesync), Event([0], Commit), Event([], Commit);
    assert [e1, e2, e3][1..] == [e2, e3] && [e2, e3][1..] == [e3] && [e3][1..] == [];
    assert Run(CHAIN, t2, [e3]) == t3;
    assert Run(CHAIN, t1, [e2, e3]) == t3;
  }
}

/** The surfaces and the visibility of their views, updated in place by recursive walks. */
module SurfacesObject {
  import opened Words
  import opened Surfaces
  import opened Visibility

  class SurfaceTable {
    var surfaces: State
    var added: set<Id>
    var visible: set<Id>

    constructor (c: Scene)
      ensures Model() == c
    {
      surfaces, added, visible := c.surfaces, c.added, c.visible;
    }

    function Model(): Scene
      reads this
    {
      Scene(surfaces, added, visible)
    }

    /** The part of surface_apply_pending that concerns the surface itself. */
    method ApplySelf(id: Id)
      requires id in surfaces
      modifies `surfaces
      ensures surfaces == old(surfaces)[id := ApplyOne(old(surfaces)[id])]
    {
      var w := surfaces[id];
      if w.pendingAttach {
        w := w.(buffer := w.pendingBuffer);
      }
      if w.hasView {
        if w.hold.held {
          if w.pendingAttach {
            w := w.(hold := w.hold.(attach := true));
          }
          w := w.(hold := w.hold.(update := true));
        } else {
          if w.pendingAttach {
            w := w.(shown := w.buffer);
          }
          w := w.(updates := w.updates + 1);
        }
      }
      surfaces := surfaces[id := w.(pendingAttach := false, cached := false)];
    }

    /** compositor_view_show of a subsurface's view. The source finds the children by their parent, in list
        order; the order does not matter. */
    method ShowView(t: Tree)
      modifies `visible
      ensures Model() == Show(t, old(Model()))
      decreases t
    {
      if t.id in visible || !Mapped(Model(), t.id) {
        return;
      }
      visible := visible + {t.id};
      assert t.children[0..] == t.children;
      for i := 0 to |t.children|
        invariant ShowAll(t.children[i..], Model()) == Show(t, old(Model()))
      {
        assert t.children[i..][0] == t.children[i] && t.children[i..][1..] == t.children[i + 1..];
        ShowView(t.children[i]);
      }
    }

    method HideView(t: Tree)
      modifies `visible
      ensures Model() == Hide(t, old(Model()))
      decreases t
    {
      if t.id !in visible {
        return;
      }
      visible := visible - {t.id};
      assert t.children[0..] == t.children;
      for i := 0 to |t.children|
        invariant HideAll(t.children[i..], Model()) == Hide(t, old(Model()))
      {
        assert t.children[i..][0] == t.children[i] && t.children[i..][1..] == t.children[i + 1..];
        HideView(t.children[i]);
      }
    }

    method UpdateView(t: Tree, parent: Id)
      modifies `visible
      ensures Model() == UpdateVisibility(t, parent, old(Model()))
    {
      if !HasView(Model(), t.id) || !HasView(Model(), parent) {
        return;
      }
      if t.id in added && parent in visible && surfaces[t.id].buffer != 0 {
        ShowView(t);
      } else {
        HideView(t);
      }
    }

    /** What subsurface_parent_commit does to visibility. */
    method PutInPlace(t: Tree)
      modifies `added, `visible
      ensures Model() == Adopt(t.children, t.id, old(Model()))
    {
      assert t.children[0..] == t.children;
      for i := 0 to |t.children|
        invariant Adopt(t.children[i..], t.id, Model()) == Adopt(t.children, t.id, old(Model()))
      {
        assert t.children[i..][0] == t.children[i] && t.children[i..][1..] == t.children[i + 1..];
        added := added + {t.children[i].id};
        UpdateView(t.children[i], t.id);
      }
    }

    method ApplyPending(t: Tree, parent: Option<Id>, sync: bool)
      requires Ids(t) <= surfaces.Keys
      modifies this
      ensures Model() == ApplyScene(t, parent, old(Model()), sync)
      decreases t
    {
      ApplySelf(t.id);
      if parent.Some? {
        UpdateView(t, parent.value);
      }
      PutInPlace(t);
      var i := 0;
      assert t.children[0..] == t.children;
      while i < |t.children|
        invariant i <= |t.children|
        invariant surfaces.Keys == old(surfaces.Keys) && IdsAll(t.children[i..]) <= surfaces.Keys
        invariant ApplySceneAll(t.children[i..], t.id, Model(), sync) == ApplyScene(t, parent, old(Model()), sync)
      {
        var child := t.children[i];
        assert t.children[i..][0] == child && t.children[i..][1..] == t.children[i + 1..];
        assert child.id in Ids(child);
        if surfaces[child.id].cached && (sync || surfaces[child.id].sync) {
          ApplyPending(child, Some(t.id), true);
        }
        i := i + 1;
      }
    }

    method HoldRender(t: Tree)
      requires Ids(t) <= surfaces.Keys
      modifies `surfaces
      ensures surfaces == HoldTree(t, old(surfaces))
      decreases t
    {
      if surfaces[t.id].hold.held {
        return;
      }
      surfaces := surfaces[t.id := surfaces[t.id].(hold := surfaces[t.id].hold.(held := true))];
      var i := 0;
      assert t.children[0..] == t.children;
      while i < |t.children|
        invariant i <= |t.children|
        invariant surfaces.Keys == old(surfaces.Keys) && IdsAll(t.children[i..]) <= surfaces.Keys
        invariant HoldAll(t.children[i..], surfaces) == HoldTree(t, old(surfaces))
      {
        assert t.children[i..][0] == t.children[i] && t.children[i..][1..] == t.children[i + 1..];
        HoldRender(t.children[i]);
        i := i + 1;
      }
    }

    method ReleaseRender(t: Tree)
      requires Ids(t) <= surfaces.Keys
      modifies `surfaces
      ensures surfaces == ReleaseTree(t, old(surfaces))
      decreases t
    {
      if !surfaces[t.id].hold.held {
        return;
      }
      var i := 0;
      assert t.children[0..] == t.children;
      while i < |t.children|
        invariant i <= |t.children|
        invariant surfaces.Keys == old(surfaces.Keys) && IdsAll(t.children[i..]) <= surfaces.Keys
        invariant ReleaseAll(t.children[i..], surfaces) == ReleaseAll(t.children, old(surfaces))
      {
        assert t.children[i..][0] == t.children[i] && t.children[i..][1..] == t.children[i + 1..];
        ReleaseRender(t.children[i]);
        i := i + 1;
      }
      var w := surfaces[t.id];
      var attach, update := w.hold.attach, w.hold.update;
      w := w.(hold := UNHELD);
      if w.hasView {
        if attach {
          w := w.(shown := w.buffer);
        }
        if update {
          w := w.(updates := w.updates + 1);
        }
      }
      surfaces := surfaces[t.id := w];
    }
  }
}
