/** Which views of a surface tree are visible: subsurface_update_visibility and subsurface_parent_commit
    (libswc/subsurface.c) with compositor_view_show and _hide (libswc/compositor.c). None of them looks at
    the render hold. */
module Visibility {
  import opened Words
  import opened Surfaces

  /** `added` holds the subsurfaces that some commit of their parent has put in place, `visible` the
      surfaces whose view is. */
  datatype Scene = Scene(surfaces: State, added: set<Id>, visible: set<Id>)

  /** What a subsurface itself needs to be seen. */
  predicate Mapped(c: Scene, id: Id) {
    id in c.surfaces && id in c.added && c.surfaces[id].buffer != 0 && c.surfaces[id].hasView
  }

  /** Shows a subsurface's view and then, as far as they can be shown, those of its subsurfaces. */
  function Show(t: Tree, c: Scene): (r: Scene)
    ensures r == c.(visible := r.visible)
    decreases t, 1
  {
    if t.id in c.visible || !Mapped(c, t.id) then c else ShowAll(t.children, c.(visible := c.visible + {t.id}))
  }

  function ShowAll(ts: seq<Tree>, c: Scene): (r: Scene)
    ensures r == c.(visible := r.visible)
    decreases ts, 0
  {
    if ts == [] then c else ShowAll(ts[1..], Show(ts[0], c))
  }

  function Hide(t: Tree, c: Scene): (r: Scene)
    ensures r == c.(visible := r.visible)
    decreases t, 1
  {
    if t.id !in c.visible then c else HideAll(t.children, c.(visible := c.visible - {t.id}))
  }

  function HideAll(ts: seq<Tree>, c: Scene): (r: Scene)
    ensures r == c.(visible := r.visible)
    decreases ts, 0
  {
    if ts == [] then c else HideAll(ts[1..], Hide(ts[0], c))
  }

  predicate HasView(c: Scene, id: Id) {
    id in c.surfaces && c.surfaces[id].hasView
  }

  /** Without both views nothing is done. */
  function UpdateVisibility(t: Tree, parent: Id, c: Scene): (r: Scene)
    ensures r == c.(visible := r.visible)
  {
    if !HasView(c, t.id) || !HasView(c, parent) then c
    else if t.id in c.added && parent in c.visible && c.surfaces[t.id].buffer != 0 then Show(t, c)
    else Hide(t, c)
  }

  /** The parent's commit puts every child in place. */
  function Adopt(ts: seq<Tree>, parent: Id, c: Scene): (r: Scene)
    ensures r.surfaces == c.surfaces
    decreases |ts|
  {
    if ts == [] then c
    else Adopt(ts[1..], parent, UpdateVisibility(ts[0], parent, c.(added := c.added + {ts[0].id})))
  }

  /** surface_apply_pending, with what it does to visibility in between. */
  function ApplyScene(t: Tree, parent: Option<Id>, c: Scene, sync: bool): (r: Scene)
    requires Ids(t) <= c.surfaces.Keys
    ensures r.surfaces.Keys == c.surfaces.Keys
    decreases t, 1
  {
    var applied := c.(surfaces := c.surfaces[t.id := ApplyOne(c.surfaces[t.id])]);
    var updated := if parent.Some? then UpdateVisibility(t, parent.value, applied) else applied;
    ApplySceneAll(t.children, t.id, Adopt(t.children, t.id, updated), sync)
  }

  function ApplySceneAll(ts: seq<Tree>, parent: Id, c: Scene, sync: bool): (r: Scene)
    requires IdsAll(ts) <= c.surfaces.Keys
    ensures r.surfaces.Keys == c.surfaces.Keys
    decreases ts, 0
  {
    if ts == [] then c
    else
      assert ts[0].id in Ids(ts[0]);
      var w := c.surfaces[ts[0].id];
      ApplySceneAll(ts[1..], parent,
        if w.cached && (sync || w.sync) then ApplyScene(ts[0], Some(parent), c, true) else c, sync)
  }

  /** What happens to the commits is what Surfaces says, whatever can be seen. */
  lemma {:induction false} ApplyProjects(t: Tree, parent: Option<Id>, c: Scene, sync: bool)
    requires Ids(t) <= c.surfaces.Keys
    ensures ApplyScene(t, parent, c, sync).surfaces == Apply(t, c.surfaces, sync)
    decreases t, 1
  {
    var applied := c.(surfaces := c.surfaces[t.id := ApplyOne(c.surfaces[t.id])]);
    var updated := if parent.Some? then UpdateVisibility(t, parent.value, applied) else applied;
    ApplyAllProjects(t.children, t.id, Adopt(t.children, t.id, updated), sync);
  }

  lemma {:induction false} ApplyAllProjects(ts: seq<Tree>, parent: Id, c: Scene, sync: bool)
    requires IdsAll(ts) <= c.surfaces.Keys
    ensures ApplySceneAll(ts, parent, c, sync).surfaces == ApplyChildren(ts, c.surfaces, sync)
    decreases ts, 0
  {
    if ts != [] {
      assert ts[0].id in Ids(ts[0]);
      var w := c.surfaces[ts[0].id];
      ApplyProjects(ts[0], Some(parent), c, true);
      ApplyAllProjects(ts[1..], parent,
        if w.cached && (sync || w.sync) then ApplyScene(ts[0], Some(parent), c, true) else c, sync);
    }
  }

  // ------------------------------------------------ visible, from scratch

  predicate Edge(parent: Id, id: Id, c: Scene) {
    id in c.visible <==> parent in c.visible && Mapped(c, id)
  }

  /** Every subsurface below `t` is visible exactly when its parent is and it can be seen itself. */
  predicate Consistent(t: Tree, c: Scene)
    decreases t, 0
  {
    forall i | 0 <= i < |t.children| :: Edge(t.id, t.children[i].id, c) && Consistent(t.children[i], c)
  }

  ghost predicate ConsistentAll(ts: seq<Tree>, parent: Id, c: Scene) {
    forall i | 0 <= i < |ts| :: Edge(parent, ts[i].id, c) && Consistent(ts[i], c)
  }

  /** Alike as far as the visibility of these surfaces goes. */
  ghost predicate Same(ids: set<Id>, c: Scene, d: Scene) {
    forall x | x in ids :: (x in c.visible <==> x in d.visible) && Mapped(c, x) == Mapped(d, x)
  }

  lemma {:induction false} SameConsistent(t: Tree, c: Scene, d: Scene)
    requires Same(Ids(t), c, d) && Consistent(t, c)
    ensures Consistent(t, d)
    decreases t
  {
    forall i | 0 <= i < |t.children|
      ensures Edge(t.id, t.children[i].id, d) && Consistent(t.children[i], d)
    {
      IdsAt(t.children, i);
      assert t.children[i].id in Ids(t.children[i]);
      assert Edge(t.id, t.children[i].id, c);
      SameConsistent(t.children[i], c, d);
    }
  }

  /** Nothing outside `ids` changed its visibility. */
  ghost predicate Apart(ids: set<Id>, c: Scene, d: Scene) {
    forall x | x !in ids :: (x in c.visible <==> x in d.visible) && Mapped(c, x) == Mapped(d, x)
  }

  lemma {:induction false} ShowKeeps(t: Tree, c: Scene)
    requires Unique(t) && Consistent(t, c)
    ensures var r := Show(t, c);
      Consistent(t, r) && Apart(Ids(t), c, r) && (t.id in r.visible <==> t.id in c.visible || Mapped(c, t.id))
    decreases t, 1
  {
    if t.id !in c.visible && Mapped(c, t.id) {
      var d := c.(visible := c.visible + {t.id});
      forall i | 0 <= i < |t.children| ensures t.children[i].id !in d.visible && Consistent(t.children[i], d) {
        IdsAt(t.children, i);
        assert t.children[i].id in Ids(t.children[i]);
        assert Edge(t.id, t.children[i].id, c);
        SameConsistent(t.children[i], c, d);
      }
      ShowAllKeeps(t.children, t.id, d);
    }
  }

  lemma {:induction false} ShowAllKeeps(ts: seq<Tree>, parent: Id, c: Scene)
    requires UniqueAll(ts) && parent !in IdsAll(ts) && parent in c.visible
    requires forall i | 0 <= i < |ts| :: ts[i].id !in c.visible && Consistent(ts[i], c)
    ensures ConsistentAll(ts, parent, ShowAll(ts, c)) && Apart(IdsAll(ts), c, ShowAll(ts, c))
    decreases ts, 0
  {
    if ts != [] {
      var d := Show(ts[0], c);
      ShowKeeps(ts[0], c);
      RestApart(ts, parent, c, d);
      assert forall i | 0 <= i < |ts[1..]| :: ts[1..][i].id !in d.visible && Consistent(ts[1..][i], d);
      ShowAllKeeps(ts[1..], parent, d);
      FirstApart(ts, parent, d, ShowAll(ts, c));
    }
  }

  /** What happens to the first child leaves the others as they are, */
  lemma RestApart(ts: seq<Tree>, parent: Id, c: Scene, d: Scene)
    requires UniqueAll(ts) && ts != [] && Apart(Ids(ts[0]), c, d)
    ensures forall i | 0 < i < |ts| && Consistent(ts[i], c) :: Consistent(ts[i], d)
    ensures forall i | 0 < i < |ts| :: ts[i].id in c.visible <==> ts[i].id in d.visible
    ensures forall i | 0 < i < |ts| :: Mapped(c, ts[i].id) == Mapped(d, ts[i].id)
  {
    forall i | 0 < i < |ts|
      ensures Consistent(ts[i], c) ==> Consistent(ts[i], d)
      ensures (ts[i].id in c.visible <==> ts[i].id in d.visible) && Mapped(c, ts[i].id) == Mapped(d, ts[i].id)
    {
      IdsAt(ts[1..], i - 1);
      assert ts[i].id in Ids(ts[i]);
      if Consistent(ts[i], c) { SameConsistent(ts[i], c, d); }
    }
  }

  /** and the other way round. */
  lemma FirstApart(ts: seq<Tree>, parent: Id, d: Scene, r: Scene)
    requires UniqueAll(ts) && ts != [] && parent !in IdsAll(ts) && Apart(IdsAll(ts[1..]), d, r)
    requires Edge(parent, ts[0].id, d) && Consistent(ts[0], d) && ConsistentAll(ts[1..], parent, r)
    ensures ConsistentAll(ts, parent, r)
  {
    assert ts[0].id in Ids(ts[0]);
    SameConsistent(ts[0], d, r);
    forall i | 0 <= i < |ts| ensures Edge(parent, ts[i].id, r) && Consistent(ts[i], r) {
      if i > 0 { assert ts[i] == ts[1..][i - 1]; }
    }
  }

  lemma {:induction false} HideKeeps(t: Tree, c: Scene)
    requires Unique(t) && Consistent(t, c)
    ensures var r := Hide(t, c); Consistent(t, r) && Apart(Ids(t), c, r) && t.id !in r.visible
    decreases t, 1
  {
    if t.id in c.visible {
      var d := c.(visible := c.visible - {t.id});
      forall i | 0 <= i < |t.children| ensures Consistent(t.children[i], d) {
        IdsAt(t.children, i);
        SameConsistent(t.children[i], c, d);
      }
      HideAllKeeps(t.children, t.id, d);
    }
  }

  lemma {:induction false} HideAllKeeps(ts: seq<Tree>, parent: Id, c: Scene)
    requires UniqueAll(ts) && parent !in IdsAll(ts) && parent !in c.visible
    requires forall i | 0 <= i < |ts| :: Consistent(ts[i], c)
    ensures ConsistentAll(ts, parent, HideAll(ts, c)) && Apart(IdsAll(ts), c, HideAll(ts, c))
    decreases ts, 0
  {
    if ts != [] {
      var d := Hide(ts[0], c);
      HideKeeps(ts[0], c);
      RestApart(ts, parent, c, d);
      assert forall i | 0 <= i < |ts[1..]| :: Consistent(ts[1..][i], d);
      HideAllKeeps(ts[1..], parent, d);
      FirstApart(ts, parent, d, HideAll(ts, c));
    }
  }

  /** Only a surface with a view is visible. */
  predicate Viewed(c: Scene, id: Id) {
    id in c.visible ==> HasView(c, id)
  }

  lemma UpdateKeeps(t: Tree, parent: Id, c: Scene)
    requires Unique(t) && parent !in Ids(t) && Consistent(t, c) && Viewed(c, parent) && Viewed(c, t.id)
    requires t.id in c.visible ==> parent in c.visible
    ensures var r := UpdateVisibility(t, parent, c);
      Consistent(t, r) && Apart(Ids(t), c, r) && Edge(parent, t.id, r)
  {
    ShowKeeps(t, c);
    HideKeeps(t, c);
  }

  function Roots(ts: seq<Tree>): set<Id> {
    if ts == [] then {} else {ts[0].id} + Roots(ts[1..])
  }

  lemma {:induction false} AdoptKeeps(ts: seq<Tree>, parent: Id, c: Scene)
    requires UniqueAll(ts) && parent !in IdsAll(ts) && ConsistentAll(ts, parent, c) && Viewed(c, parent)
    ensures var r := Adopt(ts, parent, c);
      && ConsistentAll(ts, parent, r) && Apart(IdsAll(ts), c, r) && r.added == c.added + Roots(ts)
    decreases |ts|
  {
    if ts != [] {
      assert ts[0].id in Ids(ts[0]);
      var d := c.(added := c.added + {ts[0].id});
      assert Edge(parent, ts[0].id, c) && Consistent(ts[0], c);
      forall i | 0 <= i < |ts[0].children|
        ensures Edge(ts[0].id, ts[0].children[i].id, d) && Consistent(ts[0].children[i], d)
      {
        IdsAt(ts[0].children, i);
        assert ts[0].children[i].id in Ids(ts[0].children[i]);
        assert Edge(ts[0].id, ts[0].children[i].id, c);
        SameConsistent(ts[0].children[i], c, d);
      }
      UpdateKeeps(ts[0], parent, d);
      var u := UpdateVisibility(ts[0], parent, d);
      RestApart(ts, parent, c, u);
      forall i | 0 <= i < |ts[1..]| ensures Edge(parent, ts[1..][i].id, u) && Consistent(ts[1..][i], u) {
        assert ts[1..][i] == ts[i + 1] && Edge(parent, ts[i + 1].id, c);
      }
      AdoptKeeps(ts[1..], parent, u);
      FirstApart(ts, parent, u, Adopt(ts, parent, c));
    }
  }

  lemma ApplyOutside(t: Tree, parent: Option<Id>, c: Scene, sync: bool)
    requires Ids(t) <= c.surfaces.Keys
    ensures forall x | x in c.surfaces && x !in Ids(t) ::
      ApplyScene(t, parent, c, sync).surfaces[x] == c.surfaces[x]
  {
    ApplyProjects(t, parent, c, sync);
    ApplyWithin(t, c.surfaces, sync);
  }

  /** Applying a surface and its waiting subsurfaces, with shows and hides one by one, leaves visible what
      should be. */
  lemma {:induction false} ApplyKeeps(t: Tree, parent: Option<Id>, c: Scene, sync: bool)
    requires Ids(t) <= c.surfaces.Keys && Unique(t) && Consistent(t, c) && Viewed(c, t.id)
    requires parent.Some? ==> parent.value !in Ids(t) && Viewed(c, parent.value) && Edge(parent.value, t.id, c)
    ensures var r := ApplyScene(t, parent, c, sync);
      && Consistent(t, r) && Apart(Ids(t), c, r)
      && if parent.Some? then Edge(parent.value, t.id, r) else t.id in r.visible <==> t.id in c.visible
    decreases t, 1
  {
    var applied := c.(surfaces := c.surfaces[t.id := ApplyOne(c.surfaces[t.id])]);
    forall i | 0 <= i < |t.children|
      ensures Edge(t.id, t.children[i].id, applied) && Consistent(t.children[i], applied)
    {
      IdsAt(t.children, i);
      assert t.children[i].id in Ids(t.children[i]);
      assert Edge(t.id, t.children[i].id, c);
      SameConsistent(t.children[i], c, applied);
    }
    var updated := if parent.Some? then UpdateVisibility(t, parent.value, applied) else applied;
    if parent.Some? { UpdateKeeps(t, parent.value, applied); }
    AdoptKeeps(t.children, t.id, updated);
    ApplyAllKeeps(t.children, t.id, Adopt(t.children, t.id, updated), sync);
  }

  lemma {:induction false} ApplyAllKeeps(ts: seq<Tree>, parent: Id, c: Scene, sync: bool)
    requires IdsAll(ts) <= c.surfaces.Keys && UniqueAll(ts) && parent !in IdsAll(ts)
    requires ConsistentAll(ts, parent, c) && Viewed(c, parent)
    ensures var r := ApplySceneAll(ts, parent, c, sync); ConsistentAll(ts, parent, r) && Apart(IdsAll(ts), c, r)
    decreases ts, 0
  {
    if ts != [] {
      assert ts[0].id in Ids(ts[0]);
      var w := c.surfaces[ts[0].id];
      var d := if w.cached && (sync || w.sync) then ApplyScene(ts[0], Some(parent), c, true) else c;
      assert Edge(parent, ts[0].id, c) && Consistent(ts[0], c);
      ApplyKeeps(ts[0], Some(parent), c, true);
      ApplyOutside(ts[0], Some(parent), c, true);
      RestApart(ts, parent, c, d);
      forall i | 0 <= i < |ts[1..]| ensures Edge(parent, ts[1..][i].id, d) && Consistent(ts[1..][i], d) {
        assert ts[1..][i] == ts[i + 1] && Edge(parent, ts[i + 1].id, c);
      }
      ApplyAllKeeps(ts[1..], parent, d, sync);
      FirstApart(ts, parent, d, ApplySceneAll(ts, parent, c, sync));
    }
  }

  // ------------------------------------------------------------- requests

  /** The request applies the surface it is addressed to, instead of only noting something. */
  predicate Applies(t: Tree, s: State, e: Event)
    requires Ids(t) <= s.Keys
  {
    IsPath(t, e.path) && (
      IdsDown(t, e.path);
      var u := At(t, e.path);
      var sync := Synchronized(t, s, e.path);
      || (e.request.Commit? && !sync)
      || (e.request.SetDesync? && sync && s[u.id].cached && !Synchronized(t, LeaveSync(s, u.id), e.path)))
  }

  function Parent(t: Tree, path: Path): (r: Option<Id>)
    requires IsPath(t, path)
  {
    if path == [] then None else PrefixIsPath(t, path, |path| - 1); Some(At(t, path[..|path| - 1]).id)
  }

  lemma {:induction false} PrefixIsPath(t: Tree, path: Path, k: nat)
    requires IsPath(t, path) && k <= |path|
    ensures IsPath(t, path[..k])
  {
    assert path[..k] + path[k..] == path;
    Prefix(t, path[..k], path[k..]);
  }

  /** The surfaces as they are when the request comes to apply one. */
  function Before(t: Tree, s: State, e: Event): (r: State)
    requires Ids(t) <= s.Keys && Applies(t, s, e)
    ensures r.Keys == s.Keys
  {
    IdsDown(t, e.path);
    if e.request.SetDesync? then LeaveSync(s, At(t, e.path).id) else s
  }

  function StepScene(t: Tree, c: Scene, e: Event): (r: Scene)
    requires Ids(t) <= c.surfaces.Keys
    ensures r.surfaces.Keys == c.surfaces.Keys
  {
    if Applies(t, c.surfaces, e) then
      IdsDown(t, e.path);
      ApplyScene(At(t, e.path), Parent(t, e.path), c.(surfaces := Before(t, c.surfaces, e)), false)
    else c.(surfaces := Step(t, c.surfaces, e))
  }

  function RunScene(t: Tree, c: Scene, events: seq<Event>): (r: Scene)
    requires Ids(t) <= c.surfaces.Keys
    ensures r.surfaces.Keys == c.surfaces.Keys
    decreases |events|
  {
    if events == [] then c else RunScene(t, StepScene(t, c, events[0]), events[1..])
  }

  lemma StepProjects(t: Tree, c: Scene, e: Event)
    requires Ids(t) <= c.surfaces.Keys
    ensures StepScene(t, c, e).surfaces == Step(t, c.surfaces, e)
  {
    if Applies(t, c.surfaces, e) {
      IdsDown(t, e.path);
      ApplyProjects(At(t, e.path), Parent(t, e.path), c.(surfaces := Before(t, c.surfaces, e)), false);
    }
  }

  lemma {:induction false} RunProjects(t: Tree, c: Scene, events: seq<Event>)
    requires Ids(t) <= c.surfaces.Keys
    ensures RunScene(t, c, events).surfaces == Run(t, c.surfaces, events)
    decreases |events|
  {
    if events != [] {
      StepProjects(t, c, events[0]);
      RunProjects(t, StepScene(t, c, events[0]), events[1..]);
    }
  }

  /** The window's own view is shown and hidden by the window manager; only its subsurfaces follow commits. */
  ghost predicate Inv(t: Tree, c: Scene) {
    Unique(t) && Ids(t) <= c.surfaces.Keys && Consistent(t, c) && Viewed(c, t.id)
  }

  lemma {:induction false} ConsistentDown(t: Tree, c: Scene, path: Path)
    requires Inv(t, c) && IsPath(t, path)
    ensures Inv(At(t, path), c)
    ensures path != [] ==> var parent := Parent(t, path).value;
      parent !in Ids(At(t, path)) && Edge(parent, At(t, path).id, c) && Viewed(c, parent)
    decreases path
  {
    if path != [] {
      var u, rest := t.children[path[0]], path[1..];
      IdsAt(t.children, path[0]);
      UniqueAt(t.children, path[0]);
      assert u.id in Ids(u) && Edge(t.id, u.id, c);
      ConsistentDown(u, c, rest);
      IdsDown(u, rest);
      if rest == [] {
        assert path[..|path| - 1] == [];
      } else {
        PrefixIsPath(t, path, |path| - 1);
        assert path[..|path| - 1][1..] == rest[..|rest| - 1] && path[..|path| - 1][0] == path[0];
      }
    }
  }

  /** What goes on in a subtree leaves the rest of the tree consistent. */
  lemma {:induction false} ConsistentUp(t: Tree, c: Scene, d: Scene, path: Path)
    requires Inv(t, c) && IsPath(t, path) && Apart(Ids(At(t, path)), c, d) && Consistent(At(t, path), d)
    requires path != [] ==> Edge(Parent(t, path).value, At(t, path).id, d)
    ensures Consistent(t, d)
    decreases path
  {
    if path != [] {
      var k, u, rest := path[0], t.children[path[0]], path[1..];
      ConsistentDown(t, c, [k]);
      IdsDown(u, rest);
      UniqueAt(t.children, k);
      IdsAt(t.children, k);
      assert At(t, [k]) == u && u.id in Ids(u) && Edge(t.id, u.id, c);
      if rest == [] {
        assert path[..|path| - 1] == [];
      } else {
        PrefixIsPath(t, path, |path| - 1);
        assert path[..|path| - 1][1..] == rest[..|rest| - 1] && path[..|path| - 1][0] == path[0];
        assert u.id !in Ids(At(u, rest)) by { ConsistentDown(u, c, rest); RootAbove(u, rest); }
      }
      ConsistentUp(u, c, d, rest);
      forall i | 0 <= i < |t.children| ensures Edge(t.id, t.children[i].id, d) && Consistent(t.children[i], d) {
        assert Edge(t.id, t.children[i].id, c) && t.children[i].id in Ids(t.children[i]);
        IdsAt(t.children, i);
        if i != k { SameConsistent(t.children[i], c, d); }
      }
    }
  }

  lemma {:induction false} RootAbove(t: Tree, path: Path)
    requires Unique(t) && IsPath(t, path) && path != []
    ensures t.id !in Ids(At(t, path))
  {
    IdsAt(t.children, path[0]);
    IdsDown(t.children[path[0]], path[1..]);
  }

  lemma HandleViews(u: Tree, s: State, request: Request, sync: bool, without: bool)
    requires Unique(u) && Ids(u) <= s.Keys
    ensures forall x | x in s :: Handle(u, s, request, sync, without)[x].hasView == s[x].hasView
    ensures !(request.Commit? && !sync) && !(request.SetDesync? && sync && !without && s[u.id].cached) ==>
      forall x | x in s :: Handle(u, s, request, sync, without)[x].buffer == s[x].buffer
  {
    match request
    case Commit => ApplyEach(u, s, false);
    case SetDesync => ApplyEach(u, LeaveSync(s, u.id), false);
    case Attach(_) =>
    case SetSync =>
  }

  lemma StepViews(t: Tree, s: State, e: Event)
    requires Unique(t) && Ids(t) <= s.Keys
    ensures forall x | x in s :: Step(t, s, e)[x].hasView == s[x].hasView
    ensures !Applies(t, s, e) ==> forall x | x in s :: Step(t, s, e)[x].buffer == s[x].buffer
  {
    if IsPath(t, e.path) {
      var u := At(t, e.path);
      IdsDown(t, e.path);
      UniqueDown(t, e.path);
      assert u.id in Ids(u);
      HandleViews(u, s, e.request, Synchronized(t, s, e.path), Synchronized(t, LeaveSync(s, u.id), e.path));
    }
  }

  /** Every request keeps the views in step with what is committed, held or not. */
  lemma StepKeeps(t: Tree, c: Scene, e: Event)
    requires Inv(t, c)
    ensures Inv(t, StepScene(t, c, e))
    ensures t.id in StepScene(t, c, e).visible <==> t.id in c.visible
    ensures Apart(Ids(t), c, StepScene(t, c, e))
  {
    var r := StepScene(t, c, e);
    StepProjects(t, c, e);
    StepViews(t, c.surfaces, e);
    assert t.id in Ids(t);
    if Applies(t, c.surfaces, e) {
      var u, parent := At(t, e.path), Parent(t, e.path);
      IdsDown(t, e.path);
      var d := c.(surfaces := Before(t, c.surfaces, e));
      SameConsistent(t, c, d);
      ConsistentDown(t, d, e.path);
      ApplyKeeps(u, parent, d, false);
      ConsistentUp(t, d, r, e.path);
      if e.path != [] { RootAbove(t, e.path); }
    } else {
      StepInside(t, c.surfaces, e);
      SameConsistent(t, c, r);
    }
  }

  lemma StepInside(t: Tree, s: State, e: Event)
    requires Ids(t) <= s.Keys
    ensures forall x | x in s && x !in Ids(t) :: Step(t, s, e)[x] == s[x]
  {
    if IsPath(t, e.path) {
      var u := At(t, e.path);
      IdsDown(t, e.path);
      assert u.id in Ids(u);
      ApplyWithin(u, s, false);
      ApplyWithin(u, LeaveSync(s, u.id), false);
    }
  }

  lemma {:induction false} RunKeeps(t: Tree, c: Scene, events: seq<Event>)
    requires Inv(t, c)
    ensures Inv(t, RunScene(t, c, events))
    ensures t.id in RunScene(t, c, events).visible <==> t.id in c.visible
    ensures Apart(Ids(t), c, RunScene(t, c, events))
    decreases |events|
  {
    if events != [] {
      StepKeeps(t, c, events[0]);
      RunKeeps(t, StepScene(t, c, events[0]), events[1..]);
    }
  }

  /** The surface at every step of the way has been put in place, and has a view and a committed buffer. */
  ghost predicate AllMapped(t: Tree, c: Scene, way: Path)
    requires IsPath(t, way)
  {
    forall k | 0 < k <= |way| :: IsPath(t, way[..k]) && Mapped(c, At(t, way[..k]).id)
  }

  lemma WayDown(t: Tree, way: Path, k: nat)
    requires IsPath(t, way) && 0 < k <= |way|
    ensures IsPath(t, way[..k]) && IsPath(t.children[way[0]], way[1..][..k - 1])
    ensures At(t, way[..k]) == At(t.children[way[0]], way[1..][..k - 1])
  {
    PrefixIsPath(t, way, k);
    assert way[..k][0] == way[0];
    assert way[..k][1..] == way[1..][..k - 1];
  }

  lemma AllMappedStep(t: Tree, c: Scene, way: Path)
    requires IsPath(t, way) && way != []
    ensures AllMapped(t, c, way) <==>
      Mapped(c, t.children[way[0]].id) && AllMapped(t.children[way[0]], c, way[1..])
  {
    var u := t.children[way[0]];
    forall k | 0 < k <= |way|
      ensures IsPath(t, way[..k]) && IsPath(u, way[1..][..k - 1]) && At(t, way[..k]) == At(u, way[1..][..k - 1])
    {
      WayDown(t, way, k);
    }
    if AllMapped(t, c, way) {
      assert Mapped(c, At(t, way[..1]).id);
      forall k | 0 < k <= |way[1..]| ensures IsPath(u, way[1..][..k]) && Mapped(c, At(u, way[1..][..k]).id) {
        PrefixIsPath(u, way[1..], k);
        assert Mapped(c, At(t, way[..k + 1]).id);
      }
    }
    if Mapped(c, u.id) && AllMapped(u, c, way[1..]) {
      forall k | 0 < k <= |way| ensures IsPath(t, way[..k]) && Mapped(c, At(t, way[..k]).id) {
        assert At(t, way[..k]) == At(u, way[1..][..k - 1]);
        if k == 1 { assert way[1..][..0] == []; }
      }
    }
  }

  /** A subsurface's view is visible exactly when the window's is, and every surface from there down to it
      has been put in place and has a buffer. */
  lemma {:induction false} VisibleExactly(t: Tree, c: Scene, way: Path)
    requires Inv(t, c) && IsPath(t, way)
    ensures At(t, way).id in c.visible <==> t.id in c.visible && AllMapped(t, c, way)
    decreases way
  {
    if way != [] {
      var u := t.children[way[0]];
      AllMappedStep(t, c, way);
      ConsistentDown(t, c, [way[0]]);
      assert At(t, [way[0]]) == u && Edge(t.id, u.id, c);
      VisibleExactly(u, c, way[1..]);
    }
  }

  // -------------------------------------------- who is put in place by whom

  /** The subsurfaces that applying `t` puts in place: the children of all that is applied. */
  function Placed(t: Tree, s: State, sync: bool): (r: set<Id>)
    requires Ids(t) <= s.Keys
    ensures r <= IdsAll(t.children)
    decreases t, 1
  {
    RootsInside(t.children);
    Roots(t.children) + PlacedAll(t.children, s, sync)
  }

  function PlacedAll(ts: seq<Tree>, s: State, sync: bool): (r: set<Id>)
    requires IdsAll(ts) <= s.Keys
    ensures r <= IdsAll(ts)
    decreases ts, 0
  {
    if ts == [] then {}
    else
      assert ts[0].id in Ids(ts[0]);
      (if s[ts[0].id].cached && (sync || s[ts[0].id].sync) then Placed(ts[0], s, true) else {})
      + PlacedAll(ts[1..], s, sync)
  }

  lemma {:induction false} RootsInside(ts: seq<Tree>)
    ensures Roots(ts) <= IdsAll(ts)
    ensures forall i | 0 <= i < |ts| :: ts[i].id in Roots(ts)
    decreases |ts|
  {
    if ts != [] {
      RootsInside(ts[1..]);
      assert ts[0].id in Ids(ts[0]);
      forall i | 0 <= i < |ts| ensures ts[i].id in Roots(ts) {
        if i > 0 { assert ts[i] == ts[1..][i - 1]; }
      }
    }
  }

  lemma {:induction false} PlacedAllSame(ts: seq<Tree>, s: State, r: State, sync: bool)
    requires SameWaiting(IdsAll(ts), s, r)
    ensures PlacedAll(ts, s, sync) == PlacedAll(ts, r, sync)
    decreases ts
  {
    if ts != [] {
      assert ts[0].id in Ids(ts[0]);
      PlacedAllSame(ts[0].children, s, r, true);
      PlacedAllSame(ts[1..], s, r, sync);
    }
  }

  lemma {:induction false} AdoptAdds(ts: seq<Tree>, parent: Id, c: Scene)
    ensures Adopt(ts, parent, c).added == c.added + Roots(ts)
    decreases |ts|
  {
    if ts != [] {
      AdoptAdds(ts[1..], parent, UpdateVisibility(ts[0], parent, c.(added := c.added + {ts[0].id})));
    }
  }

  lemma {:induction false} ApplyAdds(t: Tree, parent: Option<Id>, c: Scene, sync: bool)
    requires Unique(t) && Ids(t) <= c.surfaces.Keys
    ensures ApplyScene(t, parent, c, sync).added == c.added + Placed(t, c.surfaces, sync)
    decreases t, 1
  {
    var applied := c.(surfaces := c.surfaces[t.id := ApplyOne(c.surfaces[t.id])]);
    var updated := if parent.Some? then UpdateVisibility(t, parent.value, applied) else applied;
    AdoptAdds(t.children, t.id, updated);
    PlacedAllSame(t.children, c.surfaces, applied.surfaces, sync);
    ApplyAllAdds(t.children, t.id, Adopt(t.children, t.id, updated), sync);
  }

  lemma {:induction false} ApplyAllAdds(ts: seq<Tree>, parent: Id, c: Scene, sync: bool)
    requires UniqueAll(ts) && IdsAll(ts) <= c.surfaces.Keys
    ensures ApplySceneAll(ts, parent, c, sync).added == c.added + PlacedAll(ts, c.surfaces, sync)
    decreases ts, 0
  {
    if ts != [] {
      assert ts[0].id in Ids(ts[0]);
      var w := c.surfaces[ts[0].id];
      var d := if w.cached && (sync || w.sync) then ApplyScene(ts[0], Some(parent), c, true) else c;
      ApplyAdds(ts[0], Some(parent), c, true);
      ApplyOutside(ts[0], Some(parent), c, true);
      PlacedAllSame(ts[1..], c.surfaces, d.surfaces, sync);
      ApplyAllAdds(ts[1..], parent, d, sync);
    }
  }

  /** Which child's part of the tree a surface of it is in decides. */
  lemma {:induction false} InOneChild(ts: seq<Tree>, s: State, sync: bool, i: nat, x: Id)
    requires UniqueAll(ts) && IdsAll(ts) <= s.Keys && i < |ts| && x in Ids(ts[i])
    ensures Ids(ts[i]) <= s.Keys && ts[i].id in s
    ensures var waits := s[ts[i].id].cached && (sync || s[ts[i].id].sync);
      && (x in AppliedAll(ts, s, sync) <==> waits && x in Applied(ts[i], s, true))
      && (x in PlacedAll(ts, s, sync) <==> waits && x in Placed(ts[i], s, true))
    decreases |ts|
  {
    IdsAt(ts, i);
    assert ts[i].id in Ids(ts[i]) && ts[0].id in Ids(ts[0]);
    if i > 0 {
      IdsAt(ts[1..], i - 1);
      InOneChild(ts[1..], s, sync, i - 1, x);
    }
  }

  lemma {:induction false} OneRoot(ts: seq<Tree>, i: nat, x: Id)
    requires UniqueAll(ts) && i < |ts| && x in Ids(ts[i]) && x in Roots(ts)
    ensures x == ts[i].id
    decreases |ts|
  {
    RootsInside(ts[1..]);
    assert ts[0].id in Ids(ts[0]);
    if i > 0 {
      IdsAt(ts[1..], i - 1);
      OneRoot(ts[1..], i - 1, x);
    }
  }

  /** A subsurface is put in place by an apply exactly when its parent is applied. */
  lemma {:induction false} PlacedByParent(t: Tree, s: State, sync: bool, path: Path)
    requires Unique(t) && Ids(t) <= s.Keys && IsPath(t, path) && path != []
    ensures At(t, path).id in Placed(t, s, sync) <==> Parent(t, path).value in Applied(t, s, sync)
    decreases path
  {
    var k, u, rest, x := path[0], t.children[path[0]], path[1..], At(t, path).id;
    IdsAt(t.children, k);
    UniqueAt(t.children, k);
    RootsInside(t.children);
    if rest == [] {
      assert path[..|path| - 1] == [];
    } else {
      var up := Parent(u, rest).value;
      WayDown(t, path, |path| - 1);
      PrefixIsPath(u, rest, |rest| - 1);
      IdsDown(u, rest);
      IdsDown(u, rest[..|rest| - 1]);
      assert x in Ids(At(u, rest)) && up in Ids(At(u, rest[..|rest| - 1]));
      RootAbove(u, rest);
      if x in Roots(t.children) { OneRoot(t.children, k, x); }
      InOneChild(t.children, s, sync, k, x);
      InOneChild(t.children, s, sync, k, up);
      PlacedByParent(u, s, true, rest);
    }
  }

  // ------------------------------------------------- what one request does

  function AppliedBy(t: Tree, s: State, e: Event): (r: set<Id>)
    requires Ids(t) <= s.Keys
  {
    if !Applies(t, s, e) then {} else IdsDown(t, e.path); Applied(At(t, e.path), Before(t, s, e), false)
  }

  /** What the request is going to make of the `k`-th surface on the way, from the state it finds: whether
      its parent's commit will have put it in place, and it will have a buffer. */
  predicate WillMap(t: Tree, c: Scene, e: Event, way: Path, k: nat)
    requires Ids(t) <= c.surfaces.Keys && IsPath(t, way) && 0 < k <= |way|
  {
    PrefixIsPath(t, way, k);
    PrefixIsPath(t, way, k - 1);
    var id, up, a := At(t, way[..k]).id, At(t, way[..k - 1]).id, AppliedBy(t, c.surfaces, e);
    && HasView(c, id)
    && (id in c.added || up in a)
    && (if id in a && c.surfaces[id].pendingAttach then c.surfaces[id].pendingBuffer else c.surfaces[id].buffer) != 0
  }

  lemma AppliedBuffer(t: Tree, c: Scene, e: Event, x: Id)
    requires Inv(t, c) && x in c.surfaces && Applies(t, c.surfaces, e)
    ensures var w, r := c.surfaces[x], StepScene(t, c, e).surfaces;
      r[x].buffer == if x in AppliedBy(t, c.surfaces, e) && w.pendingAttach then w.pendingBuffer else w.buffer
  {
    var u, s := At(t, e.path), Before(t, c.surfaces, e);
    IdsDown(t, e.path);
    UniqueDown(t, e.path);
    ApplyProjects(u, Parent(t, e.path), c.(surfaces := s), false);
    ApplyEach(u, s, false);
  }

  lemma BufferAfter(t: Tree, c: Scene, e: Event, x: Id)
    requires Inv(t, c) && x in c.surfaces
    ensures var w, r := c.surfaces[x], StepScene(t, c, e).surfaces;
      r[x].hasView == w.hasView && r[x].buffer ==
        if x in AppliedBy(t, c.surfaces, e) && w.pendingAttach then w.pendingBuffer else w.buffer
  {
    StepProjects(t, c, e);
    StepViews(t, c.surfaces, e);
    if Applies(t, c.surfaces, e) { AppliedBuffer(t, c, e, x); }
  }

  /** The parent of what is below a surface is that surface or below it. */
  lemma ParentInside(t: Tree, a: Path, way: Path) returns (q: Path)
    requires Unique(t) && IsPath(t, a) && IsPath(t, way) && way != []
    requires At(t, way).id in IdsAll(At(t, a).children) || Parent(t, way).value in Ids(At(t, a))
    ensures q != [] && way == a + q && IsPath(At(t, a), q) && At(t, way) == At(At(t, a), q)
    ensures Parent(t, way) == Parent(At(t, a), q) && Parent(t, way).value in Ids(At(t, a))
  {
    var u := At(t, a);
    PrefixIsPath(t, way, |way| - 1);
    if At(t, way).id in IdsAll(u.children) {
      InsideIsBelow(t, a, way);
      UniqueDown(t, a);
      assert a != way;
    } else {
      InsideIsBelow(t, a, way[..|way| - 1]);
    }
    q := way[|a|..];
    var r := q[..|q| - 1];
    assert way == a + q && way[..|way| - 1] == a + r;
    Prefix(t, a, q);
    Prefix(t, a, r);
    IdsDown(u, r);
    assert At(u, r).id in Ids(At(u, r));
  }

  lemma AddedAfter(t: Tree, c: Scene, e: Event, way: Path)
    requires Inv(t, c) && IsPath(t, way) && way != []
    ensures At(t, way).id in StepScene(t, c, e).added <==>
      At(t, way).id in c.added || Parent(t, way).value in AppliedBy(t, c.surfaces, e)
  {
    var x, up := At(t, way).id, Parent(t, way).value;
    if Applies(t, c.surfaces, e) {
      var u, s := At(t, e.path), Before(t, c.surfaces, e);
      IdsDown(t, e.path);
      UniqueDown(t, e.path);
      ApplyAdds(u, Parent(t, e.path), c.(surfaces := s), false);
      if up in Ids(u) || x in IdsAll(u.children) {
        var q := ParentInside(t, e.path, way);
        PlacedByParent(u, s, false, q);
      }
    }
  }

  lemma MappedAfter(t: Tree, c: Scene, e: Event, way: Path, k: nat)
    requires Inv(t, c) && IsPath(t, way) && 0 < k <= |way|
    ensures IsPath(t, way[..k])
    ensures Mapped(StepScene(t, c, e), At(t, way[..k]).id) <==> WillMap(t, c, e, way, k)
  {
    PrefixIsPath(t, way, k);
    IdsDown(t, way[..k]);
    assert At(t, way[..k]).id in Ids(At(t, way[..k]));
    assert way[..k][..k - 1] == way[..k - 1];
    BufferAfter(t, c, e, At(t, way[..k]).id);
    AddedAfter(t, c, e, way[..k]);
  }

  lemma VisibleAfter(t: Tree, c: Scene, e: Event, way: Path)
    requires Inv(t, c) && IsPath(t, way)
    ensures At(t, way).id in StepScene(t, c, e).visible <==>
      t.id in c.visible && forall k | 0 < k <= |way| :: WillMap(t, c, e, way, k)
  {
    var r := StepScene(t, c, e);
    StepKeeps(t, c, e);
    VisibleExactly(t, r, way);
    forall k | 0 < k <= |way|
      ensures (IsPath(t, way[..k]) && Mapped(r, At(t, way[..k]).id)) <==> WillMap(t, c, e, way, k)
    {
      MappedAfter(t, c, e, way, k);
    }
  }

  /** The request takes the buffer of the `k`-th surface on the way. */
  predicate Unmaps(t: Tree, c: Scene, e: Event, way: Path, k: nat)
    requires Ids(t) <= c.surfaces.Keys && IsPath(t, way) && k <= |way|
  {
    PrefixIsPath(t, way, k);
    var id := At(t, way[..k]).id;
    id in AppliedBy(t, c.surfaces, e) && id in c.surfaces
    && c.surfaces[id].pendingAttach && c.surfaces[id].pendingBuffer == 0
  }

  /** A visible subsurface disappears at once, held or not, if and only if the request applies an attach of
      no buffer to it or to a subsurface above it. */
  lemma DisappearsExactly(t: Tree, c: Scene, e: Event, way: Path)
    requires Inv(t, c) && IsPath(t, way) && At(t, way).id in c.visible
    ensures At(t, way).id !in StepScene(t, c, e).visible <==> exists k :: 0 < k <= |way| && Unmaps(t, c, e, way, k)
  {
    VisibleExactly(t, c, way);
    VisibleAfter(t, c, e, way);
    forall k | 0 < k <= |way| ensures WillMap(t, c, e, way, k) <==> !Unmaps(t, c, e, way, k) {
      assert Mapped(c, At(t, way[..k]).id);
    }
  }

  /** What can be seen of a surface: its view's buffer, and whether the view is visible. */
  function Seen(c: Scene, x: Id): (Buffer, bool)
    requires x in c.surfaces
  {
    (c.surfaces[x].shown, x in c.visible)
  }

  /** The render hold keeps the buffers, not the picture. What a request changes of what a held surface
      shows is whether it is visible, exactly: a visible one goes with its own buffer or that of a
      subsurface above it, and one that was not comes when the window is visible and everything on the way
      to it is going to be in place and have a buffer. */
  lemma HeldChangesExactly(t: Tree, c: Scene, e: Event, way: Path)
    requires Inv(t, c) && IsPath(t, way) && At(t, way).id in c.surfaces && c.surfaces[At(t, way).id].hold.held
    ensures At(t, way).id in StepScene(t, c, e).surfaces
    ensures Seen(StepScene(t, c, e), At(t, way).id) != Seen(c, At(t, way).id) <==>
      if At(t, way).id in c.visible then exists k :: 0 < k <= |way| && Unmaps(t, c, e, way, k)
      else t.id in c.visible && forall k | 0 < k <= |way| :: WillMap(t, c, e, way, k)
  {
    StepProjects(t, c, e);
    StepFreezes(t, c.surfaces, e);
    assert Frozen(c.surfaces[At(t, way).id], Step(t, c.surfaces, e)[At(t, way).id]);
    if At(t, way).id in c.visible {
      DisappearsExactly(t, c, e, way);
    } else {
      VisibleAfter(t, c, e, way);
    }
  }

  // ------------------------------------------- the hold changes nothing of it

  lemma {:induction false} SameEdges(t: Tree, c: Scene, d: Scene, x: Id)
    requires Unique(t) && Consistent(t, c) && Consistent(t, d)
    requires (t.id in c.visible <==> t.id in d.visible) && forall y | y in Ids(t) :: Mapped(c, y) == Mapped(d, y)
    requires x in Ids(t)
    ensures x in c.visible <==> x in d.visible
    decreases t
  {
    if x != t.id {
      var i := ChildWith(t.children, x);
      var u := t.children[i];
      IdsAt(t.children, i);
      UniqueAt(t.children, i);
      assert u.id in Ids(u) && Edge(t.id, u.id, c) && Edge(t.id, u.id, d);
      SameEdges(u, c, d, x);
    }
  }

  lemma {:induction false} ChildWith(ts: seq<Tree>, x: Id) returns (i: nat)
    requires x in IdsAll(ts)
    ensures i < |ts| && x in Ids(ts[i])
    decreases |ts|
  {
    if x in Ids(ts[0]) {
      i := 0;
    } else {
      i := ChildWith(ts[1..], x);
      i := i + 1;
    }
  }

  /** Two scenes alike but for the hold. */
  ghost predicate Alike(h: Scene, f: Scene, base: map<Id, nat>) {
    Rel(h.surfaces, f.surfaces, base) && h.added == f.added && h.visible == f.visible
  }

  lemma StepAddsAlike(t: Tree, h: Scene, f: Scene, e: Event, base: map<Id, nat>)
    requires Inv(t, h) && Inv(t, f) && Alike(h, f, base)
    ensures StepScene(t, h, e).added == StepScene(t, f, e).added
  {
    assert forall x | x in h.surfaces :: Mirrors(h.surfaces[x], f.surfaces[x], base[x]);
    if IsPath(t, e.path) {
      var u := At(t, e.path);
      IdsDown(t, e.path);
      UniqueDown(t, e.path);
      assert u.id in Ids(u);
      SameSync(t, h.surfaces, f.surfaces, e.path);
      SameSync(t, LeaveSync(h.surfaces, u.id), LeaveSync(f.surfaces, u.id), e.path);
      if Applies(t, h.surfaces, e) {
        var s, r := Before(t, h.surfaces, e), Before(t, f.surfaces, e);
        ApplyAdds(u, Parent(t, e.path), h.(surfaces := s), false);
        ApplyAdds(u, Parent(t, e.path), f.(surfaces := r), false);
        PlacedAllSame(u.children, s, r, false);
      }
    }
  }

  lemma StepAlike(t: Tree, h: Scene, f: Scene, e: Event, base: map<Id, nat>)
    requires Inv(t, h) && Inv(t, f) && Alike(h, f, base)
    ensures Alike(StepScene(t, h, e), StepScene(t, f, e), base)
  {
    var h', f' := StepScene(t, h, e), StepScene(t, f, e);
    StepProjects(t, h, e);
    StepProjects(t, f, e);
    StepMirrors(t, h.surfaces, f.surfaces, e, base);
    StepAddsAlike(t, h, f, e, base);
    StepKeeps(t, h, e);
    StepKeeps(t, f, e);
    assert forall x | x in h'.surfaces :: Mirrors(h'.surfaces[x], f'.surfaces[x], base[x]);
    assert forall x :: Mapped(h', x) == Mapped(f', x);
    forall x ensures x in h'.visible <==> x in f'.visible {
      if x in Ids(t) { SameEdges(t, h', f', x); }
    }
  }

  lemma {:induction false} RunAlike(t: Tree, h: Scene, f: Scene, events: seq<Event>, base: map<Id, nat>)
    requires Inv(t, h) && Inv(t, f) && Alike(h, f, base)
    ensures Alike(RunScene(t, h, events), RunScene(t, f, events), base)
    decreases |events|
  {
    if events != [] {
      StepAlike(t, h, f, events[0], base);
      StepKeeps(t, h, events[0]);
      StepKeeps(t, f, events[0]);
      RunAlike(t, StepScene(t, h, events[0]), StepScene(t, f, events[0]), events[1..], base);
    }
  }

  /** Hold a window's tree, let anything happen, release it: what is put in place and what is visible is at
      every moment what it would have been with no hold, and after the release so are the buffers. */
  lemma HoldRefinesScene(t: Tree, c: Scene, events: seq<Event>)
    requires Inv(t, c) && Ids(t) == c.surfaces.Keys && forall x | x in c.surfaces :: c.surfaces[x].hold == UNHELD
    ensures var held := RunScene(t, c.(surfaces := HoldTree(t, c.surfaces)), events);
      var free := RunScene(t, c, events);
      && held.added == free.added && held.visible == free.visible
      && forall x | x in c.surfaces ::
           ReleaseTree(t, held.surfaces)[x] == free.surfaces[x].(updates := ReleaseTree(t, held.surfaces)[x].updates)
  {
    var h := c.(surfaces := HoldTree(t, c.surfaces));
    var base := map x | x in c.surfaces :: c.surfaces[x].updates;
    HoldSpec(t, c.surfaces);
    assert Rel(h.surfaces, c.surfaces, base);
    SameConsistent(t, c, h);
    RunAlike(t, h, c, events, base);
    RunProjects(t, h, events);
    RunProjects(t, c, events);
    HoldRefines(t, c.surfaces, events);
  }

  // -------------------------------------------------------------- a witness

  /** A visible window with a visible subsurface in desync mode, both held. */
  function HeldPair(buffer: Buffer): Scene {
    Scene(map[0 := Surface(buffer, 0, false, false, false, true, Hold(true, false, false), buffer, 0),
              1 := Surface(buffer, 0, false, false, false, true, Hold(true, false, false), buffer, 0)], {1}, {0, 1})
  }

  /** Attaching no buffer makes a held subsurface disappear in the middle of the hold, though its view
      still has the buffer. */
  lemma HeldDisappears(buffer: Buffer)
    requires buffer != 0
    ensures var t := Node(0, [Node(1, [])]);
      var c := RunScene(t, HeldPair(buffer), [Event([0], Attach(0)), Event([0], Commit)]);
      && Inv(t, HeldPair(buffer)) && 1 in HeldPair(buffer).visible
      && 1 in c.surfaces && c.surfaces[1].hold.held && c.surfaces[1].shown == buffer && 1 !in c.visible
  {
    var leaf := Node(1, []);
    var t := Node(0, [leaf]);
    assert leaf.children == [] && t.children[1..] == [] && IdsAll(t.children) == {1} && Ids(t) == {0, 1};
    var c, e1, e2 := HeldPair(buffer), Event([0], Attach(0)), Event([0], Commit);
    assert [e1, e2][1..] == [e2] && [e2][1..] == [];
    var d := StepScene(t, c, e1);
    StepKeeps(t, c, e1);
    assert At(t, [0]) == leaf;
    assert d == c.(surfaces := c.surfaces[1 := c.surfaces[1].(pendingBuffer := 0, pendingAttach := true)]);
    AttachedDisappears(t, d);
    assert RunScene(t, d, [e2]) == StepScene(t, d, e2);
  }

  lemma AttachedDisappears(t: Tree, d: Scene)
    requires t == Node(0, [Node(1, [])]) && Inv(t, d) && 1 in d.visible && 1 in d.surfaces
    requires d.surfaces[1].hold.held && !d.surfaces[1].sync
    requires d.surfaces[1].pendingAttach && d.surfaces[1].pendingBuffer == 0
    ensures var r := StepScene(t, d, Event([0], Commit));
      1 in r.surfaces && r.surfaces[1].hold.held && r.surfaces[1].shown == d.surfaces[1].shown && 1 !in r.visible
  {
    var e := Event([0], Commit);
    assert At(t, [0]).id == 1 && [0][..1] == [0];
    StepProjects(t, d, e);
    DisappearsExactly(t, d, e, [0]);
    assert Unmaps(t, d, e, [0], 1);
    StepFreezes(t, d.surfaces, e);
    assert Frozen(d.surfaces[1], Step(t, d.surfaces, e)[1]);
  }
}
