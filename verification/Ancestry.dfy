/** Parent links between surfaces: wl_subcompositor.get_subsurface and its ancestor check
    (libswc/subcompositor.c), the ancestor walk that decides whether a commit is cached, and the loss
    of links when a role or a surface goes away (libswc/subsurface.c). */
module Ancestry {
  import opened Words

  type Id = nat

  /** The subsurface role; the parent is gone once its surface is destroyed. */
  datatype Role = Role(parent: Option<Id>, sync: bool)

  type Links = map<Id, Role>

  datatype State = State(surfaces: set<Id>, roles: Links)

  datatype Error = BadSurface | BadParent

  // ------------------------------------------------------------ ancestors

  function Up(l: Links, x: Id): Option<Id> {
    if x in l then l[x].parent else None
  }

  /** The surface `n` links above `x`. */
  function Climb(l: Links, x: Id, n: nat): Option<Id>
    decreases n
  {
    if n == 0 then Some(x)
    else match Up(l, x)
      case None => None
      case Some(p) => Climb(l, p, n - 1)
  }

  /** `a` is `x` or above it; the source's ancestor check asks for a strict one. */
  ghost predicate AtOrAbove(l: Links, a: Id, x: Id) {
    exists n: nat :: Climb(l, x, n) == Some(a)
  }

  ghost predicate StrictlyAbove(l: Links, a: Id, x: Id) {
    exists n: nat :: n > 0 && Climb(l, x, n) == Some(a)
  }

  /** No surface is its own ancestor. */
  ghost predicate Acyclic(l: Links) {
    forall x: Id, n: nat {:trigger Climb(l, x, n)} :: n > 0 ==> Climb(l, x, n) != Some(x)
  }

  function Rank(rank: map<Id, nat>, x: Id): nat {
    if x in rank then rank[x] else 0
  }

  ghost predicate Ranks(l: Links, rank: map<Id, nat>) {
    forall x | x in l && l[x].parent.Some? :: Rank(rank, l[x].parent.value) < Rank(rank, x)
  }

  /** Ranks that fall along every link: what makes both walks terminate. */
  ghost predicate Ranked(l: Links) {
    exists rank :: Ranks(l, rank)
  }

  lemma {:induction false} ClimbFalls(l: Links, rank: map<Id, nat>, x: Id, n: nat)
    requires Ranks(l, rank) && Climb(l, x, n).Some?
    ensures Rank(rank, Climb(l, x, n).value) + n <= Rank(rank, x)
    decreases n
  {
    if n > 0 { ClimbFalls(l, rank, Up(l, x).value, n - 1); }
  }

  lemma RankedIsAcyclic(l: Links)
    requires Ranked(l)
    ensures Acyclic(l)
  {
    var rank :| Ranks(l, rank);
    forall x: Id, n: nat | n > 0 ensures Climb(l, x, n) != Some(x) {
      if Climb(l, x, n) == Some(x) { ClimbFalls(l, rank, x, n); }
    }
  }

  lemma AboveStep(l: Links, a: Id, x: Id)
    ensures StrictlyAbove(l, a, x) <==> Up(l, x).Some? && AtOrAbove(l, a, Up(l, x).value)
    ensures AtOrAbove(l, a, x) <==> a == x || StrictlyAbove(l, a, x)
  {
    if Up(l, x).Some? && AtOrAbove(l, a, Up(l, x).value) {
      var n: nat :| Climb(l, Up(l, x).value, n) == Some(a);
      assert Climb(l, x, n + 1) == Some(a);
    }
    if StrictlyAbove(l, a, x) {
      var n: nat :| n > 0 && Climb(l, x, n) == Some(a);
      assert Climb(l, Up(l, x).value, n - 1) == Some(a);
    }
    assert Climb(l, x, 0) == Some(x);
  }

  /** Walks up from `surface`, ending at one without the role or whose parent is gone. */
  method IsDescendantOf(l: Links, ancestor: Id, surface: Id) returns (r: bool)
    requires Ranked(l)
    ensures r <==> StrictlyAbove(l, ancestor, surface)
  {
    ghost var rank :| Ranks(l, rank);
    var at := Some(surface);
    while at.Some? && at.value in l
      invariant at.Some? ==> (StrictlyAbove(l, ancestor, surface) <==> StrictlyAbove(l, ancestor, at.value))
      invariant at.None? ==> !StrictlyAbove(l, ancestor, surface)
      decreases at.Some?, if at.Some? then Rank(rank, at.value) else 0
    {
      AboveStep(l, ancestor, at.value);
      ghost var below := at.value;
      at := l[at.value].parent;
      if at == Some(ancestor) {
        assert Climb(l, ancestor, 0) == Some(ancestor);
        return true;
      }
      if at.Some? { AboveStep(l, ancestor, at.value); }
    }
    if at.Some? { AboveStep(l, ancestor, at.value); }
    return false;
  }

  /** Some subsurface from `x` up, `x` included, is in sync mode. */
  ghost predicate SyncAtOrAbove(l: Links, x: Id) {
    exists v :: v in l && l[v].sync && AtOrAbove(l, v, x)
  }

  lemma SyncStep(l: Links, x: Id)
    requires x in l
    ensures SyncAtOrAbove(l, x) <==> l[x].sync || (l[x].parent.Some? && SyncAtOrAbove(l, l[x].parent.value))
  {
    forall v ensures AtOrAbove(l, v, x) <==> v == x || (l[x].parent.Some? && AtOrAbove(l, v, l[x].parent.value)) {
      AboveStep(l, v, x);
    }
  }

  lemma NoRoleNoSync(l: Links, x: Id)
    requires x !in l
    ensures !SyncAtOrAbove(l, x)
  {
    forall v | v in l ensures !AtOrAbove(l, v, x) {
      AboveStep(l, v, x);
    }
  }

  /** subsurface_is_synchronized, from a surface with or without the role: decides whether wl_surface.commit
      is cached. */
  method IsSynchronized(l: Links, surface: Id) returns (r: bool)
    requires Ranked(l)
    ensures r <==> SyncAtOrAbove(l, surface)
  {
    ghost var rank :| Ranks(l, rank);
    var at := surface;
    while at in l
      invariant SyncAtOrAbove(l, surface) <==> SyncAtOrAbove(l, at)
      decreases Rank(rank, at) + if at in l then 1 else 0
    {
      SyncStep(l, at);
      if l[at].sync { return true; }
      if l[at].parent.None? { return false; }
      at := l[at].parent.value;
    }
    NoRoleNoSync(l, at);
    return false;
  }

  // ------------------------------------------------------------- requests

  datatype Event =
    | Creates(surface: Id)
    | GetsSubsurface(surface: Id, parent: Id)
    | SetsSync(surface: Id, sync: bool)
    | RoleDestroyed(surface: Id)
    | SurfaceDestroyed(surface: Id)

  ghost function CheckSubsurface(s: State, surface: Id, parent: Id): (r: Option<Error>) {
    if surface !in s.surfaces || parent !in s.surfaces then Some(BadSurface)
    else if surface == parent || StrictlyAbove(s.roles, surface, parent) then Some(BadParent)
    else if surface in s.roles then Some(BadSurface)
    else None
  }

  /** A new subsurface starts in sync mode. */
  function Link(l: Links, surface: Id, parent: Id): Links {
    l[surface := Role(Some(parent), true)]
  }

  ghost function GetSubsurface(s: State, surface: Id, parent: Id): State {
    if CheckSubsurface(s, surface, parent).Some? then s
    else s.(roles := Link(s.roles, surface, parent))
  }

  function Orphaned(r: Role, gone: Id): Role {
    if r.parent == Some(gone) then r.(parent := None) else r
  }

  /** The surface's own role goes with it; its children keep theirs without a parent. */
  function DestroySurface(s: State, x: Id): State {
    State(s.surfaces - {x}, map c | c in s.roles && c != x :: Orphaned(s.roles[c], x))
  }

  ghost function Step(s: State, e: Event): State {
    match e
    case Creates(x) => s.(surfaces := s.surfaces + {x})
    case GetsSubsurface(x, p) => GetSubsurface(s, x, p)
    case SetsSync(x, sync) => if x in s.roles then s.(roles := s.roles[x := s.roles[x].(sync := sync)]) else s
    case RoleDestroyed(x) => s.(roles := s.roles - {x})
    case SurfaceDestroyed(x) => DestroySurface(s, x)
  }

  ghost function Run(s: State, events: seq<Event>): State
    decreases |events|
  {
    if events == [] then s else Run(Step(s, events[0]), events[1..])
  }

  /** The roles belong to living surfaces, point at living surfaces, and have no cycle. */
  ghost predicate Valid(s: State) {
    && s.roles.Keys <= s.surfaces
    && (forall x | x in s.roles && s.roles[x].parent.Some? :: s.roles[x].parent.value in s.surfaces)
    && Ranked(s.roles)
  }

  /** Dropping or cutting links, or changing modes, keeps the ranks. */
  lemma FewerLinks(l: Links, l': Links)
    requires Ranked(l)
    requires forall x | x in l' && l'[x].parent.Some? :: x in l && l[x].parent == l'[x].parent
    ensures Ranked(l')
  {
    var rank :| Ranks(l, rank);
    assert Ranks(l', rank);
  }

  /** Everything at or below the new subsurface is raised past its parent. */
  ghost function Raised(l: Links, rank: map<Id, nat>, surface: Id, parent: Id): map<Id, nat> {
    map x | x in l.Keys + rank.Keys + {surface} ::
      if AtOrAbove(l, surface, x) then Rank(rank, x) + Rank(rank, parent) + 1 else Rank(rank, x)
  }

  lemma LinkKeepsRanked(l: Links, surface: Id, parent: Id)
    requires Ranked(l) && surface !in l
    requires surface != parent && !StrictlyAbove(l, surface, parent)
    ensures Ranked(Link(l, surface, parent))
  {
    var rank :| Ranks(l, rank);
    var rank' := Raised(l, rank, surface, parent);
    forall x | x in Link(l, surface, parent) && Link(l, surface, parent)[x].parent.Some?
      ensures Rank(rank', Link(l, surface, parent)[x].parent.value) < Rank(rank', x)
    {
      AboveStep(l, surface, x);
      AboveStep(l, surface, parent);
    }
    assert Ranks(Link(l, surface, parent), rank');
  }

  /** The new link closes a cycle through the old path from the parent up to the surface. */
  lemma {:induction false} OldPathStays(l: Links, surface: Id, parent: Id, x: Id, n: nat)
    requires surface !in l && Climb(l, x, n) == Some(surface)
    ensures Climb(Link(l, surface, parent), x, n) == Some(surface)
    decreases n
  {
    if n > 0 { OldPathStays(l, surface, parent, Up(l, x).value, n - 1); }
  }

  lemma CycleClosed(l: Links, surface: Id, parent: Id)
    requires surface !in l && AtOrAbove(l, surface, parent)
    ensures !Acyclic(Link(l, surface, parent))
  {
    var n: nat :| Climb(l, parent, n) == Some(surface);
    OldPathStays(l, surface, parent, parent, n);
    assert Climb(Link(l, surface, parent), surface, n + 1) == Some(surface);
  }

  /** BAD_PARENT is reported exactly when the link asked for would make a surface its own ancestor. */
  lemma BadParentExactly(s: State, surface: Id, parent: Id)
    requires Valid(s) && surface in s.surfaces - s.roles.Keys && parent in s.surfaces
    ensures CheckSubsurface(s, surface, parent) == Some(BadParent) <==> !Acyclic(Link(s.roles, surface, parent))
  {
    AboveStep(s.roles, surface, parent);
    if CheckSubsurface(s, surface, parent) == Some(BadParent) {
      CycleClosed(s.roles, surface, parent);
    } else {
      LinkKeepsRanked(s.roles, surface, parent);
      RankedIsAcyclic(Link(s.roles, surface, parent));
    }
  }

  lemma StepKeepsValid(s: State, e: Event)
    requires Valid(s)
    ensures Valid(Step(s, e))
  {
    if e.GetsSubsurface? {
      if CheckSubsurface(s, e.surface, e.parent).None? {
        LinkKeepsRanked(s.roles, e.surface, e.parent);
      }
    } else {
      FewerLinks(s.roles, Step(s, e).roles);
    }
  }

  /** Over every run of requests and destructions no surface ever becomes its own ancestor, and both
      walks terminate. */
  lemma {:induction false} RunKeepsAcyclic(s: State, events: seq<Event>)
    requires Valid(s)
    ensures Valid(Run(s, events)) && Acyclic(Run(s, events).roles)
    decreases |events|
  {
    if events == [] {
      RankedIsAcyclic(s.roles);
    } else {
      StepKeepsValid(s, events[0]);
      RunKeepsAcyclic(Step(s, events[0]), events[1..]);
    }
  }

  /** Who asks for a link to what: both surfaces have to live, the new one must not be at or above its parent, and
      must not have the role. Then it is linked, in sync mode; in every other case nothing changes. */
  lemma LinkedExactly(s: State, surface: Id, parent: Id)
    ensures var t := Step(s, GetsSubsurface(surface, parent));
      if surface in s.surfaces && parent in s.surfaces && surface !in s.roles && !AtOrAbove(s.roles, surface, parent)
      then t == s.(roles := s.roles[surface := Role(Some(parent), true)])
      else t == s
  {
    AtIsStrict(s.roles, surface, parent);
  }

  lemma AtIsStrict(l: Links, a: Id, x: Id)
    ensures AtOrAbove(l, a, x) <==> a == x || StrictlyAbove(l, a, x)
  {
    if AtOrAbove(l, a, x) {
      var n: nat :| Climb(l, x, n) == Some(a);
      if n == 0 { assert a == x; }
    }
    if a == x { assert Climb(l, x, 0) == Some(a); }
  }

  /** What a destroyed role or surface leaves: the role of nobody else changes, but that the children of a surface
      that is gone have no parent any more. */
  lemma CutExactly(s: State, x: Id)
    ensures Step(s, RoleDestroyed(x)).surfaces == s.surfaces && Step(s, RoleDestroyed(x)).roles == s.roles - {x}
    ensures var t := Step(s, SurfaceDestroyed(x));
      && t.surfaces == s.surfaces - {x} && t.roles.Keys == s.roles.Keys - {x}
      && forall c | c in t.roles :: t.roles[c].sync == s.roles[c].sync
           && t.roles[c].parent == if s.roles[c].parent == Some(x) then None else s.roles[c].parent
  {
  }

  /** The mode of a subsurface is the one last asked for, and sync to begin with. */
  lemma ModeExactly(s: State, x: Id, sync: bool)
    ensures var t := Step(s, SetsSync(x, sync));
      && t.surfaces == s.surfaces && t.roles.Keys == s.roles.Keys
      && forall c | c in s.roles :: t.roles[c] == if c == x then s.roles[c].(sync := sync) else s.roles[c]
  {
  }
}

/** The same links as fields of the table of surfaces. */
module AncestryObject {
  import opened Words
  import opened Ancestry

  class SurfaceLinks {
    var surfaces: set<Id>
    var roles: Links

    ghost function Model(): State
      reads this
    {
      State(surfaces, roles)
    }

    constructor ()
      ensures Model() == State({}, map[]) && Valid(Model())
    {
      surfaces, roles := {}, map[];
      new;
      assert Ranks(roles, map[]);
    }

    method CreateSurface(x: Id)
      requires Valid(Model())
      modifies this
      ensures Model() == Step(old(Model()), Creates(x)) && Valid(Model())
    {
      StepKeepsValid(Model(), Creates(x));
      surfaces := surfaces + {x};
    }

    method GetSubsurfaceRole(surface: Id, parent: Id) returns (error: Option<Error>)
      requires Valid(Model())
      modifies this
      ensures error == old(CheckSubsurface(Model(), surface, parent))
      ensures Model() == Step(old(Model()), GetsSubsurface(surface, parent)) && Valid(Model())
    {
      StepKeepsValid(Model(), GetsSubsurface(surface, parent));
      if surface !in surfaces || parent !in surfaces { return Some(BadSurface); }
      if surface == parent { return Some(BadParent); }
      var descends := IsDescendantOf(roles, surface, parent);
      if descends { return Some(BadParent); }
      if surface in roles { return Some(BadSurface); }
      roles := roles[surface := Role(Some(parent), true)];
      return None;
    }

    /** Destroys the own role first, then cuts each child loose. */
    method Destroy(x: Id)
      requires Valid(Model())
      modifies this
      ensures Model() == Step(old(Model()), SurfaceDestroyed(x)) && Valid(Model())
    {
      StepKeepsValid(Model(), SurfaceDestroyed(x));
      roles := CutChildren(roles, x);
      surfaces := surfaces - {x};
    }

    static method CutChildren(was: Links, x: Id) returns (now: Links)
      ensures now == DestroySurface(State({}, was), x).roles
    {
      now := was - {x};
      var todo := now.Keys;
      while todo != {}
        invariant CutLoose(was, now, x, todo)
        decreases |todo|
      {
        var c :| c in todo;
        todo := todo - {c};
        now := now[c := Orphaned(now[c], x)];
      }
    }
  }

  /** The links when only the children in `todo` still point at `x`. */
  ghost predicate CutLoose(was: Links, now: Links, x: Id, todo: set<Id>) {
    && now.Keys == was.Keys - {x}
    && todo <= now.Keys
    && forall c | c in now :: now[c] == if c in todo then was[c] else Orphaned(was[c], x)
  }
}
