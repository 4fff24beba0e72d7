/** Input focus and the enter and leave events it sends: libswc/input.c. */
module Focus {
  import opened Linked
  import opened Words

  type Client = nat
  type View = nat

  /** A client's wl_keyboard or wl_pointer; identities are never used again. */
  datatype Resource = Resource(id: nat, client: Client)

  datatype Note = Enter(resource: Resource, view: View) | Leave(resource: Resource, view: View)

  /** `seen` is every resource ever bound; `notes` the events sent, oldest first. */
  datatype State = State(
    client: Option<Client>,
    view: Option<View>,
    active: seq<Resource>,
    inactive: seq<Resource>,
    seen: set<Resource>,
    notes: seq<Note>)

  function Of(rs: seq<Resource>, c: Client): (r: seq<Resource>)
    ensures forall x :: x in r <==> x in rs && x.client == c
  {
    if rs == [] then [] else (if rs[0].client == c then [rs[0]] else []) + Of(rs[1..], c)
  }

  function NotOf(rs: seq<Resource>, c: Client): (r: seq<Resource>)
    ensures forall x :: x in r <==> x in rs && x.client != c
  {
    if rs == [] then [] else (if rs[0].client == c then [] else [rs[0]]) + NotOf(rs[1..], c)
  }

  function Without(rs: seq<Resource>, r: Resource): (s: seq<Resource>)
    ensures forall x :: x in s <==> x in rs && x != r
  {
    if rs == [] then [] else (if rs[0] == r then [] else [rs[0]]) + Without(rs[1..], r)
  }

  function Enters(notes: seq<Note>, rs: seq<Resource>, v: View): seq<Note>
    decreases |rs|
  {
    if rs == [] then notes else Enters(notes + [Enter(rs[0], v)], rs[1..], v)
  }

  function Leaves(notes: seq<Note>, rs: seq<Resource>, v: View): seq<Note>
    decreases |rs|
  {
    if rs == [] then notes else Leaves(notes + [Leave(rs[0], v)], rs[1..], v)
  }

  /** The handlers dereference the view as soon as there is a resource to tell. */
  predicate Defined(s: State) {
    (s.active != [] ==> s.view.Some?) && (s.client.Some? ==> s.view.Some?)
  }

  function Unfocus(s: State): State
    requires Defined(s)
  {
    s.(active := [], inactive := s.active + s.inactive,
       notes := if s.active == [] then s.notes else Leaves(s.notes, s.active, s.view.value))
  }

  /** `client` is the client of the view's surface. Moving each matching resource to the head of the
      active list turns their order around. */
  function FocusOn(s: State, view: Option<View>, client: Client): State {
    if view.None? then s.(client := None, view := None)
    else
      var active := Reverse(Of(s.inactive, client)) + s.active;
      s.(client := Some(client), view := view, active := active, inactive := NotOf(s.inactive, client),
         notes := Enters(s.notes, active, view.value))
  }

  function SetFocus(s: State, view: Option<View>, client: Client): State
    requires Defined(s)
  {
    if view == s.view then s else FocusOn(Unfocus(s), view, client)
  }

  function AddResource(s: State, r: Resource): State
    requires Defined(s)
  {
    if s.client == Some(r.client) then
      s.(active := [r] + s.active, seen := s.seen + {r}, notes := s.notes + [Enter(r, s.view.value)])
    else s.(inactive := [r] + s.inactive, seen := s.seen + {r})
  }

  function RemoveResource(s: State, r: Resource): State {
    s.(active := Without(s.active, r), inactive := Without(s.inactive, r))
  }

  function ViewDestroyed(s: State, view: View): State
    requires Defined(s)
  {
    if s.view == Some(view) then Unfocus(s).(client := None, view := None) else s
  }

  datatype Event =
    | Sets(view: Option<View>)
    | Binds(resource: Resource)
    | Unbinds(resource: Resource)
    | Destroys(gone: View)

  /** `owner` is the client behind each view's surface. */
  function Step(owner: View -> Client, s: State, e: Event): State
    requires Defined(s)
  {
    match e
    case Sets(view) => SetFocus(s, view, if view.Some? then owner(view.value) else 0)
    case Binds(r) => if r in s.seen then s else AddResource(s, r)
    case Unbinds(r) => RemoveResource(s, r)
    case Destroys(gone) => ViewDestroyed(s, gone)
  }

  // --------------------------------------------------- what a resource sees

  /** The view `r` has been told it is in, after these events. */
  function Inside(notes: seq<Note>, r: Resource): Option<View>
    decreases |notes|
  {
    if notes == [] then None
    else
      var n := notes[|notes| - 1];
      if n.resource != r then Inside(notes[..|notes| - 1], r)
      else if n.Enter? then Some(n.view) else None
  }

  /** Enters and leaves alternate for `r`, and each leave names the view last entered. */
  predicate Alternates(notes: seq<Note>, r: Resource)
    decreases |notes|
  {
    notes == [] ||
    (var n, before := notes[|notes| - 1], notes[..|notes| - 1];
     && Alternates(before, r)
     && (n.resource == r ==> Inside(before, r) == if n.Enter? then None else Some(n.view)))
  }

  predicate Distinct(rs: seq<Resource>) {
    rs == [] || (rs[0] !in rs[1..] && Distinct(rs[1..]))
  }

  predicate Bound(s: State, r: Resource) {
    r in s.active || r in s.inactive
  }

  ghost predicate Valid(owner: View -> Client, s: State) {
    && Defined(s)
    && Distinct(s.active) && Distinct(s.inactive)
    && (s.client == match s.view { case None => None case Some(v) => Some(owner(v)) })
    && (forall r | r in s.active :: s.client == Some(r.client))
    && (forall r | r in s.inactive :: s.client != Some(r.client))
    && (forall r | Bound(s, r) :: r in s.seen)
    && (forall r: Resource :: Alternates(s.notes, r))
    && (forall r: Resource | r !in s.seen || Bound(s, r) :: Inside(s.notes, r) == if r in s.active then s.view
        else None)
  }

  lemma NoteMore(notes: seq<Note>, n: Note, r: Resource)
    ensures Inside(notes + [n], r) == if n.resource != r then Inside(notes, r)
        else if n.Enter? then Some(n.view) else None
    ensures Alternates(notes + [n], r) <==>
      Alternates(notes, r) && (n.resource == r ==> Inside(notes, r) == if n.Enter? then None else Some(n.view))
  {
    assert (notes + [n])[..|notes|] == notes;
  }

  lemma {:induction false} EntersTell(notes: seq<Note>, rs: seq<Resource>, v: View, r: Resource)
    requires Distinct(rs) && Alternates(notes, r) && (r in rs ==> Inside(notes, r) == None)
    ensures Alternates(Enters(notes, rs, v), r)
    ensures Inside(Enters(notes, rs, v), r) == if r in rs then Some(v) else Inside(notes, r)
    decreases |rs|
  {
    if rs != [] {
      var more := notes + [Enter(rs[0], v)];
      NoteMore(notes, Enter(rs[0], v), r);
      EntersTell(more, rs[1..], v, r);
    }
  }

  lemma {:induction false} LeavesTell(notes: seq<Note>, rs: seq<Resource>, v: View, r: Resource)
    requires Distinct(rs) && Alternates(notes, r) && (r in rs ==> Inside(notes, r) == Some(v))
    ensures Alternates(Leaves(notes, rs, v), r)
    ensures Inside(Leaves(notes, rs, v), r) == if r in rs then None else Inside(notes, r)
    decreases |rs|
  {
    if rs != [] {
      var more := notes + [Leave(rs[0], v)];
      NoteMore(notes, Leave(rs[0], v), r);
      LeavesTell(more, rs[1..], v, r);
    }
  }

  lemma DistinctCons(r: Resource, rs: seq<Resource>)
    requires Distinct(rs)
    ensures r !in rs ==> Distinct([r] + rs)
    ensures [] + rs == rs
  {
    assert ([r] + rs)[1..] == rs;
  }

  lemma {:induction false} DistinctSublists(rs: seq<Resource>, c: Client, r: Resource)
    requires Distinct(rs)
    ensures Distinct(Of(rs, c)) && Distinct(NotOf(rs, c)) && Distinct(Without(rs, r))
  {
    if rs != [] {
      DistinctSublists(rs[1..], c, r);
      DistinctCons(rs[0], Of(rs[1..], c));
      DistinctCons(rs[0], NotOf(rs[1..], c));
      DistinctCons(rs[0], Without(rs[1..], r));
    }
  }

  lemma {:induction false} DistinctConcat(a: seq<Resource>, b: seq<Resource>)
    requires Distinct(a) && Distinct(b) && forall r | r in a :: r !in b
    ensures Distinct(a + b)
  {
    if a == [] {
      assert a + b == b;
    } else {
      assert (a + b)[1..] == a[1..] + b;
      DistinctConcat(a[1..], b);
    }
  }

  lemma {:induction false} ReverseSame(rs: seq<Resource>)
    requires Distinct(rs)
    ensures Distinct(Reverse(rs)) && forall r :: r in Reverse(rs) <==> r in rs
  {
    if rs != [] {
      ReverseSame(rs[1..]);
      assert [rs[0]][1..] == [];
      DistinctConcat(Reverse(rs[1..]), [rs[0]]);
    }
  }

  /** The lists of an unfocused state: nobody is in a view. */
  ghost predicate Idle(s: State) {
    && s.active == []
    && Distinct(s.inactive)
    && (forall r | r in s.inactive :: r in s.seen)
    && (forall r: Resource :: Alternates(s.notes, r))
    && (forall r: Resource | r !in s.seen || r in s.inactive :: Inside(s.notes, r) == None)
  }

  lemma UnfocusIdles(owner: View -> Client, s: State)
    requires Valid(owner, s)
    ensures Idle(Unfocus(s))
  {
    DistinctConcat(s.active, s.inactive);
    if s.active != [] {
      forall r: Resource
        ensures Alternates(Unfocus(s).notes, r)
        ensures r !in s.seen || Bound(s, r) ==> Inside(Unfocus(s).notes, r) == None
      {
        LeavesTell(s.notes, s.active, s.view.value, r);
      }
    }
  }

  lemma FocusActivates(owner: View -> Client, s: State, view: Option<View>, client: Client)
    requires Idle(s) && (view.Some? ==> client == owner(view.value))
    ensures Valid(owner, FocusOn(s, view, client))
  {
    if view.Some? {
      var t := FocusOn(s, view, client);
      DistinctSublists(s.inactive, client, Resource(0, 0));
      ReverseSame(Of(s.inactive, client));
      assert t.active == Reverse(Of(s.inactive, client));
      forall r: Resource
        ensures Alternates(t.notes, r)
        ensures r !in s.seen || Bound(t, r) ==> Inside(t.notes, r) == if r in t.active then view else None
      {
        assert r in t.active ==> r in s.inactive;
        EntersTell(s.notes, t.active, view.value, r);
      }
    }
  }

  lemma EnterOne(notes: seq<Note>, r: Resource, v: View, q: Resource)
    requires Alternates(notes, q) && Inside(notes, r) == None
    ensures Alternates(notes + [Enter(r, v)], q)
    ensures Inside(notes + [Enter(r, v)], q) == if q == r then Some(v) else Inside(notes, q)
  {
    NoteMore(notes, Enter(r, v), q);
  }

  lemma BindActive(owner: View -> Client, s: State, r: Resource)
    requires Valid(owner, s) && r !in s.seen && s.client == Some(r.client)
    ensures Valid(owner, AddResource(s, r))
  {
    var t := AddResource(s, r);
    assert !Bound(s, r) && Inside(s.notes, r) == None;
    DistinctCons(r, s.active);
    forall q: Resource
      ensures Alternates(t.notes, q) && Inside(t.notes, q) == if q == r then s.view else Inside(s.notes, q)
    {
      EnterOne(s.notes, r, s.view.value, q);
    }
  }

  lemma BindKeepsValid(owner: View -> Client, s: State, r: Resource)
    requires Valid(owner, s) && r !in s.seen
    ensures Valid(owner, AddResource(s, r))
  {
    if s.client == Some(r.client) {
      BindActive(owner, s, r);
    } else {
      assert !Bound(s, r);
      DistinctCons(r, s.inactive);
    }
  }

  lemma UnbindKeepsValid(owner: View -> Client, s: State, r: Resource)
    requires Valid(owner, s)
    ensures Valid(owner, RemoveResource(s, r))
  {
    DistinctSublists(s.active, 0, r);
    DistinctSublists(s.inactive, 0, r);
  }

  lemma DestroyKeepsValid(owner: View -> Client, s: State, gone: View)
    requires Valid(owner, s)
    ensures Valid(owner, ViewDestroyed(s, gone))
  {
    UnfocusIdles(owner, s);
  }

  lemma StepKeepsValid(owner: View -> Client, s: State, e: Event)
    requires Valid(owner, s)
    ensures Valid(owner, Step(owner, s, e))
  {
    match e
    case Sets(view) =>
      UnfocusIdles(owner, s);
      if view != s.view { FocusActivates(owner, Unfocus(s), view, if view.Some? then owner(view.value) else 0); }
    case Binds(r) => if r !in s.seen { BindKeepsValid(owner, s, r); }
    case Unbinds(r) => UnbindKeepsValid(owner, s, r);
    case Destroys(gone) => DestroyKeepsValid(owner, s, gone);
  }

  function Run(owner: View -> Client, s: State, events: seq<Event>): State
    decreases |events|
  {
    if events == [] || !Defined(s) then s else Run(owner, Step(owner, s, events[0]), events[1..])
  }

  const INITIAL := State(None, None, [], [], {}, [])

  lemma {:induction false} RunKeepsValid(owner: View -> Client, s: State, events: seq<Event>)
    requires Valid(owner, s)
    ensures Valid(owner, Run(owner, s, events)) && Defined(Run(owner, s, events))
    decreases |events|
  {
    if events != [] {
      StepKeepsValid(owner, s, events[0]);
      RunKeepsValid(owner, Step(owner, s, events[0]), events[1..]);
    }
  }

  /** Over every run of focus changes, binds, unbinds and view destructions, each resource is told to
      enter and leave in strict alternation, every leave names the view it last entered, and it is in
      a view exactly while its client is the focused view's; no handler is ever given a missing view. */
  lemma FocusTrace(owner: View -> Client, events: seq<Event>, r: Resource)
    ensures var s := Run(owner, INITIAL, events);
      && Defined(s)
      && Alternates(s.notes, r)
      && (Bound(s, r) ==> (r in s.active <==> s.view.Some? && r.client == owner(s.view.value)))
      && (Bound(s, r) ==> Inside(s.notes, r) == if r in s.active then s.view else None)
  {
    assert Valid(owner, INITIAL);
    RunKeepsValid(owner, INITIAL, events);
  }

  // ------------------------------------------------------ focus, by history

  /** The view last given the focus, unless it has gone since. */
  function FocusedBy(events: seq<Event>, was: Option<View>): Option<View>
    decreases |events|
  {
    if events == [] then was
    else
      FocusedBy(events[1..], match events[0]
        case Sets(view) => view
        case Destroys(gone) => if was == Some(gone) then None else was
        case Binds(_) => was
        case Unbinds(_) => was)
  }

  /** Bound and not unbound since; an identity that was bound before is not bound again. */
  function BoundBy(events: seq<Event>, r: Resource, bound: bool, seen: bool): bool
    decreases |events|
  {
    if events == [] then bound
    else
      var binds := events[0] == Binds(r) && !seen;
      BoundBy(events[1..], r, if binds then true else if events[0] == Unbinds(r) then false else bound, seen || binds)
  }

  lemma UnfocusKeepsBound(s: State, r: Resource)
    requires Defined(s)
    ensures Bound(Unfocus(s), r) <==> Bound(s, r)
  {
  }

  lemma FocusKeepsBound(owner: View -> Client, s: State, view: Option<View>, r: Resource)
    requires Valid(owner, s)
    ensures Bound(SetFocus(s, view, if view.Some? then owner(view.value) else 0), r) <==> Bound(s, r)
  {
    var idle, client := Unfocus(s), if view.Some? then owner(view.value) else 0;
    UnfocusKeepsBound(s, r);
    UnfocusIdles(owner, s);
    if view != s.view && view.Some? {
      DistinctSublists(idle.inactive, client, r);
      ReverseSame(Of(idle.inactive, client));
    }
  }

  lemma StepByHistory(owner: View -> Client, s: State, e: Event, r: Resource)
    requires Valid(owner, s)
    ensures Step(owner, s, e).view == FocusedBy([e], s.view)
    ensures Bound(Step(owner, s, e), r) <==> BoundBy([e], r, Bound(s, r), r in s.seen)
    ensures r in Step(owner, s, e).seen <==> r in s.seen || e == Binds(r)
  {
    assert [e][1..] == [];
    match e
    case Sets(view) => FocusKeepsBound(owner, s, view, r);
    case Destroys(gone) => UnfocusKeepsBound(s, r);
    case Binds(q) => assert Bound(s, q) ==> q in s.seen;
    case Unbinds(_) =>
  }

  /** After any run the focus is where the requests put it, and exactly the resources bound by them are there to be
      told; with FocusTrace this settles what each of them was told last. */
  lemma {:induction false} FocusByHistory(owner: View -> Client, s: State, events: seq<Event>, r: Resource)
    requires Valid(owner, s)
    ensures Run(owner, s, events).view == FocusedBy(events, s.view)
    ensures Bound(Run(owner, s, events), r) <==> BoundBy(events, r, Bound(s, r), r in s.seen)
    decreases |events|
  {
    if events != [] {
      StepByHistory(owner, s, events[0], r);
      StepKeepsValid(owner, s, events[0]);
      assert [events[0]][1..] == [];
      FocusByHistory(owner, Step(owner, s, events[0]), events[1..], r);
    }
  }
}

module FocusObject {
  import opened Linked
  import opened Words
  import opened Focus

  class InputFocus {
    var client: Option<Client>
    var view: Option<View>
    var active: seq<Resource>
    var inactive: seq<Resource>
    ghost var seen: set<Resource>
    var notes: seq<Note>

    ghost function Model(): State
      reads this
    {
      State(client, view, active, inactive, seen, notes)
    }

    constructor ()
      ensures Model() == INITIAL
    {
      client, view, active, inactive, seen, notes := None, None, [], [], {}, [];
    }

    method SendLeave(v: View)
      modifies `notes
      ensures notes == Leaves(old(notes), active, v)
    {
      for i := 0 to |active|
        invariant Leaves(notes, active[i..], v) == Leaves(old(notes), active, v)
      {
        assert active[i..][1..] == active[i + 1..];
        notes := notes + [Leave(active[i], v)];
      }
    }

    method SendEnter(v: View)
      modifies `notes
      ensures notes == Enters(old(notes), active, v)
    {
      for i := 0 to |active|
        invariant Enters(notes, active[i..], v) == Enters(old(notes), active, v)
      {
        assert active[i..][1..] == active[i + 1..];
        notes := notes + [Enter(active[i], v)];
      }
    }

    method DropFocus()
      requires Defined(Model())
      modifies `notes, `active, `inactive
      ensures Model() == Unfocus(old(Model()))
    {
      if active != [] { SendLeave(view.value); }
      inactive := active + inactive;
      active := [];
    }

    /** Moves the client's resources over one by one, then tells them. */
    method TakeFocus(v: Option<View>, c: Client)
      modifies `client, `view, `notes, `active, `inactive
      ensures Model() == FocusOn(old(Model()), v, c)
    {
      if v.None? {
        client, view := None, None;
        return;
      }
      MoveResources(c);
      client, view := Some(c), v;
      SendEnter(v.value);
    }

    method MoveResources(c: Client)
      modifies `active, `inactive
      ensures active == Reverse(Of(old(inactive), c)) + old(active)
      ensures inactive == NotOf(old(inactive), c)
    {
      var left, taken := Split(inactive, c);
      active := taken + active;
      inactive := left;
    }

    /** The client's resources, each put in front of those before it, and the others as they were. */
    static method Split(rs: seq<Resource>, c: Client) returns (left: seq<Resource>, taken: seq<Resource>)
      ensures taken == Reverse(Of(rs, c)) && left == NotOf(rs, c)
    {
      left, taken := [], [];
      for i := 0 to |rs|
        invariant taken == Reverse(Of(rs[..i], c))
        invariant left == NotOf(rs[..i], c)
      {
        OneMore(rs, i, c);
        if rs[i].client == c {
          taken := [rs[i]] + taken;
        } else {
          left := left + [rs[i]];
        }
      }
      assert rs[..|rs|] == rs;
    }

    method SetFocusTo(owner: View -> Client, v: Option<View>)
      requires Valid(owner, Model())
      modifies this
      ensures Model() == Step(owner, old(Model()), Sets(v)) && Valid(owner, Model())
    {
      StepKeepsValid(owner, Model(), Sets(v));
      if v == view { return; }
      DropFocus();
      TakeFocus(v, if v.Some? then owner(v.value) else 0);
    }

    method Bind(owner: View -> Client, r: Resource)
      requires Valid(owner, Model()) && r !in seen
      modifies this
      ensures Model() == Step(owner, old(Model()), Binds(r)) && Valid(owner, Model())
    {
      StepKeepsValid(owner, Model(), Binds(r));
      if client == Some(r.client) {
        notes := notes + [Enter(r, view.value)];
        active := [r] + active;
      } else {
        inactive := [r] + inactive;
      }
      seen := seen + {r};
    }

    method HandleViewDestroy(owner: View -> Client, v: View)
      requires Valid(owner, Model())
      modifies this
      ensures Model() == Step(owner, old(Model()), Destroys(v)) && Valid(owner, Model())
    {
      StepKeepsValid(owner, Model(), Destroys(v));
      if view == Some(v) {
        DropFocus();
        client, view := None, None;
      }
    }
  }

  lemma {:induction false} OfSnoc(rs: seq<Resource>, r: Resource, c: Client)
    ensures Of(rs + [r], c) == Of(rs, c) + if r.client == c then [r] else []
  {
    if rs == [] {
      assert rs + [r] == [r] && [r][1..] == [];
    } else {
      assert (rs + [r])[1..] == rs[1..] + [r];
      OfSnoc(rs[1..], r, c);
      Regroup(if rs[0].client == c then [rs[0]] else [], Of(rs[1..], c), if r.client == c then [r] else []);
    }
  }

  lemma {:induction false} NotOfSnoc(rs: seq<Resource>, r: Resource, c: Client)
    ensures NotOf(rs + [r], c) == NotOf(rs, c) + if r.client == c then [] else [r]
  {
    if rs == [] {
      assert rs + [r] == [r] && [r][1..] == [];
    } else {
      assert (rs + [r])[1..] == rs[1..] + [r];
      NotOfSnoc(rs[1..], r, c);
      Regroup(if rs[0].client == c then [] else [rs[0]], NotOf(rs[1..], c), if r.client == c then [] else [r]);
    }
  }

  lemma OneMore(rs: seq<Resource>, i: nat, c: Client)
    requires i < |rs|
    ensures Reverse(Of(rs[..i + 1], c))
         == if rs[i].client == c then [rs[i]] + Reverse(Of(rs[..i], c)) else Reverse(Of(rs[..i], c))
    ensures NotOf(rs[..i + 1], c) == if rs[i].client == c then NotOf(rs[..i], c) else NotOf(rs[..i], c) + [rs[i]]
  {
    assert rs[..i + 1] == rs[..i] + [rs[i]];
    AfterOne(rs[..i], rs[i], c);
  }

  lemma AfterOne(rs: seq<Resource>, r: Resource, c: Client)
    ensures Reverse(Of(rs + [r], c)) == if r.client == c then [r] + Reverse(Of(rs, c)) else Reverse(Of(rs, c))
    ensures NotOf(rs + [r], c) == if r.client == c then NotOf(rs, c) else NotOf(rs, c) + [r]
  {
    OfSnoc(rs, r, c);
    NotOfSnoc(rs, r, c);
    if r.client == c {
      ReverseSnoc(Of(rs, c), r);
      assert NotOf(rs, c) + [] == NotOf(rs, c);
    } else {
      assert Of(rs, c) + [] == Of(rs, c);
    }
  }
}
