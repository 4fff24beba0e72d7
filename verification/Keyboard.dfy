/** Who holds which key: libswc/keyboard.c, with array_remove of libswc/util.h. */
module Keyboard {
  import opened Linked
  import opened Words

  type Handler = nat

  /** The handler that passes keys on to the focused client. */
  const CLIENT: Handler := 0

  datatype Key = Key(value: uint32, serial: uint32, handler: Option<Handler>)

  /** What the handlers were told: a press one of them accepted, or the release of a key it holds. */
  datatype Note =
    | Accepted(handler: Handler, value: uint32, serial: uint32)
    | Released(handler: Handler, value: uint32, serial: uint32)

  datatype State = State(keys: seq<Key>, clientKeys: seq<uint32>, notes: seq<Note>)

  /** A handler on the list and its answer to a press. */
  datatype Offer = Offer(handler: Handler, accepts: bool)

  function RemoveAt<T>(s: seq<T>, i: nat): seq<T>
    requires i < |s|
  {
    s[..i] + s[i + 1..]
  }

  function RemoveFirst(s: seq<uint32>, v: uint32): seq<uint32> {
    if s == [] then [] else if s[0] == v then s[1..] else [s[0]] + RemoveFirst(s[1..], v)
  }

  /** Position of the held key, or the length when it is not held. */
  function IndexOf(keys: seq<Key>, v: uint32): (i: nat)
    ensures i <= |keys|
    ensures i < |keys| ==> keys[i].value == v
    ensures forall j | 0 <= j < i :: keys[j].value != v
  {
    if keys == [] || keys[0].value == v then 0 else IndexOf(keys[1..], v) + 1
  }

  /** The first handler that takes the press. */
  function Taker(offers: seq<Offer>): Option<Handler> {
    if offers == [] then None else if offers[0].accepts then Some(offers[0].handler) else Taker(offers[1..])
  }

  /** The owner is told of the release; the client handler also forgets the key. */
  function Tell(s: State, k: Key, serial: uint32): State {
    match k.handler
    case None => s
    case Some(h) =>
      s.(clientKeys := if h == CLIENT then RemoveFirst(s.clientKeys, k.value) else s.clientKeys,
         notes := s.notes + [Released(h, k.value, serial)])
  }

  function Press(s: State, v: uint32, serial: uint32, offers: seq<Offer>): State {
    if IndexOf(s.keys, v) < |s.keys| then s
    else
      var taker := Taker(offers);
      State(s.keys + [Key(v, serial, taker)],
            if taker == Some(CLIENT) then s.clientKeys + [v] else s.clientKeys,
            if taker.Some? then s.notes + [Accepted(taker.value, v, serial)] else s.notes)
  }

  function Release(s: State, v: uint32, serial: uint32): State {
    var i := IndexOf(s.keys, v);
    if i == |s.keys| then s else Tell(s, s.keys[i], serial).(keys := RemoveAt(s.keys, i))
  }

  function TellAll(s: State, keys: seq<Key>, serial: uint32): State
    decreases |keys|
  {
    if keys == [] then s
    else TellAll(Tell(s, keys[0], serial), keys[1..], if keys[0].handler.Some? then Increment(serial) else serial)
  }

  /** keyboard_reset: simulated releases to every owner, with fresh serials. */
  function Reset(s: State, serial: uint32): State {
    TellAll(s, s.keys, serial).(keys := [])
  }

  datatype Event =
    | Pressed(value: uint32, serial: uint32, offers: seq<Offer>)
    | LetGo(value: uint32, serial: uint32)
    | Resets(serial: uint32)

  function Step(s: State, e: Event): State {
    match e
    case Pressed(v, serial, offers) => Press(s, v, serial, offers)
    case LetGo(v, serial) => Release(s, v, serial)
    case Resets(serial) => Reset(s, serial)
  }

  function Run(s: State, events: seq<Event>): State
    decreases |events|
  {
    if events == [] then s else Run(Step(s, events[0]), events[1..])
  }

  // ----------------------------------------------------------- invariants

  ghost predicate Distinct(keys: seq<Key>) {
    forall i, j | 0 <= i < j < |keys| :: keys[i].value != keys[j].value
  }

  /** The values of the keys the client handler owns, in order. */
  function Owned(keys: seq<Key>): seq<uint32> {
    if keys == [] then [] else (if keys[0].handler == Some(CLIENT) then [keys[0].value] else []) + Owned(keys[1..])
  }

  /** How many keys `h` holds with value `v`. */
  function Held(keys: seq<Key>, h: Handler, v: uint32): nat {
    if keys == [] then 0
    else (if keys[0].handler == Some(h) && keys[0].value == v then 1 else 0) + Held(keys[1..], h, v)
  }

  function Count(notes: seq<Note>, accepted: bool, h: Handler, v: uint32): nat
    decreases |notes|
  {
    if notes == [] then 0
    else
      var n := notes[|notes| - 1];
      Count(notes[..|notes| - 1], accepted, h, v)
      + if n.Accepted? == accepted && n.handler == h && n.value == v then 1 else 0
  }

  /** Every accepted press that has no release yet is a key still held by that handler. */
  ghost predicate Paired(s: State, keys: seq<Key>) {
    forall h: Handler, v: uint32 :: Count(s.notes, true, h, v) == Count(s.notes, false, h, v) + Held(keys, h, v)
  }

  ghost predicate Valid(s: State) {
    Distinct(s.keys) && s.clientKeys == Owned(s.keys) && Paired(s, s.keys)
  }

  lemma {:induction false} OwnedConcat(a: seq<Key>, b: seq<Key>)
    ensures Owned(a + b) == Owned(a) + Owned(b)
  {
    if a == [] {
      assert a + b == b;
    } else {
      assert (a + b)[1..] == a[1..] + b;
      OwnedConcat(a[1..], b);
      Regroup(if a[0].handler == Some(CLIENT) then [a[0].value] else [], Owned(a[1..]), Owned(b));
    }
  }

  lemma {:induction false} HeldConcat(a: seq<Key>, b: seq<Key>, h: Handler, v: uint32)
    ensures Held(a + b, h, v) == Held(a, h, v) + Held(b, h, v)
  {
    if a == [] {
      assert a + b == b;
    } else {
      assert (a + b)[1..] == a[1..] + b;
      HeldConcat(a[1..], b, h, v);
    }
  }

  lemma {:induction false} NotOwned(keys: seq<Key>, v: uint32)
    requires forall i | 0 <= i < |keys| :: keys[i].value != v
    ensures v !in Owned(keys)
  {
    if keys != [] { NotOwned(keys[1..], v); }
  }

  lemma {:induction false} RemoveFirstAt(a: seq<uint32>, v: uint32, b: seq<uint32>)
    requires v !in a
    ensures RemoveFirst(a + [v] + b, v) == a + b
  {
    if a == [] {
      assert a + [v] + b == [v] + b;
      assert a + b == b;
    } else {
      assert (a + [v] + b)[1..] == a[1..] + [v] + b;
      RemoveFirstAt(a[1..], v, b);
      assert a + b == [a[0]] + (a[1..] + b);
    }
  }

  lemma CountMore(notes: seq<Note>, n: Note, accepted: bool, h: Handler, v: uint32)
    ensures Count(notes + [n], accepted, h, v)
         == Count(notes, accepted, h, v) + if n.Accepted? == accepted && n.handler == h && n.value == v then 1 else 0
  {
    assert (notes + [n])[..|notes|] == notes;
  }

  lemma HeldOne(k: Key, h: Handler, v: uint32)
    ensures Held([k], h, v) == if k.handler == Some(h) && k.value == v then 1 else 0
    ensures Owned([k]) == if k.handler == Some(CLIENT) then [k.value] else []
  {
    assert [k][1..] == [];
  }

  lemma PressKeepsValid(s: State, v: uint32, serial: uint32, offers: seq<Offer>)
    requires Valid(s)
    ensures Valid(Press(s, v, serial, offers))
  {
    var t := Press(s, v, serial, offers);
    if IndexOf(s.keys, v) == |s.keys| {
      var k := Key(v, serial, Taker(offers));
      OwnedConcat(s.keys, [k]);
      HeldOne(k, CLIENT, v);
      forall h: Handler, w: uint32 ensures Count(t.notes, true, h, w)
          == Count(t.notes, false, h, w) + Held(t.keys, h, w) {
        HeldConcat(s.keys, [k], h, w);
        HeldOne(k, h, w);
        if k.handler.Some? {
          CountMore(s.notes, Accepted(k.handler.value, v, serial), true, h, w);
          CountMore(s.notes, Accepted(k.handler.value, v, serial), false, h, w);
        }
      }
    }
  }

  /** Telling the owner of the key at the border of `pre` and `post` takes it out of both records. */
  lemma TellKeeps(s: State, pre: seq<Key>, k: Key, post: seq<Key>, serial: uint32)
    requires Distinct(pre + [k] + post) && s.clientKeys == Owned(pre + [k] + post) && Paired(s, pre + [k] + post)
    ensures var t := Tell(s, k, serial); t.clientKeys == Owned(pre + post) && Paired(t, pre + post)
  {
    var all, t := pre + [k] + post, Tell(s, k, serial);
    OwnedConcat(pre + [k], post);
    OwnedConcat(pre, [k]);
    OwnedConcat(pre, post);
    HeldOne(k, CLIENT, k.value);
    if k.handler == Some(CLIENT) {
      assert all[|pre|] == k && forall i | 0 <= i < |pre| :: all[i] == pre[i];
      NotOwned(pre, k.value);
      RemoveFirstAt(Owned(pre), k.value, Owned(post));
    }
    forall h: Handler, w: uint32 ensures Count(t.notes, true, h, w)
        == Count(t.notes, false, h, w) + Held(pre + post, h, w) {
      HeldConcat(pre + [k], post, h, w);
      HeldConcat(pre, [k], h, w);
      HeldConcat(pre, post, h, w);
      HeldOne(k, h, w);
      if k.handler.Some? {
        CountMore(s.notes, Released(k.handler.value, k.value, serial), true, h, w);
        CountMore(s.notes, Released(k.handler.value, k.value, serial), false, h, w);
      }
    }
  }

  lemma ReleaseKeepsValid(s: State, v: uint32, serial: uint32)
    requires Valid(s)
    ensures Valid(Release(s, v, serial))
  {
    var i := IndexOf(s.keys, v);
    if i < |s.keys| {
      assert s.keys == s.keys[..i] + [s.keys[i]] + s.keys[i + 1..];
      TellKeeps(s, s.keys[..i], s.keys[i], s.keys[i + 1..], serial);
      DistinctRemove(s.keys, i);
    }
  }

  lemma DistinctRemove(keys: seq<Key>, i: nat)
    requires Distinct(keys) && i < |keys|
    ensures Distinct(RemoveAt(keys, i))
  {
    var r := RemoveAt(keys, i);
    assert forall j | 0 <= j < |r| :: r[j] == keys[if j < i then j else j + 1];
  }

  lemma {:induction false} TellAllSettles(s: State, keys: seq<Key>, serial: uint32)
    requires Distinct(keys) && s.clientKeys == Owned(keys) && Paired(s, keys)
    ensures var t := TellAll(s, keys, serial); t.clientKeys == [] && Paired(t, [])
    decreases |keys|
  {
    if keys != [] {
      assert keys == [] + [keys[0]] + keys[1..] && [] + keys[1..] == keys[1..];
      TellKeeps(s, [], keys[0], keys[1..], serial);
      TellAllSettles(Tell(s, keys[0], serial), keys[1..], if keys[0].handler.Some? then Increment(serial) else serial);
    }
  }

  /** The assertion of keyboard_reset: telling every owner leaves no key with the client. */
  lemma ResetAssertionHolds(s: State, serial: uint32)
    requires Valid(s)
    ensures TellAll(s, s.keys, serial).clientKeys == [] && Valid(Reset(s, serial))
  {
    TellAllSettles(s, s.keys, serial);
  }

  lemma StepKeepsValid(s: State, e: Event)
    requires Valid(s)
    ensures Valid(Step(s, e))
  {
    match e
    case Pressed(v, serial, offers) => PressKeepsValid(s, v, serial, offers);
    case LetGo(v, serial) => ReleaseKeepsValid(s, v, serial);
    case Resets(serial) => ResetAssertionHolds(s, serial);
  }

  /** Over every run of presses, repeats, stray releases and resets, with handlers answering as they
      like: held values are distinct, the client's keys are exactly the held keys it owns, in order, and
      each handler has been told of a release for every press it accepted, less the keys it still holds. */
  lemma {:induction false} RunKeepsValid(s: State, events: seq<Event>)
    requires Valid(s)
    ensures Valid(Run(s, events))
    decreases |events|
  {
    if events != [] {
      StepKeepsValid(s, events[0]);
      RunKeepsValid(Step(s, events[0]), events[1..]);
    }
  }

  lemma {:induction false} HeldAtMostOnce(keys: seq<Key>, h: Handler, v: uint32)
    requires Distinct(keys)
    ensures Held(keys, h, v) <= 1
    ensures Held(keys, h, v) == 1 ==> exists i :: 0 <= i < |keys| && keys[i].value == v && keys[i].handler == Some(h)
  {
    if keys != [] {
      HeldAtMostOnce(keys[1..], h, v);
      if Held(keys[1..], h, v) == 1 {
        var i :| 0 <= i < |keys[1..]| && keys[1..][i].value == v && keys[1..][i].handler == Some(h);
        assert keys[i + 1].value == v && keys[i + 1].handler == Some(h);
      }
    }
  }

  lemma {:induction false} HeldAt(keys: seq<Key>, i: nat)
    requires i < |keys| && keys[i].handler.Some?
    ensures Held(keys, keys[i].handler.value, keys[i].value) >= 1
  {
    if i > 0 { HeldAt(keys[1..], i - 1); }
  }

  /** Presses and releases strictly alternate for each handler and key: at every point of a run a
      handler has been told of as many releases as presses, or of one fewer, and of one fewer exactly
      while it holds the key. */
  lemma PressesAlternate(events: seq<Event>, h: Handler, v: uint32)
    ensures var s := Run(State([], [], []), events);
      var pressed, released := Count(s.notes, true, h, v), Count(s.notes, false, h, v);
      && released <= pressed <= released + 1
      && (pressed == released + 1 <==>
            exists i :: 0 <= i < |s.keys| && s.keys[i].value == v && s.keys[i].handler == Some(h))
  {
    var s0 := State([], [], []);
    assert Valid(s0);
    RunKeepsValid(s0, events);
    var s := Run(s0, events);
    HeldAtMostOnce(s.keys, h, v);
    if i :| 0 <= i < |s.keys| && s.keys[i].value == v && s.keys[i].handler == Some(h) {
      HeldAt(s.keys, i);
    }
    assert Count(s.notes, true, h, v) == Count(s.notes, false, h, v) + Held(s.keys, h, v);
  }

  // ------------------------------------------------- who holds what, by history

  /** Who holds the key: nobody, a handler, or the compositor itself when no handler took the press. */
  datatype Holder = Free | By(owner: Option<Handler>)

  function HolderOf(keys: seq<Key>, v: uint32): Holder {
    if keys == [] then Free else if keys[0].value == v then By(keys[0].handler) else HolderOf(keys[1..], v)
  }

  /** The first handler on the list that accepts, if any does. */
  ghost predicate FirstToAccept(offers: seq<Offer>, taker: Option<Handler>) {
    match taker
    case None => forall i | 0 <= i < |offers| :: !offers[i].accepts
    case Some(h) =>
      exists i :: 0 <= i < |offers| && offers[i] == Offer(h, true) && forall j | 0 <= j < i :: !offers[j].accepts
  }

  lemma {:induction false} TakerIsFirst(offers: seq<Offer>)
    ensures FirstToAccept(offers, Taker(offers))
    decreases |offers|
  {
    if offers != [] && !offers[0].accepts {
      TakerIsFirst(offers[1..]);
      if Taker(offers).Some? {
        var i :| 0 <= i < |offers[1..]| && offers[1..][i] == Offer(Taker(offers).value, true)
          && forall j | 0 <= j < i :: !offers[1..][j].accepts;
        assert offers[i + 1] == Offer(Taker(offers).value, true);
        forall j | 0 <= j < i + 1 ensures !offers[j].accepts {
          if j > 0 { assert offers[j] == offers[1..][j - 1]; }
        }
      }
    }
  }

  /** A key that is down stays with who took it first; letting it go or a reset frees it. */
  ghost predicate Changes(was: Holder, e: Event, v: uint32, now: Holder) {
    match e
    case Pressed(w, _, offers) =>
      if w == v && was.Free? then now.By? && FirstToAccept(offers, now.owner) else now == was
    case LetGo(w, _) => now == if w == v then Free else was
    case Resets(_) => now == Free
  }

  lemma {:induction false} HolderConcat(a: seq<Key>, b: seq<Key>, v: uint32)
    ensures HolderOf(a + b, v) == if HolderOf(a, v).Free? then HolderOf(b, v) else HolderOf(a, v)
    decreases |a|
  {
    if a == [] {
      assert a + b == b;
    } else {
      assert (a + b)[1..] == a[1..] + b;
      HolderConcat(a[1..], b, v);
    }
  }

  lemma {:induction false} HolderFree(keys: seq<Key>, v: uint32)
    ensures HolderOf(keys, v).Free? <==> forall i | 0 <= i < |keys| :: keys[i].value != v
    decreases |keys|
  {
    if keys != [] {
      HolderFree(keys[1..], v);
      assert forall i | 0 < i < |keys| :: keys[i] == keys[1..][i - 1];
    }
  }

  lemma PressChanges(s: State, v: uint32, serial: uint32, offers: seq<Offer>, w: uint32)
    ensures Changes(HolderOf(s.keys, w), Pressed(v, serial, offers), w, HolderOf(Press(s, v, serial, offers).keys, w))
  {
    HolderFree(s.keys, v);
    TakerIsFirst(offers);
    var k := Key(v, serial, Taker(offers));
    assert [k][1..] == [];
    HolderConcat(s.keys, [k], w);
  }

  lemma ReleaseChanges(s: State, v: uint32, serial: uint32, w: uint32)
    requires Distinct(s.keys)
    ensures Changes(HolderOf(s.keys, w), LetGo(v, serial), w, HolderOf(Release(s, v, serial).keys, w))
  {
    var i := IndexOf(s.keys, v);
    HolderFree(s.keys, v);
    if i < |s.keys| {
      var a, k, b := s.keys[..i], s.keys[i], s.keys[i + 1..];
      assert s.keys == a + ([k] + b) && [k][1..] == [];
      HolderConcat(a, [k] + b, w);
      HolderConcat([k], b, w);
      HolderConcat(a, b, w);
      HolderFree(a, v);
      HolderFree(b, v);
    }
  }

  /** One event, told by who holds each key before and after. */
  lemma HolderExactly(s: State, e: Event, v: uint32)
    requires Valid(s)
    ensures Changes(HolderOf(s.keys, v), e, v, HolderOf(Step(s, e).keys, v))
  {
    match e
    case Pressed(w, serial, offers) => PressChanges(s, w, serial, offers, v);
    case LetGo(w, serial) => ReleaseChanges(s, w, serial, v);
    case Resets(_) =>
  }

  /** Who holds a key after a run is what the events say by themselves. */
  ghost predicate Told(events: seq<Event>, v: uint32, was: Holder, now: Holder)
    decreases |events|
  {
    if events == [] then now == was
    else exists mid :: Changes(was, events[0], v, mid) && Told(events[1..], v, mid, now)
  }

  lemma {:induction false} HolderByHistory(s: State, events: seq<Event>, v: uint32)
    requires Valid(s)
    ensures Told(events, v, HolderOf(s.keys, v), HolderOf(Run(s, events).keys, v))
    decreases |events|
  {
    if events != [] {
      HolderExactly(s, events[0], v);
      StepKeepsValid(s, events[0]);
      HolderByHistory(Step(s, events[0]), events[1..], v);
    }
  }

  /** What a press or a release tells: the taker of a fresh press, the owner of a released key, nobody else. */
  lemma NotesExactly(s: State, v: uint32, serial: uint32, offers: seq<Offer>)
    ensures var h := HolderOf(Step(s, Pressed(v, serial, offers)).keys, v);
      Step(s, Pressed(v, serial, offers)).notes == s.notes +
        if HolderOf(s.keys, v).Free? && h.By? && h.owner.Some? then [Accepted(h.owner.value, v, serial)] else []
    ensures var h := HolderOf(s.keys, v);
      Step(s, LetGo(v, serial)).notes == s.notes +
        if h.By? && h.owner.Some? then [Released(h.owner.value, v, serial)] else []
  {
    HolderFree(s.keys, v);
    var i := IndexOf(s.keys, v);
    if i == |s.keys| {
      var k := Key(v, serial, Taker(offers));
      assert [k][1..] == [];
      HolderConcat(s.keys, [k], v);
    } else {
      assert s.keys == s.keys[..i] + s.keys[i..];
      HolderConcat(s.keys[..i], s.keys[i..], v);
      HolderFree(s.keys[..i], v);
    }
  }

  /** The keys with an owner, in order. */
  function Taken(keys: seq<Key>): seq<Key> {
    if keys == [] then [] else (if keys[0].handler.Some? then [keys[0]] else []) + Taken(keys[1..])
  }

  /** One release for each, with serials counting on from `serial`. */
  function Releases(taken: seq<Key>, serial: uint32): seq<Note>
    requires forall k | k in taken :: k.handler.Some?
    decreases |taken|
  {
    if taken == [] then []
    else [Released(taken[0].handler.value, taken[0].value, serial)] + Releases(taken[1..], Increment(serial))
  }

  lemma {:induction false} TakenHaveOwners(keys: seq<Key>)
    ensures forall k | k in Taken(keys) :: k.handler.Some?
    decreases |keys|
  {
    if keys != [] { TakenHaveOwners(keys[1..]); }
  }

  lemma {:induction false} TellAllTells(s: State, keys: seq<Key>, serial: uint32)
    ensures forall k | k in Taken(keys) :: k.handler.Some?
    ensures TellAll(s, keys, serial).notes == s.notes + Releases(Taken(keys), serial)
    decreases |keys|
  {
    TakenHaveOwners(keys);
    if keys != [] {
      var k := keys[0];
      TellAllTells(Tell(s, k, serial), keys[1..], if k.handler.Some? then Increment(serial) else serial);
      if k.handler.Some? {
        assert Taken(keys)[1..] == Taken(keys[1..]);
        Regroup(s.notes, [Released(k.handler.value, k.value, serial)], Releases(Taken(keys[1..]), Increment(serial)));
      } else {
        assert Taken(keys) == Taken(keys[1..]);
      }
    }
  }

  /** A reset releases every key that has an owner, in order, to that owner, each with a serial of its own, and no
      key is left. */
  lemma ResetExactly(s: State, serial: uint32)
    ensures forall k | k in Taken(s.keys) :: k.handler.Some?
    ensures var t := Step(s, Resets(serial));
      t.keys == [] && t.notes == s.notes + Releases(Taken(s.keys), serial)
  {
    TellAllTells(s, s.keys, serial);
  }
}

module KeyboardObject {
  import opened Words
  import opened Keyboard

  /** array_remove: closes the gap by moving the tail down. */
  method ArrayRemove<T>(data: array<T>, size: nat, item: nat) returns (newSize: nat)
    requires item < size <= data.Length
    modifies data
    ensures newSize == size - 1
    ensures data[..newSize] == old(data[..item]) + old(data[item + 1..size])
    ensures data[size..] == old(data[size..])
  {
    var i := item;
    while i + 1 < size
      invariant item <= i < size
      invariant forall k | 0 <= k < data.Length ::
        data[k] == if item <= k < i then old(data[k + 1]) else old(data[k])
    {
      data[i] := data[i + 1];
      i := i + 1;
    }
    newSize := size - 1;
  }

  class KeyboardDevice {
    var keys: seq<Key>
    var clientKeys: seq<uint32>
    /** What the handlers have been told. */
    var notes: seq<Note>

    ghost function Model(): State
      reads this
    {
      State(keys, clientKeys, notes)
    }

    constructor ()
      ensures Model() == State([], [], []) && Valid(Model())
    {
      keys, clientKeys, notes := [], [], [];
    }

    /** The release half of client_handle_key. */
    method ForgetClientKey(v: uint32)
      modifies `clientKeys
      ensures clientKeys == RemoveFirst(old(clientKeys), v)
    {
      var i := 0;
      while i < |clientKeys| && clientKeys[i] != v
        invariant i <= |clientKeys|
        invariant RemoveFirst(clientKeys, v) == clientKeys[..i] + RemoveFirst(clientKeys[i..], v)
      {
        assert clientKeys[i..][1..] == clientKeys[i + 1..];
        i := i + 1;
      }
      if i < |clientKeys| {
        assert clientKeys[i..][1..] == clientKeys[i + 1..];
        clientKeys := RemoveAt(clientKeys, i);
      } else {
        assert clientKeys[..i] + [] == clientKeys;
      }
    }

    method TellRelease(k: Key, serial: uint32)
      modifies `clientKeys, `notes
      ensures Model() == Tell(old(Model()), k, serial)
    {
      if k.handler.Some? {
        if k.handler.value == CLIENT { ForgetClientKey(k.value); }
        notes := notes + [Released(k.handler.value, k.value, serial)];
      }
    }

    method FindKey(v: uint32) returns (i: nat)
      ensures i == IndexOf(keys, v)
    {
      i := 0;
      while i < |keys| && keys[i].value != v
        invariant i <= |keys|
        invariant forall j | 0 <= j < i :: keys[j].value != v
      {
        i := i + 1;
      }
      FirstIs(keys, v, i);
    }

    /** keyboard_handle_key; the handlers on the list answer in turn until one accepts. */
    method HandleKey(v: uint32, pressed: bool, serial: uint32, offers: seq<Offer>)
      requires Valid(Model())
      modifies this
      ensures Model() == Step(old(Model()), if pressed then Pressed(v, serial, offers) else LetGo(v, serial))
      ensures Valid(Model())
    {
      StepKeepsValid(Model(), if pressed then Pressed(v, serial, offers) else LetGo(v, serial));
      var i := FindKey(v);
      if i < |keys| {
        if pressed { return; }
        TellRelease(keys[i], serial);
        keys := RemoveAt(keys, i);
        return;
      }
      if !pressed { return; }
      var taker := None;
      var j := 0;
      while j < |offers| && taker.None?
        invariant j <= |offers|
        invariant Taker(offers) == if taker.Some? then taker else Taker(offers[j..])
      {
        assert offers[j..][1..] == offers[j + 1..];
        if offers[j].accepts { taker := Some(offers[j].handler); }
        j := j + 1;
      }
      if taker == Some(CLIENT) { clientKeys := clientKeys + [v]; }
      if taker.Some? { notes := notes + [Accepted(taker.value, v, serial)]; }
      keys := keys + [Key(v, serial, taker)];
    }

    method ResetKeys(serial: uint32)
      requires Valid(Model())
      modifies this
      ensures Model() == Step(old(Model()), Resets(serial)) && Valid(Model())
      ensures clientKeys == []
    {
      ResetAssertionHolds(Model(), serial);
      var next := serial;
      for i := 0 to |keys|
        invariant keys == old(keys)
        invariant TellAll(Model(), keys[i..], next) == TellAll(old(Model()), keys, serial)
      {
        assert keys[i..][1..] == keys[i + 1..];
        if keys[i].handler.Some? {
          TellRelease(keys[i], next);
          next := Increment(next);
        }
      }
      assert clientKeys == [];
      keys := [];
    }
  }

  lemma {:induction false} FirstIs(keys: seq<Key>, v: uint32, i: nat)
    requires i <= |keys| && (i < |keys| ==> keys[i].value == v) && forall j | 0 <= j < i :: keys[j].value != v
    ensures IndexOf(keys, v) == i
  {
    if i > 0 {
      assert keys[0].value != v;
      FirstIs(keys[1..], v, i - 1);
    }
  }
}
