/** The acknowledgement barrier of libswc/transaction.c.

    `finish` is the last thing every caller does, and it marks the barrier
    complete before it runs the handler. What the handler itself does to the
    barrier (acknowledge, withdraw, commit again) is therefore the same as the
    next events of the history, so a history covers re-entrant calls as well. */
module Barrier {
  import opened Words

  type Key = int

  datatype Participant = Participant(key: Key, serial: uint32, acked: bool)

  datatype Timer = NoTimer | Armed | Disarmed

  /** `completions` records each run of the handler, by its `timed_out` argument. */
  datatype State = State(
    participants: seq<Participant>,
    size: int,
    pending: int,
    committed: bool,
    complete: bool,
    timer: Timer,
    completions: seq<bool>)

  const INITIAL := State([], 0, 0, false, false, NoTimer, [])

  function IndexOf(ps: seq<Participant>, key: Key): (i: nat)
    ensures i <= |ps|
    ensures i < |ps| ==> ps[i].key == key
    ensures forall j | 0 <= j < i :: ps[j].key != key
  {
    if ps == [] || ps[0].key == key then 0 else 1 + IndexOf(ps[1..], key)
  }

  predicate Has(ps: seq<Participant>, key: Key) {
    IndexOf(ps, key) < |ps|
  }

  function Entry(ps: seq<Participant>, key: Key): Participant
    requires Has(ps, key)
  {
    ps[IndexOf(ps, key)]
  }

  function Finish(s: State, timedOut: bool): State {
    if s.complete then s
    else s.(complete := true,
            timer := if s.timer.NoTimer? then NoTimer else Disarmed,
            completions := s.completions + [timedOut])
  }

  function Settle(s: State): State {
    if s.committed && s.pending == 0 then Finish(s, false) else s
  }

  predicate Accepts(s: State, key: Key) {
    !s.committed && !Has(s.participants, key)
  }

  function Add(s: State, key: Key, serial: uint32): State {
    if !Accepts(s, key) then s
    else s.(participants := [Participant(key, serial, false)] + s.participants,
            size := s.size + 1,
            pending := s.pending + 1)
  }

  function Remove(s: State, key: Key): State {
    var i := IndexOf(s.participants, key);
    if i == |s.participants| then s
    else Settle(s.(participants := s.participants[..i] + s.participants[i + 1..],
                   size := s.size - 1,
                   pending := if s.participants[i].acked then s.pending else s.pending - 1))
  }

  function Ack(s: State, key: Key, serial: uint32): State {
    var i := IndexOf(s.participants, key);
    if i == |s.participants| || s.participants[i].serial != serial || s.participants[i].acked then s
    else Settle(s.(participants := s.participants[i := s.participants[i].(acked := true)],
                   pending := s.pending - 1))
  }

  /** `timerOk` is whether the event loop could create the timer. */
  function Commit(s: State, timerOk: bool): State {
    if s.committed then s
    else
      var s := s.(committed := true);
      if s.pending == 0 then Finish(s, false)
      else if !timerOk then Finish(s, true)
      else s.(timer := Armed)
  }

  /** The event loop dispatches the timer only while it is armed. */
  function Expire(s: State): State {
    if s.timer.Armed? then Finish(s, true) else s
  }

  datatype Event =
    | Adding(key: Key, serial: uint32)
    | Removing(key: Key)
    | Acking(key: Key, serial: uint32)
    | Committing(timerOk: bool)
    | Expiring

  function Step(s: State, e: Event): State {
    match e
    case Adding(key, serial) => Add(s, key, serial)
    case Removing(key) => Remove(s, key)
    case Acking(key, serial) => Ack(s, key, serial)
    case Committing(timerOk) => Commit(s, timerOk)
    case Expiring => Expire(s)
  }

  function Run(history: seq<Event>): State {
    if history == [] then INITIAL
    else Step(Run(history[..|history| - 1]), history[|history| - 1])
  }

  // ------------------------------------------------------------ invariant

  function Unacked(ps: seq<Participant>): (n: nat)
    ensures n == 0 <==> forall i | 0 <= i < |ps| :: ps[i].acked
  {
    if ps == [] then 0 else (if ps[0].acked then 0 else 1) + Unacked(ps[1..])
  }

  ghost predicate UniqueKeys(ps: seq<Participant>) {
    forall i, j | 0 <= i < j < |ps| :: ps[i].key != ps[j].key
  }

  ghost predicate Inv(s: State) {
    && UniqueKeys(s.participants)
    && s.size == |s.participants|
    && s.pending == Unacked(s.participants)
    && |s.completions| == (if s.complete then 1 else 0)
    && (s.complete ==> s.committed)
    && (s.committed && !s.complete ==> s.pending > 0)
    && (s.timer.Armed? <==> s.committed && !s.complete)
  }

  lemma {:induction false} UnackedSplit(ps: seq<Participant>, i: nat)
    requires i < |ps|
    ensures Unacked(ps) == Unacked(ps[..i]) + (if ps[i].acked then 0 else 1) + Unacked(ps[i + 1..])
  {
    if i == 0 {
      assert ps[..0] == [];
    } else {
      UnackedSplit(ps[1..], i - 1);
      assert ps[..i][1..] == ps[1..][..i - 1];
      assert ps[1..][i..] == ps[i + 1..];
    }
  }

  lemma {:induction false} UnackedConcat(a: seq<Participant>, b: seq<Participant>)
    ensures Unacked(a + b) == Unacked(a) + Unacked(b)
  {
    if a == [] {
      assert a + b == b;
    } else {
      UnackedConcat(a[1..], b);
      assert (a + b)[1..] == a[1..] + b;
    }
  }

  lemma AddKeepsInv(s: State, key: Key, serial: uint32)
    requires Inv(s)
    ensures Inv(Add(s, key, serial))
  {
    assert ([Participant(key, serial, false)] + s.participants)[1..] == s.participants;
  }

  lemma Without(ps: seq<Participant>, i: nat)
    requires UniqueKeys(ps) && i < |ps|
    ensures UniqueKeys(ps[..i] + ps[i + 1..])
    ensures Unacked(ps) == Unacked(ps[..i] + ps[i + 1..]) + (if ps[i].acked then 0 else 1)
  {
    UnackedSplit(ps, i);
    UnackedConcat(ps[..i], ps[i + 1..]);
  }

  lemma RemoveKeepsInv(s: State, key: Key)
    requires Inv(s)
    ensures Inv(Remove(s, key))
  {
    var i := IndexOf(s.participants, key);
    if i < |s.participants| {
      Without(s.participants, i);
    }
  }

  lemma Acknowledged(ps: seq<Participant>, i: nat)
    requires UniqueKeys(ps) && i < |ps| && !ps[i].acked
    ensures UniqueKeys(ps[i := ps[i].(acked := true)])
    ensures Unacked(ps) == Unacked(ps[i := ps[i].(acked := true)]) + 1
  {
    var qs := ps[i := ps[i].(acked := true)];
    UnackedSplit(ps, i);
    UnackedSplit(qs, i);
    assert qs[..i] == ps[..i] && qs[i + 1..] == ps[i + 1..];
  }

  lemma AckKeepsInv(s: State, key: Key, serial: uint32)
    requires Inv(s)
    ensures Inv(Ack(s, key, serial))
  {
    var i := IndexOf(s.participants, key);
    if i < |s.participants| && !s.participants[i].acked {
      Acknowledged(s.participants, i);
    }
  }

  lemma StepKeepsInv(s: State, e: Event)
    requires Inv(s)
    ensures Inv(Step(s, e))
  {
    match e
    case Adding(key, serial) => AddKeepsInv(s, key, serial);
    case Removing(key) => RemoveKeepsInv(s, key);
    case Acking(key, serial) => AckKeepsInv(s, key, serial);
    case Committing(_) =>
    case Expiring =>
  }

  /** On every history: keys are unique, the counters are exact, the handler has run at most once
      and never before the commit, and a barrier still waiting has both somebody to wait for and a
      timer that will end the wait. */
  lemma {:induction false} RunInv(history: seq<Event>)
    ensures Inv(Run(history))
  {
    if history != [] {
      RunInv(history[..|history| - 1]);
      StepKeepsInv(Run(history[..|history| - 1]), history[|history| - 1]);
    }
  }

  // --------------------------------------- what a history says by itself

  ghost predicate CommittedIn(h: seq<Event>) {
    exists i :: 0 <= i < |h| && h[i].Committing?
  }

  /** Event `i` asks to enrol `key` in time, and nothing withdraws it afterwards. */
  ghost predicate Asks(h: seq<Event>, key: Key, i: int) {
    && 0 <= i < |h| && h[i].Adding? && h[i].key == key
    && !CommittedIn(h[..i])
    && forall j | i < j < |h| :: h[j] != Removing(key)
  }

  /** The earliest such request is the one in force; later ones are refused as duplicates. */
  ghost predicate Enrols(h: seq<Event>, key: Key, i: int) {
    Asks(h, key, i) && forall j | 0 <= j < i :: !Asks(h, key, j)
  }

  ghost predicate EnrolledIn(h: seq<Event>, key: Key) {
    exists i :: Asks(h, key, i)
  }

  ghost predicate AckedIn(h: seq<Event>, key: Key) {
    exists i, j :: Enrols(h, key, i) && i < j < |h| && h[j] == Acking(key, h[i].serial)
  }

  /** Everybody the history enrolled has answered the serial it was enrolled with. */
  ghost predicate Settled(h: seq<Event>) {
    forall key :: EnrolledIn(h, key) ==> AckedIn(h, key)
  }

  /** The first `n` events end the wait: nobody is outstanding, or the timer ran out, or the first
      commit could not get a timer. */
  ghost predicate Ends(h: seq<Event>, n: int) {
    && 0 < n <= |h|
    && CommittedIn(h[..n])
    && (|| Settled(h[..n])
        || (h[n - 1].Expiring? && CommittedIn(h[..n - 1]))
        || (h[n - 1] == Committing(false) && !CommittedIn(h[..n - 1])))
  }

  lemma CommittedSnoc(g: seq<Event>, e: Event)
    ensures CommittedIn(g + [e]) <==> CommittedIn(g) || e.Committing?
  {
    var h := g + [e];
    if CommittedIn(g) {
      var i :| 0 <= i < |g| && g[i].Committing?;
      assert h[i].Committing?;
    }
    if e.Committing? {
      assert h[|g|].Committing?;
    }
  }

  lemma {:induction false} CommittedExactly(h: seq<Event>)
    ensures Run(h).committed <==> CommittedIn(h)
  {
    if h != [] {
      var g, e := h[..|h| - 1], h[|h| - 1];
      CommittedExactly(g);
      CommittedSnoc(g, e);
      assert g + [e] == h;
    }
  }

  /** What a participant list says about one key. */
  function Standing(ps: seq<Participant>, key: Key): Option<Participant> {
    if Has(ps, key) then Some(Entry(ps, key)) else None
  }

  lemma StandingAt(ps: seq<Participant>, i: nat)
    requires UniqueKeys(ps) && i < |ps|
    ensures Standing(ps, ps[i].key) == Some(ps[i])
  {
    assert IndexOf(ps, ps[i].key) == i;
  }

  lemma StandingWithout(ps: seq<Participant>, i: nat, key: Key)
    requires UniqueKeys(ps) && i < |ps|
    ensures Standing(ps[..i] + ps[i + 1..], key) == if key == ps[i].key then None else Standing(ps, key)
  {
    var qs := ps[..i] + ps[i + 1..];
    if key != ps[i].key && Has(ps, key) {
      var j := IndexOf(ps, key);
      assert qs[if j < i then j else j - 1] == ps[j];
      StandingAt(qs, if j < i then j else j - 1);
    }
  }

  lemma StandingAcked(ps: seq<Participant>, i: nat, key: Key)
    requires UniqueKeys(ps) && i < |ps|
    ensures Standing(ps[i := ps[i].(acked := true)], key)
         == if key == ps[i].key then Some(ps[i].(acked := true)) else Standing(ps, key)
  {
    var qs := ps[i := ps[i].(acked := true)];
    if Has(ps, key) {
      StandingAt(qs, IndexOf(ps, key));
      StandingAt(ps, i);
    }
  }

  /** How one event changes what the barrier says about one key. */
  function NextStanding(was: Option<Participant>, committed: bool, e: Event, key: Key): Option<Participant> {
    match e
    case Adding(k, serial) =>
      if k == key && was.None? && !committed then Some(Participant(key, serial, false)) else was
    case Removing(k) => if k == key then None else was
    case Acking(k, serial) =>
      if k == key && was.Some? && was.value.serial == serial then Some(was.value.(acked := true)) else was
    case _ => was
  }

  lemma RemoveStanding(s: State, gone: Key, key: Key)
    requires UniqueKeys(s.participants)
    ensures Standing(Remove(s, gone).participants, key) == if gone == key then None else Standing(s.participants, key)
  {
    var i := IndexOf(s.participants, gone);
    if i < |s.participants| {
      StandingWithout(s.participants, i, key);
    }
  }

  lemma AckStanding(s: State, from: Key, serial: uint32, key: Key)
    requires UniqueKeys(s.participants)
    ensures Standing(Ack(s, from, serial).participants, key)
         == NextStanding(Standing(s.participants, key), s.committed, Acking(from, serial), key)
  {
    var ps, i := s.participants, IndexOf(s.participants, from);
    if i < |ps| {
      StandingAt(ps, i);
      if ps[i].serial == serial && !ps[i].acked {
        StandingAcked(ps, i, key);
      }
    }
  }

  lemma StepStanding(s: State, e: Event, key: Key)
    requires UniqueKeys(s.participants)
    ensures Standing(Step(s, e).participants, key)
         == NextStanding(Standing(s.participants, key), s.committed, e, key)
  {
    match e
    case Adding(k, serial) =>
      assert Accepts(s, k) ==> Add(s, k, serial).participants[1..] == s.participants;
    case Removing(k) => RemoveStanding(s, k, key);
    case Acking(k, serial) => AckStanding(s, k, serial, key);
    case Committing(_) =>
    case Expiring =>
  }

  lemma AsksSnoc(g: seq<Event>, e: Event, key: Key, i: int)
    ensures Asks(g + [e], key, i) <==>
      || (Asks(g, key, i) && e != Removing(key))
      || (i == |g| && e.Adding? && e.key == key && !CommittedIn(g))
  {
    var h := g + [e];
    if 0 <= i < |g| {
      assert h[..i] == g[..i];
      assert h[|g|] == e;
      assert forall j | i < j < |g| :: h[j] == g[j];
    } else if i == |g| {
      assert h[..i] == g;
    }
  }

  lemma EnrolsSnoc(g: seq<Event>, e: Event, key: Key, i: int)
    ensures Enrols(g + [e], key, i) <==>
      || (Enrols(g, key, i) && e != Removing(key))
      || (i == |g| && e.Adding? && e.key == key && !CommittedIn(g) && !EnrolledIn(g, key))
  {
    forall j ensures Asks(g + [e], key, j) <==>
        || (Asks(g, key, j) && e != Removing(key))
        || (j == |g| && e.Adding? && e.key == key && !CommittedIn(g))
    {
      AsksSnoc(g, e, key, j);
    }
  }

  lemma EnrolledSnoc(g: seq<Event>, e: Event, key: Key)
    ensures EnrolledIn(g + [e], key) <==>
      || (EnrolledIn(g, key) && e != Removing(key))
      || (e.Adding? && e.key == key && !CommittedIn(g))
  {
    if EnrolledIn(g, key) {
      var i :| Asks(g, key, i);
      AsksSnoc(g, e, key, i);
    }
    if EnrolledIn(g + [e], key) {
      var i :| Asks(g + [e], key, i);
      AsksSnoc(g, e, key, i);
    }
    AsksSnoc(g, e, key, |g|);
  }

  lemma AckedSnoc(g: seq<Event>, e: Event, key: Key)
    ensures AckedIn(g + [e], key) <==>
      || (AckedIn(g, key) && e != Removing(key))
      || exists i :: Enrols(g, key, i) && e == Acking(key, g[i].serial)
  {
    var h := g + [e];
    assert h[|g|] == e;
    if AckedIn(g, key) && e != Removing(key) {
      var i, j :| Enrols(g, key, i) && i < j < |g| && g[j] == Acking(key, g[i].serial);
      EnrolsSnoc(g, e, key, i);
      assert h[j] == Acking(key, h[i].serial);
    }
    if i :| Enrols(g, key, i) && e == Acking(key, g[i].serial) {
      EnrolsSnoc(g, e, key, i);
      assert h[|g|] == Acking(key, h[i].serial);
    }
    if AckedIn(h, key) {
      var i, j :| Enrols(h, key, i) && i < j < |h| && h[j] == Acking(key, h[i].serial);
      EnrolsSnoc(g, e, key, i);
    }
  }

  lemma {:induction false} EnrolledExactly(h: seq<Event>, key: Key)
    ensures Has(Run(h).participants, key) <==> EnrolledIn(h, key)
  {
    if h == [] {
      assert forall i :: !Asks(h, key, i);
    } else {
      var g, e := h[..|h| - 1], h[|h| - 1];
      assert g + [e] == h;
      EnrolledExactly(g, key);
      CommittedExactly(g);
      RunInv(g);
      StepStanding(Run(g), e, key);
      EnrolledSnoc(g, e, key);
    }
  }

  lemma {:induction false} SerialExactly(h: seq<Event>, key: Key, i: int)
    requires Enrols(h, key, i)
    ensures Has(Run(h).participants, key) && Entry(Run(h).participants, key).serial == h[i].serial
  {
    var g, e := h[..|h| - 1], h[|h| - 1];
    assert g + [e] == h;
    RunInv(g);
    StepStanding(Run(g), e, key);
    EnrolsSnoc(g, e, key, i);
    EnrolledExactly(g, key);
    CommittedExactly(g);
    if Enrols(g, key, i) && e != Removing(key) {
      SerialExactly(g, key, i);
    }
  }

  lemma EarliestRequest(h: seq<Event>, key: Key, i: int) returns (j: int)
    requires Asks(h, key, i)
    ensures Enrols(h, key, j)
    decreases i
  {
    if Enrols(h, key, i) {
      j := i;
    } else {
      j :| 0 <= j < i && Asks(h, key, j);
      j := EarliestRequest(h, key, j);
    }
  }

  lemma {:induction false} AckedExactly(h: seq<Event>, key: Key)
    requires Has(Run(h).participants, key)
    ensures Entry(Run(h).participants, key).acked <==> AckedIn(h, key)
  {
    var g, e := h[..|h| - 1], h[|h| - 1];
    assert g + [e] == h;
    RunInv(g);
    StepStanding(Run(g), e, key);
    AckedSnoc(g, e, key);
    EnrolledExactly(g, key);
    if Has(Run(g).participants, key) {
      AckedExactly(g, key);
      var i :| Asks(g, key, i);
      var j := EarliestRequest(g, key, i);
      SerialExactly(g, key, j);
    }
  }

  /** The barrier holds exactly what the history says by itself: who is enrolled, on which serial,
      and whether that serial has been acknowledged since. A stale serial never counts, a duplicate
      request never replaces the first, and a withdrawal forgets everything. */
  lemma HistoryDecides(h: seq<Event>, key: Key)
    ensures Has(Run(h).participants, key) <==> EnrolledIn(h, key)
    ensures forall i | Enrols(h, key, i) :: Entry(Run(h).participants, key).serial == h[i].serial
    ensures EnrolledIn(h, key) ==> (Entry(Run(h).participants, key).acked <==> AckedIn(h, key))
  {
    EnrolledExactly(h, key);
    forall i | Enrols(h, key, i) ensures Entry(Run(h).participants, key).serial == h[i].serial {
      SerialExactly(h, key, i);
    }
    if EnrolledIn(h, key) {
      AckedExactly(h, key);
    }
  }

  lemma SettledExactly(h: seq<Event>)
    ensures Settled(h) <==> Run(h).pending == 0
  {
    RunInv(h);
    var ps := Run(h).participants;
    if Settled(h) {
      forall i | 0 <= i < |ps| ensures ps[i].acked {
        StandingAt(ps, i);
        EnrolledExactly(h, ps[i].key);
        AckedExactly(h, ps[i].key);
      }
    } else {
      var key :| EnrolledIn(h, key) && !AckedIn(h, key);
      EnrolledExactly(h, key);
      AckedExactly(h, key);
      assert !ps[IndexOf(ps, key)].acked;
    }
  }

  lemma StepCompletes(s: State, e: Event)
    requires Inv(s)
    ensures s.complete ==> Step(s, e).complete && Step(s, e).completions == s.completions
    ensures !s.complete && Step(s, e).complete ==> Step(s, e).completions == [Step(s, e).pending != 0]
    ensures !s.complete ==>
      (Step(s, e).complete <==>
        && Step(s, e).committed
        && (Step(s, e).pending == 0 || (e.Expiring? && s.committed) || (e == Committing(false) && !s.committed)))
  {
    assert Inv(Step(s, e)) by { StepKeepsInv(s, e); }
  }

  lemma LastEventEnds(g: seq<Event>, e: Event)
    ensures Ends(g + [e], |g| + 1) <==>
      && Run(g + [e]).committed
      && (Run(g + [e]).pending == 0 || (e.Expiring? && Run(g).committed) || (e == Committing(false)
          && !Run(g).committed))
  {
    var h := g + [e];
    assert h[..|g|] == g && h[..|h|] == h && h[|h| - 1] == e;
    CommittedExactly(g);
    CommittedExactly(h);
    SettledExactly(h);
  }

  lemma EndsSnoc(g: seq<Event>, e: Event, n: int)
    requires n <= |g|
    ensures Ends(g + [e], n) <==> Ends(g, n)
  {
    var h := g + [e];
    if 0 < n {
      assert h[..n] == g[..n] && h[..n - 1] == g[..n - 1];
    }
  }

  /** The handler has run exactly when some prefix of the history ends the wait; and it was told
      `timed_out` exactly when somebody was still outstanding at the first such prefix. */
  lemma {:induction false} CompletesExactly(h: seq<Event>)
    ensures Run(h).complete <==> exists n :: Ends(h, n)
    ensures forall n | Ends(h, n) && (forall m | m < n :: !Ends(h, m)) ::
      Run(h).completions == [!Settled(h[..n])]
  {
    if h == [] {
      assert forall n :: !Ends(h, n);
    } else {
      var g, e := h[..|h| - 1], h[|h| - 1];
      assert g + [e] == h;
      CompletesExactly(g);
      RunInv(g);
      StepCompletes(Run(g), e);
      LastEventEnds(g, e);
      if Run(g).complete {
        var n :| Ends(g, n);
        EndsSnoc(g, e, n);
      }
      forall n ensures Ends(h, n) <==> Ends(g, n) || (n == |h| && Ends(h, |h|)) {
        if n <= |g| { EndsSnoc(g, e, n); }
      }
      forall n | Ends(h, n) && (forall m | m < n :: !Ends(h, m))
        ensures Run(h).completions == [!Settled(h[..n])]
      {
        if n <= |g| {
          assert h[..n] == g[..n];
          assert forall m | m < n :: !Ends(g, m);
        } else {
          assert h[..n] == h;
          SettledExactly(h);
        }
      }
    }
  }
}

/** `struct transaction` itself, updated in place; every method is the event of the same name. */
module BarrierObject {
  import opened Words
  import opened Barrier

  class Transaction {
    var participants: seq<Participant>
    var size: int
    var pending: int
    var committed: bool
    var complete: bool
    var timer: Timer
    var completions: seq<bool>

    ghost function Model(): State
      reads this
    {
      State(participants, size, pending, committed, complete, timer, completions)
    }

    constructor ()
      ensures Model() == INITIAL
    {
      participants, size, pending := [], 0, 0;
      committed, complete, timer, completions := false, false, NoTimer, [];
    }

    /** Walks the participant list; `|participants|` stands for the NULL of the source. */
    method Find(key: Key) returns (i: nat)
      ensures i == IndexOf(participants, key)
    {
      i := 0;
      while i < |participants| && participants[i].key != key
        invariant i <= |participants|
        invariant forall j | 0 <= j < i :: participants[j].key != key
      {
        i := i + 1;
      }
    }

    method Finish(timedOut: bool)
      modifies this
      ensures Model() == Barrier.Finish(old(Model()), timedOut)
    {
      if complete {
        return;
      }
      complete := true;
      if timer != NoTimer {
        timer := Disarmed;
      }
      completions := completions + [timedOut];
    }

    method Add(key: Key, serial: uint32) returns (ok: bool)
      modifies this
      ensures Model() == Barrier.Add(old(Model()), key, serial)
      ensures ok == Accepts(old(Model()), key)
    {
      var i := Find(key);
      if committed || i < |participants| {
        return false;
      }
      participants := [Participant(key, serial, false)] + participants;
      size, pending := size + 1, pending + 1;
      return true;
    }

    method Remove(key: Key)
      modifies this
      ensures Model() == Barrier.Remove(old(Model()), key)
    {
      var i := Find(key);
      if i == |participants| {
        return;
      }
      var gone := participants[i];
      participants := participants[..i] + participants[i + 1..];
      size := size - 1;
      if !gone.acked {
        pending := pending - 1;
      }
      if committed && pending == 0 {
        Finish(false);
      }
    }

    method Ack(key: Key, serial: uint32)
      modifies this
      ensures Model() == Barrier.Ack(old(Model()), key, serial)
    {
      var i := Find(key);
      if i == |participants| || participants[i].serial != serial || participants[i].acked {
        return;
      }
      participants := participants[i := participants[i].(acked := true)];
      pending := pending - 1;
      if committed && pending == 0 {
        Finish(false);
      }
    }

    method Commit(timerOk: bool)
      modifies this
      ensures Model() == Barrier.Commit(old(Model()), timerOk)
    {
      if committed {
        return;
      }
      committed := true;
      if pending == 0 {
        Finish(false);
        return;
      }
      if !timerOk {
        Finish(true);
        return;
      }
      timer := Armed;
    }

    method HandleTimeout()
      modifies this
      ensures Model() == Barrier.Expire(old(Model()))
    {
      if timer.Armed? {
        Finish(true);
      }
    }

    method Acked(key: Key) returns (acked: bool)
      ensures acked == (Has(participants, key) && Entry(participants, key).acked)
    {
      var i := Find(key);
      acked := i < |participants| && participants[i].acked;
    }
  }
}
