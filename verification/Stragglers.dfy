/** Windows that do not answer in time, and runs from the initial state that reach the cases the other
    modules prove about: libswc/window.c. */
module Stragglers {
  import opened Words
  import opened Cohort
  import B = Barrier

  lemma InitialInv()
    ensures Inv(INITIAL) && NoOrphanHold(INITIAL)
  {
  }

  /** The invariant holds after every run from the start. */
  lemma EveryRun(events: seq<Event>)
    ensures Inv(Run(INITIAL, events))
  {
    InitialInv();
    RunKeepsInv(INITIAL, events);
  }

  lemma RunMore(s: State, e: Event, rest: seq<Event>)
    ensures Run(s, [e] + rest) == Run(Step(s, e), rest)
  {
    assert ([e] + rest)[1..] == rest;
  }

  // ------------------------------------------------- superseded serials

  /** Window `id` is enrolled and owes the barrier an acknowledgement of `serial`. */
  ghost predicate Waits(s: State, id: WindowId, serial: uint32) {
    && Inv(s) && Live(s, id) && s.windows[id].enrolled && s.barrier.Some?
    && B.Standing(s.barrier.value.participants, id) == Some(B.Participant(id, serial, false))
  }

  /** By how many configures the window is ahead of the serial it was enrolled with, modulo 2^32. */
  function Lead(w: Window, serial: uint32): nat {
    (w.configure.serial as int - serial as int) % 0x1_0000_0000
  }

  /** It was configured again since it was enrolled. */
  ghost predicate Superseded(s: State, id: WindowId, serial: uint32) {
    Waits(s, id, serial) && s.windows[id].configure.serial != serial
  }

  lemma LeadMore(w: Window, serial: uint32)
    requires Lead(w, serial) + 1 < 0x1_0000_0000
    ensures Lead(w.(configure := w.configure.(serial := Increment(w.configure.serial))), serial) == Lead(w, serial) + 1
    ensures w.configure.serial != serial <==> Lead(w, serial) > 0
  {
  }

  /** No barrier event but the timer, a commit without one, a withdrawal or the right acknowledgement
      takes an outstanding participant away or completes the barrier. */
  lemma BarrierWaits(b: B.State, e: B.Event, id: WindowId, serial: uint32)
    requires B.Inv(b) && !b.complete && B.Standing(b.participants, id) == Some(B.Participant(id, serial, false))
    requires !e.Expiring? && e != B.Committing(false) && e != B.Removing(id) && e != B.Acking(id, serial)
    ensures var c := B.Step(b, e);
      B.Inv(c) && !c.complete && B.Standing(c.participants, id) == Some(B.Participant(id, serial, false))
  {
    B.StepKeepsInv(b, e);
    B.StepStanding(b, e, id);
    B.StepCompletes(b, e);
    var ps := B.Step(b, e).participants;
    assert !ps[B.IndexOf(ps, id)].acked;
  }

  /** An event that cannot settle the cohort past a window that does not answer. */
  predicate Quiet(e: Event, id: WindowId) {
    !e.Expiring? && !(e.Committing? && !e.timerOk) && e != Finalizing(id)
  }

  function Resizes(events: seq<Event>, id: WindowId): nat {
    if events == [] then 0
    else (if events[0].Resizing? && events[0].id == id then 1 else 0) + Resizes(events[1..], id)
  }

  /** What a step does to a waiting window's own record and to the barrier. */
  ghost predicate StillWaits(s: State, t: State, id: WindowId, serial: uint32) {
    && id in s.windows && id in t.windows
    && t.windows[id].alive && t.windows[id].enrolled && t.barrier.Some?
    && B.Standing(t.barrier.value.participants, id) == Some(B.Participant(id, serial, false))
    && t.windows[id].configure.serial == s.windows[id].configure.serial
  }

  lemma AckWaits(s: State, who: WindowId, id: WindowId, serial: uint32)
    requires Superseded(s, id, serial) && Live(s, who)
    ensures StillWaits(s, AckConfigure(s, who), id, serial)
  {
    BarrierWaits(s.barrier.value, B.Acking(who, s.windows[who].configure.serial), id, serial);
  }

  lemma JoinWaits(s: State, who: WindowId, awaitingAck: bool, id: WindowId, serial: uint32)
    requires Waits(s, id, serial) && who in s.windows
    ensures StillWaits(s, Join(s, who, awaitingAck), id, serial)
  {
    var b, w := s.barrier.value, s.windows[who];
    if B.Accepts(b, who) && who != id {
      BarrierWaits(b, B.Adding(who, w.configure.serial), id, serial);
      var c := B.Add(b, who, w.configure.serial);
      BarrierWaits(c, B.Acking(who, w.configure.serial), id, serial);
    }
  }

  lemma MoveWaits(s: State, who: WindowId, x: int, y: int, id: WindowId, serial: uint32)
    requires Waits(s, id, serial) && Live(s, who)
    ensures StillWaits(s, SetPosition(s, who, x, y), id, serial)
  {
    var w := RequestMove(s.windows[who], x, y);
    assert WindowInv(s, who);
    TouchKeepsInv(s, who, w);
    JoinWaits(s.(windows := s.windows[who := w]), who, w.configure.pending && !w.configure.acknowledged, id, serial);
  }

  lemma ResizeWaits(s: State, who: WindowId, width: nat, height: nat, id: WindowId, serial: uint32)
    requires Waits(s, id, serial) && Live(s, who)
    ensures who != id ==> StillWaits(s, SetSize(s, who, width, height), id, serial)
    ensures who == id ==>
      var t := SetSize(s, id, width, height);
      && id in t.windows && t.windows[id].alive && t.windows[id].enrolled && t.barrier == s.barrier
      && t.windows[id].configure.serial ==
         if SameSize(s.windows[id], width, height) then s.windows[id].configure.serial
         else Increment(s.windows[id].configure.serial)
  {
    if !SameSize(s.windows[who], width, height) {
      var w := ConfigureWindow(s.windows[who], width, height);
      assert WindowInv(s, who);
      if who != id {
        TouchKeepsInv(s, who, w);
        JoinWaits(s.(windows := s.windows[who := w]), who, !w.configure.acknowledged, id, serial);
      }
    }
  }

  lemma FinalizeWaits(s: State, who: WindowId, id: WindowId, serial: uint32)
    requires Waits(s, id, serial) && Live(s, who) && who != id
    ensures StillWaits(s, Finalize(s, who), id, serial)
  {
    if s.windows[who].enrolled {
      BarrierWaits(s.barrier.value, B.Removing(who), id, serial);
    }
  }

  lemma CommitWaits(s: State, callback: bool, id: WindowId, serial: uint32)
    requires Waits(s, id, serial)
    ensures StillWaits(s, Commit(s, true, callback), id, serial)
  {
    BarrierWaits(s.barrier.value, B.Committing(true), id, serial);
  }

  lemma PresentWaits(s: State, id: WindowId, serial: uint32)
    requires Waits(s, id, serial)
    ensures StillWaits(s, Present(s), id, serial)
  {
    assert s.parked == [];
  }

  lemma SurfaceWaits(s: State, who: WindowId, attach: bool, buffer: Buffer, id: WindowId, serial: uint32)
    requires Waits(s, id, serial)
    ensures StillWaits(s, Step(s, ClientCommit(who, attach, buffer)), id, serial)
  {
    assert WindowInv(s, id);
  }

  lemma StepStillWaits(s: State, e: Event, id: WindowId, serial: uint32)
    requires Superseded(s, id, serial) && Quiet(e, id)
    requires !(e.Resizing? && e.id == id)
    ensures StillWaits(s, Step(s, e), id, serial)
  {
    match e
    case Acking(who) => if Live(s, who) { AckWaits(s, who, id, serial); }
    case Moving(who, x, y) => if Live(s, who) { MoveWaits(s, who, x, y, id, serial); }
    case Resizing(who, width, height) => if Live(s, who) { ResizeWaits(s, who, width, height, id, serial); }
    case Finalizing(who) => if Live(s, who) { FinalizeWaits(s, who, id, serial); }
    case Committing(_, callback) => CommitWaits(s, callback, id, serial);
    case Presenting => PresentWaits(s, id, serial);
    case ClientCommit(who, attach, buffer) => SurfaceWaits(s, who, attach, buffer, id, serial);
    case Beginning =>
    case Creating(_, _) =>
    case Stacking(_) =>
    case Tiling(_) =>
  }

  lemma StepStaysSuperseded(s: State, e: Event, id: WindowId, serial: uint32)
    requires Superseded(s, id, serial) && Quiet(e, id)
    requires Lead(s.windows[id], serial) + Resizes([e], id) < 0x1_0000_0000
    ensures Superseded(Step(s, e), id, serial)
    ensures Lead(Step(s, e).windows[id], serial) <= Lead(s.windows[id], serial) + Resizes([e], id)
  {
    StepKeepsInv(s, e);
    assert [e][1..] == [];
    if e.Resizing? && e.id == id {
      ResizeWaits(s, id, e.width, e.height, id, serial);
      LeadMore(s.windows[id], serial);
    } else {
      StepStillWaits(s, e, id, serial);
    }
  }

  /** A window resized again within its cohort cannot settle it. Whatever else happens, acknowledgements
      of any serial included, it stays enrolled and outstanding and the barrier incomplete, until the
      timer runs out, a commit cannot get one, or the window is destroyed; as long as its serial has not
      gone all the way round. */
  lemma {:induction false} OnlyTimeoutSettles(s: State, events: seq<Event>, id: WindowId, serial: uint32)
    requires Superseded(s, id, serial)
    requires forall e | e in events :: Quiet(e, id)
    requires Lead(s.windows[id], serial) + Resizes(events, id) < 0x1_0000_0000
    ensures Superseded(Run(s, events), id, serial) && !Run(s, events).barrier.value.complete
    decreases |events|
  {
    if events != [] {
      var e := events[0];
      assert Quiet(e, id) && [e][1..] == [] && Resizes(events, id) == Resizes([e], id) + Resizes(events[1..], id);
      StepStaysSuperseded(s, e, id, serial);
      OnlyTimeoutSettles(Step(s, e), events[1..], id, serial);
    }
  }

  /** A waiting window comes to be superseded by the next resize that asks for something new. */
  lemma SecondResizeSupersedes(s: State, id: WindowId, width: nat, height: nat)
    requires Live(s, id) && Waits(s, id, s.windows[id].configure.serial) && !SameSize(s.windows[id], width, height)
    ensures Superseded(Step(s, Resizing(id, width, height)), id, s.windows[id].configure.serial)
  {
    StepKeepsInv(s, Resizing(id, width, height));
    ResizeWaits(s, id, width, height, id, s.windows[id].configure.serial);
  }

  /** Settled as far as one window is concerned: acknowledged, or parked as having answered. */
  ghost predicate Answered(s: State, id: WindowId) {
    if s.barrier.Some? then Acked(s.barrier.value, id) else id in s.windows && s.windows[id].responded
  }

  /** The next acknowledgement settles a waiting window exactly when it has not been configured again. */
  lemma AckAnswersExactly(s: State, id: WindowId, serial: uint32)
    requires Waits(s, id, serial)
    ensures Answered(Step(s, Acking(id)), id) <==> s.windows[id].configure.serial == serial
  {
    var b := s.barrier.value;
    if s.windows[id].configure.serial == serial {
      B.AckStanding(b, id, serial, id);
      StepKeepsInv(s, Acking(id));
      assert Acked(B.Ack(b, id, serial), id);
      assert WindowInv(s, id);
    } else {
      AckWaits(s, id, id, serial);
    }
  }

  /** A resize that asks an xdg window for something new enrols it as waiting for that serial. */
  lemma ResizeEnrols(s: State, id: WindowId, width: nat, height: nat)
    requires Inv(s) && Live(s, id) && !s.windows[id].enrolled && !s.windows[id].syncShell
    requires s.barrier.Some? && !s.barrier.value.committed && !SameSize(s.windows[id], width, height)
    ensures var t := Step(s, Resizing(id, width, height));
      Live(t, id) && Waits(t, id, t.windows[id].configure.serial)
  {
    StepKeepsInv(s, Resizing(id, width, height));
    assert WindowInv(s, id) && !B.Has(s.barrier.value.participants, id);
    B.StepStanding(s.barrier.value, B.Adding(id, Increment(s.windows[id].configure.serial)), id);
  }

  /** A run that gets there: a tiled window is resized twice in one cohort. */
  lemma ResizedTwice(id: WindowId)
    ensures var events := [Creating(id, false), Tiling(id), Beginning, Resizing(id, 10, 10), Resizing(id, 20, 20)];
      Superseded(Run(INITIAL, events), id, 1)
  {
    InitialInv();
    var a := Step(Step(INITIAL, Creating(id, false)), Tiling(id));
    StepKeepsInv(INITIAL, Creating(id, false));
    StepKeepsInv(Step(INITIAL, Creating(id, false)), Tiling(id));
    StepKeepsInv(a, Beginning);
    var b := Step(a, Beginning);
    ResizeEnrols(b, id, 10, 10);
    var c := Step(b, Resizing(id, 10, 10));
    ResizedOnce(b, id);
    SecondResizeSupersedes(c, id, 20, 20);
    RunFive(INITIAL, Creating(id, false), Tiling(id), Beginning, Resizing(id, 10, 10), Resizing(id, 20, 20));
  }

  lemma ResizedOnce(s: State, id: WindowId)
    requires Live(s, id) && s.windows[id].tiled && !SameSize(s.windows[id], 10, 10)
    ensures var t := Step(s, Resizing(id, 10, 10));
      && id in t.windows
      && t.windows[id].configure.serial == Increment(s.windows[id].configure.serial)
      && !SameSize(t.windows[id], 20, 20)
  {
  }

  lemma RunFive(s: State, a: Event, b: Event, c: Event, d: Event, e: Event)
    ensures Run(s, [a, b, c, d, e]) == Step(Step(Step(Step(Step(s, a), b), c), d), e)
  {
    assert [a, b, c, d, e] == [a] + ([b] + ([c] + ([d] + ([e] + []))));
    RunMore(s, a, [b] + ([c] + ([d] + ([e] + []))));
    RunMore(Step(s, a), b, [c] + ([d] + ([e] + [])));
    RunMore(Step(Step(s, a), b), c, [d] + ([e] + []));
    RunMore(Step(Step(Step(s, a), b), c), d, [e] + []);
    RunMore(Step(Step(Step(Step(s, a), b), c), d), e, []);
  }

  // ------------------------------------------------------- parked windows

  /** What presenting leaves of a straggler's requests. A buffer attached during the hold, of whatever
      size, takes its pending configure away, and its pending move as well if it has acknowledged by now. */
  lemma StragglerKeepsExactly(w: Window)
    requires w.alive && !w.enrolled && !w.responded && w.surface.hold.held
    ensures PresentWindow(w).configure.pending <==> w.configure.pending && !w.surface.hold.attach
    ensures PresentWindow(w).move.pending <==> w.move.pending && !(w.surface.hold.attach && w.configure.acknowledged)
  {
  }

  /** A state with one tiled window, alone in an open cohort that nobody has joined yet. */
  function OneOpen(id: WindowId): State {
    INITIAL.(windows := map[id := NewWindow(false).(tiled := true)], barrier := Some(B.INITIAL))
  }

  lemma OpenedOne(id: WindowId)
    ensures Step(Step(Step(INITIAL, Creating(id, false)), Tiling(id)), Beginning) == OneOpen(id)
  {
  }

  lemma OpenedInv(id: WindowId)
    ensures Inv(OneOpen(id)) && Live(OneOpen(id), id)
  {
    EveryRun([Creating(id, false), Tiling(id), Beginning]);
    RunMore(INITIAL, Creating(id, false), [Tiling(id)] + ([Beginning] + []));
    RunMore(Step(INITIAL, Creating(id, false)), Tiling(id), [Beginning] + []);
    RunMore(Step(Step(INITIAL, Creating(id, false)), Tiling(id)), Beginning, []);
    assert [Creating(id, false), Tiling(id), Beginning] == [Creating(id, false)] + ([Tiling(id)] + ([Beginning] + []));
    OpenedOne(id);
  }

  lemma MovedOne(id: WindowId)
    ensures var s := Step(OneOpen(id), Moving(id, 5, 5));
      && s.enrolled == [id] && s.parked == [] && s.windows.Keys == {id} && s.windows[id].alive
      && s.barrier.Some? && !s.barrier.value.committed && !s.barrier.value.complete && s.barrier.value.pending == 0
      && s.barrier.value.completions == []
  {
    assert B.Add(B.INITIAL, id, 0).participants == [B.Participant(id, 0, false)];
  }

  lemma CommittedOne(s: State, id: WindowId)
    requires s.enrolled == [id] && s.parked == [] && s.windows.Keys == {id} && s.windows[id].alive
    requires s.barrier.Some? && !s.barrier.value.committed && !s.barrier.value.complete && s.barrier.value.pending == 0
    requires s.barrier.value.completions == []
    ensures var t := Step(s, Committing(true, false)); id in t.parked && Live(t, id) && NoOrphanHold(t)
  {
    ReversedMembers([id], id);
  }

  /** A run that parks a window, and what finalizing it then leaves. */
  lemma ParkedAndFinalized(id: WindowId)
    ensures var s := Run(INITIAL, [Creating(id, false), Tiling(id), Beginning, Moving(id, 5, 5), Committing(true,
        false)]);
      && Inv(s) && Live(s, id) && id in s.parked
      && NoOrphanHold(s) && !NoOrphanHold(Step(s, Finalizing(id)))
  {
    EveryRun([Creating(id, false), Tiling(id), Beginning, Moving(id, 5, 5), Committing(true, false)]);
    RunFive(INITIAL, Creating(id, false), Tiling(id), Beginning, Moving(id, 5, 5), Committing(true, false));
    OpenedOne(id);
    MovedOne(id);
    CommittedOne(Step(OneOpen(id), Moving(id, 5, 5)), id);
    FinalizeOrphansExactly(Step(Step(OneOpen(id), Moving(id, 5, 5)), Committing(true, false)), id);
  }
}
