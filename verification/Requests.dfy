/** What every request makes of the window it is about, by the window's own record before and after, with a
    cohort open and without (libswc/window.c). */
module Requests {
  import opened Linked
  import opened Words
  import opened Cohort
  import B = Barrier

  /** Nothing but the record of one window changes. */
  ghost predicate Only(s: State, t: State, id: WindowId) {
    id in s.windows && id in t.windows && t == s.(windows := s.windows[id := t.windows[id]])
  }

  /** The window is where it was asked to be, with nothing left to do. */
  predicate AtRest(w: Window, x: int, y: int) {
    w.view.x == x && w.view.y == y && !w.move.pending
  }

  predicate Deferred(w: Window, x: int, y: int) {
    w.move.pending && w.move.x == x && w.move.y == y
  }

  /** A record with only its place and what is asked of it changed. */
  predicate SameButPlace(w: Window, v: Window) {
    v == w.(view := w.view.(x := v.view.x, y := v.view.y), move := v.move)
  }

  /** A move with no cohort open: done at once, unless a configure is pending; then the buffer that answers it
      brings it. */
  lemma MoveAlone(s: State, id: WindowId, x: int, y: int)
    requires Live(s, id) && s.barrier.None?
    ensures var t, w := Step(s, Moving(id, x, y)), s.windows[id];
      && Only(s, t, id) && SameButPlace(w, t.windows[id])
      && if !w.configure.pending || (x == w.view.x && y == w.view.y) then AtRest(t.windows[id], x, y)
         else Deferred(t.windows[id], x, y) && t.windows[id].view == w.view
  {
  }

  /** A window that comes to be enrolled: held, and its participant settled unless a reply is owed. */
  ghost predicate Enrolled(s: State, t: State, id: WindowId, owes: bool) {
    && id in t.windows && t.windows[id].enrolled && t.windows[id].surface.hold.held
    && t.enrolled == [id] + s.enrolled
    && t.barrier.Some?
    && B.Standing(t.barrier.value.participants, id)
       == Some(B.Participant(id, t.windows[id].configure.serial, !owes))
    && t.parked == s.parked && t.callbacks == s.callbacks
  }

  lemma JoinEnrols(s: State, id: WindowId, owes: bool)
    requires Inv(s) && Live(s, id) && !s.windows[id].enrolled && s.barrier.Some? && !s.barrier.value.committed
    ensures Enrolled(s, Join(s, id, owes), id, owes)
    ensures var v := Join(s, id, owes).windows[id]; v == s.windows[id].(enrolled := true, surface := v.surface)
    ensures forall other | other in s.windows && other != id :: Join(s, id, owes).windows[other] == s.windows[other]
  {
    var b, serial := s.barrier.value, s.windows[id].configure.serial;
    assert WindowInv(s, id) && !B.Has(b.participants, id);
    B.StepStanding(b, B.Adding(id, serial), id);
    B.StepKeepsInv(b, B.Adding(id, serial));
    var c := B.Add(b, id, serial);
    B.AckStanding(c, id, serial, id);
  }

  lemma TouchedInv(s: State, id: WindowId, w: Window)
    requires Inv(s) && id in s.windows && SameStanding(s.windows[id], w)
    ensures Inv(s.(windows := s.windows[id := w]))
  {
    TouchKeepsInv(s, id, w);
  }

  /** A move while a cohort is being put together: the window joins it, whether it has a configure outstanding or
      not, and owes a reply exactly when it has. */
  lemma MoveTogether(s: State, id: WindowId, x: int, y: int)
    requires Inv(s) && Live(s, id) && s.barrier.Some? && !s.barrier.value.committed
    ensures var t, w := Step(s, Moving(id, x, y)), s.windows[id];
      && id in t.windows && t.windows[id].view == w.view && t.windows[id].configure == w.configure
      && if x == w.view.x && y == w.view.y then Only(s, t, id) && AtRest(t.windows[id], x, y)
         else Deferred(t.windows[id], x, y)
              && if w.enrolled then Only(s, t, id)
                 else Enrolled(s, t, id, w.configure.pending && !w.configure.acknowledged)
  {
    var w := RequestMove(s.windows[id], x, y);
    assert WindowInv(s, id);
    TouchedInv(s, id, w);
    var u := s.(windows := s.windows[id := w]);
    if w.move.pending && !w.enrolled {
      JoinEnrols(u, id, w.configure.pending && !w.configure.acknowledged);
    }
  }

  /** A move while a committed cohort is waiting: too late for it, and deferred. */
  lemma MoveLate(s: State, id: WindowId, x: int, y: int)
    requires Live(s, id) && s.barrier.Some? && s.barrier.value.committed
    ensures var t, w := Step(s, Moving(id, x, y)), s.windows[id];
      && Only(s, t, id) && t.windows[id] == w.(move := t.windows[id].move)
      && if x == w.view.x && y == w.view.y then !t.windows[id].move.pending else Deferred(t.windows[id], x, y)
  {
  }

  /** The size a window was last asked to take, or has. */
  function AskedSize(w: Window): (nat, nat) {
    if w.configure.pending then (w.configure.width, w.configure.height) else (w.view.width, w.view.height)
  }

  /** What a configure changes of the record: a new serial that is not acknowledged yet, except by a shell that
      does so at once; a tiled window also remembers the size. */
  predicate Configured(w: Window, v: Window, width: nat, height: nat) {
    && v == w.(configure := v.configure, enrolled := v.enrolled, surface := v.surface)
    && v.configure.serial == Increment(w.configure.serial) && v.configure.acknowledged == w.syncShell
    && (w.tiled ==> v.configure.pending && AskedSize(v) == (width, height))
    && (!w.tiled ==> v.configure == w.configure.(serial := v.configure.serial, acknowledged := w.syncShell))
  }

  /** A resize: nothing for the size the window was asked for already; otherwise it is configured, and joins a
      cohort that is being put together, owing a reply unless its shell has given it. */
  lemma ResizeExactly(s: State, id: WindowId, width: nat, height: nat)
    requires Inv(s) && Live(s, id)
    ensures var t, w := Step(s, Resizing(id, width, height)), s.windows[id];
      && id in t.windows
      && (AskedSize(w) == (width, height) ==> t == s)
      && (AskedSize(w) != (width, height) ==>
            && Configured(w, t.windows[id], width, height)
            && if s.barrier.Some? && !s.barrier.value.committed && !w.enrolled then Enrolled(s, t, id, !w.syncShell)
               else Only(s, t, id))
  {
    if AskedSize(s.windows[id]) != (width, height) {
      var w := ConfigureWindow(s.windows[id], width, height);
      assert WindowInv(s, id);
      TouchedInv(s, id, w);
      var u := s.(windows := s.windows[id := w]);
      if s.barrier.Some? && !s.barrier.value.committed && !w.enrolled {
        JoinEnrols(u, id, !w.configure.acknowledged);
      }
    }
  }

  /** An acknowledgement is noted on the window, and changes nothing else of it that is not settled by it. */
  lemma AckExactly(s: State, id: WindowId)
    requires Inv(s) && Live(s, id)
    ensures var t, w := Step(s, Acking(id)), s.windows[id];
      && id in t.windows && t.windows[id].configure == w.configure.(acknowledged := true)
      && t.windows[id].view == w.view && t.windows[id].move == w.move && t.windows[id].surface == w.surface
      && (!w.enrolled ==> Only(s, t, id))
  {
    assert WindowInv(s, id);
  }

  predicate Sized(v: View) {
    match v.shown
    case NoBuffer => v.width == 0 && v.height == 0
    case Content(_, width, height) => v.width == width && v.height == height
  }

  /** A commit of a window that is not held: the buffer shows at once at its size, the configure is answered, and
      a deferred move is made if the configure has been acknowledged. */
  lemma CommitShows(s: State, id: WindowId, buffer: Buffer)
    requires Inv(s) && Live(s, id) && !s.windows[id].surface.hold.held
    ensures var t, w := Step(s, ClientCommit(id, true, buffer)), s.windows[id];
      && Only(s, t, id)
      && t.windows[id].view.shown == buffer && t.windows[id].surface.buffer == buffer && Sized(t.windows[id].view)
      && !t.windows[id].configure.pending
      && (if w.configure.acknowledged && w.move.pending then AtRest(t.windows[id], w.move.x, w.move.y)
          else t.windows[id].move == w.move
               && (t.windows[id].view.x, t.windows[id].view.y) == (w.view.x, w.view.y))
      && !t.windows[id].surface.hold.held
  {
    assert WindowInv(s, id);
  }

  /** A commit of a held one is only remembered. */
  lemma CommitWaits(s: State, id: WindowId, attach: bool, buffer: Buffer)
    requires Live(s, id) && s.windows[id].surface.hold.held
    ensures var t, w := Step(s, ClientCommit(id, attach, buffer)), s.windows[id];
      && Only(s, t, id) && t.windows[id] == w.(surface := t.windows[id].surface)
      && t.windows[id].surface.buffer == (if attach then buffer else w.surface.buffer)
      && t.windows[id].surface.hold == Hold(true, w.surface.hold.attach || attach, true)
  {
  }

  /** Floating a window makes its deferred move, unless a cohort holds it, and forgets what it was asked for. */
  lemma StackedExactly(s: State, id: WindowId)
    requires Live(s, id)
    ensures var t, w := Step(s, Stacking(id)), s.windows[id];
      && Only(s, t, id) && !t.windows[id].tiled && !t.windows[id].configure.pending
      && t.windows[id].configure.width == 0 && t.windows[id].configure.height == 0
      && t.windows[id].surface == w.surface && t.windows[id].view.shown == w.view.shown
      && t.windows[id].configure.serial == w.configure.serial
      && (if w.enrolled || !w.move.pending then t.windows[id].move == w.move && t.windows[id].view == w.view
          else AtRest(t.windows[id], w.move.x, w.move.y))
  {
  }

  /** A window that was finalized has no view: a commit of its surface only changes the surface's buffer. */
  lemma CommitOfGone(s: State, id: WindowId, attach: bool, buffer: Buffer)
    requires id in s.windows && !s.windows[id].alive
    ensures var t, w := Step(s, ClientCommit(id, attach, buffer)), s.windows[id];
      && Only(s, t, id) && t.windows[id] == w.(surface := t.windows[id].surface)
      && t.windows[id].surface == if attach then w.surface.(buffer := buffer) else w.surface
  {
  }

  /** The view handler by itself: an enrolled window's buffer changes nothing of what it was asked; for any other it
      answers the configure, and brings a deferred move if that has been acknowledged. */
  lemma HandlerExactly(w: Window)
    ensures var v := HandleAttach(w);
      if w.enrolled then v == w
      else
        && v == w.(view := v.view, move := v.move, configure := w.configure.(pending := false))
        && v.view == w.view.(x := v.view.x, y := v.view.y)
        && if w.configure.acknowledged && w.move.pending then AtRest(v, w.move.x, w.move.y)
           else v.move == w.move && v.view == w.view
  {
  }

  /** A new window is on no list, is held by nothing and has been asked nothing; it floats until it is tiled. */
  lemma CreatedExactly(s: State, id: WindowId, syncShell: bool)
    requires id !in s.windows
    ensures var t := Step(s, Creating(id, syncShell));
      && t.windows.Keys == s.windows.Keys + {id} && t == s.(windows := t.windows)
      && (forall other | other in s.windows :: t.windows[other] == s.windows[other])
      && (var w := t.windows[id];
          && w.alive && !w.tiled && w.syncShell == syncShell && !w.enrolled && !w.responded && AtRest(w, 0, 0)
          && !w.configure.pending && !w.configure.acknowledged && w.configure.serial == 0
          && w.surface == Surface(NoBuffer, UNHELD) && w.view.shown == NoBuffer && Sized(w.view))
  {
  }

  lemma TiledExactly(s: State, id: WindowId)
    requires Live(s, id)
    ensures Step(s, Tiling(id)) == s.(windows := s.windows[id := s.windows[id].(tiled := true)])
    ensures forall syncShell :: Step(s, Creating(id, syncShell)) == s
  {
  }

  // -------------------------------------------- the size of what is shown

  lemma FlushSized(w: Window)
    requires Sized(w.view)
    ensures Sized(Flush(w).view)
  {
  }

  lemma AttachSized(w: Window)
    ensures Sized(ViewAttach(w).view)
  {
  }

  lemma ReleaseSized(w: Window)
    requires Sized(w.view)
    ensures Sized(ReleaseRender(w).view)
  {
    AttachSized(w.(surface := w.surface.(hold := UNHELD)));
  }

  lemma PresentSized(w: Window)
    requires Sized(w.view)
    ensures Sized(PresentWindow(w).view)
  {
    FlushSized(w);
    ReleaseSized(w);
    ReleaseSized(Flush(w).(configure := Flush(w).configure.(pending := false)));
  }

  lemma SurfaceSized(w: Window, attach: bool, buffer: Buffer)
    requires Sized(w.view)
    ensures Sized(SurfaceCommit(w, attach, buffer).view)
  {
    if attach { AttachSized(w.(surface := w.surface.(buffer := buffer))); }
  }

  ghost predicate AllSized(s: State) {
    forall id | id in s.windows :: Sized(s.windows[id].view)
  }

  lemma SettleSized(s: State)
    requires AllSized(s)
    ensures AllSized(Settle(s))
  {
  }

  lemma JoinSized(s: State, id: WindowId, owes: bool)
    requires AllSized(s) && id in s.windows
    ensures AllSized(Join(s, id, owes))
  {
  }

  lemma PresentAllSized(s: State)
    requires AllSized(s)
    ensures AllSized(Present(s)) && AllSized(Begin(s))
  {
    forall id | id in s.windows ensures Sized(PresentWindow(s.windows[id]).view) { PresentSized(s.windows[id]); }
  }

  lemma MoveSized(s: State, id: WindowId, x: int, y: int)
    requires AllSized(s) && Live(s, id)
    ensures AllSized(SetPosition(s, id, x, y))
  {
    var w := RequestMove(s.windows[id], x, y);
    FlushSized(w);
    JoinSized(s.(windows := s.windows[id := w]), id, w.configure.pending && !w.configure.acknowledged);
  }

  lemma ResizeSized(s: State, id: WindowId, width: nat, height: nat)
    requires AllSized(s) && Live(s, id)
    ensures AllSized(SetSize(s, id, width, height))
  {
    var w := ConfigureWindow(s.windows[id], width, height);
    JoinSized(s.(windows := s.windows[id := w]), id, !w.configure.acknowledged);
  }

  lemma FinalizeSized(s: State, id: WindowId)
    requires AllSized(s) && Live(s, id)
    ensures AllSized(Finalize(s, id))
  {
    ReleaseSized(s.windows[id].(enrolled := false));
  }

  lemma StepKeepsSizes(s: State, e: Event)
    requires AllSized(s)
    ensures AllSized(Step(s, e))
  {
    match e
    case Creating(_, _) =>
    case Beginning => PresentAllSized(s);
    case Presenting => PresentAllSized(s);
    case Committing(_, _) =>
    case Expiring =>
    case Acking(_) =>
    case Moving(id, x, y) => if Live(s, id) { MoveSized(s, id, x, y); }
    case Resizing(id, width, height) => if Live(s, id) { ResizeSized(s, id, width, height); }
    case Stacking(id) => if Live(s, id) { FlushSized(s.windows[id]); }
    case Tiling(_) =>
    case Finalizing(id) => if Live(s, id) { FinalizeSized(s, id); }
    case ClientCommit(id, attach, buffer) => if id in s.windows { SurfaceSized(s.windows[id], attach, buffer); }
  }

  /** Whatever happens, a window on the screen has the size of the buffer it shows. */
  lemma {:induction false} RunKeepsSizes(s: State, events: seq<Event>)
    requires AllSized(s)
    ensures AllSized(Run(s, events))
    decreases |events|
  {
    if events != [] {
      StepKeepsSizes(s, events[0]);
      RunKeepsSizes(Step(s, events[0]), events[1..]);
    }
  }

  // ------------------------------------------------- the end of a cohort

  /** Some enrolled window has not answered. */
  ghost predicate SomeoneOwes(s: State) {
    s.barrier.Some? && exists id :: id in s.enrolled && !Acked(s.barrier.value, id)
  }

  lemma OwedIsPending(s: State)
    requires Core(s) && s.barrier.Some?
    ensures SomeoneOwes(s) <==> s.barrier.value.pending > 0
  {
    var b := s.barrier.value;
    var ps := b.participants;
    if b.pending > 0 {
      var i: nat :| i < |ps| && !ps[i].acked;
      B.StandingAt(ps, i);
      assert B.Has(ps, ps[i].key) && ps[i].key in s.enrolled && !Acked(b, ps[i].key);
    }
    if id :| id in s.enrolled && !Acked(b, id) {
      assert B.Has(ps, id) && !ps[B.IndexOf(ps, id)].acked;
    }
  }

  /** The windows of the cohort, parked with their answers; nobody else is touched. */
  ghost predicate ParkedWith(s: State, b: B.State, t: State) {
    && t.barrier.None? && t.enrolled == [] && !t.callback && t.windows.Keys == s.windows.Keys
    && (forall id :: id in t.parked <==> id in s.enrolled)
    && (forall id | id in s.windows :: t.windows[id] ==
          if id in s.enrolled then s.windows[id].(enrolled := false, responded := Acked(b, id)) else s.windows[id])
  }

  /** When the time is up, every window of the cohort is parked with or without its answer, and the callback is
      told that it timed out. */
  lemma TimeoutParks(s: State)
    requires Inv(s) && s.barrier.Some? && s.barrier.value.committed
    ensures var t := Step(s, Expiring);
      && ParkedWith(s, s.barrier.value, t) && SomeoneOwes(s)
      && t.callbacks == if s.callback then s.callbacks + [true] else s.callbacks
  {
    OwedIsPending(s);
    forall id ensures id in Reverse(s.enrolled) <==> id in s.enrolled { ReversedMembers(s.enrolled, id); }
    assert B.Finish(s.barrier.value, true).participants == s.barrier.value.participants;
  }

  /** Committing a cohort ends it at once if nobody owes an answer, or no timer can be had; the callback is told it
      timed out exactly in the second case. Otherwise it waits. */
  lemma CommitExactly(s: State, timerOk: bool, callback: bool)
    requires Inv(s) && s.barrier.Some? && !s.barrier.value.committed
    ensures var t := Step(s, Committing(timerOk, callback));
      if !SomeoneOwes(s) || !timerOk then
        ParkedWith(s, s.barrier.value, t)
        && t.callbacks == if callback then s.callbacks + [SomeoneOwes(s)] else s.callbacks
      else
        t == s.(barrier := t.barrier, callback := callback)
        && t.barrier == Some(s.barrier.value.(committed := true, timer := t.barrier.value.timer))
  {
    OwedIsPending(s);
    forall id ensures id in Reverse(s.enrolled) <==> id in s.enrolled { ReversedMembers(s.enrolled, id); }
  }

  /** The answer that was missing ends a committed cohort, in time. */
  lemma LastAnswerParks(s: State, id: WindowId)
    requires Inv(s) && Live(s, id) && s.windows[id].enrolled && s.barrier.Some? && s.barrier.value.committed
    requires forall other | other in s.enrolled :: Acked(s.barrier.value, other) <==> other != id
    requires B.Standing(s.barrier.value.participants, id)
        == Some(B.Participant(id, s.windows[id].configure.serial, false))
    ensures var t := Step(s, Acking(id));
      && t.barrier.None? && (forall other | other in s.enrolled :: other in t.parked && t.windows[other].responded)
      && t.callbacks == if s.callback then s.callbacks + [false] else s.callbacks
  {
    var b, serial := s.barrier.value, s.windows[id].configure.serial;
    assert WindowInv(s, id);
    StepKeepsInv(s, Acking(id));
    forall id ensures id in Reverse(s.enrolled) <==> id in s.enrolled { ReversedMembers(s.enrolled, id); }
    B.AckStanding(b, id, serial, id);
    B.StepKeepsInv(b, B.Acking(id, serial));
    var c := B.Ack(b, id, serial);
    forall other | other in s.enrolled ensures Acked(c, other) {
      B.AckStanding(b, id, serial, other);
    }
    EverybodyAnswered(s, c);
  }

  lemma EverybodyAnswered(s: State, c: B.State)
    requires B.Inv(c) && forall id :: B.Has(c.participants, id) ==> Acked(c, id)
    ensures c.pending == 0
  {
    forall i: nat | i < |c.participants| ensures c.participants[i].acked {
      B.StandingAt(c.participants, i);
      assert B.Has(c.participants, c.participants[i].key);
    }
  }

  // ------------------------------------------------ presenting and leaving

  /** What a present makes of a parked window. One that answered goes where it was last asked to be; a straggler
      only if it has acknowledged by now and brought a buffer, which also answers its configure. Either way the
      last buffer shows at its size and nothing is held any more. */
  lemma PresentedExactly(s: State, id: WindowId)
    requires Inv(s) && Live(s, id) && id in s.parked
    ensures var t, w := Step(s, Presenting), s.windows[id];
      var v, came := t.windows[id], w.surface.hold.attach;
      && t.parked == [] && t.enrolled == s.enrolled && t.barrier == s.barrier && t.callbacks == s.callbacks
      && v.alive && v.surface == Surface(w.surface.buffer, UNHELD)
      && v.view.shown == (if came then w.surface.buffer else w.view.shown) && (came ==> Sized(v.view))
      && (if w.responded || (came && w.configure.acknowledged)
          then AtRest(v, Requested(w).0, Requested(w).1)
          else v.move == w.move && (v.view.x, v.view.y) == (w.view.x, w.view.y))
      && (v.configure.pending <==> w.configure.pending && !w.responded && !came)
      && v.configure.serial == w.configure.serial
  {
    assert WindowInv(s, id);
  }

  /** A present touches nobody else, and a begin does the same before it opens an empty cohort; with one open it is
      refused. */
  lemma OthersNotPresented(s: State, id: WindowId)
    requires Inv(s) && id in s.windows && id !in s.parked
    ensures var t := Step(s, Presenting); id in t.windows && t.windows[id] == s.windows[id]
  {
  }

  lemma BegunExactly(s: State)
    ensures Step(s, Beginning) ==
      if s.barrier.Some? then s else Step(s, Presenting).(barrier := Some(B.INITIAL), enrolled := [])
  {
  }

  lemma FinalizedRecord(s: State, id: WindowId)
    requires Inv(s) && Live(s, id)
    ensures var t, w := Step(s, Finalizing(id)), s.windows[id];
      && id in t.windows && !t.windows[id].alive
      && t.windows[id].surface.hold.held == (!w.enrolled && w.surface.hold.held)
  {
    assert WindowInv(s, id);
  }

  /** A window that is finalized is on no list and in no barrier any more; its surface stays held exactly if it was
      parked. */
  lemma FinalizedExactly(s: State, id: WindowId)
    requires Inv(s) && Live(s, id)
    ensures var t := Step(s, Finalizing(id));
      && id in t.windows && !t.windows[id].alive && !Listed(t, id)
      && (t.windows[id].surface.hold.held <==> id in s.parked)
      && (t.barrier.Some? ==> !B.Has(t.barrier.value.participants, id))
  {
    FinalizedRecord(s, id);
    StepKeepsInv(s, Finalizing(id));
    NoListNoBarrier(Step(s, Finalizing(id)), id);
    HeldIsListed(s, id);
  }

  lemma NoListNoBarrier(t: State, id: WindowId)
    requires Inv(t) && id in t.windows && !t.windows[id].alive
    ensures !Listed(t, id) && (t.barrier.Some? ==> !B.Has(t.barrier.value.participants, id))
  {
    assert WindowInv(t, id);
  }

  lemma HeldIsListed(s: State, id: WindowId)
    requires Inv(s) && Live(s, id)
    ensures !s.windows[id].enrolled && s.windows[id].surface.hold.held <==> id in s.parked
  {
    assert WindowInv(s, id);
  }

  /** While the cohort goes on, no other window notices. */
  lemma FinalizedAlone(s: State, id: WindowId, x: WindowId)
    requires Inv(s) && Live(s, id) && x in s.windows && x != id
    requires Step(s, Finalizing(id)).barrier.Some? || s.barrier.None?
    ensures x in Step(s, Finalizing(id)).windows && Step(s, Finalizing(id)).windows[x] == s.windows[x]
  {
  }
}
