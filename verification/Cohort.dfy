/** Cohorts of windows that change together: libswc/window.c, with the render hold that
    libswc/surface.c keeps on each window's root surface.

    A window is enrolled while a cohort is open, parked once the cohort has settled, and presented
    by the next present (or begin). The completion callback is the last thing `transaction_done`
    does, which in turn is the last thing the barrier does, so what the callback goes on to ask for
    is simply the next event. */
module Cohort {
  import opened Linked
  import opened Words
  import B = Barrier

  type WindowId = int

  /** A client buffer, with the content size that compositor.c derives from it. */
  datatype Buffer = NoBuffer | Content(id: nat, width: nat, height: nat)

  datatype Move = Move(pending: bool, x: int, y: int)

  datatype Configure = Configure(pending: bool, acknowledged: bool, width: nat, height: nat, serial: uint32)

  datatype View = View(x: int, y: int, width: nat, height: nat, shown: Buffer)

  datatype Hold = Hold(held: bool, attach: bool, update: bool)

  datatype Surface = Surface(buffer: Buffer, hold: Hold)

  /** `alive` ends when the window is finalized; its surface outlives it. `syncShell` says the
      shell acknowledges inside its own configure(), as wl_shell and Xwayland do. */
  datatype Window = Window(
    alive: bool,
    syncShell: bool,
    tiled: bool,
    enrolled: bool,
    responded: bool,
    move: Move,
    configure: Configure,
    view: View,
    surface: Surface)

  const UNHELD := Hold(false, false, false)

  function NewWindow(syncShell: bool): Window {
    Window(true, syncShell, false, false, false, Move(false, 0, 0), Configure(false, false, 0, 0, 0),
           View(0, 0, 0, 0, NoBuffer), Surface(NoBuffer, UNHELD))
  }

  // ---------------------------------------------------------- one window

  function Flush(w: Window): Window {
    if !w.move.pending then w
    else w.(view := w.view.(x := w.move.x, y := w.move.y), move := w.move.(pending := false))
  }

  function HandleAttach(w: Window): Window {
    if w.enrolled then w
    else
      var w := if w.configure.acknowledged then Flush(w) else w;
      w.(configure := w.configure.(pending := false))
  }

  /** Promotes the surface's buffer to the view and runs the window's attach handler. */
  function ViewAttach(w: Window): Window {
    var b := w.surface.buffer;
    HandleAttach(w.(view := w.view.(shown := b,
                                    width := if b.NoBuffer? then 0 else b.width,
                                    height := if b.NoBuffer? then 0 else b.height)))
  }

  function HoldRender(w: Window): Window {
    w.(surface := w.surface.(hold := w.surface.hold.(held := true)))
  }

  function ReleaseRender(w: Window): Window {
    if !w.surface.hold.held then w
    else
      var replay := w.surface.hold.attach && w.alive;
      var w := w.(surface := w.surface.(hold := UNHELD));
      if replay then ViewAttach(w) else w
  }

  /** A commit of the root surface, attaching `buffer` when `attach` is set. */
  function SurfaceCommit(w: Window, attach: bool, buffer: Buffer): Window {
    var w := if attach then w.(surface := w.surface.(buffer := buffer)) else w;
    if !w.alive then w
    else if w.surface.hold.held then
      w.(surface := w.surface.(hold := Hold(true, w.surface.hold.attach || attach, true)))
    else if attach then ViewAttach(w)
    else w
  }

  /** What present does to one parked window. */
  function PresentWindow(w: Window): Window {
    ReleaseRender(if !w.responded then w
                  else var w := Flush(w); w.(configure := w.configure.(pending := false)))
  }

  // ---------------------------------------------------------- the cohort

  /** `callback` is whether a completion callback is registered; `callbacks` records its calls. */
  datatype State = State(
    windows: map<WindowId, Window>,
    barrier: Option<B.State>,
    enrolled: seq<WindowId>,
    parked: seq<WindowId>,
    callback: bool,
    callbacks: seq<bool>)

  const INITIAL := State(map[], None, [], [], false, [])

  function Drop(ids: seq<WindowId>, id: WindowId): (r: seq<WindowId>)
    ensures id !in r
    ensures forall x | x != id :: x in r <==> x in ids
  {
    if ids == [] then []
    else if ids[0] == id then Drop(ids[1..], id)
    else [ids[0]] + Drop(ids[1..], id)
  }

  predicate Acked(b: B.State, id: WindowId) {
    B.Has(b.participants, id) && B.Entry(b.participants, id).acked
  }

  function Park(w: Window, b: B.State, id: WindowId): Window {
    w.(responded := Acked(b, id), enrolled := false)
  }

  function ParkAll(windows: map<WindowId, Window>, ids: seq<WindowId>, b: B.State): map<WindowId, Window> {
    map id | id in windows :: if id in ids then Park(windows[id], b, id) else windows[id]
  }

  function PresentAll(windows: map<WindowId, Window>, ids: seq<WindowId>): map<WindowId, Window> {
    map id | id in windows :: if id in ids then PresentWindow(windows[id]) else windows[id]
  }

  function TransactionDone(s: State): State
    requires s.barrier.Some? && s.barrier.value.completions != []
  {
    var b := s.barrier.value;
    State(ParkAll(s.windows, s.enrolled, b),
          None, [], Reverse(s.enrolled) + s.parked,
          false, if s.callback then s.callbacks + [b.completions[0]] else s.callbacks)
  }

  /** The barrier has just been touched; if that completed it, its handler runs. */
  function Settle(s: State): State {
    if s.barrier.Some? && s.barrier.value.complete && s.barrier.value.completions != [] then TransactionDone(s) else s
  }

  function PresentCohort(s: State): State {
    s.(windows := PresentAll(s.windows, s.parked), parked := [])
  }

  function Begin(s: State): State {
    if s.barrier.Some? then s
    else PresentCohort(s).(barrier := Some(B.INITIAL), enrolled := [])
  }

  function Commit(s: State, timerOk: bool, callback: bool): State {
    if s.barrier.None? then s
    else Settle(s.(callback := callback, barrier := Some(B.Commit(s.barrier.value, timerOk))))
  }

  function Present(s: State): State {
    PresentCohort(s)
  }

  function Expire(s: State): State {
    if s.barrier.None? then s else Settle(s.(barrier := Some(B.Expire(s.barrier.value))))
  }

  predicate Live(s: State, id: WindowId) {
    id in s.windows && s.windows[id].alive
  }

  function Join(s: State, id: WindowId, awaitingAck: bool): State
    requires id in s.windows
  {
    var w := s.windows[id];
    if s.barrier.None? || w.enrolled || !B.Accepts(s.barrier.value, id) then s
    else
      var b := B.Add(s.barrier.value, id, w.configure.serial);
      s.(windows := s.windows[id := HoldRender(w.(enrolled := true))],
         barrier := Some(if awaitingAck then b else B.Ack(b, id, w.configure.serial)),
         enrolled := [id] + s.enrolled)
  }

  function Leave(s: State, id: WindowId): State
    requires id in s.windows
  {
    var w := s.windows[id];
    if !w.enrolled || s.barrier.None? then s.(parked := Drop(s.parked, id))
    else
      Settle(s.(windows := s.windows[id := ReleaseRender(w.(enrolled := false))],
                enrolled := Drop(s.enrolled, id),
                barrier := Some(B.Remove(s.barrier.value, id))))
  }

  function AckConfigure(s: State, id: WindowId): State
    requires Live(s, id)
  {
    var w := s.windows[id];
    var s := s.(windows := s.windows[id := w.(configure := w.configure.(acknowledged := true))]);
    if !w.enrolled || s.barrier.None? then s
    else Settle(s.(barrier := Some(B.Ack(s.barrier.value, id, w.configure.serial))))
  }

  /** Records the request, or forgets the pending one when the window is already there. */
  function RequestMove(w: Window, x: int, y: int): Window {
    if x == w.view.x && y == w.view.y then w.(move := w.move.(pending := false))
    else w.(move := Move(true, x, y))
  }

  function SetPosition(s: State, id: WindowId, x: int, y: int): State
    requires Live(s, id)
  {
    var w := RequestMove(s.windows[id], x, y);
    if !w.move.pending then s.(windows := s.windows[id := w])
    else if s.barrier.Some? then
      Join(s.(windows := s.windows[id := w]), id, w.configure.pending && !w.configure.acknowledged)
    else
      s.(windows := s.windows[id := if w.configure.pending then w else Flush(w)])
  }

  predicate SameSize(w: Window, width: nat, height: nat) {
    if w.configure.pending then width == w.configure.width && height == w.configure.height
    else width == w.view.width && height == w.view.height
  }

  function ConfigureWindow(w: Window, width: nat, height: nat): Window {
    var c := w.configure.(serial := Increment(w.configure.serial), acknowledged := w.syncShell);
    w.(configure := if w.tiled then c.(width := width, height := height, pending := true) else c)
  }

  /** `width` and `height` are the size after clamping to the window's hints. */
  function SetSize(s: State, id: WindowId, width: nat, height: nat): State
    requires Live(s, id)
  {
    if SameSize(s.windows[id], width, height) then s
    else
      var w := ConfigureWindow(s.windows[id], width, height);
      Join(s.(windows := s.windows[id := w]), id, !w.configure.acknowledged)
  }

  function SetStacked(s: State, id: WindowId): State
    requires Live(s, id)
  {
    var w := if s.windows[id].enrolled then s.windows[id] else Flush(s.windows[id]);
    s.(windows := s.windows[id := w.(configure := w.configure.(pending := false, width := 0, height := 0),
        tiled := false)])
  }

  function SetTiled(s: State, id: WindowId): State
    requires Live(s, id)
  {
    s.(windows := s.windows[id := s.windows[id].(tiled := true)])
  }

  function Finalize(s: State, id: WindowId): State
    requires Live(s, id)
  {
    var s := Leave(s, id);
    if id in s.windows then s.(windows := s.windows[id := s.windows[id].(alive := false)]) else s
  }

  datatype Event =
    | Creating(id: WindowId, syncShell: bool)
    | Beginning
    | Committing(timerOk: bool, callback: bool)
    | Presenting
    | Expiring
    | Acking(id: WindowId)
    | Moving(id: WindowId, x: int, y: int)
    | Resizing(id: WindowId, width: nat, height: nat)
    | Stacking(id: WindowId)
    | Tiling(id: WindowId)
    | Finalizing(id: WindowId)
    | ClientCommit(id: WindowId, attach: bool, buffer: Buffer)

  function Step(s: State, e: Event): State {
    match e
    case Creating(id, syncShell) => if id in s.windows then s else s.(windows := s.windows[id := NewWindow(syncShell)])
    case Beginning => Begin(s)
    case Committing(timerOk, callback) => Commit(s, timerOk, callback)
    case Presenting => Present(s)
    case Expiring => Expire(s)
    case Acking(id) => if Live(s, id) then AckConfigure(s, id) else s
    case Moving(id, x, y) => if Live(s, id) then SetPosition(s, id, x, y) else s
    case Resizing(id, width, height) => if Live(s, id) then SetSize(s, id, width, height) else s
    case Stacking(id) => if Live(s, id) then SetStacked(s, id) else s
    case Tiling(id) => if Live(s, id) then SetTiled(s, id) else s
    case Finalizing(id) => if Live(s, id) then Finalize(s, id) else s
    case ClientCommit(id, attach, buffer) =>
      if id in s.windows then s.(windows := s.windows[id := SurfaceCommit(s.windows[id], attach, buffer)]) else s
  }

  function Run(s: State, events: seq<Event>): State
    decreases |events|
  {
    if events == [] then s else Run(Step(s, events[0]), events[1..])
  }

  // ------------------------------------------------------------ invariant

  ghost predicate Distinct(ids: seq<WindowId>) {
    forall i, j | 0 <= i < j < |ids| :: ids[i] != ids[j]
  }

  predicate Listed(s: State, id: WindowId) {
    id in s.enrolled || id in s.parked
  }

  /** What the two lists say about one window. */
  predicate WindowInv(s: State, id: WindowId)
    requires id in s.windows
  {
    var w := s.windows[id];
    && (w.enrolled <==> id in s.enrolled)
    && (Listed(s, id) ==> w.alive && w.surface.hold.held)
    && (w.alive && w.surface.hold.held ==> Listed(s, id))
    && (!w.surface.hold.held ==> w.surface.hold == UNHELD)
  }

  /** Everything but "still waiting", which is what Settle restores. */
  ghost predicate Core(s: State) {
    && Distinct(s.enrolled) && Distinct(s.parked)
    && (forall id | Listed(s, id) :: id in s.windows)
    && (forall id | id in s.windows :: WindowInv(s, id))
    && (s.barrier.None? ==> s.enrolled == [])
    && (s.barrier.Some? ==>
        && s.parked == []
        && B.Inv(s.barrier.value)
        && forall id :: B.Has(s.barrier.value.participants, id) <==> id in s.enrolled)
  }

  ghost predicate Inv(s: State) {
    Core(s) && (s.barrier.Some? ==> !s.barrier.value.complete)
  }

  /** No surface is left held by a window that no longer exists. */
  ghost predicate NoOrphanHold(s: State) {
    forall id | id in s.windows && s.windows[id].surface.hold.held :: s.windows[id].alive
  }

  predicate SameStanding(w: Window, w': Window) {
    && w'.alive == w.alive && w'.enrolled == w.enrolled
    && w'.surface.hold.held == w.surface.hold.held
    && (w'.surface.hold.held || w'.surface.hold == UNHELD)
  }

  lemma TouchKeepsInv(s: State, id: WindowId, w: Window)
    requires Inv(s) && id in s.windows && SameStanding(s.windows[id], w)
    ensures Inv(s.(windows := s.windows[id := w]))
  {
    var t := s.(windows := s.windows[id := w]);
    forall x | x in t.windows ensures WindowInv(t, x) {
      assert WindowInv(s, x);
    }
  }

  /** A barrier event that enrols and withdraws nobody. */
  lemma BarrierEventKeepsCore(s: State, e: B.Event)
    requires Inv(s) && s.barrier.Some? && !e.Adding? && !e.Removing?
    ensures Core(s.(barrier := Some(B.Step(s.barrier.value, e))))
  {
    var t := s.(barrier := Some(B.Step(s.barrier.value, e)));
    B.StepKeepsInv(s.barrier.value, e);
    forall id ensures B.Has(t.barrier.value.participants, id) <==> id in t.enrolled {
      B.StepStanding(s.barrier.value, e, id);
    }
    forall x | x in t.windows ensures WindowInv(t, x) {
      assert WindowInv(s, x);
    }
  }

  lemma ReversedMembers(ids: seq<WindowId>, id: WindowId)
    ensures id in Reverse(ids) <==> id in ids
  {
    if id in ids {
      var i :| 0 <= i < |ids| && ids[i] == id;
      assert Reverse(ids)[|ids| - 1 - i] == id;
    }
  }

  lemma SettleKeepsInv(s: State)
    requires Core(s)
    ensures Inv(Settle(s))
  {
    if s.barrier.Some? && s.barrier.value.complete {
      var t := TransactionDone(s);
      forall id ensures id in t.parked <==> id in s.enrolled {
        ReversedMembers(s.enrolled, id);
      }
      forall x | x in t.windows ensures WindowInv(t, x) {
        assert WindowInv(s, x);
      }
    }
  }

  lemma PresentedWindow(w: Window)
    requires w.alive && !w.enrolled
    ensures var w' := PresentWindow(w);
      && w'.alive && !w'.enrolled
      && (w.surface.hold.held ==> w'.surface.hold == UNHELD)
  {}

  lemma PresentKeepsInv(s: State)
    requires Inv(s)
    ensures Inv(Present(s))
  {
    var t := Present(s);
    forall x | x in t.windows ensures WindowInv(t, x) {
      assert WindowInv(s, x);
      if x in s.parked {
        PresentedWindow(s.windows[x]);
      }
    }
  }

  lemma BeginKeepsInv(s: State)
    requires Inv(s)
    ensures Inv(Begin(s))
  {
    PresentKeepsInv(s);
    if s.barrier.None? {
      var p, t := PresentCohort(s), Begin(s);
      forall x | x in t.windows ensures WindowInv(t, x) {
        assert WindowInv(p, x);
      }
      assert B.Inv(B.INITIAL);
    }
  }

  /** What joining does to the barrier: enrol, and answer at once when no reply is owed. */
  function JoinBarrier(b: B.State, id: WindowId, serial: uint32, awaitingAck: bool): B.State {
    var b := B.Add(b, id, serial);
    if awaitingAck then b else B.Ack(b, id, serial)
  }

  lemma JoinedTogether(b: B.State, id: WindowId, serial: uint32, awaitingAck: bool)
    requires B.Inv(b) && B.Accepts(b, id)
    ensures B.Inv(JoinBarrier(b, id, serial, awaitingAck)) && !JoinBarrier(b, id, serial, awaitingAck).complete
    ensures forall x :: B.Has(JoinBarrier(b, id, serial, awaitingAck).participants, x) <==>
        x == id || B.Has(b.participants, x)
  {
    var b1 := B.Step(b, B.Adding(id, serial));
    B.StepKeepsInv(b, B.Adding(id, serial));
    B.StepKeepsInv(b1, B.Acking(id, serial));
    forall x ensures B.Has(JoinBarrier(b, id, serial, awaitingAck).participants, x) <==>
        x == id || B.Has(b.participants, x) {
      B.StepStanding(b, B.Adding(id, serial), x);
      B.StepStanding(b1, B.Acking(id, serial), x);
    }
  }

  lemma JoinKeepsInv(s: State, id: WindowId, awaitingAck: bool)
    requires Inv(s) && Live(s, id)
    ensures Inv(Join(s, id, awaitingAck))
  {
    var t, w := Join(s, id, awaitingAck), s.windows[id];
    assert WindowInv(s, id);
    if s.barrier.Some? && !w.enrolled && B.Accepts(s.barrier.value, id) {
      JoinedTogether(s.barrier.value, id, w.configure.serial, awaitingAck);
      assert t.barrier == Some(JoinBarrier(s.barrier.value, id, w.configure.serial, awaitingAck));
      forall x | x in t.windows ensures WindowInv(t, x) {
        assert WindowInv(s, x);
      }
    }
  }

  lemma {:induction false} DropKeepsDistinct(ids: seq<WindowId>, id: WindowId)
    requires Distinct(ids)
    ensures Distinct(Drop(ids, id))
  {
    if ids != [] {
      DropKeepsDistinct(ids[1..], id);
      if ids[0] != id {
        var rest := Drop(ids[1..], id);
        assert ids[0] !in ids[1..];
        assert forall j | 0 < j <= |rest| :: ([ids[0]] + rest)[j] == rest[j - 1] && rest[j - 1] in rest;
      }
    }
  }

  /** The barrier's participants are still the enrolled windows once both forget `id`. */
  lemma WithdrawnTogether(s: State, id: WindowId, x: WindowId)
    requires Inv(s) && s.barrier.Some?
    ensures B.Inv(B.Remove(s.barrier.value, id))
    ensures B.Has(B.Remove(s.barrier.value, id).participants, x) <==> x in Drop(s.enrolled, id)
  {
    B.StepKeepsInv(s.barrier.value, B.Removing(id));
    B.StepStanding(s.barrier.value, B.Removing(id), x);
  }

  function Withdrawn(s: State, id: WindowId): State
    requires id in s.windows && s.barrier.Some?
  {
    s.(windows := s.windows[id := ReleaseRender(s.windows[id].(enrolled := false))],
       enrolled := Drop(s.enrolled, id),
       barrier := Some(B.Remove(s.barrier.value, id)))
  }

  lemma WithdrawKeepsWindow(s: State, id: WindowId, x: WindowId)
    requires Inv(s) && Live(s, id) && s.windows[id].enrolled && s.barrier.Some? && x in s.windows
    ensures WindowInv(Withdrawn(s, id), x)
  {
    assert WindowInv(s, x);
    if x == id {
      assert s.windows[id].surface.hold.held;
    }
  }

  lemma WithdrawKeepsCore(s: State, id: WindowId)
    requires Inv(s) && Live(s, id) && s.windows[id].enrolled && s.barrier.Some?
    ensures Core(Withdrawn(s, id)) && !Withdrawn(s, id).windows[id].surface.hold.held
  {
    var t := Withdrawn(s, id);
    DropKeepsDistinct(s.enrolled, id);
    forall x ensures B.Inv(t.barrier.value) && (B.Has(t.barrier.value.participants, x) <==> x in t.enrolled) {
      WithdrawnTogether(s, id, x);
    }
    forall x | x in t.windows ensures WindowInv(t, x) {
      WithdrawKeepsWindow(s, id, x);
    }
    assert WindowInv(t, id);
  }

  lemma LeaveKeepsInv(s: State, id: WindowId)
    requires Inv(s) && Live(s, id) && s.windows[id].enrolled
    ensures Inv(Leave(s, id))
    ensures id in Leave(s, id).windows && !Listed(Leave(s, id), id)
    ensures !Leave(s, id).windows[id].surface.hold.held
  {
    assert WindowInv(s, id);
    WithdrawKeepsCore(s, id);
    SettleKeepsInv(Withdrawn(s, id));
    assert WindowInv(Leave(s, id), id);
    ReversedMembers(Withdrawn(s, id).enrolled, id);
  }

  lemma FinalizeKeepsInv(s: State, id: WindowId)
    requires Inv(s) && Live(s, id)
    ensures Inv(Finalize(s, id))
  {
    var l, t := Leave(s, id), Finalize(s, id);
    assert WindowInv(s, id);
    if !s.windows[id].enrolled {
      DropKeepsDistinct(s.parked, id);
      forall x | x in t.windows ensures WindowInv(t, x) {
        assert WindowInv(s, x);
      }
    } else {
      LeaveKeepsInv(s, id);
      forall x | x in t.windows ensures WindowInv(t, x) {
        assert WindowInv(l, x);
      }
    }
  }

  lemma AckKeepsInv(s: State, id: WindowId)
    requires Inv(s) && Live(s, id)
    ensures Inv(AckConfigure(s, id))
  {
    var w := s.windows[id];
    var w' := w.(configure := w.configure.(acknowledged := true));
    assert WindowInv(s, id);
    TouchKeepsInv(s, id, w');
    var t := s.(windows := s.windows[id := w']);
    if w.enrolled {
      BarrierEventKeepsCore(t, B.Acking(id, w.configure.serial));
      SettleKeepsInv(t.(barrier := Some(B.Ack(t.barrier.value, id, w.configure.serial))));
    }
  }

  lemma SetPositionKeepsInv(s: State, id: WindowId, x: int, y: int)
    requires Inv(s) && Live(s, id)
    ensures Inv(SetPosition(s, id, x, y))
  {
    var w := RequestMove(s.windows[id], x, y);
    assert WindowInv(s, id);
    TouchKeepsInv(s, id, w);
    TouchKeepsInv(s, id, Flush(w));
    JoinKeepsInv(s.(windows := s.windows[id := w]), id, w.configure.pending && !w.configure.acknowledged);
  }

  lemma SetSizeKeepsInv(s: State, id: WindowId, width: nat, height: nat)
    requires Inv(s) && Live(s, id)
    ensures Inv(SetSize(s, id, width, height))
  {
    var w := ConfigureWindow(s.windows[id], width, height);
    assert WindowInv(s, id);
    TouchKeepsInv(s, id, w);
    JoinKeepsInv(s.(windows := s.windows[id := w]), id, !w.configure.acknowledged);
  }

  lemma CommitSurfaceKeepsInv(s: State, id: WindowId, attach: bool, buffer: Buffer)
    requires Inv(s) && id in s.windows
    ensures Inv(Step(s, ClientCommit(id, attach, buffer)))
  {
    assert WindowInv(s, id);
    TouchKeepsInv(s, id, SurfaceCommit(s.windows[id], attach, buffer));
  }

  lemma StackedKeepsInv(s: State, id: WindowId)
    requires Inv(s) && Live(s, id)
    ensures Inv(SetStacked(s, id)) && Inv(SetTiled(s, id))
  {
    assert WindowInv(s, id);
    TouchKeepsInv(s, id, SetStacked(s, id).windows[id]);
    TouchKeepsInv(s, id, SetTiled(s, id).windows[id]);
  }

  lemma CreateKeepsInv(s: State, id: WindowId, syncShell: bool)
    requires Inv(s)
    ensures Inv(Step(s, Creating(id, syncShell)))
  {
    var t := Step(s, Creating(id, syncShell));
    if id !in s.windows {
      assert !Listed(s, id);
      forall x | x in t.windows ensures WindowInv(t, x) {
        if x != id { assert WindowInv(s, x); }
      }
    }
  }

  lemma CommitKeepsInv(s: State, timerOk: bool, callback: bool)
    requires Inv(s)
    ensures Inv(Commit(s, timerOk, callback))
  {
    if s.barrier.Some? {
      var t := s.(callback := callback);
      forall x | x in t.windows ensures WindowInv(t, x) {
        assert WindowInv(s, x);
      }
      BarrierEventKeepsCore(t, B.Committing(timerOk));
      SettleKeepsInv(t.(barrier := Some(B.Commit(s.barrier.value, timerOk))));
    }
  }

  lemma ExpireKeepsInv(s: State)
    requires Inv(s)
    ensures Inv(Expire(s))
  {
    if s.barrier.Some? {
      BarrierEventKeepsCore(s, B.Expiring);
      SettleKeepsInv(s.(barrier := Some(B.Expire(s.barrier.value))));
    }
  }

  lemma StepKeepsInv(s: State, e: Event)
    requires Inv(s)
    ensures Inv(Step(s, e))
  {
    match e
    case Creating(id, syncShell) => CreateKeepsInv(s, id, syncShell);
    case Beginning => BeginKeepsInv(s);
    case Committing(timerOk, callback) => CommitKeepsInv(s, timerOk, callback);
    case Presenting => PresentKeepsInv(s);
    case Expiring => ExpireKeepsInv(s);
    case Acking(id) => if Live(s, id) { AckKeepsInv(s, id); }
    case Moving(id, x, y) => if Live(s, id) { SetPositionKeepsInv(s, id, x, y); }
    case Resizing(id, width, height) => if Live(s, id) { SetSizeKeepsInv(s, id, width, height); }
    case Stacking(id) => if Live(s, id) { StackedKeepsInv(s, id); }
    case Tiling(id) => if Live(s, id) { StackedKeepsInv(s, id); }
    case Finalizing(id) => if Live(s, id) { FinalizeKeepsInv(s, id); }
    case ClientCommit(id, attach, buffer) => if id in s.windows { CommitSurfaceKeepsInv(s, id, attach, buffer); }
  }

  /** On every run: a live window's root surface is held exactly while the window is enrolled or
      parked, the enrolled windows are exactly the barrier's participants, nothing is parked while
      a cohort is open, and an open cohort that has been committed still has somebody to wait for
      and a timer to end the wait. */
  lemma {:induction false} RunKeepsInv(s: State, events: seq<Event>)
    requires Inv(s)
    ensures Inv(Run(s, events))
    decreases |events|
  {
    if events != [] {
      StepKeepsInv(s, events[0]);
      RunKeepsInv(Step(s, events[0]), events[1..]);
    }
  }

  // ------------------------------------------- what survives, and when

  /** Where the window has been asked to be: its pending move, or else where it is. */
  function Requested(w: Window): (int, int) {
    if w.move.pending then (w.move.x, w.move.y) else (w.view.x, w.view.y)
  }

  /** The buffer the view will show once nothing is held back. */
  function Promised(w: Window): Buffer {
    if w.surface.hold.held && w.surface.hold.attach then w.surface.buffer else w.view.shown
  }

  lemma ParkKeepsPromises(w: Window, b: B.State, id: WindowId)
    ensures Requested(Park(w, b, id)) == Requested(w) && Promised(Park(w, b, id)) == Promised(w)
    ensures Park(w, b, id).view == w.view && Park(w, b, id).alive == w.alive
  {}

  lemma ReleaseKeepsPromises(w: Window)
    requires w.alive
    ensures Requested(ReleaseRender(w)) == Requested(w) && Promised(ReleaseRender(w)) == Promised(w)
    ensures ReleaseRender(w).alive && ReleaseRender(w).view.shown == Promised(w)
    ensures ReleaseRender(w).enrolled == w.enrolled
    ensures (w.view.x, w.view.y) == Requested(w) ==>
      (ReleaseRender(w).view.x, ReleaseRender(w).view.y) == Requested(w)
  {}

  lemma SettleKeepsPromises(s: State, id: WindowId)
    requires id in s.windows
    ensures id in Settle(s).windows
    ensures Requested(Settle(s).windows[id]) == Requested(s.windows[id])
    ensures Promised(Settle(s).windows[id]) == Promised(s.windows[id])
    ensures Settle(s).windows[id].view == s.windows[id].view
    ensures Settle(s).windows[id].alive == s.windows[id].alive
  {
    if s.barrier.Some? {
      ParkKeepsPromises(s.windows[id], s.barrier.value, id);
    }
  }

  lemma JoinKeepsPromises(s: State, who: WindowId, awaitingAck: bool, id: WindowId)
    requires Inv(s) && Live(s, who) && Live(s, id)
    ensures Live(Join(s, who, awaitingAck), id)
    ensures Requested(Join(s, who, awaitingAck).windows[id]) == Requested(s.windows[id])
    ensures Promised(Join(s, who, awaitingAck).windows[id]) == Promised(s.windows[id])
    ensures Join(s, who, awaitingAck).windows[id].view == s.windows[id].view
  {
    assert WindowInv(s, who);
  }

  lemma PresentedKeepsPromises(w: Window)
    requires w.alive && !w.enrolled
    ensures Requested(PresentWindow(w)) == Requested(w) && Promised(PresentWindow(w)) == Promised(w)
    ensures PresentWindow(w).alive && PresentWindow(w).view.shown == Promised(w)
    ensures w.responded ==> (PresentWindow(w).view.x, PresentWindow(w).view.y) == Requested(w)
  {
    var g := Flush(w);
    var f := g.(configure := g.configure.(pending := false));
    ReleaseKeepsPromises(w);
    ReleaseKeepsPromises(f);
  }

  lemma PresentKeepsPromises(s: State, id: WindowId)
    requires Inv(s) && Live(s, id)
    ensures PromisesKept(s, Present(s), Presenting, id)
  {
    assert WindowInv(s, id);
    if id in s.parked {
      assert s.barrier.None? && s.enrolled == [];
      PresentedKeepsPromises(s.windows[id]);
    }
  }

  lemma AckKeepsPromises(s: State, who: WindowId, id: WindowId)
    requires Inv(s) && Live(s, who) && Live(s, id)
    ensures PromisesKept(s, AckConfigure(s, who), Acking(who), id)
  {
    var w := s.windows[who];
    var t := s.(windows := s.windows[who := w.(configure := w.configure.(acknowledged := true))]);
    if w.enrolled && s.barrier.Some? {
      SettleKeepsPromises(t.(barrier := Some(B.Ack(s.barrier.value, who, w.configure.serial))), id);
    }
  }

  lemma MovedWindow(w: Window, x: int, y: int)
    ensures Requested(RequestMove(w, x, y)) == (x, y) && Requested(Flush(RequestMove(w, x, y))) == (x, y)
    ensures Promised(RequestMove(w, x, y)) == Promised(w) && Promised(Flush(RequestMove(w, x, y))) == Promised(w)
    ensures RequestMove(w, x, y).alive == w.alive && Flush(RequestMove(w, x, y)).alive == w.alive
  {}

  lemma MoveKeepsPromises(s: State, who: WindowId, x: int, y: int, id: WindowId)
    requires Inv(s) && Live(s, who) && Live(s, id)
    ensures PromisesKept(s, SetPosition(s, who, x, y), Moving(who, x, y), id)
  {
    var w := RequestMove(s.windows[who], x, y);
    var t := s.(windows := s.windows[who := w]);
    assert WindowInv(s, who);
    MovedWindow(s.windows[who], x, y);
    TouchKeepsInv(s, who, w);
    JoinKeepsPromises(t, who, w.configure.pending && !w.configure.acknowledged, id);
  }

  lemma ResizeKeepsPromises(s: State, who: WindowId, width: nat, height: nat, id: WindowId)
    requires Inv(s) && Live(s, who) && Live(s, id)
    ensures PromisesKept(s, SetSize(s, who, width, height), Resizing(who, width, height), id)
  {
    assert WindowInv(s, who);
    var w := ConfigureWindow(s.windows[who], width, height);
    TouchKeepsInv(s, who, w);
    JoinKeepsPromises(s.(windows := s.windows[who := w]), who, !w.configure.acknowledged, id);
  }

  lemma FinalizeKeepsPromises(s: State, who: WindowId, id: WindowId)
    requires Inv(s) && Live(s, who) && Live(s, id) && id != who
    ensures PromisesKept(s, Finalize(s, who), Finalizing(who), id)
  {
    if s.windows[who].enrolled && s.barrier.Some? {
      SettleKeepsPromises(Withdrawn(s, who), id);
    }
  }

  lemma SurfaceCommitKeepsPromises(w: Window, attach: bool, buffer: Buffer)
    requires w.alive && (w.surface.hold.held || w.surface.hold == UNHELD)
    ensures Requested(SurfaceCommit(w, attach, buffer)) == Requested(w)
    ensures Promised(SurfaceCommit(w, attach, buffer)) == if attach then buffer else Promised(w)
    ensures SurfaceCommit(w, attach, buffer).alive
    ensures w.surface.hold.held ==> SurfaceCommit(w, attach, buffer).view == w.view
  {}

  function RequestedBy(e: Event, id: WindowId, was: (int, int)): (int, int) {
    match e
    case Moving(who, x, y) => if who == id then (x, y) else was
    case _ => was
  }

  function PromisedBy(e: Event, id: WindowId, was: Buffer): Buffer {
    match e
    case ClientCommit(who, true, buffer) => if who == id then buffer else was
    case _ => was
  }

  /** From `s` to `t`, event `e` changed only what it asked of window `id`. */
  predicate PromisesKept(s: State, t: State, e: Event, id: WindowId) {
    && id in s.windows && Live(t, id)
    && Requested(t.windows[id]) == RequestedBy(e, id, Requested(s.windows[id]))
    && Promised(t.windows[id]) == PromisedBy(e, id, Promised(s.windows[id]))
  }

  lemma CommitKeepsPromises(s: State, timerOk: bool, callback: bool, id: WindowId)
    requires Live(s, id)
    ensures PromisesKept(s, Commit(s, timerOk, callback), Committing(timerOk, callback), id)
  {
    if s.barrier.Some? {
      SettleKeepsPromises(s.(callback := callback, barrier := Some(B.Commit(s.barrier.value, timerOk))), id);
    }
  }

  lemma ExpireKeepsPromises(s: State, id: WindowId)
    requires Live(s, id)
    ensures PromisesKept(s, Expire(s), Expiring, id)
  {
    if s.barrier.Some? {
      SettleKeepsPromises(s.(barrier := Some(B.Expire(s.barrier.value))), id);
    }
  }

  lemma StackKeepsPromises(s: State, who: WindowId, id: WindowId)
    requires Live(s, who) && Live(s, id)
    ensures PromisesKept(s, SetStacked(s, who), Stacking(who), id)
    ensures PromisesKept(s, SetTiled(s, who), Tiling(who), id)
  {}

  lemma ClientCommitKeepsPromises(s: State, who: WindowId, attach: bool, buffer: Buffer, id: WindowId)
    requires Inv(s) && Live(s, id)
    ensures PromisesKept(s, Step(s, ClientCommit(who, attach, buffer)), ClientCommit(who, attach, buffer), id)
  {
    assert WindowInv(s, id);
    SurfaceCommitKeepsPromises(s.windows[id], attach, buffer);
  }

  /** Nothing a window was asked is lost or invented: whatever happens, to whatever window, in
      whatever phase, the requested position changes only when this window is asked to move, and
      the promised buffer only when this window's client commits one. */
  lemma StepKeepsPromises(s: State, e: Event, id: WindowId)
    requires Inv(s) && Live(s, id) && e != Finalizing(id)
    ensures PromisesKept(s, Step(s, e), e, id)
  {
    match e
    case Creating(_, _) =>
    case Beginning => PresentKeepsPromises(s, id);
    case Committing(timerOk, callback) => CommitKeepsPromises(s, timerOk, callback, id);
    case Presenting => PresentKeepsPromises(s, id);
    case Expiring => ExpireKeepsPromises(s, id);
    case Acking(who) => if Live(s, who) { AckKeepsPromises(s, who, id); }
    case Moving(who, x, y) => if Live(s, who) { MoveKeepsPromises(s, who, x, y, id); }
    case Resizing(who, width, height) => if Live(s, who) { ResizeKeepsPromises(s, who, width, height, id); }
    case Stacking(who) => if Live(s, who) { StackKeepsPromises(s, who, id); }
    case Tiling(who) => if Live(s, who) { StackKeepsPromises(s, who, id); }
    case Finalizing(who) => if Live(s, who) { FinalizeKeepsPromises(s, who, id); }
    case ClientCommit(who, attach, buffer) => ClientCommitKeepsPromises(s, who, attach, buffer, id);
  }

  /** From `s` to `t`, window `id` was left alone as far as its place in the cohort demands. */
  predicate ViewKept(s: State, t: State, id: WindowId) {
    && id in s.windows && id in t.windows
    && (s.windows[id].enrolled ==> t.windows[id].view == s.windows[id].view && Listed(t, id))
    && (id in s.parked ==> t.windows[id].view.shown == s.windows[id].view.shown && id in t.parked)
  }

  /** Isolation. While a window is enrolled, no event but its own destruction changes its view: not
      its position, not its size, not the buffer it shows. That includes the event that settles the
      cohort. Parked, it still shows the same buffer until the next present or begin. */
  lemma StepKeepsView(s: State, e: Event, id: WindowId)
    requires Inv(s) && Live(s, id) && e != Finalizing(id)
    requires id in s.parked ==> !e.Presenting? && !e.Beginning?
    ensures ViewKept(s, Step(s, e), id)
  {
    match e
    case Creating(_, _) => assert WindowInv(s, id);
    case Beginning => PresentKeepsView(s, id);
    case Presenting => PresentKeepsView(s, id);
    case Committing(timerOk, callback) => CommitKeepsView(s, timerOk, callback, id);
    case Expiring => CommitKeepsView(s, false, false, id);
    case Acking(who) => if Live(s, who) { AckKeepsView(s, who, id); }
    case Moving(who, x, y) => if Live(s, who) { MoveKeepsView(s, who, x, y, id); }
    case Resizing(who, width, height) => if Live(s, who) { ResizeKeepsView(s, who, width, height, id); }
    case Stacking(who) => if Live(s, who) { StackKeepsView(s, who, id); }
    case Tiling(who) => if Live(s, who) { StackKeepsView(s, who, id); }
    case Finalizing(who) => if Live(s, who) { FinalizeKeepsView(s, who, id); }
    case ClientCommit(who, attach, buffer) => ClientCommitKeepsView(s, who, attach, buffer, id);
  }

  lemma CommitKeepsView(s: State, timerOk: bool, callback: bool, id: WindowId)
    requires Inv(s) && Live(s, id)
    ensures ViewKept(s, Commit(s, timerOk, callback), id) && ViewKept(s, Expire(s), id)
  {
    assert WindowInv(s, id);
    if s.barrier.Some? {
      SettleKeepsView(s.(callback := callback, barrier := Some(B.Commit(s.barrier.value, timerOk))), id);
      SettleKeepsView(s.(barrier := Some(B.Expire(s.barrier.value))), id);
    }
  }

  lemma StackKeepsView(s: State, who: WindowId, id: WindowId)
    requires Inv(s) && Live(s, who) && Live(s, id)
    ensures ViewKept(s, SetStacked(s, who), id) && ViewKept(s, SetTiled(s, who), id)
  {
    assert WindowInv(s, id);
  }

  lemma ClientCommitKeepsView(s: State, who: WindowId, attach: bool, buffer: Buffer, id: WindowId)
    requires Inv(s) && Live(s, id)
    ensures ViewKept(s, Step(s, ClientCommit(who, attach, buffer)), id)
  {
    assert WindowInv(s, id);
    SurfaceCommitKeepsPromises(s.windows[id], attach, buffer);
  }

  lemma SettleKeepsView(s: State, id: WindowId)
    requires id in s.windows
    ensures id in Settle(s).windows && Settle(s).windows[id].view == s.windows[id].view
    ensures Listed(s, id) ==> Listed(Settle(s), id)
    ensures id in s.parked ==> id in Settle(s).parked
  {
    ReversedMembers(s.enrolled, id);
  }

  lemma PresentKeepsView(s: State, id: WindowId)
    requires Inv(s) && Live(s, id) && id !in s.parked
    ensures ViewKept(s, Present(s), id) && ViewKept(s, Begin(s), id)
  {
    assert WindowInv(s, id);
  }

  lemma AckKeepsView(s: State, who: WindowId, id: WindowId)
    requires Inv(s) && Live(s, who) && Live(s, id)
    ensures ViewKept(s, AckConfigure(s, who), id)
  {
    assert WindowInv(s, id);
    var w := s.windows[who];
    var t := s.(windows := s.windows[who := w.(configure := w.configure.(acknowledged := true))]);
    if w.enrolled && s.barrier.Some? {
      SettleKeepsView(t.(barrier := Some(B.Ack(s.barrier.value, who, w.configure.serial))), id);
    }
  }

  lemma MoveKeepsView(s: State, who: WindowId, x: int, y: int, id: WindowId)
    requires Inv(s) && Live(s, who) && Live(s, id)
    ensures ViewKept(s, SetPosition(s, who, x, y), id)
  {
    assert WindowInv(s, id);
  }

  lemma ResizeKeepsView(s: State, who: WindowId, width: nat, height: nat, id: WindowId)
    requires Inv(s) && Live(s, who) && Live(s, id)
    ensures ViewKept(s, SetSize(s, who, width, height), id)
  {
    assert WindowInv(s, id);
  }

  lemma FinalizeKeepsView(s: State, who: WindowId, id: WindowId)
    requires Inv(s) && Live(s, who) && Live(s, id) && id != who
    ensures ViewKept(s, Finalize(s, who), id)
  {
    assert WindowInv(s, id);
    if s.windows[who].enrolled && s.barrier.Some? {
      SettleKeepsView(Withdrawn(s, who), id);
    }
  }

  function LastRequest(events: seq<Event>, id: WindowId, was: (int, int)): (int, int)
    decreases |events|
  {
    if events == [] then was else LastRequest(events[1..], id, RequestedBy(events[0], id, was))
  }

  function LastBuffer(events: seq<Event>, id: WindowId, was: Buffer): Buffer
    decreases |events|
  {
    if events == [] then was else LastBuffer(events[1..], id, PromisedBy(events[0], id, was))
  }

  predicate Holding(e: Event, id: WindowId) {
    !e.Presenting? && !e.Beginning? && e != Finalizing(id)
  }

  lemma {:induction false} RunKeepsView(s: State, events: seq<Event>, id: WindowId)
    requires Inv(s) && Live(s, id) && Listed(s, id)
    requires forall e | e in events :: Holding(e, id)
    ensures Live(Run(s, events), id) && Listed(Run(s, events), id)
    ensures Run(s, events).windows[id].view.shown == s.windows[id].view.shown
    ensures Run(s, events).windows[id].enrolled ==> Run(s, events).windows[id].view == s.windows[id].view
    ensures Requested(Run(s, events).windows[id]) == LastRequest(events, id, Requested(s.windows[id]))
    ensures Promised(Run(s, events).windows[id]) == LastBuffer(events, id, Promised(s.windows[id]))
    decreases |events|
  {
    assert WindowInv(s, id);
    if events != [] {
      var e := events[0];
      assert Holding(e, id);
      StepKeepsInv(s, e);
      StepKeepsPromises(s, e, id);
      StepKeepsView(s, e, id);
      assert WindowInv(Step(s, e), id);
      RunKeepsView(Step(s, e), events[1..], id);
      RunKeepsInv(Step(s, e), events[1..]);
      if id in s.parked {
        StaysParked(s, events, id);
      }
    }
  }

  lemma {:induction false} StaysParked(s: State, events: seq<Event>, id: WindowId)
    requires Inv(s) && Live(s, id) && id in s.parked
    requires forall e | e in events :: Holding(e, id)
    ensures Live(Run(s, events), id) && id in Run(s, events).parked && !Run(s, events).windows[id].enrolled
    decreases |events|
  {
    assert WindowInv(s, id);
    if events != [] {
      var e := events[0];
      assert Holding(e, id);
      StepKeepsInv(s, e);
      StepKeepsPromises(s, e, id);
      StepKeepsView(s, e, id);
      StaysParked(Step(s, e), events[1..], id);
    }
  }

  /** One relayout, whatever happens in between. From the moment a window is enrolled until the next
      present, its root view keeps the buffer it shows, and while enrolled its position and size too. Only
      that is frozen: the subsurfaces' places, order and visibility and the opaque region follow commits at
      once (Visibility.dfy, Culling.dfy). The present then shows the last buffer its client committed, and
      moves it to the last position asked for if it answered in time. */
  lemma Relayout(s: State, events: seq<Event>, id: WindowId)
    requires Inv(s) && Live(s, id) && s.windows[id].enrolled
    requires forall e | e in events :: Holding(e, id)
    ensures Live(Run(s, events), id)
    ensures Run(s, events).windows[id].view.shown == s.windows[id].view.shown
    ensures Run(s, events).windows[id].enrolled ==> Run(s, events).windows[id].view == s.windows[id].view
    ensures id in Run(s, events).parked ==>
      var before, after := Run(s, events).windows[id], Present(Run(s, events)).windows[id];
      && after.view.shown == LastBuffer(events, id, Promised(s.windows[id]))
      && after.surface.hold == UNHELD
      && (before.responded ==> (after.view.x, after.view.y) == LastRequest(events, id, Requested(s.windows[id])))
  {
    assert WindowInv(s, id);
    RunKeepsView(s, events, id);
    RunKeepsInv(s, events);
    var t := Run(s, events);
    assert WindowInv(t, id);
    if id in t.parked {
      PresentedKeepsPromises(t.windows[id]);
      PresentedWindow(t.windows[id]);
    }
  }

  /** With no cohort open, a present or a begin leaves no window frozen. */
  lemma NothingStaysFrozen(s: State, id: WindowId)
    requires Inv(s) && s.barrier.None? && Live(s, id)
    ensures Live(Present(s), id) && Present(s).windows[id].surface.hold == UNHELD
    ensures Live(Begin(s), id) && Begin(s).windows[id].surface.hold == UNHELD
  {
    PresentKeepsPromises(s, id);
    PresentKeepsInv(s);
    BeginKeepsInv(s);
    assert WindowInv(Present(s), id) && WindowInv(Begin(s), id);
  }

  /** Destroying a window leaves its surface held exactly when the window was parked: withdrawing
      from an open cohort releases the hold, being dropped from the parked list does not. */
  lemma FinalizeOrphansExactly(s: State, id: WindowId)
    requires Inv(s) && NoOrphanHold(s) && Live(s, id)
    ensures NoOrphanHold(Finalize(s, id)) <==> id !in s.parked
  {
    var t := Finalize(s, id);
    assert WindowInv(s, id);
    FinalizeKeepsInv(s, id);
    if s.windows[id].enrolled {
      LeaveKeepsInv(s, id);
      var l := Leave(s, id);
      forall x | x in t.windows && t.windows[x].surface.hold.held ensures t.windows[x].alive {
        assert x != id && x in s.windows;
        FinalizeFrame(s, id, x);
      }
    } else if id in s.parked {
      assert t.windows[id].surface.hold.held && !t.windows[id].alive;
    }
  }

  lemma FinalizeFrame(s: State, id: WindowId, x: WindowId)
    requires Inv(s) && Live(s, id) && x in s.windows && x != id
    ensures x in Finalize(s, id).windows
    ensures Finalize(s, id).windows[x].surface == s.windows[x].surface
    ensures Finalize(s, id).windows[x].alive == s.windows[x].alive
  {
    if s.windows[id].enrolled && s.barrier.Some? {
      assert Withdrawn(s, id).windows[x] == s.windows[x];
    }
  }
}

/** The statics of libswc/window.c and the windows they link, updated in place. Every method is the
    event of the same name; `Flush`, `HandleAttach` and the hold act on one window record. */
module CohortObject {
  import opened Linked
  import opened Words
  import opened Cohort
  import B = Barrier
  import opened BarrierObject

  class WindowTable {
    var windows: map<WindowId, Window>
    var transaction: Transaction?
    var enrolled: seq<WindowId>
    var parked: seq<WindowId>
    var callback: bool
    var callbacks: seq<bool>

    ghost function Model(): State
      reads this, transaction
    {
      State(windows, if transaction == null then None else Some(transaction.Model()),
            enrolled, parked, callback, callbacks)
    }

    constructor ()
      ensures Model() == INITIAL
    {
      windows, transaction, enrolled, parked := map[], null, [], [];
      callback, callbacks := false, [];
    }

    /** Walks the enrolled list, marking each window and moving it to the head of the parked list. */
    method ParkWindows()
      requires transaction != null && Distinct(enrolled) && forall id | id in enrolled :: id in windows
      modifies this`windows, this`enrolled, this`parked
      ensures windows == ParkAll(old(windows), old(enrolled), transaction.Model())
      ensures enrolled == [] && parked == Reverse(old(enrolled)) + old(parked)
    {
      var list, i := enrolled, 0;
      ghost var b := transaction.Model();
      ParkNone(windows, b);
      while i < |list|
        invariant i <= |list|
        invariant enrolled == list[i..]
        invariant parked == Reverse(list[..i]) + old(parked)
        invariant windows == ParkAll(old(windows), list[..i], b)
      {
        var id := list[i];
        var acked := transaction.Acked(id);
        assert list[..i + 1] == list[..i] + [id];
        ParkOneMore(old(windows), list[..i], id, b);
        ReverseSnoc(list[..i], id);
        windows := windows[id := windows[id].(responded := acked, enrolled := false)];
        enrolled := enrolled[1..];
        parked := [id] + parked;
        i := i + 1;
      }
      assert list[..|list|] == list;
    }

    /** Parks the cohort, forgets the barrier, and runs the callback it was given, if any. */
    method HandleDone(timedOut: bool)
      requires transaction != null && transaction.completions != [] && transaction.completions[0] == timedOut
      requires Distinct(enrolled) && forall id | id in enrolled :: id in windows
      modifies this
      ensures Model() == TransactionDone(old(Model()))
    {
      ParkWindows();
      transaction := null;
      var done := callback;
      callback := false;
      if done {
        callbacks := callbacks + [timedOut];
      }
    }

    /** What every touch of the barrier ends with. */
    method Notice()
      requires Core(Model())
      modifies this
      ensures Model() == Settle(old(Model()))
    {
      assert forall id | id in enrolled :: Listed(Model(), id);
      if transaction != null && transaction.complete && transaction.completions != [] {
        HandleDone(transaction.completions[0]);
      }
    }

    method PresentCohort()
      requires Distinct(parked) && forall id | id in parked :: id in windows
      modifies this`windows, this`parked
      ensures windows == PresentAll(old(windows), old(parked)) && parked == []
    {
      var list, i := parked, 0;
      PresentNone(windows);
      while i < |list|
        invariant i <= |list|
        invariant parked == list[i..]
        invariant windows == PresentAll(old(windows), list[..i])
      {
        var id := list[i];
        assert list[..i + 1] == list[..i] + [id];
        PresentOneMore(old(windows), list[..i], id);
        parked := parked[1..];
        var w := windows[id];
        if w.responded {
          w := Flush(w);
          w := w.(configure := w.configure.(pending := false));
        }
        windows := windows[id := ReleaseRender(w)];
        i := i + 1;
      }
      assert list[..|list|] == list;
    }

    method Present()
      requires Inv(Model())
      modifies this
      ensures Model() == Cohort.Present(old(Model()))
      ensures transaction == old(transaction)
    {
      assert forall id | id in parked :: Listed(Model(), id);
      PresentCohort();
    }

    method Begin() returns (ok: bool)
      requires Inv(Model())
      modifies this
      ensures Model() == Cohort.Begin(old(Model()))
      ensures ok == old(Model()).barrier.None?
      ensures if ok then fresh(transaction) else transaction == old(transaction)
    {
      if transaction != null {
        return false;
      }
      assert forall id | id in parked :: Listed(Model(), id);
      PresentCohort();
      transaction := new Transaction();
      enrolled := [];
      return true;
    }

    method Commit(timerOk: bool, done: bool)
      requires Inv(Model())
      modifies this, transaction
      ensures Model() == Cohort.Commit(old(Model()), timerOk, done)
    {
      if transaction == null {
        return;
      }
      CommitKeepsCore(Model(), timerOk, done);
      callback := done;
      transaction.Commit(timerOk);
      Notice();
    }

    method HandleTimeout()
      requires Inv(Model())
      modifies this, transaction
      ensures Model() == Cohort.Expire(old(Model()))
    {
      if transaction == null {
        return;
      }
      BarrierEventKeepsCore(Model(), B.Expiring);
      transaction.HandleTimeout();
      Notice();
    }

    method Join(id: WindowId, awaitingAck: bool)
      requires Inv(Model()) && Live(Model(), id)
      modifies this, transaction
      ensures Model() == Cohort.Join(old(Model()), id, awaitingAck)
      ensures transaction == old(transaction)
    {
      if transaction == null || windows[id].enrolled {
        return;
      }
      var serial := windows[id].configure.serial;
      var added := transaction.Add(id, serial);
      if !added {
        return;
      }
      windows := windows[id := HoldRender(windows[id].(enrolled := true))];
      enrolled := [id] + enrolled;
      if !awaitingAck {
        transaction.Ack(id, serial);
      }
    }

    method Leave(id: WindowId)
      requires Inv(Model()) && Live(Model(), id)
      modifies this, transaction
      ensures Model() == Cohort.Leave(old(Model()), id)
    {
      assert WindowInv(Model(), id);
      if !windows[id].enrolled {
        parked := Drop(parked, id);
        return;
      }
      WithdrawKeepsCore(Model(), id);
      windows := windows[id := windows[id].(enrolled := false)];
      enrolled := Drop(enrolled, id);
      windows := windows[id := ReleaseRender(windows[id])];
      transaction.Remove(id);
      assert Model() == Withdrawn(old(Model()), id);
      Notice();
    }

    method AckConfigure(id: WindowId)
      requires Inv(Model()) && Live(Model(), id)
      modifies this, transaction
      ensures Model() == Cohort.AckConfigure(old(Model()), id)
    {
      assert WindowInv(Model(), id);
      TouchKeepsInv(Model(), id, windows[id].(configure := windows[id].configure.(acknowledged := true)));
      windows := windows[id := windows[id].(configure := windows[id].configure.(acknowledged := true))];
      if windows[id].enrolled {
        BarrierEventKeepsCore(Model(), B.Acking(id, windows[id].configure.serial));
        transaction.Ack(id, windows[id].configure.serial);
        Notice();
      }
    }

    method SetPosition(id: WindowId, x: int, y: int)
      requires Inv(Model()) && Live(Model(), id)
      modifies this, transaction
      ensures Model() == Cohort.SetPosition(old(Model()), id, x, y)
      ensures transaction == old(transaction)
    {
      var w := RequestMove(windows[id], x, y);
      assert WindowInv(Model(), id);
      TouchKeepsInv(Model(), id, w);
      windows := windows[id := w];
      if !w.move.pending {
        return;
      }
      if transaction != null {
        Join(id, w.configure.pending && !w.configure.acknowledged);
      } else if !w.configure.pending {
        windows := windows[id := Flush(w)];
      }
    }

    method SetSize(id: WindowId, width: nat, height: nat)
      requires Inv(Model()) && Live(Model(), id)
      modifies this, transaction
      ensures Model() == Cohort.SetSize(old(Model()), id, width, height)
      ensures transaction == old(transaction)
    {
      var w := windows[id];
      assert WindowInv(Model(), id);
      if || (w.configure.pending && width == w.configure.width && height == w.configure.height)
         || (!w.configure.pending && width == w.view.width && height == w.view.height) {
        return;
      }
      TouchKeepsInv(Model(), id, ConfigureWindow(w, width, height));
      var c := w.configure.(serial := Increment(w.configure.serial), acknowledged := w.syncShell);
      if w.tiled {
        c := c.(width := width, height := height, pending := true);
      }
      windows := windows[id := w.(configure := c)];
      if transaction != null {
        Join(id, !c.acknowledged);
      }
    }

    method SetStacked(id: WindowId)
      requires Inv(Model()) && Live(Model(), id)
      modifies this
      ensures Model() == Cohort.SetStacked(old(Model()), id)
    {
      if !windows[id].enrolled {
        windows := windows[id := Flush(windows[id])];
      }
      var w := windows[id];
      windows := windows[id := w.(configure := w.configure.(pending := false, width := 0, height := 0),
          tiled := false)];
    }

    method Finalize(id: WindowId)
      requires Inv(Model()) && Live(Model(), id)
      modifies this, transaction
      ensures Model() == Cohort.Finalize(old(Model()), id)
    {
      FinalizeKeepsWindow(Model(), id);
      Leave(id);
      windows := windows[id := windows[id].(alive := false)];
    }
  }

  lemma ParkNone(windows: map<WindowId, Window>, b: B.State)
    ensures ParkAll(windows, [], b) == windows
  {}

  lemma ParkOneMore(windows: map<WindowId, Window>, ids: seq<WindowId>, id: WindowId, b: B.State)
    requires id in windows && id !in ids
    ensures ParkAll(windows, ids + [id], b) == ParkAll(windows, ids, b)[id := Park(windows[id], b, id)]
  {}

  lemma PresentNone(windows: map<WindowId, Window>)
    ensures PresentAll(windows, []) == windows
  {}

  lemma PresentOneMore(windows: map<WindowId, Window>, ids: seq<WindowId>, id: WindowId)
    requires id in windows && id !in ids
    ensures PresentAll(windows, ids + [id]) == PresentAll(windows, ids)[id := PresentWindow(windows[id])]
  {}

  lemma CommitKeepsCore(s: State, timerOk: bool, callback: bool)
    requires Inv(s) && s.barrier.Some?
    ensures Core(s.(callback := callback, barrier := Some(B.Commit(s.barrier.value, timerOk))))
  {
    var t := s.(callback := callback);
    forall x | x in t.windows ensures WindowInv(t, x) {
      assert WindowInv(s, x);
    }
    BarrierEventKeepsCore(t, B.Committing(timerOk));
  }

  lemma FinalizeKeepsWindow(s: State, id: WindowId)
    requires Inv(s) && Live(s, id)
    ensures id in Cohort.Leave(s, id).windows
  {
    if s.windows[id].enrolled {
      LeaveKeepsInv(s, id);
    }
  }
}
