/** The manage / settle / render sequence of wm/river_wm.c, on top of the cohort it drives.

    `begin_render` is the callback handed to the cohort; it runs last in whatever settles the
    barrier, so `Absorb` runs it after the cohort event that called it. */
module River {
  import opened Words
  import B = Barrier
  import C = Cohort

  datatype Phase = Idle | Manage | Settle | Render

  /** What a queued event belongs to. Only the owner's destruction can take it off the queue. */
  datatype Owner = Binding(id: nat) | SeatWide | Interaction(window: C.WindowId)

  datatype Queued = Queued(ticket: nat, owner: Owner)

  datatype RiverWindow = RiverWindow(id: C.WindowId, hasProposal: bool, width: int, height: int)

  /** Everything observable, in order. `sent` is false when the owner has no live protocol object. */
  datatype Message =
    | ManagerBound
    | ManagerGone
    | ManageStart
    | ManageFinish
    | RenderStart
    | RenderFinish
    | Enqueued(ticket: nat)
    | Drained(ticket: nat, sent: bool)
    | Dropped(ticket: nat)

  datatype State = State(
    cohort: C.State,
    manager: bool,
    phase: Phase,
    dirty: bool,
    idle: bool,
    windows: seq<RiverWindow>,
    queue: seq<Queued>,
    issued: nat,
    reachable: set<Owner>,
    trace: seq<Message>)

  const INITIAL := State(C.INITIAL, false, Idle, false, false, [], [], 0, {}, [])

  function Say(s: State, m: Message): State {
    s.(trace := s.trace + [m])
  }

  function Schedule(s: State): State {
    s.(dirty := true, idle := s.idle || (s.manager && s.phase.Idle?))
  }

  function DrainAll(queue: seq<Queued>, reachable: set<Owner>): seq<Message> {
    if queue == [] then []
    else [Drained(queue[0].ticket, queue[0].owner in reachable)] + DrainAll(queue[1..], reachable)
  }

  function ClearProposals(ws: seq<RiverWindow>): (r: seq<RiverWindow>)
    ensures |r| == |ws|
    ensures forall i | 0 <= i < |ws| :: r[i] == ws[i].(hasProposal := false)
  {
    if ws == [] then [] else [ws[0].(hasProposal := false)] + ClearProposals(ws[1..])
  }

  function FlushEvents(s: State): State {
    s.(trace := s.trace + DrainAll(s.queue, s.reachable), queue := [])
  }

  function BeginManage(s: State): State {
    if !s.manager || !s.phase.Idle? then s
    else
      var s := FlushEvents(s.(windows := ClearProposals(s.windows)));
      Say(s.(dirty := false, phase := Manage), ManageStart)
  }

  function BeginRender(s: State): State {
    if !s.manager then s.(phase := Idle) else Say(s.(phase := Render), RenderStart)
  }

  /** The cohort has moved on to `c`; if that called the callback, `begin_render` has run. */
  function Absorb(s: State, c: C.State): State {
    var called := |c.callbacks| > |s.cohort.callbacks|;
    var s := s.(cohort := c);
    if called then BeginRender(s) else s
  }

  function SetGeometry(c: C.State, id: C.WindowId, width: nat, height: nat): C.State
    requires C.Live(c, id)
  {
    var v := c.windows[id].view;
    var c := C.SetSize(c, id, width, height);
    if C.Live(c, id) then C.SetPosition(c, id, v.x, v.y) else c
  }

  function ConfigureOne(c: C.State, w: RiverWindow): C.State {
    if !w.hasProposal || w.width <= 0 || w.height <= 0 || !C.Live(c, w.id) then c
    else SetGeometry(c, w.id, w.width, w.height)
  }

  function ConfigureAll(c: C.State, ws: seq<RiverWindow>): C.State
    decreases |ws|
  {
    if ws == [] then c else ConfigureAll(ConfigureOne(c, ws[0]), ws[1..])
  }

  function FinishManage(s: State, timerOk: bool): State {
    if !s.phase.Manage? then s
    else
      var s := Say(s.(phase := Settle), ManageFinish);
      Absorb(s, C.Commit(ConfigureAll(C.Begin(s.cohort), s.windows), timerOk, true))
  }

  function FinishRender(s: State): State {
    if !s.phase.Render? then s
    else
      var s := Say(s.(cohort := C.Present(s.cohort), phase := Idle), RenderFinish);
      if s.dirty then Schedule(s) else s
  }

  function Bind(s: State): State {
    if s.manager then s else Schedule(Say(s.(manager := true), ManagerBound))
  }

  function DestroyManager(s: State): State {
    if !s.manager then s
    else Say(s.(manager := false, phase := Idle,
                reachable := set o | o in s.reachable && !o.Interaction?), ManagerGone)
  }

  function Enqueue(s: State, owner: Owner): State {
    Schedule(Say(s.(queue := s.queue + [Queued(s.issued, owner)], issued := s.issued + 1), Enqueued(s.issued)))
  }

  function Without(queue: seq<Queued>, owner: Owner): (r: seq<Queued>)
    ensures forall q :: q in r <==> q in queue && q.owner != owner
  {
    if queue == [] then []
    else if queue[0].owner == owner then Without(queue[1..], owner)
    else [queue[0]] + Without(queue[1..], owner)
  }

  function DropAll(queue: seq<Queued>, owner: Owner): seq<Message> {
    if queue == [] then []
    else (if queue[0].owner == owner then [Dropped(queue[0].ticket)] else []) + DropAll(queue[1..], owner)
  }

  function FreeOwner(s: State, owner: Owner): State {
    s.(queue := Without(s.queue, owner), trace := s.trace + DropAll(s.queue, owner),
       reachable := s.reachable - {owner})
  }

  function AddWindow(s: State, id: C.WindowId, syncShell: bool): State {
    if id in s.cohort.windows then s
    else
      Schedule(s.(cohort := C.Step(C.Step(s.cohort, C.Creating(id, syncShell)), C.Tiling(id)),
                  windows := s.windows + [RiverWindow(id, false, 0, 0)]))
  }

  function Unlist(ws: seq<RiverWindow>, id: C.WindowId): seq<RiverWindow> {
    if ws == [] then []
    else if ws[0].id == id then Unlist(ws[1..], id)
    else [ws[0]] + Unlist(ws[1..], id)
  }

  function DestroyWindow(s: State, id: C.WindowId): State {
    if !C.Live(s.cohort, id) then s
    else
      var s := Absorb(s, C.Finalize(s.cohort, id));
      Schedule(s.(windows := Unlist(s.windows, id)))
  }

  function Propose(ws: seq<RiverWindow>, id: C.WindowId, width: int, height: int): seq<RiverWindow> {
    if ws == [] then []
    else [if ws[0].id == id then RiverWindow(id, true, width, height) else ws[0]] + Propose(ws[1..], id, width, height)
  }

  /** The cohort events that are not the window manager's own. */
  predicate FromOutside(e: C.Event) {
    || e.Expiring? || e.Acking? || e.Moving? || e.Resizing? || e.Stacking? || e.Tiling? || e.ClientCommit?
  }

  datatype Event =
    | ManagerBinds
    | ManagerDestroyed
    | IdleFires
    | ManageFinished(timerOk: bool)
    | RenderFinished
    | ManageDirtied
    | Proposing(id: C.WindowId, width: int, height: int)
    | Queueing(owner: Owner)
    | OwnerReachable(owner: Owner)
    | OwnerUnreachable(owner: Owner)
    | OwnerFreed(owner: Owner)
    | WindowAdded(id: C.WindowId, syncShell: bool)
    | WindowDestroyed(id: C.WindowId)
    | CohortEvent(event: C.Event)

  function Step(s: State, e: Event): State {
    match e
    case ManagerBinds => Bind(s)
    case ManagerDestroyed => DestroyManager(s)
    case IdleFires => if s.idle then BeginManage(s.(idle := false)) else s
    case ManageFinished(timerOk) => FinishManage(s, timerOk)
    case RenderFinished => FinishRender(s)
    case ManageDirtied => Schedule(s)
    case Proposing(id, width, height) => s.(windows := Propose(s.windows, id, width, height))
    case Queueing(owner) => Enqueue(s, owner)
    case OwnerReachable(owner) => s.(reachable := s.reachable + {owner})
    case OwnerUnreachable(owner) => s.(reachable := s.reachable - {owner})
    case OwnerFreed(owner) => FreeOwner(s, owner)
    case WindowAdded(id, syncShell) => AddWindow(s, id, syncShell)
    case WindowDestroyed(id) => DestroyWindow(s, id)
    case CohortEvent(event) => if FromOutside(event) then Absorb(s, C.Step(s.cohort, event)) else s
  }

  function Run(s: State, events: seq<Event>): State
    decreases |events|
  {
    if events == [] then s else Run(Step(s, events[0]), events[1..])
  }

  // ---------------------------------------------------- phase and wake-up

  /** A cohort the window manager opened is committed, with begin_render to call, at once. */
  predicate Sealed(c: C.State) {
    c.barrier.Some? ==> c.barrier.value.committed && c.callback
  }

  ghost predicate Inv(s: State) {
    && C.Inv(s.cohort)
    && Sealed(s.cohort)
    && (!s.phase.Idle? ==> s.manager)
    && (s.phase.Settle? ==> s.cohort.barrier.Some?)
    && (s.manager && s.phase.Idle? && s.dirty ==> s.idle)
    && (s.queue != [] ==> s.dirty)
  }

  /** How a cohort event that opens nothing can affect the barrier: it stays sealed, or it ends and
      calls back. */
  ghost predicate Advances(c: C.State, d: C.State) {
    && C.Inv(d) && Sealed(d)
    && (c.barrier.None? ==> d.barrier.None?)
    && |d.callbacks| >= |c.callbacks|
    && (c.barrier.Some? && d.barrier.None? <==> |d.callbacks| > |c.callbacks|)
  }

  lemma SettleAdvances(c: C.State, d: C.State)
    requires Sealed(c) && C.Core(d) && d.callbacks == c.callbacks
    requires c.barrier.Some? <==> d.barrier.Some?
    requires d.barrier.Some? ==> d.barrier.value.committed && d.callback
    ensures Advances(c, C.Settle(d))
  {
    C.SettleKeepsInv(d);
  }

  lemma AckAdvances(c: C.State, id: C.WindowId)
    requires C.Inv(c) && Sealed(c) && C.Live(c, id)
    ensures Advances(c, C.AckConfigure(c, id))
  {
    var w := c.windows[id];
    assert C.WindowInv(c, id);
    var w' := w.(configure := w.configure.(acknowledged := true));
    C.TouchKeepsInv(c, id, w');
    if w.enrolled {
      var d := c.(windows := c.windows[id := w']);
      C.BarrierEventKeepsCore(d, B.Acking(id, w.configure.serial));
      SettleAdvances(c, d.(barrier := Some(B.Ack(c.barrier.value, id, w.configure.serial))));
    }
  }

  lemma ExpireAdvances(c: C.State)
    requires C.Inv(c) && Sealed(c)
    ensures Advances(c, C.Expire(c))
  {
    if c.barrier.Some? {
      C.BarrierEventKeepsCore(c, B.Expiring);
      SettleAdvances(c, c.(barrier := Some(B.Expire(c.barrier.value))));
    }
  }

  lemma FinalizeAdvances(c: C.State, id: C.WindowId)
    requires C.Inv(c) && Sealed(c) && C.Live(c, id)
    ensures Advances(c, C.Finalize(c, id))
  {
    C.FinalizeKeepsInv(c, id);
    assert C.WindowInv(c, id);
    if c.windows[id].enrolled {
      C.WithdrawKeepsCore(c, id);
      SettleAdvances(c, C.Withdrawn(c, id));
    }
  }

  /** Nobody can join a sealed cohort, so these leave the barrier and the callback alone. */
  lemma OthersAdvance(c: C.State, e: C.Event)
    requires C.Inv(c) && Sealed(c) && FromOutside(e) && !e.Expiring? && !e.Acking?
    ensures Advances(c, C.Step(c, e))
  {
    C.StepKeepsInv(c, e);
  }

  lemma StepAdvances(c: C.State, e: C.Event)
    requires C.Inv(c) && Sealed(c) && FromOutside(e)
    ensures Advances(c, C.Step(c, e))
  {
    match e
    case Acking(id) => if C.Live(c, id) { AckAdvances(c, id); }
    case Expiring => ExpireAdvances(c);
    case _ => OthersAdvance(c, e);
  }

  lemma AbsorbKeepsInv(s: State, d: C.State)
    requires Inv(s) && Advances(s.cohort, d)
    ensures Inv(Absorb(s, d))
  {}

  /** Configuring the proposals opens, seals and calls back nothing. */
  ghost predicate StillOpen(c: C.State, d: C.State) {
    C.Inv(d) && d.barrier.Some? && d.callbacks == c.callbacks
  }

  lemma SetGeometryStaysOpen(c: C.State, id: C.WindowId, width: nat, height: nat)
    requires C.Inv(c) && c.barrier.Some? && C.Live(c, id)
    ensures StillOpen(c, SetGeometry(c, id, width, height))
  {
    var v, d := c.windows[id].view, C.SetSize(c, id, width, height);
    C.SetSizeKeepsInv(c, id, width, height);
    C.ResizeKeepsPromises(c, id, width, height, id);
    C.SetPositionKeepsInv(d, id, v.x, v.y);
  }

  lemma {:induction false} ConfigureStaysOpen(c: C.State, ws: seq<RiverWindow>)
    requires C.Inv(c) && c.barrier.Some?
    ensures StillOpen(c, ConfigureAll(c, ws))
    decreases |ws|
  {
    if ws != [] {
      if ConfigureOne(c, ws[0]) != c {
        SetGeometryStaysOpen(c, ws[0].id, ws[0].width, ws[0].height);
      }
      ConfigureStaysOpen(ConfigureOne(c, ws[0]), ws[1..]);
    }
  }

  lemma CommitSealsOrEnds(c: C.State, timerOk: bool)
    requires C.Inv(c) && c.barrier.Some?
    ensures var d := C.Commit(c, timerOk, true);
      && C.Inv(d) && Sealed(d)
      && |d.callbacks| >= |c.callbacks|
      && (d.barrier.None? <==> |d.callbacks| > |c.callbacks|)
  {
    C.CommitKeepsInv(c, timerOk, true);
  }

  lemma FinishManageKeepsInv(s: State, timerOk: bool)
    requires Inv(s)
    ensures Inv(FinishManage(s, timerOk))
  {
    if s.phase.Manage? {
      var c := C.Begin(s.cohort);
      C.BeginKeepsInv(s.cohort);
      ConfigureStaysOpen(c, s.windows);
      CommitSealsOrEnds(ConfigureAll(c, s.windows), timerOk);
    }
  }

  lemma FinishRenderKeepsInv(s: State)
    requires Inv(s)
    ensures Inv(FinishRender(s))
  {
    C.PresentKeepsInv(s.cohort);
  }

  lemma AddWindowKeepsInv(s: State, id: C.WindowId, syncShell: bool)
    requires Inv(s)
    ensures Inv(AddWindow(s, id, syncShell))
  {
    C.StepKeepsInv(s.cohort, C.Creating(id, syncShell));
    C.StepKeepsInv(C.Step(s.cohort, C.Creating(id, syncShell)), C.Tiling(id));
  }

  lemma DestroyWindowKeepsInv(s: State, id: C.WindowId)
    requires Inv(s)
    ensures Inv(DestroyWindow(s, id))
  {
    if C.Live(s.cohort, id) {
      FinalizeAdvances(s.cohort, id);
      AbsorbKeepsInv(s, C.Finalize(s.cohort, id));
    }
  }

  lemma StepKeepsInv(s: State, e: Event)
    requires Inv(s)
    ensures Inv(Step(s, e))
  {
    match e
    case ManageFinished(timerOk) => FinishManageKeepsInv(s, timerOk);
    case RenderFinished => FinishRenderKeepsInv(s);
    case WindowAdded(id, syncShell) => AddWindowKeepsInv(s, id, syncShell);
    case WindowDestroyed(id) => DestroyWindowKeepsInv(s, id);
    case CohortEvent(event) =>
      if FromOutside(event) {
        StepAdvances(s.cohort, event);
        AbsorbKeepsInv(s, C.Step(s.cohort, event));
      }
    case OwnerFreed(owner) => assert s.queue == [] ==> Without(s.queue, owner) == [];
    case _ =>
  }

  /** On every run, managers coming and going included: a bound manager with something to report is
      either in a sequence or has an idle callback queued; events never wait without that; and while
      settling there is a committed, unfinished barrier with somebody to wait for and an armed timer. */
  lemma {:induction false} RunKeepsInv(s: State, events: seq<Event>)
    requires Inv(s)
    ensures var t := Run(s, events);
      && Inv(t)
      && (t.manager && t.phase.Idle? && (t.dirty || t.queue != []) ==> t.idle)
      && (t.phase.Settle? ==> t.manager && t.cohort.barrier.Some? && t.cohort.barrier.value.committed)
    decreases |events|
  {
    if events != [] {
      StepKeepsInv(s, events[0]);
      RunKeepsInv(Step(s, events[0]), events[1..]);
    }
  }

  lemma SettleCannotWedge(s: State)
    requires Inv(s) && s.phase.Settle?
    ensures s.cohort.barrier.Some?
    ensures var b := s.cohort.barrier.value;
      b.committed && !b.complete && b.pending > 0 && b.timer.Armed?
    ensures Step(s, CohortEvent(C.Expiring)).phase.Render?
    ensures Step(s, CohortEvent(C.Expiring)).trace == s.trace + [RenderStart]
  {
    ExpireAdvances(s.cohort);
    assert C.Expire(s.cohort).barrier.None?;
  }

  // ------------------------------------------------------ sequence order

  /** The order the protocol prescribes, as an automaton over what was sent and accepted. */
  function Follow(p: Option<Phase>, m: Message): Option<Phase> {
    match (p, m)
    case (None, _) => None
    case (Some(Idle), ManageStart) => Some(Manage)
    case (Some(Manage), ManageFinish) => Some(Settle)
    case (Some(Settle), RenderStart) => Some(Render)
    case (Some(Render), RenderFinish) => Some(Idle)
    case (Some(_), ManagerGone) => Some(Idle)
    case (Some(q), _) => if m.ManageStart? || m.ManageFinish? || m.RenderStart? || m.RenderFinish? then None else p
  }

  function Order(trace: seq<Message>): Option<Phase> {
    if trace == [] then Some(Idle) else Follow(Order(trace[..|trace| - 1]), trace[|trace| - 1])
  }

  /** No cohort outlives the sequence that opened it. */
  predicate Current(s: State) {
    s.cohort.barrier.Some? ==> s.phase.Settle?
  }

  lemma OrderSnoc(trace: seq<Message>, m: Message)
    ensures Order(trace + [m]) == Follow(Order(trace), m)
  {
    assert (trace + [m])[..|trace|] == trace;
  }

  predicate Silent(m: Message) {
    m.Enqueued? || m.Drained? || m.Dropped? || m.ManagerBound?
  }

  lemma {:induction false} SilentKeepsOrder(trace: seq<Message>, more: seq<Message>)
    requires forall m | m in more :: Silent(m)
    ensures Order(trace + more) == Order(trace)
  {
    if more == [] {
      assert trace + more == trace;
    } else {
      var init, m := more[..|more| - 1], more[|more| - 1];
      assert m in more && forall x | x in init :: x in more;
      SilentKeepsOrder(trace, init);
      assert trace + more == (trace + init) + [m];
      OrderSnoc(trace + init, m);
    }
  }

  lemma {:induction false} DrainIsSilent(queue: seq<Queued>, reachable: set<Owner>)
    ensures forall m | m in DrainAll(queue, reachable) :: m.Drained?
  {
    if queue != [] { DrainIsSilent(queue[1..], reachable); }
  }

  lemma {:induction false} DropIsSilent(queue: seq<Queued>, owner: Owner)
    ensures forall m | m in DropAll(queue, owner) :: m.Dropped?
  {
    if queue != [] { DropIsSilent(queue[1..], owner); }
  }

  ghost predicate InOrder(s: State) {
    Order(s.trace) == Some(s.phase)
  }

  lemma BeginManageInOrder(s: State)
    requires InOrder(s)
    ensures InOrder(BeginManage(s)) && BeginManage(s).cohort == s.cohort
    ensures s.phase.Settle? ==> BeginManage(s) == s
  {
    DrainIsSilent(s.queue, s.reachable);
    SilentKeepsOrder(s.trace, DrainAll(s.queue, s.reachable));
    OrderSnoc(s.trace + DrainAll(s.queue, s.reachable), ManageStart);
  }

  lemma AbsorbInOrder(s: State, d: C.State)
    requires Inv(s) && InOrder(s) && Current(s) && Advances(s.cohort, d)
    ensures InOrder(Absorb(s, d)) && Current(Absorb(s, d))
  {
    OrderSnoc(s.trace, RenderStart);
  }

  /** The cohort that manage_finish commits, and whether its barrier is already complete. */
  function Committed(s: State, timerOk: bool): C.State {
    C.Commit(ConfigureAll(C.Begin(s.cohort), s.windows), timerOk, true)
  }

  lemma CommittedSealsOrEnds(s: State, timerOk: bool)
    requires Inv(s)
    ensures var d := Committed(s, timerOk); d.barrier.None? <==> |d.callbacks| > |s.cohort.callbacks|
  {
    var c := C.Begin(s.cohort);
    C.BeginKeepsInv(s.cohort);
    ConfigureStaysOpen(c, s.windows);
    CommitSealsOrEnds(ConfigureAll(c, s.windows), timerOk);
  }

  lemma SettleInOrder(s: State, d: C.State)
    requires InOrder(s) && s.manager && s.phase.Settle? && (d.barrier.None? <==> |d.callbacks| > |s.cohort.callbacks|)
    ensures InOrder(Absorb(s, d)) && Current(Absorb(s, d))
  {
    OrderSnoc(s.trace, RenderStart);
  }

  lemma FinishManageInOrder(s: State, timerOk: bool)
    requires Inv(s) && InOrder(s) && Current(s)
    ensures InOrder(FinishManage(s, timerOk)) && Current(FinishManage(s, timerOk))
  {
    if s.phase.Manage? {
      var said := Say(s.(phase := Settle), ManageFinish);
      OrderSnoc(s.trace, ManageFinish);
      CommittedSealsOrEnds(s, timerOk);
      SettleInOrder(said, Committed(s, timerOk));
    }
  }

  lemma FinishRenderInOrder(s: State)
    requires Inv(s) && InOrder(s) && Current(s)
    ensures InOrder(FinishRender(s)) && Current(FinishRender(s))
  {
    OrderSnoc(s.trace, RenderFinish);
  }

  lemma DestroyManagerInOrder(s: State)
    requires Inv(s) && InOrder(s) && Current(s)
    ensures InOrder(DestroyManager(s))
    ensures Current(DestroyManager(s)) <==> !s.phase.Settle?
  {
    OrderSnoc(s.trace, ManagerGone);
  }

  lemma DestroyWindowInOrder(s: State, id: C.WindowId)
    requires Inv(s) && InOrder(s) && Current(s)
    ensures InOrder(DestroyWindow(s, id)) && Current(DestroyWindow(s, id))
  {
    if C.Live(s.cohort, id) {
      FinalizeAdvances(s.cohort, id);
      AbsorbInOrder(s, C.Finalize(s.cohort, id));
    }
  }

  lemma FreeOwnerInOrder(s: State, owner: Owner)
    requires InOrder(s) && Current(s)
    ensures InOrder(FreeOwner(s, owner)) && Current(FreeOwner(s, owner))
  {
    DropIsSilent(s.queue, owner);
    SilentKeepsOrder(s.trace, DropAll(s.queue, owner));
  }

  lemma AddWindowInOrder(s: State, id: C.WindowId, syncShell: bool)
    requires InOrder(s) && Current(s)
    ensures InOrder(AddWindow(s, id, syncShell)) && Current(AddWindow(s, id, syncShell))
  {}

  /** Exactly one thing makes a cohort outlive its sequence: the manager going away while settling. */
  lemma CohortStaysCurrent(s: State, event: C.Event)
    requires Inv(s) && InOrder(s) && Current(s)
    ensures InOrder(Step(s, CohortEvent(event))) && Current(Step(s, CohortEvent(event)))
  {
    if FromOutside(event) {
      StepAdvances(s.cohort, event);
      AbsorbInOrder(s, C.Step(s.cohort, event));
    }
  }

  lemma RequestsStayCurrent(s: State, e: Event)
    requires Inv(s) && InOrder(s) && Current(s)
    requires !e.CohortEvent? && !e.ManageFinished? && !e.WindowDestroyed? && !e.ManagerDestroyed?
    ensures InOrder(Step(s, e)) && Current(Step(s, e))
  {
    match e
    case ManagerBinds => OrderSnoc(s.trace, ManagerBound);
    case IdleFires => if s.idle { BeginManageInOrder(s.(idle := false)); }
    case RenderFinished => FinishRenderInOrder(s);
    case Queueing(owner) => OrderSnoc(s.trace, Enqueued(s.issued));
    case OwnerFreed(owner) => FreeOwnerInOrder(s, owner);
    case WindowAdded(id, syncShell) => AddWindowInOrder(s, id, syncShell);
    case _ =>
  }

  /** The only step after which a cohort outlives its sequence is destroying the manager while it settles. */
  lemma StepStaysCurrent(s: State, e: Event)
    requires Inv(s) && InOrder(s) && Current(s)
    ensures InOrder(Step(s, e))
    ensures Current(Step(s, e)) <==> !(e.ManagerDestroyed? && s.phase.Settle?)
  {
    match e
    case ManagerDestroyed => DestroyManagerInOrder(s);
    case ManageFinished(timerOk) => FinishManageInOrder(s, timerOk);
    case WindowDestroyed(id) => DestroyWindowInOrder(s, id);
    case CohortEvent(event) => CohortStaysCurrent(s, event);
    case _ => RequestsStayCurrent(s, e);
  }

  /** At no point of the run is the manager destroyed while a cohort is settling. */
  predicate NeverOrphaned(s: State, events: seq<Event>)
    decreases |events|
  {
    events == [] ||
    (!(events[0].ManagerDestroyed? && s.phase.Settle?) && NeverOrphaned(Step(s, events[0]), events[1..]))
  }

  /** manage_start, manage_finish, render_start and render_finish follow one another in strict cyclic
      order on every run in which no manager is destroyed while its cohort is settling. */
  lemma {:induction false} RunInOrder(s: State, events: seq<Event>)
    requires Inv(s) && InOrder(s) && Current(s) && NeverOrphaned(s, events)
    ensures InOrder(Run(s, events)) && Current(Run(s, events))
    decreases |events|
  {
    if events != [] {
      StepKeepsInv(s, events[0]);
      StepStaysCurrent(s, events[0]);
      RunInOrder(Step(s, events[0]), events[1..]);
    }
  }

  /** When it is, the order is broken as soon as the orphaned cohort expires during a later manager's
      manage sequence. */
  lemma OrphanBreaksOrder(s: State)
    requires Inv(s) && InOrder(s) && !Current(s) && s.phase.Manage?
    ensures Order(Step(s, CohortEvent(C.Expiring)).trace) == None
  {
    ExpireAdvances(s.cohort);
    assert C.Expire(s.cohort).barrier.None?;
    OrderSnoc(s.trace, RenderStart);
  }

  /** So every settling state is one from which the order can be broken: destroy the manager, bind
      another, let it start managing, and let the old cohort expire. */
  lemma DestroyWhileSettling(s: State)
    requires Inv(s) && InOrder(s) && Current(s) && s.phase.Settle?
    ensures Order(Run(s, [ManagerDestroyed, ManagerBinds, IdleFires, CohortEvent(C.Expiring)]).trace) == None
  {
    var s1 := Step(s, ManagerDestroyed);
    var s2 := Step(s1, ManagerBinds);
    var s3 := Step(s2, IdleFires);
    StepKeepsInv(s, ManagerDestroyed);
    StepKeepsInv(s1, ManagerBinds);
    StepKeepsInv(s2, IdleFires);
    DestroyManagerInOrder(s);
    OrderSnoc(s1.trace, ManagerBound);
    BeginManageInOrder(s2.(idle := false));
    OrphanBreaksOrder(s3);
    RunFour(s, ManagerDestroyed, ManagerBinds, IdleFires, CohortEvent(C.Expiring));
  }

  lemma RunFirst(s: State, e: Event, events: seq<Event>)
    ensures Run(s, [e] + events) == Run(Step(s, e), events)
  {
    assert ([e] + events)[1..] == events;
  }

  lemma RunFour(s: State, a: Event, b: Event, c: Event, d: Event)
    ensures Run(s, [a, b, c, d]) == Step(Step(Step(Step(s, a), b), c), d)
  {
    assert [a, b, c, d] == [a] + ([b] + ([c] + ([d] + [])));
    RunFirst(s, a, [b] + ([c] + ([d] + [])));
    RunFirst(Step(s, a), b, [c] + ([d] + []));
    RunFirst(Step(Step(s, a), b), c, [d] + []);
    RunFirst(Step(Step(Step(s, a), b), c), d, []);
  }

  /** An accepted render_finish shows everything: no live window is left frozen, every parked one
      shows its client's last buffer, and those that answered in time are where they were asked to be. */
  lemma RenderFinishShowsEverything(s: State, id: C.WindowId)
    requires Inv(s) && Current(s) && s.phase.Render? && C.Live(s.cohort, id)
    ensures var c, d := s.cohort, Step(s, RenderFinished).cohort;
      && C.Live(d, id)
      && d.windows[id].surface.hold == C.UNHELD
      && (id in c.parked ==> d.windows[id].view.shown == C.Promised(c.windows[id]))
      && (id in c.parked && c.windows[id].responded ==>
            (d.windows[id].view.x, d.windows[id].view.y) == C.Requested(c.windows[id]))
  {
    C.NothingStaysFrozen(s.cohort, id);
    assert C.WindowInv(s.cohort, id);
    if id in s.cohort.parked {
      C.PresentedKeepsPromises(s.cohort.windows[id]);
    }
  }

  // ---------------------------------------------------- the event queue

  /** One message's effect on the tickets announced and neither drained nor dropped yet. */
  function Account(before: set<nat>, m: Message): set<nat> {
    if m.Enqueued? then before + {m.ticket}
    else if m.Drained? || m.Dropped? then before - {m.ticket}
    else before
  }

  function Outstanding(trace: seq<Message>): set<nat> {
    if trace == [] then {}
    else Account(Outstanding(trace[..|trace| - 1]), trace[|trace| - 1])
  }

  function TicketDrained(m: Message): seq<nat> {
    if m.Drained? then [m.ticket] else []
  }

  function DrainedTickets(trace: seq<Message>): seq<nat> {
    if trace == [] then []
    else DrainedTickets(trace[..|trace| - 1]) + TicketDrained(trace[|trace| - 1])
  }

  function Waiting(queue: seq<Queued>): set<nat> {
    set q | q in queue :: q.ticket
  }

  ghost predicate Increasing(ts: seq<nat>) {
    forall i, j | 0 <= i < j < |ts| :: ts[i] < ts[j]
  }

  ghost predicate CleanStarts(trace: seq<Message>) {
    forall k | 0 <= k < |trace| && trace[k].ManageStart? :: Outstanding(trace[..k]) == {}
  }

  ghost predicate InLine(drained: seq<nat>, queue: seq<Queued>, issued: nat) {
    && Increasing(drained)
    && (forall i, j | 0 <= i < j < |queue| :: queue[i].ticket < queue[j].ticket)
    && (forall t, q | t in drained && q in queue :: t < q.ticket)
    && (forall t | t in drained :: t < issued)
    && (forall q | q in queue :: q.ticket < issued)
  }

  /** Tickets number the events in the order they were queued. Those drained are in that order, as are
      those waiting, and none that waits is older than one drained; what waits is exactly what the
      trace leaves outstanding; and at every manage_start nothing was outstanding. */
  ghost predicate Orderly(trace: seq<Message>, queue: seq<Queued>, issued: nat) {
    && InLine(DrainedTickets(trace), queue, issued)
    && Outstanding(trace) == Waiting(queue)
    && CleanStarts(trace)
  }

  lemma TraceSnoc(trace: seq<Message>, m: Message)
    ensures Outstanding(trace + [m]) == Account(Outstanding(trace), m)
    ensures DrainedTickets(trace + [m]) == DrainedTickets(trace) + TicketDrained(m)
  {
    assert (trace + [m])[..|trace|] == trace;
  }

  lemma CleanSnoc(trace: seq<Message>, m: Message)
    requires CleanStarts(trace) && (m.ManageStart? ==> Outstanding(trace) == {})
    ensures CleanStarts(trace + [m])
  {
    var longer := trace + [m];
    forall k | 0 <= k < |longer| && longer[k].ManageStart? ensures Outstanding(longer[..k]) == {} {
      assert longer[..k] == trace[..k];
      if k == |trace| { assert trace[..k] == trace; }
    }
  }

  lemma WaitingWithout(queue: seq<Queued>, i: nat)
    requires i < |queue| && forall i, j | 0 <= i < j < |queue| :: queue[i].ticket < queue[j].ticket
    ensures Waiting(queue[..i] + queue[i + 1..]) == Waiting(queue) - {queue[i].ticket}
  {
    var rest := queue[..i] + queue[i + 1..];
    forall t | t in Waiting(queue) && t != queue[i].ticket ensures t in Waiting(rest) {
      var j :| 0 <= j < |queue| && queue[j].ticket == t;
      assert rest[if j < i then j else j - 1] == queue[j];
    }
    forall t | t in Waiting(rest) ensures t in Waiting(queue) && t != queue[i].ticket {
      var j :| 0 <= j < |rest| && rest[j].ticket == t;
      assert rest[j] == queue[if j < i then j else j + 1];
    }
  }

  lemma WaitingTail(queue: seq<Queued>)
    requires queue != [] && forall i, j | 0 <= i < j < |queue| :: queue[i].ticket < queue[j].ticket
    ensures Waiting(queue[1..]) == Waiting(queue) - {queue[0].ticket}
  {
    WaitingWithout(queue, 0);
    assert queue[..0] + queue[1..] == queue[1..];
  }

  lemma IncreasingSnoc(ts: seq<nat>, t: nat)
    requires Increasing(ts) && forall u | u in ts :: u < t
    ensures Increasing(ts + [t])
  {
    forall i | 0 <= i < |ts| ensures ts[i] < t { assert ts[i] in ts; }
  }

  lemma DrainFirst(trace: seq<Message>, queue: seq<Queued>, issued: nat, sent: bool)
    requires Orderly(trace, queue, issued) && queue != []
    ensures Orderly(trace + [Drained(queue[0].ticket, sent)], queue[1..], issued)
  {
    var m := Drained(queue[0].ticket, sent);
    TraceSnoc(trace, m);
    CleanSnoc(trace, m);
    WaitingTail(queue);
    LeavesLine(DrainedTickets(trace), queue, issued);
  }

  lemma DropAt(trace: seq<Message>, queue: seq<Queued>, issued: nat, i: nat)
    requires Orderly(trace, queue, issued) && i < |queue|
    ensures Orderly(trace + [Dropped(queue[i].ticket)], queue[..i] + queue[i + 1..], issued)
  {
    var m := Dropped(queue[i].ticket);
    TraceSnoc(trace, m);
    CleanSnoc(trace, m);
    WaitingWithout(queue, i);
  }

  lemma {:induction false} DrainKeepsOrderly(trace: seq<Message>, queue: seq<Queued>, reachable: set<Owner>,
                                             issued: nat)
    requires Orderly(trace, queue, issued)
    ensures Orderly(trace + DrainAll(queue, reachable), [], issued)
    decreases |queue|
  {
    if queue == [] {
      assert trace + DrainAll(queue, reachable) == trace;
    } else {
      var sent := queue[0].owner in reachable;
      DrainFirst(trace, queue, issued, sent);
      DrainKeepsOrderly(trace + [Drained(queue[0].ticket, sent)], queue[1..], reachable, issued);
      assert trace + DrainAll(queue, reachable)
          == (trace + [Drained(queue[0].ticket, sent)]) + DrainAll(queue[1..], reachable);
    }
  }

  lemma Regroup<T>(a: seq<T>, x: T, b: seq<T>)
    ensures a + ([x] + b) == (a + [x]) + b
  {}

  lemma TakeOut<T>(a: seq<T>, x: T, b: seq<T>)
    ensures (a + ([x] + b))[..|a|] + (a + ([x] + b))[|a| + 1..] == a + b
    ensures (a + ([x] + b))[|a|] == x
  {}

  lemma DropUnfolds(trace: seq<Message>, kept: seq<Queued>, rest: seq<Queued>, owner: Owner)
    requires rest != []
    ensures (kept + [rest[0]]) + rest[1..] == kept + rest
    ensures (kept + rest)[|kept|] == rest[0]
        && (kept + rest)[..|kept|] + (kept + rest)[|kept| + 1..] == kept + rest[1..]
    ensures rest[0].owner == owner ==>
      && trace + DropAll(rest, owner) == (trace + [Dropped(rest[0].ticket)]) + DropAll(rest[1..], owner)
      && Without(rest, owner) == Without(rest[1..], owner)
    ensures rest[0].owner != owner ==>
      && DropAll(rest, owner) == DropAll(rest[1..], owner)
      && kept + Without(rest, owner) == (kept + [rest[0]]) + Without(rest[1..], owner)
  {
    var q, tail := rest[0], rest[1..];
    assert rest == [q] + tail;
    Regroup(kept, q, tail);
    TakeOut(kept, q, tail);
    if q.owner == owner {
      Regroup(trace, Dropped(q.ticket), DropAll(tail, owner));
    } else {
      assert DropAll(rest, owner) == [] + DropAll(tail, owner) == DropAll(tail, owner);
      Regroup(kept, q, Without(tail, owner));
    }
  }

  lemma {:induction false} DropKeepsOrderly(trace: seq<Message>, kept: seq<Queued>, rest: seq<Queued>,
                                            owner: Owner, issued: nat)
    requires Orderly(trace, kept + rest, issued)
    ensures Orderly(trace + DropAll(rest, owner), kept + Without(rest, owner), issued)
    decreases |rest|
  {
    if rest == [] {
      assert trace + DropAll(rest, owner) == trace;
    } else {
      DropUnfolds(trace, kept, rest, owner);
      if rest[0].owner == owner {
        DropAt(trace, kept + rest, issued, |kept|);
        DropKeepsOrderly(trace + [Dropped(rest[0].ticket)], kept, rest[1..], owner, issued);
      } else {
        DropKeepsOrderly(trace, kept + [rest[0]], rest[1..], owner, issued);
      }
    }
  }

  lemma WaitingMore(queue: seq<Queued>, q: Queued)
    ensures Waiting(queue + [q]) == Waiting(queue) + {q.ticket}
  {
    var longer := queue + [q];
    assert longer[|queue|] in longer;
    assert forall p | p in queue :: p in longer;
  }

  lemma JoinsLine(drained: seq<nat>, queue: seq<Queued>, issued: nat, owner: Owner)
    requires InLine(drained, queue, issued)
    ensures InLine(drained, queue + [Queued(issued, owner)], issued + 1)
  {
    assert forall i | 0 <= i < |queue| :: queue[i] in queue;
  }

  lemma LeavesLine(drained: seq<nat>, queue: seq<Queued>, issued: nat)
    requires InLine(drained, queue, issued) && queue != []
    ensures InLine(drained + [queue[0].ticket], queue[1..], issued)
  {
    assert queue[0] in queue;
    IncreasingSnoc(drained, queue[0].ticket);
  }

  lemma EnqueueKeepsOrderly(trace: seq<Message>, queue: seq<Queued>, issued: nat, owner: Owner)
    requires Orderly(trace, queue, issued)
    ensures Orderly(trace + [Enqueued(issued)], queue + [Queued(issued, owner)], issued + 1)
  {
    TraceSnoc(trace, Enqueued(issued));
    CleanSnoc(trace, Enqueued(issued));
    WaitingMore(queue, Queued(issued, owner));
    JoinsLine(DrainedTickets(trace), queue, issued, owner);
    assert DrainedTickets(trace + [Enqueued(issued)]) == DrainedTickets(trace);
  }

  lemma SayKeepsOrderly(trace: seq<Message>, queue: seq<Queued>, issued: nat, m: Message)
    requires Orderly(trace, queue, issued) && !m.Enqueued? && !m.Drained? && !m.Dropped?
    requires m.ManageStart? ==> queue == []
    ensures Orderly(trace + [m], queue, issued)
  {
    TraceSnoc(trace, m);
    CleanSnoc(trace, m);
    assert DrainedTickets(trace + [m]) == DrainedTickets(trace);
  }

  ghost predicate QueueInv(s: State) {
    Orderly(s.trace, s.queue, s.issued)
  }

  lemma AbsorbKeepsQueueInv(s: State, d: C.State)
    requires QueueInv(s)
    ensures QueueInv(Absorb(s, d))
  {
    SayKeepsOrderly(s.trace, s.queue, s.issued, RenderStart);
  }

  lemma FinishManageKeepsQueueInv(s: State, timerOk: bool)
    requires QueueInv(s)
    ensures QueueInv(FinishManage(s, timerOk))
  {
    SayKeepsOrderly(s.trace, s.queue, s.issued, ManageFinish);
    AbsorbKeepsQueueInv(Say(s.(phase := Settle), ManageFinish),
                        C.Commit(ConfigureAll(C.Begin(s.cohort), s.windows), timerOk, true));
  }

  lemma BeginManageKeepsQueueInv(s: State)
    requires QueueInv(s)
    ensures QueueInv(BeginManage(s))
  {
    DrainKeepsOrderly(s.trace, s.queue, s.reachable, s.issued);
    SayKeepsOrderly(s.trace + DrainAll(s.queue, s.reachable), [], s.issued, ManageStart);
  }

  lemma QueueingKeepsQueueInv(s: State, owner: Owner)
    requires QueueInv(s)
    ensures QueueInv(Step(s, Queueing(owner)))
  {
    EnqueueKeepsOrderly(s.trace, s.queue, s.issued, owner);
  }

  lemma FreedKeepsOrderly(trace: seq<Message>, queue: seq<Queued>, owner: Owner, issued: nat)
    requires Orderly(trace, queue, issued)
    ensures Orderly(trace + DropAll(queue, owner), Without(queue, owner), issued)
  {
    assert [] + queue == queue && [] + Without(queue, owner) == Without(queue, owner);
    DropKeepsOrderly(trace, [], queue, owner, issued);
  }

  lemma FreeingKeepsQueueInv(s: State, owner: Owner)
    requires QueueInv(s)
    ensures QueueInv(Step(s, OwnerFreed(owner)))
  {
    FreedKeepsOrderly(s.trace, s.queue, owner, s.issued);
  }

  lemma CohortKeepsQueueInv(s: State, e: Event)
    requires QueueInv(s) && (e.WindowDestroyed? || e.CohortEvent?)
    ensures QueueInv(Step(s, e))
  {
    match e
    case WindowDestroyed(id) =>
      if C.Live(s.cohort, id) { AbsorbKeepsQueueInv(s, C.Finalize(s.cohort, id)); }
    case CohortEvent(event) => AbsorbKeepsQueueInv(s, C.Step(s.cohort, event));
  }

  lemma StepKeepsQueueInv(s: State, e: Event)
    requires QueueInv(s)
    ensures QueueInv(Step(s, e))
  {
    match e
    case ManagerBinds => SayKeepsOrderly(s.trace, s.queue, s.issued, ManagerBound);
    case ManagerDestroyed => SayKeepsOrderly(s.trace, s.queue, s.issued, ManagerGone);
    case IdleFires => BeginManageKeepsQueueInv(s.(idle := false));
    case ManageFinished(timerOk) => FinishManageKeepsQueueInv(s, timerOk);
    case RenderFinished => SayKeepsOrderly(s.trace, s.queue, s.issued, RenderFinish);
    case Queueing(owner) => QueueingKeepsQueueInv(s, owner);
    case OwnerFreed(owner) => FreeingKeepsQueueInv(s, owner);
    case WindowDestroyed(_) => CohortKeepsQueueInv(s, e);
    case CohortEvent(_) => CohortKeepsQueueInv(s, e);
    case _ =>
  }

  /** Queued events are drained first in, first out, each once, and always before the next
      manage_start, unless their owner is destroyed while they wait. */
  lemma {:induction false} RunKeepsQueueInv(s: State, events: seq<Event>)
    requires QueueInv(s)
    ensures QueueInv(Run(s, events))
    decreases |events|
  {
    if events != [] {
      StepKeepsQueueInv(s, events[0]);
      RunKeepsQueueInv(Step(s, events[0]), events[1..]);
    }
  }
}

/** Runs from the initial state. */
module RiverRuns {
  import opened Words
  import opened River
  import C = Cohort
  import Stragglers

  lemma InitialHolds()
    ensures Inv(INITIAL) && InOrder(INITIAL) && Current(INITIAL) && QueueInv(INITIAL)
  {
    Stragglers.InitialInv();
  }

  /** All that is kept holds after every run from the start; the order of the sequence as long as no
      manager is destroyed while its cohort is settling. */
  lemma EveryRun(events: seq<Event>)
    ensures Inv(Run(INITIAL, events)) && QueueInv(Run(INITIAL, events))
    ensures NeverOrphaned(INITIAL, events) ==> InOrder(Run(INITIAL, events)) && Current(Run(INITIAL, events))
  {
    InitialHolds();
    RunKeepsInv(INITIAL, events);
    RunKeepsQueueInv(INITIAL, events);
    if NeverOrphaned(INITIAL, events) { RunInOrder(INITIAL, events); }
  }

  lemma {:induction false} KeepingTheManager(s: State, events: seq<Event>)
    requires ManagerDestroyed !in events
    ensures NeverOrphaned(s, events)
    decreases |events|
  {
    if events != [] { KeepingTheManager(Step(s, events[0]), events[1..]); }
  }

  /** A manager with one new window and a size proposed for it, in its first manage sequence. */
  ghost predicate ManagesOne(s: State, id: C.WindowId) {
    && s.phase.Manage? && s.manager && s.windows == [RiverWindow(id, true, 10, 10)]
    && s.cohort == C.INITIAL.(windows := map[id := C.NewWindow(false).(tiled := true)])
  }

  lemma OneWindow(id: C.WindowId)
    ensures ClearProposals([RiverWindow(id, false, 0, 0)]) == [RiverWindow(id, false, 0, 0)]
    ensures Propose([RiverWindow(id, false, 0, 0)], id, 10, 10) == [RiverWindow(id, true, 10, 10)]
  {
    assert [RiverWindow(id, false, 0, 0)][1..] == [];
  }

  lemma Managing(id: C.WindowId)
    ensures ManagesOne(Step(Step(Step(Step(INITIAL, WindowAdded(id, false)), ManagerBinds), IdleFires), Proposing(id,
        10, 10)), id)
  {
    OneWindow(id);
    var a := Step(INITIAL, WindowAdded(id, false));
    assert a.windows == [RiverWindow(id, false, 0, 0)];
    assert a.cohort == C.INITIAL.(windows := map[id := C.NewWindow(false).(tiled := true)]);
    var c := Step(Step(a, ManagerBinds), IdleFires);
    assert c.phase.Manage? && c.windows == [RiverWindow(id, false, 0, 0)] && c.cohort == a.cohort;
  }

  lemma ConfiguredWaits(id: C.WindowId)
    ensures var c := Stragglers.OneOpen(id);
      var d := ConfigureAll(c, [RiverWindow(id, true, 10, 10)]);
      C.Live(d, id) && Stragglers.Waits(d, id, d.windows[id].configure.serial)
  {
    var c := Stragglers.OneOpen(id);
    Stragglers.OpenedOne(id);
    Stragglers.OpenedInv(id);
    Stragglers.ResizeEnrols(c, id, 10, 10);
    var d := C.SetSize(c, id, 10, 10);
    Stragglers.MoveWaits(d, id, 0, 0, id, d.windows[id].configure.serial);
    C.SetPositionKeepsInv(d, id, 0, 0);
    assert [RiverWindow(id, true, 10, 10)][1..] == [];
  }

  lemma ManagedSettles(s: State, id: C.WindowId)
    requires Inv(s) && ManagesOne(s, id)
    ensures Step(s, ManageFinished(true)).phase.Settle?
  {
    ConfiguredWaits(id);
    assert C.Begin(s.cohort) == Stragglers.OneOpen(id);
    var d := ConfigureAll(C.Begin(s.cohort), s.windows);
    Stragglers.CommitWaits(d, true, id, d.windows[id].configure.serial);
    assert Committed(s, true).barrier.Some?;
    CommittedSealsOrEnds(s, true);
  }

  lemma RunsToManaging(id: C.WindowId, s: State)
    requires s == Run(INITIAL, [WindowAdded(id, false), ManagerBinds, IdleFires, Proposing(id, 10, 10)])
    ensures Inv(s) && ManagesOne(s, id)
  {
    EveryRun([WindowAdded(id, false), ManagerBinds, IdleFires, Proposing(id, 10, 10)]);
    RunFour(INITIAL, WindowAdded(id, false), ManagerBinds, IdleFires, Proposing(id, 10, 10));
    Managing(id);
  }

  lemma {:induction false} RunConcat(s: State, a: seq<Event>, b: seq<Event>)
    ensures Run(s, a + b) == Run(Run(s, a), b)
    decreases |a|
  {
    if a == [] {
      assert a + b == b;
    } else {
      assert (a + b)[1..] == a[1..] + b;
      RunConcat(Step(s, a[0]), a[1..], b);
    }
  }

  /** A run that never destroys the manager and ends in a manage sequence settles once that is finished
      with a proposal; destroying the manager then lets the order be broken. */
  lemma SettlesAndBreaks(events: seq<Event>, id: C.WindowId)
    requires ManagerDestroyed !in events && ManagesOne(Run(INITIAL, events), id)
    ensures var s := Run(INITIAL, events + [ManageFinished(true)]);
      && s.phase.Settle? && Inv(s) && InOrder(s) && Current(s)
      && Order(Run(s, [ManagerDestroyed, ManagerBinds, IdleFires, CohortEvent(C.Expiring)]).trace) == None
  {
    var s := Run(INITIAL, events);
    EveryRun(events);
    ManagedSettles(s, id);
    RunConcat(INITIAL, events, [ManageFinished(true)]);
    RunFirst(s, ManageFinished(true), []);
    assert [ManageFinished(true)] + [] == [ManageFinished(true)];
    KeepingTheManager(INITIAL, events + [ManageFinished(true)]);
    EveryRun(events + [ManageFinished(true)]);
    DestroyWhileSettling(Run(INITIAL, events + [ManageFinished(true)]));
  }

  /** A settling state is reached by adding a window, binding a manager and proposing a size. */
  lemma SettlingIsReached(id: C.WindowId)
    ensures var events := [WindowAdded(id, false), ManagerBinds, IdleFires, Proposing(id, 10, 10)];
      var s := Run(INITIAL, events + [ManageFinished(true)]);
      && s.phase.Settle? && Inv(s) && InOrder(s) && Current(s)
      && Order(Run(s, [ManagerDestroyed, ManagerBinds, IdleFires, CohortEvent(C.Expiring)]).trace) == None
  {
    var events := [WindowAdded(id, false), ManagerBinds, IdleFires, Proposing(id, 10, 10)];
    RunsToManaging(id, Run(INITIAL, events));
    SettlesAndBreaks(events, id);
  }

  // ------------------------------------- a manager gone while rendering

  /** The window is parked, so it is held, and no render sequence is under way that could present it. */
  ghost predicate LeftParked(s: State, id: C.WindowId) {
    Inv(s) && C.Live(s.cohort, id) && id in s.cohort.parked && (s.phase.Idle? || s.phase.Manage?)
  }

  /** The step is not an accepted manage_finish, nor the end of the window. */
  predicate Spares(s: State, e: Event, id: C.WindowId) {
    !(e.ManageFinished? && s.phase.Manage?) && e != WindowDestroyed(id)
  }

  predicate AllSpare(s: State, events: seq<Event>, id: C.WindowId)
    decreases |events|
  {
    events == [] || (Spares(s, events[0], id) && AllSpare(Step(s, events[0]), events[1..], id))
  }

  lemma CohortStepKeepsParked(c: C.State, e: C.Event, id: C.WindowId)
    requires C.Inv(c) && C.Live(c, id) && id in c.parked && C.Holding(e, id)
    ensures var d := C.Step(c, e);
      && C.Inv(d) && C.Live(d, id) && id in d.parked
      && d.windows[id].surface.hold.held && d.windows[id].view.shown == c.windows[id].view.shown
  {
    assert C.Run(c, [e]) == C.Step(c, e) by { assert [e][1..] == []; }
    C.StaysParked(c, [e], id);
    C.RunKeepsView(c, [e], id);
    C.StepKeepsInv(c, e);
    assert C.WindowInv(C.Step(c, e), id);
  }

  lemma AddKeepsParked(c: C.State, x: C.WindowId, syncShell: bool, id: C.WindowId)
    requires C.Inv(c) && C.Live(c, id) && id in c.parked
    ensures var d := C.Step(C.Step(c, C.Creating(x, syncShell)), C.Tiling(x));
      C.Live(d, id) && id in d.parked && d.windows[id].view.shown == c.windows[id].view.shown
  {
    CohortStepKeepsParked(c, C.Creating(x, syncShell), id);
    CohortStepKeepsParked(C.Step(c, C.Creating(x, syncShell)), C.Tiling(x), id);
  }

  lemma OutsideKeepsParked(s: State, e: C.Event, id: C.WindowId)
    requires LeftParked(s, id) && C.Holding(e, id) && (FromOutside(e) || e.Finalizing?)
    ensures var t := Absorb(s, C.Step(s.cohort, e));
      LeftParked(t, id) && t.phase == s.phase
      && t.cohort.windows[id].view.shown == s.cohort.windows[id].view.shown
  {
    CohortStepKeepsParked(s.cohort, e, id);
    if e.Finalizing? {
      if C.Live(s.cohort, e.id) { FinalizeAdvances(s.cohort, e.id); }
    } else {
      StepAdvances(s.cohort, e);
    }
    AbsorbKeepsInv(s, C.Step(s.cohort, e));
  }

  lemma CohortUntouched(s: State, e: Event, id: C.WindowId)
    requires LeftParked(s, id) && Spares(s, e, id)
    requires !e.WindowAdded? && !e.WindowDestroyed? && !e.CohortEvent?
    ensures Step(s, e).cohort == s.cohort && (Step(s, e).phase.Idle? || Step(s, e).phase.Manage?)
  {
  }

  lemma StepLeavesParked(s: State, e: Event, id: C.WindowId)
    requires LeftParked(s, id) && Spares(s, e, id)
    ensures LeftParked(Step(s, e), id)
    ensures Step(s, e).cohort.windows[id].view.shown == s.cohort.windows[id].view.shown
  {
    StepKeepsInv(s, e);
    if e.WindowAdded? {
      AddKeepsParked(s.cohort, e.id, e.syncShell, id);
    } else if e.WindowDestroyed? {
      if C.Live(s.cohort, e.id) { OutsideKeepsParked(s, C.Finalizing(e.id), id); }
    } else if e.CohortEvent? {
      if FromOutside(e.event) { OutsideKeepsParked(s, e.event, id); }
    } else {
      CohortUntouched(s, e, id);
    }
  }

  /** A window left parked stays parked, and its picture frozen, whatever happens, other managers binding,
      commits, moves and timeouts included, until a manager's manage_finish is accepted. */
  lemma {:induction false} LeftParkedStays(s: State, events: seq<Event>, id: C.WindowId)
    requires LeftParked(s, id) && AllSpare(s, events, id)
    ensures LeftParked(Run(s, events), id) && Run(s, events).cohort.windows[id].surface.hold.held
    ensures Run(s, events).cohort.windows[id].view.shown == s.cohort.windows[id].view.shown
    decreases |events|
  {
    assert C.WindowInv(s.cohort, id);
    if events != [] {
      StepLeavesParked(s, events[0], id);
      LeftParkedStays(Step(s, events[0]), events[1..], id);
    }
  }

  /** Destroying the manager while it renders leaves every parked window so. */
  lemma DestroyWhileRendering(s: State, id: C.WindowId)
    requires Inv(s) && s.phase.Render? && C.Live(s.cohort, id) && id in s.cohort.parked
    ensures LeftParked(Step(s, ManagerDestroyed), id)
  {
    StepKeepsInv(s, ManagerDestroyed);
  }

  /** The manage_finish that is accepted then presents it before it configures anything. */
  lemma ManageFinishFrees(s: State, id: C.WindowId)
    requires LeftParked(s, id)
    ensures var c := C.Begin(s.cohort);
      && C.Live(c, id) && c.windows[id].surface.hold == C.UNHELD
      && c.windows[id].view.shown == C.Promised(s.cohort.windows[id])
  {
    C.NothingStaysFrozen(s.cohort, id);
    assert C.WindowInv(s.cohort, id);
    C.PresentedKeepsPromises(s.cohort.windows[id]);
  }

  /** Every window that a settling cohort waits for gets there, by a timeout and the manager's end. */
  lemma RenderingIsLeft(s: State, id: C.WindowId)
    requires Inv(s) && s.phase.Settle? && C.Live(s.cohort, id) && s.cohort.windows[id].enrolled
    ensures LeftParked(Run(s, [CohortEvent(C.Expiring), ManagerDestroyed]), id)
  {
    var t := Step(s, CohortEvent(C.Expiring));
    StepKeepsInv(s, CohortEvent(C.Expiring));
    SettleCannotWedge(s);
    C.RunKeepsView(s.cohort, [C.Expiring], id);
    assert C.Run(s.cohort, [C.Expiring]) == C.Step(s.cohort, C.Expiring) by { assert [C.Expiring][1..] == []; }
    assert C.WindowInv(s.cohort, id) && C.WindowInv(t.cohort, id);
    DestroyWhileRendering(t, id);
    assert [CohortEvent(C.Expiring), ManagerDestroyed][1..] == [ManagerDestroyed] && [ManagerDestroyed][1..] == [];
    assert Run(t, [ManagerDestroyed]) == Step(t, ManagerDestroyed);
  }
}

/** The `wm` statics of wm/river_wm.c, updated in place. Every method is the event of the same name. */
module RiverObject {
  import opened River
  import C = Cohort
  import CohortObject

  class WindowManager {
    const cohort: CohortObject.WindowTable
    var manager: bool
    var phase: Phase
    var dirty: bool
    var idle: bool
    var windows: seq<RiverWindow>
    var queue: seq<Queued>
    var issued: nat
    var reachable: set<Owner>
    var trace: seq<Message>

    ghost function Model(): State
      reads this, cohort, cohort.transaction
    {
      State(cohort.Model(), manager, phase, dirty, idle, windows, queue, issued, reachable, trace)
    }

    constructor (cohort: CohortObject.WindowTable)
      requires cohort.Model() == C.INITIAL
      ensures this.cohort == cohort && Model() == INITIAL
    {
      this.cohort := cohort;
      manager, phase, dirty, idle := false, Idle, false, false;
      windows, queue, issued, reachable, trace := [], [], 0, {}, [];
    }

    method ScheduleSequence()
      modifies this
      ensures Model() == Schedule(old(Model()))
    {
      dirty := true;
      if !manager || phase != Idle || idle {
        return;
      }
      idle := true;
    }

    /** Hands over the queue front to back, unlinking each event once it has been dealt with. */
    method FlushBindingEvents()
      modifies this`queue, this`trace
      ensures Model() == FlushEvents(old(Model()))
    {
      ghost var rest := DrainAll(queue, reachable);
      while queue != []
        invariant trace + DrainAll(queue, reachable) == old(trace) + rest
        decreases |queue|
      {
        var event := queue[0];
        Regroup(trace, Drained(event.ticket, event.owner in reachable), DrainAll(queue[1..], reachable));
        trace := trace + [Drained(event.ticket, event.owner in reachable)];
        queue := queue[1..];
      }
      assert trace + [] == trace;
    }

    method ClearWindows()
      modifies this`windows
      ensures windows == ClearProposals(old(windows))
    {
      var i := 0;
      while i < |windows|
        invariant i <= |windows| == |old(windows)|
        invariant forall j | 0 <= j < |windows| ::
          windows[j] == if j < i then old(windows)[j].(hasProposal := false) else old(windows)[j]
      {
        windows := windows[i := windows[i].(hasProposal := false)];
        i := i + 1;
      }
    }

    method BeginManaging()
      modifies this
      ensures Model() == BeginManage(old(Model()))
    {
      if !manager || phase != Idle {
        return;
      }
      ClearWindows();
      FlushBindingEvents();
      dirty := false;
      phase := Manage;
      trace := trace + [ManageStart];
    }

    method BeginRendering()
      modifies this
      ensures Model() == BeginRender(old(Model()))
    {
      if !manager {
        phase := Idle;
        return;
      }
      phase := Render;
      trace := trace + [RenderStart];
    }

    method HandleIdle()
      requires idle
      modifies this
      ensures Model() == Step(old(Model()), IdleFires)
    {
      idle := false;
      BeginManaging();
    }

    /** Configures every proposal as part of the cohort that has just been opened. */
    method ConfigureProposals()
      requires C.Inv(cohort.Model()) && cohort.transaction != null
      modifies cohort, cohort.transaction
      ensures cohort.Model() == ConfigureAll(old(cohort.Model()), windows)
      ensures cohort.transaction == old(cohort.transaction)
      ensures C.Inv(cohort.Model())
    {
      ghost var start := cohort.Model();
      var i := 0;
      assert windows[0..] == windows;
      while i < |windows|
        invariant i <= |windows|
        invariant cohort.transaction == old(cohort.transaction)
        invariant C.Inv(cohort.Model())
        invariant ConfigureAll(cohort.Model(), windows[i..]) == ConfigureAll(start, windows)
      {
        var w := windows[i];
        ghost var c := cohort.Model();
        assert windows[i..][0] == w && windows[i..][1..] == windows[i + 1..];
        if w.hasProposal && w.width > 0 && w.height > 0 && w.id in cohort.windows && cohort.windows[w.id].alive {
          var v := cohort.windows[w.id].view;
          SetGeometryStaysOpen(c, w.id, w.width, w.height);
          C.SetSizeKeepsInv(c, w.id, w.width, w.height);
          C.ResizeKeepsPromises(c, w.id, w.width, w.height, w.id);
          cohort.SetSize(w.id, w.width, w.height);
          cohort.SetPosition(w.id, v.x, v.y);
        }
        i := i + 1;
      }
    }

    method ManageFinished(timerOk: bool) returns (accepted: bool)
      requires Inv(Model())
      modifies this, cohort, cohort.transaction
      ensures Model() == FinishManage(old(Model()), timerOk)
      ensures accepted == old(phase).Manage?
    {
      if phase != Manage {
        return false;
      }
      phase := Settle;
      trace := trace + [ManageFinish];
      C.BeginKeepsInv(cohort.Model());
      var begun := cohort.Begin();
      ConfigureProposals();
      var called := |cohort.callbacks|;
      ConfigureStaysOpen(C.Begin(old(cohort.Model())), windows);
      cohort.Commit(timerOk, true);
      if |cohort.callbacks| > called {
        BeginRendering();
      }
      return true;
    }

    method RenderFinished() returns (accepted: bool)
      requires Inv(Model())
      modifies this, cohort
      ensures Model() == FinishRender(old(Model()))
      ensures accepted == old(phase).Render?
    {
      if phase != Render {
        return false;
      }
      cohort.Present();
      phase := Idle;
      trace := trace + [RenderFinish];
      if dirty {
        ScheduleSequence();
      }
      return true;
    }

    method QueueEvent(owner: Owner)
      modifies this
      ensures Model() == Enqueue(old(Model()), owner)
    {
      queue := queue + [Queued(issued, owner)];
      trace := trace + [Enqueued(issued)];
      issued := issued + 1;
      ScheduleSequence();
    }

    /** Unlinks every queued event of an owner that is going away. */
    method DropEvents(owner: Owner)
      modifies this
      ensures Model() == FreeOwner(old(Model()), owner)
    {
      var rest := queue;
      queue := [];
      while rest != []
        invariant queue + Without(rest, owner) == Without(old(queue), owner)
        invariant trace + DropAll(rest, owner) == old(trace) + DropAll(old(queue), owner)
        invariant cohort.Model() == old(cohort.Model())
        invariant manager == old(manager) && phase == old(phase) && dirty == old(dirty) && idle == old(idle)
        invariant windows == old(windows) && issued == old(issued) && reachable == old(reachable)
        decreases |rest|
      {
        var event := rest[0];
        DropUnfolds(trace, queue, rest, owner);
        if event.owner == owner {
          trace := trace + [Dropped(event.ticket)];
        } else {
          queue := queue + [event];
        }
        rest := rest[1..];
      }
      assert trace + [] == trace && queue + [] == queue;
      reachable := reachable - {owner};
    }
  }
}
