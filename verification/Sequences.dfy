/** What wakes a manager, what a manage_start finds done, and what a manager's coming and going changes
    (wm/river_wm.c). */
module Sequences {
  import opened Words
  import opened River
  import C = Cohort
  import RiverRuns
  import Proposals

  /** Every reachable state has its windows listed once. */
  lemma EveryRoster(events: seq<Event>)
    ensures Proposals.Rostered(Run(INITIAL, events))
  {
    RiverRuns.InitialHolds();
    Proposals.RunKeepsRoster(INITIAL, events);
  }

  /** Something to report: a new manager, a dirty request, a queued event, a window that came or went. */
  predicate Reports(s: State, e: Event) {
    || (e.ManagerBinds? && !s.manager) || e.ManageDirtied? || e.Queueing?
    || (e.WindowAdded? && e.id !in s.cohort.windows) || (e.WindowDestroyed? && C.Live(s.cohort, e.id))
  }

  /** Whatever is to be reported makes the state dirty, and an idle manager's callback is queued for it. */
  lemma ReportsWake(s: State, e: Event)
    requires Reports(s, e)
    ensures var t := Step(s, e); t.dirty && (t.manager && t.phase.Idle? ==> t.idle)
  {
  }

  lemma {:induction false} DrainedAt(queue: seq<Queued>, reachable: set<Owner>, i: nat)
    requires i < |queue|
    ensures |DrainAll(queue, reachable)| == |queue|
    ensures DrainAll(queue, reachable)[i] == Drained(queue[i].ticket, queue[i].owner in reachable)
    decreases |queue|
  {
    if queue[1..] == [] {
    } else {
      DrainedAt(queue[1..], reachable, if i == 0 then 0 else i - 1);
    }
  }

  /** An idle callback begins a manage sequence exactly when a manager is bound and none is under way. By the
      manage_start everything queued has been drained, in order, each sent if its owner can be told, every
      proposal is forgotten and the state is clean. */
  lemma ManageStartExactly(s: State)
    ensures var t := Step(s, IdleFires);
      if !s.idle || !s.manager || !s.phase.Idle? then t == s.(idle := false)
      else
        && t.phase.Manage? && !t.dirty && !t.idle && t.queue == [] && t.cohort == s.cohort
        && |t.trace| == |s.trace| + |s.queue| + 1 && s.trace <= t.trace && t.trace[|t.trace| - 1] == ManageStart
        && (forall i | 0 <= i < |s.queue| ::
              t.trace[|s.trace| + i] == Drained(s.queue[i].ticket, s.queue[i].owner in s.reachable))
        && |t.windows| == |s.windows|
        && (forall i | 0 <= i < |s.windows| ::
              t.windows[i].id == s.windows[i].id && !t.windows[i].hasProposal)
  {
    if s.queue == [] {
      assert DrainAll(s.queue, s.reachable) == [];
    } else {
      DrainedAt(s.queue, s.reachable, 0);
    }
    forall i | 0 <= i < |s.queue|
      ensures |DrainAll(s.queue, s.reachable)| == |s.queue|
      ensures DrainAll(s.queue, s.reachable)[i] == Drained(s.queue[i].ticket, s.queue[i].owner in s.reachable)
    {
      DrainedAt(s.queue, s.reachable, i);
    }
  }

  /** Only one manager at a time, and only what belongs to the windows' interactions goes with it. */
  lemma ManagersExactly(s: State)
    ensures s.manager ==> Step(s, ManagerBinds) == s
    ensures !s.manager ==> Step(s, ManagerBinds).manager && Step(s, ManagerBinds).trace == s.trace + [ManagerBound]
    ensures s.manager ==>
      var t := Step(s, ManagerDestroyed);
      && !t.manager && t.phase.Idle? && t.trace == s.trace + [ManagerGone]
      && t.cohort == s.cohort && t.queue == s.queue && t.windows == s.windows && t.dirty == s.dirty
      && forall o :: o in t.reachable <==> o in s.reachable && !o.Interaction?
  {
  }

  /** A queued event waits behind those queued before it, under a new ticket. */
  lemma QueuedExactly(s: State, owner: Owner)
    ensures var t := Step(s, Queueing(owner));
      && t.queue == s.queue + [Queued(s.issued, owner)] && t.issued == s.issued + 1
      && t.trace == s.trace + [Enqueued(s.issued)]
  {
  }

  /** An owner that goes takes its own events along and nobody else's. The tickets of the others stay in
      order: River.RunKeepsQueueInv. */
  lemma OwnerFreedExactly(s: State, owner: Owner)
    ensures var t := Step(s, OwnerFreed(owner));
      && (forall q :: q in t.queue <==> q in s.queue && q.owner != owner)
      && owner !in t.reachable && (forall o | o != owner :: o in t.reachable <==> o in s.reachable)
      && t.cohort == s.cohort && t.phase == s.phase
  {
  }

  /** A window that comes is created, tiled and listed last; one that is known already is refused. */
  lemma ComesExactly(s: State, id: C.WindowId, syncShell: bool)
    ensures id !in s.cohort.windows ==>
      var t := Step(s, WindowAdded(id, syncShell));
      && t.windows == s.windows + [RiverWindow(id, false, 0, 0)]
      && t.cohort == C.Step(C.Step(s.cohort, C.Creating(id, syncShell)), C.Tiling(id))
    ensures id in s.cohort.windows ==> Step(s, WindowAdded(id, syncShell)) == s
  {
  }

  /** One that goes is finalized and not listed any more. */
  lemma GoesExactly(s: State, id: C.WindowId)
    requires Proposals.Rostered(s)
    ensures C.Live(s.cohort, id) ==>
      var t := Step(s, WindowDestroyed(id));
      && (forall w :: w in t.windows <==> w in s.windows && w.id != id)
      && t.cohort == C.Step(s.cohort, C.Finalizing(id))
    ensures !C.Live(s.cohort, id) ==> Step(s, WindowDestroyed(id)) == s
  {
    Proposals.UnlistDistinct(s.windows, id);
    UnlistKeeps(s.windows, id);
  }

  /** Who can be told is who has a protocol object. */
  lemma ReachableExactly(s: State, owner: Owner)
    ensures Step(s, OwnerReachable(owner)) == s.(reachable := s.reachable + {owner})
    ensures Step(s, OwnerUnreachable(owner)) == s.(reachable := s.reachable - {owner})
  {
  }

  lemma {:induction false} UnlistKeeps(ws: seq<RiverWindow>, id: C.WindowId)
    ensures forall w | w in ws && w.id != id :: w in Unlist(ws, id)
    decreases |ws|
  {
    if ws != [] { UnlistKeeps(ws[1..], id); }
  }

  /** A finish outside its phase is refused. */
  lemma RefusedExactly(s: State, timerOk: bool)
    ensures !s.phase.Manage? ==> Step(s, ManageFinished(timerOk)) == s
    ensures !s.phase.Render? ==> Step(s, RenderFinished) == s
  {
  }

  /** An accepted render_finish presents, says so, and goes on to the next sequence if there is something to report. */
  lemma RenderFinishedExactly(s: State)
    requires s.phase.Render?
    ensures var t := Step(s, RenderFinished);
      && t.phase.Idle? && t.cohort == C.Step(s.cohort, C.Presenting) && t.trace == s.trace + [RenderFinish]
      && t.dirty == s.dirty && t.windows == s.windows && t.queue == s.queue
      && (t.idle <==> s.idle || (s.dirty && s.manager))
  {
  }

  /** What windows and clients do reaches the cohort as it is, and a cohort that ends calls back: the manager, if
      there is still one, is told to render. */
  lemma OutsideExactly(s: State, e: C.Event)
    requires FromOutside(e)
    ensures var t, c := Step(s, CohortEvent(e)), C.Step(s.cohort, e);
      && t.cohort == c
      && if |c.callbacks| <= |s.cohort.callbacks| then t == s.(cohort := c)
         else if s.manager then t.phase.Render? && t.trace == s.trace + [RenderStart]
         else t.phase.Idle? && t.trace == s.trace
  {
  }
}
