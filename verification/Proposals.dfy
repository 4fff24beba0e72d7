/** What an accepted manage_finish asks of every window, and which proposals it goes by (wm/river_wm.c). */
module Proposals {
  import opened Words
  import opened River
  import C = Cohort
  import R = Requests

  /** What the proposal recorded for a window makes of it, between the begin of the cohort and its commit. Without
      a positive proposal: nothing. Else a window of another size is configured, with the proposal's width and
      height, and enrolled; and no move is left to it. */
  ghost predicate Asked(b: C.Window, v: C.Window, w: RiverWindow) {
    if !w.hasProposal || w.width <= 0 || w.height <= 0 then v == b
    else
      && v.view == b.view && !v.move.pending
      && if R.AskedSize(b) == (w.width, w.height) then v == b.(move := v.move)
         else
           && v.configure.serial == Increment(b.configure.serial) && v.configure.acknowledged == b.syncShell
           && (b.tiled ==> v.configure.pending && v.configure.width == w.width && v.configure.height == w.height)
           && v.enrolled && v.surface.hold.held && v.surface.buffer == b.surface.buffer
  }

  /** An open cohort that this window has not joined. */
  ghost predicate Unjoined(c: C.State, id: C.WindowId) {
    C.Inv(c) && c.barrier.Some? && !c.barrier.value.committed && C.Live(c, id) && !c.windows[id].enrolled
  }

  ghost predicate OthersSame(c: C.State, d: C.State, id: C.WindowId) {
    && d.windows.Keys == c.windows.Keys
    && (d.barrier.Some? <==> c.barrier.Some?)
    && (c.barrier.Some? ==> d.barrier.value.committed == c.barrier.value.committed)
    && forall x | x in c.windows && x != id :: d.windows[x] == c.windows[x]
  }

  lemma ResizeOthers(c: C.State, id: C.WindowId, width: nat, height: nat)
    requires C.Inv(c) && C.Live(c, id)
    ensures OthersSame(c, C.SetSize(c, id, width, height), id)
  {
  }

  lemma MoveOthers(c: C.State, id: C.WindowId, x: int, y: int)
    requires C.Inv(c) && C.Live(c, id)
    ensures OthersSame(c, C.SetPosition(c, id, x, y), id)
  {
  }

  /** The size first, as if no position had been asked for. */
  ghost predicate AskedSize(b: C.Window, v: C.Window, width: nat, height: nat) {
    && v.view == b.view && v.move == b.move
    && if R.AskedSize(b) == (width, height) then v == b
       else
         && v.configure.serial == Increment(b.configure.serial) && v.configure.acknowledged == b.syncShell
         && (b.tiled ==> v.configure.pending && v.configure.width == width && v.configure.height == height)
         && v.enrolled && v.surface.hold.held && v.surface.buffer == b.surface.buffer
  }

  lemma SizeAsked(c: C.State, id: C.WindowId, width: nat, height: nat)
    requires Unjoined(c, id)
    ensures var d := C.SetSize(c, id, width, height);
      && C.Inv(d) && OthersSame(c, d, id) && C.Live(d, id) && AskedSize(c.windows[id], d.windows[id], width, height)
  {
    assert C.Step(c, C.Resizing(id, width, height)) == C.SetSize(c, id, width, height);
    R.ResizeExactly(c, id, width, height);
    ResizeOthers(c, id, width, height);
    C.SetSizeKeepsInv(c, id, width, height);
    assert C.WindowInv(c, id);
  }

  lemma StayAsked(c: C.State, id: C.WindowId)
    requires C.Inv(c) && C.Live(c, id) && c.barrier.Some? && !c.barrier.value.committed
    ensures var b := c.windows[id];
      var d := C.SetPosition(c, id, b.view.x, b.view.y);
      && OthersSame(c, d, id) && C.Live(d, id) && d.windows[id] == b.(move := b.move.(pending := false))
  {
  }

  lemma AskedOne(c: C.State, w: RiverWindow)
    requires Unjoined(c, w.id)
    ensures var d := ConfigureOne(c, w); C.Live(d, w.id) && Asked(c.windows[w.id], d.windows[w.id], w)
  {
    if w.hasProposal && w.width > 0 && w.height > 0 {
      var d := C.SetSize(c, w.id, w.width, w.height);
      SizeAsked(c, w.id, w.width, w.height);
      StayAsked(d, w.id);
      assert ConfigureOne(c, w) == C.SetPosition(d, w.id, c.windows[w.id].view.x, c.windows[w.id].view.y);
    }
  }

  lemma OneStaysOpen(c: C.State, w: RiverWindow)
    requires C.Inv(c) && c.barrier.Some?
    ensures var d := ConfigureOne(c, w); C.Inv(d) && d.barrier.Some? && OthersSame(c, d, w.id)
  {
    if C.Live(c, w.id) && w.hasProposal && w.width > 0 && w.height > 0 {
      var d := C.SetSize(c, w.id, w.width, w.height);
      SetGeometryStaysOpen(c, w.id, w.width, w.height);
      ResizeOthers(c, w.id, w.width, w.height);
      C.SetSizeKeepsInv(c, w.id, w.width, w.height);
      if C.Live(d, w.id) { MoveOthers(d, w.id, c.windows[w.id].view.x, c.windows[w.id].view.y); }
    }
  }

  ghost predicate DistinctIds(ws: seq<RiverWindow>) {
    forall i, j | 0 <= i < j < |ws| :: ws[i].id != ws[j].id
  }

  /** The cohort is still being put together, of the same windows. */
  ghost predicate StillFilling(c: C.State, d: C.State) {
    && C.Inv(d) && d.barrier.Some? && d.windows.Keys == c.windows.Keys
    && (c.barrier.Some? ==> d.barrier.value.committed == c.barrier.value.committed)
  }

  lemma {:induction false} AllStayFilling(c: C.State, ws: seq<RiverWindow>)
    requires C.Inv(c) && c.barrier.Some?
    ensures StillFilling(c, ConfigureAll(c, ws))
    ensures forall id | id in c.windows && (forall w | w in ws :: w.id != id) ::
      ConfigureAll(c, ws).windows[id] == c.windows[id]
    decreases |ws|
  {
    if ws != [] {
      OneStaysOpen(c, ws[0]);
      AllStayFilling(ConfigureOne(c, ws[0]), ws[1..]);
    }
  }

  lemma {:induction false} AllAsked(c: C.State, ws: seq<RiverWindow>, i: nat)
    requires DistinctIds(ws) && i < |ws| && Unjoined(c, ws[i].id)
    ensures var d := ConfigureAll(c, ws);
      ws[i].id in d.windows && Asked(c.windows[ws[i].id], d.windows[ws[i].id], ws[i])
    decreases |ws|
  {
    var d := ConfigureOne(c, ws[0]);
    OneStaysOpen(c, ws[0]);
    if i == 0 {
      AskedOne(c, ws[0]);
      AllStayFilling(d, ws[1..]);
    } else {
      assert ws[1..][i - 1] == ws[i] && forall j | 0 <= j < |ws[1..]| :: ws[1..][j] == ws[j + 1];
      AllAsked(d, ws[1..], i - 1);
    }
  }

  ghost predicate Asking(s: State, d: C.State) {
    var c := C.Begin(s.cohort);
    && C.Inv(d) && d.barrier.Some? && !d.barrier.value.committed && c.windows.Keys <= d.windows.Keys
    && (forall i | 0 <= i < |s.windows| && C.Live(c, s.windows[i].id) ::
          s.windows[i].id in d.windows && Asked(c.windows[s.windows[i].id], d.windows[s.windows[i].id], s.windows[i]))
    && (forall id | id in c.windows && (forall w | w in s.windows :: w.id != id) :: d.windows[id] == c.windows[id])
  }

  /** The cohort that an accepted manage_finish has put together, just before it commits it. Every live window of
      the list is asked for what its proposal says; all others are left alone. */
  lemma FinishAsks(s: State, timerOk: bool) returns (d: C.State)
    requires Inv(s) && s.phase.Manage? && s.cohort.barrier.None? && DistinctIds(s.windows)
    ensures Asking(s, d) && Step(s, ManageFinished(timerOk)).cohort == C.Commit(d, timerOk, true)
  {
    var c := C.Begin(s.cohort);
    d := ConfigureAll(c, s.windows);
    C.BeginKeepsInv(s.cohort);
    AllStayFilling(c, s.windows);
    forall i | 0 <= i < |s.windows| && C.Live(c, s.windows[i].id)
      ensures s.windows[i].id in d.windows
      ensures Asked(c.windows[s.windows[i].id], d.windows[s.windows[i].id], s.windows[i])
    {
      assert C.WindowInv(c, s.windows[i].id);
      AllAsked(c, s.windows, i);
    }
  }

  // ------------------------------------------------------ every window once

  /** The list holds windows the compositor knows, none of them twice. */
  ghost predicate Rostered(s: State) {
    DistinctIds(s.windows) && forall w | w in s.windows :: w.id in s.cohort.windows
  }

  lemma KeysGrow(c: C.State, e: C.Event)
    ensures c.windows.Keys <= C.Step(c, e).windows.Keys
  {
  }

  lemma {:induction false} UnlistDistinct(ws: seq<RiverWindow>, id: C.WindowId)
    requires DistinctIds(ws)
    ensures DistinctIds(Unlist(ws, id)) && forall w | w in Unlist(ws, id) :: w in ws && w.id != id
    decreases |ws|
  {
    if ws != [] {
      var rest := Unlist(ws[1..], id);
      UnlistDistinct(ws[1..], id);
      assert forall w | w in rest :: w in ws[1..];
      forall w | w in rest ensures w.id != ws[0].id {
        var j :| 0 <= j < |ws[1..]| && ws[1..][j] == w;
        assert ws[j + 1] == w;
      }
    }
  }

  lemma {:induction false} ProposeSameIds(ws: seq<RiverWindow>, id: C.WindowId, width: int, height: int)
    ensures var r := Propose(ws, id, width, height);
      |r| == |ws| && forall i | 0 <= i < |ws| ::
        r[i] == if ws[i].id == id then RiverWindow(id, true, width, height) else ws[i]
    decreases |ws|
  {
    if ws != [] { ProposeSameIds(ws[1..], id, width, height); }
  }

  lemma FinishKeepsRoster(s: State, timerOk: bool)
    requires Inv(s) && Rostered(s)
    ensures Rostered(FinishManage(s, timerOk))
  {
    if s.phase.Manage? {
      var c := C.Begin(s.cohort);
      KeysGrow(s.cohort, C.Beginning);
      C.BeginKeepsInv(s.cohort);
      AllStayFilling(c, s.windows);
      KeysGrow(ConfigureAll(c, s.windows), C.Committing(timerOk, true));
    }
  }

  lemma AbsorbKeepsRoster(s: State, d: C.State)
    requires Rostered(s) && s.cohort.windows.Keys <= d.windows.Keys
    ensures Rostered(Absorb(s, d)) && Absorb(s, d).windows == s.windows
  {
  }

  lemma DestroyKeepsRoster(s: State, id: C.WindowId)
    requires Rostered(s)
    ensures Rostered(DestroyWindow(s, id))
  {
    if C.Live(s.cohort, id) {
      KeysGrow(s.cohort, C.Finalizing(id));
      AbsorbKeepsRoster(s, C.Step(s.cohort, C.Finalizing(id)));
      UnlistDistinct(s.windows, id);
    }
  }

  lemma AddKeepsRoster(s: State, id: C.WindowId, syncShell: bool)
    requires Rostered(s)
    ensures Rostered(AddWindow(s, id, syncShell))
  {
    KeysGrow(s.cohort, C.Creating(id, syncShell));
    KeysGrow(C.Step(s.cohort, C.Creating(id, syncShell)), C.Tiling(id));
  }

  lemma ProposeKeepsRoster(s: State, id: C.WindowId, width: int, height: int)
    requires Rostered(s)
    ensures Rostered(s.(windows := Propose(s.windows, id, width, height)))
  {
    var ws := Propose(s.windows, id, width, height);
    ProposeSameIds(s.windows, id, width, height);
    forall w | w in ws ensures w.id in s.cohort.windows {
      var i :| 0 <= i < |ws| && ws[i] == w;
      assert s.windows[i] in s.windows && s.windows[i].id == w.id;
    }
  }

  lemma BeginKeepsRoster(s: State)
    requires Rostered(s)
    ensures Rostered(BeginManage(s))
  {
    var ws := ClearProposals(s.windows);
    forall w | w in ws ensures w.id in s.cohort.windows {
      var i :| 0 <= i < |ws| && ws[i] == w;
      assert s.windows[i] in s.windows && s.windows[i].id == w.id;
    }
  }

  lemma StepKeepsRoster(s: State, e: Event)
    requires Inv(s) && Rostered(s)
    ensures Rostered(Step(s, e))
  {
    match e
    case ManageFinished(timerOk) => FinishKeepsRoster(s, timerOk);
    case RenderFinished => KeysGrow(s.cohort, C.Presenting);
    case WindowDestroyed(id) => DestroyKeepsRoster(s, id);
    case CohortEvent(event) =>
      KeysGrow(s.cohort, event);
      AbsorbKeepsRoster(s, C.Step(s.cohort, event));
    case Proposing(id, width, height) => ProposeKeepsRoster(s, id, width, height);
    case WindowAdded(id, syncShell) => AddKeepsRoster(s, id, syncShell);
    case IdleFires => BeginKeepsRoster(s.(idle := false));
    case _ =>
  }

  /** Over every run from the start the list has every window once, as FinishAsks needs. */
  lemma {:induction false} RunKeepsRoster(s: State, events: seq<Event>)
    requires Inv(s) && Rostered(s)
    ensures Rostered(Run(s, events))
    decreases |events|
  {
    if events != [] {
      StepKeepsInv(s, events[0]);
      StepKeepsRoster(s, events[0]);
      RunKeepsRoster(Step(s, events[0]), events[1..]);
    }
  }

  // ------------------------------------------------- the proposal recorded

  predicate IsListed(ws: seq<RiverWindow>, id: C.WindowId) {
    exists w :: w in ws && w.id == id
  }

  /** What is recorded for a listed window. */
  function Recorded(ws: seq<RiverWindow>, id: C.WindowId): Option<(int, int)>
    decreases |ws|
  {
    if ws == [] then None
    else if ws[0].id == id then (if ws[0].hasProposal then Some((ws[0].width, ws[0].height)) else None)
    else Recorded(ws[1..], id)
  }

  /** The last proposal since the manage sequence began. */
  function ProposedBy(s: State, e: Event, id: C.WindowId, was: Option<(int, int)>): Option<(int, int)> {
    match e
    case Proposing(who, width, height) => if who == id then Some((width, height)) else was
    case IdleFires => if s.idle && s.manager && s.phase.Idle? then None else was
    case _ => was
  }

  function LastProposal(s: State, events: seq<Event>, id: C.WindowId, was: Option<(int, int)>): Option<(int, int)>
    decreases |events|
  {
    if events == [] then was else LastProposal(Step(s, events[0]), events[1..], id, ProposedBy(s, events[0], id, was))
  }

  lemma {:induction false} RecordedLookup(ws: seq<RiverWindow>, i: nat)
    requires DistinctIds(ws) && i < |ws|
    ensures Recorded(ws, ws[i].id) == if ws[i].hasProposal then Some((ws[i].width, ws[i].height)) else None
    decreases |ws|
  {
    if i > 0 {
      assert ws[1..][i - 1] == ws[i] && forall j | 0 <= j < |ws[1..]| :: ws[1..][j] == ws[j + 1];
      RecordedLookup(ws[1..], i - 1);
    }
  }

  /** Between two lists a window's entry is the same, or as `f` says. */
  lemma {:induction false} ClearedRecord(ws: seq<RiverWindow>, id: C.WindowId)
    ensures Recorded(ClearProposals(ws), id) == None
    ensures IsListed(ws, id) ==> IsListed(ClearProposals(ws), id)
    decreases |ws|
  {
    if ws != [] { ClearedRecord(ws[1..], id); }
    if w :| w in ws && w.id == id {
      var i :| 0 <= i < |ws| && ws[i] == w;
      assert ClearProposals(ws)[i].id == id;
    }
  }

  lemma {:induction false} ProposedRecord(ws: seq<RiverWindow>, who: C.WindowId, width: int, height: int,
                                          id: C.WindowId)
    requires IsListed(ws, id)
    ensures Recorded(Propose(ws, who, width, height), id)
         == if who == id then Some((width, height)) else Recorded(ws, id)
    ensures IsListed(Propose(ws, who, width, height), id)
    decreases |ws|
  {
    var w :| w in ws && w.id == id;
    var i :| 0 <= i < |ws| && ws[i] == w;
    ProposeSameIds(ws, who, width, height);
    assert Propose(ws, who, width, height)[i].id == id;
    if ws[0].id != id {
      assert w in ws[1..];
      ProposedRecord(ws[1..], who, width, height, id);
    }
  }

  lemma {:induction false} UnlistedRecord(ws: seq<RiverWindow>, gone: C.WindowId, id: C.WindowId)
    requires gone != id
    ensures Recorded(Unlist(ws, gone), id) == Recorded(ws, id)
    ensures IsListed(ws, id) ==> IsListed(Unlist(ws, gone), id)
    decreases |ws|
  {
    if ws != [] {
      UnlistedRecord(ws[1..], gone, id);
      if w :| w in ws && w.id == id {
        if w != ws[0] { assert IsListed(ws[1..], id); }
        if IsListed(ws[1..], id) {
          var v :| v in Unlist(ws[1..], gone) && v.id == id;
          assert v in Unlist(ws, gone);
        } else {
          assert w in Unlist(ws, gone);
        }
      }
    }
  }

  lemma {:induction false} AppendedRecord(ws: seq<RiverWindow>, more: RiverWindow, id: C.WindowId)
    requires IsListed(ws, id)
    ensures Recorded(ws + [more], id) == Recorded(ws, id) && IsListed(ws + [more], id)
    decreases |ws|
  {
    var w :| w in ws && w.id == id;
    assert w in ws + [more];
    if ws[0].id != id {
      assert (ws + [more])[1..] == ws[1..] + [more] && w in ws[1..];
      AppendedRecord(ws[1..], more, id);
    }
  }

  lemma StepRecords(s: State, e: Event, id: C.WindowId)
    requires IsListed(s.windows, id) && e != WindowDestroyed(id)
    ensures IsListed(Step(s, e).windows, id)
    ensures Recorded(Step(s, e).windows, id) == ProposedBy(s, e, id, Recorded(s.windows, id))
  {
    match e
    case IdleFires => ClearedRecord(s.windows, id);
    case Proposing(who, width, height) => ProposedRecord(s.windows, who, width, height, id);
    case WindowAdded(x, _) => AppendedRecord(s.windows, RiverWindow(x, false, 0, 0), id);
    case WindowDestroyed(x) => UnlistedRecord(s.windows, x, id);
    case _ =>
  }

  /** What is recorded for a window is the last proposal of the sequence, whatever happened in between: a manage
      sequence starts with none, and a later proposal replaces an earlier one. */
  lemma {:induction false} RunRecords(s: State, events: seq<Event>, id: C.WindowId)
    requires IsListed(s.windows, id) && WindowDestroyed(id) !in events
    ensures IsListed(Run(s, events).windows, id)
    ensures Recorded(Run(s, events).windows, id) == LastProposal(s, events, id, Recorded(s.windows, id))
    decreases |events|
  {
    if events != [] {
      StepRecords(s, events[0], id);
      RunRecords(Step(s, events[0]), events[1..], id);
    }
  }
}
