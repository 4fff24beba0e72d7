/** Frame scheduling and page flips: libswc/compositor.c with the primary plane's frame events. */
module Scheduler {

  type Screen = nat

  /** What target_swap_buffers reports; `Failed` also covers a repaint that never got to the swap. */
  datatype Swap = Swapped | AccessDenied | Failed

  type Results = map<Screen, Swap>

  /** `idle` counts queued idle callbacks; `flips` holds one element per page flip whose frame event
      is still to come; `painted` counts
      the swaps of each screen. */
  datatype State = State(
    screens: seq<Screen>,
    targets: set<Screen>,
    active: bool,
    scheduled: set<Screen>,
    pending: set<Screen>,
    idle: nat,
    flips: multiset<Screen>,
    painted: multiset<Screen>)

  function All(screens: seq<Screen>): set<Screen> {
    set x | x in screens
  }

  ghost predicate Distinct(s: seq<Screen>) {
    forall i, j | 0 <= i < j < |s| :: s[i] != s[j]
  }

  /** schedule_updates; a zoomed compositor repaints every screen. */
  function Schedule(s: State, screens: set<Screen>, zoomed: bool): State {
    s.(scheduled := s.scheduled + (if zoomed then All(s.screens) else screens),
       idle := if s.scheduled == {} then s.idle + 1 else s.idle)
  }

  function Deactivate(s: State): State {
    s.(active := false, scheduled := {})
  }

  function Activate(s: State): State {
    Schedule(s.(active := true), All(s.screens), false)
  }

  function Outcome(results: Results, x: Screen): Swap {
    if x in results then results[x] else Swapped
  }

  /** update_screen: a successful swap leaves a flip outstanding; EACCES means the session is going away. */
  function UpdateScreen(s: State, x: Screen, results: Results): State {
    if x !in s.scheduled || x !in s.targets || x in s.pending then s
    else match Outcome(results, x)
      case Swapped => s.(pending := s.pending + {x}, flips := s.flips + multiset{x}, painted := s.painted + multiset{x})
      case AccessDenied => Deactivate(s)
      case Failed => s
  }

  function UpdateScreens(s: State, screens: seq<Screen>, results: Results): State
    decreases |screens|
  {
    if screens == [] then s else UpdateScreens(UpdateScreen(s, screens[0], results), screens[1..], results)
  }

  function PerformUpdate(s: State, results: Results): State {
    var updates := s.scheduled - s.pending;
    if !s.active || updates == {} then s
    else
      var t := UpdateScreens(s, s.screens, results);
      t.(scheduled := t.scheduled - updates)
  }

  /** The frame event of a flip; anything still scheduled gets another chance. */
  function FrameDone(s: State, x: Screen, results: Results): State {
    var t := s.(pending := s.pending - {x}, flips := s.flips - multiset{x});
    if t.scheduled != {} then PerformUpdate(t, results) else t
  }

  /** `ViewUpdates` is a view asking through its update hook, which refuses while the session is inactive;
      `Schedules` is everything that calls schedule_updates directly: whole-screen damage, the overlay,
      raising and restacking. */
  datatype Event =
    | Schedules(screens: set<Screen>, zoomed: bool)
    | ViewUpdates(screens: set<Screen>, visible: bool, zoomed: bool)
    | IdleFires(results: Results)
    | FrameArrives(screen: Screen, results: Results)
    | Activated
    | Deactivated

  /** An idle callback or a frame event can only arrive when one is outstanding. */
  function Step(s: State, e: Event): State {
    match e
    case Schedules(screens, zoomed) => Schedule(s, screens * All(s.screens), zoomed)
    case ViewUpdates(screens, visible, zoomed) =>
      if !s.active || !visible then s else Schedule(s, screens * All(s.screens), zoomed)
    case IdleFires(results) => if s.idle == 0 then s else PerformUpdate(s.(idle := s.idle - 1), results)
    case FrameArrives(x, results) => if x !in s.flips then s else FrameDone(s, x, results)
    case Activated => Activate(s)
    case Deactivated => Deactivate(s)
  }

  function Run(s: State, events: seq<Event>): State
    decreases |events|
  {
    if events == [] then s else Run(Step(s, events[0]), events[1..])
  }

  // --------------------------------------------------------- one flip at a time

  /** The pending bit of a screen is set exactly while its one flip is outstanding. */
  ghost predicate Paired(s: State) {
    forall x: Screen :: s.flips[x] == if x in s.pending then 1 else 0
  }

  ghost predicate Valid(s: State) {
    && Distinct(s.screens)
    && s.scheduled <= All(s.screens)
    && s.pending <= All(s.screens)
    && Paired(s)
  }

  lemma {:induction false} UpdateScreensKeepsValid(s: State, screens: seq<Screen>, results: Results)
    requires Valid(s)
    ensures Valid(UpdateScreens(s, screens, results))
    decreases |screens|
  {
    if screens != [] {
      UpdateScreensKeepsValid(UpdateScreen(s, screens[0], results), screens[1..], results);
    }
  }

  lemma StepKeepsValid(s: State, e: Event)
    requires Valid(s)
    ensures Valid(Step(s, e))
  {
    match e
    case IdleFires(results) =>
      UpdateScreensKeepsValid(s.(idle := if s.idle == 0 then 0 else s.idle - 1), s.screens, results);
    case FrameArrives(x, results) =>
      var flips := if x in s.flips then s.flips - multiset{x} else s.flips;
      UpdateScreensKeepsValid(s.(pending := s.pending - {x}, flips := flips), s.screens, results);
    case Schedules(_, _) =>
    case ViewUpdates(_, _, _) =>
    case Activated =>
    case Deactivated =>
  }

  /** No screen ever has two page flips outstanding, in any run, through failed swaps and session
      switches. */
  lemma {:induction false} RunKeepsOneFlip(s: State, events: seq<Event>, x: Screen)
    requires Valid(s)
    ensures Valid(Run(s, events)) && Run(s, events).flips[x] <= 1
    ensures x in Run(s, events).pending <==> Run(s, events).flips[x] == 1
    decreases |events|
  {
    if events != [] {
      StepKeepsValid(s, events[0]);
      RunKeepsOneFlip(Step(s, events[0]), events[1..], x);
    }
  }

  // ------------------------------------------------------------------ progress

  /** Something will run the update: an idle callback, or the flip of a scheduled screen. */
  ghost predicate Progresses(s: State) {
    s.scheduled != {} ==> s.idle > 0 || s.scheduled * s.pending != {}
  }

  lemma {:induction false} UpdateScreensFrame(s: State, screens: seq<Screen>, results: Results)
    ensures var t := UpdateScreens(s, screens, results);
      && s.pending <= t.pending && t.idle == s.idle && t.screens == s.screens && t.targets == s.targets
      && (if t.active then s.active && t.scheduled == s.scheduled
          else t.scheduled == {} || (t.scheduled == s.scheduled && !s.active))
      && s.painted <= t.painted
    decreases |screens|
  {
    if screens != [] {
      UpdateScreensFrame(UpdateScreen(s, screens[0], results), screens[1..], results);
    }
  }

  /** An update that ran leaves nothing scheduled except screens still waiting for their flip. */
  lemma PerformUpdateSettles(s: State, results: Results)
    requires s.active
    ensures var t := PerformUpdate(s, results);
      t.scheduled <= s.scheduled * s.pending && s.pending <= t.pending && t.idle == s.idle
  {
    UpdateScreensFrame(s, s.screens, results);
  }

  lemma ActiveStepProgresses(s: State, e: Event)
    requires Valid(s) && Progresses(s) && s.active
    ensures Progresses(Step(s, e))
  {
    match e
    case IdleFires(results) =>
      if s.idle > 0 { PerformUpdateSettles(s.(idle := s.idle - 1), results); }
    case FrameArrives(x, results) =>
      if x in s.flips {
        PerformUpdateSettles(s.(pending := s.pending - {x}, flips := s.flips - multiset{x}), results);
      }
    case Schedules(screens, zoomed) =>
      assert s.scheduled * s.pending <= Step(s, e).scheduled * s.pending;
    case ViewUpdates(screens, visible, zoomed) =>
      assert s.scheduled * s.pending <= Step(s, e).scheduled * s.pending;
    case Activated =>
      assert s.scheduled * s.pending <= Step(s, e).scheduled * s.pending;
    case Deactivated =>
  }

  /** Every state the run passes through is active. */
  ghost predicate StaysActive(s: State, events: seq<Event>)
    decreases |events|
  {
    s.active && (events != [] ==> StaysActive(Step(s, events[0]), events[1..]))
  }

  /** In a run that stays active no scheduled repaint is ever stranded. */
  lemma {:induction false} RunProgresses(s: State, events: seq<Event>)
    requires Valid(s) && Progresses(s) && StaysActive(s, events)
    ensures Progresses(Run(s, events))
    decreases |events|
  {
    if events != [] {
      ActiveStepProgresses(s, events[0]);
      StepKeepsValid(s, events[0]);
      RunProgresses(Step(s, events[0]), events[1..]);
    }
  }

  // ------------------------------------------------- every request is painted

  /** The swaps an event asks for all succeed. */
  predicate Clean(e: Event) {
    (e.IdleFires? || e.FrameArrives?) ==> forall x | x in e.results :: e.results[x] == Swapped
  }

  lemma {:induction false} UpdateScreensPaints(s: State, screens: seq<Screen>, results: Results, x: Screen)
    requires x in screens && x in s.scheduled && x in s.targets && x !in s.pending
    requires forall y | y in results :: results[y] == Swapped
    ensures UpdateScreens(s, screens, results).painted[x] > s.painted[x]
    decreases |screens|
  {
    var t := UpdateScreen(s, screens[0], results);
    UpdateScreensFrame(t, screens[1..], results);
    if screens[0] != x {
      UpdateScreensPaints(t, screens[1..], results, x);
    }
  }

  lemma PerformUpdatePaints(s: State, results: Results, x: Screen)
    requires Valid(s) && s.active && x in s.scheduled && x in s.targets
    requires forall y | y in results :: results[y] == Swapped
    ensures var t := PerformUpdate(s, results);
      s.painted <= t.painted && (x in t.scheduled || t.painted[x] > s.painted[x])
  {
    UpdateScreensFrame(s, s.screens, results);
    if x !in s.pending {
      UpdateScreensPaints(s, s.screens, results, x);
    } else {
      assert x !in s.scheduled - s.pending;
      UpdateScreensClean(s, s.screens, results);
    }
  }

  lemma {:induction false} UpdateScreensClean(s: State, screens: seq<Screen>, results: Results)
    requires forall y | y in results :: results[y] == Swapped
    ensures UpdateScreens(s, screens, results).scheduled == s.scheduled
    ensures UpdateScreens(s, screens, results).active == s.active
    decreases |screens|
  {
    if screens != [] {
      UpdateScreensClean(UpdateScreen(s, screens[0], results), screens[1..], results);
    }
  }

  lemma StepPaints(s: State, e: Event, x: Screen)
    requires Valid(s) && s.active && x in s.scheduled && x in s.targets && Clean(e) && e != Deactivated
    ensures var t := Step(s, e); s.painted <= t.painted && (x in t.scheduled || t.painted[x] > s.painted[x])
    ensures Step(s, e).targets == s.targets
  {
    match e
    case IdleFires(results) =>
      if s.idle > 0 {
        PerformUpdatePaints(s.(idle := s.idle - 1), results, x);
        UpdateScreensFrame(s.(idle := s.idle - 1), s.screens, results);
      }
    case FrameArrives(y, results) =>
      if y in s.flips {
        var t := s.(pending := s.pending - {y}, flips := s.flips - multiset{y});
        assert Valid(t);
        PerformUpdatePaints(t, results, x);
        UpdateScreensFrame(t, s.screens, results);
      }
    case Schedules(_, _) =>
    case ViewUpdates(_, _, _) =>
    case Activated =>
  }

  lemma {:induction false} RunOnlyAdds(s: State, events: seq<Event>)
    ensures s.painted <= Run(s, events).painted
    decreases |events|
  {
    if events != [] {
      var e := events[0];
      if e.IdleFires? && s.idle > 0 { UpdateScreensFrame(s.(idle := s.idle - 1), s.screens, e.results); }
      if e.FrameArrives? && e.screen in s.flips {
        UpdateScreensFrame(s.(pending := s.pending - {e.screen}, flips := s.flips - multiset{e.screen}),
                           s.screens, e.results);
      }
      RunOnlyAdds(Step(s, e), events[1..]);
    }
  }

  /** When a run that stays active and whose swaps succeed comes to rest, with no idle callback and
      no flip outstanding, every screen that was waiting to be repainted has been. */
  lemma {:induction false} RestMeansPainted(s: State, events: seq<Event>, x: Screen)
    requires Valid(s) && Progresses(s) && StaysActive(s, events) && forall e | e in events :: Clean(e)
    requires x in s.scheduled && x in s.targets
    requires Run(s, events).idle == 0 && Run(s, events).flips == multiset{}
    ensures Run(s, events).painted[x] > s.painted[x]
    decreases |events|
  {
    if events == [] {
      NoFlipsNoPending(s);
    } else {
      var t := Step(s, events[0]);
      StepPaints(s, events[0], x);
      RunOnlyAdds(t, events[1..]);
      if x in t.scheduled {
        ActiveStepProgresses(s, events[0]);
        StepKeepsValid(s, events[0]);
        RestMeansPainted(t, events[1..], x);
      }
    }
  }

  lemma NoFlipsNoPending(s: State)
    requires Valid(s) && s.flips == multiset{}
    ensures s.pending == {}
  {
    forall y ensures y !in s.pending { assert s.flips[y] == 0; }
  }

  // ------------------------------------------------- where progress is lost

  /** Repaints are wanted, but no idle callback is queued and no frame event will come. */
  predicate Stuck(s: State) {
    s.scheduled != {} && s.idle == 0 && s.pending == {}
  }

  /** A step gets stuck exactly when the session is inactive, repaints are scheduled, and the last
      callback or frame event goes by: the update returns early and leaves them scheduled. */
  lemma StuckExactly(s: State, e: Event)
    requires Valid(s) && !Stuck(s)
    ensures Stuck(Step(s, e)) <==>
      && !s.active && s.scheduled != {}
      && (  (e.IdleFires? && s.idle == 1 && s.pending == {})
         || (e.FrameArrives? && s.idle == 0 && s.pending == {e.screen}))
  {
    match e
    case IdleFires(results) =>
      if s.idle > 0 && s.active { PerformUpdateSettles(s.(idle := s.idle - 1), results); }
    case FrameArrives(x, results) =>
      if x in s.flips {
        assert s.flips[x] == 1;
        if s.active { PerformUpdateSettles(s.(pending := s.pending - {x}, flips := s.flips - multiset{x}), results); }
        assert s.pending - {x} == {} <==> s.pending == {x};
      } else {
        assert s.flips[x] == 0;
      }
    case Schedules(_, _) =>
    case ViewUpdates(_, _, _) =>
    case Activated =>
    case Deactivated =>
  }

  /** Once stuck, always stuck: reactivating the session or asking for more repaints queues nothing,
      because something is already scheduled. Only another deactivation clears it. */
  lemma {:induction false} StuckForever(s: State, events: seq<Event>)
    requires Valid(s) && Stuck(s) && Deactivated !in events
    ensures Stuck(Run(s, events)) && Run(s, events).painted == s.painted
    decreases |events|
  {
    if events != [] {
      var e := events[0];
      assert e.FrameArrives? ==> s.flips[e.screen] == 0;
      StepKeepsValid(s, e);
      StuckForever(Step(s, e), events[1..]);
    }
  }

  /** Such a state is reached by one direct repaint request while the session is switched away. */
  lemma SwitchedAwayGetsStuck(x: Screen)
    ensures var s := State([x], {x}, true, {}, {}, 0, multiset{}, multiset{});
      var t := Run(s, [Deactivated, Schedules({x}, false), IdleFires(map[]), Activated]);
      Valid(s) && Progresses(s) && t.active && Stuck(t)
  {
    var s := State([x], {x}, true, {}, {}, 0, multiset{}, multiset{});
    var wanted := Step(Step(s, Deactivated), Schedules({x}, false));
    var missed := Step(wanted, IdleFires(map[]));
    assert All([x]) == {x} && {x} * {x} == {x};
    assert wanted.scheduled == {x} && missed == wanted.(idle := 0);
    RunMore(missed, Activated, []);
    assert [Activated] + [] == [Activated];
    assert [IdleFires(map[])] + [Activated] == [IdleFires(map[]), Activated];
    RunMore(wanted, IdleFires(map[]), [Activated]);
    RunMore(Step(s, Deactivated), Schedules({x}, false), [IdleFires(map[]), Activated]);
    RunMore(s, Deactivated, [Schedules({x}, false), IdleFires(map[]), Activated]);
  }

  lemma RunMore(s: State, e: Event, rest: seq<Event>)
    ensures Run(s, [e] + rest) == Run(Step(s, e), rest)
  {
    assert ([e] + rest)[1..] == rest;
  }

  // ------------------------------------------------------ one event exactly

  /** Asking for updates adds what is asked for, or all screens of a zoomed compositor, and queues one idle callback
      if nothing had been asked for; a view's own request counts only while it is visible and the session active. */
  lemma AskedExactly(s: State, screens: set<Screen>, visible: bool, zoomed: bool)
    ensures var t := Step(s, Schedules(screens, zoomed));
      && (forall x :: x in t.scheduled <==> x in s.scheduled || (x in s.screens && (zoomed || x in screens)))
      && t == s.(scheduled := t.scheduled, idle := if s.scheduled == {} then s.idle + 1 else s.idle)
    ensures Step(s, ViewUpdates(screens, visible, zoomed))
         == if s.active && visible then Step(s, Schedules(screens, zoomed)) else s
  {
  }

  /** Leaving the session forgets what was asked for; coming back asks for everything. */
  lemma SessionExactly(s: State)
    ensures Step(s, Deactivated) == s.(active := false, scheduled := {})
    ensures var t := Step(s, Activated);
      && t == s.(active := true, scheduled := t.scheduled, idle := t.idle)
      && (forall x :: x in t.scheduled <==> x in s.scheduled || x in s.screens)
      && t.idle == if s.scheduled == {} then s.idle + 1 else s.idle
  {
  }

  /** No swap is refused because the session is going away. */
  predicate NoneDenied(results: Results) {
    forall x | x in results :: !results[x].AccessDenied?
  }

  /** The screen is swapped: it was asked for, has a target, waits for no flip, and the swap works. */
  predicate Repainted(s: State, x: Screen, results: Results) {
    x in s.scheduled && x in s.targets && x !in s.pending && Outcome(results, x).Swapped?
  }

  lemma {:induction false} UpdatesExactly(s: State, screens: seq<Screen>, results: Results, x: Screen)
    requires Distinct(screens) && NoneDenied(results)
    ensures var t, swapped := UpdateScreens(s, screens, results), x in screens && Repainted(s, x, results);
      && t == s.(pending := t.pending, flips := t.flips, painted := t.painted)
      && (x in t.pending <==> x in s.pending || swapped)
      && t.flips[x] == s.flips[x] + (if swapped then 1 else 0)
      && t.painted[x] == s.painted[x] + (if swapped then 1 else 0)
    decreases |screens|
  {
    if screens != [] {
      var t := UpdateScreen(s, screens[0], results);
      assert forall j | 0 <= j < |screens[1..]| :: screens[1..][j] == screens[j + 1];
      assert Distinct(screens[1..]);
      UpdatesExactly(t, screens[1..], results, x);
      if x == screens[0] { assert x !in screens[1..]; }
    }
  }

  /** What an update does: while the session is active, every screen that was asked for and waits for no flip is
      swapped if it can be, and not asked for any more either way; every other one keeps waiting. */
  lemma PerformedExactly(s: State, results: Results, x: Screen)
    requires Valid(s) && NoneDenied(results) && x in s.screens
    ensures var t, swapped := PerformUpdate(s, results), s.active && Repainted(s, x, results);
      && t == s.(scheduled := t.scheduled, pending := t.pending, flips := t.flips, painted := t.painted)
      && (x in t.scheduled <==> x in s.scheduled && (!s.active || x in s.pending))
      && (x in t.pending <==> x in s.pending || swapped)
      && t.flips[x] == s.flips[x] + (if swapped then 1 else 0)
      && t.painted[x] == s.painted[x] + (if swapped then 1 else 0)
  {
    UpdatesExactly(s, s.screens, results, x);
  }

  /** An idle callback uses itself up, and repaints what can be. */
  lemma IdleExactly(s: State, results: Results, x: Screen)
    requires Valid(s) && NoneDenied(results) && x in s.screens
    ensures var t, swapped := Step(s, IdleFires(results)), s.idle > 0 && s.active && Repainted(s, x, results);
      && t.idle == (if s.idle > 0 then s.idle - 1 else 0) && t.active == s.active
      && (x in t.scheduled <==> x in s.scheduled && (s.idle == 0 || !s.active || x in s.pending))
      && (x in t.pending <==> x in s.pending || swapped)
      && t.painted[x] == s.painted[x] + (if swapped then 1 else 0)
  {
    if s.idle > 0 {
      var called := s.(idle := s.idle - 1);
      assert Valid(called);
      PerformedExactly(called, results, x);
    }
  }

  /** The frame event ends the one flip of its screen, and gives what is still asked for another chance, that screen
      included. */
  lemma FlipEnds(s: State, x: Screen, results: Results)
    requires Valid(s) && NoneDenied(results) && x in s.flips && x in s.screens
    ensures var t := Step(s, FrameArrives(x, results));
      var again := s.active && x in s.scheduled && x in s.targets && Outcome(results, x).Swapped?;
      && t.flips[x] == (if again then 1 else 0) && (x in t.pending <==> again)
      && t.painted[x] == s.painted[x] + (if again then 1 else 0)
      && t.idle == s.idle && t.active == s.active
  {
    var freed := s.(pending := s.pending - {x}, flips := s.flips - multiset{x});
    assert Valid(freed);
    PerformedExactly(freed, results, x);
  }

  /** A swap that is refused ends the session, and with it all that was asked for. */
  lemma {:induction false} DeniedEndsSession(s: State, screens: seq<Screen>, results: Results, i: nat)
    requires Distinct(screens) && i < |screens| && screens[i] in s.scheduled && screens[i] in s.targets
    requires screens[i] !in s.pending && Outcome(results, screens[i]).AccessDenied?
    requires forall j | 0 <= j < i :: !Outcome(results, screens[j]).AccessDenied?
    ensures var t := UpdateScreens(s, screens, results); !t.active && t.scheduled == {}
    decreases |screens|
  {
    var t := UpdateScreen(s, screens[0], results);
    assert forall j | 0 <= j < |screens[1..]| :: screens[1..][j] == screens[j + 1];
    if i == 0 {
      NothingScheduled(t, screens[1..], results);
    } else {
      assert screens[1..][i - 1] == screens[i];
      DeniedEndsSession(t, screens[1..], results, i - 1);
    }
  }

  lemma {:induction false} NothingScheduled(s: State, screens: seq<Screen>, results: Results)
    requires s.scheduled == {}
    ensures UpdateScreens(s, screens, results) == s
    decreases |screens|
  {
    if screens != [] { NothingScheduled(s, screens[1..], results); }
  }
}

/** The compositor's bit masks, updated in place. */
module SchedulerObject {
  import opened Scheduler

  class Compositor {
    const screens: seq<Screen>
    const targets: set<Screen>
    var active: bool
    var updating: bool
    var scheduledUpdates: set<Screen>
    var pendingFlips: set<Screen>
    /** Idle callbacks and frame events the event loop still has to deliver, and the swaps done. */
    var idle: nat
    var flips: multiset<Screen>
    var painted: multiset<Screen>

    ghost function Model(): State
      reads this
    {
      State(screens, targets, active, scheduledUpdates, pendingFlips, idle, flips, painted)
    }

    constructor (screens: seq<Screen>, targets: set<Screen>)
      requires Distinct(screens)
      ensures this.screens == screens && this.targets == targets && !updating
      ensures Valid(Model()) && Progresses(Model()) && Model().scheduled == {} && Model().painted == multiset{}
    {
      this.screens, this.targets := screens, targets;
      active, updating := true, false;
      scheduledUpdates, pendingFlips, idle, flips, painted := {}, {}, 0, multiset{}, multiset{};
    }

    method AllScreens() returns (all: set<Screen>)
      ensures all == All(screens)
    {
      all := {};
      for i := 0 to |screens|
        invariant all == All(screens[..i])
      {
        all := all + {screens[i]};
        assert screens[..i + 1] == screens[..i] + [screens[i]];
      }
      assert screens[..|screens|] == screens;
    }

    method ScheduleUpdates(wanted: set<Screen>, zoomed: bool)
      modifies `scheduledUpdates, `idle
      ensures Model() == Schedule(old(Model()), wanted, zoomed)
    {
      if scheduledUpdates == {} { idle := idle + 1; }
      var mask := wanted;
      if zoomed { mask := AllScreens(); }
      scheduledUpdates := scheduledUpdates + mask;
    }

    method HandleActivated()
      modifies `active, `scheduledUpdates, `idle
      ensures Model() == Activate(old(Model()))
    {
      active := true;
      var all := AllScreens();
      ScheduleUpdates(all, false);
    }

    method HandleDeactivated()
      modifies `active, `scheduledUpdates
      ensures Model() == Deactivate(old(Model()))
    {
      active, scheduledUpdates := false, {};
    }

    method UpdateOneScreen(x: Screen, results: Results)
      modifies `active, `scheduledUpdates, `pendingFlips, `flips, `painted
      ensures Model() == UpdateScreen(old(Model()), x, results)
    {
      if x !in scheduledUpdates { return; }
      if x !in targets { return; }
      if x in pendingFlips { return; }
      match Outcome(results, x)
      case AccessDenied => HandleDeactivated();
      case Swapped =>
        flips, painted := flips + multiset{x}, painted + multiset{x};
        pendingFlips := pendingFlips + {x};
      case Failed =>
    }

    method PerformScheduled(results: Results)
      requires !updating
      modifies this
      ensures Model() == PerformUpdate(old(Model()), results) && !updating
    {
      var updates := scheduledUpdates - pendingFlips;
      if !active || updates == {} { return; }
      updating := true;
      for i := 0 to |screens|
        invariant UpdateScreens(Model(), screens[i..], results) == UpdateScreens(old(Model()), screens, results)
      {
        UpdateOneScreen(screens[i], results);
      }
      scheduledUpdates := scheduledUpdates - updates;
      updating := false;
    }

    /** A queued idle callback runs. */
    method HandleIdle(results: Results)
      requires !updating && idle > 0
      modifies this
      ensures Model() == Step(old(Model()), IdleFires(results)) && !updating
    {
      idle := idle - 1;
      PerformScheduled(results);
    }

    /** A frame that arrives in the middle of an update only clears the flip. */
    method HandleScreenFrame(x: Screen, results: Results)
      requires x in flips
      modifies this
      ensures updating == old(updating)
      ensures Model() == if old(updating) then old(Model()).(pending := old(pendingFlips) - {x},
          flips := old(flips) - multiset{x})
                         else Step(old(Model()), FrameArrives(x, results))
    {
      flips := flips - multiset{x};
      pendingFlips := pendingFlips - {x};
      if scheduledUpdates != {} && !updating {
        PerformScheduled(results);
      }
    }
  }
}
