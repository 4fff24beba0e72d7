# A verified model of the neoswc compositor core

neoswc is a Wayland compositor library with a window-manager front end. This project models the parts
of it that have to be right together, and proves them for all inputs, all runs and all interleavings:

* **Frame-perfect relayout.** `Barrier` is the wait for acknowledgements, `Cohort` the windows that are
  enrolled, parked and presented together, `Surfaces` the render hold over a tree of surfaces, `Visibility`
  which of their views are visible, and `River` the manage, settle and render sequence that drives them.
  `Stragglers` is about windows that do not answer in time; it and `RiverRuns` also start the runs from the
  initial state. `Commits`, `Requests`, `Proposals` and `Sequences` say what each request does, by the history of
  requests or by the record before and after.
* **Repaint.** `Regions`, `Views`, `Painting` and `Frames` model clip calculation, occlusion culling, the
  scratch buffer that is never cleared and the scanout buffers, against a naive painter. `Culling` says exactly
  when they agree. `Damage`, `Borders`, `Decorations`, `ClipBoxes` and `HeldDamage` compare what a change alters
  with what the source damages for it. `Placement` is where boxes, parts and pictures are. `Tiling` is the loop
  that draws decoration parts.
* **Scheduling.** `Scheduler` is the bookkeeping of repaints, idle callbacks and page flips.
* **Subsurfaces.** `Stacking` is the double-buffered order and its effect on the view list, `Ancestry` the
  parent links.
* **Input and geometry.** `Keyboard`, `Focus`, `Confinement` and `Geometry`. `Words` and `Linked` are shared helpers.

Each part is written twice. A module of datatypes and functions states what every operation does to the
state, and the theorems are about runs of those operations. A second module (`...Object`) has a class with
the source's own fields, lists and loops; each of its methods `ensures` that it takes the class from one
model state to the next. Intrusive lists are sequences, head first. Bit masks of screens are sets. Callbacks
that the source calls last (`finish`, `transaction_done`, `begin_render`) make their effects part of the
step that calls them, and whatever they trigger afterwards is a later step. Regions are finite sets of points.

## What the code does that its comments do not say

Each of these is proved, for all inputs, with the exact condition under which it happens.

* A window finalized while parked leaves its surface held for good (`Cohort.FinalizeOrphansExactly`; a run that
  gets there is `Stragglers.ParkedAndFinalized`).
* A window resized again within a cohort keeps its first serial. Its acknowledgements then never settle it, only
  the timeout, a timer that cannot be had, or its destruction (`Stragglers.OnlyTimeoutSettles`,
  `Stragglers.AckAnswersExactly`; a run that gets there is `Stragglers.ResizedTwice`).
* The comment in `present_cohort` says a straggler keeps `configure.pending`; it does exactly when it has not
  attached a buffer during the hold, since `handle_attach` clears it (`Stragglers.StragglerKeepsExactly`).
* Destroying a manager while its cohort settles lets `render_start` arrive inside a later manager's manage
  sequence (`River.StepStaysCurrent`, `River.DestroyWhileSettling`; a run that gets there is
  `RiverRuns.SettlingIsReached`).
* One direct request for a repaint while the session is switched away stops all repainting, through
  reactivation, until the next deactivation (`Scheduler.StuckExactly`, `Scheduler.StuckForever`; a run that gets
  there is `Scheduler.SwitchedAwayGetsStuck`).
* A border change repaints all it changes if and only if the old ring stays inside the new extents and, as far as
  a content clip box lets the border into the geometry, the two borders look the same
  (`Borders.BorderRepaintedExactly`). A ring that sticks out stays on the screen (`Borders.StaleRingStays`).
* `attach` computes the extents from the previous buffer, so the part of a popup outside its window geometry may
  not be painted. When its buffer is outside the extents is `Damage.AttachedBufferInsideExactly` and
  `Damage.UnresizedBufferInsideExactly`; such a popup is `Damage.AttachedShadowIsLost`.
* The render hold keeps buffers, not the picture. A held subsurface disappears at once when a commit takes its
  buffer or that of a subsurface above it, and one can appear (`Visibility.HeldChangesExactly`; a run that gets
  there is `Visibility.HeldDisappears`). A new opaque region acts at once on the old buffer
  (`Culling.OpaqueChangeExactly`).
* Occlusion culling is right exactly when at every damaged pixel some view down to the topmost opaque one really
  hides what is below (`Culling.CullingExactly`). For windows it always is; for a held popup with window geometry
  it may not be (`Culling.HeldPopupIsCulledWrong`).
* Damage committed during a hold is taken by the next frame, though the buffer it is about is shown only at the
  release. All that the release changes is damaged exactly when no damage taken is missing at the end
  (`HeldDamage.DamagedAtReleaseExactly`, `HeldDamage.CalculatedIsLost`).
* A new clip box damages all it changes exactly when the old and the new boxes admit the same drawn pixels of the
  subsurfaces outside the view's own extents (`ClipBoxes.ClipBoxDamagedExactly`; a subsurface that sticks out is
  `ClipBoxes.StickingOutIsNotDamaged`).
* A new decoration is repainted exactly when the old one is inside the new extents and the geometry looks the same
  (`Decorations.DecorRepaintedExactly`).
* A manager destroyed while rendering leaves its parked windows frozen until a manage_finish of a later one is
  accepted (`RiverRuns.LeftParkedStays`, `RiverRuns.DestroyWhileRendering`, `RiverRuns.ManageFinishFrees`).
* Leaving sync mode strands a commit cached further down exactly when no other surface on the way to it is in
  sync mode (`Surfaces.DesyncStrandsExactly`). It stays stranded whatever its ancestors commit
  (`Surfaces.StrandedForever`; a chain and a run that get there are `Surfaces.DesyncStrandsGrandchild`).
* `rectangle_overlap` can report rectangles that are far apart, and `rectangle_contains_point` takes every
  point from zero on to be in a rectangle that ends before zero (`Geometry.OverlapAxisExactly`,
  `Geometry.ContainsAxisExactly`).

Two more differences are followed, not proved about. The comment in `bind_manager` says a second manager gets no
implementation, but the code gives it one (wm/river_wm.c:2321-2329), so in the model its requests are accepted
like the first one's. And the commit of a held surface restacks and moves its subsurfaces at once, as the commit
of any surface does (libswc/subsurface.c:340-390).

## Model

| member | source | states |
|---|---|---|
| Barrier.RunInv | libswc/transaction.c:145-245 | Over every sequence of adds, removes, acks, commits and timeouts: keys are unique, `size` and `pending` count the participants and the unacknowledged ones, a committed barrier that is not complete has somebody to wait for and an armed timer, and the handler has run at most once and never before the commit. |
| Barrier.HistoryDecides | libswc/transaction.c:145-213 | Who is enrolled, on which serial, and whether it is acknowledged are exactly what the history of events says by itself: the earliest request in time counts, duplicates and stale serials never do, a withdrawal forgets everything. |
| Barrier.SettledExactly | libswc/transaction.c:189-213 | `pending` is zero exactly when everybody the history enrolled has acknowledged its own serial. |
| Barrier.CompletesExactly | libswc/transaction.c:67-94 | The handler has run exactly when some prefix of the history ends the wait (all answered, timer ran out, or no timer could be had), and it is told it timed out exactly when somebody was still outstanding then. |
| BarrierObject.Transaction.Finish | libswc/transaction.c:67-87 | Completes at most once, disarming the timer. |
| BarrierObject.Transaction.Add | libswc/transaction.c:145-166 | The list, counters and result are those of the model's Add, refusals included. |
| BarrierObject.Transaction.Remove | libswc/transaction.c:168-187 | Withdrawing unlinks, adjusts both counters, and may complete the barrier. |
| BarrierObject.Transaction.Ack | libswc/transaction.c:189-213 | Only an exact, first acknowledgement counts; the last one completes a committed barrier. |
| BarrierObject.Transaction.Commit | libswc/transaction.c:215-245 | Completes at once when nothing is pending or no timer can be made, else arms the timer. |
| Cohort.RunKeepsInv | libswc/window.c:217-384 | Over all runs: enrolled, parked and barrier membership agree, a window's root surface is held exactly while it is on the enrolled or parked list, and nothing is parked while a cohort is open. |
| Cohort.StepKeepsPromises | libswc/window.c:199-350 | Conservation: no event on any window loses or invents the position a window was last asked to take or the buffer its client last committed. |
| Cohort.StepKeepsView | libswc/window.c:578-659 | Isolation: while a window is enrolled no event but its own destruction changes its position, size or shown buffer, the event that settles the cohort included. |
| Cohort.Relayout | libswc/window.c:321-350 | From enrolment to the next present a window's root view keeps the buffer it shows, and while enrolled its position and size, whatever happens; the present shows the last committed buffer, releases the hold, and moves every window that answered to the last position asked for. |
| Cohort.NothingStaysFrozen | libswc/window.c:356-384 | With no cohort open, a begin or a present leaves no live window held. |
| Cohort.FinalizeOrphansExactly | libswc/window.c:217-236 | Finalizing a window leaves a held surface behind exactly when the window was parked. |
| Requests.MoveAlone | libswc/window.c:579-615 | With no cohort open a move is done at once, unless a configure is pending; then the view stays and the place asked for is remembered. Nothing else changes. |
| Requests.MoveTogether | libswc/window.c:579-608 | While a cohort is put together a window asked to go elsewhere is enrolled and held where it is, its participant acknowledged exactly when it owes no reply; asked to stay, it has nothing pending and does not join. |
| Requests.MoveLate | libswc/window.c:579-608 | Once the cohort is committed a move is only remembered. |
| Requests.ResizeExactly | libswc/window.c:618-659 | A resize to the size last asked for does nothing; any other issues the next serial, unacknowledged unless the shell answers at once, remembers width and height of a tiled window, and enrols it in a cohort being put together, owing a reply unless it has been given. |
| Requests.AckExactly | libswc/window.c:436-444 | An acknowledgement is noted in the window's record and changes neither its place, its buffer nor what is asked of it. |
| Requests.CommitShows | libswc/window.c:821-839 | A buffer committed without a hold shows at once at its size and answers the configure; a deferred move is made exactly if the configure has been acknowledged. |
| Requests.CommitWaits | libswc/surface.c:308-319 | A buffer committed under a hold is remembered and changes nothing else. |
| Requests.StackedExactly | libswc/window.c:503-523 | Floating a window makes its deferred move, unless a cohort holds it, and ends its configure. |
| Requests.CommitOfGone | libswc/surface.c:308-325 | A commit after the window is finalized changes the surface's buffer only. |
| Requests.HandlerExactly | libswc/window.c:821-839 | The view handler leaves an enrolled window alone; any other's configure it answers, making a deferred move exactly if it has been acknowledged. |
| Requests.CreatedExactly | libswc/window.c:869-925 | A new window floats, is on no list, held by nothing and asked for nothing, and changes no other. |
| Requests.PresentedExactly | libswc/window.c:322-350 | What a present makes of a parked window: place, buffer, size, pending configure and hold, for one that answered and for a straggler. |
| Requests.OthersNotPresented | libswc/window.c:322-350 | A present touches no window that is not parked. |
| Requests.FinalizedExactly | libswc/window.c:928-942 | A finalized window is on no list and in no barrier; its surface stays held exactly if it was parked. |
| Requests.FinalizedAlone | libswc/window.c:217-236 | While the cohort goes on no other window changes by it. |
| Requests.TimeoutParks | libswc/window.c:275-313 | The timeout parks exactly the enrolled windows, each marked by whether it had acknowledged, changes nothing else of any window, and tells the callback it timed out. |
| Requests.CommitExactly | libswc/window.c:417-428 | A commit ends the cohort at once exactly if nobody owes an answer or no timer can be had, and tells the callback it timed out exactly in the second case; otherwise it waits. |
| Requests.LastAnswerParks | libswc/window.c:275-313 | The one missing answer ends a committed cohort with every window responded and the callback told it was in time. |
| Requests.RunKeepsSizes | libswc/view.c:62-131 | Over all runs every window has the size of the buffer it shows. |
| Stragglers.OnlyTimeoutSettles | libswc/window.c:618-659 | A window configured again after it was enrolled stays enrolled and outstanding, and the barrier incomplete, over every run, acknowledgements of any window included, without a timeout, a commit that can get no timer, or that window's destruction; unless its serial goes all the way round. |
| Stragglers.SecondResizeSupersedes | libswc/window.c:641-657 | A resize that asks a waiting window for something new puts it in that state. |
| Stragglers.AckAnswersExactly | libswc/window.c:436-444 | The next acknowledgement settles a waiting window, still enrolled or parked by it, exactly when the window has not been configured again since its enrolment. |
| Stragglers.ResizedTwice | libswc/window.c:618-659 | A run from the start that reaches a superseded window: two resizes in one cohort. |
| Stragglers.StragglerKeepsExactly | libswc/window.c:322-350 | A held window that did not answer keeps its pending configure through the present exactly when no buffer was attached during the hold, and its pending move unless one was and it has acknowledged by then. |
| Stragglers.ParkedAndFinalized | libswc/window.c:217-236 | A run from the start that parks a window, whose destruction then leaves a held surface behind. |
| Stragglers.EveryRun | libswc/window.c:217-384 | The invariant of windows, cohort and barrier holds after every run from the initial state. |
| CohortObject.WindowTable.HandleDone | libswc/window.c:275-313 | Parks every enrolled window with its acknowledgement and calls the callback with the statics already cleared. |
| CohortObject.WindowTable.PresentCohort | libswc/window.c:322-350 | Unlinks every parked window, flushes those that answered and releases every hold. |
| CohortObject.WindowTable.Begin | libswc/window.c:357-384 | Refused while one is open, else presents what is parked and opens an empty cohort. |
| CohortObject.WindowTable.Join | libswc/window.c:248-272 | Enrols and holds, or does nothing; a window owing no reply settles at once. |
| CohortObject.WindowTable.Leave | libswc/window.c:217-236 | Unlinks before telling the barrier, which may complete; a parked window is only unlinked. |
| CohortObject.WindowTable.SetPosition | libswc/window.c:579-615 | The four outcomes of a move request: dropped, enrolled, deferred, applied. |
| CohortObject.WindowTable.SetSize | libswc/window.c:618-659 | A redundant request is dropped; otherwise a new serial is issued and the window enrolled. |
| Surfaces.SynchronizedExactly | libswc/surface.c:354-366 | A commit is cached exactly when some subsurface on the way up, the surface itself included, is in sync mode. |
| Surfaces.HoldRefines | libswc/surface.c:555-614 | On any tree, hold, any sequence of attaches, commits and mode changes, then release leaves every view with the same buffer as without the hold, and calls view_update for it exactly if the unheld run did. |
| Surfaces.HoldSpec | libswc/surface.c:555-570 | Holding an unheld tree holds every surface of it and changes nothing else. |
| Surfaces.ReleaseSpec | libswc/surface.c:573-614 | Releasing a held tree replays every surface of it once and changes nothing else. |
| Surfaces.StopsExactly | libswc/surface.c:555-580 | A second hold, and a release of what is not held, change nothing, whatever is below. |
| Surfaces.RunFreezes | libswc/surface.c:308-325 | While a surface is held no request gives its view another buffer or updates it. |
| Surfaces.ApplyEach | libswc/surface.c:262-352 | Applying a surface applies it and, down the tree, exactly the subsurfaces that wait and are synchronized; each once, and which ones is settled before any is. |
| Commits.AppliesExactly | libswc/surface.c:354-366 | A request applies the surface it is addressed to exactly when it is a commit with no sync mode on the way, or a set_desync of the only one on the way with a commit waiting. |
| Commits.AppliedExactly | libswc/surface.c:341-351 | A request applies a surface exactly when it applies one at or above it and everything from there down to it waits, the first of it in sync mode. |
| Commits.SynchronizedCommitWaits | libswc/surface.c:354-364 | A commit with some sync mode on the way, however far up, is cached, and nothing else changes. |
| Commits.RunReads | libswc/surface.c:262-366 | Over all runs a surface's committed buffer is the last one attached before it was last applied, what is attached since is still to come, and it waits exactly if it was committed since while synchronized: no commit is lost or applied twice. |
| Commits.RunModes | libswc/subsurface.c:292-313 | Over all runs the mode of a subsurface is the one its client asked for last. |
| Commits.ShownExactly | libswc/surface.c:308-325 | A request gives a view the new buffer, and one update, exactly when it applies its surface and the view is not held. |
| Commits.SynchronizedCommitComesThrough | libswc/surface.c:262-366 | A buffer attached and committed while synchronized waits through any requests elsewhere; the request that applies the surface puts it in effect and, unless held, on the view. |
| Visibility.RunKeeps | libswc/subsurface.c:81-103 | Over all runs of requests, held or not, showing and hiding one by one keeps every subsurface visible exactly when its parent is and it is in place and has a view and a committed buffer. |
| Visibility.VisibleExactly | libswc/compositor.c:1983-2043 | A subsurface is visible exactly when its window is and every surface from there down to it has been put in place and has a buffer. |
| Visibility.DisappearsExactly | libswc/surface.c:333-335 | A visible subsurface disappears, held or not, exactly when the request applies an attach of no buffer to it or to a subsurface above it. |
| Visibility.HeldChangesExactly | libswc/subsurface.c:96-102 | When a request changes what a held surface shows, buffer or visibility: never its buffer, and its visibility exactly by the commits it applies on the way to the surface, computed from the state before. |
| Visibility.PlacedByParent | libswc/subsurface.c:388-404 | A subsurface is put in place by an apply exactly when its parent is among the surfaces applied. |
| Visibility.HoldRefinesScene | libswc/surface.c:555-614 | A held and an unheld run have the same surfaces in place and visible at every moment, and after the release the same buffers. |
| Visibility.HeldDisappears | libswc/subsurface.c:96-102 | A run in which a held subsurface disappears while its view keeps the buffer. |
| Surfaces.DesyncStrandsExactly | libswc/subsurface.c:301-313 | On any tree, after set_desync on a surface a deeper one is left with a cached commit that nothing synchronizes exactly when its commit was cached before and no surface on the way to it, the one addressed left out, was in sync mode. |
| Surfaces.StrandedForever | libswc/surface.c:262-352 | A surface that nothing on its way synchronizes is untouched, its cached commit included, by every run of requests to other surfaces, commits of all its ancestors included, that puts nothing on its way in sync mode. |
| Surfaces.DesyncStrandsGrandchild | libswc/subsurface.c:301-313 | A chain and a run that get there: the grandchild's commit is cached, unsynchronized and not applied by later commits above it. |
| SurfacesObject.SurfaceTable.ShowView | libswc/compositor.c:1983-2019 | Shows a subsurface and recursively those below it that can be seen. |
| SurfacesObject.SurfaceTable.HideView | libswc/compositor.c:2021-2043 | Hides a view and recursively all below it. |
| SurfacesObject.SurfaceTable.UpdateView | libswc/subsurface.c:81-103 | Shows or hides one subsurface after a change. |
| SurfacesObject.SurfaceTable.PutInPlace | libswc/subsurface.c:390-404 | Puts every child in place and updates its visibility. |
| SurfacesObject.SurfaceTable.ApplyPending | libswc/surface.c:262-352 | Applies one surface, updates visibility, puts its children in place, then applies those that wait and are synchronized, front to back. |
| SurfacesObject.SurfaceTable.HoldRender | libswc/surface.c:555-570 | Recursively holds a tree, stopping at what is already held. |
| SurfacesObject.SurfaceTable.ReleaseRender | libswc/surface.c:573-614 | Releases children first and replays the last state once. |
| River.RunKeepsInv | wm/river_wm.c:2032-2205 | No lost request: a bound manager that is idle and dirty always has an idle callback queued, queued events keep it dirty, and settling has an open committed cohort. |
| River.SettleCannotWedge | wm/river_wm.c:2142-2176 | In the settle phase the barrier is committed, incomplete, waits for somebody and has an armed timer, whose expiry sends render_start. |
| River.RunInOrder | wm/river_wm.c:2032-2197 | manage_start, accepted manage_finish, render_start and accepted render_finish occur in strict cyclic order on every run in which no manager is destroyed while settling. |
| River.StepStaysCurrent | wm/river_wm.c:2280-2304 | The only step after which a cohort outlives its sequence is destroying the manager while it settles. |
| River.DestroyWhileSettling | wm/river_wm.c:2289-2290 | From every settling state that destruction lets the order be broken by the next manager's sequence. |
| River.RenderFinishShowsEverything | wm/river_wm.c:2179-2197 | An accepted render_finish leaves no window frozen and shows every parked window's last buffer, at its last requested position if it answered. |
| River.RunKeepsQueueInv | wm/river_wm.c:655-799 | Queued events are drained first in, first out, each once, with none outstanding at any manage_start, unless their owner goes away. |
| RiverRuns.EveryRun | wm/river_wm.c:2032-2205 | From the initial state these invariants hold after every run, and the cyclic order after every run in which no manager is destroyed while settling. |
| RiverRuns.SettlingIsReached | wm/river_wm.c:2142-2176 | A run from the start that settles in order, after which destroying the manager lets the order be broken. |
| Proposals.FinishAsks | wm/river_wm.c:2157-2175 | Between the begin and the commit of its cohort an accepted manage_finish configures every live listed window whose proposal is positive and not its size with exactly that width and height under a new serial and enrols it; all other windows are left as they are. |
| Proposals.RunRecords | wm/river_wm.c:1652-1671 | What is recorded for a listed window is the last proposal made since the manage sequence began. |
| Proposals.RunKeepsRoster | wm/river_wm.c:2540-2560 | Over all runs every window is listed once. |
| Sequences.ReportsWake | wm/river_wm.c:2115-2137 | Every event that has something to report makes the state dirty and has an idle manager's callback queued. |
| Sequences.ManageStartExactly | wm/river_wm.c:2032-2061 | An idle callback begins a sequence exactly with a manager bound and none under way; by manage_start every queued event is drained in order, sent exactly if its owner can be told, proposals are forgotten and the state is clean. |
| Sequences.ManagersExactly | wm/river_wm.c:2280-2335 | A second manager is refused, and only interactions' owners go with the first. |
| Sequences.QueuedExactly | wm/river_wm.c:654-686 | A queued event waits last, under a new ticket. |
| Sequences.OwnerFreedExactly | wm/river_wm.c:773-799 | An owner that goes takes exactly its own events along. |
| Sequences.ComesExactly | wm/river_wm.c:2540-2556 | A window that comes is created, tiled and listed last without a proposal. |
| Sequences.GoesExactly | wm/river_wm.c:2466-2483 | One that goes is finalized and not listed any more. |
| Sequences.RenderFinishedExactly | wm/river_wm.c:2179-2197 | An accepted render_finish presents, goes idle and wakes the next sequence exactly if something is to be reported. |
| Sequences.OutsideExactly | wm/river_wm.c:2065-2111 | Events of windows and clients reach the cohort unchanged; when they end it the manager, if there is one, is told to render. |
| RiverRuns.DestroyWhileRendering | wm/river_wm.c:2280-2304 | Destroying the manager while it renders leaves every parked window parked and held. |
| RiverRuns.LeftParkedStays | wm/river_wm.c:2142-2197 | Over every run without an accepted manage_finish such a window stays parked and held and shows the same buffer, whatever managers bind and whatever is requested. |
| RiverRuns.ManageFinishFrees | wm/river_wm.c:2142-2176 | The begin of the manage_finish that is accepted releases it and shows its last committed buffer. |
| RiverRuns.RenderingIsLeft | wm/river_wm.c:2065-2111 | From every settling state a timeout and the manager's end leave each enrolled window so. |
| RiverObject.WindowManager.FlushBindingEvents | wm/river_wm.c:712-770 | Drains the whole queue in order, sending to the owners that can still be told. |
| RiverObject.WindowManager.BeginManaging | wm/river_wm.c:2032-2061 | Starts a sequence only from idle with a manager, with proposals and dirtiness cleared. |
| RiverObject.WindowManager.ManageFinished | wm/river_wm.c:2142-2176 | Configures every proposal as one cohort and commits it; may already be rendering on return. |
| RiverObject.WindowManager.RenderFinished | wm/river_wm.c:2179-2197 | Presents, returns to idle, and schedules the next sequence if something became dirty. |
| RiverObject.WindowManager.DropEvents | wm/river_wm.c:774-799 | Removes exactly the owner's queued events, keeping the others in order. |
| Views.ExtentsAreLeast | libswc/compositor.c:839-876 | The extents are the least box holding geometry with border, geometry with decoration, and buffer, when these fit int32. |
| Views.ExtentsLoseNothing | libswc/compositor.c:866-869 | With the int32 clamp, no representable point of those boxes is outside the extents. |
| Placement.ExtentsInInt32 | libswc/compositor.c:866-875 | The extents are in order and never leave int32. |
| Views.InheritedExactly | libswc/compositor.c:2170-2205 | A subsurface may draw a point exactly when every enabled box of every surface it is part of admits it, however far up; a fullscreen window's boxes admit everything. |
| Placement.AdmitsExactly | libswc/compositor.c:764-836 | An enabled clip box admits exactly the points at its distances from the view's origin, the content box only inside the view as well, and a fullscreen window's boxes admit all. |
| Placement.CarriedAllAdmit | libswc/compositor.c:2170-2205 | When a view and all it is part of move, what all their boxes admit moves along. |
| Views.ClippedExactly | libswc/compositor.c:2217-2294 | The calculated clip of a visible view is exactly what opaque views above it cover and what its own and inherited boxes cut off. |
| Placement.BoxClipExactly | libswc/compositor.c:2229-2254 | The boxes cut off exactly what the view's own clip box, by its distance from the view, or a box of something it is part of does not admit. |
| Placement.OpaqueExactly | libswc/compositor.c:2256-2290 | A pixel counts as opaque exactly where the client declared it so by its distance in the buffer, inside the geometry, with every box that applies admitting it. |
| Views.DamageExactly | libswc/compositor.c:2296-2330 | The collected damage is exactly the visible surfaces' damage and the surroundings of changed borders and decorations. |
| Placement.DamagedExactly | libswc/compositor.c:2296-2330 | A view's damage is exactly what its client damaged, by its distance in the buffer, and after a change of border or decoration the extents around the geometry. |
| Placement.CollectedOnce | libswc/compositor.c:2296-2330 | Damage that has been collected is not collected again. |
| Views.UnconstrainedInherits | libswc/compositor.c:2170-2205 | Skipping the region arithmetic when no ancestor constrains the view changes nothing. |
| Placement.ConstrainedExactly | libswc/compositor.c:2170-2205 | The walk finds the view constrained exactly when some surface it is part of is not fullscreen and has a box. |
| Painting.RepaintViewAt | libswc/compositor.c:327-506 | All of repaint_view's region arithmetic repaints a pixel exactly when it is damaged and not clipped, and then as if the whole view, decoration included, had been painted over it. |
| Painting.PixelByInk | libswc/compositor.c:327-506 | A pixel of a view is the last thing drawn over its buffer there, or else its buffer over what is below. |
| Painting.HidesExactly | libswc/compositor.c:401-431 | A view hides what is below at a pixel, whatever that is and however it blends, exactly when something is drawn over its buffer or the buffer comes out there and is copied. |
| Placement.BufferShows | libswc/compositor.c:380-450 | Where nothing is drawn over it a buffer shows by its distance from the geometry, copied or blended as its alpha and the opaque region say. |
| Placement.CornerShows | libswc/decor.c:412-427 | Each corner of the decorated box shows its own part, unscaled, from its own corner. |
| Placement.EdgeShows | libswc/decor.c:429-451 | Each edge repeats its own part from the corner part at its left or upper end. |
| Placement.BackgroundShows | libswc/decor.c:393-410 | Elsewhere the decoration's colour fills the decorated box around the geometry, and nothing else. |
| Painting.PaintPartition | libswc/compositor.c:349-500 | For every window the copied, blended, inner and outer border regions are disjoint and together exactly the damaged, unclipped part of the bordered box in the extents, with or without a content clip box. |
| Painting.DrawPartsAt | libswc/decor.c:412-451 | Drawing the decoration parts gives each damaged, unclipped pixel the last part that covers it. |
| Frames.DrawOverlayAt | libswc/compositor.c:508-549 | The four clipped strips are exactly the outline of the overlay box. |
| Frames.CulledAgrees | libswc/compositor.c:2207-2336 | Where looking down a view that hides what is below comes no later than the first opaque one, the culled repaint agrees with the painter. |
| Frames.SoundIsHidden | libswc/compositor.c:2256-2290 | That is so everywhere when every view hides what is below its own opaque region and has the screens it reaches in its mask. |
| Frames.WindowIsSound | libswc/surface.c:286-306 | A window does, whatever buffer its opaque region was committed with, held windows included. |
| Frames.PlainIsSound | libswc/surface.c:286-306 | So does any view whose geometry is inside the buffer it shows. |
| Frames.TrimmedIsSound | libswc/surface.c:254-260 | And any view whose opaque region is trimmed to the buffer it shows. |
| Frames.OcclusionCulling | libswc/compositor.c:588-639 | For every stack, clip boxes, inherited clips, damage and overlay, and whatever the scratch buffer held, each damaged pixel under the overlay or hidden as CulledAgrees says is exactly what the naive painter gives. |
| Culling.CullingExactly | libswc/compositor.c:2207-2336 | That condition is exact: culled and painted pictures agree on all damaged pixels for every scratch buffer and blending if and only if every damaged pixel off the overlay satisfies it. |
| Culling.HeldPopupIsCulledWrong | libswc/surface.c:305-306 | A popup held at a smaller buffer than its opaque region was trimmed to, for which culling is wrong. |
| Culling.OpaqueChangeExactly | libswc/surface.c:286-290 | A new opaque region changes a pixel exactly where the buffer comes out, has alpha, nothing is drawn over it, and only one of the two regions has the pixel. |
| Frames.CompositeUndamaged | libswc/compositor.c:588-639 | Outside the damage only the overlay, which is drawn unclipped, changes the scratch buffer. |
| Frames.IncrementalIsFull | libswc/compositor.c:2338-2420 | After any run of frames whose first damages the whole screen and whose others damage what changes, whatever superset of the damage wld has repainted, with culling right where it is repainted, the scratch equals the full render of the last frame everywhere, and every scanout buffer does wherever it is not out of date. |
| Frames.PresentedExactly | libswc/compositor.c:580-639 | The buffer presented gets exactly the total damage from the scratch buffer and is up to date there; every other only ages by the update's damage. |
| RenderObject.InheritedClip | libswc/compositor.c:2170-2205 | The walk up the parents gives what the ancestors allow, and whether any constrains the view. |
| RenderObject.SurfaceOpaque | libswc/compositor.c:2256-2290 | The surface's opaque region, moved and cut to geometry, clip boxes and what the ancestors allow. |
| RenderObject.Compositor.CalculateDamage | libswc/compositor.c:2207-2336 | One pass down the list fills in every clip, the total opaque region and the total damage. |
| RenderObject.Compositor.Repaint | libswc/compositor.c:588-621 | Background, then the visible views of the screen from the bottom up, then the overlay. |
| RenderObject.Compositor.MoveView | libswc/compositor.c:1358-1383 | Moves a view, its extents and mask, and damages both places. |
| RenderObject.Compositor.AttachBuffer | libswc/compositor.c:1302-1356 | Attaches a buffer or none: geometry, offsets, extents, flags and the damage where the extents differ. |
| RenderObject.Compositor.PaintScreen | libswc/compositor.c:2387-2397 | After the damage calculation, painting with the exposed background only is the composite of the theorem. |
| Damage.PaintsOnlyExtents | libswc/compositor.c:373-378 | A view whose decoration lies in its extents paints nothing outside them. |
| Damage.MoveIsDamaged | libswc/compositor.c:1358-1383 | Every pixel of the picture that moving a view itself changes is in the damage it adds. |
| Placement.MovedExactly | libswc/compositor.c:1358-1383 | A move puts the view where it was asked with its size and looks, updated extents, and new screens and no clip if it is visible. |
| Placement.MoveDamagesExactly | libswc/compositor.c:1363-1377 | A visible view damages exactly its extents before and, if it went anywhere, after. |
| Placement.PictureMoves | libswc/compositor.c:327-506 | Border, content box, decoration and buffer all move with the view: each pixel of the new place is the one it came from. |
| Placement.MovedIsSame | libswc/compositor.c:1358-1383 | That is what a move does, extents included, as long as everything drawn fits int32. |
| Damage.ChangesAreDamaged | libswc/compositor.c:1358-1383 | Any number of views changing at once, as a view and the subsurfaces moved with it, whose inherited boxes change too: if each damages its extents before and after, every pixel that changes is damaged. |
| Damage.RestackIsLocal | libswc/compositor.c:1535-1543 | Restacking one view past any others changes only pixels in its extents, the box that raising damages. |
| Borders.BorderRepaintedExactly | libswc/compositor.c:2045-2063 | Whatever is below the view, a border change damages every pixel it changes if and only if the old ring stays inside the new extents and the two borders look the same at every distance from the content that lies inside the geometry. |
| Borders.UnclippedWidthExactly | libswc/compositor.c:2045-2063 | For new widths without a content clip box: if and only if no part of the old bordered box leaves the extents. |
| Borders.ColoursExactly | libswc/compositor.c:2103-2121 | For new colours: if and only if no ring whose colour changed reaches into the geometry. |
| Borders.BorderByDistance | libswc/compositor.c:380-500 | The two border regions are the inner and the outer width counted outwards from the content. |
| Borders.GrowingBorderIsDamaged | libswc/compositor.c:2312-2325 | Under that condition each undamaged pixel is painted as before. |
| Borders.ShrinkingBorderIsNotDamaged | libswc/compositor.c:2045-2063 | Every pixel of the old ring, inner or outer, beyond the new extents is undamaged, was the ring's colour and is no longer painted by the view. |
| Borders.ClippedBorderIsNotDamaged | libswc/compositor.c:2312-2325 | Between a content clip box and the edge of the geometry the border shows, before and after, and its change is not damaged. |
| Borders.StalePixelStays | libswc/compositor.c:588-639 | Under no other view and no overlay, an undamaged pixel keeps in the scratch buffer what the view painted before, where the full render has what the view paints now. |
| Borders.StaleRingStays | libswc/compositor.c:588-639 | So a ring that sticks out of the new extents stays in the scratch buffer, where the full render has what is below the view. |
| Borders.UpToDateEncloses | libswc/compositor.c:839-876 | Extents that update_extents left hold geometry, border, decoration and buffer, when these fit int32. |
| Decorations.InkRepaintedExactly | libswc/compositor.c:2312-2330 | Any change of what is drawn over a view's buffer is repainted, whatever the client draws and whatever is below, if and only if every undamaged pixel has the same drawn over it before and after. |
| Decorations.DecorRepaintedExactly | libswc/compositor.c:2123-2130 | A new decoration is repainted if and only if the old one is inside the new extents and inside the geometry the same is drawn over the buffer. |
| Decorations.DecorBesideExactly | libswc/compositor.c:2123-2130 | With parts beside the geometry: if and only if the old decoration is inside the new extents. |
| Decorations.RemovedDecorIsNotDamaged | libswc/compositor.c:2123-2130 | A decoration taken away is left behind wherever it was outside border and buffer. |
| ClipBoxes.ReclipAdmits | libswc/compositor.c:2170-2205 | A new box on an ancestor, however far up, changes what a subsurface may draw by what that box admits alone. |
| ClipBoxes.BoxesExactly | libswc/compositor.c:2065-2088 | A new box admits by its distances from the view. |
| ClipBoxes.LayerExactly | libswc/compositor.c:2065-2088 | Whatever is below, a pixel of a subsurface stays the same exactly when nothing is drawn there or old and new box agree on it. |
| ClipBoxes.ClipBoxDamagedExactly | libswc/compositor.c:2065-2088 | A new clip box of either kind damages all it changes in any stack, whatever is below each view, if and only if old and new boxes admit the same drawn pixels of the subsurfaces outside the damage. |
| ClipBoxes.ClipBoxIsDamaged | libswc/compositor.c:2065-2088 | Then no pixel of the picture outside the damage changes. |
| ClipBoxes.StickingOutIsNotDamaged | libswc/compositor.c:2065-2088 | A subsurface that sticks out of its parent, and a clip box that does not damage what it takes away. |
| HeldDamage.DamagedAtReleaseExactly | libswc/surface.c:276-305 | All that differs between the buffer shown and the one released is damaged, for every honest client, if and only if all damage committed during the hold is still there at the end. |
| HeldDamage.UncalculatedIsDamaged | libswc/compositor.c:2296-2310 | So it is when no frame was calculated while the view was visible and held. |
| HeldDamage.CalculatedIsLost | libswc/compositor.c:2296-2310 | It is not when a frame comes after the last commit and something was damaged. |
| HeldDamage.ReleaseIsRepainted | libswc/compositor.c:1332-1353 | When it is all there, every pixel that the release changes is damaged. |
| HeldDamage.MovedReleaseIsRepainted | libswc/compositor.c:1358-1383 | And in any case when the view moves. |
| Damage.AttachLeavesContent | libswc/compositor.c:1332-1353 | A resizing attach damages every pixel it changes outside the new geometry; inside, the client's damage has to. |
| Placement.AttachedExactly | libswc/compositor.c:1303-1331 | An attach leaves the view's place, takes its size from the window geometry, the buffer or nothing, and puts the window geometry's first pixel at the upper left. |
| Placement.AttachedViewExactly | libswc/compositor.c:1332-1353 | Only an attach that changes the size flags the surroundings and looks up a visible view's screens. |
| Placement.AttachDamagesExactly | libswc/compositor.c:1332-1350 | A resizing attach of a visible view damages exactly what is in one of the extents before and after and not in the other. |
| Damage.AttachedBufferInside | libswc/compositor.c:1303-1356 | Without window geometry the extents hold the attached buffer although they are computed from the previous one. |
| Damage.AttachedBufferInsideExactly | libswc/compositor.c:1303-1356 | After a resizing attach with window geometry the extents hold the new buffer exactly when it ends, to the right and below, no further than border, decoration and the previous buffer do. |
| Damage.UnresizedBufferInsideExactly | libswc/compositor.c:1303-1356 | An attach that does not resize leaves the extents alone, so they hold the new buffer exactly when the old ones do. |
| Damage.OutsideIsLost | libswc/compositor.c:373-378 | When they do not hold it, some pixel of it is not painted. |
| Damage.AttachedShadowIsLost | libswc/view.c:62-84 | Such a view: a popup with a shadow around its window geometry, and a pixel that is lost. |
| Damage.ComputedMaskIsSound | libswc/view.c:155-169 | A mask computed from the screens' geometries is sound for the repaint theorem. |
| Tiling.TileStart | libswc/decor.c:294-306 | Truncating division with the correction finds the tile that holds a coordinate on either side of the origin. |
| Tiling.DrawBox | libswc/decor.c:289-325 | The nested loops terminate and write every pixel of a box exactly once from the pixel it repeats, reading inside the part. |
| Tiling.DrawDecorPart | libswc/decor.c:269-328 | Over all rectangles of the clipped region every pixel is written exactly once, nothing else is, and the result is what the repaint model draws. |
| Scheduler.RunKeepsOneFlip | libswc/compositor.c:2338-2420 | No screen has two flips outstanding in any run, and its pending bit is set exactly while one is. |
| Scheduler.RunProgresses | libswc/compositor.c:2422-2443 | In every run that stays active a scheduled repaint has an idle callback queued or a scheduled screen awaiting its flip. |
| Scheduler.RestMeansPainted | libswc/compositor.c:236-264 | When an active run whose swaps succeed comes to rest, every screen that was waiting for a repaint has been swapped. |
| Scheduler.StuckExactly | libswc/compositor.c:2426-2430 | Progress is lost exactly when the session is inactive, something is scheduled, and the last callback or frame event goes by. |
| Scheduler.StuckForever | libswc/compositor.c:885-889 | Once lost, no run without a deactivation paints anything, reactivation included. |
| Scheduler.SwitchedAwayGetsStuck | libswc/compositor.c:2503-2516 | A run that gets there: one direct request for a repaint between deactivation and activation. |
| Scheduler.AskedExactly | libswc/compositor.c:884-914 | A request adds the screens asked for, or all of a zoomed compositor, and queues one idle callback exactly if nothing was asked for before; a view's counts only while it is visible and the session active. |
| Scheduler.SessionExactly | libswc/compositor.c:2503-2530 | Leaving the session forgets every request, coming back asks for every screen. |
| Scheduler.PerformedExactly | libswc/compositor.c:2338-2443 | An update swaps exactly the screens that were asked for, have a target, wait for no flip and can be swapped, and keeps exactly the requests of those that wait. |
| Scheduler.IdleExactly | libswc/compositor.c:2422-2443 | An idle callback uses itself up and does that. |
| Scheduler.FlipEnds | libswc/compositor.c:236-264 | A frame event ends the flip of its screen, which is swapped again at once exactly if it was asked for meanwhile. |
| Scheduler.DeniedEndsSession | libswc/compositor.c:2410-2416 | A swap refused because the session ends deactivates it and forgets every request. |
| SchedulerObject.Compositor.ScheduleUpdates | libswc/compositor.c:884-914 | Queues an idle callback only when nothing was scheduled; zoom widens the request to all screens. |
| SchedulerObject.Compositor.PerformScheduled | libswc/compositor.c:2422-2443 | Updates every screen that is scheduled and not waiting for a flip, through deactivation in the middle. |
| SchedulerObject.Compositor.HandleScreenFrame | libswc/compositor.c:236-264 | Clears the flip and retries what is still scheduled, unless it arrives during an update. |
| Stacking.PlaceAboveRefines | libswc/subsurface.c:238-263 | On the one sequence that the two lists around the parent stand for, place_above moves the surface directly above the sibling and nothing else; an invalid sibling changes nothing. |
| Stacking.PlaceBelowRefines | libswc/subsurface.c:265-290 | The same for place_below. |
| Stacking.PlaceAboveExactly | libswc/subsurface.c:128-180 | After any requests place_above next to another surface that is the parent or has the role by the history moves the surface directly above it; next to any other nothing changes. |
| Stacking.PlaceBelowExactly | libswc/subsurface.c:265-290 | The same for place_below. |
| Stacking.AddedAndRemoved | libswc/subsurface.c:520-524 | A new subsurface comes on top, and one that goes leaves the others in their order, pending and current. |
| Stacking.InitialValid | libswc/subsurface.c:482-524 | A surface without subsurfaces satisfies all that is kept. |
| Stacking.RunKeepsValid | libswc/subsurface.c:157-290 | Over all runs the order has no surface twice, the parent among them. |
| Stacking.OnlyCommitApplies | libswc/subsurface.c:315-341 | Between two parent commits the order in effect is the one the last commit took, less the children that lost the role. |
| Stacking.OrderHoldsChildren | libswc/subsurface.c:157-290 | After any run the order holds exactly the surfaces that have the role, by the last event that gave or took it. |
| Stacking.CommitMakesRun | libswc/subsurface.c:315-377 | What a parent commit does to the view list: the views of the parent and of those children that have one become one contiguous run in the committed order where the parent's view stood, and all others keep their order. |
| Stacking.ChildrenContiguous | libswc/subsurface.c:343-377 | After a parent commit the parent and its direct children are one contiguous run of the view list in stacking order, where the parent was. |
| Stacking.OthersKeepOrder | libswc/compositor.c:1958-1981 | All other views keep their relative order. |
| StackingObject.SurfaceStack.IsValidSibling | libswc/subsurface.c:128-180 | The search of both lists accepts exactly the parent and the other children. |
| StackingObject.SurfaceStack.PlaceAboveSibling | libswc/subsurface.c:238-263 | Unlinks and relinks as the model's PlaceAbove. |
| StackingObject.SurfaceStack.PlaceBelowSibling | libswc/subsurface.c:265-290 | Unlinks and relinks as the model's PlaceBelow. |
| StackingObject.SurfaceStack.RestackView | libswc/compositor.c:1958-1981 | Moves a view next to another, with the early return when it is already there. |
| StackingObject.SurfaceStack.Commit | libswc/subsurface.c:315-377 | Copies pending to current and restacks the views of the children that have one. |
| Ancestry.IsDescendantOf | libswc/subcompositor.c:31-42 | Terminates and finds exactly the strict ancestors. |
| Ancestry.IsSynchronized | libswc/subsurface.c:33-47 | Terminates and is true exactly when some subsurface from this one up is in sync mode. |
| Ancestry.BadParentExactly | libswc/subcompositor.c:59-63 | BAD_PARENT is reported exactly when the link asked for would make a surface its own ancestor. |
| Ancestry.RunKeepsAcyclic | libswc/subcompositor.c:44-79 | Over all runs of creation, role destruction and surface destruction no surface is its own ancestor. |
| Ancestry.LinkedExactly | libswc/subcompositor.c:44-79 | A link is made, in sync mode, exactly if both surfaces live, the new one has no role and is not at or above its parent; otherwise nothing changes. |
| Ancestry.CutExactly | libswc/subsurface.c:193-224 | A destroyed role or surface changes no other role, but that the children of a surface that is gone have no parent. |
| AncestryObject.SurfaceLinks.GetSubsurfaceRole | libswc/subcompositor.c:44-79 | The errors in the source's order, and the new link. |
| AncestryObject.SurfaceLinks.Destroy | libswc/subsurface.c:182-224 | Destroys the own role and cuts every child loose. |
| Keyboard.RunKeepsValid | libswc/keyboard.c:652-706 | Over all runs held values are distinct, the client's keys are exactly the values of the keys it owns, in order, and presses accepted less releases told are the keys still held, handler by handler. |
| Keyboard.ResetAssertionHolds | libswc/keyboard.c:562-598 | The assertion in keyboard_reset holds: telling every owner leaves no client key. |
| Keyboard.PressesAlternate | libswc/keyboard.c:667-706 | At every point of a run a handler has been told of as many releases of a key as presses it accepted, or of one fewer, the latter exactly while it holds the key. |
| Keyboard.HolderByHistory | libswc/keyboard.c:652-706 | Who holds a key after any run is what the events say: the first handler on the list to accept the press that found it free, until it is let go or reset. |
| Keyboard.NotesExactly | libswc/keyboard.c:652-706 | A press tells exactly its taker, and only if the key was free; a release tells exactly the owner. |
| Keyboard.ResetExactly | libswc/keyboard.c:562-598 | A reset releases every owned key in order to its owner, with serials counting on, and leaves none. |
| KeyboardObject.ArrayRemove | libswc/util.h:103-112 | Shifts the tail down in place and leaves the rest of the array alone. |
| KeyboardObject.KeyboardDevice.HandleKey | libswc/keyboard.c:652-706 | Repeats and stray releases are ignored, a release goes to the owner, a press to the first handler that accepts. |
| KeyboardObject.KeyboardDevice.ResetKeys | libswc/keyboard.c:562-598 | Releases every key with a fresh serial and forgets them all. |
| Focus.FocusTrace | libswc/input.c:30-151 | Over all runs enters and leaves strictly alternate for each resource, each leave names the view last entered, and a resource is active exactly while its client is the focused view's. |
| Focus.FocusByHistory | libswc/input.c:30-151 | After any run the focus is the view last given it unless that is gone, and exactly the resources bound and not unbound since are there to be told. |
| FocusObject.InputFocus.SetFocusTo | libswc/input.c:135-151 | Leaves the old view, moves the client's resources over, enters the new one. |
| FocusObject.InputFocus.Bind | libswc/input.c:108-126 | A resource of the focused client is told to enter at once. |
| FocusObject.InputFocus.HandleViewDestroy | libswc/input.c:68-84 | Losing the focused view leaves it and clears the focus. |
| Geometry.OverlapAxisExactly | libswc/util.h:93-101 | Exact value of the wrapping test: right when the right edges agree in sign, otherwise true whenever the interval ending at or right of zero is not empty. |
| Geometry.OverlapNeverMisses | libswc/util.h:93-101 | Rectangles that share a point are always reported. |
| Geometry.WrappedWidthsMiss | libswc/util.h:93-101 | Two widths that add up to a multiple of 2^32 are never reported, so the sum has to fit. |
| Geometry.OverlapExactWhenSignsAgree | libswc/util.h:93-101 | The test is right when the right edges agree in sign and the bottom edges do. |
| Geometry.OverlapFalseAlarm | libswc/util.h:93-101 | Two rectangles far apart that are reported to overlap. |
| Geometry.ContainsAxisExactly | libswc/util.h:84-91 | Exact value of the mixed signed and unsigned containment test, for all values of the C types. |
| Geometry.MaskNeverMisses | libswc/view.c:155-169 | Over all runs of shows, hides, moves, attaches and screen moves a visible view's mask has every screen its geometry shares a point with. |
| Geometry.SpotByHistory | libswc/view.c:98-169 | After any run a view is visible, placed and sized as last asked for, and its mask has exactly the screens reported to overlap it, none if it is hidden. |
| Geometry.ScreenByHistory | libswc/screen.c:237-281 | And a screen is where it was last moved, with its size. |
| GeometryObject.ViewTable.ScreensOf | libswc/view.c:155-169 | The loop over the screens gives exactly those reported to overlap. |
| GeometryObject.ViewTable.Move | libswc/view.c:98-112 | A changed position looks the screens of a visible view up again. |
| GeometryObject.ViewTable.Resize | libswc/view.c:114-131 | So does a changed size. |
| GeometryObject.ViewTable.MoveScreen | libswc/screen.c:237-281 | Moving a screen refreshes the mask of every visible view. |
| Confinement.RunConfines | libswc/pointer.c:739-791 | Whatever the motions and screen rearrangements, a non-empty region contains the cursor position after every event. |
| Confinement.OnScreenIsKept | libswc/pointer.c:758-784 | A wanted position on a screen is taken as it is. |
| Confinement.OffScreenGoesNearest | libswc/pointer.c:766-781 | A position off all screens goes to the nearest point, along both axes, of the rectangle the pointer was in. |
| Confinement.LostIsRecovered | libswc/pointer.c:739-756 | A pointer on no screen goes to the middle of the first rectangle, or to the origin without any. |
| Confinement.RearrangedExactly | libswc/pointer.c:786-791 | New screens leave the pointer where it is as long as it is on one of them, and recover it otherwise. |
| Confinement.ToIntTruncates | libswc/pointer.c:764-767 | The pixel of a position is its coordinates cut off towards the origin. |
| ConfinementObject.Pointer.ClipPosition | libswc/pointer.c:758-784 | Takes the position, or the nearest point of the last rectangle, or a recovered one. |
| ConfinementObject.Pointer.RecoverPosition | libswc/pointer.c:739-756 | The centre of the first rectangle, or the origin without any. |

## Left out

- Frames.IncrementalIsFull: which parts of a scanout buffer are out of date is wld's bookkeeping, modelled as a remembered region per buffer; that the total damage it returns includes them is not part of this model.
- Visibility.HeldChangesExactly: the places and the stacking order of subsurfaces, which also follow commits during a hold, are not part of what is seen there.
- Visibility.RunKeeps: showing and hiding a whole window is the window manager's, and so is the visibility of popups, which follow their parent view; the runs leave the window as it is.
- HeldDamage.DamagedAtReleaseExactly: for commits of buffers as large as the one shown; a release that changes the size damages outside the geometry only (Damage.AttachLeavesContent).
- ClipBoxes.ClipBoxDamagedExactly: the box changes on its own, with no other damage waiting, and decoration parts are inside the extents.
- Decorations.DecorRepaintedExactly: the decoration changes on its own, on a view with a buffer and with extents that hold what the view draws.
- Damage.MoveIsDamaged: the subsurfaces of the moved view are left where they are; Damage.ChangesAreDamaged is about all that move together, given that each damages its extents.
- Frames.DrawOverlayAt: coordinates of the overlay are unbounded, so the int32 sums of the source do not wrap.
- Borders.BorderRepaintedExactly: the border changes on its own, on a view with a buffer, with no surface damage waiting, extents that hold what the view draws and a bordered box within int32; when a content clip box leaves a margin the decoration parts are beside the geometry.
- Borders.StaleRingStays: that the scanout buffer is then copied from the scratch buffer is not repeated.
- Damage.AttachedBufferInsideExactly: for views that are not windows, whose boxes fit int32; the buffer of a window is cut to its geometry.
- Placement.CornerShows: the corner and edge parts leave each other room, as their sizes are meant to; Painting.DrawPartsAt says which part wins where they do not.
- Placement.EdgeShows: at pixels that no other edge crosses.
- Placement.PictureMoves: at points that int32 can hold before and after, for a geometry that fits it.
- Proposals.FinishAsks: with no cohort left over from a destroyed manager; with one, begin is refused (Requests.BegunExactly) and nobody can join it.
- Scheduler.PerformedExactly: for updates in which no swap is refused for the session; those are Scheduler.DeniedEndsSession.
- Painting.DrawPartsAt: the widths of the bottom and right edge parts do not wrap when the corner parts are wider than the window.
- Geometry.OverlapAxisExactly: right edges are assumed to fit int32 and the two widths to add up within uint32. That no overlap is missed needs only the second.
- Geometry.OverlapExactWhenSignsAgree: the same.
- Geometry.MaskNeverMisses: the widths of the view and of the screen are assumed to add up within uint32, which Geometry.WrappedWidthsMiss shows to matter.
- Confinement.RunConfines: rectangles are assumed to fit the 24 integer bits of the fixed-point type; motion sums wrap as in the source.
- Ancestry.IsDescendantOf: works on the table of links; surfaces are identities, so reuse of a freed address is not captured.
- Windows, views and surfaces are values in maps and sequences keyed by identity; aliasing of the intrusive links is not captured.
- The clip boxes of a view's ancestors are part of the view's value; the setters of boxes, borders and decoration are functions on views, not methods.
- Global order of the view list by layer: the source does not keep it.
- Stacking of subsurfaces below the direct children: a parent commit does not touch it.
- Zoomed rendering and title text: floating point, and text drawn outside damage and clip.
- Proxy buffers, buffer destruction during a hold, and attach failure: wld is not part of this model.
- Fullscreen save and restore, size hints, interactive move and resize: they move views directly, past the cohort.
- Shell-specific configure and move hooks: modelled only as acknowledging at once or later.
- What the river protocol advertises and reports (outputs, seats, dimensions): easy members beside the sequence.
- Memory allocation failure, except the timer of the barrier and a failed swap.
- Keymaps and modifier state, pointer buttons and axes, cursor images, panels, clipboards, Xwayland: plumbing.
- Loss of a page-flip event by the kernel: every flip's event is delivered at some later step.
