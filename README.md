# AeroSpace refresh session, modelled in Dafny

AeroSpace is a tiling window manager for macOS. Every user command and every
accessibility notification runs through one *refresh session*. A session:

1. optionally resets the closed-windows cache;
2. garbage collects terminated apps, windows the OS no longer resolves, unused
   workspaces and monitors;
3. asks every app to detect new windows and updates the focus cache;
4. refreshes the model (gc, focus-change callbacks, container normalisation) both
   before and after the caller's unit of work;
5. on start-up, chooses the root layout of the focused workspace;
6. when the tray model is enabled, syncs the focus back to macOS, publishes the tray
   text, normalises the layout reason and lays out every workspace.

Laying out a workspace first shows the active workspace of every monitor. Only then
does it park the windows of invisible workspaces in a per-monitor hide corner. The
`Debouncer` coalesces bursts of work onto a dispatch queue.

The model has the following modules:

- `Model` (model.dfy) holds the entities: windows, monitors, workspaces, the world
  a session reads, and the `Step` alphabet of calls into collaborators.
- `Geometry` (geometry.dfy) holds rectangles and points.
- `WindowGc` (window_gc.dfy) is the decision rule of `gcWindows`.
- `HideCorner` (hide_corner.dfy) is the per-monitor corner choice.
- `LayoutPlan` (layout_plan.dfy) holds the two phases of `layoutWorkspaces` and the
  start-up layout choice.
- `Tray` (tray.dfy) is the tray text.
- `Pipeline` (pipeline.dfy) is the pure specification of the sequence of calls a
  session makes, with its properties.
- `Refresh` (refresh.dfy) holds the class `Session`. Its fields are the registries the
  session updates. Its methods are the imperative pipeline, each proved to emit
  exactly the calls its `Pipeline` specification names and to leave the state that
  specification describes.
- `Timing` (timing.dfy) holds the `Debouncer` class and its invariant.

Calls into collaborators such as `MacApp.garbageCollectTerminatedApps` or
`detectNewWindows` are recorded as steps of a `trace`; what they do inside is not
modelled. The OS observations of one session are parameters (`OsView`):
- whether the lock screen is frontmost;
- which windows still resolve;
- which windows the apps' window detection finds;
- the natively focused window.

The caller's unit of work is a function from the registries (window map, apps,
monitors, workspaces, focused workspace, active mode) to its result and the
registries it leaves. The second `refreshModel`, the start-up layout choice, the
tray text and the layout are computed over the registries it left. The focused
window before and after the unit of work is a parameter (`FocusSnapshots`), and so
is `TrayMenuModel.shared.isEnabled`. The `isEnabled`
flag is read by refresh.swift but is not declared in the TrayMenuModel.swift of
this version, so it is an input here.

## Model

| member | source | states |
|---|---|---|
| WindowGc.AllUnresolvableIffCountsMatch | Sources/AppBundle/layout/refresh.swift:102-105 | the kill list is as large as the window map exactly when no tracked window resolves, the empty map included |
| WindowGc.WindowsToKill | Sources/AppBundle/layout/refresh.swift:102 | the kill list holds exactly the tracked windows that do not resolve, each with its entry unchanged |
| WindowGc.Collected | Sources/AppBundle/layout/refresh.swift:101-108 | a pass collects only tracked windows that no longer resolve, and nothing while the lock screen is frontmost |
| WindowGc.GcWindowsDecision | Sources/AppBundle/layout/refresh.swift:98-109 | a pass removes nothing on the lock screen or when no window resolves; otherwise it removes exactly the unresolvable windows and keeps N - k of N |
| WindowGc.GcWindowsOutcome | Sources/AppBundle/layout/refresh.swift:98-109 | a pass only removes entries, keeps the survivors unchanged and never removes a window that resolves |
| WindowGc.GcWindowsIdempotent | Sources/AppBundle/layout/refresh.swift:98-109 | a second pass with the same observation collects nothing and leaves the map as the first pass left it |
| WindowGc.KillListSurvivesRemoval | Sources/AppBundle/layout/refresh.swift:102-108 | removing windows does not change whether the others are on the kill list, so computing the list before the loop loses nothing |
| WindowGc.SkippedPassKeepsAll | Sources/AppBundle/layout/refresh.swift:101-105 | either early return collects nothing and keeps the map |
| WindowGc.FullPassCollectsKillList | Sources/AppBundle/layout/refresh.swift:102-108 | past both early returns the pass collects exactly the keys of the kill list |
| Refresh.Session.GarbageCollectWindows | Sources/AppBundle/layout/refresh.swift:106-108 | the loop over the kill list removes exactly those windows from the window map |
| Refresh.Session.GcWindows | Sources/AppBundle/layout/refresh.swift:98-109 | the window map after the pass is the decision rule's outcome, and one pass step records what was collected |
| Refresh.Session.Gc | Sources/AppBundle/layout/refresh.swift:90-96 | terminated apps, then one window pass, then unused workspaces |
| HideCorner.BottomRightProbes | Sources/AppBundle/layout/refresh.swift:123-128 | three probe points past the bottom-right corner, none of them inside the monitor itself, so only a neighbour can contain one |
| HideCorner.BottomLeftProbes | Sources/AppBundle/layout/refresh.swift:123-133 | three probe points past the bottom-left corner, none of them inside the monitor itself |
| HideCorner.OptimalCorner | Sources/AppBundle/layout/refresh.swift:135-139 | bottom-left is chosen only when there is another monitor with a different frame |
| HideCorner.BottomLeftOnlyBesideNeighbour | Sources/AppBundle/layout/refresh.swift:135-139 | bottom-left is chosen only when some monitor contains a bottom-right probe and none contains a bottom-left probe |
| HideCorner.SoleMonitorUsesBottomRight | Sources/AppBundle/layout/refresh.swift:135-139 | a single monitor always hides in its bottom-right corner |
| HideCorner.SideBySideMonitors | Sources/AppBundle/layout/refresh.swift:122-139 | of two side-by-side 1920x1080 monitors the left one hides bottom-left and the right one bottom-right |
| HideCorner.StackedMonitors | Sources/AppBundle/layout/refresh.swift:122-139 | the upper of two stacked monitors hides bottom-right |
| HideCorner.CornerMapKeys | Sources/AppBundle/layout/refresh.swift:121-141 | the dictionary has an entry exactly at the top-left corner of every monitor |
| HideCorner.CornerMapLastWins | Sources/AppBundle/layout/refresh.swift:140 | the entry at a top-left corner is the choice for the last monitor with that corner |
| HideCorner.WorkspaceHideCorner | Sources/AppBundle/layout/refresh.swift:150 | a workspace hides in the corner chosen for its monitor, or bottom-right when no monitor has that top-left corner |
| Refresh.Session.OptimalHideCorners | Sources/AppBundle/layout/refresh.swift:121-141 | the loop builds the corner dictionary of the monitors |
| LayoutPlan.UnhideAllExactly | Sources/AppBundle/layout/refresh.swift:146 | one unhide call per leaf window, in order |
| LayoutPlan.HideAllExactly | Sources/AppBundle/layout/refresh.swift:151 | one hide call per leaf window, in order, all into the same corner |
| LayoutPlan.ShowPhaseShowsActive | Sources/AppBundle/layout/refresh.swift:144-148 | the show phase only unhides and lays out; it lays out every monitor's active workspace and unhides exactly the windows of active workspaces |
| LayoutPlan.HidePhaseHidesInvisible | Sources/AppBundle/layout/refresh.swift:149-152 | the hide phase only hides; it hides exactly the windows of invisible workspaces, each in its workspace's corner |
| LayoutPlan.LayoutPhasesOrdered | Sources/AppBundle/layout/refresh.swift:143-152 | no unhide or layout call comes after a hide call |
| LayoutPlan.ApplySmartLayout | Sources/AppBundle/layout/refresh.swift:168-176 | the start-up choice keeps every workspace's name, monitor, windows and number of root children; only a root layout can change |
| LayoutPlan.SmartLayoutSetsFocusedRoot | Sources/AppBundle/layout/refresh.swift:168-176 | only the focused workspace changes; its root becomes tiles with at most three children and accordion otherwise; applying it twice changes nothing more |
| LayoutPlan.SmartLayoutKeepsLayoutTrace | Sources/AppBundle/layout/refresh.swift:168-176 | the start-up layout choice does not change the calls `layoutWorkspaces` makes |
| Refresh.Session.UnhideWindows | Sources/AppBundle/layout/refresh.swift:146 | the loop emits the unhide calls of the workspace's windows |
| Refresh.Session.HideWindows | Sources/AppBundle/layout/refresh.swift:151 | the loop emits the hide calls of the workspace's windows |
| Refresh.Session.ShowActiveWorkspaces | Sources/AppBundle/layout/refresh.swift:144-148 | the first loop emits the show phase |
| Refresh.Session.HideIfInvisibleWorkspace | Sources/AppBundle/layout/refresh.swift:149-151 | a visible workspace is skipped and an invisible one parks its windows |
| Refresh.Session.HideInvisibleWorkspaces | Sources/AppBundle/layout/refresh.swift:149-152 | the second loop emits the hide phase |
| Refresh.Session.LayoutWorkspaces | Sources/AppBundle/layout/refresh.swift:119-153 | the calls are the show phase followed by the hide phase |
| Refresh.Session.SmartLayoutAtStartup | Sources/AppBundle/layout/refresh.swift:168-176 | the workspaces become the smart-layout outcome for the focused workspace |
| Refresh.Session.NormalizeContainers | Sources/AppBundle/layout/refresh.swift:155-160 | the loop normalises every workspace, visible or not, in order |
| Refresh.Session.DetectNewAppsAndWindows | Sources/AppBundle/layout/refresh.swift:162-166 | the loop asks every app, in order, to detect new windows with the given start-up flag, and the discovered windows not yet tracked are registered |
| Pipeline.Registered | Sources/AppBundle/layout/refresh.swift:162-166 | after detection the window map holds the tracked windows with their entries unchanged plus every discovered window, with its owning app |
| Refresh.Session.RefreshModel | Sources/AppBundle/layout/refresh.swift:84-88 | gc, then the focus-change callbacks, then normalisation of every workspace |
| Pipeline.DetectAllExactly | Sources/AppBundle/layout/refresh.swift:162-166 | the i-th detection call is for the i-th app |
| Pipeline.DetectAllCounts | Sources/AppBundle/layout/refresh.swift:162-166 | each app is asked once per occurrence in the app list and with no other flag |
| Pipeline.NormalizeAllExactly | Sources/AppBundle/layout/refresh.swift:155-160 | the i-th normalisation call is for the i-th workspace |
| Pipeline.NormalizeAllCounts | Sources/AppBundle/layout/refresh.swift:155-160 | each workspace name is normalised once per workspace bearing it |
| Pipeline.FirstRefreshPass | Sources/AppBundle/layout/refresh.swift:46-57 | the first `refreshModel`'s window pass collects nothing on the lock screen; after a first gc that ran, exactly the discovered windows that do not resolve; after one skipped for lack of a resolvable window, nothing if no discovered window resolves and otherwise every unresolvable window |
| Pipeline.DetectionRevivesSkippedPass | Sources/AppBundle/layout/refresh.swift:46-57 | two closed tracked windows survive the first gc, and once detection registers a resolvable new window the first `refreshModel` collects both |
| Pipeline.SessionShape | Sources/AppBundle/layout/refresh.swift:40-77 | the session is the prologue and a refresh of the map after the first gc and detection, the unit of work, then a refresh of the registries the unit of work left and the epilogue over them |
| Pipeline.SessionResetsCacheIffUnlocked | Sources/AppBundle/layout/refresh.swift:45 | the closed-windows cache is reset once, first, iff the screen is known to be unlocked |
| Pipeline.SessionBodyRunsOnce | Sources/AppBundle/layout/refresh.swift:43-58 | the unit of work runs exactly once, with the session's event recorded |
| Pipeline.SessionRefreshesAroundBody | Sources/AppBundle/layout/refresh.swift:57-59 | before and after the unit of work the callbacks are checked once; before it every starting workspace is normalised once, after it every workspace the unit of work left |
| Pipeline.SessionGcRounds | Sources/AppBundle/layout/refresh.swift:45-59 | apps and workspaces are collected three times and monitors once; the window passes collect what the rule selects in the starting map, in the map after the first gc and detection, and in the map the unit of work left |
| Pipeline.UntouchedMapLastPassIdle | Sources/AppBundle/layout/refresh.swift:57-59 | when the unit of work leaves the window map as the first `refreshModel` left it, as the empty one of `refreshAndLayout` does, the last window pass collects nothing |
| Pipeline.SessionFocusCacheAndStartup | Sources/AppBundle/layout/refresh.swift:51-64 | the focus cache is updated once from the native focus; the start-up layout choice runs once iff on start-up, for the workspace focused when the unit of work is done |
| Pipeline.SessionDetectsBeforeBody | Sources/AppBundle/layout/refresh.swift:49 | every app detects new windows, with the session's flag, before the unit of work and never after |
| Pipeline.SessionPrologueOrdered | Sources/AppBundle/layout/refresh.swift:45-53 | before the first refresh the calls come kind by kind: reset, gc, monitors, detection, focus cache last |
| Pipeline.SessionTrayCalls | Sources/AppBundle/layout/refresh.swift:67-75 | the tray text of the registries the unit of work left and the layout reason are published once each iff the tray is enabled |
| Pipeline.SessionFocusSync | Sources/AppBundle/layout/refresh.swift:68-70 | a window gets native focus once iff the tray is enabled and the focus moved to that window |
| Pipeline.SessionTrayGated | Sources/AppBundle/layout/refresh.swift:67-75 | focus sync, tray text, layout reason and layout calls happen only with the tray enabled and only after the unit of work |
| Pipeline.SessionEndsWithLayout | Sources/AppBundle/layout/refresh.swift:74 | with the tray enabled the session ends with the layout of the monitors and workspaces the unit of work left |
| Refresh.Session.BeginSession | Sources/AppBundle/layout/refresh.swift:45-53 | the calls before the first refresh are the prologue, and the window map is the first pass's outcome with the discovered windows registered |
| Refresh.Session.RunUnitOfWork | Sources/AppBundle/layout/refresh.swift:58 | the unit of work receives the registries; its result is returned and the registries it leaves replace them, with one step recording the run |
| Refresh.Session.RefreshThroughBody | Sources/AppBundle/layout/refresh.swift:45-58 | the calls up to the unit of work, which receives the registries as the first `refreshModel` leaves them; returns its result and keeps the registries it left |
| Refresh.Session.FinishSession | Sources/AppBundle/layout/refresh.swift:59-75 | a refresh of the registries the unit of work left, then the epilogue; the window map after one more pass, the workspaces after the start-up choice, the tray text iff enabled |
| Refresh.Session.SyncPublishAndLayout | Sources/AppBundle/layout/refresh.swift:68-74 | focus sync, tray text of the model, layout reason, then the layout |
| Refresh.Session.EndSession | Sources/AppBundle/layout/refresh.swift:63-75 | the epilogue; the workspaces after the start-up choice; the tray text iff the tray is enabled |
| Refresh.Session.RefreshSession | Sources/AppBundle/layout/refresh.swift:40-77 | the result of the unit of work on the registries as the first `refreshModel` leaves them; the calls are the session trace over the registries it left; the window map after one more pass; workspaces and tray text as specified; the debug event is cleared |
| Refresh.Session.RefreshAndLayout | Sources/AppBundle/layout/refresh.swift:79-81 | a session whose unit of work changes nothing: the window map is as the first `refreshModel` left it, and apps, monitors, focus and mode stay |
| Tray.ModePrefix | src/TrayMenuModel.swift:10 | the prefix is empty iff there is no mode, the main mode or an empty mode, and otherwise is the mode's first character in brackets and a space |
| Tray.TrayTextShape | src/TrayMenuModel.swift:10-15 | the text starts with the prefix; with no monitor it is the prefix alone, with one it is the prefix and the bare name |
| Tray.TraySegmentAt | src/TrayMenuModel.swift:11-15 | each monitor's segment is its active workspace's name, starred iff it is focused and there are several monitors |
| Tray.TraySeparatorAt | src/TrayMenuModel.swift:15 | consecutive segments are separated by the separator |
| Tray.JoinedPartAt | src/TrayMenuModel.swift:15 | each joined part can be read back at its offset, and the last ends the string |
| Tray.JoinedSeparatorAt | src/TrayMenuModel.swift:15 | exactly one separator stands between consecutive parts |
| Refresh.Session.UpdateTrayText | src/TrayMenuModel.swift:9-16 | the published text is the tray text of the mode, the monitors' active workspaces and the focused one |
| Timing.DebouncedCoalesces | Sources/AppBundle/util/Timing.swift:60-71 | a debounce cancels the stored item, keeps the invariant and leaves only its new item live |
| Timing.Debounced | Sources/AppBundle/util/Timing.swift:60-71 | a call schedules one more item, keeps the earlier entries, newly cancels at most the item stored before, and never undoes a cancellation |
| Timing.LiveIsLatest | Sources/AppBundle/util/Timing.swift:60-71 | under the invariant only the latest scheduled item is live |
| Timing.ReplayCoalesces | Sources/AppBundle/util/Timing.swift:60-71 | any sequence of calls keeps the invariant and schedules one item per call |
| Timing.ReplayScheduled | Sources/AppBundle/util/Timing.swift:68-70 | the k-th call scheduled its own action on the debouncer's queue after its own delay |
| Timing.ReplayFiresLatest | Sources/AppBundle/util/Timing.swift:60-71 | after any sequence of calls only the last call's item is uncancelled, so for a burst made before the first deadline only the last action runs |
| Timing.Debouncer.constructor | Sources/AppBundle/util/Timing.swift:56-58 | nothing is stored, scheduled or cancelled, and the queue is the given one |
| Timing.Debouncer.OnMain | Sources/AppBundle/util/Timing.swift:56 | the queue defaults to the main queue |
| Timing.Debouncer.Debounce | Sources/AppBundle/util/Timing.swift:60-71 | the new state is the specification's, and the invariant is kept |

## Left out

- `maybeDetectNewWindows` (refresh.swift:16-35), `TimeoutDetector` and `ThreadSafeValue` (Timing.swift:5-50): background threads, semaphores and timeouts are concurrency, which is not modelled.
- `timestamp` (refresh.swift:9-14) formats the clock and `refreshObs` (refresh.swift:111-113) is an accessibility callback. Neither is part of this model.
- The main-thread check and `debugWindowsIfRecording` are diagnostics with no effect on the model.
- The effects of collaborators are not modelled, only the calls to them. Examples: `garbageCollectTerminatedApps`, `garbageCollectUnusedWorkspaces`, `gcMonitors`, `checkOnFocusChangedCallbacks`, `normalizeContainers` of a workspace, `layoutWorkspace`, `unhideFromCorner`, `hideInCorner`, `nativeFocus`. So the app, monitor and workspace lists stay as they were, and a window's own `garbageCollect` is modelled only as its removal from the window map. The one collaborator effect on the window map that is modelled is detection's: it registers the discovered windows.
- The OS answers are fixed for one session: the frontmost app, whether a window resolves, and the native focus. The focused window before and after the unit of work is an input too, because the focused window is not one of the modelled registries.
- The forced casts `$0 as! MacWindow` (refresh.swift:146, 151) trap on a leaf window that is not a `MacWindow`. Leaves are plain window ids here, so that trap is not modelled.
- The identifier of the main binding mode is not declared in the sources modelled here; it is taken as `"main"` (`Tray.MainModeId`).
- Pipeline.FirstRefreshPass: `garbageCollectTerminatedApps` may also drop a terminated app's windows from the window map (`MacApp` is not part of this model). The model removes windows only through `gcWindows`, so what a pass collects is stated over a map that still holds them.
- Pipeline.SessionGcRounds: the same holds for all three window passes.
- Pipeline.UntouchedMapLastPassIdle: the last pass collects nothing only if the second `garbageCollectTerminatedApps` drops no window either.
- Refresh.Session.RefreshAndLayout: the final window map is the first refresh's outcome only under the same assumption.
- Refresh.Session.DetectNewAppsAndWindows: registration is applied once, after every app's detection call, instead of inside each call. Which app's call registers a window is not modelled.
- One `gcWindows` pass is recorded as one step with the set of windows it collected. Dictionary iteration order is unspecified, so the order of the individual `garbageCollect` calls is not modelled.
- `monitors` and `sortedMonitors` are one list, assumed to be in sorted order. How monitors are sorted is not part of this model.
- `CGFloat` is modelled as `real`. Rectangles are half-open, with the origin at the top-left and y growing downward.
- A Swift `Character` is one `char`, and workspaces are compared by name.
- The `Debouncer`'s clock and deadlines are left out. A scheduled entry keeps its delay, and an action is not run by the model.
- The tray text is not published to SwiftUI; the field holds the last text.
- Refresh.Session.RefreshSession: the source calls refreshSession idempotent. The model proves that a second window-gc pass collects nothing, but not that a whole second session changes nothing, because the collaborators' effects are not modelled.
- Refresh.Session.RefreshSession: the loops and phases are split into helper methods. Examples: `GarbageCollectWindows`, `HideIfInvisibleWorkspace`, `BeginSession`, `RunUnitOfWork`, `FinishSession`, `EndSession`. They run the same statements in the same order as the source.
