/** The refresh pipeline as it runs against the model's registries: the window map
    `MacWindow.allWindowsMap`, the apps, the monitors (in `sortedMonitors` order), the
    workspaces (`Workspace.all`), the focused workspace, the active binding mode, the
    tray text and `refreshSessionEventForDebug`. Every call into a collaborator is
    appended to `trace`; each method is proved to emit exactly the calls of its
    specification in the `Pipeline` module and to leave the registries it owns in the
    state that specification describes. */
module Refresh {
  import opened Geometry
  import opened Model
  import opened WindowGc
  import opened HideCorner
  import opened LayoutPlan
  import opened Tray
  import opened Pipeline

  class Session {
    var windows: map<WindowId, Window>
    var apps: seq<AppId>
    var monitors: seq<Monitor>
    var workspaces: seq<Workspace>
    var focusedWorkspace: WorkspaceName
    var activeMode: Option<string>
    /** `TrayMenuModel.shared.trayText` */
    var trayText: string
    /** `refreshSessionEventForDebug` */
    var eventForDebug: Option<RefreshSessionEvent>
    /** The calls made into collaborators so far. */
    var trace: seq<Step>

    /** The registries a refresh session reads. */
    function Snapshot(): World
      reads this`windows, this`apps, this`monitors, this`workspaces, this`focusedWorkspace, this`activeMode
    {
      World(windows, apps, monitors, workspaces, focusedWorkspace, activeMode)
    }

    constructor (w: World)
      ensures Snapshot() == w && trayText == "" && eventForDebug == None && trace == []
    {
      windows := w.windows;
      apps := w.apps;
      monitors := w.monitors;
      workspaces := w.workspaces;
      focusedWorkspace := w.focusedWorkspace;
      activeMode := w.activeMode;
      trayText := "";
      eventForDebug := None;
      trace := [];
    }

    /** The loop of `gcWindows`: every window of the kill list is garbage collected,
        which removes it from the window map. */
    method GarbageCollectWindows(kill: set<WindowId>)
      modifies this`windows
      ensures windows == old(windows) - kill
    {
      var pending := kill;
      while pending != {}
        invariant pending <= kill
        invariant windows == old(windows) - (kill - pending)
        decreases |pending|
      {
        var id :| id in pending;
        windows := windows - {id};
        pending := pending - {id};
      }
      assert kill - {} == kill;
    }

    /** `gcWindows`: skipped on the lock screen and when no tracked window resolves;
        otherwise every window in the kill list, computed up front, is garbage
        collected. */
    method GcWindows(os: OsView)
      modifies this`windows, this`trace
      ensures windows == GcWindowsOutcome(old(windows), os)
      ensures trace == old(trace) + [GcWindowsPass(Collected(old(windows), os))]
    {
      if os.lockScreenIsFrontmost {
        SkippedPassKeepsAll(windows, os);
        trace := trace + [GcWindowsPass({})];
        return;
      }
      var toKill := WindowsToKill(windows, os.resolvable);
      if |toKill| == |windows| {
        SkippedPassKeepsAll(windows, os);
        trace := trace + [GcWindowsPass({})];
        return;
      }
      FullPassCollectsKillList(windows, os);
      GarbageCollectWindows(toKill.Keys);
      trace := trace + [GcWindowsPass(toKill.Keys)];
    }

    /** `gc()` */
    method Gc(os: OsView)
      modifies this`windows, this`trace
      ensures windows == GcWindowsOutcome(old(windows), os)
      ensures trace == old(trace) + GcSteps(old(windows), os)
    {
      trace := trace + [GcTerminatedApps];
      GcWindows(os);
      trace := trace + [GcUnusedWorkspaces];
    }

    /** `detectNewAppsAndWindows(startup:)`: every app detects its windows, and the
        discovered windows that are not tracked yet are registered in the window map. */
    method DetectNewAppsAndWindows(startup: bool, os: OsView)
      modifies this`windows, this`trace
      ensures windows == Registered(old(windows), os)
      ensures trace == old(trace) + DetectAll(apps, startup)
    {
      for i := 0 to |apps|
        invariant windows == old(windows)
        invariant trace == old(trace) + DetectAll(apps[..i], startup)
      {
        assert apps[..i + 1][..i] == apps[..i];
        trace := trace + [DetectNewWindows(apps[i], startup)];
      }
      assert apps[..|apps|] == apps;
      windows := os.discovered + windows;
    }

    /** `normalizeContainers()`: every workspace, visible or not. */
    method NormalizeContainers()
      modifies this`trace
      ensures trace == old(trace) + NormalizeAll(workspaces)
    {
      for i := 0 to |workspaces|
        invariant trace == old(trace) + NormalizeAll(workspaces[..i])
      {
        assert workspaces[..i + 1][..i] == workspaces[..i];
        trace := trace + [Step.NormalizeContainers(workspaces[i].name)];
      }
      assert workspaces[..|workspaces|] == workspaces;
    }

    /** `refreshModel()` */
    method RefreshModel(os: OsView)
      modifies this`windows, this`trace
      ensures windows == GcWindowsOutcome(old(windows), os)
      ensures trace == old(trace) + RefreshModelSteps(old(windows), os, workspaces)
    {
      Gc(os);
      trace := trace + [CheckOnFocusChangedCallbacks];
      NormalizeContainers();
    }

    /** `smartLayoutAtStartup()`: the focused workspace's root container is tiled when
        it has at most three children and becomes an accordion otherwise. */
    method SmartLayoutAtStartup()
      modifies this`workspaces, this`trace
      ensures workspaces == ApplySmartLayout(old(workspaces), focusedWorkspace)
      ensures trace == old(trace) + [Step.SmartLayoutAtStartup(focusedWorkspace)]
    {
      workspaces := ApplySmartLayout(workspaces, focusedWorkspace);
      trace := trace + [Step.SmartLayoutAtStartup(focusedWorkspace)];
    }

    /** `updateTrayText()` */
    method UpdateTrayText()
      modifies this`trayText, this`trace
      ensures trayText == TrayText(activeMode, ActiveNames(monitors), focusedWorkspace)
      ensures trace == old(trace) + [Step.UpdateTrayText(trayText)]
    {
      trayText := TrayText(activeMode, ActiveNames(monitors), focusedWorkspace);
      trace := trace + [Step.UpdateTrayText(trayText)];
    }

    /** The first loop of `layoutWorkspaces`: the hide corner of every monitor, stored
        under the monitor's top-left corner. */
    method OptimalHideCorners() returns (cornerMap: map<Point, OptimalHideCorner>)
      ensures cornerMap == CornerMap(monitors, monitors)
    {
      cornerMap := map[];
      for i := 0 to |monitors|
        invariant cornerMap == CornerMap(monitors[..i], monitors)
      {
        assert monitors[..i + 1][..i] == monitors[..i];
        var monitor := monitors[i];
        var corner := OptimalCorner(monitor, monitors);
        cornerMap := cornerMap[TopLeftPoint(monitor.rect) := corner];
      }
      assert monitors[..|monitors|] == monitors;
    }

    /** Unhides every leaf window of a workspace, in order. */
    method UnhideWindows(leaves: seq<WindowId>)
      modifies this`trace
      ensures trace == old(trace) + UnhideAll(leaves)
    {
      for j := 0 to |leaves|
        invariant trace == old(trace) + UnhideAll(leaves[..j])
      {
        assert leaves[..j + 1][..j] == leaves[..j];
        trace := trace + [UnhideFromCorner(leaves[j])];
      }
      assert leaves[..|leaves|] == leaves;
    }

    /** Parks every leaf window of a workspace in the given corner, in order. */
    method HideWindows(leaves: seq<WindowId>, corner: OptimalHideCorner)
      modifies this`trace
      ensures trace == old(trace) + HideAll(leaves, corner)
    {
      for j := 0 to |leaves|
        invariant trace == old(trace) + HideAll(leaves[..j], corner)
      {
        assert leaves[..j + 1][..j] == leaves[..j];
        trace := trace + [HideInCorner(leaves[j], corner)];
      }
      assert leaves[..|leaves|] == leaves;
    }

    /** The second loop of `layoutWorkspaces`: unhide and lay out the active workspace
        of every monitor. */
    method ShowActiveWorkspaces()
      modifies this`trace
      ensures trace == old(trace) + ShowPhase(monitors, workspaces)
    {
      for i := 0 to |monitors|
        invariant trace == old(trace) + ShowPhase(monitors[..i], workspaces)
      {
        assert monitors[..i + 1][..i] == monitors[..i];
        var name := monitors[i].activeWorkspace;
        UnhideWindows(WindowsOfWorkspace(workspaces, name));
        trace := trace + [LayoutWorkspace(name)];
      }
      assert monitors[..|monitors|] == monitors;
    }

    /** The body of the third loop of `layoutWorkspaces`: an invisible workspace's
        windows are parked in the corner of its monitor; a visible one is skipped. */
    method HideIfInvisibleWorkspace(workspace: Workspace, cornerMap: map<Point, OptimalHideCorner>)
      modifies this`trace
      ensures trace == old(trace) + HideIfInvisible(workspace, monitors, cornerMap)
    {
      if !IsVisible(workspace, monitors) {
        HideWindows(workspace.windows, CornerFor(cornerMap, workspace));
      } else {
        assert trace == old(trace) + [];
      }
    }

    /** The third loop of `layoutWorkspaces`: park the windows of every invisible
        workspace in the corner of its monitor. */
    method HideInvisibleWorkspaces(cornerMap: map<Point, OptimalHideCorner>)
      modifies this`trace
      ensures trace == old(trace) + HidePhase(workspaces, monitors, cornerMap)
    {
      for i := 0 to |workspaces|
        invariant trace == old(trace) + HidePhase(workspaces[..i], monitors, cornerMap)
      {
        assert workspaces[..i + 1][..i] == workspaces[..i];
        HideIfInvisibleWorkspace(workspaces[i], cornerMap);
      }
      assert workspaces[..|workspaces|] == workspaces;
    }

    /** `layoutWorkspaces()`: the show phase completes before the hide phase starts. */
    method LayoutWorkspaces()
      modifies this`trace
      ensures trace == old(trace) + LayoutTrace(monitors, workspaces)
    {
      var cornerMap := OptimalHideCorners();
      ShowActiveWorkspaces();
      HideInvisibleWorkspaces(cornerMap);
    }

    /** The part of `refreshSession` before the first `refreshModel`. */
    method BeginSession(unlocked: bool, startup: bool, os: OsView)
      modifies this`windows, this`trace
      ensures windows == AfterDetection(old(Snapshot()), os)
      ensures trace == old(trace) + Prologue(old(Snapshot()), unlocked, startup, os)
    {
      ghost var t0 := trace;
      ghost var reset: seq<Step> := if unlocked then [ResetClosedWindowsCache] else [];
      ghost var g := GcSteps(windows, os);
      ghost var d := DetectAll(apps, startup);
      if unlocked {
        trace := trace + [ResetClosedWindowsCache];
      }
      Gc(os);
      assert trace == t0 + (reset + g);
      trace := trace + [GcMonitors];
      assert trace == t0 + (reset + g + [GcMonitors]);
      DetectNewAppsAndWindows(startup, os);
      assert trace == t0 + (reset + g + [GcMonitors] + d);
      var nativeFocused := os.nativeFocused;
      trace := trace + [UpdateFocusCache(nativeFocused)];
      assert trace == t0 + (reset + g + [GcMonitors] + d + [UpdateFocusCache(os.nativeFocused)]);
    }

    /** The tray-gated tail of `refreshSession`: focus the window that became focused
        during the session, publish the tray text, then lay the workspaces out. */
    method SyncPublishAndLayout(startup: bool, snaps: FocusSnapshots)
      modifies this`trayText, this`trace
      ensures trayText == SessionTrayText(Snapshot())
      ensures trace == old(trace) + (SyncFocus(snaps) + [Step.UpdateTrayText(SessionTrayText(Snapshot())), NormalizeLayoutReason(startup)]
        + LayoutTrace(monitors, workspaces))
    {
      ghost var t0 := trace;
      var focusBefore, focusAfter := snaps.before, snaps.after;
      if focusBefore != focusAfter && focusAfter.Some? {
        trace := trace + [NativeFocus(focusAfter.value)];
      }
      assert trace == t0 + SyncFocus(snaps);
      UpdateTrayText();
      trace := trace + [NormalizeLayoutReason(startup)];
      ghost var published := SyncFocus(snaps) + [Step.UpdateTrayText(SessionTrayText(Snapshot())), NormalizeLayoutReason(startup)];
      assert trace == t0 + published;
      LayoutWorkspaces();
      AppendAssoc(t0, published, LayoutTrace(monitors, workspaces));
    }

    /** The part of `refreshSession` after the second `refreshModel`. */
    method EndSession(startup: bool, snaps: FocusSnapshots, trayEnabled: bool, ghost w: World)
      requires w.monitors == monitors && w.workspaces == workspaces
      requires w.focusedWorkspace == focusedWorkspace && w.activeMode == activeMode
      modifies this`workspaces, this`trayText, this`trace
      ensures trace == old(trace) + Epilogue(w, startup, snaps, trayEnabled)
      ensures workspaces == StartupWorkspaces(w, startup)
      ensures trayText == if trayEnabled then SessionTrayText(w) else old(trayText)
    {
      ghost var t0 := trace;
      ghost var smart: seq<Step> := if startup then [Step.SmartLayoutAtStartup(w.focusedWorkspace)] else [];
      if startup {
        SmartLayoutAtStartup();
      }
      assert workspaces == StartupWorkspaces(w, startup);
      assert trace == t0 + smart;
      EpilogueIgnoresWindows(Snapshot(), w.(workspaces := workspaces), startup, snaps, trayEnabled);
      if trayEnabled {
        SyncPublishAndLayout(startup, snaps);
        AppendAssoc(t0, smart, SyncFocus(snaps) + [Step.UpdateTrayText(SessionTrayText(w)), NormalizeLayoutReason(startup)]
          + LayoutTrace(w.monitors, StartupWorkspaces(w, startup)));
      } else {
        assert smart + [] == smart;
      }
    }

    /** Runs the unit of work on the registries as they are, and stores the registries
        it returns: the caller's code may change any of them. */
    method RunUnitOfWork<T>(body: World -> (T, World)) returns (r: T)
      modifies this`windows, this`apps, this`monitors, this`workspaces, this`focusedWorkspace, this`activeMode, this`trace
      ensures r == body(old(Snapshot())).0
      ensures Snapshot() == body(old(Snapshot())).1
      ensures trace == old(trace) + [RunBody(eventForDebug)]
    {
      trace := trace + [RunBody(eventForDebug)];
      var (result, left) := body(Snapshot());
      r := result;
      windows := left.windows;
      apps := left.apps;
      monitors := left.monitors;
      workspaces := left.workspaces;
      focusedWorkspace := left.focusedWorkspace;
      activeMode := left.activeMode;
    }

    /** `refreshSession` from its start through the unit of work. */
    method RefreshThroughBody<T>(unlocked: bool, startup: bool, body: World -> (T, World), os: OsView) returns (r: T)
      modifies this`windows, this`apps, this`monitors, this`workspaces, this`focusedWorkspace, this`activeMode, this`trace
      ensures r == body(BodyInput(old(Snapshot()), os)).0
      ensures Snapshot() == body(BodyInput(old(Snapshot()), os)).1
      ensures trace == old(trace) + (BeforeBody(old(Snapshot()), unlocked, startup, os) + [RunBody(eventForDebug)])
    {
      ghost var w := Snapshot();
      ghost var t0 := trace;
      BeginSession(unlocked, startup, os);
      RefreshModel(os);
      assert trace == t0 + BeforeBody(w, unlocked, startup, os) by {
        AppendAssoc(t0, Prologue(w, unlocked, startup, os), RefreshModelSteps(AfterDetection(w, os), os, w.workspaces));
      }
      assert Snapshot() == BodyInput(w, os);
      r := RunUnitOfWork(body);
      AppendAssoc(t0, BeforeBody(w, unlocked, startup, os), [RunBody(eventForDebug)]);
    }

    /** `refreshSession` after the unit of work: the second `refreshModel` and the
        epilogue, both over the registries the unit of work left. */
    method FinishSession(startup: bool, os: OsView, snaps: FocusSnapshots, trayEnabled: bool)
      modifies this`windows, this`workspaces, this`trayText, this`trace
      ensures windows == GcWindowsOutcome(old(windows), os)
      ensures workspaces == StartupWorkspaces(old(Snapshot()), startup)
      ensures trayText == if trayEnabled then SessionTrayText(old(Snapshot())) else old(trayText)
      ensures trace == old(trace) + AfterBody(old(Snapshot()), startup, os, snaps, trayEnabled)
    {
      ghost var left := Snapshot();
      ghost var t0 := trace;
      RefreshModel(os);
      EndSession(startup, snaps, trayEnabled, left);
      AppendAssoc(t0, RefreshModelSteps(left.windows, os, left.workspaces), Epilogue(left, startup, snaps, trayEnabled));
    }

    /** `refreshSession`: runs the whole pipeline around the unit of work `body`, which
        receives the registries as the first `refreshModel` leaves them and returns its
        result together with the registries it leaves; `left` names the latter. The OS
        observations and the focused-window readings are parameters; `trayEnabled` is
        `TrayMenuModel.shared.isEnabled`. */
    method RefreshSession<T>(event: RefreshSessionEvent, unlocked: bool, startup: bool, body: World -> (T, World),
                             os: OsView, snaps: FocusSnapshots, trayEnabled: bool) returns (r: T, ghost left: World)
      modifies this`windows, this`apps, this`monitors, this`workspaces, this`focusedWorkspace, this`activeMode
      modifies this`trayText, this`eventForDebug, this`trace
      ensures r == body(BodyInput(old(Snapshot()), os)).0
      ensures left == body(BodyInput(old(Snapshot()), os)).1
      ensures trace == old(trace) + SessionTrace(old(Snapshot()), event, unlocked, startup, os, snaps, trayEnabled, left)
      ensures windows == GcWindowsOutcome(left.windows, os)
      ensures apps == left.apps && monitors == left.monitors
      ensures focusedWorkspace == left.focusedWorkspace && activeMode == left.activeMode
      ensures workspaces == StartupWorkspaces(left, startup)
      ensures trayText == if trayEnabled then SessionTrayText(left) else old(trayText)
      ensures eventForDebug == None
    {
      ghost var w := Snapshot();
      ghost var t0 := trace;
      eventForDebug := Some(event);
      r := RefreshThroughBody(unlocked, startup, body, os);
      left := Snapshot();
      FinishSession(startup, os, snaps, trayEnabled);
      AppendAssoc(t0, BeforeBody(w, unlocked, startup, os) + [RunBody(Some(event))], AfterBody(left, startup, os, snaps, trayEnabled));
      eventForDebug := None;
    }

    /** `refreshAndLayout`: a session whose unit of work does nothing, so the registries
        after it are those the first `refreshModel` left, and the second `refreshModel`
        collects no window. */
    method RefreshAndLayout(event: RefreshSessionEvent, unlocked: bool, startup: bool,
                            os: OsView, snaps: FocusSnapshots, trayEnabled: bool)
      modifies this`windows, this`apps, this`monitors, this`workspaces, this`focusedWorkspace, this`activeMode
      modifies this`trayText, this`eventForDebug, this`trace
      ensures trace == old(trace) + SessionTrace(old(Snapshot()), event, unlocked, startup, os, snaps, trayEnabled,
        BodyInput(old(Snapshot()), os))
      ensures windows == BodyInput(old(Snapshot()), os).windows
      ensures apps == old(apps) && monitors == old(monitors)
      ensures focusedWorkspace == old(focusedWorkspace) && activeMode == old(activeMode)
      ensures workspaces == StartupWorkspaces(old(Snapshot()), startup)
      ensures trayText == if trayEnabled then SessionTrayText(old(Snapshot())) else old(trayText)
      ensures eventForDebug == None
    {
      ghost var w := Snapshot();
      GcWindowsIdempotent(AfterDetection(w, os), os);
      var _, left := RefreshSession(event, unlocked, startup, (v: World) => ((), v), os, snaps, trayEnabled);
      EpilogueIgnoresWindows(left, w, startup, snaps, trayEnabled);
    }
  }
}
