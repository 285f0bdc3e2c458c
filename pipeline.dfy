/** The calls one `refreshSession` makes, in order, as a function of the model it
    starts from, the flags it is given and what the OS reports while it runs.

    A session resets the closed-windows cache when the screen is known to be unlocked,
    garbage collects apps, windows and workspaces, then monitors, lets every app detect
    new windows, updates the focus cache from the OS-focused window, normalises the
    model, runs the unit of work, normalises again, applies the start-up layout choice
    on start-up, and, when the tray model is enabled, syncs the focus back to the OS,
    publishes the tray text, normalises layout reasons and lays out all workspaces. */
module Pipeline {
  import opened Model
  import opened WindowGc
  import opened HideCorner
  import opened LayoutPlan
  import opened Tray

  /** `gc()`: terminated apps, then one `gcWindows` pass, then unused workspaces. */
  function GcSteps(windows: map<WindowId, Window>, os: OsView): seq<Step> {
    [GcTerminatedApps, GcWindowsPass(Collected(windows, os)), GcUnusedWorkspaces]
  }

  /** `detectNewAppsAndWindows` over the visited apps. */
  function DetectAll(apps: seq<AppId>, startup: bool): seq<Step>
    decreases |apps|
  {
    if apps == [] then []
    else DetectAll(apps[..|apps| - 1], startup) + [DetectNewWindows(apps[|apps| - 1], startup)]
  }

  /** `normalizeContainers` over the visited workspaces. */
  function NormalizeAll(workspaces: seq<Workspace>): seq<Step>
    decreases |workspaces|
  {
    if workspaces == [] then []
    else NormalizeAll(workspaces[..|workspaces| - 1]) + [NormalizeContainers(workspaces[|workspaces| - 1].name)]
  }

  /** `refreshModel`, given the window map it starts from. */
  function RefreshModelSteps(windows: map<WindowId, Window>, os: OsView, workspaces: seq<Workspace>): seq<Step> {
    GcSteps(windows, os) + [CheckOnFocusChangedCallbacks] + NormalizeAll(workspaces)
  }

  /** Native focus for the window focused after the unit of work, when the focus moved during the session. */
  function SyncFocus(snaps: FocusSnapshots): seq<Step> {
    if snaps.before != snaps.after && snaps.after.Some? then [NativeFocus(snaps.after.value)] else []
  }

  /** The names of the monitors' active workspaces, in monitor order. */
  function ActiveNames(monitors: seq<Monitor>): (names: seq<WorkspaceName>)
    ensures |names| == |monitors|
    ensures forall i :: 0 <= i < |monitors| ==> names[i] == monitors[i].activeWorkspace
  {
    seq(|monitors|, i requires 0 <= i < |monitors| => monitors[i].activeWorkspace)
  }

  function Names(workspaces: seq<Workspace>): (names: seq<WorkspaceName>)
    ensures |names| == |workspaces|
    ensures forall i :: 0 <= i < |workspaces| ==> names[i] == workspaces[i].name
  {
    seq(|workspaces|, i requires 0 <= i < |workspaces| => workspaces[i].name)
  }

  /** The text `updateTrayText` publishes for a model. */
  function SessionTrayText(w: World): string {
    TrayText(w.activeMode, ActiveNames(w.monitors), w.focusedWorkspace)
  }

  /** The workspaces after the optional start-up layout choice. */
  function StartupWorkspaces(w: World, startup: bool): seq<Workspace> {
    if startup then ApplySmartLayout(w.workspaces, w.focusedWorkspace) else w.workspaces
  }

  /** Everything before the first `refreshModel`. */
  function Prologue(w: World, unlocked: bool, startup: bool, os: OsView): seq<Step> {
    (if unlocked then [ResetClosedWindowsCache] else [])
    + GcSteps(w.windows, os) + [GcMonitors] + DetectAll(w.apps, startup) + [UpdateFocusCache(os.nativeFocused)]
  }

  /** Everything after the second `refreshModel`. */
  function Epilogue(w: World, startup: bool, snaps: FocusSnapshots, trayEnabled: bool): seq<Step> {
    (if startup then [SmartLayoutAtStartup(w.focusedWorkspace)] else [])
    + (if trayEnabled
       then SyncFocus(snaps) + [UpdateTrayText(SessionTrayText(w)), NormalizeLayoutReason(startup)]
            + LayoutTrace(w.monitors, StartupWorkspaces(w, startup))
       else [])
  }

  /** The window map after `detectNewAppsAndWindows`: every discovered window that is
      not tracked yet is registered, and tracked windows keep their entries. */
  function Registered(windows: map<WindowId, Window>, os: OsView): (after: map<WindowId, Window>)
    ensures after.Keys == windows.Keys + os.discovered.Keys
    ensures forall id :: id in windows ==> after[id] == windows[id]
    ensures forall id :: id in after && id !in windows ==> after[id] == os.discovered[id]
  {
    os.discovered + windows
  }

  /** The window map after the first `gc()`. */
  function AfterFirstGc(w: World, os: OsView): map<WindowId, Window> {
    GcWindowsOutcome(w.windows, os)
  }

  /** The window map the first `refreshModel` starts from: the first `gc()`'s outcome
      with the windows detection registered. */
  function AfterDetection(w: World, os: OsView): map<WindowId, Window> {
    Registered(AfterFirstGc(w, os), os)
  }

  /** The registries the unit of work starts from: the model as the first
      `refreshModel` leaves it. */
  function BodyInput(w: World, os: OsView): World {
    w.(windows := GcWindowsOutcome(AfterDetection(w, os), os))
  }

  /** Every call before the unit of work: the prologue and the first `refreshModel`. */
  function BeforeBody(w: World, unlocked: bool, startup: bool, os: OsView): seq<Step> {
    Prologue(w, unlocked, startup, os) + RefreshModelSteps(AfterDetection(w, os), os, w.workspaces)
  }

  /** Every call after the unit of work, which left the registries `left`: the second
      `refreshModel` and the epilogue, both reading what the unit of work left. */
  function AfterBody(left: World, startup: bool, os: OsView, snaps: FocusSnapshots, trayEnabled: bool): seq<Step> {
    RefreshModelSteps(left.windows, os, left.workspaces) + Epilogue(left, startup, snaps, trayEnabled)
  }

  /** The position of the unit of work in the session's trace. */
  function BodyIndex(w: World, unlocked: bool, startup: bool, os: OsView): nat {
    |BeforeBody(w, unlocked, startup, os)|
  }

  /** Every call one `refreshSession` makes, when it starts from `w` and its unit of
      work leaves the registries `left`. */
  function SessionTrace(w: World, event: RefreshSessionEvent, unlocked: bool, startup: bool,
                        os: OsView, snaps: FocusSnapshots, trayEnabled: bool, left: World): seq<Step>
  {
    BeforeBody(w, unlocked, startup, os) + [RunBody(Some(event))] + AfterBody(left, startup, os, snaps, trayEnabled)
  }

  // ---------------------------------------------------------------------------
  // Counting calls

  /** How often `x` occurs in `t`. */
  function Count(t: seq<Step>, x: Step): nat
    decreases |t|
  {
    if t == [] then 0 else Count(t[..|t| - 1], x) + (if t[|t| - 1] == x then 1 else 0)
  }

  lemma {:induction false} CountConcat(a: seq<Step>, b: seq<Step>, x: Step)
    ensures Count(a + b, x) == Count(a, x) + Count(b, x)
  {
    if b == [] {
      assert a + b == a;
    } else {
      var n := |b| - 1;
      assert (a + b)[..|a + b| - 1] == a + b[..n];
      CountConcat(a, b[..n], x);
    }
  }

  lemma {:induction false} CountZeroIffAbsent(t: seq<Step>, x: Step)
    ensures Count(t, x) == 0 <==> x !in t
  {
    if t != [] {
      CountZeroIffAbsent(t[..|t| - 1], x);
      assert t == t[..|t| - 1] + [t[|t| - 1]];
    }
  }

  /** The trace splits at the unit of work for counting. */
  lemma CountSession(w: World, event: RefreshSessionEvent, unlocked: bool, startup: bool,
                     os: OsView, snaps: FocusSnapshots, trayEnabled: bool, left: World, x: Step)
    ensures Count(SessionTrace(w, event, unlocked, startup, os, snaps, trayEnabled, left), x)
      == Count(BeforeBody(w, unlocked, startup, os), x)
       + (if x == RunBody(Some(event)) then 1 else 0)
       + Count(AfterBody(left, startup, os, snaps, trayEnabled), x)
  {
    var before := BeforeBody(w, unlocked, startup, os);
    CountConcat(before, [RunBody(Some(event))], x);
    CountConcat(before + [RunBody(Some(event))], AfterBody(left, startup, os, snaps, trayEnabled), x);
    CountSingle(RunBody(Some(event)), x);
  }

  /** How often a call occurs before the unit of work. */
  lemma CountBeforeBody(w: World, unlocked: bool, startup: bool, os: OsView, x: Step)
    ensures Count(BeforeBody(w, unlocked, startup, os), x)
      == (if unlocked && x == ResetClosedWindowsCache then 1 else 0)
       + (if x in {GcTerminatedApps, GcWindowsPass(Collected(w.windows, os)), GcUnusedWorkspaces, GcMonitors, UpdateFocusCache(os.nativeFocused)} then 1 else 0)
       + Count(DetectAll(w.apps, startup), x)
       + (if x in {GcTerminatedApps, GcWindowsPass(Collected(AfterDetection(w, os), os)), GcUnusedWorkspaces, CheckOnFocusChangedCallbacks} then 1 else 0)
       + Count(NormalizeAll(w.workspaces), x)
  {
    var w1 := AfterDetection(w, os);
    CountConcat(Prologue(w, unlocked, startup, os), RefreshModelSteps(w1, os, w.workspaces), x);
    CountPrologue(w, unlocked, startup, os, x);
    CountRefreshModel(w1, os, w.workspaces, x);
  }

  /** How often a call occurs after the unit of work. */
  lemma CountAfterBody(left: World, startup: bool, os: OsView, snaps: FocusSnapshots, trayEnabled: bool, x: Step)
    ensures Count(AfterBody(left, startup, os, snaps, trayEnabled), x)
      == (if x in {GcTerminatedApps, GcWindowsPass(Collected(left.windows, os)), GcUnusedWorkspaces, CheckOnFocusChangedCallbacks} then 1 else 0)
       + Count(NormalizeAll(left.workspaces), x)
       + (if startup && x == SmartLayoutAtStartup(left.focusedWorkspace) then 1 else 0)
       + (if trayEnabled
          then Count(SyncFocus(snaps), x)
             + (if x == UpdateTrayText(SessionTrayText(left)) || x == NormalizeLayoutReason(startup) then 1 else 0)
             + Count(LayoutTrace(left.monitors, StartupWorkspaces(left, startup)), x)
          else 0)
  {
    CountConcat(RefreshModelSteps(left.windows, os, left.workspaces), Epilogue(left, startup, snaps, trayEnabled), x);
    CountRefreshModel(left.windows, os, left.workspaces, x);
    CountEpilogue(left, startup, snaps, trayEnabled, x);
  }

  // ---------------------------------------------------------------------------
  // The loops over apps and workspaces

  lemma {:induction false} DetectAllExactly(apps: seq<AppId>, startup: bool)
    ensures |DetectAll(apps, startup)| == |apps|
    ensures forall k :: 0 <= k < |apps| ==> DetectAll(apps, startup)[k] == DetectNewWindows(apps[k], startup)
  {
    if apps != [] {
      DetectAllExactly(apps[..|apps| - 1], startup);
    }
  }

  /** Every app is asked to detect new windows once per occurrence in `apps`, always
      with the session's start-up flag. */
  lemma {:induction false} DetectAllCounts(apps: seq<AppId>, startup: bool, a: AppId)
    ensures Count(DetectAll(apps, startup), DetectNewWindows(a, startup)) == multiset(apps)[a]
    ensures Count(DetectAll(apps, startup), DetectNewWindows(a, !startup)) == 0
  {
    if apps != [] {
      var n := |apps| - 1;
      DetectAllCounts(apps[..n], startup, a);
      assert apps == apps[..n] + [apps[n]];
      assert multiset(apps) == multiset(apps[..n]) + multiset{apps[n]};
    }
  }

  lemma {:induction false} NormalizeAllExactly(workspaces: seq<Workspace>)
    ensures |NormalizeAll(workspaces)| == |workspaces|
    ensures forall k :: 0 <= k < |workspaces| ==> NormalizeAll(workspaces)[k] == NormalizeContainers(workspaces[k].name)
  {
    if workspaces != [] {
      NormalizeAllExactly(workspaces[..|workspaces| - 1]);
    }
  }

  /** Every workspace is normalised once per pass (workspaces sharing a name are
      counted together). */
  lemma {:induction false} NormalizeAllCounts(workspaces: seq<Workspace>, name: WorkspaceName)
    ensures Count(NormalizeAll(workspaces), NormalizeContainers(name)) == multiset(Names(workspaces))[name]
  {
    if workspaces != [] {
      var n := |workspaces| - 1;
      var pre := workspaces[..n];
      var last := NormalizeContainers(workspaces[n].name);
      NormalizeAllCounts(pre, name);
      assert NormalizeAll(workspaces) == NormalizeAll(pre) + [last];
      CountConcat(NormalizeAll(pre), [last], NormalizeContainers(name));
      CountSingle(last, NormalizeContainers(name));
      assert Names(workspaces) == Names(pre) + [workspaces[n].name];
      assert multiset(Names(workspaces)) == multiset(Names(pre)) + multiset{workspaces[n].name};
    }
  }

  /** The steps `layoutWorkspaces` and the focus sync emit; only an enabled tray model
      makes them. */
  predicate TrayGated(s: Step) {
    s.NativeFocus? || s.UpdateTrayText? || s.NormalizeLayoutReason?
    || s.UnhideFromCorner? || s.LayoutWorkspace? || s.HideInCorner?
  }

  /** The steps of the part before the first `refreshModel`. */
  predicate PrologueStep(s: Step) {
    s.ResetClosedWindowsCache? || s.GcTerminatedApps? || s.GcWindowsPass? || s.GcUnusedWorkspaces?
    || s.GcMonitors? || s.DetectNewWindows? || s.UpdateFocusCache?
  }

  /** The steps of one `refreshModel`. */
  predicate RefreshModelStep(s: Step) {
    s.GcTerminatedApps? || s.GcWindowsPass? || s.GcUnusedWorkspaces?
    || s.CheckOnFocusChangedCallbacks? || s.NormalizeContainers?
  }

  lemma PrologueKinds(w: World, unlocked: bool, startup: bool, os: OsView)
    ensures forall k :: 0 <= k < |Prologue(w, unlocked, startup, os)| ==> PrologueStep(Prologue(w, unlocked, startup, os)[k])
  {
    DetectAllExactly(w.apps, startup);
    var head := (if unlocked then [ResetClosedWindowsCache] else []) + GcSteps(w.windows, os) + [GcMonitors];
    var p := Prologue(w, unlocked, startup, os);
    assert p == head + DetectAll(w.apps, startup) + [UpdateFocusCache(os.nativeFocused)];
  }

  lemma RefreshModelKinds(windows: map<WindowId, Window>, os: OsView, workspaces: seq<Workspace>)
    ensures forall k :: 0 <= k < |RefreshModelSteps(windows, os, workspaces)| ==>
      RefreshModelStep(RefreshModelSteps(windows, os, workspaces)[k])
  {
    NormalizeAllExactly(workspaces);
  }

  lemma LayoutTraceKinds(monitors: seq<Monitor>, workspaces: seq<Workspace>)
    ensures forall k :: 0 <= k < |LayoutTrace(monitors, workspaces)| ==>
      var s := LayoutTrace(monitors, workspaces)[k];
      s.UnhideFromCorner? || s.LayoutWorkspace? || s.HideInCorner?
  {
    ShowPhaseShowsActive(monitors, workspaces);
    HidePhaseHidesInvisible(workspaces, monitors, CornerMap(monitors, monitors));
  }

  /** After the second `refreshModel` come only the start-up layout choice and, with
      the tray model enabled, the gated steps. */
  lemma EpilogueKinds(w: World, startup: bool, snaps: FocusSnapshots, trayEnabled: bool)
    ensures forall k :: 0 <= k < |Epilogue(w, startup, snaps, trayEnabled)| ==>
      (Epilogue(w, startup, snaps, trayEnabled)[k].SmartLayoutAtStartup? || (trayEnabled && TrayGated(Epilogue(w, startup, snaps, trayEnabled)[k])))
  {
    var smart: seq<Step> := if startup then [SmartLayoutAtStartup(w.focusedWorkspace)] else [];
    var layout := LayoutTrace(w.monitors, StartupWorkspaces(w, startup));
    LayoutTraceKinds(w.monitors, StartupWorkspaces(w, startup));
    if trayEnabled {
      var tray := SyncFocus(snaps) + [UpdateTrayText(SessionTrayText(w)), NormalizeLayoutReason(startup)];
      assert Epilogue(w, startup, snaps, trayEnabled) == smart + tray + layout;
      assert forall k :: 0 <= k < |tray| ==> TrayGated(tray[k]);
    } else {
      assert Epilogue(w, startup, snaps, trayEnabled) == smart;
    }
  }

  lemma CountSingle(a: Step, x: Step)
    ensures Count([a], x) == if a == x then 1 else 0
  {
    assert [a][..0] == [];
  }

  lemma CountAbsentKind(t: seq<Step>, x: Step)
    requires forall k :: 0 <= k < |t| ==> t[k] != x
    ensures Count(t, x) == 0
  {
    CountZeroIffAbsent(t, x);
  }

  lemma CountGcSteps(windows: map<WindowId, Window>, os: OsView, x: Step)
    ensures Count(GcSteps(windows, os), x)
      == if x in {GcTerminatedApps, GcWindowsPass(Collected(windows, os)), GcUnusedWorkspaces} then 1 else 0
  {
    var pass := GcWindowsPass(Collected(windows, os));
    assert GcSteps(windows, os) == [GcTerminatedApps] + [pass] + [GcUnusedWorkspaces];
    CountSingle(GcTerminatedApps, x);
    CountSingle(pass, x);
    CountSingle(GcUnusedWorkspaces, x);
    CountConcat([GcTerminatedApps], [pass], x);
    CountConcat([GcTerminatedApps] + [pass], [GcUnusedWorkspaces], x);
  }

  /** How often a call occurs before the first `refreshModel`. */
  lemma CountPrologue(w: World, unlocked: bool, startup: bool, os: OsView, x: Step)
    ensures Count(Prologue(w, unlocked, startup, os), x)
      == (if unlocked && x == ResetClosedWindowsCache then 1 else 0)
       + (if x in {GcTerminatedApps, GcWindowsPass(Collected(w.windows, os)), GcUnusedWorkspaces, GcMonitors, UpdateFocusCache(os.nativeFocused)} then 1 else 0)
       + Count(DetectAll(w.apps, startup), x)
  {
    var reset: seq<Step> := if unlocked then [ResetClosedWindowsCache] else [];
    var g := GcSteps(w.windows, os);
    var d := DetectAll(w.apps, startup);
    var ufc := UpdateFocusCache(os.nativeFocused);
    if unlocked {
      CountSingle(ResetClosedWindowsCache, x);
    }
    CountGcSteps(w.windows, os, x);
    CountSingle(GcMonitors, x);
    CountSingle(ufc, x);
    CountConcat(reset, g, x);
    CountConcat(reset + g, [GcMonitors], x);
    CountConcat(reset + g + [GcMonitors], d, x);
    CountConcat(reset + g + [GcMonitors] + d, [ufc], x);
  }

  /** How often a call occurs in one `refreshModel`. */
  lemma CountRefreshModel(windows: map<WindowId, Window>, os: OsView, workspaces: seq<Workspace>, x: Step)
    ensures Count(RefreshModelSteps(windows, os, workspaces), x)
      == (if x in {GcTerminatedApps, GcWindowsPass(Collected(windows, os)), GcUnusedWorkspaces, CheckOnFocusChangedCallbacks} then 1 else 0)
       + Count(NormalizeAll(workspaces), x)
  {
    var g := GcSteps(windows, os);
    CountGcSteps(windows, os, x);
    CountSingle(CheckOnFocusChangedCallbacks, x);
    CountConcat(g, [CheckOnFocusChangedCallbacks], x);
    CountConcat(g + [CheckOnFocusChangedCallbacks], NormalizeAll(workspaces), x);
  }

  /** How often a call occurs after the second `refreshModel`. */
  lemma CountEpilogue(w: World, startup: bool, snaps: FocusSnapshots, trayEnabled: bool, x: Step)
    ensures Count(Epilogue(w, startup, snaps, trayEnabled), x)
      == (if startup && x == SmartLayoutAtStartup(w.focusedWorkspace) then 1 else 0)
       + (if trayEnabled
          then Count(SyncFocus(snaps), x)
             + (if x == UpdateTrayText(SessionTrayText(w)) || x == NormalizeLayoutReason(startup) then 1 else 0)
             + Count(LayoutTrace(w.monitors, StartupWorkspaces(w, startup)), x)
          else 0)
  {
    var smart: seq<Step> := if startup then [SmartLayoutAtStartup(w.focusedWorkspace)] else [];
    if startup {
      CountSingle(SmartLayoutAtStartup(w.focusedWorkspace), x);
    }
    if trayEnabled {
      var sync := SyncFocus(snaps);
      var text := UpdateTrayText(SessionTrayText(w));
      var reason := NormalizeLayoutReason(startup);
      var layout := LayoutTrace(w.monitors, StartupWorkspaces(w, startup));
      var rest := sync + [text, reason] + layout;
      assert Epilogue(w, startup, snaps, trayEnabled) == smart + rest;
      CountConcat(smart, rest, x);
      CountTrayTail(sync, text, reason, layout, x);
    } else {
      assert Epilogue(w, startup, snaps, trayEnabled) == smart + [];
      assert smart + [] == smart;
    }
  }

  lemma CountTrayTail(sync: seq<Step>, text: Step, reason: Step, layout: seq<Step>, x: Step)
    ensures Count(sync + [text, reason] + layout, x)
      == Count(sync, x) + (if x == text then 1 else 0) + (if x == reason then 1 else 0) + Count(layout, x)
  {
    CountConcat(sync + [text, reason], layout, x);
    CountConcat(sync, [text, reason], x);
    assert [text, reason] == [text] + [reason];
    CountConcat([text], [reason], x);
    CountSingle(text, x);
    CountSingle(reason, x);
  }

  lemma DetectAllOnlyDetects(apps: seq<AppId>, startup: bool, x: Step)
    requires !x.DetectNewWindows? || x.startup != startup
    ensures Count(DetectAll(apps, startup), x) == 0
  {
    DetectAllExactly(apps, startup);
    CountAbsentKind(DetectAll(apps, startup), x);
  }

  lemma NormalizeAllOnlyNormalizes(workspaces: seq<Workspace>, x: Step)
    requires !x.NormalizeContainers?
    ensures Count(NormalizeAll(workspaces), x) == 0
  {
    NormalizeAllExactly(workspaces);
    CountAbsentKind(NormalizeAll(workspaces), x);
  }

  lemma LayoutTraceOnlyLays(monitors: seq<Monitor>, workspaces: seq<Workspace>, x: Step)
    requires !x.UnhideFromCorner? && !x.LayoutWorkspace? && !x.HideInCorner?
    ensures Count(LayoutTrace(monitors, workspaces), x) == 0
  {
    LayoutTraceKinds(monitors, workspaces);
    CountAbsentKind(LayoutTrace(monitors, workspaces), x);
  }

  lemma SplitAround(pre: seq<Step>, x: Step, post: seq<Step>)
    ensures |pre| < |pre + [x] + post| && (pre + [x] + post)[|pre|] == x
    ensures (pre + [x] + post)[..|pre|] == pre
    ensures (pre + [x] + post)[|pre| + 1..] == post
  {
  }

  /** What the `gcWindows` pass of the first `refreshModel` collects, once detection
      has registered the discovered windows: nothing on the lock screen; when the first
      `gc()` ran its pass, exactly the discovered windows that do not resolve; and when
      the first `gc()` skipped its pass because no tracked window resolved, nothing if
      no discovered window resolves either, and otherwise every window that does not
      resolve, the ones the first `gc()` spared included. */
  lemma FirstRefreshPass(w: World, os: OsView)
    ensures os.lockScreenIsFrontmost ==> Collected(AfterDetection(w, os), os) == {}
    ensures !SkipsGc(w.windows, os) ==> Collected(AfterDetection(w, os), os) == os.discovered.Keys - os.resolvable
    ensures !os.lockScreenIsFrontmost && w.windows.Keys !! os.resolvable && os.discovered.Keys !! os.resolvable ==>
      Collected(AfterDetection(w, os), os) == {}
    ensures !os.lockScreenIsFrontmost && w.windows.Keys !! os.resolvable && !(os.discovered.Keys !! os.resolvable) ==>
      Collected(AfterDetection(w, os), os) == (w.windows.Keys + os.discovered.Keys) - os.resolvable
  {
    var first := AfterFirstGc(w, os);
    var d := AfterDetection(w, os);
    GcWindowsDecision(w.windows, os);
    if !SkipsGc(w.windows, os) {
      var id :| id in w.windows && id in os.resolvable;
      assert id in first && id in d;
      assert !SkipsGc(d, os);
    } else if !os.lockScreenIsFrontmost && w.windows.Keys !! os.resolvable {
      assert first == w.windows;
      if !(os.discovered.Keys !! os.resolvable) {
        var id :| id in os.discovered && id in os.resolvable;
        assert id in d;
        assert !SkipsGc(d, os);
      } else {
        assert d.Keys !! os.resolvable;
      }
    }
  }

  /** Tracked windows 1 and 2 are both closed, and detection finds a new window 3 that
      resolves: the first `gc()` spares 1 and 2 (no tracked window resolves), and the
      first `refreshModel` collects them. */
  lemma DetectionRevivesSkippedPass(w: World, os: OsView)
    requires w.windows == map[1 := Window(7), 2 := Window(7)]
    requires !os.lockScreenIsFrontmost && os.resolvable == {3} && os.discovered == map[3 := Window(7)]
    ensures Collected(w.windows, os) == {}
    ensures Collected(AfterDetection(w, os), os) == {1, 2}
  {
    assert w.windows.Keys == {1, 2};
    assert os.discovered.Keys == {3};
    FirstRefreshPass(w, os);
  }

  /** What happens after the second `refreshModel` depends only on the monitors, the
      workspaces, the focused workspace and the active mode. */
  lemma EpilogueIgnoresWindows(a: World, b: World, startup: bool, snaps: FocusSnapshots, trayEnabled: bool)
    requires a.monitors == b.monitors && a.workspaces == b.workspaces
    requires a.focusedWorkspace == b.focusedWorkspace && a.activeMode == b.activeMode
    ensures Epilogue(a, startup, snaps, trayEnabled) == Epilogue(b, startup, snaps, trayEnabled)
    ensures StartupWorkspaces(a, startup) == StartupWorkspaces(b, startup)
    ensures SessionTrayText(a) == SessionTrayText(b)
  {
  }

  /** The session's trace is the prologue and the first `refreshModel` over the model
      it starts from, the unit of work, then the second `refreshModel` and the
      epilogue over the registries the unit of work left. */
  lemma SessionShape(w: World, event: RefreshSessionEvent, unlocked: bool, startup: bool,
                     os: OsView, snaps: FocusSnapshots, trayEnabled: bool, left: World)
    ensures var t := SessionTrace(w, event, unlocked, startup, os, snaps, trayEnabled, left);
      var i := BodyIndex(w, unlocked, startup, os);
      && i < |t| && t[i] == RunBody(Some(event))
      && t[..i] == Prologue(w, unlocked, startup, os) + RefreshModelSteps(AfterDetection(w, os), os, w.workspaces)
      && t[i + 1..] == RefreshModelSteps(left.windows, os, left.workspaces) + Epilogue(left, startup, snaps, trayEnabled)
  {
    SplitAround(BeforeBody(w, unlocked, startup, os), RunBody(Some(event)), AfterBody(left, startup, os, snaps, trayEnabled));
  }

  lemma CountSyncFocus(snaps: FocusSnapshots, x: Step)
    ensures Count(SyncFocus(snaps), x)
      == if snaps.before != snaps.after && snaps.after.Some? && x == NativeFocus(snaps.after.value) then 1 else 0
  {
    if snaps.before != snaps.after && snaps.after.Some? {
      CountSingle(NativeFocus(snaps.after.value), x);
    }
  }

  // ---------------------------------------------------------------------------
  // Properties of a session

  /** The closed-windows cache is reset exactly when the screen is known to be
      unlocked, and then before anything else. */
  lemma SessionResetsCacheIffUnlocked(w: World, event: RefreshSessionEvent, unlocked: bool, startup: bool,
                                      os: OsView, snaps: FocusSnapshots, trayEnabled: bool, left: World)
    ensures Count(SessionTrace(w, event, unlocked, startup, os, snaps, trayEnabled, left), ResetClosedWindowsCache)
      == if unlocked then 1 else 0
    ensures unlocked ==> SessionTrace(w, event, unlocked, startup, os, snaps, trayEnabled, left)[0] == ResetClosedWindowsCache
  {
    CountSingleCalls(w, event, unlocked, startup, os, snaps, trayEnabled, left, ResetClosedWindowsCache);
  }

  /** The unit of work runs exactly once, with the session's event recorded for
      diagnostics. */
  lemma SessionBodyRunsOnce(w: World, event: RefreshSessionEvent, unlocked: bool, startup: bool,
                            os: OsView, snaps: FocusSnapshots, trayEnabled: bool, left: World)
    ensures var t := SessionTrace(w, event, unlocked, startup, os, snaps, trayEnabled, left);
      var i := BodyIndex(w, unlocked, startup, os);
      && i < |t| && t[i] == RunBody(Some(event))
      && (forall k :: 0 <= k < |t| && t[k].RunBody? ==> k == i)
  {
    SessionShape(w, event, unlocked, startup, os, snaps, trayEnabled, left);
    NoBodyOutside(w, unlocked, startup, os, snaps, trayEnabled, left);
  }

  lemma NoBodyOutside(w: World, unlocked: bool, startup: bool, os: OsView, snaps: FocusSnapshots, trayEnabled: bool, left: World)
    ensures forall k :: 0 <= k < |BeforeBody(w, unlocked, startup, os)| ==> !BeforeBody(w, unlocked, startup, os)[k].RunBody?
    ensures forall k :: 0 <= k < |AfterBody(left, startup, os, snaps, trayEnabled)| ==>
      !AfterBody(left, startup, os, snaps, trayEnabled)[k].RunBody?
  {
    PrologueKinds(w, unlocked, startup, os);
    RefreshModelKinds(AfterDetection(w, os), os, w.workspaces);
    RefreshModelKinds(left.windows, os, left.workspaces);
    EpilogueKinds(left, startup, snaps, trayEnabled);
  }

  /** The model is refreshed once before the unit of work and once after it: each side
      checks the focus-change callbacks once and normalises every workspace once, the
      second time every workspace the unit of work left. */
  lemma SessionRefreshesAroundBody(w: World, event: RefreshSessionEvent, unlocked: bool, startup: bool,
                                   os: OsView, snaps: FocusSnapshots, trayEnabled: bool, left: World)
    ensures var t := SessionTrace(w, event, unlocked, startup, os, snaps, trayEnabled, left);
      var i := BodyIndex(w, unlocked, startup, os);
      && i < |t|
      && Count(t[..i], CheckOnFocusChangedCallbacks) == 1
      && Count(t[i + 1..], CheckOnFocusChangedCallbacks) == 1
      && (forall n :: Count(t[..i], NormalizeContainers(n)) == multiset(Names(w.workspaces))[n])
      && (forall n :: Count(t[i + 1..], NormalizeContainers(n)) == multiset(Names(left.workspaces))[n])
  {
    SessionShape(w, event, unlocked, startup, os, snaps, trayEnabled, left);
    CountsAroundBody(w, unlocked, startup, os, snaps, trayEnabled, left, CheckOnFocusChangedCallbacks);
    NormalizeAllOnlyNormalizes(w.workspaces, CheckOnFocusChangedCallbacks);
    NormalizeAllOnlyNormalizes(left.workspaces, CheckOnFocusChangedCallbacks);
    forall n ensures Count(BeforeBody(w, unlocked, startup, os), NormalizeContainers(n)) == multiset(Names(w.workspaces))[n]
      && Count(AfterBody(left, startup, os, snaps, trayEnabled), NormalizeContainers(n)) == multiset(Names(left.workspaces))[n]
    {
      CountsAroundBody(w, unlocked, startup, os, snaps, trayEnabled, left, NormalizeContainers(n));
      NormalizeAllCounts(w.workspaces, n);
      NormalizeAllCounts(left.workspaces, n);
    }
  }

  /** Counting the refresh calls before and after the unit of work. */
  lemma CountsAroundBody(w: World, unlocked: bool, startup: bool, os: OsView, snaps: FocusSnapshots, trayEnabled: bool,
                         left: World, x: Step)
    requires x.CheckOnFocusChangedCallbacks? || x.NormalizeContainers?
    ensures Count(BeforeBody(w, unlocked, startup, os), x)
      == (if x.CheckOnFocusChangedCallbacks? then 1 else 0) + Count(NormalizeAll(w.workspaces), x)
    ensures Count(AfterBody(left, startup, os, snaps, trayEnabled), x)
      == (if x.CheckOnFocusChangedCallbacks? then 1 else 0) + Count(NormalizeAll(left.workspaces), x)
  {
    CountBeforeBody(w, unlocked, startup, os, x);
    DetectAllOnlyDetects(w.apps, startup, x);
    CountAfterBody(left, startup, os, snaps, trayEnabled, x);
    CountSyncFocus(snaps, x);
    LayoutTraceOnlyLays(left.monitors, StartupWorkspaces(left, startup), x);
  }

  /** How often a call that no loop of the session makes occurs in the trace. */
  lemma CountSingleCalls(w: World, event: RefreshSessionEvent, unlocked: bool, startup: bool,
                         os: OsView, snaps: FocusSnapshots, trayEnabled: bool, left: World, x: Step)
    requires !x.DetectNewWindows? && !x.NormalizeContainers? && !x.NativeFocus?
    requires !x.UnhideFromCorner? && !x.LayoutWorkspace? && !x.HideInCorner?
    ensures Count(SessionTrace(w, event, unlocked, startup, os, snaps, trayEnabled, left), x)
      == (if unlocked && x == ResetClosedWindowsCache then 1 else 0)
       + (if x in {GcTerminatedApps, GcWindowsPass(Collected(w.windows, os)), GcUnusedWorkspaces, GcMonitors, UpdateFocusCache(os.nativeFocused)} then 1 else 0)
       + (if x in {GcTerminatedApps, GcWindowsPass(Collected(AfterDetection(w, os), os)), GcUnusedWorkspaces, CheckOnFocusChangedCallbacks} then 1 else 0)
       + (if x == RunBody(Some(event)) then 1 else 0)
       + (if x in {GcTerminatedApps, GcWindowsPass(Collected(left.windows, os)), GcUnusedWorkspaces, CheckOnFocusChangedCallbacks} then 1 else 0)
       + (if startup && x == SmartLayoutAtStartup(left.focusedWorkspace) then 1 else 0)
       + (if trayEnabled && (x == UpdateTrayText(SessionTrayText(left)) || x == NormalizeLayoutReason(startup)) then 1 else 0)
  {
    CountSession(w, event, unlocked, startup, os, snaps, trayEnabled, left, x);
    CountBeforeBody(w, unlocked, startup, os, x);
    DetectAllOnlyDetects(w.apps, startup, x);
    NormalizeAllOnlyNormalizes(w.workspaces, x);
    CountAfterBody(left, startup, os, snaps, trayEnabled, x);
    NormalizeAllOnlyNormalizes(left.workspaces, x);
    CountSyncFocus(snaps, x);
    LayoutTraceOnlyLays(left.monitors, StartupWorkspaces(left, startup), x);
  }

  /** Apps and workspaces are garbage collected three times (once up front and once in
      each `refreshModel`) and monitors once. Of the three `gcWindows` passes the
      first collects what the decision rule selects in the model the session starts
      from, the second (the first `refreshModel`) what it selects once detection has
      registered the discovered windows (`FirstRefreshPass` says what that is), and the
      third what it selects in the window map the unit of work left. */
  lemma SessionGcRounds(w: World, event: RefreshSessionEvent, unlocked: bool, startup: bool,
                        os: OsView, snaps: FocusSnapshots, trayEnabled: bool, left: World)
    ensures Count(SessionTrace(w, event, unlocked, startup, os, snaps, trayEnabled, left), GcTerminatedApps) == 3
    ensures Count(SessionTrace(w, event, unlocked, startup, os, snaps, trayEnabled, left), GcUnusedWorkspaces) == 3
    ensures Count(SessionTrace(w, event, unlocked, startup, os, snaps, trayEnabled, left), GcMonitors) == 1
    ensures forall c ::
      Count(SessionTrace(w, event, unlocked, startup, os, snaps, trayEnabled, left), GcWindowsPass(c))
        == (if c == Collected(w.windows, os) then 1 else 0) + (if c == Collected(AfterDetection(w, os), os) then 1 else 0)
         + (if c == Collected(left.windows, os) then 1 else 0)
  {
    CountSingleCalls(w, event, unlocked, startup, os, snaps, trayEnabled, left, GcTerminatedApps);
    CountSingleCalls(w, event, unlocked, startup, os, snaps, trayEnabled, left, GcUnusedWorkspaces);
    CountSingleCalls(w, event, unlocked, startup, os, snaps, trayEnabled, left, GcMonitors);
    forall c ensures Count(SessionTrace(w, event, unlocked, startup, os, snaps, trayEnabled, left), GcWindowsPass(c))
      == (if c == Collected(w.windows, os) then 1 else 0) + (if c == Collected(AfterDetection(w, os), os) then 1 else 0)
       + (if c == Collected(left.windows, os) then 1 else 0)
    {
      CountSingleCalls(w, event, unlocked, startup, os, snaps, trayEnabled, left, GcWindowsPass(c));
    }
  }

  /** When the unit of work leaves the window map as the first `refreshModel` left it
      (as the empty unit of work of `refreshAndLayout` does), the pass of the second
      `refreshModel` collects nothing. */
  lemma UntouchedMapLastPassIdle(w: World, event: RefreshSessionEvent, unlocked: bool, startup: bool,
                                 os: OsView, snaps: FocusSnapshots, trayEnabled: bool, left: World)
    requires left.windows == BodyInput(w, os).windows
    ensures Collected(left.windows, os) == {}
    ensures forall c ::
      Count(SessionTrace(w, event, unlocked, startup, os, snaps, trayEnabled, left), GcWindowsPass(c))
        == (if c == Collected(w.windows, os) then 1 else 0) + (if c == Collected(AfterDetection(w, os), os) then 1 else 0)
         + (if c == {} then 1 else 0)
  {
    SessionGcRounds(w, event, unlocked, startup, os, snaps, trayEnabled, left);
    GcWindowsIdempotent(AfterDetection(w, os), os);
  }

  /** The focus cache is updated once, from the window the OS reports as focused; the
      start-up layout choice is made once on start-up, for the workspace focused when
      the unit of work is done, and never otherwise. */
  lemma SessionFocusCacheAndStartup(w: World, event: RefreshSessionEvent, unlocked: bool, startup: bool,
                                    os: OsView, snaps: FocusSnapshots, trayEnabled: bool, left: World)
    ensures Count(SessionTrace(w, event, unlocked, startup, os, snaps, trayEnabled, left), UpdateFocusCache(os.nativeFocused)) == 1
    ensures forall f :: f != os.nativeFocused ==>
      Count(SessionTrace(w, event, unlocked, startup, os, snaps, trayEnabled, left), UpdateFocusCache(f)) == 0
    ensures Count(SessionTrace(w, event, unlocked, startup, os, snaps, trayEnabled, left), SmartLayoutAtStartup(left.focusedWorkspace))
      == if startup then 1 else 0
    ensures forall n :: n != left.focusedWorkspace ==>
      Count(SessionTrace(w, event, unlocked, startup, os, snaps, trayEnabled, left), SmartLayoutAtStartup(n)) == 0
  {
    CountSingleCalls(w, event, unlocked, startup, os, snaps, trayEnabled, left, UpdateFocusCache(os.nativeFocused));
    CountSingleCalls(w, event, unlocked, startup, os, snaps, trayEnabled, left, SmartLayoutAtStartup(left.focusedWorkspace));
    forall f | f != os.nativeFocused
      ensures Count(SessionTrace(w, event, unlocked, startup, os, snaps, trayEnabled, left), UpdateFocusCache(f)) == 0
    {
      CountSingleCalls(w, event, unlocked, startup, os, snaps, trayEnabled, left, UpdateFocusCache(f));
    }
    forall n | n != left.focusedWorkspace
      ensures Count(SessionTrace(w, event, unlocked, startup, os, snaps, trayEnabled, left), SmartLayoutAtStartup(n)) == 0
    {
      CountSingleCalls(w, event, unlocked, startup, os, snaps, trayEnabled, left, SmartLayoutAtStartup(n));
    }
  }

  /** The tray text and the layout-reason normalisation are published once each when
      the tray model is enabled and never otherwise; the text published is that of
      the registries the unit of work left. */
  lemma SessionTrayCalls(w: World, event: RefreshSessionEvent, unlocked: bool, startup: bool,
                         os: OsView, snaps: FocusSnapshots, trayEnabled: bool, left: World)
    ensures Count(SessionTrace(w, event, unlocked, startup, os, snaps, trayEnabled, left), UpdateTrayText(SessionTrayText(left)))
      == if trayEnabled then 1 else 0
    ensures forall text :: text != SessionTrayText(left) ==>
      Count(SessionTrace(w, event, unlocked, startup, os, snaps, trayEnabled, left), UpdateTrayText(text)) == 0
    ensures Count(SessionTrace(w, event, unlocked, startup, os, snaps, trayEnabled, left), NormalizeLayoutReason(startup))
      == if trayEnabled then 1 else 0
    ensures Count(SessionTrace(w, event, unlocked, startup, os, snaps, trayEnabled, left), NormalizeLayoutReason(!startup)) == 0
  {
    CountSingleCalls(w, event, unlocked, startup, os, snaps, trayEnabled, left, UpdateTrayText(SessionTrayText(left)));
    CountSingleCalls(w, event, unlocked, startup, os, snaps, trayEnabled, left, NormalizeLayoutReason(startup));
    CountSingleCalls(w, event, unlocked, startup, os, snaps, trayEnabled, left, NormalizeLayoutReason(!startup));
    forall text | text != SessionTrayText(left)
      ensures Count(SessionTrace(w, event, unlocked, startup, os, snaps, trayEnabled, left), UpdateTrayText(text)) == 0
    {
      CountSingleCalls(w, event, unlocked, startup, os, snaps, trayEnabled, left, UpdateTrayText(text));
    }
  }

  /** The focus is synced back to the OS at most once: exactly when the tray model is
      enabled and the model's focused window changed during the session to some
      window, which is then the one focused. */
  lemma SessionFocusSync(w: World, event: RefreshSessionEvent, unlocked: bool, startup: bool,
                         os: OsView, snaps: FocusSnapshots, trayEnabled: bool, left: World)
    ensures forall x: WindowId ::
      Count(SessionTrace(w, event, unlocked, startup, os, snaps, trayEnabled, left), NativeFocus(x))
        == if trayEnabled && snaps.before != snaps.after && snaps.after == Some(x) then 1 else 0
  {
    forall x: WindowId ensures Count(SessionTrace(w, event, unlocked, startup, os, snaps, trayEnabled, left), NativeFocus(x))
      == if trayEnabled && snaps.before != snaps.after && snaps.after == Some(x) then 1 else 0
    {
      var y := NativeFocus(x);
      CountSession(w, event, unlocked, startup, os, snaps, trayEnabled, left, y);
      CountBeforeBody(w, unlocked, startup, os, y);
      DetectAllOnlyDetects(w.apps, startup, y);
      NormalizeAllOnlyNormalizes(w.workspaces, y);
      CountAfterBody(left, startup, os, snaps, trayEnabled, y);
      NormalizeAllOnlyNormalizes(left.workspaces, y);
      CountSyncFocus(snaps, y);
      LayoutTraceOnlyLays(left.monitors, StartupWorkspaces(left, startup), y);
    }
  }

  lemma DetectCountsAroundBody(w: World, unlocked: bool, startup: bool, os: OsView, snaps: FocusSnapshots,
                                trayEnabled: bool, left: World, a: AppId, b: bool)
    ensures Count(BeforeBody(w, unlocked, startup, os), DetectNewWindows(a, b))
      == if b == startup then multiset(w.apps)[a] else 0
    ensures Count(AfterBody(left, startup, os, snaps, trayEnabled), DetectNewWindows(a, b)) == 0
  {
    var x := DetectNewWindows(a, b);
    CountBeforeBody(w, unlocked, startup, os, x);
    DetectAllCounts(w.apps, startup, a);
    NormalizeAllOnlyNormalizes(w.workspaces, x);
    CountAfterBody(left, startup, os, snaps, trayEnabled, x);
    NormalizeAllOnlyNormalizes(left.workspaces, x);
    CountSyncFocus(snaps, x);
    LayoutTraceOnlyLays(left.monitors, StartupWorkspaces(left, startup), x);
  }

  /** Every app is asked once per occurrence in the app list to detect new windows, with
      the session's start-up flag, and all of that happens before the unit of work. */
  lemma SessionDetectsBeforeBody(w: World, event: RefreshSessionEvent, unlocked: bool, startup: bool,
                                 os: OsView, snaps: FocusSnapshots, trayEnabled: bool, left: World)
    ensures var t := SessionTrace(w, event, unlocked, startup, os, snaps, trayEnabled, left);
      var i := BodyIndex(w, unlocked, startup, os);
      && i < |t|
      && (forall a, b :: Count(t[..i], DetectNewWindows(a, b)) == if b == startup then multiset(w.apps)[a] else 0)
      && (forall a, b :: Count(t[i + 1..], DetectNewWindows(a, b)) == 0)
  {
    SessionShape(w, event, unlocked, startup, os, snaps, trayEnabled, left);
    forall a, b ensures
      && Count(BeforeBody(w, unlocked, startup, os), DetectNewWindows(a, b)) == (if b == startup then multiset(w.apps)[a] else 0)
      && Count(AfterBody(left, startup, os, snaps, trayEnabled), DetectNewWindows(a, b)) == 0
    {
      DetectCountsAroundBody(w, unlocked, startup, os, snaps, trayEnabled, left, a, b);
    }
  }

  lemma NoGatedOutsideEpilogue(w: World, unlocked: bool, startup: bool, os: OsView, snaps: FocusSnapshots,
                               trayEnabled: bool, left: World)
    ensures forall k :: 0 <= k < |BeforeBody(w, unlocked, startup, os)| ==> !TrayGated(BeforeBody(w, unlocked, startup, os)[k])
    ensures forall k :: 0 <= k < |AfterBody(left, startup, os, snaps, trayEnabled)| ==>
      (TrayGated(AfterBody(left, startup, os, snaps, trayEnabled)[k]) ==> trayEnabled)
  {
    PrologueKinds(w, unlocked, startup, os);
    RefreshModelKinds(AfterDetection(w, os), os, w.workspaces);
    RefreshModelKinds(left.windows, os, left.workspaces);
    EpilogueKinds(left, startup, snaps, trayEnabled);
  }

  /** The focus sync, the tray text, the layout-reason normalisation and every call of
      `layoutWorkspaces` happen only when the tray model is enabled, and only after the
      unit of work. */
  lemma SessionTrayGated(w: World, event: RefreshSessionEvent, unlocked: bool, startup: bool,
                         os: OsView, snaps: FocusSnapshots, trayEnabled: bool, left: World)
    ensures var t := SessionTrace(w, event, unlocked, startup, os, snaps, trayEnabled, left);
      forall k :: 0 <= k < |t| && TrayGated(t[k]) ==> trayEnabled && BodyIndex(w, unlocked, startup, os) < k
  {
    NoGatedOutsideEpilogue(w, unlocked, startup, os, snaps, trayEnabled, left);
    GatedOnlyAfter(BeforeBody(w, unlocked, startup, os), RunBody(Some(event)), AfterBody(left, startup, os, snaps, trayEnabled), trayEnabled);
  }

  /** In `before + [x] + after`, a gated step can only come from `after`. */
  lemma GatedOnlyAfter(before: seq<Step>, x: Step, after: seq<Step>, enabled: bool)
    requires forall k :: 0 <= k < |before| ==> !TrayGated(before[k])
    requires !TrayGated(x)
    requires forall k :: 0 <= k < |after| ==> (TrayGated(after[k]) ==> enabled)
    ensures forall k :: 0 <= k < |before + [x] + after| && TrayGated((before + [x] + after)[k]) ==> enabled && |before| < k
  {
    var t := before + [x] + after;
    forall k | 0 <= k < |t| && TrayGated(t[k]) ensures enabled && |before| < k {
      if k > |before| {
        assert t[k] == after[k - |before| - 1];
      }
    }
  }

  lemma EndsWith(a: seq<Step>, b: seq<Step>)
    ensures |b| <= |a + b| && (a + b)[|a + b| - |b|..] == b
  {
  }

  /** With the tray model enabled the session ends with the layout of the monitors and
      workspaces the unit of work left, and the start-up layout choice does not change
      which calls that layout makes. */
  lemma SessionEndsWithLayout(w: World, event: RefreshSessionEvent, unlocked: bool, startup: bool,
                              os: OsView, snaps: FocusSnapshots, left: World)
    ensures var t := SessionTrace(w, event, unlocked, startup, os, snaps, true, left);
      var layout := LayoutTrace(left.monitors, left.workspaces);
      |layout| <= |t| && t[|t| - |layout|..] == layout
  {
    SmartLayoutKeepsLayoutTrace(left.monitors, left.workspaces, left.focusedWorkspace);
    var layout := LayoutTrace(left.monitors, left.workspaces);
    var head := BeforeBody(w, unlocked, startup, os) + [RunBody(Some(event))];
    var r := RefreshModelSteps(left.windows, os, left.workspaces);
    var smart: seq<Step> := if startup then [SmartLayoutAtStartup(left.focusedWorkspace)] else [];
    var tray := SyncFocus(snaps) + [UpdateTrayText(SessionTrayText(left)), NormalizeLayoutReason(startup)];
    assert LayoutTrace(left.monitors, StartupWorkspaces(left, startup)) == layout;
    assert Epilogue(left, startup, snaps, true) == (smart + tray) + layout;
    AppendAssoc(r, smart + tray, layout);
    AppendAssoc(head, r + (smart + tray), layout);
    EndsWith(head + (r + (smart + tray)), layout);
  }

  /** The order of the calls before the first `refreshModel`. */
  function PrologueRank(s: Step): nat {
    match s
    case ResetClosedWindowsCache => 0
    case GcTerminatedApps => 1
    case GcWindowsPass(_) => 2
    case GcUnusedWorkspaces => 3
    case GcMonitors => 4
    case DetectNewWindows(_, _) => 5
    case UpdateFocusCache(_) => 6
    case _ => 7
  }

  /** The rank of the call at position k of a prologue with `resets` cache resets and
      `detections` detection calls. */
  function PrologueRankAt(k: nat, resets: nat, detections: nat): nat {
    if k < resets then 0
    else if k < resets + 4 then k - resets + 1
    else if k < resets + 4 + detections then 5
    else 6
  }

  lemma PrologueRanks(w: World, unlocked: bool, startup: bool, os: OsView)
    ensures forall k :: 0 <= k < |Prologue(w, unlocked, startup, os)| ==>
      PrologueRank(Prologue(w, unlocked, startup, os)[k]) == PrologueRankAt(k, if unlocked then 1 else 0, |w.apps|)
  {
    var reset: seq<Step> := if unlocked then [ResetClosedWindowsCache] else [];
    var g := [GcTerminatedApps, GcWindowsPass(Collected(w.windows, os)), GcUnusedWorkspaces, GcMonitors];
    var d := DetectAll(w.apps, startup);
    DetectAllExactly(w.apps, startup);
    var p := Prologue(w, unlocked, startup, os);
    assert p == reset + g + d + [UpdateFocusCache(os.nativeFocused)];
  }

  lemma PrologueOrdered(w: World, unlocked: bool, startup: bool, os: OsView)
    ensures var p := Prologue(w, unlocked, startup, os);
      && 0 < |p| && p[|p| - 1] == UpdateFocusCache(os.nativeFocused)
      && (forall k :: 0 <= k < |p| ==> PrologueRank(p[k]) < 7)
      && (forall j, k :: 0 <= j < k < |p| ==>
            PrologueRank(p[j]) < PrologueRank(p[k]) || (p[j].DetectNewWindows? && p[k].DetectNewWindows?))
  {
    var p := Prologue(w, unlocked, startup, os);
    PrologueRanks(w, unlocked, startup, os);
    PrologueKinds(w, unlocked, startup, os);
    DetectAllExactly(w.apps, startup);
    assert |p| == (if unlocked then 1 else 0) + 4 + |w.apps| + 1;
  }

  /** Before its first `refreshModel` a session resets the closed-windows cache (if it
      does), then garbage collects apps, windows and workspaces, then monitors, then
      lets the apps detect new windows, and updates the focus cache last: every call of
      that part comes after all calls of an earlier kind. */
  lemma SessionPrologueOrdered(w: World, event: RefreshSessionEvent, unlocked: bool, startup: bool,
                               os: OsView, snaps: FocusSnapshots, trayEnabled: bool, left: World)
    ensures var t := SessionTrace(w, event, unlocked, startup, os, snaps, trayEnabled, left);
      var n := |Prologue(w, unlocked, startup, os)|;
      && 0 < n < |t| && t[n - 1] == UpdateFocusCache(os.nativeFocused)
      && (forall k :: 0 <= k < n ==> PrologueRank(t[k]) < 7)
      && (forall j, k :: 0 <= j < k < n ==>
            PrologueRank(t[j]) < PrologueRank(t[k]) || (t[j].DetectNewWindows? && t[k].DetectNewWindows?))
  {
    var t := SessionTrace(w, event, unlocked, startup, os, snaps, trayEnabled, left);
    var p := Prologue(w, unlocked, startup, os);
    var i := BodyIndex(w, unlocked, startup, os);
    SessionShape(w, event, unlocked, startup, os, snaps, trayEnabled, left);
    PrologueOrdered(w, unlocked, startup, os);
    PrefixOfPrefix(t, i, p, RefreshModelSteps(AfterDetection(w, os), os, w.workspaces));
  }

  lemma PrefixOfPrefix(t: seq<Step>, i: nat, p: seq<Step>, r: seq<Step>)
    requires i <= |t| && t[..i] == p + r
    ensures |p| <= |t| && t[..|p|] == p
    ensures forall k :: 0 <= k < |p| ==> t[k] == p[k]
  {
    assert forall k :: 0 <= k < |p| ==> t[k] == t[..i][k];
  }
}
