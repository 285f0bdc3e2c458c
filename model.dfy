/** The entities the refresh pipeline works on, and the alphabet of abstract steps
    it emits.

    Every call the pipeline makes into code outside its own file (the accessibility
    layer, the tiling tree, the tray) is recorded as one `Step` in a trace instead of
    being reimplemented; the model states in which order, how often and with which
    arguments those calls happen. */
module Model {
  import opened Geometry

  datatype Option<T> = None | Some(value: T)

  /** CGWindowID of a window. */
  type WindowId = nat

  /** Process identifier of an application. */
  type AppId = nat

  /** Workspaces are identified by their name. */
  type WorkspaceName = string

  /** An entry of `MacWindow.allWindowsMap`: a tracked window and the app owning it (the
      refresh code reads the app only to label a profiling signpost). */
  datatype Window = Window(app: AppId)

  /** Layout of a tiling container. */
  datatype Layout = Tiles | Accordion

  /** The corner into which windows of an invisible workspace are parked. */
  datatype OptimalHideCorner = BottomLeftCorner | BottomRightCorner

  /** A monitor: its screen rectangle and the name of its active workspace. */
  datatype Monitor = Monitor(rect: Rect, activeWorkspace: WorkspaceName)

  /** A workspace: its name, the rectangle of the monitor it is assigned to
      (`workspaceMonitor.rect`), its leaf windows (`allLeafWindowsRecursive`) and the
      number of children and the layout of its root tiling container. */
  datatype Workspace = Workspace(
    name: WorkspaceName,
    monitorRect: Rect,
    windows: seq<WindowId>,
    rootChildren: nat,
    rootLayout: Layout)

  /** A workspace is visible iff it is the active workspace of some monitor. */
  predicate IsVisible(ws: Workspace, monitors: seq<Monitor>) {
    exists k :: 0 <= k < |monitors| && monitors[k].activeWorkspace == ws.name
  }

  /** The event a refresh session runs for (kept only for diagnostics). */
  datatype RefreshSessionEvent =
    | Startup
    | Ax(notification: string)
    | UserCommand(description: string)

  /** What the operating system reports while one refresh session runs:
      whether the login window (lock screen) is the frontmost application, which
      windows still resolve to a window id (`containingWindowId` is not nil), the
      windows the apps' `detectNewWindows` calls find on screen (with their owning
      apps), and which window the OS reports as focused. */
  datatype OsView = OsView(
    lockScreenIsFrontmost: bool,
    resolvable: set<WindowId>,
    discovered: map<WindowId, Window>,
    nativeFocused: Option<WindowId>)

  /** The model's focused window (`focus.windowOrNil`) as read before the unit of work
      (after the focus cache update) and after the second model normalisation. The
      focused window is not one of the modelled registries, so both readings are
      inputs. */
  datatype FocusSnapshots = FocusSnapshots(before: Option<WindowId>, after: Option<WindowId>)

  /** The model's registries, as read by one refresh session. `monitors` is kept in
      the order of `sortedMonitors`. */
  datatype World = World(
    windows: map<WindowId, Window>,
    apps: seq<AppId>,
    monitors: seq<Monitor>,
    workspaces: seq<Workspace>,
    focusedWorkspace: WorkspaceName,
    activeMode: Option<string>)

  /** One call of the refresh pipeline into a collaborator. */
  datatype Step =
    | ResetClosedWindowsCache
    | GcTerminatedApps
      /** One `gcWindows` pass; `collected` are the windows it garbage collected. */
    | GcWindowsPass(collected: set<WindowId>)
    | GcUnusedWorkspaces
    | GcMonitors
    | DetectNewWindows(app: AppId, startup: bool)
    | UpdateFocusCache(nativeFocused: Option<WindowId>)
    | CheckOnFocusChangedCallbacks
    | NormalizeContainers(workspace: WorkspaceName)
      /** The unit of work; `debugEvent` is `refreshSessionEventForDebug` while it runs. */
    | RunBody(debugEvent: Option<RefreshSessionEvent>)
    | SmartLayoutAtStartup(workspace: WorkspaceName)
    | NativeFocus(window: WindowId)
    | UpdateTrayText(text: string)
    | NormalizeLayoutReason(startup: bool)
    | UnhideFromCorner(window: WindowId)
    | LayoutWorkspace(workspace: WorkspaceName)
    | HideInCorner(window: WindowId, corner: OptimalHideCorner)

  /** Regrouping a concatenation, for traces built one call at a time. */
  lemma AppendAssoc<T>(a: seq<T>, b: seq<T>, c: seq<T>)
    ensures a + (b + c) == (a + b) + c
  {
  }
}
