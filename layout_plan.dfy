/** The calls `layoutWorkspaces` makes, in order, and the start-up layout choice.

    The layout runs in two phases, which keeps windows from flickering: first, for every monitor, every
    window of its active workspace is unhidden and that workspace is laid out; only
    then is every window of every invisible workspace parked in the hide corner of
    that workspace's monitor. */
module LayoutPlan {
  import opened Geometry
  import opened Model
  import opened HideCorner

  /** `allLeafWindowsRecursive` of the workspace called `name` (none if there is no
      such workspace). */
  function WindowsOfWorkspace(workspaces: seq<Workspace>, name: WorkspaceName): seq<WindowId> {
    if workspaces == [] then []
    else if workspaces[0].name == name then workspaces[0].windows
    else WindowsOfWorkspace(workspaces[1..], name)
  }

  function UnhideAll(windows: seq<WindowId>): seq<Step>
    decreases |windows|
  {
    if windows == [] then []
    else UnhideAll(windows[..|windows| - 1]) + [UnhideFromCorner(windows[|windows| - 1])]
  }

  function HideAll(windows: seq<WindowId>, corner: OptimalHideCorner): seq<Step>
    decreases |windows|
  {
    if windows == [] then []
    else HideAll(windows[..|windows| - 1], corner) + [HideInCorner(windows[|windows| - 1], corner)]
  }

  /** The first loop body: unhide the active workspace's windows, then lay it out. */
  function ShowActive(monitor: Monitor, workspaces: seq<Workspace>): seq<Step> {
    UnhideAll(WindowsOfWorkspace(workspaces, monitor.activeWorkspace)) + [LayoutWorkspace(monitor.activeWorkspace)]
  }

  /** The first loop over the visited monitors `ms`. */
  function ShowPhase(ms: seq<Monitor>, workspaces: seq<Workspace>): seq<Step>
    decreases |ms|
  {
    if ms == [] then []
    else ShowPhase(ms[..|ms| - 1], workspaces) + ShowActive(ms[|ms| - 1], workspaces)
  }

  /** The second loop body: park an invisible workspace's windows; a visible one is skipped. */
  function HideIfInvisible(ws: Workspace, monitors: seq<Monitor>, cornerMap: map<Point, OptimalHideCorner>): seq<Step> {
    if IsVisible(ws, monitors) then [] else HideAll(ws.windows, CornerFor(cornerMap, ws))
  }

  /** The second loop over the visited workspaces `wss`. */
  function HidePhase(wss: seq<Workspace>, monitors: seq<Monitor>, cornerMap: map<Point, OptimalHideCorner>): seq<Step>
    decreases |wss|
  {
    if wss == [] then []
    else HidePhase(wss[..|wss| - 1], monitors, cornerMap) + HideIfInvisible(wss[|wss| - 1], monitors, cornerMap)
  }

  /** Every call `layoutWorkspaces` makes. */
  function LayoutTrace(monitors: seq<Monitor>, workspaces: seq<Workspace>): seq<Step> {
    ShowPhase(monitors, workspaces) + HidePhase(workspaces, monitors, CornerMap(monitors, monitors))
  }

  lemma {:induction false} UnhideAllExactly(windows: seq<WindowId>)
    ensures |UnhideAll(windows)| == |windows|
    ensures forall k :: 0 <= k < |windows| ==> UnhideAll(windows)[k] == UnhideFromCorner(windows[k])
  {
    if windows != [] {
      UnhideAllExactly(windows[..|windows| - 1]);
    }
  }

  lemma {:induction false} HideAllExactly(windows: seq<WindowId>, corner: OptimalHideCorner)
    ensures |HideAll(windows, corner)| == |windows|
    ensures forall k :: 0 <= k < |windows| ==> HideAll(windows, corner)[k] == HideInCorner(windows[k], corner)
  {
    if windows != [] {
      HideAllExactly(windows[..|windows| - 1], corner);
    }
  }

  /** The first phase only unhides and lays out, and it does so for every monitor: each
      window of each monitor's active workspace is unhidden and each active workspace
      is laid out; conversely, every window unhidden belongs to an active workspace. */
  lemma {:induction false} ShowPhaseShowsActive(ms: seq<Monitor>, workspaces: seq<Workspace>)
    ensures forall k :: 0 <= k < |ShowPhase(ms, workspaces)| ==>
      ShowPhase(ms, workspaces)[k].UnhideFromCorner? || ShowPhase(ms, workspaces)[k].LayoutWorkspace?
    ensures forall i :: 0 <= i < |ms| ==> LayoutWorkspace(ms[i].activeWorkspace) in ShowPhase(ms, workspaces)
    ensures forall i, w :: 0 <= i < |ms| && w in WindowsOfWorkspace(workspaces, ms[i].activeWorkspace) ==>
      UnhideFromCorner(w) in ShowPhase(ms, workspaces)
    ensures forall w :: UnhideFromCorner(w) in ShowPhase(ms, workspaces) ==>
      exists i :: 0 <= i < |ms| && w in WindowsOfWorkspace(workspaces, ms[i].activeWorkspace)
  {
    if ms != [] {
      var n := |ms| - 1;
      var prefix := ms[..n];
      ShowPhaseShowsActive(prefix, workspaces);
      var last := WindowsOfWorkspace(workspaces, ms[n].activeWorkspace);
      UnhideAllExactly(last);
      var a := ShowPhase(prefix, workspaces);
      var b := ShowActive(ms[n], workspaces);
      assert ShowPhase(ms, workspaces) == a + b;
      assert forall i :: 0 <= i < n ==> ms[i] == prefix[i];
      forall w | UnhideFromCorner(w) in a + b
        ensures exists i :: 0 <= i < |ms| && w in WindowsOfWorkspace(workspaces, ms[i].activeWorkspace)
      {
        if UnhideFromCorner(w) in a {
          var i :| 0 <= i < n && w in WindowsOfWorkspace(workspaces, prefix[i].activeWorkspace);
          assert ms[i] == prefix[i];
        } else {
          var k :| 0 <= k < |b| && b[k] == UnhideFromCorner(w);
          assert w == last[k];
        }
      }
      forall i, w | 0 <= i < |ms| && w in WindowsOfWorkspace(workspaces, ms[i].activeWorkspace)
        ensures UnhideFromCorner(w) in a + b
      {
        if i == n {
          var k :| 0 <= k < |last| && last[k] == w;
          assert b[k] == UnhideFromCorner(w);
        } else {
          assert ms[i] == prefix[i];
        }
      }
      forall i | 0 <= i < |ms| ensures LayoutWorkspace(ms[i].activeWorkspace) in a + b {
        if i == n {
          assert b[|b| - 1] == LayoutWorkspace(ms[i].activeWorkspace);
        } else {
          assert ms[i] == prefix[i];
        }
      }
    }
  }

  /** The second phase only hides, and it parks exactly the windows of the invisible
      workspaces, each in the corner looked up for its workspace's monitor. */
  lemma {:induction false} HidePhaseHidesInvisible(wss: seq<Workspace>, monitors: seq<Monitor>, cornerMap: map<Point, OptimalHideCorner>)
    ensures forall k :: 0 <= k < |HidePhase(wss, monitors, cornerMap)| ==> HidePhase(wss, monitors, cornerMap)[k].HideInCorner?
    ensures forall i, w :: 0 <= i < |wss| && !IsVisible(wss[i], monitors) && w in wss[i].windows ==>
      HideInCorner(w, CornerFor(cornerMap, wss[i])) in HidePhase(wss, monitors, cornerMap)
    ensures forall w, c :: HideInCorner(w, c) in HidePhase(wss, monitors, cornerMap) ==>
      exists i :: 0 <= i < |wss| && !IsVisible(wss[i], monitors) && w in wss[i].windows && c == CornerFor(cornerMap, wss[i])
  {
    if wss != [] {
      var n := |wss| - 1;
      var prefix := wss[..n];
      HidePhaseHidesInvisible(prefix, monitors, cornerMap);
      var corner := CornerFor(cornerMap, wss[n]);
      HideAllExactly(wss[n].windows, corner);
      var a := HidePhase(prefix, monitors, cornerMap);
      var b := HideIfInvisible(wss[n], monitors, cornerMap);
      assert HidePhase(wss, monitors, cornerMap) == a + b;
      assert forall i :: 0 <= i < n ==> wss[i] == prefix[i];
      forall w, c | HideInCorner(w, c) in a + b
        ensures exists i :: 0 <= i < |wss| && !IsVisible(wss[i], monitors) && w in wss[i].windows && c == CornerFor(cornerMap, wss[i])
      {
        if HideInCorner(w, c) in a {
          var i :| 0 <= i < n && !IsVisible(prefix[i], monitors) && w in prefix[i].windows && c == CornerFor(cornerMap, prefix[i]);
          assert wss[i] == prefix[i];
        } else {
          var k :| 0 <= k < |b| && b[k] == HideInCorner(w, c);
          assert w == wss[n].windows[k];
        }
      }
      forall i, w | 0 <= i < |wss| && !IsVisible(wss[i], monitors) && w in wss[i].windows
        ensures HideInCorner(w, CornerFor(cornerMap, wss[i])) in a + b
      {
        if i == n {
          var k :| 0 <= k < |wss[n].windows| && wss[n].windows[k] == w;
          assert b[k] == HideInCorner(w, corner);
        } else {
          assert wss[i] == prefix[i];
        }
      }
    }
  }

  /** No unhide or layout call comes after a hide call. */
  lemma LayoutPhasesOrdered(monitors: seq<Monitor>, workspaces: seq<Workspace>)
    ensures forall i, j :: 0 <= i < j < |LayoutTrace(monitors, workspaces)| && LayoutTrace(monitors, workspaces)[i].HideInCorner? ==>
      !LayoutTrace(monitors, workspaces)[j].UnhideFromCorner? && !LayoutTrace(monitors, workspaces)[j].LayoutWorkspace?
  {
    var shown := ShowPhase(monitors, workspaces);
    var hidden := HidePhase(workspaces, monitors, CornerMap(monitors, monitors));
    ShowPhaseShowsActive(monitors, workspaces);
    HidePhaseHidesInvisible(workspaces, monitors, CornerMap(monitors, monitors));
    var t := LayoutTrace(monitors, workspaces);
    forall i, j | 0 <= i < j < |t| && t[i].HideInCorner?
      ensures !t[j].UnhideFromCorner? && !t[j].LayoutWorkspace?
    {
      var k := j - |shown|;
      assert t[j] == hidden[k];
    }
  }

  /** `smartLayoutAtStartup`: a root with at most three children is tiled, a larger
      one becomes an accordion. */
  function SmartLayout(rootChildren: nat): Layout {
    if rootChildren <= 3 then Tiles else Accordion
  }

  /** The workspaces after `smartLayoutAtStartup` set the root layout of the focused one. */
  function ApplySmartLayout(workspaces: seq<Workspace>, focused: WorkspaceName): (r: seq<Workspace>)
    ensures |r| == |workspaces|
    ensures forall i :: 0 <= i < |r| ==>
      r[i].name == workspaces[i].name && r[i].monitorRect == workspaces[i].monitorRect
      && r[i].windows == workspaces[i].windows && r[i].rootChildren == workspaces[i].rootChildren
  {
    seq(|workspaces|, i requires 0 <= i < |workspaces| =>
      if workspaces[i].name == focused then workspaces[i].(rootLayout := SmartLayout(workspaces[i].rootChildren))
      else workspaces[i])
  }

  /** Only the focused workspace's root layout changes: to tiles iff its root has at
      most three children; and doing it again changes nothing. */
  lemma SmartLayoutSetsFocusedRoot(workspaces: seq<Workspace>, focused: WorkspaceName)
    ensures forall i :: 0 <= i < |workspaces| && workspaces[i].name != focused ==> ApplySmartLayout(workspaces, focused)[i] == workspaces[i]
    ensures forall i :: 0 <= i < |workspaces| && workspaces[i].name == focused ==>
      (ApplySmartLayout(workspaces, focused)[i].rootLayout == Tiles <==> workspaces[i].rootChildren <= 3)
    ensures ApplySmartLayout(ApplySmartLayout(workspaces, focused), focused) == ApplySmartLayout(workspaces, focused)
  {
  }

  /** Smart layout does not change what `layoutWorkspaces` does. */
  lemma {:induction false} SmartLayoutKeepsLayoutTrace(monitors: seq<Monitor>, workspaces: seq<Workspace>, focused: WorkspaceName)
    ensures LayoutTrace(monitors, ApplySmartLayout(workspaces, focused)) == LayoutTrace(monitors, workspaces)
  {
    var wss := ApplySmartLayout(workspaces, focused);
    var cm := CornerMap(monitors, monitors);
    forall name ensures WindowsOfWorkspace(wss, name) == WindowsOfWorkspace(workspaces, name) {
      WindowsOfWorkspaceNamesOnly(wss, workspaces, name);
    }
    ShowPhaseSameWindows(monitors, wss, workspaces);
    HidePhaseSameWindows(wss, workspaces, monitors, cm);
  }

  lemma {:induction false} WindowsOfWorkspaceNamesOnly(a: seq<Workspace>, b: seq<Workspace>, name: WorkspaceName)
    requires |a| == |b|
    requires forall i :: 0 <= i < |a| ==> a[i].name == b[i].name && a[i].windows == b[i].windows
    ensures WindowsOfWorkspace(a, name) == WindowsOfWorkspace(b, name)
  {
    if a != [] {
      WindowsOfWorkspaceNamesOnly(a[1..], b[1..], name);
    }
  }

  lemma {:induction false} ShowPhaseSameWindows(ms: seq<Monitor>, a: seq<Workspace>, b: seq<Workspace>)
    requires forall name :: WindowsOfWorkspace(a, name) == WindowsOfWorkspace(b, name)
    ensures ShowPhase(ms, a) == ShowPhase(ms, b)
  {
    if ms != [] {
      ShowPhaseSameWindows(ms[..|ms| - 1], a, b);
    }
  }

  lemma {:induction false} HidePhaseSameWindows(a: seq<Workspace>, b: seq<Workspace>, monitors: seq<Monitor>, cornerMap: map<Point, OptimalHideCorner>)
    requires |a| == |b|
    requires forall i :: 0 <= i < |a| ==> a[i].name == b[i].name && a[i].windows == b[i].windows && a[i].monitorRect == b[i].monitorRect
    ensures HidePhase(a, monitors, cornerMap) == HidePhase(b, monitors, cornerMap)
  {
    if a != [] {
      var n := |a| - 1;
      HidePhaseSameWindows(a[..n], b[..n], monitors, cornerMap);
      assert IsVisible(a[n], monitors) == IsVisible(b[n], monitors);
    }
  }
}
