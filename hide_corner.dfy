/** The per-monitor choice of the corner into which `layoutWorkspaces` parks the
    windows of invisible workspaces, and the dictionary keyed by each monitor's
    top-left corner in which the choices are kept.

    Three probe points lie just outside each bottom corner of a monitor (xOff and yOff
    are a tenth of its width and height). A monitor parks in its bottom-left corner
    only if some monitor contains a bottom-right probe (parking there would show on a
    neighbour) and no monitor contains a bottom-left probe; otherwise it parks in its
    bottom-right corner. */
module HideCorner {
  import opened Geometry
  import opened Model

  /** brc1, brc2, brc3: three points just past the bottom-right corner, none of them
      inside the monitor itself (whatever its size), so only a neighbour can contain one. */
  function BottomRightProbes(r: Rect): (probes: seq<Point>)
    ensures |probes| == 3
    ensures forall j :: 0 <= j < 3 ==> !Contains(r, probes[j])
  {
    var c := BottomRightPoint(r);
    var xOff, yOff := r.width * 0.1, r.height * 0.1;
    [Shift(c, 2.0, -yOff), Shift(c, -xOff, 2.0), Shift(c, 2.0, 2.0)]
  }

  /** blc1, blc2, blc3: three points just past the bottom-left corner, none of them
      inside the monitor itself. */
  function BottomLeftProbes(r: Rect): (probes: seq<Point>)
    ensures |probes| == 3
    ensures forall j :: 0 <= j < 3 ==> !Contains(r, probes[j])
  {
    var c := BottomLeftPoint(r);
    var xOff, yOff := r.width * 0.1, r.height * 0.1;
    [Shift(c, -2.0, -yOff), Shift(c, xOff, 2.0), Shift(c, -2.0, 2.0)]
  }

  /** Some monitor contains one of the probes. */
  predicate SomeMonitorContains(monitors: seq<Monitor>, probes: seq<Point>) {
    exists i, j :: 0 <= i < |monitors| && 0 <= j < |probes| && Contains(monitors[i].rect, probes[j])
  }

  /** The corner `layoutWorkspaces` chooses for `monitor`: bottom-left only beside
      another monitor. */
  function OptimalCorner(monitor: Monitor, monitors: seq<Monitor>): (corner: OptimalHideCorner)
    ensures corner == BottomLeftCorner ==> exists i :: 0 <= i < |monitors| && monitors[i].rect != monitor.rect
  {
    if SomeMonitorContains(monitors, BottomRightProbes(monitor.rect))
       && !SomeMonitorContains(monitors, BottomLeftProbes(monitor.rect))
    then BottomLeftCorner
    else BottomRightCorner
  }

  /** Bottom-left is chosen only when a monitor other than this one would show a
      window parked in the bottom-right corner, and no monitor at all would show one
      parked in the bottom-left corner. */
  lemma BottomLeftOnlyBesideNeighbour(monitor: Monitor, monitors: seq<Monitor>)
    requires OptimalCorner(monitor, monitors) == BottomLeftCorner
    ensures exists i, j ::
      0 <= i < |monitors| && 0 <= j < 3 && monitors[i].rect != monitor.rect && Contains(monitors[i].rect, BottomRightProbes(monitor.rect)[j])
    ensures forall i, j :: 0 <= i < |monitors| && 0 <= j < 3 ==> !Contains(monitors[i].rect, BottomLeftProbes(monitor.rect)[j])
  {
    var i, j :| 0 <= i < |monitors| && 0 <= j < 3 && Contains(monitors[i].rect, BottomRightProbes(monitor.rect)[j]);
    assert monitors[i].rect != monitor.rect;
  }

  /** A single monitor always parks windows in its bottom-right corner. */
  lemma SoleMonitorUsesBottomRight(monitor: Monitor)
    ensures OptimalCorner(monitor, [monitor]) == BottomRightCorner
  {
    if OptimalCorner(monitor, [monitor]) == BottomLeftCorner {
      BottomLeftOnlyBesideNeighbour(monitor, [monitor]);
    }
  }

  /** Two 1920x1080 monitors side by side: the left one parks bottom-left (its
      bottom-right probes fall on the right monitor), the right one bottom-right. */
  lemma SideBySideMonitors(m1: Monitor, m2: Monitor)
    requires m1.rect == Rect(0.0, 0.0, 1920.0, 1080.0)
    requires m2.rect == Rect(1920.0, 0.0, 1920.0, 1080.0)
    ensures OptimalCorner(m1, [m1, m2]) == BottomLeftCorner
    ensures OptimalCorner(m2, [m1, m2]) == BottomRightCorner
  {
    var ms := [m1, m2];
    assert Contains(ms[1].rect, BottomRightProbes(m1.rect)[0]);
    var bl1 := BottomLeftProbes(m1.rect);
    forall i, j | 0 <= i < 2 && 0 <= j < 3 ensures !Contains(ms[i].rect, bl1[j]) {
    }
    var br2 := BottomRightProbes(m2.rect);
    forall i, j | 0 <= i < 2 && 0 <= j < 3 ensures !Contains(ms[i].rect, br2[j]) {
    }
  }

  /** A monitor above another one of the same width parks bottom-right: its
      bottom-left probe blc2 falls on the lower monitor too. */
  lemma StackedMonitors(upper: Monitor, lower: Monitor)
    requires upper.rect == Rect(0.0, 0.0, 1920.0, 1080.0)
    requires lower.rect == Rect(0.0, 1080.0, 1920.0, 1080.0)
    ensures OptimalCorner(upper, [upper, lower]) == BottomRightCorner
  {
    var ms := [upper, lower];
    assert Contains(ms[1].rect, BottomLeftProbes(upper.rect)[1]);
  }

  /** `monitorToOptimalHideCorner` after the loop has visited `ms` (a prefix of
      `all`): each visited monitor's choice stored under its top-left corner, a later
      monitor overwriting an earlier one at the same point. */
  function CornerMap(ms: seq<Monitor>, all: seq<Monitor>): map<Point, OptimalHideCorner>
    decreases |ms|
  {
    if ms == [] then map[]
    else CornerMap(ms[..|ms| - 1], all)[TopLeftPoint(ms[|ms| - 1].rect) := OptimalCorner(ms[|ms| - 1], all)]
  }

  /** No monitor after the i-th one shares its top-left corner. */
  predicate LastAtItsCorner(ms: seq<Monitor>, i: int)
    requires 0 <= i < |ms|
  {
    forall j :: i < j < |ms| ==> TopLeftPoint(ms[j].rect) != TopLeftPoint(ms[i].rect)
  }

  /** The dictionary has an entry exactly at the top-left corners of the visited
      monitors. */
  lemma {:induction false} CornerMapKeys(ms: seq<Monitor>, all: seq<Monitor>)
    ensures forall i :: 0 <= i < |ms| ==> TopLeftPoint(ms[i].rect) in CornerMap(ms, all)
    ensures forall p :: p in CornerMap(ms, all) ==> exists i :: 0 <= i < |ms| && TopLeftPoint(ms[i].rect) == p
  {
    if ms != [] {
      var n := |ms| - 1;
      var prefix := ms[..n];
      CornerMapKeys(prefix, all);
      forall i | 0 <= i < n ensures ms[i] == prefix[i] { }
    }
  }

  /** The entry at a monitor's top-left corner is that monitor's choice when no later
      monitor shares the corner (a later one overwrites it). */
  lemma {:induction false} CornerMapLastWins(ms: seq<Monitor>, all: seq<Monitor>, i: int)
    requires 0 <= i < |ms| && LastAtItsCorner(ms, i)
    ensures TopLeftPoint(ms[i].rect) in CornerMap(ms, all)
    ensures CornerMap(ms, all)[TopLeftPoint(ms[i].rect)] == OptimalCorner(ms[i], all)
  {
    var n := |ms| - 1;
    if i < n {
      var prefix := ms[..n];
      assert prefix[i] == ms[i];
      assert LastAtItsCorner(prefix, i) by {
        forall j | i < j < |prefix| ensures TopLeftPoint(prefix[j].rect) != TopLeftPoint(prefix[i].rect) {
          assert prefix[j] == ms[j];
        }
      }
      CornerMapLastWins(prefix, all, i);
    }
  }

  /** The corner stored under the top-left corner of the workspace's monitor, or
      bottom-right when nothing is stored there. */
  function CornerFor(cornerMap: map<Point, OptimalHideCorner>, ws: Workspace): OptimalHideCorner {
    if TopLeftPoint(ws.monitorRect) in cornerMap then cornerMap[TopLeftPoint(ws.monitorRect)] else BottomRightCorner
  }

  /** A workspace parks its windows in the corner chosen for the last monitor whose
      top-left corner is that of the workspace's monitor, and bottom-right if no
      monitor has that top-left corner. */
  lemma WorkspaceHideCorner(monitors: seq<Monitor>, ws: Workspace)
    ensures (forall i :: 0 <= i < |monitors| ==> TopLeftPoint(monitors[i].rect) != TopLeftPoint(ws.monitorRect)) ==>
      CornerFor(CornerMap(monitors, monitors), ws) == BottomRightCorner
    ensures forall i ::
      (0 <= i < |monitors| && TopLeftPoint(monitors[i].rect) == TopLeftPoint(ws.monitorRect) && LastAtItsCorner(monitors, i)) ==>
      CornerFor(CornerMap(monitors, monitors), ws) == OptimalCorner(monitors[i], monitors)
  {
    CornerMapKeys(monitors, monitors);
    forall i | 0 <= i < |monitors| && TopLeftPoint(monitors[i].rect) == TopLeftPoint(ws.monitorRect) && LastAtItsCorner(monitors, i)
      ensures CornerFor(CornerMap(monitors, monitors), ws) == OptimalCorner(monitors[i], monitors)
    {
      CornerMapLastWins(monitors, monitors, i);
    }
  }
}
