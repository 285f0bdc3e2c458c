/** The decision rule of `gcWindows`: which tracked windows one pass garbage collects.

    The pass is skipped while the lock screen is frontmost, and it is skipped when
    every tracked window is unresolvable (then the login window is most likely still
    active and the windows are only momentarily unobservable). Otherwise it collects
    exactly the unresolvable windows, from a list computed before any removal. */
module WindowGc {
  import opened Model

  /** The filtered copy `toKill`: the tracked windows the OS no longer resolves. */
  function WindowsToKill(windows: map<WindowId, Window>, resolvable: set<WindowId>): (toKill: map<WindowId, Window>)
    ensures toKill.Keys == windows.Keys - resolvable
    ensures forall id :: id in toKill ==> toKill[id] == windows[id]
  {
    map id | id in windows && id !in resolvable :: windows[id]
  }

  /** The two early returns of the pass: the lock screen is frontmost, or no tracked
      window resolves. The pass tests the latter by comparing the size of the kill list
      with the number of tracked windows; `AllUnresolvableIffCountsMatch` shows the two
      tests agree. */
  predicate SkipsGc(windows: map<WindowId, Window>, os: OsView) {
    os.lockScreenIsFrontmost || windows.Keys !! os.resolvable
  }

  /** The windows one pass garbage collects: only tracked windows the OS no longer
      resolves, and none while the lock screen is frontmost. */
  function Collected(windows: map<WindowId, Window>, os: OsView): (collected: set<WindowId>)
    ensures collected <= windows.Keys && collected !! os.resolvable
    ensures os.lockScreenIsFrontmost ==> collected == {}
  {
    if SkipsGc(windows, os) then {} else windows.Keys - os.resolvable
  }

  /** `allWindowsMap` after one pass. A pass only removes entries, leaves the windows
      it keeps as they were, and never removes a window that still resolves. */
  function GcWindowsOutcome(windows: map<WindowId, Window>, os: OsView): (after: map<WindowId, Window>)
    ensures after.Keys <= windows.Keys
    ensures forall id :: id in after ==> after[id] == windows[id]
    ensures forall id :: id in windows && id in os.resolvable ==> id in after
  {
    windows - Collected(windows, os)
  }

  lemma {:induction false} SubsetCardinality<T>(a: set<T>, b: set<T>)
    requires a <= b
    ensures |a| <= |b|
    ensures |a| == |b| ==> a == b
  {
    if a != {} {
      var x :| x in a;
      SubsetCardinality(a - {x}, b - {x});
    }
  }

  /** The count comparison `toKill.count == allWindowsMap.count` holds exactly when no
      tracked window resolves (in particular when nothing is tracked). */
  lemma AllUnresolvableIffCountsMatch(windows: map<WindowId, Window>, resolvable: set<WindowId>)
    ensures |WindowsToKill(windows, resolvable)| == |windows| <==> windows.Keys !! resolvable
  {
    var toKill := WindowsToKill(windows, resolvable);
    assert |toKill| == |toKill.Keys| && |windows| == |windows.Keys|;
    SubsetCardinality(toKill.Keys, windows.Keys);
    if windows.Keys !! resolvable {
      assert toKill.Keys == windows.Keys;
    }
  }

  /** The three outcomes of a pass: nothing is removed on the lock screen; nothing is
      removed when no tracked window resolves (this includes the empty map); otherwise
      exactly the unresolvable windows are removed, so the k unresolvable ones of N go
      and the N - k resolvable ones stay. */
  lemma GcWindowsDecision(windows: map<WindowId, Window>, os: OsView)
    ensures os.lockScreenIsFrontmost ==> GcWindowsOutcome(windows, os) == windows
    ensures windows.Keys !! os.resolvable ==> GcWindowsOutcome(windows, os) == windows
    ensures !os.lockScreenIsFrontmost && !(windows.Keys !! os.resolvable) ==>
      && Collected(windows, os) == windows.Keys - os.resolvable
      && GcWindowsOutcome(windows, os).Keys == windows.Keys * os.resolvable
      && |GcWindowsOutcome(windows, os)| == |windows| - |windows.Keys - os.resolvable|
  {
    AllUnresolvableIffCountsMatch(windows, os.resolvable);
    var r := GcWindowsOutcome(windows, os);
    if windows.Keys !! os.resolvable {
      assert Collected(windows, os) == {};
      assert r == windows;
    }
    if !os.lockScreenIsFrontmost && !(windows.Keys !! os.resolvable) {
      var dead := windows.Keys - os.resolvable;
      assert r.Keys == windows.Keys - dead;
      assert r.Keys + dead == windows.Keys && r.Keys !! dead;
      assert |r| == |r.Keys| && |windows| == |windows.Keys|;
    }
  }

  /** Running the pass again with the same OS observation collects nothing: the list
      of windows to remove does not depend on the removals themselves. */
  lemma GcWindowsIdempotent(windows: map<WindowId, Window>, os: OsView)
    ensures Collected(GcWindowsOutcome(windows, os), os) == {}
    ensures GcWindowsOutcome(GcWindowsOutcome(windows, os), os) == GcWindowsOutcome(windows, os)
  {
    var r := GcWindowsOutcome(windows, os);
    GcWindowsDecision(windows, os);
    if !SkipsGc(windows, os) {
      assert r.Keys - os.resolvable == {};
    }
    assert r - {} == r;
  }

  /** Removing some of the windows to kill leaves the rest of the kill list as it was:
      each window's fate depends only on whether it resolves. */
  lemma KillListSurvivesRemoval(windows: map<WindowId, Window>, resolvable: set<WindowId>, removed: set<WindowId>)
    ensures WindowsToKill(windows - removed, resolvable) == WindowsToKill(windows, resolvable) - removed
  {
  }

  /** The lock-screen test and the count comparison decide that nothing is collected. */
  lemma SkippedPassKeepsAll(windows: map<WindowId, Window>, os: OsView)
    requires os.lockScreenIsFrontmost || |WindowsToKill(windows, os.resolvable)| == |windows|
    ensures Collected(windows, os) == {} && GcWindowsOutcome(windows, os) == windows
  {
    AllUnresolvableIffCountsMatch(windows, os.resolvable);
    assert windows - {} == windows;
  }

  /** Past both early returns the pass collects exactly the kill list. */
  lemma FullPassCollectsKillList(windows: map<WindowId, Window>, os: OsView)
    requires !os.lockScreenIsFrontmost && |WindowsToKill(windows, os.resolvable)| != |windows|
    ensures Collected(windows, os) == WindowsToKill(windows, os.resolvable).Keys
    ensures GcWindowsOutcome(windows, os) == windows - WindowsToKill(windows, os.resolvable).Keys
  {
    AllUnresolvableIffCountsMatch(windows, os.resolvable);
  }
}
