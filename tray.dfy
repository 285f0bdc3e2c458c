/** The status text `updateTrayText` publishes to the tray: an optional mode prefix
    `[c] ` (c the first character of the active binding mode, unless that mode is the
    main one), then one segment per monitor in `sortedMonitors` order, joined by
    " │ ". A segment is the name of the monitor's active workspace, marked with a
    leading `*` when it is the focused workspace and there is more than one monitor.

    Workspaces are compared by name (names identify workspaces), and a Swift
    `Character` is modelled by one `char`. */
module Tray {
  import opened Model

  const MainModeId: string := "main"

  const Separator: string := " \U{2502} "

  /** The mode prefix: the first character of the active mode in brackets, followed by
      a space; empty in the main mode, with no active mode or with an empty mode name. */
  function ModePrefix(activeMode: Option<string>): (prefix: string)
    ensures prefix == "" <==> (activeMode.None? || activeMode.value == MainModeId || activeMode.value == "")
    ensures prefix != "" ==> |activeMode.value| > 0 && prefix == "[" + [activeMode.value[0]] + "] "
  {
    match activeMode
    case None => ""
    case Some(mode) => if mode != MainModeId && |mode| > 0 then "[" + [mode[0]] + "] " else ""
  }

  /** The segment of one monitor whose active workspace is `name`. */
  function Segment(name: WorkspaceName, focused: WorkspaceName, severalMonitors: bool): string {
    (if name == focused && severalMonitors then "*" else "") + name
  }

  function Segments(activeNames: seq<WorkspaceName>, focused: WorkspaceName): seq<string> {
    seq(|activeNames|, i requires 0 <= i < |activeNames| => Segment(activeNames[i], focused, |activeNames| > 1))
  }

  /** `joined(separator:)` */
  function Join(parts: seq<string>, separator: string): string {
    if parts == [] then ""
    else if |parts| == 1 then parts[0]
    else parts[0] + separator + Join(parts[1..], separator)
  }

  /** The tray text for the active workspaces of the sorted monitors. */
  function TrayText(activeMode: Option<string>, activeNames: seq<WorkspaceName>, focused: WorkspaceName): string {
    ModePrefix(activeMode) + Join(Segments(activeNames, focused), Separator)
  }

  /** Where the i-th part starts in `Join(parts, separator)`. */
  function PartOffset(parts: seq<string>, separator: string, i: nat): nat
    requires i <= |parts|
  {
    if i == 0 then 0 else |parts[0]| + |separator| + PartOffset(parts[1..], separator, i - 1)
  }

  lemma SliceOfSuffix(a: string, b: string, lo: nat, hi: nat)
    requires |a| <= lo <= hi <= |a| + |b|
    ensures (a + b)[lo..hi] == b[lo - |a|..hi - |a|]
  {
    assert forall k :: 0 <= k < hi - lo ==> (a + b)[lo..hi][k] == b[lo - |a|..hi - |a|][k];
  }

  /** Reading a joined string back: the i-th part sits at its offset, and the last
      part ends the string. */
  lemma {:induction false} JoinedPartAt(parts: seq<string>, separator: string, i: nat)
    requires i < |parts|
    ensures PartOffset(parts, separator, i) + |parts[i]| <= |Join(parts, separator)|
    ensures Join(parts, separator)[PartOffset(parts, separator, i)..PartOffset(parts, separator, i) + |parts[i]|] == parts[i]
    ensures i + 1 == |parts| ==> PartOffset(parts, separator, i) + |parts[i]| == |Join(parts, separator)|
  {
    if |parts| > 1 {
      var head := parts[0] + separator;
      var rest := Join(parts[1..], separator);
      assert Join(parts, separator) == head + rest;
      if i == 0 {
        assert (head + rest)[..|parts[0]|] == parts[0];
      } else {
        JoinedPartAt(parts[1..], separator, i - 1);
        var o := PartOffset(parts[1..], separator, i - 1);
        assert parts[1..][i - 1] == parts[i];
        SliceOfSuffix(head, rest, |head| + o, |head| + o + |parts[i]|);
      }
    }
  }

  /** A separator stands between the i-th part and the next one. */
  lemma {:induction false} JoinedSeparatorAt(parts: seq<string>, separator: string, i: nat)
    requires i + 1 < |parts|
    ensures PartOffset(parts, separator, i + 1) == PartOffset(parts, separator, i) + |parts[i]| + |separator|
    ensures PartOffset(parts, separator, i + 1) <= |Join(parts, separator)|
    ensures Join(parts, separator)[PartOffset(parts, separator, i) + |parts[i]|..PartOffset(parts, separator, i + 1)] == separator
  {
    var head := parts[0] + separator;
    var rest := Join(parts[1..], separator);
    assert Join(parts, separator) == head + rest;
    if i == 0 {
      assert PartOffset(parts[1..], separator, 0) == 0;
      assert (head + rest)[|parts[0]|..|head|] == separator;
    } else {
      JoinedSeparatorAt(parts[1..], separator, i - 1);
      assert parts[1..][i - 1] == parts[i];
      var o := PartOffset(parts[1..], separator, i - 1);
      var o' := PartOffset(parts[1..], separator, i);
      SliceOfSuffix(head, rest, |head| + o + |parts[i]|, |head| + o');
    }
  }

  /** Where the i-th monitor's segment starts in the tray text. */
  function SegmentStart(activeMode: Option<string>, activeNames: seq<WorkspaceName>, focused: WorkspaceName, i: nat): nat
    requires i < |activeNames|
  {
    |ModePrefix(activeMode)| + PartOffset(Segments(activeNames, focused), Separator, i)
  }

  /** The i-th monitor's segment in the tray text is its active workspace's name,
      preceded by `*` iff that workspace is the focused one and there are several
      monitors. */
  lemma TraySegmentAt(activeMode: Option<string>, activeNames: seq<WorkspaceName>, focused: WorkspaceName, i: nat)
    requires i < |activeNames|
    ensures var segment := if |activeNames| > 1 && activeNames[i] == focused then "*" + activeNames[i] else activeNames[i];
      var at := SegmentStart(activeMode, activeNames, focused, i);
      at + |segment| <= |TrayText(activeMode, activeNames, focused)|
      && TrayText(activeMode, activeNames, focused)[at..at + |segment|] == segment
  {
    var prefix := ModePrefix(activeMode);
    var segs := Segments(activeNames, focused);
    var body := Join(segs, Separator);
    var text := TrayText(activeMode, activeNames, focused);
    assert text == prefix + body;
    JoinedPartAt(segs, Separator, i);
    var o := PartOffset(segs, Separator, i);
    assert text[|prefix| + o..|prefix| + o + |segs[i]|] == body[o..o + |segs[i]|];
  }

  /** The tray text starts with the mode prefix; with no monitor it is the prefix
      alone, and with a single monitor it is the prefix followed by that monitor's
      workspace name, with no mark and no separator. */
  lemma TrayTextShape(activeMode: Option<string>, activeNames: seq<WorkspaceName>, focused: WorkspaceName)
    ensures |ModePrefix(activeMode)| <= |TrayText(activeMode, activeNames, focused)|
    ensures TrayText(activeMode, activeNames, focused)[..|ModePrefix(activeMode)|] == ModePrefix(activeMode)
    ensures activeNames == [] ==> TrayText(activeMode, activeNames, focused) == ModePrefix(activeMode)
    ensures |activeNames| == 1 ==> TrayText(activeMode, activeNames, focused) == ModePrefix(activeMode) + activeNames[0]
  {
    var segs := Segments(activeNames, focused);
    if |activeNames| == 1 {
      assert segs[0] == activeNames[0];
    }
  }

  /** Between consecutive segments stands exactly one separator. */
  lemma TraySeparatorAt(activeMode: Option<string>, activeNames: seq<WorkspaceName>, focused: WorkspaceName, i: nat)
    requires i + 1 < |activeNames|
    ensures var text := TrayText(activeMode, activeNames, focused);
      var next := SegmentStart(activeMode, activeNames, focused, i + 1);
      next <= |text| && next >= |Separator| && text[next - |Separator|..next] == Separator
  {
    var prefix := ModePrefix(activeMode);
    var segs := Segments(activeNames, focused);
    var body := Join(segs, Separator);
    var text := TrayText(activeMode, activeNames, focused);
    assert text == prefix + body;
    JoinedSeparatorAt(segs, Separator, i);
    var o := PartOffset(segs, Separator, i + 1);
    assert text[|prefix| + o - |Separator|..|prefix| + o] == body[o - |Separator|..o];
  }
}
