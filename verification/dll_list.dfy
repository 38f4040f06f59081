/** The inject list: the ordered `Vec<DllInfo>` of libraries the user has
    picked, with the selected row and the "already added" popup flag, and
    the four buttons that edit it (`open_file_dialog_and_add_dll`,
    `enable_disable_dll`, `remove_selected_dll`, `clear_all_dlls`).
    A button click and the file the dialog returns are inputs. */
module DllList {
  import opened Basics
  import PeMachine

  /** One row of the inject list; `index` is the 1-based row number. */
  datatype DllInfo = DllInfo(
    switch: bool,
    dllName: string,
    dllPath: string,
    dllArch: string,
    index: nat)

  /** `DllInfo::default()`. */
  const DefaultDll: DllInfo := DllInfo(false, "undefined", "undefined", "undefined", 0)

  /** What the file dialog hands back: the path as text, the file-name
      component of the path if it has one, and the Machine word that reading
      the PE header of that file yields. */
  datatype PickedFile = PickedFile(path: string, fileName: Option<string>, machine: u16)

  /** The part of the application state the inject-list buttons touch. */
  datatype Panel = Panel(dlls: seq<DllInfo>, selected: Option<nat>, popup: bool)

  const EmptyPanel: Panel := Panel([], None, false)

  // ---------------------------------------------------------------------
  // The invariant the display relies on.
  // ---------------------------------------------------------------------

  /** Row numbers run 1..n in list order. */
  predicate ContiguousIndices(s: seq<DllInfo>)
  {
    forall i :: 0 <= i < |s| ==> s[i].index == i + 1
  }

  /** No path occurs twice. */
  predicate DistinctPaths(s: seq<DllInfo>)
  {
    forall i, j :: 0 <= i < j < |s| ==> s[i].dllPath != s[j].dllPath
  }

  predicate PathListed(s: seq<DllInfo>, path: string)
  {
    exists i :: 0 <= i < |s| && s[i].dllPath == path
  }

  /** The selected row, when there is one, names an existing row. */
  predicate Valid(p: Panel)
  {
    && ContiguousIndices(p.dlls)
    && DistinctPaths(p.dlls)
    && (p.selected.Some? ==> 1 <= p.selected.value <= |p.dlls|)
  }

  // ---------------------------------------------------------------------
  // Add
  // ---------------------------------------------------------------------

  /** `iter().any(|dll| dll.dll_path == file_path)`. */
  function ContainsPath(s: seq<DllInfo>, path: string): (b: bool)
    ensures b <==> PathListed(s, path)
    decreases |s|
  {
    if s == [] then false
    else if s[0].dllPath == path then true
    else (assert forall i :: 1 <= i < |s| ==> s[i] == s[1..][i - 1]; ContainsPath(s[1..], path))
  }

  /** `path.file_name().unwrap_or("undefined")`. */
  function DisplayName(f: PickedFile): string
  {
    match f.fileName
    case Some(n) => n
    case None => "undefined"
  }

  /** The Add DLL button: a picked path already in the list raises the popup
      and changes nothing else; a new path is appended, switched off, as row
      n + 1. */
  function AddDll(p: Panel, clicked: bool, picked: Option<PickedFile>): (r: Panel)
    ensures !clicked || picked.None? ==> r == p
    ensures clicked && picked.Some? && PathListed(p.dlls, picked.value.path) ==>
      r.dlls == p.dlls && r.popup && r.selected == p.selected
    ensures clicked && picked.Some? && !PathListed(p.dlls, picked.value.path) ==>
      && |r.dlls| == |p.dlls| + 1
      && r.dlls[..|p.dlls|] == p.dlls
      && r.dlls[|p.dlls|] == DllInfo(false, DisplayName(picked.value), picked.value.path,
                                     PeMachine.ArchLabel(picked.value.machine), |p.dlls| + 1)
      && r.selected == p.selected && r.popup == p.popup
  {
    if !clicked || picked.None? then p
    else
      var f := picked.value;
      if !ContainsPath(p.dlls, f.path) then
        var entry := DllInfo(false, DisplayName(f), f.path, PeMachine.ArchLabel(f.machine), |p.dlls| + 1);
        p.(dlls := p.dlls + [entry])
      else
        p.(popup := true)
  }

  /** The OK button of the "already added" popup lowers the flag. */
  function AcknowledgePopup(p: Panel, okClicked: bool): (r: Panel)
    ensures r.dlls == p.dlls && r.selected == p.selected
    ensures r.popup <==> p.popup && !okClicked
  {
    if p.popup && okClicked then p.(popup := false) else p
  }

  // ---------------------------------------------------------------------
  // Remove
  // ---------------------------------------------------------------------

  /** `retain(|dll| dll.index != k)`. */
  function Without(s: seq<DllInfo>, k: nat): (r: seq<DllInfo>)
    ensures |r| <= |s|
    ensures forall d :: d in r ==> d in s && d.index != k
    ensures forall d :: d in s && d.index != k ==> d in r
    ensures IsSubsequence(r, s)
    decreases |s|
  {
    if s == [] then []
    else if s[0].index != k then [s[0]] + Without(s[1..], k)
    else Without(s[1..], k)
  }

  /** `retain` keeps every copy of a kept row and no copy of a dropped one. */
  lemma {:induction false} WithoutCounts(s: seq<DllInfo>, k: nat)
    ensures forall d :: multiset(Without(s, k))[d] == if d.index != k then multiset(s)[d] else 0
    decreases |s|
  {
    if s != [] {
      assert s == [s[0]] + s[1..];
      WithoutCounts(s[1..], k);
    }
  }

  /** The re-numbering loop: row i gets index i + 1, nothing else changes. */
  function Renumber(s: seq<DllInfo>): (r: seq<DllInfo>)
    ensures |r| == |s|
    ensures ContiguousIndices(r)
    ensures forall i :: 0 <= i < |s| ==> r[i] == s[i].(index := i + 1)
  {
    seq(|s|, i requires 0 <= i < |s| => s[i].(index := i + 1))
  }

  /** The Remove button: with a selection k, every row numbered k goes, the
      survivors keep their order and are re-numbered, and the selection is
      cleared. */
  function RemoveSelected(p: Panel, clicked: bool): (r: Panel)
    ensures !clicked || p.selected.None? ==> r == p
    ensures clicked && p.selected.Some? ==>
      && r.selected.None?
      && r.popup == p.popup
      && ContiguousIndices(r.dlls)
      && |r.dlls| == |Without(p.dlls, p.selected.value)|
      && (forall i :: 0 <= i < |r.dlls| ==>
            r.dlls[i].(index := 0) == Without(p.dlls, p.selected.value)[i].(index := 0))
  {
    if clicked && p.selected.Some? then
      Panel(Renumber(Without(p.dlls, p.selected.value)), None, p.popup)
    else p
  }

  // ---------------------------------------------------------------------
  // Clear
  // ---------------------------------------------------------------------

  /** The Clear button empties the list and clears the selection. */
  function ClearAll(p: Panel, clicked: bool): (r: Panel)
    ensures clicked ==> r.dlls == [] && r.selected.None? && r.popup == p.popup
    ensures !clicked ==> r == p
  {
    if clicked then p.(dlls := [], selected := None) else p
  }

  // ---------------------------------------------------------------------
  // Enable / disable
  // ---------------------------------------------------------------------

  /** `iter_mut().find(|dll| dll.index == k)`: the first position numbered k. */
  function FirstWithIndex(s: seq<DllInfo>, k: nat): (r: Option<nat>)
    ensures r.Some? ==> r.value < |s| && s[r.value].index == k
    ensures r.Some? ==> forall j :: 0 <= j < r.value ==> s[j].index != k
    ensures r.None? ==> forall j :: 0 <= j < |s| ==> s[j].index != k
    decreases |s|
  {
    if s == [] then None
    else if s[0].index == k then Some(0)
    else match FirstWithIndex(s[1..], k)
      case None => None
      case Some(i) => Some(i + 1)
  }

  /** Flip the switch of the first row numbered k. */
  function FlipFirst(s: seq<DllInfo>, k: nat): (r: seq<DllInfo>)
    ensures |r| == |s|
    ensures FirstWithIndex(s, k).None? ==> r == s
    ensures FirstWithIndex(s, k).Some? ==>
      var i := FirstWithIndex(s, k).value;
      && r[i] == s[i].(switch := !s[i].switch)
      && forall j :: 0 <= j < |s| && j != i ==> r[j] == s[j]
    decreases |s|
  {
    if s == [] then []
    else if s[0].index == k then [s[0].(switch := !s[0].switch)] + s[1..]
    else [s[0]] + FlipFirst(s[1..], k)
  }

  /** The Enable/Disable button: flips the switch of the selected row and
      changes nothing else, not even the selection. */
  function ToggleSelected(p: Panel, clicked: bool): (r: Panel)
    ensures r.selected == p.selected && r.popup == p.popup && |r.dlls| == |p.dlls|
    ensures !clicked || p.selected.None? ==> r == p
    ensures clicked && p.selected.Some? ==> r.dlls == FlipFirst(p.dlls, p.selected.value)
    ensures forall i :: 0 <= i < |p.dlls| ==> r.dlls[i].(switch := false) == p.dlls[i].(switch := false)
  {
    if clicked && p.selected.Some? then p.(dlls := FlipFirst(p.dlls, p.selected.value)) else p
  }

  // ---------------------------------------------------------------------
  // One frame of `ui_function`: the four buttons in row order.
  // ---------------------------------------------------------------------

  datatype Clicks = Clicks(add: bool, picked: Option<PickedFile>, toggle: bool, remove: bool, clear: bool)

  function PanelFrame(p: Panel, c: Clicks): Panel
  {
    ClearAll(RemoveSelected(ToggleSelected(AddDll(p, c.add, c.picked), c.toggle), c.remove), c.clear)
  }

  /** A whole frame of the four buttons keeps the invariant. */
  lemma PanelFramePreservesValid(p: Panel, c: Clicks)
    requires Valid(p)
    ensures Valid(PanelFrame(p, c))
  {
    var p1 := AddDll(p, c.add, c.picked);
    var p2 := ToggleSelected(p1, c.toggle);
    AddPreservesValid(p, c.add, c.picked);
    TogglePreservesValid(p1, c.toggle);
    RemovePreservesValid(p2, c.remove);
    ClearPreservesValid(RemoveSelected(p2, c.remove), c.clear);
  }

  // ---------------------------------------------------------------------
  // Properties
  // ---------------------------------------------------------------------

  /** Adding a path that is already listed leaves the list as it was. */
  lemma AddDuplicateRejected(p: Panel, f: PickedFile)
    requires PathListed(p.dlls, f.path)
    ensures AddDll(p, true, Some(f)).dlls == p.dlls
    ensures AddDll(p, true, Some(f)).popup
  {
  }

  lemma {:induction false} AddPreservesValid(p: Panel, clicked: bool, picked: Option<PickedFile>)
    requires Valid(p)
    ensures Valid(AddDll(p, clicked, picked))
  {
    var r := AddDll(p, clicked, picked);
    if clicked && picked.Some? && !PathListed(p.dlls, picked.value.path) {
      forall i, j | 0 <= i < j < |r.dlls|
        ensures r.dlls[i].dllPath != r.dlls[j].dllPath
      {
        assert r.dlls[i] == p.dlls[i];
        if j < |p.dlls| {
          assert r.dlls[j] == p.dlls[j];
        }
      }
      forall i | 0 <= i < |r.dlls|
        ensures r.dlls[i].index == i + 1
      {
        if i < |p.dlls| {
          assert r.dlls[i] == p.dlls[i];
        }
      }
    }
  }

  /** Adding the same file twice in a row grows the list by one entry only. */
  lemma AddTwiceSameAsOnce(p: Panel, f: PickedFile)
    ensures AddDll(AddDll(p, true, Some(f)), true, Some(f)).dlls == AddDll(p, true, Some(f)).dlls
  {
    var r := AddDll(p, true, Some(f));
    if !PathListed(p.dlls, f.path) {
      assert r.dlls[|p.dlls|].dllPath == f.path;
    }
  }

  lemma {:induction false} WithoutDistinct(s: seq<DllInfo>, k: nat)
    requires DistinctPaths(s)
    ensures DistinctPaths(Without(s, k))
    decreases |s|
  {
    if s != [] {
      assert DistinctPaths(s[1..]) by {
        forall i, j | 0 <= i < j < |s[1..]|
          ensures s[1..][i].dllPath != s[1..][j].dllPath
        {
          assert s[1..][i] == s[i + 1] && s[1..][j] == s[j + 1];
        }
      }
      WithoutDistinct(s[1..], k);
      if s[0].index != k {
        var t := Without(s[1..], k);
        forall j | 0 <= j < |t|
          ensures s[0].dllPath != t[j].dllPath
        {
          assert t[j] in s[1..];
          var m :| 0 <= m < |s[1..]| && s[1..][m] == t[j];
          assert s[m + 1] == t[j];
        }
      }
    }
  }

  lemma RemovePreservesValid(p: Panel, clicked: bool)
    requires Valid(p)
    ensures Valid(RemoveSelected(p, clicked))
  {
    if clicked && p.selected.Some? {
      var kept := Without(p.dlls, p.selected.value);
      WithoutDistinct(p.dlls, p.selected.value);
      var r := Renumber(kept);
      assert forall i :: 0 <= i < |r| ==> r[i].dllPath == kept[i].dllPath;
    }
  }

  lemma {:induction false} WithoutAppend(a: seq<DllInfo>, b: seq<DllInfo>, k: nat)
    ensures Without(a + b, k) == Without(a, k) + Without(b, k)
    decreases |a|
  {
    if a == [] {
      assert a + b == b;
    } else {
      assert (a + b)[0] == a[0];
      assert (a + b)[1..] == a[1..] + b;
      WithoutAppend(a[1..], b, k);
    }
  }

  lemma {:induction false} WithoutAbsent(s: seq<DllInfo>, k: nat)
    requires forall i :: 0 <= i < |s| ==> s[i].index != k
    ensures Without(s, k) == s
    decreases |s|
  {
    if s != [] {
      WithoutAbsent(s[1..], k);
    }
  }

  /** Under the invariant, removing row k is deleting position k - 1 and
      re-numbering: exactly one entry goes. */
  lemma RemoveDeletesOneRow(p: Panel)
    requires Valid(p) && p.selected.Some?
    ensures var k := p.selected.value;
      && RemoveSelected(p, true).dlls == Renumber(p.dlls[..k - 1] + p.dlls[k..])
      && |RemoveSelected(p, true).dlls| == |p.dlls| - 1
  {
    WithoutNumbered(p.dlls, p.selected.value);
  }

  /** In a contiguously numbered list, row k sits alone at position k - 1. */
  lemma WithoutNumbered(s: seq<DllInfo>, k: nat)
    requires ContiguousIndices(s) && 1 <= k <= |s|
    ensures Without(s, k) == s[..k - 1] + s[k..]
  {
    var front, x, back := s[..k - 1], s[k - 1], s[k..];
    NumberedBeforeAbsent(s, k);
    NumberedAfterAbsent(s, k);
    SplitAround(s, k - 1);
    WithoutAroundOne(front, x, back, k);
  }

  /** Removing the rows numbered k from `a + [x] + b`, when only x has that
      number, leaves `a + b`. */
  lemma WithoutAroundOne(a: seq<DllInfo>, x: DllInfo, b: seq<DllInfo>, k: nat)
    requires x.index == k && Without(a, k) == a && Without(b, k) == b
    ensures Without(a + [x] + b, k) == a + b
  {
    var ax := a + [x];
    WithoutAppend(ax, b, k);
    WithoutAppend(a, [x], k);
    WithoutNumberedSingleton(x, k);
    assert Without(ax, k) == a;
  }

  lemma WithoutNumberedSingleton(x: DllInfo, k: nat)
    requires x.index == k
    ensures Without([x], k) == []
  {
    assert [x][1..] == [];
  }

  lemma NumberedBeforeAbsent(s: seq<DllInfo>, k: nat)
    requires ContiguousIndices(s) && 1 <= k <= |s|
    ensures Without(s[..k - 1], k) == s[..k - 1]
  {
    var front := s[..k - 1];
    forall i | 0 <= i < |front| ensures front[i].index != k {
      assert front[i] == s[i];
    }
    WithoutAbsent(front, k);
  }

  lemma NumberedAfterAbsent(s: seq<DllInfo>, k: nat)
    requires ContiguousIndices(s) && 1 <= k <= |s|
    ensures Without(s[k..], k) == s[k..]
  {
    var back := s[k..];
    forall i | 0 <= i < |back| ensures back[i].index != k {
      assert back[i] == s[k + i];
    }
    WithoutAbsent(back, k);
  }

  /** After removing the selected row its path is no longer listed. */
  lemma RemoveForgetsPath(p: Panel)
    requires Valid(p) && p.selected.Some?
    ensures !PathListed(RemoveSelected(p, true).dlls, p.dlls[p.selected.value - 1].dllPath)
  {
    var s, k := p.dlls, p.selected.value;
    RemoveDeletesOneRow(p);
    var t := s[..k - 1] + s[k..];
    var r := Renumber(t);
    forall i | 0 <= i < |r|
      ensures r[i].dllPath != s[k - 1].dllPath
    {
      assert r[i].dllPath == t[i].dllPath;
      if i < k - 1 {
        assert t[i] == s[i];
      } else {
        assert t[i] == s[i + 1];
      }
    }
  }

  lemma ClearPreservesValid(p: Panel, clicked: bool)
    requires Valid(p)
    ensures Valid(ClearAll(p, clicked))
    ensures clicked ==> ClearAll(p, clicked) == EmptyPanel.(popup := p.popup)
  {
  }

  lemma TogglePreservesValid(p: Panel, clicked: bool)
    requires Valid(p)
    ensures Valid(ToggleSelected(p, clicked))
  {
    var r := ToggleSelected(p, clicked);
    assert forall i :: 0 <= i < |p.dlls| ==> r.dlls[i].dllPath == p.dlls[i].dllPath && r.dlls[i].index == p.dlls[i].index;
  }

  /** Under the invariant the Enable/Disable button flips exactly the
      selected row k, at position k - 1. */
  lemma ToggleFlipsSelectedRow(p: Panel)
    requires Valid(p) && p.selected.Some?
    ensures var k := p.selected.value; var r := ToggleSelected(p, true);
      && r.dlls[k - 1].switch == !p.dlls[k - 1].switch
      && forall j :: 0 <= j < |p.dlls| && j != k - 1 ==> r.dlls[j] == p.dlls[j]
  {
    var k := p.selected.value;
    var i := FirstWithIndex(p.dlls, k);
    assert p.dlls[k - 1].index == k;
    assert i.Some?;
  }

  /** Pressing Enable/Disable twice restores the list. */
  lemma {:induction false} FlipFirstTwice(s: seq<DllInfo>, k: nat)
    ensures FlipFirst(FlipFirst(s, k), k) == s
    decreases |s|
  {
    if s != [] && s[0].index != k {
      FlipFirstTwice(s[1..], k);
      assert FlipFirst(s, k)[1..] == FlipFirst(s[1..], k);
    }
  }

  lemma ToggleTwiceIdentity(p: Panel, clicked: bool)
    ensures ToggleSelected(ToggleSelected(p, clicked), clicked) == p
  {
    if clicked && p.selected.Some? {
      FlipFirstTwice(p.dlls, p.selected.value);
    }
  }

  /** Under the invariant the default record, shown when nothing is
      selected, is never one of the listed rows (its index is 0). */
  lemma DefaultNotListed(p: Panel)
    requires Valid(p)
    ensures DefaultDll !in p.dlls
  {
  }
}
