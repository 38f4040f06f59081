/** The inject-list table `dll_list_table`: clicking a row's checkbox or
    one of its labels, and the detail label under the table, which reads
    `c[selected_row - 1]` and so relies on the inject-list invariant. */
module DllTable {
  import opened Basics
  import opened DllList

  /** Clicking the name, architecture or path label of row i selects it. */
  function ClickRowLabel(p: Panel, i: nat): (r: Panel)
    requires i < |p.dlls|
    ensures r.dlls == p.dlls && r.popup == p.popup
    ensures r.selected == Some(p.dlls[i].index)
  {
    p.(selected := Some(p.dlls[i].index))
  }

  /** Clicking the ON/OFF checkbox of row i flips that row's switch and
      selects the row. */
  function ClickCheckbox(p: Panel, i: nat): (r: Panel)
    requires i < |p.dlls|
    ensures |r.dlls| == |p.dlls| && r.popup == p.popup
    ensures r.selected == Some(p.dlls[i].index)
    ensures r.dlls[i].switch == !p.dlls[i].switch
    ensures r.dlls[i].(switch := false) == p.dlls[i].(switch := false)
    ensures forall j :: 0 <= j < |p.dlls| && j != i ==> r.dlls[j] == p.dlls[j]
  {
    var d := p.dlls[i];
    Panel(p.dlls[i := d.(switch := !d.switch)], Some(d.index), p.popup)
  }

  /** The detail label: the selected row's record, or the default record
      when nothing is selected; `None` stands for the panic of an
      out-of-range `c[k - 1]` (including the underflow of `0 - 1`). */
  function SelectedDetail(p: Panel): (r: Option<DllInfo>)
    ensures p.selected.None? ==> r == Some(DefaultDll)
    ensures p.selected.Some? ==> (r.Some? <==> 1 <= p.selected.value <= |p.dlls|)
    ensures p.selected.Some? && r.Some? ==> r.value == p.dlls[p.selected.value - 1]
  {
    match p.selected
    case None => Some(DefaultDll)
    case Some(k) => if 1 <= k <= |p.dlls| then Some(p.dlls[k - 1]) else None
  }

  /** Row clicks keep the inject-list invariant. */
  lemma ClicksPreserveValid(p: Panel, i: nat)
    requires Valid(p) && i < |p.dlls|
    ensures Valid(ClickRowLabel(p, i))
    ensures Valid(ClickCheckbox(p, i))
  {
    var r := ClickCheckbox(p, i);
    assert forall j :: 0 <= j < |p.dlls| ==> r.dlls[j].dllPath == p.dlls[j].dllPath && r.dlls[j].index == p.dlls[j].index;
  }

  /** Under the invariant, the checkbox does what selecting the row and
      pressing Enable/Disable does. */
  lemma CheckboxIsSelectThenToggle(p: Panel, i: nat)
    requires Valid(p) && i < |p.dlls|
    ensures ClickCheckbox(p, i) == ToggleSelected(ClickRowLabel(p, i), true)
  {
    var q := ClickRowLabel(p, i);
    assert Valid(q);
    ToggleFlipsSelectedRow(q);
    var a, b := ClickCheckbox(p, i), ToggleSelected(q, true);
    assert a.dlls == b.dlls;
  }

  /** The detail label never indexes out of range while the invariant holds,
      and it shows the row whose number is the selection. */
  lemma DetailInRange(p: Panel)
    requires Valid(p)
    ensures SelectedDetail(p).Some?
    ensures p.selected.Some? ==> SelectedDetail(p).value.index == p.selected.value
    ensures p.selected.Some? ==> SelectedDetail(p).value != DefaultDll
  {
  }

  /** Without the invariant the label can panic: selection 0, or a
      selection past the last row, names no row. */
  lemma DetailOutOfRangeWithoutInvariant(p: Panel, k: nat)
    requires p.selected == Some(k) && (k == 0 || k > |p.dlls|)
    ensures SelectedDetail(p).None?
  {
  }
}
