/** Choosing the target process: the three selection methods (process-name
    combo box, PID combo box, PID text box).  The state is the process list
    and `current_process_selected_index`; when the typed PID is not found
    the source re-enumerates processes, and the fresh list is an input. */
module Selection {
  import opened Basics
  import opened Text
  import opened ProcessFilter

  /** `ProcessSelectionMethod`: which radio button is on. */
  datatype SelectionMethod = ByProcessName | ByPID | ByPIDInput

  /** The process list and the index of the selected process in it. */
  datatype Target = Target(procs: seq<Process>, current: nat)

  /** `iter().position(|x| x.pid == pid)`. */
  function FirstWithPid(procs: seq<Process>, pid: u32): (r: Option<nat>)
    ensures r.Some? ==> r.value < |procs| && procs[r.value].pid == pid
    ensures r.Some? ==> forall j :: 0 <= j < r.value ==> procs[j].pid != pid
    ensures r.None? ==> forall j :: 0 <= j < |procs| ==> procs[j].pid != pid
    decreases |procs|
  {
    if procs == [] then None
    else if procs[0].pid == pid then Some(0)
    else match FirstWithPid(procs[1..], pid)
      case None => None
      case Some(i) => Some(i + 1)
  }

  // ---------------------------------------------------------------------
  // The PID text box
  // ---------------------------------------------------------------------

  /** `chars().filter(|c| c.is_ascii_digit())`. */
  function Digits(s: string): (r: string)
    ensures AllDigits(r)
    ensures IsSubsequence(r, s)
    ensures |r| == DigitCount(s)
    ensures AllDigits(s) ==> r == s
    decreases |s|
  {
    if s == [] then []
    else if IsAsciiDigit(s[0]) then [s[0]] + Digits(s[1..])
    else Digits(s[1..])
  }

  /** How many ASCII digits `s` holds. */
  function DigitCount(s: string): nat
    decreases |s|
  {
    if s == [] then 0 else (if IsAsciiDigit(s[0]) then 1 else 0) + DigitCount(s[1..])
  }

  /** The sanitising step `.filter(is_ascii_digit).take(6).collect()`: the
      first six digits of the text, or all of them when there are fewer. */
  function SanitizePid(s: string): (r: string)
    ensures AllDigits(r)
    ensures |r| <= 6
    ensures IsSubsequence(r, s)
    ensures IsPrefix(r, Digits(s))
    ensures |r| == if |Digits(s)| <= 6 then |Digits(s)| else 6
    ensures AllDigits(s) && |s| <= 6 ==> r == s
  {
    var d := Digits(s);
    var r := if |d| <= 6 then d else d[..6];
    PrefixIsSubsequence(r, d);
    SubsequenceTransitive(r, d, s);
    r
  }

  /** Sanitising twice is sanitising once. */
  lemma SanitizeIdempotent(s: string)
    ensures SanitizePid(SanitizePid(s)) == SanitizePid(s)
  {
  }

  /** Sanitising keeps as many digits as the text has, up to six: nothing
      but non-digits and digits after the sixth is dropped. */
  lemma SanitizeLength(s: string)
    ensures |SanitizePid(s)| == if DigitCount(s) <= 6 then DigitCount(s) else 6
  {
  }

  /** What the PID text selects: with the text-box method on and a text
      that parses as a `u32`, the first process with that pid becomes the
      selection; if none has it, the process list is replaced by a fresh
      enumeration and the index is left as it was.  Otherwise nothing
      changes. */
  function PidInputLookup(mode: SelectionMethod, text: string, t: Target, refreshed: seq<Process>): (r: Target)
    ensures mode != ByPIDInput || ParseU32(text).None? ==> r == t
    ensures mode == ByPIDInput && ParseU32(text).Some? ==>
      var pid := ParseU32(text).value;
      if exists i :: 0 <= i < |t.procs| && t.procs[i].pid == pid then
        && r.procs == t.procs
        && r.current < |t.procs| && t.procs[r.current].pid == pid
        && (forall j :: 0 <= j < r.current ==> t.procs[j].pid != pid)
      else
        r == Target(refreshed, t.current)
  {
    if mode == ByPIDInput then
      match ParseU32(text)
      case None => t
      case Some(pid) =>
        match FirstWithPid(t.procs, pid)
        case Some(i) => t.(current := i)
        case None => Target(refreshed, t.current)
    else t
  }

  /** One frame of the PID-input row: sanitise the text while the box has
      focus, then look it up. */
  function PidInputRow(mode: SelectionMethod, text: string, focused: bool, t: Target, refreshed: seq<Process>)
    : (r: (string, Target))
    ensures focused ==> r.0 == SanitizePid(text)
    ensures focused ==> AllDigits(r.0) && |r.0| <= 6 && IsSubsequence(r.0, text)
    ensures !focused ==> r.0 == text
    ensures r.1 == PidInputLookup(mode, r.0, t, refreshed)
  {
    var text' := if focused then SanitizePid(text) else text;
    (text', PidInputLookup(mode, text', t, refreshed))
  }

  /** With focus, a typed PID that some process has selects that process:
      sanitised text of one to six digits always parses. */
  lemma FocusedInputSelects(text: string, t: Target, refreshed: seq<Process>, i: nat)
    requires DigitCount(text) >= 1
    requires i < |t.procs| && t.procs[i].pid == DecimalValue(SanitizePid(text))
    ensures var r := PidInputRow(ByPIDInput, text, true, t, refreshed).1;
      r.procs == t.procs && r.current <= i && t.procs[r.current].pid == t.procs[i].pid
  {
    var s := SanitizePid(text);
    SanitizeLength(text);
    ParseShortDigits(s);
  }

  /** With focus, a text without digits leaves the selection alone. */
  lemma FocusedNoDigitsNoChange(mode: SelectionMethod, text: string, t: Target, refreshed: seq<Process>)
    requires DigitCount(text) == 0
    ensures PidInputRow(mode, text, true, t, refreshed).1 == t
  {
    SanitizeLength(text);
  }

  /** The selected-process label `process_list[current_process_selected_index]`,
      drawn every frame; `None` stands for the out-of-range panic. */
  function SelectedProcess(t: Target): (r: Option<Process>)
    ensures r.Some? <==> t.current < |t.procs|
    ensures r.Some? ==> r.value == t.procs[t.current] && r.value in t.procs
  {
    if t.current < |t.procs| then Some(t.procs[t.current]) else None
  }

  /** The index is not re-checked after the list is refreshed, so it can
      point past the end of the fresh list and the selected-process label
      then panics: here the third process was selected, an unknown pid is
      typed, and the fresh enumeration has only two processes left. */
  lemma RefreshCanStrandIndex()
    ensures
      var a := Process(4, 0, X64, 64, 0, "C:\\Windows\\System32\\ntoskrnl.exe", "System");
      var b := Process(700, 4, X64, 64, 10, "C:\\Apps\\editor.exe", "editor.exe");
      var c := Process(900, 4, X86, 32, 20, "C:\\Apps\\game.exe", "game.exe");
      var r := PidInputLookup(ByPIDInput, "8", Target([a, b, c], 2), [a, b]);
      r.procs == [a, b] && r.current == 2 && SelectedProcess(r).None?
  {
    var a := Process(4, 0, X64, 64, 0, "C:\\Windows\\System32\\ntoskrnl.exe", "System");
    var b := Process(700, 4, X64, 64, 10, "C:\\Apps\\editor.exe", "editor.exe");
    var c := Process(900, 4, X86, 32, 20, "C:\\Apps\\game.exe", "game.exe");
    assert AllDigits("8");
    assert DecimalValue("8") == 8;
    assert FirstWithPid([a, b, c], 8).None?;
  }

  // ---------------------------------------------------------------------
  // The two combo boxes
  // ---------------------------------------------------------------------

  datatype ComboBox = NameBox | PidBox

  /** The method a combo box answers to. */
  function MethodOf(b: ComboBox): SelectionMethod
  {
    match b
    case NameBox => ByProcessName
    case PidBox => ByPID
  }

  /** What the combo box shows for an entry once chosen: the name, or the
      pid rendered with `to_string`. */
  function ComboText(b: ComboBox, p: Process): string
  {
    match b
    case NameBox => p.name
    case PidBox => ToDecimal(p.pid)
  }

  /** The combo box's text and the selected index after a frame. */
  datatype Choice = Choice(text: string, current: nat)

  /** A click on entry k of a combo box whose method is on: the box shows
      the entry and the selection moves to the first process with the
      entry's pid.  `None` stands for the panic of `position(..).unwrap()`
      when no process has that pid. */
  function ComboSelect(mode: SelectionMethod, b: ComboBox, procs: seq<Process>, c: Choice,
                       shown: seq<Process>, clicked: Option<nat>): (r: Option<Choice>)
    requires clicked.Some? ==> clicked.value < |shown|
    ensures clicked.None? || mode != MethodOf(b) ==> r == Some(c)
    ensures clicked.Some? && mode == MethodOf(b) ==>
      var e := shown[clicked.value];
      && (r.Some? <==> exists i :: 0 <= i < |procs| && procs[i].pid == e.pid)
      && (r.Some? ==> r.value.text == ComboText(b, e)
                      && r.value.current < |procs| && procs[r.value.current].pid == e.pid
                      && forall j :: 0 <= j < r.value.current ==> procs[j].pid != e.pid)
  {
    match clicked
    case None => Some(c)
    case Some(k) =>
      if mode != MethodOf(b) then Some(c)
      else match FirstWithPid(procs, shown[k].pid)
        case None => None
        case Some(i) => Some(Choice(ComboText(b, shown[k]), i))
  }

  /** The combo boxes list filter results, which come from the process list,
      so the `unwrap` never panics. */
  lemma ComboNeverPanics(mode: SelectionMethod, b: ComboBox, procs: seq<Process>, c: Choice,
                         sys32: string, wow64: string, shown: seq<Process>, k: nat)
    requires IsFilterResult(procs, sys32, wow64, shown)
    requires k < |shown|
    ensures ComboSelect(mode, b, procs, c, shown, Some(k)).Some?
  {
    assert OnlyShown(procs, sys32, wow64, shown);
    assert shown[k] in procs;
  }

  /** After a choice in the PID combo box, its text parses back to the
      selected process's pid, the same value the PID text box would use. */
  lemma PidComboTextParses(procs: seq<Process>, c: Choice, shown: seq<Process>, k: nat)
    requires k < |shown|
    requires ComboSelect(ByPID, PidBox, procs, c, shown, Some(k)).Some?
    ensures var r := ComboSelect(ByPID, PidBox, procs, c, shown, Some(k)).value;
      ParseU32(r.text) == Some(procs[r.current].pid)
  {
    ParseToDecimalRoundTrip(shown[k].pid);
  }
}
