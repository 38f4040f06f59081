# RustedDLLInjector core, modelled in Dafny

RustedDLLInjector is a Windows GUI tool (egui) that injects DLL files into a
running process. It has two parts. The **inject list** is an ordered table of
libraries. Each row has an ON/OFF switch, a file name, an architecture label
read from the PE header, a path and a 1-based row number. The **process
picker** chooses a target process in one of three ways: a combo box by process
name, a combo box by PID, or a PID typed into a text box. The
"Inject DLL into selected process" button then tries every switched-on library
against the chosen process.

This project models the logic behind those widgets as pure Dafny functions over
immutable state. One widget event becomes one function of the old state. The
repository has two revisions of the same code: the newer `src/dll_info.rs` and
`src/injector_app.rs`, and the older `src/DllInfo.rs` and `src/InjectorApp.rs`.
They behave the same in every modelled respect. The table below cites the newer
revision. The matching older lines are:

- `DllInfo.rs`: default record 33-43, architecture 47-57, remove 60-77, clear
  79-89, enable/disable 92-102, add 105-148.
- `InjectorApp.rs`: filter 58-83, table 159-230, sorts 277 and 354, combo
  boxes 283-309 and 359-383, PID text box 428-457, inject button 480-495,
  `inject_dll` 521-542.

Modules, one per file:

- `Basics` (`basics.dfy`): `u16`, `u32`, `Option`, prefix and subsequence
  relations.
- `Text` (`text.dfy`):
  - `char::is_ascii_digit`;
  - the ordering of `String`;
  - `u32::to_string`, as `ToDecimal`;
  - `str::parse::<u32>`, as `ParseU32`.
- `PeMachine` (`pe_machine.dfy`): `get_dll_architecture`, from the Machine word
  to its label.
- `DllList` (`dll_list.dfy`):
  - the `DllInfo` record and the panel state (list, selected row, popup flag);
  - the Add, Enable/Disable, Remove and Clear buttons;
  - the invariant they keep: row i is numbered i + 1, paths are distinct, and
    a selection names an existing row.
- `DllTable` (`dll_table.dfy`): the checkbox and label clicks of
  `dll_list_table`, and its detail label.
- `ProcessFilter` (`process_filter.dfy`):
  `filter_system_services_and_daemon_processes`.
- `ProcessSort` (`process_sort.dfy`): `sort_by_key` by name and by pid for the
  two combo boxes.
- `Selection` (`selection.dfy`): the three ways to select a process, and the
  selected-process label.
- `Inject` (`inject.dfy`): `inject_dll` and the inject button's loop.

## Model

| member | source | states |
|---|---|---|
| Text.StrLeTotal | src/injector_app.rs:207 | Any two names are comparable in `String`'s order, which sorting by name relies on. |
| Text.StrLeTransitive | src/injector_app.rs:207 | The name order is transitive. |
| Text.StrLeAntisymmetric | src/injector_app.rs:207 | Two names that are each ≤ the other are equal, so the name order is total on distinct names. |
| Text.ToDecimal | src/injector_app.rs:292 | `pid.to_string()` is non-empty, all ASCII digits, and has no leading zero unless it is "0". |
| Text.DecimalValueOfToDecimal | src/injector_app.rs:292 | The digits `to_string` produces denote the number they were made from. |
| Text.ParseU32 | src/injector_app.rs:377 | `parse::<u32>` succeeds only on ASCII digits, optionally after one leading '+', which it ignores. It fails on empty text. On an all-digit text it succeeds with that text's decimal value exactly when the value is below 2^32. |
| Text.ParseToDecimalRoundTrip | src/injector_app.rs:292 | Parsing the PID combo box's `to_string` text gives the pid back. |
| Text.ParseShortDigits | src/injector_app.rs:367-377 | One to six ASCII digits always parse, to a value below 1 000 000. |
| PeMachine.Classify | src/dll_info.rs:60-66 | Each of the four matched Machine words gets its own arm, and every other word falls to the default arm, in both directions. |
| PeMachine.ArchLabel | src/dll_info.rs:57-67 | 0x8664 → "x64/AMD64", 0x014c → "x86/I386", 0x0200 → "x64/IA64", 0x0100 → "x32/32BIT", anything else → "unknown". |
| PeMachine.LabelInjective | src/dll_info.rs:61-65 | Distinct architectures get distinct labels. |
| PeMachine.ClassifyRoundTrip | src/dll_info.rs:60-66 | A recognised architecture and its Machine word map to each other. |
| PeMachine.UnknownLabelExactly | src/dll_info.rs:65 | The label is "unknown" exactly when no arm recognises the Machine word. |
| DllList.ContainsPath | src/dll_info.rs:155 | The duplicate check is true exactly when some row has the same path. |
| DllList.AddDll | src/dll_info.rs:142-170 | A listed path raises the popup and leaves list and selection unchanged. A new path is appended, switched off, numbered n + 1 and labelled from its Machine word. Other rows keep their values. |
| DllList.AcknowledgePopup | src/dll_info.rs:174-185 | OK lowers the popup flag and touches nothing else. |
| DllList.AddPreservesValid | src/dll_info.rs:133-186 | Adding keeps the rows numbered 1..n and the paths distinct. |
| DllList.AddDuplicateRejected | src/dll_info.rs:155-168 | Adding a listed path changes no row and shows the popup. |
| DllList.AddTwiceSameAsOnce | src/dll_info.rs:155-165 | Picking the same file twice adds one row. |
| DllList.Without | src/dll_info.rs:81 | `retain` keeps only rows with another number, keeps every such row, and keeps their original order. |
| DllList.WithoutCounts | src/dll_info.rs:81 | Every copy of a row with another number survives `retain`, and no copy of a row numbered k does. |
| DllList.Renumber | src/dll_info.rs:87-89 | Renumbering sets row i to i + 1 and changes no other field. |
| DllList.RemoveSelected | src/dll_info.rs:78-91 | With a selection k, the remaining rows are those not numbered k, in order. They are renumbered 1..m and the selection is cleared. Without a selection, nothing happens. |
| DllList.RemovePreservesValid | src/dll_info.rs:69-92 | Removing keeps the inject-list invariant. |
| DllList.RemoveDeletesOneRow | src/dll_info.rs:78-91 | Under the invariant, removing row k deletes exactly position k - 1 and renumbers the rest. |
| DllList.RemoveForgetsPath | src/dll_info.rs:78-91 | After removing, the removed row's path is no longer listed. |
| DllList.ClearAll | src/dll_info.rs:103-109 | Clear empties the list, clears the selection and leaves the popup flag. |
| DllList.ClearPreservesValid | src/dll_info.rs:94-110 | Clearing gives the empty, valid panel. |
| DllList.FirstWithIndex | src/dll_info.rs:123-125 | `find` gives the first row with the number, or none if no row has it. |
| DllList.FlipFirst | src/dll_info.rs:123-127 | Only the first row with the number has its switch flipped. |
| DllList.ToggleSelected | src/dll_info.rs:121-130 | Enable/Disable flips one switch and changes no other field, the length or the selection. |
| DllList.TogglePreservesValid | src/dll_info.rs:112-131 | Enable/Disable keeps the invariant. |
| DllList.ToggleFlipsSelectedRow | src/dll_info.rs:121-130 | Under the invariant, the flipped row is position k - 1 of selection k. |
| DllList.ToggleTwiceIdentity | src/dll_info.rs:121-130 | Pressing Enable/Disable twice restores the panel. |
| DllList.PanelFramePreservesValid | src/dll_info.rs:188-237 | A frame of the four buttons in row order (Add, Enable/Disable, Remove, Clear) keeps the invariant when it held before the frame. |
| DllList.DefaultNotListed | src/dll_info.rs:38-47 | The default record (index 0) is never a row of a valid list. |
| DllTable.ClickRowLabel | src/injector_app.rs:123-140 | Clicking a name, arch or path label selects that row's number and changes nothing else. |
| DllTable.ClickCheckbox | src/injector_app.rs:117-122 | The checkbox flips that row's switch, selects it, and leaves the other rows unchanged. |
| DllTable.ClicksPreserveValid | src/injector_app.rs:114-142 | Row clicks keep the invariant. |
| DllTable.CheckboxIsSelectThenToggle | src/injector_app.rs:117-122 | Under the invariant, a checkbox click equals selecting the row and then pressing Enable/Disable. |
| DllTable.SelectedDetail | src/injector_app.rs:146-151 | The detail shows the default record with no selection. With selection k it shows `c[k - 1]`, and it panics exactly when k is not in 1..n. |
| DllTable.DetailInRange | src/injector_app.rs:147-151 | Under the invariant, the detail never panics and shows the row numbered k. |
| DllTable.DetailOutOfRangeWithoutInvariant | src/injector_app.rs:148 | For every panel, selection 0 or a selection past the last row makes the detail panic. |
| ProcessFilter.Passing | src/injector_app.rs:57-64 | A process passes exactly when it is listed and its path is not under System32, or is under SysWOW64. |
| ProcessFilter.KeepSpec | src/injector_app.rs:65-75 | The map holds exactly the names that passed. Each name maps to its lowest-ppid process, the first one on ties. |
| ProcessFilter.BuildNameMap | src/injector_app.rs:55-75 | The loop builds that map. |
| ProcessFilter.CollectValues | src/injector_app.rs:78 | Collecting lists every value of the map exactly once. |
| ProcessFilter.FilterSystemProcesses | src/injector_app.rs:49-79 | The result has one process per passing name. It is that name's first lowest-ppid passing process. |
| ProcessFilter.MapValuesAreFilterResult | src/injector_app.rs:77-78 | Any listing of the map's values is a filter result. |
| ProcessFilter.FilterResultUnique | src/injector_app.rs:49-79 | Any two filter results hold the same processes, so only the order depends on the HashMap. |
| ProcessSort.Insert | src/injector_app.rs:207 | Inserting keeps a list sorted and adds exactly one element. |
| ProcessSort.SortBy | src/injector_app.rs:207 | `sort_by_key` returns a sorted permutation of its input. |
| ProcessSort.NameComboEntries | src/injector_app.rs:206-207 | The process-name box lists a filter result sorted by name. |
| ProcessSort.PidComboEntries | src/injector_app.rs:285-286 | The PID box lists a filter result sorted by pid. |
| ProcessSort.SortedKeepsFilterResult | src/injector_app.rs:206-207 | A permutation of a filter result is a filter result. |
| ProcessSort.SortedByNameUnique | src/injector_app.rs:207 | Two name-sorted lists with distinct names and the same members are equal. |
| ProcessSort.NameComboDeterministic | src/injector_app.rs:206-207 | The process-name box's order does not depend on the HashMap's iteration order. |
| Selection.FirstWithPid | src/injector_app.rs:378 | `position` gives the first process with the pid, or none if no process has it. |
| Selection.Digits | src/injector_app.rs:370-371 | The filter yields a subsequence of the input that is all digits and has as many characters as the input has digits, so it is exactly the input's digits in order. |
| Selection.SanitizePid | src/injector_app.rs:367-374 | The sanitised text is the first min(6, n) of the input's n digits: a prefix of the digit filter's output, of that length. A text that is already clean is unchanged. |
| Selection.SanitizeLength | src/injector_app.rs:370-372 | Sanitising keeps min(6, number of digits) characters. |
| Selection.SanitizeIdempotent | src/injector_app.rs:367-374 | Sanitising twice equals sanitising once. |
| Selection.PidInputLookup | src/injector_app.rs:376-385 | With the text-box method on and a parsing text, a pid that is present selects its first position. An absent pid swaps in a fresh process list and keeps the index. Otherwise nothing changes. |
| Selection.PidInputRow | src/injector_app.rs:360-385 | While focused, the text becomes its sanitised form; otherwise it is kept. The lookup uses the resulting text. |
| Selection.FocusedInputSelects | src/injector_app.rs:367-380 | A focused text with some digit, whose sanitised value some process has, selects the first such process and keeps the list. |
| Selection.FocusedNoDigitsNoChange | src/injector_app.rs:367-377 | A focused text without digits leaves the selection alone. |
| Selection.SelectedProcess | src/injector_app.rs:407 | The selected-process label shows `process_list[index]`, and it panics exactly when the index is out of range. |
| Selection.RefreshCanStrandIndex | src/injector_app.rs:376-385 | With the third of three processes selected, an unknown pid swaps in a fresh list of two. The kept index 2 is then past its end, and the label panics. |
| Selection.ComboSelect | src/injector_app.rs:212-231 | Both combo boxes, the name box here and the PID box at lines 291-311: clicking entry e with this box's method on shows e's name, or its pid text, and selects the first process with e's pid, no earlier process having it. It panics exactly when no process has that pid. |
| Selection.ComboNeverPanics | src/injector_app.rs:219-221 | Entries come from the filter, so the `unwrap` always finds the pid. |
| Selection.PidComboTextParses | src/injector_app.rs:292-305 | After a PID-box choice, the box's text parses back to the selected process's pid. |
| Inject.InjectDll | src/injector_app.rs:490-509 | `inject_dll` logs the path, then an info or error line that matches the outcome, and returns `Ok` for every outcome. |
| Inject.Enabled | src/injector_app.rs:449-450 | Only switched-on rows, every switched-on row, in list order. |
| Inject.EnabledCounts | src/injector_app.rs:449-450 | Every copy of a switched-on row is kept, and no copy of another row. |
| Inject.InjectButton | src/injector_app.rs:444-458 | A click panics exactly when the index is out of range. Otherwise it makes one attempt per switched-on row, in order, against the selected pid, and prints each as a success. |
| Inject.NoEnabledNoAttempts | src/injector_app.rs:449-450 | With every switch off, nothing is injected. |
| Inject.EnabledDistinctPaths | src/injector_app.rs:449-452 | Under the invariant, no path is injected twice in one click. |

## Left out

- Injection itself (`OwnedProcess::from_pid`, `Syringe::inject`): foreign code. Its outcome is a function parameter of `InjectDll`.
- The file dialog and PE parsing: I/O. The picked path, file name and Machine word are inputs. The `expect` panics on unreadable or non-PE files are not modelled.
- `file_name().to_string_lossy()` and `to_string_lossy()` on the path: the lossy UTF-8 conversion is not modelled. Names and paths are Dafny strings.
- Process enumeration (`get_process_list`, `libmem`): I/O. A refreshed list is an input where the source re-enumerates.
- The "Update process list" button and the refresh on clicking a combo box: they only replace the list with a fresh enumeration, which is I/O.
- The `SystemRoot` environment variable and `PathBuf::push`: the two directory strings are inputs of the filter.
- The HashMap's iteration order: left open, by nondeterministic choice in `ProcessFilter.CollectValues`. It is proved irrelevant for the process-name box.
- `char_limit(6)` on the PID text box: egui cuts typed or pasted text to six characters before the sanitising runs, so it decides which digits of a paste such as "12a34567" survive. The model takes the text after editing as the input of `PidInputRow`, so this truncation happens before the model starts.
- egui rendering, layout, tooltips, emoji widgets, logging to the console, `obfstr`: presentation only. The console lines the inject loop prints are recorded as `Attempt.printedSuccess`.
- The detail label reads a copy `c` taken after the four list buttons have run and before the table's row clicks. `SelectedDetail` is stated for a given panel; the lag behind that frame's row clicks is not modelled.
- Frame-to-frame repetition: a PID that is not found refreshes the list once per frame. The model describes a single frame.
- DllList.AddDll: `dll_list_vector.len() + 1` could overflow `usize` in principle; indices are unbounded `nat`.
- ProcessSort.SortBy: `sort_by_key` is stable. The contract states sortedness and permutation, not stability.
- PeMachine.Classify: `IMAGE_FILE_32BIT_MACHINE` (0x0100) is a Characteristics flag in the PE format. The code compares it against the Machine word, and so does the model.
