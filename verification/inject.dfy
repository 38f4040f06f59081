/** The "Inject DLL into selected process" button and `inject_dll`.  The
    injection itself (`OwnedProcess::from_pid`, `Syringe::inject`) is outside
    the model: its outcome for a pid and a path is a function parameter. */
module Inject {
  import opened Basics
  import opened ProcessFilter
  import opened DllList

  /** What opening the process and injecting the library came to. */
  datatype SyringeOutcome = OpenFailed | InjectFailed | Injected

  /** The `log` events `inject_dll` emits. */
  datatype LogEvent =
    | DllPathEvent(path: string)
    | InjectedEvent(path: string)
    | InjectFailedEvent(path: string)
    | OpenFailedEvent(pid: u32)

  datatype LogLevel = Info | Error

  datatype LogLine = LogLine(level: LogLevel, event: LogEvent)

  /** `Result<(), String>`. */
  datatype InjectResult = Ok | Err(message: string)

  datatype Report = Report(result: InjectResult, log: seq<LogLine>)

  /** `inject_dll`: logs the path, then the outcome, and returns `Ok(())`
      whatever the outcome was. */
  function InjectDll(pid: u32, path: string, syringe: (u32, string) -> SyringeOutcome): (r: Report)
    ensures r.result == Ok
    ensures |r.log| == 2 && r.log[0] == LogLine(Info, DllPathEvent(path))
    ensures r.log[1].level == Error <==> syringe(pid, path) != Injected
    ensures syringe(pid, path) == OpenFailed <==> r.log[1].event == OpenFailedEvent(pid)
    ensures syringe(pid, path) == InjectFailed <==> r.log[1].event == InjectFailedEvent(path)
    ensures syringe(pid, path) == Injected <==> r.log[1].event == InjectedEvent(path)
  {
    var last := match syringe(pid, path)
      case Injected => LogLine(Info, InjectedEvent(path))
      case InjectFailed => LogLine(Error, InjectFailedEvent(path))
      case OpenFailed => LogLine(Error, OpenFailedEvent(pid));
    Report(Ok, [LogLine(Info, DllPathEvent(path)), last])
  }

  /** The switched-on rows of the inject list, in list order. */
  function Enabled(s: seq<DllInfo>): (r: seq<DllInfo>)
    ensures forall d :: d in r <==> d in s && d.switch
    ensures IsSubsequence(r, s)
    decreases |s|
  {
    if s == [] then []
    else if s[0].switch then [s[0]] + Enabled(s[1..])
    else Enabled(s[1..])
  }

  /** Every copy of a switched-on row is kept, and no copy of another. */
  lemma {:induction false} EnabledCounts(s: seq<DllInfo>)
    ensures forall d :: multiset(Enabled(s))[d] == if d.switch then multiset(s)[d] else 0
    decreases |s|
  {
    if s != [] {
      assert s == [s[0]] + s[1..];
      EnabledCounts(s[1..]);
    }
  }

  lemma {:induction false} EnabledSnoc(s: seq<DllInfo>, d: DllInfo)
    ensures Enabled(s + [d]) == Enabled(s) + (if d.switch then [d] else [])
    decreases |s|
  {
    if s == [] {
      assert s + [d] == [d];
      assert [d][1..] == [];
    } else {
      assert (s + [d])[0] == s[0];
      assert (s + [d])[1..] == s[1..] + [d];
      EnabledSnoc(s[1..], d);
    }
  }

  /** One library the button tried: its name, the pid it went to, what
      `inject_dll` reported, and whether the console says it succeeded. */
  datatype Attempt = Attempt(dllName: string, dllPath: string, pid: u32, report: Report, printedSuccess: bool)

  /** `a` records, one for one and in order, attempts on the rows `on`
      against `pid`, each printed as a success. */
  predicate AttemptsFor(a: seq<Attempt>, on: seq<DllInfo>, pid: u32, syringe: (u32, string) -> SyringeOutcome)
  {
    && |a| == |on|
    && forall k :: 0 <= k < |a| ==>
         a[k] == Attempt(on[k].dllName, on[k].dllPath, pid, InjectDll(pid, on[k].dllPath, syringe), true)
  }

  lemma AttemptsForSnoc(a: seq<Attempt>, on: seq<DllInfo>, d: DllInfo, pid: u32,
                        syringe: (u32, string) -> SyringeOutcome)
    requires AttemptsFor(a, on, pid, syringe)
    ensures AttemptsFor(a + [Attempt(d.dllName, d.dllPath, pid, InjectDll(pid, d.dllPath, syringe), true)],
                        on + [d], pid, syringe)
  {
  }

  /** A click on the button: every switched-on library, in list order, is
      injected into the selected process, and every one is printed as a
      success.  `None` stands for the panic of indexing the process list
      with an out-of-range selection, which happens before any injection. */
  method InjectButton(clicked: bool, procs: seq<Process>, current: nat, dlls: seq<DllInfo>,
                      syringe: (u32, string) -> SyringeOutcome)
    returns (r: Option<seq<Attempt>>)
    ensures !clicked ==> r == Some([])
    ensures clicked ==> (r.None? <==> current >= |procs|)
    ensures r.Some? && clicked ==>
      var on := Enabled(dlls);
      && |r.value| == |on|
      && forall k :: 0 <= k < |on| ==>
           && r.value[k].dllName == on[k].dllName
           && r.value[k].dllPath == on[k].dllPath
           && r.value[k].pid == procs[current].pid
           && r.value[k].report == InjectDll(procs[current].pid, on[k].dllPath, syringe)
           && r.value[k].printedSuccess
  {
    if !clicked {
      return Some([]);
    }
    if current >= |procs| {
      return None;
    }
    var pid := procs[current].pid;
    var attempts: seq<Attempt> := [];
    var i := 0;
    while i < |dlls|
      invariant 0 <= i <= |dlls|
      invariant AttemptsFor(attempts, Enabled(dlls[..i]), pid, syringe)
    {
      var d := dlls[i];
      assert dlls[..i + 1] == dlls[..i] + [d];
      EnabledSnoc(dlls[..i], d);
      if d.switch {
        var report := InjectDll(pid, d.dllPath, syringe);
        AttemptsForSnoc(attempts, Enabled(dlls[..i]), d, pid, syringe);
        attempts := attempts + [Attempt(d.dllName, d.dllPath, pid, report, report.result.Ok?)];
      }
      i := i + 1;
    }
    assert dlls[..i] == dlls;
    r := Some(attempts);
  }

  /** Nothing is injected unless some row is switched on. */
  lemma {:induction false} NoEnabledNoAttempts(dlls: seq<DllInfo>)
    requires forall k :: 0 <= k < |dlls| ==> !dlls[k].switch
    ensures Enabled(dlls) == []
    decreases |dlls|
  {
    if dlls != [] {
      NoEnabledNoAttempts(dlls[1..]);
    }
  }

  /** A library listed twice is not possible under the inject-list invariant,
      so each switched-on path is injected exactly once. */
  lemma {:induction false} EnabledDistinctPaths(s: seq<DllInfo>)
    requires DistinctPaths(s)
    ensures DistinctPaths(Enabled(s))
    decreases |s|
  {
    if s != [] {
      assert DistinctPaths(s[1..]) by {
        forall i, j | 0 <= i < j < |s[1..]| ensures s[1..][i].dllPath != s[1..][j].dllPath {
          assert s[1..][i] == s[i + 1] && s[1..][j] == s[j + 1];
        }
      }
      EnabledDistinctPaths(s[1..]);
      if s[0].switch {
        var r := Enabled(s);
        forall i, j | 0 <= i < j < |r| ensures r[i].dllPath != r[j].dllPath {
          if i == 0 {
            assert r[j] in Enabled(s[1..]);
            var m :| 0 <= m < |s[1..]| && s[1..][m] == r[j];
            assert s[m + 1] == r[j];
          } else {
            assert r[i] == Enabled(s[1..])[i - 1] && r[j] == Enabled(s[1..])[j - 1];
          }
        }
      }
    }
  }
}
