/** `filter_system_services_and_daemon_processes`: hide processes whose
    image lives under the System32 directory (unless it lives under
    SysWOW64), then keep one process per name, the one with the lowest
    parent id, the first one met on ties.  The source builds a `HashMap`
    keyed by name and returns its values in the map's iteration order; the
    model keeps the map and leaves that order open.  The two directory
    strings (`%SystemRoot%\System32`, `%SystemRoot%\SysWOW64`) are inputs. */
module ProcessFilter {
  import opened Basics

  datatype ProcessArch = X86 | X64 | OtherArch

  /** A `libmem::Process` record as the enumerator reports it. */
  datatype Process = Process(
    pid: u32,
    ppid: u32,
    arch: ProcessArch,
    bits: nat,
    startTime: nat,
    path: string,
    name: string)

  /** The `filter` closure: not under System32, or under SysWOW64. */
  predicate Shown(p: Process, sys32: string, wow64: string)
  {
    !IsPrefix(sys32, p.path) || IsPrefix(wow64, p.path)
  }

  /** The processes the closure lets through, in list order. */
  function Passing(ps: seq<Process>, sys32: string, wow64: string): (r: seq<Process>)
    ensures forall q :: q in r <==> q in ps && Shown(q, sys32, wow64)
    decreases |ps|
  {
    if ps == [] then []
    else
      var init := Passing(ps[..|ps| - 1], sys32, wow64);
      var last := ps[|ps| - 1];
      assert ps == ps[..|ps| - 1] + [last];
      if Shown(last, sys32, wow64) then init + [last] else init
  }

  /** Position i holds, for its name, the lowest parent id in `ps`, and no
      earlier process with that name has the same parent id. */
  predicate FirstMinimalAt(ps: seq<Process>, i: int)
  {
    && 0 <= i < |ps|
    && (forall j :: 0 <= j < |ps| && ps[j].name == ps[i].name ==> ps[i].ppid <= ps[j].ppid)
    && (forall j :: 0 <= j < i && ps[j].name == ps[i].name ==> ps[i].ppid < ps[j].ppid)
  }

  /** `q` is the representative the source keeps for its name. */
  predicate KeptFor(ps: seq<Process>, q: Process)
  {
    exists i :: 0 <= i < |ps| && FirstMinimalAt(ps, i) && ps[i] == q
  }

  predicate NameOccurs(ps: seq<Process>, n: string)
  {
    exists i :: 0 <= i < |ps| && ps[i].name == n
  }

  /** The HashMap after the loop has seen `ps` (already filtered): a name
      not yet present is inserted, a present one is replaced only by a
      strictly lower parent id. */
  function Keep(ps: seq<Process>): map<string, Process>
    decreases |ps|
  {
    if ps == [] then map[]
    else
      var m := Keep(ps[..|ps| - 1]);
      var p := ps[|ps| - 1];
      if p.name in m then
        if p.ppid < m[p.name].ppid then m[p.name := p] else m
      else m[p.name := p]
  }

  /** For each name, the first lowest-parent-id position is unique. */
  lemma FirstMinimalUnique(ps: seq<Process>, i: int, j: int)
    requires FirstMinimalAt(ps, i) && FirstMinimalAt(ps, j)
    requires ps[i].name == ps[j].name
    ensures i == j
  {
  }

  lemma FirstMinimalExtend(ps: seq<Process>, p: Process, i: int)
    requires FirstMinimalAt(ps, i)
    requires ps[i].name != p.name || ps[i].ppid <= p.ppid
    ensures FirstMinimalAt(ps + [p], i)
  {
    var qs := ps + [p];
    forall j | 0 <= j < |qs| && qs[j].name == qs[i].name
      ensures qs[i].ppid <= qs[j].ppid
    {
      if j < |ps| {
        assert qs[j] == ps[j];
      }
    }
    forall j | 0 <= j < i && qs[j].name == qs[i].name
      ensures qs[i].ppid < qs[j].ppid
    {
      assert qs[j] == ps[j];
    }
  }

  lemma FirstMinimalNew(ps: seq<Process>, p: Process)
    requires forall j :: 0 <= j < |ps| && ps[j].name == p.name ==> p.ppid < ps[j].ppid
    ensures FirstMinimalAt(ps + [p], |ps|)
  {
    var qs := ps + [p];
    forall j | 0 <= j < |qs| && qs[j].name == p.name
      ensures p.ppid <= qs[j].ppid
    {
      if j < |ps| {
        assert qs[j] == ps[j];
      }
    }
  }

  /** What the map holds after the loop: exactly the names met, each mapped
      to its first lowest-parent-id process. */
  lemma {:induction false} KeepSpec(ps: seq<Process>)
    ensures forall n :: n in Keep(ps) <==> NameOccurs(ps, n)
    ensures forall n :: n in Keep(ps) ==> Keep(ps)[n].name == n && KeptFor(ps, Keep(ps)[n])
    decreases |ps|
  {
    if ps != [] {
      var init := ps[..|ps| - 1];
      var p := ps[|ps| - 1];
      assert ps == init + [p];
      KeepSpec(init);
      KeepSnoc(init, p);
      KeepNamesStep(init, p);
      KeepValuesStep(init, p);
    }
  }

  lemma KeepNamesStep(init: seq<Process>, p: Process)
    requires forall n :: n in Keep(init) <==> NameOccurs(init, n)
    ensures forall n :: n in Keep(init + [p]) <==> NameOccurs(init + [p], n)
  {
    var ps := init + [p];
    KeepSnoc(init, p);
    forall n
      ensures n in Keep(ps) <==> NameOccurs(ps, n)
    {
      if NameOccurs(ps, n) {
        var i :| 0 <= i < |ps| && ps[i].name == n;
        if i < |init| {
          assert init[i].name == n;
        }
      }
      if n in Keep(init) {
        var i :| 0 <= i < |init| && init[i].name == n;
        assert ps[i].name == n;
      }
    }
  }

  lemma KeepValuesStep(init: seq<Process>, p: Process)
    requires forall n :: n in Keep(init) <==> NameOccurs(init, n)
    requires forall n :: n in Keep(init) ==> Keep(init)[n].name == n && KeptFor(init, Keep(init)[n])
    ensures forall n :: n in Keep(init + [p]) ==>
      Keep(init + [p])[n].name == n && KeptFor(init + [p], Keep(init + [p])[n])
  {
    var ps := init + [p];
    var m := Keep(init);
    KeepSnoc(init, p);
    forall n | n in Keep(ps)
      ensures Keep(ps)[n].name == n && KeptFor(ps, Keep(ps)[n])
    {
      if n == p.name {
        if n in m && m[n].ppid <= p.ppid {
          var i :| FirstMinimalAt(init, i) && init[i] == m[n];
          FirstMinimalExtend(init, p, i);
          assert ps[i] == m[n];
        } else {
          forall j | 0 <= j < |init| && init[j].name == p.name
            ensures p.ppid < init[j].ppid
          {
            assert NameOccurs(init, n);
            var i :| FirstMinimalAt(init, i) && init[i] == m[n];
          }
          FirstMinimalNew(init, p);
          assert ps[|init|] == p;
        }
      } else {
        var i :| FirstMinimalAt(init, i) && init[i] == m[n];
        FirstMinimalExtend(init, p, i);
        assert ps[i] == m[n];
      }
    }
  }

  /** Every result is a shown process of the input. */
  predicate OnlyShown(procs: seq<Process>, sys32: string, wow64: string, out: seq<Process>)
  {
    forall k :: 0 <= k < |out| ==> out[k] in procs && Shown(out[k], sys32, wow64)
  }

  predicate DistinctNames(out: seq<Process>)
  {
    forall k, l :: 0 <= k < l < |out| ==> out[k].name != out[l].name
  }

  /** Every name among the shown processes has a result. */
  predicate CoversShownNames(procs: seq<Process>, sys32: string, wow64: string, out: seq<Process>)
  {
    forall q :: q in procs && Shown(q, sys32, wow64) ==> exists k :: 0 <= k < |out| && out[k].name == q.name
  }

  /** Every result is its name's first lowest-parent-id shown process. */
  predicate OnlyRepresentatives(procs: seq<Process>, sys32: string, wow64: string, out: seq<Process>)
  {
    forall k :: 0 <= k < |out| ==> KeptFor(Passing(procs, sys32, wow64), out[k])
  }

  /** The four promises of the filter, about a result in any order. */
  predicate IsFilterResult(procs: seq<Process>, sys32: string, wow64: string, out: seq<Process>)
  {
    && OnlyShown(procs, sys32, wow64, out)
    && DistinctNames(out)
    && CoversShownNames(procs, sys32, wow64, out)
    && OnlyRepresentatives(procs, sys32, wow64, out)
  }

  /** The loop over the filtered processes, building the HashMap. */
  method BuildNameMap(procs: seq<Process>, sys32: string, wow64: string)
    returns (unique: map<string, Process>)
    ensures unique == Keep(Passing(procs, sys32, wow64))
  {
    unique := map[];
    var i := 0;
    while i < |procs|
      invariant 0 <= i <= |procs|
      invariant unique == Keep(Passing(procs[..i], sys32, wow64))
    {
      var p := procs[i];
      assert procs[..i + 1] == procs[..i] + [p];
      PassingSnoc(procs[..i], p, sys32, wow64);
      KeepSnoc(Passing(procs[..i], sys32, wow64), p);
      if Shown(p, sys32, wow64) {
        if p.name in unique {
          if p.ppid < unique[p.name].ppid {
            unique := unique[p.name := p];
          }
        } else {
          unique := unique[p.name := p];
        }
      }
      i := i + 1;
    }
    assert procs[..|procs|] == procs;
  }

  lemma PassingSnoc(ps: seq<Process>, p: Process, sys32: string, wow64: string)
    ensures Passing(ps + [p], sys32, wow64)
      == Passing(ps, sys32, wow64) + (if Shown(p, sys32, wow64) then [p] else [])
  {
    assert (ps + [p])[..|ps|] == ps;
  }

  /** One step of the map-building loop. */
  lemma KeepSnoc(ps: seq<Process>, p: Process)
    ensures Keep(ps + [p]) ==
      var m := Keep(ps);
      if p.name in m && m[p.name].ppid <= p.ppid then m else m[p.name := p]
  {
    assert (ps + [p])[..|ps|] == ps;
  }

  /** `values().copied().collect()`: every value once, in an order the
      caller cannot rely on. */
  method CollectValues(m: map<string, Process>) returns (out: seq<Process>)
    requires forall n :: n in m ==> m[n].name == n
    ensures forall k :: 0 <= k < |out| ==> out[k].name in m && out[k] == m[out[k].name]
    ensures forall k, l :: 0 <= k < l < |out| ==> out[k].name != out[l].name
    ensures forall n :: n in m ==> exists k :: 0 <= k < |out| && out[k].name == n
  {
    out := [];
    var rest := m.Keys;
    while rest != {}
      invariant rest <= m.Keys
      invariant forall k :: 0 <= k < |out| ==> out[k].name in m && out[k] == m[out[k].name]
      invariant forall k :: 0 <= k < |out| ==> out[k].name !in rest
      invariant forall k, l :: 0 <= k < l < |out| ==> out[k].name != out[l].name
      invariant forall n :: n in m && n !in rest ==> exists k :: 0 <= k < |out| && out[k].name == n
      decreases rest
    {
      var n :| n in rest;
      var v := m[n];
      ghost var before := out;
      out := out + [v];
      rest := rest - {n};
      assert forall k :: 0 <= k < |before| ==> out[k] == before[k];
      assert out[|before|].name == n;
    }
  }

  /** The filter: build the map, then collect its values. */
  method FilterSystemProcesses(procs: seq<Process>, sys32: string, wow64: string)
    returns (out: seq<Process>)
    ensures IsFilterResult(procs, sys32, wow64, out)
  {
    var unique := BuildNameMap(procs, sys32, wow64);
    KeepSpec(Passing(procs, sys32, wow64));
    out := CollectValues(unique);
    MapValuesAreFilterResult(procs, sys32, wow64, unique, out);
  }

  lemma MapValuesAreFilterResult(procs: seq<Process>, sys32: string, wow64: string,
                                 m: map<string, Process>, out: seq<Process>)
    requires m == Keep(Passing(procs, sys32, wow64))
    requires forall k :: 0 <= k < |out| ==> out[k].name in m && out[k] == m[out[k].name]
    requires DistinctNames(out)
    requires forall n :: n in m ==> exists k :: 0 <= k < |out| && out[k].name == n
    ensures IsFilterResult(procs, sys32, wow64, out)
  {
    KeepSpec(Passing(procs, sys32, wow64));
    ValuesAreRepresentatives(procs, sys32, wow64, m, out);
    RepresentativesAreShown(procs, sys32, wow64, out);
    ValuesCoverNames(procs, sys32, wow64, m, out);
  }

  lemma ValuesAreRepresentatives(procs: seq<Process>, sys32: string, wow64: string,
                                 m: map<string, Process>, out: seq<Process>)
    requires forall n :: n in m ==> KeptFor(Passing(procs, sys32, wow64), m[n])
    requires forall k :: 0 <= k < |out| ==> out[k].name in m && out[k] == m[out[k].name]
    ensures OnlyRepresentatives(procs, sys32, wow64, out)
  {
  }

  lemma RepresentativesAreShown(procs: seq<Process>, sys32: string, wow64: string, out: seq<Process>)
    requires OnlyRepresentatives(procs, sys32, wow64, out)
    ensures OnlyShown(procs, sys32, wow64, out)
  {
    var passing := Passing(procs, sys32, wow64);
    forall k | 0 <= k < |out|
      ensures out[k] in procs && Shown(out[k], sys32, wow64)
    {
      assert KeptFor(passing, out[k]);
      var j :| 0 <= j < |passing| && FirstMinimalAt(passing, j) && passing[j] == out[k];
      assert passing[j] in passing;
    }
  }

  lemma ValuesCoverNames(procs: seq<Process>, sys32: string, wow64: string,
                         m: map<string, Process>, out: seq<Process>)
    requires forall n :: n in m <==> NameOccurs(Passing(procs, sys32, wow64), n)
    requires forall n :: n in m ==> exists k :: 0 <= k < |out| && out[k].name == n
    ensures CoversShownNames(procs, sys32, wow64, out)
  {
    var passing := Passing(procs, sys32, wow64);
    forall q | q in procs && Shown(q, sys32, wow64)
      ensures exists k :: 0 <= k < |out| && out[k].name == q.name
    {
      assert q in passing;
      var j :| 0 <= j < |passing| && passing[j] == q;
      assert NameOccurs(passing, q.name);
      assert q.name in m;
    }
  }

  /** The filter's result is determined up to order: two results (two
      iteration orders of the map) hold the same processes. */
  lemma FilterResultUnique(procs: seq<Process>, sys32: string, wow64: string, a: seq<Process>, b: seq<Process>)
    requires IsFilterResult(procs, sys32, wow64, a)
    requires IsFilterResult(procs, sys32, wow64, b)
    ensures forall q :: q in a <==> q in b
  {
    forall q | q in a
      ensures q in b
    {
      SameMembers(procs, sys32, wow64, a, b, q);
    }
    forall q | q in b
      ensures q in a
    {
      SameMembers(procs, sys32, wow64, b, a, q);
    }
  }

  lemma SameMembers(procs: seq<Process>, sys32: string, wow64: string, a: seq<Process>, b: seq<Process>, q: Process)
    requires OnlyShown(procs, sys32, wow64, a) && OnlyRepresentatives(procs, sys32, wow64, a)
    requires CoversShownNames(procs, sys32, wow64, b) && OnlyRepresentatives(procs, sys32, wow64, b)
    requires q in a
    ensures q in b
  {
    var passing := Passing(procs, sys32, wow64);
    var ka :| 0 <= ka < |a| && a[ka] == q;
    assert q in procs && Shown(q, sys32, wow64);
    var kb :| 0 <= kb < |b| && b[kb].name == q.name;
    assert KeptFor(passing, a[ka]);
    assert KeptFor(passing, b[kb]);
    var i :| 0 <= i < |passing| && FirstMinimalAt(passing, i) && passing[i] == q;
    var j :| 0 <= j < |passing| && FirstMinimalAt(passing, j) && passing[j] == b[kb];
    FirstMinimalUnique(passing, i, j);
  }
}
