/** The two combo boxes list the filtered processes sorted with
    `sort_by_key`: the process-name box by name, the PID box by pid.  The
    sort is modelled as a stable insertion sort; its contract is the one a
    caller can rely on (sorted, same elements).  Because the filter's own
    output order is the map's iteration order, only the name-sorted list is
    fully determined, and that is proved here. */
module ProcessSort {
  import opened Basics
  import opened Text
  import opened ProcessFilter

  datatype SortKey = NameKey | PidKey

  /** Key order: `String`'s order for names, numeric order for pids. */
  predicate Le(o: SortKey, a: Process, b: Process)
  {
    match o
    case NameKey => StrLe(a.name, b.name)
    case PidKey => a.pid <= b.pid
  }

  lemma LeTotal(o: SortKey, a: Process, b: Process)
    ensures Le(o, a, b) || Le(o, b, a)
  {
    if o == NameKey {
      StrLeTotal(a.name, b.name);
    }
  }

  lemma LeTransitive(o: SortKey, a: Process, b: Process, c: Process)
    requires Le(o, a, b) && Le(o, b, c)
    ensures Le(o, a, c)
  {
    if o == NameKey {
      StrLeTransitive(a.name, b.name, c.name);
    }
  }

  predicate Sorted(o: SortKey, s: seq<Process>)
  {
    forall i, j :: 0 <= i < j < |s| ==> Le(o, s[i], s[j])
  }

  /** Insert x before the first element it does not exceed. */
  function Insert(o: SortKey, x: Process, s: seq<Process>): (r: seq<Process>)
    requires Sorted(o, s)
    ensures Sorted(o, r)
    ensures multiset(r) == multiset(s) + multiset{x}
    decreases |s|
  {
    if s == [] then [x]
    else if Le(o, x, s[0]) then
      (forall j | 0 <= j < |s| ensures Le(o, x, s[j]) {
         if j > 0 { LeTransitive(o, x, s[0], s[j]); }
       }
       [x] + s)
    else
      var t := Insert(o, x, s[1..]);
      assert s == [s[0]] + s[1..];
      LeTotal(o, x, s[0]);
      (forall j | 0 <= j < |t| ensures Le(o, s[0], t[j]) {
         assert t[j] in multiset(t);
         if t[j] != x {
           assert t[j] in s[1..];
         }
       }
       [s[0]] + t)
  }

  /** `sort_by_key`: a sorted rearrangement of the input. */
  function SortBy(o: SortKey, s: seq<Process>): (r: seq<Process>)
    ensures Sorted(o, r)
    ensures multiset(r) == multiset(s)
    decreases |s|
  {
    if s == [] then []
    else
      assert s == [s[0]] + s[1..];
      Insert(o, s[0], SortBy(o, s[1..]))
  }

  /** Two name-sorted lists with distinct names and the same elements are
      the same list. */
  lemma {:induction false} SortedByNameUnique(a: seq<Process>, b: seq<Process>)
    requires Sorted(NameKey, a) && Sorted(NameKey, b)
    requires DistinctNames(a) && DistinctNames(b)
    requires forall q :: q in a <==> q in b
    ensures a == b
    decreases |a|
  {
    assert b == [] || b[0] in b;
    if a != [] {
      assert a[0] in b;
      SameHead(a, b);
      SameTailMembers(a, b);
      SortedByNameUnique(a[1..], b[1..]);
      assert a == [a[0]] + a[1..] && b == [b[0]] + b[1..];
    }
  }

  /** The least name comes first in both lists. */
  lemma SameHead(a: seq<Process>, b: seq<Process>)
    requires Sorted(NameKey, a) && Sorted(NameKey, b)
    requires DistinctNames(a)
    requires forall q :: q in a <==> q in b
    requires a != [] && b != []
    ensures a[0] == b[0]
  {
    assert b[0] in a && a[0] in b;
    var i :| 0 <= i < |a| && a[i] == b[0];
    var j :| 0 <= j < |b| && b[j] == a[0];
    assert StrLe(a[0].name, a[i].name) by {
      if i > 0 { assert Le(NameKey, a[0], a[i]); } else { StrLeReflexive(a[0].name); }
    }
    assert StrLe(b[0].name, b[j].name) by {
      if j > 0 { assert Le(NameKey, b[0], b[j]); } else { StrLeReflexive(b[0].name); }
    }
    StrLeAntisymmetric(a[0].name, b[0].name);
  }

  lemma SameTailMembers(a: seq<Process>, b: seq<Process>)
    requires DistinctNames(a) && DistinctNames(b)
    requires forall q :: q in a <==> q in b
    requires a != [] && b != [] && a[0] == b[0]
    ensures forall q :: q in a[1..] <==> q in b[1..]
  {
    forall q
      ensures q in a[1..] <==> q in b[1..]
    {
      if q in a[1..] {
        var k :| 0 <= k < |a[1..]| && a[1..][k] == q;
        assert q == a[k + 1] && q.name != a[0].name;
        assert q in a;
        var l :| 0 <= l < |b| && b[l] == q;
        assert l != 0;
        assert b[1..][l - 1] == q;
      }
      if q in b[1..] {
        var k :| 0 <= k < |b[1..]| && b[1..][k] == q;
        assert q == b[k + 1] && q.name != b[0].name;
        assert q in b;
        var l :| 0 <= l < |a| && a[l] == q;
        assert l != 0;
        assert a[1..][l - 1] == q;
      }
    }
  }

  /** A rearrangement of a list with distinct names has distinct names. */
  lemma DistinctNamesPermutation(a: seq<Process>, b: seq<Process>)
    requires DistinctNames(a)
    requires multiset(a) == multiset(b)
    ensures DistinctNames(b)
  {
    forall k, l | 0 <= k < l < |b|
      ensures b[k].name != b[l].name
    {
      if b[k].name == b[l].name {
        assert b[k] in multiset(a) && b[l] in multiset(a);
        var i :| 0 <= i < |a| && a[i] == b[k];
        var j :| 0 <= j < |a| && a[j] == b[l];
        assert i == j;
        assert b[k] == b[l];
        TwoPositionsCount(b, k, l);
        SingleOccurrence(a, i);
      }
    }
  }

  lemma TwoPositionsCount(s: seq<Process>, k: int, l: int)
    requires 0 <= k < l < |s| && s[k] == s[l]
    ensures multiset(s)[s[k]] >= 2
  {
    var x := s[k];
    assert s == s[..k] + [x] + s[k + 1..l] + [x] + s[l + 1..];
    assert multiset(s) == multiset(s[..k]) + multiset{x} + multiset(s[k + 1..l]) + multiset{x} + multiset(s[l + 1..]);
  }

  lemma SingleOccurrence(s: seq<Process>, i: int)
    requires DistinctNames(s) && 0 <= i < |s|
    ensures multiset(s)[s[i]] == 1
  {
    var x := s[i];
    assert s == s[..i] + [x] + s[i + 1..];
    assert x !in s[..i];
    assert x !in s[i + 1..];
    assert multiset(s) == multiset(s[..i]) + multiset{x} + multiset(s[i + 1..]);
  }

  /** The process-name combo box: the filter output sorted by name. */
  method NameComboEntries(procs: seq<Process>, sys32: string, wow64: string)
    returns (shown: seq<Process>)
    ensures Sorted(NameKey, shown)
    ensures IsFilterResult(procs, sys32, wow64, shown)
  {
    var filtered := FilterSystemProcesses(procs, sys32, wow64);
    shown := SortBy(NameKey, filtered);
    SortedKeepsFilterResult(procs, sys32, wow64, filtered, shown);
  }

  /** The PID combo box: the filter output sorted by pid. */
  method PidComboEntries(procs: seq<Process>, sys32: string, wow64: string)
    returns (shown: seq<Process>)
    ensures Sorted(PidKey, shown)
    ensures IsFilterResult(procs, sys32, wow64, shown)
  {
    var filtered := FilterSystemProcesses(procs, sys32, wow64);
    shown := SortBy(PidKey, filtered);
    SortedKeepsFilterResult(procs, sys32, wow64, filtered, shown);
  }

  /** Rearranging a filter result leaves a filter result. */
  lemma SortedKeepsFilterResult(procs: seq<Process>, sys32: string, wow64: string,
                                a: seq<Process>, b: seq<Process>)
    requires IsFilterResult(procs, sys32, wow64, a)
    requires multiset(a) == multiset(b)
    ensures IsFilterResult(procs, sys32, wow64, b)
  {
    DistinctNamesPermutation(a, b);
    forall q ensures q in a <==> q in b {
      assert q in a <==> q in multiset(a);
      assert q in b <==> q in multiset(b);
    }
    forall k | 0 <= k < |b|
      ensures b[k] in procs && Shown(b[k], sys32, wow64)
      ensures KeptFor(Passing(procs, sys32, wow64), b[k])
    {
      assert b[k] in a;
      var i :| 0 <= i < |a| && a[i] == b[k];
    }
    forall q | q in procs && Shown(q, sys32, wow64)
      ensures exists k :: 0 <= k < |b| && b[k].name == q.name
    {
      var i :| 0 <= i < |a| && a[i].name == q.name;
      assert a[i] in b;
      var k :| 0 <= k < |b| && b[k] == a[i];
    }
  }

  /** Whatever order the map yields its values in, the process-name combo
      box lists the same processes in the same order. */
  lemma NameComboDeterministic(procs: seq<Process>, sys32: string, wow64: string,
                               a: seq<Process>, b: seq<Process>)
    requires IsFilterResult(procs, sys32, wow64, a)
    requires IsFilterResult(procs, sys32, wow64, b)
    ensures SortBy(NameKey, a) == SortBy(NameKey, b)
  {
    var sa, sb := SortBy(NameKey, a), SortBy(NameKey, b);
    SortedKeepsFilterResult(procs, sys32, wow64, a, sa);
    SortedKeepsFilterResult(procs, sys32, wow64, b, sb);
    FilterResultUnique(procs, sys32, wow64, sa, sb);
    SortedByNameUnique(sa, sb);
  }
}
