/**
 Elementary-cycle enumeration over module imports, and the gate that compares the present
 dependency graph with a frozen baseline (scripts/governance/check_module_dependencies.py).
 */
module DependencyCycles {
  import opened Ordering
  import opened Wrappers

  type Edge = (string, string)

  // ---------- What a cycle is, independently of how cycles are found ----------

  ghost predicate Walk(edges: set<Edge>, p: seq<string>) {
    forall i {:trigger p[i]} :: 0 <= i < |p| - 1 ==> (p[i], p[i + 1]) in edges
  }

  ghost predicate SimpleCycle(edges: set<Edge>, c: seq<string>) {
    |c| >= 2 && Distinct(c) && Walk(edges, c) && (c[|c| - 1], c[0]) in edges
  }

  ghost predicate MinFirst(c: seq<string>) {
    c != [] && forall x :: x in c ==> StringLe(c[0], x)
  }

  /** The one rotation of a simple cycle that starts at its least module. */
  ghost predicate Canonical(edges: set<Edge>, c: seq<string>) {
    SimpleCycle(edges, c) && MinFirst(c)
  }

  function Rotate<T>(c: seq<T>, k: nat): seq<T>
    requires k <= |c|
  {
    c[k..] + c[..k]
  }

  // ---------- Normalisation ----------

  /** Index of the first least element among the first n. */
  function MinIndex(c: seq<string>, n: nat): (m: nat)
    requires 0 < n <= |c|
    ensures m < n
  {
    if n == 1 then 0
    else
      var m := MinIndex(c, n - 1);
      if StringLe(c[m], c[n - 1]) then m else n - 1
  }

  function Normalize(c: seq<string>): seq<string>
    requires c != []
  {
    Rotate(c, MinIndex(c, |c|))
  }

  lemma {:induction false} MinIndexIsFirstLeast(c: seq<string>, n: nat)
    requires 0 < n <= |c|
    ensures var m := MinIndex(c, n);
      && (forall i :: 0 <= i < n ==> StringLe(c[m], c[i]))
      && (forall i :: 0 <= i < m ==> c[i] != c[m])
  {
    StringTotalOrder();
    if n > 1 { MinIndexIsFirstLeast(c, n - 1); }
  }

  lemma {:induction false} NormalizeIsMinFirst(c: seq<string>)
    requires c != []
    ensures MinFirst(Normalize(c))
    ensures multiset(Normalize(c)) == multiset(c)
  {
    var m := MinIndex(c, |c|);
    MinIndexIsFirstLeast(c, |c|);
    assert c == c[..m] + c[m..];
    forall x | x in Normalize(c) ensures StringLe(c[m], x) {
      assert x in c;
    }
  }

  /** A sequence whose first element is its least one, and does not recur, is its own normal form. */
  lemma {:induction false} NormalizeFixpoint(c: seq<string>)
    requires MinFirst(c)
    ensures Normalize(c) == c
  {
    MinIndexIsFirstLeast(c, |c|);
    var m := MinIndex(c, |c|);
    assert StringLe(c[m], c[0]) && c[m] in c;
    StringAntisymmetric(c[m], c[0]);
    assert m == 0;
    assert c[0..] + c[..0] == c;
  }

  lemma {:induction false} RotationsCompose<T>(c: seq<T>, k: nat, n: nat)
    requires k <= |c| && n < |c|
    ensures Rotate(Rotate(c, k), n) == Rotate(c, if n + k < |c| then n + k else n + k - |c|)
  {
    var d := Rotate(c, k);
    if n + k < |c| {
      assert d[n..] == c[n + k..] + c[..k] && d[..n] == c[k..n + k];
      assert c[..k] + c[k..n + k] == c[..n + k];
    } else {
      var r := n + k - |c|;
      assert d[n..] == c[r..k] && d[..n] == c[k..] + c[..r];
      assert c[r..k] + c[k..] == c[r..];
    }
  }

  /** Rotating a cycle never changes its normal form, as long as the least module occurs once. */
  lemma {:induction false} NormalizeIgnoresRotation(c: seq<string>, k: nat)
    requires c != [] && k <= |c|
    requires forall i, j :: 0 <= i < j < |c| && c[i] == c[j] ==> c[i] != c[MinIndex(c, |c|)]
    ensures Normalize(Rotate(c, k)) == Normalize(c)
  {
    hide StringLe;
    var d := Rotate(c, k);
    var m, n := MinIndex(c, |c|), MinIndex(d, |d|);
    MinIndexIsFirstLeast(c, |c|);
    MinIndexIsFirstLeast(d, |d|);
    var back := if n + k < |c| then n + k else n + k - |c|;
    var there := if m >= k then m - k else m - k + |c|;
    assert d[n] == c[back] && d[there] == c[m];
    assert StringLe(c[m], c[back]) && StringLe(d[n], d[there]);
    StringAntisymmetric(c[m], c[back]);
    assert back == m;
    RotationsCompose(c, k, n);
  }

  lemma {:induction false} RotatedAt<T>(c: seq<T>, k: nat, i: nat)
    requires k <= |c| && i < |c|
    ensures |Rotate(c, k)| == |c|
    ensures Rotate(c, k)[i] == if i + k < |c| then c[i + k] else c[i + k - |c|]
  {
  }

  lemma {:induction false} RotationIsDistinct<T>(c: seq<T>, k: nat)
    requires Distinct(c) && k <= |c|
    ensures Distinct(Rotate(c, k))
  {
    var d := Rotate(c, k);
    forall i, j | 0 <= i < j < |d| ensures d[i] != d[j] {
      RotatedAt(c, k, i);
      RotatedAt(c, k, j);
    }
  }

  lemma {:induction false} RotationIsCycle(edges: set<Edge>, c: seq<string>, k: nat)
    requires SimpleCycle(edges, c) && k <= |c|
    ensures SimpleCycle(edges, Rotate(c, k))
  {
    RotationIsDistinct(c, k);
    var d := Rotate(c, k);
    hide Rotate, Distinct;
    RotatedAt(c, k, 0);
    RotatedAt(c, k, |c| - 1);
    forall i | 0 <= i < |d| - 1 ensures (d[i], d[i + 1]) in edges {
      RotatedAt(c, k, i);
      RotatedAt(c, k, i + 1);
      if i + k < |c| - 1 { assert (c[i + k], c[i + k + 1]) in edges; }
      if i + k >= |c| { assert (c[i + k - |c|], c[i + k - |c| + 1]) in edges; }
    }
    if 0 < k < |c| { assert (c[k - 1], c[k - 1 + 1]) in edges; }
  }

  /** Every simple cycle, from wherever it is written, normalises to a canonical one, its rotation. */
  lemma {:induction false} EveryCycleHasCanonicalForm(edges: set<Edge>, c: seq<string>)
    requires SimpleCycle(edges, c)
    ensures Canonical(edges, Normalize(c))
  {
    RotationIsCycle(edges, c, MinIndex(c, |c|));
    NormalizeIsMinFirst(c);
  }

  /** Each rotation class has only one canonical member, so no cycle can be reported twice. */
  lemma {:induction false} CanonicalIsUnique(edges: set<Edge>, c: seq<string>, k: nat)
    requires Canonical(edges, c) && k <= |c| && Canonical(edges, Rotate(c, k))
    ensures Rotate(c, k) == c
  {
    NormalizeIgnoresRotation(c, k);
    NormalizeFixpoint(c);
    NormalizeFixpoint(Rotate(c, k));
  }

  // ---------- Depth-first search ----------

  function Nodes(edges: set<Edge>): set<string> {
    (set e | e in edges :: e.0) + (set e | e in edges :: e.1)
  }

  function Targets(edges: set<Edge>, n: string): (r: set<string>)
    ensures forall d :: d in r <==> (n, d) in edges
  {
    var r := set e | e in edges && e.0 == n :: e.1;
    assert forall d :: (n, d) in edges ==> (n, d).1 in r;
    r
  }

  function Adjacency(edges: set<Edge>): (m: map<string, seq<string>>)
    ensures m.Keys == Nodes(edges)
    ensures forall n, d :: n in m ==> (d in m[n] <==> (n, d) in edges)
  {
    StringTotalOrder();
    hide TotalOrder;
    map n | n in Nodes(edges) :: Sorted(Targets(edges, n), StringLe)
  }

  /** The shared result set of the search, grown by the nested visits. */
  class CycleSearch {
    const edges: set<Edge>
    const nodes: seq<string>
    const adjacency: map<string, seq<string>>
    var cycles: set<seq<string>>

    ghost predicate Valid() {
      && (forall n :: n in nodes <==> n in Nodes(edges))
      && adjacency.Keys == Nodes(edges)
      && (forall n, d :: n in adjacency ==> (d in adjacency[n] <==> (n, d) in edges))
    }

    constructor (edges: set<Edge>)
      ensures Valid() && this.edges == edges && cycles == {}
    {
      StringTotalOrder();
      this.edges := edges;
      nodes := Sorted(Nodes(edges), StringLe);
      adjacency := Adjacency(edges);
      cycles := {};
    }

    /** Adds exactly the canonical cycles that continue `path`. */
    method Visit(start: string, node: string, path: seq<string>)
      requires Valid()
      requires path != [] && path[0] == start && path[|path| - 1] == node && node in Nodes(edges)
      requires SearchPath(edges, path)
      modifies this
      ensures forall c :: c in cycles <==> c in old(cycles) || (Canonical(edges, c) && path <= c)
      decreases Nodes(edges) - set x | x in path
    {
      hide Canonical;
      hide SearchPath;
      hide StringLe;
      var nexts := if node in adjacency then adjacency[node] else [];
      for i := 0 to |nexts|
        invariant forall c :: c in cycles <==>
          c in old(cycles) || (Canonical(edges, c) && path <= c && Following(path, c) in nexts[..i])
      {
        var nxt := nexts[i];
        ghost var before := cycles;
        if nxt == start && |path| > 1 {
          ClosePath(edges, path);
          cycles := cycles + {Normalize(path)};
        } else if nxt !in path && StringLe(start, nxt) {
          ExtendPath(edges, path, nxt);
          Visit(start, nxt, path + [nxt]);
        }
        forall c ensures c in cycles <==>
          c in before || (Canonical(edges, c) && path <= c && Following(path, c) == nxt)
        {
          NextStep(edges, path, c);
        }
        assert nexts[..i + 1] == nexts[..i] + [nxt];
      }
      forall c | Canonical(edges, c) && path <= c ensures Following(path, c) in nexts[..|nexts|] {
        NextStep(edges, path, c);
        assert nexts[..|nexts|] == nexts;
      }
    }
  }

  /** What the search keeps of the path it is on. */
  ghost predicate SearchPath(edges: set<Edge>, path: seq<string>) {
    Distinct(path) && Walk(edges, path) && MinFirst(path)
  }

  lemma {:induction false} ClosePath(edges: set<Edge>, path: seq<string>)
    requires |path| > 1 && SearchPath(edges, path) && (path[|path| - 1], path[0]) in edges
    ensures Normalize(path) == path && Canonical(edges, path)
  {
    NormalizeFixpoint(path);
  }

  lemma {:induction false} ExtendPath(edges: set<Edge>, path: seq<string>, nxt: string)
    requires path != [] && SearchPath(edges, path) && (path[|path| - 1], nxt) in edges
    requires nxt !in path && StringLe(path[0], nxt)
    ensures SearchPath(edges, path + [nxt]) && nxt in Nodes(edges)
    ensures (Nodes(edges) - set x | x in path) > (Nodes(edges) - set x | x in path + [nxt])
  {
    hide StringLe;
    ExtendSearched(edges, path, nxt);
    assert Walk(edges, path + [nxt]);
    assert Distinct(path + [nxt]);
    assert MinFirst(path + [nxt]);
  }

  lemma {:induction false} ExtendSearched(edges: set<Edge>, path: seq<string>, nxt: string)
    requires path != [] && (path[|path| - 1], nxt) in edges && nxt !in path
    ensures nxt in Nodes(edges)
    ensures (Nodes(edges) - set x | x in path) > (Nodes(edges) - set x | x in path + [nxt])
  {
    assert (path[|path| - 1], nxt).1 in (set e | e in edges :: e.1);
    var was, now := Nodes(edges) - (set x | x in path), Nodes(edges) - (set x | x in path + [nxt]);
    assert nxt in was && nxt !in now && now <= was;
  }

  /** The module a canonical cycle visits after the prefix `path`: its start again once it is complete. */
  ghost function Following(path: seq<string>, c: seq<string>): string
    requires path != []
  {
    if |c| > |path| then c[|path|] else path[0]
  }

  lemma {:induction false} NextStep(edges: set<Edge>, path: seq<string>, c: seq<string>)
    requires path != []
    ensures Canonical(edges, c) && path <= c ==>
      var d := Following(path, c);
      && |c| >= 2 && (path[|path| - 1], d) in edges
      && (if |c| == |path| then c == path && d == path[0]
          else d !in path && StringLe(path[0], d) && path + [d] <= c)
  {
    if Canonical(edges, c) && path <= c {
      if |c| == |path| {
        assert c == path;
      } else {
        assert path == c[..|path|];
        assert (c[|path| - 1], c[|path| - 1 + 1]) in edges;
        assert path + [c[|path|]] == c[..|path| + 1];
      }
    }
  }

  ghost predicate LeastFirst(c: seq<string>) {
    forall k :: 0 < k < |c| ==> ByCodePoint(c[0], c[k])
  }

  /** A canonical cycle is a simple cycle whose first module is the least by code points. */
  lemma {:induction false} CanonicalByCodePoint(edges: set<Edge>, c: seq<string>)
    ensures Canonical(edges, c) <==> SimpleCycle(edges, c) && LeastFirst(c)
  {
    hide ByCodePoint, StringLe, Walk, Distinct;
    forall k | 0 <= k < |c| ensures StringLe(c[0], c[k]) <==> ByCodePoint(c[0], c[k]) {
      StringLeIsByCodePoint(c[0], c[k]);
    }
    if SimpleCycle(edges, c) { LexReflexive(CharLe, c[0]); LexSelf(c[0]); }
  }

  lemma {:induction false} LexSelf(a: string)
    ensures LexLe(CharLe, a, a) ==> StringLe(a, a)
  {
  }

  /**
   Terminates and returns exactly the simple cycles of length at least two, each in its canonical rotation:
   the one that starts at the least module by code points.
   */
  method FindCycles(edges: set<Edge>) returns (cycles: set<seq<string>>)
    ensures forall c :: c in cycles <==> Canonical(edges, c)
    ensures forall c :: c in cycles <==> SimpleCycle(edges, c) && LeastFirst(c)
  {
    hide LeastFirst;
    var search := new CycleSearch(edges);
    for i := 0 to |search.nodes|
      invariant search.Valid() && search.edges == edges
      invariant forall c :: c in search.cycles <==> Canonical(edges, c) && c[0] in search.nodes[..i]
    {
      var start := search.nodes[i];
      ghost var before := search.cycles;
      LexReflexive(CharLe, start);
      search.Visit(start, start, [start]);
      assert search.nodes[..i + 1] == search.nodes[..i] + [start];
      assert forall c: seq<string> :: c != [] ==> ([start] <= c <==> c[0] == start);
    }
    assert search.nodes[..|search.nodes|] == search.nodes;
    forall c | Canonical(edges, c) ensures c[0] in search.nodes {
      assert (c[0], c[0 + 1]).0 in (set e | e in edges :: e.0);
    }
    cycles := search.cycles;
    forall c ensures Canonical(edges, c) <==> SimpleCycle(edges, c) && LeastFirst(c) {
      CanonicalByCodePoint(edges, c);
    }
  }

  // ---------- Snapshots and the gate ----------

  datatype Snapshot = Snapshot(edges: seq<Edge>, cycles: seq<seq<string>>)

  datatype Diff = Diff(newEdges: seq<Edge>, removedEdges: seq<Edge>,
                       newCycles: seq<seq<string>>, removedCycles: seq<seq<string>>)

  /** A cycle as the snapshot writes it, with its first module repeated at the end. */
  function Close(c: seq<string>): seq<string>
    requires c != []
  {
    c + [c[0]]
  }

  function Open(p: seq<string>): seq<string> {
    if |p| >= 2 && p[0] == p[|p| - 1] then p[..|p| - 1] else p
  }

  function EdgeSet(s: Snapshot): set<Edge> {
    set e | e in s.edges
  }

  function CycleSet(s: Snapshot): set<seq<string>> {
    set p | p in s.cycles && Open(p) != [] :: Normalize(Open(p))
  }

  method CollectCycles(s: Snapshot) returns (result: set<seq<string>>)
    ensures result == CycleSet(s)
  {
    result := {};
    for i := 0 to |s.cycles|
      invariant result == CycleSet(s.(cycles := s.cycles[..i]))
    {
      var path := Open(s.cycles[i]);
      ghost var before := s.(cycles := s.cycles[..i]);
      ghost var after := s.(cycles := s.cycles[..i + 1]);
      assert forall p :: p in after.cycles <==> p in before.cycles || p == s.cycles[i];
      if path != [] {
        result := result + {Normalize(path)};
      }
    }
    assert s.cycles[..|s.cycles|] == s.cycles;
  }

  /** The cycles as listed, without their repeated first module, in the order of their modules. */
  ghost predicate InCycleOrder(paths: seq<seq<string>>) {
    forall i, j :: 0 <= i < j < |paths| ==> ByStrings(Open(paths[i]), Open(paths[j]))
  }

  ghost predicate IsSnapshotOf(s: Snapshot, edges: set<Edge>) {
    && Distinct(s.edges) && SortedBy(s.edges, PairLe) && (forall e :: e in s.edges <==> e in edges)
    && Distinct(s.cycles) && InCycleOrder(s.cycles)
    && (forall p :: p in s.cycles <==> exists c :: Canonical(edges, c) && p == Close(c))
  }

  method BuildSnapshot(edges: set<Edge>) returns (s: Snapshot)
    ensures IsSnapshotOf(s, edges)
  {
    hide TotalOrder, SortedBy, Distinct, Canonical, SimpleCycle, LeastFirst, InCycleOrder, PairLe, PathLe, Close;
    PairTotalOrder();
    PathTotalOrder();
    var cycles := FindCycles(edges);
    EmptyIsNoCycle(edges);
    var listed := Sorted(cycles, PathLe);
    assert [] !in listed;
    var paths := seq(|listed|, i requires 0 <= i < |listed| => Close(listed[i]));
    ClosedPaths(edges, listed, paths);
    ClosedInOrder(listed, paths);
    s := Snapshot(Sorted(edges, PairLe), paths);
  }

  lemma {:induction false} EmptyIsNoCycle(edges: set<Edge>)
    ensures !Canonical(edges, [])
  {
  }

  lemma {:induction false} ClosedPaths(edges: set<Edge>, listed: seq<seq<string>>, paths: seq<seq<string>>)
    requires Distinct(listed) && forall c :: c in listed <==> Canonical(edges, c)
    requires |paths| == |listed| && [] !in listed
    requires forall i :: 0 <= i < |paths| ==> paths[i] == Close(listed[i])
    ensures Distinct(paths)
    ensures forall p :: p in paths <==> exists c :: Canonical(edges, c) && p == Close(c)
  {
    hide StringLe, SimpleCycle, MinFirst;
    forall i, j | 0 <= i < j < |paths| ensures paths[i] != paths[j] {
      assert paths[i][..|paths[i]| - 1] == listed[i] && paths[j][..|paths[j]| - 1] == listed[j];
    }
    forall p | p in paths ensures exists c :: Canonical(edges, c) && p == Close(c) {
      var i :| 0 <= i < |paths| && paths[i] == p;
      assert Canonical(edges, listed[i]);
    }
    forall c | Canonical(edges, c) ensures c in listed && Close(c) in paths {
      var i :| 0 <= i < |listed| && listed[i] == c;
      assert paths[i] == Close(c);
    }
  }

  lemma {:induction false} ClosedInOrder(listed: seq<seq<string>>, paths: seq<seq<string>>)
    requires [] !in listed && SortedBy(listed, PathLe)
    requires |paths| == |listed| && forall i :: 0 <= i < |paths| ==> paths[i] == Close(listed[i])
    ensures InCycleOrder(paths)
  {
    hide PathLe, ByStrings;
    forall i, j | 0 <= i < j < |paths| ensures ByStrings(Open(paths[i]), Open(paths[j])) {
      assert Open(paths[i]) == listed[i] && Open(paths[j]) == listed[j];
      PathLeIsByStrings(listed[i], listed[j]);
    }
  }

  lemma {:induction false} ReadCycleIsCanonical(s: Snapshot, edges: set<Edge>, c: seq<string>)
    requires IsSnapshotOf(s, edges) && c in CycleSet(s)
    ensures Canonical(edges, c)
  {
    hide SimpleCycle, StringLe, InCycleOrder, Normalize;
    var p :| p in s.cycles && Open(p) != [] && Normalize(Open(p)) == c;
    var d :| Canonical(edges, d) && p == Close(d);
    assert Open(Close(d)) == d;
    NormalizeFixpoint(d);
  }

  lemma {:induction false} CanonicalIsRead(s: Snapshot, edges: set<Edge>, c: seq<string>)
    requires IsSnapshotOf(s, edges) && Canonical(edges, c)
    ensures c in CycleSet(s)
  {
    hide SimpleCycle, StringLe, InCycleOrder, Normalize;
    assert Close(c) in s.cycles && Open(Close(c)) == c;
    NormalizeFixpoint(c);
  }

  /** Reading a snapshot back gives exactly the edges and the cycles it was built from. */
  lemma {:induction false} SnapshotRoundTrip(s: Snapshot, edges: set<Edge>)
    requires IsSnapshotOf(s, edges)
    ensures EdgeSet(s) == edges
    ensures forall c :: c in CycleSet(s) <==> Canonical(edges, c)
  {
    hide Canonical, CycleSet;
    forall c | c in CycleSet(s) ensures Canonical(edges, c) { ReadCycleIsCanonical(s, edges, c); }
    forall c | Canonical(edges, c) ensures c in CycleSet(s) { CanonicalIsRead(s, edges, c); }
  }

  function Compare(current: Snapshot, baseline: Snapshot): Diff {
    PairTotalOrder();
    PathTotalOrder();
    Diff(Sorted(EdgeSet(current) - EdgeSet(baseline), PairLe),
         Sorted(EdgeSet(baseline) - EdgeSet(current), PairLe),
         Sorted(CycleSet(current) - CycleSet(baseline), PathLe),
         Sorted(CycleSet(baseline) - CycleSet(current), PathLe))
  }

  lemma {:induction false} DiffMembers(current: Snapshot, baseline: Snapshot)
    ensures var d := Compare(current, baseline);
      && (forall e :: e in d.newEdges <==> e in EdgeSet(current) && e !in EdgeSet(baseline))
      && (forall e :: e in d.removedEdges <==> e in EdgeSet(baseline) && e !in EdgeSet(current))
      && (forall c :: c in d.newCycles <==> c in CycleSet(current) && c !in CycleSet(baseline))
      && (forall c :: c in d.removedCycles <==> c in CycleSet(baseline) && c !in CycleSet(current))
  {
    PairTotalOrder();
    PathTotalOrder();
    hide TotalOrder, SortedBy, Distinct;
  }

  /** Exit status of `--check`: `declared` holds the edges that the MODULE.md files declare. */
  function CheckBaseline(current: Snapshot, baseline: Option<Snapshot>, declared: set<Edge>): int {
    match baseline
    case None => 2
    case Some(base) =>
      var diff := Compare(current, base);
      if diff.newEdges != [] || diff.newCycles != [] then 1
      else if EdgeSet(current) - declared != {} || declared - EdgeSet(current) != {} then 1
      else 0
  }

  ghost predicate UsesEdge(c: seq<string>, e: Edge) {
    |c| >= 2 && ((c[|c| - 1], c[0]) == e || exists i {:trigger c[i]} :: 0 <= i < |c| - 1 && (c[i], c[i + 1]) == e)
  }

  /** A cycle of one graph is a cycle of another exactly when the other has all the edges it uses. */
  lemma {:induction false} CycleFollowsEdges(edges: set<Edge>, other: set<Edge>, c: seq<string>)
    requires SimpleCycle(edges, c)
    ensures SimpleCycle(other, c) <==> forall e :: UsesEdge(c, e) ==> e in other
  {
    if forall e :: UsesEdge(c, e) ==> e in other {
      assert UsesEdge(c, (c[|c| - 1], c[0]));
      forall i | 0 <= i < |c| - 1 ensures (c[i], c[i + 1]) in other {
        assert UsesEdge(c, (c[i], c[i + 1]));
      }
    }
  }

  /** Between two snapshots, every reported new cycle uses a reported new edge, every removed one a removed edge. */
  lemma {:induction false} CycleChangesNeedEdgeChanges(current: Snapshot, baseline: Snapshot, now: set<Edge>, was: set<Edge>)
    requires IsSnapshotOf(current, now) && IsSnapshotOf(baseline, was)
    ensures var diff := Compare(current, baseline);
      && (forall c :: c in diff.newCycles <==> Canonical(now, c) && !Canonical(was, c))
      && (forall c :: c in diff.newCycles ==> exists e :: UsesEdge(c, e) && e in diff.newEdges)
      && (forall c :: c in diff.removedCycles ==> exists e :: UsesEdge(c, e) && e in diff.removedEdges)
  {
    hide IsSnapshotOf, Compare, SimpleCycle, MinFirst, UsesEdge, EdgeSet, CycleSet;
    DiffMembers(current, baseline);
    SnapshotRoundTrip(current, now);
    SnapshotRoundTrip(baseline, was);
    var diff := Compare(current, baseline);
    forall c | c in diff.newCycles ensures exists e :: UsesEdge(c, e) && e in diff.newEdges {
      CycleFollowsEdges(now, was, c);
      var e :| UsesEdge(c, e) && e !in was;
      CycleFollowsEdges(now, now, c);
    }
    forall c | c in diff.removedCycles ensures exists e :: UsesEdge(c, e) && e in diff.removedEdges {
      CycleFollowsEdges(was, now, c);
      var e :| UsesEdge(c, e) && e !in now;
      CycleFollowsEdges(was, was, c);
    }
  }

  /** The gate passes a frozen baseline exactly when no edge was added and the declarations match the imports. */
  lemma {:induction false} GateIsEdgeInclusion(current: Snapshot, baseline: Snapshot, now: set<Edge>, was: set<Edge>, declared: set<Edge>)
    requires IsSnapshotOf(current, now) && IsSnapshotOf(baseline, was)
    ensures CheckBaseline(current, Some(baseline), declared) == if now <= was && now == declared then 0 else 1
  {
    hide IsSnapshotOf, Compare, Canonical, UsesEdge, EdgeSet, CycleSet;
    DiffMembers(current, baseline);
    SnapshotRoundTrip(current, now);
    SnapshotRoundTrip(baseline, was);
    CycleChangesNeedEdgeChanges(current, baseline, now, was);
    var diff := Compare(current, baseline);
    if diff.newEdges != [] { assert diff.newEdges[0] in diff.newEdges; }
    if diff.newCycles != [] { assert diff.newCycles[0] in diff.newCycles; }
  }

  /** Some listed path of a baseline is the cycle `c`, started anywhere, closed or not. */
  ghost predicate Lists(baseline: Snapshot, c: seq<string>) {
    exists p, k :: p in baseline.cycles && 0 <= k <= |c| && Open(p) == Rotate(c, k)
  }

  /** Against any baseline, even one edited by hand, a simple cycle is new exactly when no rotation of it is listed. */
  lemma {:induction false} NewCycleMeansUnlisted(current: Snapshot, baseline: Snapshot, now: set<Edge>, c: seq<string>)
    requires IsSnapshotOf(current, now) && SimpleCycle(now, c)
    ensures Normalize(c) in Compare(current, baseline).newCycles <==> !Lists(baseline, c)
  {
    PathTotalOrder();
    hide TotalOrder;
    SnapshotRoundTrip(current, now);
    EveryCycleHasCanonicalForm(now, c);
    if Lists(baseline, c) {
      var p, k :| p in baseline.cycles && 0 <= k <= |c| && Open(p) == Rotate(c, k);
      NormalizeIgnoresRotation(c, k);
      assert Normalize(Open(p)) in CycleSet(baseline);
    }
    if Normalize(c) in CycleSet(baseline) {
      var p :| p in baseline.cycles && Open(p) != [] && Normalize(Open(p)) == Normalize(c);
      SameNormalForm(Open(p), c);
    }
  }

  /** The gate passes ANY baseline exactly when it has all the edges, lists every cycle, and the declarations match. */
  lemma {:induction false} GateOfAnyBaseline(current: Snapshot, baseline: Snapshot, now: set<Edge>, declared: set<Edge>)
    requires IsSnapshotOf(current, now)
    ensures CheckBaseline(current, None, declared) == 2
    ensures CheckBaseline(current, Some(baseline), declared) ==
      if now <= EdgeSet(baseline) && (forall c :: Canonical(now, c) ==> Lists(baseline, c)) && now == declared then 0
      else 1
  {
    hide IsSnapshotOf, Compare, UsesEdge, EdgeSet, CycleSet, Lists, SimpleCycle, MinFirst;
    DiffMembers(current, baseline);
    SnapshotRoundTrip(current, now);
    var diff := Compare(current, baseline);
    if diff.newEdges != [] { assert diff.newEdges[0] in diff.newEdges; }
    if diff.newCycles != [] { assert diff.newCycles[0] in diff.newCycles; }
    forall c | Canonical(now, c) ensures c in diff.newCycles <==> !Lists(baseline, c) {
      NewCycleMeansUnlisted(current, baseline, now, c);
      NormalizeFixpoint(c);
    }
  }

  lemma {:induction false} SameNormalForm(p: seq<string>, c: seq<string>)
    requires p != [] && c != [] && Normalize(p) == Normalize(c)
    ensures exists k :: 0 <= k <= |c| && p == Rotate(c, k)
  {
    var m, n := MinIndex(p, |p|), MinIndex(c, |c|);
    assert |Rotate(p, m)| == |Rotate(c, n)|;
    RotationsCompose(p, m, if m == 0 then 0 else |p| - m);
    assert Rotate(p, 0) == p;
    RotationsCompose(c, n, if m == 0 then 0 else |p| - m);
  }
}
