/**
 The descriptor set of a gateway: the files reachable from a list of roots through imports, each
 once and imports first. A file is known by its path; descriptor contents do not matter here.
 */
module Descriptors {
  import opened Wrappers

  type Path = string

  // The imports of every file, in declaration order.
  type Graph = map<Path, seq<Path>>

  /** The graph is closed under imports, and every file ranks above what it imports: no cycles. */
  ghost predicate Ranked(graph: Graph, rank: map<Path, nat>) {
    && rank.Keys == graph.Keys
    && forall p | p in graph :: forall i | 0 <= i < |graph[p]| :: graph[p][i] in graph && rank[graph[p][i]] < rank[p]
  }

  ghost predicate Under(graph: Graph, rank: map<Path, nat>, paths: seq<Path>, limit: nat)
    requires Ranked(graph, rank)
  {
    forall i | 0 <= i < |paths| :: paths[i] in graph && rank[paths[i]] < limit
  }

  // ---------------------------------------------------------------- the traversal

  /** The files collected after visiting one more file. */
  function Visit(graph: Graph, ghost rank: map<Path, nat>, path: Path, files: seq<Path>): seq<Path>
    requires Ranked(graph, rank) && path in graph
    decreases rank[path], 1, 0
  {
    if path in files then files else VisitAll(graph, rank, graph[path], rank[path], files) + [path]
  }

  function VisitAll(graph: Graph, ghost rank: map<Path, nat>, paths: seq<Path>, ghost limit: nat, files: seq<Path>)
    : seq<Path>
    requires Ranked(graph, rank) && Under(graph, rank, paths, limit)
    decreases limit, 0, |paths|
  {
    if paths == [] then files
    else
      var n := |paths| - 1;
      Visit(graph, rank, paths[n], VisitAll(graph, rank, paths[..n], limit, files))
  }

  predicate RootsIn(graph: Graph, roots: seq<Option<Path>>) {
    forall i | 0 <= i < |roots| && roots[i].Some? :: roots[i].value in graph
  }

  /** GatewayDescriptorSet; a nil root is skipped. */
  function Collected(graph: Graph, ghost rank: map<Path, nat>, roots: seq<Option<Path>>): seq<Path>
    requires Ranked(graph, rank) && RootsIn(graph, roots)
  {
    if roots == [] then []
    else
      var n := |roots| - 1;
      var files := Collected(graph, rank, roots[..n]);
      if roots[n].None? then files else Visit(graph, rank, roots[n].value, files)
  }

  // ---------------------------------------------------------------- what a good order is

  /** Every file once, and all its imports before it. */
  ghost predicate Topological(graph: Graph, files: seq<Path>) {
    && (forall i | 0 <= i < |files| :: files[i] in graph)
    && (forall i, j | 0 <= i < j < |files| :: files[i] != files[j])
    && (forall i | 0 <= i < |files| :: forall k | 0 <= k < |graph[files[i]]| :: graph[files[i]][k] in files[..i])
  }

  /** Each file on the way imports the next. */
  ghost predicate Chain(graph: Graph, way: seq<Path>) {
    && way != [] && (forall i | 0 <= i < |way| :: way[i] in graph)
    && forall i | 0 <= i < |way| - 1 :: way[i + 1] in graph[way[i]]
  }

  ghost predicate Reaches(graph: Graph, from: Path, to: Path) {
    exists way :: Chain(graph, way) && way[0] == from && way[|way| - 1] == to
  }

  lemma ReachesSelf(graph: Graph, path: Path)
    requires path in graph
    ensures Reaches(graph, path, path)
  {
    assert Chain(graph, [path]);
  }

  lemma ReachesVia(graph: Graph, from: Path, via: Path, to: Path)
    requires from in graph && via in graph[from] && Reaches(graph, via, to)
    ensures Reaches(graph, from, to)
  {
    var way :| Chain(graph, way) && way[0] == via && way[|way| - 1] == to;
    var longer := [from] + way;
    forall i | 0 <= i < |longer| - 1 ensures longer[i + 1] in graph[longer[i]] {
      if i > 0 {
        assert way[i] in graph[way[i - 1]];
      }
    }
    assert Chain(graph, longer) && longer[|longer| - 1] == to;
  }

  // ---------------------------------------------------------------- the traversal keeps a good order

  lemma TopologicalAppend(graph: Graph, files: seq<Path>, path: Path)
    requires Topological(graph, files) && path in graph && path !in files
    requires forall k | 0 <= k < |graph[path]| :: graph[path][k] in files
    ensures Topological(graph, files + [path])
  {
    var next := files + [path];
    forall i | 0 <= i < |next| ensures forall k | 0 <= k < |graph[next[i]]| :: graph[next[i]][k] in next[..i] {
      assert next[..i] == files[..i];
      assert files[..|files|] == files;
    }
  }

  /** Nothing is collected that comes after the file itself in rank, so a visit never meets it again. */
  ghost predicate NewBelow(graph: Graph, rank: map<Path, nat>, prior: seq<Path>, files: seq<Path>, limit: nat)
    requires Ranked(graph, rank)
  {
    prior <= files && forall i | |prior| <= i < |files| :: files[i] in graph && rank[files[i]] < limit
  }

  lemma {:induction false} VisitOrders(graph: Graph, rank: map<Path, nat>, path: Path, files: seq<Path>)
    requires Ranked(graph, rank) && path in graph && Topological(graph, files)
    ensures
      var next := Visit(graph, rank, path, files);
      Topological(graph, next) && NewBelow(graph, rank, files, next, rank[path] + 1) && path in next
    decreases rank[path], 1, 0
  {
    if path !in files {
      VisitAllOrders(graph, rank, graph[path], rank[path], files);
      var inner := VisitAll(graph, rank, graph[path], rank[path], files);
      TopologicalAppend(graph, inner, path);
    }
  }

  lemma {:induction false} VisitAllOrders(graph: Graph, rank: map<Path, nat>, paths: seq<Path>, limit: nat, files: seq<Path>)
    requires Ranked(graph, rank) && Under(graph, rank, paths, limit) && Topological(graph, files)
    ensures
      var next := VisitAll(graph, rank, paths, limit, files);
      && Topological(graph, next) && NewBelow(graph, rank, files, next, limit)
      && forall i | 0 <= i < |paths| :: paths[i] in next
    decreases limit, 0, |paths|
  {
    if paths != [] {
      var n := |paths| - 1;
      VisitAllOrders(graph, rank, paths[..n], limit, files);
      var init := VisitAll(graph, rank, paths[..n], limit, files);
      VisitOrders(graph, rank, paths[n], init);
      var next := Visit(graph, rank, paths[n], init);
      forall i | 0 <= i < |paths| ensures paths[i] in next {
        if i < n {
          assert paths[..n][i] in init;
          var j :| 0 <= j < |init| && init[j] == paths[i];
          assert next[j] == paths[i];
        }
      }
    }
  }

  /** Whatever is new was reached from the file visited. */
  lemma {:induction false} VisitSound(graph: Graph, rank: map<Path, nat>, path: Path, files: seq<Path>, found: Path)
    requires Ranked(graph, rank) && path in graph
    requires found in Visit(graph, rank, path, files) && found !in files
    ensures Reaches(graph, path, found)
    decreases rank[path], 1, 0
  {
    hide Reaches;
    if found == path {
      ReachesSelf(graph, path);
    } else {
      var i := VisitAllSound(graph, rank, graph[path], rank[path], files, found);
      ReachesVia(graph, path, graph[path][i], found);
    }
  }

  lemma {:induction false} VisitAllSound(graph: Graph, rank: map<Path, nat>, paths: seq<Path>, limit: nat, files: seq<Path>,
                                         found: Path) returns (i: nat)
    requires Ranked(graph, rank) && Under(graph, rank, paths, limit)
    requires found in VisitAll(graph, rank, paths, limit, files) && found !in files
    ensures i < |paths| && Reaches(graph, paths[i], found)
    decreases limit, 0, |paths|
  {
    hide Reaches;
    var n := |paths| - 1;
    var init := VisitAll(graph, rank, paths[..n], limit, files);
    if found in init {
      i := VisitAllSound(graph, rank, paths[..n], limit, files, found);
    } else {
      VisitSound(graph, rank, paths[n], init, found);
      i := n;
    }
  }

  /** A good order that has a file has everything it reaches. */
  lemma {:induction false} OrderCloses(graph: Graph, files: seq<Path>, way: seq<Path>)
    requires Topological(graph, files) && Chain(graph, way) && way[0] in files
    ensures way[|way| - 1] in files
    decreases |way|
  {
    if |way| > 1 {
      var i :| 0 <= i < |files| && files[i] == way[0];
      assert way[1] in graph[files[i]];
      var k :| 0 <= k < |graph[files[i]]| && graph[files[i]][k] == way[1];
      assert way[1] in files[..i];
      forall j | 0 <= j < |way| - 2 ensures way[1..][j + 1] in graph[way[1..][j]] {
        assert way[j + 1 + 1] in graph[way[j + 1]];
      }
      OrderCloses(graph, files, way[1..]);
    }
  }

  // ---------------------------------------------------------------- ranks exist

  ghost predicate Closed(graph: Graph) {
    forall p | p in graph :: forall i | 0 <= i < |graph[p]| :: graph[p][i] in graph
  }

  /** No file reaches itself through one of its imports. */
  ghost predicate Acyclic(graph: Graph) {
    Closed(graph) && forall p, via | p in graph && via in graph[p] :: !Reaches(graph, via, p)
  }

  ghost function Below(graph: Graph, path: Path): set<Path> {
    set q | q in graph && Reaches(graph, path, q)
  }

  lemma SmallerSet(a: set<Path>, b: set<Path>)
    requires a < b
    ensures |a| < |b|
  {
    var x :| x in b && x !in a;
    assert b == (b - {x}) + {x};
    SubsetSize(a, b - {x});
  }

  lemma {:induction false} SubsetSize(a: set<Path>, b: set<Path>)
    requires a <= b
    ensures |a| <= |b|
  {
    if a != {} {
      var x :| x in a;
      SubsetSize(a - {x}, b - {x});
    }
  }

  lemma ImportBelow(graph: Graph, path: Path, via: Path)
    requires Acyclic(graph) && path in graph && via in graph[path]
    ensures |Below(graph, via)| < |Below(graph, path)|
  {
    hide Reaches;
    forall q | q in Below(graph, via) ensures q in Below(graph, path) {
      ReachesVia(graph, path, via, q);
    }
    ReachesSelf(graph, path);
    assert path in Below(graph, path) && path !in Below(graph, via);
    SmallerSet(Below(graph, via), Below(graph, path));
  }

  lemma {:induction false} RankDescends(graph: Graph, rank: map<Path, nat>, way: seq<Path>)
    requires Ranked(graph, rank) && Chain(graph, way)
    ensures rank[way[|way| - 1]] <= rank[way[0]]
  {
    if |way| > 1 {
      var k :| 0 <= k < |graph[way[0]]| && graph[way[0]][k] == way[1];
      forall j | 0 <= j < |way| - 2 ensures way[1..][j + 1] in graph[way[1..][j]] {
        assert way[j + 1 + 1] in graph[way[j + 1]];
      }
      RankDescends(graph, rank, way[1..]);
    }
  }

  /** The traversal's termination measure exists exactly for the graphs without import cycles. */
  lemma RanksExist(graph: Graph)
    ensures Acyclic(graph) <==> exists rank :: Ranked(graph, rank)
  {
    if Acyclic(graph) {
      var rank := map p | p in graph :: |Below(graph, p)|;
      forall p, i | p in graph && 0 <= i < |graph[p]| ensures graph[p][i] in graph && rank[graph[p][i]] < rank[p] {
        ImportBelow(graph, p, graph[p][i]);
      }
      assert Ranked(graph, rank);
    }
    if rank :| Ranked(graph, rank) {
      forall p, via | p in graph && via in graph[p] ensures !Reaches(graph, via, p) {
        if way :| Chain(graph, way) && way[0] == via && way[|way| - 1] == p {
          RankDescends(graph, rank, way);
          assert false;
        }
      }
    }
  }

  // ---------------------------------------------------------------- the whole set

  ghost predicate FromRoots(graph: Graph, roots: seq<Option<Path>>, path: Path) {
    exists i | 0 <= i < |roots| && roots[i].Some? :: Reaches(graph, roots[i].value, path)
  }

  lemma {:induction false} CollectedOrders(graph: Graph, rank: map<Path, nat>, roots: seq<Option<Path>>)
    requires Ranked(graph, rank) && RootsIn(graph, roots)
    ensures
      var files := Collected(graph, rank, roots);
      && Topological(graph, files)
      && (forall i | 0 <= i < |roots| && roots[i].Some? :: roots[i].value in files)
      && forall k | 0 <= k < |roots| :: Collected(graph, rank, roots[..k]) <= files
  {
    if roots != [] {
      var n := |roots| - 1;
      CollectedOrders(graph, rank, roots[..n]);
      var init, files := Collected(graph, rank, roots[..n]), Collected(graph, rank, roots);
      if roots[n].Some? {
        VisitOrders(graph, rank, roots[n].value, init);
      }
      assert init <= files;
      forall i | 0 <= i < |roots| && roots[i].Some? ensures roots[i].value in files {
        if i < n {
          assert roots[..n][i].value in init;
          var j :| 0 <= j < |init| && init[j] == roots[i].value;
          assert files[j] == roots[i].value;
        }
      }
      forall k | 0 <= k < |roots| ensures Collected(graph, rank, roots[..k]) <= files {
        if k < n {
          assert roots[..n][..k] == roots[..k];
        }
      }
    }
  }

  lemma {:induction false} CollectedSound(graph: Graph, rank: map<Path, nat>, roots: seq<Option<Path>>, path: Path)
    requires Ranked(graph, rank) && RootsIn(graph, roots) && path in Collected(graph, rank, roots)
    ensures FromRoots(graph, roots, path)
  {
    hide Reaches, Visit;
    var n := |roots| - 1;
    var init := Collected(graph, rank, roots[..n]);
    if path in init {
      CollectedSound(graph, rank, roots[..n], path);
      var i :| 0 <= i < n && roots[..n][i].Some? && Reaches(graph, roots[..n][i].value, path);
      assert Reaches(graph, roots[i].value, path);
    } else {
      VisitSound(graph, rank, roots[n].value, init, path);
    }
  }

  /**
   For any acyclic import graph and any roots: the set holds exactly the files reachable from the
   roots, each once, every import before its importer; and further roots only append to it.
   */
  lemma {:induction false} DescriptorSetExact(graph: Graph, rank: map<Path, nat>, roots: seq<Option<Path>>)
    requires Ranked(graph, rank) && RootsIn(graph, roots)
    ensures
      var files := Collected(graph, rank, roots);
      && (forall path :: path in files <==> FromRoots(graph, roots, path))
      && (forall i, j | 0 <= i < j < |files| :: files[i] != files[j])
      && (forall i | 0 <= i < |files| :: files[i] in graph
            && forall k | 0 <= k < |graph[files[i]]| :: graph[files[i]][k] in files[..i])
      && (forall k | 0 <= k < |roots| :: Collected(graph, rank, roots[..k]) <= files)
  {
    hide Collected, FromRoots;
    CollectedOrders(graph, rank, roots);
    var files := Collected(graph, rank, roots);
    forall path ensures path in files <==> FromRoots(graph, roots, path) {
      if path in files {
        CollectedSound(graph, rank, roots, path);
      }
      if FromRoots(graph, roots, path) {
        FromRootsIn(graph, files, roots, path);
      }
    }
  }

  lemma FromRootsIn(graph: Graph, files: seq<Path>, roots: seq<Option<Path>>, path: Path)
    requires Topological(graph, files) && FromRoots(graph, roots, path)
    requires forall i | 0 <= i < |roots| && roots[i].Some? :: roots[i].value in files
    ensures path in files
  {
    hide Topological;
    var i :| 0 <= i < |roots| && roots[i].Some? && Reaches(graph, roots[i].value, path);
    var way :| Chain(graph, way) && way[0] == roots[i].value && way[|way| - 1] == path;
    OrderCloses(graph, files, way);
  }

  // ---------------------------------------------------------------- the collector

  /** The state that the recursive traversal shares: the paths seen and the set being built. */
  class Collector {
    const graph: Graph
    ghost const rank: map<Path, nat>
    var seen: set<Path>
    var files: seq<Path>

    ghost predicate Valid()
      reads this
    {
      Ranked(graph, rank) && forall path :: path in seen <==> path in files
    }

    constructor (graph: Graph, ghost rank: map<Path, nat>)
      requires Ranked(graph, rank)
      ensures Valid() && this.graph == graph && this.rank == rank && files == []
    {
      this.graph, this.rank := graph, rank;
      seen, files := {}, [];
    }

    /** collectFileDescriptors; it ends because imports rank lower. */
    method Collect(file: Option<Path>)
      requires Valid() && (file.Some? ==> file.value in graph)
      modifies this
      ensures Valid()
      ensures files == if file.None? then old(files) else Visit(graph, rank, file.value, old(files))
      decreases if file.Some? then rank[file.value] + 1 else 0
    {
      if file.None? || file.value in seen {
        return;
      }
      var path := file.value;
      var imports := graph[path];
      var i := 0;
      while i < |imports|
        invariant 0 <= i <= |imports| && Valid()
        invariant files == VisitAll(graph, rank, imports[..i], rank[path], old(files))
      {
        Collect(Some(imports[i]));
        assert imports[..i + 1][..i] == imports[..i];
        i := i + 1;
      }
      assert imports[..i] == imports;
      seen := seen + {path};
      files := files + [path];
    }

    /** GatewayDescriptorSet. */
    method CollectAll(roots: seq<Option<Path>>)
      requires Valid() && files == [] && RootsIn(graph, roots)
      modifies this
      ensures Valid() && files == Collected(graph, rank, roots)
    {
      var i := 0;
      while i < |roots|
        invariant 0 <= i <= |roots| && Valid()
        invariant files == Collected(graph, rank, roots[..i])
      {
        Collect(roots[i]);
        assert roots[..i + 1][..i] == roots[..i];
        i := i + 1;
      }
      assert roots[..i] == roots;
    }
  }
}
