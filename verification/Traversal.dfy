/**
 What the impact search returns, on any graph, cyclic or not.

 The reference notion is a chain of edges from a seed.  The search is related to it by
 an invariant on its frontier: lengths in the worklist are layered, and every column
 already taken from the worklist has all its edges accounted for.
 */
module Traversal {
  import opened Models
  import opened Ordering
  import opened Lineage

  // ---------- chains and reachability ----------

  function Last(p: seq<LineageEdge>): LineageEdge
    requires p != []
  {
    p[|p| - 1]
  }

  ghost predicate Linked(p: seq<LineageEdge>) {
    forall i :: 0 <= i < |p| - 1 ==> p[i].downstream == p[i + 1].upstream
  }

  /** A nonempty run of edges of the graph that starts at a seed and is connected. */
  ghost predicate IsChain(edges: seq<LineageEdge>, seeds: seq<ColumnRef>, p: seq<LineageEdge>) {
    p != [] && p[0].upstream in seeds && Linked(p) && forall e :: e in p ==> e in edges
  }

  /** Reachable from a seed along zero or more edges. */
  ghost predicate Reachable(edges: seq<LineageEdge>, seeds: seq<ColumnRef>, c: ColumnRef) {
    c in seeds || exists p :: IsChain(edges, seeds, p) && Last(p).downstream == c
  }

  ghost function ReachKeys(edges: seq<LineageEdge>, seeds: seq<ColumnRef>): set<ImpactKey> {
    set e | e in edges && Reachable(edges, seeds, e.upstream) :: KeyOfEdge(e)
  }

  lemma ChainExtends(edges: seq<LineageEdge>, seeds: seq<ColumnRef>, p: seq<LineageEdge>, e: LineageEdge)
    requires e in edges
    requires if p == [] then e.upstream in seeds else IsChain(edges, seeds, p) && Last(p).downstream == e.upstream
    ensures IsChain(edges, seeds, p + [e]) && Last(p + [e]) == e
  {
    var q := p + [e];
    forall i | 0 <= i < |q| - 1 ensures q[i].downstream == q[i + 1].upstream {
      if i < |p| - 1 {
        assert q[i] == p[i] && q[i + 1] == p[i + 1];
      }
    }
  }

  lemma ChainShrinks(edges: seq<LineageEdge>, seeds: seq<ColumnRef>, p: seq<LineageEdge>)
    requires IsChain(edges, seeds, p) && |p| > 1
    ensures IsChain(edges, seeds, p[..|p| - 1]) && Last(p[..|p| - 1]).downstream == Last(p).upstream
  {
  }

  // ---------- the frontier invariant ----------

  ghost predicate GoodImpact(edges: seq<LineageEdge>, seeds: seq<ColumnRef>, i: PipelineImpact) {
    IsChain(edges, seeds, i.path) && Last(i.path).pipeline == i.pipeline && Last(i.path).downstream == i.downstream
  }

  ghost predicate GoodEntry(edges: seq<LineageEdge>, seeds: seq<ColumnRef>, q: Entry) {
    if q.path == [] then q.column in seeds
    else IsChain(edges, seeds, q.path) && Last(q.path).downstream == q.column
  }

  ghost predicate DistinctImpacts(found: seq<PipelineImpact>) {
    forall i, j :: 0 <= i < j < |found| ==> KeyOfImpact(found[i]) != KeyOfImpact(found[j])
  }

  /** Every path and worklist entry is genuine, and no key is reported twice. */
  ghost predicate Sound(edges: seq<LineageEdge>, seeds: seq<ColumnRef>, f: Frontier) {
    DistinctImpacts(f.found) &&
    (forall i :: i in f.found ==> GoodImpact(edges, seeds, i)) &&
    (forall q :: q in f.queue ==> GoodEntry(edges, seeds, q))
  }

  /** Path lengths do not decrease along the worklist and span at most two layers. */
  ghost predicate Layered(f: Frontier) {
    (forall i, j :: 0 <= i < j < |f.queue| ==> |f.queue[i].path| <= |f.queue[j].path|) &&
    (forall j :: 0 <= j < |f.queue| ==> |f.queue[j].path| <= |f.queue[0].path| + 1) &&
    (f.queue != [] ==> forall i :: i in f.found ==> |i.path| <= |f.queue[0].path| + 1)
  }

  /** Some impact has this key and a path of at most n edges. */
  ghost predicate ReachedWithin(found: seq<PipelineImpact>, k: ImpactKey, n: nat) {
    exists i :: i in found && KeyOfImpact(i) == k && |i.path| <= n
  }

  /** Every edge leaving c has been followed, from a path of n edges. */
  ghost predicate Closed(adj: Adjacency, found: seq<PipelineImpact>, c: ColumnRef, n: nat) {
    forall e :: e in Outgoing(adj, c) ==> ReachedWithin(found, KeyOfEdge(e), n + 1)
  }

  ghost predicate Covered(adj: Adjacency, f: Frontier, c: ColumnRef, p: seq<LineageEdge>) {
    Entry(c, p) in f.queue || Closed(adj, f.found, c, |p|)
  }

  ghost predicate Complete(adj: Adjacency, seeds: seq<ColumnRef>, f: Frontier) {
    (forall c :: c in seeds ==> Covered(adj, f, c, [])) &&
    (forall i :: i in f.found ==> Covered(adj, f, i.downstream, i.path))
  }

  ghost predicate Invariant(adj: Adjacency, edges: seq<LineageEdge>, seeds: seq<ColumnRef>, f: Frontier) {
    Sound(edges, seeds, f) && Layered(f) && Complete(adj, seeds, f)
  }

  lemma StartInvariant(adj: Adjacency, edges: seq<LineageEdge>, seeds: seq<ColumnRef>)
    ensures Invariant(adj, edges, seeds, Start(seeds))
  {
    var f := Start(seeds);
    forall c | c in seeds ensures Entry(c, []) in f.queue {
      var i :| 0 <= i < |seeds| && seeds[i] == c;
      assert f.queue[i] == Entry(c, []);
    }
  }

  /** What following some edges adds: matching tails of worklist and impacts. */
  ghost predicate Grown(edges: seq<LineageEdge>, path: seq<LineageEdge>, f: Frontier, g: Frontier) {
    f.queue <= g.queue && f.found <= g.found &&
    |g.queue| - |f.queue| == |g.found| - |f.found| &&
    (forall k :: |f.found| <= k < |g.found| ==>
      |g.found[k].path| == |path| + 1 &&
      var e := g.found[k].path[|path|];
      e in edges && g.found[k] == PipelineImpact(e.pipeline, e.downstream, path + [e]) &&
      g.queue[|f.queue| + k - |f.found|] == Entry(e.downstream, path + [e]))
  }

  /** Following one more edge: nothing new, or one new impact and the matching entry. */
  lemma DiscoverGrows(edges: seq<LineageEdge>, path: seq<LineageEdge>, f: Frontier, h: Frontier, e: LineageEdge)
    requires e in edges && Grown(edges, path, f, h) && DistinctImpacts(h.found)
    ensures var g := Discover(e, path, h);
      Grown(edges, path, f, g) && DistinctImpacts(g.found) &&
      FoundKeys(g.found) == FoundKeys(h.found) + {KeyOfEdge(e)}
  {
    if KeyOfEdge(e) !in FoundKeys(h.found) {
      var i := PipelineImpact(e.pipeline, e.downstream, path + [e]);
      FoundKeysAppend(h.found, i);
      assert forall j :: 0 <= j < |h.found| ==> h.found[j] in h.found;
      assert i.path[|path|] == e;
    }
  }

  lemma GrownWidens(edges: seq<LineageEdge>, more: seq<LineageEdge>, path: seq<LineageEdge>, f: Frontier, g: Frontier)
    requires Grown(edges, path, f, g) && forall e :: e in edges ==> e in more
    ensures Grown(more, path, f, g)
  {
  }

  lemma {:induction false} ExpandGrows(edges: seq<LineageEdge>, path: seq<LineageEdge>, f: Frontier)
    requires DistinctImpacts(f.found)
    ensures var g := Expand(edges, path, f);
      Grown(edges, path, f, g) && DistinctImpacts(g.found) &&
      forall e :: e in edges ==> KeyOfEdge(e) in FoundKeys(g.found)
  {
    if edges != [] {
      var n := |edges| - 1;
      var h := Expand(edges[..n], path, f);
      ExpandGrows(edges[..n], path, f);
      assert edges == edges[..n] + [edges[n]];
      GrownWidens(edges[..n], edges, path, f, h);
      DiscoverGrows(edges, path, f, h, edges[n]);
    }
  }

  lemma NewImpactGood(adj: Adjacency, edges: seq<LineageEdge>, seeds: seq<ColumnRef>, q: Entry, out: seq<LineageEdge>,
                      h: Frontier, g: Frontier, k: nat)
    requires Represents(adj, edges) && GoodEntry(edges, seeds, q) && out == Outgoing(adj, q.column)
    requires Grown(out, q.path, h, g) && |h.found| <= k < |g.found|
    ensures GoodImpact(edges, seeds, g.found[k]) && GoodEntry(edges, seeds, g.queue[|h.queue| + k - |h.found|])
  {
    var e := g.found[k].path[|q.path|];
    assert e in edges && e.upstream == q.column;
    ChainExtends(edges, seeds, q.path, e);
  }

  lemma VisitImpacts(adj: Adjacency, edges: seq<LineageEdge>, seeds: seq<ColumnRef>, f: Frontier, i: PipelineImpact)
    requires Represents(adj, edges) && f.queue != [] && Sound(edges, seeds, f) && i in Visit(adj, f).found
    ensures GoodImpact(edges, seeds, i)
  {
    var q, out := f.queue[0], Outgoing(adj, f.queue[0].column);
    var h, g := Frontier(f.queue[1..], f.found), Visit(adj, f);
    ExpandGrows(out, q.path, h);
    var k :| 0 <= k < |g.found| && g.found[k] == i;
    if k < |h.found| {
      assert i == f.found[k] && i in f.found;
    } else {
      assert q in f.queue;
      NewImpactGood(adj, edges, seeds, q, out, h, g, k);
    }
  }

  lemma NewEntryGood(adj: Adjacency, edges: seq<LineageEdge>, seeds: seq<ColumnRef>, q: Entry, out: seq<LineageEdge>,
                     h: Frontier, g: Frontier, j: nat)
    requires Represents(adj, edges) && GoodEntry(edges, seeds, q) && out == Outgoing(adj, q.column)
    requires Grown(out, q.path, h, g) && |h.queue| <= j < |g.queue|
    ensures GoodEntry(edges, seeds, g.queue[j])
  {
    var k := j - |h.queue| + |h.found|;
    NewImpactGood(adj, edges, seeds, q, out, h, g, k);
    assert |h.queue| + k - |h.found| == j;
  }

  lemma VisitGrown(adj: Adjacency, f: Frontier)
    requires f.queue != [] && DistinctImpacts(f.found)
    ensures Grown(Outgoing(adj, f.queue[0].column), f.queue[0].path, Frontier(f.queue[1..], f.found), Visit(adj, f))
  {
    ExpandGrows(Outgoing(adj, f.queue[0].column), f.queue[0].path, Frontier(f.queue[1..], f.found));
  }

  lemma VisitEntries(adj: Adjacency, edges: seq<LineageEdge>, seeds: seq<ColumnRef>, f: Frontier, x: Entry)
    requires Represents(adj, edges) && f.queue != [] && Sound(edges, seeds, f) && x in Visit(adj, f).queue
    ensures GoodEntry(edges, seeds, x)
  {
    var g := Visit(adj, f);
    VisitGrown(adj, f);
    var j :| 0 <= j < |g.queue| && g.queue[j] == x;
    if j < |f.queue| - 1 {
      assert x == f.queue[1..][j] == f.queue[j + 1] && x in f.queue;
    } else {
      assert f.queue[0] in f.queue;
      NewEntryGood(adj, edges, seeds, f.queue[0], Outgoing(adj, f.queue[0].column), Frontier(f.queue[1..], f.found),
                   g, j);
    }
  }

  lemma VisitSound(adj: Adjacency, edges: seq<LineageEdge>, seeds: seq<ColumnRef>, f: Frontier)
    requires Represents(adj, edges) && f.queue != [] && Sound(edges, seeds, f)
    ensures Sound(edges, seeds, Visit(adj, f))
  {
    ExpandGrows(Outgoing(adj, f.queue[0].column), f.queue[0].path, Frontier(f.queue[1..], f.found));
    forall i | i in Visit(adj, f).found ensures GoodImpact(edges, seeds, i) {
      VisitImpacts(adj, edges, seeds, f, i);
    }
    forall x | x in Visit(adj, f).queue ensures GoodEntry(edges, seeds, x) {
      VisitEntries(adj, edges, seeds, f, x);
    }
  }

  /** Entries left in the worklist keep their lengths; new ones are one longer than the entry taken. */
  lemma VisitLengths(adj: Adjacency, f: Frontier)
    requires f.queue != [] && Layered(f) && DistinctImpacts(f.found)
    ensures var g, n := Visit(adj, f), |f.queue[0].path|;
      |f.queue| - 1 <= |g.queue| &&
      forall j :: 0 <= j < |g.queue| ==>
        n <= |g.queue[j].path| <= n + 1 &&
        (if j < |f.queue| - 1 then g.queue[j] == f.queue[j + 1] else |g.queue[j].path| == n + 1)
  {
    var q, out := f.queue[0], Outgoing(adj, f.queue[0].column);
    var h, g := Frontier(f.queue[1..], f.found), Visit(adj, f);
    ExpandGrows(out, q.path, h);
    var n := |q.path|;
    forall j | 0 <= j < |g.queue|
      ensures n <= |g.queue[j].path| <= n + 1
      ensures if j < |f.queue| - 1 then g.queue[j] == f.queue[j + 1] else |g.queue[j].path| == n + 1
    {
      if j < |h.queue| {
        assert g.queue[j] == f.queue[j + 1];
      } else {
        var k := j - |h.queue| + |h.found|;
        var i := g.found[k];
        assert g.queue[|h.queue| + k - |h.found|] == g.queue[j] == Entry(i.downstream, i.path);
      }
    }
  }

  lemma VisitLayered(adj: Adjacency, f: Frontier)
    requires f.queue != [] && Layered(f) && DistinctImpacts(f.found)
    ensures Layered(Visit(adj, f))
  {
    var h, g := Frontier(f.queue[1..], f.found), Visit(adj, f);
    var n := |f.queue[0].path|;
    VisitLengths(adj, f);
    ExpandGrows(Outgoing(adj, f.queue[0].column), f.queue[0].path, h);
    forall i | i in g.found ensures |i.path| <= n + 1 {
      var k :| 0 <= k < |g.found| && g.found[k] == i;
      if k < |h.found| { assert i == f.found[k]; }
    }
  }

  lemma ClosedGrows(adj: Adjacency, found: seq<PipelineImpact>, more: seq<PipelineImpact>, c: ColumnRef, n: nat)
    requires found <= more && Closed(adj, found, c, n)
    ensures Closed(adj, more, c, n)
  {
    forall e | e in Outgoing(adj, c) ensures ReachedWithin(more, KeyOfEdge(e), n + 1) {
      var i :| i in found && KeyOfImpact(i) == KeyOfEdge(e) && |i.path| <= n + 1;
      assert i in more;
    }
  }

  /** Taking an entry from the worklist leaves its column closed. */
  lemma VisitCloses(adj: Adjacency, f: Frontier)
    requires f.queue != [] && Layered(f) && DistinctImpacts(f.found)
    ensures Closed(adj, Visit(adj, f).found, f.queue[0].column, |f.queue[0].path|)
  {
    var q, out := f.queue[0], Outgoing(adj, f.queue[0].column);
    var h, g := Frontier(f.queue[1..], f.found), Visit(adj, f);
    ExpandGrows(out, q.path, h);
    forall e | e in out ensures ReachedWithin(g.found, KeyOfEdge(e), |q.path| + 1) {
      var i :| i in g.found && KeyOfImpact(i) == KeyOfEdge(e);
      var k :| 0 <= k < |g.found| && g.found[k] == i;
      if k < |h.found| { assert i == f.found[k]; }
    }
  }

  lemma VisitCovers(adj: Adjacency, f: Frontier, c: ColumnRef, p: seq<LineageEdge>)
    requires f.queue != [] && Layered(f) && DistinctImpacts(f.found)
    requires Covered(adj, f, c, p)
    ensures Covered(adj, Visit(adj, f), c, p)
  {
    var h, g := Frontier(f.queue[1..], f.found), Visit(adj, f);
    ExpandGrows(Outgoing(adj, f.queue[0].column), f.queue[0].path, h);
    if Entry(c, p) in f.queue {
      var j :| 0 <= j < |f.queue| && f.queue[j] == Entry(c, p);
      if j == 0 {
        VisitCloses(adj, f);
      } else {
        assert g.queue[j - 1] == h.queue[j - 1] == f.queue[j];
      }
    } else {
      ClosedGrows(adj, f.found, g.found, c, |p|);
    }
  }

  lemma VisitComplete(adj: Adjacency, seeds: seq<ColumnRef>, f: Frontier)
    requires f.queue != [] && Layered(f) && DistinctImpacts(f.found) && Complete(adj, seeds, f)
    ensures Complete(adj, seeds, Visit(adj, f))
  {
    var q, h, g := f.queue[0], Frontier(f.queue[1..], f.found), Visit(adj, f);
    ExpandGrows(Outgoing(adj, q.column), q.path, h);
    forall c | c in seeds ensures Covered(adj, g, c, []) {
      VisitCovers(adj, f, c, []);
    }
    forall i | i in g.found ensures Covered(adj, g, i.downstream, i.path) {
      var k :| 0 <= k < |g.found| && g.found[k] == i;
      if k < |h.found| {
        assert i == f.found[k];
        VisitCovers(adj, f, i.downstream, i.path);
      } else {
        assert g.queue[|h.queue| + k - |h.found|] == Entry(i.downstream, i.path);
      }
    }
  }

  lemma {:induction false} ExploreInvariant(adj: Adjacency, edges: seq<LineageEdge>, seeds: seq<ColumnRef>, f: Frontier)
    requires Represents(adj, edges) && Invariant(adj, edges, seeds, f)
    ensures Invariant(adj, edges, seeds, Explore(adj, f)) && Explore(adj, f).queue == []
    decreases Unvisited(adj, f), |f.queue|
  {
    if f.queue != [] {
      VisitProgress(adj, f);
      VisitSound(adj, edges, seeds, f);
      VisitLayered(adj, f);
      VisitComplete(adj, seeds, f);
      ExploreInvariant(adj, edges, seeds, Visit(adj, f));
    }
  }

  // ---------- what the result means ----------

  /** At the end, every chain has been matched by an impact that is no longer. */
  lemma {:induction false} ChainsAreFound(adj: Adjacency, edges: seq<LineageEdge>, seeds: seq<ColumnRef>, f: Frontier,
                                          p: seq<LineageEdge>)
    requires Represents(adj, edges) && Invariant(adj, edges, seeds, f) && f.queue == []
    requires IsChain(edges, seeds, p)
    ensures ReachedWithin(f.found, KeyOfEdge(Last(p)), |p|)
    decreases |p|
  {
    var e := Last(p);
    assert e in p && e in edges;
    assert e in Outgoing(adj, e.upstream);
    if |p| == 1 {
      assert Closed(adj, f.found, e.upstream, 0) by { assert Covered(adj, f, e.upstream, []); }
    } else {
      var front := p[..|p| - 1];
      ChainShrinks(edges, seeds, p);
      ChainsAreFound(adj, edges, seeds, f, front);
      var i :| i in f.found && KeyOfImpact(i) == KeyOfEdge(Last(front)) && |i.path| <= |front|;
      assert i.downstream == e.upstream;
      assert Covered(adj, f, i.downstream, i.path);
      var j :| j in f.found && KeyOfImpact(j) == KeyOfEdge(e) && |j.path| <= |i.path| + 1;
      assert |j.path| <= |p|;
    }
  }

  /** No chain from a seed ends in this pipeline and column with fewer edges. */
  ghost predicate Shortest(edges: seq<LineageEdge>, seeds: seq<ColumnRef>, i: PipelineImpact) {
    forall p :: IsChain(edges, seeds, p) && KeyOfEdge(Last(p)) == KeyOfImpact(i) ==> |i.path| <= |p|
  }

  lemma DistinctImpactsPermutation(a: seq<PipelineImpact>, b: seq<PipelineImpact>)
    requires multiset(a) == multiset(b) && DistinctImpacts(a)
    ensures DistinctImpacts(b)
  {
    SameElements(a, b);
    NoDuplicatesPermutation(a, b);
    forall i, j | 0 <= i < j < |b| ensures KeyOfImpact(b[i]) != KeyOfImpact(b[j]) {
      assert b[i] in a && b[j] in a;
    }
  }

  lemma SameKeyIndex(found: seq<PipelineImpact>, i: PipelineImpact, j: PipelineImpact)
    requires DistinctImpacts(found) && i in found && j in found && KeyOfImpact(i) == KeyOfImpact(j)
    ensures i == j
  {
    var m :| 0 <= m < |found| && found[m] == i;
    var n :| 0 <= n < |found| && found[n] == j;
  }

  lemma FoundExact(edges: seq<LineageEdge>, seeds: seq<ColumnRef>)
    ensures var found := Explore(AdjacencyOf(edges), Start(seeds)).found;
      DistinctImpacts(found) && FoundKeys(found) == ReachKeys(edges, seeds) &&
      forall i :: i in found ==> GoodImpact(edges, seeds, i) && Shortest(edges, seeds, i)
  {
    var adj := AdjacencyOf(edges);
    var f := Explore(adj, Start(seeds));
    AdjacencyRepresents(edges);
    StartInvariant(adj, edges, seeds);
    ExploreInvariant(adj, edges, seeds, Start(seeds));
    forall i | i in f.found ensures KeyOfImpact(i) in ReachKeys(edges, seeds) {
      ImpactReached(edges, seeds, i);
    }
    forall i, p | i in f.found && IsChain(edges, seeds, p) && KeyOfEdge(Last(p)) == KeyOfImpact(i)
      ensures |i.path| <= |p|
    {
      ChainsAreFound(adj, edges, seeds, f, p);
      var j :| j in f.found && KeyOfImpact(j) == KeyOfEdge(Last(p)) && |j.path| <= |p|;
      SameKeyIndex(f.found, i, j);
    }
    forall k | k in ReachKeys(edges, seeds) ensures k in FoundKeys(f.found) {
      var e :| e in edges && Reachable(edges, seeds, e.upstream) && KeyOfEdge(e) == k;
      var p := ChainTo(edges, seeds, e);
      ChainsAreFound(adj, edges, seeds, f, p);
    }
  }

  lemma ImpactReached(edges: seq<LineageEdge>, seeds: seq<ColumnRef>, i: PipelineImpact)
    requires GoodImpact(edges, seeds, i)
    ensures KeyOfImpact(i) in ReachKeys(edges, seeds)
  {
    var e := Last(i.path);
    assert e in i.path && e in edges;
    if |i.path| > 1 {
      ChainShrinks(edges, seeds, i.path);
    }
    assert Reachable(edges, seeds, e.upstream);
    assert KeyOfEdge(e) == KeyOfImpact(i);
  }

  lemma ChainTo(edges: seq<LineageEdge>, seeds: seq<ColumnRef>, e: LineageEdge) returns (p: seq<LineageEdge>)
    requires e in edges && Reachable(edges, seeds, e.upstream)
    ensures IsChain(edges, seeds, p) && Last(p) == e
  {
    if e.upstream in seeds {
      ChainExtends(edges, seeds, [], e);
      p := [] + [e];
    } else {
      var q :| IsChain(edges, seeds, q) && Last(q).downstream == e.upstream;
      ChainExtends(edges, seeds, q, e);
      p := q + [e];
    }
  }

  /**
   One impact for each pipeline/column pair that is reached and for no other, in order, each with
   a genuine shortest path.
   */
  lemma TraversalExact(edges: seq<LineageEdge>, seeds: seq<ColumnRef>)
    ensures var r := ImpactsFor(AdjacencyOf(edges), seeds);
      DistinctImpacts(r) && Ascending(r, ImpactOrder) && FoundKeys(r) == ReachKeys(edges, seeds) &&
      forall i :: i in r ==> GoodImpact(edges, seeds, i) && Shortest(edges, seeds, i)
  {
    var found := Explore(AdjacencyOf(edges), Start(seeds)).found;
    FoundExact(edges, seeds);
    SortByIsAscendingPermutation(found, ImpactOrder);
    SortByKeepsElements(found, ImpactOrder);
    DistinctImpactsPermutation(found, SortBy(found, ImpactOrder));
  }

  // ---------- order ----------

  /** CRITICAL before HIGH before MEDIUM before LOW. */
  predicate MoreCritical(a: Criticality, b: Criticality) {
    match a
    case Critical => b != Critical
    case High => b == Medium || b == Low
    case Medium => b == Low
    case Low => false
  }

  /** The more critical pipeline first, then by pipeline key and qualified name of the column. */
  ghost predicate ListedBefore(i: PipelineImpact, j: PipelineImpact) {
    var x := [i.pipeline.key, i.downstream.dataset.schema + "." + i.downstream.dataset.table + "." + i.downstream.name];
    var y := [j.pipeline.key, j.downstream.dataset.schema + "." + j.downstream.dataset.table + "." + j.downstream.name];
    if i.pipeline.criticality == j.pipeline.criticality then x == y || TuplePrecedes(x, y)
    else MoreCritical(i.pipeline.criticality, j.pipeline.criticality)
  }

  lemma ImpactsInOrder(edges: seq<LineageEdge>, seeds: seq<ColumnRef>, a: nat, b: nat)
    requires a < b < |ImpactsFor(AdjacencyOf(edges), seeds)|
    ensures ListedBefore(ImpactsFor(AdjacencyOf(edges), seeds)[a], ImpactsFor(AdjacencyOf(edges), seeds)[b])
  {
    var r := ImpactsFor(AdjacencyOf(edges), seeds);
    TraversalExact(edges, seeds);
    assert KeyLeq(ImpactOrder(r[a]), ImpactOrder(r[b]));
    OrderMeansListedBefore(r[a], r[b]);
  }

  lemma OrderMeansListedBefore(i: PipelineImpact, j: PipelineImpact)
    requires KeyLeq(ImpactOrder(i), ImpactOrder(j))
    ensures ListedBefore(i, j)
  {
    KeyLeqIff(ImpactOrder(i), ImpactOrder(j));
  }

  // ---------- seeds ----------

  lemma ReachableMonotone(edges: seq<LineageEdge>, seeds: seq<ColumnRef>, more: seq<ColumnRef>, c: ColumnRef)
    requires Reachable(edges, seeds, c) && forall s :: s in seeds ==> s in more
    ensures Reachable(edges, more, c)
  {
    if c !in seeds {
      var p: seq<LineageEdge> :| IsChain(edges, seeds, p) && Last(p).downstream == c;
      assert IsChain(edges, more, p);
    }
  }

  lemma SeedOf(edges: seq<LineageEdge>, seeds: seq<ColumnRef>, c: ColumnRef) returns (s: ColumnRef)
    requires Reachable(edges, seeds, c)
    ensures s in seeds && Reachable(edges, [s], c)
  {
    if c in seeds {
      s := c;
    } else {
      var p: seq<LineageEdge> :| IsChain(edges, seeds, p) && Last(p).downstream == c;
      s := p[0].upstream;
      assert IsChain(edges, [s], p);
    }
  }

  /** Several seeds reach what each of them reaches alone. */
  lemma SeedsUnion(edges: seq<LineageEdge>, seeds: seq<ColumnRef>, k: ImpactKey)
    ensures k in FoundKeys(ImpactsFor(AdjacencyOf(edges), seeds))
      <==> exists s :: s in seeds && k in FoundKeys(ImpactsFor(AdjacencyOf(edges), [s]))
  {
    TraversalExact(edges, seeds);
    forall s { TraversalExact(edges, [s]); }
    if k in ReachKeys(edges, seeds) {
      var e :| e in edges && Reachable(edges, seeds, e.upstream) && KeyOfEdge(e) == k;
      var s := SeedOf(edges, seeds, e.upstream);
      assert k in ReachKeys(edges, [s]);
    }
    if s :| s in seeds && k in ReachKeys(edges, [s]) {
      var e :| e in edges && Reachable(edges, [s], e.upstream) && KeyOfEdge(e) == k;
      ReachableMonotone(edges, [s], seeds, e.upstream);
    }
  }

  // ---------- the impacts of changes ----------

  lemma {:induction false} BreakingRefsExact(changes: seq<SchemaChange>, r: ColumnRef)
    ensures r in BreakingRefs(changes) <==> exists c :: c in changes && c.severity.Breaking? && c.Ref() == r
  {
    if changes != [] {
      BreakingRefsExact(changes[1..], r);
      assert changes == [changes[0]] + changes[1..];
    }
  }

  /**
   Changes have an impact for a pipeline and column exactly when an edge of that pair is reached
   from the column of some BREAKING one.
   */
  lemma ImpactsOfBreaking(edges: seq<LineageEdge>, changes: seq<SchemaChange>, k: ImpactKey)
    ensures k in FoundKeys(ImpactsFor(AdjacencyOf(edges), BreakingRefs(changes))) <==>
      exists c, e :: (
        c in changes && c.severity.Breaking? && e in edges && KeyOfEdge(e) == k &&
        Reachable(edges, [c.Ref()], e.upstream))
  {
    var seeds := BreakingRefs(changes);
    TraversalExact(edges, seeds);
    if k in ReachKeys(edges, seeds) {
      var e :| e in edges && Reachable(edges, seeds, e.upstream) && KeyOfEdge(e) == k;
      var s := SeedOf(edges, seeds, e.upstream);
      BreakingRefsExact(changes, s);
      var c :| c in changes && c.severity.Breaking? && c.Ref() == s;
      assert Reachable(edges, [c.Ref()], e.upstream);
    }
    if c, e :|
      c in changes && c.severity.Breaking? && e in edges && KeyOfEdge(e) == k &&
      Reachable(edges, [c.Ref()], e.upstream) {
      BreakingRefsExact(changes, c.Ref());
      ReachableMonotone(edges, [c.Ref()], seeds, e.upstream);
    }
  }
}
