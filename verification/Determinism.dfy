/** The impact result does not depend on the order in which edges or seeds are listed. */
module Determinism {
  import opened Models
  import opened Ordering
  import opened Lineage
  import opened Traversal

  /** Edges agreeing on pipeline key and both columns are one edge, as the table's unique constraint has it. */
  ghost predicate OneEdgePerIdentity(edges: seq<LineageEdge>) {
    forall e, f :: e in edges && f in edges && e.upstream == f.upstream && KeyOfEdge(e) == KeyOfEdge(f) ==> e == f
  }

  lemma {:induction false} EdgesFromMultiplicity(edges: seq<LineageEdge>, c: ColumnRef, e: LineageEdge)
    ensures multiset(EdgesFrom(edges, c))[e] == if e.upstream == c then multiset(edges)[e] else 0
  {
    if edges != [] {
      var n := |edges| - 1;
      EdgesFromMultiplicity(edges[..n], c, e);
      assert edges == edges[..n] + [edges[n]];
    }
  }

  lemma EdgeOrderDetermines(edges: seq<LineageEdge>, c: ColumnRef)
    requires OneEdgePerIdentity(edges)
    ensures KeyDetermines(EdgesFrom(edges, c), EdgeOrder)
  {
    var out := EdgesFrom(edges, c);
    EdgesFromMembers(edges, c);
    forall i, j | 0 <= i < |out| && 0 <= j < |out| && EdgeOrder(out[i]) == EdgeOrder(out[j]) ensures out[i] == out[j] {
      var a, b := EdgeOrder(out[i]).parts, EdgeOrder(out[j]).parts;
      assert a[0] == b[0] && a[1] == b[1] && a[2] == b[2] && a[3] == b[3];
      assert out[i] in out && out[j] in out;
      assert KeyOfEdge(out[i]) == KeyOfEdge(out[j]);
    }
  }

  /** Relisting the edges changes nothing: same impacts, same paths, same order. */
  lemma EdgeOrderIrrelevant(edges: seq<LineageEdge>, relisted: seq<LineageEdge>, seeds: seq<ColumnRef>)
    requires multiset(edges) == multiset(relisted) && OneEdgePerIdentity(edges)
    ensures AdjacencyOf(edges) == AdjacencyOf(relisted)
    ensures ImpactsFor(AdjacencyOf(edges), seeds) == ImpactsFor(AdjacencyOf(relisted), seeds)
  {
    SameElements(edges, relisted);
    assert Upstreams(edges) == Upstreams(relisted);
    forall c | c in Upstreams(edges) ensures AdjacencyOf(edges)[c] == AdjacencyOf(relisted)[c] {
      var a, b := EdgesFrom(edges, c), EdgesFrom(relisted, c);
      forall e ensures multiset(a)[e] == multiset(b)[e] {
        EdgesFromMultiplicity(edges, c, e);
        EdgesFromMultiplicity(relisted, c, e);
      }
      assert multiset(a) == multiset(b);
      EdgeOrderDetermines(edges, c);
      SortByCanonical(a, b, EdgeOrder);
    }
  }

  // ---------- seeds ----------

  /** No two downstream columns share a qualified name. */
  ghost predicate UniqueColumnNames(edges: seq<LineageEdge>) {
    forall e, f :: e in edges && f in edges && ColumnName(e.downstream) == ColumnName(f.downstream)
      ==> e.downstream == f.downstream
  }

  /** So it is when schema and table names carry no dot, as the catalog validator has it. */
  lemma DotFreeTablesAreUnique(edges: seq<LineageEdge>)
    requires forall e :: e in edges ==> DotFree(e.downstream.dataset.schema) && DotFree(e.downstream.dataset.table)
    ensures UniqueColumnNames(edges)
  {
    forall e, f | e in edges && f in edges && ColumnName(e.downstream) == ColumnName(f.downstream)
      ensures e.downstream == f.downstream
    {
      ColumnNameInjective(e.downstream, f.downstream);
    }
  }

  ghost predicate OneDefinitionPerKey(edges: seq<LineageEdge>) {
    forall e, f :: e in edges && f in edges && e.pipeline.key == f.pipeline.key ==> e.pipeline == f.pipeline
  }

  /** An impact without its path. */
  function Headline(i: PipelineImpact): PipelineImpact {
    i.(path := [])
  }

  function Headlines(impacts: seq<PipelineImpact>): seq<PipelineImpact> {
    seq(|impacts|, i requires 0 <= i < |impacts| => Headline(impacts[i]))
  }

  lemma ImpactFromEdge(edges: seq<LineageEdge>, seeds: seq<ColumnRef>, i: PipelineImpact)
    requires GoodImpact(edges, seeds, i)
    ensures exists e :: e in edges && e.pipeline == i.pipeline && e.downstream == i.downstream
  {
    assert Last(i.path) in i.path;
  }

  lemma HeadlineOfKey(edges: seq<LineageEdge>, seeds: seq<ColumnRef>, seeds': seq<ColumnRef>, i: PipelineImpact,
                      j: PipelineImpact)
    requires OneDefinitionPerKey(edges) && GoodImpact(edges, seeds, i) && GoodImpact(edges, seeds', j)
    requires KeyOfImpact(i) == KeyOfImpact(j)
    ensures Headline(i) == Headline(j)
  {
    ImpactFromEdge(edges, seeds, i);
    ImpactFromEdge(edges, seeds', j);
  }

  lemma HeadlinesAscend(edges: seq<LineageEdge>, seeds: seq<ColumnRef>)
    requires UniqueColumnNames(edges) && OneDefinitionPerKey(edges)
    ensures StrictlyAscending(Headlines(ImpactsFor(AdjacencyOf(edges), seeds)), ImpactOrder)
  {
    var r := ImpactsFor(AdjacencyOf(edges), seeds);
    var h := Headlines(r);
    TraversalExact(edges, seeds);
    SortByIsAscendingPermutation(Explore(AdjacencyOf(edges), Start(seeds)).found, ImpactOrder);
    forall i, j | 0 <= i < j < |h| ensures KeyLess(ImpactOrder(h[i]), ImpactOrder(h[j])) {
      assert r[i] in r && r[j] in r;
      assert KeyLeq(ImpactOrder(r[i]), ImpactOrder(r[j]));
      if ImpactOrder(r[i]) == ImpactOrder(r[j]) {
        ImpactOrderInjective(edges, seeds, r[i], r[j]);
      }
    }
  }

  lemma ImpactOrderInjective(edges: seq<LineageEdge>, seeds: seq<ColumnRef>, i: PipelineImpact, j: PipelineImpact)
    requires UniqueColumnNames(edges) && GoodImpact(edges, seeds, i) && GoodImpact(edges, seeds, j)
    requires ImpactOrder(i) == ImpactOrder(j)
    ensures KeyOfImpact(i) == KeyOfImpact(j)
  {
    assert ImpactOrder(i).parts[0] == ImpactOrder(j).parts[0];
    assert ImpactOrder(i).parts[1] == ImpactOrder(j).parts[1];
    ImpactFromEdge(edges, seeds, i);
    ImpactFromEdge(edges, seeds, j);
  }

  /** What the seeds reach, more seeds reach too. */
  lemma ReachedFromMore(edges: seq<LineageEdge>, seeds: seq<ColumnRef>, seeds': seq<ColumnRef>, i: PipelineImpact)
    returns (j: PipelineImpact)
    requires GoodImpact(edges, seeds, i) && forall s :: s in seeds ==> s in seeds'
    ensures j in ImpactsFor(AdjacencyOf(edges), seeds') && GoodImpact(edges, seeds', j)
    ensures KeyOfImpact(j) == KeyOfImpact(i)
  {
    var r' := ImpactsFor(AdjacencyOf(edges), seeds');
    ImpactReached(edges, seeds, i);
    var e :| e in edges && Reachable(edges, seeds, e.upstream) && KeyOfEdge(e) == KeyOfImpact(i);
    ReachableMonotone(edges, seeds, seeds', e.upstream);
    TraversalExact(edges, seeds');
    assert KeyOfEdge(e) in FoundKeys(r');
    j :| j in r' && KeyOfImpact(j) == KeyOfEdge(e);
  }

  lemma SameHeadlines(edges: seq<LineageEdge>, seeds: seq<ColumnRef>, seeds': seq<ColumnRef>, x: PipelineImpact)
    requires OneDefinitionPerKey(edges) && forall s :: s in seeds ==> s in seeds'
    requires x in Headlines(ImpactsFor(AdjacencyOf(edges), seeds))
    ensures x in Headlines(ImpactsFor(AdjacencyOf(edges), seeds'))
  {
    var r, r' := ImpactsFor(AdjacencyOf(edges), seeds), ImpactsFor(AdjacencyOf(edges), seeds');
    TraversalExact(edges, seeds);
    var m :| 0 <= m < |r| && Headline(r[m]) == x;
    assert r[m] in r;
    var j := ReachedFromMore(edges, seeds, seeds', r[m]);
    var n :| 0 <= n < |r'| && r'[n] == j;
    HeadlineOfKey(edges, seeds, seeds', r[m], j);
    assert Headlines(r')[n] == x;
  }

  /** Relisting or repeating seeds keeps the impacts, their order and every path length. */
  lemma SeedOrderIrrelevant(edges: seq<LineageEdge>, seeds: seq<ColumnRef>, seeds': seq<ColumnRef>)
    requires UniqueColumnNames(edges) && OneDefinitionPerKey(edges)
    requires forall s :: s in seeds <==> s in seeds'
    ensures var r, r' := ImpactsFor(AdjacencyOf(edges), seeds), ImpactsFor(AdjacencyOf(edges), seeds');
      |r| == |r'| && forall i :: 0 <= i < |r| ==> Headline(r[i]) == Headline(r'[i]) && |r[i].path| == |r'[i].path|
  {
    var r, r' := ImpactsFor(AdjacencyOf(edges), seeds), ImpactsFor(AdjacencyOf(edges), seeds');
    HeadlinesAscend(edges, seeds);
    HeadlinesAscend(edges, seeds');
    forall x ensures x in Headlines(r) <==> x in Headlines(r') {
      if x in Headlines(r) { SameHeadlines(edges, seeds, seeds', x); }
      if x in Headlines(r') { SameHeadlines(edges, seeds', seeds, x); }
    }
    StrictlyAscendingUnique(Headlines(r), Headlines(r'), ImpactOrder);
    TraversalExact(edges, seeds);
    TraversalExact(edges, seeds');
    forall i | 0 <= i < |r| ensures Headline(r[i]) == Headline(r'[i]) && |r[i].path| == |r'[i].path| {
      assert Headlines(r)[i] == Headlines(r')[i];
      assert r[i] in r && r'[i] in r';
      assert IsChain(edges, seeds', r[i].path) && IsChain(edges, seeds, r'[i].path);
    }
  }
}
