/** Lineage graph and the worklist search for impacted pipelines. */
module Lineage {
  import opened Models
  import opened Ordering

  datatype PipelineImpact = PipelineImpact(
    pipeline: PipelineDefinition, downstream: ColumnRef, path: seq<LineageEdge>)

  /** What the search marks as visited: a pipeline key together with a downstream column. */
  datatype ImpactKey = ImpactKey(pipelineKey: string, downstream: ColumnRef)

  type Adjacency = map<ColumnRef, seq<LineageEdge>>

  function KeyOfEdge(e: LineageEdge): ImpactKey { ImpactKey(e.pipeline.key, e.downstream) }

  function KeyOfImpact(i: PipelineImpact): ImpactKey { ImpactKey(i.pipeline.key, i.downstream) }

  function EdgeOrder(e: LineageEdge): Key {
    Key(0, [e.pipeline.key, e.downstream.dataset.schema, e.downstream.dataset.table, e.downstream.name])
  }

  function CriticalityRank(c: Criticality): int {
    match c
    case Low => 0
    case Medium => 1
    case High => 2
    case Critical => 3
  }

  function ImpactOrder(i: PipelineImpact): Key {
    Key(-CriticalityRank(i.pipeline.criticality), [i.pipeline.key, ColumnName(i.downstream)])
  }

  // ---------- construction ----------

  /** The edges leaving a column, in list order. */
  function EdgesFrom(edges: seq<LineageEdge>, c: ColumnRef): seq<LineageEdge> {
    if edges == [] then [] else
    var n := |edges| - 1;
    EdgesFrom(edges[..n], c) + (if edges[n].upstream == c then [edges[n]] else [])
  }

  ghost function Upstreams(edges: seq<LineageEdge>): set<ColumnRef> {
    set e | e in edges :: e.upstream
  }

  ghost function AdjacencyOf(edges: seq<LineageEdge>): Adjacency {
    map c | c in Upstreams(edges) :: SortBy(EdgesFrom(edges, c), EdgeOrder)
  }

  lemma {:induction false} EdgesFromMembers(edges: seq<LineageEdge>, c: ColumnRef)
    ensures forall e :: e in EdgesFrom(edges, c) <==> e in edges && e.upstream == c
  {
    if edges != [] {
      var n := |edges| - 1;
      EdgesFromMembers(edges[..n], c);
      assert edges == edges[..n] + [edges[n]];
    }
  }

  /** `adj` files exactly `edges`, each under its upstream column. */
  ghost predicate Represents(adj: Adjacency, edges: seq<LineageEdge>) {
    (forall c, e :: c in adj && e in adj[c] ==> e in edges && e.upstream == c) &&
    (forall e :: e in edges ==> e.upstream in adj && e in adj[e.upstream])
  }

  lemma AdjacencyRepresents(edges: seq<LineageEdge>)
    ensures Represents(AdjacencyOf(edges), edges)
  {
    var adj := AdjacencyOf(edges);
    forall c | c in adj ensures forall e :: e in adj[c] <==> e in edges && e.upstream == c {
      EdgesFromMembers(edges, c);
      SortByKeepsElements(EdgesFrom(edges, c), EdgeOrder);
    }
    forall e | e in edges ensures e.upstream in adj {
      assert e.upstream in Upstreams(edges);
    }
  }

  // ---------- the search ----------

  datatype Entry = Entry(column: ColumnRef, path: seq<LineageEdge>)

  /** Worklist and impacts found so far, in discovery order. */
  datatype Frontier = Frontier(queue: seq<Entry>, found: seq<PipelineImpact>)

  function FoundKeys(found: seq<PipelineImpact>): set<ImpactKey> {
    set i | i in found :: KeyOfImpact(i)
  }

  function Discover(e: LineageEdge, path: seq<LineageEdge>, f: Frontier): Frontier {
    if KeyOfEdge(e) in FoundKeys(f.found) then f
    else Frontier(f.queue + [Entry(e.downstream, path + [e])],
                  f.found + [PipelineImpact(e.pipeline, e.downstream, path + [e])])
  }

  /** Following the given edges after `path`. */
  function Expand(edges: seq<LineageEdge>, path: seq<LineageEdge>, f: Frontier): Frontier {
    if edges == [] then f else
    var n := |edges| - 1;
    Discover(edges[n], path, Expand(edges[..n], path, f))
  }

  function Outgoing(adj: Adjacency, c: ColumnRef): seq<LineageEdge> {
    if c in adj then adj[c] else []
  }

  /** One round of the loop: take the first entry and follow its edges. */
  function Visit(adj: Adjacency, f: Frontier): Frontier
    requires f.queue != []
  {
    Expand(Outgoing(adj, f.queue[0].column), f.queue[0].path, Frontier(f.queue[1..], f.found))
  }

  function AllKeys(adj: Adjacency): set<ImpactKey> {
    set c, e | c in adj && e in adj[c] :: KeyOfEdge(e)
  }

  function Unvisited(adj: Adjacency, f: Frontier): set<ImpactKey> {
    AllKeys(adj) - FoundKeys(f.found)
  }

  lemma FoundKeysAppend(found: seq<PipelineImpact>, i: PipelineImpact)
    ensures FoundKeys(found + [i]) == FoundKeys(found) + {KeyOfImpact(i)}
  {
    assert forall x :: x in found + [i] <==> x in found || x == i;
  }

  /** Each discovery uses up one unvisited key, so queue growth is paid for. */
  lemma {:induction false} ExpandProgress(adj: Adjacency, edges: seq<LineageEdge>, path: seq<LineageEdge>, f: Frontier)
    requires forall e :: e in edges ==> KeyOfEdge(e) in AllKeys(adj)
    ensures Unvisited(adj, Expand(edges, path, f)) <= Unvisited(adj, f)
    ensures Unvisited(adj, Expand(edges, path, f)) == Unvisited(adj, f) ==> Expand(edges, path, f) == f
  {
    if edges != [] {
      var n := |edges| - 1;
      var e, g := edges[n], Expand(edges[..n], path, f);
      ExpandProgress(adj, edges[..n], path, f);
      if KeyOfEdge(e) !in FoundKeys(g.found) {
        FoundKeysAppend(g.found, PipelineImpact(e.pipeline, e.downstream, path + [e]));
        assert KeyOfEdge(e) in Unvisited(adj, g);
        assert KeyOfEdge(e) !in Unvisited(adj, Expand(edges, path, f));
      }
    }
  }

  lemma VisitProgress(adj: Adjacency, f: Frontier)
    requires f.queue != []
    ensures var g := Visit(adj, f);
      Unvisited(adj, g) < Unvisited(adj, f) || (Unvisited(adj, g) == Unvisited(adj, f) && |g.queue| < |f.queue|)
  {
    var edges := Outgoing(adj, f.queue[0].column);
    forall e | e in edges ensures KeyOfEdge(e) in AllKeys(adj) {
      assert f.queue[0].column in adj && e in adj[f.queue[0].column];
    }
    ExpandProgress(adj, edges, f.queue[0].path, Frontier(f.queue[1..], f.found));
  }

  /** The whole search. */
  ghost function Explore(adj: Adjacency, f: Frontier): Frontier
    decreases Unvisited(adj, f), |f.queue|
  {
    if f.queue == [] then f else
    VisitProgress(adj, f);
    Explore(adj, Visit(adj, f))
  }

  function Start(seeds: seq<ColumnRef>): Frontier {
    Frontier(seq(|seeds|, i requires 0 <= i < |seeds| => Entry(seeds[i], [])), [])
  }

  /** The result for a list of seeds. */
  ghost function ImpactsFor(adj: Adjacency, seeds: seq<ColumnRef>): seq<PipelineImpact> {
    SortBy(Explore(adj, Start(seeds)).found, ImpactOrder)
  }

  class LineageGraph {
    var edgesByUpstream: Adjacency

    constructor (edges: seq<LineageEdge>)
      ensures edgesByUpstream == AdjacencyOf(edges)
    {
      var grouped: Adjacency := map[];
      for i := 0 to |edges|
        invariant grouped.Keys == Upstreams(edges[..i])
        invariant forall c :: c in grouped ==> grouped[c] == EdgesFrom(edges[..i], c)
      {
        assert edges[..i + 1][..i] == edges[..i];
        var c := edges[i].upstream;
        AddUpstream(edges[..i], edges[i]);
        grouped := grouped[c := Outgoing(grouped, c) + [edges[i]]];
      }
      assert edges[..|edges|] == edges;
      edgesByUpstream := map c | c in grouped :: SortBy(grouped[c], EdgeOrder);
    }

    method ImpactsForColumns(columns: seq<ColumnRef>) returns (impacts: seq<PipelineImpact>)
      ensures impacts == ImpactsFor(edgesByUpstream, columns)
    {
      var queue := Start(columns).queue;
      var visited: set<ImpactKey> := {};
      var found: seq<PipelineImpact> := [];
      while queue != []
        invariant visited == FoundKeys(found)
        invariant Explore(edgesByUpstream, Frontier(queue, found)) == Explore(edgesByUpstream, Start(columns))
        decreases Unvisited(edgesByUpstream, Frontier(queue, found)), |queue|
      {
        ghost var f := Frontier(queue, found);
        VisitProgress(edgesByUpstream, f);
        var column, path := queue[0].column, queue[0].path;
        queue := queue[1..];
        var edges := Outgoing(edgesByUpstream, column);
        for i := 0 to |edges|
          invariant visited == FoundKeys(found)
          invariant Frontier(queue, found) == Expand(edges[..i], path, Frontier(f.queue[1..], f.found))
        {
          assert edges[..i + 1][..i] == edges[..i];
          var edge := edges[i];
          var key := KeyOfEdge(edge);
          if key !in visited {
            visited := visited + {key};
            var nextPath := path + [edge];
            FoundKeysAppend(found, PipelineImpact(edge.pipeline, edge.downstream, nextPath));
            found := found + [PipelineImpact(edge.pipeline, edge.downstream, nextPath)];
            queue := queue + [Entry(edge.downstream, nextPath)];
          }
        }
        assert edges[..|edges|] == edges;
        assert Frontier(queue, found) == Visit(edgesByUpstream, f);
      }
      impacts := SortBy(found, ImpactOrder);
    }

    /** Only BREAKING changes have an impact. */
    method Impacts(changes: seq<SchemaChange>) returns (impacts: seq<PipelineImpact>)
      ensures impacts == ImpactsFor(edgesByUpstream, BreakingRefs(changes))
    {
      impacts := ImpactsForColumns(BreakingRefs(changes));
    }
  }

  function BreakingRefs(changes: seq<SchemaChange>): seq<ColumnRef> {
    if changes == [] then []
    else (if changes[0].severity.Breaking? then [changes[0].Ref()] else []) + BreakingRefs(changes[1..])
  }

  lemma AddUpstream(edges: seq<LineageEdge>, e: LineageEdge)
    ensures Upstreams(edges + [e]) == Upstreams(edges) + {e.upstream}
    ensures forall c :: EdgesFrom(edges + [e], c) == EdgesFrom(edges, c) + (if e.upstream == c then [e] else [])
    ensures e.upstream !in Upstreams(edges) ==> EdgesFrom(edges, e.upstream) == []
  {
    assert (edges + [e])[..|edges|] == edges;
    assert forall x :: x in edges + [e] <==> x in edges || x == e;
    EdgesFromMembers(edges, e.upstream);
    if EdgesFrom(edges, e.upstream) != [] {
      assert EdgesFrom(edges, e.upstream)[0] in EdgesFrom(edges, e.upstream);
      assert e.upstream in Upstreams(edges);
    }
  }
}
