/** Catalog sync: the nested loops over the document and the replacement of the stored catalog. */
module CatalogService {
  import opened Options
  import opened Models
  import opened Ordering
  import opened Database
  import opened Catalog
  import opened Sessions

  datatype CatalogError = InvalidDocument | UnknownColumn(ref: ColumnRef) | SelfLoop(ref: ColumnRef) | MissingDataset

  class CatalogRepository {
    const session: Session

    constructor (session: Session)
      ensures this.session == session
    {
      this.session := session;
    }

    /** Deletes the stored catalog and inserts the given one; fails on an endpoint without a dataset. */
    method ReplaceCatalog(pipelines: seq<PipelineDefinition>, edges: seq<LineageEdge>)
      returns (r: Result<(), CatalogError>)
      requires forall p, q :: p in pipelines && q in pipelines && p.key == q.key ==> p == q
      requires forall e :: e in edges ==> e.pipeline in pipelines
      modifies session`pipelines, session`edges
      ensures r.Ok? <==>
        forall e :: e in edges ==> e.upstream.dataset in session.datasets && e.downstream.dataset in session.datasets
      ensures r.Ok? ==> session.pipelines == pipelines && session.edges == edges
    {
      session.edges, session.pipelines := [], [];
      var byKey: map<string, PipelineDefinition> := map[];
      for i := 0 to |pipelines|
        invariant session.pipelines == pipelines[..i] && session.edges == []
        invariant forall k :: k in byKey ==> byKey[k] in pipelines && byKey[k].key == k
        invariant forall j :: 0 <= j < i ==> pipelines[j].key in byKey
      {
        session.pipelines := session.pipelines + [pipelines[i]];
        byKey := byKey[pipelines[i].key := pipelines[i]];
      }
      for i := 0 to |edges|
        invariant session.pipelines == pipelines && session.edges == edges[..i]
        invariant forall j :: 0 <= j < i ==>
          edges[j].upstream.dataset in session.datasets && edges[j].downstream.dataset in session.datasets
      {
        var e := edges[i];
        assert e in edges;
        if e.upstream.dataset !in session.datasets || e.downstream.dataset !in session.datasets {
          return Err(MissingDataset);
        }
        session.edges := session.edges + [LineageEdge(byKey[e.pipeline.key], e.upstream, e.downstream)];
      }
      return Ok(());
    }
  }

  /** The refs of some column sets in document order, or the first unknown one. */
  method ColumnRefs(sets: seq<ColumnSetConfig>, known: set<ColumnRef>) returns (r: Result<seq<ColumnRef>, CatalogError>)
    ensures r.Ok? <==> ColumnsOf(sets) <= known
    ensures r.Ok? ==> forall x :: x in r.value <==> x in ColumnsOf(sets)
    ensures r.Err? ==> r.error.UnknownColumn? && r.error.ref in ColumnsOf(sets) - known
  {
    var refs: seq<ColumnRef> := [];
    for i := 0 to |sets|
      invariant forall x :: x in refs ==> x in ColumnsOf(sets) && x in known
      invariant forall k, n :: 0 <= k < i && n in sets[k].columns ==> ColumnRef(DatasetOf(sets[k]), n) in refs
    {
      var dataset, columns := DatasetOf(sets[i]), sets[i].columns;
      for j := 0 to |columns|
        invariant forall x :: x in refs ==> x in ColumnsOf(sets) && x in known
        invariant forall k, n :: 0 <= k < i && n in sets[k].columns ==> ColumnRef(DatasetOf(sets[k]), n) in refs
        invariant forall m :: 0 <= m < j ==> ColumnRef(dataset, columns[m]) in refs
      {
        var ref := ColumnRef(dataset, columns[j]);
        assert sets[i] in sets && columns[j] in sets[i].columns;
        assert ref in ColumnsOf(sets);
        if ref !in known {
          return Err(UnknownColumn(ref));
        }
        refs := refs + [ref];
      }
    }
    forall x | x in ColumnsOf(sets) ensures x in refs {
      var c, n :| c in sets && n in c.columns && x == ColumnRef(DatasetOf(c), n);
      var k :| 0 <= k < |sets| && sets[k] == c;
    }
    return Ok(refs);
  }

  /** The edges of one pipeline, added to those collected so far; fails on a self-loop. */
  method AddEdges(pipeline: PipelineDefinition, inputs: seq<ColumnRef>, outputs: seq<ColumnRef>,
                  collected: set<LineageEdge>)
    returns (r: Result<set<LineageEdge>, CatalogError>)
    ensures r.Ok? <==> forall u :: u in inputs ==> u !in outputs
    ensures r.Err? ==> r.error.SelfLoop? && r.error.ref in inputs && r.error.ref in outputs
    ensures r.Ok? ==> r.value == collected + (set u, d | u in inputs && d in outputs :: LineageEdge(pipeline, u, d))
  {
    var edges := collected;
    for i := 0 to |inputs|
      invariant forall e :: e in edges <==>
        e in collected || (e.pipeline == pipeline && e.upstream in inputs[..i] && e.downstream in outputs)
      invariant forall u :: u in inputs[..i] ==> u !in outputs
    {
      for j := 0 to |outputs|
        invariant forall e :: (e in edges <==>
          e in collected || (e.pipeline == pipeline && e.downstream in outputs &&
                             (e.upstream in inputs[..i] || (e.upstream == inputs[i] && e.downstream in outputs[..j]))))
        invariant inputs[i] !in outputs[..j]
      {
        if inputs[i] == outputs[j] {
          assert inputs[i] in inputs && outputs[j] in outputs;
          return Err(SelfLoop(inputs[i]));
        }
        assert outputs[..j + 1] == outputs[..j] + [outputs[j]];
        edges := edges + {LineageEdge(pipeline, inputs[i], outputs[j])};
      }
      assert outputs[..|outputs|] == outputs;
      assert inputs[..i + 1] == inputs[..i] + [inputs[i]];
    }
    assert inputs[..|inputs|] == inputs;
    return Ok(edges);
  }

  /** The pipeline names a column that is not in the baseline, or one column on both sides. */
  predicate Explains(e: CatalogError, p: PipelineConfig, known: set<ColumnRef>) {
    match e
    case UnknownColumn(ref) => ref !in known && (ref in ColumnsOf(p.inputs) || ref in ColumnsOf(p.outputs))
    case SelfLoop(ref) => ref in ColumnsOf(p.inputs) && ref in ColumnsOf(p.outputs)
    case _ => false
  }

  class CatalogService {
    const repository: CatalogRepository

    constructor (repository: CatalogRepository)
      ensures this.repository == repository
    {
      this.repository := repository;
    }

    method Sync(config: CatalogConfig) returns (r: Result<(nat, nat), CatalogError>)
      requires forall c :: c in repository.session.expected ==> c.dataset in repository.session.datasets
      modifies repository.session`pipelines, repository.session`edges
      ensures r.Ok? <==> Acceptable(config, repository.session.expected.Keys)
      ensures repository.session.State() == SyncRequest(old(repository.session.State()), config)
      ensures r.Ok? ==> r.value == (|config.pipelines|, |EdgesOf(config)|)
      ensures r.Err? ==>
        if !ValidConfig(config) then r.error == InvalidDocument
        else exists p :: p in config.pipelines && Explains(r.error, p, repository.session.expected.Keys)
    {
      if !ValidConfig(config) {
        return Err(InvalidDocument);
      }
      var collected := Collect(config, repository.session.expected.Keys);
      if collected.Err? {
        return Err(collected.error);
      }
      var (pipelines, edges) := collected.value;
      var listed := IterateEdges(edges);
      SortedPipelinesCanonical(config, pipelines);
      SortedEdgesCanonical(config, listed);
      StoredLists(config);
      SyncKeepsTables(repository.session.State(), config);
      var orderedPipelines, orderedEdges := SortBy(pipelines, PipelineOrder), SortBy(listed, CatalogEdgeOrder);
      StoredTables(SyncRequest(repository.session.State(), config));
      var replaced := repository.ReplaceCatalog(orderedPipelines, orderedEdges);
      SortByKeepsElements(pipelines, PipelineOrder);
      SortByKeepsElements(listed, CatalogEdgeOrder);
      SizeOf(listed, EdgesOf(config));
      return Ok((|orderedPipelines|, |orderedEdges|));
    }

    /** The loop over the pipelines of the document. */
    method Collect(config: CatalogConfig, known: set<ColumnRef>)
      returns (r: Result<(seq<PipelineDefinition>, set<LineageEdge>), CatalogError>)
      requires ValidConfig(config)
      ensures r.Ok? <==> Resolvable(config, known)
      ensures r.Ok? ==> NoDuplicates(r.value.0) && |r.value.0| == |config.pipelines| && r.value.1 == EdgesOf(config)
      ensures r.Ok? ==> forall p :: p in r.value.0 <==> p in DefinitionsOf(config)
      ensures r.Err? ==> exists p :: p in config.pipelines && Explains(r.error, p, known)
    {
      var pipelines: seq<PipelineDefinition> := [];
      var edges: set<LineageEdge> := {};
      for i := 0 to |config.pipelines|
        invariant pipelines == DefinitionList(config.pipelines[..i])
        invariant Resolvable(CatalogConfig(config.pipelines[..i]), known)
        invariant edges == EdgesOf(CatalogConfig(config.pipelines[..i]))
      {
        var configured := config.pipelines[i];
        var added := CollectOne(configured, known, edges);
        if added.Err? {
          assert configured in config.pipelines;
          return Err(added.error);
        }
        assert config.pipelines[..i + 1] == config.pipelines[..i] + [configured];
        CollectAppend(config.pipelines[..i], configured, known);
        pipelines := pipelines + [Definition(configured)];
        edges := added.value;
      }
      assert config.pipelines[..|config.pipelines|] == config.pipelines;
      DefinitionsDistinct(config, pipelines);
      return Ok((pipelines, edges));
    }

    /** One pipeline of the document. */
    method CollectOne(configured: PipelineConfig, known: set<ColumnRef>, edges: set<LineageEdge>)
      returns (r: Result<set<LineageEdge>, CatalogError>)
      ensures r.Ok? <==> PipelineResolvable(configured, known)
      ensures r.Ok? ==> r.value == edges + PipelineEdges(configured)
      ensures r.Err? ==> Explains(r.error, configured, known)
    {
      var inputs := ColumnRefs(configured.inputs, known);
      if inputs.Err? {
        return Err(inputs.error);
      }
      var outputs := ColumnRefs(configured.outputs, known);
      if outputs.Err? {
        return Err(outputs.error);
      }
      r := AddEdges(Definition(configured), inputs.value, outputs.value, edges);
      assert (set u, d | u in inputs.value && d in outputs.value :: LineageEdge(Definition(configured), u, d)) ==
        PipelineEdges(configured);
    }

    /** Iterating over the set of edges, in no particular order. */
    method IterateEdges(edges: set<LineageEdge>) returns (listed: seq<LineageEdge>)
      ensures NoDuplicates(listed) && forall e :: e in listed <==> e in edges
    {
      var pending := edges;
      listed := [];
      while pending != {}
        invariant NoDuplicates(listed)
        invariant forall e :: e in edges <==> e in pending || e in listed
        invariant forall e :: e in pending ==> e !in listed
        decreases pending
      {
        var e :| e in pending;
        pending := pending - {e};
        listed := listed + [e];
      }
    }
  }

  function PipelineEdges(p: PipelineConfig): set<LineageEdge> {
    set u, d | u in ColumnsOf(p.inputs) && d in ColumnsOf(p.outputs) :: LineageEdge(Definition(p), u, d)
  }

  function DefinitionList(pipelines: seq<PipelineConfig>): seq<PipelineDefinition> {
    seq(|pipelines|, i requires 0 <= i < |pipelines| => Definition(pipelines[i]))
  }

  lemma CollectAppend(pipelines: seq<PipelineConfig>, p: PipelineConfig, known: set<ColumnRef>)
    ensures EdgesOf(CatalogConfig(pipelines + [p])) == EdgesOf(CatalogConfig(pipelines)) + PipelineEdges(p)
    ensures DefinitionList(pipelines + [p]) == DefinitionList(pipelines) + [Definition(p)]
    ensures Resolvable(CatalogConfig(pipelines), known) && PipelineResolvable(p, known) ==>
      Resolvable(CatalogConfig(pipelines + [p]), known)
  {
    assert forall q :: q in pipelines + [p] <==> q in pipelines || q == p;
  }

  lemma DefinitionsDistinct(config: CatalogConfig, pipelines: seq<PipelineDefinition>)
    requires ValidConfig(config) && pipelines == DefinitionList(config.pipelines)
    ensures NoDuplicates(pipelines) && forall p :: p in pipelines <==> p in DefinitionsOf(config)
  {
    var ps := config.pipelines;
    var keys := seq(|ps|, i requires 0 <= i < |ps| => ps[i].key);
    forall i, j | 0 <= i < j < |pipelines| ensures pipelines[i] != pipelines[j] {
      assert keys[i] != keys[j];
    }
    forall d | d in DefinitionsOf(config) ensures d in pipelines {
      var p :| p in ps && Definition(p) == d;
      var k :| 0 <= k < |ps| && ps[k] == p;
      assert pipelines[k] == d;
    }
    forall d | d in pipelines ensures d in DefinitionsOf(config) {
      var k :| 0 <= k < |pipelines| && pipelines[k] == d;
      assert ps[k] in ps;
    }
  }

  lemma StoredTables(db: Db)
    requires CatalogTables(db)
    ensures forall p, q :: p in db.pipelines && q in db.pipelines && p.key == q.key ==> p == q
    ensures forall e :: e in db.edges ==>
      e.pipeline in db.pipelines && e.upstream.dataset in db.datasets && e.downstream.dataset in db.datasets
  {
    forall e | e in db.edges
      ensures e.pipeline in db.pipelines && e.upstream.dataset in db.datasets && e.downstream.dataset in db.datasets
    {
      assert EdgeStored(db, e);
    }
  }

  lemma {:induction false} SizeOf<T>(listed: seq<T>, s: set<T>)
    requires NoDuplicates(listed) && forall x :: x in listed <==> x in s
    ensures |listed| == |s|
  {
    if listed != [] {
      assert listed == [listed[0]] + listed[1..];
      SizeOf(listed[1..], s - {listed[0]});
    } else {
      assert s == {};
    }
  }

  /** The sync command: one transaction, rolled back when the catalog is refused. */
  method SyncTransaction(session: Session, config: CatalogConfig) returns (r: Result<(nat, nat), CatalogError>)
    requires session.Clean() && forall c :: c in session.expected ==> c.dataset in session.datasets
    modifies session
    ensures session.Clean() && session.State() == SyncRequest(old(session.State()), config)
    ensures r.Ok? <==> Acceptable(config, old(session.expected.Keys))
    ensures r.Err? ==> session.State() == old(session.State())
  {
    var repository := new CatalogRepository(session);
    var service := new CatalogService(repository);
    r := service.Sync(config);
    if r.Ok? {
      session.Commit();
    } else {
      session.Rollback();
    }
  }
}
