/** The pipeline catalog: validation of the decoded document and the lineage it stands for. */
module Catalog {
  import opened Models
  import opened Ordering
  import opened Strings
  import opened Database

  datatype ColumnSetConfig = ColumnSetConfig(dataset: string, columns: seq<string>)
  datatype PipelineConfig = PipelineConfig(
    key: string, dagId: string, owner: string, criticality: Criticality,
    inputs: seq<ColumnSetConfig>, outputs: seq<ColumnSetConfig>)
  datatype CatalogConfig = CatalogConfig(pipelines: seq<PipelineConfig>)

  // ---------- validators of the document ----------

  predicate ValidDatasetName(value: string) {
    var parts := SplitOn(value, '.');
    |parts| == 2 && parts[0] != "" && parts[1] != ""
  }

  predicate AllDifferent(s: seq<string>) {
    forall i, j :: 0 <= i < j < |s| ==> s[i] != s[j]
  }

  predicate ValidColumnSet(c: ColumnSetConfig) {
    ValidDatasetName(c.dataset) && c.columns != [] && AllDifferent(c.columns)
  }

  predicate ValidPipeline(p: PipelineConfig) {
    p.key != "" && p.dagId != "" && p.owner != "" && p.inputs != [] && p.outputs != [] &&
    (forall c :: c in p.inputs ==> ValidColumnSet(c)) && (forall c :: c in p.outputs ==> ValidColumnSet(c))
  }

  function Keys(ps: seq<PipelineConfig>): seq<string> {
    seq(|ps|, i requires 0 <= i < |ps| => ps[i].key)
  }

  function DagIds(ps: seq<PipelineConfig>): seq<string> {
    seq(|ps|, i requires 0 <= i < |ps| => ps[i].dagId)
  }

  predicate ValidConfig(config: CatalogConfig) {
    var ps := config.pipelines;
    ps != [] && (forall p :: p in ps ==> ValidPipeline(p)) &&
    AllDifferent(Keys(ps)) && AllDifferent(DagIds(ps))
  }

  // ---------- what the document means ----------

  function DatasetOf(c: ColumnSetConfig): DatasetRef {
    var parts := SplitOn(c.dataset, '.');
    DatasetRef(parts[0], if |parts| > 1 then parts[1] else "")
  }

  function Definition(p: PipelineConfig): PipelineDefinition {
    PipelineDefinition(p.key, p.dagId, p.owner, p.criticality)
  }

  /** The columns named by some column sets. */
  function ColumnsOf(sets: seq<ColumnSetConfig>): set<ColumnRef> {
    set c, n | c in sets && n in c.columns :: ColumnRef(DatasetOf(c), n)
  }

  /** Inputs times outputs, over all pipelines. */
  ghost function EdgesOf(config: CatalogConfig): set<LineageEdge> {
    set p, u, d | p in config.pipelines && u in ColumnsOf(p.inputs) && d in ColumnsOf(p.outputs) ::
      LineageEdge(Definition(p), u, d)
  }

  ghost function DefinitionsOf(config: CatalogConfig): set<PipelineDefinition> {
    set p | p in config.pipelines :: Definition(p)
  }

  /** Every named column is in the baseline and the pipeline feeds no column to itself. */
  ghost predicate PipelineResolvable(p: PipelineConfig, known: set<ColumnRef>) {
    ColumnsOf(p.inputs) <= known && ColumnsOf(p.outputs) <= known && ColumnsOf(p.inputs) !! ColumnsOf(p.outputs)
  }

  ghost predicate Resolvable(config: CatalogConfig, known: set<ColumnRef>) {
    forall p :: p in config.pipelines ==> PipelineResolvable(p, known)
  }

  function PipelineOrder(p: PipelineDefinition): Key {
    Key(0, [p.key])
  }

  function CatalogEdgeOrder(e: LineageEdge): Key {
    Key(0, [e.pipeline.key, ColumnName(e.upstream), ColumnName(e.downstream)])
  }

  ghost function SortedPipelines(config: CatalogConfig): seq<PipelineDefinition> {
    SortBy(Listing(DefinitionsOf(config)), PipelineOrder)
  }

  ghost function SortedEdges(config: CatalogConfig): seq<LineageEdge> {
    SortBy(Listing(EdgesOf(config)), CatalogEdgeOrder)
  }

  ghost predicate Acceptable(config: CatalogConfig, known: set<ColumnRef>) {
    ValidConfig(config) && Resolvable(config, known)
  }

  /** The tables after a sync request: the whole catalog replaced, or nothing touched. */
  ghost function SyncRequest(db: Db, config: CatalogConfig): Db {
    if Acceptable(config, db.expected.Keys)
    then db.(pipelines := SortedPipelines(config), edges := SortedEdges(config))
    else db
  }

  // ---------- the catalog is canonical ----------

  lemma ColumnSetDotFree(c: ColumnSetConfig)
    requires ValidDatasetName(c.dataset)
    ensures DotFree(DatasetOf(c).schema) && DotFree(DatasetOf(c).table)
    ensures DatasetName(DatasetOf(c)) == c.dataset
  {
    var parts := SplitOn(c.dataset, '.');
    SplitOnExact(c.dataset, '.');
    assert parts[0] in parts && parts[1] in parts;
    assert JoinWith(parts, ".") == parts[0] + "." + JoinWith(parts[1..], ".");
  }

  lemma ColumnsDotFree(sets: seq<ColumnSetConfig>)
    requires forall c :: c in sets ==> ValidColumnSet(c)
    ensures forall r :: r in ColumnsOf(sets) ==> DotFree(r.dataset.schema) && DotFree(r.dataset.table)
  {
    forall r | r in ColumnsOf(sets) ensures DotFree(r.dataset.schema) && DotFree(r.dataset.table) {
      var c, n :| c in sets && n in c.columns && r == ColumnRef(DatasetOf(c), n);
      ColumnSetDotFree(c);
    }
  }

  lemma PipelineByKey(config: CatalogConfig, p: PipelineConfig, q: PipelineConfig)
    requires ValidConfig(config) && p in config.pipelines && q in config.pipelines
    requires p.key == q.key || p.dagId == q.dagId
    ensures p == q
  {
    var ps := config.pipelines;
    var i :| 0 <= i < |ps| && ps[i] == p;
    var j :| 0 <= j < |ps| && ps[j] == q;
    assert Keys(ps)[i] == p.key && Keys(ps)[j] == q.key && DagIds(ps)[i] == p.dagId && DagIds(ps)[j] == q.dagId;
  }

  lemma CatalogEdgeOrderInjective(config: CatalogConfig, e: LineageEdge, f: LineageEdge)
    requires ValidConfig(config) && e in EdgesOf(config) && f in EdgesOf(config)
    requires CatalogEdgeOrder(e) == CatalogEdgeOrder(f)
    ensures e == f
  {
    var p := EdgeOrigin(config, e);
    var q := EdgeOrigin(config, f);
    assert CatalogEdgeOrder(e).parts[0] == CatalogEdgeOrder(f).parts[0];
    assert CatalogEdgeOrder(e).parts[1] == CatalogEdgeOrder(f).parts[1];
    assert CatalogEdgeOrder(e).parts[2] == CatalogEdgeOrder(f).parts[2];
    PipelineByKey(config, p, q);
    ColumnsDotFree(p.inputs);
    ColumnsDotFree(p.outputs);
    ColumnNameInjective(e.upstream, f.upstream);
    ColumnNameInjective(e.downstream, f.downstream);
  }

  /** Sorting the edges in whatever order they were collected gives one list. */
  lemma SortedEdgesCanonical(config: CatalogConfig, collected: seq<LineageEdge>)
    requires ValidConfig(config) && NoDuplicates(collected)
    requires forall e :: e in collected <==> e in EdgesOf(config)
    ensures SortBy(collected, CatalogEdgeOrder) == SortedEdges(config)
  {
    SameMultiset(collected, Listing(EdgesOf(config)));
    forall i, j | 0 <= i < |collected| && 0 <= j < |collected| && CatalogEdgeOrder(collected[i]) ==
      CatalogEdgeOrder(collected[j])
      ensures collected[i] == collected[j]
    {
      assert collected[i] in collected && collected[j] in collected;
      CatalogEdgeOrderInjective(config, collected[i], collected[j]);
    }
    SortByCanonical(collected, Listing(EdgesOf(config)), CatalogEdgeOrder);
  }

  lemma SortedPipelinesCanonical(config: CatalogConfig, collected: seq<PipelineDefinition>)
    requires ValidConfig(config) && NoDuplicates(collected)
    requires forall p :: p in collected <==> p in DefinitionsOf(config)
    ensures SortBy(collected, PipelineOrder) == SortedPipelines(config)
  {
    SameMultiset(collected, Listing(DefinitionsOf(config)));
    forall i, j | 0 <= i < |collected| && 0 <= j < |collected| && PipelineOrder(collected[i]) ==
      PipelineOrder(collected[j])
      ensures collected[i] == collected[j]
    {
      assert collected[i] in collected && collected[j] in collected;
      assert PipelineOrder(collected[i]).parts[0] == PipelineOrder(collected[j]).parts[0];
      var p :| p in config.pipelines && Definition(p) == collected[i];
      var q :| q in config.pipelines && Definition(q) == collected[j];
      PipelineByKey(config, p, q);
    }
    SortByCanonical(collected, Listing(DefinitionsOf(config)), PipelineOrder);
  }

  ghost predicate SamePipeline(p: PipelineConfig, q: PipelineConfig) {
    Definition(p) == Definition(q) &&
    ColumnsOf(p.inputs) == ColumnsOf(q.inputs) && ColumnsOf(p.outputs) == ColumnsOf(q.outputs)
  }

  ghost predicate HasCounterpart(p: PipelineConfig, config: CatalogConfig) {
    exists q :: q in config.pipelines && SamePipeline(p, q)
  }

  ghost predicate Within(a: CatalogConfig, b: CatalogConfig) {
    forall p {:trigger HasCounterpart(p, b)} :: p in a.pipelines ==> HasCounterpart(p, b)
  }

  /** Two documents that differ only in the order of pipelines, column sets or columns. */
  ghost predicate Rearranged(a: CatalogConfig, b: CatalogConfig) {
    Within(a, b) && Within(b, a)
  }

  lemma Counterpart(p: PipelineConfig, a: CatalogConfig, b: CatalogConfig) returns (q: PipelineConfig)
    requires Within(a, b) && p in a.pipelines
    ensures q in b.pipelines && SamePipeline(p, q)
  {
    assert HasCounterpart(p, b);
    q :| q in b.pipelines && SamePipeline(p, q);
  }

  lemma EdgeOrigin(config: CatalogConfig, e: LineageEdge) returns (p: PipelineConfig)
    requires e in EdgesOf(config)
    ensures p in config.pipelines && e.pipeline == Definition(p)
    ensures e.upstream in ColumnsOf(p.inputs) && e.downstream in ColumnsOf(p.outputs)
  {
    p :| p in config.pipelines && e.pipeline == Definition(p) &&
      e.upstream in ColumnsOf(p.inputs) && e.downstream in ColumnsOf(p.outputs);
  }

  lemma WithinMeaning(a: CatalogConfig, b: CatalogConfig, known: set<ColumnRef>)
    requires Within(a, b)
    ensures EdgesOf(a) <= EdgesOf(b) && DefinitionsOf(a) <= DefinitionsOf(b)
    ensures Resolvable(b, known) ==> Resolvable(a, known)
  {
    forall e | e in EdgesOf(a) ensures e in EdgesOf(b) {
      var p := EdgeOrigin(a, e);
      var q := Counterpart(p, a, b);
      assert e == LineageEdge(Definition(q), e.upstream, e.downstream);
    }
    forall d | d in DefinitionsOf(a) ensures d in DefinitionsOf(b) {
      var p :| p in a.pipelines && d == Definition(p);
      var q := Counterpart(p, a, b);
    }
    if Resolvable(b, known) {
      forall p | p in a.pipelines ensures PipelineResolvable(p, known) {
        var q := Counterpart(p, a, b);
        assert PipelineResolvable(q, known);
      }
    }
  }

  /** Rearranging the document does not change what is stored. */
  lemma SyncIgnoresOrder(db: Db, a: CatalogConfig, b: CatalogConfig)
    requires ValidConfig(a) && ValidConfig(b) && Rearranged(a, b)
    ensures SyncRequest(db, a) == SyncRequest(db, b)
  {
    WithinMeaning(a, b, db.expected.Keys);
    WithinMeaning(b, a, db.expected.Keys);
    assert EdgesOf(a) == EdgesOf(b) && DefinitionsOf(a) == DefinitionsOf(b);
  }

  // ---------- reorderings of the document ----------

  /** The column sets in another order, or the columns of one of them in another order. */
  ghost predicate PermutedSets(s: seq<ColumnSetConfig>, t: seq<ColumnSetConfig>) {
    multiset(s) == multiset(t) ||
    exists j, columns :: 0 <= j < |s| && t == WithColumns(s, j, columns) && multiset(columns) == multiset(s[j].columns)
  }

  function WithColumns(s: seq<ColumnSetConfig>, j: nat, columns: seq<string>): seq<ColumnSetConfig>
    requires j < |s|
  {
    s[j := s[j].(columns := columns)]
  }

  ghost predicate PermutedPipeline(p: PipelineConfig, q: PipelineConfig) {
    q == p.(inputs := q.inputs, outputs := q.outputs) && PermutedSets(p.inputs, q.inputs) &&
    PermutedSets(p.outputs, q.outputs)
  }

  /** The pipelines in another order, or the column sets or columns of one of them in another order. */
  ghost predicate Permuted(a: CatalogConfig, b: CatalogConfig) {
    multiset(a.pipelines) == multiset(b.pipelines) ||
    exists i :: (
      0 <= i < |a.pipelines| == |b.pipelines| && b.pipelines == a.pipelines[i := b.pipelines[i]] &&
      PermutedPipeline(a.pipelines[i], b.pipelines[i]))
  }

  lemma AllDifferentPermutation(s: seq<string>, t: seq<string>)
    requires multiset(s) == multiset(t) && AllDifferent(s)
    ensures AllDifferent(t) && forall x :: x in s <==> x in t
  {
    SameElements(s, t);
    NoDuplicatesPermutation(s, t);
  }

  lemma PermutedSetsMeaning(s: seq<ColumnSetConfig>, t: seq<ColumnSetConfig>)
    requires PermutedSets(s, t) && forall c :: c in s ==> ValidColumnSet(c)
    ensures (forall c :: c in t ==> ValidColumnSet(c)) && ColumnsOf(s) == ColumnsOf(t) && (s != [] ==> t != [])
  {
    if multiset(s) == multiset(t) {
      SameElements(s, t);
      assert s != [] ==> s[0] in t;
    } else {
      var j, columns :| 0 <= j < |s| && t == WithColumns(s, j, columns) && multiset(columns) == multiset(s[j].columns);
      ColumnsReordered(s, j, columns, t);
    }
  }

  lemma ColumnsReordered(s: seq<ColumnSetConfig>, j: nat, columns: seq<string>, t: seq<ColumnSetConfig>)
    requires j < |s| && t == WithColumns(s, j, columns) && multiset(columns) == multiset(s[j].columns)
    requires forall c :: c in s ==> ValidColumnSet(c)
    ensures (forall c :: c in t ==> ValidColumnSet(c)) && ColumnsOf(s) == ColumnsOf(t)
  {
    assert s[j] in s && t[j] in t;
    AllDifferentPermutation(s[j].columns, columns);
    assert s[j].columns[0] in columns;
    forall c | c in t ensures ValidColumnSet(c) {
      var k :| 0 <= k < |t| && t[k] == c;
      if k != j { assert s[k] in s; }
    }
    forall r ensures r in ColumnsOf(s) <==> r in ColumnsOf(t) {
      if r in ColumnsOf(s) {
        var c, n :| c in s && n in c.columns && r == ColumnRef(DatasetOf(c), n);
        var k :| 0 <= k < |s| && s[k] == c;
        assert t[k] in t && DatasetOf(t[k]) == DatasetOf(c) && n in t[k].columns;
      }
      if r in ColumnsOf(t) {
        var c, n :| c in t && n in c.columns && r == ColumnRef(DatasetOf(c), n);
        var k :| 0 <= k < |t| && t[k] == c;
        assert s[k] in s && DatasetOf(s[k]) == DatasetOf(c) && n in s[k].columns;
      }
    }
  }

  lemma PipelinesDistinctIn(a: CatalogConfig)
    requires ValidConfig(a)
    ensures NoDuplicates(a.pipelines)
  {
    var p := a.pipelines;
    forall i, j | 0 <= i < j < |p| ensures p[i] != p[j] {
      assert Keys(p)[i] != Keys(p)[j];
    }
  }

  lemma ReorderedKeys(a: CatalogConfig, q: seq<PipelineConfig>)
    requires ValidConfig(a) && NoDuplicates(q) && forall x :: x in q ==> x in a.pipelines
    ensures AllDifferent(Keys(q)) && AllDifferent(DagIds(q))
  {
    forall i, j | 0 <= i < j < |q| ensures Keys(q)[i] != Keys(q)[j] && DagIds(q)[i] != DagIds(q)[j] {
      assert q[i] in q && q[j] in q;
      if q[i].key == q[j].key || q[i].dagId == q[j].dagId {
        PipelineByKey(a, q[i], q[j]);
      }
    }
  }

  lemma SameMembers(a: CatalogConfig, b: CatalogConfig)
    requires forall x :: x in a.pipelines ==> x in b.pipelines
    ensures Within(a, b)
  {
    forall x | x in a.pipelines ensures HasCounterpart(x, b) {
      assert SamePipeline(x, x);
    }
  }

  lemma PipelinesReordered(a: CatalogConfig, b: CatalogConfig)
    requires ValidConfig(a) && multiset(a.pipelines) == multiset(b.pipelines)
    ensures ValidConfig(b) && Rearranged(a, b)
  {
    SameElements(a.pipelines, b.pipelines);
    PipelinesDistinctIn(a);
    NoDuplicatesPermutation(a.pipelines, b.pipelines);
    ReorderedKeys(a, b.pipelines);
    SameMembers(a, b);
    SameMembers(b, a);
    assert a.pipelines[0] in b.pipelines;
  }

  lemma OnePipelineReordered(a: CatalogConfig, b: CatalogConfig, i: nat)
    requires ValidConfig(a) && i < |a.pipelines| == |b.pipelines| && b.pipelines == a.pipelines[i := b.pipelines[i]]
    requires PermutedPipeline(a.pipelines[i], b.pipelines[i])
    ensures ValidConfig(b) && Rearranged(a, b)
  {
    var p, q := a.pipelines, b.pipelines;
    assert p[i] in p && q[i] in q;
    PermutedSetsMeaning(p[i].inputs, q[i].inputs);
    PermutedSetsMeaning(p[i].outputs, q[i].outputs);
    assert Keys(q) == Keys(p) && DagIds(q) == DagIds(p);
    forall k | 0 <= k < |p| ensures SamePipeline(p[k], q[k]) && SamePipeline(q[k], p[k]) && ValidPipeline(q[k]) {
      if k != i { assert q[k] == p[k] && p[k] in p; }
    }
    forall x | x in p ensures HasCounterpart(x, b) {
      var k :| 0 <= k < |p| && p[k] == x;
      assert q[k] in q;
    }
    forall x | x in q ensures HasCounterpart(x, a) && ValidPipeline(x) {
      var k :| 0 <= k < |q| && q[k] == x;
      assert p[k] in p;
    }
  }

  /** Reordering pipelines, column sets or columns keeps a document valid and stores the same catalog. */
  lemma SyncIgnoresPermutation(db: Db, a: CatalogConfig, b: CatalogConfig)
    requires ValidConfig(a) && Permuted(a, b)
    ensures ValidConfig(b) && SyncRequest(db, a) == SyncRequest(db, b)
  {
    if multiset(a.pipelines) == multiset(b.pipelines) {
      PipelinesReordered(a, b);
    } else {
      var i :| 0 <= i < |a.pipelines| == |b.pipelines| && b.pipelines == a.pipelines[i := b.pipelines[i]] &&
        PermutedPipeline(a.pipelines[i], b.pipelines[i]);
      OnePipelineReordered(a, b, i);
    }
    SyncIgnoresOrder(db, a, b);
  }

  // ---------- what is stored ----------

  /** Pipeline keys and DAG ids are unique. */
  ghost predicate PipelinesDistinct(pipelines: seq<PipelineDefinition>) {
    forall p, q :: p in pipelines && q in pipelines && (p.key == q.key || p.dagId == q.dagId) ==> p == q
  }

  ghost predicate EdgeStored(db: Db, e: LineageEdge) {
    e.pipeline in db.pipelines && e.upstream != e.downstream &&
    e.upstream.dataset in db.datasets && e.downstream.dataset in db.datasets
  }

  ghost predicate CatalogTables(db: Db) {
    NoDuplicates(db.pipelines) && PipelinesDistinct(db.pipelines) &&
    NoDuplicates(db.edges) && forall e :: e in db.edges ==> EdgeStored(db, e)
  }

  lemma StoredLists(config: CatalogConfig)
    ensures forall e :: e in SortedEdges(config) <==> e in EdgesOf(config)
    ensures forall p :: p in SortedPipelines(config) <==> p in DefinitionsOf(config)
    ensures NoDuplicates(SortedEdges(config)) && NoDuplicates(SortedPipelines(config))
  {
    var ps, es := Listing(DefinitionsOf(config)), Listing(EdgesOf(config));
    SortByKeepsElements(ps, PipelineOrder);
    SortByKeepsElements(es, CatalogEdgeOrder);
    SortByIsAscendingPermutation(ps, PipelineOrder);
    SortByIsAscendingPermutation(es, CatalogEdgeOrder);
    NoDuplicatesPermutation(es, SortedEdges(config));
    NoDuplicatesPermutation(ps, SortedPipelines(config));
  }

  lemma SyncKeepsTables(db: Db, config: CatalogConfig)
    requires Acceptable(config, db.expected.Keys)
    requires forall r :: r in db.expected ==> r.dataset in db.datasets
    ensures var after := SyncRequest(db, config);
      (forall e :: e in after.edges <==> e in EdgesOf(config)) &&
      (forall p :: p in after.pipelines <==> p in DefinitionsOf(config)) &&
      CatalogTables(after)
  {
    StoredLists(config);
    var after := SyncRequest(db, config);
    forall x, y | x in after.pipelines && y in after.pipelines && (x.key == y.key || x.dagId == y.dagId)
      ensures x == y
    {
      var p :| p in config.pipelines && Definition(p) == x;
      var q :| q in config.pipelines && Definition(q) == y;
      PipelineByKey(config, p, q);
    }
    forall e | e in after.edges ensures EdgeStored(after, e) {
      var p := EdgeOrigin(config, e);
      assert Definition(p) in DefinitionsOf(config);
      assert PipelineResolvable(p, db.expected.Keys);
    }
  }

  // ---------- what is stored, in the terms of the document ----------

  /** The stored pipeline has the data of the document's. */
  predicate StandsFor(q: PipelineDefinition, p: PipelineConfig) {
    q.key == p.key && q.dagId == p.dagId && q.owner == p.owner && q.criticality == p.criticality
  }

  /** The column set names the column: its dataset text is `schema.table`, and the name is in its list. */
  predicate NamesColumn(s: ColumnSetConfig, c: ColumnRef) {
    c.name in s.columns && s.dataset == c.dataset.schema + "." + c.dataset.table &&
    DotFree(c.dataset.schema) && DotFree(c.dataset.table)
  }

  ghost predicate Names(sets: seq<ColumnSetConfig>, c: ColumnRef) {
    exists s :: s in sets && NamesColumn(s, c)
  }

  lemma NamesIff(sets: seq<ColumnSetConfig>, c: ColumnRef)
    requires forall s :: s in sets ==> ValidDatasetName(s.dataset)
    ensures c in ColumnsOf(sets) <==> Names(sets, c)
  {
    if c in ColumnsOf(sets) {
      var s, n :| s in sets && n in s.columns && c == ColumnRef(DatasetOf(s), n);
      ColumnSetDotFree(s);
      assert NamesColumn(s, c);
    }
    if s :| s in sets && NamesColumn(s, c) {
      SplitOnPair(c.dataset.schema, c.dataset.table, '.');
      assert DatasetOf(s) == c.dataset;
    }
  }

  /** The edge is one of the pipeline's: from a column its inputs name to a column its outputs name. */
  ghost predicate DeclaresEdge(p: PipelineConfig, e: LineageEdge) {
    StandsFor(e.pipeline, p) && Names(p.inputs, e.upstream) && Names(p.outputs, e.downstream)
  }

  ghost predicate Declares(config: CatalogConfig, e: LineageEdge) {
    exists p :: p in config.pipelines && DeclaresEdge(p, e)
  }

  lemma ValidSets(config: CatalogConfig, p: PipelineConfig)
    requires ValidConfig(config) && p in config.pipelines
    ensures forall s :: s in p.inputs || s in p.outputs ==> ValidDatasetName(s.dataset)
  {
    assert ValidPipeline(p);
  }

  lemma DeclaresIff(config: CatalogConfig, e: LineageEdge)
    requires ValidConfig(config)
    ensures e in EdgesOf(config) <==> Declares(config, e)
  {
    if e in EdgesOf(config) {
      var p := EdgeOrigin(config, e);
      ValidSets(config, p);
      NamesIff(p.inputs, e.upstream);
      NamesIff(p.outputs, e.downstream);
      assert DeclaresEdge(p, e);
    }
    if p :| p in config.pipelines && DeclaresEdge(p, e) {
      ValidSets(config, p);
      NamesIff(p.inputs, e.upstream);
      NamesIff(p.outputs, e.downstream);
      assert e == LineageEdge(Definition(p), e.upstream, e.downstream);
    }
  }

  /**
   An accepted catalog is stored whole.  Each pipeline of the document is stored with its key,
   DAG, owner and criticality, and no other.  An edge is stored, once, exactly when its
   pipeline reads the upstream column and writes the downstream one; none is a self-loop, and
   every endpoint is in a registered dataset.  Pipelines are stored by key, edges by key and
   qualified column names.
   */
  lemma SyncStoresCatalog(db: Db, config: CatalogConfig)
    requires Acceptable(config, db.expected.Keys)
    requires forall r :: r in db.expected ==> r.dataset in db.datasets
    ensures var after := SyncRequest(db, config);
      (forall p :: p in config.pipelines ==> exists q :: q in after.pipelines && StandsFor(q, p)) &&
      (forall q :: q in after.pipelines ==> exists p :: p in config.pipelines && StandsFor(q, p)) &&
      (forall e :: e in after.edges <==> Declares(config, e)) &&
      (forall e :: e in after.edges ==> e.upstream != e.downstream) &&
      CatalogTables(after)
    ensures var after := SyncRequest(db, config);
      (forall i, j :: 0 <= i < j < |after.pipelines| ==> Precedes(after.pipelines[i].key, after.pipelines[j].key)) &&
      (forall i, j :: 0 <= i < j < |after.edges| ==> EdgePrecedes(after.edges[i], after.edges[j]))
  {
    var after := SyncRequest(db, config);
    SyncKeepsTables(db, config);
    forall p | p in config.pipelines ensures exists q :: q in after.pipelines && StandsFor(q, p) {
      assert Definition(p) in DefinitionsOf(config) && StandsFor(Definition(p), p);
    }
    forall q | q in after.pipelines ensures exists p :: p in config.pipelines && StandsFor(q, p) {
      var p :| p in config.pipelines && q == Definition(p);
      assert StandsFor(q, p);
    }
    forall e ensures e in after.edges <==> Declares(config, e) {
      DeclaresIff(config, e);
    }
    forall e | e in after.edges ensures e.upstream != e.downstream {
      assert EdgeStored(after, e);
    }
    StoredOrder(db, config);
  }

  ghost predicate EdgePrecedes(e: LineageEdge, f: LineageEdge) {
    TuplePrecedes([e.pipeline.key, ColumnName(e.upstream), ColumnName(e.downstream)],
                  [f.pipeline.key, ColumnName(f.upstream), ColumnName(f.downstream)])
  }

  lemma OneTuplePrecedes(a: string, b: string)
    requires TuplePrecedes([a], [b])
    ensures Precedes(a, b)
  {
  }

  lemma StoredOrder(db: Db, config: CatalogConfig)
    requires Acceptable(config, db.expected.Keys)
    ensures var after := SyncRequest(db, config);
      (forall i, j :: 0 <= i < j < |after.pipelines| ==> Precedes(after.pipelines[i].key, after.pipelines[j].key)) &&
      (forall i, j :: 0 <= i < j < |after.edges| ==> EdgePrecedes(after.edges[i], after.edges[j]))
  {
    var ps, es := SortedPipelines(config), SortedEdges(config);
    StoredLists(config);
    SortByIsAscendingPermutation(Listing(DefinitionsOf(config)), PipelineOrder);
    SortByIsAscendingPermutation(Listing(EdgesOf(config)), CatalogEdgeOrder);
    forall i, j | 0 <= i < j < |ps| ensures Precedes(ps[i].key, ps[j].key) {
      PipelinesInOrder(config, ps[i], ps[j]);
    }
    forall i, j | 0 <= i < j < |es| ensures EdgePrecedes(es[i], es[j]) {
      assert es[i] in es && es[j] in es;
      KeyLeqIff(CatalogEdgeOrder(es[i]), CatalogEdgeOrder(es[j]));
      if CatalogEdgeOrder(es[i]) == CatalogEdgeOrder(es[j]) {
        CatalogEdgeOrderInjective(config, es[i], es[j]);
      }
    }
  }

  lemma PipelinesInOrder(config: CatalogConfig, x: PipelineDefinition, y: PipelineDefinition)
    requires ValidConfig(config) && x in DefinitionsOf(config) && y in DefinitionsOf(config)
    requires x != y && KeyLeq(PipelineOrder(x), PipelineOrder(y))
    ensures Precedes(x.key, y.key)
  {
    var p :| p in config.pipelines && x == Definition(p);
    var q :| q in config.pipelines && y == Definition(q);
    KeyLeqIff(PipelineOrder(x), PipelineOrder(y));
    if PipelineOrder(x) == PipelineOrder(y) {
      assert PipelineOrder(x).parts[0] == PipelineOrder(y).parts[0];
      PipelineByKey(config, p, q);
    }
    OneTuplePrecedes(x.key, y.key);
  }

  // ---------- which documents are accepted ----------

  /** `schema.table`, both parts nonempty and without dots. */
  ghost predicate TwoPartName(value: string) {
    exists s, t :: value == s + "." + t && s != "" && t != "" && DotFree(s) && DotFree(t)
  }

  lemma TwoPartNameIff(value: string)
    ensures ValidDatasetName(value) <==> TwoPartName(value)
  {
    if ValidDatasetName(value) {
      var parts := SplitOn(value, '.');
      SplitOnExact(value, '.');
      assert parts[0] in parts && parts[1] in parts;
      assert JoinWith(parts, ".") == parts[0] + "." + JoinWith(parts[1..], ".");
      assert value == parts[0] + "." + parts[1];
      assert DotFree(parts[0]) && DotFree(parts[1]) && TwoPartName(value);
    }
    if TwoPartName(value) {
      var s, t :| value == s + "." + t && s != "" && t != "" && DotFree(s) && DotFree(t);
      SplitOnPair(s, t, '.');
      assert value == s + ['.'] + t;
      assert ValidDatasetName(value);
    }
  }

  /** Some column sets over two-part names, each with one or more distinct columns, all in the baseline. */
  ghost predicate GoodSets(sets: seq<ColumnSetConfig>, known: set<ColumnRef>) {
    |sets| > 0 &&
    (forall s :: s in sets ==> TwoPartName(s.dataset) && |s.columns| > 0) &&
    (forall s, i, j :: s in sets && 0 <= i < j < |s.columns| ==> s.columns[i] != s.columns[j]) &&
    (forall c :: Names(sets, c) ==> c in known)
  }

  /**
   A document is accepted exactly when it has pipelines, with distinct keys and distinct DAGs,
   none of key, DAG and owner empty, good inputs and outputs, and no column that is both input
   and output of one pipeline.
   */
  lemma AcceptableIff(config: CatalogConfig, known: set<ColumnRef>)
    ensures Acceptable(config, known) <==>
      (|config.pipelines| > 0 &&
       (forall i, j :: 0 <= i < j < |config.pipelines| ==>
         config.pipelines[i].key != config.pipelines[j].key &&
         config.pipelines[i].dagId != config.pipelines[j].dagId) &&
       (forall p :: p in config.pipelines ==> GoodPipeline(p, known)))
  {
    var ps := config.pipelines;
    forall p | p in ps ensures ValidPipeline(p) && PipelineResolvable(p, known) <==> GoodPipeline(p, known) {
      GoodPipelineIff(p, known);
    }
    if forall i, j :: 0 <= i < j < |ps| ==> ps[i].key != ps[j].key && ps[i].dagId != ps[j].dagId {
      assert AllDifferent(Keys(ps)) && AllDifferent(DagIds(ps));
    }
    if AllDifferent(Keys(ps)) && AllDifferent(DagIds(ps)) {
      forall i, j | 0 <= i < j < |ps| ensures ps[i].key != ps[j].key && ps[i].dagId != ps[j].dagId {
        assert Keys(ps)[i] != Keys(ps)[j] && DagIds(ps)[i] != DagIds(ps)[j];
      }
    }
  }

  ghost predicate GoodPipeline(p: PipelineConfig, known: set<ColumnRef>) {
    p.key != "" && p.dagId != "" && p.owner != "" && GoodSets(p.inputs, known) && GoodSets(p.outputs, known) &&
    forall c :: !(Names(p.inputs, c) && Names(p.outputs, c))
  }

  lemma GoodSetsIff(sets: seq<ColumnSetConfig>, known: set<ColumnRef>)
    ensures GoodSets(sets, known) <==>
      sets != [] && (forall s :: s in sets ==> ValidColumnSet(s)) && ColumnsOf(sets) <= known
  {
    forall s | s in sets ensures ValidDatasetName(s.dataset) <==> TwoPartName(s.dataset) {
      TwoPartNameIff(s.dataset);
    }
    if forall s :: s in sets ==> ValidDatasetName(s.dataset) {
      forall c ensures c in ColumnsOf(sets) <==> Names(sets, c) {
        NamesIff(sets, c);
      }
    }
  }

  lemma GoodPipelineIff(p: PipelineConfig, known: set<ColumnRef>)
    ensures GoodPipeline(p, known) <==> ValidPipeline(p) && PipelineResolvable(p, known)
  {
    GoodSetsIff(p.inputs, known);
    GoodSetsIff(p.outputs, known);
    if ValidPipeline(p) {
      forall c
        ensures c in ColumnsOf(p.inputs) <==> Names(p.inputs, c)
        ensures c in ColumnsOf(p.outputs) <==> Names(p.outputs, c)
      {
        NamesIff(p.inputs, c);
        NamesIff(p.outputs, c);
      }
    }
  }
}
