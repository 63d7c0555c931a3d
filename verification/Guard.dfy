/** The pipeline guard, the dashboard's affected DAGs and the alert's one-hop DAGs. */
module Guard {
  import opened Models
  import opened Ordering
  import opened Strings
  import opened Database
  import opened Lineage
  import opened Traversal
  import opened Catalog
  import opened Lifecycle

  datatype BlockingChange = BlockingChange(
    id: nat, dataset: DatasetRef, columnName: string, changeType: ChangeType, severity: Severity)

  function BlockingOrder(b: BlockingChange): Key {
    Key(0, [b.dataset.schema, b.dataset.table, b.columnName, IntText(b.id)])
  }

  function BlockingFor(id: nat, r: ChangeRow): BlockingChange {
    BlockingChange(id, r.dataset, r.columnName, r.changeType, r.severity)
  }

  /** Some edge of the pipeline reads a column that depends on `c`. */
  ghost predicate PipelineReads(edges: seq<LineageEdge>, pipelineKey: string, c: ColumnRef) {
    exists e :: e in edges && e.pipeline.key == pipelineKey && Traversal.Reachable(edges, [c], e.upstream)
  }

  predicate Impacted(impacts: seq<PipelineImpact>, pipelineKey: string) {
    exists i :: i in impacts && i.pipeline.key == pipelineKey
  }

  lemma ImpactedIff(edges: seq<LineageEdge>, pipelineKey: string, c: ColumnRef)
    ensures Impacted(ImpactsFor(AdjacencyOf(edges), [c]), pipelineKey) <==> PipelineReads(edges, pipelineKey, c)
  {
    var impacts := ImpactsFor(AdjacencyOf(edges), [c]);
    TraversalExact(edges, [c]);
    if i :| i in impacts && i.pipeline.key == pipelineKey {
      assert KeyOfImpact(i) in FoundKeys(impacts);
      var e :| e in edges && Traversal.Reachable(edges, [c], e.upstream) && KeyOfEdge(e) == KeyOfImpact(i);
    }
    if e :| e in edges && e.pipeline.key == pipelineKey && Traversal.Reachable(edges, [c], e.upstream) {
      assert KeyOfEdge(e) in ReachKeys(edges, [c]);
      var i :| i in impacts && KeyOfImpact(i) == KeyOfEdge(e);
    }
  }

  // ---------- three views of what a change affects ----------

  /** The dashboard's set of affected DAGs. */
  ghost function AffectedDags(edges: seq<LineageEdge>, c: ColumnRef): set<string> {
    set i | i in ImpactsFor(AdjacencyOf(edges), [c]) :: i.pipeline.dagId
  }

  /** The DAGs named in an alert: pipelines with an edge leaving the column itself. */
  function OneHopDags(edges: seq<LineageEdge>, c: ColumnRef): set<string> {
    set e | e in edges && e.upstream == c :: e.pipeline.dagId
  }

  lemma ImpactPipelineStored(db: Db, c: ColumnRef, i: PipelineImpact)
    requires CatalogTables(db) && i in ImpactsFor(AdjacencyOf(db.edges), [c])
    ensures i.pipeline in db.pipelines
  {
    TraversalExact(db.edges, [c]);
    assert Last(i.path) in i.path;
    assert EdgeStored(db, Last(i.path));
  }

  /** The dashboard lists the DAGs of the pipelines with an edge that is reached from the column. */
  lemma AffectedDagsExact(db: Db, c: ColumnRef, dagId: string)
    requires CatalogTables(db)
    ensures dagId in AffectedDags(db.edges, c) <==>
      exists e :: e in db.edges && e.pipeline.dagId == dagId && Traversal.Reachable(db.edges, [c], e.upstream)
  {
    if i :| i in ImpactsFor(AdjacencyOf(db.edges), [c]) && i.pipeline.dagId == dagId {
      ImpactPipelineStored(db, c, i);
      GuardAgreesWithDashboard(db, i.pipeline, c);
      var e :| e in db.edges && e.pipeline.key == i.pipeline.key && Traversal.Reachable(db.edges, [c], e.upstream);
      assert EdgeStored(db, e);
    }
    if e :| e in db.edges && e.pipeline.dagId == dagId && Traversal.Reachable(db.edges, [c], e.upstream) {
      assert EdgeStored(db, e);
      assert PipelineReads(db.edges, e.pipeline.key, c);
      GuardAgreesWithDashboard(db, e.pipeline, c);
    }
  }

  /** The guard blocks a pipeline on a column exactly when the dashboard lists its DAG for that column. */
  lemma GuardAgreesWithDashboard(db: Db, p: PipelineDefinition, c: ColumnRef)
    requires CatalogTables(db) && p in db.pipelines
    ensures PipelineReads(db.edges, p.key, c) <==> p.dagId in AffectedDags(db.edges, c)
  {
    var impacts := ImpactsFor(AdjacencyOf(db.edges), [c]);
    ImpactedIff(db.edges, p.key, c);
    forall i | i in impacts ensures i.pipeline.key == p.key <==> i.pipeline.dagId == p.dagId {
      ImpactPipelineStored(db, c, i);
    }
  }

  /** The alert's one-hop list names no DAG the dashboard would not. */
  lemma AlertWithinDashboard(db: Db, c: ColumnRef)
    requires CatalogTables(db)
    ensures OneHopDags(db.edges, c) <= AffectedDags(db.edges, c)
  {
    forall d | d in OneHopDags(db.edges, c) ensures d in AffectedDags(db.edges, c) {
      var e :| e in db.edges && e.upstream == c && e.pipeline.dagId == d;
      assert EdgeStored(db, e);
      assert PipelineReads(db.edges, e.pipeline.key, c);
      GuardAgreesWithDashboard(db, e.pipeline, c);
    }
  }

  /** It names exactly the DAGs of the impacts one edge away. */
  lemma OneHopExact(db: Db, c: ColumnRef)
    requires CatalogTables(db)
    ensures OneHopDags(db.edges, c) ==
      set i | i in ImpactsFor(AdjacencyOf(db.edges), [c]) && |i.path| == 1 :: i.pipeline.dagId
  {
    var impacts := ImpactsFor(AdjacencyOf(db.edges), [c]);
    TraversalExact(db.edges, [c]);
    forall e | e in db.edges && e.upstream == c
      ensures exists i :: i in impacts && |i.path| == 1 && i.pipeline.dagId == e.pipeline.dagId
    {
      var i := OneHopImpact(db, c, e);
    }
    forall i | i in impacts && |i.path| == 1 ensures i.pipeline.dagId in OneHopDags(db.edges, c) {
      assert i.path[0] in i.path && i.path[0] in db.edges && i.path[0].upstream == c;
    }
  }

  lemma OneHopImpact(db: Db, c: ColumnRef, e: LineageEdge) returns (i: PipelineImpact)
    requires CatalogTables(db) && e in db.edges && e.upstream == c
    ensures i in ImpactsFor(AdjacencyOf(db.edges), [c]) && |i.path| == 1 && i.pipeline.dagId == e.pipeline.dagId
  {
    var impacts := ImpactsFor(AdjacencyOf(db.edges), [c]);
    TraversalExact(db.edges, [c]);
    assert Traversal.Reachable(db.edges, [c], e.upstream);
    assert KeyOfEdge(e) in FoundKeys(impacts);
    i :| i in impacts && KeyOfImpact(i) == KeyOfEdge(e);
    assert IsChain(db.edges, [c], [e]) && Last([e]) == e;
    ImpactPipelineStored(db, c, i);
    assert EdgeStored(db, e);
  }

  // ---------- the guard's answer ----------

  /** Row i blocks the pipeline: it is OPEN and BREAKING, and the pipeline reads what depends on its column. */
  ghost predicate Blocks(db: Db, i: nat, pipelineKey: string) {
    i < |db.changes| && db.changes[i].state == Open && db.changes[i].severity == Breaking &&
    PipelineReads(db.edges, pipelineKey, db.changes[i].Ref())
  }

  /** The rows blocking a pipeline among the first n, in table order. */
  ghost function BlockingRows(db: Db, pipelineKey: string, n: nat): seq<BlockingChange>
    requires n <= |db.changes|
  {
    if n == 0 then [] else
    BlockingRows(db, pipelineKey, n - 1) +
      (if Blocks(db, n - 1, pipelineKey) then [BlockingFor(n - 1, db.changes[n - 1])] else [])
  }

  ghost function GuardAnswer(db: Db, pipelineKey: string): seq<BlockingChange> {
    SortBy(BlockingRows(db, pipelineKey, |db.changes|), BlockingOrder)
  }

  lemma {:induction false} BlockingRowsExact(db: Db, pipelineKey: string, n: nat)
    requires n <= |db.changes|
    ensures forall b :: b in BlockingRows(db, pipelineKey, n) <==>
      (b.id < n && Blocks(db, b.id, pipelineKey) && b == BlockingFor(b.id, db.changes[b.id]))
    ensures NoDuplicates(BlockingRows(db, pipelineKey, n))
  {
    if n > 0 {
      BlockingRowsExact(db, pipelineKey, n - 1);
      var front := BlockingRows(db, pipelineKey, n - 1);
      assert forall i :: 0 <= i < |front| ==> front[i] in front;
    }
  }

  lemma GuardMembers(db: Db, pipelineKey: string)
    ensures NoDuplicates(GuardAnswer(db, pipelineKey)) && Ascending(GuardAnswer(db, pipelineKey), BlockingOrder)
    ensures forall b :: b in GuardAnswer(db, pipelineKey) <==>
      (Blocks(db, b.id, pipelineKey) && b == BlockingFor(b.id, db.changes[b.id]))
  {
    var rows := BlockingRows(db, pipelineKey, |db.changes|);
    BlockingRowsExact(db, pipelineKey, |db.changes|);
    SortByIsAscendingPermutation(rows, BlockingOrder);
    SortByKeepsElements(rows, BlockingOrder);
    NoDuplicatesPermutation(rows, GuardAnswer(db, pipelineKey));
  }

  /** The reported data are those of the row. */
  predicate ReportOf(b: BlockingChange, r: ChangeRow) {
    b.dataset == r.dataset && b.columnName == r.columnName && b.changeType == r.changeType && b.severity == r.severity
  }

  /**
   The guard reports each blocking row once, with the data of the row, by schema, table, column
   and id, and is safe exactly when there is none.
   */
  lemma GuardExact(db: Db, pipelineKey: string)
    ensures var answer := GuardAnswer(db, pipelineKey);
      NoDuplicates(answer) &&
      (forall b :: b in answer <==> (Blocks(db, b.id, pipelineKey) && ReportOf(b, db.changes[b.id]))) &&
      (answer == [] <==> forall i: nat :: !Blocks(db, i, pipelineKey))
    ensures forall i, j :: 0 <= i < j < |GuardAnswer(db, pipelineKey)| ==>
      ReportedBefore(GuardAnswer(db, pipelineKey)[i], GuardAnswer(db, pipelineKey)[j])
  {
    var answer := GuardAnswer(db, pipelineKey);
    assert answer != [] ==> answer[0] in answer;
    GuardMembers(db, pipelineKey);
    forall i, j | 0 <= i < j < |answer| ensures ReportedBefore(answer[i], answer[j]) {
      KeyLeqIff(BlockingOrder(answer[i]), BlockingOrder(answer[j]));
    }
    forall i: nat ensures Blocks(db, i, pipelineKey) ==> BlockingFor(i, db.changes[i]) in answer {
    }
  }

  ghost predicate ReportedBefore(b: BlockingChange, d: BlockingChange) {
    var x := [b.dataset.schema, b.dataset.table, b.columnName, IntText(b.id)];
    var y := [d.dataset.schema, d.dataset.table, d.columnName, IntText(d.id)];
    x == y || TuplePrecedes(x, y)
  }

  /** No OPEN BREAKING change is listed with this DAG. */
  ghost predicate Unaffected(db: Db, dagId: string) {
    forall r :: r in db.changes && r.state == Open && r.severity == Breaking ==>
      dagId !in AffectedDags(db.edges, r.Ref())
  }

  lemma NotBlockedIffUnaffected(db: Db, p: PipelineDefinition)
    requires CatalogTables(db) && p in db.pipelines
    ensures (forall i: nat :: !Blocks(db, i, p.key)) <==> Unaffected(db, p.dagId)
  {
    if forall i: nat :: !Blocks(db, i, p.key) {
      forall r | r in db.changes && r.state == Open && r.severity == Breaking
        ensures p.dagId !in AffectedDags(db.edges, r.Ref())
      {
        var i :| 0 <= i < |db.changes| && db.changes[i] == r;
        assert !Blocks(db, i, p.key);
        GuardAgreesWithDashboard(db, p, r.Ref());
      }
    }
    if Unaffected(db, p.dagId) {
      forall i: nat ensures !Blocks(db, i, p.key) {
        if i < |db.changes| {
          assert db.changes[i] in db.changes;
          GuardAgreesWithDashboard(db, p, db.changes[i].Ref());
        }
      }
    }
  }

  /**
   In every reachable state and for every known pipeline: the guard says safe exactly when
   the dashboard lists the pipeline's DAG for no OPEN BREAKING change.
   */
  lemma SafeIffUnaffected(source: string, events: seq<Event>, p: PipelineDefinition)
    requires p in Run(Fresh(source), events).db.pipelines
    ensures var db := Run(Fresh(source), events).db;
      GuardAnswer(db, p.key) == [] <==> Unaffected(db, p.dagId)
  {
    var db := Run(Fresh(source), events).db;
    EveryRunKeepsInv(source, events);
    GuardExact(db, p.key);
    NotBlockedIffUnaffected(db, p);
  }

  /** Once every BREAKING change has been accepted or resolved, every pipeline is safe, whatever the lineage. */
  lemma SettledIsSafe(source: string, events: seq<Event>, pipelineKey: string)
    requires var rows := Run(Fresh(source), events).db.changes;
      forall r :: r in rows && r.severity == Breaking ==> r.state == Accepted || r.state == Resolved
    ensures GuardAnswer(Run(Fresh(source), events).db, pipelineKey) == []
  {
    var db := Run(Fresh(source), events).db;
    GuardExact(db, pipelineKey);
    forall i: nat ensures !Blocks(db, i, pipelineKey) {
      if i < |db.changes| { assert db.changes[i] in db.changes; }
    }
  }
}
