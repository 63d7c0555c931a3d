/** From a scan to the guard and the alerts, in every reachable state. */
module EndToEnd {
  import opened Options
  import opened Models
  import opened Ordering
  import opened Diff
  import opened TypePolicy
  import opened Database
  import opened Reconciliation
  import opened Acceptance
  import opened Lifecycle
  import opened Traversal
  import opened Guard
  import opened Reachability

  /** The source still has the column, with a compatible type, and it is no less NOT NULL than before. */
  predicate StillServes(before: ColumnDefinition, observed: Columns) {
    before.Ref() in observed &&
    (before.dataType != observed[before.Ref()].dataType ==>
      Compatible(before.dataType, observed[before.Ref()].dataType)) &&
    (!before.nullable ==> !observed[before.Ref()].nullable)
  }

  /** Every baseline column the pipeline depends on, however far upstream, is still served. */
  ghost predicate Served(db: Db, observed: Columns, pipelineKey: string) {
    forall r :: r in db.expected && PipelineReads(db.edges, pipelineKey, r) ==> StillServes(db.expected[r], observed)
  }

  /** A column some pipeline depends on has an edge leaving it. */
  lemma DependedOnHasReader(db: Db, pipelineKey: string, r: ColumnRef)
    requires PipelineReads(db.edges, pipelineKey, r)
    ensures HasReader(db, r)
  {
    var e :| e in db.edges && e.pipeline.key == pipelineKey && Traversal.Reachable(db.edges, [r], e.upstream);
    if e.upstream != r {
      var p :| IsChain(db.edges, [r], p) && Last(p).downstream == e.upstream;
      assert p[0] in p;
    }
  }

  lemma DriftDue(db: Db, observed: seq<ColumnDefinition>, t: ChangeType, r: ColumnRef) returns (c: SchemaChange)
    requires WellKeyed(db.expected) && Due(t, r, db.expected, RefMap(observed))
    ensures c in DriftOf(db, observed) && c.changeType == t && c.Ref() == r
  {
    SnapshotKeyed(observed);
    DueIsReported(t, r, db.expected, RefMap(observed), Dependencies(db));
    c :| c in DriftOf(db, observed) && c.changeType == t && c.Ref() == r;
  }

  /** A column that is read and no longer served drifts with severity BREAKING. */
  lemma UnservedIsBreaking(db: Db, observed: seq<ColumnDefinition>, r: ColumnRef) returns (c: SchemaChange)
    requires WellKeyed(db.expected) && r in db.expected && HasReader(db, r)
    requires !StillServes(db.expected[r], RefMap(observed))
    ensures c in DriftOf(db, observed) && c.Ref() == r && c.severity == Breaking
    ensures r !in RefMap(observed) ==> c.changeType == DropColumn
  {
    var t := if r !in RefMap(observed) then DropColumn
             else if !db.expected[r].nullable && RefMap(observed)[r].nullable then NullabilityChange else TypeChange;
    c := DriftDue(db, observed, t, r);
    DriftSeverity(db, observed, c);
  }

  /** A BREAKING change is about a column that is no longer served. */
  lemma BreakingIsUnserved(db: Db, observed: seq<ColumnDefinition>, c: SchemaChange)
    requires WellKeyed(db.expected) && c in DriftOf(db, observed) && c.severity == Breaking
    ensures c.Ref() in db.expected && !StillServes(db.expected[c.Ref()], RefMap(observed))
  {
    SnapshotKeyed(observed);
    DriftSeverity(db, observed, c);
    DueIsReported(c.changeType, c.Ref(), db.expected, RefMap(observed), Dependencies(db));
  }

  /** When the OPEN rows mirror the drift, exactly the pipelines that are no longer served are blocked. */
  lemma MirroredGuard(db: Db, observed: seq<ColumnDefinition>, pipelineKey: string)
    requires WellKeyed(db.expected) && Mirrors(db.source, db.changes, DriftOf(db, observed))
    ensures GuardAnswer(db, pipelineKey) == [] <==> Served(db, RefMap(observed), pipelineKey)
  {
    var diff := DriftOf(db, observed);
    GuardExact(db, pipelineKey);
    if i: nat :| Blocks(db, i, pipelineKey) {
      var c := MirrorChange(db.source, db.changes, diff, i);
      BreakingIsUnserved(db, observed, c);
      assert !Served(db, RefMap(observed), pipelineKey);
    }
    if !Served(db, RefMap(observed), pipelineKey) {
      var r :| r in db.expected && PipelineReads(db.edges, pipelineKey, r) &&
        !StillServes(db.expected[r], RefMap(observed));
      DependedOnHasReader(db, pipelineKey, r);
      var c := UnservedIsBreaking(db, observed, r);
      var i := MirrorRow(db.source, db.changes, diff, c);
      assert Blocks(db, i, pipelineKey);
    }
  }

  /**
   What the guard is for: after any run, once a scan has committed, a pipeline validates safe
   exactly when every baseline column it depends on is still in the source, with a compatible
   type, and as non-null as before.
   */
  lemma GuardAfterScan(source: string, events: seq<Event>, call: ScanCall, pipelineKey: string)
    requires DistinctlyNamed(events + [Scan(call)]) && IsDriftCall(After(source, events), call)
    requires ObservedRegistered(After(source, events), call.collected.columns)
    ensures GuardAnswer(After(source, events + [Scan(call)]), pipelineKey) == [] <==>
      Served(After(source, events), RefMap(call.collected.columns), pipelineKey)
  {
    var db := After(source, events);
    ScanFromReached(source, events, call);
    MirroredGuard(DriftTables(db, call), call.collected.columns, pipelineKey);
  }

  lemma ScanFromReached(source: string, events: seq<Event>, call: ScanCall)
    requires DistinctlyNamed(events + [Scan(call)]) && IsDriftCall(After(source, events), call)
    requires ObservedRegistered(After(source, events), call.collected.columns)
    ensures var db := After(source, events);
      Inv(db) && WellKeyed(db.expected) && ScanRequest(db, call).outcome.DriftRecorded? &&
      After(source, events + [Scan(call)]) == ScanRequest(db, call).db == DriftTables(db, call) &&
      Mirrors(db.source, DriftTables(db, call).changes, DriftOf(db, call.collected.columns))
  {
    var db := After(source, events);
    ReachedReady(source, events, call);
    DriftAllowedIff(db, call);
    DriftOutcome(db, call);
    RowsAfterMirror(db, call);
    RunConcat(Fresh(source), events, [Scan(call)]);
    ScannedWorld(Run(Fresh(source), events), call);
  }

  /**
   A scan misses a column that some pipeline reads.  Then the drop is OPEN and BREAKING, and unless
   it was OPEN before, every enabled channel is alerted.
   */
  lemma MissingColumnAlerts(source: string, events: seq<Event>, call: ScanCall, r: ColumnRef)
    requires DistinctlyNamed(events + [Scan(call)]) && IsDriftCall(After(source, events), call)
    requires ObservedRegistered(After(source, events), call.collected.columns)
    requires r in After(source, events).expected && HasReader(After(source, events), r)
    requires forall c :: c in call.collected.columns ==> c.Ref() != r
    ensures var before, after := After(source, events), After(source, events + [Scan(call)]);
      DropIsOpen(after.changes, r) &&
      (!DropIsOpen(before.changes, r) ==>
        AlertedChannels(after.deliveries, |before.scans|) == Enabled(call.settings))
  {
    var db := After(source, events);
    ScanFromReached(source, events, call);
    SnapshotKeyed(call.collected.columns);
    var c := UnservedIsBreaking(db, call.collected.columns, r);
    var i := MirrorRow(db.source, DriftTables(db, call).changes, DriftOf(db, call.collected.columns), c);
    ScanAlerts(db, call);
    if ChangeFingerprint(db.source, c) in OpenFingerprints(db.changes) {
      KnownDropIsOpen(source, events, call, c);
    }
  }

  /** An OPEN BREAKING row says the column was dropped. */
  ghost predicate DropIsOpen(rows: seq<ChangeRow>, r: ColumnRef) {
    exists i :: 0 <= i < |rows| && rows[i].state == Open && rows[i].severity == Breaking &&
      rows[i].changeType == DropColumn && rows[i].Ref() == r
  }

  /** A drop reported as BREAKING has an OPEN row only if the drop is OPEN. */
  lemma KnownDropIsOpen(source: string, events: seq<Event>, call: ScanCall, c: SchemaChange)
    requires DistinctlyNamed(events + [Scan(call)]) && IsDriftCall(After(source, events), call)
    requires c in DriftOf(After(source, events), call.collected.columns)
    requires c.changeType == DropColumn && c.severity == Breaking
    requires var db := After(source, events);
      ChangeFingerprint(db.source, c) in OpenFingerprints(db.changes)
    ensures DropIsOpen(After(source, events).changes, c.Ref())
  {
    var db := After(source, events);
    ReachedReady(source, events, call);
    DriftNames(db, call.collected.columns);
    var k := OpenRowOf(db.changes, ChangeFingerprint(db.source, c));
    assert db.changes[k] in db.changes;
    FingerprintIdentifies(db.source, db.datasets + SnapshotDatasets(call.collected.columns), db.changes[k], c);
  }

  /** Once every OPEN row of a scan has been accepted, in any order, every pipeline is safe. */
  lemma AcceptedIsSafe(source: string, events: seq<Event>, call: ScanCall, ids: seq<nat>, clock: nat -> int,
                       pipelineKey: string)
    requires DistinctlyNamed(events + [Scan(call)]) && IsDriftCall(After(source, events), call)
    requires ObservedRegistered(After(source, events), call.collected.columns)
    requires var scanned := After(source, events + [Scan(call)]);
      NoDuplicates(ids) && EveryOpenRow(scanned.changes, Ids(ids))
    ensures var scanned := After(source, events + [Scan(call)]);
      var final := After(source, events + [Scan(call)] + AcceptEvents(ids, scanned.version, clock));
      GuardAnswer(final, pipelineKey) == []
  {
    AcceptingAllConverges(source, events, call, ids, clock);
    var scanned := After(source, events + [Scan(call)]);
    var final := After(source, events + [Scan(call)] + AcceptEvents(ids, scanned.version, clock));
    GuardExact(final, pipelineKey);
    forall i: nat ensures !Blocks(final, i, pipelineKey) {
      if Blocks(final, i, pipelineKey) { OpenFingerprint(final.changes, i); }
    }
  }
}
