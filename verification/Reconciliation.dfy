/**
 The incremental reconciler against recomputation: after a drift scan the OPEN rows are
 the diff, no more and no less.
 */
module Reconciliation {
  import opened Options
  import opened Models
  import opened Diff
  import opened TypePolicy
  import opened Database

  // ---------- invariants of the change table ----------

  function RowFingerprint(source: string, r: ChangeRow): Fingerprint {
    Fingerprint(source,
      ChangePayload(DatasetName(r.dataset), r.columnName, r.changeType, r.severity, r.before, r.after))
  }

  /** The row is the persisted form of this change. */
  ghost predicate Describes(source: string, r: ChangeRow, c: SchemaChange) {
    r.dataset == c.dataset && r.columnName == c.columnName && r.changeType == c.changeType &&
    r.severity == c.severity &&
    r.before == OptionalColumnDict(c.before) && r.after == OptionalColumnDict(c.after) &&
    r.fingerprint == ChangeFingerprint(source, c)
  }

  ghost predicate Explained(source: string, r: ChangeRow, diff: seq<SchemaChange>) {
    exists c :: c in diff && Describes(source, r, c)
  }

  ghost predicate Recorded(source: string, rows: seq<ChangeRow>, c: SchemaChange) {
    exists i :: 0 <= i < |rows| && rows[i].state.Open? && Describes(source, rows[i], c)
  }

  /** The OPEN rows and the changes of a diff stand in bijection, payload for payload. */
  ghost predicate Mirrors(source: string, rows: seq<ChangeRow>, diff: seq<SchemaChange>) {
    UniqueOpen(rows) &&
    (forall i {:trigger Explained(source, rows[i], diff)} ::
      0 <= i < |rows| && rows[i].state.Open? ==> Explained(source, rows[i], diff)) &&
    (forall c {:trigger Recorded(source, rows, c)} :: c in diff ==> Recorded(source, rows, c))
  }

  ghost predicate FingerprintsMatch(source: string, rows: seq<ChangeRow>) {
    forall r :: r in rows ==> r.fingerprint == RowFingerprint(source, r)
  }

  ghost predicate RowsRegistered(rows: seq<ChangeRow>, datasets: set<DatasetRef>) {
    forall r :: r in rows ==> r.dataset in datasets
  }

  ghost predicate BaselineOk(db: Db) {
    WellKeyed(db.expected) && forall r :: r in db.expected ==> r.dataset in db.datasets
  }

  /** What every request keeps of the change table and the baseline. */
  ghost predicate TablesOk(db: Db) {
    BaselineOk(db) && UniqueOpen(db.changes) &&
    FingerprintsMatch(db.source, db.changes) && RowsRegistered(db.changes, db.datasets)
  }

  function SnapshotDatasets(observed: seq<ColumnDefinition>): set<DatasetRef> {
    set c | c in observed :: c.dataset
  }

  /** No two registered or observed tables share a qualified name. */
  ghost predicate Unambiguous(datasets: set<DatasetRef>, observed: seq<ColumnDefinition>) {
    UniqueNames(datasets + SnapshotDatasets(observed))
  }

  // ---------- one reconciliation ----------

  lemma {:induction false} FreshChangesExact(changes: seq<SchemaChange>, source: string, open: set<Fingerprint>)
    ensures forall c :: c in FreshChanges(changes, source, open) <==>
      c in changes && ChangeFingerprint(source, c) !in open
  {
    if changes != [] {
      var n := |changes| - 1;
      FreshChangesExact(changes[..n], source, open);
      assert changes == changes[..n] + [changes[n]];
    }
  }

  ghost predicate DistinctFingerprints(changes: seq<SchemaChange>, source: string) {
    forall i, j :: 0 <= i < j < |changes| ==>
      ChangeFingerprint(source, changes[i]) != ChangeFingerprint(source, changes[j])
  }

  lemma {:induction false} FreshChangesDistinct(changes: seq<SchemaChange>, source: string, open: set<Fingerprint>)
    requires DistinctFingerprints(changes, source)
    ensures DistinctFingerprints(FreshChanges(changes, source, open), source)
  {
    if changes != [] {
      var n := |changes| - 1;
      var front, all := FreshChanges(changes[..n], source, open), FreshChanges(changes, source, open);
      FreshChangesDistinct(changes[..n], source, open);
      FreshChangesExact(changes[..n], source, open);
      forall i, j | 0 <= i < j < |all| ensures ChangeFingerprint(source, all[i]) != ChangeFingerprint(source, all[j]) {
        if j == |front| {
          assert all[i] == front[i] && front[i] in front;
          var k :| 0 <= k < n && changes[..n][k] == all[i];
        }
      }
    }
  }

  lemma OpenFingerprint(rows: seq<ChangeRow>, i: nat)
    requires i < |rows| && rows[i].state.Open?
    ensures rows[i].fingerprint in OpenFingerprints(rows)
  {
    assert rows[i] in rows;
  }

  lemma OpenRowOf(rows: seq<ChangeRow>, f: Fingerprint) returns (i: nat)
    requires f in OpenFingerprints(rows)
    ensures i < |rows| && rows[i].state.Open? && rows[i].fingerprint == f
  {
    var r :| r in rows && r.state.Open? && r.fingerprint == f;
    i :| 0 <= i < |rows| && rows[i] == r;
  }

  lemma ReconciledOld(rows: seq<ChangeRow>, changes: seq<SchemaChange>, source: string, scan: nat, version: int,
                      now: int, i: nat)
    requires i < |rows|
    ensures var r := Reconciled(rows, changes, source, scan, version, now);
      i < |r| && r[i] == ResolveIfGone(rows[i], Fingerprints(changes, source), now)
  {
  }

  lemma ReconciledNew(rows: seq<ChangeRow>, changes: seq<SchemaChange>, source: string, scan: nat, version: int,
                      now: int, i: nat)
    requires |rows| <= i < |Reconciled(rows, changes, source, scan, version, now)|
    ensures var r := Reconciled(rows, changes, source, scan, version, now);
      var c := FreshChanges(changes, source, OpenFingerprints(rows))[i - |rows|];
      r[i] == NewRow(c, scan, version, source) && c in changes &&
      ChangeFingerprint(source, c) !in OpenFingerprints(rows)
  {
    var added := FreshChanges(changes, source, OpenFingerprints(rows));
    FreshChangesExact(changes, source, OpenFingerprints(rows));
    assert added[i - |rows|] in added;
  }

  /**
   Reconciling keeps the unique index on OPEN fingerprints exactly when the added changes have
   distinct fingerprints.
   */
  lemma ReconciledUniqueIff(rows: seq<ChangeRow>, changes: seq<SchemaChange>, source: string, scan: nat, version: int,
                            now: int)
    requires UniqueOpen(rows)
    ensures UniqueOpen(Reconciled(rows, changes, source, scan, version, now))
      <==> DistinctFingerprints(FreshChanges(changes, source, OpenFingerprints(rows)), source)
  {
    var added := FreshChanges(changes, source, OpenFingerprints(rows));
    if DistinctFingerprints(added, source) {
      AddedKeepUnique(rows, changes, source, scan, version, now);
    }
    if UniqueOpen(Reconciled(rows, changes, source, scan, version, now)) {
      var r := Reconciled(rows, changes, source, scan, version, now);
      forall i, j | 0 <= i < j < |added|
        ensures ChangeFingerprint(source, added[i]) != ChangeFingerprint(source, added[j])
      {
        assert r[|rows| + i] == NewRow(added[i], scan, version, source);
        assert r[|rows| + j] == NewRow(added[j], scan, version, source);
      }
    }
  }

  /** With distinct fingerprints throughout the diff the index is never violated. */
  lemma ReconciledUnique(rows: seq<ChangeRow>, changes: seq<SchemaChange>, source: string, scan: nat, version: int,
                         now: int)
    requires UniqueOpen(rows) && DistinctFingerprints(changes, source)
    ensures UniqueOpen(Reconciled(rows, changes, source, scan, version, now))
  {
    FreshChangesDistinct(changes, source, OpenFingerprints(rows));
    AddedKeepUnique(rows, changes, source, scan, version, now);
  }

  lemma AddedKeepUnique(rows: seq<ChangeRow>, changes: seq<SchemaChange>, source: string, scan: nat, version: int,
                        now: int)
    requires UniqueOpen(rows) && DistinctFingerprints(FreshChanges(changes, source, OpenFingerprints(rows)), source)
    ensures UniqueOpen(Reconciled(rows, changes, source, scan, version, now))
  {
    var r := Reconciled(rows, changes, source, scan, version, now);
    forall i, j | 0 <= i < j < |r| && r[i].state.Open? && r[j].state.Open?
      ensures r[i].fingerprint != r[j].fingerprint
    {
      if i < |rows| {
        ReconciledOld(rows, changes, source, scan, version, now, i);
        OpenFingerprint(rows, i);
      } else {
        ReconciledNew(rows, changes, source, scan, version, now, i);
      }
      if j < |rows| {
        ReconciledOld(rows, changes, source, scan, version, now, j);
      } else {
        ReconciledNew(rows, changes, source, scan, version, now, j);
      }
    }
  }

  lemma FingerprintIdentifies(source: string, names: set<DatasetRef>, r: ChangeRow, c: SchemaChange)
    requires r.fingerprint == RowFingerprint(source, r)
    requires UniqueNames(names) && r.dataset in names && c.dataset in names
    requires r.fingerprint == ChangeFingerprint(source, c)
    ensures Describes(source, r, c)
  {
  }

  /** Keeping, resolving and adding rows by fingerprint amounts to recomputing the diff. */
  lemma ReconciledMirrors(rows: seq<ChangeRow>, changes: seq<SchemaChange>, source: string, scan: nat, version: int,
                          now: int, names: set<DatasetRef>)
    requires UniqueOpen(rows) && FingerprintsMatch(source, rows) && DistinctFingerprints(changes, source)
    requires UniqueNames(names) && RowsRegistered(rows, names) && Registered(changes, names)
    ensures Mirrors(source, Reconciled(rows, changes, source, scan, version, now), changes)
  {
    var r := Reconciled(rows, changes, source, scan, version, now);
    ReconciledUnique(rows, changes, source, scan, version, now);
    forall i | 0 <= i < |r| && r[i].state.Open? ensures Explained(source, r[i], changes) {
      if i < |rows| {
        ReconciledOld(rows, changes, source, scan, version, now, i);
        var c :| c in changes && ChangeFingerprint(source, c) == r[i].fingerprint;
        assert rows[i] in rows;
        FingerprintIdentifies(source, names, r[i], c);
      } else {
        ReconciledNew(rows, changes, source, scan, version, now, i);
      }
    }
    forall c | c in changes ensures Recorded(source, r, c) {
      var f := ChangeFingerprint(source, c);
      if f in OpenFingerprints(rows) {
        var i := OpenRowOf(rows, f);
        ReconciledOld(rows, changes, source, scan, version, now, i);
        assert f in Fingerprints(changes, source);
        assert rows[i] in rows;
        FingerprintIdentifies(source, names, r[i], c);
      } else {
        var added := FreshChanges(changes, source, OpenFingerprints(rows));
        FreshChangesExact(changes, source, OpenFingerprints(rows));
        var k :| 0 <= k < |added| && added[k] == c;
        assert r[|rows| + k] == NewRow(c, scan, version, source);
      }
    }
  }

  // ---------- the scan request ----------

  lemma SnapshotKeyed(observed: seq<ColumnDefinition>)
    ensures WellKeyed(RefMap(observed))
    ensures DatasetsOf(RefMap(observed)) <= SnapshotDatasets(observed)
    ensures forall r :: r in RefMap(observed) ==> RefMap(observed)[r] in observed
    ensures observed != [] ==> RefMap(observed) != map[]
  {
    RefMapFacts(observed);
    RefMapValues(observed);
    if observed != [] {
      assert observed[0].Ref() in RefMap(observed);
    }
  }

  lemma {:induction false} RefMapValues(observed: seq<ColumnDefinition>)
    ensures forall r :: r in RefMap(observed) ==> RefMap(observed)[r] in observed
  {
    if observed != [] {
      RefMapValues(observed[..|observed| - 1]);
    }
  }

  ghost predicate ObservedRegistered(db: Db, observed: seq<ColumnDefinition>) {
    forall c :: c in observed ==> c.dataset in db.datasets
  }

  /** A change names a column of the baseline or of the snapshot. */
  lemma DriftAbout(db: Db, observed: seq<ColumnDefinition>, c: SchemaChange)
    requires WellKeyed(db.expected) && c in DriftOf(db, observed)
    ensures c.Ref() in db.expected || c.Ref() in RefMap(observed)
  {
    SnapshotKeyed(observed);
    DiffMember(db.expected, RefMap(observed), Dependencies(db), c);
  }

  lemma DriftNames(db: Db, observed: seq<ColumnDefinition>)
    requires BaselineOk(db) && Unambiguous(db.datasets, observed)
    ensures DistinctFingerprints(DriftOf(db, observed), db.source)
    ensures Registered(DriftOf(db, observed), db.datasets + SnapshotDatasets(observed))
  {
    SnapshotKeyed(observed);
    DiffFingerprintsDistinct(db.expected, RefMap(observed), Dependencies(db), db.source);
    forall c | c in DriftOf(db, observed) ensures c.dataset in db.datasets + SnapshotDatasets(observed) {
      DriftAbout(db, observed, c);
    }
  }

  /** Some lineage edge leads from the column. */
  ghost predicate HasReader(db: Db, r: ColumnRef) {
    exists e :: e in db.edges && e.upstream == r
  }

  /**
   The severity of drift.  A dropped column is BREAKING exactly when some pipeline reads it; so
   is a column that stops being NOT NULL.  A new type is BREAKING exactly when it is not
   compatible with the old one.  A new column is INFO if nullable.  All the rest is WARNING.
   */
  lemma DriftSeverity(db: Db, observed: seq<ColumnDefinition>, c: SchemaChange)
    requires WellKeyed(db.expected) && c in DriftOf(db, observed)
    ensures match c.changeType
      case AddColumn => c.severity == if RefMap(observed)[c.Ref()].nullable then Info else Warning
      case DropColumn => c.severity == if HasReader(db, c.Ref()) then Breaking else Warning
      case TypeChange =>
        c.severity ==
          if Compatible(db.expected[c.Ref()].dataType, RefMap(observed)[c.Ref()].dataType) then Warning else Breaking
      case NullabilityChange =>
        c.severity == if RefMap(observed)[c.Ref()].nullable && HasReader(db, c.Ref()) then Breaking else Warning
  {
    SnapshotKeyed(observed);
    DiffMember(db.expected, RefMap(observed), Dependencies(db), c);
    DiffSeverities(db.expected, RefMap(observed), Dependencies(db), c);
    ReadersAreDependencies(db, c.Ref());
  }

  lemma ReadersAreDependencies(db: Db, r: ColumnRef)
    ensures r in Dependencies(db) <==> HasReader(db, r)
  {
  }

  ghost predicate IsDriftCall(db: Db, call: ScanCall) {
    call.sourceKey == db.source && call.collected.Snapshot? && call.collected.columns != [] && db.expected != map[]
  }

  /** What a drift scan adds, and the rows it would leave. */
  ghost function AddedBy(db: Db, call: ScanCall): seq<SchemaChange>
    requires call.collected.Snapshot?
  {
    FreshChanges(DriftOf(db, call.collected.columns), db.source, OpenFingerprints(db.changes))
  }

  ghost function RowsAfter(db: Db, call: ScanCall): seq<ChangeRow>
    requires call.collected.Snapshot?
  {
    Reconciled(db.changes, DriftOf(db, call.collected.columns), db.source, |db.scans|, db.version, call.finishedAt)
  }

  ghost predicate DriftAllowed(db: Db, call: ScanCall)
    requires call.collected.Snapshot?
  {
    Registered(AddedBy(db, call), db.datasets) && UniqueOpen(RowsAfter(db, call))
  }

  /** The tables a committed drift scan leaves. */
  ghost function DriftTables(db: Db, call: ScanCall): Db
    requires call.collected.Snapshot?
  {
    DriftDone(StartScan(db, call.trigger, call.startedAt), |db.scans|, call.collected.columns,
              RowsAfter(db, call), AnyAlertable(AddedBy(db, call)), call.settings, call.finishedAt)
  }

  /** A drift scan either leaves those tables or leaves everything as it was. */
  lemma DriftOutcome(db: Db, call: ScanCall)
    requires IsDriftCall(db, call)
    ensures ScanRequest(db, call) ==
      if DriftAllowed(db, call) then ScanResult(DriftRecorded, DriftTables(db, call)) else ScanResult(RolledBack, db)
  {
  }

  /**
   In general a drift scan commits exactly when the added changes are in registered tables and
   differ in their fingerprints.
   */
  lemma DriftCommitsExactly(db: Db, call: ScanCall)
    requires UniqueOpen(db.changes) && IsDriftCall(db, call)
    ensures ScanRequest(db, call) ==
      if Registered(AddedBy(db, call), db.datasets) && DistinctFingerprints(AddedBy(db, call), db.source)
      then ScanResult(DriftRecorded, DriftTables(db, call)) else ScanResult(RolledBack, db)
  {
    var changes := DriftOf(db, call.collected.columns);
    ReconciledUniqueIff(db.changes, changes, db.source, |db.scans|, db.version, call.finishedAt);
    DriftOutcome(db, call);
  }

  /**
   When no two tables share a qualified name, a drift scan commits exactly when every observed
   table is registered.  In particular a table that appears in the source after the first
   scan makes every later scan roll back.
   */
  lemma DriftCommitsIff(db: Db, call: ScanCall)
    requires TablesOk(db) && IsDriftCall(db, call)
    requires Unambiguous(db.datasets, call.collected.columns)
    ensures ScanRequest(db, call) ==
      if ObservedRegistered(db, call.collected.columns) then ScanResult(DriftRecorded, DriftTables(db, call))
      else ScanResult(RolledBack, db)
  {
    DriftAllowedIff(db, call);
    DriftOutcome(db, call);
  }

  lemma DriftAllowedIff(db: Db, call: ScanCall)
    requires TablesOk(db) && IsDriftCall(db, call)
    requires Unambiguous(db.datasets, call.collected.columns)
    ensures DriftAllowed(db, call) <==> ObservedRegistered(db, call.collected.columns)
  {
    var observed := call.collected.columns;
    DriftNames(db, observed);
    ReconciledUnique(db.changes, DriftOf(db, observed), db.source, |db.scans|, db.version, call.finishedAt);
    if ObservedRegistered(db, observed) {
      AddedAreRegistered(db, observed);
    } else {
      UnregisteredIsFresh(db, observed);
    }
  }

  lemma AddedAreRegistered(db: Db, observed: seq<ColumnDefinition>)
    requires BaselineOk(db) && ObservedRegistered(db, observed)
    ensures Registered(FreshChanges(DriftOf(db, observed), db.source, OpenFingerprints(db.changes)), db.datasets)
  {
    FreshChangesExact(DriftOf(db, observed), db.source, OpenFingerprints(db.changes));
    SnapshotKeyed(observed);
    forall c | c in DriftOf(db, observed) ensures c.dataset in db.datasets {
      DriftAbout(db, observed, c);
    }
  }

  ghost predicate IsInitialCall(db: Db, call: ScanCall) {
    call.sourceKey == db.source && call.collected.Snapshot? && call.collected.columns != [] && db.expected == map[]
  }

  lemma InitialRequest(db: Db, call: ScanCall)
    requires IsInitialCall(db, call) && DistinctRefs(call.collected.columns)
    ensures var r := ScanRequest(db, call);
      r.outcome.BaselineCreated? && r.db.expected == RefMap(call.collected.columns) && r.db.changes == db.changes &&
      r.db.deliveries == db.deliveries && r.db.edges == db.edges && r.db.version == db.version &&
      r.db.source == db.source
  {
    var observed := call.collected.columns;
    assert map[] + RefMap(observed) == RefMap(observed);
  }

  lemma UnregisteredIsFresh(db: Db, observed: seq<ColumnDefinition>)
    requires TablesOk(db) && !ObservedRegistered(db, observed)
    requires Unambiguous(db.datasets, observed)
    ensures !Registered(FreshChanges(DriftOf(db, observed), db.source, OpenFingerprints(db.changes)), db.datasets)
  {
    SnapshotKeyed(observed);
    RefMapFacts(observed);
    var o :| o in observed && o.dataset !in db.datasets;
    var i :| 0 <= i < |observed| && observed[i] == o;
    var c := AdditionReported(db.expected, RefMap(observed), Dependencies(db), o.Ref());
    assert db.datasets + {c.dataset} <= db.datasets + SnapshotDatasets(observed);
    UnknownDatasetNotOpen(db, c);
    FreshChangesExact(DriftOf(db, observed), db.source, OpenFingerprints(db.changes));
  }

  lemma UnknownDatasetNotOpen(db: Db, c: SchemaChange)
    requires TablesOk(db) && UniqueNames(db.datasets + {c.dataset}) && c.dataset !in db.datasets
    ensures ChangeFingerprint(db.source, c) !in OpenFingerprints(db.changes)
  {
    if ChangeFingerprint(db.source, c) in OpenFingerprints(db.changes) {
      var k := OpenRowOf(db.changes, ChangeFingerprint(db.source, c));
      assert false;
    }
  }

  lemma RowsAfterMirror(db: Db, call: ScanCall)
    requires TablesOk(db) && IsDriftCall(db, call)
    requires Unambiguous(db.datasets, call.collected.columns)
    ensures Mirrors(db.source, RowsAfter(db, call), DriftOf(db, call.collected.columns))
  {
    DriftNames(db, call.collected.columns);
    ReconciledMirrors(db.changes, DriftOf(db, call.collected.columns), db.source, |db.scans|, db.version,
                      call.finishedAt, db.datasets + SnapshotDatasets(call.collected.columns));
  }

  /** After a committed drift scan the OPEN rows are the diff of baseline and snapshot. */
  lemma DriftScanRecomputes(db: Db, call: ScanCall)
    requires TablesOk(db) && IsDriftCall(db, call) && ScanRequest(db, call).outcome.DriftRecorded?
    requires Unambiguous(db.datasets, call.collected.columns)
    ensures var after := ScanRequest(db, call).db;
      after == DriftTables(db, call) && Mirrors(db.source, after.changes, DriftOf(after, call.collected.columns))
  {
    DriftOutcome(db, call);
    RowsAfterMirror(db, call);
  }

  // ---------- consequences ----------

  lemma MirrorRow(source: string, rows: seq<ChangeRow>, diff: seq<SchemaChange>, c: SchemaChange) returns (i: nat)
    requires Mirrors(source, rows, diff) && c in diff
    ensures i < |rows| && rows[i].state.Open? && Describes(source, rows[i], c)
  {
    assert Recorded(source, rows, c);
    i :| 0 <= i < |rows| && rows[i].state.Open? && Describes(source, rows[i], c);
  }

  lemma MirrorChange(source: string, rows: seq<ChangeRow>, diff: seq<SchemaChange>, i: nat) returns (c: SchemaChange)
    requires Mirrors(source, rows, diff) && i < |rows| && rows[i].state.Open?
    ensures c in diff && Describes(source, rows[i], c)
  {
    assert Explained(source, rows[i], diff);
    c :| c in diff && Describes(source, rows[i], c);
  }

  lemma MirrorOpens(source: string, rows: seq<ChangeRow>, diff: seq<SchemaChange>)
    requires Mirrors(source, rows, diff)
    ensures OpenFingerprints(rows) == Fingerprints(diff, source)
  {
    forall f | f in OpenFingerprints(rows) ensures f in Fingerprints(diff, source) {
      var i := OpenRowOf(rows, f);
      var c := MirrorChange(source, rows, diff, i);
    }
    forall f | f in Fingerprints(diff, source) ensures f in OpenFingerprints(rows) {
      var c :| c in diff && ChangeFingerprint(source, c) == f;
      var i := MirrorRow(source, rows, diff, c);
      OpenFingerprint(rows, i);
    }
  }

  lemma NothingToReconcile(rows: seq<ChangeRow>, changes: seq<SchemaChange>, source: string, scan: nat, version: int,
                           now: int)
    requires OpenFingerprints(rows) == Fingerprints(changes, source)
    ensures Reconciled(rows, changes, source, scan, version, now) == rows
    ensures FreshChanges(changes, source, OpenFingerprints(rows)) == []
  {
    var added := FreshChanges(changes, source, OpenFingerprints(rows));
    assert added != [] ==> added[0] in added;
    FreshChangesExact(changes, source, OpenFingerprints(rows));
    assert forall c :: c in changes ==> ChangeFingerprint(source, c) in Fingerprints(changes, source);
    forall i | 0 <= i < |rows| ensures ResolveIfGone(rows[i], Fingerprints(changes, source), now) == rows[i] {
      if rows[i].state.Open? { OpenFingerprint(rows, i); }
    }
  }

  /** Scanning an unchanged source again touches no change row and alerts nobody. */
  lemma UnchangedRescanIsNoOp(db: Db, call: ScanCall, again: ScanCall)
    requires TablesOk(db) && IsDriftCall(db, call) && ScanRequest(db, call).outcome.DriftRecorded?
    requires Unambiguous(db.datasets, call.collected.columns)
    requires again.sourceKey == call.sourceKey && again.collected == call.collected
    ensures var once := ScanRequest(db, call).db;
      var twice := ScanRequest(once, again);
      twice.outcome.DriftRecorded? && twice.db.changes == once.changes && twice.db.deliveries == once.deliveries
  {
    var once := ScanRequest(db, call).db;
    DriftScanRecomputes(db, call);
    QuietRescan(once, again);
  }

  lemma QuietRescan(once: Db, again: ScanCall)
    requires IsDriftCall(once, again) && Mirrors(once.source, once.changes, DriftOf(once, again.collected.columns))
    ensures var twice := ScanRequest(once, again);
      twice.outcome.DriftRecorded? && twice.db.changes == once.changes && twice.db.deliveries == once.deliveries
  {
    MirrorOpens(once.source, once.changes, DriftOf(once, again.collected.columns));
    NothingToReconcile(once.changes, DriftOf(once, again.collected.columns), once.source, |once.scans|, once.version,
                       again.finishedAt);
    DriftOutcome(once, again);
  }

  function ResolvedAt(r: ChangeRow, now: int): ChangeRow {
    r.(state := Resolved, resolvedAt := Some(now))
  }

  /** A snapshot the diff cannot tell from the baseline resolves every OPEN row and opens none. */
  lemma RestoredSchemaResolvesAll(db: Db, call: ScanCall)
    requires TablesOk(db) && IsDriftCall(db, call)
    requires forall r :: SameShape(At(db.expected, r), At(RefMap(call.collected.columns), r))
    ensures var after := ScanRequest(db, call);
      after.outcome.DriftRecorded? && after.db.deliveries == db.deliveries &&
      OpenFingerprints(after.db.changes) == {} && |after.db.changes| == |db.changes| &&
      forall i :: 0 <= i < |db.changes| ==>
        after.db.changes[i] ==
          if db.changes[i].state.Open? then ResolvedAt(db.changes[i], call.finishedAt) else db.changes[i]
  {
    ResolveAll(db.changes, call.finishedAt);
    SnapshotKeyed(call.collected.columns);
    DiffEmptyIff(db.expected, RefMap(call.collected.columns), Dependencies(db));
    EmptyDrift(db, call);
  }

  lemma EmptyDrift(db: Db, call: ScanCall)
    requires UniqueOpen(db.changes) && IsDriftCall(db, call) && DriftOf(db, call.collected.columns) == []
    ensures ScanRequest(db, call).outcome.DriftRecorded?
    ensures ScanRequest(db, call).db.deliveries == db.deliveries
    ensures ScanRequest(db, call).db.changes == ResolveGone(db.changes, {}, call.finishedAt)
  {
    ReconciledUnique(db.changes, [], db.source, |db.scans|, db.version, call.finishedAt);
    assert Fingerprints([], db.source) == {};
    assert RowsAfter(db, call) == ResolveGone(db.changes, {}, call.finishedAt);
    DriftOutcome(db, call);
  }

  /** With nothing active, every OPEN row is resolved and no other row changes. */
  lemma ResolveAll(rows: seq<ChangeRow>, now: int)
    ensures OpenFingerprints(ResolveGone(rows, {}, now)) == {}
    ensures forall i :: 0 <= i < |rows| ==>
      (ResolveGone(rows, {}, now)[i] == if rows[i].state.Open? then ResolvedAt(rows[i], now) else rows[i])
  {
    forall r | r in ResolveGone(rows, {}, now) ensures !r.state.Open? {
      var i :| 0 <= i < |rows| && ResolveGone(rows, {}, now)[i] == r;
    }
  }
}
