/** Row by row: what a scan and an acceptance write, and what they leave alone. */
module Requests {
  import opened Options
  import opened Models
  import opened Ordering
  import opened Diff
  import opened Database
  import opened Reconciliation

  // ---------- rows a scan writes ----------

  /** The scan row of a finished scan; a clock set back counts as no time at all. */
  predicate FinishedScan(r: ScanRow, call: ScanCall, status: ScanStatus, errorCode: Option<string>) {
    r.trigger == call.trigger && r.status == status && r.startedAt == call.startedAt &&
    r.finishedAt == Some(call.finishedAt) && r.errorCode == errorCode &&
    (call.finishedAt >= call.startedAt ==> r.durationMs == Some(call.finishedAt - call.startedAt)) &&
    (call.finishedAt < call.startedAt ==> r.durationMs == Some(0))
  }

  /** One more scan row, finished so; the others as before. */
  predicate ScanAdded(db: Db, after: Db, call: ScanCall, status: ScanStatus, errorCode: Option<string>) {
    |after.scans| == |db.scans| + 1 && after.scans[..|db.scans|] == db.scans &&
    FinishedScan(after.scans[|db.scans|], call, status, errorCode)
  }

  /** One side of a change as a row stores it. */
  predicate SideStored(p: Option<ColumnPayload>, d: Option<ColumnDefinition>) {
    (p.Some? <==> d.Some?) &&
    (d.Some? ==>
      p.value.dataset == d.value.dataset.schema + "." + d.value.dataset.table && p.value.name == d.value.name &&
      p.value.dataType == d.value.dataType && p.value.nullable == d.value.nullable &&
      p.value.default == d.value.default && p.value.ordinal == d.value.ordinal)
  }

  /** The row that records a change found by this scan under this baseline version. */
  predicate RowRecords(r: ChangeRow, c: SchemaChange, scan: nat, version: int) {
    r.scan == scan && r.dataset == c.dataset && r.columnName == c.columnName && r.changeType == c.changeType &&
    r.severity == c.severity && r.state == Open && SideStored(r.before, c.before) && SideStored(r.after, c.after) &&
    r.baselineVersion == version && r.acceptedAt == None && r.resolvedAt == None
  }

  /** An untried alert of the scan on the channel. */
  predicate Untouched(d: Delivery, scan: nat, channel: AlertChannel) {
    d.scan == scan && d.channel == channel && d.status == Pending && d.attemptCount == 0 &&
    d.nextRetryAt == None && d.sentAt == None
  }

  /** One untried alert per enabled channel, Slack first, behind the alerts there were. */
  predicate AlertsAdded(db: Db, after: Db, settings: Settings) {
    var n, m := |db.deliveries|, |after.deliveries|;
    n <= m && after.deliveries[..n] == db.deliveries &&
    m == n + (if settings.slack then 1 else 0) + (if settings.email then 1 else 0) &&
    (settings.slack ==> Untouched(after.deliveries[n], |db.scans|, Slack)) &&
    (settings.email ==> Untouched(after.deliveries[m - 1], |db.scans|, Email))
  }

  lemma NewDeliveriesAdded(db: Db, after: Db, settings: Settings)
    requires after.deliveries == db.deliveries + NewDeliveries(|db.scans|, EnabledChannels(settings))
    ensures AlertsAdded(db, after, settings)
  {
    var channels := EnabledChannels(settings);
    assert settings.slack ==> channels[0] == Slack;
    assert settings.email ==> channels[|channels| - 1] == Email;
  }

  /**
   A scan that cannot reach the source, or finds no column in it, leaves a FAILED scan with the
   name of the error and its alerts, and nothing else.
   */
  lemma FailedScanExact(db: Db, call: ScanCall)
    requires call.sourceKey == db.source && (call.collected.SourceDown? || call.collected == Snapshot([]))
    ensures var r := ScanRequest(db, call);
      var error := if call.collected.SourceDown? then call.collected.errorName else "EmptySchemaSnapshot";
      r.outcome.FailureRecorded? && ScanAdded(db, r.db, call, FailedScan, Some(error)) &&
      AlertsAdded(db, r.db, call.settings) &&
      r.db == db.(scans := r.db.scans, deliveries := r.db.deliveries)
  {
    NewDeliveriesAdded(db, ScanRequest(db, call).db, call.settings);
  }

  /** The columns stored under their references, and nothing else. */
  predicate BaselineOf(expected: Columns, observed: seq<ColumnDefinition>) {
    (forall c :: c in observed ==> c.Ref() in expected && expected[c.Ref()] == c) &&
    forall r :: r in expected ==> expected[r] in observed && expected[r].Ref() == r
  }

  /**
   The first scan commits exactly when no column is reported twice.  Then the snapshot is the
   baseline, its tables are registered, and nobody is alerted; otherwise nothing changes.
   */
  lemma FirstScanExact(db: Db, call: ScanCall)
    requires IsInitialCall(db, call)
    ensures var r, observed := ScanRequest(db, call), call.collected.columns;
      if forall i, j :: 0 <= i < j < |observed| ==> observed[i].Ref() != observed[j].Ref() then
        r.outcome.BaselineCreated? && BaselineOf(r.db.expected, observed) &&
        (forall d :: d in r.db.datasets <==> d in db.datasets || exists c :: c in observed && c.dataset == d) &&
        ScanAdded(db, r.db, call, Completed, None) &&
        r.db == db.(expected := r.db.expected, datasets := r.db.datasets, scans := r.db.scans,
                    observations := r.db.observations)
      else r.outcome.RolledBack? && r.db == db
  {
    var observed := call.collected.columns;
    if DistinctRefs(observed) {
      InitialRequest(db, call);
      BaselineStored(observed);
    }
  }

  lemma BaselineStored(observed: seq<ColumnDefinition>)
    requires DistinctRefs(observed)
    ensures BaselineOf(RefMap(observed), observed)
  {
    SnapshotKeyed(observed);
    forall c | c in observed ensures c.Ref() in RefMap(observed) && RefMap(observed)[c.Ref()] == c {
      var i :| 0 <= i < |observed| && observed[i] == c;
      RefMapDistinct(observed, i);
    }
  }

  lemma {:induction false} RefMapDistinct(observed: seq<ColumnDefinition>, i: nat)
    requires DistinctRefs(observed) && i < |observed|
    ensures observed[i].Ref() in RefMap(observed) && RefMap(observed)[observed[i].Ref()] == observed[i]
  {
    var n := |observed| - 1;
    if i < n {
      RefMapDistinct(observed[..n], i);
      assert observed[i].Ref() != observed[n].Ref();
    }
  }

  /**
   What becomes of a scan request.  An unknown source is refused.  A source that is down or empty is
   recorded; any other exception of the collector is not.  A snapshot is taken as the baseline
   or compared with it.  Refused or rolled back, a request leaves everything as it was.
   */
  lemma ScanOutcomes(db: Db, call: ScanCall)
    requires UniqueOpen(db.changes)
    ensures var r := ScanRequest(db, call);
      (r.outcome.SourceUnknown? <==> call.sourceKey != db.source) &&
      (r.outcome.FailureRecorded? <==>
        call.sourceKey == db.source && (call.collected.SourceDown? || call.collected == Snapshot([]))) &&
      (call.sourceKey == db.source && call.collected.CollectorBug? ==> r.outcome.RolledBack?) &&
      (r.outcome.BaselineCreated? ==> IsInitialCall(db, call)) && (r.outcome.DriftRecorded? ==> IsDriftCall(db, call))
    ensures var r := ScanRequest(db, call);
      r.outcome.SourceUnknown? || r.outcome.RolledBack? ==> r.db == db
  {
    if IsDriftCall(db, call) { DriftCommitsExactly(db, call); }
  }

  // ---------- drift scans ----------

  /** The drift names the change and no OPEN row has its fingerprint. */
  ghost predicate IsNews(db: Db, call: ScanCall, c: SchemaChange)
    requires call.collected.Snapshot?
  {
    c in DriftOf(db, call.collected.columns) &&
    forall r :: r in db.changes && r.state == Open ==> r.fingerprint != ChangeFingerprint(db.source, c)
  }

  /** The row records some news of the scan. */
  ghost predicate NewsRow(db: Db, call: ScanCall, r: ChangeRow)
    requires call.collected.Snapshot?
  {
    exists c :: IsNews(db, call, c) && RowRecords(r, c, |db.scans|, db.version)
  }

  /** One of the added rows records the news. */
  ghost predicate NewsRecorded(db: Db, rows: seq<ChangeRow>, c: SchemaChange) {
    exists j :: |db.changes| <= j < |rows| && RowRecords(rows[j], c, |db.scans|, db.version)
  }

  /** Some change of the drift has the fingerprint of the row. */
  ghost predicate StillReported(db: Db, call: ScanCall, r: ChangeRow)
    requires call.collected.Snapshot?
  {
    exists c :: c in DriftOf(db, call.collected.columns) && ChangeFingerprint(db.source, c) == r.fingerprint
  }

  /** The row as before, unless it is OPEN and no longer reported: then RESOLVED at that time. */
  ghost predicate RowKept(db: Db, call: ScanCall, r: ChangeRow, after: ChangeRow)
    requires call.collected.Snapshot?
  {
    if r.state == Open && !StillReported(db, call, r)
    then after == r.(state := Resolved, resolvedAt := Some(call.finishedAt))
    else after == r
  }

  /**
   A committed drift scan.  Rows stay unless OPEN and no longer reported, then they are RESOLVED;
   each change that is news gets one row, in the order of the diff.  The scan is COMPLETED, keeps
   its snapshot, and alerts the enabled channels if some of the news is WARNING or BREAKING.
   Baseline, version and catalog are not touched.
   */
  lemma DriftScanExact(db: Db, call: ScanCall)
    requires IsDriftCall(db, call) && ScanRequest(db, call).outcome.DriftRecorded?
    ensures var after, n := ScanRequest(db, call).db, |db.changes|;
      n <= |after.changes| && (forall i :: 0 <= i < n ==> RowKept(db, call, db.changes[i], after.changes[i])) &&
      (forall j :: n <= j < |after.changes| ==> NewsRow(db, call, after.changes[j])) &&
      (forall c :: IsNews(db, call, c) ==> NewsRecorded(db, after.changes, c))
    ensures var after := ScanRequest(db, call).db;
      ScanAdded(db, after, call, Completed, None) &&
      (if exists c :: IsNews(db, call, c) && (c.severity == Warning || c.severity == Breaking)
       then AlertsAdded(db, after, call.settings) else after.deliveries == db.deliveries) &&
      after == db.(changes := after.changes, scans := after.scans, observations := after.observations,
                   deliveries := after.deliveries)
  {
    DriftOutcome(db, call);
    DriftRowsKept(db, call);
    DriftRowsAdded(db, call);
    DriftAlerts(db, call);
  }

  lemma DriftRowsKept(db: Db, call: ScanCall)
    requires IsDriftCall(db, call)
    ensures |db.changes| <= |RowsAfter(db, call)|
    ensures forall i :: 0 <= i < |db.changes| ==> RowKept(db, call, db.changes[i], RowsAfter(db, call)[i])
  {
    var changes := DriftOf(db, call.collected.columns);
    forall i | 0 <= i < |db.changes| ensures RowKept(db, call, db.changes[i], RowsAfter(db, call)[i]) {
      ReconciledOld(db.changes, changes, db.source, |db.scans|, db.version, call.finishedAt, i);
      assert db.changes[i].fingerprint in Fingerprints(changes, db.source) <==> StillReported(db, call, db.changes[i]);
    }
  }

  lemma NewsIsFresh(db: Db, call: ScanCall, c: SchemaChange)
    requires IsDriftCall(db, call)
    ensures c in AddedBy(db, call) <==> IsNews(db, call, c)
  {
    FreshChangesExact(DriftOf(db, call.collected.columns), db.source, OpenFingerprints(db.changes));
  }

  lemma NewRowRecords(c: SchemaChange, scan: nat, version: int, source: string)
    ensures RowRecords(NewRow(c, scan, version, source), c, scan, version)
  {
  }

  lemma AddedRowIs(db: Db, call: ScanCall, j: nat)
    requires IsDriftCall(db, call) && |db.changes| <= j < |RowsAfter(db, call)|
    ensures j - |db.changes| < |AddedBy(db, call)|
    ensures RowsAfter(db, call)[j] == NewRow(AddedBy(db, call)[j - |db.changes|], |db.scans|, db.version, db.source)
  {
    ReconciledNew(db.changes, DriftOf(db, call.collected.columns), db.source, |db.scans|, db.version, call.finishedAt,
                  j);
  }

  lemma RowForNews(db: Db, call: ScanCall, c: SchemaChange)
    requires IsDriftCall(db, call) && IsNews(db, call, c)
    ensures NewsRecorded(db, RowsAfter(db, call), c)
  {
    NewsIsFresh(db, call, c);
    var j := NewRowAt(db, call, c);
    NewRowRecords(c, |db.scans|, db.version, db.source);
  }

  lemma NewRowAt(db: Db, call: ScanCall, c: SchemaChange) returns (j: nat)
    requires IsDriftCall(db, call) && c in AddedBy(db, call)
    ensures |db.changes| <= j < |RowsAfter(db, call)|
    ensures RowsAfter(db, call)[j] == NewRow(c, |db.scans|, db.version, db.source)
  {
    var added := AddedBy(db, call);
    var k :| 0 <= k < |added| && added[k] == c;
    j := |db.changes| + k;
  }

  lemma DriftRowsAdded(db: Db, call: ScanCall)
    requires IsDriftCall(db, call)
    ensures var rows, n := RowsAfter(db, call), |db.changes|;
      (forall j :: n <= j < |rows| ==> NewsRow(db, call, rows[j])) &&
      (forall c :: IsNews(db, call, c) ==> NewsRecorded(db, rows, c))
  {
    var rows, n := RowsAfter(db, call), |db.changes|;
    forall j | n <= j < |rows| ensures NewsRow(db, call, rows[j]) {
      AddedRowIs(db, call, j);
      var c := AddedBy(db, call)[j - n];
      NewsIsFresh(db, call, c);
      NewRowRecords(c, |db.scans|, db.version, db.source);
    }
    forall c | IsNews(db, call, c) ensures NewsRecorded(db, rows, c) {
      RowForNews(db, call, c);
    }
  }

  /** Row r of a column goes before row q: by schema, table and column, the new nullability before the new type. */
  ghost predicate RowBefore(r: ChangeRow, q: ChangeRow) {
    if r.Ref() == q.Ref() then r.changeType.NullabilityChange? && q.changeType.TypeChange?
    else TuplePrecedes([r.dataset.schema, r.dataset.table, r.columnName],
                       [q.dataset.schema, q.dataset.table, q.columnName])
  }

  lemma {:induction false} FreshKeepsOrder(changes: seq<SchemaChange>, source: string, open: set<Fingerprint>, i: nat,
                                           j: nat)
    returns (k: nat, l: nat)
    requires i < j < |FreshChanges(changes, source, open)|
    ensures k < l < |changes|
    ensures FreshChanges(changes, source, open)[i] == changes[k] && FreshChanges(changes, source, open)[j] == changes[l]
  {
    var n := |changes| - 1;
    var front := FreshChanges(changes[..n], source, open);
    if j < |front| {
      k, l := FreshKeepsOrder(changes[..n], source, open, i, j);
    } else {
      FreshChangesExact(changes[..n], source, open);
      assert front[i] in front;
      l := n;
      k :| 0 <= k < n && changes[..n][k] == front[i];
    }
  }

  /** The new rows are in the order of the diff, so no change has two of them. */
  lemma DriftRowsOrdered(db: Db, call: ScanCall, i: nat, j: nat)
    requires WellKeyed(db.expected) && IsDriftCall(db, call)
    requires |db.changes| <= i < j < |RowsAfter(db, call)|
    ensures RowBefore(RowsAfter(db, call)[i], RowsAfter(db, call)[j])
  {
    var n := |db.changes|;
    AddedRowIs(db, call, i);
    AddedRowIs(db, call, j);
    AddedOrdered(db, call, i - n, j - n);
    RecordsOrdered(AddedBy(db, call)[i - n], AddedBy(db, call)[j - n], RowsAfter(db, call)[i], RowsAfter(db, call)[j]);
  }

  lemma AddedOrdered(db: Db, call: ScanCall, i: nat, j: nat)
    requires WellKeyed(db.expected) && IsDriftCall(db, call) && i < j < |AddedBy(db, call)|
    ensures ChangeBefore(AddedBy(db, call)[i], AddedBy(db, call)[j])
  {
    var changes := DriftOf(db, call.collected.columns);
    var k, l := FreshKeepsOrder(changes, db.source, OpenFingerprints(db.changes), i, j);
    DriftOrdered(db, call.collected.columns, k, l);
  }

  ghost predicate ChangeBefore(c: SchemaChange, e: SchemaChange) {
    if c.Ref() == e.Ref() then c.changeType.NullabilityChange? && e.changeType.TypeChange?
    else TuplePrecedes([c.dataset.schema, c.dataset.table, c.columnName],
                       [e.dataset.schema, e.dataset.table, e.columnName])
  }

  lemma DriftOrdered(db: Db, observed: seq<ColumnDefinition>, k: nat, l: nat)
    requires WellKeyed(db.expected) && k < l < |DriftOf(db, observed)|
    ensures ChangeBefore(DriftOf(db, observed)[k], DriftOf(db, observed)[l])
  {
    SnapshotKeyed(observed);
    DiffOrder(db.expected, RefMap(observed), Dependencies(db), k, l);
  }

  lemma RecordsOrdered(c: SchemaChange, e: SchemaChange, r: ChangeRow, q: ChangeRow)
    requires ChangeBefore(c, e)
    requires r.dataset == c.dataset && r.columnName == c.columnName && r.changeType == c.changeType
    requires q.dataset == e.dataset && q.columnName == e.columnName && q.changeType == e.changeType
    ensures RowBefore(r, q)
  {
  }

  lemma DriftAlerts(db: Db, call: ScanCall)
    requires IsDriftCall(db, call)
    ensures var after := DriftTables(db, call);
      if exists c :: IsNews(db, call, c) && (c.severity == Warning || c.severity == Breaking)
      then AlertsAdded(db, after, call.settings) else after.deliveries == db.deliveries
  {
    var after, added := DriftTables(db, call), AddedBy(db, call);
    forall c { NewsIsFresh(db, call, c); }
    if exists c :: IsNews(db, call, c) && (c.severity == Warning || c.severity == Breaking) {
      var c :| IsNews(db, call, c) && (c.severity == Warning || c.severity == Breaking);
      assert c in added && Alertable(c);
      NewDeliveriesAdded(db, after, call.settings);
    } else {
      assert forall c :: c in added ==> !Alertable(c);
      assert after.deliveries == db.deliveries + [];
    }
  }

  // ---------- acceptance ----------

  /** Only the entry of this column may differ. */
  ghost predicate OthersKept(before: Columns, after: Columns, ref: ColumnRef) {
    forall r :: r != ref ==> ((r in after <==> r in before) && (r in before ==> after[r] == before[r]))
  }

  /** The baseline column a row asks for: type, nullability and default of its new side. */
  predicate ColumnFrom(c: ColumnDefinition, r: ChangeRow, ordinal: int) {
    r.after.Some? && c.dataset == r.dataset && c.name == r.columnName && c.dataType == r.after.value.dataType &&
    c.nullable == r.after.value.nullable && c.default == r.after.value.default && c.ordinal == ordinal
  }

  /** What accepting a row makes of its column. */
  predicate ColumnPatched(before: Columns, after: Columns, r: ChangeRow) {
    var ref := ColumnRef(r.dataset, r.columnName);
    match r.changeType
    case AddColumn =>
      r.after.Some? && ref in after &&
      if ref in before then after[ref] == before[ref] else ColumnFrom(after[ref], r, r.after.value.ordinal)
    case DropColumn => ref in before && ref !in after
    case TypeChange => ref in before && ref in after && ColumnFrom(after[ref], r, before[ref].ordinal)
    case NullabilityChange => ref in before && ref in after && ColumnFrom(after[ref], r, before[ref].ordinal)
  }

  /** The row lacks the side, or the baseline the column, that accepting it needs. */
  predicate Incomplete(expected: Columns, r: ChangeRow) {
    match r.changeType
    case AddColumn => r.after.None?
    case DropColumn => ColumnRef(r.dataset, r.columnName) !in expected
    case TypeChange => ColumnRef(r.dataset, r.columnName) !in expected || r.after.None?
    case NullabilityChange => ColumnRef(r.dataset, r.columnName) !in expected || r.after.None?
  }

  /** Exactly one row is ACCEPTED now, keeping all its other data; the version is one higher. */
  predicate RowAccepted(db: Db, after: Db, id: nat, now: int)
    requires id < |db.changes|
  {
    after.version == db.version + 1 &&
    after.changes == db.changes[id := db.changes[id].(state := Accepted, acceptedAt := Some(now))] &&
    after == db.(expected := after.expected, version := after.version, changes := after.changes)
  }

  /**
   An acceptance, error by error, in the order they are raised; and on success one column of the
   baseline, one row and the version change, and nothing else does.
   */
  lemma AcceptExact(db: Db, id: nat, expectedVersion: int, now: int)
    requires WellKeyed(db.expected)
    ensures var r := AcceptChange(db, id, expectedVersion, now);
      if id >= |db.changes| || db.changes[id].state != Open then r == Err(ChangeNotFound)
      else if db.version != expectedVersion then r == Err(VersionConflict(expectedVersion, db.version))
      else if Incomplete(db.expected, db.changes[id]) then r == Err(BadMetadata)
      else (
        r.Ok? && RowAccepted(db, r.value, id, now) &&
        OthersKept(db.expected, r.value.expected, db.changes[id].Ref()) &&
        ColumnPatched(db.expected, r.value.expected, db.changes[id]))
  {
  }
}
