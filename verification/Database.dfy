/**
 The metadata tables of one data source as a value, and what each request does to them.

 Row ids are positions.  A request either commits or rolls back; a rolled-back request
 leaves the value it started from.
 */
module Database {
  import opened Options
  import opened Models
  import opened Diff

  datatype ScanRow = ScanRow(
    trigger: ScanTrigger, status: ScanStatus, startedAt: int,
    finishedAt: Option<int>, durationMs: Option<int>, errorCode: Option<string>)

  datatype Observation = Observation(scan: nat, column: ColumnDefinition)

  datatype ChangeRow = ChangeRow(
    scan: nat, dataset: DatasetRef, columnName: string, changeType: ChangeType, severity: Severity,
    state: ChangeState, fingerprint: Fingerprint,
    before: Option<ColumnPayload>, after: Option<ColumnPayload>,
    baselineVersion: int, acceptedAt: Option<int>, resolvedAt: Option<int>)
  {
    function Ref(): ColumnRef { ColumnRef(dataset, columnName) }
  }

  datatype Delivery = Delivery(
    scan: nat, channel: AlertChannel, status: AlertStatus,
    attemptCount: nat, nextRetryAt: Option<int>, sentAt: Option<int>)

  datatype Db = Db(
    source: string, version: int, datasets: set<DatasetRef>, expected: Columns,
    scans: seq<ScanRow>, observations: seq<Observation>, changes: seq<ChangeRow>,
    deliveries: seq<Delivery>, pipelines: seq<PipelineDefinition>, edges: seq<LineageEdge>)

  /** A source row just registered. */
  function Empty(source: string): Db {
    Db(source, 1, {}, map[], [], [], [], [], [], [])
  }

  // ---------- scans ----------

  datatype Settings = Settings(slack: bool, email: bool)

  function EnabledChannels(s: Settings): seq<AlertChannel> {
    (if s.slack then [Slack] else []) + (if s.email then [Email] else [])
  }

  /** What the collector hands over: columns, a connection or OS error, or any other exception. */
  datatype Collected = Snapshot(columns: seq<ColumnDefinition>) | SourceDown(errorName: string) | CollectorBug

  datatype ScanCall = ScanCall(
    sourceKey: string, trigger: ScanTrigger, collected: Collected, settings: Settings,
    startedAt: int, finishedAt: int)

  function StartScan(db: Db, trigger: ScanTrigger, startedAt: int): Db {
    db.(scans := db.scans + [ScanRow(trigger, Running, startedAt, None, None, None)])
  }

  function DurationMs(startedAt: int, finishedAt: int): int {
    if finishedAt < startedAt then 0 else finishedAt - startedAt
  }

  function CompleteRow(row: ScanRow, finishedAt: int): ScanRow {
    row.(status := Completed, finishedAt := Some(finishedAt), durationMs := Some(DurationMs(row.startedAt, finishedAt)))
  }

  function FailRow(row: ScanRow, code: string, finishedAt: int): ScanRow {
    row.(status := FailedScan, finishedAt := Some(finishedAt),
         durationMs := Some(DurationMs(row.startedAt, finishedAt)), errorCode := Some(code))
  }

  function NewDeliveries(scan: nat, channels: seq<AlertChannel>): seq<Delivery> {
    seq(|channels|, i requires 0 <= i < |channels| => Delivery(scan, channels[i], Pending, 0, None, None))
  }

  function Observations(scan: nat, observed: seq<ColumnDefinition>): seq<Observation> {
    seq(|observed|, i requires 0 <= i < |observed| => Observation(scan, observed[i]))
  }

  function FailScan(db: Db, scan: nat, code: string, settings: Settings, finishedAt: int): Db
    requires scan < |db.scans|
  {
    db.(scans := db.scans[scan := FailRow(db.scans[scan], code, finishedAt)],
        deliveries := db.deliveries + NewDeliveries(scan, EnabledChannels(settings)))
  }

  /** Fails on the unique constraint of the baseline when a reference is stored twice. */
  function InitialBaseline(db: Db, scan: nat, observed: seq<ColumnDefinition>, finishedAt: int): Option<Db>
    requires scan < |db.scans|
  {
    if DistinctRefs(observed) && forall i :: 0 <= i < |observed| ==> observed[i].Ref() !in db.expected
    then Some(db.(
      datasets := db.datasets + (set c | c in observed :: c.dataset),
      expected := db.expected + RefMap(observed),
      observations := db.observations + Observations(scan, observed),
      scans := db.scans[scan := CompleteRow(db.scans[scan], finishedAt)]))
    else None
  }

  function OpenFingerprints(rows: seq<ChangeRow>): set<Fingerprint> {
    set r | r in rows && r.state.Open? :: r.fingerprint
  }

  function Fingerprints(changes: seq<SchemaChange>, source: string): set<Fingerprint> {
    set c | c in changes :: ChangeFingerprint(source, c)
  }

  /** The changes no OPEN row stands for yet. */
  function FreshChanges(changes: seq<SchemaChange>, source: string, open: set<Fingerprint>): seq<SchemaChange> {
    if changes == [] then [] else
    var n := |changes| - 1;
    FreshChanges(changes[..n], source, open) +
      (if ChangeFingerprint(source, changes[n]) in open then [] else [changes[n]])
  }

  function NewRow(c: SchemaChange, scan: nat, version: int, source: string): ChangeRow {
    ChangeRow(scan, c.dataset, c.columnName, c.changeType, c.severity, Open, ChangeFingerprint(source, c),
              OptionalColumnDict(c.before), OptionalColumnDict(c.after), version, None, None)
  }

  function NewRows(added: seq<SchemaChange>, scan: nat, version: int, source: string): seq<ChangeRow> {
    seq(|added|, i requires 0 <= i < |added| => NewRow(added[i], scan, version, source))
  }

  function ResolveIfGone(r: ChangeRow, active: set<Fingerprint>, now: int): ChangeRow {
    if r.state.Open? && r.fingerprint !in active then r.(state := Resolved, resolvedAt := Some(now)) else r
  }

  function ResolveGone(rows: seq<ChangeRow>, active: set<Fingerprint>, now: int): seq<ChangeRow> {
    seq(|rows|, i requires 0 <= i < |rows| => ResolveIfGone(rows[i], active, now))
  }

  predicate Alertable(c: SchemaChange) {
    c.severity.Warning? || c.severity.Breaking?
  }

  predicate AnyAlertable(changes: seq<SchemaChange>) {
    exists c :: c in changes && Alertable(c)
  }

  predicate Registered(changes: seq<SchemaChange>, datasets: set<DatasetRef>) {
    forall c :: c in changes ==> c.dataset in datasets
  }

  /** The partial unique index on OPEN fingerprints. */
  predicate UniqueOpen(rows: seq<ChangeRow>) {
    forall i, j :: 0 <= i < j < |rows| && rows[i].state.Open? && rows[j].state.Open? ==>
      rows[i].fingerprint != rows[j].fingerprint
  }

  /** The change rows a drift scan leaves behind. */
  function Reconciled(rows: seq<ChangeRow>, changes: seq<SchemaChange>, source: string, scan: nat, version: int,
                      now: int): seq<ChangeRow> {
    ResolveGone(rows, Fingerprints(changes, source), now)
      + NewRows(FreshChanges(changes, source, OpenFingerprints(rows)), scan, version, source)
  }

  /** The tables after a drift scan that leaves `rows` and, if `alert`, enqueues alerts. */
  function DriftDone(db: Db, scan: nat, observed: seq<ColumnDefinition>, rows: seq<ChangeRow>, alert: bool,
                     settings: Settings, finishedAt: int): Db
    requires scan < |db.scans|
  {
    db.(changes := rows,
        observations := db.observations + Observations(scan, observed),
        deliveries := db.deliveries + (if alert then NewDeliveries(scan, EnabledChannels(settings)) else []),
        scans := db.scans[scan := CompleteRow(db.scans[scan], finishedAt)])
  }

  datatype ScanError = DatasetNotRegistered | UniqueViolation

  function DriftScan(db: Db, scan: nat, observed: seq<ColumnDefinition>, changes: seq<SchemaChange>,
                     settings: Settings, finishedAt: int): Result<Db, ScanError>
    requires scan < |db.scans|
  {
    var added := FreshChanges(changes, db.source, OpenFingerprints(db.changes));
    var rows := Reconciled(db.changes, changes, db.source, scan, db.version, finishedAt);
    if !Registered(added, db.datasets) then Err(DatasetNotRegistered)
    else if !UniqueOpen(rows) then Err(UniqueViolation)
    else Ok(DriftDone(db, scan, observed, rows, AnyAlertable(added), settings, finishedAt))
  }

  /** The columns some lineage edge reads. */
  function Dependencies(db: Db): set<ColumnRef> {
    set e | e in db.edges :: e.upstream
  }

  ghost function DriftOf(db: Db, observed: seq<ColumnDefinition>): seq<SchemaChange> {
    DiffOf(db.expected, RefMap(observed), Dependencies(db))
  }

  datatype ScanOutcome =
    | SourceUnknown
    | BaselineCreated
    | DriftRecorded
    | FailureRecorded   // committed as FAILED: connection error or empty snapshot
    | RolledBack        // any other exception

  datatype ScanResult = ScanResult(outcome: ScanOutcome, db: Db)

  /** A scan request from start to commit or rollback. */
  ghost function ScanRequest(db: Db, call: ScanCall): ScanResult {
    var scan := |db.scans|;
    var started := StartScan(db, call.trigger, call.startedAt);
    if call.sourceKey != db.source then ScanResult(SourceUnknown, db)
    else match call.collected
      case CollectorBug => ScanResult(RolledBack, db)
      case SourceDown(name) =>
        ScanResult(FailureRecorded, FailScan(started, scan, name, call.settings, call.finishedAt))
      case Snapshot(observed) =>
        if observed == [] then
          ScanResult(FailureRecorded, FailScan(started, scan, "EmptySchemaSnapshot", call.settings, call.finishedAt))
        else if db.expected == map[] then
          (match InitialBaseline(started, scan, observed, call.finishedAt)
           case Some(done) => ScanResult(BaselineCreated, done)
           case None => ScanResult(RolledBack, db))
        else
          (match DriftScan(started, scan, observed, DriftOf(db, observed), call.settings, call.finishedAt)
           case Ok(done) => ScanResult(DriftRecorded, done)
           case Err(_) => ScanResult(RolledBack, db))
  }

  // ---------- acceptance ----------

  datatype AcceptError =
    | ChangeNotFound
    | VersionConflict(expected: int, actual: int)
    | BadMetadata

  /** The baseline after a change row has been applied to it; None where the program raises. */
  function Patch(expected: Columns, row: ChangeRow): Option<Columns> {
    var ref := row.Ref();
    if row.changeType.AddColumn? then
      if row.after.None? then None
      else if ref in expected then Some(expected)
      else
        var a := row.after.value;
        Some(expected[ref := ColumnDefinition(row.dataset, row.columnName, a.dataType, a.nullable, a.default,
          a.ordinal)])
    else if row.changeType.DropColumn? then
      if ref in expected then Some(expected - {ref}) else None
    else if ref in expected && row.after.Some? then
      var a := row.after.value;
      Some(expected[ref := expected[ref].(dataType := a.dataType, nullable := a.nullable, default := a.default)])
    else None
  }

  function AcceptRow(row: ChangeRow, now: int): ChangeRow {
    row.(state := Accepted, acceptedAt := Some(now))
  }

  function AcceptChange(db: Db, id: nat, expectedVersion: int, now: int): Result<Db, AcceptError> {
    if id >= |db.changes| || !db.changes[id].state.Open? then Err(ChangeNotFound)
    else if db.version != expectedVersion then Err(VersionConflict(expectedVersion, db.version))
    else match Patch(db.expected, db.changes[id])
      case None => Err(BadMetadata)
      case Some(patched) => Ok(db.(
        expected := patched, version := db.version + 1,
        changes := db.changes[id := AcceptRow(db.changes[id], now)]))
  }

  function AcceptRequest(db: Db, id: nat, expectedVersion: int, now: int): Db {
    match AcceptChange(db, id, expectedVersion, now)
    case Ok(done) => done
    case Err(_) => db
  }
}
