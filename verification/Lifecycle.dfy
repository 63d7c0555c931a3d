/** Whole serial runs: what every request keeps, and what a run can never undo. */
module Lifecycle {
  import opened Options
  import opened Models
  import opened Diff
  import opened Database
  import opened Reconciliation
  import opened Catalog
  import opened Outbox

  /** The metadata database and, outside it, what the alert providers were asked to send. */
  datatype World = World(db: Db, log: seq<Send>)

  datatype Event =
    | Scan(call: ScanCall)
    | Accept(change: nat, expectedVersion: int, now: int)
    | Sync(config: CatalogConfig)
    | Dispatch(scan: nat, senders: Senders)
    | Retry(delivery: nat, senders: Senders)

  function WithOutbox(w: World, o: Outbox): World {
    World(w.db.(deliveries := o.deliveries), o.log)
  }

  ghost function Step(w: World, e: Event): World {
    match e
    case Scan(call) => w.(db := ScanRequest(w.db, call).db)
    case Accept(id, v, now) => w.(db := AcceptRequest(w.db, id, v, now))
    case Sync(config) => w.(db := SyncRequest(w.db, config))
    case Dispatch(scan, senders) => WithOutbox(w, DispatchRequest(Outbox(w.db.deliveries, w.log), scan, senders))
    case Retry(id, senders) => WithOutbox(w, RetryRequest(Outbox(w.db.deliveries, w.log), id, senders))
  }

  ghost function Run(w: World, events: seq<Event>): World
    decreases |events|
  {
    if events == [] then w else Run(Step(w, events[0]), events[1..])
  }

  function Fresh(source: string): World {
    World(Empty(source), [])
  }

  lemma {:induction false} RunConcat(w: World, a: seq<Event>, b: seq<Event>)
    ensures Run(w, a + b) == Run(Run(w, a), b)
    decreases |a|
  {
    if a == [] {
      assert a + b == b;
    } else {
      assert (a + b)[0] == a[0] && (a + b)[1..] == a[1..] + b;
      RunConcat(Step(w, a[0]), a[1..], b);
    }
  }

  // ---------- the invariant ----------

  ghost predicate RowStamps(r: ChangeRow, scans: nat, version: int) {
    (r.state.Accepted? <==> r.acceptedAt.Some?) && (r.state.Resolved? <==> r.resolvedAt.Some?) &&
    r.scan < scans && r.baselineVersion <= version
  }

  ghost predicate Stamped(rows: seq<ChangeRow>, scans: nat, version: int) {
    forall r :: r in rows ==> RowStamps(r, scans, version)
  }

  function AcceptedIds(rows: seq<ChangeRow>): set<nat> {
    set i | 0 <= i < |rows| && rows[i].state.Accepted?
  }

  ghost predicate ScanFinished(s: ScanRow) {
    !s.status.Running? && s.finishedAt.Some? && s.durationMs.Some? && s.durationMs.value >= 0 &&
    (s.errorCode.Some? <==> s.status.FailedScan?)
  }

  ghost predicate ScansFinished(scans: seq<ScanRow>) {
    forall s :: s in scans ==> ScanFinished(s)
  }

  ghost predicate DeliveriesOk(deliveries: seq<Delivery>, scans: nat) {
    (forall d :: d in deliveries ==> RowOk(d) && d.scan < scans) &&
    forall i, j :: 0 <= i < j < |deliveries| ==>
      deliveries[i].scan != deliveries[j].scan || deliveries[i].channel != deliveries[j].channel
  }

  ghost predicate ObservationsOk(observations: seq<Observation>, scans: nat) {
    forall o :: o in observations ==> o.scan < scans
  }

  ghost predicate VersionCounts(db: Db) {
    db.version == 1 + |AcceptedIds(db.changes)|
  }

  ghost predicate Inv(db: Db) {
    TablesOk(db) && Stamped(db.changes, |db.scans|, db.version) && VersionCounts(db) &&
    ScansFinished(db.scans) && DeliveriesOk(db.deliveries, |db.scans|) &&
    ObservationsOk(db.observations, |db.scans|) && CatalogTables(db)
  }

  // ---------- scans keep it ----------

  lemma NewDeliveriesOk(deliveries: seq<Delivery>, scan: nat, settings: Settings)
    requires DeliveriesOk(deliveries, scan)
    ensures DeliveriesOk(deliveries + NewDeliveries(scan, EnabledChannels(settings)), scan + 1)
    ensures DeliveriesOk(deliveries, scan + 1)
  {
    var channels := EnabledChannels(settings);
    var all := deliveries + NewDeliveries(scan, channels);
    assert forall i, j :: 0 <= i < j < |channels| ==> channels[i] != channels[j];
    forall i, j | 0 <= i < j < |all| ensures all[i].scan != all[j].scan || all[i].channel != all[j].channel {
      if i < |deliveries| {
        assert all[i] in deliveries;
      }
    }
  }

  lemma FinishedAppend(scans: seq<ScanRow>, started: ScanRow, done: ScanRow)
    requires ScansFinished(scans) && ScanFinished(done)
    ensures ScansFinished((scans + [started])[|scans| := done])
    ensures scans <= (scans + [started])[|scans| := done]
  {
    assert (scans + [started])[|scans| := done] == scans + [done];
  }

  lemma ReconciledStamped(rows: seq<ChangeRow>, changes: seq<SchemaChange>, source: string, scan: nat, version: int,
                          now: int)
    requires Stamped(rows, scan, version)
    ensures Stamped(Reconciled(rows, changes, source, scan, version, now), scan + 1, version)
    ensures AcceptedIds(Reconciled(rows, changes, source, scan, version, now)) == AcceptedIds(rows)
  {
    var r := Reconciled(rows, changes, source, scan, version, now);
    forall x | x in r ensures RowStamps(x, scan + 1, version) {
      var i :| 0 <= i < |r| && r[i] == x;
      if i < |rows| {
        ReconciledOld(rows, changes, source, scan, version, now, i);
        assert rows[i] in rows;
      } else {
        ReconciledNew(rows, changes, source, scan, version, now, i);
      }
    }
    forall i | 0 <= i < |r| ensures i in AcceptedIds(r) <==> i in AcceptedIds(rows) {
      if i < |rows| {
        ReconciledOld(rows, changes, source, scan, version, now, i);
      } else {
        ReconciledNew(rows, changes, source, scan, version, now, i);
      }
    }
  }

  lemma ReconciledConsistent(rows: seq<ChangeRow>, changes: seq<SchemaChange>, source: string, scan: nat,
                             version: int, now: int, datasets: set<DatasetRef>)
    requires FingerprintsMatch(source, rows) && RowsRegistered(rows, datasets)
    requires Registered(FreshChanges(changes, source, OpenFingerprints(rows)), datasets)
    ensures FingerprintsMatch(source, Reconciled(rows, changes, source, scan, version, now))
    ensures RowsRegistered(Reconciled(rows, changes, source, scan, version, now), datasets)
  {
    var r := Reconciled(rows, changes, source, scan, version, now);
    forall x | x in r ensures x.fingerprint == RowFingerprint(source, x) && x.dataset in datasets {
      var i :| 0 <= i < |r| && r[i] == x;
      if i < |rows| {
        ReconciledOld(rows, changes, source, scan, version, now, i);
        assert rows[i] in rows;
      } else {
        ReconciledNew(rows, changes, source, scan, version, now, i);
        var added := FreshChanges(changes, source, OpenFingerprints(rows));
        assert added[i - |rows|] in added;
      }
    }
  }

  lemma CatalogKept(db: Db, after: Db)
    requires CatalogTables(db) && after.pipelines == db.pipelines && after.edges == db.edges
    requires db.datasets <= after.datasets
    ensures CatalogTables(after)
  {
    forall e | e in after.edges ensures EdgeStored(after, e) {
      assert EdgeStored(db, e);
    }
  }

  lemma FailKeepsInv(db: Db, call: ScanCall, code: string)
    requires Inv(db)
    ensures Inv(FailScan(StartScan(db, call.trigger, call.startedAt), |db.scans|, code, call.settings, call.finishedAt))
  {
    var started := ScanRow(call.trigger, Running, call.startedAt, None, None, None);
    var after := FailScan(StartScan(db, call.trigger, call.startedAt), |db.scans|, code, call.settings,
      call.finishedAt);
    NewDeliveriesOk(db.deliveries, |db.scans|, call.settings);
    FinishedAppend(db.scans, started, FailRow(started, code, call.finishedAt));
    CatalogKept(db, after);
    assert Stamped(after.changes, |after.scans|, after.version);
  }

  lemma InitialKeepsInv(db: Db, call: ScanCall)
    requires Inv(db) && IsInitialCall(db, call)
    ensures Inv(ScanRequest(db, call).db)
  {
    var observed, after := call.collected.columns, ScanRequest(db, call).db;
    if ScanRequest(db, call).outcome.BaselineCreated? {
      var started := ScanRow(call.trigger, Running, call.startedAt, None, None, None);
      InitialRequest(db, call);
      SnapshotKeyed(observed);
      FinishedAppend(db.scans, started, CompleteRow(started, call.finishedAt));
      NewDeliveriesOk(db.deliveries, |db.scans|, call.settings);
      CatalogKept(db, after);
      assert BaselineOk(after);
    }
  }

  /** The change rows a drift scan leaves meet the row invariants. */
  lemma DriftRowsOk(db: Db, call: ScanCall)
    requires Inv(db) && IsDriftCall(db, call) && DriftAllowed(db, call)
    ensures var rows := RowsAfter(db, call);
      Stamped(rows, |db.scans| + 1, db.version) && AcceptedIds(rows) == AcceptedIds(db.changes) &&
      FingerprintsMatch(db.source, rows) && RowsRegistered(rows, db.datasets) && UniqueOpen(rows)
  {
    var changes := DriftOf(db, call.collected.columns);
    ReconciledStamped(db.changes, changes, db.source, |db.scans|, db.version, call.finishedAt);
    ReconciledConsistent(db.changes, changes, db.source, |db.scans|, db.version, call.finishedAt, db.datasets);
  }

  lemma DoneKeepsInv(db: Db, call: ScanCall, rows: seq<ChangeRow>, alert: bool, after: Db)
    requires Inv(db) && call.collected.Snapshot?
    requires after ==
      DriftDone(StartScan(db, call.trigger, call.startedAt), |db.scans|, call.collected.columns, rows, alert,
        call.settings, call.finishedAt)
    requires Stamped(rows, |db.scans| + 1, db.version) && AcceptedIds(rows) == AcceptedIds(db.changes)
    requires FingerprintsMatch(db.source, rows) && RowsRegistered(rows, db.datasets) && UniqueOpen(rows)
    ensures Inv(after)
  {
    var started := ScanRow(call.trigger, Running, call.startedAt, None, None, None);
    FinishedAppend(db.scans, started, CompleteRow(started, call.finishedAt));
    NewDeliveriesOk(db.deliveries, |db.scans|, call.settings);
    assert db.deliveries + [] == db.deliveries;
    CatalogKept(db, after);
  }

  lemma DriftKeepsInv(db: Db, call: ScanCall)
    requires Inv(db) && IsDriftCall(db, call)
    ensures Inv(ScanRequest(db, call).db)
  {
    DriftOutcome(db, call);
    if DriftAllowed(db, call) {
      DriftRowsOk(db, call);
      DoneKeepsInv(db, call, RowsAfter(db, call), AnyAlertable(AddedBy(db, call)), DriftTables(db, call));
    }
  }

  lemma ScanKeepsInv(db: Db, call: ScanCall)
    requires Inv(db)
    ensures Inv(ScanRequest(db, call).db)
  {
    if IsInitialCall(db, call) {
      InitialKeepsInv(db, call);
    } else if IsDriftCall(db, call) {
      DriftKeepsInv(db, call);
    } else if call.sourceKey == db.source && !call.collected.CollectorBug? {
      FailKeepsInv(db, call, if call.collected.SourceDown? then call.collected.errorName else "EmptySchemaSnapshot");
    }
  }

  // ---------- the other requests keep it ----------

  lemma PatchKeepsBaseline(db: Db, row: ChangeRow)
    requires BaselineOk(db) && row.dataset in db.datasets && Patch(db.expected, row).Some?
    ensures var m := Patch(db.expected, row).value;
      WellKeyed(m) && forall r :: r in m ==> r.dataset in db.datasets
  {
  }

  lemma AcceptKeepsInv(db: Db, id: nat, v: int, now: int)
    requires Inv(db)
    ensures Inv(AcceptRequest(db, id, v, now))
  {
    if AcceptChange(db, id, v, now).Ok? {
      var after := AcceptChange(db, id, v, now).value;
      assert db.changes[id] in db.changes;
      PatchKeepsBaseline(db, db.changes[id]);
      AcceptedRows(db, id, now, after.changes);
      CatalogKept(db, after);
    }
  }

  lemma AcceptedRows(db: Db, id: nat, now: int, rows: seq<ChangeRow>)
    requires Inv(db) && id < |db.changes| && db.changes[id].state.Open?
    requires rows == db.changes[id := AcceptRow(db.changes[id], now)]
    ensures UniqueOpen(rows) && FingerprintsMatch(db.source, rows) && RowsRegistered(rows, db.datasets)
    ensures Stamped(rows, |db.scans|, db.version + 1)
    ensures AcceptedIds(rows) == AcceptedIds(db.changes) + {id} && id !in AcceptedIds(db.changes)
  {
    forall r | r in rows
      ensures r.fingerprint == RowFingerprint(db.source, r) && r.dataset in db.datasets
      ensures RowStamps(r, |db.scans|, db.version + 1)
    {
      var i :| 0 <= i < |rows| && rows[i] == r;
      assert db.changes[i] in db.changes;
    }
  }

  lemma SyncKeepsInv(db: Db, config: CatalogConfig)
    requires Inv(db)
    ensures Inv(SyncRequest(db, config))
  {
    if Acceptable(config, db.expected.Keys) {
      SyncKeepsTables(db, config);
    }
  }

  lemma OutboxKeepsInv(w: World, after: seq<Delivery>)
    requires Inv(w.db) && SameIdentities(w.db.deliveries, after) && forall d :: d in after ==> RowOk(d)
    ensures Inv(w.db.(deliveries := after))
  {
    var db := w.db.(deliveries := after);
    forall d | d in after ensures d.scan < |db.scans| {
      var i :| 0 <= i < |after| && after[i] == d;
      assert w.db.deliveries[i] in w.db.deliveries;
    }
    CatalogKept(w.db, db);
  }

  lemma DeliveriesAfter(w: World, e: Event)
    requires Inv(w.db) && (e.Dispatch? || e.Retry?)
    ensures var after := Step(w, e).db.deliveries;
      SameIdentities(w.db.deliveries, after) && forall d :: d in after ==> RowOk(d)
  {
    var o := Outbox(w.db.deliveries, w.log);
    match e {
      case Dispatch(scan, s) => BatchKeepsRows(o, PendingOf(o.deliveries, scan), s);
      case Retry(id, s) =>
        if Attempt(o, id, s).Ok? { AttemptKeepsRows(o, id, s); }
    }
  }

  lemma StepKeepsInv(w: World, e: Event)
    requires Inv(w.db)
    ensures Inv(Step(w, e).db)
  {
    match e {
      case Scan(call) => ScanKeepsInv(w.db, call);
      case Accept(id, v, now) => AcceptKeepsInv(w.db, id, v, now);
      case Sync(config) => SyncKeepsInv(w.db, config);
      case Dispatch(_, _) =>
        DeliveriesAfter(w, e);
        OutboxKeepsInv(w, Step(w, e).db.deliveries);
      case Retry(_, _) =>
        DeliveriesAfter(w, e);
        OutboxKeepsInv(w, Step(w, e).db.deliveries);
    }
  }

  lemma {:induction false} RunKeepsInv(w: World, events: seq<Event>)
    requires Inv(w.db)
    ensures Inv(Run(w, events).db)
    decreases |events|
  {
    if events != [] {
      StepKeepsInv(w, events[0]);
      RunKeepsInv(Step(w, events[0]), events[1..]);
    }
  }

  /** Every run from a new source keeps all table invariants. */
  lemma EveryRunKeepsInv(source: string, events: seq<Event>)
    ensures Inv(Run(Fresh(source), events).db)
  {
    RunKeepsInv(Fresh(source), events);
  }

  // ---------- history ----------

  /** A row keeps its facts for ever, and its state and timestamps from the moment it leaves OPEN. */
  ghost predicate Evolves(r: ChangeRow, later: ChangeRow) {
    later == r.(state := later.state, acceptedAt := later.acceptedAt, resolvedAt := later.resolvedAt) &&
    (!r.state.Open? ==> later == r)
  }

  ghost predicate History(db: Db, later: Db) {
    later.source == db.source && db.version <= later.version && db.datasets <= later.datasets &&
    |db.changes| <= |later.changes| &&
    (forall i :: 0 <= i < |db.changes| ==> Evolves(db.changes[i], later.changes[i])) &&
    db.scans <= later.scans && db.observations <= later.observations &&
    |db.deliveries| <= |later.deliveries| && SameIdentities(db.deliveries, later.deliveries[..|db.deliveries|]) &&
    (forall i :: |db.deliveries| <= i < |later.deliveries| ==> later.deliveries[i].scan >= |db.scans|) &&
    (forall i :: |db.observations| <= i < |later.observations| ==> later.observations[i].scan >= |db.scans|)
  }

  lemma HistoryTransitive(a: Db, b: Db, c: Db)
    requires History(a, b) && History(b, c)
    ensures History(a, c)
  {
    forall i | 0 <= i < |a.changes| ensures Evolves(a.changes[i], c.changes[i]) {
      assert Evolves(a.changes[i], b.changes[i]) && Evolves(b.changes[i], c.changes[i]);
    }
    forall i | 0 <= i < |a.deliveries|
      ensures a.deliveries[i].scan == c.deliveries[i].scan && a.deliveries[i].channel == c.deliveries[i].channel
    {
      assert b.deliveries[i] == b.deliveries[..|a.deliveries|][i] &&
      c.deliveries[i] == c.deliveries[..|b.deliveries|][i];
    }
  }

  lemma ReconciledEvolves(rows: seq<ChangeRow>, changes: seq<SchemaChange>, source: string, scan: nat, version: int,
                          now: int)
    ensures var r := Reconciled(rows, changes, source, scan, version, now);
      |rows| <= |r| && forall i :: 0 <= i < |rows| ==> Evolves(rows[i], r[i])
  {
  }

  lemma AppendedIdentities(deliveries: seq<Delivery>, more: seq<Delivery>)
    ensures SameIdentities(deliveries, (deliveries + more)[..|deliveries|])
  {
    assert (deliveries + more)[..|deliveries|] == deliveries;
  }

  lemma ScanRowAppended(scans: seq<ScanRow>, started: ScanRow, done: ScanRow)
    ensures scans <= (scans + [started])[|scans| := done]
  {
  }

  lemma DoneHistory(db: Db, call: ScanCall, rows: seq<ChangeRow>, alert: bool, after: Db)
    requires call.collected.Snapshot?
    requires after ==
      DriftDone(StartScan(db, call.trigger, call.startedAt), |db.scans|, call.collected.columns, rows, alert,
        call.settings, call.finishedAt)
    requires |db.changes| <= |rows| && forall i :: 0 <= i < |db.changes| ==> Evolves(db.changes[i], rows[i])
    ensures History(db, after)
  {
    var started := ScanRow(call.trigger, Running, call.startedAt, None, None, None);
    AppendedIdentities(db.deliveries, if alert then NewDeliveries(|db.scans|, EnabledChannels(call.settings)) else []);
    ScanRowAppended(db.scans, started, CompleteRow(started, call.finishedAt));
  }

  lemma DriftHistory(db: Db, call: ScanCall)
    requires IsDriftCall(db, call)
    ensures History(db, ScanRequest(db, call).db)
  {
    DriftOutcome(db, call);
    if DriftAllowed(db, call) {
      ReconciledEvolves(db.changes, DriftOf(db, call.collected.columns), db.source, |db.scans|, db.version,
                        call.finishedAt);
      DoneHistory(db, call, RowsAfter(db, call), AnyAlertable(AddedBy(db, call)), DriftTables(db, call));
    } else {
      HistoryReflexive(db);
    }
  }

  lemma HistoryReflexive(db: Db)
    ensures History(db, db)
  {
    assert db.deliveries[..|db.deliveries|] == db.deliveries;
  }

  lemma ScanHistory(db: Db, call: ScanCall)
    ensures History(db, ScanRequest(db, call).db)
  {
    if IsDriftCall(db, call) {
      DriftHistory(db, call);
    } else {
      AppendedIdentities(db.deliveries, []);
      AppendedIdentities(db.deliveries, NewDeliveries(|db.scans|, EnabledChannels(call.settings)));
    }
  }

  lemma AcceptHistory(db: Db, id: nat, v: int, now: int)
    ensures History(db, AcceptRequest(db, id, v, now))
  {
    HistoryReflexive(db);
  }

  lemma OutboxHistory(db: Db, after: seq<Delivery>)
    requires SameIdentities(db.deliveries, after)
    ensures History(db, db.(deliveries := after))
  {
    assert after[..|db.deliveries|] == after;
  }

  lemma StepHistory(w: World, e: Event)
    requires Inv(w.db)
    ensures History(w.db, Step(w, e).db)
  {
    match e {
      case Scan(call) => ScanHistory(w.db, call);
      case Accept(id, v, now) => AcceptHistory(w.db, id, v, now);
      case Sync(config) => HistoryReflexive(w.db);
      case Dispatch(_, _) =>
        DeliveriesAfter(w, e);
        OutboxHistory(w.db, Step(w, e).db.deliveries);
      case Retry(_, _) =>
        DeliveriesAfter(w, e);
        OutboxHistory(w.db, Step(w, e).db.deliveries);
    }
  }

  /** What was recorded stays recorded, through any further requests. */
  lemma {:induction false} RunHistory(w: World, events: seq<Event>)
    requires Inv(w.db)
    ensures History(w.db, Run(w, events).db)
    decreases |events|
  {
    if events != [] {
      StepKeepsInv(w, events[0]);
      StepHistory(w, events[0]);
      RunHistory(Step(w, events[0]), events[1..]);
      HistoryTransitive(w.db, Step(w, events[0]).db, Run(w, events).db);
    }
  }

  // ---------- what failed scans leave ----------

  /** Every change row and every observed column belongs to a completed scan. */
  ghost predicate OwnersCompleted(db: Db) {
    (forall r :: r in db.changes ==> r.scan < |db.scans| && db.scans[r.scan].status.Completed?) &&
    (forall o :: o in db.observations ==> o.scan < |db.scans| && db.scans[o.scan].status.Completed?)
  }

  lemma DoneKeepsOwners(db: Db, call: ScanCall, rows: seq<ChangeRow>, alert: bool, after: Db)
    requires OwnersCompleted(db) && call.collected.Snapshot?
    requires after ==
      DriftDone(StartScan(db, call.trigger, call.startedAt), |db.scans|, call.collected.columns, rows, alert,
        call.settings, call.finishedAt)
    requires forall i :: 0 <= i < |rows| ==>
      rows[i].scan == (if i < |db.changes| then db.changes[i].scan else |db.scans|)
    ensures OwnersCompleted(after)
  {
    forall r | r in after.changes ensures r.scan < |after.scans| && after.scans[r.scan].status.Completed? {
      var i :| 0 <= i < |rows| && rows[i] == r;
      if i < |db.changes| { assert db.changes[i] in db.changes; }
    }
  }

  lemma InitialKeepsOwners(db: Db, call: ScanCall)
    requires OwnersCompleted(db) && IsInitialCall(db, call)
    ensures OwnersCompleted(ScanRequest(db, call).db)
  {
  }

  lemma ReconciledOwners(rows: seq<ChangeRow>, changes: seq<SchemaChange>, source: string, scan: nat, version: int,
                         now: int)
    ensures var r := Reconciled(rows, changes, source, scan, version, now);
      forall i :: 0 <= i < |r| ==> r[i].scan == if i < |rows| then rows[i].scan else scan
  {
  }

  lemma DriftKeepsOwners(db: Db, call: ScanCall)
    requires OwnersCompleted(db) && IsDriftCall(db, call)
    ensures OwnersCompleted(ScanRequest(db, call).db)
  {
    DriftOutcome(db, call);
    if DriftAllowed(db, call) {
      ReconciledOwners(db.changes, DriftOf(db, call.collected.columns), db.source, |db.scans|, db.version,
                       call.finishedAt);
      DoneKeepsOwners(db, call, RowsAfter(db, call), AnyAlertable(AddedBy(db, call)), DriftTables(db, call));
    }
  }

  lemma FailKeepsOwners(db: Db, call: ScanCall, code: string)
    requires OwnersCompleted(db)
    ensures OwnersCompleted(FailScan(StartScan(db, call.trigger, call.startedAt), |db.scans|, code, call.settings,
      call.finishedAt))
  {
  }

  lemma ScanKeepsOwners(db: Db, call: ScanCall)
    requires OwnersCompleted(db)
    ensures OwnersCompleted(ScanRequest(db, call).db)
  {
    if IsDriftCall(db, call) {
      DriftKeepsOwners(db, call);
    } else if IsInitialCall(db, call) {
      InitialKeepsOwners(db, call);
    } else if call.sourceKey == db.source && !call.collected.CollectorBug? {
      FailKeepsOwners(db, call, if call.collected.SourceDown? then call.collected.errorName else "EmptySchemaSnapshot");
    }
  }

  lemma StepKeepsOwners(w: World, e: Event)
    requires OwnersCompleted(w.db)
    ensures OwnersCompleted(Step(w, e).db)
  {
    match e {
      case Scan(call) => ScanKeepsOwners(w.db, call);
      case Accept(id, v, now) =>
        var after := AcceptRequest(w.db, id, v, now);
        forall r | r in after.changes ensures r.scan < |w.db.scans| && w.db.scans[r.scan].status.Completed? {
          var i :| 0 <= i < |after.changes| && after.changes[i] == r;
          assert w.db.changes[i] in w.db.changes;
        }
      case Sync(_) =>
      case Dispatch(_, _) =>
      case Retry(_, _) =>
    }
  }

  lemma {:induction false} RunKeepsOwners(w: World, events: seq<Event>)
    requires OwnersCompleted(w.db)
    ensures OwnersCompleted(Run(w, events).db)
    decreases |events|
  {
    if events != [] {
      StepKeepsOwners(w, events[0]);
      RunKeepsOwners(Step(w, events[0]), events[1..]);
    }
  }

  /** After every run a scan that is not completed, failed in particular, owns no change row and no observed column. */
  lemma FailedScansOwnNothing(source: string, events: seq<Event>, scan: nat)
    requires scan < |Run(Fresh(source), events).db.scans|
    requires Run(Fresh(source), events).db.scans[scan].status.FailedScan?
    ensures forall r :: r in Run(Fresh(source), events).db.changes ==> r.scan != scan
    ensures forall o :: o in Run(Fresh(source), events).db.observations ==> o.scan != scan
  {
    RunKeepsOwners(Fresh(source), events);
  }
}
