/** The lifecycle theorems, stated for every state some run of requests can reach. */
module Reachability {
  import opened Options
  import opened Models
  import opened Ordering
  import opened Diff
  import opened Database
  import opened Reconciliation
  import opened Requests
  import opened Acceptance
  import opened Outbox
  import opened Lifecycle

  /** The tables a request observes. */
  function EventDatasets(e: Event): set<DatasetRef> {
    if e.Scan? && e.call.collected.Snapshot? then SnapshotDatasets(e.call.collected.columns) else {}
  }

  function Seen(events: seq<Event>): set<DatasetRef> {
    set e, d | e in events && d in EventDatasets(e) :: d
  }

  /** No two tables observed anywhere in the run share a qualified name. */
  ghost predicate DistinctlyNamed(events: seq<Event>) {
    UniqueNames(Seen(events))
  }

  /** So it is when the collector reads only schemas whose names carry no dot. */
  lemma DotFreeRunsAreDistinctlyNamed(events: seq<Event>)
    requires forall d :: d in Seen(events) ==> DotFree(d.schema)
    ensures DistinctlyNamed(events)
  {
    DotFreeIsUnique(Seen(events));
  }

  // ---------- OPEN rows can always be applied ----------

  ghost predicate Applicable(expected: Columns, r: ChangeRow) {
    if r.changeType.AddColumn? then r.after.Some?
    else r.Ref() in expected && (!r.changeType.DropColumn? ==> r.after.Some?)
  }

  /**
   Every OPEN row can be applied and carries the data of its own column, no two OPEN rows are
   of one column and kind of change, and no OPEN row shares its column with an OPEN drop.
   */
  ghost predicate OpenShape(expected: Columns, rows: seq<ChangeRow>) {
    (forall i :: 0 <= i < |rows| && rows[i].state.Open? ==> Applicable(expected, rows[i]) && OwnPayloads(rows[i])) &&
    (forall i, j :: 0 <= i < |rows| && 0 <= j < |rows| && i != j ==> !Conflicting(rows[i], rows[j]))
  }

  ghost predicate Conflicting(r: ChangeRow, s: ChangeRow) {
    r.state.Open? && s.state.Open? && r.Ref() == s.Ref() && (r.changeType.DropColumn? || r.changeType == s.changeType)
  }

  predicate OwnPayload(r: ChangeRow, p: Option<ColumnPayload>) {
    p.Some? ==> p.value.dataset == DatasetName(r.dataset) && p.value.name == r.columnName
  }

  predicate OwnPayloads(r: ChangeRow) {
    OwnPayload(r, r.before) && OwnPayload(r, r.after)
  }

  ghost predicate PlainInv(db: Db) {
    Inv(db) && UniqueNames(db.datasets) && OpenShape(db.expected, db.changes)
  }

  lemma PatchDefinedIff(expected: Columns, r: ChangeRow)
    ensures Patch(expected, r).Some? <==> Applicable(expected, r)
  {
  }

  lemma DriftedApplicable(base: Db, observed: Columns, i: nat)
    requires Drifted(base, observed) && i < |base.changes| && base.changes[i].state.Open?
    ensures Applicable(base.expected, base.changes[i]) && OwnPayloads(base.changes[i])
  {
    var diff := DiffOf(base.expected, observed, Dependencies(base));
    DriftedRow(base, observed, i);
    var c := MirrorChange(base.source, base.changes, diff, i);
    DiffMember(base.expected, observed, Dependencies(base), c);
  }

  lemma DriftedAlone(base: Db, observed: Columns, i: nat, j: nat)
    requires Drifted(base, observed) && i < |base.changes| && j < |base.changes| && i != j
    ensures !Conflicting(base.changes[i], base.changes[j])
  {
    if Conflicting(base.changes[i], base.changes[j]) {
      if base.changes[i].changeType.DropColumn? {
        DropIsAlone(base, observed, i, j);
      } else {
        KindIsAlone(base, observed, i, j);
      }
    }
  }

  lemma KindIsAlone(base: Db, observed: Columns, i: nat, j: nat)
    requires Drifted(base, observed) && i < |base.changes| && j < |base.changes|
    requires base.changes[i].state.Open? && base.changes[j].state.Open?
    requires base.changes[i].Ref() == base.changes[j].Ref() && base.changes[i].changeType == base.changes[j].changeType
    ensures i == j
  {
    var diff := DiffOf(base.expected, observed, Dependencies(base));
    var c := MirrorChange(base.source, base.changes, diff, i);
    var d := MirrorChange(base.source, base.changes, diff, j);
    DiffExact(base.expected, observed, Dependencies(base));
    StrictlyAscendingFacts(diff, ChangeKey);
    assert ChangeKey(c) == ChangeKey(d);
  }

  lemma DriftedShape(base: Db, observed: Columns)
    requires Drifted(base, observed)
    ensures OpenShape(base.expected, base.changes)
  {
    forall i | 0 <= i < |base.changes| && base.changes[i].state.Open?
      ensures Applicable(base.expected, base.changes[i]) && OwnPayloads(base.changes[i])
    {
      DriftedApplicable(base, observed, i);
    }
    forall i, j | 0 <= i < |base.changes| && 0 <= j < |base.changes| && i != j
      ensures !Conflicting(base.changes[i], base.changes[j])
    {
      DriftedAlone(base, observed, i, j);
    }
  }

  /** A committed drift scan leaves the OPEN rows mirroring the diff. */
  lemma DriftScanDrifted(db: Db, call: ScanCall)
    requires Inv(db) && IsDriftCall(db, call) && DriftAllowed(db, call)
    requires Unambiguous(db.datasets, call.collected.columns)
    ensures Drifted(DriftTables(db, call), RefMap(call.collected.columns))
  {
    RowsAfterMirror(db, call);
    DriftRowsOk(db, call);
    SnapshotKeyed(call.collected.columns);
  }

  lemma InitialShape(db: Db, observed: seq<ColumnDefinition>)
    requires OpenShape(map[], db.changes)
    ensures OpenShape(RefMap(observed), db.changes)
  {
  }

  lemma InitialKeepsPlain(db: Db, call: ScanCall)
    requires PlainInv(db) && UniqueNames(db.datasets + EventDatasets(Scan(call)))
    requires IsInitialCall(db, call) && DistinctRefs(call.collected.columns)
    ensures var after := ScanRequest(db, call).db;
      UniqueNames(after.datasets) && OpenShape(after.expected, after.changes) &&
      after.datasets <= db.datasets + EventDatasets(Scan(call))
  {
    InitialRequest(db, call);
    InitialShape(db, call.collected.columns);
    assert ScanRequest(db, call).db.datasets == db.datasets + (set c | c in call.collected.columns :: c.dataset);
  }

  lemma ScanKeepsPlain(db: Db, call: ScanCall)
    requires PlainInv(db) && UniqueNames(db.datasets + EventDatasets(Scan(call)))
    ensures PlainInv(ScanRequest(db, call).db)
    ensures ScanRequest(db, call).db.datasets <= db.datasets + EventDatasets(Scan(call))
  {
    ScanKeepsInv(db, call);
    if IsDriftCall(db, call) {
      DriftKeepsPlain(db, call);
    } else if IsInitialCall(db, call) {
      if DistinctRefs(call.collected.columns) { InitialKeepsPlain(db, call); }
    }
  }

  lemma DriftKeepsPlain(db: Db, call: ScanCall)
    requires PlainInv(db) && IsDriftCall(db, call) && UniqueNames(db.datasets + EventDatasets(Scan(call)))
    ensures var after := ScanRequest(db, call).db;
      after.datasets == db.datasets && OpenShape(after.expected, after.changes)
  {
    DriftOutcome(db, call);
    if DriftAllowed(db, call) {
      DriftScanDrifted(db, call);
      DriftedShape(DriftTables(db, call), RefMap(call.collected.columns));
    }
  }

  lemma AcceptKeepsShape(db: Db, id: nat, v: int, now: int)
    requires OpenShape(db.expected, db.changes)
    ensures var after := AcceptRequest(db, id, v, now);
      OpenShape(after.expected, after.changes) && after.datasets == db.datasets
  {
    if AcceptChange(db, id, v, now).Ok? {
      var after := AcceptChange(db, id, v, now).value;
      forall i | 0 <= i < |after.changes| && after.changes[i].state.Open?
        ensures Applicable(after.expected, after.changes[i]) && OwnPayloads(after.changes[i])
      {
        assert i != id && after.changes[i] == db.changes[i];
        assert Applicable(db.expected, db.changes[i]);
        if !db.changes[i].changeType.AddColumn? {
          assert !Conflicting(db.changes[id], db.changes[i]);
          PatchKeepsOthers(db.expected, db.changes[id], db.changes[i].Ref());
        }
      }
    }
  }

  lemma PatchKeepsOthers(expected: Columns, row: ChangeRow, ref: ColumnRef)
    requires Patch(expected, row).Some? && ref in expected
    requires row.changeType.DropColumn? ==> row.Ref() != ref
    ensures ref in Patch(expected, row).value
  {
  }

  lemma StepKeepsPlain(w: World, e: Event)
    requires PlainInv(w.db) && UniqueNames(w.db.datasets + EventDatasets(e))
    ensures PlainInv(Step(w, e).db) && Step(w, e).db.datasets <= w.db.datasets + EventDatasets(e)
  {
    StepKeepsInv(w, e);
    match e {
      case Scan(call) => ScanKeepsPlain(w.db, call);
      case Accept(id, v, now) => AcceptKeepsShape(w.db, id, v, now);
      case Sync(_) =>
      case Dispatch(_, _) =>
      case Retry(_, _) =>
    }
  }

  lemma {:induction false} RunKeepsPlain(w: World, events: seq<Event>)
    requires PlainInv(w.db) && UniqueNames(w.db.datasets + Seen(events))
    ensures PlainInv(Run(w, events).db) && Run(w, events).db.datasets <= w.db.datasets + Seen(events)
    decreases |events|
  {
    if events != [] {
      assert events[0] in events && forall e :: e in events[1..] ==> e in events;
      assert EventDatasets(events[0]) <= Seen(events) && Seen(events[1..]) <= Seen(events);
      StepKeepsPlain(w, events[0]);
      RunKeepsPlain(Step(w, events[0]), events[1..]);
    }
  }

  ghost function After(source: string, events: seq<Event>): Db {
    Run(Fresh(source), events).db
  }

  lemma ReachedPlain(source: string, events: seq<Event>)
    requires DistinctlyNamed(events)
    ensures PlainInv(After(source, events)) && After(source, events).datasets <= Seen(events)
  {
    assert {} + Seen(events) == Seen(events);
    RunKeepsPlain(Fresh(source), events);
  }

  /** What a further scan may rely on. */
  lemma ReachedReady(source: string, events: seq<Event>, call: ScanCall)
    requires DistinctlyNamed(events + [Scan(call)]) && call.collected.Snapshot?
    ensures DistinctlyNamed(events) && PlainInv(After(source, events))
    ensures Unambiguous(After(source, events).datasets, call.collected.columns)
  {
    var all := events + [Scan(call)];
    assert all[|events|] == Scan(call) && Scan(call) in all;
    assert EventDatasets(Scan(call)) == SnapshotDatasets(call.collected.columns);
    assert Seen(events) <= Seen(all) && EventDatasets(Scan(call)) <= Seen(all);
    ReachedPlain(source, events);
  }

  /** In every reachable state an acceptance succeeds exactly for an OPEN row and the current version. */
  lemma AcceptSucceedsIff(source: string, events: seq<Event>, id: nat, v: int, now: int)
    requires DistinctlyNamed(events)
    ensures var db := After(source, events);
      AcceptChange(db, id, v, now).Ok? <==> id < |db.changes| && db.changes[id].state.Open? && v == db.version
  {
    var db := After(source, events);
    ReachedPlain(source, events);
    if id < |db.changes| && db.changes[id].state.Open? {
      PatchDefinedIff(db.expected, db.changes[id]);
    }
  }

  // ---------- drift scans from reachable states ----------

  /**
   A drift scan of a reachable state: it commits iff every observed table is registered, and then
   mirrors the diff.
   */
  lemma ReachedDriftScan(source: string, events: seq<Event>, call: ScanCall)
    requires DistinctlyNamed(events + [Scan(call)]) && IsDriftCall(After(source, events), call)
    ensures var db := After(source, events);
      var r := ScanRequest(db, call);
      r.outcome == (if ObservedRegistered(db, call.collected.columns) then DriftRecorded else RolledBack) &&
      (r.outcome.RolledBack? ==> r.db == db) &&
      (r.outcome.DriftRecorded? ==> Mirrors(db.source, r.db.changes, DriftOf(r.db, call.collected.columns)))
  {
    var db := After(source, events);
    ReachedReady(source, events, call);
    DriftCommitsIff(db, call);
    RowsAfterMirror(db, call);
  }

  /** The accept events for some rows, each carrying the version the previous one produced. */
  function AcceptEvents(ids: seq<nat>, version: int, clock: nat -> int): seq<Event> {
    if ids == [] then []
    else [Accept(ids[0], version, clock(ids[0]))] + AcceptEvents(ids[1..], version + 1, clock)
  }

  /** Accepting rows one by one is running those events. */
  lemma {:induction false} AcceptAllIsRun(w: World, ids: seq<nat>, clock: nat -> int)
    requires AcceptAll(w.db, ids, clock).Some?
    ensures Run(w, AcceptEvents(ids, w.db.version, clock)) == w.(db := AcceptAll(w.db, ids, clock).value)
    decreases |ids|
  {
    if ids != [] {
      var events := AcceptEvents(ids, w.db.version, clock);
      var next := AcceptChange(w.db, ids[0], w.db.version, clock(ids[0])).value;
      assert events[0] == Accept(ids[0], w.db.version, clock(ids[0]));
      assert events[1..] == AcceptEvents(ids[1..], next.version, clock);
      AcceptFirst(w.db, ids, clock, next);
      AcceptAllIsRun(w.(db := next), ids[1..], clock);
    }
  }

  /**
   From any reachable state: scan, then accept every OPEN change in any order with the
   refreshed version.  Every acceptance succeeds and the next diff is empty.
   */
  lemma AcceptingAllConverges(source: string, events: seq<Event>, call: ScanCall, ids: seq<nat>, clock: nat -> int)
    requires DistinctlyNamed(events + [Scan(call)]) && IsDriftCall(After(source, events), call)
    requires ObservedRegistered(After(source, events), call.collected.columns)
    requires var scanned := After(source, events + [Scan(call)]);
      NoDuplicates(ids) && EveryOpenRow(scanned.changes, Ids(ids))
    ensures var scanned := After(source, events + [Scan(call)]);
      var final := After(source, events + [Scan(call)] + AcceptEvents(ids, scanned.version, clock));
      DriftOf(final, call.collected.columns) == [] && final.version == scanned.version + |ids| &&
      OpenFingerprints(final.changes) == {} &&
      forall i :: i in ids ==> i < |final.changes| && final.changes[i].state.Accepted?
  {
    var db := After(source, events);
    var observed := RefMap(call.collected.columns);
    ReachedReady(source, events, call);
    DriftAllowedIff(db, call);
    DriftOutcome(db, call);
    DriftScanDrifted(db, call);
    RunConcat(Fresh(source), events, [Scan(call)]);
    ScannedWorld(Run(Fresh(source), events), call);
    var w := Run(Fresh(source), events + [Scan(call)]);
    AcceptanceConverges(w.db, observed, ids, clock);
    AcceptAllIsRun(w, ids, clock);
    RunConcat(Fresh(source), events + [Scan(call)], AcceptEvents(ids, w.db.version, clock));
    AllAccepted(w.db, observed, ids, clock);
  }

  lemma ScannedWorld(w: World, call: ScanCall)
    ensures Run(w, [Scan(call)]) == w.(db := ScanRequest(w.db, call).db)
  {
    var events := [Scan(call)];
    assert events[1..] == [];
    assert Run(w, events) == Run(Step(w, events[0]), events[1..]);
  }

  lemma AllAccepted(base: Db, observed: Columns, ids: seq<nat>, clock: nat -> int)
    requires Drifted(base, observed) && NoDuplicates(ids) && AllOpen(base.changes, Ids(ids))
    ensures AcceptAll(base, ids, clock).Some?
    ensures var rows := AcceptAll(base, ids, clock).value.changes;
      forall i :: i in ids ==> i < |rows| && rows[i].state.Accepted?
  {
    AcceptInAnyOrder(base, observed, ids, clock);
    forall i | i in ids ensures i in Ids(ids) {
    }
  }

  /**
   From any reachable state: scan, accept any of the OPEN changes in any order, scan again.
   Nothing is added; untouched OPEN rows stay; exactly the siblings of accepted rows resolve.
   */
  lemma AcceptingSomeIsExact(source: string, events: seq<Event>, call: ScanCall, ids: seq<nat>, clock: nat -> int,
                             again: ScanCall)
    requires DistinctlyNamed(events + [Scan(call)]) && IsDriftCall(After(source, events), call)
    requires ObservedRegistered(After(source, events), call.collected.columns) && DistinctRefs(call.collected.columns)
    requires again.sourceKey == call.sourceKey && again.collected == call.collected
    requires NoDuplicates(ids) && AllOpen(After(source, events + [Scan(call)]).changes, Ids(ids))
    ensures var scanned := After(source, events + [Scan(call)]);
      var accepts := AcceptEvents(ids, scanned.version, clock);
      var accepted := After(source, events + [Scan(call)] + accepts);
      var rescanned := ScanRequest(accepted, again);
      rescanned.outcome == (if accepted.expected == map[] then BaselineCreated else DriftRecorded) &&
      rescanned.db.deliveries == scanned.deliveries && |rescanned.db.changes| == |scanned.changes| &&
      (forall i :: 0 <= i < |scanned.changes| ==>
        rescanned.db.changes[i] == RescannedRow(scanned, Ids(ids), clock, again.finishedAt, i)) &&
      (Mirrors(source, rescanned.db.changes, DriftOf(rescanned.db, call.collected.columns)) <==>
        accepted.expected != map[])
  {
    var db := After(source, events);
    var observed := call.collected.columns;
    ReachedReady(source, events, call);
    SourceStays(source, events);
    DriftAllowedIff(db, call);
    DriftOutcome(db, call);
    DriftScanDrifted(db, call);
    RunConcat(Fresh(source), events, [Scan(call)]);
    ScannedWorld(Run(Fresh(source), events), call);
    var w := Run(Fresh(source), events + [Scan(call)]);
    assert PartlyAccepted(w.db, observed, ids, again);
    PartialAcceptanceExact(w.db, observed, ids, clock, again);
    RescanMirrorsIff(w.db, observed, ids, clock, again);
    AcceptAllIsRun(w, ids, clock);
    RunConcat(Fresh(source), events + [Scan(call)], AcceptEvents(ids, w.db.version, clock));
  }

  lemma SourceStays(source: string, events: seq<Event>)
    ensures After(source, events).source == source
  {
    RunHistory(Fresh(source), events);
  }

  // ---------- failed scans ----------

  /** The name of the error a failed scan records. */
  function ErrorName(collected: Collected): string {
    if collected.SourceDown? then collected.errorName else "EmptySchemaSnapshot"
  }

  /**
   A scan of a source that is down or shows no column, anywhere in a run: baseline, version,
   change rows and snapshots stay as they were, one untried alert per enabled channel is added,
   and the scan is FAILED with the collector's error, or EmptySchemaSnapshot, for ever after and
   owns nothing but its deliveries.
   */
  lemma FailureOverRuns(source: string, events: seq<Event>, call: ScanCall, rest: seq<Event>)
    requires call.sourceKey == source && (call.collected.SourceDown? || call.collected == Snapshot([]))
    ensures var before, after := After(source, events), After(source, events + [Scan(call)]);
      after == before.(scans := after.scans, deliveries := after.deliveries) &&
      AlertsAdded(before, after, call.settings) &&
      ScanAdded(before, after, call, FailedScan, Some(ErrorName(call.collected)))
    ensures var scan, final := |After(source, events).scans|, After(source, events + [Scan(call)] + rest);
      scan < |final.scans| && FinishedScan(final.scans[scan], call, FailedScan, Some(ErrorName(call.collected))) &&
      (forall r :: r in final.changes ==> r.scan != scan) && forall o :: o in final.observations ==> o.scan != scan
  {
    var w, failed := Run(Fresh(source), events), Run(Fresh(source), events + [Scan(call)]);
    SourceStays(source, events);
    RunConcat(Fresh(source), events, [Scan(call)]);
    ScannedWorld(w, call);
    FailedScanExact(w.db, call);
    EveryRunKeepsInv(source, events + [Scan(call)]);
    RunConcat(Fresh(source), events + [Scan(call)], rest);
    RunHistory(failed, rest);
    FailedScansOwnNothing(source, events + [Scan(call)] + rest, |w.db.scans|);
  }

  // ---------- alerts ----------

  ghost function AlertedChannels(deliveries: seq<Delivery>, scan: nat): set<AlertChannel> {
    set d | d in deliveries && d.scan == scan :: d.channel
  }

  function Enabled(settings: Settings): set<AlertChannel> {
    set c: AlertChannel | if c.Slack? then settings.slack else settings.email
  }

  /** The diff holds a WARNING or BREAKING change no OPEN row stood for. */
  ghost predicate NewsFor(db: Db, observed: seq<ColumnDefinition>) {
    exists c :: c in DriftOf(db, observed) && (c.severity.Warning? || c.severity.Breaking?) &&
      ChangeFingerprint(db.source, c) !in OpenFingerprints(db.changes)
  }

  /** Whether a scan has to alert: it failed and says so, or it found something new worth alerting. */
  ghost predicate MustAlert(db: Db, call: ScanCall, outcome: ScanOutcome) {
    outcome.FailureRecorded? ||
    (outcome.DriftRecorded? && call.collected.Snapshot? && NewsFor(db, call.collected.columns))
  }

  lemma NewChannels(deliveries: seq<Delivery>, scan: nat, settings: Settings)
    requires forall d :: d in deliveries ==> d.scan < scan
    ensures AlertedChannels(deliveries + NewDeliveries(scan, EnabledChannels(settings)), scan) == Enabled(settings)
    ensures AlertedChannels(deliveries, scan) == {}
  {
    var channels := EnabledChannels(settings);
    var more := NewDeliveries(scan, channels);
    forall c | c in Enabled(settings) ensures c in AlertedChannels(deliveries + more, scan) {
      var i :| 0 <= i < |channels| && channels[i] == c;
      assert more[i] in deliveries + more && more[i].channel == c;
    }
  }

  lemma NewsIff(db: Db, observed: seq<ColumnDefinition>)
    ensures NewsFor(db, observed) <==>
      AnyAlertable(FreshChanges(DriftOf(db, observed), db.source, OpenFingerprints(db.changes)))
  {
    FreshChangesExact(DriftOf(db, observed), db.source, OpenFingerprints(db.changes));
  }

  lemma ScanDeliveries(db: Db, call: ScanCall)
    ensures var r := ScanRequest(db, call);
      r.db.deliveries == db.deliveries + (if MustAlert(db, call, r.outcome)
                                          then NewDeliveries(|db.scans|, EnabledChannels(call.settings)) else [])
  {
    if IsDriftCall(db, call) {
      DriftOutcome(db, call);
      NewsIff(db, call.collected.columns);
    }
  }

  /** The alerts a scan of this outcome owns. */
  ghost function ExpectedAlerts(db: Db, call: ScanCall, outcome: ScanOutcome): set<AlertChannel> {
    if MustAlert(db, call, outcome) then Enabled(call.settings) else {}
  }

  lemma ScanAlerts(db: Db, call: ScanCall)
    requires Inv(db)
    ensures var r := ScanRequest(db, call);
      AlertedChannels(r.db.deliveries, |db.scans|) == ExpectedAlerts(db, call, r.outcome)
  {
    NewChannels(db.deliveries, |db.scans|, call.settings);
    ScanDeliveries(db, call);
    assert db.deliveries + [] == db.deliveries;
  }

  lemma AlertsSettled(db: Db, later: Db, scan: nat)
    requires History(db, later) && scan < |db.scans|
    ensures AlertedChannels(later.deliveries, scan) == AlertedChannels(db.deliveries, scan)
  {
    forall c | c in AlertedChannels(later.deliveries, scan) ensures c in AlertedChannels(db.deliveries, scan) {
      var d :| d in later.deliveries && d.scan == scan && d.channel == c;
      var i :| 0 <= i < |later.deliveries| && later.deliveries[i] == d;
      assert d == later.deliveries[..|db.deliveries|][i];
      assert db.deliveries[i] in db.deliveries;
    }
    forall c | c in AlertedChannels(db.deliveries, scan) ensures c in AlertedChannels(later.deliveries, scan) {
      var d :| d in db.deliveries && d.scan == scan && d.channel == c;
      var i :| 0 <= i < |db.deliveries| && db.deliveries[i] == d;
      assert later.deliveries[..|db.deliveries|][i] in later.deliveries;
    }
  }

  predicate Committed(outcome: ScanOutcome) {
    outcome.BaselineCreated? || outcome.DriftRecorded? || outcome.FailureRecorded?
  }

  lemma CommittedAddsScan(db: Db, call: ScanCall)
    requires Committed(ScanRequest(db, call).outcome)
    ensures |ScanRequest(db, call).db.scans| == |db.scans| + 1
  {
    if IsDriftCall(db, call) {
      DriftOutcome(db, call);
    }
  }

  lemma AlertsAfter(w: World, call: ScanCall, outcome: ScanOutcome, scanned: World, rest: seq<Event>)
    requires Inv(w.db) && outcome == ScanRequest(w.db, call).outcome && Committed(outcome)
    requires scanned == w.(db := ScanRequest(w.db, call).db)
    ensures AlertedChannels(Run(scanned, rest).db.deliveries, |w.db.scans|) == ExpectedAlerts(w.db, call, outcome)
  {
    ScanKeepsInv(w.db, call);
    ScanAlerts(w.db, call);
    CommittedAddsScan(w.db, call);
    RunHistory(scanned, rest);
    AlertsSettled(scanned.db, Run(scanned, rest).db, |w.db.scans|);
  }

  /**
   At the end of any run, each scan committed on the way owns exactly the alerts its own diff
   or failure called for, one per enabled channel, whatever happened before or since.
   */
  lemma AlertsExactOverRuns(source: string, events: seq<Event>, call: ScanCall, rest: seq<Event>)
    ensures var before, outcome := After(source, events), ScanRequest(After(source, events), call).outcome;
      var final := After(source, events + [Scan(call)] + rest);
      DeliveriesOk(final.deliveries, |final.scans|) &&
      (Committed(outcome) ==>
        AlertedChannels(final.deliveries, |before.scans|) == ExpectedAlerts(before, call, outcome))
  {
    var w := Run(Fresh(source), events);
    var outcome := ScanRequest(w.db, call).outcome;
    EveryRunKeepsInv(source, events);
    EveryRunKeepsInv(source, events + [Scan(call)] + rest);
    RunConcat(Fresh(source), events, [Scan(call)]);
    ScannedWorld(w, call);
    RunConcat(Fresh(source), events + [Scan(call)], rest);
    if Committed(outcome) {
      AlertsAfter(w, call, outcome, Run(Fresh(source), events + [Scan(call)]), rest);
    }
  }

  // ---------- snapshots ----------

  /** The columns stored for one scan, in order. */
  function SnapshotOf(observations: seq<Observation>, scan: nat): seq<ColumnDefinition> {
    if observations == [] then [] else
    var n := |observations| - 1;
    SnapshotOf(observations[..n], scan) + (if observations[n].scan == scan then [observations[n].column] else [])
  }

  lemma {:induction false} SnapshotNone(observations: seq<Observation>, scan: nat)
    requires forall o :: o in observations ==> o.scan != scan
    ensures SnapshotOf(observations, scan) == []
  {
    if observations != [] {
      SnapshotNone(observations[..|observations| - 1], scan);
    }
  }

  lemma {:induction false} SnapshotConcat(a: seq<Observation>, b: seq<Observation>, scan: nat)
    ensures SnapshotOf(a + b, scan) == SnapshotOf(a, scan) + SnapshotOf(b, scan)
  {
    if b == [] {
      assert a + b == a;
    } else {
      var n := |b| - 1;
      assert (a + b)[..|a| + n] == a + b[..n];
      SnapshotConcat(a, b[..n], scan);
    }
  }

  lemma {:induction false} SnapshotAll(scan: nat, observed: seq<ColumnDefinition>)
    ensures SnapshotOf(Observations(scan, observed), scan) == observed
  {
    if observed != [] {
      var n := |observed| - 1;
      assert Observations(scan, observed)[..n] == Observations(scan, observed[..n]);
      SnapshotAll(scan, observed[..n]);
    }
  }

  /** What a committed scan of this outcome keeps of the snapshot. */
  function KeptSnapshot(call: ScanCall, outcome: ScanOutcome): seq<ColumnDefinition> {
    if call.collected.Snapshot? && !outcome.FailureRecorded? then call.collected.columns else []
  }

  lemma ScanSnapshot(db: Db, call: ScanCall)
    requires Committed(ScanRequest(db, call).outcome)
    ensures var r := ScanRequest(db, call);
      r.db.observations == db.observations + Observations(|db.scans|, KeptSnapshot(call, r.outcome))
  {
    if IsDriftCall(db, call) {
      DriftOutcome(db, call);
    }
  }

  /** Only the middle part is of scan n. */
  lemma SnapshotBetween(a: seq<Observation>, n: nat, kept: seq<ColumnDefinition>, later: seq<Observation>)
    requires forall o :: o in a || o in later ==> o.scan != n
    ensures SnapshotOf(a + Observations(n, kept) + later, n) == kept
  {
    SnapshotConcat(a + Observations(n, kept), later, n);
    SnapshotConcat(a, Observations(n, kept), n);
    SnapshotNone(a, n);
    SnapshotNone(later, n);
    SnapshotAll(n, kept);
  }

  lemma LaterObservations(db: Db, later: Db)
    requires History(db, later)
    ensures forall o :: o in later.observations[|db.observations|..] ==> o.scan >= |db.scans|
  {
  }

  lemma SnapshotSettled(db: Db, call: ScanCall, outcome: ScanOutcome, scanned: Db, final: Db)
    requires Inv(db) && History(scanned, final) && |scanned.scans| == |db.scans| + 1
    requires scanned.observations == db.observations + Observations(|db.scans|, KeptSnapshot(call, outcome))
    ensures SnapshotOf(final.observations, |db.scans|) == KeptSnapshot(call, outcome)
  {
    var later := final.observations[|scanned.observations|..];
    assert final.observations == scanned.observations + later;
    LaterObservations(scanned, final);
    SnapshotBetween(db.observations, |db.scans|, KeptSnapshot(call, outcome), later);
  }

  /** At the end of any run each committed scan still owns exactly the snapshot it was given; failed scans own none. */
  lemma SnapshotsKeptOverRuns(source: string, events: seq<Event>, call: ScanCall, rest: seq<Event>)
    requires Committed(ScanRequest(After(source, events), call).outcome)
    ensures var before := After(source, events);
      SnapshotOf(After(source, events + [Scan(call)] + rest).observations, |before.scans|)
        == KeptSnapshot(call, ScanRequest(before, call).outcome)
  {
    var w := Run(Fresh(source), events);
    var outcome, scanned := ScanRequest(w.db, call).outcome, Run(Fresh(source), events + [Scan(call)]);
    EveryRunKeepsInv(source, events);
    EveryRunKeepsInv(source, events + [Scan(call)]);
    RunConcat(Fresh(source), events, [Scan(call)]);
    ScannedWorld(w, call);
    RunConcat(Fresh(source), events + [Scan(call)], rest);
    ScanSnapshot(w.db, call);
    CommittedAddsScan(w.db, call);
    RunHistory(scanned, rest);
    SnapshotSettled(w.db, call, outcome, scanned.db, Run(scanned, rest).db);
  }

  /** Past the first n rows there is an OPEN one for this change. */
  ghost predicate Opened(source: string, n: nat, rows: seq<ChangeRow>, c: SchemaChange) {
    exists j :: n <= j < |rows| && rows[j].state.Open? && Describes(source, rows[j], c)
  }

  /** One side of a stored row holds the type, nullability, default and ordinal of this column. */
  predicate SameSide(p: Option<ColumnPayload>, d: Option<ColumnDefinition>) {
    (p.Some? <==> d.Some?) &&
    (p.Some? ==> p.value.dataType == d.value.dataType && p.value.nullable == d.value.nullable &&
                 p.value.default == d.value.default && p.value.ordinal == d.value.ordinal)
  }

  /** The row has the severity of the change and the same data on both sides. */
  predicate SameFacts(r: ChangeRow, c: SchemaChange) {
    r.severity == c.severity && SameSide(r.before, c.before) && SameSide(r.after, c.after)
  }

  lemma SameFactsIff(source: string, r: ChangeRow, c: SchemaChange)
    requires r.fingerprint == RowFingerprint(source, r) && OwnPayloads(r)
    requires r.Ref() == c.Ref() && r.changeType == c.changeType
    requires (c.before.Some? ==> c.before.value.Ref() == c.Ref()) && (c.after.Some? ==> c.after.value.Ref() == c.Ref())
    ensures r.fingerprint == ChangeFingerprint(source, c) <==> SameFacts(r, c)
  {
  }

  /**
   Deduplication is up to severity, type, nullability, default and ordinal on both sides.
   When a scan reports a change for the column and kind of an OPEN row, the row stays, and no
   row is added for the change, if all of these agree.  If any has moved, the row is RESOLVED
   and another one opened.
   */
  lemma RowStaysOpenIff(source: string, events: seq<Event>, call: ScanCall, i: nat, c: SchemaChange)
    requires DistinctlyNamed(events + [Scan(call)]) && IsDriftCall(After(source, events), call)
    requires ObservedRegistered(After(source, events), call.collected.columns)
    requires c in DriftOf(After(source, events), call.collected.columns)
    requires i < |After(source, events).changes| && After(source, events).changes[i].state.Open?
    requires After(source, events).changes[i].Ref() == c.Ref()
    requires After(source, events).changes[i].changeType == c.changeType
    ensures var db, after := After(source, events), ScanRequest(After(source, events), call).db;
      i < |db.changes| <= |after.changes| &&
      (after.changes[i].state.Open? <==> SameFacts(db.changes[i], c)) &&
      if SameFacts(db.changes[i], c) then
        after.changes[i] == db.changes[i] &&
        forall j :: |db.changes| <= j < |after.changes| ==> !Describes(source, after.changes[j], c)
      else
        after.changes[i].state.Resolved? &&
        Opened(source, |db.changes|, after.changes, c)
  {
    var db := After(source, events);
    ReachedReady(source, events, call);
    SourceStays(source, events);
    DriftCommitsIff(db, call);
    DriftSides(db, call, c);
    assert db.changes[i] in db.changes;
    SameFactsIff(source, db.changes[i], c);
    if SameFacts(db.changes[i], c) {
      KnownChange(db, call, i, c);
    } else {
      MovedChange(db, call, i, c);
    }
  }

  lemma DriftSides(db: Db, call: ScanCall, c: SchemaChange)
    requires TablesOk(db) && IsDriftCall(db, call) && c in DriftOf(db, call.collected.columns)
    ensures (c.before.Some? ==> c.before.value.Ref() == c.Ref()) && (c.after.Some? ==> c.after.value.Ref() == c.Ref())
  {
    SnapshotKeyed(call.collected.columns);
    DiffMember(db.expected, RefMap(call.collected.columns), Dependencies(db), c);
  }

  /** The OPEN row has the fingerprint of the change: it stays, and nothing is added for the change. */
  lemma KnownChange(db: Db, call: ScanCall, i: nat, c: SchemaChange)
    requires IsDriftCall(db, call) && c in DriftOf(db, call.collected.columns)
    requires i < |db.changes| && db.changes[i].state.Open?
    requires db.changes[i].fingerprint == ChangeFingerprint(db.source, c)
    ensures i < |RowsAfter(db, call)| && RowsAfter(db, call)[i] == db.changes[i]
    ensures forall j :: |db.changes| <= j < |RowsAfter(db, call)| ==> !Describes(db.source, RowsAfter(db, call)[j], c)
  {
    var changes := DriftOf(db, call.collected.columns);
    ReconciledOld(db.changes, changes, db.source, |db.scans|, db.version, call.finishedAt, i);
    OpenFingerprint(db.changes, i);
    forall j | |db.changes| <= j < |RowsAfter(db, call)| ensures !Describes(db.source, RowsAfter(db, call)[j], c) {
      ReconciledNew(db.changes, changes, db.source, |db.scans|, db.version, call.finishedAt, j);
    }
  }

  /** The OPEN row has another fingerprint: it is RESOLVED, and a row is added for the change. */
  lemma MovedChange(db: Db, call: ScanCall, i: nat, c: SchemaChange)
    requires PlainInv(db) && IsDriftCall(db, call) && Unambiguous(db.datasets, call.collected.columns)
    requires c in DriftOf(db, call.collected.columns) && i < |db.changes| && db.changes[i].state.Open?
    requires db.changes[i].Ref() == c.Ref() && db.changes[i].changeType == c.changeType
    requires db.changes[i].fingerprint != ChangeFingerprint(db.source, c)
    ensures i < |RowsAfter(db, call)| && RowsAfter(db, call)[i].state.Resolved?
    ensures Opened(db.source, |db.changes|, RowsAfter(db, call), c)
  {
    var changes := DriftOf(db, call.collected.columns);
    NoOtherRow(db, call, i, c);
    GoneFromDiff(db, call, i, c);
    ReconciledOld(db.changes, changes, db.source, |db.scans|, db.version, call.finishedAt, i);
    var j := NewRowFor(db, call, c);
  }

  lemma NoOtherRow(db: Db, call: ScanCall, i: nat, c: SchemaChange)
    requires PlainInv(db) && IsDriftCall(db, call) && Unambiguous(db.datasets, call.collected.columns)
    requires c in DriftOf(db, call.collected.columns) && i < |db.changes| && db.changes[i].state.Open?
    requires db.changes[i].Ref() == c.Ref() && db.changes[i].changeType == c.changeType
    requires db.changes[i].fingerprint != ChangeFingerprint(db.source, c)
    ensures ChangeFingerprint(db.source, c) !in OpenFingerprints(db.changes)
  {
    var names := db.datasets + SnapshotDatasets(call.collected.columns);
    if ChangeFingerprint(db.source, c) in OpenFingerprints(db.changes) {
      var k := OpenRowOf(db.changes, ChangeFingerprint(db.source, c));
      assert db.changes[k] in db.changes;
      DriftNames(db, call.collected.columns);
      FingerprintIdentifies(db.source, names, db.changes[k], c);
      assert Conflicting(db.changes[i], db.changes[k]);
    }
  }

  lemma GoneFromDiff(db: Db, call: ScanCall, i: nat, c: SchemaChange)
    requires TablesOk(db) && IsDriftCall(db, call) && Unambiguous(db.datasets, call.collected.columns)
    requires c in DriftOf(db, call.collected.columns) && i < |db.changes| && db.changes[i].state.Open?
    requires db.changes[i].Ref() == c.Ref() && db.changes[i].changeType == c.changeType
    requires db.changes[i].fingerprint != ChangeFingerprint(db.source, c)
    ensures db.changes[i].fingerprint !in Fingerprints(DriftOf(db, call.collected.columns), db.source)
  {
    var observed, f := call.collected.columns, db.changes[i].fingerprint;
    var changes := DriftOf(db, observed);
    if f in Fingerprints(changes, db.source) {
      var e :| e in changes && ChangeFingerprint(db.source, e) == f;
      assert db.changes[i] in db.changes;
      DriftNames(db, observed);
      FingerprintIdentifies(db.source, db.datasets + SnapshotDatasets(observed), db.changes[i], e);
      SameKeySameChange(db, observed, c, e);
    }
  }

  lemma SameKeySameChange(db: Db, observed: seq<ColumnDefinition>, c: SchemaChange, e: SchemaChange)
    requires WellKeyed(db.expected) && c in DriftOf(db, observed) && e in DriftOf(db, observed)
    requires c.Ref() == e.Ref() && c.changeType == e.changeType
    ensures c == e
  {
    SnapshotKeyed(observed);
    DiffExact(db.expected, RefMap(observed), Dependencies(db));
    StrictlyAscendingFacts(DriftOf(db, observed), ChangeKey);
  }

  /** A change whose row left OPEN and which shows up again opens a new row and alerts again. */
  lemma RecurringChangeAlertsAgain(source: string, events: seq<Event>, call: ScanCall, i: nat, c: SchemaChange)
    requires DistinctlyNamed(events + [Scan(call)]) && IsDriftCall(After(source, events), call)
    requires ObservedRegistered(After(source, events), call.collected.columns)
    requires c in DriftOf(After(source, events), call.collected.columns) && !c.severity.Info?
    requires i < |After(source, events).changes| && !After(source, events).changes[i].state.Open?
    requires After(source, events).changes[i].fingerprint == ChangeFingerprint(source, c)
    requires ChangeFingerprint(source, c) !in OpenFingerprints(After(source, events).changes)
    ensures var db := After(source, events);
      var after := ScanRequest(db, call).db;
      AlertedChannels(after.deliveries, |db.scans|) == Enabled(call.settings) &&
      i < |after.changes| && after.changes[i] == db.changes[i] &&
      Opened(source, |db.changes|, after.changes, c)
  {
    var db := After(source, events);
    ReachedReady(source, events, call);
    SourceStays(source, events);
    DriftCommitsIff(db, call);
    ScanAlerts(db, call);
    RowsAfterMirror(db, call);
    var changes := DriftOf(db, call.collected.columns);
    ReconciledEvolves(db.changes, changes, db.source, |db.scans|, db.version, call.finishedAt);
    var j := NewRowFor(db, call, c);
  }

  lemma NewRowFor(db: Db, call: ScanCall, c: SchemaChange) returns (j: nat)
    requires call.collected.Snapshot? && c in DriftOf(db, call.collected.columns)
    requires ChangeFingerprint(db.source, c) !in OpenFingerprints(db.changes)
    ensures |db.changes| <= j < |RowsAfter(db, call)|
    ensures RowsAfter(db, call)[j].state.Open? && Describes(db.source, RowsAfter(db, call)[j], c)
  {
    j := AddedRow(db.changes, DriftOf(db, call.collected.columns), db.source, |db.scans|, db.version, call.finishedAt,
                  c);
  }

  lemma AddedRow(rows: seq<ChangeRow>, changes: seq<SchemaChange>, source: string, scan: nat, version: int, now: int,
                 c: SchemaChange)
    returns (j: nat)
    requires c in changes && ChangeFingerprint(source, c) !in OpenFingerprints(rows)
    ensures |rows| <= j < |Reconciled(rows, changes, source, scan, version, now)|
    ensures Reconciled(rows, changes, source, scan, version, now)[j] == NewRow(c, scan, version, source)
  {
    var added := FreshChanges(changes, source, OpenFingerprints(rows));
    FreshChangesExact(changes, source, OpenFingerprints(rows));
    var k :| 0 <= k < |added| && added[k] == c;
    j := |rows| + k;
  }

  // ---------- the outbox over runs ----------

  ghost predicate WorldFaithful(w: World) {
    Faithful(Outbox(w.db.deliveries, w.log))
  }

  /** A dispatch finds a working sender for each pending row of its scan, or none for the first. */
  ghost predicate SendersFound(w: World, e: Event) {
    var o := Outbox(w.db.deliveries, w.log);
    e.Dispatch? ==> Configured(o, e.scan, e.senders) || BlockedAtOnce(o, e.scan, e.senders)
  }

  /** So does every dispatch of the run. */
  ghost predicate WellConfigured(w: World, events: seq<Event>)
    decreases |events|
  {
    events == [] || (SendersFound(w, events[0]) && WellConfigured(Step(w, events[0]), events[1..]))
  }

  lemma {:induction false} LogOfNone(log: seq<Send>, id: nat)
    requires forall x :: x in log ==> x.delivery < id
    ensures LogOf(log, id) == []
  {
    if log != [] {
      LogOfNone(log[..|log| - 1], id);
    }
  }

  lemma NewRowsFaithful(deliveries: seq<Delivery>, log: seq<Send>, scan: nat, channels: seq<AlertChannel>)
    requires Faithful(Outbox(deliveries, log))
    ensures Faithful(Outbox(deliveries + NewDeliveries(scan, channels), log))
  {
    var all := deliveries + NewDeliveries(scan, channels);
    forall id | 0 <= id < |all| ensures Reflects(all[id], LogOf(log, id)) {
      if id >= |deliveries| {
        LogOfNone(log, id);
      }
    }
  }

  lemma ScanFaithful(w: World, call: ScanCall)
    requires WorldFaithful(w)
    ensures Faithful(Outbox(ScanRequest(w.db, call).db.deliveries, w.log))
  {
    ScanDeliveries(w.db, call);
    NewRowsFaithful(w.db.deliveries, w.log, |w.db.scans|, EnabledChannels(call.settings));
    assert w.db.deliveries + [] == w.db.deliveries;
  }

  lemma StepFaithful(w: World, e: Event)
    requires WorldFaithful(w) && SendersFound(w, e)
    ensures WorldFaithful(Step(w, e))
  {
    var o := Outbox(w.db.deliveries, w.log);
    match e {
      case Scan(call) => ScanFaithful(w, call);
      case Accept(_, _, _) =>
      case Sync(_) =>
      case Dispatch(scan, s) => DispatchFaithfulIff(o, scan, s);
      case Retry(id, s) => RetryFaithful(o, id, s);
    }
  }

  lemma StepKeepsExcess(w: World, e: Event)
    requires Excess(Outbox(w.db.deliveries, w.log))
    ensures Excess(Outbox(Step(w, e).db.deliveries, Step(w, e).log))
  {
    var o, after := Outbox(w.db.deliveries, w.log), Step(w, e);
    match e {
      case Scan(call) =>
        ScanDeliveries(w.db, call);
        var k :| 0 <= k < |o.deliveries| && |LogOf(o.log, k)| > o.deliveries[k].attemptCount;
        assert |LogOf(after.log, k)| > after.db.deliveries[k].attemptCount;
      case Accept(_, _, _) =>
      case Sync(_) =>
      case Dispatch(scan, s) => DispatchKeepsExcess(o, scan, s);
      case Retry(id, s) =>
        if Attempt(o, id, s).Ok? { AttemptKeepsExcess(o, id, s); }
    }
  }

  lemma {:induction false} RunKeepsExcess(w: World, events: seq<Event>)
    requires Excess(Outbox(w.db.deliveries, w.log))
    ensures Excess(Outbox(Run(w, events).db.deliveries, Run(w, events).log))
    decreases |events|
  {
    if events != [] {
      StepKeepsExcess(w, events[0]);
      RunKeepsExcess(Step(w, events[0]), events[1..]);
    }
  }

  lemma {:induction false} RunFaithfulIff(w: World, events: seq<Event>)
    requires WorldFaithful(w)
    ensures WorldFaithful(Run(w, events)) <==> WellConfigured(w, events)
    decreases |events|
  {
    if events != [] {
      var e, o := events[0], Outbox(w.db.deliveries, w.log);
      if SendersFound(w, e) {
        StepFaithful(w, e);
        RunFaithfulIff(Step(w, e), events[1..]);
      } else {
        RollbackLosesRecord(o, e.scan, e.senders);
        RunKeepsExcess(Step(w, e), events[1..]);
        if WorldFaithful(Run(w, events)) {
          FaithfulHasNoExcess(Outbox(Run(w, events).db.deliveries, Run(w, events).log));
        }
      }
    }
  }

  /**
   At the end of a run rows and sends agree exactly when every dispatch found its senders: what
   one of them failed to record stays lost.
   */
  lemma SendsRecordedIff(source: string, events: seq<Event>)
    ensures WorldFaithful(Run(Fresh(source), events)) <==> WellConfigured(Fresh(source), events)
  {
    RunFaithfulIff(Fresh(source), events);
  }

  /**
   Over any run of scans, acceptances, dispatches and retries in which dispatches find their
   senders: the attempt count of a delivery is the number of sends made for it, never more
   than three, and a failed first or second send is followed no sooner than 60 or 300 seconds.
   */
  lemma SendsBoundedOverRuns(source: string, events: seq<Event>, id: nat)
    requires WellConfigured(Fresh(source), events) && id < |After(source, events).deliveries|
    ensures var w := Run(Fresh(source), events);
      Reflects(w.db.deliveries[id], LogOf(w.log, id)) &&
      |LogOf(w.log, id)| == w.db.deliveries[id].attemptCount <= 3
  {
    RunFaithfulIff(Fresh(source), events);
  }

  /**
   After any such run a retry makes one more send exactly when the sends so far allow it and the
   delivery has a working sender; otherwise it changes nothing.
   */
  lemma RetrySendsIff(source: string, events: seq<Event>, id: nat, s: Senders)
    requires WellConfigured(Fresh(source), events) && id < |After(source, events).deliveries|
    ensures var w := Run(Fresh(source), events);
      var after := Step(w, Retry(id, s));
      if MaySend(LogOf(w.log, id), s.now) && CanSend(w.db.deliveries[id], id, s)
      then LogOf(after.log, id) == LogOf(w.log, id) + [Send(id, s.now, id in s.succeeding)]
      else after == w
  {
    var w := Run(Fresh(source), events);
    var d := w.db.deliveries[id];
    RunFaithfulIff(Fresh(source), events);
    assert Reflects(d, LogOf(w.log, id));
    AttemptAllowedIff(d, LogOf(w.log, id), d.channel in s.notifiers, id in s.raising, s.now, id in s.succeeding);
    LogOfAppend(w.log, Send(id, s.now, id in s.succeeding), id);
  }
}
