/** Persistence of scans, row by row, and the scan service that drives it. */
module ScanRepository {
  import opened Options
  import opened Models
  import opened Diff
  import opened Database
  import opened Reconciliation
  import opened Sessions

  datatype ScanException =
    | SourceNotFound
    | EmptySchemaSnapshot
    | ConnectionFailed(name: string)
    | CollectorRaised
    | BaselineDatasetMissing
    | IntegrityError

  datatype ScanReport = ScanReport(scan: nat, baselineCreated: bool, observedCount: nat, changes: seq<SchemaChange>)

  class SqlAlchemyScanRepository {
    const session: Session
    const settings: Settings

    constructor (session: Session, settings: Settings)
      ensures this.session == session && this.settings == settings
    {
      this.session, this.settings := session, settings;
    }

    method CreateRunningScan(sourceKey: string, trigger: ScanTrigger, startedAt: int)
      returns (r: Result<nat, ScanException>)
      modifies session
      ensures session.committed == old(session.committed)
      ensures if sourceKey != session.source then r == Err(SourceNotFound) && session.State() == old(session.State())
              else
                r == Ok(|old(session.scans)|) && session.State() == StartScan(old(session.State()), trigger, startedAt)
    {
      if sourceKey != session.source {
        return Err(SourceNotFound);
      }
      session.scans := session.scans + [ScanRow(trigger, Running, startedAt, None, None, None)];
      return Ok(|session.scans| - 1);
    }

    /** The baseline rows; the query's order is not relied on. */
    method LoadExpectedColumns() returns (rows: seq<ColumnDefinition>)
      requires WellKeyed(session.expected)
      ensures RefMap(rows) == session.expected && (rows == [] <==> session.expected == map[])
    {
      rows := [];
      var pending := session.expected.Keys;
      while pending != {}
        invariant pending <= session.expected.Keys
        invariant RefMap(rows) == session.expected - pending
        decreases pending
      {
        var r :| r in pending;
        RefMapAppend(rows, session.expected[r]);
        rows := rows + [session.expected[r]];
        pending := pending - {r};
      }
      assert session.expected - pending == session.expected;
      assert rows != [] ==> rows[|rows| - 1].Ref() in RefMap(rows);
    }

    method LoadDependencyColumns() returns (refs: seq<ColumnRef>)
      ensures forall r :: r in refs <==> exists e :: e in session.edges && e.upstream == r
      ensures (set r | r in refs) == Dependencies(session.State())
    {
      refs := [];
      for i := 0 to |session.edges|
        invariant forall r :: r in refs <==> exists k :: 0 <= k < i && session.edges[k].upstream == r
      {
        refs := refs + [session.edges[i].upstream];
      }
      forall r ensures r in refs <==> r in Dependencies(session.State()) {
        if r in Dependencies(session.State()) {
          var e :| e in session.edges && e.upstream == r;
          var k :| 0 <= k < |session.edges| && session.edges[k] == e;
        }
      }
    }

    method CompleteInitialBaseline(scan: nat, observed: seq<ColumnDefinition>, finishedAt: int)
      returns (r: Result<(), ScanException>)
      requires scan < |session.scans|
      modifies session
      ensures session.committed == old(session.committed) && |session.scans| == |old(session.scans)|
      ensures match InitialBaseline(old(session.State()), scan, observed, finishedAt)
              case None => r == Err(IntegrityError)
              case Some(done) => r == Ok(()) && session.State() == done
    {
      var violated := AddBaselineRows(observed);
      session.observations := session.observations + Observations(scan, observed);
      session.scans := session.scans[scan := CompleteRow(session.scans[scan], finishedAt)];
      if violated {
        return Err(IntegrityError);
      }
      return Ok(());
    }

    /** The loop over the snapshot: registers tables and adds baseline rows. */
    method AddBaselineRows(observed: seq<ColumnDefinition>) returns (violated: bool)
      modifies session`datasets, session`expected
      ensures session.datasets == old(session.datasets) + (set c | c in observed :: c.dataset)
      ensures session.expected == old(session.expected) + RefMap(observed)
      ensures violated <==> !NewDistinct(observed, old(session.expected))
    {
      violated := false;
      for i := 0 to |observed|
        invariant Added(old(session.datasets), old(session.expected), observed[..i], session.datasets, session.expected)
        invariant violated <==> !NewDistinct(observed[..i], old(session.expected))
      {
        var column := observed[i];
        assert observed[..i + 1] == observed[..i] + [column];
        AddedAppend(old(session.datasets), old(session.expected), observed[..i], column);
        NewDistinctAppend(observed[..i], column, old(session.expected));
        if column.dataset !in session.datasets {
          session.datasets := session.datasets + {column.dataset};
        }
        if column.Ref() in session.expected {
          violated := true;
        }
        session.expected := session.expected[column.Ref() := column];
      }
      assert observed[..|observed|] == observed;
    }

    method CreatePendingDeliveries(scan: nat)
      modifies session`deliveries
      ensures session.deliveries == old(session.deliveries) + NewDeliveries(scan, EnabledChannels(settings))
    {
      session.deliveries := session.deliveries + NewDeliveries(scan, EnabledChannels(settings));
    }

    method FailScan(scan: nat, errorCode: string, finishedAt: int)
      requires scan < |session.scans|
      modifies session
      ensures session.committed == old(session.committed)
      ensures session.State() == Database.FailScan(old(session.State()), scan, errorCode, settings, finishedAt)
    {
      session.scans := session.scans[scan := FailRow(session.scans[scan], errorCode, finishedAt)];
      CreatePendingDeliveries(scan);
    }

    /** The dictionary of OPEN rows by fingerprint. */
    method OpenChanges() returns (open: map<Fingerprint, nat>)
      requires UniqueOpen(session.changes)
      ensures Indexes(session.changes, open)
    {
      open := map[];
      for i := 0 to |session.changes|
        invariant forall f :: f in open ==>
          open[f] < i && session.changes[open[f]].state.Open? && session.changes[open[f]].fingerprint == f
        invariant forall k :: 0 <= k < i && session.changes[k].state.Open? ==>
          session.changes[k].fingerprint in open && open[session.changes[k].fingerprint] == k
      {
        if session.changes[i].state.Open? {
          open := open[session.changes[i].fingerprint := i];
        }
      }
    }

    method CompleteDriftScan(scan: nat, observed: seq<ColumnDefinition>, changes: seq<SchemaChange>, finishedAt: int)
      returns (r: Result<(), ScanException>)
      requires scan < |session.scans| && UniqueOpen(session.changes)
      modifies session
      ensures session.committed == old(session.committed) && |session.scans| == |old(session.scans)|
      ensures match DriftScan(old(session.State()), scan, observed, changes, settings, finishedAt)
              case Err(DatasetNotRegistered) => r == Err(BaselineDatasetMissing)
              case Err(UniqueViolation) => r == Err(IntegrityError)
              case Ok(done) => r == Ok(()) && session.State() == done
      ensures r.Ok? ==>
        session.deliveries == old(session.deliveries) +
          (if HasNews(changes, session.source, old(session.changes))
           then NewDeliveries(scan, EnabledChannels(settings)) else [])
    {
      ghost var before := session.changes;
      FreshNews(changes, session.source, before);
      session.observations := session.observations + Observations(scan, observed);
      var alert, missing := Reconcile(scan, changes, finishedAt);
      if missing {
        return Err(BaselineDatasetMissing);
      }
      if alert {
        CreatePendingDeliveries(scan);
      }
      session.scans := session.scans[scan := CompleteRow(session.scans[scan], finishedAt)];
      if !UniqueOpen(session.changes) {
        return Err(IntegrityError);
      }
      return Ok(());
    }

    /** Both loops over the change table. */
    method Reconcile(scan: nat, changes: seq<SchemaChange>, finishedAt: int) returns (alert: bool, missing: bool)
      requires UniqueOpen(session.changes)
      modifies session`changes
      ensures var added := FreshChanges(changes, session.source, OpenFingerprints(old(session.changes)));
        missing == !Registered(added, session.datasets) && (missing || alert == AnyAlertable(added))
      ensures missing || session.changes ==
        Reconciled(old(session.changes), changes, session.source, scan, session.version, finishedAt)
    {
      var openChanges := OpenChanges();
      IndexedFingerprints(session.changes, openChanges);
      ghost var before := session.changes;
      var active;
      active, alert, missing := AddRows(scan, changes, openChanges.Keys);
      if !missing {
        ResolveRows(openChanges, active, finishedAt, before);
      }
    }

    /** The loop over the diff: collects fingerprints and adds a row for each change not OPEN yet. */
    method AddRows(scan: nat, changes: seq<SchemaChange>, open: set<Fingerprint>)
      returns (active: set<Fingerprint>, alert: bool, missing: bool)
      modifies session`changes
      ensures missing <==> !Registered(FreshChanges(changes, session.source, open), session.datasets)
      ensures !missing ==>
        active == Fingerprints(changes, session.source) &&
        alert == AnyAlertable(FreshChanges(changes, session.source, open)) &&
        session.changes ==
          old(session.changes) + NewRows(FreshChanges(changes, session.source, open), scan, session.version,
            session.source)
    {
      active, alert := {}, false;
      for i := 0 to |changes|
        invariant Progress(changes[..i], session.source, open, session.datasets, scan, session.version,
                           active, alert, old(session.changes), session.changes)
      {
        var change := changes[i];
        var fingerprint := ChangeFingerprint(session.source, change);
        assert changes[..i + 1] == changes[..i] + [change];
        ProgressStep(changes[..i], change, session.source, open, session.datasets, scan, session.version,
                     active, alert, old(session.changes), session.changes);
        active := active + {fingerprint};
        if fingerprint in open {
          continue;
        }
        if change.severity.Warning? || change.severity.Breaking? {
          alert := true;
        }
        if change.dataset !in session.datasets {
          FreshPrefix(changes, i, session.source, open);
          return active, alert, true;
        }
        session.changes := session.changes + [NewRow(change, scan, session.version, session.source)];
      }
      assert changes[..|changes|] == changes;
      missing := false;
    }

    /** The loop over the OPEN rows: those no longer reported become RESOLVED. */
    method ResolveRows(open: map<Fingerprint, nat>, active: set<Fingerprint>, finishedAt: int,
                       ghost before: seq<ChangeRow>)
      requires Indexes(before, open) && before <= session.changes
      modifies session`changes
      ensures session.changes == ResolveGone(before, active, finishedAt) + old(session.changes)[|before|..]
    {
      var pending := open.Keys;
      while pending != {}
        invariant pending <= open.Keys && |session.changes| == |old(session.changes)|
        invariant forall k :: |before| <= k < |session.changes| ==> session.changes[k] == old(session.changes)[k]
        invariant forall k :: 0 <= k < |before| ==>
          (session.changes[k] == if before[k].state.Open? && before[k].fingerprint in pending then before[k]
                                 else ResolveIfGone(before[k], active, finishedAt))
        decreases pending
      {
        var f :| f in pending;
        pending := pending - {f};
        var k := open[f];
        if f !in active {
          session.changes := session.changes[k := session.changes[k].(state := Resolved,
            resolvedAt := Some(finishedAt))];
        }
      }
    }
  }

  /** A WARNING or BREAKING change whose fingerprint no OPEN row carries. */
  ghost predicate HasNews(changes: seq<SchemaChange>, source: string, rows: seq<ChangeRow>) {
    exists c :: c in changes && (c.severity.Warning? || c.severity.Breaking?) &&
      forall r :: r in rows && r.state.Open? ==> r.fingerprint != ChangeFingerprint(source, c)
  }

  lemma FreshNews(changes: seq<SchemaChange>, source: string, rows: seq<ChangeRow>)
    ensures HasNews(changes, source, rows) <==> AnyAlertable(FreshChanges(changes, source, OpenFingerprints(rows)))
  {
    FreshChangesExact(changes, source, OpenFingerprints(rows));
  }

  /** The dictionary maps each OPEN fingerprint to its row. */
  ghost predicate Indexes(rows: seq<ChangeRow>, open: map<Fingerprint, nat>) {
    (forall f :: f in open ==> open[f] < |rows| && rows[open[f]].state.Open? && rows[open[f]].fingerprint == f) &&
    (forall k :: 0 <= k < |rows| && rows[k].state.Open? ==>
      rows[k].fingerprint in open && open[rows[k].fingerprint] == k)
  }

  lemma IndexedFingerprints(rows: seq<ChangeRow>, open: map<Fingerprint, nat>)
    requires Indexes(rows, open)
    ensures open.Keys == OpenFingerprints(rows)
  {
    forall f | f in open ensures f in OpenFingerprints(rows) {
      OpenFingerprint(rows, open[f]);
    }
    forall f | f in OpenFingerprints(rows) ensures f in open {
      var i := OpenRowOf(rows, f);
    }
  }

  lemma FreshPrefix(changes: seq<SchemaChange>, i: nat, source: string, open: set<Fingerprint>)
    requires i < |changes| && ChangeFingerprint(source, changes[i]) !in open
    ensures changes[i] in FreshChanges(changes, source, open)
  {
    FreshChangesExact(changes, source, open);
  }

  lemma FreshAppend(changes: seq<SchemaChange>, c: SchemaChange, source: string, open: set<Fingerprint>,
                    datasets: set<DatasetRef>)
    ensures Fingerprints(changes + [c], source) == Fingerprints(changes, source) + {ChangeFingerprint(source, c)}
    ensures var front, all := FreshChanges(changes, source, open), FreshChanges(changes + [c], source, open);
      if ChangeFingerprint(source, c) in open then all == front
      else
        all == front + [c] && AnyAlertable(all) == (AnyAlertable(front) || Alertable(c)) &&
        Registered(all, datasets) == (Registered(front, datasets) && c.dataset in datasets)
  {
    assert (changes + [c])[..|changes|] == changes;
    assert forall x :: x in changes + [c] <==> x in changes || x == c;
    var front := FreshChanges(changes, source, open);
    assert forall x :: x in front + [c] <==> x in front || x == c;
  }

  /** Where the loop over the diff stands after some changes. */
  ghost predicate Progress(changes: seq<SchemaChange>, source: string, open: set<Fingerprint>,
                           datasets: set<DatasetRef>, scan: nat, version: int,
                           active: set<Fingerprint>, alert: bool, before: seq<ChangeRow>, rows: seq<ChangeRow>)
  {
    var added := FreshChanges(changes, source, open);
    active == Fingerprints(changes, source) && alert == AnyAlertable(added) && Registered(added, datasets) &&
    rows == before + NewRows(added, scan, version, source)
  }

  lemma ProgressStep(changes: seq<SchemaChange>, c: SchemaChange, source: string, open: set<Fingerprint>,
                     datasets: set<DatasetRef>, scan: nat, version: int,
                     active: set<Fingerprint>, alert: bool, before: seq<ChangeRow>, rows: seq<ChangeRow>)
    requires Progress(changes, source, open, datasets, scan, version, active, alert, before, rows)
    ensures var f := ChangeFingerprint(source, c);
      if f in open then Progress(changes + [c], source, open, datasets, scan, version, active + {f}, alert, before,
        rows)
      else c.dataset in datasets ==>
        Progress(changes + [c], source, open, datasets, scan, version, active + {f}, alert || Alertable(c), before,
                 rows + [NewRow(c, scan, version, source)])
  {
    FreshAppend(changes, c, source, open, datasets);
    NewRowsAppend(FreshChanges(changes, source, open), c, scan, version, source);
  }

  lemma NewRowsAppend(added: seq<SchemaChange>, c: SchemaChange, scan: nat, version: int, source: string)
    ensures NewRows(added + [c], scan, version, source) ==
      NewRows(added, scan, version, source) + [NewRow(c, scan, version, source)]
  {
  }

  lemma RefMapAppend(columns: seq<ColumnDefinition>, c: ColumnDefinition)
    ensures RefMap(columns + [c]) == RefMap(columns)[c.Ref() := c]
  {
    assert (columns + [c])[..|columns|] == columns;
  }

  /** Tables and baseline after storing some columns. */
  ghost predicate Added(datasets: set<DatasetRef>, expected: Columns, observed: seq<ColumnDefinition>,
                        datasets': set<DatasetRef>, expected': Columns) {
    datasets' == datasets + (set c | c in observed :: c.dataset) && expected' == expected + RefMap(observed)
  }

  lemma AddedAppend(datasets: set<DatasetRef>, expected: Columns, observed: seq<ColumnDefinition>, c: ColumnDefinition)
    ensures datasets + (set x | x in observed + [c] :: x.dataset) ==
      datasets + (set x | x in observed :: x.dataset) + {c.dataset}
    ensures expected + RefMap(observed + [c]) == (expected + RefMap(observed))[c.Ref() := c]
  {
    RefMapAppend(observed, c);
    assert forall x :: x in observed + [c] <==> x in observed || x == c;
  }

  /** Storing these columns violates no unique constraint. */
  predicate NewDistinct(observed: seq<ColumnDefinition>, expected: Columns) {
    DistinctRefs(observed) && forall i :: 0 <= i < |observed| ==> observed[i].Ref() !in expected
  }

  lemma NewDistinctAppend(observed: seq<ColumnDefinition>, c: ColumnDefinition, expected: Columns)
    ensures NewDistinct(observed + [c], expected) <==>
      NewDistinct(observed, expected) && c.Ref() !in expected + RefMap(observed)
  {
    var all := observed + [c];
    RefMapFacts(observed);
    if NewDistinct(all, expected) {
      assert forall i :: 0 <= i < |observed| ==> all[i] == observed[i];
      assert all[|observed|] == c;
    }
  }

  // ---------- service and request ----------

  /** The exceptions after which the request handler commits the FAILED scan. */
  predicate KeepsRecord(e: ScanException) {
    e.EmptySchemaSnapshot? || e.ConnectionFailed?
  }

  /** The report of a committed scan: its id, whether it created the baseline, and the drift it found. */
  ghost predicate Reports(report: ScanReport, db: Db, call: ScanCall) {
    call.collected.Snapshot? && report.scan == |db.scans| && report.observedCount == |call.collected.columns| &&
    (report.baselineCreated <==> db.expected == map[]) &&
    report.changes == if db.expected == map[] then [] else DriftOf(db, call.collected.columns)
  }

  /** Why a scan rolls back. */
  ghost predicate Refuses(e: ScanException, db: Db, call: ScanCall) {
    match call.collected
    case SourceDown(_) => false
    case CollectorBug => e == CollectorRaised
    case Snapshot(observed) =>
      if db.expected == map[] then e == IntegrityError && !DistinctRefs(observed)
      else if exists c :: c in AddedBy(db, call) && c.dataset !in db.datasets then e == BaselineDatasetMissing
      else e == IntegrityError && !DistinctFingerprints(AddedBy(db, call), db.source)
  }

  lemma RefusedDrift(db: Db, call: ScanCall)
    requires UniqueOpen(db.changes) && IsDriftCall(db, call)
    ensures var started := StartScan(db, call.trigger, call.startedAt);
      var drift := DriftOf(db, call.collected.columns);
      match DriftScan(started, |db.scans|, call.collected.columns, drift, call.settings, call.finishedAt)
      case Err(DatasetNotRegistered) => Refuses(BaselineDatasetMissing, db, call)
      case Err(UniqueViolation) => Refuses(IntegrityError, db, call)
      case Ok(_) => true
  {
    ReconciledUniqueIff(db.changes, DriftOf(db, call.collected.columns), db.source, |db.scans|, db.version,
                        call.finishedAt);
  }

  class ScanService {
    const repository: SqlAlchemyScanRepository

    constructor (repository: SqlAlchemyScanRepository)
      ensures this.repository == repository
    {
      this.repository := repository;
    }

    /** The part after the scan row exists, which may raise. */
    method Scan(scan: nat, collected: Collected, finishedAt: int) returns (r: Result<ScanReport, ScanException>)
      requires scan == |repository.session.scans| - 1 && TablesOk(repository.session.State())
      modifies repository.session
      ensures repository.session.committed == old(repository.session.committed)
      ensures |repository.session.scans| == |old(repository.session.scans)|
      ensures r.Err? ==> !r.error.SourceNotFound?
      ensures var db := old(repository.session.State());
        match collected
        case SourceDown(name) => r == Err(ConnectionFailed(name)) && repository.session.State() == db
        case CollectorBug => r == Err(CollectorRaised)
        case Snapshot(observed) =>
          if observed == [] then r == Err(EmptySchemaSnapshot) && repository.session.State() == db
          else if db.expected == map[] then
            (match InitialBaseline(db, scan, observed, finishedAt)
             case None => r == Err(IntegrityError)
             case Some(done) => r == Ok(ScanReport(scan, true, |observed|, [])) && repository.session.State() == done)
          else
            (match DriftScan(db, scan, observed, DriftOf(db, observed), repository.settings, finishedAt)
             case Err(DatasetNotRegistered) => r == Err(BaselineDatasetMissing)
             case Err(UniqueViolation) => r == Err(IntegrityError)
             case Ok(done) =>
               r == Ok(ScanReport(scan, false, |observed|, DriftOf(db, observed))) &&
               repository.session.State() == done)
    {
      match collected
      case SourceDown(name) => return Err(ConnectionFailed(name));
      case CollectorBug => return Err(CollectorRaised);
      case Snapshot(observed) =>
        if observed == [] {
          return Err(EmptySchemaSnapshot);
        }
        var expected := repository.LoadExpectedColumns();
        if expected == [] {
          var done := repository.CompleteInitialBaseline(scan, observed, finishedAt);
          if done.Err? {
            return Err(done.error);
          }
          return Ok(ScanReport(scan, true, |observed|, []));
        }
        var dependencies := repository.LoadDependencyColumns();
        var changes := DiffColumns(expected, observed, dependencies);
        var done := repository.CompleteDriftScan(scan, observed, changes, finishedAt);
        if done.Err? {
          return Err(done.error);
        }
        return Ok(ScanReport(scan, false, |observed|, changes));
    }

    /** Runs a scan; any exception is first recorded on the scan row and then raised. */
    method RunScan(call: ScanCall) returns (r: Result<ScanReport, ScanException>)
      requires call.settings == repository.settings && TablesOk(repository.session.State())
      modifies repository.session
      ensures repository.session.committed == old(repository.session.committed)
      ensures var result := ScanRequest(old(repository.session.State()), call);
        match result.outcome
        case SourceUnknown => r == Err(SourceNotFound) && repository.session.State() == result.db
        case RolledBack => r.Err? && Refuses(r.error, old(repository.session.State()), call)
        case FailureRecorded =>
          r == Err(if call.collected.SourceDown? then ConnectionFailed(call.collected.errorName)
                   else EmptySchemaSnapshot) &&
          repository.session.State() == result.db
        case _ =>
          r.Ok? && Reports(r.value, old(repository.session.State()), call) && repository.session.State() == result.db
    {
      ghost var db := repository.session.State();
      if IsDriftCall(db, call) {
        RefusedDrift(db, call);
      }
      var created := repository.CreateRunningScan(call.sourceKey, call.trigger, call.startedAt);
      if created.Err? {
        return Err(created.error);
      }
      r := Scan(created.value, call.collected, call.finishedAt);
      if r.Err? {
        repository.FailScan(created.value, ErrorName(r.error), call.finishedAt);
      }
    }
  }

  function ErrorName(e: ScanException): string {
    match e
    case EmptySchemaSnapshot => "EmptySchemaSnapshot"
    case ConnectionFailed(name) => name
    case BaselineDatasetMissing => "LookupError"
    case IntegrityError => "IntegrityError"
    case SourceNotFound => "SourceNotFound"
    case CollectorRaised => "Exception"
  }

  /** The HTTP request around a scan: success and recorded failures commit, everything else rolls back. */
  method PostScan(session: Session, call: ScanCall) returns (r: Result<ScanReport, ScanException>)
    requires session.Clean() && TablesOk(session.State())
    modifies session
    ensures session.Clean() && session.State() == ScanRequest(old(session.State()), call).db
    ensures r.Ok? <==> ScanRequest(old(session.State()), call).outcome in {BaselineCreated, DriftRecorded}
    ensures r.Ok? ==> Reports(r.value, old(session.State()), call)
  {
    var repository := new SqlAlchemyScanRepository(session, call.settings);
    var service := new ScanService(repository);
    r := service.RunScan(call);
    if r.Ok? || KeepsRecord(r.error) || r.error.SourceNotFound? {
      session.Commit();
    } else {
      session.Rollback();
    }
  }
}
