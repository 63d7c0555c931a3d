/**
 Runs that reach the states the lifecycle theorems single out: a baseline emptied by
 acceptances, a change that recurs, a payload that moves, a table nobody registered.
 */
module Scenarios {
  import opened Options
  import opened Models
  import opened Diff
  import opened Database
  import opened Reconciliation
  import opened Acceptance
  import opened Lifecycle
  import opened Outbox
  import opened Reachability

  function CallOf(source: string, columns: seq<ColumnDefinition>): ScanCall {
    ScanCall(source, Manual, Snapshot(columns), Settings(true, true), 0, 0)
  }

  function ScanOf(source: string, columns: seq<ColumnDefinition>): Event {
    Scan(CallOf(source, columns))
  }

  lemma AfterScan(source: string, events: seq<Event>, columns: seq<ColumnDefinition>)
    ensures After(source, events + [ScanOf(source, columns)]) ==
      ScanRequest(After(source, events), CallOf(source, columns)).db
  {
    RunConcat(Fresh(source), events, [ScanOf(source, columns)]);
    ScannedWorld(Run(Fresh(source), events), CallOf(source, columns));
  }

  /** Columns of one table. */
  predicate OneTable(columns: seq<ColumnDefinition>, d: DatasetRef) {
    columns != [] && DistinctRefs(columns) && forall c :: c in columns ==> c.dataset == d
  }

  /** A run that has seen one table only, after which the baseline has columns and the table is registered. */
  ghost predicate Ready(source: string, events: seq<Event>, d: DatasetRef) {
    Seen(events) <= {d} && After(source, events).expected != map[] && d in After(source, events).datasets
  }

  lemma FirstScan(source: string, columns: seq<ColumnDefinition>, d: DatasetRef)
    requires OneTable(columns, d)
    ensures var events := [ScanOf(source, columns)];
      Ready(source, events, d) && After(source, events).expected == RefMap(columns) &&
      After(source, events).changes == []
  {
    var events := [ScanOf(source, columns)];
    var db := After(source, events);
    assert Run(Fresh(source), []) == Fresh(source);
    AfterScan(source, [], columns);
    assert [] + events == events;
    InitialRequest(Empty(source), CallOf(source, columns));
    SnapshotKeyed(columns);
    RefMapFacts(columns);
    assert columns[0].Ref() in db.expected;
    ReachedPlain(source, events);
  }

  lemma TableCall(db: Db, columns: seq<ColumnDefinition>, d: DatasetRef)
    requires db.expected != map[] && d in db.datasets && OneTable(columns, d)
    ensures IsDriftCall(db, CallOf(db.source, columns)) && ObservedRegistered(db, columns)
    ensures db.datasets + SnapshotDatasets(columns) == db.datasets
  {
  }

  lemma TableScan(db: Db, columns: seq<ColumnDefinition>, d: DatasetRef, after: Db)
    requires PlainInv(db) && db.expected != map[] && d in db.datasets && OneTable(columns, d)
    requires after == DriftTables(db, CallOf(db.source, columns))
    ensures ScanRequest(db, CallOf(db.source, columns)) == ScanResult(DriftRecorded, after)
    ensures after.expected == db.expected && after.source == db.source && after.datasets == db.datasets
    ensures Mirrors(db.source, after.changes, DriftOf(after, columns))
  {
    TableCall(db, columns, d);
    DriftCommitsIff(db, CallOf(db.source, columns));
    RowsAfterMirror(db, CallOf(db.source, columns));
  }

  lemma StillOneTable(source: string, events: seq<Event>, columns: seq<ColumnDefinition>, d: DatasetRef)
    requires Seen(events) <= {d} && OneTable(columns, d)
    ensures Seen(events + [ScanOf(source, columns)]) <= {d} && DistinctlyNamed(events + [ScanOf(source, columns)])
  {
    assert EventDatasets(ScanOf(source, columns)) <= {d};
    forall e | e in events ensures EventDatasets(e) <= {d} {
      assert EventDatasets(e) <= Seen(events);
    }
    SeenOnly(events + [ScanOf(source, columns)], d);
  }

  lemma OneTablePlain(source: string, events: seq<Event>, d: DatasetRef)
    requires Seen(events) <= {d}
    ensures PlainInv(After(source, events)) && After(source, events).source == source
  {
    ReachedPlain(source, events);
    SourceStays(source, events);
  }

  lemma NextTables(source: string, events: seq<Event>, columns: seq<ColumnDefinition>, d: DatasetRef)
    requires Ready(source, events, d) && OneTable(columns, d)
    ensures Seen(events + [ScanOf(source, columns)]) <= {d} && After(source, events).source == source
    ensures PlainInv(After(source, events))
    ensures After(source, events + [ScanOf(source, columns)]) ==
      DriftTables(After(source, events), CallOf(source, columns))
  {
    var db := After(source, events);
    StillOneTable(source, events, columns, d);
    OneTablePlain(source, events, d);
    AfterScan(source, events, columns);
    TableScan(db, columns, d, DriftTables(db, CallOf(source, columns)));
  }

  lemma TableFacts(db: Db, columns: seq<ColumnDefinition>, d: DatasetRef, after: Db)
    requires PlainInv(db) && PlainInv(after) && db.expected != map[] && d in db.datasets && OneTable(columns, d)
    requires after == DriftTables(db, CallOf(db.source, columns))
    ensures after.expected == db.expected && after.datasets == db.datasets
    ensures Mirrors(db.source, after.changes, DriftOf(after, columns)) && Drifted(after, RefMap(columns))
    ensures |db.changes| <= |after.changes|
    ensures forall i :: 0 <= i < |db.changes| ==> Evolves(db.changes[i], after.changes[i])
  {
    TableScan(db, columns, d, after);
    SnapshotKeyed(columns);
    ReconciledEvolves(db.changes, DriftOf(db, columns), db.source, |db.scans|, db.version, 0);
  }

  /** A further scan of that table commits: it leaves the baseline alone and the OPEN rows mirror the diff. */
  lemma NextScan(source: string, events: seq<Event>, columns: seq<ColumnDefinition>, d: DatasetRef)
    requires Ready(source, events, d) && OneTable(columns, d)
    ensures var db, next := After(source, events), events + [ScanOf(source, columns)];
      var after := After(source, next);
      Ready(source, next, d) && after.expected == db.expected && after.source == source &&
      Mirrors(source, after.changes, DriftOf(after, columns)) && Drifted(after, RefMap(columns)) &&
      |db.changes| <= |after.changes| && forall i :: 0 <= i < |db.changes| ==> Evolves(db.changes[i], after.changes[i])
  {
    var next := events + [ScanOf(source, columns)];
    NextTables(source, events, columns, d);
    OneTablePlain(source, next, d);
    TableFacts(After(source, events), columns, d, After(source, next));
  }

  // ---------- an emptied baseline ----------

  lemma DropReported(expected: Columns, observed: Columns, dependencies: set<ColumnRef>, ref: ColumnRef)
    returns (c: SchemaChange)
    requires WellKeyed(expected) && WellKeyed(observed) && ref in expected && ref !in observed
    ensures c in DiffOf(expected, observed, dependencies) && c.Ref() == ref
  {
    DiffExact(expected, observed, dependencies);
    c := ColumnChanges(ref, Some(expected[ref]), None, dependencies)[0];
    assert Reported(c, expected, observed, dependencies);
  }

  lemma OneColumn(a: ColumnDefinition)
    ensures RefMap([a]) == map[a.Ref() := a]
  {
    assert [a][..0] == [];
  }

  lemma SettledAway(base: Db, a: ColumnDefinition, b: ColumnDefinition, i: nat)
    requires a.Ref() != b.Ref() && base.expected == RefMap([a]) && i < |base.changes|
    requires base.changes[i].Ref() == a.Ref()
    ensures Settle(base.expected, RefMap([b]), Touched(base.changes, {i})) == map[]
  {
    OneColumn(a);
    OneColumn(b);
    assert i in {i};
    assert Touched(base.changes, {i}) == {a.Ref()};
  }

  /** OPEN rows although the diff is empty. */
  ghost predicate StaleAfter(source: string, events: seq<Event>, observed: seq<ColumnDefinition>) {
    DriftOf(After(source, events), observed) == [] && OpenFingerprints(After(source, events).changes) != {}
  }

  /** The two scans of the scenario; row i is the drop. */
  lemma ReplacedColumn(source: string, a: ColumnDefinition, b: ColumnDefinition, events: seq<Event>) returns (i: nat)
    requires a.dataset == b.dataset && a.name != b.name
    requires events == [ScanOf(source, [a])] + [ScanOf(source, [b])]
    ensures var base := After(source, events);
      Ready(source, events, a.dataset) && base.expected == RefMap([a]) && Drifted(base, RefMap([b])) &&
      i < |base.changes| && base.changes[i].state.Open? && base.changes[i].Ref() == a.Ref()
  {
    FirstScan(source, [a], a.dataset);
    NextScan(source, [ScanOf(source, [a])], [b], a.dataset);
    var base := After(source, events);
    SnapshotKeyed([a]);
    SnapshotKeyed([b]);
    OneColumn(a);
    OneColumn(b);
    var c := DropReported(base.expected, RefMap([b]), Dependencies(base), a.Ref());
    i := MirrorRow(source, base.changes, DriftOf(base, [b]), c);
  }

  lemma AcceptOne(source: string, events: seq<Event>, base: Db, observed: Columns, i: nat, clock: nat -> int)
    requires base == After(source, events) && Drifted(base, observed) && i < |base.changes|
    requires base.changes[i].state.Open?
    ensures After(source, events + AcceptEvents([i], base.version, clock)) ==
      AcceptedState(base, observed, Ids([i]), clock)
  {
    AcceptInAnyOrder(base, observed, [i], clock);
    AcceptAllIsRun(Run(Fresh(source), events), [i], clock);
    RunConcat(Fresh(source), events, AcceptEvents([i], base.version, clock));
  }

  lemma RescanEmptied(source: string, events: seq<Event>, base: Db, b: ColumnDefinition, i: nat, clock: nat -> int,
                      accepted: Db)
    requires PartlyAccepted(base, [b], [i], CallOf(source, [b])) && accepted == After(source, events)
    requires accepted == AcceptedState(base, RefMap([b]), Ids([i]), clock) && accepted.expected == map[]
    ensures StaleAfter(source, events + [ScanOf(source, [b])], [b])
  {
    StaleAfterEmptying(base, [b], [i], clock, CallOf(source, [b]), accepted);
    AfterScan(source, events, [b]);
  }

  /** What the rescan needs to know of the state after the two scans. */
  lemma ReplacedPartly(base: Db, b: ColumnDefinition, i: nat)
    requires Drifted(base, RefMap([b])) && UniqueNames(base.datasets) && b.dataset in base.datasets
    requires i < |base.changes| && base.changes[i].state.Open?
    ensures PartlyAccepted(base, [b], [i], CallOf(base.source, [b]))
  {
  }

  lemma DropAccepted(source: string, scans: seq<Event>, base: Db, a: ColumnDefinition, b: ColumnDefinition, i: nat,
                     clock: nat -> int)
    requires base == After(source, scans) && source == base.source && a.Ref() != b.Ref()
    requires PartlyAccepted(base, [b], [i], CallOf(source, [b])) && base.expected == RefMap([a])
    requires i < |base.changes| && base.changes[i].Ref() == a.Ref()
    ensures StaleAfter(source, scans + AcceptEvents([i], base.version, clock) + [ScanOf(source, [b])], [b])
  {
    var accepts := AcceptEvents([i], base.version, clock);
    assert Ids([i]) == {i};
    assert base.changes[i].state.Open? by { assert i in Ids([i]); }
    AcceptOne(source, scans, base, RefMap([b]), i, clock);
    SettledAway(base, a, b, i);
    RescanEmptied(source, scans + accepts, base, b, i, clock, AcceptedState(base, RefMap([b]), Ids([i]), clock));
  }

  /** The requests of the scenario have seen no other table. */
  lemma SeenOnly(events: seq<Event>, d: DatasetRef)
    requires forall e :: e in events ==> EventDatasets(e) <= {d}
    ensures Seen(events) <= {d}
  {
  }

  lemma StaleRun(source: string, scans: seq<Event>, base: Db, a: ColumnDefinition, b: ColumnDefinition, i: nat,
                 clock: nat -> int)
    requires base == After(source, scans) && Ready(source, scans, b.dataset) && a.Ref() != b.Ref()
    requires base.expected == RefMap([a]) && Drifted(base, RefMap([b]))
    requires i < |base.changes| && base.changes[i].state.Open? && base.changes[i].Ref() == a.Ref()
    ensures StaleAfter(source, scans + AcceptEvents([i], base.version, clock) + [ScanOf(source, [b])], [b])
  {
    OneTablePlain(source, scans, b.dataset);
    ReplacedPartly(base, b, i);
    DropAccepted(source, scans, base, a, b, i, clock);
  }

  lemma StaleRunSeen(source: string, scans: seq<Event>, i: nat, version: int, clock: nat -> int, b: ColumnDefinition)
    requires forall e :: e in scans ==> EventDatasets(e) <= {b.dataset}
    ensures Seen(scans + AcceptEvents([i], version, clock) + [ScanOf(source, [b])]) <= {b.dataset}
  {
    assert AcceptEvents([i], version, clock) == [Accept(i, version, clock(i))];
    SeenOnly(scans + AcceptEvents([i], version, clock) + [ScanOf(source, [b])], b.dataset);
  }

  /**
   Replace the only column of a source by another one and accept the drop: the next scan finds no
   drift, yet the addition stays OPEN.
   */
  lemma StaleRowIsReachable(source: string, a: ColumnDefinition, b: ColumnDefinition, clock: nat -> int)
    returns (events: seq<Event>)
    requires a.dataset == b.dataset && a.name != b.name
    ensures Seen(events) <= {a.dataset} && StaleAfter(source, events, [b])
  {
    var scans := [ScanOf(source, [a])] + [ScanOf(source, [b])];
    var i := ReplacedColumn(source, a, b, scans);
    ghost var base := After(source, scans);
    StaleRun(source, scans, base, a, b, i, clock);
    events := scans + AcceptEvents([i], base.version, clock) + [ScanOf(source, [b])];
    StaleRunSeen(source, scans, i, base.version, clock, b);
  }

  // ---------- a payload that moves, a change that recurs ----------

  /** The OPEN row left by a scan that finds column b new. */
  lemma AddedColumn(source: string, events: seq<Event>, a: ColumnDefinition, b: ColumnDefinition, d: DatasetRef)
    returns (i: nat)
    requires Ready(source, events, d) && OneTable([a, b], d) && a.Ref() != b.Ref()
    requires After(source, events).expected == RefMap([a])
    ensures var after := After(source, events + [ScanOf(source, [a, b])]);
      i < |after.changes| && after.changes[i].state.Open? && Describes(source, after.changes[i], Addition(b))
  {
    NextScan(source, events, [a, b], d);
    var after := After(source, events + [ScanOf(source, [a, b])]);
    AdditionIn(after, a, b);
    i := MirrorRow(source, after.changes, DriftOf(after, [a, b]), Addition(b));
  }

  function Addition(b: ColumnDefinition): SchemaChange {
    MakeChange(AddColumn, if b.nullable then Info else Warning, None, Some(b))
  }

  lemma TwoColumns(a: ColumnDefinition, b: ColumnDefinition)
    requires a.Ref() != b.Ref()
    ensures RefMap([a, b]) == map[a.Ref() := a, b.Ref() := b]
  {
    OneColumn(a);
    assert [a, b][..1] == [a];
  }

  lemma AdditionIn(db: Db, a: ColumnDefinition, b: ColumnDefinition)
    requires a.Ref() != b.Ref() && db.expected == RefMap([a])
    ensures Addition(b) in DriftOf(db, [a, b])
  {
    OneColumn(a);
    TwoColumns(a, b);
    var c := AdditionReported(db.expected, RefMap([a, b]), Dependencies(db), b.Ref());
  }

  /** The column is gone again: nothing stays OPEN, and the row of the addition is RESOLVED. */
  lemma RemovedColumn(source: string, events: seq<Event>, a: ColumnDefinition, d: DatasetRef)
    requires Ready(source, events, d) && OneTable([a], d) && After(source, events).expected == RefMap([a])
    ensures OpenFingerprints(After(source, events + [ScanOf(source, [a])]).changes) == {}
  {
    NextScan(source, events, [a], d);
    var after := After(source, events + [ScanOf(source, [a])]);
    SnapshotKeyed([a]);
    DiffEmptyIff(after.expected, RefMap([a]), Dependencies(after));
    MirrorOpens(source, after.changes, DriftOf(after, [a]));
  }

  lemma OneOfTwo(a: ColumnDefinition, b: ColumnDefinition, d: DatasetRef)
    requires a.dataset == b.dataset == d && a.Ref() != b.Ref()
    ensures OneTable([a], d) && OneTable([a, b], d)
  {
  }

  /** The state after b was added, seen by a scan and removed again. */
  lemma AddedAndRemoved(source: string, a: ColumnDefinition, b: ColumnDefinition, d: DatasetRef, events: seq<Event>)
    returns (i: nat)
    requires a.dataset == b.dataset == d && a.Ref() != b.Ref()
    requires events == [ScanOf(source, [a])] + [ScanOf(source, [a, b])] + [ScanOf(source, [a])]
    ensures Ready(source, events, d) && After(source, events).expected == RefMap([a])
    ensures OpenFingerprints(After(source, events).changes) == {}
    ensures i < |After(source, events).changes|
    ensures After(source, events).changes[i].fingerprint == ChangeFingerprint(source, Addition(b))
  {
    var e1, e2 := [ScanOf(source, [a])], [ScanOf(source, [a])] + [ScanOf(source, [a, b])];
    OneOfTwo(a, b, d);
    FirstScan(source, [a], d);
    i := AddedColumn(source, e1, a, b, d);
    NextScan(source, e1, [a, b], d);
    NextScan(source, e2, [a], d);
    RemovedColumn(source, e2, a, d);
  }

  /** Two rows of one change: an earlier one that left OPEN and the one a later scan opened for it. */
  ghost predicate RecordedAgain(rows: seq<ChangeRow>, i: nat, j: nat) {
    i < j < |rows| && !rows[i].state.Open? && rows[j].state.Open? && rows[i].fingerprint == rows[j].fingerprint
  }

  lemma ReadyCall(source: string, events: seq<Event>, columns: seq<ColumnDefinition>, d: DatasetRef)
    requires Ready(source, events, d) && OneTable(columns, d)
    ensures var db, call := After(source, events), CallOf(source, columns);
      IsDriftCall(db, call) && DistinctlyNamed(events + [Scan(call)]) && ObservedRegistered(db, columns)
  {
    StillOneTable(source, events, columns, d);
    SourceStays(source, events);
  }

  lemma NoneOpen(rows: seq<ChangeRow>, i: nat)
    requires OpenFingerprints(rows) == {} && i < |rows|
    ensures !rows[i].state.Open?
  {
    if rows[i].state.Open? { OpenFingerprint(rows, i); }
  }

  lemma SecondRow(source: string, before: seq<ChangeRow>, after: seq<ChangeRow>, i: nat, c: SchemaChange)
    returns (j: nat)
    requires i < |before| && i < |after| && after[i] == before[i] && !before[i].state.Open?
    requires before[i].fingerprint == ChangeFingerprint(source, c)
    requires Opened(source, |before|, after, c)
    ensures RecordedAgain(after, i, j)
  {
    j :| |before| <= j < |after| && after[j].state.Open? && Describes(source, after[j], c);
  }

  /** `RecurringChangeAlertsAgain` for a scan of one table. */
  lemma SeenAgain(source: string, events: seq<Event>, columns: seq<ColumnDefinition>, d: DatasetRef, i: nat,
                  c: SchemaChange, db: Db, after: Db)
    requires Ready(source, events, d) && OneTable(columns, d) && db == After(source, events)
    requires after == After(source, events + [ScanOf(source, columns)])
    requires c in DriftOf(db, columns) && !c.severity.Info? && OpenFingerprints(db.changes) == {}
    requires i < |db.changes| && !db.changes[i].state.Open? && db.changes[i].fingerprint == ChangeFingerprint(source, c)
    ensures AlertedChannels(after.deliveries, |db.scans|) == Enabled(Settings(true, true))
    ensures i < |after.changes| && after.changes[i] == db.changes[i]
    ensures Opened(source, |db.changes|, after.changes, c)
  {
    ReadyCall(source, events, columns, d);
    AfterScan(source, events, columns);
    RecurringChangeAlertsAgain(source, events, CallOf(source, columns), i, c);
  }

  lemma BothEnabled()
    ensures Enabled(Settings(true, true)) == {Slack, Email}
  {
    assert Slack in Enabled(Settings(true, true)) && Email in Enabled(Settings(true, true));
    forall c | c in Enabled(Settings(true, true)) ensures c in {Slack, Email} {
      assert c.Slack? || c.Email?;
    }
  }

  lemma RecurrenceFrom(source: string, events: seq<Event>, a: ColumnDefinition, b: ColumnDefinition, d: DatasetRef,
                       i: nat, db: Db, after: Db)
    returns (j: nat)
    requires Ready(source, events, d) && OneTable([a, b], d) && a.Ref() != b.Ref() && !b.nullable
    requires db == After(source, events) && after == After(source, events + [ScanOf(source, [a, b])])
    requires db.expected == RefMap([a]) && OpenFingerprints(db.changes) == {}
    requires i < |db.changes| && db.changes[i].fingerprint == ChangeFingerprint(source, Addition(b))
    ensures RecordedAgain(after.changes, i, j) && AlertedChannels(after.deliveries, |db.scans|) == {Slack, Email}
  {
    AdditionIn(db, a, b);
    NoneOpen(db.changes, i);
    SeenAgain(source, events, [a, b], d, i, Addition(b), db, after);
    BothEnabled();
    j := SecondRow(source, db.changes, after.changes, i, Addition(b));
  }

  /** A column that is added, removed and added again is recorded twice and alerted again. */
  lemma RecurrenceIsReachable(source: string, a: ColumnDefinition, b: ColumnDefinition)
    returns (events: seq<Event>, i: nat, j: nat)
    requires a.dataset == b.dataset && a.name != b.name && !b.nullable
    ensures Seen(events) <= {a.dataset}
    ensures var db, after := After(source, events), After(source, events + [ScanOf(source, [a, b])]);
      RecordedAgain(after.changes, i, j) && AlertedChannels(after.deliveries, |db.scans|) == {Slack, Email}
  {
    events := [ScanOf(source, [a])] + [ScanOf(source, [a, b])] + [ScanOf(source, [a])];
    i := AddedAndRemoved(source, a, b, a.dataset, events);
    OneOfTwo(a, b, a.dataset);
    j := RecurrenceFrom(source, events, a, b, a.dataset, i, After(source, events),
                        After(source, events + [ScanOf(source, [a, b])]));
  }

  /**
   A column whose ordinal moves while its addition is OPEN: the row is RESOLVED and another one
   opened, although the diff names the same column and kind of change.
   */
  lemma MovedColumnReopens(source: string, a: ColumnDefinition, b: ColumnDefinition, moved: ColumnDefinition)
    returns (events: seq<Event>, i: nat)
    requires a.dataset == b.dataset && a.name != b.name
    requires moved == b.(ordinal := moved.ordinal) && moved.ordinal != b.ordinal
    ensures Seen(events) <= {a.dataset}
    ensures var db, after := After(source, events), After(source, events + [ScanOf(source, [a, moved])]);
      i < |db.changes| && Describes(source, db.changes[i], Addition(b)) && db.changes[i].state.Open? &&
      i < |after.changes| && after.changes[i].state.Resolved? &&
      Opened(source, |db.changes|, after.changes, Addition(moved))
  {
    var first, d := [ScanOf(source, [a])], a.dataset;
    events := first + [ScanOf(source, [a, b])];
    OneOfTwo(a, b, d);
    OneOfTwo(a, moved, d);
    FirstScan(source, [a], d);
    i := AddedColumn(source, first, a, b, d);
    NextScan(source, first, [a, b], d);
    var db := After(source, events);
    AdditionIn(db, a, moved);
    Reopened(source, events, [a, moved], d, i, Addition(moved), db,
             After(source, events + [ScanOf(source, [a, moved])]));
  }

  /** `RowStaysOpenIff` for a scan of one table. */
  lemma Reopened(source: string, events: seq<Event>, columns: seq<ColumnDefinition>, d: DatasetRef, i: nat,
                 c: SchemaChange, db: Db, after: Db)
    requires Ready(source, events, d) && OneTable(columns, d) && db == After(source, events)
    requires after == After(source, events + [ScanOf(source, columns)])
    requires c in DriftOf(db, columns)
    requires i < |db.changes| && !SameFacts(db.changes[i], c) && db.changes[i].state.Open?
    requires db.changes[i].Ref() == c.Ref() && db.changes[i].changeType == c.changeType
    ensures i < |after.changes| && after.changes[i].state.Resolved?
    ensures Opened(source, |db.changes|, after.changes, c)
  {
    ReadyCall(source, events, columns, d);
    AfterScan(source, events, columns);
    RowStaysOpenIff(source, events, CallOf(source, columns), i, c);
  }

  // ---------- a table nobody registered ----------

  /** A request other than an acceptance; a scan of it, if it sees anything, sees table d. */
  ghost predicate SeesTable(e: Event, d: DatasetRef) {
    !e.Accept? &&
    (e.Scan? && e.call.collected.Snapshot? && e.call.collected.columns != [] ==>
      exists c :: c in e.call.collected.columns && c.dataset == d)
  }

  ghost predicate Blocked(db: Db, d: DatasetRef) {
    PlainInv(db) && db.expected != map[] && d !in db.datasets
  }

  ghost predicate SameLifecycle(db: Db, after: Db) {
    after.expected == db.expected && after.changes == db.changes && after.datasets == db.datasets &&
    after.observations == db.observations && after.version == db.version
  }

  lemma BlockedScan(db: Db, call: ScanCall, d: DatasetRef)
    requires Blocked(db, d) && SeesTable(Scan(call), d) && UniqueNames(db.datasets + EventDatasets(Scan(call)))
    ensures SameLifecycle(db, ScanRequest(db, call).db)
  {
    if IsDriftCall(db, call) {
      DriftCommitsIff(db, call);
    }
  }

  lemma StepSame(w: World, e: Event, d: DatasetRef)
    requires Blocked(w.db, d) && UniqueNames(w.db.datasets + EventDatasets(e)) && SeesTable(e, d)
    ensures SameLifecycle(w.db, Step(w, e).db)
  {
    if e.Scan? {
      BlockedScan(w.db, e.call, d);
    }
  }

  lemma BlockedStep(w: World, e: Event, d: DatasetRef)
    requires Blocked(w.db, d) && UniqueNames(w.db.datasets + EventDatasets(e)) && SeesTable(e, d)
    ensures Blocked(Step(w, e).db, d) && SameLifecycle(w.db, Step(w, e).db)
  {
    StepSame(w, e, d);
    StepKeepsPlain(w, e);
  }

  lemma {:induction false} BlockedRun(w: World, rest: seq<Event>, d: DatasetRef)
    requires Blocked(w.db, d) && UniqueNames(w.db.datasets + Seen(rest)) && forall e :: e in rest ==> SeesTable(e, d)
    ensures SameLifecycle(w.db, Run(w, rest).db)
    decreases |rest|
  {
    if rest != [] {
      assert rest[0] in rest && forall e :: e in rest[1..] ==> e in rest;
      assert EventDatasets(rest[0]) <= Seen(rest) && Seen(rest[1..]) <= Seen(rest);
      BlockedStep(w, rest[0], d);
      BlockedRun(Step(w, rest[0]), rest[1..], d);
    }
  }

  /**
   Once the source has a table the first scan did not see, no further scan is recorded as
   completed: whatever requests follow, short of an acceptance, baseline, change rows and
   snapshots stay as they were.
   */
  lemma NewTableStopsScans(source: string, events: seq<Event>, rest: seq<Event>, d: DatasetRef)
    requires DistinctlyNamed(events + rest)
    requires After(source, events).expected != map[] && d !in After(source, events).datasets
    requires forall e :: e in rest ==> SeesTable(e, d)
    ensures SameLifecycle(After(source, events), After(source, events + rest))
  {
    assert Seen(events) <= Seen(events + rest) && Seen(rest) <= Seen(events + rest);
    ReachedPlain(source, events);
    RunConcat(Fresh(source), events, rest);
    BlockedRun(Run(Fresh(source), events), rest, d);
  }

  // ---------- alerts sent without end ----------

  function Dispatches(n: nat, s: Senders): seq<Event> {
    seq(n, _ => Dispatch(0, s))
  }

  /** A world whose first scan alerts both channels, with n sends for the first and none for the second. */
  ghost predicate SentOnly(w: World, n: nat) {
    TwoPending(w.db.deliveries) && |LogOf(w.log, 0)| == n && LogOf(w.log, 1) == []
  }

  lemma {:induction false} DispatchAgain(w: World, s: Senders, n: nat, k: nat)
    requires SentOnly(w, k) && CanSend(w.db.deliveries[0], 0, s) && !CanSend(w.db.deliveries[1], 1, s)
    ensures SentOnly(Run(w, Dispatches(n, s)), k + n)
    decreases n
  {
    if n > 0 {
      var o, x := Outbox(w.db.deliveries, w.log), Send(0, s.now, 0 in s.succeeding);
      OneResend(o, s);
      LogOfAppend(w.log, x, 0);
      LogOfAppend(w.log, x, 1);
      assert Dispatches(n, s)[1..] == Dispatches(n - 1, s);
      DispatchAgain(Step(w, Dispatch(0, s)), s, n - 1, k + 1);
    }
  }

  /**
   The first scan of a source fails while both channels are enabled; dispatches of it find a
   sender for the first channel and none for the second.  Then n dispatches send the first
   alert n times, and its row still says that nothing was tried.
   */
  lemma ResendsWithoutBound(source: string, failure: ScanCall, s: Senders, n: nat)
    requires failure.sourceKey == source && failure.collected.SourceDown? && failure.settings == Settings(true, true)
    requires Slack in s.notifiers && 0 !in s.raising && (Email !in s.notifiers || 1 in s.raising)
    ensures var w := Run(Fresh(source), [Scan(failure)] + Dispatches(n, s));
      SentOnly(w, n) && w.db.deliveries[0].attemptCount == 0
  {
    var w := Run(Fresh(source), [Scan(failure)]);
    ScannedWorld(Fresh(source), failure);
    assert w.db.deliveries == [] + NewDeliveries(0, EnabledChannels(failure.settings));
    DispatchAgain(w, s, n, 0);
    RunConcat(Fresh(source), [Scan(failure)], Dispatches(n, s));
  }
}
