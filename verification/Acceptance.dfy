/** Accepting OPEN changes: any subset, in any order, with the version refreshed each time. */
module Acceptance {
  import opened Options
  import opened Models
  import opened Ordering
  import opened Diff
  import opened Database
  import opened Reconciliation

  /** Accepts the given rows one after the other; None if any request is refused. */
  function AcceptAll(db: Db, ids: seq<nat>, clock: nat -> int): Option<Db>
    decreases |ids|
  {
    if ids == [] then Some(db)
    else match AcceptChange(db, ids[0], db.version, clock(ids[0]))
      case Err(_) => None
      case Ok(next) => AcceptAll(next, ids[1..], clock)
  }

  /** The type, nullability and default of an observed column put on a baseline column. */
  function Adopt(expected: ColumnDefinition, observed: ColumnDefinition): ColumnDefinition {
    expected.(dataType := observed.dataType, nullable := observed.nullable, default := observed.default)
  }

  /** The baseline once the drift of the touched columns has been accepted. */
  ghost function Settle(expected: Columns, observed: Columns, touched: set<ColumnRef>): Columns {
    map r | r in (expected.Keys - touched) + (touched * observed.Keys) ::
      if r !in touched then expected[r]
      else if r in expected then Adopt(expected[r], observed[r])
      else observed[r]
  }

  ghost function Touched(rows: seq<ChangeRow>, ids: set<nat>): set<ColumnRef> {
    set i | i in ids && i < |rows| :: rows[i].Ref()
  }

  /** The closed form of having accepted a set of rows, in whatever order. */
  ghost function AcceptedState(base: Db, observed: Columns, done: set<nat>, clock: nat -> int): Db {
    base.(
      expected := Settle(base.expected, observed, Touched(base.changes, done)),
      version := base.version + |done|,
      changes := seq(|base.changes|, i requires 0 <= i < |base.changes| =>
        if i in done then AcceptRow(base.changes[i], clock(i)) else base.changes[i]))
  }

  /** OPEN rows of the base, as left by a drift scan of `observed`. */
  ghost predicate Drifted(base: Db, observed: Columns) {
    TablesOk(base) && WellKeyed(observed) &&
    Mirrors(base.source, base.changes, DiffOf(base.expected, observed, Dependencies(base)))
  }

  ghost predicate AllOpen(rows: seq<ChangeRow>, ids: set<nat>) {
    forall i :: i in ids ==> i < |rows| && rows[i].state.Open?
  }

  /** What an OPEN row left by a drift scan says about the two sides. */
  lemma DriftedRow(base: Db, observed: Columns, id: nat)
    requires Drifted(base, observed) && id < |base.changes| && base.changes[id].state.Open?
    ensures var r := base.changes[id];
      (r.changeType.AddColumn? <==> r.Ref() !in base.expected) &&
      (r.changeType.DropColumn? <==> r.Ref() !in observed) &&
      (r.Ref() in observed ==> r.after == Some(ColumnDict(observed[r.Ref()])))
  {
    var c := MirrorChange(base.source, base.changes, DiffOf(base.expected, observed, Dependencies(base)), id);
    DiffMember(base.expected, observed, Dependencies(base), c);
  }

  /** A dropped column has a single OPEN row. */
  lemma DropIsAlone(base: Db, observed: Columns, i: nat, j: nat)
    requires Drifted(base, observed) && AllOpen(base.changes, {i, j})
    requires base.changes[i].Ref() == base.changes[j].Ref() && base.changes[i].changeType.DropColumn?
    ensures i == j
  {
    var diff := DiffOf(base.expected, observed, Dependencies(base));
    assert i in {i, j} && j in {i, j};
    var c := MirrorChange(base.source, base.changes, diff, i);
    var d := MirrorChange(base.source, base.changes, diff, j);
    DiffMember(base.expected, observed, Dependencies(base), c);
    LoneChange(base.expected, observed, Dependencies(base), c, d);
  }

  // How settling one more column changes the baseline, by kind of change.

  lemma SettleDrop(expected: Columns, observed: Columns, touched: set<ColumnRef>, ref: ColumnRef)
    requires ref in expected && ref !in observed && ref !in touched
    ensures ref in Settle(expected, observed, touched)
    ensures Settle(expected, observed, touched + {ref}) == Settle(expected, observed, touched) - {ref}
  {
  }

  lemma SettleAdd(expected: Columns, observed: Columns, touched: set<ColumnRef>, ref: ColumnRef)
    requires ref !in expected && ref in observed
    ensures ref in Settle(expected, observed, touched) <==> ref in touched
    ensures Settle(expected, observed, touched + {ref}) == Settle(expected, observed, touched)[ref := observed[ref]]
  {
  }

  lemma SettleChange(expected: Columns, observed: Columns, touched: set<ColumnRef>, ref: ColumnRef)
    requires ref in expected && ref in observed
    ensures ref in Settle(expected, observed, touched)
    ensures var m := Settle(expected, observed, touched);
      Settle(expected, observed, touched + {ref}) == m[ref := Adopt(m[ref], observed[ref])]
  {
  }

  /** Applying a row is settling its column. */
  lemma PatchSettles(expected: Columns, observed: Columns, touched: set<ColumnRef>, row: ChangeRow)
    requires WellKeyed(observed)
    requires row.changeType.AddColumn? <==> row.Ref() !in expected
    requires row.changeType.DropColumn? <==> row.Ref() !in observed
    requires row.Ref() in observed ==> row.after == Some(ColumnDict(observed[row.Ref()]))
    requires row.changeType.DropColumn? ==> row.Ref() !in touched
    ensures Patch(Settle(expected, observed, touched), row) == Some(Settle(expected, observed, touched + {row.Ref()}))
  {
    var ref := row.Ref();
    if row.changeType.DropColumn? {
      SettleDrop(expected, observed, touched, ref);
    } else if row.changeType.AddColumn? {
      SettleAdd(expected, observed, touched, ref);
      if ref in touched {
        assert touched + {ref} == touched;
      }
    } else {
      SettleChange(expected, observed, touched, ref);
    }
  }

  lemma TouchedGrows(rows: seq<ChangeRow>, done: set<nat>, id: nat)
    requires id < |rows|
    ensures Touched(rows, done + {id}) == Touched(rows, done) + {rows[id].Ref()}
  {
  }

  lemma DropUntouched(base: Db, observed: Columns, done: set<nat>, id: nat)
    requires Drifted(base, observed) && AllOpen(base.changes, done) && AllOpen(base.changes, {id}) && id !in done
    ensures id in {id} && base.changes[id].changeType.DropColumn? ==>
      base.changes[id].Ref() !in Touched(base.changes, done)
  {
    assert id in {id};
    if base.changes[id].changeType.DropColumn? && base.changes[id].Ref() in Touched(base.changes, done) {
      var j :| j in done && j < |base.changes| && base.changes[j].Ref() == base.changes[id].Ref();
      DropIsAlone(base, observed, id, j);
    }
  }

  lemma AcceptedTables(base: Db, observed: Columns, done: set<nat>, id: nat, clock: nat -> int)
    requires id < |base.changes| && id !in done
    ensures var db, next := AcceptedState(base, observed, done, clock),
      AcceptedState(base, observed, done + {id}, clock);
      db.changes[id] == base.changes[id] && next.changes == db.changes[id := AcceptRow(base.changes[id], clock(id))] &&
      next.version == db.version + 1 &&
      next == db.(expected := next.expected, version := next.version, changes := next.changes)
  {
  }

  lemma AcceptWhen(db: Db, id: nat, now: int, patched: Columns)
    requires id < |db.changes| && db.changes[id].state.Open? && Patch(db.expected, db.changes[id]) == Some(patched)
    ensures AcceptChange(db, id, db.version, now) == Ok(db.(
      expected := patched, version := db.version + 1, changes := db.changes[id := AcceptRow(db.changes[id], now)]))
  {
  }

  lemma AcceptStep(base: Db, observed: Columns, done: set<nat>, id: nat, clock: nat -> int)
    requires Drifted(base, observed) && AllOpen(base.changes, done) && AllOpen(base.changes, {id}) && id !in done
    ensures var db := AcceptedState(base, observed, done, clock);
      AcceptChange(db, id, db.version, clock(id)) == Ok(AcceptedState(base, observed, done + {id}, clock))
  {
    assert id in {id};
    var db, next := AcceptedState(base, observed, done, clock), AcceptedState(base, observed, done + {id}, clock);
    StepPatches(base, observed, done, id);
    AcceptedTables(base, observed, done, id, clock);
    AcceptWhen(db, id, clock(id), next.expected);
  }

  lemma StepPatches(base: Db, observed: Columns, done: set<nat>, id: nat)
    requires Drifted(base, observed) && AllOpen(base.changes, done) && AllOpen(base.changes, {id}) && id !in done
    ensures id in {id} &&
      Patch(Settle(base.expected, observed, Touched(base.changes, done)), base.changes[id])
        == Some(Settle(base.expected, observed, Touched(base.changes, done + {id})))
  {
    assert id in {id};
    DriftedRow(base, observed, id);
    DropUntouched(base, observed, done, id);
    TouchedGrows(base.changes, done, id);
    PatchSettles(base.expected, observed, Touched(base.changes, done), base.changes[id]);
  }

  lemma AcceptFirst(db: Db, ids: seq<nat>, clock: nat -> int, next: Db)
    requires ids != [] && AcceptChange(db, ids[0], db.version, clock(ids[0])) == Ok(next)
    ensures AcceptAll(db, ids, clock) == AcceptAll(next, ids[1..], clock)
  {
  }

  lemma NothingAccepted(base: Db, observed: Columns, clock: nat -> int)
    ensures AcceptedState(base, observed, {}, clock) == base
  {
    assert Settle(base.expected, observed, {}) == base.expected;
  }

  function Ids(ids: seq<nat>): set<nat> {
    set i | i in ids
  }

  lemma TakeFirst(rows: seq<ChangeRow>, done: set<nat>, ids: seq<nat>)
    requires AllOpen(rows, done + Ids(ids)) && ids != []
    requires NoDuplicates(ids) && forall i :: i in ids ==> i !in done
    ensures AllOpen(rows, done) && AllOpen(rows, {ids[0]}) && ids[0] !in done
    ensures AllOpen(rows, done + {ids[0]} + Ids(ids[1..])) && NoDuplicates(ids[1..])
    ensures forall i :: i in ids[1..] ==> i !in done + {ids[0]}
    ensures done + {ids[0]} + Ids(ids[1..]) == done + Ids(ids)
  {
    assert ids == [ids[0]] + ids[1..];
    assert done + {ids[0]} + Ids(ids[1..]) == done + Ids(ids);
    assert ids[0] in done + Ids(ids);
  }

  lemma {:induction false} AcceptRest(base: Db, observed: Columns, done: set<nat>, ids: seq<nat>, clock: nat -> int,
                                      db: Db)
    requires Drifted(base, observed) && AllOpen(base.changes, done + Ids(ids))
    requires NoDuplicates(ids) && forall i :: i in ids ==> i !in done
    requires db == AcceptedState(base, observed, done, clock)
    ensures AcceptAll(db, ids, clock) == Some(AcceptedState(base, observed, done + Ids(ids), clock))
    decreases |ids|
  {
    if ids == [] {
      assert done + Ids(ids) == done;
    } else {
      var next := AcceptedState(base, observed, done + {ids[0]}, clock);
      TakeFirst(base.changes, done, ids);
      AcceptStep(base, observed, done, ids[0], clock);
      AcceptFirst(db, ids, clock, next);
      AcceptRest(base, observed, done + {ids[0]}, ids[1..], clock, next);
    }
  }

  /** Every acceptance succeeds and the outcome depends only on which rows were accepted. */
  lemma AcceptInAnyOrder(base: Db, observed: Columns, ids: seq<nat>, clock: nat -> int)
    requires Drifted(base, observed) && NoDuplicates(ids) && AllOpen(base.changes, Ids(ids))
    ensures AcceptAll(base, ids, clock) == Some(AcceptedState(base, observed, Ids(ids), clock))
  {
    NothingAccepted(base, observed, clock);
    assert {} + Ids(ids) == Ids(ids);
    AcceptRest(base, observed, {}, ids, clock, base);
  }

  // ---------- what is left to report ----------

  lemma SettleKeyed(expected: Columns, observed: Columns, touched: set<ColumnRef>)
    requires WellKeyed(expected) && WellKeyed(observed)
    ensures WellKeyed(Settle(expected, observed, touched))
  {
  }

  /** Accepting columns removes exactly their changes from the diff. */
  lemma DiffAfterSettle(expected: Columns, observed: Columns, dependencies: set<ColumnRef>, touched: set<ColumnRef>)
    requires WellKeyed(expected) && WellKeyed(observed)
    ensures forall c :: c in DiffOf(Settle(expected, observed, touched), observed, dependencies) <==>
      (c in DiffOf(expected, observed, dependencies) && c.Ref() !in touched)
  {
    var settled := Settle(expected, observed, touched);
    SettleKeyed(expected, observed, touched);
    DiffExact(expected, observed, dependencies);
    DiffExact(settled, observed, dependencies);
    forall c ensures Reported(c, settled, observed, dependencies) <==>
                     Reported(c, expected, observed, dependencies) && c.Ref() !in touched
    {
      SettledReports(expected, observed, dependencies, touched, c);
    }
  }

  lemma SettledReports(expected: Columns, observed: Columns, dependencies: set<ColumnRef>, touched: set<ColumnRef>,
                       c: SchemaChange)
    ensures Reported(c, Settle(expected, observed, touched), observed, dependencies) <==>
            Reported(c, expected, observed, dependencies) && c.Ref() !in touched
  {
    var r, settled := c.Ref(), Settle(expected, observed, touched);
    if r in touched {
      NoChangesIff(r, At(settled, r), At(observed, r), dependencies);
    } else {
      assert At(settled, r) == At(expected, r);
    }
  }

  ghost predicate EveryOpenRow(rows: seq<ChangeRow>, ids: set<nat>) {
    forall i :: i in ids <==> 0 <= i < |rows| && rows[i].state.Open?
  }

  /** Accepting every OPEN change, in any order, ends in a baseline without drift. */
  lemma AcceptanceConverges(base: Db, observed: Columns, ids: seq<nat>, clock: nat -> int)
    requires Drifted(base, observed) && NoDuplicates(ids) && EveryOpenRow(base.changes, Ids(ids))
    ensures AcceptAll(base, ids, clock).Some?
    ensures var done := AcceptAll(base, ids, clock).value;
      DiffOf(done.expected, observed, Dependencies(done)) == [] &&
      done.version == base.version + |ids| && OpenFingerprints(done.changes) == {}
  {
    AcceptInAnyOrder(base, observed, ids, clock);
    var done := AcceptedState(base, observed, Ids(ids), clock);
    var diff := DiffOf(base.expected, observed, Dependencies(base));
    DiffAfterSettle(base.expected, observed, Dependencies(base), Touched(base.changes, Ids(ids)));
    forall c | c in diff ensures c.Ref() in Touched(base.changes, Ids(ids)) {
      var i := MirrorRow(base.source, base.changes, diff, c);
      assert i in Ids(ids);
    }
    var rest := DiffOf(done.expected, observed, Dependencies(base));
    assert forall c :: c !in rest;
    EmptyBecauseNoMember(rest);
    DistinctCount(ids);
    forall r | r in done.changes ensures !r.state.Open? {
      var i :| 0 <= i < |done.changes| && done.changes[i] == r;
    }
  }

  lemma EmptyBecauseNoMember<T>(s: seq<T>)
    ensures (forall x :: x !in s) ==> s == []
  {
    assert s != [] ==> s[0] in s;
  }

  lemma {:induction false} DistinctCount(ids: seq<nat>)
    requires NoDuplicates(ids)
    ensures |Ids(ids)| == |ids|
  {
    if ids != [] {
      DistinctCount(ids[1..]);
      assert ids == [ids[0]] + ids[1..];
      assert Ids(ids) == {ids[0]} + Ids(ids[1..]);
      assert ids[0] !in Ids(ids[1..]);
    }
  }

  // ---------- accepting some, then scanning again ----------

  /** What the rescan makes of a row of the base. */
  ghost function RescannedRow(base: Db, ids: set<nat>, clock: nat -> int, now: int, i: nat): ChangeRow
    requires i < |base.changes|
  {
    var r := base.changes[i];
    if i in ids then AcceptRow(r, clock(i))
    else if r.state.Open? && r.Ref() in Touched(base.changes, ids) then r.(state := Resolved, resolvedAt := Some(now))
    else r
  }

  ghost predicate PartlyAccepted(base: Db, observed: seq<ColumnDefinition>, ids: seq<nat>, again: ScanCall) {
    Drifted(base, RefMap(observed)) && observed != [] && DistinctRefs(observed) &&
    ObservedRegistered(base, observed) && UniqueNames(base.datasets) &&
    NoDuplicates(ids) && AllOpen(base.changes, Ids(ids)) &&
    again.sourceKey == base.source && again.collected == Snapshot(observed)
  }

  /** The siblings of accepted rows are the OPEN rows the new diff no longer reports. */
  lemma StillActiveIff(base: Db, observed: Columns, touched: set<ColumnRef>, i: nat)
    requires Drifted(base, observed) && UniqueNames(base.datasets)
    requires forall r :: r in observed ==> r.dataset in base.datasets
    requires i < |base.changes| && base.changes[i].state.Open?
    ensures base.changes[i].fingerprint
        in Fingerprints(DiffOf(Settle(base.expected, observed, touched), observed, Dependencies(base)), base.source)
      <==> base.changes[i].Ref() !in touched
  {
    var diff := DiffOf(base.expected, observed, Dependencies(base));
    var rest := DiffOf(Settle(base.expected, observed, touched), observed, Dependencies(base));
    var row := base.changes[i];
    DiffAfterSettle(base.expected, observed, Dependencies(base), touched);
    var c := MirrorChange(base.source, base.changes, diff, i);
    if row.fingerprint in Fingerprints(rest, base.source) {
      var d :| d in rest && ChangeFingerprint(base.source, d) == row.fingerprint;
      DiffDatasets(base, observed, c);
      DiffDatasets(base, observed, d);
      SameFingerprintSameColumn(base.source, base.datasets, c, d);
    }
  }

  lemma SameFingerprintSameColumn(source: string, names: set<DatasetRef>, c: SchemaChange, d: SchemaChange)
    requires UniqueNames(names) && c.dataset in names && d.dataset in names
    requires ChangeFingerprint(source, c) == ChangeFingerprint(source, d)
    ensures c.Ref() == d.Ref()
  {
  }

  lemma DiffDatasets(base: Db, observed: Columns, c: SchemaChange)
    requires BaselineOk(base) && WellKeyed(observed) && c in DiffOf(base.expected, observed, Dependencies(base))
    requires forall r :: r in observed ==> r.dataset in base.datasets
    ensures c.dataset in base.datasets
  {
    DiffExact(base.expected, observed, Dependencies(base));
    assert c.Ref() in base.expected || c.Ref() in observed;
  }

  /** Nothing in the new diff is unknown to the accepted state. */
  lemma NothingFresh(base: Db, observed: Columns, ids: set<nat>, clock: nat -> int, c: SchemaChange)
    requires Drifted(base, observed) && AllOpen(base.changes, ids)
    requires c in DiffOf(Settle(base.expected, observed, Touched(base.changes, ids)), observed, Dependencies(base))
    ensures ChangeFingerprint(base.source, c) in OpenFingerprints(AcceptedState(base, observed, ids, clock).changes)
  {
    var db := AcceptedState(base, observed, ids, clock);
    var i := UntouchedRow(base, observed, ids, c);
    assert db.changes[i] == base.changes[i];
    OpenFingerprint(db.changes, i);
  }

  lemma NoFreshChanges(base: Db, observed: Columns, ids: set<nat>, clock: nat -> int)
    requires Drifted(base, observed) && AllOpen(base.changes, ids)
    ensures var db := AcceptedState(base, observed, ids, clock);
      FreshChanges(DiffOf(db.expected, observed, Dependencies(base)), base.source, OpenFingerprints(db.changes)) == []
  {
    var db := AcceptedState(base, observed, ids, clock);
    var changes, open := DiffOf(db.expected, observed, Dependencies(base)), OpenFingerprints(db.changes);
    EmptyBecauseNoMember(FreshChanges(changes, base.source, open));
    FreshChangesExact(changes, base.source, open);
    forall c ensures c !in FreshChanges(changes, base.source, open) {
      if c in changes {
        NothingFresh(base, observed, ids, clock, c);
      }
    }
  }

  /** The reconciled rows of the rescan, one by one. */
  lemma RescanRows(base: Db, observed: Columns, ids: set<nat>, clock: nat -> int, scan: nat, now: int, accepted: Db)
    requires Drifted(base, observed) && AllOpen(base.changes, ids) && UniqueNames(base.datasets)
    requires forall r :: r in observed ==> r.dataset in base.datasets
    requires accepted == AcceptedState(base, observed, ids, clock)
    ensures var changes := DiffOf(accepted.expected, observed, Dependencies(base));
      var rows := Reconciled(accepted.changes, changes, base.source, scan, accepted.version, now);
      |rows| == |base.changes| &&
      forall i :: 0 <= i < |rows| ==> rows[i] == RescannedRow(base, ids, clock, now, i)
  {
    var changes := DiffOf(accepted.expected, observed, Dependencies(base));
    NoFreshChanges(base, observed, ids, clock);
    forall i | 0 <= i < |base.changes|
      ensures ResolveIfGone(accepted.changes[i], Fingerprints(changes, base.source), now) ==
        RescannedRow(base, ids, clock, now, i)
    {
      if i !in ids && base.changes[i].state.Open? {
        StillActiveIff(base, observed, Touched(base.changes, ids), i);
      }
    }
  }

  lemma RescannedUnique(base: Db, ids: set<nat>, clock: nat -> int, now: int, rows: seq<ChangeRow>)
    requires UniqueOpen(base.changes) && |rows| == |base.changes|
    requires forall i :: 0 <= i < |rows| ==> rows[i] == RescannedRow(base, ids, clock, now, i)
    ensures UniqueOpen(rows)
  {
  }

  lemma SettleEmpty(expected: Columns, observed: Columns, touched: set<ColumnRef>, ref: ColumnRef)
    requires Settle(expected, observed, touched) == map[]
    ensures ref in touched ==> ref !in observed
    ensures ref !in touched ==> ref !in expected
  {
    assert ref !in Settle(expected, observed, touched);
  }

  /** An emptied baseline has no accepted column left to have siblings. */
  lemma EmptiedHasNoSiblings(base: Db, observed: Columns, ids: set<nat>, i: nat)
    requires Drifted(base, observed) && AllOpen(base.changes, ids) && AllOpen(base.changes, {i}) && i !in ids
    requires Settle(base.expected, observed, Touched(base.changes, ids)) == map[]
    ensures i in {i} && base.changes[i].Ref() !in Touched(base.changes, ids)
  {
    assert i in {i};
    SettleEmpty(base.expected, observed, Touched(base.changes, ids), base.changes[i].Ref());
    if base.changes[i].Ref() in Touched(base.changes, ids) {
      DriftedRow(base, observed, i);
      DropUntouched(base, observed, ids, i);
    }
  }

  lemma EmptiedRows(base: Db, observed: Columns, ids: set<nat>, clock: nat -> int, now: int)
    requires Drifted(base, observed) && AllOpen(base.changes, ids)
    requires Settle(base.expected, observed, Touched(base.changes, ids)) == map[]
    ensures forall i :: 0 <= i < |base.changes| ==>
      AcceptedState(base, observed, ids, clock).changes[i] == RescannedRow(base, ids, clock, now, i)
  {
    forall i | 0 <= i < |base.changes|
      ensures AcceptedState(base, observed, ids, clock).changes[i] == RescannedRow(base, ids, clock, now, i)
    {
      if base.changes[i].state.Open? && i !in ids {
        EmptiedHasNoSiblings(base, observed, ids, i);
      }
    }
  }

  /** What the rescan would do to the change table. */
  lemma RescanTables(base: Db, observed: seq<ColumnDefinition>, ids: seq<nat>, clock: nat -> int, again: ScanCall,
                     accepted: Db)
    requires PartlyAccepted(base, observed, ids, again)
    requires accepted == AcceptedState(base, RefMap(observed), Ids(ids), clock)
    ensures AddedBy(accepted, again) == [] && UniqueOpen(RowsAfter(accepted, again))
    ensures var rows := RowsAfter(accepted, again);
      |rows| == |base.changes| &&
      forall i :: 0 <= i < |rows| ==> rows[i] == RescannedRow(base, Ids(ids), clock, again.finishedAt, i)
  {
    var O := RefMap(observed);
    SnapshotKeyed(observed);
    assert DriftOf(accepted, observed) == DiffOf(accepted.expected, O, Dependencies(base));
    NoFreshChanges(base, O, Ids(ids), clock);
    RescanRows(base, O, Ids(ids), clock, |accepted.scans|, again.finishedAt, accepted);
    RescannedUnique(base, Ids(ids), clock, again.finishedAt, RowsAfter(accepted, again));
  }

  /** The state after accepting `ids` and scanning again, when the baseline still has columns. */
  lemma DriftRescan(base: Db, observed: seq<ColumnDefinition>, ids: seq<nat>, clock: nat -> int, again: ScanCall,
                    accepted: Db)
    requires PartlyAccepted(base, observed, ids, again)
    requires accepted == AcceptedState(base, RefMap(observed), Ids(ids), clock) && accepted.expected != map[]
    ensures ScanRequest(accepted, again) == ScanResult(DriftRecorded, DriftTables(accepted, again))
    ensures DriftTables(accepted, again).deliveries == base.deliveries
    ensures var rows := RowsAfter(accepted, again);
      |rows| == |base.changes| &&
      forall i :: 0 <= i < |rows| ==> rows[i] == RescannedRow(base, Ids(ids), clock, again.finishedAt, i)
  {
    RescanTables(base, observed, ids, clock, again, accepted);
    QuietDrift(accepted, again);
  }

  lemma QuietDrift(db: Db, call: ScanCall)
    requires IsDriftCall(db, call) && AddedBy(db, call) == [] && UniqueOpen(RowsAfter(db, call))
    ensures ScanRequest(db, call) == ScanResult(DriftRecorded, DriftTables(db, call))
    ensures DriftTables(db, call).deliveries == db.deliveries
  {
    DriftOutcome(db, call);
    assert db.deliveries + [] == db.deliveries;
  }

  /**
   Accept any OPEN rows in any order and scan the same source again: no row and no alert is
   added, the unaccepted rows of untouched columns stay OPEN, and exactly the siblings of
   accepted rows are RESOLVED.
   */
  lemma PartialAcceptanceExact(base: Db, observed: seq<ColumnDefinition>, ids: seq<nat>, clock: nat -> int,
                               again: ScanCall)
    requires PartlyAccepted(base, observed, ids, again)
    ensures AcceptAll(base, ids, clock).Some?
    ensures var accepted := AcceptAll(base, ids, clock).value;
      var rescan := ScanRequest(accepted, again);
      rescan.outcome == (if accepted.expected == map[] then BaselineCreated else DriftRecorded) &&
      rescan.db.deliveries == base.deliveries && |rescan.db.changes| == |base.changes| &&
      forall i :: 0 <= i < |base.changes| ==>
        rescan.db.changes[i] == RescannedRow(base, Ids(ids), clock, again.finishedAt, i)
  {
    AcceptInAnyOrder(base, RefMap(observed), ids, clock);
    var accepted := AcceptedState(base, RefMap(observed), Ids(ids), clock);
    if accepted.expected == map[] {
      InitialRequest(accepted, again);
      EmptiedRows(base, RefMap(observed), Ids(ids), clock, again.finishedAt);
    } else {
      DriftRescan(base, observed, ids, clock, again, accepted);
    }
  }

  /** After that rescan the OPEN rows mirror the diff again, unless the baseline had been emptied. */
  lemma RescanMirrorsIff(base: Db, observed: seq<ColumnDefinition>, ids: seq<nat>, clock: nat -> int, again: ScanCall)
    requires PartlyAccepted(base, observed, ids, again)
    ensures AcceptAll(base, ids, clock).Some?
    ensures var accepted := AcceptAll(base, ids, clock).value;
      var after := ScanRequest(accepted, again).db;
      Mirrors(base.source, after.changes, DriftOf(after, observed)) <==> accepted.expected != map[]
  {
    AcceptInAnyOrder(base, RefMap(observed), ids, clock);
    var accepted := AcceptedState(base, RefMap(observed), Ids(ids), clock);
    var after := ScanRequest(accepted, again).db;
    if accepted.expected == map[] {
      StaleAfterEmptying(base, observed, ids, clock, again, accepted);
      if Mirrors(base.source, after.changes, DriftOf(after, observed)) {
        MirrorOpens(base.source, after.changes, DriftOf(after, observed));
      }
    } else {
      MirrorsAfterRescan(base, observed, ids, clock, again, accepted);
    }
  }

  lemma MirrorsAfterRescan(base: Db, observed: seq<ColumnDefinition>, ids: seq<nat>, clock: nat -> int,
                           again: ScanCall, accepted: Db)
    requires PartlyAccepted(base, observed, ids, again)
    requires accepted == AcceptedState(base, RefMap(observed), Ids(ids), clock) && accepted.expected != map[]
    ensures var after := ScanRequest(accepted, again).db;
      Mirrors(base.source, after.changes, DriftOf(after, observed))
  {
    DriftRescan(base, observed, ids, clock, again, accepted);
    var after := DriftTables(accepted, again);
    assert DriftOf(after, observed) == DiffOf(accepted.expected, RefMap(observed), Dependencies(base));
    RescannedMirrors(base, RefMap(observed), Ids(ids), clock, again.finishedAt, after.changes,
                     DriftOf(after, observed));
  }

  lemma RescannedMirrors(base: Db, observed: Columns, ids: set<nat>, clock: nat -> int, now: int,
                         rows: seq<ChangeRow>, rest: seq<SchemaChange>)
    requires Drifted(base, observed)
    requires |rows| == |base.changes|
    requires forall i :: 0 <= i < |rows| ==> rows[i] == RescannedRow(base, ids, clock, now, i)
    requires rest == DiffOf(Settle(base.expected, observed, Touched(base.changes, ids)), observed, Dependencies(base))
    ensures Mirrors(base.source, rows, rest)
  {
    RescannedUnique(base, ids, clock, now, rows);
    forall i | 0 <= i < |rows| && rows[i].state.Open? ensures Explained(base.source, rows[i], rest) {
      StaysExplained(base, observed, ids, clock, now, i, rest);
    }
    forall c | c in rest ensures Recorded(base.source, rows, c) {
      var i := UntouchedRow(base, observed, ids, c);
      assert rows[i] == RescannedRow(base, ids, clock, now, i);
    }
  }

  lemma StaysExplained(base: Db, observed: Columns, ids: set<nat>, clock: nat -> int, now: int, i: nat,
                       rest: seq<SchemaChange>)
    requires Drifted(base, observed) && i < |base.changes| && RescannedRow(base, ids, clock, now, i).state.Open?
    requires rest == DiffOf(Settle(base.expected, observed, Touched(base.changes, ids)), observed, Dependencies(base))
    ensures Explained(base.source, RescannedRow(base, ids, clock, now, i), rest)
  {
    var c := MirrorChange(base.source, base.changes, DiffOf(base.expected, observed, Dependencies(base)), i);
    DiffAfterSettle(base.expected, observed, Dependencies(base), Touched(base.changes, ids));
    assert c in rest;
  }

  /** A change still in the diff has an OPEN row that was not accepted. */
  lemma UntouchedRow(base: Db, observed: Columns, ids: set<nat>, c: SchemaChange) returns (i: nat)
    requires Drifted(base, observed)
    requires c in DiffOf(Settle(base.expected, observed, Touched(base.changes, ids)), observed, Dependencies(base))
    ensures i < |base.changes| && base.changes[i].state.Open? && Describes(base.source, base.changes[i], c)
    ensures i !in ids && base.changes[i].Ref() !in Touched(base.changes, ids)
  {
    DiffAfterSettle(base.expected, observed, Dependencies(base), Touched(base.changes, ids));
    i := MirrorRow(base.source, base.changes, DiffOf(base.expected, observed, Dependencies(base)), c);
  }

  /** Emptying the baseline re-creates it from the snapshot and leaves ADD rows OPEN with no drift behind them. */
  lemma StaleAfterEmptying(base: Db, observed: seq<ColumnDefinition>, ids: seq<nat>, clock: nat -> int,
                           again: ScanCall, accepted: Db)
    requires PartlyAccepted(base, observed, ids, again)
    requires accepted == AcceptedState(base, RefMap(observed), Ids(ids), clock) && accepted.expected == map[]
    ensures var after := ScanRequest(accepted, again).db;
      DriftOf(after, observed) == [] && OpenFingerprints(after.changes) != {} &&
      Fingerprints(DriftOf(after, observed), base.source) == {}
  {
    var O := RefMap(observed);
    SnapshotKeyed(observed);
    RefMapFacts(observed);
    assert observed[0].Ref() in O;
    var i := RemainingAddition(base, O, Ids(ids), observed[0].Ref());
    OpenFingerprint(accepted.changes, i);
    FreshBaseline(accepted, again);
  }

  /** A scan of an empty baseline leaves no drift and touches no change row. */
  lemma FreshBaseline(db: Db, call: ScanCall)
    requires IsInitialCall(db, call) && DistinctRefs(call.collected.columns)
    ensures var after := ScanRequest(db, call).db;
      after.changes == db.changes && DriftOf(after, call.collected.columns) == [] &&
      Fingerprints(DriftOf(after, call.collected.columns), db.source) == {}
  {
    var after := ScanRequest(db, call).db;
    var O := RefMap(call.collected.columns);
    InitialRequest(db, call);
    SnapshotKeyed(call.collected.columns);
    DiffEmptyIff(O, O, Dependencies(after));
  }

  lemma RemainingAddition(base: Db, observed: Columns, ids: set<nat>, ref: ColumnRef) returns (i: nat)
    requires Drifted(base, observed) && ref in observed
    requires Settle(base.expected, observed, Touched(base.changes, ids)) == map[]
    ensures i < |base.changes| && base.changes[i].state.Open? && i !in ids
  {
    var c := AdditionReported(map[], observed, Dependencies(base), ref);
    i := UntouchedRow(base, observed, ids, c);
  }
}
