/**
 Interleaved scan and accept transactions over the committed rows of one source.

 Reads see committed data; writes become visible at commit.  The source row lock is taken
 by accept transactions and held to their end; the advisory lock is taken by scans and
 held to theirs.  Neither excludes the other.
 */
module Interleaving {
  import opened Options
  import opened Models

  /** `applied` counts the acceptances committed for the row. */
  datatype Row = Row(fingerprint: Fingerprint, state: ChangeState, applied: nat)

  datatype Tx =
    | Idle
    // An accept transaction, from the version its caller knows to its uncommitted writes.
    | Holding(expected: int)
    | Selected(expected: int, change: nat)
    | Locked(expected: int, change: nat)
    | Checked(change: nat)
    | Applied(change: nat, newVersion: int)
    // A scan: with the advisory lock, then with the OPEN rows it loaded and its diff.
    | Scanning
    | Loaded(open: set<nat>, diff: seq<Fingerprint>)

  datatype System = System(
    version: int, rows: seq<Row>, sourceLock: Option<nat>, scanLock: Option<nat>,
    commits: nat, txs: seq<Tx>)

  datatype Action =
    | Fetch(t: nat)                       // the caller reads the committed version
    | Guess(t: nat, v: int)               // the caller makes one up, or read it at another time
    | Select(t: nat, c: nat)
    | Lock(t: nat)
    | Compare(t: nat)
    | Apply(t: nat)
    | Commit(t: nat)
    | Abort(t: nat)
    | BeginScan(t: nat)
    | Load(t: nat, diff: seq<Fingerprint>)
    | CommitScan(t: nat)

  function Initial(n: nat): System {
    System(1, [], None, None, 0, seq(n, _ => Idle))
  }

  function OpenRows(rows: seq<Row>): set<nat> {
    set i | 0 <= i < |rows| && rows[i].state.Open?
  }

  function Release(lock: Option<nat>, t: nat): Option<nat> {
    if lock == Some(t) then None else lock
  }

  /** End of a transaction: back to idle, locks released. */
  function End(s: System, t: nat): System
    requires t < |s.txs|
  {
    s.(txs := s.txs[t := Idle], sourceLock := Release(s.sourceLock, t), scanLock := Release(s.scanLock, t))
  }

  function ScannedRow(rows: seq<Row>, i: nat, open: set<nat>, diff: seq<Fingerprint>): Row
    requires i < |rows|
  {
    if i in open && rows[i].fingerprint !in diff then rows[i].(state := Resolved) else rows[i]
  }

  function LoadedFingerprints(rows: seq<Row>, open: set<nat>): set<Fingerprint> {
    set i | i in open && i < |rows| :: rows[i].fingerprint
  }

  function Additions(diff: seq<Fingerprint>, known: set<Fingerprint>): seq<Row> {
    if diff == [] then []
    else (if diff[0] in known then [] else [Row(diff[0], Open, 0)]) + Additions(diff[1..], known)
  }

  /** The rows as a scan would leave them. */
  function AfterScan(rows: seq<Row>, open: set<nat>, diff: seq<Fingerprint>): seq<Row> {
    seq(|rows|, i requires 0 <= i < |rows| => ScannedRow(rows, i, open, diff))
      + Additions(diff, LoadedFingerprints(rows, open))
  }

  /** The partial unique index. */
  predicate AtMostOneOpen(rows: seq<Row>) {
    forall i, j :: 0 <= i < j < |rows| && rows[i].state.Open? && rows[j].state.Open? ==>
      rows[i].fingerprint != rows[j].fingerprint
  }

  function Tid(a: Action): nat { a.t }

  /** One action of one transaction; an action that cannot happen now changes nothing. */
  function Act(s: System, a: Action): System {
    var t := Tid(a);
    if t >= |s.txs| then s
    else match (a, s.txs[t])
      case (Fetch(_), Idle) => s.(txs := s.txs[t := Holding(s.version)])
      case (Guess(_, v), Idle) => s.(txs := s.txs[t := Holding(v)])
      case (Select(_, c), Holding(e)) =>
        if c < |s.rows| && s.rows[c].state.Open? then s.(txs := s.txs[t := Selected(e, c)]) else End(s, t)
      case (Lock(_), Selected(e, c)) =>
        if s.sourceLock.None? then s.(sourceLock := Some(t), txs := s.txs[t := Locked(e, c)]) else s
      case (Compare(_), Locked(e, c)) =>
        if e == s.version then s.(txs := s.txs[t := Checked(c)]) else End(s, t)
      case (Apply(_), Checked(c)) => s.(txs := s.txs[t := Applied(c, s.version + 1)])
      case (Commit(_), Applied(c, v)) =>
        if c < |s.rows| then
          End(s.(version := v, commits := s.commits + 1,
                 rows := s.rows[c := s.rows[c].(state := Accepted, applied := s.rows[c].applied + 1)]), t)
        else s
      case (BeginScan(_), Idle) =>
        if s.scanLock.None? then s.(scanLock := Some(t), txs := s.txs[t := Scanning]) else s
      case (Load(_, diff), Scanning) => s.(txs := s.txs[t := Loaded(OpenRows(s.rows), diff)])
      case (CommitScan(_), Loaded(open, diff)) =>
        var rows := AfterScan(s.rows, open, diff);
        if AtMostOneOpen(rows) then End(s.(rows := rows), t) else End(s, t)
      case (Abort(_), _) => End(s, t)
      case _ => s
  }

  function Interleave(s: System, actions: seq<Action>): System
    decreases |actions|
  {
    if actions == [] then s else Interleave(Act(s, actions[0]), actions[1..])
  }

  /** The caller took the version from a committed state before its row is read: nothing invented. */
  ghost predicate Honest(actions: seq<Action>) {
    forall a :: a in actions ==> !a.Guess?
  }

  /** If the action selects an OPEN row, its caller's version is not ahead of the committed one. */
  ghost predicate TimelyAct(s: System, a: Action) {
    a.Select? && a.t < |s.txs| && s.txs[a.t].Holding? && a.c < |s.rows| && s.rows[a.c].state.Open?
    ==> s.txs[a.t].expected <= s.version
  }

  /** So it is for every selection along the way, whatever callers do otherwise. */
  ghost predicate Timely(s: System, actions: seq<Action>)
    decreases |actions|
  {
    actions == [] || (TimelyAct(s, actions[0]) && Timely(Act(s, actions[0]), actions[1..]))
  }

  predicate DistinctDiff(diff: seq<Fingerprint>) {
    forall i, j :: 0 <= i < j < |diff| ==> diff[i] != diff[j]
  }

  /** Every scan's diff has distinct fingerprints, as `DiffFingerprintsDistinct` shows. */
  ghost predicate DistinctDiffs(actions: seq<Action>) {
    forall a :: a in actions && a.Load? ==> DistinctDiff(a.diff)
  }

  // ---------- what every interleaving keeps ----------

  ghost predicate AppliedSince(s: System, c: nat) {
    c < |s.rows| && s.rows[c].applied >= 1
  }

  /** What the locks guarantee about one transaction. */
  ghost predicate LockOk(s: System, t: nat)
    requires t < |s.txs|
  {
    match s.txs[t]
    case Locked(_, c) => s.sourceLock == Some(t) && c < |s.rows|
    case Checked(c) => s.sourceLock == Some(t) && c < |s.rows|
    case Applied(c, v) => s.sourceLock == Some(t) && c < |s.rows| && v == s.version + 1
    case Selected(_, c) => c < |s.rows|
    case Scanning => s.scanLock == Some(t)
    case Loaded(open, diff) => s.scanLock == Some(t) && OpenRows(s.rows) <= open
    case _ => true
  }

  ghost predicate LocksOk(s: System) {
    (forall t :: 0 <= t < |s.txs| ==> LockOk(s, t)) && s.version == 1 + s.commits &&
    forall i :: 0 <= i < |s.rows| ==>
      (s.rows[i].state.Open? ==> s.rows[i].applied == 0) && (s.rows[i].state.Accepted? ==> s.rows[i].applied >= 1)
  }

  lemma ScanKeepsShape(rows: seq<Row>, open: set<nat>, diff: seq<Fingerprint>)
    ensures var after := AfterScan(rows, open, diff);
      |rows| <= |after| &&
      (forall i :: 0 <= i < |rows| ==> after[i] == ScannedRow(rows, i, open, diff)) &&
      (forall i :: |rows| <= i < |after| ==> after[i].applied == 0 && after[i].state.Open?)
  {
    AdditionsFacts(diff, LoadedFingerprints(rows, open));
  }

  lemma {:induction false} AdditionsFacts(diff: seq<Fingerprint>, known: set<Fingerprint>)
    ensures forall r :: r in Additions(diff, known) ==>
      r.applied == 0 && r.state.Open? && r.fingerprint !in known && r.fingerprint in diff
    ensures DistinctDiff(diff) ==> AtMostOneOpen(Additions(diff, known))
  {
    if diff != [] {
      AdditionsFacts(diff[1..], known);
      var rest, all := Additions(diff[1..], known), Additions(diff, known);
      if DistinctDiff(diff) && all != rest {
        forall i, j | 0 <= i < j < |all| ensures all[i].fingerprint != all[j].fingerprint {
          assert all[j] == rest[j - 1] && rest[j - 1] in rest;
          if i > 0 { assert all[i] == rest[i - 1]; }
        }
      }
    }
  }

  lemma ActKeepsLocks(s: System, a: Action)
    requires LocksOk(s)
    ensures LocksOk(Act(s, a))
  {
    var t := Tid(a);
    if t < |s.txs| {
      if a.CommitScan? && s.txs[t].Loaded? {
        ScanKeepsShape(s.rows, s.txs[t].open, s.txs[t].diff);
      }
      var s' := Act(s, a);
      forall u | 0 <= u < |s'.txs| ensures LockOk(s', u) {
        assert LockOk(s, u) && LockOk(s, t);
      }
    }
  }

  // ---------- no double apply ----------

  /** The version a caller holds is behind as soon as its row has been applied. */
  ghost predicate HeldOk(s: System, t: nat)
    requires t < |s.txs|
  {
    match s.txs[t]
    case Selected(e, c) => e <= s.version && (AppliedSince(s, c) ==> e < s.version)
    case Locked(e, c) => e <= s.version && (AppliedSince(s, c) ==> e < s.version)
    case Checked(c) => !AppliedSince(s, c)
    case Applied(c, _) => !AppliedSince(s, c)
    case _ => true
  }

  ghost predicate AppliedOnce(s: System) {
    LocksOk(s) && (forall t :: 0 <= t < |s.txs| ==> HeldOk(s, t)) &&
    forall i :: 0 <= i < |s.rows| ==> s.rows[i].applied <= 1
  }

  lemma ActAppliesOnce(s: System, a: Action)
    requires AppliedOnce(s) && TimelyAct(s, a)
    ensures AppliedOnce(Act(s, a))
  {
    var t := Tid(a);
    ActKeepsLocks(s, a);
    if t < |s.txs| {
      if a.CommitScan? && s.txs[t].Loaded? {
        ScanKeepsShape(s.rows, s.txs[t].open, s.txs[t].diff);
      }
      var s' := Act(s, a);
      forall u | 0 <= u < |s'.txs| ensures HeldOk(s', u) {
        assert HeldOk(s, u) && HeldOk(s, t) && LockOk(s, u) && LockOk(s, t);
      }
      assert HeldOk(s, t);
    }
  }

  lemma {:induction false} RunAppliesOnce(s: System, actions: seq<Action>)
    requires AppliedOnce(s) && Timely(s, actions)
    ensures AppliedOnce(Interleave(s, actions))
    decreases |actions|
  {
    if actions != [] {
      ActAppliesOnce(s, actions[0]);
      RunAppliesOnce(Act(s, actions[0]), actions[1..]);
    }
  }

  /**
   In every interleaving of any number of accept and scan transactions in which no row is
   selected with a version from the future, no row is applied twice, and the version is
   one plus the number of committed acceptances.
   */
  lemma NoDoubleApply(n: nat, actions: seq<Action>)
    requires Timely(Initial(n), actions)
    ensures var s := Interleave(Initial(n), actions);
      s.version == 1 + s.commits && forall i :: 0 <= i < |s.rows| ==> s.rows[i].applied <= 1
  {
    RunAppliesOnce(Initial(n), actions);
  }

  ghost predicate HoldsPast(s: System) {
    LocksOk(s) && forall t :: 0 <= t < |s.txs| && s.txs[t].Holding? ==> s.txs[t].expected <= s.version
  }

  lemma {:induction false} HonestFrom(s: System, actions: seq<Action>)
    requires HoldsPast(s) && Honest(actions)
    ensures Timely(s, actions)
    decreases |actions|
  {
    if actions != [] {
      var a, t := actions[0], Tid(actions[0]);
      assert a in actions;
      ActKeepsLocks(s, a);
      assert t < |s.txs| ==> LockOk(s, t);
      HonestFrom(Act(s, a), actions[1..]);
    }
  }

  /** Callers that take the committed version before they select their row are never ahead of it. */
  lemma HonestIsTimely(n: nat, actions: seq<Action>)
    requires Honest(actions)
    ensures Timely(Initial(n), actions)
  {
    HonestFrom(Initial(n), actions);
  }

  lemma {:induction false} RunKeepsLocks(s: System, actions: seq<Action>)
    requires LocksOk(s)
    ensures LocksOk(Interleave(s, actions))
    decreases |actions|
  {
    if actions != [] {
      ActKeepsLocks(s, actions[0]);
      RunKeepsLocks(Act(s, actions[0]), actions[1..]);
    }
  }

  /** Whatever callers claim, a commit raises the committed version by exactly one. */
  lemma CommitRaisesByOne(n: nat, actions: seq<Action>, t: nat)
    ensures var s := Interleave(Initial(n), actions);
      t < |s.txs| && s.txs[t].Applied? ==> Act(s, Commit(t)).version == s.version + 1
  {
    RunKeepsLocks(Initial(n), actions);
    var s := Interleave(Initial(n), actions);
    if t < |s.txs| {
      assert LockOk(s, t);
    }
  }

  // ---------- OPEN rows stay unique ----------

  ghost predicate ScanDiffsDistinct(s: System) {
    forall t :: 0 <= t < |s.txs| && s.txs[t].Loaded? ==> DistinctDiff(s.txs[t].diff)
  }

  /** What a scan is about to write never collides with an OPEN row. */
  lemma ScanKeepsUnique(s: System, t: nat)
    requires LocksOk(s) && AtMostOneOpen(s.rows) && ScanDiffsDistinct(s)
    requires t < |s.txs| && s.txs[t].Loaded?
    ensures AtMostOneOpen(AfterScan(s.rows, s.txs[t].open, s.txs[t].diff))
  {
    var open, diff := s.txs[t].open, s.txs[t].diff;
    var after, known := AfterScan(s.rows, open, diff), LoadedFingerprints(s.rows, open);
    var more := Additions(diff, known);
    assert LockOk(s, t);
    ScanKeepsShape(s.rows, open, diff);
    AdditionsFacts(diff, known);
    forall i, j | 0 <= i < j < |after| && after[i].state.Open? && after[j].state.Open?
      ensures after[i].fingerprint != after[j].fingerprint
    {
      if j >= |s.rows| {
        assert after[j] == more[j - |s.rows|] && after[j] in more;
        if i < |s.rows| {
          assert i in OpenRows(s.rows);
          assert s.rows[i].fingerprint in known;
        } else {
          assert after[i] == more[i - |s.rows|];
        }
      }
    }
  }

  lemma ActKeepsUnique(s: System, a: Action)
    requires LocksOk(s) && AtMostOneOpen(s.rows) && ScanDiffsDistinct(s)
    requires a.Load? ==> DistinctDiff(a.diff)
    ensures AtMostOneOpen(Act(s, a).rows) && ScanDiffsDistinct(Act(s, a))
  {
    var t := Tid(a);
    if a.CommitScan? && t < |s.txs| && s.txs[t].Loaded? {
      ScanKeepsUnique(s, t);
    }
  }

  lemma {:induction false} RunKeepsUnique(s: System, actions: seq<Action>)
    requires LocksOk(s) && AtMostOneOpen(s.rows) && ScanDiffsDistinct(s) && DistinctDiffs(actions)
    ensures var after := Interleave(s, actions);
      LocksOk(after) && AtMostOneOpen(after.rows) && ScanDiffsDistinct(after)
    decreases |actions|
  {
    if actions != [] {
      assert actions[0] in actions;
      ActKeepsLocks(s, actions[0]);
      ActKeepsUnique(s, actions[0]);
      RunKeepsUnique(Act(s, actions[0]), actions[1..]);
    }
  }

  /**
   In every interleaving of scans and acceptances, honest callers or not, at most one OPEN
   row carries a fingerprint, and no scan's flush ever meets the unique index.
   */
  lemma UniqueIndexNeverViolated(n: nat, actions: seq<Action>, t: nat)
    requires DistinctDiffs(actions)
    ensures var s := Interleave(Initial(n), actions);
      AtMostOneOpen(s.rows) &&
      (t < |s.txs| && s.txs[t].Loaded? ==> AtMostOneOpen(AfterScan(s.rows, s.txs[t].open, s.txs[t].diff)))
  {
    RunKeepsUnique(Initial(n), actions);
    var s := Interleave(Initial(n), actions);
    if t < |s.txs| && s.txs[t].Loaded? {
      ScanKeepsUnique(s, t);
    }
  }

  // ---------- versions from the future ----------

  function Two(rows: seq<Row>, a: Tx, b: Tx): System {
    System(1, rows, None, None, 0, [a, b])
  }

  lemma Chain(s: System, a: Action, rest: seq<Action>)
    ensures Interleave(s, [a] + rest) == Interleave(Act(s, a), rest)
  {
    assert ([a] + rest)[1..] == rest;
  }

  lemma Chain2(s: System, a: Action, b: Action)
    ensures Interleave(s, [a, b]) == Act(Act(s, a), b)
  {
    Chain(s, a, [b]);
    Chain(Act(s, a), b, []);
    assert [a] + [b] == [a, b] && [b] + [] == [b];
  }

  lemma Chain4(s: System, a: Action, b: Action, c: Action, d: Action)
    ensures Interleave(s, [a, b, c, d]) == Act(Act(Act(Act(s, a), b), c), d)
  {
    InterleaveConcat(s, [a, b], [c, d]);
    Chain2(s, a, b);
    Chain2(Act(Act(s, a), b), c, d);
    assert [a, b] + [c, d] == [a, b, c, d];
  }

  lemma {:induction false} InterleaveConcat(s: System, a: seq<Action>, b: seq<Action>)
    ensures Interleave(s, a + b) == Interleave(Interleave(s, a), b)
    decreases |a|
  {
    if a == [] {
      assert a + b == b;
    } else {
      assert (a + b)[0] == a[0] && (a + b)[1..] == a[1..] + b;
      InterleaveConcat(Act(s, a[0]), a[1..], b);
    }
  }

  /** The steps of an acceptance once its row has been selected. */
  function Finish(t: nat): seq<Action> {
    [Lock(t), Compare(t), Apply(t), Commit(t)]
  }

  /** The system while transaction t holds the row lock in state `tx`. */
  function Holds(s: System, t: nat, tx: Tx): System
    requires t < |s.txs|
  {
    s.(sourceLock := Some(t), txs := s.txs[t := tx])
  }

  lemma LockAndCompare(s: System, t: nat, c: nat)
    requires t < |s.txs| && s.sourceLock.None? && s.txs[t] == Selected(s.version, c)
    ensures Interleave(s, [Lock(t), Compare(t)]) == Holds(s, t, Checked(c))
  {
    Chain2(s, Lock(t), Compare(t));
    assert Act(s, Lock(t)) == Holds(s, t, Locked(s.version, c));
  }

  function AcceptedOnceMore(s: System, t: nat, c: nat): System
    requires t < |s.txs| && c < |s.rows|
  {
    s.(version := s.version + 1, commits := s.commits + 1, txs := s.txs[t := Idle], scanLock := Release(s.scanLock, t),
       rows := s.rows[c := s.rows[c].(state := Accepted, applied := s.rows[c].applied + 1)])
  }

  lemma ApplyAndCommit(s: System, t: nat, c: nat)
    requires t < |s.txs| && s.sourceLock.None? && c < |s.rows|
    ensures Interleave(Holds(s, t, Checked(c)), [Apply(t), Commit(t)]) == AcceptedOnceMore(s, t, c)
  {
    Chain2(Holds(s, t, Checked(c)), Apply(t), Commit(t));
    assert Act(Holds(s, t, Checked(c)), Apply(t)) == Holds(s, t, Applied(c, s.version + 1));
  }

  /** An undisturbed acceptance whose caller holds the committed version goes through. */
  lemma FinishAccepts(s: System, t: nat, c: nat)
    requires t < |s.txs| && s.sourceLock.None? && c < |s.rows| && s.txs[t] == Selected(s.version, c)
    ensures Interleave(s, Finish(t)) == AcceptedOnceMore(s, t, c)
  {
    LockAndCompare(s, t, c);
    ApplyAndCommit(s, t, c);
    InterleaveConcat(s, [Lock(t), Compare(t)], [Apply(t), Commit(t)]);
    assert Finish(t) == [Lock(t), Compare(t)] + [Apply(t), Commit(t)];
  }

  /** Two callers that selected one row, one with the committed version and one with its successor. */
  predicate OneAhead(s: System, t: nat, u: nat, c: nat) {
    t < |s.txs| && u < |s.txs| && t != u && c < |s.rows| && s.sourceLock.None? &&
    s.txs[t] == Selected(s.version, c) && s.txs[u] == Selected(s.version + 1, c)
  }

  /** In any such state the row can be applied twice. */
  lemma FutureVersionAppliesTwice(s: System, t: nat, u: nat, c: nat)
    requires OneAhead(s, t, u, c)
    ensures var after := Interleave(s, Finish(t) + Finish(u));
      |after.rows| == |s.rows| && after.rows[c].applied == s.rows[c].applied + 2 && after.version == s.version + 2
  {
    InterleaveConcat(s, Finish(t), Finish(u));
    FinishAccepts(s, t, c);
    FinishAccepts(AcceptedOnceMore(s, t, c), u, c);
  }

  /** Such a state comes about when one of two callers guesses. */
  lemma FutureVersionIsReachable(f: Fingerprint) returns (actions: seq<Action>)
    ensures OneAhead(Interleave(Initial(2), actions), 0, 1, 0)
  {
    var scan := [BeginScan(0), Load(0, [f])] + [CommitScan(0), Abort(0)];
    var picks := [Fetch(0), Select(0, 0), Guess(1, 2), Select(1, 0)];
    FirstScan(f);
    Picks(f);
    InterleaveConcat(Initial(2), scan, picks);
    actions := scan + picks;
  }

  lemma Picks(f: Fingerprint)
    ensures Interleave(Two([Row(f, Open, 0)], Idle, Idle), [Fetch(0), Select(0, 0), Guess(1, 2), Select(1, 0)])
      == Two([Row(f, Open, 0)], Selected(1, 0), Selected(2, 0))
  {
    var s := Two([Row(f, Open, 0)], Idle, Idle);
    Chain4(s, Fetch(0), Select(0, 0), Guess(1, 2), Select(1, 0));
    assert Act(Act(s, Fetch(0)), Select(0, 0)) == Two([Row(f, Open, 0)], Selected(1, 0), Idle);
  }

  lemma FirstScan(f: Fingerprint)
    ensures Interleave(Initial(2), [BeginScan(0), Load(0, [f])] + [CommitScan(0), Abort(0)]) ==
      Two([Row(f, Open, 0)], Idle, Idle)
  {
    FirstLoad(f);
    FirstCommit(f);
    InterleaveConcat(Initial(2), [BeginScan(0), Load(0, [f])], [CommitScan(0), Abort(0)]);
  }

  lemma FirstLoad(f: Fingerprint)
    ensures Interleave(Initial(2), [BeginScan(0), Load(0, [f])]) ==
      System(1, [], None, Some(0), 0, [Loaded({}, [f]), Idle])
  {
    var s := Initial(2);
    assert s.txs == [Idle, Idle] && OpenRows([]) == {};
    Chain2(s, BeginScan(0), Load(0, [f]));
    assert Act(s, BeginScan(0)) == System(1, [], None, Some(0), 0, [Scanning, Idle]);
  }

  lemma FirstCommit(f: Fingerprint)
    ensures Interleave(System(1, [], None, Some(0), 0, [Loaded({}, [f]), Idle]), [CommitScan(0), Abort(0)]) ==
      Two([Row(f, Open, 0)], Idle, Idle)
  {
    var loaded := System(1, [], None, Some(0), 0, [Loaded({}, [f]), Idle]);
    Chain2(loaded, CommitScan(0), Abort(0));
    FirstRows(f);
    assert Act(loaded, CommitScan(0)) == Two([Row(f, Open, 0)], Idle, Idle);
  }

  lemma FirstRows(f: Fingerprint)
    ensures AfterScan([], {}, [f]) == [Row(f, Open, 0)]
  {
    assert [f][1..] == [] && LoadedFingerprints([], {}) == {};
    assert Additions([f][1..], {}) == [];
    assert Additions([f], {}) == [Row(f, Open, 0)];
  }

  // ---------- accepting a row that is no longer OPEN ----------

  /** The action commits a scan that had loaded row c as OPEN and no longer reports it. */
  ghost predicate Resolves(s: System, a: Action, c: nat) {
    a.CommitScan? && a.t < |s.txs| && s.txs[a.t].Loaded? && c < |s.rows| && c in s.txs[a.t].open &&
    s.rows[c].fingerprint !in s.txs[a.t].diff &&
    AtMostOneOpen(AfterScan(s.rows, s.txs[a.t].open, s.txs[a.t].diff))
  }

  ghost predicate ResolvedDuring(s: System, actions: seq<Action>, c: nat)
    decreases |actions|
  {
    actions != [] && (Resolves(s, actions[0], c) || ResolvedDuring(Act(s, actions[0]), actions[1..], c))
  }

  /** Transaction t is past its selection of row c. */
  predicate InFlight(s: System, t: nat, c: nat) {
    t < |s.txs| &&
    match s.txs[t]
    case Selected(_, x) => x == c
    case Locked(_, x) => x == c
    case Checked(x) => x == c
    case Applied(x, _) => x == c
    case _ => false
  }

  predicate NoSelection(actions: seq<Action>, t: nat) {
    forall a :: a in actions && a.Select? ==> a.t != t
  }

  lemma {:induction false} AppliedStays(s: System, actions: seq<Action>, c: nat)
    requires AppliedSince(s, c)
    ensures AppliedSince(Interleave(s, actions), c)
    decreases |actions|
  {
    if actions != [] {
      AppliedStays(Act(s, actions[0]), actions[1..], c);
    }
  }

  /** A transaction that has left its acceptance does not get back without another selection. */
  lemma {:induction false} LeftStays(s: System, actions: seq<Action>, t: nat, c: nat)
    requires !InFlight(s, t, c) && NoSelection(actions, t)
    ensures !InFlight(Interleave(s, actions), t, c)
    decreases |actions|
  {
    if actions != [] {
      assert actions[0] in actions;
      LeftStays(Act(s, actions[0]), actions[1..], t, c);
    }
  }

  /** In no acceptance, or in that of row c. */
  predicate Only(s: System, t: nat, c: nat) {
    InFlight(s, t, c) ||
    (t < |s.txs| && !s.txs[t].Selected? && !s.txs[t].Locked? && !s.txs[t].Checked? && !s.txs[t].Applied?)
  }

  lemma {:induction false} OnlyStays(s: System, actions: seq<Action>, t: nat, c: nat)
    requires Only(s, t, c) && NoSelection(actions, t)
    ensures Only(Interleave(s, actions), t, c)
    decreases |actions|
  {
    if actions != [] {
      assert actions[0] in actions;
      OnlyStays(Act(s, actions[0]), actions[1..], t, c);
    }
  }

  lemma StepFate(s: System, a: Action, t: nat, c: nat)
    requires AppliedOnce(s) && InFlight(s, t, c) && InFlight(Act(s, a), t, c) && !AppliedSince(Act(s, a), c)
    ensures c < |s.rows| <= |Act(s, a).rows|
    ensures Act(s, a).rows[c].state.Open? <==> s.rows[c].state.Open? && !Resolves(s, a, c)
  {
    assert LockOk(s, t);
    if a.t < |s.txs| { assert LockOk(s, a.t); }
  }

  lemma {:induction false} Fate(s: System, actions: seq<Action>, t: nat, c: nat)
    requires AppliedOnce(s) && Timely(s, actions) && InFlight(s, t, c) && NoSelection(actions, t)
    requires InFlight(Interleave(s, actions), t, c) && !AppliedSince(Interleave(s, actions), c)
    ensures c < |s.rows| <= |Interleave(s, actions).rows|
    ensures Interleave(s, actions).rows[c].state.Open? <==> s.rows[c].state.Open? && !ResolvedDuring(s, actions, c)
    decreases |actions|
  {
    assert LockOk(s, t);
    if actions != [] {
      var a, rest := actions[0], actions[1..];
      assert a in actions;
      assert InFlight(Act(s, a), t, c) by {
        if !InFlight(Act(s, a), t, c) { LeftStays(Act(s, a), rest, t, c); }
      }
      assert !AppliedSince(Act(s, a), c) by {
        if AppliedSince(Act(s, a), c) { AppliedStays(Act(s, a), rest, c); }
      }
      ActAppliesOnce(s, a);
      StepFate(s, a, t, c);
      Fate(Act(s, a), rest, t, c);
    }
  }

  /**
   A caller selects an OPEN row and gets as far as its commit.  The commit finds the row
   still OPEN exactly when no scan that had loaded the row and no longer reports it
   committed in between; otherwise it turns a RESOLVED row into an ACCEPTED one.
   */
  lemma LateAcceptIff(n: nat, before: seq<Action>, t: nat, c: nat, during: seq<Action>)
    requires Timely(Initial(n), before + [Select(t, c)] + during) && NoSelection(during, t)
    requires var s := Interleave(Initial(n), before);
      t < |s.txs| && s.txs[t].Holding? && c < |s.rows| && s.rows[c].state.Open?
    requires var ready := Interleave(Initial(n), before + [Select(t, c)] + during);
      t < |ready.txs| && ready.txs[t].Applied?
    ensures var selected := Interleave(Initial(n), before + [Select(t, c)]);
      var ready := Interleave(Initial(n), before + [Select(t, c)] + during);
      c < |ready.rows| && (ready.rows[c].state.Open? <==> !ResolvedDuring(selected, during, c)) &&
      (!ready.rows[c].state.Open? ==> ready.rows[c].state.Resolved?) &&
      Act(ready, Commit(t)).rows[c] == ready.rows[c].(state := Accepted, applied := 1)
  {
    var s, select := Interleave(Initial(n), before), [Select(t, c)];
    TimelySplit(Initial(n), before + select, during);
    TimelySplit(Initial(n), before, select);
    InterleaveConcat(Initial(n), before, select);
    InterleaveConcat(Initial(n), before + select, during);
    Chain(s, Select(t, c), []);
    RunAppliesOnce(Initial(n), before + select);
    RunAppliesOnce(Initial(n), before + select + during);
    SelectedFate(Interleave(Initial(n), before + select), during, t, c);
  }

  lemma {:induction false} TimelySplit(s: System, a: seq<Action>, b: seq<Action>)
    requires Timely(s, a + b)
    ensures Timely(s, a) && Timely(Interleave(s, a), b)
    decreases |a|
  {
    if a == [] {
      assert a + b == b;
    } else {
      assert (a + b)[0] == a[0] && (a + b)[1..] == a[1..] + b;
      TimelySplit(Act(s, a[0]), a[1..], b);
    }
  }

  lemma SelectedFate(selected: System, during: seq<Action>, t: nat, c: nat)
    requires AppliedOnce(selected) && Timely(selected, during) && NoSelection(during, t)
    requires t < |selected.txs| && selected.txs[t].Selected? && selected.txs[t].change == c
    requires c < |selected.rows| && selected.rows[c].state.Open?
    requires AppliedOnce(Interleave(selected, during))
    requires t < |Interleave(selected, during).txs| && Interleave(selected, during).txs[t].Applied?
    ensures var ready := Interleave(selected, during);
      c < |ready.rows| && (ready.rows[c].state.Open? <==> !ResolvedDuring(selected, during, c)) &&
      (!ready.rows[c].state.Open? ==> ready.rows[c].state.Resolved?) &&
      Act(ready, Commit(t)).rows[c] == ready.rows[c].(state := Accepted, applied := 1)
  {
    var ready := Interleave(selected, during);
    OnlyStays(selected, during, t, c);
    assert HeldOk(ready, t) && LockOk(ready, t);
    Fate(selected, during, t, c);
  }

  /** It happens with honest callers: one selects a row, a scan resolves it, and the acceptance goes through. */
  lemma ResolvedRowCanBeAccepted(f: Fingerprint) returns (actions: seq<Action>)
    ensures Honest(actions)
    ensures var resolved := Interleave(Initial(2), actions);
      resolved.rows == [Row(f, Resolved, 0)] && Interleave(resolved, Finish(0)).rows == [Row(f, Accepted, 1)]
  {
    var scan := [BeginScan(0), Load(0, [f])] + [CommitScan(0), Abort(0)];
    var race := [Fetch(0), Select(0, 0)] + [BeginScan(1), Load(1, [])] + [CommitScan(1), Abort(1)];
    actions := scan + race;
    assert Interleave(Initial(2), actions) == Two([Row(f, Resolved, 0)], Selected(1, 0), Idle) by {
      FirstScan(f);
      InterleaveConcat(Initial(2), scan, race);
      Race(f);
    }
    FinishAccepts(Two([Row(f, Resolved, 0)], Selected(1, 0), Idle), 0, 0);
  }

  lemma Race(f: Fingerprint)
    ensures Interleave(Two([Row(f, Open, 0)], Idle, Idle),
                       [Fetch(0), Select(0, 0)] + [BeginScan(1), Load(1, [])] + [CommitScan(1), Abort(1)])
      == Two([Row(f, Resolved, 0)], Selected(1, 0), Idle)
  {
    var s := Two([Row(f, Open, 0)], Idle, Idle);
    var picked := Two([Row(f, Open, 0)], Selected(1, 0), Idle);
    var loaded := System(1, [Row(f, Open, 0)], None, Some(1), 0, [Selected(1, 0), Loaded({0}, [])]);
    InterleaveConcat(s, [Fetch(0), Select(0, 0)] + [BeginScan(1), Load(1, [])], [CommitScan(1), Abort(1)]);
    InterleaveConcat(s, [Fetch(0), Select(0, 0)], [BeginScan(1), Load(1, [])]);
    Chain2(s, Fetch(0), Select(0, 0));
    assert Act(Act(s, Fetch(0)), Select(0, 0)) == picked;
    SecondLoad(f, picked, loaded);
    SecondCommit(f, loaded);
  }

  lemma SecondLoad(f: Fingerprint, picked: System, loaded: System)
    requires picked == Two([Row(f, Open, 0)], Selected(1, 0), Idle)
    requires loaded == System(1, [Row(f, Open, 0)], None, Some(1), 0, [Selected(1, 0), Loaded({0}, [])])
    ensures Interleave(picked, [BeginScan(1), Load(1, [])]) == loaded
  {
    Chain2(picked, BeginScan(1), Load(1, []));
    assert OpenRows([Row(f, Open, 0)]) == {0};
    assert Act(picked, BeginScan(1)) == picked.(scanLock := Some(1), txs := [Selected(1, 0), Scanning]);
  }

  lemma SecondCommit(f: Fingerprint, loaded: System)
    requires loaded == System(1, [Row(f, Open, 0)], None, Some(1), 0, [Selected(1, 0), Loaded({0}, [])])
    ensures Interleave(loaded, [CommitScan(1), Abort(1)]) == Two([Row(f, Resolved, 0)], Selected(1, 0), Idle)
  {
    var rows := [Row(f, Open, 0)];
    Chain2(loaded, CommitScan(1), Abort(1));
    assert Additions([], LoadedFingerprints(rows, {0})) == [];
    assert AfterScan(rows, {0}, []) == [Row(f, Resolved, 0)];
    assert Act(loaded, CommitScan(1)) == Two([Row(f, Resolved, 0)], Selected(1, 0), Idle);
  }
}
