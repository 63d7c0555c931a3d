/**
 The alert outbox: bounded retries driven by dispatch and retry requests.

 `log` records what the providers were asked to send.  It belongs to the outside world,
 so a rollback restores the delivery rows but not the log.
 */
module Outbox {
  import opened Options
  import opened Models
  import opened Database

  const MAX_ATTEMPTS := 3
  const RETRY_DELAYS := [60, 300]

  /** Times are in milliseconds. */
  function Seconds(n: int): int { 1000 * n }

  datatype Send = Send(delivery: nat, at: int, ok: bool)

  datatype Outbox = Outbox(deliveries: seq<Delivery>, log: seq<Send>)

  datatype AttemptError =
    | DeliveryNotFound
    | MaxAttemptsExceeded
    | RetryNotDue(at: int)
    | ChannelNotConfigured
    | SenderRaised

  /**
   Who can be reached, which deliveries are taken by their provider, which make their sender
   raise something other than `DeliveryFailure` before anything goes out, and the time.
   */
  datatype Senders = Senders(notifiers: set<AlertChannel>, succeeding: set<nat>, raising: set<nat>, now: int)

  function Started(d: Delivery): Delivery {
    d.(attemptCount := d.attemptCount + 1, status := Pending, nextRetryAt := None)
  }

  function MarkedSent(d: Delivery, now: int): Delivery {
    d.(status := Sent, nextRetryAt := None, sentAt := Some(now))
  }

  function NextRetry(attempts: nat, now: int): Option<int>
    requires attempts >= 1
  {
    if attempts < MAX_ATTEMPTS then Some(now + Seconds(RETRY_DELAYS[attempts - 1])) else None
  }

  function MarkedFailed(d: Delivery, next: Option<int>): Delivery {
    d.(status := Failed, nextRetryAt := next)
  }

  /** One attempt at one delivery row of an existing scan. */
  function AttemptRow(d: Delivery, channelReady: bool, raises: bool, now: int, ok: bool)
    : Result<Delivery, AttemptError>
  {
    if d.attemptCount >= MAX_ATTEMPTS then Err(MaxAttemptsExceeded)
    else if d.nextRetryAt.Some? && now < d.nextRetryAt.value then Err(RetryNotDue(d.nextRetryAt.value))
    else if !channelReady then Err(ChannelNotConfigured)
    else if raises then Err(SenderRaised)
    else if ok then Ok(MarkedSent(Started(d), now))
    else Ok(MarkedFailed(Started(d), NextRetry(Started(d).attemptCount, now)))
  }

  function Attempt(o: Outbox, id: nat, s: Senders): Result<Outbox, AttemptError> {
    if id >= |o.deliveries| then Err(DeliveryNotFound)
    else match AttemptRow(o.deliveries[id], o.deliveries[id].channel in s.notifiers, id in s.raising, s.now,
      id in s.succeeding)
      case Err(e) => Err(e)
      case Ok(d) => Ok(Outbox(o.deliveries[id := d], o.log + [Send(id, s.now, id in s.succeeding)]))
  }

  /** PENDING rows of a scan in creation order. */
  function PendingOf(deliveries: seq<Delivery>, scan: nat): seq<nat> {
    if deliveries == [] then [] else
    var n := |deliveries| - 1;
    PendingOf(deliveries[..n], scan) +
      (if deliveries[n].scan == scan && deliveries[n].status.Pending? then [n] else [])
  }

  datatype Batch = Batch(outbox: Outbox, raised: bool)

  function AttemptEach(o: Outbox, ids: seq<nat>, s: Senders): Batch
    decreases |ids|
  {
    if ids == [] then Batch(o, false)
    else match Attempt(o, ids[0], s)
      case Err(_) => Batch(o, true)
      case Ok(next) => AttemptEach(next, ids[1..], s)
  }

  /** A dispatch is one transaction: an exception undoes every row change made by it. */
  function DispatchRequest(o: Outbox, scan: nat, s: Senders): Outbox {
    var b := AttemptEach(o, PendingOf(o.deliveries, scan), s);
    if b.raised then Outbox(o.deliveries, b.outbox.log) else b.outbox
  }

  function RetryRequest(o: Outbox, id: nat, s: Senders): Outbox {
    match Attempt(o, id, s)
    case Err(_) => o
    case Ok(next) => next
  }

  // ---------- rows against the log ----------

  /** The sends made for one delivery, in order. */
  function LogOf(log: seq<Send>, id: nat): seq<Send> {
    if log == [] then [] else
    var n := |log| - 1;
    LogOf(log[..n], id) + (if log[n].delivery == id then [log[n]] else [])
  }

  /** A failed first or second send is followed no sooner than the delay of its attempt. */
  ghost predicate Spaced(sends: seq<Send>) {
    forall k :: 0 <= k < |sends| - 1 && k < |RETRY_DELAYS| && !sends[k].ok ==>
      sends[k + 1].at >= sends[k].at + Seconds(RETRY_DELAYS[k])
  }

  /** When the last successful one of these sends was made. */
  function LastSuccess(sends: seq<Send>): Option<int> {
    if sends == [] then None else
    var n := |sends| - 1;
    if sends[n].ok then Some(sends[n].at) else LastSuccess(sends[..n])
  }

  /**
   The row says exactly what was sent: how often, whether the last send succeeded, when the last
   success was and when the next send may come.
   */
  ghost predicate Reflects(d: Delivery, sends: seq<Send>) {
    d.attemptCount == |sends| <= MAX_ATTEMPTS && Spaced(sends) && d.sentAt == LastSuccess(sends) &&
    if sends == [] then d.status.Pending? && d.nextRetryAt.None?
    else
      var last := sends[|sends| - 1];
      if last.ok then d.status.Sent? && d.nextRetryAt.None?
      else d.status.Failed? && d.nextRetryAt == NextRetry(|sends|, last.at)
  }

  ghost predicate Faithful(o: Outbox) {
    (forall id :: 0 <= id < |o.deliveries| ==> Reflects(o.deliveries[id], LogOf(o.log, id))) &&
    (forall x :: x in o.log ==> x.delivery < |o.deliveries|)
  }

  /** What holds of a delivery row whatever happened to the transactions around it. */
  ghost predicate RowOk(d: Delivery) {
    d.attemptCount <= MAX_ATTEMPTS &&
    (d.status.Pending? <==> d.attemptCount == 0) &&
    (d.nextRetryAt.Some? <==> d.status.Failed? && d.attemptCount < MAX_ATTEMPTS) &&
    (d.status.Sent? ==> d.sentAt.Some?)
  }

  lemma LogOfAppend(log: seq<Send>, x: Send, id: nat)
    ensures LogOf(log + [x], id) == LogOf(log, id) + (if x.delivery == id then [x] else [])
  {
    assert (log + [x])[..|log|] == log;
  }

  lemma SpacedAppend(sends: seq<Send>, x: Send)
    requires Spaced(sends)
    requires sends != [] && !sends[|sends| - 1].ok && |sends| <= |RETRY_DELAYS| ==>
      x.at >= sends[|sends| - 1].at + Seconds(RETRY_DELAYS[|sends| - 1])
    ensures Spaced(sends + [x])
  {
  }

  lemma AttemptReflects(d: Delivery, sends: seq<Send>, ready: bool, raises: bool, now: int, ok: bool, id: nat)
    requires Reflects(d, sends) && AttemptRow(d, ready, raises, now, ok).Ok?
    ensures Reflects(AttemptRow(d, ready, raises, now, ok).value, sends + [Send(id, now, ok)])
  {
    SpacedAppend(sends, Send(id, now, ok));
    assert (sends + [Send(id, now, ok)])[..|sends|] == sends;
  }

  /** Fewer than three sends so far, and the delay of the last one is over if it failed. */
  predicate MaySend(sends: seq<Send>, now: int) {
    |sends| < 3 &&
    (sends != [] && !sends[|sends| - 1].ok ==>
      now >= sends[|sends| - 1].at + Pause(|sends|))
  }

  /** How long after a failed n-th send the next may follow. */
  function Pause(n: nat): int {
    if n == 1 then 60_000 else 300_000
  }

  lemma AttemptAllowedIff(d: Delivery, sends: seq<Send>, ready: bool, raises: bool, now: int, ok: bool)
    requires Reflects(d, sends)
    ensures AttemptRow(d, ready, raises, now, ok).Ok? <==> MaySend(sends, now) && ready && !raises
  {
  }

  /** The delivery once another send has been made for it. */
  function AfterSend(d: Delivery, sends: seq<Send>, now: int, ok: bool): Delivery {
    var n := |sends|;
    var retry := if n < 2 then Some(now + Pause(n + 1)) else None;
    if ok then Delivery(d.scan, d.channel, Sent, n + 1, None, Some(now))
    else Delivery(d.scan, d.channel, Failed, n + 1, retry, LastSuccess(sends))
  }

  /** Why no further send is made, if none is, in the order in which the program looks. */
  function Refusal(d: Delivery, sends: seq<Send>, id: nat, s: Senders): Option<AttemptError> {
    var n := |sends|;
    if n >= 3 then Some(MaxAttemptsExceeded)
    else if n > 0 && !sends[n - 1].ok && s.now < sends[n - 1].at + Pause(n) then
      Some(RetryNotDue(sends[n - 1].at + Pause(n)))
    else if d.channel !in s.notifiers then Some(ChannelNotConfigured)
    else if id in s.raising then Some(SenderRaised)
    else None
  }

  lemma AttemptRowExact(d: Delivery, sends: seq<Send>, id: nat, s: Senders)
    requires Reflects(d, sends)
    ensures AttemptRow(d, d.channel in s.notifiers, id in s.raising, s.now, id in s.succeeding) ==
      match Refusal(d, sends, id, s)
      case Some(e) => Err(e)
      case None => Ok(AfterSend(d, sends, s.now, id in s.succeeding))
  {
  }

  /**
   One attempt in terms of the sends made so far.  It is refused, with nothing changed, when there
   is no such delivery, three sends were made, the pause after a failure is not over, the channel
   has no sender or the sender raises.  Otherwise one send is made, and the row, and no other,
   counts it and records how it went.
   */
  lemma AttemptExact(o: Outbox, id: nat, s: Senders)
    requires Faithful(o)
    ensures Attempt(o, id, s) ==
      if id >= |o.deliveries| then Err(DeliveryNotFound)
      else
        var d, sends := o.deliveries[id], LogOf(o.log, id);
        match Refusal(d, sends, id, s)
        case Some(e) => Err(e)
        case None => Ok(Outbox(o.deliveries[id := AfterSend(d, sends, s.now, id in s.succeeding)],
                               o.log + [Send(id, s.now, id in s.succeeding)]))
  {
    if id < |o.deliveries| {
      AttemptRowExact(o.deliveries[id], LogOf(o.log, id), id, s);
    }
  }

  lemma AttemptFaithful(o: Outbox, id: nat, s: Senders)
    requires Faithful(o) && Attempt(o, id, s).Ok?
    ensures Faithful(Attempt(o, id, s).value)
  {
    var o' := Attempt(o, id, s).value;
    var x := Send(id, s.now, id in s.succeeding);
    forall j | 0 <= j < |o'.deliveries| ensures Reflects(o'.deliveries[j], LogOf(o'.log, j)) {
      LogOfAppend(o.log, x, j);
      if j == id {
        AttemptReflects(o.deliveries[id], LogOf(o.log, id), o.deliveries[id].channel in s.notifiers, id in s.raising,
                        s.now, id in s.succeeding, id);
      } else {
        assert LogOf(o.log, j) + [] == LogOf(o.log, j);
      }
    }
  }

  lemma {:induction false} PendingOfExact(deliveries: seq<Delivery>, scan: nat)
    ensures forall id :: id in PendingOf(deliveries, scan) <==>
      0 <= id < |deliveries| && deliveries[id].scan == scan && deliveries[id].status.Pending?
    ensures forall i, j :: 0 <= i < j < |PendingOf(deliveries, scan)| ==>
      PendingOf(deliveries, scan)[i] < PendingOf(deliveries, scan)[j]
  {
    if deliveries != [] {
      var n := |deliveries| - 1;
      PendingOfExact(deliveries[..n], scan);
      var front := PendingOf(deliveries[..n], scan);
      assert forall i :: 0 <= i < |front| ==> front[i] in front;
    }
  }

  /** The delivery has a notifier, and it returns or reports a failure. */
  predicate CanSend(d: Delivery, id: nat, s: Senders) {
    d.channel in s.notifiers && id !in s.raising
  }

  ghost predicate SendersReady(deliveries: seq<Delivery>, ids: seq<nat>, s: Senders) {
    forall id :: id in ids ==> id < |deliveries| && CanSend(deliveries[id], id, s)
  }

  /** Untried rows still to be processed by a batch. */
  ghost predicate Untried(deliveries: seq<Delivery>, ids: seq<nat>) {
    (forall id :: id in ids ==>
      id < |deliveries| && deliveries[id].attemptCount == 0 && deliveries[id].nextRetryAt.None?) &&
    (forall i, j :: 0 <= i < j < |ids| ==> ids[i] < ids[j])
  }

  lemma AttemptUntried(o: Outbox, ids: seq<nat>, s: Senders)
    requires Untried(o.deliveries, ids) && ids != []
    ensures ids[0] in ids && ids[0] < |o.deliveries|
    ensures Attempt(o, ids[0], s).Ok? <==> CanSend(o.deliveries[ids[0]], ids[0], s)
    ensures Attempt(o, ids[0], s).Ok? ==>
      Untried(Attempt(o, ids[0], s).value.deliveries, ids[1..]) &&
      (SendersReady(o.deliveries, ids, s) ==> SendersReady(Attempt(o, ids[0], s).value.deliveries, ids[1..], s))
  {
    assert ids[0] in ids;
    forall id | id in ids[1..] ensures id in ids && id != ids[0] {
      var k :| 0 <= k < |ids[1..]| && ids[1..][k] == id;
      assert ids[k + 1] == id;
    }
  }

  /** After trying the rows `ids`: same rows, the tried ones no longer PENDING, the others as they were. */
  ghost predicate Tried(before: seq<Delivery>, after: seq<Delivery>, ids: seq<nat>) {
    |before| == |after| &&
    forall id :: 0 <= id < |before| ==>
      after[id].scan == before[id].scan && after[id].channel == before[id].channel &&
      if id in ids then !after[id].status.Pending? else after[id] == before[id]
  }

  lemma TriedFirst(o: Outbox, ids: seq<nat>, s: Senders, after: seq<Delivery>)
    requires ids != [] && Attempt(o, ids[0], s).Ok? && ids[0] !in ids[1..]
    requires Tried(Attempt(o, ids[0], s).value.deliveries, after, ids[1..])
    ensures Tried(o.deliveries, after, ids)
  {
    assert ids == [ids[0]] + ids[1..];
    var next := Attempt(o, ids[0], s).value.deliveries;
    forall id | 0 <= id < |o.deliveries|
      ensures after[id].scan == o.deliveries[id].scan && after[id].channel == o.deliveries[id].channel
      ensures if id in ids then !after[id].status.Pending? else after[id] == o.deliveries[id]
    {
      if id != ids[0] {
        assert next[id] == o.deliveries[id];
      }
    }
  }

  /** What a batch over deliverable untried rows does: one send each, no exception. */
  lemma {:induction false} BatchSends(o: Outbox, ids: seq<nat>, s: Senders)
    requires Untried(o.deliveries, ids) && SendersReady(o.deliveries, ids, s)
    ensures var b := AttemptEach(o, ids, s);
      !b.raised && |b.outbox.log| == |o.log| + |ids| && (Faithful(o) ==> Faithful(b.outbox)) &&
      Tried(o.deliveries, b.outbox.deliveries, ids)
    decreases |ids|
  {
    if ids != [] {
      AttemptUntried(o, ids, s);
      var next := Attempt(o, ids[0], s).value;
      if Faithful(o) { AttemptFaithful(o, ids[0], s); }
      BatchSends(next, ids[1..], s);
      TriedFirst(o, ids, s, AttemptEach(next, ids[1..], s).outbox.deliveries);
    }
  }

  lemma PendingUntried(o: Outbox, scan: nat)
    requires forall d :: d in o.deliveries ==> RowOk(d)
    ensures Untried(o.deliveries, PendingOf(o.deliveries, scan))
  {
    PendingOfExact(o.deliveries, scan);
    forall id | id in PendingOf(o.deliveries, scan)
      ensures id < |o.deliveries| && o.deliveries[id].attemptCount == 0 && o.deliveries[id].nextRetryAt.None?
    {
      assert o.deliveries[id] in o.deliveries;
    }
  }

  lemma FaithfulRows(o: Outbox)
    requires Faithful(o)
    ensures forall d :: d in o.deliveries ==> RowOk(d)
  {
    forall d | d in o.deliveries ensures RowOk(d) {
      var id :| 0 <= id < |o.deliveries| && o.deliveries[id] == d;
      assert Reflects(o.deliveries[id], LogOf(o.log, id));
    }
  }

  // ---------- dispatch ----------

  /** Every PENDING row of the scan has a notifier that returns or reports a failure. */
  ghost predicate Configured(o: Outbox, scan: nat, s: Senders) {
    SendersReady(o.deliveries, PendingOf(o.deliveries, scan), s)
  }

  /** The first row a dispatch would try has none. */
  ghost predicate BlockedAtOnce(o: Outbox, scan: nat, s: Senders) {
    var ids := PendingOf(o.deliveries, scan);
    ids != [] && ids[0] < |o.deliveries| && !CanSend(o.deliveries[ids[0]], ids[0], s)
  }

  lemma {:induction false} LogOnlyGrows(o: Outbox, ids: seq<nat>, s: Senders)
    ensures o.log <= AttemptEach(o, ids, s).outbox.log
    ensures forall id :: |LogOf(o.log, id)| <= |LogOf(AttemptEach(o, ids, s).outbox.log, id)|
    decreases |ids|
  {
    if ids != [] && Attempt(o, ids[0], s).Ok? {
      var next := Attempt(o, ids[0], s).value;
      forall id ensures |LogOf(o.log, id)| <= |LogOf(next.log, id)| {
        LogOfAppend(o.log, Send(ids[0], s.now, ids[0] in s.succeeding), id);
      }
      LogOnlyGrows(next, ids[1..], s);
    }
  }

  lemma {:induction false} BatchRaises(o: Outbox, ids: seq<nat>, s: Senders)
    requires Untried(o.deliveries, ids) && !SendersReady(o.deliveries, ids, s)
    ensures AttemptEach(o, ids, s).raised
    decreases |ids|
  {
    AttemptUntried(o, ids, s);
    if Attempt(o, ids[0], s).Ok? {
      var next := Attempt(o, ids[0], s).value;
      assert ids == [ids[0]] + ids[1..];
      BatchRaises(next, ids[1..], s);
    }
  }

  /** More was sent for some delivery than its row records. */
  ghost predicate Excess(o: Outbox) {
    exists id :: 0 <= id < |o.deliveries| && |LogOf(o.log, id)| > o.deliveries[id].attemptCount
  }

  lemma FaithfulHasNoExcess(o: Outbox)
    requires Faithful(o)
    ensures !Excess(o)
  {
    forall id | 0 <= id < |o.deliveries| ensures |LogOf(o.log, id)| == o.deliveries[id].attemptCount {
      assert Reflects(o.deliveries[id], LogOf(o.log, id));
    }
  }

  lemma RollbackLosesRecord(o: Outbox, scan: nat, s: Senders)
    requires Faithful(o) && !Configured(o, scan, s) && !BlockedAtOnce(o, scan, s)
    ensures Excess(DispatchRequest(o, scan, s))
  {
    var ids := PendingOf(o.deliveries, scan);
    FaithfulRows(o);
    PendingUntried(o, scan);
    BatchRaises(o, ids, s);
    assert ids[0] in ids;
    AttemptUntried(o, ids, s);
    var next, after := Attempt(o, ids[0], s).value, DispatchRequest(o, scan, s);
    LogOfAppend(o.log, Send(ids[0], s.now, ids[0] in s.succeeding), ids[0]);
    LogOnlyGrows(next, ids[1..], s);
    assert |LogOf(after.log, ids[0])| > after.deliveries[ids[0]].attemptCount;
  }

  /**
   Rows and sends stay in step across a dispatch exactly when every pending row has a
   notifier that returns or reports a failure, or the first one already has none.  Otherwise
   the exception for a later row undoes the record of sends already made.
   */
  lemma DispatchFaithfulIff(o: Outbox, scan: nat, s: Senders)
    requires Faithful(o)
    ensures Faithful(DispatchRequest(o, scan, s)) <==> Configured(o, scan, s) || BlockedAtOnce(o, scan, s)
  {
    var ids := PendingOf(o.deliveries, scan);
    FaithfulRows(o);
    PendingUntried(o, scan);
    if Configured(o, scan, s) {
      BatchSends(o, ids, s);
    } else if BlockedAtOnce(o, scan, s) {
      AttemptUntried(o, ids, s);
    } else {
      RollbackLosesRecord(o, scan, s);
      if Faithful(DispatchRequest(o, scan, s)) {
        FaithfulHasNoExcess(DispatchRequest(o, scan, s));
      }
    }
  }

  lemma AttemptKeepsExcess(o: Outbox, id: nat, s: Senders)
    requires Excess(o) && Attempt(o, id, s).Ok?
    ensures Excess(Attempt(o, id, s).value)
  {
    var k :| 0 <= k < |o.deliveries| && |LogOf(o.log, k)| > o.deliveries[k].attemptCount;
    var next := Attempt(o, id, s).value;
    LogOfAppend(o.log, Send(id, s.now, id in s.succeeding), k);
    assert |LogOf(next.log, k)| > next.deliveries[k].attemptCount;
  }

  lemma {:induction false} BatchKeepsExcess(o: Outbox, ids: seq<nat>, s: Senders)
    requires Excess(o)
    ensures Excess(AttemptEach(o, ids, s).outbox)
    decreases |ids|
  {
    if ids != [] && Attempt(o, ids[0], s).Ok? {
      AttemptKeepsExcess(o, ids[0], s);
      BatchKeepsExcess(Attempt(o, ids[0], s).value, ids[1..], s);
    }
  }

  /** What a dispatch has failed to record, no later dispatch records. */
  lemma DispatchKeepsExcess(o: Outbox, scan: nat, s: Senders)
    requires Excess(o)
    ensures Excess(DispatchRequest(o, scan, s))
  {
    var ids, after := PendingOf(o.deliveries, scan), DispatchRequest(o, scan, s);
    BatchKeepsExcess(o, ids, s);
    LogOnlyGrows(o, ids, s);
    if AttemptEach(o, ids, s).raised {
      var k :| 0 <= k < |o.deliveries| && |LogOf(o.log, k)| > o.deliveries[k].attemptCount;
      assert |LogOf(after.log, k)| > after.deliveries[k].attemptCount;
    }
  }

  /** With a notifier for every pending channel, dispatching a scan a second time sends nothing. */
  lemma SecondDispatchSendsNothing(o: Outbox, scan: nat, s: Senders, again: Senders)
    requires (forall d :: d in o.deliveries ==> RowOk(d)) && Configured(o, scan, s)
    ensures DispatchRequest(DispatchRequest(o, scan, s), scan, again) == DispatchRequest(o, scan, s)
  {
    var ids := PendingOf(o.deliveries, scan);
    var once := DispatchRequest(o, scan, s);
    PendingUntried(o, scan);
    BatchSends(o, ids, s);
    var left := PendingOf(once.deliveries, scan);
    assert left != [] ==> left[0] in left;
    PendingOfExact(o.deliveries, scan);
    PendingOfExact(once.deliveries, scan);
  }

  /** One send for each of these deliveries, in this order. */
  function SendsFor(ids: seq<nat>, s: Senders): seq<Send> {
    seq(|ids|, i requires 0 <= i < |ids| => Send(ids[i], s.now, ids[i] in s.succeeding))
  }

  lemma {:induction false} BatchLog(o: Outbox, ids: seq<nat>, s: Senders)
    requires !AttemptEach(o, ids, s).raised
    ensures AttemptEach(o, ids, s).outbox.log == o.log + SendsFor(ids, s)
    decreases |ids|
  {
    if ids == [] {
      assert o.log + SendsFor(ids, s) == o.log;
    } else {
      var next := Attempt(o, ids[0], s).value;
      BatchLog(next, ids[1..], s);
      assert SendsFor(ids, s) == [Send(ids[0], s.now, ids[0] in s.succeeding)] + SendsFor(ids[1..], s);
    }
  }

  /** The rows once each PENDING one of the scan has been tried; the others are as before. */
  ghost predicate Dispatched(before: seq<Delivery>, after: seq<Delivery>, scan: nat, s: Senders) {
    |after| == |before| &&
    forall id :: 0 <= id < |before| ==>
      after[id] == if before[id].scan == scan && before[id].status == Pending
                   then AfterSend(before[id], [], s.now, id in s.succeeding) else before[id]
  }

  /**
   A dispatch that finds its senders sends each PENDING alert of the scan once, in the order of
   their creation, and nothing else, and records each as sent or failed.
   */
  lemma DispatchExact(o: Outbox, scan: nat, s: Senders)
    requires Faithful(o) && Configured(o, scan, s)
    ensures var after := DispatchRequest(o, scan, s);
      after.log == o.log + SendsFor(PendingOf(o.deliveries, scan), s) &&
      Dispatched(o.deliveries, after.deliveries, scan, s)
  {
    var ids := PendingOf(o.deliveries, scan);
    FaithfulRows(o);
    PendingUntried(o, scan);
    BatchSends(o, ids, s);
    BatchLog(o, ids, s);
    PendingOfExact(o.deliveries, scan);
    DispatchFaithfulIff(o, scan, s);
    var after := DispatchRequest(o, scan, s);
    forall id | 0 <= id < |o.deliveries| && o.deliveries[id].scan == scan && o.deliveries[id].status == Pending
      ensures after.deliveries[id] == AfterSend(o.deliveries[id], [], s.now, id in s.succeeding)
    {
      var k :| 0 <= k < |ids| && ids[k] == id;
      OneSend(o, ids, s, k);
      assert Reflects(o.deliveries[id], LogOf(o.log, id)) && Reflects(after.deliveries[id], LogOf(after.log, id));
      var x := Send(id, s.now, id in s.succeeding);
      assert LogOf(after.log, id) == [x];
      assert [x][..0] == [];
    }
  }

  lemma SendsForAppend(log: seq<Send>, ids: seq<nat>, s: Senders)
    requires ids != []
    ensures var n := |ids| - 1;
      log + SendsFor(ids, s) == log + SendsFor(ids[..n], s) + [Send(ids[n], s.now, ids[n] in s.succeeding)]
  {
  }

  lemma {:induction false} NoSendFor(log: seq<Send>, ids: seq<nat>, s: Senders, id: nat)
    requires id !in ids
    ensures LogOf(log + SendsFor(ids, s), id) == LogOf(log, id)
    decreases |ids|
  {
    if ids == [] {
      assert log + SendsFor(ids, s) == log;
    } else {
      var n := |ids| - 1;
      NoSendFor(log, ids[..n], s, id);
      SendsForAppend(log, ids, s);
      LogOfAppend(log + SendsFor(ids[..n], s), Send(ids[n], s.now, ids[n] in s.succeeding), id);
    }
  }

  /** Distinct deliveries get one send each. */
  lemma {:induction false} LogOfSends(log: seq<Send>, ids: seq<nat>, s: Senders, k: nat)
    requires k < |ids| && forall i, j :: 0 <= i < j < |ids| ==> ids[i] < ids[j]
    ensures LogOf(log + SendsFor(ids, s), ids[k]) == LogOf(log, ids[k]) + [Send(ids[k], s.now, ids[k] in s.succeeding)]
    decreases |ids|
  {
    var n, id := |ids| - 1, ids[k];
    SendsForAppend(log, ids, s);
    LogOfAppend(log + SendsFor(ids[..n], s), Send(ids[n], s.now, ids[n] in s.succeeding), id);
    if k == n {
      NoSendFor(log, ids[..n], s, id);
    } else {
      LogOfSends(log, ids[..n], s, k);
    }
  }

  lemma OneSend(o: Outbox, ids: seq<nat>, s: Senders, k: nat)
    requires Faithful(o) && k < |ids| && ids[k] < |o.deliveries| && o.deliveries[ids[k]].status.Pending?
    requires forall i, j :: 0 <= i < j < |ids| ==> ids[i] < ids[j]
    ensures LogOf(o.log + SendsFor(ids, s), ids[k]) == [Send(ids[k], s.now, ids[k] in s.succeeding)]
  {
    assert Reflects(o.deliveries[ids[k]], LogOf(o.log, ids[k]));
    LogOfSends(o.log, ids, s, k);
  }

  /** The rows of a scan that alerts both channels, before anything was recorded for them. */
  ghost predicate TwoPending(rows: seq<Delivery>) {
    rows == [Delivery(0, Slack, Pending, 0, None, None), Delivery(0, Email, Pending, 0, None, None)]
  }

  /** With a sender for the first channel only, a dispatch sends and records nothing. */
  lemma OneResend(o: Outbox, s: Senders)
    requires TwoPending(o.deliveries) && CanSend(o.deliveries[0], 0, s) && !CanSend(o.deliveries[1], 1, s)
    ensures DispatchRequest(o, 0, s) == Outbox(o.deliveries, o.log + [Send(0, s.now, 0 in s.succeeding)])
  {
    var rows := o.deliveries;
    assert rows[..1][..0] == [];
    assert PendingOf(rows[..1], 0) == [0] by { assert PendingOf([], 0) == []; }
    assert PendingOf(rows, 0) == [0, 1];
    var next := Attempt(o, 0, s).value;
    assert next.log == o.log + [Send(0, s.now, 0 in s.succeeding)];
    assert Attempt(next, 1, s).Err?;
    assert AttemptEach(o, [0, 1], s) == AttemptEach(next, [0, 1][1..], s);
    assert [0, 1][1..] == [1];
    assert AttemptEach(next, [1], s) == Batch(next, true);
  }

  // ---------- retry, and rows under any request ----------

  lemma RetryFaithful(o: Outbox, id: nat, s: Senders)
    requires Faithful(o)
    ensures Faithful(RetryRequest(o, id, s))
  {
    if Attempt(o, id, s).Ok? {
      AttemptFaithful(o, id, s);
    }
  }

  /** Same scan and channel, position by position. */
  ghost predicate SameIdentities(a: seq<Delivery>, b: seq<Delivery>) {
    |a| == |b| && forall i :: 0 <= i < |a| ==> a[i].scan == b[i].scan && a[i].channel == b[i].channel
  }

  lemma {:induction false} BatchKeepsRows(o: Outbox, ids: seq<nat>, s: Senders)
    requires forall d :: d in o.deliveries ==> RowOk(d)
    ensures var o' := AttemptEach(o, ids, s).outbox;
      (forall d :: d in o'.deliveries ==> RowOk(d)) && SameIdentities(o.deliveries, o'.deliveries)
    decreases |ids|
  {
    if ids != [] && Attempt(o, ids[0], s).Ok? {
      AttemptKeepsRows(o, ids[0], s);
      BatchKeepsRows(Attempt(o, ids[0], s).value, ids[1..], s);
    }
  }

  lemma AttemptKeepsRows(o: Outbox, id: nat, s: Senders)
    requires (forall d :: d in o.deliveries ==> RowOk(d)) && Attempt(o, id, s).Ok?
    ensures var o' := Attempt(o, id, s).value;
      (forall d :: d in o'.deliveries ==> RowOk(d)) && SameIdentities(o.deliveries, o'.deliveries)
  {
    var o' := Attempt(o, id, s).value;
    assert o.deliveries[id] in o.deliveries;
    forall d | d in o'.deliveries ensures RowOk(d) {
      var i :| 0 <= i < |o'.deliveries| && o'.deliveries[i] == d;
      if i != id { assert d == o.deliveries[i]; }
    }
  }
}
