/** Delivery rows changed in place, and the notification service that drives them. */
module Notifications {
  import opened Options
  import opened Models
  import opened Outbox
  import opened Lifecycle
  import opened Sessions

  /** The alert providers: what they were asked to send survives any rollback. */
  class Providers {
    var sent: seq<Send>

    constructor ()
      ensures sent == []
    {
      sent := [];
    }
  }

  class AlertRepository {
    const session: Session

    constructor (session: Session)
      ensures this.session == session
    {
      this.session := session;
    }

    method ListDispatchableForScan(scan: nat) returns (ids: seq<nat>)
      ensures ids == PendingOf(session.deliveries, scan)
    {
      ids := [];
      for i := 0 to |session.deliveries|
        invariant ids == PendingOf(session.deliveries[..i], scan)
      {
        assert session.deliveries[..i + 1][..i] == session.deliveries[..i];
        if session.deliveries[i].scan == scan && session.deliveries[i].status.Pending? {
          ids := ids + [i];
        }
      }
      assert session.deliveries[..|session.deliveries|] == session.deliveries;
    }

    method MarkAttemptStarted(id: nat) returns (attempts: nat)
      requires id < |session.deliveries|
      modifies session`deliveries
      ensures session.deliveries == old(session.deliveries)[id := Started(old(session.deliveries)[id])]
      ensures attempts == old(session.deliveries)[id].attemptCount + 1
    {
      var d := session.deliveries[id];
      session.deliveries := session.deliveries[
        id := d.(attemptCount := d.attemptCount + 1, status := Pending, nextRetryAt := None)];
      return d.attemptCount + 1;
    }

    method MarkSent(id: nat, sentAt: int)
      requires id < |session.deliveries|
      modifies session`deliveries
      ensures session.deliveries == old(session.deliveries)[id := MarkedSent(old(session.deliveries)[id], sentAt)]
    {
      session.deliveries := session.deliveries[
        id := session.deliveries[id].(status := Sent, nextRetryAt := None, sentAt := Some(sentAt))];
    }

    method MarkFailed(id: nat, nextRetryAt: Option<int>)
      requires id < |session.deliveries|
      modifies session`deliveries
      ensures session.deliveries ==
        old(session.deliveries)[id := MarkedFailed(old(session.deliveries)[id], nextRetryAt)]
    {
      session.deliveries := session.deliveries[
        id := session.deliveries[id].(status := Failed, nextRetryAt := nextRetryAt)];
    }
  }

  class NotificationService {
    const repository: AlertRepository
    const providers: Providers

    constructor (repository: AlertRepository, providers: Providers)
      ensures this.repository == repository && this.providers == providers
    {
      this.repository, this.providers := repository, providers;
    }

    function View(): Outbox
      reads repository.session, providers
    {
      Outbox(repository.session.deliveries, providers.sent)
    }

    /** One attempt at one delivery; the returned flag says whether the provider took it. */
    method AttemptDelivery(id: nat, s: Senders) returns (r: Result<bool, AttemptError>)
      modifies repository.session`deliveries, providers
      ensures match Attempt(old(View()), id, s)
              case Err(e) =>
                r == Err(e) && providers.sent == old(providers.sent) && (e.SenderRaised? || View() == old(View()))
              case Ok(next) => r == Ok(id in s.succeeding) && View() == next
    {
      var session := repository.session;
      if id >= |session.deliveries| {
        return Err(DeliveryNotFound);
      }
      var delivery := session.deliveries[id];
      if delivery.attemptCount >= MAX_ATTEMPTS {
        return Err(MaxAttemptsExceeded);
      }
      if delivery.nextRetryAt.Some? && s.now < delivery.nextRetryAt.value {
        return Err(RetryNotDue(delivery.nextRetryAt.value));
      }
      if delivery.channel !in s.notifiers {
        return Err(ChannelNotConfigured);
      }
      var attempts := repository.MarkAttemptStarted(id);
      if id in s.raising {
        return Err(SenderRaised);
      }
      var ok := id in s.succeeding;
      providers.sent := providers.sent + [Send(id, s.now, ok)];
      if !ok {
        var next := if attempts < MAX_ATTEMPTS then Some(s.now + Seconds(RETRY_DELAYS[attempts - 1])) else None;
        repository.MarkFailed(id, next);
        return Ok(false);
      }
      repository.MarkSent(id, s.now);
      return Ok(true);
    }

    /** Attempts every PENDING delivery of a scan; the first exception ends the loop. */
    method DispatchScan(scan: nat, s: Senders) returns (r: Result<nat, AttemptError>)
      modifies repository.session`deliveries, providers
      ensures var b := AttemptEach(old(View()), PendingOf(old(repository.session.deliveries), scan), s);
        providers.sent == b.outbox.log && (r.Err? <==> b.raised) && (b.raised || View() == b.outbox)
    {
      var ids := repository.ListDispatchableForScan(scan);
      ghost var whole := AttemptEach(View(), ids, s);
      var i := 0;
      while i < |ids|
        invariant 0 <= i <= |ids|
        invariant AttemptEach(View(), ids[i..], s) == whole
      {
        assert ids[i..][0] == ids[i] && ids[i..][1..] == ids[i + 1..];
        var attempt := AttemptDelivery(ids[i], s);
        if attempt.Err? {
          return Err(attempt.error);
        }
        i := i + 1;
      }
      return Ok(|ids|);
    }
  }

  /** The state after a dispatch or retry request, with what the providers saw. */
  function WorldOf(session: Session, providers: Providers): World
    reads session, providers
  {
    World(session.State(), providers.sent)
  }

  /** A dispatch in its own transaction: an exception rolls the rows back, not the sends. */
  method DispatchTransaction(session: Session, providers: Providers, scan: nat, s: Senders)
    requires session.Clean()
    modifies session, providers
    ensures session.Clean() && WorldOf(session, providers) == Step(old(WorldOf(session, providers)), Dispatch(scan, s))
  {
    var repository := new AlertRepository(session);
    var service := new NotificationService(repository, providers);
    var r := service.DispatchScan(scan, s);
    if r.Ok? {
      session.Commit();
    } else {
      session.Rollback();
    }
  }

  /** The HTTP request around a retry; a missing notifier and an unexpected exception roll back. */
  method PostRetry(session: Session, providers: Providers, id: nat, s: Senders) returns (r: Result<bool, AttemptError>)
    requires session.Clean()
    modifies session, providers
    ensures session.Clean() && WorldOf(session, providers) == Step(old(WorldOf(session, providers)), Retry(id, s))
    ensures r.Ok? ==> |providers.sent| == |old(providers.sent)| + 1
    ensures r.Err? ==> providers.sent == old(providers.sent)
  {
    var repository := new AlertRepository(session);
    var service := new NotificationService(repository, providers);
    r := service.AttemptDelivery(id, s);
    if r.Ok? || !(r.error.ChannelNotConfigured? || r.error.SenderRaised?) {
      session.Commit();
    } else {
      session.Rollback();
    }
  }
}
