/** What the provider was handed, email by email, and how the delivery rows say so. */
module NoticeMail {
  import opened Wrappers
  import opened NoticeProtocol

  /** What was handed over for delivery d, in order. */
  function Trail(sends: seq<Send>, d: nat): seq<Send> {
    if sends == [] then []
    else
      var last := sends[|sends| - 1];
      Trail(sends[..|sends| - 1], d) + if last.deliveryId == d then [last] else []
  }

  /** At most four attempts, each after a temporary failure and its backoff. */
  predicate Paced(t: seq<Send>) {
    && |t| <= MAX_ATTEMPTS
    && forall i, j :: 0 <= i < |t| && 0 <= j < |t| && j == i + 1 ==> t[i].result == Refused(TEMPORARY) && t[j].at >= t[i].at + Backoff(j)
  }

  /** How long the next attempt has to wait after each of the first three: 2, 5 and 15 minutes. */
  function Wait(attempt: nat): int {
    if attempt == 1 then 120_000 else if attempt == 2 then 300_000 else 900_000
  }

  lemma BackoffIsWait(attempt: nat)
    requires 1 <= attempt <= 3
    ensures Backoff(attempt) == Wait(attempt)
  {
  }

  /** A temporary failure with attempts left whose time has come. */
  predicate MayRetry(x: Delivery, now: int) {
    x.status == FAILED && x.failureKind == Some(TEMPORARY) && x.attemptCount <= 3
    && x.nextAttemptAt.Some? && x.nextAttemptAt.value <= now
  }

  /** The delivery row says what its attempts came to; only an accepted one is open to provider events. */
  predicate RowAgrees(x: Delivery, t: seq<Send>) {
    && x.attemptCount == |t|
    && (t == [] ==> x.status == QUEUED && x.failureKind.None? && x.nextAttemptAt.None? && x.messageId.None?)
    && (t != [] ==>
         var last := t[|t| - 1];
         && x.status != QUEUED
         && (x.messageId.Some? <==> last.result.Accepted?)
         && (last.result.Accepted? ==> x.failureKind.None? && x.nextAttemptAt.None?)
         && (last.result.Refused? ==>
              && x.status == FAILED && x.failureKind == Some(last.result.kind)
              && x.nextAttemptAt == if Retryable(last.result, |t|) then Some(last.at + Backoff(|t|)) else None))
  }

  /** The provider's message id leads back to the hand-over it was given for. */
  predicate MessageAgrees(db: Tables, d: nat)
    requires d < |db.deliveries|
  {
    db.deliveries[d].messageId.Some? ==>
      var m := db.deliveries[d].messageId.value;
      m < |db.sends| && db.sends[m].deliveryId == d && db.sends[m].result.Accepted?
  }

  predicate MailAgrees(db: Tables) {
    && (forall i :: 0 <= i < |db.sends| ==> db.sends[i].deliveryId < |db.deliveries|)
    && (forall d :: 0 <= d < |db.deliveries| ==> Paced(Trail(db.sends, d)) && RowAgrees(db.deliveries[d], Trail(db.sends, d)))
    && (forall d :: 0 <= d < |db.deliveries| ==> MessageAgrees(db, d))
  }

  lemma {:induction false} NoTrail(sends: seq<Send>, d: nat)
    requires forall i :: 0 <= i < |sends| ==> sends[i].deliveryId != d
    ensures Trail(sends, d) == []
  {
    if sends != [] {
      NoTrail(sends[..|sends| - 1], d);
    }
  }

  lemma TrailGrows(sends: seq<Send>, s: Send, d: nat)
    ensures Trail(sends + [s], d) == Trail(sends, d) + if s.deliveryId == d then [s] else []
  {
    assert (sends + [s])[..|sends|] == sends;
  }

  /** A delivery may be handed over when it is new or its retry is due. */
  predicate Sendable(d: Delivery, now: int) {
    d.status == QUEUED || Due(d, now)
  }

  lemma QueueKeepsMail(db: Tables, r: Option<nat>)
    requires MailAgrees(db)
    ensures MailAgrees(Queue(db, r))
  {
    hide Trail, Paced, RowAgrees;
    var after := Queue(db, r);
    NoTrail(db.sends, |db.deliveries|);
    forall d | 0 <= d < |db.deliveries|
      ensures MessageAgrees(after, d)
    {
      assert MessageAgrees(db, d);
    }
    EmptyRowAgrees(after.deliveries[|db.deliveries|]);
  }

  lemma EmptyRowAgrees(x: Delivery)
    requires x.status == QUEUED && x.failureKind.None? && x.nextAttemptAt.None? && x.messageId.None? && x.attemptCount == 0
    ensures Paced([]) && RowAgrees(x, [])
  {
  }

  lemma SentRowAgrees(x: Delivery, t: seq<Send>, s: Send, messageId: nat)
    requires RowAgrees(x, t) && Paced(t) && Sendable(x, s.at)
    ensures Paced(t + [s])
    ensures RowAgrees(SentDelivery(x, s.at, s.result, messageId), t + [s])
  {
  }

  lemma HandOverKeepsMail(db: Tables, d: nat, now: int, result: SendResult)
    requires MailAgrees(db) && d < |db.deliveries| && Sendable(db.deliveries[d], now)
    ensures MailAgrees(HandOver(db, d, now, result))
  {
    hide Paced, RowAgrees, Sendable, Trail;
    var after := HandOver(db, d, now, result);
    var s := Send(d, now, result);
    forall e | 0 <= e < |db.deliveries|
      ensures Paced(Trail(after.sends, e)) && RowAgrees(after.deliveries[e], Trail(after.sends, e))
      ensures MessageAgrees(after, e)
    {
      assert MessageAgrees(db, e);
      TrailGrows(db.sends, s, e);
      assert Trail(db.sends, e) + [] == Trail(db.sends, e);
      if e == d {
        SentRowAgrees(db.deliveries[d], Trail(db.sends, d), s, |db.sends|);
        QueuedHasNoMessage(db, d, now);
      }
    }
  }

  lemma QueuedHasNoMessage(db: Tables, d: nat, now: int)
    requires MailAgrees(db) && d < |db.deliveries| && Sendable(db.deliveries[d], now)
    ensures db.deliveries[d].messageId.None?
  {
    assert RowAgrees(db.deliveries[d], Trail(db.sends, d));
  }

  lemma TraceKeepsMail(db: Tables, d: nat, event: EventType)
    requires MailAgrees(db) && d < |db.deliveries| && db.deliveries[d].messageId.Some?
    ensures MailAgrees(Trace(db, d, event))
  {
    hide Paced, Trail;
    var after := Trace(db, d, event);
    forall e | 0 <= e < |db.deliveries|
      ensures RowAgrees(after.deliveries[e], Trail(after.sends, e))
      ensures MessageAgrees(after, e)
    {
      assert RowAgrees(db.deliveries[e], Trail(db.sends, e)) && MessageAgrees(db, e);
    }
  }

  /** A message id belongs to the delivery it was handed over for, and to no other; unknown ids find nothing. */
  lemma EventFindsItsDelivery(db: Tables, messageId: nat)
    requires MailAgrees(db)
    ensures var d := FindDelivery(db.deliveries, messageId);
      && (d.Some? ==> messageId < |db.sends| && db.sends[messageId].result.Accepted? && d.value == db.sends[messageId].deliveryId)
      && (forall e :: 0 <= e < |db.deliveries| && db.deliveries[e].messageId == Some(messageId) ==> d == Some(e))
  {
    hide Paced, RowAgrees, Trail;
    var d := FindDelivery(db.deliveries, messageId);
    if d.Some? {
      assert MessageAgrees(db, d.value);
    }
    forall e | 0 <= e < |db.deliveries| && db.deliveries[e].messageId == Some(messageId)
      ensures d == Some(e)
    {
      assert MessageAgrees(db, e);
    }
  }
}
