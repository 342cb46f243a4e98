/** What every call on the notice tables keeps: statuses backed by rows, failures raised, certificates that cover everyone. */
module NoticeInvariants {
  import opened Wrappers
  import opened NoticeProtocol
  import opened NoticeMail

  predicate HasReceipt(receipts: seq<Receipt>, r: nat) {
    exists i :: 0 <= i < |receipts| && receipts[i].recipientId == r
  }

  predicate HasFailure(db: Tables, r: nat) {
    exists i :: 0 <= i < |db.failures| && db.failures[i].recipientId == r
  }

  /** The provider accepted an email to recipient r. */
  predicate Dispatched(db: Tables, r: nat) {
    exists d :: 0 <= d < |db.deliveries| && db.deliveries[d].recipientId == Some(r) && db.deliveries[d].messageId.Some?
  }

  /** A recipient's status is backed by a row of the matching kind. */
  predicate StatusBacked(db: Tables, r: nat)
    requires r < |db.recipients|
  {
    match db.recipients[r].status
    case PORTAL_AVAILABLE => true
    case EMAIL_SENT => Dispatched(db, r)
    case DELIVERY_FAILED => HasFailure(db, r)
    case ACCESSED => HasReceipt(db.accesses, r)
    case ACKNOWLEDGED => HasReceipt(db.acknowledgements, r)
    case _ => false
  }

  predicate StatusesBacked(db: Tables) {
    forall r :: 0 <= r < |db.recipients| ==> StatusBacked(db, r)
  }

  /** Receipts are made by the recipient's own user, and the first access and acknowledgement times say whether any exist. */
  predicate ReceiptsOwn(db: Tables, receipts: seq<Receipt>) {
    forall i :: 0 <= i < |receipts| ==>
      receipts[i].recipientId < |db.recipients| && db.recipients[receipts[i].recipientId].userId == Some(receipts[i].userId)
  }

  predicate TimesAgree(db: Tables) {
    forall r :: 0 <= r < |db.recipients| ==>
      && (db.recipients[r].firstAccessedAt.Some? <==> HasReceipt(db.accesses, r))
      && (db.recipients[r].acknowledgedAt.Some? <==> HasReceipt(db.acknowledgements, r))
  }

  /** An email to a recipient that bounced, drew a complaint or failed for good has raised the fallback. */
  predicate LostForGood(d: Delivery) {
    d.status == BOUNCED || d.status == COMPLAINED || (d.status == FAILED && d.nextAttemptAt.None?)
  }

  predicate FallbacksRaised(db: Tables) {
    forall d :: 0 <= d < |db.deliveries| && db.deliveries[d].recipientId.Some? && LostForGood(db.deliveries[d]) ==>
      HasFailure(db, db.deliveries[d].recipientId.value)
  }

  predicate HasRecipient(db: Tables, n: nat) {
    exists r :: 0 <= r < |db.recipients| && db.recipients[r].noticeId == n
  }

  /** Service is completed only with a certificate, and while everyone has received the notice. */
  predicate CompletedReceived(db: Tables) {
    forall n :: 0 <= n < |db.notices| && db.notices[n].status == SERVICE_COMPLETED ==>
      n in db.certificates && AllReceived(db, n)
  }

  /** A certificate covers every recipient of its notice, and every notice has one to cover. */
  predicate CertificatesCover(db: Tables) {
    && (forall n :: n in db.certificates ==> n < |db.notices| && db.certificates[n].Keys == Snapshot(db, n).Keys)
    && (forall n :: 0 <= n < |db.notices| ==> HasRecipient(db, n))
  }

  predicate OrdersAgree(db: Tables) {
    forall i :: 0 <= i < |db.failures| && db.failures[i].orderId.Some? ==>
      && db.failures[i].orderId.value < |db.orders|
      && db.failures[i].recipientId < |db.recipients|
      && db.orders[db.failures[i].orderId.value] == db.recipients[db.failures[i].recipientId].noticeId
  }

  predicate PeopleAgree(db: Tables) {
    && StatusesBacked(db)
    && ReceiptsOwn(db, db.accesses) && ReceiptsOwn(db, db.acknowledgements)
    && TimesAgree(db)
    && FallbacksRaised(db)
    && CompletedReceived(db)
    && OrdersAgree(db)
  }

  predicate Inv(db: Tables) {
    Linked(db) && MailAgrees(db) && PeopleAgree(db) && CertificatesCover(db)
  }

  /** Rows of a are still there in b; only recipients' statuses, deliveries and notices' statuses may differ. */
  predicate MoreRows(a: Tables, b: Tables) {
    && a.accesses == b.accesses && a.acknowledgements == b.acknowledgements
    && |a.recipients| == |b.recipients| && |a.notices| == |b.notices| && a.certificates == b.certificates && a.orders == b.orders
    && (forall r :: 0 <= r < |a.recipients| ==> b.recipients[r] == a.recipients[r].(status := b.recipients[r].status))
    && a.failures <= b.failures
    && (forall i :: |a.failures| <= i < |b.failures| ==> b.failures[i].orderId.None?)
    && |a.deliveries| <= |b.deliveries|
    && (forall d :: 0 <= d < |a.deliveries| ==>
          b.deliveries[d].recipientId == a.deliveries[d].recipientId
          && (a.deliveries[d].messageId.Some? ==> b.deliveries[d].messageId.Some?))
  }

  lemma StillBacked(a: Tables, b: Tables, r: nat)
    requires MoreRows(a, b) && r < |a.recipients|
    ensures HasFailure(a, r) ==> HasFailure(b, r)
    ensures Dispatched(a, r) ==> Dispatched(b, r)
  {
    if HasFailure(a, r) {
      var i :| 0 <= i < |a.failures| && a.failures[i].recipientId == r;
      assert b.failures[i] == a.failures[i];
    }
    if Dispatched(a, r) {
      var d :| 0 <= d < |a.deliveries| && a.deliveries[d].recipientId == Some(r) && a.deliveries[d].messageId.Some?;
      assert b.deliveries[d].messageId.Some?;
    }
  }

  /** A step of the mail keeps what is said of the people, given what it does to statuses. */
  lemma MailStepKeepsPeople(a: Tables, b: Tables)
    requires Linked(a) && Linked(b) && MoreRows(a, b) && PeopleAgree(a)
    requires forall r :: 0 <= r < |a.recipients| ==> b.recipients[r].status == a.recipients[r].status || StatusBacked(b, r)
    requires FallbacksRaised(b)
    requires CompletedReceived(b)
    ensures PeopleAgree(b)
  {
    forall r | 0 <= r < |b.recipients|
      ensures StatusBacked(b, r)
    {
      assert StatusBacked(a, r);
      StillBacked(a, b, r);
    }
  }

  lemma FallbackHasFailure(db: Tables, r: nat)
    requires r < |db.recipients| && db.recipients[r].noticeId < |db.notices|
    ensures HasFailure(Fallback(db, r), r)
  {
    var after := Fallback(db, r);
    assert after.failures[|db.failures|].recipientId == r;
  }

  lemma CoverKept(a: Tables, b: Tables)
    requires MoreRows(a, b) && CertificatesCover(a)
    ensures CertificatesCover(b)
  {
    forall n | n in b.certificates
      ensures b.certificates[n].Keys == Snapshot(b, n).Keys
    {
      assert Snapshot(a, n).Keys == Snapshot(b, n).Keys;
    }
    forall n | 0 <= n < |b.notices|
      ensures HasRecipient(b, n)
    {
      assert HasRecipient(a, n);
      var r :| 0 <= r < |a.recipients| && a.recipients[r].noticeId == n;
      assert b.recipients[r].noticeId == n;
    }
  }

  /** Failures raised before are still there, so only the deliveries that changed need looking at. */
  lemma FallbacksStay(a: Tables, b: Tables, d: nat)
    requires Linked(a) && MoreRows(a, b) && FallbacksRaised(a) && |a.deliveries| == |b.deliveries|
    requires forall e :: 0 <= e < |a.deliveries| && e != d ==> b.deliveries[e] == a.deliveries[e]
    requires d < |b.deliveries|
    requires b.deliveries[d].recipientId.Some? && LostForGood(b.deliveries[d]) ==>
      HasFailure(b, b.deliveries[d].recipientId.value)
    ensures FallbacksRaised(b)
  {
    hide LostForGood, HasFailure;
    forall e | 0 <= e < |b.deliveries| && e != d && b.deliveries[e].recipientId.Some? && LostForGood(b.deliveries[e])
      ensures HasFailure(b, b.deliveries[e].recipientId.value)
    {
      StillBacked(a, b, b.deliveries[e].recipientId.value);
    }
  }

  /** The notices and recipients after a possible fallback: nothing else has moved. */
  predicate FallbackOnly(a: Tables, b: Tables, r: Option<nat>) {
    && |b.recipients| == |a.recipients| && |b.notices| == |a.notices| && b.certificates == a.certificates
    && (forall i :: 0 <= i < |a.recipients| ==>
          b.recipients[i] == if r == Some(i) then a.recipients[i].(status := DELIVERY_FAILED) else a.recipients[i])
    && (forall n :: 0 <= n < |a.notices| ==> b.notices[n] == a.notices[n] || b.notices[n].status == SUBSTITUTE_SERVICE_REQUIRED)
    && (r.Some? && r.value < |a.recipients| && a.recipients[r.value].noticeId < |a.notices| ==>
          b.notices[a.recipients[r.value].noticeId].status == SUBSTITUTE_SERVICE_REQUIRED)
  }

  lemma FallbackKeepsCompleted(a: Tables, b: Tables, r: Option<nat>)
    requires FallbackOnly(a, b, r) && CompletedReceived(a) && Linked(a)
    ensures CompletedReceived(b)
  {
    forall n | 0 <= n < |b.notices| && b.notices[n].status == SERVICE_COMPLETED
      ensures AllReceived(b, n)
    {
      assert AllReceived(a, n);
    }
  }

  /** The recipient an attempt loses for good, if any. */
  function LostTo(x: Delivery, result: SendResult): Option<nat> {
    if result.Refused? && !Retryable(result, x.attemptCount + 1) then x.recipientId else None
  }

  lemma AttemptShape(db: Tables, d: nat, now: int, result: SendResult)
    requires Linked(db) && d < |db.deliveries| && db.deliveries[d].messageId.None?
    ensures var after := AttemptSend(db, d, now, result);
      var lost := LostTo(db.deliveries[d], result);
      && MoreRows(db, after)
      && FallbackOnly(db, after, lost)
      && after.deliveries == HandOver(db, d, now, result).deliveries
      && after.sends == HandOver(db, d, now, result).sends
      && (lost.Some? ==> HasFailure(after, lost.value))
  {
    hide HasFailure;
    if LostTo(db.deliveries[d], result).Some? {
      FallbackHasFailure(HandOver(db, d, now, result), db.deliveries[d].recipientId.value);
    }
  }

  lemma AttemptSendKeeps(db: Tables, d: nat, now: int, result: SendResult)
    requires Inv(db) && d < |db.deliveries| && Sendable(db.deliveries[d], now)
    ensures Inv(AttemptSend(db, d, now, result))
  {
    hide StatusesBacked, StatusBacked, TimesAgree, CompletedReceived, OrdersAgree, FallbacksRaised, ReceiptsOwn, CertificatesCover;
    hide HasReceipt, HasFailure, Dispatched, AttemptSend, MoreRows, FallbackOnly;
    QueuedHasNoMessage(db, d, now);
    HandOverKeepsMail(db, d, now, result);
    hide MailAgrees, Sendable;
    var after := AttemptSend(db, d, now, result);
    var lost := LostTo(db.deliveries[d], result);
    AttemptShape(db, d, now, result);
    MailAgreesOn(HandOver(db, d, now, result), after);
    FallbackKeepsCompleted(db, after, lost);
    FallbacksStay(db, after, d);
    CoverKept(db, after);
    FailedIsBacked(db, after, lost);
    MailStepKeepsPeople(db, after);
  }

  lemma FailedIsBacked(a: Tables, b: Tables, r: Option<nat>)
    requires FallbackOnly(a, b, r)
    requires r.Some? && r.value < |a.recipients| ==> HasFailure(b, r.value)
    ensures forall i :: 0 <= i < |a.recipients| ==> b.recipients[i].status == a.recipients[i].status || StatusBacked(b, i)
  {
    hide HasFailure, Dispatched, HasReceipt;
  }

  lemma MailAgreesOn(a: Tables, b: Tables)
    requires MailAgrees(a) && a.deliveries == b.deliveries && a.sends == b.sends
    ensures MailAgrees(b)
  {
    hide Trail, Paced, RowAgrees;
    forall d | 0 <= d < |b.deliveries|
      ensures MessageAgrees(b, d)
    {
      assert MessageAgrees(a, d);
    }
  }

  /** The recipient an event about delivery x fails, if any. */
  function FailedBy(x: Delivery, event: EventType): Option<nat> {
    if FailsService(event) then x.recipientId else None
  }

  lemma TraceShape(db: Tables, d: nat, event: EventType, after: Tables)
    requires Linked(db) && d < |db.deliveries|
    requires var failed := FailedBy(db.deliveries[d], event);
      after == if failed.Some? then Fallback(Trace(db, d, event), failed.value) else Trace(db, d, event)
    ensures MoreRows(db, after) && FallbackOnly(db, after, FailedBy(db.deliveries[d], event))
  {
    hide Trace, FailsService;
    TraceTouches(db, d, event);
  }

  lemma TraceTouches(db: Tables, d: nat, event: EventType)
    requires d < |db.deliveries|
    ensures var after := Trace(db, d, event);
      && after == db.(deliveries := after.deliveries) && |after.deliveries| == |db.deliveries|
      && forall e :: 0 <= e < |db.deliveries| ==>
        after.deliveries[e] == db.deliveries[e].(status := after.deliveries[e].status)
  {
  }

  lemma EventShape(db: Tables, messageId: nat, event: EventType)
    requires Linked(db) && FindDelivery(db.deliveries, messageId).Some?
    ensures var d, after := FindDelivery(db.deliveries, messageId).value, ProviderEvent(db, messageId, event);
      var failed := FailedBy(db.deliveries[d], event);
      && Linked(after) && MoreRows(db, after)
      && FallbackOnly(db, after, failed)
      && after.deliveries == Trace(db, d, event).deliveries && after.sends == db.sends
      && (failed.Some? ==> HasFailure(after, failed.value))
  {
    hide HasFailure, MoreRows, FallbackOnly, FailsService, StatusForEvent;
    var d := FindDelivery(db.deliveries, messageId).value;
    TraceShape(db, d, event, ProviderEvent(db, messageId, event));
    if FailedBy(db.deliveries[d], event).Some? {
      FallbackHasFailure(Trace(db, d, event), db.deliveries[d].recipientId.value);
    }
  }

  /** After an event, a delivery that counts as lost has its failure on record, from now or from before. */
  lemma LostStaysRaised(db: Tables, after: Tables, d: nat, event: EventType)
    requires Linked(db) && FallbacksRaised(db) && d < |db.deliveries| && MoreRows(db, after)
    requires after.deliveries == Trace(db, d, event).deliveries
    requires var failed := FailedBy(db.deliveries[d], event); failed.Some? ==> HasFailure(after, failed.value)
    ensures after.deliveries[d].recipientId.Some? && LostForGood(after.deliveries[d]) ==>
      HasFailure(after, after.deliveries[d].recipientId.value)
  {
    hide HasFailure;
    var r := db.deliveries[d].recipientId;
    if r.Some? {
      StillBacked(db, after, r.value);
    }
  }

  lemma ProviderEventKeeps(db: Tables, messageId: nat, event: EventType)
    requires Inv(db)
    ensures Inv(ProviderEvent(db, messageId, event))
  {
    if FindDelivery(db.deliveries, messageId).Some? {
      hide StatusesBacked, StatusBacked, TimesAgree, CompletedReceived, OrdersAgree, FallbacksRaised, ReceiptsOwn, CertificatesCover;
      hide HasReceipt, HasFailure, Dispatched, MoreRows, FallbackOnly, MailAgrees, Linked, LostForGood, ProviderEvent;
      var d, after := FindDelivery(db.deliveries, messageId).value, ProviderEvent(db, messageId, event);
      var failed := FailedBy(db.deliveries[d], event);
      TraceKeepsMail(db, d, event);
      EventShape(db, messageId, event);
      LostStaysRaised(db, after, d, event);
      MailAgreesOn(Trace(db, d, event), after);
      FallbackKeepsCompleted(db, after, failed);
      FallbacksStay(db, after, d);
      CoverKept(db, after);
      FailedIsBacked(db, after, failed);
      MailStepKeepsPeople(db, after);
    }
  }

  lemma QueueKeeps(db: Tables, r: Option<nat>)
    requires Inv(db) && (r.Some? ==> r.value < |db.recipients|)
    ensures Inv(Queue(db, r))
  {
    hide MailAgrees, StatusBacked, CertificatesCover, HasFailure, TimesAgree, ReceiptsOwn, OrdersAgree;
    var after := Queue(db, r);
    QueueKeepsMail(db, r);
    CoverKept(db, after);
    assert FallbackOnly(db, after, None);
    FallbackKeepsCompleted(db, after, None);
    forall d | 0 <= d < |db.deliveries| && db.deliveries[d].recipientId.Some? && LostForGood(db.deliveries[d])
      ensures HasFailure(after, db.deliveries[d].recipientId.value)
    {
      StillBacked(db, after, db.deliveries[d].recipientId.value);
    }
    MailStepKeepsPeople(db, after);
  }

  lemma NoteAttemptKeeps(db: Tables, r: nat, channel: Channel, outcome: AttemptOutcome)
    requires Inv(db)
    ensures Inv(NoteAttempt(db, r, channel, outcome))
  {
    hide MailAgrees, StatusBacked, CertificatesCover, HasFailure, TimesAgree, ReceiptsOwn, OrdersAgree;
    var after := NoteAttempt(db, r, channel, outcome);
    MailAgreesOn(db, after);
    CoverKept(db, after);
    assert FallbackOnly(db, after, None);
    FallbackKeepsCompleted(db, after, None);
    forall d | 0 <= d < |db.deliveries| && db.deliveries[d].recipientId.Some? && LostForGood(db.deliveries[d])
      ensures HasFailure(after, db.deliveries[d].recipientId.value)
    {
      StillBacked(db, after, db.deliveries[d].recipientId.value);
    }
    MailStepKeepsPeople(db, after);
  }

  /** A recipient may be marked while service on the notice is not completed, if a row backs the mark. */
  lemma MarkKeeps(db: Tables, r: nat, status: NoticeStatus)
    requires Inv(db) && r < |db.recipients| && db.notices[db.recipients[r].noticeId].status != SERVICE_COMPLETED
    requires StatusBacked(Mark(db, r, status), r)
    ensures Inv(Mark(db, r, status))
  {
    hide MailAgrees, StatusBacked, CertificatesCover, HasFailure, TimesAgree, ReceiptsOwn, OrdersAgree;
    var after := Mark(db, r, status);
    MailAgreesOn(db, after);
    CoverKept(db, after);
    forall n | 0 <= n < |after.notices| && after.notices[n].status == SERVICE_COMPLETED
      ensures AllReceived(after, n)
    {
      assert AllReceived(db, n);
    }
    forall d | 0 <= d < |db.deliveries| && db.deliveries[d].recipientId.Some? && LostForGood(db.deliveries[d])
      ensures HasFailure(after, db.deliveries[d].recipientId.value)
    {
      StillBacked(db, after, db.deliveries[d].recipientId.value);
    }
    MailStepKeepsPeople(db, after);
  }

  lemma SettleKeeps(db: Tables, r: nat, d: nat)
    requires Inv(db) && r < |db.recipients| && db.notices[db.recipients[r].noticeId].status != SERVICE_COMPLETED
    requires d < |db.deliveries| && db.deliveries[d].recipientId == Some(r)
    requires db.deliveries[d].status == SENT ==> db.deliveries[d].messageId.Some?
    ensures Inv(Settle(db, r, db.deliveries[d]))
    ensures Settle(db, r, db.deliveries[d]).notices == db.notices
  {
    hide MailAgrees, CertificatesCover, TimesAgree, ReceiptsOwn, OrdersAgree, CompletedReceived, StatusesBacked;
    var x := db.deliveries[d];
    if x.status == SENT {
      var noted := NoteAttempt(db, r, EMAIL, OUTCOME_SENT);
      NoteAttemptKeeps(db, r, EMAIL, OUTCOME_SENT);
      assert Mark(noted, r, EMAIL_SENT).deliveries[d] == x;
      MarkKeeps(noted, r, EMAIL_SENT);
    } else if x.status == FAILED && x.nextAttemptAt.Some? {
      NoteAttemptKeeps(db, r, EMAIL, OUTCOME_PENDING);
    } else if x.status == FAILED {
      var noted := NoteAttempt(db, r, EMAIL, OUTCOME_FAILED);
      NoteAttemptKeeps(db, r, EMAIL, OUTCOME_FAILED);
      assert HasFailure(db, r);
      StillBacked(db, Mark(noted, r, DELIVERY_FAILED), r);
      MarkKeeps(noted, r, DELIVERY_FAILED);
    }
  }

  lemma SentToRecipient(db: Tables, d: nat, now: int, result: SendResult, r: nat)
    requires Linked(db) && d < |db.deliveries| && db.deliveries[d].recipientId == Some(r) && r < |db.recipients|
    requires db.deliveries[d].messageId.None? && db.notices[db.recipients[r].noticeId].status != SERVICE_COMPLETED
    ensures var after := AttemptSend(db, d, now, result);
      && after.deliveries[d].recipientId == Some(r)
      && (after.deliveries[d].status == SENT ==> after.deliveries[d].messageId.Some?)
      && |after.notices| == |db.notices|
      && (forall i :: 0 <= i < |db.recipients| ==> after.recipients[i].noticeId == db.recipients[i].noticeId)
      && after.notices[db.recipients[r].noticeId].status != SERVICE_COMPLETED
  {
  }

  lemma ServeOneKeeps(db: Tables, r: nat, hasEmail: bool, now: int, result: SendResult)
    requires Inv(db) && r < |db.recipients| && db.notices[db.recipients[r].noticeId].status != SERVICE_COMPLETED
    ensures var after := ServeOne(db, r, hasEmail, now, result);
      && Inv(after)
      && |after.notices| == |db.notices|
      && (forall i :: 0 <= i < |db.recipients| ==> after.recipients[i].noticeId == db.recipients[i].noticeId)
      && after.notices[db.recipients[r].noticeId].status != SERVICE_COMPLETED
  {
    hide PeopleAgree, MailAgrees, CertificatesCover, AttemptSend;
    var noted := NoteAttempt(db, r, PORTAL, OUTCOME_DELIVERED);
    NoteAttemptKeeps(db, r, PORTAL, OUTCOME_DELIVERED);
    if hasEmail {
      var d := |db.deliveries|;
      var queued := Queue(noted, Some(r));
      QueueKeeps(noted, Some(r));
      AttemptSendKeeps(queued, d, now, result);
      SentToRecipient(queued, d, now, result, r);
      SettleKeeps(AttemptSend(queued, d, now, result), r, d);
    }
  }

  lemma {:induction false} ServeAllKeeps(
    db: Tables, first: nat, to: seq<Addressee>, n: nat, now: int, answers: seq<SendResult>, notice: nat)
    requires Inv(db) && n <= |to| && first + |to| <= |db.recipients|
    requires notice < |db.notices| && db.notices[notice].status != SERVICE_COMPLETED
    requires forall i :: first <= i < first + |to| ==> db.recipients[i].noticeId == notice
    ensures var after := ServeAll(db, first, to, n, now, answers);
      && Inv(after)
      && |after.notices| == |db.notices|
      && (forall i :: 0 <= i < |db.recipients| ==> after.recipients[i].noticeId == db.recipients[i].noticeId)
      && after.notices[notice].status != SERVICE_COMPLETED
  {
    hide MailAgrees, PeopleAgree, CertificatesCover, ServeOne;
    if n > 0 {
      ServeAllKeeps(db, first, to, n - 1, now, answers, notice);
      var before := ServeAll(db, first, to, n - 1, now, answers);
      ServeOneKeeps(before, first + n - 1, to[n - 1].hasEmail, now, Answer(answers, n - 1));
    }
  }

  lemma PublishKeepsPeople(db: Tables, caseId: nat, to: seq<Addressee>)
    requires Inv(db)
    ensures PeopleAgree(Publish(db, caseId, to))
  {
    hide MailAgrees, CertificatesCover;
    var after := Publish(db, caseId, to);
    forall r | 0 <= r < |db.recipients|
      ensures StatusBacked(after, r)
    {
      assert StatusBacked(db, r);
    }
    forall n | 0 <= n < |after.notices| && after.notices[n].status == SERVICE_COMPLETED
      ensures AllReceived(after, n)
    {
      assert AllReceived(db, n);
    }
    forall d | 0 <= d < |after.deliveries| && after.deliveries[d].recipientId.Some? && LostForGood(after.deliveries[d])
      ensures HasFailure(after, after.deliveries[d].recipientId.value)
    {
      assert HasFailure(db, db.deliveries[d].recipientId.value);
    }
  }

  lemma PublishKeeps(db: Tables, caseId: nat, to: seq<Addressee>)
    requires Inv(db) && to != []
    ensures Inv(Publish(db, caseId, to))
  {
    PublishKeepsPeople(db, caseId, to);
    hide MailAgrees, PeopleAgree;
    var after := Publish(db, caseId, to);
    MailAgreesOn(db, after);
    forall n | n in after.certificates
      ensures after.certificates[n].Keys == Snapshot(after, n).Keys
    {
      assert Snapshot(db, n).Keys == Snapshot(after, n).Keys;
    }
    forall n | 0 <= n < |after.notices|
      ensures HasRecipient(after, n)
    {
      if n < |db.notices| {
        assert HasRecipient(db, n);
        var r :| 0 <= r < |db.recipients| && db.recipients[r].noticeId == n;
        assert after.recipients[r].noticeId == n;
      } else {
        assert after.recipients[|db.recipients|].noticeId == n;
      }
    }
  }

  lemma IssueKeeps(db: Tables, caseId: nat, to: seq<Addressee>, now: int, answers: seq<SendResult>)
    requires Inv(db) && to != []
    ensures Inv(IssueNotice(db, caseId, to, now, answers))
  {
    PublishKeeps(db, caseId, to);
    hide Inv, ServeAll;
    ServeAllKeeps(Publish(db, caseId, to), |db.recipients|, to, |to|, now, answers, |db.notices|);
  }

  lemma AttemptSendTouchesOne(db: Tables, d: nat, now: int, result: SendResult)
    requires Linked(db) && d < |db.deliveries|
    ensures forall e :: 0 <= e < |db.deliveries| && e != d ==> AttemptSend(db, d, now, result).deliveries[e] == db.deliveries[e]
  {
  }

  lemma {:induction false} RetryEachKeeps(db: Tables, ids: seq<nat>, n: nat, now: int, answers: seq<SendResult>)
    requires Inv(db) && n <= |ids|
    requires forall i :: 0 <= i < |ids| ==> ids[i] < |db.deliveries| && Due(db.deliveries[ids[i]], now)
    requires forall i, j :: 0 <= i < j < |ids| ==> ids[i] < ids[j]
    ensures var after := RetryEach(db, ids, n, now, answers);
      && Inv(after)
      && forall i :: n <= i < |ids| ==> after.deliveries[ids[i]] == db.deliveries[ids[i]]
  {
    hide MailAgrees, PeopleAgree, CertificatesCover, AttemptSend, Due;
    if n > 0 {
      RetryEachKeeps(db, ids, n - 1, now, answers);
      var before := RetryEach(db, ids, n - 1, now, answers);
      AttemptSendTouchesOne(before, ids[n - 1], now, Answer(answers, n - 1));
      AttemptSendKeeps(before, ids[n - 1], now, Answer(answers, n - 1));
    }
  }

  lemma AccessKeeps(db: Tables, r: nat, user: nat, now: int)
    requires Inv(db) && r < |db.recipients| && db.recipients[r].userId == Some(user)
    ensures Inv(RecordAccess(db, r, user, now))
  {
    hide MailAgrees, CertificatesCover;
    var after := RecordAccess(db, r, user, now);
    MailAgreesOn(db, after);
    ReceiptAdded(db.accesses, Receipt(r, user, now));
    PeopleStay(db, after, r);
    CoverStays(db, after);
  }

  lemma ReceiptAdded(receipts: seq<Receipt>, x: Receipt)
    ensures forall r :: HasReceipt(receipts + [x], r) <==> HasReceipt(receipts, r) || r == x.recipientId
  {
    forall r
      ensures HasReceipt(receipts + [x], r) <==> HasReceipt(receipts, r) || r == x.recipientId
    {
      if HasReceipt(receipts, r) {
        var i :| 0 <= i < |receipts| && receipts[i].recipientId == r;
        assert (receipts + [x])[i].recipientId == r;
      }
      assert (receipts + [x])[|receipts|] == x;
    }
  }

  lemma CoverStays(db: Tables, after: Tables)
    requires CertificatesCover(db) && after.certificates == db.certificates && |after.notices| == |db.notices|
    requires |after.recipients| == |db.recipients|
    requires forall r :: 0 <= r < |db.recipients| ==> after.recipients[r].noticeId == db.recipients[r].noticeId
    ensures CertificatesCover(after)
  {
    forall n | n in after.certificates
      ensures after.certificates[n].Keys == Snapshot(after, n).Keys
    {
      assert Snapshot(db, n).Keys == Snapshot(after, n).Keys;
    }
    forall n | 0 <= n < |after.notices|
      ensures HasRecipient(after, n)
    {
      assert HasRecipient(db, n);
      var r :| 0 <= r < |db.recipients| && db.recipients[r].noticeId == n;
      assert after.recipients[r].noticeId == n;
    }
  }

  /** A receipt by recipient r leaves the other recipients, the failures and the mail as they were. */
  lemma PeopleStay(db: Tables, after: Tables, r: nat)
    requires Linked(db) && PeopleAgree(db) && r < |db.recipients|
    requires |after.recipients| == |db.recipients| && after.deliveries == db.deliveries && after.failures == db.failures
    requires |after.notices| == |db.notices| && after.orders == db.orders && after.certificates == db.certificates
    requires forall i :: 0 <= i < |db.recipients| && i != r ==> after.recipients[i] == db.recipients[i]
    requires after.recipients[r].noticeId == db.recipients[r].noticeId && after.recipients[r].userId == db.recipients[r].userId
    requires Received(after.recipients[r].status) && StatusBacked(after, r)
    requires forall i: nat :: i != r && HasReceipt(db.accesses, i) <==> i != r && HasReceipt(after.accesses, i)
    requires forall i: nat :: i != r && HasReceipt(db.acknowledgements, i) <==> i != r && HasReceipt(after.acknowledgements, i)
    requires ReceiptsOwn(after, after.accesses) && ReceiptsOwn(after, after.acknowledgements)
    requires after.recipients[r].firstAccessedAt.Some? <==> HasReceipt(after.accesses, r)
    requires after.recipients[r].acknowledgedAt.Some? <==> HasReceipt(after.acknowledgements, r)
    requires forall n :: 0 <= n < |db.notices| ==>
      after.notices[n].status == db.notices[n].status || after.notices[n].status == ACKNOWLEDGED
    ensures PeopleAgree(after)
  {
    hide HasReceipt;
    forall i | 0 <= i < |after.recipients|
      ensures StatusBacked(after, i)
    {
      assert StatusBacked(db, i);
      if i != r && db.recipients[i].status == DELIVERY_FAILED {
        assert HasFailure(db, i) && HasFailure(after, i);
      }
      if i != r && db.recipients[i].status == EMAIL_SENT {
        assert Dispatched(db, i) && Dispatched(after, i);
      }
    }
    forall n | 0 <= n < |after.notices| && after.notices[n].status == SERVICE_COMPLETED
      ensures AllReceived(after, n)
    {
      assert AllReceived(db, n);
    }
    forall d | 0 <= d < |after.deliveries| && after.deliveries[d].recipientId.Some? && LostForGood(after.deliveries[d])
      ensures HasFailure(after, after.deliveries[d].recipientId.value)
    {
      assert HasFailure(db, db.deliveries[d].recipientId.value);
    }
  }

  lemma AcknowledgeKeeps(db: Tables, r: nat, user: nat, now: int)
    requires Inv(db) && r < |db.recipients| && db.recipients[r].userId == Some(user)
    ensures Inv(Acknowledge(db, r, user, now))
  {
    hide MailAgrees, CertificatesCover;
    var after := Acknowledge(db, r, user, now);
    MailAgreesOn(db, after);
    ReceiptAdded(db.acknowledgements, Receipt(r, user, now));
    PeopleStay(db, after, r);
    CoverStays(db, after);
  }

  lemma SubstituteKeeps(db: Tables, notice: nat)
    requires Inv(db) && notice < |db.notices|
    ensures Inv(OrderSubstitute(db, notice))
  {
    hide MailAgrees, CertificatesCover;
    var after := OrderSubstitute(db, notice);
    MailAgreesOn(db, after);
    CoverStays(db, after);
    forall r | HasFailure(db, r)
      ensures HasFailure(after, r)
    {
      var i :| 0 <= i < |db.failures| && db.failures[i].recipientId == r;
      assert after.failures[i].recipientId == r;
    }
    forall r | 0 <= r < |db.recipients|
      ensures StatusBacked(after, r)
    {
      assert StatusBacked(db, r);
      if db.recipients[r].status == EMAIL_SENT {
        assert Dispatched(db, r) && Dispatched(after, r);
      }
    }
    forall n | 0 <= n < |after.notices| && after.notices[n].status == SERVICE_COMPLETED
      ensures AllReceived(after, n)
    {
      assert AllReceived(db, n);
    }
  }

  lemma CertifyKeeps(db: Tables, notice: nat)
    requires Inv(db) && notice < |db.notices|
    ensures Inv(Certify(db, notice))
  {
    hide MailAgrees;
    var after := Certify(db, notice);
    MailAgreesOn(db, after);
    forall r | 0 <= r < |db.recipients|
      ensures StatusBacked(after, r)
    {
      assert StatusBacked(db, r);
      if db.recipients[r].status == EMAIL_SENT {
        assert Dispatched(db, r) && Dispatched(after, r);
      }
      if db.recipients[r].status == DELIVERY_FAILED {
        assert HasFailure(db, r) && HasFailure(after, r);
      }
    }
    forall n | 0 <= n < |after.notices| && after.notices[n].status == SERVICE_COMPLETED
      ensures n in after.certificates && AllReceived(after, n)
    {
      assert n == notice || AllReceived(db, n);
    }
    forall d | 0 <= d < |after.deliveries| && after.deliveries[d].recipientId.Some? && LostForGood(after.deliveries[d])
      ensures HasFailure(after, after.deliveries[d].recipientId.value)
    {
      assert HasFailure(db, db.deliveries[d].recipientId.value);
    }
    CertifyCovers(db, notice);
  }

  lemma CertifyCovers(db: Tables, notice: nat)
    requires CertificatesCover(db) && notice < |db.notices|
    ensures CertificatesCover(Certify(db, notice))
  {
    var after := Certify(db, notice);
    forall n | n in after.certificates
      ensures after.certificates[n].Keys == Snapshot(after, n).Keys
    {
      assert Snapshot(after, n) == Snapshot(db, n);
    }
    forall n | 0 <= n < |after.notices|
      ensures HasRecipient(after, n)
    {
      assert HasRecipient(db, n);
      var r :| 0 <= r < |db.recipients| && db.recipients[r].noticeId == n;
      assert after.recipients[r].noticeId == n;
    }
  }

  /** Every call keeps the invariant. */
  lemma StepKeepsInv(db: Tables, call: Call)
    requires Inv(db)
    ensures Inv(Step(db, call))
  {
    hide MailAgrees, PeopleAgree, CertificatesCover, IssueNotice, ProviderEvent, AttemptSend, RetryEach, Certify, Acknowledge;
    match call
    case CallIssue(caseId, to, now, answers) => if to != [] { IssueKeeps(db, caseId, to, now, answers); }
    case CallMail(now, result) =>
      QueueKeeps(db, None);
      AttemptSendKeeps(Queue(db, None), |db.deliveries|, now, result);
    case CallEvent(messageId, event) => ProviderEventKeeps(db, messageId, event);
    case CallRetry(now, limit, answers) =>
      var ids := DueIds(db.deliveries, now, limit);
      RetryEachKeeps(db, ids, |ids|, now, answers);
    case CallAccess(notice, user, now) =>
      var r := FindRecipient(db.recipients, notice, user);
      if r.Some? { AccessKeeps(db, r.value, user, now); }
    case CallAcknowledge(notice, user, now) =>
      var r := FindRecipient(db.recipients, notice, user);
      if r.Some? { AcknowledgeKeeps(db, r.value, user, now); }
    case CallSubstitute(notice) => if notice < |db.notices| { SubstituteKeeps(db, notice); }
    case CallCertify(notice) => if notice < |db.notices| { CertifyKeeps(db, notice); }
  }

  lemma EmptyInv()
    ensures Inv(EMPTY)
  {
  }

  /** The tables after the calls, starting from nothing. */
  function Run(calls: seq<Call>): (db: Tables)
    ensures Inv(db)
  {
    if calls == [] then EmptyInv(); EMPTY
    else
      var before := Run(calls[..|calls| - 1]);
      StepKeepsInv(before, calls[|calls| - 1]);
      Step(before, calls[|calls| - 1])
  }
}
