/** The service of notices and the email delivery service, carried out on the tables they share. */
module NoticesServices {
  import opened Wrappers
  import opened NoticeProtocol
  import opened NoticeMail
  import opened NoticeInvariants
  import opened NoticeIssue

  class NoticesService {
    var notices: seq<Notice>
    var recipients: seq<Recipient>
    var attempts: seq<Attempt>
    var accesses: seq<Receipt>
    var acknowledgements: seq<Receipt>
    var failures: seq<Failure>
    var orders: seq<nat>
    var certificates: map<nat, map<nat, NoticeStatus>>
    var deliveries: seq<Delivery>
    var sends: seq<Send>

    function Stored(): Tables
      reads this
    {
      Tables(notices, recipients, attempts, accesses, acknowledgements, failures, orders, certificates, deliveries, sends)
    }

    constructor ()
      ensures Stored() == EMPTY && Inv(Stored())
    {
      notices, recipients, attempts, accesses, acknowledgements, failures := [], [], [], [], [], [];
      orders, certificates, deliveries, sends := [], map[], [], [];
      new;
      EmptyInv();
    }

    method RaiseManualFallback(r: nat)
      requires r < |recipients| && recipients[r].noticeId < |notices|
      modifies this`recipients, this`failures, this`notices
      ensures Stored() == Fallback(old(Stored()), r)
    {
      var n := recipients[r].noticeId;
      recipients := recipients[r := recipients[r].(status := DELIVERY_FAILED)];
      failures := failures + [Failure(r, None)];
      notices := notices[n := notices[n].(status := SUBSTITUTE_SERVICE_REQUIRED)];
    }

    /** attemptSend: `result` is what the provider answers. */
    method AttemptSend(d: nat, now: int, attempt: nat, result: SendResult)
      requires Linked(Stored()) && d < |deliveries| && attempt == deliveries[d].attemptCount + 1
      modifies this`recipients, this`failures, this`notices, this`deliveries, this`sends
      ensures Stored() == NoticeProtocol.AttemptSend(old(Stored()), d, now, result)
      ensures Attempted(old(Stored()), Stored(), d, now, result)
    {
      hide Linked, Attempted;
      AttemptReads(Stored(), d, now, result);
      LinkedHandOver(Stored(), d, now, result);
      var messageId := |sends|;
      var delivery := deliveries[d];
      sends := sends + [Send(d, now, result)];
      match result
      case Accepted =>
        deliveries := deliveries[d := delivery.(
          status := SENT, messageId := Some(messageId), attemptCount := attempt, failureKind := None, nextAttemptAt := None)];
      case Refused(kind) =>
        var retryable := kind == TEMPORARY && attempt < 4;
        var nextAttemptAt := None;
        if retryable {
          nextAttemptAt := Some(now + RETRY_BACKOFF_MINUTES[if attempt - 1 < 3 then attempt - 1 else 3] * 60000);
        }
        deliveries := deliveries[d := delivery.(
          status := FAILED, failureKind := Some(kind), attemptCount := attempt, nextAttemptAt := nextAttemptAt)];
        if (kind == PERMANENT || !retryable) && delivery.recipientId.Some? {
          RaiseManualFallback(delivery.recipientId.value);
        }
    }

    /** sendTracked: records the email as queued and makes the first attempt. */
    method SendTracked(r: Option<nat>, now: int, result: SendResult) returns (delivery: Delivery)
      requires Linked(Stored()) && (r.Some? ==> r.value < |recipients|)
      modifies this`recipients, this`failures, this`notices, this`deliveries, this`sends
      ensures Linked(Queue(old(Stored()), r))
      ensures Stored() == NoticeProtocol.AttemptSend(Queue(old(Stored()), r), |old(deliveries)|, now, result)
      ensures |deliveries| == |old(deliveries)| + 1 && delivery == deliveries[|old(deliveries)|]
      ensures delivery.recipientId == r && delivery.attemptCount == 1 && delivery.status == if result.Accepted? then SENT else FAILED
      ensures delivery.nextAttemptAt == if result == Refused(TEMPORARY) then Some(now + 2 * 60 * 1000) else None
      ensures |recipients| == |old(recipients)|
      ensures r.Some? && delivery.status == FAILED && delivery.nextAttemptAt.None? ==>
        recipients[r.value].status == DELIVERY_FAILED && failures == old(failures) + [Failure(r.value, None)]
    {
      LinkedQueue(Stored(), r);
      hide Linked;
      var d := |deliveries|;
      deliveries := deliveries + [Delivery(r, QUEUED, None, 0, None, None)];
      AttemptSend(d, now, 1, result);
      delivery := deliveries[d];
    }

    /** sendTracked for mail that serves no notice. */
    method SendMail(now: int, result: SendResult)
      requires Inv(Stored())
      modifies this
      ensures Inv(Stored()) && Stored() == Step(old(Stored()), CallMail(now, result))
    {
      hide MailAgrees, PeopleAgree, CertificatesCover;
      StepKeepsInv(Stored(), CallMail(now, result));
      var delivery := SendTracked(None, now, result);
    }

    /** issueNotice: everyone gets the portal, and those with an address an email whose outcome is recorded as it is. */
    method IssueNotice(caseId: nat, to: seq<Addressee>, now: int, answers: seq<SendResult>) returns (r: Result<nat, NoticeError>)
      requires Inv(Stored())
      modifies this
      ensures Inv(Stored()) && Stored() == Step(old(Stored()), CallIssue(caseId, to, now, answers))
      ensures r == if to == [] then Err(InvalidBody) else Ok(|old(notices)|)
      ensures r.Ok? ==> Issued(old(Stored()), Stored(), caseId, to, answers)
      ensures r.Err? ==> Stored() == old(Stored())
    {
      hide Issued;
      hide MailAgrees, PeopleAgree, CertificatesCover, ServeOne, Linked;
      hide NoticeProtocol.AttemptSend, NoticeProtocol.RetryDue, ProviderEvent, Certify, NoticeProtocol.Acknowledge, OrderSubstitute;
      LinkedPublish(Stored(), caseId, to);
      IssueReads(Stored(), caseId, to, now, answers);
      StepKeepsInv(Stored(), CallIssue(caseId, to, now, answers));
      if to == [] {
        return Err(InvalidBody);
      }
      var notice := |notices|;
      var first := |recipients|;
      notices := notices + [Notice(caseId, PORTAL_AVAILABLE)];
      recipients := recipients + NewRecipients(notice, to);
      ghost var published := Stored();
      for k := 0 to |to|
        invariant Linked(published) && |recipients| == first + |to|
        invariant Stored() == ServeAll(published, first, to, k, now, answers)
      {
        Serve(first + k, to[k].hasEmail, now, Answer(answers, k));
      }
      r := Ok(notice);
    }

    /** The body of the recipients' loop. */
    method Serve(r: nat, hasEmail: bool, now: int, answer: SendResult)
      requires Linked(Stored()) && r < |recipients|
      modifies this`recipients, this`failures, this`notices, this`deliveries, this`sends, this`attempts
      ensures Stored() == ServeOne(old(Stored()), r, hasEmail, now, answer)
    {
      hide Linked, NoticeProtocol.AttemptSend;
      LinkedNoteAttempt(Stored(), r, PORTAL, OUTCOME_DELIVERED);
      attempts := attempts + [Attempt(r, PORTAL, OUTCOME_DELIVERED)];
      if !hasEmail {
        return;
      }
      var delivery := SendTracked(Some(r), now, answer);
      if delivery.status == SENT {
        attempts := attempts + [Attempt(r, EMAIL, OUTCOME_SENT)];
        recipients := recipients[r := recipients[r].(status := EMAIL_SENT)];
      } else if delivery.status == FAILED && delivery.nextAttemptAt.Some? {
        attempts := attempts + [Attempt(r, EMAIL, OUTCOME_PENDING)];
      } else if delivery.status == FAILED {
        attempts := attempts + [Attempt(r, EMAIL, OUTCOME_FAILED)];
        recipients := recipients[r := recipients[r].(status := DELIVERY_FAILED)];
      }
    }

    method HandleProviderEvent(messageId: nat, event: EventType) returns (matched: bool)
      requires Inv(Stored())
      modifies this
      ensures Inv(Stored()) && Stored() == Step(old(Stored()), CallEvent(messageId, event))
      ensures !matched ==> Stored() == old(Stored())
      ensures matched <==> exists d :: 0 <= d < |old(deliveries)| && old(deliveries)[d].messageId == Some(messageId)
      ensures forall d :: 0 <= d < |old(deliveries)| && old(deliveries)[d].messageId == Some(messageId) ==>
        EventTaken(old(Stored()), Stored(), d, event)
    {
      hide MailAgrees, PeopleAgree, CertificatesCover, EventTaken;
      EventReads(Stored(), messageId, event);
      StepKeepsInv(Stored(), CallEvent(messageId, event));
      var found := FindDelivery(deliveries, messageId);
      if found.None? {
        return false;
      }
      var delivery := deliveries[found.value];
      var next := StatusForEvent(event);
      if next.Some? {
        deliveries := deliveries[found.value := delivery.(status := next.value)];
      }
      assert Stored() == Trace(old(Stored()), found.value, event);
      if (event == EVENT_BOUNCED || event == EVENT_COMPLAINED || event == EVENT_FAILED) && delivery.recipientId.Some? {
        RaiseManualFallback(delivery.recipientId.value);
      }
      matched := true;
    }

    /** retryDue: the due deliveries, found first, are then attempted one by one. */
    method RetryDue(now: int, limit: nat, answers: seq<SendResult>) returns (retried: nat)
      requires Inv(Stored())
      modifies this
      ensures Inv(Stored()) && Stored() == Step(old(Stored()), CallRetry(now, limit, answers))
      ensures retried == |DueIds(old(deliveries), now, limit)|
      ensures retried <= limit && RetriesOnlyDue(old(deliveries), deliveries, now)
      ensures retried < limit ==> RetriesAllDue(old(deliveries), deliveries, now)
    {
      hide MailAgrees, PeopleAgree, CertificatesCover, Linked, NoticeProtocol.AttemptSend, Due;
      hide NoticeProtocol.IssueNotice, ProviderEvent, Certify, NoticeProtocol.Acknowledge, OrderSubstitute;
      hide RetriesOnlyDue, RetriesAllDue;
      RetriesRead(Stored(), now, limit, answers);
      StepKeepsInv(Stored(), CallRetry(now, limit, answers));
      ghost var db := Stored();
      var before := deliveries;
      var due := DueIds(before, now, limit);
      retried := 0;
      for k := 0 to |due|
        invariant Stored() == RetryEach(db, due, k, now, answers)
        invariant forall i :: k <= i < |due| ==> deliveries[due[i]] == before[due[i]]
        invariant retried == k
      {
        AttemptSendTouchesOne(Stored(), due[k], now, Answer(answers, k));
        AttemptSend(due[k], now, before[due[k]].attemptCount + 1, Answer(answers, k));
        retried := retried + 1;
      }
    }

    method RecordAccess(notice: nat, user: nat, now: int) returns (r: Result<(), NoticeError>)
      requires Inv(Stored())
      modifies this
      ensures Inv(Stored()) && Stored() == Step(old(Stored()), CallAccess(notice, user, now))
      ensures r == if notice >= |old(notices)| then Err(NotFound)
                   else if FindRecipient(old(recipients), notice, user).None? then Err(NotARecipient) else Ok(())
      ensures r.Ok? ==>
        var own := FindRecipient(old(recipients), notice, user).value;
        && |recipients| == |old(recipients)| && Received(recipients[own].status) && HasReceipt(accesses, own)
        && recipients[own].firstAccessedAt
           == (if old(recipients)[own].firstAccessedAt.Some? then old(recipients)[own].firstAccessedAt else Some(now))
        && recipients == old(recipients)[own := old(recipients)[own].(
             status := ACCESSED, firstAccessedAt := recipients[own].firstAccessedAt)]
        && accesses == old(accesses) + [Receipt(own, user, now)] && notices == old(notices)
    {
      hide MailAgrees, PeopleAgree, CertificatesCover;
      StepKeepsInv(Stored(), CallAccess(notice, user, now));
      if notice >= |notices| {
        return Err(NotFound);
      }
      var found := FindRecipient(recipients, notice, user);
      if found.None? {
        return Err(NotARecipient);
      }
      var recipient := recipients[found.value];
      ReceiptAdded(accesses, Receipt(found.value, user, now));
      accesses := accesses + [Receipt(found.value, user, now)];
      recipients := recipients[found.value := recipient.(
        status := ACCESSED,
        firstAccessedAt := if recipient.firstAccessedAt.Some? then recipient.firstAccessedAt else Some(now))];
      r := Ok(());
    }

    method Acknowledge(notice: nat, user: nat, now: int) returns (r: Result<(), NoticeError>)
      requires Inv(Stored())
      modifies this
      ensures Inv(Stored()) && Stored() == Step(old(Stored()), CallAcknowledge(notice, user, now))
      ensures r == if notice >= |old(notices)| then Err(NotFound)
                   else if FindRecipient(old(recipients), notice, user).None? then Err(NotARecipient) else Ok(())
      ensures r.Ok? ==>
        var own := FindRecipient(old(recipients), notice, user).value;
        && |notices| == |old(notices)| && notices[notice].status == ACKNOWLEDGED
        && |recipients| == |old(recipients)| && Received(recipients[own].status) && HasReceipt(acknowledgements, own)
        && recipients == old(recipients)[own := old(recipients)[own].(status := ACKNOWLEDGED, acknowledgedAt := Some(now))]
        && notices == old(notices)[notice := old(notices)[notice].(status := ACKNOWLEDGED)]
        && acknowledgements == old(acknowledgements) + [Receipt(own, user, now)]
    {
      hide MailAgrees, PeopleAgree, CertificatesCover;
      StepKeepsInv(Stored(), CallAcknowledge(notice, user, now));
      if notice >= |notices| {
        return Err(NotFound);
      }
      var found := FindRecipient(recipients, notice, user);
      if found.None? {
        return Err(NotARecipient);
      }
      recipients := recipients[found.value := recipients[found.value].(status := ACKNOWLEDGED, acknowledgedAt := Some(now))];
      notices := notices[notice := notices[notice].(status := ACKNOWLEDGED)];
      ReceiptAdded(acknowledgements, Receipt(found.value, user, now));
      acknowledgements := acknowledgements + [Receipt(found.value, user, now)];
      r := Ok(());
    }

    method OrderSubstituteService(notice: nat) returns (r: Result<nat, NoticeError>)
      requires Inv(Stored())
      modifies this
      ensures Inv(Stored()) && Stored() == Step(old(Stored()), CallSubstitute(notice))
      ensures r == if notice >= |old(notices)| then Err(NotFound) else Ok(|old(orders)|)
      ensures r.Ok? ==> |notices| == |old(notices)| && notices[notice].status == SUBSTITUTE_SERVICE_REQUIRED
      ensures r.Ok? ==> orders == old(orders) + [notice] && recipients == old(recipients)
      ensures r.Ok? ==>
        && |failures| == |old(failures)|
        && forall i :: 0 <= i < |failures| ==>
             var was := old(failures)[i];
             && was.recipientId < |recipients|
             && failures[i] == if was.orderId == None && recipients[was.recipientId].noticeId == notice
                               then was.(orderId := Some(r.value)) else was
      ensures r.Ok? ==>
        forall i :: 0 <= i < |failures| && recipients[failures[i].recipientId].noticeId == notice ==> failures[i].orderId.Some?
    {
      hide MailAgrees, PeopleAgree, CertificatesCover;
      StepKeepsInv(Stored(), CallSubstitute(notice));
      if notice >= |notices| {
        return Err(NotFound);
      }
      var order := |orders|;
      orders := orders + [notice];
      notices := notices[notice := notices[notice].(status := SUBSTITUTE_SERVICE_REQUIRED)];
      failures := Addressed(failures, recipients, notice, order);
      r := Ok(order);
    }

    /** generateCertificate: the existing one if there is one. */
    method GenerateCertificate(notice: nat) returns (r: Result<map<nat, NoticeStatus>, NoticeError>)
      requires Inv(Stored())
      modifies this
      ensures Inv(Stored()) && Stored() == Step(old(Stored()), CallCertify(notice))
      ensures r.Err? <==> notice >= |old(notices)|
      ensures r.Ok? ==> notice in certificates && r.value == certificates[notice]
      ensures notice in old(certificates) ==> Stored() == old(Stored())
      ensures r.Ok? && notice !in old(certificates) ==>
        && certificates == old(certificates)[notice := r.value] && recipients == old(recipients)
        && (forall k: nat :: k in r.value <==> k < |recipients| && recipients[k].noticeId == notice)
        && (forall k: nat :: k in r.value ==> r.value[k] == recipients[k].status)
        && notices == if forall k: nat :: k in r.value ==> r.value[k] == ACCESSED || r.value[k] == ACKNOWLEDGED
                      then old(notices)[notice := old(notices)[notice].(status := SERVICE_COMPLETED)] else old(notices)
    {
      CertificateReads(Stored(), notice);
      hide MailAgrees, PeopleAgree, CertificatesCover;
      StepKeepsInv(Stored(), CallCertify(notice));
      if notice >= |notices| {
        return Err(NotFound);
      }
      if notice in certificates {
        return Ok(certificates[notice]);
      }
      var allCompleted := AllReceived(Stored(), notice);
      certificates := certificates[notice := Snapshot(Stored(), notice)];
      if allCompleted {
        notices := notices[notice := notices[notice].(status := SERVICE_COMPLETED)];
      }
      r := Ok(certificates[notice]);
    }
  }

  /** Nobody fails; or recipient r does, with a failure on record and the notice marked for substitute service. */
  predicate FallenBack(a: Tables, b: Tables, r: Option<nat>) {
    match r
    case None => b.recipients == a.recipients && b.notices == a.notices && b.failures == a.failures
    case Some(k) =>
      && k < |a.recipients| && a.recipients[k].noticeId < |a.notices|
      && b.recipients == a.recipients[k := a.recipients[k].(status := DELIVERY_FAILED)]
      && b.failures == a.failures + [Failure(k, None)]
      && var n := a.recipients[k].noticeId;
         b.notices == a.notices[n := a.notices[n].(status := SUBSTITUTE_SERVICE_REQUIRED)]
  }

  /** One attempt on delivery d: accepted, put off, or lost for good with the fallback for its recipient. */
  predicate Attempted(a: Tables, b: Tables, d: nat, now: int, result: SendResult)
    requires d < |a.deliveries|
  {
    var was, attempt := a.deliveries[d], a.deliveries[d].attemptCount + 1;
    && b.sends == a.sends + [Send(d, now, result)]
    && match result
       case Accepted =>
         && b.deliveries == a.deliveries[d := Delivery(was.recipientId, SENT, None, attempt, None, Some(|a.sends|))]
         && FallenBack(a, b, None)
       case Refused(kind) =>
         var next := if kind == TEMPORARY && attempt <= 3 then Some(now + Wait(attempt)) else None;
         && b.deliveries == a.deliveries[d := Delivery(was.recipientId, FAILED, Some(kind), attempt, next, was.messageId)]
         && FallenBack(a, b, if next.None? then was.recipientId else None)
  }

  lemma AttemptReads(db: Tables, d: nat, now: int, result: SendResult)
    requires Linked(db) && d < |db.deliveries|
    ensures Attempted(db, NoticeProtocol.AttemptSend(db, d, now, result), d, now, result)
  {
  }

  /** What each event makes of an email's status. */
  predicate StatusFollows(event: EventType, was: EmailStatus, now: EmailStatus) {
    match event
    case EVENT_SENT => now == SENT
    case EVENT_DELIVERED => now == DELIVERED
    case EVENT_DELAYED => now == was
    case EVENT_BOUNCED => now == BOUNCED
    case EVENT_COMPLAINED => now == COMPLAINED
    case EVENT_FAILED => now == FAILED
    case EVENT_OPENED => now == OPENED
    case EVENT_CLICKED => now == CLICKED
  }

  /** An event about delivery d changes that status; a bounce, a complaint or a failure also fails its recipient, no other event does. */
  predicate EventTaken(a: Tables, b: Tables, d: nat, event: EventType)
    requires d < |a.deliveries|
  {
    && |b.deliveries| == |a.deliveries|
    && (forall e :: 0 <= e < |a.deliveries| && e != d ==> b.deliveries[e] == a.deliveries[e])
    && b.deliveries[d] == a.deliveries[d].(status := b.deliveries[d].status)
    && StatusFollows(event, a.deliveries[d].status, b.deliveries[d].status)
    && match event
       case EVENT_BOUNCED | EVENT_COMPLAINED | EVENT_FAILED => FallenBack(a, b, a.deliveries[d].recipientId)
       case EVENT_SENT | EVENT_DELIVERED | EVENT_DELAYED | EVENT_OPENED | EVENT_CLICKED => FallenBack(a, b, None)
  }

  lemma EventReads(db: Tables, messageId: nat, event: EventType)
    requires Inv(db)
    ensures forall d :: 0 <= d < |db.deliveries| && db.deliveries[d].messageId == Some(messageId) ==>
      EventTaken(db, ProviderEvent(db, messageId, event), d, event)
  {
    hide PeopleAgree, CertificatesCover, EventTaken, MailAgrees;
    EventFindsItsDelivery(db, messageId);
    var d := FindDelivery(db.deliveries, messageId);
    if d.Some? {
      FoundEventReads(db, messageId, d.value, event);
    }
  }

  lemma FoundEventReads(db: Tables, messageId: nat, d: nat, event: EventType)
    requires Linked(db) && d < |db.deliveries| && FindDelivery(db.deliveries, messageId) == Some(d)
    ensures EventTaken(db, ProviderEvent(db, messageId, event), d, event)
  {
  }

  predicate RetriesOnlyDue(was: seq<Delivery>, deliveries: seq<Delivery>, now: int) {
    && |deliveries| == |was|
    && forall d :: 0 <= d < |was| && deliveries[d] != was[d] ==>
         MayRetry(was[d], now) && deliveries[d].attemptCount == was[d].attemptCount + 1
  }

  predicate RetriesAllDue(was: seq<Delivery>, deliveries: seq<Delivery>, now: int) {
    && |deliveries| == |was|
    && forall d :: 0 <= d < |was| && MayRetry(was[d], now) ==> deliveries[d].attemptCount == was[d].attemptCount + 1
  }

  /** The due deliveries among the first n are found, each once. */
  lemma {:induction false} DueFound(deliveries: seq<Delivery>, now: int, n: nat, d: nat)
    requires d < n <= |deliveries| && Due(deliveries[d], now)
    ensures d in DueAmong(deliveries, now, n)
  {
    if d < n - 1 {
      DueFound(deliveries, now, n - 1, d);
    }
  }

  lemma {:induction false} RetryCounts(db: Tables, ids: seq<nat>, n: nat, now: int, answers: seq<SendResult>)
    requires Linked(db) && n <= |ids| && forall i :: 0 <= i < |ids| ==> ids[i] < |db.deliveries|
    requires forall i, j :: 0 <= i < j < |ids| ==> ids[i] < ids[j]
    ensures var after := RetryEach(db, ids, n, now, answers);
      && (forall i :: 0 <= i < n ==> after.deliveries[ids[i]].attemptCount == db.deliveries[ids[i]].attemptCount + 1)
      && (forall d :: 0 <= d < |db.deliveries| && d !in ids[..n] ==> after.deliveries[d] == db.deliveries[d])
  {
    hide Linked, NoticeProtocol.AttemptSend;
    if n > 0 {
      RetryCounts(db, ids, n - 1, now, answers);
      var before := RetryEach(db, ids, n - 1, now, answers);
      assert ids[..n] == ids[..n - 1] + [ids[n - 1]];
      assert ids[n - 1] !in ids[..n - 1];
      AttemptSendTouchesOne(before, ids[n - 1], now, Answer(answers, n - 1));
      AttemptCounts(before, ids[n - 1], now, Answer(answers, n - 1));
    }
  }

  lemma AttemptCounts(db: Tables, d: nat, now: int, result: SendResult)
    requires Linked(db) && d < |db.deliveries|
    ensures NoticeProtocol.AttemptSend(db, d, now, result).deliveries[d].attemptCount == db.deliveries[d].attemptCount + 1
  {
  }

  lemma LinkedOf(db: Tables)
    requires Inv(db)
    ensures Linked(db)
  {
    hide MailAgrees, PeopleAgree, CertificatesCover;
  }

  lemma RetriesRead(db: Tables, now: int, limit: nat, answers: seq<SendResult>)
    requires Inv(db)
    ensures var after := NoticeProtocol.RetryDue(db, now, limit, answers);
      && |DueIds(db.deliveries, now, limit)| <= limit
      && RetriesOnlyDue(db.deliveries, after.deliveries, now)
      && (|DueIds(db.deliveries, now, limit)| < limit ==> RetriesAllDue(db.deliveries, after.deliveries, now))
  {
    hide Linked;
    LinkedOf(db);
    hide Inv;
    var ids := DueIds(db.deliveries, now, limit);
    RetryCounts(db, ids, |ids|, now, answers);
    assert ids[..|ids|] == ids;
    if |ids| < limit {
      forall d | 0 <= d < |db.deliveries| && MayRetry(db.deliveries[d], now)
        ensures d in ids
      {
        DueFound(db.deliveries, now, |db.deliveries|, d);
      }
    }
  }

  lemma CertificateReads(db: Tables, notice: nat)
    ensures AllReceived(db, notice)
      <==> forall k :: k in Snapshot(db, notice) ==>
             Snapshot(db, notice)[k] == ACCESSED || Snapshot(db, notice)[k] == ACKNOWLEDGED
  {
    if AllReceived(db, notice) {
      forall k | k in Snapshot(db, notice)
        ensures Received(Snapshot(db, notice)[k])
      {
      }
    } else {
      var r :| 0 <= r < |db.recipients| && db.recipients[r].noticeId == notice && !Received(db.recipients[r].status);
      assert r in Snapshot(db, notice);
    }
  }

  lemma LinkedHandOver(db: Tables, d: nat, now: int, result: SendResult)
    requires Linked(db) && d < |db.deliveries|
    ensures db.deliveries[d].recipientId.Some? ==>
      db.deliveries[d].recipientId.value < |db.recipients|
      && db.recipients[db.deliveries[d].recipientId.value].noticeId < |db.notices|
  {
  }

  lemma LinkedPublish(db: Tables, caseId: nat, to: seq<Addressee>)
    requires Inv(db)
    ensures Linked(db) && Linked(Publish(db, caseId, to))
  {
    hide MailAgrees, PeopleAgree, CertificatesCover;
  }

  lemma LinkedQueue(db: Tables, r: Option<nat>)
    requires Linked(db) && (r.Some? ==> r.value < |db.recipients|)
    ensures Linked(Queue(db, r))
  {
  }

  lemma LinkedNoteAttempt(db: Tables, r: nat, channel: Channel, outcome: AttemptOutcome)
    requires Linked(db)
    ensures Linked(NoteAttempt(db, r, channel, outcome))
  {
  }
}
