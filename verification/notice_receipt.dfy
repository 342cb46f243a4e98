/** What runs of the notice service promise: dispatch is never receipt, certificates are final, mail is paced. */
module NoticeReceipt {
  import opened Wrappers
  import opened NoticeProtocol
  import opened NoticeMail
  import opened NoticeInvariants

  // ---- Dispatch is never receipt ----

  /** Recipients keep their place, nobody newly received anything, and no certificate or completion came about. */
  predicate Quiet(a: Tables, b: Tables) {
    && |a.recipients| <= |b.recipients| && |a.notices| <= |b.notices|
    && (forall r :: 0 <= r < |a.recipients| ==>
          b.recipients[r].noticeId == a.recipients[r].noticeId && b.recipients[r].userId == a.recipients[r].userId)
    && (forall r :: 0 <= r < |b.recipients| && Received(b.recipients[r].status) ==>
          r < |a.recipients| && Received(a.recipients[r].status))
    && (forall n :: 0 <= n < |b.notices| && b.notices[n].status == SERVICE_COMPLETED ==>
          n < |a.notices| && a.notices[n].status == SERVICE_COMPLETED)
    && b.certificates == a.certificates && b.accesses == a.accesses && b.acknowledgements == a.acknowledgements
  }

  lemma AttemptSendIsQuiet(db: Tables, d: nat, now: int, result: SendResult)
    requires Linked(db) && d < |db.deliveries|
    ensures Quiet(db, AttemptSend(db, d, now, result))
  {
  }

  lemma SettleIsQuiet(db: Tables, r: nat, delivery: Delivery)
    requires r < |db.recipients|
    ensures Quiet(db, Settle(db, r, delivery))
  {
  }

  lemma ServeOneIsQuiet(db: Tables, r: nat, hasEmail: bool, now: int, result: SendResult)
    requires Linked(db) && r < |db.recipients|
    ensures Quiet(db, ServeOne(db, r, hasEmail, now, result))
  {
    hide AttemptSend, Settle;
    var noted := NoteAttempt(db, r, PORTAL, OUTCOME_DELIVERED);
    if hasEmail {
      var sent := AttemptSend(Queue(noted, Some(r)), |db.deliveries|, now, result);
      SettleIsQuiet(sent, r, sent.deliveries[|db.deliveries|]);
      AttemptSendIsQuiet(Queue(noted, Some(r)), |db.deliveries|, now, result);
    }
  }

  lemma {:induction false} ServeAllIsQuiet(db: Tables, first: nat, to: seq<Addressee>, n: nat, now: int, answers: seq<SendResult>)
    requires Linked(db) && n <= |to| && first + |to| <= |db.recipients|
    ensures Quiet(db, ServeAll(db, first, to, n, now, answers))
  {
    hide Linked, ServeOne;
    if n > 0 {
      ServeAllIsQuiet(db, first, to, n - 1, now, answers);
      ServeOneIsQuiet(
        ServeAll(db, first, to, n - 1, now, answers), first + n - 1, to[n - 1].hasEmail, now, Answer(answers, n - 1));
    }
  }

  lemma {:induction false} RetryEachIsQuiet(db: Tables, ids: seq<nat>, n: nat, now: int, answers: seq<SendResult>)
    requires Linked(db) && n <= |ids| && forall i :: 0 <= i < |ids| ==> ids[i] < |db.deliveries|
    ensures Quiet(db, RetryEach(db, ids, n, now, answers))
  {
    hide Linked, AttemptSend;
    if n > 0 {
      RetryEachIsQuiet(db, ids, n - 1, now, answers);
      AttemptSendIsQuiet(RetryEach(db, ids, n - 1, now, answers), ids[n - 1], now, Answer(answers, n - 1));
    }
  }

  /** Issuing, sending, retrying, provider events and substitute service: everything but a recipient's act or a certificate. */
  predicate IsDispatch(call: Call) {
    call.CallIssue? || call.CallMail? || call.CallRetry? || call.CallEvent? || call.CallSubstitute?
  }

  lemma EventIsQuiet(db: Tables, messageId: nat, event: EventType)
    requires Linked(db)
    ensures Quiet(db, ProviderEvent(db, messageId, event))
  {
    hide FailsService, StatusForEvent;
  }

  /** No dispatch, retry or provider event makes a notice received, evidences receipt or completes service. */
  lemma DispatchIsQuiet(db: Tables, call: Call)
    requires Linked(db) && IsDispatch(call)
    ensures Quiet(db, Step(db, call))
  {
    hide AttemptSend, ServeAll, RetryEach, DueIds, ProviderEvent;
    match call
    case CallIssue(caseId, to, now, answers) =>
      if to != [] { ServeAllIsQuiet(Publish(db, caseId, to), |db.recipients|, to, |to|, now, answers); }
    case CallMail(now, result) => AttemptSendIsQuiet(Queue(db, None), |db.deliveries|, now, result);
    case CallRetry(now, limit, answers) =>
      var ids := DueIds(db.deliveries, now, limit);
      RetryEachIsQuiet(db, ids, |ids|, now, answers);
    case CallEvent(messageId, event) => EventIsQuiet(db, messageId, event);
    case CallSubstitute(notice) =>
  }

  /** The recipient's own user accesses or acknowledges the notice. */
  predicate Receives(call: Call, notice: nat, user: Option<nat>) {
    match call
    case CallAccess(n, u, _) => n == notice && Some(u) == user
    case CallAcknowledge(n, u, _) => n == notice && Some(u) == user
    case _ => false
  }

  predicate SameAddressee(a: Tables, b: Tables, r: nat) {
    r < |a.recipients| && r < |b.recipients|
    && a.recipients[r].noticeId == b.recipients[r].noticeId && a.recipients[r].userId == b.recipients[r].userId
  }

  lemma StepReceives(db: Tables, call: Call, r: nat)
    requires Linked(db)
    ensures |db.recipients| <= |Step(db, call).recipients|
    ensures r < |db.recipients| ==> SameAddressee(db, Step(db, call), r)
    ensures var after := Step(db, call);
      r < |after.recipients| && Received(after.recipients[r].status) ==>
        || (r < |db.recipients| && Received(db.recipients[r].status))
        || Receives(call, after.recipients[r].noticeId, after.recipients[r].userId)
  {
    if IsDispatch(call) {
      hide Step, Linked;
      DispatchIsQuiet(db, call);
    }
  }

  predicate SomeReceives(calls: seq<Call>, notice: nat, user: Option<nat>) {
    exists k :: 0 <= k < |calls| && Receives(calls[k], notice, user)
  }

  /** A recipient counts as having received a notice only if that recipient's own user accessed or acknowledged it. */
  lemma {:induction false} DispatchIsNeverReceipt(calls: seq<Call>, r: nat)
    requires r < |Run(calls).recipients| && Received(Run(calls).recipients[r].status)
    ensures SomeReceives(calls, Run(calls).recipients[r].noticeId, Run(calls).recipients[r].userId)
  {
    hide Inv, Outcome, Receives, Received;
    if calls != [] {
      var n := |calls| - 1;
      var before := Run(calls[..n]);
      var notice, user := Run(calls).recipients[r].noticeId, Run(calls).recipients[r].userId;
      LinkedInv(before);
      StepReceives(before, calls[n], r);
      if !Receives(calls[n], notice, user) {
        DispatchIsNeverReceipt(calls[..n], r);
        var k :| 0 <= k < n && Receives(calls[..n][k], notice, user);
        assert calls[k] == calls[..n][k];
      }
    }
  }

  lemma LinkedInv(db: Tables)
    requires Inv(db)
    ensures Linked(db)
  {
  }

  /** Completed service means a certificate, and every recipient's own user accessed or acknowledged the notice. */
  lemma CompletedMeansEveryoneReceived(calls: seq<Call>, n: nat)
    requires n < |Run(calls).notices| && Run(calls).notices[n].status == SERVICE_COMPLETED
    ensures var db := Run(calls);
      && n in db.certificates && HasRecipient(db, n)
      && forall r :: 0 <= r < |db.recipients| && db.recipients[r].noticeId == n ==>
           Received(db.recipients[r].status) && SomeReceives(calls, n, db.recipients[r].userId)
  {
    var db := Run(calls);
    hide Run, MailAgrees, SomeReceives, Linked;
    assert AllReceived(db, n);
    forall r | 0 <= r < |db.recipients| && db.recipients[r].noticeId == n
      ensures SomeReceives(calls, n, db.recipients[r].userId)
    {
      DispatchIsNeverReceipt(calls, r);
    }
  }

  // ---- Certificates ----

  /** Certificates stay, and a certified notice that is not completed does not become so. */
  predicate CertificatesStay(a: Tables, b: Tables) {
    && |a.notices| <= |b.notices|
    && (forall n :: n in a.certificates ==> n in b.certificates && b.certificates[n] == a.certificates[n])
    && (forall n :: n in a.certificates && n < |a.notices| && a.notices[n].status != SERVICE_COMPLETED ==>
          b.notices[n].status != SERVICE_COMPLETED)
  }

  lemma StepKeepsCertificates(db: Tables, call: Call)
    requires Linked(db)
    ensures CertificatesStay(db, Step(db, call))
  {
    if IsDispatch(call) {
      hide Step, Linked;
      DispatchIsQuiet(db, call);
    }
  }

  /** A certificate is final: it never changes, and receipt that comes after it never completes the service. */
  lemma {:induction false} CertificateIsFinal(calls: seq<Call>, more: seq<Call>)
    ensures CertificatesStay(Run(calls), Run(calls + more))
  {
    hide Inv, Outcome;
    if more == [] {
      assert calls + more == calls;
    } else {
      var n := |more| - 1;
      assert (calls + more)[..|calls| + n] == calls + more[..n];
      CertificateIsFinal(calls, more[..n]);
      LinkedInv(Run(calls + more[..n]));
      StepKeepsCertificates(Run(calls + more[..n]), more[n]);
      CoveredInv(Run(calls));
    }
  }

  lemma CoveredInv(db: Tables)
    requires Inv(db)
    ensures forall n :: n in db.certificates ==> n < |db.notices|
  {
  }

  predicate CompletedNow(db: Tables, n: nat) {
    n < |db.notices| && db.notices[n].status == SERVICE_COMPLETED
  }

  /** Service of notice n was completed after some of the calls, though a later call may have undone it. */
  predicate EverCompleted(calls: seq<Call>, n: nat) {
    CompletedNow(Run(calls), n) || (calls != [] && EverCompleted(calls[..|calls| - 1], n))
  }

  /** Notice n has a certificate that shows every recipient's receipt. */
  predicate CertifiedReceived(db: Tables, n: nat) {
    n in db.certificates && forall r :: r in db.certificates[n] ==> Received(db.certificates[n][r])
  }

  /** Completion and a certificate come about together, and a certificate that shows everyone's receipt brings completion. */
  lemma CompletionStep(db: Tables, call: Call, n: nat)
    requires Linked(db) && (n in db.certificates ==> n < |db.notices|)
    ensures var after := Step(db, call);
      && (CompletedNow(after, n) && !CompletedNow(db, n) ==> CertifiedReceived(after, n))
      && (CertifiedReceived(after, n) && !CertifiedReceived(db, n) ==> CompletedNow(after, n))
      && (CertifiedReceived(db, n) ==> CertifiedReceived(after, n))
  {
    if IsDispatch(call) {
      hide Step, Linked;
      DispatchIsQuiet(db, call);
    } else if call.CallCertify? && call.notice == n && n < |db.notices| && n !in db.certificates {
      SnapshotReceived(db, n);
    }
  }

  lemma SnapshotReceived(db: Tables, n: nat)
    ensures AllReceived(db, n) <==> forall r :: r in Snapshot(db, n) ==> Received(Snapshot(db, n)[r])
  {
    if forall r :: r in Snapshot(db, n) ==> Received(Snapshot(db, n)[r]) {
      forall r | 0 <= r < |db.recipients| && db.recipients[r].noticeId == n
        ensures Received(db.recipients[r].status)
      {
        assert r in Snapshot(db, n);
      }
    }
  }

  /** Over every run, service of a notice was completed at some time exactly when its certificate shows everyone's receipt. */
  lemma {:induction false} CertificateDecidesCompletion(calls: seq<Call>, n: nat)
    ensures EverCompleted(calls, n) <==> CertifiedReceived(Run(calls), n)
  {
    hide Inv, Step, CertifiedReceived, CompletedNow;
    if calls == [] {
      NothingCompleted(n);
    } else {
      var before := Run(calls[..|calls| - 1]);
      CertificateDecidesCompletion(calls[..|calls| - 1], n);
      LinkedInv(before);
      CoveredInv(before);
      CompletionStep(before, calls[|calls| - 1], n);
      CompletedIsCertified(calls, n);
    }
  }

  lemma NothingCompleted(n: nat)
    ensures !CompletedNow(EMPTY, n) && !CertifiedReceived(EMPTY, n)
  {
  }

  lemma CompletedIsCertified(calls: seq<Call>, n: nat)
    ensures CompletedNow(Run(calls), n) ==> n in Run(calls).certificates
  {
    hide Run, Linked, MailAgrees;
  }

  // ---- Mail over a run ----

  /** Attempt j came after a temporary failure and its wait. */
  predicate Waited(t: seq<Send>, j: nat)
    requires 0 < j < |t|
  {
    t[j - 1].result == Refused(TEMPORARY) && t[j].at >= t[j - 1].at + Wait(j)
  }

  /** No email is handed over more than four times, nor again once accepted or refused for good, nor before its backoff. */
  lemma SendsArePaced(calls: seq<Call>, d: nat)
    ensures var t := Trail(Run(calls).sends, d);
      && |t| <= 4
      && forall j :: 0 < j < |t| ==> Waited(t, j)
    ensures d < |Run(calls).deliveries| ==> Run(calls).deliveries[d].attemptCount == |Trail(Run(calls).sends, d)|
  {
    var db := Run(calls);
    hide Run, PeopleAgree;
    if d >= |db.deliveries| {
      NoTrail(db.sends, d);
    } else {
      var t := Trail(db.sends, d);
      assert Paced(t) && RowAgrees(db.deliveries[d], t);
      hide MailAgrees, Trail, RowAgrees;
      PacedWaits(t);
    }
  }

  lemma PacedWaits(t: seq<Send>)
    requires Paced(t)
    ensures forall j :: 0 < j < |t| ==> Waited(t, j)
  {
    hide Wait, Backoff;
    forall j | 0 < j < |t|
      ensures Waited(t, j)
    {
      BackoffIsWait(j);
    }
  }

  /** An email that failed is never forgotten: its retry is due after the backoff, or its recipient's failure is on record. */
  lemma FailedMailIsRetriedOrRaised(calls: seq<Call>, d: nat, r: nat)
    requires d < |Run(calls).deliveries| && Run(calls).deliveries[d].recipientId == Some(r)
    requires var t := Trail(Run(calls).sends, d); t != [] && t[|t| - 1].result.Refused?
    ensures var db, t := Run(calls), Trail(Run(calls).sends, d);
      if t[|t| - 1].result == Refused(TEMPORARY) && |t| <= 3
      then forall now :: MayRetry(db.deliveries[d], now) <==> now >= t[|t| - 1].at + Wait(|t|)
      else HasFailure(db, r) && forall now :: !MayRetry(db.deliveries[d], now)
  {
    var db := Run(calls);
    hide Run, HasFailure;
    var t := Trail(db.sends, d);
    assert RowAgrees(db.deliveries[d], t);
    if t[|t| - 1].result == Refused(TEMPORARY) && |t| <= 3 {
      BackoffIsWait(|t|);
    }
  }

  // ---- Runs ----

  const TO_ONE := [Addressee(Some(7), true)]
  const TO_TWO := [Addressee(Some(7), false), Addressee(Some(8), false)]

  const ISSUE_ONE := CallIssue(0, TO_ONE, 0, [Accepted])
  const ISSUE_TWO := CallIssue(0, TO_TWO, 0, [])

  lemma RunOne(call: Call)
    ensures Run([call]) == Step(EMPTY, call)
  {
    hide Inv, Step, Outcome;
    assert [call][..0] == [];
  }

  lemma RunTwo(first: Call, second: Call)
    ensures Run([first, second]) == Step(Run([first]), second)
  {
    hide Inv, Step, Outcome;
    assert [first, second][..1] == [first];
  }

  lemma RunThree(first: Call, second: Call, third: Call)
    ensures Run([first, second, third]) == Step(Run([first, second]), third)
  {
    hide Inv, Step, Outcome;
    assert [first, second, third][..2] == [first, second];
  }

  lemma IssuedToOne()
    ensures var db := Run([ISSUE_ONE]);
      && db.notices == [Notice(0, PORTAL_AVAILABLE)] && db.certificates == map[]
      && db.recipients == [Recipient(0, Some(7), EMAIL_SENT, None, None)]
      && |db.deliveries| == 1 && db.deliveries[0].messageId == Some(0) && db.deliveries[0].recipientId == Some(0)
  {
    RunOne(ISSUE_ONE);
    hide Run, Inv;
    var published := Publish(EMPTY, 0, TO_ONE);
    assert Step(EMPTY, ISSUE_ONE) == ServeAll(published, 0, TO_ONE, 1, 0, [Accepted]);
    assert ServeAll(published, 0, TO_ONE, 0, 0, [Accepted]) == published;
    assert Step(EMPTY, ISSUE_ONE) == ServeOne(published, 0, true, 0, Accepted);
  }

  lemma FirstRecipientFound(recipients: seq<Recipient>, notice: nat, user: nat)
    requires recipients != [] && recipients[0].noticeId == notice && recipients[0].userId == Some(user)
    ensures FindRecipient(recipients, notice, user) == Some(0)
  {
  }

  lemma AccessStep(db: Tables, user: nat, now: int)
    requires Linked(db) && |db.notices| > 0 && db.recipients != []
    requires db.recipients[0].noticeId == 0 && db.recipients[0].userId == Some(user)
    ensures Step(db, CallAccess(0, user, now)) == RecordAccess(db, 0, user, now)
    ensures Step(db, CallAcknowledge(0, user, now)) == Acknowledge(db, 0, user, now)
  {
    FirstRecipientFound(db.recipients, 0, user);
    hide FindRecipient, Linked, RecordAccess, Acknowledge;
  }

  lemma AccessedByOne()
    ensures var db := Run([ISSUE_ONE, CallAccess(0, 7, 1)]);
      && |db.notices| == 1
      && db.recipients == [Recipient(0, Some(7), ACCESSED, Some(1), None)]
      && |db.deliveries| == 1 && db.deliveries[0].messageId == Some(0) && db.deliveries[0].recipientId == Some(0)
      && HasReceipt(db.accesses, 0)
  {
    IssuedToOne();
    RunTwo(ISSUE_ONE, CallAccess(0, 7, 1));
    var issued := Run([ISSUE_ONE]);
    LinkedInv(issued);
    AccessStep(issued, 7, 1);
    ReceiptAdded(issued.accesses, Receipt(0, 7, 1));
    hide Run, Inv, Linked, HasReceipt, Step;
  }

  /** A bounce reported after the notice was opened marks the recipient failed, access event or not. */
  lemma BounceAfterAccess()
    ensures var db := Run([ISSUE_ONE, CallAccess(0, 7, 1), CallEvent(0, EVENT_BOUNCED)]);
      && |db.recipients| == 1 && db.recipients[0].status == DELIVERY_FAILED && db.recipients[0].firstAccessedAt == Some(1)
      && HasReceipt(db.accesses, 0)
      && |db.notices| == 1 && db.notices[0].status == SUBSTITUTE_SERVICE_REQUIRED
  {
    AccessedByOne();
    RunThree(ISSUE_ONE, CallAccess(0, 7, 1), CallEvent(0, EVENT_BOUNCED));
    hide IssueNotice, RetryDue, Certify, OrderSubstitute, AttemptSend;
    hide Run, Inv, Linked, HasReceipt;
    var accessed := Run([ISSUE_ONE, CallAccess(0, 7, 1)]);
    assert FindDelivery(accessed.deliveries, 0) == Some(0);
    assert Step(accessed, CallEvent(0, EVENT_BOUNCED)) == Fallback(Trace(accessed, 0, EVENT_BOUNCED), 0);
  }

  lemma IssuedToTwo()
    ensures Run([ISSUE_TWO]).recipients == NewRecipients(0, TO_TWO)
    ensures Run([ISSUE_TWO]).notices == [Notice(0, PORTAL_AVAILABLE)]
  {
    RunOne(ISSUE_TWO);
    hide Run, Inv;
    var published := Publish(EMPTY, 0, TO_TWO);
    assert Step(EMPTY, ISSUE_TWO) == ServeAll(published, 0, TO_TWO, 2, 0, []);
    assert ServeAll(published, 0, TO_TWO, 0, 0, []) == published;
    var one := ServeAll(published, 0, TO_TWO, 1, 0, []);
    assert one == NoteAttempt(published, 0, PORTAL, OUTCOME_DELIVERED);
    assert Run([ISSUE_TWO]) == NoteAttempt(one, 1, PORTAL, OUTCOME_DELIVERED);
  }

  /**
   An acknowledgement that goes through marks its notice acknowledged, and everyone has received the notice
   then exactly when every other recipient had received it before.
   */
  lemma AcknowledgementMarksTheNotice(calls: seq<Call>, n: nat, user: nat, now: int)
    requires Linked(Run(calls)) && Outcome(Run(calls), CallAcknowledge(n, user, now)).Ok?
    ensures var db, after := Run(calls), Run(calls + [CallAcknowledge(n, user, now)]);
      && |after.notices| == |db.notices| && n < |db.notices| && after.notices[n].status == ACKNOWLEDGED
      && FindRecipient(db.recipients, n, user).Some?
      && var own := FindRecipient(db.recipients, n, user).value;
         AllReceived(after, n)
         <==> forall r :: 0 <= r < |db.recipients| && db.recipients[r].noticeId == n && r != own ==>
                Received(db.recipients[r].status)
  {
    var db, call := Run(calls), CallAcknowledge(n, user, now);
    RunMore(calls, call);
    hide Run, Linked;
    var own := FindRecipient(db.recipients, n, user).value;
    var after := Acknowledge(db, own, user, now);
    assert Step(db, call) == after;
    assert forall r :: 0 <= r < |db.recipients| && r != own ==> after.recipients[r] == db.recipients[r];
    if AllReceived(after, n) {
      forall r | 0 <= r < |db.recipients| && db.recipients[r].noticeId == n && r != own
        ensures Received(db.recipients[r].status)
      {
        assert Received(after.recipients[r].status);
      }
    }
  }

  lemma RunMore(calls: seq<Call>, call: Call)
    ensures Run(calls + [call]) == Step(Run(calls), call)
  {
    hide Inv, Step, Outcome;
    assert (calls + [call])[..|calls|] == calls;
  }

  /** One recipient's acknowledgement marks the whole notice acknowledged while another has not received it. */
  lemma OneAcknowledgementMarksTheNotice()
    ensures var db := Run([ISSUE_TWO, CallAcknowledge(0, 7, 1)]);
      && |db.notices| == 1 && db.notices[0].status == ACKNOWLEDGED
      && |db.recipients| == 2 && db.recipients[1].status == PORTAL_AVAILABLE && !AllReceived(db, 0)
  {
    IssuedToTwo();
    RunTwo(ISSUE_TWO, CallAcknowledge(0, 7, 1));
    hide IssueNotice, RetryDue, Certify, OrderSubstitute, AttemptSend;
    hide Run, Inv, Linked;
    var issued := Run([ISSUE_TWO]);
    AccessStep(issued, 7, 1);
    hide Step;
  }

  const EARLY := [ISSUE_ONE, CallCertify(0), CallAccess(0, 7, 1)]

  lemma CertifyStep(db: Tables)
    requires Linked(db) && |db.notices| > 0
    ensures Step(db, CallCertify(0)) == Certify(db, 0)
  {
    hide Linked, Certify;
  }

  lemma CertifyUnreceived(db: Tables)
    requires db.notices == [Notice(0, PORTAL_AVAILABLE)] && db.certificates == map[]
    requires db.recipients == [Recipient(0, Some(7), EMAIL_SENT, None, None)]
    ensures Certify(db, 0) == db.(certificates := map[0 := map[0 := EMAIL_SENT]])
  {
    assert !Received(db.recipients[0].status);
    assert Snapshot(db, 0) == map[0 := EMAIL_SENT];
  }

  lemma CertifiedEarly()
    ensures var db := Run([ISSUE_ONE, CallCertify(0)]);
      && db.notices == [Notice(0, PORTAL_AVAILABLE)]
      && db.recipients == [Recipient(0, Some(7), EMAIL_SENT, None, None)]
      && db.certificates == map[0 := map[0 := EMAIL_SENT]]
  {
    IssuedToOne();
    RunTwo(ISSUE_ONE, CallCertify(0));
    var issued := Run([ISSUE_ONE]);
    LinkedInv(issued);
    CertifyStep(issued);
    CertifyUnreceived(issued);
    hide Run, Inv, Linked, Step, Certify;
  }

  lemma AccessedLate()
    ensures var db := Run(EARLY);
      && db.notices == [Notice(0, PORTAL_AVAILABLE)]
      && db.recipients == [Recipient(0, Some(7), ACCESSED, Some(1), None)]
      && db.certificates == map[0 := map[0 := EMAIL_SENT]]
  {
    CertifiedEarly();
    RunThree(ISSUE_ONE, CallCertify(0), CallAccess(0, 7, 1));
    var early := Run([ISSUE_ONE, CallCertify(0)]);
    LinkedInv(early);
    AccessStep(early, 7, 1);
    hide Run, Inv, Linked, Step;
  }

  lemma CertifiedAgain()
    ensures var db := Run(EARLY + [CallCertify(0)]);
      && db.notices == [Notice(0, PORTAL_AVAILABLE)] && 0 in db.certificates
      && db.recipients == [Recipient(0, Some(7), ACCESSED, Some(1), None)]
  {
    AccessedLate();
    RunMore(EARLY, CallCertify(0));
    var accessed := Run(EARLY);
    LinkedInv(accessed);
    CertifyStep(accessed);
    hide Run, Inv, Linked, Step;
    assert Certify(accessed, 0) == accessed;
  }

  /** So a notice certified before it was opened stays uncompleted: the later access and a second request change nothing. */
  lemma EarlyCertificatePreventsCompletion(more: seq<Call>)
    ensures AllReceived(Run(EARLY + [CallCertify(0)]), 0)
    ensures !CompletedNow(Run(EARLY + [CallCertify(0)] + more), 0)
  {
    CertifiedAgain();
    CertificateIsFinal(EARLY + [CallCertify(0)], more);
    hide Run, Inv;
  }

  /** A substitute service order leaves no open failure on its notice and takes over no other. */
  lemma SubstituteClosesFailures(db: Tables, notice: nat, i: nat)
    requires Linked(db) && notice < |db.notices| && i < |db.failures|
    ensures var after := OrderSubstitute(db, notice);
      if db.recipients[db.failures[i].recipientId].noticeId == notice
      then after.failures[i].orderId.Some? && after.orders[|db.orders|] == notice
      else after.failures[i] == db.failures[i]
  {
  }
}
