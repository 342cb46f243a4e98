/** What undoes receipt and completed service: failures that come in late, over every call and every run. */
module NoticeFailures {
  import opened Wrappers
  import opened NoticeProtocol
  import opened NoticeMail
  import opened NoticeInvariants
  import opened NoticeReceipt

  // ---- Whom a call fails ----

  function Only(r: Option<nat>): set<nat> {
    if r.Some? then {r.value} else {}
  }

  /** The recipients whose email one of the first n retries loses for good: refused, and no further attempt is left. */
  function LostAmong(deliveries: seq<Delivery>, ids: seq<nat>, n: nat, answers: seq<SendResult>): (lost: set<nat>)
    requires n <= |ids| && forall i :: 0 <= i < |ids| ==> ids[i] < |deliveries|
    ensures forall r :: r in lost <==> exists k :: 0 <= k < n && LostTo(deliveries[ids[k]], Answer(answers, k)) == Some(r)
  {
    if n == 0 then {}
    else LostAmong(deliveries, ids, n - 1, answers) + Only(LostTo(deliveries[ids[n - 1]], Answer(answers, n - 1)))
  }

  /** The recipients a call reports as failed: by a hard failure event about their email, or by retries that lose it for good. */
  function FailedIn(db: Tables, call: Call): set<nat> {
    match call
    case CallEvent(messageId, event) =>
      var d := FindDelivery(db.deliveries, messageId);
      if d.Some? then Only(FailedBy(db.deliveries[d.value], event)) else {}
    case CallRetry(now, limit, answers) =>
      var ids := DueIds(db.deliveries, now, limit);
      LostAmong(db.deliveries, ids, |ids|, answers)
    case _ => {}
  }

  /** The events that fail service: an email bounced, drew a complaint, or failed after it had been accepted. */
  lemma EventFailsWhom(calls: seq<Call>, messageId: nat, event: EventType, r: nat)
    ensures r in FailedIn(Run(calls), CallEvent(messageId, event))
      <==> && (event == EVENT_BOUNCED || event == EVENT_COMPLAINED || event == EVENT_FAILED)
           && exists d :: 0 <= d < |Run(calls).deliveries| && Run(calls).deliveries[d].messageId == Some(messageId)
                && Run(calls).deliveries[d].recipientId == Some(r)
  {
    var db := Run(calls);
    hide Run, PeopleAgree, CertificatesCover, MailAgrees;
    EventFindsItsDelivery(db, messageId);
  }

  /** The retries that fail service: refused for good, or for the time being at the fourth attempt. */
  lemma RetryFailsWhom(db: Tables, now: int, limit: nat, answers: seq<SendResult>, r: nat)
    ensures r in FailedIn(db, CallRetry(now, limit, answers))
      <==> var ids := DueIds(db.deliveries, now, limit);
           exists k :: 0 <= k < |ids| && db.deliveries[ids[k]].recipientId == Some(r)
             && (Answer(answers, k) == Refused(PERMANENT)
                 || (Answer(answers, k) == Refused(TEMPORARY) && db.deliveries[ids[k]].attemptCount >= 3))
  {
    hide DueIds, Answer;
    var ids := DueIds(db.deliveries, now, limit);
    forall k | 0 <= k < |ids|
      ensures LostTo(db.deliveries[ids[k]], Answer(answers, k)) == Some(r)
        <==> db.deliveries[ids[k]].recipientId == Some(r)
             && (Answer(answers, k) == Refused(PERMANENT)
                 || (Answer(answers, k) == Refused(TEMPORARY) && db.deliveries[ids[k]].attemptCount >= 3))
    {
      var answer := Answer(answers, k);
      assert answer == Accepted || answer == Refused(PERMANENT) || answer == Refused(TEMPORARY) by {
        if answer.Refused? { assert answer.kind == PERMANENT || answer.kind == TEMPORARY; }
      }
    }
    hide LostTo;
  }

  // ---- What a failure changes ----

  predicate Hits(recipients: seq<Recipient>, failed: set<nat>, n: nat) {
    exists r :: 0 <= r < |recipients| && r in failed && recipients[r].noticeId == n
  }

  /** The failed recipients are marked so and their notices need substitute service; older rows are otherwise unchanged. */
  predicate FailsExactly(a: Tables, b: Tables, failed: set<nat>) {
    && |a.recipients| <= |b.recipients| && |a.notices| <= |b.notices|
    && (forall r :: 0 <= r < |a.recipients| ==>
          b.recipients[r] == if r in failed then a.recipients[r].(status := DELIVERY_FAILED) else a.recipients[r])
    && (forall n :: 0 <= n < |a.notices| ==>
          b.notices[n].status == if Hits(a.recipients, failed, n) then SUBSTITUTE_SERVICE_REQUIRED else a.notices[n].status)
  }

  lemma FailuresAdd(a: Tables, b: Tables, c: Tables, first: set<nat>, second: set<nat>)
    requires FailsExactly(a, b, first) && FailsExactly(b, c, second)
    requires |a.recipients| == |b.recipients|
    ensures FailsExactly(a, c, first + second)
  {
    forall n | 0 <= n < |a.notices|
      ensures Hits(a.recipients, first + second, n) <==> Hits(a.recipients, first, n) || Hits(b.recipients, second, n)
    {
      if Hits(b.recipients, second, n) {
        var r :| 0 <= r < |b.recipients| && r in second && b.recipients[r].noticeId == n;
        assert a.recipients[r].noticeId == n;
      }
      if Hits(a.recipients, first, n) {
        var r :| 0 <= r < |a.recipients| && r in first && a.recipients[r].noticeId == n;
        assert r in first + second;
      }
      if Hits(a.recipients, first + second, n) && !Hits(a.recipients, first, n) {
        var r :| 0 <= r < |a.recipients| && r in first + second && a.recipients[r].noticeId == n;
        assert r in second && b.recipients[r].noticeId == n;
      }
    }
    hide Hits;
  }

  lemma FallbackFails(db: Tables, r: nat)
    requires r < |db.recipients| && db.recipients[r].noticeId < |db.notices|
    ensures FailsExactly(db, Fallback(db, r), {r})
  {
    assert Hits(db.recipients, {r}, db.recipients[r].noticeId);
  }

  lemma AttemptFails(db: Tables, d: nat, now: int, result: SendResult)
    requires Linked(db) && d < |db.deliveries|
    ensures FailsExactly(db, AttemptSend(db, d, now, result), Only(LostTo(db.deliveries[d], result)))
  {
    hide FailsExactly, Hits;
    var sent := HandOver(db, d, now, result);
    SameRows(db, sent);
    var lost := LostTo(db.deliveries[d], result);
    if lost.Some? {
      FallbackFails(sent, lost.value);
      FailuresAdd(db, sent, AttemptSend(db, d, now, result), {}, {lost.value});
      assert {} + {lost.value} == {lost.value};
    }
  }

  /** Without a failure, nothing older moves. */
  lemma SameRows(a: Tables, b: Tables)
    requires a.recipients <= b.recipients && a.notices <= b.notices
    ensures FailsExactly(a, b, {})
  {
  }

  /** A retry run fails those it loses, judged by the rows as they stood before it: no retry touches another's delivery. */
  lemma {:induction false} RetryFails(db: Tables, ids: seq<nat>, n: nat, now: int, answers: seq<SendResult>)
    requires Linked(db) && n <= |ids| && forall i :: 0 <= i < |ids| ==> ids[i] < |db.deliveries|
    requires forall i, j :: 0 <= i < j < |ids| ==> ids[i] < ids[j]
    ensures var after := RetryEach(db, ids, n, now, answers);
      && |after.recipients| == |db.recipients|
      && FailsExactly(db, after, LostAmong(db.deliveries, ids, n, answers))
      && forall i :: n <= i < |ids| ==> after.deliveries[ids[i]] == db.deliveries[ids[i]]
  {
    hide Linked, AttemptSend, FailsExactly, LostTo, Answer;
    if n == 0 {
      SameRows(db, db);
    } else {
      RetryFails(db, ids, n - 1, now, answers);
      var before := RetryEach(db, ids, n - 1, now, answers);
      AttemptFails(before, ids[n - 1], now, Answer(answers, n - 1));
      AttemptSendTouchesOne(before, ids[n - 1], now, Answer(answers, n - 1));
      FailuresAdd(db, before, RetryEach(db, ids, n, now, answers), LostAmong(db.deliveries, ids, n - 1, answers),
        Only(LostTo(db.deliveries[ids[n - 1]], Answer(answers, n - 1))));
    }
  }

  lemma EventFails(db: Tables, messageId: nat, event: EventType)
    requires Linked(db)
    ensures FailsExactly(db, ProviderEvent(db, messageId, event), FailedIn(db, CallEvent(messageId, event)))
  {
    hide FailsExactly, FailsService, StatusForEvent;
    var d := FindDelivery(db.deliveries, messageId);
    if d.None? {
      SameRows(db, db);
    } else {
      var traced := Trace(db, d.value, event);
      SameRows(db, traced);
      var failed := FailedBy(db.deliveries[d.value], event);
      if failed.Some? {
        FallbackFails(traced, failed.value);
        FailuresAdd(db, traced, ProviderEvent(db, messageId, event), {}, {failed.value});
        assert {} + {failed.value} == {failed.value};
      }
    }
  }

  // ---- A new notice spares the old ones ----

  /** The recipients from `first` on are those of the notices from `notice` on, and the older rows are those of a. */
  predicate Spared(a: Tables, b: Tables) {
    && a.recipients <= b.recipients && a.notices <= b.notices
    && forall r :: |a.recipients| <= r < |b.recipients| ==> b.recipients[r].noticeId >= |a.notices|
  }

  lemma ServeOneSpares(a: Tables, b: Tables, r: nat, hasEmail: bool, now: int, result: SendResult)
    requires Linked(b) && Spared(a, b) && |a.recipients| <= r < |b.recipients|
    ensures Spared(a, ServeOne(b, r, hasEmail, now, result))
  {
  }

  lemma {:induction false} ServeAllSpares(a: Tables, b: Tables, to: seq<Addressee>, n: nat, now: int, answers: seq<SendResult>)
    requires Linked(b) && n <= |to| && |a.recipients| + |to| <= |b.recipients| && Spared(a, b)
    ensures Spared(a, ServeAll(b, |a.recipients|, to, n, now, answers))
  {
    hide Linked, ServeOne, Spared;
    if n > 0 {
      ServeAllSpares(a, b, to, n - 1, now, answers);
      ServeOneSpares(a, ServeAll(b, |a.recipients|, to, n - 1, now, answers),
        |a.recipients| + n - 1, to[n - 1].hasEmail, now, Answer(answers, n - 1));
    }
  }

  lemma IssueFailsNobody(db: Tables, caseId: nat, to: seq<Addressee>, now: int, answers: seq<SendResult>)
    requires Linked(db)
    ensures FailsExactly(db, IssueNotice(db, caseId, to, now, answers), {})
  {
    hide ServeAll, FailsExactly;
    ServeAllSpares(db, Publish(db, caseId, to), to, |to|, now, answers);
    SameRows(db, IssueNotice(db, caseId, to, now, answers));
  }

  lemma MailFailsNobody(db: Tables, now: int, result: SendResult)
    requires Linked(db) && Linked(Queue(db, None))
    ensures FailsExactly(db, AttemptSend(Queue(db, None), |db.deliveries|, now, result), {})
  {
    hide FailsExactly;
    SameRows(db, AttemptSend(Queue(db, None), |db.deliveries|, now, result));
  }

  /** The calls of the mail change older recipients and notices by failures alone. */
  predicate IsMail(call: Call) {
    call.CallIssue? || call.CallMail? || call.CallEvent? || call.CallRetry?
  }

  lemma MailFails(db: Tables, call: Call)
    requires Linked(db) && IsMail(call)
    ensures FailsExactly(db, Step(db, call), FailedIn(db, call))
  {
    hide AttemptSend, IssueNotice, RetryEach, DueIds, ProviderEvent, FailsExactly, LostAmong, FindDelivery;
    match call
    case CallIssue(caseId, to, now, answers) =>
      if to == [] { SameRows(db, db); } else { IssueFailsNobody(db, caseId, to, now, answers); }
    case CallMail(now, result) => MailFailsNobody(db, now, result);
    case CallRetry(now, limit, answers) =>
      var ids := DueIds(db.deliveries, now, limit);
      RetryFails(db, ids, |ids|, now, answers);
    case CallEvent(messageId, event) => EventFails(db, messageId, event);
  }

  // ---- Receipt and completion undone ----

  lemma ReceiptTakenByStep(db: Tables, call: Call, r: nat)
    requires Linked(db) && r < |db.recipients| && Received(db.recipients[r].status)
    ensures var after := Step(db, call);
      && r < |after.recipients|
      && (!Received(after.recipients[r].status) <==> r in FailedIn(db, call))
  {
    if IsMail(call) {
      hide Step, FailedIn, Linked;
      MailFails(db, call);
    }
  }

  /**
   Over every run and every call, receipt is taken away from a recipient exactly by a hard failure event about that
   recipient's email, or by a retry of it that is refused with no further attempt left.
   */
  lemma ReceiptTakenAway(calls: seq<Call>, call: Call, r: nat)
    requires r < |Run(calls).recipients| && Received(Run(calls).recipients[r].status)
    ensures var db, after := Run(calls), Run(calls + [call]);
      && r < |after.recipients|
      && (!Received(after.recipients[r].status) <==> r in FailedIn(db, call))
  {
    RunMore(calls, call);
    LinkedInv(Run(calls));
    hide Run, Inv, Step, FailedIn, Linked;
    ReceiptTakenByStep(Run(calls), call, r);
  }

  /** Acknowledged again, sent for substitute service, or failed for one of its recipients. */
  predicate Undoes(db: Tables, call: Call, n: nat) {
    match call
    case CallAcknowledge(notice, user, _) => notice == n && FindRecipient(db.recipients, n, user).Some?
    case CallSubstitute(notice) => notice == n
    case _ => Hits(db.recipients, FailedIn(db, call), n)
  }

  lemma CompletionUndoneByStep(db: Tables, call: Call, n: nat)
    requires Linked(db) && CompletedNow(db, n) && n in db.certificates
    ensures !CompletedNow(Step(db, call), n) <==> Undoes(db, call, n)
  {
    if IsMail(call) {
      hide Step, FailedIn, Linked;
      MailFails(db, call);
    }
  }

  /** Completed service does not last: over every run these calls undo it, and no other does. */
  lemma CompletionUndone(calls: seq<Call>, call: Call, n: nat)
    requires CompletedNow(Run(calls), n)
    ensures !CompletedNow(Run(calls + [call]), n) <==> Undoes(Run(calls), call, n)
  {
    RunMore(calls, call);
    LinkedInv(Run(calls));
    CompletedIsCertified(calls, n);
    hide Run, Inv, Step, FailedIn, Linked, CompletedNow, Undoes;
    CompletionUndoneByStep(Run(calls), call, n);
  }

  // ---- A run in which a retry takes receipt away ----

  const DEFERRED := CallIssue(0, TO_ONE, 0, [Refused(TEMPORARY)])
  const LAST_RETRY := CallRetry(120000, 50, [Refused(PERMANENT)])

  const WAITING := Delivery(Some(0), FAILED, Some(TEMPORARY), 1, Some(120000), None)

  lemma IssuedDeferred()
    ensures var db := Run([DEFERRED]);
      && db.notices == [Notice(0, PORTAL_AVAILABLE)] && db.deliveries == [WAITING]
      && db.recipients == [Recipient(0, Some(7), PORTAL_AVAILABLE, None, None)]
  {
    RunOne(DEFERRED);
    hide Run, Inv;
    var published := Publish(EMPTY, 0, TO_ONE);
    assert Step(EMPTY, DEFERRED) == ServeAll(published, 0, TO_ONE, 1, 0, [Refused(TEMPORARY)]);
    assert ServeAll(published, 0, TO_ONE, 0, 0, [Refused(TEMPORARY)]) == published;
    assert Step(EMPTY, DEFERRED) == ServeOne(published, 0, true, 0, Refused(TEMPORARY));
  }

  lemma AccessedDeferred()
    ensures var db := Run([DEFERRED, CallAccess(0, 7, 1)]);
      && |db.notices| == 1 && db.deliveries == [WAITING]
      && db.recipients == [Recipient(0, Some(7), ACCESSED, Some(1), None)]
      && HasReceipt(db.accesses, 0)
  {
    IssuedDeferred();
    RunTwo(DEFERRED, CallAccess(0, 7, 1));
    var issued := Run([DEFERRED]);
    LinkedInv(issued);
    AccessStep(issued, 7, 1);
    ReceiptAdded(issued.accesses, Receipt(0, 7, 1));
    hide Run, Inv, Linked, HasReceipt, Step;
  }

  lemma WaitingIsDue(deliveries: seq<Delivery>)
    requires deliveries == [WAITING]
    ensures DueIds(deliveries, 120000, 50) == [0]
  {
    assert Due(deliveries[0], 120000);
    assert DueAmong(deliveries, 120000, 0) == [];
    assert DueAmong(deliveries, 120000, 1) == [0];
  }

  lemma LastRetryStep(db: Tables)
    requires Linked(db) && db.deliveries == [WAITING]
    ensures Step(db, LAST_RETRY) == Fallback(HandOver(db, 0, 120000, Refused(PERMANENT)), 0)
  {
    WaitingIsDue(db.deliveries);
    hide Linked, DueIds;
    assert Step(db, LAST_RETRY) == RetryEach(db, [0], 1, 120000, [Refused(PERMANENT)]);
    assert RetryEach(db, [0], 0, 120000, [Refused(PERMANENT)]) == db;
  }

  /** So no provider event is needed: a retry refused after the notice was opened marks the recipient failed as well. */
  lemma RetryAfterAccess()
    ensures var db := Run([DEFERRED, CallAccess(0, 7, 1), LAST_RETRY]);
      && |db.recipients| == 1 && db.recipients[0].status == DELIVERY_FAILED && db.recipients[0].firstAccessedAt == Some(1)
      && HasReceipt(db.accesses, 0)
      && |db.notices| == 1 && db.notices[0].status == SUBSTITUTE_SERVICE_REQUIRED
  {
    AccessedDeferred();
    RunThree(DEFERRED, CallAccess(0, 7, 1), LAST_RETRY);
    var accessed := Run([DEFERRED, CallAccess(0, 7, 1)]);
    LinkedInv(accessed);
    LastRetryStep(accessed);
    hide Run, Inv, Linked, HasReceipt, Step;
  }
}
