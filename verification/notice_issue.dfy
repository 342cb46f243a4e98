/** What issuing a notice leaves: each recipient's status and attempts as the provider answered, and the notice's own status. */
module NoticeIssue {
  import opened Wrappers
  import opened NoticeProtocol

  /** A recipient's status once served: the first email was accepted, lost for good, or put off, or there was none. */
  function ServedStatus(hasEmail: bool, answer: SendResult): NoticeStatus {
    if !hasEmail then PORTAL_AVAILABLE
    else match answer
      case Accepted => EMAIL_SENT
      case Refused(PERMANENT) => DELIVERY_FAILED
      case Refused(TEMPORARY) => PORTAL_AVAILABLE
  }

  /** The attempts recorded for a recipient: the portal, and the email with its outcome. */
  function Noted(r: nat, hasEmail: bool, answer: SendResult): seq<Attempt> {
    [Attempt(r, PORTAL, OUTCOME_DELIVERED)]
    + if !hasEmail then []
      else match answer
        case Accepted => [Attempt(r, EMAIL, OUTCOME_SENT)]
        case Refused(PERMANENT) => [Attempt(r, EMAIL, OUTCOME_FAILED)]
        case Refused(TEMPORARY) => [Attempt(r, EMAIL, OUTCOME_PENDING)]
  }

  function NotedAll(first: nat, to: seq<Addressee>, n: nat, answers: seq<SendResult>): seq<Attempt>
    requires n <= |to|
  {
    if n == 0 then []
    else NotedAll(first, to, n - 1, answers) + Noted(first + n - 1, to[n - 1].hasEmail, Answer(answers, n - 1))
  }

  /** The email to addressee k was refused for good. */
  predicate LostAtOnce(to: seq<Addressee>, answers: seq<SendResult>, k: nat)
    requires k < |to|
  {
    to[k].hasEmail && Answer(answers, k) == Refused(PERMANENT)
  }

  lemma ServeOneReads(db: Tables, r: nat, hasEmail: bool, now: int, answer: SendResult)
    requires Linked(db) && r < |db.recipients| && db.recipients[r].status == PORTAL_AVAILABLE
    ensures var after := ServeOne(db, r, hasEmail, now, answer);
      && after.recipients == db.recipients[r := db.recipients[r].(status := ServedStatus(hasEmail, answer))]
      && after.attempts == db.attempts + Noted(r, hasEmail, answer)
      && var n := db.recipients[r].noticeId;
         after.notices
         == if hasEmail && answer == Refused(PERMANENT)
            then db.notices[n := db.notices[n].(status := SUBSTITUTE_SERVICE_REQUIRED)] else db.notices
  {
  }

  /** The first n recipients of the notice from row `first` on have been served, and nobody else. */
  predicate Served(a: Tables, b: Tables, first: nat, to: seq<Addressee>, n: nat, answers: seq<SendResult>, notice: nat)
    requires n <= |to| && notice < |a.notices|
  {
    && |b.recipients| == |a.recipients|
    && (forall k :: 0 <= k < |a.recipients| ==>
          b.recipients[k] == if first <= k < first + n
            then a.recipients[k].(status := ServedStatus(to[k - first].hasEmail, Answer(answers, k - first)))
            else a.recipients[k])
    && b.attempts == a.attempts + NotedAll(first, to, n, answers)
    && b.notices == if exists k :: 0 <= k < n && LostAtOnce(to, answers, k)
                    then a.notices[notice := a.notices[notice].(status := SUBSTITUTE_SERVICE_REQUIRED)] else a.notices
  }

  lemma ServedNext(
    db: Tables, before: Tables, after: Tables, first: nat, to: seq<Addressee>, n: nat, answers: seq<SendResult>, notice: nat)
    requires 0 < n <= |to| && first + |to| <= |db.recipients| && notice < |db.notices|
    requires Served(db, before, first, to, n - 1, answers, notice)
    requires var r, answer := first + n - 1, Answer(answers, n - 1);
      && after.recipients == before.recipients[r := before.recipients[r].(status := ServedStatus(to[n - 1].hasEmail, answer))]
      && after.attempts == before.attempts + Noted(r, to[n - 1].hasEmail, answer)
      && after.notices
         == if LostAtOnce(to, answers, n - 1)
            then before.notices[notice := before.notices[notice].(status := SUBSTITUTE_SERVICE_REQUIRED)] else before.notices
    ensures Served(db, after, first, to, n, answers, notice)
  {
    hide ServedStatus, Noted, Answer, LostAtOnce;
    if k :| 0 <= k < n && LostAtOnce(to, answers, k) && k < n - 1 {
      assert LostAtOnce(to, answers, k);
    }
  }

  lemma {:induction false} ServeAllReads(
    db: Tables, first: nat, to: seq<Addressee>, n: nat, now: int, answers: seq<SendResult>, notice: nat)
    requires Linked(db) && n <= |to| && first + |to| <= |db.recipients| && notice < |db.notices|
    requires forall k :: first <= k < first + |to| ==>
      db.recipients[k].status == PORTAL_AVAILABLE && db.recipients[k].noticeId == notice
    ensures Served(db, ServeAll(db, first, to, n, now, answers), first, to, n, answers, notice)
  {
    hide Linked, ServeOne, ServedStatus, Noted, Answer;
    if n > 0 {
      ServeAllReads(db, first, to, n - 1, now, answers, notice);
      var before := ServeAll(db, first, to, n - 1, now, answers);
      var r := first + n - 1;
      assert before.recipients[r] == db.recipients[r];
      hide Served;
      ServeOneReads(before, r, to[n - 1].hasEmail, now, Answer(answers, n - 1));
      ServedNext(db, before, ServeAll(db, first, to, n, now, answers), first, to, n, answers, notice);
    }
  }

  /** The rows of a notice as issued: one recipient an addressee, with attempts as noted, older rows as they were. */
  predicate Issued(a: Tables, b: Tables, caseId: nat, to: seq<Addressee>, answers: seq<SendResult>) {
    && |b.recipients| == |a.recipients| + |to| && a.recipients <= b.recipients
    && (forall k :: 0 <= k < |to| ==>
          b.recipients[|a.recipients| + k] == Recipient(
            |a.notices|, to[k].userId, ServedStatus(to[k].hasEmail, Answer(answers, k)), None, None))
    && b.attempts == a.attempts + NotedAll(|a.recipients|, to, |to|, answers)
    && b.notices == a.notices + [Notice(
         caseId, if exists k :: 0 <= k < |to| && LostAtOnce(to, answers, k) then SUBSTITUTE_SERVICE_REQUIRED else PORTAL_AVAILABLE)]
  }

  /** The notice and its recipients on the portal, nobody served. */
  predicate Published(a: Tables, b: Tables, caseId: nat, to: seq<Addressee>) {
    && |b.recipients| == |a.recipients| + |to| && b.attempts == a.attempts
    && b.notices == a.notices + [Notice(caseId, PORTAL_AVAILABLE)]
    && (forall k :: 0 <= k < |a.recipients| ==> b.recipients[k] == a.recipients[k])
    && (forall k :: |a.recipients| <= k < |b.recipients| ==>
          b.recipients[k] == Recipient(|a.notices|, to[k - |a.recipients|].userId, PORTAL_AVAILABLE, None, None))
  }

  lemma PublishReads(db: Tables, caseId: nat, to: seq<Addressee>)
    requires Linked(db)
    ensures Linked(Publish(db, caseId, to)) && Published(db, Publish(db, caseId, to), caseId, to)
  {
  }

  lemma ServedIsIssued(db: Tables, published: Tables, after: Tables, caseId: nat, to: seq<Addressee>, answers: seq<SendResult>)
    requires Published(db, published, caseId, to)
    requires Served(published, after, |db.recipients|, to, |to|, answers, |db.notices|)
    ensures Issued(db, after, caseId, to, answers)
  {
    hide ServedStatus, NotedAll, Answer, LostAtOnce;
    var first := |db.recipients|;
    forall k | 0 <= k < |to|
      ensures after.recipients[first + k]
           == Recipient(|db.notices|, to[k].userId, ServedStatus(to[k].hasEmail, Answer(answers, k)), None, None)
    {
      assert published.recipients[first + k].status == PORTAL_AVAILABLE && first + k - first == k;
    }
  }

  /** A notice as issued needs substitute service exactly when an email was refused for good, and its statuses follow the answers. */
  lemma IssueReads(db: Tables, caseId: nat, to: seq<Addressee>, now: int, answers: seq<SendResult>)
    requires Linked(db)
    ensures Issued(db, IssueNotice(db, caseId, to, now, answers), caseId, to, answers)
  {
    hide Linked, Publish, ServeAll, Served, Issued;
    PublishReads(db, caseId, to);
    var published := Publish(db, caseId, to);
    ServeAllReads(published, |db.recipients|, to, |to|, now, answers, |db.notices|);
    hide Published;
    ServedIsIssued(db, published, IssueNotice(db, caseId, to, now, answers), caseId, to, answers);
  }
}
