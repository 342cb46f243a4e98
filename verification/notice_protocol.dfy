/**
 Electronic service of notices and the tracked emails behind it: what issuing, sending,
 retrying, provider events, access, acknowledgement, substitute service and certificates
 do to the stored tables. Row numbers serve as ids and instants are milliseconds.
 */
module NoticeProtocol {
  import opened Wrappers

  // ---- The tables ----

  datatype NoticeStatus =
    | PORTAL_AVAILABLE | EMAIL_SENT | DELIVERY_FAILED | ACCESSED | ACKNOWLEDGED
    | SUBSTITUTE_SERVICE_REQUIRED | SERVICE_COMPLETED

  datatype EmailStatus = QUEUED | SENT | DELIVERED | BOUNCED | COMPLAINED | FAILED | OPENED | CLICKED

  datatype FailureKind = TEMPORARY | PERMANENT

  datatype SendResult = Accepted | Refused(kind: FailureKind)

  datatype Notice = Notice(caseId: nat, status: NoticeStatus)

  datatype Recipient = Recipient(
    noticeId: nat, userId: Option<nat>, status: NoticeStatus, firstAccessedAt: Option<int>, acknowledgedAt: Option<int>)

  datatype Channel = PORTAL | EMAIL

  datatype AttemptOutcome = OUTCOME_DELIVERED | OUTCOME_SENT | OUTCOME_PENDING | OUTCOME_FAILED

  datatype Attempt = Attempt(recipientId: nat, channel: Channel, outcome: AttemptOutcome)

  /** An access event or an acknowledgement. */
  datatype Receipt = Receipt(recipientId: nat, userId: nat, at: int)

  datatype Failure = Failure(recipientId: nat, orderId: Option<nat>)

  /** A tracked email; the recipient it serves, with that recipient's notice, or None for other mail. */
  datatype Delivery = Delivery(
    recipientId: Option<nat>, status: EmailStatus, failureKind: Option<FailureKind>, attemptCount: nat,
    nextAttemptAt: Option<int>, messageId: Option<nat>)

  /** One hand-over to the mail provider; its row number is the provider's message id. */
  datatype Send = Send(deliveryId: nat, at: int, result: SendResult)

  datatype Tables = Tables(
    notices: seq<Notice>,
    recipients: seq<Recipient>,
    attempts: seq<Attempt>,
    accesses: seq<Receipt>,
    acknowledgements: seq<Receipt>,
    failures: seq<Failure>,
    orders: seq<nat>,
    certificates: map<nat, map<nat, NoticeStatus>>,
    deliveries: seq<Delivery>,
    sends: seq<Send>
  )

  const EMPTY := Tables([], [], [], [], [], [], [], map[], [], [])

  datatype NoticeError = InvalidBody | NotFound | NotARecipient

  // ---- Sending ----

  /** What the provider says to the k-th email of a call; silence counts as a temporary failure. */
  function Answer(answers: seq<SendResult>, k: nat): SendResult {
    if k < |answers| then answers[k] else Refused(TEMPORARY)
  }

  const MAX_ATTEMPTS := 4
  const RETRY_BACKOFF_MINUTES := [2, 5, 15, 60]

  /** How long after the given attempt the next one may come. */
  function Backoff(attempt: nat): (ms: int)
    requires attempt >= 1
    ensures ms > 0
  {
    RETRY_BACKOFF_MINUTES[if attempt - 1 < 3 then attempt - 1 else 3] * 60000
  }

  predicate Retryable(result: SendResult, attempt: nat) {
    result == Refused(TEMPORARY) && attempt < MAX_ATTEMPTS
  }

  predicate Linked(db: Tables) {
    && (forall i :: 0 <= i < |db.recipients| ==> db.recipients[i].noticeId < |db.notices|)
    && (forall i :: 0 <= i < |db.deliveries| && db.deliveries[i].recipientId.Some? ==>
          db.deliveries[i].recipientId.value < |db.recipients|)
    && (forall i :: 0 <= i < |db.failures| ==> db.failures[i].recipientId < |db.recipients|)
    && (forall i :: 0 <= i < |db.sends| ==> db.sends[i].deliveryId < |db.deliveries|)
  }

  /** raiseManualFallback: the recipient failed, and the notice needs substitute service. */
  function Fallback(db: Tables, r: nat): Tables
    requires r < |db.recipients| && db.recipients[r].noticeId < |db.notices|
  {
    var n := db.recipients[r].noticeId;
    db.(recipients := db.recipients[r := db.recipients[r].(status := DELIVERY_FAILED)],
        failures := db.failures + [Failure(r, None)],
        notices := db.notices[n := db.notices[n].(status := SUBSTITUTE_SERVICE_REQUIRED)])
  }

  function SentDelivery(d: Delivery, now: int, result: SendResult, messageId: nat): Delivery {
    var attempt := d.attemptCount + 1;
    match result
    case Accepted =>
      d.(status := SENT, messageId := Some(messageId), attemptCount := attempt, failureKind := None, nextAttemptAt := None)
    case Refused(kind) =>
      d.(status := FAILED, failureKind := Some(kind), attemptCount := attempt,
         nextAttemptAt := if Retryable(result, attempt) then Some(now + Backoff(attempt)) else None)
  }

  function HandOver(db: Tables, d: nat, now: int, result: SendResult): Tables
    requires d < |db.deliveries|
  {
    db.(deliveries := db.deliveries[d := SentDelivery(db.deliveries[d], now, result, |db.sends|)],
        sends := db.sends + [Send(d, now, result)])
  }

  /** attemptSend: one more attempt, with the manual fallback when it fails and no retry is left. */
  function AttemptSend(db: Tables, d: nat, now: int, result: SendResult): (after: Tables)
    requires Linked(db) && d < |db.deliveries|
    ensures Linked(after) && |after.deliveries| == |db.deliveries| && |after.recipients| == |db.recipients|
  {
    var sent := HandOver(db, d, now, result);
    var r := db.deliveries[d].recipientId;
    if result.Refused? && !Retryable(result, db.deliveries[d].attemptCount + 1) && r.Some? then Fallback(sent, r.value) else sent
  }

  function Queue(db: Tables, r: Option<nat>): Tables {
    db.(deliveries := db.deliveries + [Delivery(r, QUEUED, None, 0, None, None)])
  }

  // ---- Issuing ----

  datatype Addressee = Addressee(userId: Option<nat>, hasEmail: bool)

  function NoteAttempt(db: Tables, r: nat, channel: Channel, outcome: AttemptOutcome): Tables {
    db.(attempts := db.attempts + [Attempt(r, channel, outcome)])
  }

  function Mark(db: Tables, r: nat, status: NoticeStatus): Tables
    requires r < |db.recipients|
  {
    db.(recipients := db.recipients[r := db.recipients[r].(status := status)])
  }

  /** What issueNotice makes of the delivery it got back. */
  function Settle(db: Tables, r: nat, delivery: Delivery): Tables
    requires r < |db.recipients|
  {
    if delivery.status == SENT then Mark(NoteAttempt(db, r, EMAIL, OUTCOME_SENT), r, EMAIL_SENT)
    else if delivery.status == FAILED && delivery.nextAttemptAt.Some? then NoteAttempt(db, r, EMAIL, OUTCOME_PENDING)
    else if delivery.status == FAILED then Mark(NoteAttempt(db, r, EMAIL, OUTCOME_FAILED), r, DELIVERY_FAILED)
    else db
  }

  lemma QueueLinked(db: Tables, r: nat)
    requires Linked(db) && r < |db.recipients|
    ensures Linked(Queue(db, Some(r)))
  {
  }

  /** One recipient of a new notice: available on the portal, and an email if there is an address. */
  function ServeOne(db: Tables, r: nat, hasEmail: bool, now: int, result: SendResult): (after: Tables)
    requires Linked(db) && r < |db.recipients|
    ensures Linked(after) && |after.recipients| == |db.recipients|
  {
    var noted := NoteAttempt(db, r, PORTAL, OUTCOME_DELIVERED);
    if !hasEmail then noted
    else
      QueueLinked(noted, r);
      var d := |db.deliveries|;
      var sent := AttemptSend(Queue(noted, Some(r)), d, now, result);
      Settle(sent, r, sent.deliveries[d])
  }

  function NewRecipients(noticeId: nat, to: seq<Addressee>): (rows: seq<Recipient>)
    ensures |rows| == |to|
    ensures forall i :: 0 <= i < |rows| ==> rows[i] == Recipient(noticeId, to[i].userId, PORTAL_AVAILABLE, None, None)
  {
    seq(|to|, i requires 0 <= i < |to| => Recipient(noticeId, to[i].userId, PORTAL_AVAILABLE, None, None))
  }

  /** The notice and its recipients, on the portal, before any email. */
  function Publish(db: Tables, caseId: nat, to: seq<Addressee>): Tables {
    db.(notices := db.notices + [Notice(caseId, PORTAL_AVAILABLE)],
        recipients := db.recipients + NewRecipients(|db.notices|, to))
  }

  /** The first n recipients of a notice, served in order; `answers` is what the provider says to each. */
  function ServeAll(db: Tables, first: nat, to: seq<Addressee>, n: nat, now: int, answers: seq<SendResult>): (after: Tables)
    requires Linked(db) && n <= |to| && first + |to| <= |db.recipients|
    ensures Linked(after) && |after.recipients| == |db.recipients|
  {
    if n == 0 then db
    else
      var before := ServeAll(db, first, to, n - 1, now, answers);
      ServeOne(before, first + n - 1, to[n - 1].hasEmail, now, Answer(answers, n - 1))
  }

  function IssueNotice(db: Tables, caseId: nat, to: seq<Addressee>, now: int, answers: seq<SendResult>): Tables
    requires Linked(db)
  {
    ServeAll(Publish(db, caseId, to), |db.recipients|, to, |to|, now, answers)
  }

  // ---- Provider events and retries ----

  datatype EventType =
    | EVENT_SENT | EVENT_DELIVERED | EVENT_DELAYED | EVENT_BOUNCED
    | EVENT_COMPLAINED | EVENT_FAILED | EVENT_OPENED | EVENT_CLICKED

  function StatusForEvent(event: EventType): Option<EmailStatus> {
    match event
    case EVENT_SENT => Some(SENT)
    case EVENT_DELIVERED => Some(DELIVERED)
    case EVENT_DELAYED => None
    case EVENT_BOUNCED => Some(BOUNCED)
    case EVENT_COMPLAINED => Some(COMPLAINED)
    case EVENT_FAILED => Some(FAILED)
    case EVENT_OPENED => Some(OPENED)
    case EVENT_CLICKED => Some(CLICKED)
  }

  predicate FailsService(event: EventType) {
    event == EVENT_BOUNCED || event == EVENT_COMPLAINED || event == EVENT_FAILED
  }

  function FindDelivery(deliveries: seq<Delivery>, messageId: nat): (found: Option<nat>)
    ensures found.Some? ==> found.value < |deliveries| && deliveries[found.value].messageId == Some(messageId)
    ensures found.Some? ==> forall i :: 0 <= i < found.value ==> deliveries[i].messageId != Some(messageId)
    ensures found.None? ==> forall i :: 0 <= i < |deliveries| ==> deliveries[i].messageId != Some(messageId)
  {
    if deliveries == [] then None
    else if deliveries[0].messageId == Some(messageId) then Some(0)
    else
      var later := FindDelivery(deliveries[1..], messageId);
      if later.Some? then Some(later.value + 1) else None
  }

  function Trace(db: Tables, d: nat, event: EventType): Tables
    requires d < |db.deliveries|
  {
    var status := StatusForEvent(event);
    var x := db.deliveries[d];
    db.(deliveries := db.deliveries[d := x.(status := if status.Some? then status.value else x.status)])
  }

  /** handleProviderEvent: the delivery that sent the message follows the event; a hard failure raises the fallback. */
  function ProviderEvent(db: Tables, messageId: nat, event: EventType): Tables
    requires Linked(db)
  {
    var d := FindDelivery(db.deliveries, messageId);
    if d.None? then db
    else
      var r := db.deliveries[d.value].recipientId;
      var traced := Trace(db, d.value, event);
      if FailsService(event) && r.Some? then Fallback(traced, r.value) else traced
  }

  predicate Due(d: Delivery, now: int) {
    && d.status == FAILED && d.failureKind == Some(TEMPORARY) && d.attemptCount < MAX_ATTEMPTS
    && d.nextAttemptAt.Some? && d.nextAttemptAt.value <= now
  }

  /** The due deliveries among the first n, in order. */
  function DueAmong(deliveries: seq<Delivery>, now: int, n: nat): (ids: seq<nat>)
    requires n <= |deliveries|
    ensures forall i :: 0 <= i < |ids| ==> ids[i] < n && Due(deliveries[ids[i]], now)
    ensures forall i, j :: 0 <= i < j < |ids| ==> ids[i] < ids[j]
  {
    if n == 0 then []
    else DueAmong(deliveries, now, n - 1) + if Due(deliveries[n - 1], now) then [n - 1] else []
  }

  function DueIds(deliveries: seq<Delivery>, now: int, limit: nat): (ids: seq<nat>)
    ensures forall i :: 0 <= i < |ids| ==> ids[i] < |deliveries| && Due(deliveries[ids[i]], now)
    ensures forall i, j :: 0 <= i < j < |ids| ==> ids[i] < ids[j]
  {
    var all := DueAmong(deliveries, now, |deliveries|);
    if |all| <= limit then all else all[..limit]
  }

  function RetryEach(db: Tables, ids: seq<nat>, n: nat, now: int, answers: seq<SendResult>): (after: Tables)
    requires Linked(db) && n <= |ids| && forall i :: 0 <= i < |ids| ==> ids[i] < |db.deliveries|
    ensures Linked(after) && |after.deliveries| == |db.deliveries|
  {
    if n == 0 then db
    else
      var before := RetryEach(db, ids, n - 1, now, answers);
      AttemptSend(before, ids[n - 1], now, Answer(answers, n - 1))
  }

  function RetryDue(db: Tables, now: int, limit: nat, answers: seq<SendResult>): Tables
    requires Linked(db)
  {
    var ids := DueIds(db.deliveries, now, limit);
    RetryEach(db, ids, |ids|, now, answers)
  }

  // ---- Recipients and registry ----

  function FindRecipient(recipients: seq<Recipient>, notice: nat, user: nat): (found: Option<nat>)
    ensures found.Some? ==> found.value < |recipients| && recipients[found.value].noticeId == notice
    ensures found.Some? ==> recipients[found.value].userId == Some(user)
    ensures found.None? ==>
      forall i :: 0 <= i < |recipients| && recipients[i].noticeId == notice ==> recipients[i].userId != Some(user)
  {
    if recipients == [] then None
    else if recipients[0].noticeId == notice && recipients[0].userId == Some(user) then Some(0)
    else
      var later := FindRecipient(recipients[1..], notice, user);
      if later.Some? then Some(later.value + 1) else None
  }

  function RecordAccess(db: Tables, r: nat, user: nat, now: int): Tables
    requires r < |db.recipients|
  {
    var recipient := db.recipients[r];
    db.(accesses := db.accesses + [Receipt(r, user, now)],
        recipients := db.recipients[r := recipient.(
          status := ACCESSED,
          firstAccessedAt := if recipient.firstAccessedAt.Some? then recipient.firstAccessedAt else Some(now))])
  }

  function Acknowledge(db: Tables, r: nat, user: nat, now: int): Tables
    requires Linked(db) && r < |db.recipients|
  {
    var n := db.recipients[r].noticeId;
    db.(acknowledgements := db.acknowledgements + [Receipt(r, user, now)],
        recipients := db.recipients[r := db.recipients[r].(status := ACKNOWLEDGED, acknowledgedAt := Some(now))],
        notices := db.notices[n := db.notices[n].(status := ACKNOWLEDGED)])
  }

  /** The open failures of a notice are put down to a substitute service order. */
  function Addressed(failures: seq<Failure>, recipients: seq<Recipient>, notice: nat, order: nat): (after: seq<Failure>)
    requires forall i :: 0 <= i < |failures| ==> failures[i].recipientId < |recipients|
    ensures |after| == |failures|
  {
    seq(|failures|, i requires 0 <= i < |failures| =>
      if failures[i].orderId.None? && recipients[failures[i].recipientId].noticeId == notice
      then failures[i].(orderId := Some(order)) else failures[i])
  }

  function OrderSubstitute(db: Tables, notice: nat): Tables
    requires Linked(db) && notice < |db.notices|
  {
    db.(orders := db.orders + [notice],
        notices := db.notices[notice := db.notices[notice].(status := SUBSTITUTE_SERVICE_REQUIRED)],
        failures := Addressed(db.failures, db.recipients, notice, |db.orders|))
  }

  predicate Received(status: NoticeStatus) {
    status == ACCESSED || status == ACKNOWLEDGED
  }

  predicate AllReceived(db: Tables, notice: nat) {
    forall r :: 0 <= r < |db.recipients| && db.recipients[r].noticeId == notice ==> Received(db.recipients[r].status)
  }

  /** The recipients' statuses a certificate snapshots. */
  function Snapshot(db: Tables, notice: nat): map<nat, NoticeStatus> {
    map r: nat | r < |db.recipients| && db.recipients[r].noticeId == notice :: db.recipients[r].status
  }

  /** generateCertificate: once a notice, and service is completed if everyone had received it by then. */
  function Certify(db: Tables, notice: nat): Tables
    requires notice < |db.notices|
  {
    if notice in db.certificates then db
    else
      db.(certificates := db.certificates[notice := Snapshot(db, notice)],
          notices := if AllReceived(db, notice)
                     then db.notices[notice := db.notices[notice].(status := SERVICE_COMPLETED)] else db.notices)
  }

  // ---- Runs ----

  datatype Call =
    | CallIssue(caseId: nat, to: seq<Addressee>, now: int, answers: seq<SendResult>)
    | CallMail(now: int, result: SendResult)
    | CallEvent(messageId: nat, event: EventType)
    | CallRetry(now: int, limit: nat, answers: seq<SendResult>)
    | CallAccess(notice: nat, user: nat, now: int)
    | CallAcknowledge(notice: nat, user: nat, now: int)
    | CallSubstitute(notice: nat)
    | CallCertify(notice: nat)

  lemma MailLinked(db: Tables)
    requires Linked(db)
    ensures Linked(Queue(db, None))
  {
  }

  /** What a call answers: the new tables, or the check that refused it. */
  function Outcome(db: Tables, call: Call): Result<Tables, NoticeError>
    requires Linked(db)
  {
    match call
    case CallIssue(caseId, to, now, answers) =>
      if to == [] then Err(InvalidBody) else Ok(IssueNotice(db, caseId, to, now, answers))
    case CallMail(now, result) => MailLinked(db); Ok(AttemptSend(Queue(db, None), |db.deliveries|, now, result))
    case CallEvent(messageId, event) => Ok(ProviderEvent(db, messageId, event))
    case CallRetry(now, limit, answers) => Ok(RetryDue(db, now, limit, answers))
    case CallAccess(notice, user, now) =>
      if notice >= |db.notices| then Err(NotFound)
      else
        var r := FindRecipient(db.recipients, notice, user);
        if r.None? then Err(NotARecipient) else Ok(RecordAccess(db, r.value, user, now))
    case CallAcknowledge(notice, user, now) =>
      if notice >= |db.notices| then Err(NotFound)
      else
        var r := FindRecipient(db.recipients, notice, user);
        if r.None? then Err(NotARecipient) else Ok(Acknowledge(db, r.value, user, now))
    case CallSubstitute(notice) => if notice >= |db.notices| then Err(NotFound) else Ok(OrderSubstitute(db, notice))
    case CallCertify(notice) => if notice >= |db.notices| then Err(NotFound) else Ok(Certify(db, notice))
  }

  function Step(db: Tables, call: Call): Tables
    requires Linked(db)
  {
    var out := Outcome(db, call);
    if out.Ok? then out.value else db
  }
}
