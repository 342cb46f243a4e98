/**
 The life of stored deadlines: extension, suspension, resumption, waiver, completion
 and escalation over a change log that is only appended to and a derived reminder
 table. Row numbers serve as deadline ids; every call carries the time it is made.
 */
module DeadlineLifecycle {
  import opened Wrappers
  import opened Reminders

  datatype Status = OPEN | MET | EXTENDED | SUSPENDED | WAIVED | OVERDUE

  datatype ChangeKind = EXTENSION | SUSPENSION | WAIVER | RESUMPTION

  datatype Deadline = Deadline(
    caseId: nat, dueAt: int, status: Status, reminderRule: Option<string>, suspendedAt: Option<int>)

  datatype Change = Change(deadlineId: nat, kind: ChangeKind, previousDueAt: int, newDueAt: Option<int>)

  datatype Reminder = Reminder(deadlineId: nat, offsetToken: string, scheduledFor: int, escalation: bool, sentAt: Option<int>)

  datatype Tables = Tables(deadlines: seq<Deadline>, log: seq<Change>, reminders: seq<Reminder>)

  datatype LifecycleError = NotFound | AlreadySuspended | NotSuspended

  const EMPTY := Tables([], [], [])

  // ---- The calls ----

  /** A reminder that a new schedule for deadline d replaces. */
  predicate Replaceable(r: Reminder, d: nat) {
    r.deadlineId == d && r.sentAt.None? && !r.escalation
  }

  predicate Unsent(r: Reminder, d: nat) {
    r.deadlineId == d && r.sentAt.None?
  }

  function Without(reminders: seq<Reminder>, gone: Reminder -> bool): seq<Reminder> {
    if reminders == [] then []
    else
      var rest := Without(reminders[..|reminders| - 1], gone);
      var last := reminders[|reminders| - 1];
      if gone(last) then rest else rest + [last]
  }

  function RowsOf(d: nat, slots: seq<Slot>): seq<Reminder> {
    seq(|slots|, i requires 0 <= i < |slots| => Reminder(d, slots[i].offsetToken, slots[i].scheduledFor, false, None))
  }

  /** scheduleReminders */
  function ScheduleReminders(reminders: seq<Reminder>, d: nat, dueAt: int, rule: Option<string>, now: int): seq<Reminder> {
    Without(reminders, r => Replaceable(r, d)) + RowsOf(d, Schedule(dueAt, rule, now))
  }

  /** Moves deadline d to a new state, logging the change. */
  function Logged(db: Tables, d: nat, kind: ChangeKind, newDueAt: Option<int>, after: Deadline): Tables
    requires d < |db.deadlines|
  {
    db.(deadlines := db.deadlines[d := after],
        log := db.log + [Change(d, kind, db.deadlines[d].dueAt, newDueAt)])
  }

  function Rescheduled(db: Tables, d: nat, now: int): Tables
    requires d < |db.deadlines|
  {
    db.(reminders := ScheduleReminders(db.reminders, d, db.deadlines[d].dueAt, db.deadlines[d].reminderRule, now))
  }

  function Create(db: Tables, caseId: nat, dueAt: int, rule: Option<string>, now: int): Tables {
    Rescheduled(db.(deadlines := db.deadlines + [Deadline(caseId, dueAt, OPEN, rule, None)]), |db.deadlines|, now)
  }

  function Extend(db: Tables, d: nat, newDueAt: int, now: int): Tables
    requires d < |db.deadlines|
  {
    Rescheduled(
      Logged(db, d, EXTENSION, Some(newDueAt), db.deadlines[d].(dueAt := newDueAt, status := EXTENDED)), d, now)
  }

  function Suspend(db: Tables, d: nat, now: int): Tables
    requires d < |db.deadlines|
  {
    Logged(db, d, SUSPENSION, None, db.deadlines[d].(status := SUSPENDED, suspendedAt := Some(now)))
  }

  /** The due moment after a pause: the time that was left at the pause, from now on. */
  function ResumedDueAt(deadline: Deadline, now: int): int
    requires deadline.suspendedAt.Some?
  {
    var left := deadline.dueAt - deadline.suspendedAt.value;
    now + if left > 0 then left else 0
  }

  function Resume(db: Tables, d: nat, now: int): Tables
    requires d < |db.deadlines| && db.deadlines[d].suspendedAt.Some?
  {
    var due := ResumedDueAt(db.deadlines[d], now);
    Rescheduled(
      Logged(db, d, RESUMPTION, Some(due), db.deadlines[d].(status := OPEN, dueAt := due, suspendedAt := None)), d, now)
  }

  function Waive(db: Tables, d: nat): Tables
    requires d < |db.deadlines|
  {
    Logged(db, d, WAIVER, None, db.deadlines[d].(status := WAIVED))
      .(reminders := Without(db.reminders, r => Unsent(r, d)))
  }

  function MarkComplete(db: Tables, d: nat): Tables
    requires d < |db.deadlines|
  {
    db.(deadlines := db.deadlines[d := db.deadlines[d].(status := MET)])
  }

  predicate Running(deadline: Deadline) {
    deadline.status == OPEN || deadline.status == EXTENDED
  }

  /** A deadline that escalateOverdue flags. */
  predicate Lapsed(deadline: Deadline, caseId: nat, now: int) {
    deadline.caseId == caseId && Running(deadline) && deadline.dueAt < now
  }

  predicate Escalated(reminders: seq<Reminder>, d: nat) {
    exists i :: 0 <= i < |reminders| && reminders[i].deadlineId == d && reminders[i].escalation
  }

  function Escalation(d: nat, now: int): Reminder {
    Reminder(d, "OVERDUE", now, true, None)
  }

  function Flagged(deadlines: seq<Deadline>, caseId: nat, now: int): (flagged: seq<Deadline>)
    ensures |flagged| == |deadlines|
  {
    seq(|deadlines|, i requires 0 <= i < |deadlines| =>
      if Lapsed(deadlines[i], caseId, now) then deadlines[i].(status := OVERDUE) else deadlines[i])
  }

  /** One escalation for each lapsed deadline, among the first n, that has none yet. */
  function Escalations(db: Tables, caseId: nat, now: int, n: nat): seq<Reminder>
    requires n <= |db.deadlines|
  {
    if n == 0 then []
    else
      Escalations(db, caseId, now, n - 1)
      + if Lapsed(db.deadlines[n - 1], caseId, now) && !Escalated(db.reminders, n - 1)
        then [Escalation(n - 1, now)] else []
  }

  function EscalateOverdue(db: Tables, caseId: nat, now: int): Tables {
    db.(deadlines := Flagged(db.deadlines, caseId, now),
        reminders := db.reminders + Escalations(db, caseId, now, |db.deadlines|))
  }

  predicate Linked(db: Tables) {
    && (forall i :: 0 <= i < |db.reminders| ==> db.reminders[i].deadlineId < |db.deadlines|)
    && (forall i :: 0 <= i < |db.log| ==> db.log[i].deadlineId < |db.deadlines|)
  }

  /** A reminder that runDueReminders dispatches. */
  predicate Due(db: Tables, r: Reminder, caseId: nat, now: int) {
    && r.sentAt.None? && !r.escalation && r.scheduledFor <= now
    && r.deadlineId < |db.deadlines| && db.deadlines[r.deadlineId].caseId == caseId && Running(db.deadlines[r.deadlineId])
  }

  function RunDueReminders(db: Tables, caseId: nat, now: int): Tables {
    db.(reminders := seq(|db.reminders|, i requires 0 <= i < |db.reminders| =>
      if Due(db, db.reminders[i], caseId, now) then db.reminders[i].(sentAt := Some(now)) else db.reminders[i]))
  }

  /** Whenever a sweep comes, deadline d is not escalated and none of its reminders goes out. */
  ghost predicate Silent(db: Tables, d: nat)
    requires d < |db.deadlines|
  {
    && (forall caseId: nat, now: int :: !Lapsed(db.deadlines[d], caseId, now))
    && (forall r: Reminder, caseId: nat, now: int :: r.deadlineId == d ==> !Due(db, r, caseId, now))
  }

  // ---- Runs ----

  datatype Call =
    | CallCreate(caseId: nat, dueAt: int, rule: Option<string>, now: int)
    | CallExtend(id: nat, newDueAt: int, now: int)
    | CallSuspend(id: nat, now: int)
    | CallResume(id: nat, now: int)
    | CallWaive(id: nat, now: int)
    | CallComplete(id: nat, now: int)
    | CallEscalate(caseId: nat, now: int)
    | CallRunDue(caseId: nat, now: int)

  function Outcome(db: Tables, call: Call): Result<Tables, LifecycleError> {
    match call
    case CallCreate(caseId, dueAt, rule, now) => Ok(Create(db, caseId, dueAt, rule, now))
    case CallEscalate(caseId, now) => Ok(EscalateOverdue(db, caseId, now))
    case CallRunDue(caseId, now) => Ok(RunDueReminders(db, caseId, now))
    case CallExtend(d, newDueAt, now) =>
      if d >= |db.deadlines| then Err(NotFound) else Ok(Extend(db, d, newDueAt, now))
    case CallSuspend(d, now) =>
      if d >= |db.deadlines| then Err(NotFound)
      else if db.deadlines[d].status == SUSPENDED then Err(AlreadySuspended)
      else Ok(Suspend(db, d, now))
    case CallResume(d, now) =>
      if d >= |db.deadlines| then Err(NotFound)
      else if db.deadlines[d].status != SUSPENDED || db.deadlines[d].suspendedAt.None? then Err(NotSuspended)
      else Ok(Resume(db, d, now))
    case CallWaive(d, now) => if d >= |db.deadlines| then Err(NotFound) else Ok(Waive(db, d))
    case CallComplete(d, now) => if d >= |db.deadlines| then Err(NotFound) else Ok(MarkComplete(db, d))
  }

  function Step(db: Tables, call: Call): Tables {
    var out := Outcome(db, call);
    if out.Ok? then out.value else db
  }

  function Run(db: Tables, calls: seq<Call>): Tables {
    if calls == [] then db else Step(Run(db, calls[..|calls| - 1]), calls[|calls| - 1])
  }

  // ---- Invariants ----

  /** Reminders that are still to be sent are ones the rule plans for the present due moment. */
  ghost predicate RemindersPlanned(db: Tables)
    requires Linked(db)
  {
    forall i :: 0 <= i < |db.reminders| && Replaceable(db.reminders[i], db.reminders[i].deadlineId) ==>
      var r := db.reminders[i];
      Planned(Slot(r.offsetToken, r.scheduledFor), db.deadlines[r.deadlineId].dueAt, db.deadlines[r.deadlineId].reminderRule)
  }

  /** A deadline has at most one escalation. */
  ghost predicate OneEscalation(reminders: seq<Reminder>) {
    forall i, j :: 0 <= i < j < |reminders| && reminders[i].escalation && reminders[j].escalation ==>
      reminders[i].deadlineId != reminders[j].deadlineId
  }

  ghost predicate Inv(db: Tables) {
    && Linked(db) && RemindersPlanned(db) && OneEscalation(db.reminders)
    && (forall d :: 0 <= d < |db.deadlines| && db.deadlines[d].status == SUSPENDED ==> db.deadlines[d].suspendedAt.Some?)
  }

  lemma {:induction false} WithoutKeeps(reminders: seq<Reminder>, gone: Reminder -> bool)
    ensures |Without(reminders, gone)| <= |reminders|
    ensures forall r :: r in Without(reminders, gone) <==> r in reminders && !gone(r)
    ensures OneEscalation(reminders) ==> OneEscalation(Without(reminders, gone))
  {
    if reminders != [] {
      var init, last := reminders[..|reminders| - 1], reminders[|reminders| - 1];
      assert reminders == init + [last];
      WithoutKeeps(init, gone);
      var rest := Without(init, gone);
      if OneEscalation(reminders) && !gone(last) {
        forall i | 0 <= i < |rest| && rest[i].escalation && last.escalation
          ensures rest[i].deadlineId != last.deadlineId
        {
          assert rest[i] in init;
        }
      }
    }
  }

  lemma ScheduledMembers(reminders: seq<Reminder>, d: nat, dueAt: int, rule: Option<string>, now: int, r: Reminder)
    ensures r in ScheduleReminders(reminders, d, dueAt, rule, now) <==>
      || (r in reminders && !Replaceable(r, d))
      || (r.deadlineId == d && !r.escalation && r.sentAt.None? && r.scheduledFor > now
          && Planned(Slot(r.offsetToken, r.scheduledFor), dueAt, rule))
  {
    hide Schedule, Planned;
    var slots := Schedule(dueAt, rule, now);
    WithoutKeeps(reminders, s => Replaceable(s, d));
    ScheduleMembers(dueAt, rule, now, Slot(r.offsetToken, r.scheduledFor));
    if r.deadlineId == d && !r.escalation && r.sentAt.None? && Slot(r.offsetToken, r.scheduledFor) in slots {
      var k :| 0 <= k < |slots| && slots[k] == Slot(r.offsetToken, r.scheduledFor);
      assert RowsOf(d, slots)[k] == r;
    }
  }

  lemma ScheduledOneEscalation(reminders: seq<Reminder>, d: nat, dueAt: int, rule: Option<string>, now: int)
    requires OneEscalation(reminders)
    ensures OneEscalation(ScheduleReminders(reminders, d, dueAt, rule, now))
  {
    hide Schedule;
    WithoutKeeps(reminders, s => Replaceable(s, d));
  }

  /** Rescheduling deadline d makes its reminders fit whatever due moment it now has. */
  lemma RescheduledInv(db: Tables, d: nat, now: int)
    requires d < |db.deadlines| && Linked(db) && OneEscalation(db.reminders)
    requires forall i :: 0 <= i < |db.reminders| && Replaceable(db.reminders[i], db.reminders[i].deadlineId) ==>
      var r := db.reminders[i];
      r.deadlineId == d
      || Planned(Slot(r.offsetToken, r.scheduledFor), db.deadlines[r.deadlineId].dueAt, db.deadlines[r.deadlineId].reminderRule)
    ensures Linked(Rescheduled(db, d, now)) && RemindersPlanned(Rescheduled(db, d, now))
    ensures OneEscalation(Rescheduled(db, d, now).reminders)
  {
    hide ScheduleReminders, Planned;
    var db' := Rescheduled(db, d, now);
    var dueAt, rule := db.deadlines[d].dueAt, db.deadlines[d].reminderRule;
    ScheduledOneEscalation(db.reminders, d, dueAt, rule, now);
    forall i | 0 <= i < |db'.reminders|
      ensures db'.reminders[i].deadlineId < |db.deadlines|
      ensures Replaceable(db'.reminders[i], db'.reminders[i].deadlineId) ==>
        var r := db'.reminders[i];
        Planned(Slot(r.offsetToken, r.scheduledFor), db.deadlines[r.deadlineId].dueAt, db.deadlines[r.deadlineId].reminderRule)
    {
      ScheduledMembers(db.reminders, d, dueAt, rule, now, db'.reminders[i]);
      if db'.reminders[i] in db.reminders {
        var k :| 0 <= k < |db.reminders| && db.reminders[k] == db'.reminders[i];
      }
    }
  }

  lemma WaiveInv(db: Tables, d: nat)
    requires Inv(db) && d < |db.deadlines|
    ensures Inv(Waive(db, d))
  {
    hide Planned;
    var db' := Waive(db, d);
    WithoutKeeps(db.reminders, r => Unsent(r, d));
    forall i | 0 <= i < |db'.reminders|
      ensures db'.reminders[i] in db.reminders && !Unsent(db'.reminders[i], d)
    {
      assert db'.reminders[i] in db'.reminders;
    }
    forall i | 0 <= i < |db'.reminders| && Replaceable(db'.reminders[i], db'.reminders[i].deadlineId)
      ensures
        var r := db'.reminders[i];
        Planned(Slot(r.offsetToken, r.scheduledFor), db'.deadlines[r.deadlineId].dueAt, db'.deadlines[r.deadlineId].reminderRule)
    {
      var k :| 0 <= k < |db.reminders| && db.reminders[k] == db'.reminders[i];
    }
  }

  lemma {:induction false} EscalationRows(db: Tables, caseId: nat, now: int, n: nat)
    requires n <= |db.deadlines|
    ensures forall k :: 0 <= k < |Escalations(db, caseId, now, n)| ==>
      var r := Escalations(db, caseId, now, n)[k];
      r.deadlineId < n && r == Escalation(r.deadlineId, now)
      && Lapsed(db.deadlines[r.deadlineId], caseId, now) && !Escalated(db.reminders, r.deadlineId)
    ensures forall d :: 0 <= d < n && Lapsed(db.deadlines[d], caseId, now) && !Escalated(db.reminders, d) ==>
      Escalation(d, now) in Escalations(db, caseId, now, n)
    ensures OneEscalation(Escalations(db, caseId, now, n))
  {
    if n > 0 {
      EscalationRows(db, caseId, now, n - 1);
    }
  }

  lemma EscalateInv(db: Tables, caseId: nat, now: int)
    requires Inv(db)
    ensures Inv(EscalateOverdue(db, caseId, now))
  {
    hide Planned;
    var db' := EscalateOverdue(db, caseId, now);
    var added, kept := Escalations(db, caseId, now, |db.deadlines|), |db.reminders|;
    EscalationRows(db, caseId, now, |db.deadlines|);
    assert forall i :: 0 <= i < kept ==> db'.reminders[i] == db.reminders[i];
    assert forall i :: kept <= i < |db'.reminders| ==> db'.reminders[i] == added[i - kept];
    forall i, j | 0 <= i < kept <= j < |db'.reminders| && db'.reminders[i].escalation
      ensures db'.reminders[i].deadlineId != db'.reminders[j].deadlineId
    {
      assert !Escalated(db.reminders, added[j - kept].deadlineId);
    }
  }

  lemma RunDueInv(db: Tables, caseId: nat, now: int)
    requires Inv(db)
    ensures Inv(RunDueReminders(db, caseId, now))
  {
    hide Planned;
    var db' := RunDueReminders(db, caseId, now);
    assert forall i :: 0 <= i < |db.reminders| ==>
      db'.reminders[i].deadlineId == db.reminders[i].deadlineId && db'.reminders[i].escalation == db.reminders[i].escalation;
    forall i | 0 <= i < |db'.reminders| && Replaceable(db'.reminders[i], db'.reminders[i].deadlineId)
      ensures db'.reminders[i] == db.reminders[i]
    {
    }
  }

  lemma StepKeepsInv(db: Tables, call: Call)
    requires Inv(db)
    ensures Inv(Step(db, call))
  {
    hide Planned, ScheduleReminders, Escalations;
    if Outcome(db, call).Ok? {
      match call
      case CallCreate(caseId, dueAt, rule, now) =>
        RescheduledInv(db.(deadlines := db.deadlines + [Deadline(caseId, dueAt, OPEN, rule, None)]), |db.deadlines|, now);
      case CallExtend(d, newDueAt, now) =>
        RescheduledInv(
          Logged(db, d, EXTENSION, Some(newDueAt), db.deadlines[d].(dueAt := newDueAt, status := EXTENDED)), d, now);
      case CallSuspend(d, now) =>
      case CallResume(d, now) =>
        var due := ResumedDueAt(db.deadlines[d], now);
        RescheduledInv(
          Logged(db, d, RESUMPTION, Some(due), db.deadlines[d].(status := OPEN, dueAt := due, suspendedAt := None)), d, now);
      case CallWaive(d, now) => WaiveInv(db, d);
      case CallComplete(d, now) =>
      case CallEscalate(caseId, now) => EscalateInv(db, caseId, now);
      case CallRunDue(caseId, now) => RunDueInv(db, caseId, now);
    }
  }

  /** In every run the reminder table agrees with the deadlines. */
  lemma {:induction false} RemindersAlwaysPlanned(calls: seq<Call>)
    ensures Inv(Run(EMPTY, calls))
  {
    if calls != [] {
      RemindersAlwaysPlanned(calls[..|calls| - 1]);
      StepKeepsInv(Run(EMPTY, calls[..|calls| - 1]), calls[|calls| - 1]);
    }
  }

  // ---- No planned reminder is missing ----

  /** A plain reminder for that slot of deadline d is stored, sent or not. */
  ghost predicate HasRow(reminders: seq<Reminder>, d: nat, slot: Slot) {
    exists r :: r in reminders && RowFor(r, d, slot)
  }

  predicate RowFor(r: Reminder, d: nat, slot: Slot) {
    r.deadlineId == d && !r.escalation && r.offsetToken == slot.offsetToken && r.scheduledFor == slot.scheduledFor
  }

  /** Every reminder planned for the present due moment and later than a given time is stored. */
  ghost predicate NoneMissing(db: Tables, d: nat, since: int)
    requires d < |db.deadlines|
  {
    forall slot: Slot :: slot.scheduledFor > since && Planned(slot, db.deadlines[d].dueAt, db.deadlines[d].reminderRule) ==>
      HasRow(db.reminders, d, slot)
  }

  /** Call number |before.deadlines| creates deadline d, or the call extends or resumes it. */
  predicate Schedules(db: Tables, call: Call, d: nat) {
    Outcome(db, call).Ok? && match call
      case CallCreate(_, _, _, _) => d == |db.deadlines|
      case CallExtend(id, _, _) => id == d
      case CallResume(id, _) => id == d
      case _ => false
  }

  /** When the reminders of deadline d were last scheduled; None once it has been waived. */
  function ScheduledAt(calls: seq<Call>, d: nat): Option<int> {
    if calls == [] then None
    else
      var before, last := Run(EMPTY, calls[..|calls| - 1]), calls[|calls| - 1];
      if Schedules(before, last, d) then Some(last.now)
      else if last.CallWaive? && last.id == d then None
      else ScheduledAt(calls[..|calls| - 1], d)
  }

  lemma ScheduledNoneMissing(db: Tables, d: nat, now: int)
    requires d < |db.deadlines|
    ensures NoneMissing(Rescheduled(db, d, now), d, now)
  {
    hide ScheduleReminders, Planned;
    var dueAt, rule := db.deadlines[d].dueAt, db.deadlines[d].reminderRule;
    var rows := ScheduleReminders(db.reminders, d, dueAt, rule, now);
    forall slot: Slot | slot.scheduledFor > now && Planned(slot, dueAt, rule)
      ensures HasRow(rows, d, slot)
    {
      var r := Reminder(d, slot.offsetToken, slot.scheduledFor, false, None);
      ScheduledMembers(db.reminders, d, dueAt, rule, now, r);
      assert RowFor(r, d, slot);
    }
  }

  /** The reminders of deadline d are still there, though perhaps sent by now. */
  ghost predicate RowsStay(a: seq<Reminder>, b: seq<Reminder>, d: nat) {
    forall slot: Slot :: HasRow(a, d, slot) ==> HasRow(b, d, slot)
  }

  lemma OtherScheduleStays(db: Tables, e: nat, now: int, d: nat)
    requires e < |db.deadlines| && e != d
    ensures RowsStay(db.reminders, Rescheduled(db, e, now).reminders, d)
  {
    hide ScheduleReminders;
    var rows := Rescheduled(db, e, now).reminders;
    forall slot: Slot | HasRow(db.reminders, d, slot)
      ensures HasRow(rows, d, slot)
    {
      var r :| r in db.reminders && RowFor(r, d, slot);
      ScheduledMembers(db.reminders, e, db.deadlines[e].dueAt, db.deadlines[e].reminderRule, now, r);
    }
  }

  lemma OtherWaiverStays(db: Tables, e: nat, d: nat)
    requires e < |db.deadlines| && e != d
    ensures RowsStay(db.reminders, Waive(db, e).reminders, d)
  {
    WithoutKeeps(db.reminders, r => Unsent(r, e));
    forall slot: Slot | HasRow(db.reminders, d, slot)
      ensures HasRow(Waive(db, e).reminders, d, slot)
    {
      var r :| r in db.reminders && RowFor(r, d, slot);
      assert !Unsent(r, e);
    }
  }

  lemma DispatchStays(db: Tables, caseId: nat, now: int, d: nat)
    ensures RowsStay(db.reminders, RunDueReminders(db, caseId, now).reminders, d)
  {
    var rows := RunDueReminders(db, caseId, now).reminders;
    forall slot: Slot | HasRow(db.reminders, d, slot)
      ensures HasRow(rows, d, slot)
    {
      var r :| r in db.reminders && RowFor(r, d, slot);
      var i :| 0 <= i < |db.reminders| && db.reminders[i] == r;
      assert rows[i] in rows && RowFor(rows[i], d, slot);
    }
  }

  lemma EscalationStays(db: Tables, caseId: nat, now: int, d: nat)
    ensures RowsStay(db.reminders, EscalateOverdue(db, caseId, now).reminders, d)
  {
    hide Escalations;
    forall slot: Slot | HasRow(db.reminders, d, slot)
      ensures HasRow(EscalateOverdue(db, caseId, now).reminders, d, slot)
    {
      var r :| r in db.reminders && RowFor(r, d, slot);
      assert r in EscalateOverdue(db, caseId, now).reminders;
    }
  }

  /** A call that neither schedules nor waives deadline d leaves its due moment, its rule and its rows. */
  lemma OtherCallStays(db: Tables, call: Call, d: nat)
    requires d < |db.deadlines| && !Schedules(db, call, d) && !(call.CallWaive? && call.id == d)
    ensures var after := Step(db, call);
      && d < |after.deadlines|
      && after.deadlines[d].dueAt == db.deadlines[d].dueAt && after.deadlines[d].reminderRule == db.deadlines[d].reminderRule
      && RowsStay(db.reminders, after.reminders, d)
  {
    hide ScheduleReminders, Escalations, HasRow;
    if Outcome(db, call).Ok? {
      match call
      case CallCreate(caseId, dueAt, rule, now) =>
        OtherScheduleStays(
          db.(deadlines := db.deadlines + [Deadline(caseId, dueAt, OPEN, rule, None)]), |db.deadlines|, now, d);
      case CallExtend(e, newDueAt, now) =>
        OtherScheduleStays(
          Logged(db, e, EXTENSION, Some(newDueAt), db.deadlines[e].(dueAt := newDueAt, status := EXTENDED)), e, now, d);
      case CallResume(e, now) =>
        var due := ResumedDueAt(db.deadlines[e], now);
        OtherScheduleStays(
          Logged(db, e, RESUMPTION, Some(due), db.deadlines[e].(status := OPEN, dueAt := due, suspendedAt := None)), e, now, d);
      case CallWaive(e, _) => OtherWaiverStays(db, e, d);
      case CallEscalate(caseId, now) => EscalationStays(db, caseId, now, d);
      case CallRunDue(caseId, now) => DispatchStays(db, caseId, now, d);
      case CallSuspend(_, _) =>
      case CallComplete(_, _) =>
    }
  }

  lemma SchedulingStep(db: Tables, call: Call, d: nat)
    requires Schedules(db, call, d)
    ensures d < |Step(db, call).deadlines| && NoneMissing(Step(db, call), d, call.now)
  {
    hide ScheduleReminders, NoneMissing;
    match call
    case CallCreate(caseId, dueAt, rule, now) =>
      ScheduledNoneMissing(db.(deadlines := db.deadlines + [Deadline(caseId, dueAt, OPEN, rule, None)]), d, now);
    case CallExtend(_, newDueAt, now) =>
      ScheduledNoneMissing(
        Logged(db, d, EXTENSION, Some(newDueAt), db.deadlines[d].(dueAt := newDueAt, status := EXTENDED)), d, now);
    case CallResume(_, now) =>
      var due := ResumedDueAt(db.deadlines[d], now);
      ScheduledNoneMissing(
        Logged(db, d, RESUMPTION, Some(due), db.deadlines[d].(status := OPEN, dueAt := due, suspendedAt := None)), d, now);
    case _ =>
  }

  lemma MissingStays(a: Tables, b: Tables, d: nat, since: int)
    requires d < |a.deadlines| && d < |b.deadlines| && NoneMissing(a, d, since) && RowsStay(a.reminders, b.reminders, d)
    requires b.deadlines[d].dueAt == a.deadlines[d].dueAt && b.deadlines[d].reminderRule == a.deadlines[d].reminderRule
    ensures NoneMissing(b, d, since)
  {
    hide Planned, HasRow;
  }

  lemma NewDeadline(db: Tables, call: Call, d: nat)
    requires |db.deadlines| <= d < |Step(db, call).deadlines|
    ensures Schedules(db, call, d)
  {
    hide ScheduleReminders, Escalations;
  }

  /**
   In every run each reminder that the rule plans for the present due moment, later than the last time the
   deadline was created, extended or resumed, is stored, unless the deadline was waived after that.
   */
  lemma {:induction false} NoReminderMissing(calls: seq<Call>, d: nat)
    requires d < |Run(EMPTY, calls).deadlines|
    ensures ScheduledAt(calls, d).Some? ==> NoneMissing(Run(EMPTY, calls), d, ScheduledAt(calls, d).value)
    ensures ScheduledAt(calls, d).None? ==> exists k :: 0 <= k < |calls| && calls[k].CallWaive? && calls[k].id == d
  {
    hide Step, Schedules, NoneMissing, RowsStay;
    var n := |calls| - 1;
    var before, last := Run(EMPTY, calls[..n]), calls[n];
    if Schedules(before, last, d) {
      SchedulingStep(before, last, d);
    } else {
      if d >= |before.deadlines| {
        NewDeadline(before, last, d);
        assert false;
      }
      NoReminderMissing(calls[..n], d);
      if !(last.CallWaive? && last.id == d) {
        OtherCallStays(before, last, d);
        if ScheduledAt(calls[..n], d).Some? {
          MissingStays(before, Run(EMPTY, calls), d, ScheduledAt(calls[..n], d).value);
        } else {
          var k :| 0 <= k < n && calls[..n][k].CallWaive? && calls[..n][k].id == d;
          assert calls[k] == calls[..n][k];
        }
      }
    }
  }

  // ---- Sweeps are idempotent; what was sent stays sent ----

  /** A second escalation sweep at the same moment changes nothing. */
  lemma EscalateIdempotent(db: Tables, caseId: nat, now: int)
    ensures EscalateOverdue(EscalateOverdue(db, caseId, now), caseId, now) == EscalateOverdue(db, caseId, now)
  {
    var once := EscalateOverdue(db, caseId, now);
    assert Flagged(once.deadlines, caseId, now) == once.deadlines;
    NoneLapsed(once, caseId, now, |once.deadlines|);
  }

  lemma {:induction false} NoneLapsed(db: Tables, caseId: nat, now: int, n: nat)
    requires n <= |db.deadlines| && forall d :: 0 <= d < |db.deadlines| ==> !Lapsed(db.deadlines[d], caseId, now)
    ensures Escalations(db, caseId, now, n) == []
  {
    if n > 0 {
      NoneLapsed(db, caseId, now, n - 1);
    }
  }

  /** A second dispatch at the same moment, or earlier, sends nothing more. */
  lemma RunDueIdempotent(db: Tables, caseId: nat, now: int, again: int)
    requires again <= now
    ensures RunDueReminders(RunDueReminders(db, caseId, now), caseId, again) == RunDueReminders(db, caseId, now)
  {
    var once := RunDueReminders(db, caseId, now);
    assert RunDueReminders(once, caseId, again).reminders == once.reminders;
  }

  lemma StepKeepsSent(db: Tables, call: Call, r: Reminder)
    requires r in db.reminders && r.sentAt.Some?
    ensures r in Step(db, call).reminders
  {
    hide ScheduleReminders, Escalations;
    if Outcome(db, call).Ok? {
      match call
      case CallCreate(caseId, dueAt, rule, now) =>
        ScheduledMembers(db.reminders, |db.deadlines|, dueAt, rule, now, r);
      case CallExtend(d, newDueAt, now) =>
        ScheduledMembers(db.reminders, d, newDueAt, db.deadlines[d].reminderRule, now, r);
      case CallSuspend(d, now) =>
      case CallResume(d, now) =>
        ScheduledMembers(db.reminders, d, ResumedDueAt(db.deadlines[d], now), db.deadlines[d].reminderRule, now, r);
      case CallWaive(d, now) => WithoutKeeps(db.reminders, s => Unsent(s, d));
      case CallComplete(d, now) =>
      case CallEscalate(caseId, now) =>
      case CallRunDue(caseId, now) =>
        var i :| 0 <= i < |db.reminders| && db.reminders[i] == r;
        assert Step(db, call).reminders[i] == r;
    }
  }

  /** The row of a sent reminder is never sent again, altered or removed. */
  lemma {:induction false} SentStaysSent(db: Tables, calls: seq<Call>, r: Reminder)
    requires r in db.reminders && r.sentAt.Some?
    ensures r in Run(db, calls).reminders
  {
    if calls != [] {
      SentStaysSent(db, calls[..|calls| - 1], r);
      StepKeepsSent(Run(db, calls[..|calls| - 1]), calls[|calls| - 1], r);
    }
  }

  // ---- The change log ----

  /** The due moment of deadline d after the changes of a log, from a starting one. */
  function Replay(log: seq<Change>, d: nat, start: int): int {
    if log == [] then start
    else
      var last := log[|log| - 1];
      if last.deadlineId == d && last.newDueAt.Some? then last.newDueAt.value
      else Replay(log[..|log| - 1], d, start)
  }

  /** Every row of deadline d records the due moment that the rows before it lead to. */
  ghost predicate Chained(log: seq<Change>, d: nat, start: int) {
    forall k :: 0 <= k < |log| && log[k].deadlineId == d ==> log[k].previousDueAt == Replay(log[..k], d, start)
  }

  lemma ReplayAppend(log: seq<Change>, row: Change, d: nat, start: int)
    requires Chained(log, d, start)
    requires row.deadlineId == d ==> row.previousDueAt == Replay(log, d, start)
    ensures Chained(log + [row], d, start)
    ensures Replay(log + [row], d, start)
         == if row.deadlineId == d && row.newDueAt.Some? then row.newDueAt.value else Replay(log, d, start)
  {
    var longer := log + [row];
    assert longer[..|log|] == log;
    forall k | 0 <= k < |longer| && longer[k].deadlineId == d
      ensures longer[k].previousDueAt == Replay(longer[..k], d, start)
    {
      assert longer[..k] == log[..k];
    }
  }

  /**
   Whatever calls follow, the log only grows, and replaying what was added from the
   due moment at the outset gives the present one; each row records the one before it.
   */
  lemma {:induction false} LogReplays(db: Tables, calls: seq<Call>, d: nat)
    requires d < |db.deadlines|
    ensures
      var now := Run(db, calls);
      && d < |now.deadlines| && |db.log| <= |now.log| && now.log[..|db.log|] == db.log
      && var added := now.log[|db.log|..];
         && Chained(added, d, db.deadlines[d].dueAt)
         && now.deadlines[d].dueAt == Replay(added, d, db.deadlines[d].dueAt)
  {
    hide Step, Replay;
    var n := |db.log|;
    if calls != [] {
      LogReplays(db, calls[..|calls| - 1], d);
      var before, after, call := Run(db, calls[..|calls| - 1]), Run(db, calls), calls[|calls| - 1];
      if after.log == before.log {
        SilentStep(before, call, d);
      } else {
        LoggedStep(before, call, d);
        var row := after.log[|before.log|];
        assert after.log[n..] == before.log[n..] + [row];
        ReplayAppend(before.log[n..], row, d, db.deadlines[d].dueAt);
      }
    } else {
      EmptyLog(db.log[n..], d, db.deadlines[d].dueAt);
    }
  }

  lemma EmptyLog(log: seq<Change>, d: nat, start: int)
    requires log == []
    ensures Chained(log, d, start) && Replay(log, d, start) == start
  {
  }

  lemma SilentStep(db: Tables, call: Call, d: nat)
    requires d < |db.deadlines| && Step(db, call).log == db.log
    ensures d < |Step(db, call).deadlines| && Step(db, call).deadlines[d].dueAt == db.deadlines[d].dueAt
  {
    hide ScheduleReminders, Escalations;
  }

  lemma LoggedStep(db: Tables, call: Call, d: nat)
    requires d < |db.deadlines| && Step(db, call).log != db.log
    ensures
      var db' := Step(db, call);
      && d < |db'.deadlines| && |db'.log| == |db.log| + 1 && db'.log[..|db.log|] == db.log
      && var row := db'.log[|db.log|];
         && (row.deadlineId == d ==> row.previousDueAt == db.deadlines[d].dueAt)
         && db'.deadlines[d].dueAt
            == if row.deadlineId == d && row.newDueAt.Some? then row.newDueAt.value else db.deadlines[d].dueAt
  {
    hide ScheduleReminders, Escalations, Due;
  }

  // ---- Suspension conserves time ----

  /** Resuming never brings the due moment forward; it adds exactly the pause when that began by the due moment. */
  lemma ResumeAddsPause(deadline: Deadline, now: int)
    requires deadline.suspendedAt.Some? && deadline.suspendedAt.value <= now
    ensures ResumedDueAt(deadline, now) >= deadline.dueAt
    ensures ResumedDueAt(deadline, now) == deadline.dueAt + (now - deadline.suspendedAt.value)
       <==> deadline.suspendedAt.value <= deadline.dueAt
  {
  }

  /**
   A stop clock for one deadline, driven by the calls alone: a due moment, the start of
   the present pause, and whether a pause since the last extension began past it.
   */
  datatype StopClock = StopClock(due: int, pausedAt: Option<int>, late: bool)

  function Tick(m: StopClock, call: Call, d: nat): StopClock {
    match call
    case CallExtend(id, newDueAt, _) => if id == d then StopClock(newDueAt, None, false) else m
    case CallSuspend(id, now) => if id == d && m.pausedAt.None? then m.(pausedAt := Some(now)) else m
    case CallResume(id, now) =>
      if id == d && m.pausedAt.Some?
      then StopClock(m.due + (now - m.pausedAt.value), None, m.late || m.pausedAt.value > m.due)
      else m
    case CallWaive(id, _) => if id == d then m.(pausedAt := None) else m
    case CallComplete(id, _) => if id == d then m.(pausedAt := None) else m
    case _ => m
  }

  function Ticks(m: StopClock, calls: seq<Call>, d: nat): StopClock {
    if calls == [] then m else Tick(Ticks(m, calls[..|calls| - 1], d), calls[|calls| - 1], d)
  }

  /** The clock never runs backwards over the calls. */
  predicate Clocked(calls: seq<Call>) {
    forall i, j :: 0 <= i <= j < |calls| ==> calls[i].now <= calls[j].now
  }

  /** The stored deadline and the stop clock agree. */
  ghost predicate InStep(deadline: Deadline, m: StopClock) {
    && deadline.dueAt >= m.due
    && (deadline.dueAt == m.due <==> !m.late)
    && (deadline.status == SUSPENDED <==> m.pausedAt.Some?)
    && (deadline.status == SUSPENDED ==> deadline.suspendedAt == m.pausedAt)
  }

  lemma StepTicks(db: Tables, call: Call, d: nat, m: StopClock)
    requires d < |db.deadlines| && InStep(db.deadlines[d], m)
    requires m.pausedAt.Some? ==> m.pausedAt.value <= call.now
    ensures d < |Step(db, call).deadlines| && InStep(Step(db, call).deadlines[d], Tick(m, call, d))
  {
    hide ScheduleReminders, Escalations, Due;
  }

  lemma {:induction false} PauseStartsInRun(m: StopClock, calls: seq<Call>, d: nat)
    requires m.pausedAt.None?
    ensures Ticks(m, calls, d).pausedAt.Some? ==>
      exists i :: 0 <= i < |calls| && calls[i].now == Ticks(m, calls, d).pausedAt.value
  {
    if calls != [] {
      PauseStartsInRun(m, calls[..|calls| - 1], d);
      var before := Ticks(m, calls[..|calls| - 1], d);
      if before.pausedAt.Some? {
        var i :| 0 <= i < |calls| - 1 && calls[..|calls| - 1][i].now == before.pausedAt.value;
        assert calls[i].now == before.pausedAt.value;
      }
      assert calls[|calls| - 1] == calls[|calls| - 1];
    }
  }

  /**
   Time is conserved over every run: a deadline that starts out running is due exactly
   when the stop clock says, unless a pause since its last extension began past the due
   moment, and then it is due later than that.
   */
  lemma {:induction false} TimeConserved(db: Tables, calls: seq<Call>, d: nat)
    requires d < |db.deadlines| && db.deadlines[d].status != SUSPENDED && Clocked(calls)
    ensures d < |Run(db, calls).deadlines|
    ensures InStep(Run(db, calls).deadlines[d], Ticks(StopClock(db.deadlines[d].dueAt, None, false), calls, d))
  {
    hide Step;
    if calls != [] {
      var init, m := calls[..|calls| - 1], StopClock(db.deadlines[d].dueAt, None, false);
      TimeConserved(db, init, d);
      PauseStartsInRun(m, init, d);
      StepTicks(Run(db, init), calls[|calls| - 1], d, Ticks(m, init, d));
    }
  }

  /** Calls that pause and resume deadline d in turn, each pair at times s and r. */
  function Pauses(d: nat, pairs: seq<(int, int)>): seq<Call> {
    if pairs == [] then []
    else Pauses(d, pairs[..|pairs| - 1]) + [CallSuspend(d, pairs[|pairs| - 1].0), CallResume(d, pairs[|pairs| - 1].1)]
  }

  function PausedTime(pairs: seq<(int, int)>): int {
    if pairs == [] then 0 else PausedTime(pairs[..|pairs| - 1]) + (pairs[|pairs| - 1].1 - pairs[|pairs| - 1].0)
  }

  /** Alternating suspensions and resumptions move the stop clock by the time paused. */
  lemma {:induction false} PausesAddUp(d: nat, pairs: seq<(int, int)>, m: StopClock)
    requires m.pausedAt.None?
    ensures Ticks(m, Pauses(d, pairs), d).due == m.due + PausedTime(pairs)
    ensures Ticks(m, Pauses(d, pairs), d).pausedAt.None?
    ensures Ticks(m, Pauses(d, pairs), d).late
       <==> m.late || exists k :: 0 <= k < |pairs| && pairs[k].0 > m.due + PausedTime(pairs[..k])
  {
    if pairs != [] {
      var init, last := pairs[..|pairs| - 1], pairs[|pairs| - 1];
      PausesAddUp(d, init, m);
      TwoTicks(d, Pauses(d, init), last.0, last.1, m);
      forall k | 0 <= k < |init| ensures init[..k] == pairs[..k] && init[k] == pairs[k] {
      }
      hide Ticks;
    }
  }

  lemma TwoTicks(d: nat, calls: seq<Call>, s: int, r: int, m: StopClock)
    requires Ticks(m, calls, d).pausedAt.None?
    ensures
      var before, after := Ticks(m, calls, d), Ticks(m, calls + [CallSuspend(d, s), CallResume(d, r)], d);
      after == StopClock(before.due + (r - s), None, before.late || s > before.due)
  {
    var longer := calls + [CallSuspend(d, s), CallResume(d, r)];
    assert longer[..|longer| - 1] == calls + [CallSuspend(d, s)];
    assert (calls + [CallSuspend(d, s)])[..|calls|] == calls;
  }

  /** Suspended and resumed on time, a deadline moves by exactly the time it was paused. */
  lemma SuspendResumeConservesTime(db: Tables, d: nat, pairs: seq<(int, int)>)
    requires d < |db.deadlines| && db.deadlines[d].status != SUSPENDED && Clocked(Pauses(d, pairs))
    ensures d < |Run(db, Pauses(d, pairs)).deadlines|
    ensures Run(db, Pauses(d, pairs)).deadlines[d].dueAt >= db.deadlines[d].dueAt + PausedTime(pairs)
    ensures Run(db, Pauses(d, pairs)).deadlines[d].dueAt == db.deadlines[d].dueAt + PausedTime(pairs)
       <==> forall k :: 0 <= k < |pairs| ==> pairs[k].0 <= db.deadlines[d].dueAt + PausedTime(pairs[..k])
  {
    hide Run, Ticks, Clocked, Pauses;
    TimeConserved(db, Pauses(d, pairs), d);
    PausesAddUp(d, pairs, StopClock(db.deadlines[d].dueAt, None, false));
  }

  /** Extending a suspended deadline ends the pause: the later resumption is refused. */
  lemma ExtensionEndsPause(db: Tables, d: nat, s: int, newDueAt: int, e: int, r: int)
    requires d < |db.deadlines| && db.deadlines[d].status != SUSPENDED
    ensures Outcome(Extend(Suspend(db, d, s), d, newDueAt, e), CallResume(d, r)) == Err(NotSuspended)
  {
  }

  const PAUSED_LATE := [CallCreate(0, 10, None, 0), CallSuspend(0, 20), CallResume(0, 30)]

  /** So a deadline suspended ten units after it fell due and resumed ten units later gains twenty. */
  lemma LateSuspensionGivesMore()
    ensures var db := Run(EMPTY, PAUSED_LATE); |db.deadlines| == 1 && db.deadlines[0].dueAt == 30
  {
    hide ScheduleReminders;
    assert PAUSED_LATE[..2] == [PAUSED_LATE[0], PAUSED_LATE[1]];
    assert PAUSED_LATE[..2][..1] == [PAUSED_LATE[0]];
    assert [PAUSED_LATE[0]][..0] == [];
    assert Run(EMPTY, []) == EMPTY;
    var created := Run(EMPTY, [PAUSED_LATE[0]]);
    assert created.deadlines == [Deadline(0, 10, OPEN, None, None)];
    var paused := Run(EMPTY, PAUSED_LATE[..2]);
    assert paused == Step(created, CallSuspend(0, 20));
    assert Run(EMPTY, PAUSED_LATE) == Step(paused, CallResume(0, 30));
  }
}
