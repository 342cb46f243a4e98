/** The deadlines service: the calls of the deadline lifecycle, carried out on stored tables. */
module DeadlinesServices {
  import opened Wrappers
  import opened Reminders
  import opened DeadlineLifecycle

  class DeadlinesService {
    var deadlines: seq<Deadline>
    var log: seq<Change>
    var reminders: seq<Reminder>

    function Stored(): Tables
      reads this
    {
      Tables(deadlines, log, reminders)
    }

    constructor ()
      ensures Stored() == EMPTY && Inv(Stored())
    {
      deadlines, log, reminders := [], [], [];
    }

    /** Drops the unsent reminders of a deadline and stores those of its present due moment. */
    method ScheduleReminders(id: nat, dueAt: int, rule: Option<string>, now: int)
      modifies this`reminders
      ensures reminders == DeadlineLifecycle.ScheduleReminders(old(reminders), id, dueAt, rule, now)
      ensures forall r :: r in reminders <==>
        || (r in old(reminders) && (r.deadlineId != id || r.sentAt.Some? || r.escalation))
        || (r == Reminder(id, r.offsetToken, r.scheduledFor, false, None) && r.scheduledFor > now
            && Planned(Slot(r.offsetToken, r.scheduledFor), dueAt, rule))
    {
      forall r: Reminder {
        ScheduledMembers(reminders, id, dueAt, rule, now, r);
      }
      hide Planned, Schedule;
      reminders := Without(reminders, r => Replaceable(r, id));
      var slots := ComputeReminderSchedule(dueAt, rule, now);
      if slots == [] {
        assert RowsOf(id, slots) == [];
        return;
      }
      reminders := reminders + RowsOf(id, slots);
    }

    method Create(caseId: nat, dueAt: int, rule: Option<string>, now: int) returns (id: nat)
      requires Inv(Stored())
      modifies this
      ensures Inv(Stored()) && Stored() == Step(old(Stored()), CallCreate(caseId, dueAt, rule, now))
      ensures id == |old(deadlines)| && log == old(log)
      ensures deadlines == old(deadlines) + [Deadline(caseId, dueAt, OPEN, rule, None)]
      ensures id < |deadlines| && NoneMissing(Stored(), id, now)
    {
      hide Inv, NoneMissing;
      StepKeepsInv(Stored(), CallCreate(caseId, dueAt, rule, now));
      SchedulingStep(Stored(), CallCreate(caseId, dueAt, rule, now), |deadlines|);
      id := |deadlines|;
      deadlines := deadlines + [Deadline(caseId, dueAt, OPEN, rule, None)];
      ScheduleReminders(id, dueAt, rule, now);
    }

    method Extend(id: nat, newDueAt: int, now: int) returns (r: Result<(), LifecycleError>)
      requires Inv(Stored())
      modifies this
      ensures Inv(Stored()) && Stored() == Step(old(Stored()), CallExtend(id, newDueAt, now))
      ensures r == if id < |old(deadlines)| then Ok(()) else Err(NotFound)
      ensures r.Ok? ==> id < |deadlines| && deadlines[id].dueAt == newDueAt && NoneMissing(Stored(), id, now)
      ensures r.Ok? ==>
        && deadlines == old(deadlines)[id := old(deadlines)[id].(dueAt := newDueAt, status := EXTENDED)]
        && log == old(log) + [Change(id, EXTENSION, old(deadlines)[id].dueAt, Some(newDueAt))]
    {
      hide Inv, NoneMissing;
      StepKeepsInv(Stored(), CallExtend(id, newDueAt, now));
      if id >= |deadlines| {
        return Err(NotFound);
      }
      SchedulingStep(Stored(), CallExtend(id, newDueAt, now), id);
      var deadline := deadlines[id];
      log := log + [Change(id, EXTENSION, deadline.dueAt, Some(newDueAt))];
      deadlines := deadlines[id := deadline.(dueAt := newDueAt, status := EXTENDED)];
      ScheduleReminders(id, newDueAt, deadline.reminderRule, now);
      r := Ok(());
    }

    method Suspend(id: nat, now: int) returns (r: Result<(), LifecycleError>)
      requires Inv(Stored())
      modifies this
      ensures Inv(Stored()) && Stored() == Step(old(Stored()), CallSuspend(id, now))
      ensures r.Err? ==> Stored() == old(Stored())
      ensures r.Ok? <==> id < |old(deadlines)| && old(deadlines)[id].status != SUSPENDED
      ensures r.Ok? ==>
        && deadlines == old(deadlines)[id := old(deadlines)[id].(status := SUSPENDED, suspendedAt := Some(now))]
        && log == old(log) + [Change(id, SUSPENSION, old(deadlines)[id].dueAt, None)] && reminders == old(reminders)
      ensures r.Ok? ==> id < |deadlines| && Silent(Stored(), id)
    {
      hide Inv;
      StepKeepsInv(Stored(), CallSuspend(id, now));
      if id >= |deadlines| {
        return Err(NotFound);
      }
      var deadline := deadlines[id];
      if deadline.status == SUSPENDED {
        return Err(AlreadySuspended);
      }
      log := log + [Change(id, SUSPENSION, deadline.dueAt, None)];
      deadlines := deadlines[id := deadline.(status := SUSPENDED, suspendedAt := Some(now))];
      r := Ok(());
    }

    method Resume(id: nat, now: int) returns (r: Result<int, LifecycleError>)
      requires Inv(Stored())
      modifies this
      ensures Inv(Stored()) && Stored() == Step(old(Stored()), CallResume(id, now))
      ensures r.Err? ==> Stored() == old(Stored())
      ensures r.Ok? <==> id < |old(deadlines)| && old(deadlines)[id].status == SUSPENDED
      ensures r.Ok? ==> id < |deadlines| && r.value == deadlines[id].dueAt && NoneMissing(Stored(), id, now)
      ensures r.Ok? ==>
        var was := old(deadlines)[id];
        && was.suspendedAt.Some?
        && r.value == (if was.suspendedAt.value <= was.dueAt then now + (was.dueAt - was.suspendedAt.value) else now)
        && deadlines == old(deadlines)[id := was.(status := OPEN, dueAt := r.value, suspendedAt := None)]
        && log == old(log) + [Change(id, RESUMPTION, was.dueAt, Some(r.value))]
    {
      hide Linked, RemindersPlanned, OneEscalation, NoneMissing;
      StepKeepsInv(Stored(), CallResume(id, now));
      if id >= |deadlines| {
        return Err(NotFound);
      }
      var deadline := deadlines[id];
      if deadline.status != SUSPENDED || deadline.suspendedAt.None? {
        return Err(NotSuspended);
      }
      SchedulingStep(Stored(), CallResume(id, now), id);
      var remaining := deadline.dueAt - deadline.suspendedAt.value;
      var newDueAt := now + if remaining > 0 then remaining else 0;
      log := log + [Change(id, RESUMPTION, deadline.dueAt, Some(newDueAt))];
      deadlines := deadlines[id := deadline.(status := OPEN, dueAt := newDueAt, suspendedAt := None)];
      ScheduleReminders(id, newDueAt, deadline.reminderRule, now);
      r := Ok(newDueAt);
    }

    method Waive(id: nat, now: int) returns (r: Result<(), LifecycleError>)
      requires Inv(Stored())
      modifies this
      ensures Inv(Stored()) && Stored() == Step(old(Stored()), CallWaive(id, now))
      ensures r == if id < |old(deadlines)| then Ok(()) else Err(NotFound)
      ensures r.Ok? ==> forall m :: m in reminders <==> m in old(reminders) && (m.deadlineId != id || m.sentAt.Some?)
      ensures r.Ok? ==>
        && deadlines == old(deadlines)[id := old(deadlines)[id].(status := WAIVED)]
        && log == old(log) + [Change(id, WAIVER, old(deadlines)[id].dueAt, None)]
    {
      hide Inv;
      StepKeepsInv(Stored(), CallWaive(id, now));
      WithoutKeeps(reminders, m => Unsent(m, id));
      if id >= |deadlines| {
        return Err(NotFound);
      }
      log := log + [Change(id, WAIVER, deadlines[id].dueAt, None)];
      deadlines := deadlines[id := deadlines[id].(status := WAIVED)];
      reminders := Without(reminders, m => Unsent(m, id));
      r := Ok(());
    }

    method MarkComplete(id: nat, now: int) returns (r: Result<(), LifecycleError>)
      requires Inv(Stored())
      modifies this
      ensures Inv(Stored()) && Stored() == Step(old(Stored()), CallComplete(id, now))
      ensures r == if id < |old(deadlines)| then Ok(()) else Err(NotFound)
      ensures r.Ok? ==> id < |deadlines| && Silent(Stored(), id)
      ensures r.Ok? ==> deadlines == old(deadlines)[id := old(deadlines)[id].(status := MET)]
      ensures log == old(log) && reminders == old(reminders)
    {
      hide Inv;
      StepKeepsInv(Stored(), CallComplete(id, now));
      if id >= |deadlines| {
        return Err(NotFound);
      }
      deadlines := deadlines[id := deadlines[id].(status := MET)];
      r := Ok(());
    }

    /** Flags every lapsed deadline of a case and raises one escalation for each that has none. */
    method EscalateOverdue(caseId: nat, now: int) returns (count: nat)
      requires Inv(Stored())
      modifies this
      ensures Inv(Stored()) && Stored() == Step(old(Stored()), CallEscalate(caseId, now))
      ensures count == |LapsedBelow(old(deadlines), caseId, now, |old(deadlines)|)|
      ensures log == old(log) && |deadlines| == |old(deadlines)|
      ensures forall d :: 0 <= d < |deadlines| ==>
        var was := old(deadlines)[d];
        deadlines[d] == if was.caseId == caseId && (was.status == OPEN || was.status == EXTENDED) && was.dueAt < now
                        then was.(status := OVERDUE) else was
      ensures old(reminders) <= reminders && forall r :: r in reminders[|old(reminders)|..] <==>
        && r == Reminder(r.deadlineId, "OVERDUE", now, true, None) && r.deadlineId < |deadlines|
        && deadlines[r.deadlineId] != old(deadlines)[r.deadlineId]
        && forall i :: 0 <= i < |old(reminders)| && old(reminders)[i].deadlineId == r.deadlineId ==> !old(reminders)[i].escalation
    {
      EscalationsAre(Stored(), caseId, now);
      hide Inv, Escalations, Escalated, LapsedBelow;
      StepKeepsInv(Stored(), CallEscalate(caseId, now));
      ghost var before := Stored();
      var candidates := deadlines;
      count := 0;
      NothingBelow(before, caseId, now);
      for d := 0 to |candidates|
        invariant log == before.log && |deadlines| == |candidates|
        invariant forall k :: 0 <= k < d ==> deadlines[k] == Flagged(candidates, caseId, now)[k]
        invariant forall k :: d <= k < |candidates| ==> deadlines[k] == candidates[k]
        invariant reminders == before.reminders + Escalations(before, caseId, now, d)
        invariant count == |LapsedBelow(candidates, caseId, now, d)|
      {
        OneMore(before, caseId, now, d);
        if Lapsed(candidates[d], caseId, now) {
          NotYetEscalated(before, caseId, now, d);
          var existing := Escalated(reminders, d);
          deadlines := deadlines[d := deadlines[d].(status := OVERDUE)];
          if !existing {
            reminders := reminders + [Escalation(d, now)];
          }
          count := count + 1;
        }
      }
      assert deadlines == Flagged(candidates, caseId, now);
      assert reminders[|before.reminders|..] == Escalations(before, caseId, now, |candidates|);
    }

    /** Marks every due, unsent reminder of a running deadline of the case as sent. */
    method RunDueReminders(caseId: nat, now: int) returns (sent: nat)
      requires Inv(Stored())
      modifies this
      ensures Inv(Stored()) && Stored() == Step(old(Stored()), CallRunDue(caseId, now))
      ensures deadlines == old(deadlines) && log == old(log) && MarksDue(deadlines, old(reminders), caseId, now, reminders)
      ensures sent == |DueBelow(old(Stored()), caseId, now, |old(reminders)|)|
    {
      hide Inv, MarksDue, Due, DueBelow, DeadlineLifecycle.EscalateOverdue, Rescheduled, DeadlineLifecycle.RunDueReminders;
      DispatchMarksDue(Stored(), caseId, now);
      DispatchedRows(Stored(), caseId, now);
      StepKeepsInv(Stored(), CallRunDue(caseId, now));
      ghost var before := Stored();
      var due := reminders;
      sent := 0;
      NoneDueBelow(before, caseId, now);
      for i := 0 to |due|
        invariant deadlines == before.deadlines && log == before.log && |reminders| == |due|
        invariant forall k :: 0 <= k < i ==>
          reminders[k] == if Due(before, due[k], caseId, now) then due[k].(sentAt := Some(now)) else due[k]
        invariant forall k :: i <= k < |due| ==> reminders[k] == due[k]
        invariant sent == |DueBelow(before, caseId, now, i)|
      {
        OneMoreDue(before, caseId, now, i);
        assert Tables(deadlines, log, due) == before;
        if Due(Tables(deadlines, log, due), due[i], caseId, now) {
          reminders := reminders[i := reminders[i].(sentAt := Some(now))];
          sent := sent + 1;
        }
      }
      assert reminders == DeadlineLifecycle.RunDueReminders(before, caseId, now).reminders;
    }
  }

  /** Unsent plain reminders that have come up, of the case's open or extended deadlines, are marked sent, and nothing else. */
  predicate MarksDue(deadlines: seq<Deadline>, was: seq<Reminder>, caseId: nat, now: int, after: seq<Reminder>) {
    && |after| == |was|
    && forall i :: 0 <= i < |was| ==>
         && was[i].deadlineId < |deadlines|
         && var d := deadlines[was[i].deadlineId];
            if was[i].sentAt == None && !was[i].escalation && was[i].scheduledFor <= now
               && d.caseId == caseId && (d.status == OPEN || d.status == EXTENDED)
            then after[i] == was[i].(sentAt := Some(now)) else after[i] == was[i]
  }

  /** The due reminders among the first n. */
  ghost function DueBelow(db: Tables, caseId: nat, now: int, n: nat): set<int>
    requires n <= |db.reminders|
  {
    set i | 0 <= i < n && Due(db, db.reminders[i], caseId, now)
  }

  lemma NoneDueBelow(db: Tables, caseId: nat, now: int)
    ensures DueBelow(db, caseId, now, 0) == {}
  {
  }

  lemma OneMoreDue(db: Tables, caseId: nat, now: int, i: nat)
    requires i < |db.reminders|
    ensures |DueBelow(db, caseId, now, i + 1)|
         == |DueBelow(db, caseId, now, i)| + if Due(db, db.reminders[i], caseId, now) then 1 else 0
  {
    hide Due;
    var below, above := DueBelow(db, caseId, now, i), DueBelow(db, caseId, now, i + 1);
    assert above == if Due(db, db.reminders[i], caseId, now) then below + {i} else below;
  }

  lemma DispatchedRows(db: Tables, caseId: nat, now: int)
    ensures var after := DeadlineLifecycle.RunDueReminders(db, caseId, now);
      && after == db.(reminders := after.reminders) && |after.reminders| == |db.reminders|
      && forall i :: 0 <= i < |db.reminders| ==>
           after.reminders[i] == if Due(db, db.reminders[i], caseId, now) then db.reminders[i].(sentAt := Some(now)) else db.reminders[i]
  {
  }

  lemma DispatchMarksDue(db: Tables, caseId: nat, now: int)
    requires Inv(db)
    ensures MarksDue(db.deadlines, db.reminders, caseId, now, DeadlineLifecycle.RunDueReminders(db, caseId, now).reminders)
  {
  }

  /** The escalations of a sweep: one for each lapsed deadline without one. */
  lemma EscalationsAre(db: Tables, caseId: nat, now: int)
    ensures forall r :: r in Escalations(db, caseId, now, |db.deadlines|) <==>
      && r == Reminder(r.deadlineId, "OVERDUE", now, true, None) && r.deadlineId < |db.deadlines|
      && Lapsed(db.deadlines[r.deadlineId], caseId, now)
      && forall i :: 0 <= i < |db.reminders| && db.reminders[i].deadlineId == r.deadlineId ==> !db.reminders[i].escalation
  {
    EscalationRows(db, caseId, now, |db.deadlines|);
    hide Escalations, Lapsed;
  }

  /** The lapsed deadlines of a case among the first n. */
  ghost function LapsedBelow(deadlines: seq<Deadline>, caseId: nat, now: int, n: nat): set<int>
    requires n <= |deadlines|
  {
    set d | 0 <= d < n && Lapsed(deadlines[d], caseId, now)
  }

  lemma NothingBelow(db: Tables, caseId: nat, now: int)
    ensures LapsedBelow(db.deadlines, caseId, now, 0) == {} && Escalations(db, caseId, now, 0) == []
  {
  }

  /** What considering one more deadline adds to the sweep. */
  lemma OneMore(db: Tables, caseId: nat, now: int, d: nat)
    requires d < |db.deadlines|
    ensures |LapsedBelow(db.deadlines, caseId, now, d + 1)|
         == |LapsedBelow(db.deadlines, caseId, now, d)| + if Lapsed(db.deadlines[d], caseId, now) then 1 else 0
    ensures Escalations(db, caseId, now, d + 1)
         == Escalations(db, caseId, now, d)
            + if Lapsed(db.deadlines[d], caseId, now) && !Escalated(db.reminders, d) then [Escalation(d, now)] else []
  {
    var below, above := LapsedBelow(db.deadlines, caseId, now, d), LapsedBelow(db.deadlines, caseId, now, d + 1);
    assert above == if Lapsed(db.deadlines[d], caseId, now) then below + {d} else below;
  }

  /** The escalations added so far are all for earlier deadlines. */
  lemma NotYetEscalated(db: Tables, caseId: nat, now: int, d: nat)
    requires d <= |db.deadlines|
    ensures Escalated(db.reminders + Escalations(db, caseId, now, d), d) <==> Escalated(db.reminders, d)
  {
    hide Escalations;
    EscalationRows(db, caseId, now, d);
    var added := Escalations(db, caseId, now, d);
    var all := db.reminders + added;
    if Escalated(db.reminders, d) {
      var i :| 0 <= i < |db.reminders| && db.reminders[i].deadlineId == d && db.reminders[i].escalation;
      assert all[i] == db.reminders[i];
    }
    forall i | |db.reminders| <= i < |all| ensures all[i].deadlineId != d {
      assert all[i] == added[i - |db.reminders|];
    }
  }
}
