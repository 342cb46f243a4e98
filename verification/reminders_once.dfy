/** No reminder goes out twice: what rescheduling, dispatch and waiver do to the number of rows for one slot. */
module RemindersOnce {
  import opened Wrappers
  import opened Reminders
  import opened DeadlineLifecycle

  // ---- Counting ----

  /** How many plain reminders, sent or waiting, are stored for a slot of deadline d. */
  function Copies(rows: seq<Reminder>, d: nat, slot: Slot): nat {
    if rows == [] then 0
    else Copies(rows[..|rows| - 1], d, slot) + if RowFor(rows[|rows| - 1], d, slot) then 1 else 0
  }

  /** How often a rule names a token. */
  function Repeats(pieces: seq<string>, token: string): nat {
    if pieces == [] then 0
    else Repeats(pieces[..|pieces| - 1], token) + if Trim(pieces[|pieces| - 1]) == token then 1 else 0
  }

  lemma {:induction false} CopiesAppend(a: seq<Reminder>, b: seq<Reminder>, d: nat, slot: Slot)
    ensures Copies(a + b, d, slot) == Copies(a, d, slot) + Copies(b, d, slot)
  {
    if b == [] {
      assert a + b == a;
    } else {
      assert (a + b)[..|a + b| - 1] == a + b[..|b| - 1];
      CopiesAppend(a, b[..|b| - 1], d, slot);
    }
  }

  lemma {:induction false} NoCopies(rows: seq<Reminder>, d: nat, slot: Slot)
    requires forall r :: r in rows ==> !RowFor(r, d, slot)
    ensures Copies(rows, d, slot) == 0
  {
    if rows != [] {
      NoCopies(rows[..|rows| - 1], d, slot);
    }
  }

  lemma {:induction false} SameCopies(a: seq<Reminder>, b: seq<Reminder>, d: nat, slot: Slot)
    requires |a| == |b| && forall i :: 0 <= i < |a| ==> (RowFor(a[i], d, slot) <==> RowFor(b[i], d, slot))
    ensures Copies(a, d, slot) == Copies(b, d, slot)
  {
    if a != [] {
      SameCopies(a[..|a| - 1], b[..|b| - 1], d, slot);
    }
  }

  lemma {:induction false} FewerCopies(rows: seq<Reminder>, gone: Reminder -> bool, d: nat, slot: Slot)
    ensures Copies(Without(rows, gone), d, slot) <= Copies(rows, d, slot)
  {
    if rows != [] {
      var last := rows[|rows| - 1];
      FewerCopies(rows[..|rows| - 1], gone, d, slot);
      CopiesAppend(Without(rows[..|rows| - 1], gone), [last], d, slot);
      assert [last][..0] == [];
    }
  }

  /** Two rows for one slot are at least two copies. */
  lemma {:induction false} PairCounts(rows: seq<Reminder>, d: nat, slot: Slot, i: nat, j: nat)
    requires i < j < |rows| && RowFor(rows[i], d, slot) && RowFor(rows[j], d, slot)
    ensures Copies(rows, d, slot) >= 2
  {
    var init := rows[..|rows| - 1];
    if j < |init| {
      PairCounts(init, d, slot, i, j);
    } else {
      assert rows[i] == init[i];
      OneCounts(init, d, slot, i);
    }
  }

  lemma {:induction false} OneCounts(rows: seq<Reminder>, d: nat, slot: Slot, i: nat)
    requires i < |rows| && RowFor(rows[i], d, slot)
    ensures Copies(rows, d, slot) >= 1
  {
    if i < |rows| - 1 {
      OneCounts(rows[..|rows| - 1], d, slot, i);
    }
  }

  // ---- What a schedule stores ----

  /** The slot is where its own token puts it. */
  predicate Places(dueAt: int, slot: Slot) {
    slot.offsetToken != "" && match DurationTokenToDays(slot.offsetToken)
      case None => false
      case Some(days) => slot.scheduledFor == dueAt - days * DAY_MS
  }

  lemma {:induction false} AheadCopies(dueAt: int, pieces: seq<string>, from: int, slot: Slot)
    ensures multiset(SlotsAhead(dueAt, pieces, from))[slot]
         == if slot.scheduledFor > from && Places(dueAt, slot) then Repeats(pieces, slot.offsetToken) else 0
  {
    hide Trim, DurationTokenToDays;
    if pieces != [] {
      AheadCopies(dueAt, pieces[..|pieces| - 1], from, slot);
    }
  }

  /** A schedule holds a slot still ahead as often as the rule names its token, and no other slot. */
  lemma ScheduleCopies(dueAt: int, rule: Option<string>, from: int, slot: Slot)
    ensures multiset(Schedule(dueAt, rule, from))[slot]
         == if slot.scheduledFor > from && Places(dueAt, slot) then Repeats(Pieces(rule), slot.offsetToken) else 0
  {
    AheadCopies(dueAt, Pieces(rule), from, slot);
    SortSorts(SlotsAhead(dueAt, Pieces(rule), from));
  }

  lemma {:induction false} RowCopies(d: nat, slots: seq<Slot>, e: nat, slot: Slot)
    ensures Copies(RowsOf(d, slots), e, slot) == if e == d then multiset(slots)[slot] else 0
  {
    if slots != [] {
      var init := slots[..|slots| - 1];
      assert slots == init + [slots[|slots| - 1]];
      assert RowsOf(d, slots)[..|init|] == RowsOf(d, init);
      RowCopies(d, init, e, slot);
    }
  }

  // ---- The invariant ----

  /** Only reminders due by then have been sent, and no slot has more rows than its rule asks for. */
  ghost predicate AsTheRuleAsks(db: Tables, time: int) {
    && Linked(db)
    && (forall i :: 0 <= i < |db.reminders| && !db.reminders[i].escalation && db.reminders[i].sentAt.Some? ==>
          db.reminders[i].scheduledFor <= time)
    && (forall d: nat, slot: Slot :: d < |db.deadlines| ==>
          Copies(db.reminders, d, slot) <= Repeats(Pieces(db.deadlines[d].reminderRule), slot.offsetToken))
  }

  /** Rescheduling replaces the waiting rows and adds only later ones, which cannot have been sent. */
  lemma RescheduledCopies(rows: seq<Reminder>, d: nat, dueAt: int, rule: Option<string>, now: int, e: nat, slot: Slot)
    requires forall r :: r in rows && !r.escalation && r.sentAt.Some? ==> r.scheduledFor <= now
    ensures var after := Copies(ScheduleReminders(rows, d, dueAt, rule, now), e, slot);
      if e != d then after <= Copies(rows, e, slot)
      else after <= Copies(rows, d, slot) || after <= Repeats(Pieces(rule), slot.offsetToken)
  {
    hide Schedule, Places;
    var gone := (r: Reminder) => Replaceable(r, d);
    var kept, added := Without(rows, gone), RowsOf(d, Schedule(dueAt, rule, now));
    WithoutKeeps(rows, gone);
    FewerCopies(rows, gone, e, slot);
    CopiesAppend(kept, added, e, slot);
    RowCopies(d, Schedule(dueAt, rule, now), e, slot);
    ScheduleCopies(dueAt, rule, now, slot);
    if e == d && slot.scheduledFor > now {
      NoCopies(kept, d, slot);
    }
  }

  /** A deadline's rule never changes, and a new deadline has no rows yet. */
  lemma RescheduledAsAsked(a: Tables, b: Tables, d: nat, now: int)
    requires AsTheRuleAsks(a, now) && Linked(b) && d < |b.deadlines| && b.reminders == a.reminders
    requires |a.deadlines| <= |b.deadlines|
    requires forall e :: 0 <= e < |a.deadlines| ==> b.deadlines[e].reminderRule == a.deadlines[e].reminderRule
    ensures AsTheRuleAsks(Rescheduled(b, d, now), now)
  {
    hide ScheduleReminders, Pieces, Repeats, RowFor;
    var after := Rescheduled(b, d, now);
    var dueAt, rule := b.deadlines[d].dueAt, b.deadlines[d].reminderRule;
    forall i | 0 <= i < |after.reminders|
      ensures after.reminders[i].deadlineId < |after.deadlines|
      ensures !after.reminders[i].escalation && after.reminders[i].sentAt.Some? ==> after.reminders[i].scheduledFor <= now
    {
      ScheduledMembers(b.reminders, d, dueAt, rule, now, after.reminders[i]);
    }
    forall e: nat, slot: Slot | e < |after.deadlines|
      ensures Copies(after.reminders, e, slot) <= Repeats(Pieces(after.deadlines[e].reminderRule), slot.offsetToken)
    {
      if e >= |a.deadlines| {
        NewHasNoCopies(a, e, slot);
      }
      RescheduledCopies(b.reminders, d, dueAt, rule, now, e, slot);
    }
  }

  lemma NewHasNoCopies(db: Tables, d: nat, slot: Slot)
    requires Linked(db) && d >= |db.deadlines|
    ensures Copies(db.reminders, d, slot) == 0
  {
    NoCopies(db.reminders, d, slot);
  }

  lemma WaiveAsAsked(db: Tables, d: nat, now: int)
    requires AsTheRuleAsks(db, now) && d < |db.deadlines|
    ensures AsTheRuleAsks(Waive(db, d), now)
  {
    hide Pieces, Repeats, RowFor;
    var gone := (r: Reminder) => Unsent(r, d);
    var after := Waive(db, d);
    WithoutKeeps(db.reminders, gone);
    forall i | 0 <= i < |after.reminders|
      ensures after.reminders[i] in db.reminders
    {
      assert after.reminders[i] in after.reminders;
    }
    forall e: nat, slot: Slot
      ensures Copies(after.reminders, e, slot) <= Copies(db.reminders, e, slot)
    {
      FewerCopies(db.reminders, gone, e, slot);
    }
  }

  lemma EscalatedAsAsked(db: Tables, caseId: nat, now: int)
    requires AsTheRuleAsks(db, now)
    ensures AsTheRuleAsks(EscalateOverdue(db, caseId, now), now)
  {
    hide Pieces, Repeats, Escalations;
    var added := Escalations(db, caseId, now, |db.deadlines|);
    var after := EscalateOverdue(db, caseId, now);
    EscalationRows(db, caseId, now, |db.deadlines|);
    forall e: nat, slot: Slot
      ensures Copies(after.reminders, e, slot) == Copies(db.reminders, e, slot)
    {
      CopiesAppend(db.reminders, added, e, slot);
      NoCopies(added, e, slot);
    }
  }

  lemma DispatchedAsAsked(db: Tables, caseId: nat, now: int)
    requires AsTheRuleAsks(db, now)
    ensures AsTheRuleAsks(RunDueReminders(db, caseId, now), now)
  {
    hide Pieces, Repeats;
    var after := RunDueReminders(db, caseId, now);
    forall e: nat, slot: Slot
      ensures Copies(after.reminders, e, slot) == Copies(db.reminders, e, slot)
    {
      SameCopies(db.reminders, after.reminders, e, slot);
    }
  }

  lemma StepAsAsked(db: Tables, call: Call)
    requires AsTheRuleAsks(db, call.now)
    ensures AsTheRuleAsks(Step(db, call), call.now)
  {
    hide Rescheduled, Escalations, Waive, EscalateOverdue, RunDueReminders, Copies, Repeats, Pieces;
    if Outcome(db, call).Ok? {
      match call
      case CallCreate(caseId, dueAt, rule, now) =>
        RescheduledAsAsked(
          db, db.(deadlines := db.deadlines + [Deadline(caseId, dueAt, OPEN, rule, None)]), |db.deadlines|, now);
      case CallExtend(d, newDueAt, now) =>
        RescheduledAsAsked(
          db, Logged(db, d, EXTENSION, Some(newDueAt), db.deadlines[d].(dueAt := newDueAt, status := EXTENDED)), d, now);
      case CallResume(d, now) =>
        var due := ResumedDueAt(db.deadlines[d], now);
        RescheduledAsAsked(
          db, Logged(db, d, RESUMPTION, Some(due), db.deadlines[d].(status := OPEN, dueAt := due, suspendedAt := None)), d, now);
      case CallWaive(d, now) => WaiveAsAsked(db, d, now);
      case CallEscalate(caseId, now) => EscalatedAsAsked(db, caseId, now);
      case CallRunDue(caseId, now) => DispatchedAsAsked(db, caseId, now);
      case CallSuspend(_, _) =>
      case CallComplete(_, _) =>
    }
  }

  lemma {:induction false} RunAsAsked(calls: seq<Call>, time: int)
    requires Clocked(calls) && forall i :: 0 <= i < |calls| ==> calls[i].now <= time
    ensures AsTheRuleAsks(Run(EMPTY, calls), time)
  {
    hide Step;
    if calls != [] {
      var init, last := calls[..|calls| - 1], calls[|calls| - 1];
      RunAsAsked(init, last.now);
      StepAsAsked(Run(EMPTY, init), last);
    }
  }

  /**
   In every run whose clock does not run backwards, through any extensions, suspensions and sweeps, a reminder of a
   deadline with a given token and time is stored at most as often as the rule names the token; so where the rule
   names it once, no two sent reminders are the same.
   */
  lemma RemindedOnce(calls: seq<Call>, d: nat, slot: Slot)
    requires Clocked(calls) && d < |Run(EMPTY, calls).deadlines|
    ensures var db := Run(EMPTY, calls);
      var named := Repeats(Pieces(db.deadlines[d].reminderRule), slot.offsetToken);
      && Copies(db.reminders, d, slot) <= named
      && (named <= 1 ==>
            forall i, j :: 0 <= i < j < |db.reminders| && RowFor(db.reminders[i], d, slot) ==> !RowFor(db.reminders[j], d, slot))
  {
    var db := Run(EMPTY, calls);
    RunAsAsked(calls, if calls == [] then 0 else calls[|calls| - 1].now);
    hide Run, Repeats, Pieces, Copies, RowFor;
    forall i, j | 0 <= i < j < |db.reminders| && RowFor(db.reminders[i], d, slot) && RowFor(db.reminders[j], d, slot)
      ensures Copies(db.reminders, d, slot) >= 2
    {
      PairCounts(db.reminders, d, slot, i, j);
    }
  }
}
