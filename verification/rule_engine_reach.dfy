/**
 Which actions the engine carries out, said of the rule book and the event alone: those of the active triggers of the
 case's pinned version that are for the event's type and whose guard the event's metadata meets, and no others.
 */
module RuleEngineReach {
  import opened Wrappers
  import opened CivilDates
  import opened DayCounting
  import opened BusinessDays
  import opened DeadlineEngine
  import opened RuleBook
  import opened RuleEngine

  /** Every key of the guard is in the metadata, with an equal scalar; without a guard nothing is asked. */
  ghost predicate GuardMet(t: Trigger, e: Event) {
    t.condition.Some? ==>
      forall k :: k in t.condition.value ==>
        k in e.metadata && exists text: string :: t.condition.value[k] == Scalar(text) && e.metadata[k] == Scalar(text)
  }

  ghost predicate CallsFor(t: Trigger, version: nat, e: Event) {
    t.active && t.versionId == version && t.eventType == e.eventType && GuardMet(t, e)
  }

  /** An active trigger of that version, for that event, has the action under that rule. */
  ghost predicate Asked(book: Book, version: nat, e: Event, ruleId: nat, a: Action) {
    exists t :: t in book.triggers && CallsFor(t, version, e) && t.ruleId == ruleId && a in t.actions
  }

  /** The pinned version has the definition an action names. */
  ghost predicate Defined(book: Book, version: nat, key: string) {
    exists x :: x in book.definitions && x.versionId == version && x.row.key == key
  }

  /** A deadline action that names a definition. */
  predicate Names(a: Action) {
    a.kind == CREATE_DEADLINE && a.definitionKey.Some? && a.definitionKey.value != ""
  }

  /** The executed row of an action: an advisory one's own detail, or the key of the deadline created. */
  predicate Explains(a: Action, x: Execution) {
    a.kind == x.kind && if x.kind == CREATE_DEADLINE then a.definitionKey == Some(x.detail) else a.detail == x.detail
  }

  predicate Creates(a: Action, d: Deadline) {
    a.kind == CREATE_DEADLINE && a.definitionKey == Some(d.definitionKey)
  }

  /** The definition an action names asks for less than one day, which the deadline engine refuses. */
  ghost predicate Throws(book: Book, version: nat, a: Action) {
    && Names(a)
    && var def := FindDefinition(book.definitions, a.definitionKey.value, version);
       def.Some? && def.value.terms.days < 1
  }

  ghost predicate NoneThrows(book: Book, version: nat, e: Event) {
    forall r: nat, a :: Asked(book, version, e, r, a) ==> !Throws(book, version, a)
  }

  // ---- Tasks are what is asked for ----

  lemma FiresMeans(t: Trigger, version: nat, e: Event)
    ensures Fires(t, version, e.eventType, e.metadata) <==> CallsFor(t, version, e)
  {
    if t.condition.Some? && ConditionMatches(t.condition, e.metadata) {
      forall k | k in t.condition.value
        ensures exists text: string :: t.condition.value[k] == Scalar(text) && e.metadata[k] == Scalar(text)
      {
        assert t.condition.value[k] == Scalar(t.condition.value[k].text);
      }
    }
  }

  lemma {:induction false} TasksAreAsked(triggers: seq<Trigger>, version: nat, e: Event, task: Task)
    ensures task in Tasks(triggers, version, e.eventType, e.metadata)
      <==> exists t :: t in triggers && CallsFor(t, version, e) && t.ruleId == task.ruleId && task.action in t.actions
  {
    hide Fires, CallsFor;
    if triggers != [] {
      var init, last := triggers[..|triggers| - 1], triggers[|triggers| - 1];
      assert triggers == init + [last];
      TasksAreAsked(init, version, e, task);
      FiresMeans(last, version, e);
      TasksOfMembers(last.ruleId, last.actions, task);
    }
  }

  lemma TasksOfMembers(ruleId: nat, actions: seq<Action>, task: Task)
    ensures task in TasksOf(ruleId, actions) <==> task.ruleId == ruleId && task.action in actions
  {
    if task.ruleId == ruleId && task.action in actions {
      var i :| 0 <= i < |actions| && actions[i] == task.action;
      assert TasksOf(ruleId, actions)[i] == task;
    }
  }

  // ---- Rows come from tasks ----

  predicate RowOf(x: Execution, c: Context, task: Task) {
    && x.status == EXECUTED && x.caseId == c.caseId && x.eventId == c.eventId
    && x.ruleId == task.ruleId && Explains(task.action, x)
  }

  predicate DeadlineOf(d: Deadline, c: Context, task: Task) {
    d.caseId == c.caseId && d.eventId == c.eventId && Creates(task.action, d)
  }

  ghost predicate FromTasks(rows: Rows, c: Context, tasks: seq<Task>) {
    && (forall x :: x in rows.executions && x.status == EXECUTED ==> exists t :: t in tasks && RowOf(x, c, t))
    && (forall d :: d in rows.deadlines ==> exists t :: t in tasks && DeadlineOf(d, c, t))
  }

  lemma PerformFromTask(rows: Rows, c: Context, task: Task)
    ensures var after := Perform(rows, c, task).rows;
      && (forall x :: x in after.executions && x !in rows.executions && x.status == EXECUTED ==> RowOf(x, c, task))
      && (forall d :: d in after.deadlines && d !in rows.deadlines ==> DeadlineOf(d, c, task))
  {
    hide FindDefinition, DueMoment, HasDeadline, HasExecution;
  }

  lemma {:induction false} AllFromTasks(c: Context, tasks: seq<Task>)
    ensures FromTasks(PerformAll(NO_ROWS, c, tasks).rows, c, tasks)
  {
    hide Perform, RowOf, DeadlineOf;
    if tasks != [] {
      var init, last := tasks[..|tasks| - 1], tasks[|tasks| - 1];
      assert tasks == init + [last];
      AllFromTasks(c, init);
      PerformFromTask(PerformAll(NO_ROWS, c, init).rows, c, last);
    }
  }

  // ---- When nothing throws ----

  ghost predicate NoShortDeadlines(rows: Rows, book: Book, version: nat) {
    forall d :: d in rows.deadlines ==>
      var def := FindDefinition(book.definitions, d.definitionKey, version);
      def.Some? && def.value.terms.days >= 1
  }

  lemma PerformOk(rows: Rows, book: Book, version: nat, c: Context, task: Task)
    requires NoShortDeadlines(rows, book, version) && c.version == version && c.definitions == book.definitions
    ensures NoShortDeadlines(Perform(rows, c, task).rows, book, version)
    ensures Perform(rows, c, task).ok <==> !Throws(book, version, task.action)
  {
    hide FindDefinition, DueMoment, HasExecution;
  }

  lemma {:induction false} AllOk(book: Book, version: nat, c: Context, tasks: seq<Task>)
    requires c.version == version && c.definitions == book.definitions
    ensures NoShortDeadlines(PerformAll(NO_ROWS, c, tasks).rows, book, version)
    ensures PerformAll(NO_ROWS, c, tasks).ok <==> forall t :: t in tasks ==> !Throws(book, version, t.action)
  {
    hide Perform, Throws, NoShortDeadlines;
    if tasks == [] {
      NothingShort(book, version);
    } else {
      var init, last := tasks[..|tasks| - 1], tasks[|tasks| - 1];
      assert tasks == init + [last];
      AllOk(book, version, c, init);
      PerformOk(PerformAll(NO_ROWS, c, init).rows, book, version, c, last);
    }
  }

  lemma NothingShort(book: Book, version: nat)
    ensures NoShortDeadlines(NO_ROWS, book, version)
  {
  }

  /** A settled task has its row, or its deadline. */
  lemma SettledHasRow(rows: Rows, c: Context, task: Task)
    requires Orderly(rows) && Settled(rows, c, task)
    ensures task.action.kind != CREATE_DEADLINE ==> exists x :: x in rows.executions && RowOf(x, c, task)
    ensures Names(task.action) && FindDefinition(c.definitions, task.action.definitionKey.value, c.version).Some? ==>
      exists d :: d in rows.deadlines && DeadlineOf(d, c, task)
  {
    hide FindDefinition, DueMoment;
    if task.action.kind != CREATE_DEADLINE {
      var x :| x in rows.executions && x.caseId == c.caseId && x.eventId == c.eventId && x.ruleId == task.ruleId
        && x.kind == task.action.kind && x.detail == task.action.detail;
      assert RowOf(x, c, task);
    } else if Names(task.action) && FindDefinition(c.definitions, task.action.definitionKey.value, c.version).Some? {
      var d :| d in rows.deadlines && d.caseId == c.caseId && d.definitionKey == task.action.definitionKey.value
        && d.eventId == c.eventId;
      assert DeadlineOf(d, c, task);
    }
  }

  lemma {:induction false} DefinedIsFound(definitions: seq<VersionedDefinition>, key: string, version: nat)
    ensures FindDefinition(definitions, key, version).Some?
      <==> exists x :: x in definitions && x.versionId == version && x.row.key == key
  {
    if definitions != [] {
      assert definitions == [definitions[0]] + definitions[1..];
      DefinedIsFound(definitions[1..], key, version);
    }
  }

  // ---- Every run ----

  /** The call records or delivers event e while the event's case is pinned. */
  predicate DeliversNow(db: Tables, call: Call, e: nat) {
    match call
    case CallPin(_, _) => false
    case CallRecord(ev) => e == |db.events| && ev.caseId in db.pins
    case CallDeliver(caseId, id) => id == e && e < |db.events| && db.events[e].caseId == caseId && caseId in db.pins
  }

  ghost predicate Delivered(book: Book, calls: seq<Call>, e: nat) {
    exists k :: 0 <= k < |calls| && DeliversNow(Run(book, calls[..k]), calls[k], e)
  }

  lemma {:induction false} HandledMeansDelivered(book: Book, calls: seq<Call>, e: nat)
    ensures e in Handled(book, calls) <==> Delivered(book, calls, e)
  {
    hide Run, Step;
    if calls != [] {
      var n := |calls| - 1;
      HandledMeansDelivered(book, calls[..n], e);
      if Delivered(book, calls[..n], e) {
        var k :| 0 <= k < n && DeliversNow(Run(book, calls[..n][..k]), calls[..n][k], e);
        assert calls[..n][..k] == calls[..k] && calls[..n][k] == calls[k];
      }
      if Delivered(book, calls, e) {
        var k :| 0 <= k < |calls| && DeliversNow(Run(book, calls[..k]), calls[k], e);
        if k < n {
          assert calls[..n][..k] == calls[..k] && calls[..n][k] == calls[k];
        }
      }
    }
  }

  /** The event's trace is that of its tasks, carried out from nothing. */
  lemma HandledTrace(book: Book, calls: seq<Call>, e: nat)
    ensures Orderly(Run(book, calls).rows)
    ensures if e !in Handled(book, calls) then Trace(Run(book, calls).rows, e) == NO_ROWS
      else
        var db := Run(book, calls);
        && e < |db.events| && db.events[e].caseId in db.pins
        && var version, ev := db.pins[db.events[e].caseId], db.events[e];
           Trace(db.rows, e)
           == Trace(PerformAll(NO_ROWS, ContextOf(book, version, e, ev), Tasks(book.triggers, version, ev.eventType, ev.metadata)).rows, e)
  {
    hide Run, Handled, Trace, PerformAll, Tasks, Orderly;
    ExactlyOnce(book, calls);
  }

  lemma TraceMembers(rows: Rows, e: nat)
    ensures forall x :: x in Trace(rows, e).executions <==> x in rows.executions && x.eventId == e && x.status == EXECUTED
    ensures forall d :: d in Trace(rows, e).deadlines <==> d in rows.deadlines && d.eventId == e
  {
    DeadlinesOfMembers(rows.deadlines, e);
    ExecutedOfMembers(rows.executions, e);
  }

  /**
   In every run, each executed row of event e comes from an action of an active trigger of the version the event's case
   is pinned to, for the event's own type, with its guard met; and so does each deadline. The event was delivered.
   */
  lemma WorkWasAskedFor(book: Book, calls: seq<Call>, e: nat)
    ensures var db := Run(book, calls);
      && ((exists x :: x in db.rows.executions && x.eventId == e && x.status == EXECUTED) ==> Delivered(book, calls, e))
      && (forall x :: x in db.rows.executions && x.eventId == e && x.status == EXECUTED ==>
            && e < |db.events| && x.caseId == db.events[e].caseId && x.caseId in db.pins
            && exists a :: Asked(book, db.pins[x.caseId], db.events[e], x.ruleId, a) && Explains(a, x))
      && (forall d :: d in db.rows.deadlines && d.eventId == e ==>
            && e < |db.events| && d.caseId == db.events[e].caseId && d.caseId in db.pins
            && exists r: nat, a :: Asked(book, db.pins[d.caseId], db.events[e], r, a) && Creates(a, d))
  {
    HandledTrace(book, calls, e);
    HandledMeansDelivered(book, calls, e);
    hide Run, Handled, Delivered, Trace, PerformAll, Tasks, Orderly, Asked;
    var db := Run(book, calls);
    TraceMembers(db.rows, e);
    if e in Handled(book, calls) {
      var ev, version := db.events[e], db.pins[db.events[e].caseId];
      var c, tasks := ContextOf(book, version, e, ev), Tasks(book.triggers, version, ev.eventType, ev.metadata);
      var once := PerformAll(NO_ROWS, c, tasks).rows;
      AllFromTasks(c, tasks);
      TraceMembers(once, e);
      forall x | x in db.rows.executions && x.eventId == e && x.status == EXECUTED
        ensures x.caseId == ev.caseId
        ensures exists a :: Asked(book, version, ev, x.ruleId, a) && Explains(a, x)
      {
        assert x in Trace(db.rows, e).executions && x in once.executions;
        var t :| t in tasks && RowOf(x, c, t);
        TaskIsAsked(book, version, ev, t);
      }
      forall d | d in db.rows.deadlines && d.eventId == e
        ensures d.caseId == ev.caseId
        ensures exists r: nat, a :: Asked(book, version, ev, r, a) && Creates(a, d)
      {
        assert d in Trace(db.rows, e).deadlines && d in once.deadlines;
        var t :| t in tasks && DeadlineOf(d, c, t);
        TaskIsAsked(book, version, ev, t);
      }
    } else {
      assert forall x :: x in db.rows.executions && x.eventId == e && x.status == EXECUTED ==> x in Trace(db.rows, e).executions;
      assert forall d :: d in db.rows.deadlines && d.eventId == e ==> d in Trace(db.rows, e).deadlines;
    }
  }

  lemma TaskIsAsked(book: Book, version: nat, e: Event, task: Task)
    ensures task in Tasks(book.triggers, version, e.eventType, e.metadata)
      <==> Asked(book, version, e, task.ruleId, task.action)
  {
    TasksAreAsked(book.triggers, version, e, task);
  }

  /**
   In every run, an event handled without a throw has an executed row for every advisory action asked for, and a
   deadline for every deadline action whose definition the pinned version has.
   */
  lemma AskedForWorkIsDone(book: Book, calls: seq<Call>, e: nat, r: nat, a: Action)
    requires Delivered(book, calls, e)
    ensures var db := Run(book, calls);
      && e < |db.events| && db.events[e].caseId in db.pins
      && var version, ev := db.pins[db.events[e].caseId], db.events[e];
         NoneThrows(book, version, ev) && Asked(book, version, ev, r, a) ==>
           && (a.kind != CREATE_DEADLINE ==> Execution(ev.caseId, e, r, a.kind, EXECUTED, a.detail) in db.rows.executions)
           && (Names(a) && Defined(book, version, a.definitionKey.value) ==>
                 exists d :: d in db.rows.deadlines && d.caseId == ev.caseId && d.eventId == e && Creates(a, d))
  {
    HandledTrace(book, calls, e);
    HandledMeansDelivered(book, calls, e);
    hide Run, Handled, Delivered, Trace, PerformAll, Tasks, Orderly, Asked, Settled, FindDefinition, Throws;
    var db := Run(book, calls);
    var ev, version := db.events[e], db.pins[db.events[e].caseId];
    var c, tasks := ContextOf(book, version, e, ev), Tasks(book.triggers, version, ev.eventType, ev.metadata);
    if NoneThrows(book, version, ev) && Asked(book, version, ev, r, a) {
      var once := PerformAll(NO_ROWS, c, tasks);
      TraceMembers(db.rows, e);
      TraceMembers(once.rows, e);
      forall t | t in tasks
        ensures !Throws(book, version, t.action)
      {
        TaskIsAsked(book, version, ev, t);
      }
      AllOk(book, version, c, tasks);
      AllSettled(NO_ROWS, c, tasks);
      NoRowsOrderly();
      AllOrderly(NO_ROWS, c, tasks);
      var task := Task(r, a);
      TaskIsAsked(book, version, ev, task);
      var i :| 0 <= i < |tasks| && tasks[i] == task;
      SettledHasRow(once.rows, c, task);
      if a.kind != CREATE_DEADLINE {
        var x :| x in once.rows.executions && RowOf(x, c, task);
        assert x == Execution(ev.caseId, e, r, a.kind, EXECUTED, a.detail);
        assert x in Trace(once.rows, e).executions && x in Trace(db.rows, e).executions;
      } else if Names(a) && Defined(book, version, a.definitionKey.value) {
        DefinedIsFound(book.definitions, a.definitionKey.value, version);
        var d :| d in once.rows.deadlines && DeadlineOf(d, c, task);
        assert d in Trace(once.rows, e).deadlines && d in Trace(db.rows, e).deadlines;
      }
    }
  }

  // ---- When the engine's deadlines fall due ----

  /**
   The engine's deadlines fall due at 23:59:59 UTC on a Monday to Friday at least the definition's days after the
   event's date: in calendar days on the first such day from there, in business days when that many have passed.
   */
  lemma EngineDueMoment(date: int, def: Definition)
    requires def.terms.days >= 1 && Modern(FromDayNumber(date / 86_400_000))
    ensures var due := DueMoment(date, def);
      var on, t := FromDayNumber(due / 86_400_000), date / 86_400_000;
      && ShowsTime(due % 86_400_000, Cutoff(23, 59, 59))
      && 1 <= WeekdayOf(on) <= 5 && Modern(on) && DayNumber(on) >= t + def.terms.days
      && (def.terms.kind == CALENDAR ==>
            forall e: int :: t + def.terms.days <= e < DayNumber(on) ==>
              WeekdayOf(FromDayNumber(e)) == 0 || WeekdayOf(FromDayNumber(e)) == 6)
      && (def.terms.kind == BUSINESS ==> Count(Weekdays(), t, DayNumber(on) - t) == def.terms.days)
  {
    hide FromDayNumber, MakeDay, UtcToZonedCivil, TimeOfDay, ZonedCivilToUtc, CivilToKey, ShowsTime, WeekdayOf;
    InUtc(date);
    InUtc(DueMoment(date, def));
    EngineHasWorkday();
    var trigger := UtcToZonedCivil(date, UtcZone());
    ModernDay(trigger);
    var t := DayNumber(trigger);
    var day := DueDay(ENGINE_CALENDAR, t, def.terms.days, def.terms.kind);
    DueDayInRange(ENGINE_CALENDAR, t, def.terms.days, def.terms.kind);
    var on := FromDayNumber(day);
    WeekdayOpen(day);
    CutoffShowsOnClock(on, DEFAULT_CUTOFF, UtcZone());
    DayNumberBijection(on, day);
    if def.terms.kind == CALENDAR {
      forall e: int | t + def.terms.days <= e < day
        ensures WeekdayOf(FromDayNumber(e)) == 0 || WeekdayOf(FromDayNumber(e)) == 6
      {
        RollForwardLeast(ENGINE_CALENDAR, t + def.terms.days, e);
        WeekdayOpen(e);
        WeekdayRange(FromDayNumber(e));
      }
    } else {
      BusinessDueCounts(ENGINE_CALENDAR, t, def.terms.days, day);
      SameCount(t, day - t);
    }
  }

  lemma InUtc(instant: int)
    ensures UtcToZonedCivil(instant, UtcZone()) == FromDayNumber(instant / 86_400_000)
    ensures DayNumber(FromDayNumber(instant / 86_400_000)) == instant / 86_400_000
    ensures TimeOfDay(instant, UtcZone()) == instant % 86_400_000
  {
    hide FromDayNumber, MakeDay;
  }

  /** The days from Monday to Friday, by day number. */
  function Weekdays(): Days {
    (e: int) => 1 <= WeekdayOf(FromDayNumber(e)) <= 5
  }

  lemma EngineHasWorkday()
    ensures HasWorkday(ENGINE_CALENDAR)
  {
    assert 1 !in Weekend(ENGINE_CALENDAR);
  }

  lemma WeekdayRange(d: CivilDate)
    ensures 0 <= WeekdayOf(d) <= 6
  {
  }

  lemma WeekdayOpen(e: int)
    requires e >= FIRST_DAY
    ensures Modern(FromDayNumber(e))
    ensures OpenDays(ENGINE_CALENDAR)(e) <==> 1 <= WeekdayOf(FromDayNumber(e)) <= 5
  {
    hide FromDayNumber, CivilToKey, MakeDay;
    OpenDay(ENGINE_CALENDAR, e);
    WeekdayRange(FromDayNumber(e));
  }

  lemma {:induction false} SameCount(t: int, n: nat)
    requires t >= FIRST_DAY
    ensures Count(OpenDays(ENGINE_CALENDAR), t, n) == Count(Weekdays(), t, n)
  {
    hide FromDayNumber, OpenDays, WeekdayOf;
    if n > 0 {
      SameCount(t, n - 1);
      WeekdayOpen(t + n);
    }
  }
}
