/**
 The rules engine: a procedural event recorded on a case fires the matching triggers of
 the case's pinned rule version and carries out their actions. Row numbers serve as event
 ids; the rule book stays fixed while events are processed, as PinnedBook shows it may.
 */
module RuleEngine {
  import opened Wrappers
  import opened CivilDates
  import opened DayCounting
  import opened BusinessDays
  import opened DeadlineEngine
  import opened RuleBook

  // ---- The rule book ----

  datatype ActionKind =
    | CREATE_DEADLINE | REQUIRE_NOTICE | REQUIRE_DOCUMENT | ASSESS_FEE | ADVANCE_STAGE | FLAG_DEFAULT | RECORD_COMMENCEMENT

  /** An action; `detail` is the serialised target and parameters of an advisory one. */
  datatype Action = Action(kind: ActionKind, definitionKey: Option<string>, detail: string)

  /** A JSON value: `===` never holds between two separately parsed objects or arrays. */
  datatype Json = Scalar(text: string) | Composite(json: string)

  /** A trigger; its condition is None when it is absent or not valid JSON. */
  datatype Trigger = Trigger(
    ruleId: nat, versionId: nat, eventType: string, active: bool, condition: Option<map<string, Json>>, actions: seq<Action>)

  /** A definition with the version its rule belongs to. */
  datatype VersionedDefinition = VersionedDefinition(versionId: nat, row: Definition)

  datatype Book = Book(triggers: seq<Trigger>, definitions: seq<VersionedDefinition>)

  // ---- The tables ----

  /** An event; its metadata is empty when it is absent or not valid JSON. */
  datatype Event = Event(caseId: nat, eventType: string, date: int, metadata: map<string, Json>)

  datatype Deadline = Deadline(caseId: nat, eventId: nat, definitionKey: string, ruleId: nat, dueAt: int)

  datatype ExecutionStatus = EXECUTED | SKIPPED

  datatype Execution = Execution(
    caseId: nat, eventId: nat, ruleId: nat, kind: ActionKind, status: ExecutionStatus, detail: string)

  datatype AuditRow = AuditRow(caseId: nat, ruleId: nat, kind: ActionKind, status: ExecutionStatus, executionId: nat)

  datatype Rows = Rows(deadlines: seq<Deadline>, executions: seq<Execution>, audit: seq<AuditRow>)

  datatype Tables = Tables(events: seq<Event>, pins: map<nat, nat>, rows: Rows)

  const NO_ROWS := Rows([], [], [])
  const EMPTY := Tables([], map[], NO_ROWS)

  // ---- One action ----

  predicate ConditionMatches(condition: Option<map<string, Json>>, metadata: map<string, Json>) {
    condition.None?
    || forall k :: k in condition.value ==> condition.value[k].Scalar? && k in metadata && metadata[k] == condition.value[k]
  }

  function FindDefinition(definitions: seq<VersionedDefinition>, key: string, version: nat): Option<Definition> {
    if definitions == [] then None
    else if definitions[0].row.key == key && definitions[0].versionId == version then Some(definitions[0].row)
    else FindDefinition(definitions[1..], key, version)
  }

  /** What the actions of one event share. */
  datatype Context = Context(caseId: nat, eventId: nat, date: int, version: nat, definitions: seq<VersionedDefinition>)

  /** One action to carry out, with the rule it comes from. */
  datatype Task = Task(ruleId: nat, action: Action)

  const ENGINE_CALENDAR := HolidayCalendar([0, 6], [])

  function UtcZone(): Zone {
    instant => 0
  }

  /** The due moment the deadline engine computes for a definition. */
  ghost function DueMoment(date: int, def: Definition): int {
    if def.terms.days >= 1 && HasWorkday(ENGINE_CALENDAR) && Modern(UtcToZonedCivil(date, UtcZone()))
    then DueAt(date, def.terms.days, def.terms.kind, ENGINE_CALENDAR, DEFAULT_CUTOFF, UtcZone())
    else 0
  }

  function Record(rows: Rows, x: Execution): Rows {
    rows.(executions := rows.executions + [x],
          audit := rows.audit + [AuditRow(x.caseId, x.ruleId, x.kind, x.status, |rows.executions|)])
  }

  predicate HasDeadline(deadlines: seq<Deadline>, caseId: nat, key: string, eventId: nat) {
    exists d :: d in deadlines && d.caseId == caseId && d.definitionKey == key && d.eventId == eventId
  }

  predicate HasExecution(executions: seq<Execution>, caseId: nat, eventId: nat, ruleId: nat, kind: ActionKind, detail: string) {
    exists x :: x in executions && x.caseId == caseId && x.eventId == eventId && x.ruleId == ruleId
      && x.kind == kind && x.detail == detail
  }

  /** The tables after an action; not ok when the deadline computation threw. */
  datatype Progress = Progress(rows: Rows, ok: bool)

  ghost function CreateDeadline(rows: Rows, c: Context, ruleId: nat, key: Option<string>): Progress {
    if key.None? || key.value == "" then
      Progress(Record(rows, Execution(c.caseId, c.eventId, ruleId, CREATE_DEADLINE, SKIPPED, "no definitionKey")), true)
    else
      var def := FindDefinition(c.definitions, key.value, c.version);
      if def.None? then
        var detail := "definition " + key.value + " not found";
        Progress(Record(rows, Execution(c.caseId, c.eventId, ruleId, CREATE_DEADLINE, SKIPPED, detail)), true)
      else if HasDeadline(rows.deadlines, c.caseId, key.value, c.eventId) then Progress(rows, true)
      else if def.value.terms.days < 1 then Progress(rows, false)
      else
        var deadline := Deadline(c.caseId, c.eventId, key.value, def.value.ruleId, DueMoment(c.date, def.value));
        Progress(
          Record(rows.(deadlines := rows.deadlines + [deadline]),
                 Execution(c.caseId, c.eventId, ruleId, CREATE_DEADLINE, EXECUTED, key.value)),
          true)
  }

  ghost function Perform(rows: Rows, c: Context, task: Task): Progress {
    var action := task.action;
    if action.kind == CREATE_DEADLINE then CreateDeadline(rows, c, task.ruleId, action.definitionKey)
    else if HasExecution(rows.executions, c.caseId, c.eventId, task.ruleId, action.kind, action.detail) then Progress(rows, true)
    else Progress(Record(rows, Execution(c.caseId, c.eventId, task.ruleId, action.kind, EXECUTED, action.detail)), true)
  }

  // ---- One event ----

  ghost function PerformAll(rows: Rows, c: Context, tasks: seq<Task>): Progress {
    if tasks == [] then Progress(rows, true)
    else
      var before := PerformAll(rows, c, tasks[..|tasks| - 1]);
      if before.ok then Perform(before.rows, c, tasks[|tasks| - 1]) else before
  }

  function TasksOf(ruleId: nat, actions: seq<Action>): (tasks: seq<Task>)
    ensures |tasks| == |actions|
  {
    seq(|actions|, i requires 0 <= i < |actions| => Task(ruleId, actions[i]))
  }

  predicate Fires(t: Trigger, version: nat, eventType: string, metadata: map<string, Json>) {
    t.eventType == eventType && t.active && t.versionId == version && ConditionMatches(t.condition, metadata)
  }

  /** The actions an event calls for within a rule version, in order. */
  function Tasks(triggers: seq<Trigger>, version: nat, eventType: string, metadata: map<string, Json>): seq<Task> {
    if triggers == [] then []
    else
      var last := triggers[|triggers| - 1];
      Tasks(triggers[..|triggers| - 1], version, eventType, metadata)
      + if Fires(last, version, eventType, metadata) then TasksOf(last.ruleId, last.actions) else []
  }

  function ContextOf(book: Book, version: nat, eventId: nat, e: Event): Context {
    Context(e.caseId, eventId, e.date, version, book.definitions)
  }

  /** The engine acts on an event of a pinned case, and on nothing else. */
  predicate Actionable(db: Tables, caseId: nat, eventId: nat) {
    caseId in db.pins && eventId < |db.events| && db.events[eventId].caseId == caseId
  }

  ghost function ApplyEvent(book: Book, db: Tables, caseId: nat, eventId: nat, eventType: string): Progress {
    if !Actionable(db, caseId, eventId) then Progress(db.rows, true)
    else
      var e := db.events[eventId];
      PerformAll(db.rows, ContextOf(book, db.pins[caseId], eventId, e), Tasks(book.triggers, db.pins[caseId], eventType, e.metadata))
  }

  // ---- Runs ----

  datatype Call =
    | CallPin(caseId: nat, version: nat)
    | CallRecord(event: Event)
    | CallDeliver(caseId: nat, eventId: nat)

  /** An event is delivered with its own type, as both callers of the engine do. */
  ghost function Deliver(book: Book, db: Tables, caseId: nat, eventId: nat): Tables {
    if eventId < |db.events| then db.(rows := ApplyEvent(book, db, caseId, eventId, db.events[eventId].eventType).rows) else db
  }

  /** A case is pinned once; a later attempt is refused. */
  function Pin(db: Tables, caseId: nat, version: nat): Tables {
    db.(pins := PinOnce(db.pins, caseId, version))
  }

  ghost function Step(book: Book, db: Tables, call: Call): Tables {
    match call
    case CallPin(caseId, version) => Pin(db, caseId, version)
    case CallRecord(e) => Deliver(book, db.(events := db.events + [e]), e.caseId, |db.events|)
    case CallDeliver(caseId, eventId) => Deliver(book, db, caseId, eventId)
  }

  ghost function Run(book: Book, calls: seq<Call>): Tables {
    if calls == [] then EMPTY else Step(book, Run(book, calls[..|calls| - 1]), calls[|calls| - 1])
  }

  /** The events that were delivered, once or often, while their case was pinned. */
  ghost function Handled(book: Book, calls: seq<Call>): set<nat> {
    if calls == [] then {}
    else
      var before := Run(book, calls[..|calls| - 1]);
      Handled(book, calls[..|calls| - 1])
      + match calls[|calls| - 1]
        case CallPin(_, _) => {}
        case CallRecord(e) => if e.caseId in before.pins then {|before.events|} else {}
        case CallDeliver(caseId, eventId) => if Actionable(before, caseId, eventId) then {eventId} else {}
  }

  // ---- The trace of one event ----

  function DeadlinesOf(deadlines: seq<Deadline>, e: nat): seq<Deadline> {
    if deadlines == [] then []
    else
      var rest, last := DeadlinesOf(deadlines[..|deadlines| - 1], e), deadlines[|deadlines| - 1];
      if last.eventId == e then rest + [last] else rest
  }

  function ExecutedOf(executions: seq<Execution>, e: nat): seq<Execution> {
    if executions == [] then []
    else
      var rest, last := ExecutedOf(executions[..|executions| - 1], e), executions[|executions| - 1];
      if last.eventId == e && last.status == EXECUTED then rest + [last] else rest
  }

  /** The deadlines and executed actions of event e, in the order they were stored. */
  function Trace(rows: Rows, e: nat): Rows {
    Rows(DeadlinesOf(rows.deadlines, e), ExecutedOf(rows.executions, e), [])
  }

  /** Only deadline actions are ever skipped with a row, and every execution has its audit row. */
  ghost predicate Orderly(rows: Rows) {
    && (forall x :: x in rows.executions && x.status == SKIPPED ==> x.kind == CREATE_DEADLINE)
    && |rows.audit| == |rows.executions|
    && (forall k :: 0 <= k < |rows.executions| ==>
          var x := rows.executions[k];
          rows.audit[k] == AuditRow(x.caseId, x.ruleId, x.kind, x.status, k))
  }

  lemma {:induction false} DeadlinesOfMembers(deadlines: seq<Deadline>, e: nat)
    ensures forall d :: d in DeadlinesOf(deadlines, e) <==> d in deadlines && d.eventId == e
    ensures DeadlinesOf(DeadlinesOf(deadlines, e), e) == DeadlinesOf(deadlines, e)
  {
    if deadlines != [] {
      var init, last := deadlines[..|deadlines| - 1], deadlines[|deadlines| - 1];
      DeadlinesOfMembers(init, e);
      assert deadlines == init + [last];
      if last.eventId == e {
        assert (DeadlinesOf(init, e) + [last])[..|DeadlinesOf(init, e)|] == DeadlinesOf(init, e);
      }
    }
  }

  lemma {:induction false} ExecutedOfMembers(executions: seq<Execution>, e: nat)
    ensures forall x :: x in ExecutedOf(executions, e) <==> x in executions && x.eventId == e && x.status == EXECUTED
    ensures ExecutedOf(ExecutedOf(executions, e), e) == ExecutedOf(executions, e)
  {
    if executions != [] {
      var init, last := executions[..|executions| - 1], executions[|executions| - 1];
      ExecutedOfMembers(init, e);
      assert executions == init + [last];
      if last.eventId == e && last.status == EXECUTED {
        assert (ExecutedOf(init, e) + [last])[..|ExecutedOf(init, e)|] == ExecutedOf(init, e);
      }
    }
  }

  lemma TraceOfTrace(rows: Rows, e: nat)
    ensures Trace(Trace(rows, e), e) == Trace(rows, e)
  {
    DeadlinesOfMembers(rows.deadlines, e);
    ExecutedOfMembers(rows.executions, e);
  }

  lemma TraceAfterRecord(rows: Rows, x: Execution, e: nat)
    ensures Trace(Record(rows, x), e).deadlines == Trace(rows, e).deadlines
    ensures Trace(Record(rows, x), e).executions
         == Trace(rows, e).executions + if x.eventId == e && x.status == EXECUTED then [x] else []
  {
    assert (rows.executions + [x])[..|rows.executions|] == rows.executions;
  }

  lemma TraceAfterDeadline(rows: Rows, d: Deadline, e: nat)
    ensures Trace(rows.(deadlines := rows.deadlines + [d]), e)
         == Trace(rows, e).(deadlines := Trace(rows, e).deadlines + if d.eventId == e then [d] else [])
  {
    assert (rows.deadlines + [d])[..|rows.deadlines|] == rows.deadlines;
  }

  // ---- Actions only see and touch their own event ----

  lemma PerformOrderly(rows: Rows, c: Context, task: Task)
    requires Orderly(rows)
    ensures Orderly(Perform(rows, c, task).rows)
  {
    hide FindDefinition, DueMoment;
  }

  lemma PerformElsewhere(rows: Rows, c: Context, task: Task, e: nat)
    requires e != c.eventId
    ensures Trace(Perform(rows, c, task).rows, e) == Trace(rows, e)
  {
    hide FindDefinition, DueMoment, Trace, HasDeadline, HasExecution;
    var after := Perform(rows, c, task).rows;
    if after != rows {
      var x := after.executions[|rows.executions|];
      if after.deadlines == rows.deadlines {
        assert after == Record(rows, x);
        TraceAfterRecord(rows, x, e);
      } else {
        var d := after.deadlines[|rows.deadlines|];
        var mid := rows.(deadlines := rows.deadlines + [d]);
        assert after == Record(mid, x);
        TraceAfterDeadline(rows, d, e);
        TraceAfterRecord(mid, x, e);
      }
      TraceShape(rows, after, e);
    }
  }

  lemma TraceShape(rows: Rows, after: Rows, e: nat)
    requires Trace(after, e).deadlines == Trace(rows, e).deadlines && Trace(after, e).executions == Trace(rows, e).executions
    ensures Trace(after, e) == Trace(rows, e)
  {
  }

  /** The existence guards find the same rows in the event's trace as in the whole tables. */
  lemma GuardsAreLocal(rows: Rows, caseId: nat, e: nat, key: string, ruleId: nat, kind: ActionKind, detail: string)
    requires Orderly(rows)
    ensures HasDeadline(Trace(rows, e).deadlines, caseId, key, e) <==> HasDeadline(rows.deadlines, caseId, key, e)
    ensures kind != CREATE_DEADLINE ==>
      (HasExecution(Trace(rows, e).executions, caseId, e, ruleId, kind, detail)
       <==> HasExecution(rows.executions, caseId, e, ruleId, kind, detail))
  {
    DeadlinesOfMembers(rows.deadlines, e);
    ExecutedOfMembers(rows.executions, e);
  }

  /** Carrying out an action on the event's trace alone has the same effect on that trace. */
  lemma PerformOnTrace(rows: Rows, c: Context, task: Task)
    requires Orderly(rows)
    ensures Perform(Trace(rows, c.eventId), c, task).ok == Perform(rows, c, task).ok
    ensures Trace(Perform(Trace(rows, c.eventId), c, task).rows, c.eventId) == Trace(Perform(rows, c, task).rows, c.eventId)
  {
    hide FindDefinition, DueMoment, Trace, HasDeadline, HasExecution, Orderly;
    var e, t, action := c.eventId, Trace(rows, c.eventId), task.action;
    var key := if action.definitionKey.Some? then action.definitionKey.value else "";
    GuardsAreLocal(rows, c.caseId, e, key, task.ruleId, action.kind, action.detail);
    TraceOfTrace(rows, e);
    SameAppend(rows, c, task);
    SameAppend(t, c, task);
    TraceShape(Perform(rows, c, task).rows, Perform(t, c, task).rows, e);
  }

  /** What an action adds to the trace of its event. */
  ghost function Added(rows: Rows, c: Context, task: Task): Rows {
    var action := task.action;
    if action.kind != CREATE_DEADLINE then
      if HasExecution(rows.executions, c.caseId, c.eventId, task.ruleId, action.kind, action.detail) then NO_ROWS
      else Rows([], [Execution(c.caseId, c.eventId, task.ruleId, action.kind, EXECUTED, action.detail)], [])
    else if action.definitionKey.None? || action.definitionKey.value == "" then NO_ROWS
    else
      var key := action.definitionKey.value;
      var def := FindDefinition(c.definitions, key, c.version);
      if def.None? || HasDeadline(rows.deadlines, c.caseId, key, c.eventId) || def.value.terms.days < 1 then NO_ROWS
      else
        Rows([Deadline(c.caseId, c.eventId, key, def.value.ruleId, DueMoment(c.date, def.value))],
             [Execution(c.caseId, c.eventId, task.ruleId, CREATE_DEADLINE, EXECUTED, key)], [])
  }

  lemma SameAppend(rows: Rows, c: Context, task: Task)
    ensures
      var e, added := c.eventId, Added(rows, c, task);
      && Trace(Perform(rows, c, task).rows, e).deadlines == Trace(rows, e).deadlines + added.deadlines
      && Trace(Perform(rows, c, task).rows, e).executions == Trace(rows, e).executions + added.executions
  {
    hide FindDefinition, DueMoment, Trace, HasDeadline, HasExecution;
    var e, after := c.eventId, Perform(rows, c, task).rows;
    if after != rows {
      var x := after.executions[|rows.executions|];
      if after.deadlines == rows.deadlines {
        assert after == Record(rows, x);
        TraceAfterRecord(rows, x, e);
      } else {
        var d := after.deadlines[|rows.deadlines|];
        var mid := rows.(deadlines := rows.deadlines + [d]);
        assert after == Record(mid, x);
        TraceAfterDeadline(rows, d, e);
        TraceAfterRecord(mid, x, e);
      }
    }
  }

  lemma {:induction false} AllOrderly(rows: Rows, c: Context, tasks: seq<Task>)
    requires Orderly(rows)
    ensures Orderly(PerformAll(rows, c, tasks).rows)
  {
    if tasks != [] {
      AllOrderly(rows, c, tasks[..|tasks| - 1]);
      PerformOrderly(PerformAll(rows, c, tasks[..|tasks| - 1]).rows, c, tasks[|tasks| - 1]);
    }
  }

  lemma {:induction false} AllElsewhere(rows: Rows, c: Context, tasks: seq<Task>, e: nat)
    requires e != c.eventId
    ensures Trace(PerformAll(rows, c, tasks).rows, e) == Trace(rows, e)
  {
    hide Perform, Trace;
    if tasks != [] {
      AllElsewhere(rows, c, tasks[..|tasks| - 1], e);
      PerformElsewhere(PerformAll(rows, c, tasks[..|tasks| - 1]).rows, c, tasks[|tasks| - 1], e);
    }
  }

  /** Two tables that agree on the trace of an event still agree after its actions. */
  lemma {:induction false} AllOnTrace(rows: Rows, rows': Rows, c: Context, tasks: seq<Task>)
    requires Orderly(rows) && Orderly(rows') && Trace(rows, c.eventId) == Trace(rows', c.eventId)
    ensures PerformAll(rows, c, tasks).ok == PerformAll(rows', c, tasks).ok
    ensures Trace(PerformAll(rows, c, tasks).rows, c.eventId) == Trace(PerformAll(rows', c, tasks).rows, c.eventId)
  {
    hide Perform, Trace, Orderly;
    if tasks != [] {
      var init := tasks[..|tasks| - 1];
      AllOnTrace(rows, rows', c, init);
      AllOrderly(rows, c, init);
      AllOrderly(rows', c, init);
      PerformOnTrace(PerformAll(rows, c, init).rows, c, tasks[|tasks| - 1]);
      PerformOnTrace(PerformAll(rows', c, init).rows, c, tasks[|tasks| - 1]);
    }
  }

  // ---- Repeating an event adds nothing ----

  /** The action has nothing left to add to the trace. */
  ghost predicate Settled(rows: Rows, c: Context, task: Task) {
    Perform(rows, c, task).ok && Added(rows, c, task) == NO_ROWS
  }

  lemma PerformSettles(rows: Rows, c: Context, task: Task)
    ensures Perform(rows, c, task).ok ==> Settled(Perform(rows, c, task).rows, c, task)
  {
    hide FindDefinition, DueMoment;
    var after := Perform(rows, c, task).rows;
    if after.deadlines != rows.deadlines {
      assert after.deadlines[|rows.deadlines|] in after.deadlines;
    } else if after.executions != rows.executions {
      assert after.executions[|rows.executions|] in after.executions;
    }
  }

  lemma StaysSettled(rows: Rows, c: Context, task: Task, other: Task)
    requires Settled(rows, c, task)
    ensures Settled(Perform(rows, c, other).rows, c, task)
  {
    hide FindDefinition, DueMoment;
  }

  lemma {:induction false} AllSettled(rows: Rows, c: Context, tasks: seq<Task>)
    ensures PerformAll(rows, c, tasks).ok ==>
      forall i :: 0 <= i < |tasks| ==> Settled(PerformAll(rows, c, tasks).rows, c, tasks[i])
  {
    hide Perform, Settled;
    if tasks != [] {
      var init, last := tasks[..|tasks| - 1], tasks[|tasks| - 1];
      AllSettled(rows, c, init);
      var before := PerformAll(rows, c, init);
      if before.ok {
        PerformSettles(before.rows, c, last);
        forall i | 0 <= i < |init|
          ensures Settled(Perform(before.rows, c, last).rows, c, tasks[i])
        {
          assert tasks[i] == init[i];
          StaysSettled(before.rows, c, tasks[i], last);
        }
      }
    }
  }

  /** Repeating settled actions leaves the trace as it is. */
  lemma {:induction false} SettledRepeats(rows: Rows, c: Context, tasks: seq<Task>)
    requires forall i :: 0 <= i < |tasks| ==> Settled(rows, c, tasks[i])
    ensures PerformAll(rows, c, tasks).ok && Trace(PerformAll(rows, c, tasks).rows, c.eventId) == Trace(rows, c.eventId)
    ensures forall t :: Settled(rows, c, t) ==> Settled(PerformAll(rows, c, tasks).rows, c, t)
  {
    hide Perform, Trace, Added;
    if tasks != [] {
      var init, last := tasks[..|tasks| - 1], tasks[|tasks| - 1];
      SettledRepeats(rows, c, init);
      var before := PerformAll(rows, c, init).rows;
      assert Settled(before, c, last);
      SameAppend(before, c, last);
      TraceShape(before, Perform(before, c, last).rows, c.eventId);
      forall t | Settled(rows, c, t) ensures Settled(Perform(before, c, last).rows, c, t) {
        StaysSettled(before, c, t, last);
      }
    }
  }

  /** An action that throws does so again whenever the trace is the same. */
  lemma {:induction false} ReplayAddsNothing(rows: Rows, c: Context, tasks: seq<Task>)
    requires Orderly(rows)
    ensures
      var once := PerformAll(rows, c, tasks);
      && PerformAll(once.rows, c, tasks).ok == once.ok
      && Trace(PerformAll(once.rows, c, tasks).rows, c.eventId) == Trace(once.rows, c.eventId)
  {
    hide Perform, Trace, Orderly, Settled;
    if tasks != [] {
      var init, last := tasks[..|tasks| - 1], tasks[|tasks| - 1];
      var before, once := PerformAll(rows, c, init), PerformAll(rows, c, tasks);
      if !before.ok {
        ReplayAddsNothing(rows, c, init);
      } else if once.ok {
        AllSettled(rows, c, tasks);
        SettledRepeats(once.rows, c, tasks);
      } else {
        AllSettled(rows, c, init);
        ThrowLeavesRows(before.rows, c, last);
        SettledRepeats(before.rows, c, init);
        AllOrderly(rows, c, init);
        AllOrderly(before.rows, c, init);
        ThrowsAgain(before.rows, PerformAll(before.rows, c, init).rows, c, last);
      }
    }
  }

  lemma ThrowLeavesRows(rows: Rows, c: Context, task: Task)
    requires !Perform(rows, c, task).ok
    ensures Perform(rows, c, task).rows == rows
  {
  }

  lemma ThrowsAgain(rows: Rows, rows': Rows, c: Context, task: Task)
    requires Orderly(rows) && Orderly(rows') && Trace(rows, c.eventId) == Trace(rows', c.eventId)
    requires !Perform(rows, c, task).ok
    ensures !Perform(rows', c, task).ok && Perform(rows', c, task).rows == rows'
  {
    hide Perform, Trace, Orderly;
    PerformOnTrace(rows, c, task);
    PerformOnTrace(rows', c, task);
    ThrowLeavesRows(rows', c, task);
  }

  // ---- Exactly once ----

  /** The trace one delivery of an event leaves under a rule version. */
  ghost function Effect(book: Book, version: nat, eventId: nat, e: Event): Rows {
    Trace(PerformAll(NO_ROWS, ContextOf(book, version, eventId, e), Tasks(book.triggers, version, e.eventType, e.metadata)).rows, eventId)
  }

  /** The trace an event has: its effect when it has been handled, nothing otherwise. */
  ghost predicate OnceEach(book: Book, db: Tables, handled: set<nat>) {
    && Orderly(db.rows)
    && (forall e :: e in handled ==> e < |db.events| && db.events[e].caseId in db.pins)
    && (forall e: nat :: Trace(db.rows, e)
          == if e in handled then Effect(book, db.pins[db.events[e].caseId], e, db.events[e]) else NO_ROWS)
  }

  lemma DeliverOnceEach(book: Book, db: Tables, handled: set<nat>, caseId: nat, eventId: nat)
    requires OnceEach(book, db, handled)
    ensures OnceEach(book, Deliver(book, db, caseId, eventId), handled + if Actionable(db, caseId, eventId) then {eventId} else {})
  {
    hide PerformAll, Trace, Orderly, Tasks;
    if Actionable(db, caseId, eventId) {
      var e := db.events[eventId];
      var c := ContextOf(book, db.pins[caseId], eventId, e);
      var tasks := Tasks(book.triggers, db.pins[caseId], e.eventType, e.metadata);
      var db' := Deliver(book, db, caseId, eventId);
      AllOrderly(db.rows, c, tasks);
      NoRowsOrderly();
      forall f: nat
        ensures Trace(db'.rows, f)
          == if f in handled + {eventId} then Effect(book, db.pins[db.events[f].caseId], f, db.events[f]) else NO_ROWS
      {
        if f != eventId {
          AllElsewhere(db.rows, c, tasks, f);
        } else if eventId in handled {
          var once := PerformAll(NO_ROWS, c, tasks).rows;
          AllOrderly(NO_ROWS, c, tasks);
          AllOnTrace(db.rows, once, c, tasks);
          ReplayAddsNothing(NO_ROWS, c, tasks);
        } else {
          NoTrace(eventId);
          AllOnTrace(db.rows, NO_ROWS, c, tasks);
        }
      }
    }
  }

  lemma NoRowsOrderly()
    ensures Orderly(NO_ROWS)
  {
  }

  lemma NoTrace(e: nat)
    ensures Trace(NO_ROWS, e) == NO_ROWS
  {
  }

  /**
   At-least-once delivery has exactly-once effect: after any calls, the trace of every
   event is that of a single delivery under its case's pinned version when it was ever
   delivered while pinned, and empty otherwise. Order and repetition leave no mark.
   */
  lemma {:induction false} ExactlyOnce(book: Book, calls: seq<Call>)
    ensures OnceEach(book, Run(book, calls), Handled(book, calls))
  {
    hide Trace, Orderly, Effect;
    if calls == [] {
      NoRowsOrderly();
      forall e: nat ensures Trace(NO_ROWS, e) == NO_ROWS {
        NoTrace(e);
      }
    } else {
      var before, handled := Run(book, calls[..|calls| - 1]), Handled(book, calls[..|calls| - 1]);
      ExactlyOnce(book, calls[..|calls| - 1]);
      match calls[|calls| - 1]
      case CallPin(caseId, version) =>
      case CallRecord(e) =>
        var recorded := before.(events := before.events + [e]);
        assert OnceEach(book, recorded, handled);
        DeliverOnceEach(book, recorded, handled, e.caseId, |before.events|);
      case CallDeliver(caseId, eventId) =>
        DeliverOnceEach(book, before, handled, caseId, eventId);
    }
  }

  /** Two runs that end with the same events and pins and handled the same events leave the same traces. */
  lemma OrderAndRepeatsDoNotMatter(book: Book, calls: seq<Call>, calls': seq<Call>, e: nat)
    requires Run(book, calls).events == Run(book, calls').events && Run(book, calls).pins == Run(book, calls').pins
    requires Handled(book, calls) == Handled(book, calls')
    ensures Trace(Run(book, calls).rows, e) == Trace(Run(book, calls').rows, e)
  {
    hide Run, Handled, Trace, Effect;
    ExactlyOnce(book, calls);
    ExactlyOnce(book, calls');
  }

  // ---- What an effect holds ----

  /** A deadline the engine may create for an event: from a definition of the given version, due when the engine says. */
  ghost predicate Sourced(d: Deadline, c: Context) {
    && d.eventId == c.eventId && d.caseId == c.caseId
    && var def := FindDefinition(c.definitions, d.definitionKey, c.version);
       def.Some? && d.ruleId == def.value.ruleId && d.dueAt == DueMoment(c.date, def.value)
  }

  ghost predicate DistinctKeys(deadlines: seq<Deadline>) {
    forall i, j :: 0 <= i < j < |deadlines| ==>
      || deadlines[i].caseId != deadlines[j].caseId
      || deadlines[i].eventId != deadlines[j].eventId
      || deadlines[i].definitionKey != deadlines[j].definitionKey
  }

  lemma {:induction false} FoundInVersion(definitions: seq<VersionedDefinition>, key: string, version: nat)
    ensures
      var def := FindDefinition(definitions, key, version);
      def.Some? ==> VersionedDefinition(version, def.value) in definitions && def.value.key == key
  {
    if definitions != [] {
      FoundInVersion(definitions[1..], key, version);
    }
  }

  lemma {:induction false} CreatedDeadlines(rows: Rows, c: Context, tasks: seq<Task>)
    requires DistinctKeys(rows.deadlines) && forall d :: d in rows.deadlines ==> Sourced(d, c)
    ensures DistinctKeys(PerformAll(rows, c, tasks).rows.deadlines)
    ensures forall d :: d in PerformAll(rows, c, tasks).rows.deadlines ==> Sourced(d, c)
  {
    hide FindDefinition, DueMoment;
    if tasks != [] {
      CreatedDeadlines(rows, c, tasks[..|tasks| - 1]);
      var before := PerformAll(rows, c, tasks[..|tasks| - 1]).rows;
      var after := PerformAll(rows, c, tasks).rows;
      if after.deadlines != before.deadlines {
        var d := after.deadlines[|before.deadlines|];
        forall i | 0 <= i < |before.deadlines| && before.deadlines[i].caseId == d.caseId && before.deadlines[i].eventId == d.eventId
          ensures before.deadlines[i].definitionKey != d.definitionKey
        {
          assert before.deadlines[i] in before.deadlines;
        }
      }
    }
  }

  /**
   In every run an event has at most one deadline per definition key, and each comes from
   a definition of the version its case is pinned to, due when the engine computes from the event's date.
   */
  lemma DeadlinesComeFromPinnedVersion(book: Book, calls: seq<Call>, e: nat, i: nat, j: nat)
    requires i <= j < |Trace(Run(book, calls).rows, e).deadlines|
    ensures
      var db := Run(book, calls);
      var deadlines := Trace(db.rows, e).deadlines;
      && e < |db.events| && db.events[e].caseId in db.pins
      && (i != j ==> deadlines[i].definitionKey != deadlines[j].definitionKey)
      && exists def: Definition :: VersionedDefinition(db.pins[db.events[e].caseId], def) in book.definitions
           && def.key == deadlines[i].definitionKey && def.ruleId == deadlines[i].ruleId
           && deadlines[i].dueAt == DueMoment(db.events[e].date, def)
  {
    hide Run, Handled, Trace, PerformAll, Tasks, DueMoment;
    ExactlyOnce(book, calls);
    var db := Run(book, calls);
    var version := db.pins[db.events[e].caseId];
    var c := ContextOf(book, version, e, db.events[e]);
    var tasks := Tasks(book.triggers, version, db.events[e].eventType, db.events[e].metadata);
    CreatedDeadlines(NO_ROWS, c, tasks);
    var all := PerformAll(NO_ROWS, c, tasks).rows.deadlines;
    assert forall d :: d in all ==> Sourced(d, c);
    OwnDeadlines(all, e);
    TraceDeadlines(PerformAll(NO_ROWS, c, tasks).rows, e);
    var d, f := all[i], all[j];
    assert d in all && f in all;
    FoundInVersion(book.definitions, d.definitionKey, version);
  }

  lemma TraceDeadlines(rows: Rows, e: nat)
    ensures Trace(rows, e).deadlines == DeadlinesOf(rows.deadlines, e)
  {
  }

  lemma {:induction false} OwnDeadlines(deadlines: seq<Deadline>, e: nat)
    requires forall d :: d in deadlines ==> d.eventId == e
    ensures DeadlinesOf(deadlines, e) == deadlines
  {
    if deadlines != [] {
      OwnDeadlines(deadlines[..|deadlines| - 1], e);
    }
  }

  // ---- Pinning ----

  lemma {:induction false} PinsOnlyGrow(book: Book, calls: seq<Call>, n: nat, caseId: nat)
    requires n <= |calls| && caseId in Run(book, calls[..n]).pins
    ensures caseId in Run(book, calls).pins && Run(book, calls).pins[caseId] == Run(book, calls[..n]).pins[caseId]
    decreases |calls|
  {
    hide ApplyEvent;
    if n < |calls| {
      assert calls[..|calls| - 1][..n] == calls[..n];
      PinsOnlyGrow(book, calls[..|calls| - 1], n, caseId);
    } else {
      assert calls[..n] == calls;
    }
  }
}
