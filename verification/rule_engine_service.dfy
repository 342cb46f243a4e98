/** The rules engine at work on stored tables: nested walks over triggers and actions. */
module RuleEngineServices {
  import opened Wrappers
  import opened CivilDates
  import opened DayCounting
  import opened BusinessDays
  import opened DeadlineEngine
  import opened RuleEngine

  /** What applyEvent reports for one action. */
  datatype ExecutionResult = ExecutionResult(ruleId: nat, kind: ActionKind, status: ExecutionStatus)

  /** An action is reported as executed when it stored something for its event, as skipped otherwise. */
  ghost function ResultOf(rows: Rows, c: Context, task: Task): ExecutionResult {
    ExecutionResult(task.ruleId, task.action.kind, if Added(rows, c, task) == NO_ROWS then SKIPPED else EXECUTED)
  }

  ghost function Results(rows: Rows, c: Context, tasks: seq<Task>): seq<ExecutionResult> {
    if tasks == [] then []
    else
      var init := tasks[..|tasks| - 1];
      Results(rows, c, init) + [ResultOf(PerformAll(rows, c, init).rows, c, tasks[|tasks| - 1])]
  }

  lemma EngineWorkday()
    ensures HasWorkday(ENGINE_CALENDAR)
  {
    assert 1 !in Weekend(ENGINE_CALENDAR);
  }

  lemma AppendTask(rows: Rows, c: Context, tasks: seq<Task>, task: Task)
    requires PerformAll(rows, c, tasks).ok
    ensures PerformAll(rows, c, tasks + [task]) == Perform(PerformAll(rows, c, tasks).rows, c, task)
    ensures Results(rows, c, tasks + [task])
         == Results(rows, c, tasks) + [ResultOf(PerformAll(rows, c, tasks).rows, c, task)]
  {
    assert (tasks + [task])[..|tasks|] == tasks;
  }

  /** After an action throws, the actions behind it do not count. */
  lemma {:induction false} ThrowStops(rows: Rows, c: Context, tasks: seq<Task>, more: seq<Task>)
    requires !PerformAll(rows, c, tasks).ok
    ensures PerformAll(rows, c, tasks + more) == PerformAll(rows, c, tasks)
  {
    if more == [] {
      assert tasks + more == tasks;
    } else {
      ThrowStops(rows, c, tasks, more[..|more| - 1]);
      assert (tasks + more)[..|tasks + more| - 1] == tasks + more[..|more| - 1];
    }
  }

  /** The tasks of all triggers continue those of the first k. */
  lemma {:induction false} TasksContinue(triggers: seq<Trigger>, k: nat, version: nat, eventType: string, metadata: map<string, Json>)
    returns (more: seq<Task>)
    requires k <= |triggers|
    ensures Tasks(triggers, version, eventType, metadata) == Tasks(triggers[..k], version, eventType, metadata) + more
  {
    if k == |triggers| {
      more := [];
      assert triggers[..k] == triggers;
    } else {
      var init, last := triggers[..|triggers| - 1], triggers[|triggers| - 1];
      var front := TasksContinue(init, k, version, eventType, metadata);
      assert init[..k] == triggers[..k];
      more := front + if Fires(last, version, eventType, metadata) then TasksOf(last.ruleId, last.actions) else [];
    }
  }

  lemma NextTrigger(triggers: seq<Trigger>, k: nat, version: nat, eventType: string, metadata: map<string, Json>)
    requires k < |triggers|
    ensures Tasks(triggers[..k + 1], version, eventType, metadata)
         == Tasks(triggers[..k], version, eventType, metadata)
            + if Fires(triggers[k], version, eventType, metadata) then TasksOf(triggers[k].ruleId, triggers[k].actions) else []
  {
    assert triggers[..k + 1][..k] == triggers[..k];
  }

  class RuleEngineService {
    const book: Book
    var events: seq<Event>
    var pins: map<nat, nat>
    var deadlines: seq<Deadline>
    var executions: seq<Execution>
    var audit: seq<AuditRow>

    function Stored(): Tables
      reads this
    {
      Tables(events, pins, Rows(deadlines, executions, audit))
    }

    constructor (book: Book)
      ensures this.book == book && Stored() == EMPTY
    {
      this.book := book;
      events, pins, deadlines, executions, audit := [], map[], [], [], [];
    }

    /** assignToCase, for the pin: a case already pinned stays with its version. */
    method AssignToCase(caseId: nat, version: nat) returns (pinned: bool)
      modifies this`pins
      ensures Stored() == Pin(old(Stored()), caseId, version)
      ensures pinned <==> caseId !in old(pins)
    {
      if caseId in pins {
        return false;
      }
      pins := pins[caseId := version];
      pinned := true;
    }

    /** Stores an execution together with its audit row. */
    method StoreExecution(x: Execution)
      modifies this`executions, this`audit
      ensures Stored().rows == Record(old(Stored()).rows, x)
    {
      var id := |executions|;
      executions := executions + [x];
      audit := audit + [AuditRow(x.caseId, x.ruleId, x.kind, x.status, id)];
    }

    /** createDeadline: not ok when the computation of the due moment throws. */
    method StoreDeadline(c: Context, ruleId: nat, key: Option<string>) returns (status: ExecutionStatus, ok: bool)
      requires Modern(UtcToZonedCivil(c.date, UtcZone()))
      modifies this`deadlines, this`executions, this`audit
      ensures Progress(Stored().rows, ok) == CreateDeadline(old(Stored()).rows, c, ruleId, key)
      ensures status == EXECUTED <==> deadlines != old(deadlines)
      ensures status == EXECUTED <==> |executions| > |old(executions)| && executions[|executions| - 1].status == EXECUTED
      ensures ok || Stored() == old(Stored())
      ensures key == None || key == Some("") ==>
        executions == old(executions) + [
          Execution(c.caseId, c.eventId, ruleId, CREATE_DEADLINE, SKIPPED, "no definitionKey")]
    {
      hide Modern, UtcToZonedCivil, FindDefinition, DatesRead, DueAt, HasDeadline, CivilToKey;
      if key.None? || key.value == "" {
        StoreExecution(Execution(c.caseId, c.eventId, ruleId, CREATE_DEADLINE, SKIPPED, "no definitionKey"));
        return SKIPPED, true;
      }
      var def := FindDefinition(c.definitions, key.value, c.version);
      if def.None? {
        var detail := "definition " + key.value + " not found";
        StoreExecution(Execution(c.caseId, c.eventId, ruleId, CREATE_DEADLINE, SKIPPED, detail));
        return SKIPPED, true;
      }
      if HasDeadline(deadlines, c.caseId, key.value, c.eventId) {
        return SKIPPED, true;
      }
      EngineWorkday();
      var computed := ComputeDeadline(c.date, def.value.terms.days, def.value.terms.kind, ENGINE_CALENDAR, DEFAULT_CUTOFF, UtcZone());
      if computed.Err? {
        return SKIPPED, false;
      }
      deadlines := deadlines + [Deadline(c.caseId, c.eventId, key.value, def.value.ruleId, computed.value.dueAt)];
      StoreExecution(Execution(c.caseId, c.eventId, ruleId, CREATE_DEADLINE, EXECUTED, key.value));
      status, ok := EXECUTED, true;
    }

    method ExecuteAction(c: Context, task: Task) returns (result: ExecutionResult, ok: bool)
      requires Modern(UtcToZonedCivil(c.date, UtcZone()))
      modifies this`deadlines, this`executions, this`audit
      ensures Progress(Stored().rows, ok) == Perform(old(Stored()).rows, c, task)
      ensures ok ==> result == ResultOf(old(Stored()).rows, c, task)
      ensures ok ==>
        && result.ruleId == task.ruleId && result.kind == task.action.kind
        && (result.status == EXECUTED <==>
              |executions| > |old(executions)| && executions[|executions| - 1].status == EXECUTED)
    {
      hide Modern, UtcToZonedCivil, FindDefinition;
      var action := task.action;
      if action.kind == CREATE_DEADLINE {
        var status;
        status, ok := StoreDeadline(c, task.ruleId, action.definitionKey);
        result := ExecutionResult(task.ruleId, action.kind, status);
        return;
      }
      if HasExecution(executions, c.caseId, c.eventId, task.ruleId, action.kind, action.detail) {
        return ExecutionResult(task.ruleId, action.kind, SKIPPED), true;
      }
      StoreExecution(Execution(c.caseId, c.eventId, task.ruleId, action.kind, EXECUTED, action.detail));
      result, ok := ExecutionResult(task.ruleId, action.kind, EXECUTED), true;
    }

    method ApplyEvent(caseId: nat, eventId: nat, eventType: string) returns (results: seq<ExecutionResult>, ok: bool)
      requires forall e :: e in events ==> Modern(UtcToZonedCivil(e.date, UtcZone()))
      modifies this`deadlines, this`executions, this`audit
      ensures Progress(Stored().rows, ok) == RuleEngine.ApplyEvent(book, old(Stored()), caseId, eventId, eventType)
      ensures !Actionable(old(Stored()), caseId, eventId) ==> results == []
      ensures ok && Actionable(old(Stored()), caseId, eventId) ==>
        var e := events[eventId];
        results == Results(old(Stored()).rows, ContextOf(book, pins[caseId], eventId, e),
                           Tasks(book.triggers, pins[caseId], eventType, e.metadata))
    {
      hide Modern, UtcToZonedCivil, Perform, ResultOf, Fires, Tasks, PerformAll, Results;
      results := [];
      if caseId !in pins || eventId >= |events| || events[eventId].caseId != caseId {
        return [], true;
      }
      var e, version := events[eventId], pins[caseId];
      var c := ContextOf(book, version, eventId, e);
      ghost var before := Stored().rows;
      ghost var done: seq<Task> := [];
      NoTasks(before, c, version, eventType, e.metadata);
      assert book.triggers[..0] == [];
      for k := 0 to |book.triggers|
        invariant events == old(events) && pins == old(pins)
        invariant done == Tasks(book.triggers[..k], version, eventType, e.metadata)
        invariant PerformAll(before, c, done) == Progress(Stored().rows, true)
        invariant results == Results(before, c, done)
      {
        var trigger := book.triggers[k];
        NextTrigger(book.triggers, k, version, eventType, e.metadata);
        if !Fires(trigger, version, eventType, e.metadata) { continue; }
        ghost var earlier, own := done, TasksOf(trigger.ruleId, trigger.actions);
        for j := 0 to |trigger.actions|
          invariant events == old(events) && pins == old(pins)
          invariant done == earlier + own[..j]
          invariant PerformAll(before, c, done) == Progress(Stored().rows, true)
          invariant results == Results(before, c, done)
        {
          var task := Task(trigger.ruleId, trigger.actions[j]);
          AppendTask(before, c, done, task);
          assert done + [task] == earlier + own[..j + 1];
          var result;
          result, ok := ExecuteAction(c, task);
          if !ok {
            ghost var rest := TasksContinue(book.triggers, k + 1, version, eventType, e.metadata);
            ThrowStops(before, c, done + [task], own[j + 1..] + rest);
            assert done + [task] + (own[j + 1..] + rest) == earlier + own + rest;
            return results, false;
          }
          results := results + [result];
          done := done + [task];
        }
        assert own[..|own|] == own;
      }
      assert book.triggers[..|book.triggers|] == book.triggers;
      ok := true;
    }

    /** recordEvent: stores the event and hands it to the engine with its own type. */
    method RecordEvent(e: Event) returns (id: nat, results: seq<ExecutionResult>, ok: bool)
      requires forall f :: f in events + [e] ==> Modern(UtcToZonedCivil(f.date, UtcZone()))
      modifies this`events, this`deadlines, this`executions, this`audit
      ensures Stored() == Step(book, old(Stored()), CallRecord(e))
      ensures id == |old(events)| && events == old(events) + [e]
    {
      hide Modern, UtcToZonedCivil, RuleEngine.ApplyEvent;
      id := |events|;
      events := events + [e];
      results, ok := ApplyEvent(e.caseId, id, e.eventType);
    }
  }

  lemma NoTasks(rows: Rows, c: Context, version: nat, eventType: string, metadata: map<string, Json>)
    ensures Tasks([], version, eventType, metadata) == []
    ensures PerformAll(rows, c, []) == Progress(rows, true) && Results(rows, c, []) == []
  {
  }
}
