/** The retention service: policy workflow, legal holds and sweeps, carried out on stored tables. */
module RetentionServices {
  import opened Wrappers
  import opened Retention

  /** One line of a sweep's summary. */
  datatype SummaryLine = SummaryLine(category: Category, softDeleted: nat, skippedLegalHold: nat, refused: bool)

  class RetentionService {
    var cases: seq<CaseRow>
    var holds: seq<Hold>
    var overrides: Overrides
    var draft: Option<PolicyDraft>
    var records: seq<SweepRecord>

    function Stored(): Tables
      reads this
    {
      Tables(cases, holds, overrides, draft, records)
    }

    constructor ()
      ensures Stored() == EMPTY && Inv(Stored())
    {
      cases, holds, overrides, draft, records := [], [], map[], None, [];
    }

    /** getPolicy: a copy of the defaults, overridden and then clamped. */
    method GetPolicy() returns (policy: map<Category, CategoryPolicy>)
      ensures forall c :: c in RETENTION_CATEGORIES ==> c in policy && policy[c] == Effective(overrides, c)
      ensures forall c :: c in RETENTION_CATEGORIES ==>
        && policy[c].days == (if c in overrides && overrides[c].days.Some? then overrides[c].days.value else DefaultPolicy(c).days)
        && policy[c].behavior == (if c == AWARD || c == AUDIT_LOG || c == NOTICE_CERTIFICATE then RETAIN_FOREVER
                                  else if c in overrides && overrides[c].behavior.Some? then overrides[c].behavior.value
                                  else DefaultPolicy(c).behavior)
    {
      hide Effective, Unclamped;
      policy := OverriddenPolicy(RETENTION_CATEGORIES);
      var safeguarded := [AWARD, AUDIT_LOG, NOTICE_CERTIFICATE];
      for i := 0 to |safeguarded|
        invariant forall c :: c in RETENTION_CATEGORIES ==> c in policy
        invariant forall c :: c in policy ==> policy[c] == ClampedAmong(safeguarded[..i], overrides, c)
      {
        var c := safeguarded[i];
        if c in policy {
          policy := policy[c := policy[c].(behavior := RETAIN_FOREVER)];
        }
      }
      forall c | c in policy
        ensures policy[c] == Effective(overrides, c)
      {
        ClampedIsEffective(overrides, c);
      }
      forall c {
        EffectiveReads(overrides, c);
      }
    }

    method OverriddenPolicy(categories: seq<Category>) returns (policy: map<Category, CategoryPolicy>)
      ensures forall c :: c in categories ==> c in policy
      ensures forall c :: c in policy ==> policy[c] == Unclamped(overrides, c)
    {
      policy := map[];
      for i := 0 to |categories|
        invariant forall k :: 0 <= k < i ==> categories[k] in policy
        invariant forall c :: c in policy ==> policy[c] == Unclamped(overrides, c)
      {
        var c := categories[i];
        var p := DefaultPolicy(c);
        if c in overrides {
          var o := overrides[c];
          if o.days.Some? { p := p.(days := o.days.value); }
          if o.behavior.Some? { p := p.(behavior := o.behavior.value); }
          if o.note.Some? { p := p.(note := o.note); }
        }
        policy := policy[c := p];
      }
    }

    /** draftPolicy: one forbidden entry refuses the whole draft. */
    method DraftPolicy(entries: seq<Entry>, submit: bool) returns (r: Result<PolicyDraft, RetentionError>)
      requires Inv(Stored())
      modifies this`draft
      ensures Inv(Stored()) && Stored() == Step(old(Stored()), CallDraft(entries, submit))
      ensures r.Ok? <==> forall i :: 0 <= i < |entries| ==> Allowed(entries[i])
      ensures r.Err? ==> draft == old(draft)
      ensures r.Ok? ==>
        && draft == Some(r.value) && r.value.status == (if submit then PENDING_REVIEW else DRAFT)
        && LastEntriesCount(entries, r.value.overrides)
    {
      DraftedCounts(entries);
      StepKeepsInv(Stored(), CallDraft(entries, submit));
      hide LastEntriesCount, Allowed, Forbidden, Inv, FlagsAgree, Sweep, Merge, PlaceHold, ReleaseHold, Drafted;
      ForbiddenAmong(entries);
      var changes := ReadEntries(entries);
      if changes.Err? {
        return Err(changes.error);
      }
      draft := Some(PolicyDraft(changes.value, if submit then PENDING_REVIEW else DRAFT));
      r := Ok(draft.value);
    }

    /** The loop of draftPolicy. */
    method ReadEntries(entries: seq<Entry>) returns (r: Result<Overrides, RetentionError>)
      ensures r.Ok? <==> forall i :: 0 <= i < |entries| ==> !Forbidden(entries[i])
      ensures r == if r.Ok? then Ok(Drafted(entries, |entries|)) else Err(SafeguardedCategory)
    {
      hide Forbidden;
      var changes: Overrides := map[];
      for i := 0 to |entries|
        invariant changes == Drafted(entries, i)
        invariant forall k :: 0 <= k < i ==> !Forbidden(entries[k])
      {
        if Forbidden(entries[i]) {
          return Err(SafeguardedCategory);
        }
        changes := changes[entries[i].category := entries[i].change];
      }
      r := Ok(changes);
    }

    method ReviewPolicy(approve: bool) returns (r: Result<DraftStatus, RetentionError>)
      requires Inv(Stored())
      modifies this`draft
      ensures Inv(Stored()) && Stored() == Step(old(Stored()), CallReview(approve))
      ensures r.Ok? <==> old(draft).Some? && old(draft).value.status == PENDING_REVIEW
      ensures r.Ok? ==> r.value == if approve then DRAFT_APPROVED else DRAFT_REJECTED
      ensures draft == if r.Ok? then Some(PolicyDraft(old(draft).value.overrides, r.value)) else old(draft)
    {
      if draft.None? {
        return Err(NotFound);
      }
      if draft.value.status != PENDING_REVIEW {
        return Err(NotPending);
      }
      draft := Some(draft.value.(status := if approve then DRAFT_APPROVED else DRAFT_REJECTED));
      r := Ok(draft.value.status);
    }

    /** activatePolicy: merges an approved draft category by category and clears it. */
    method ActivatePolicy() returns (r: Result<Overrides, RetentionError>)
      requires Inv(Stored())
      modifies this`overrides, this`draft
      ensures Inv(Stored()) && Stored() == Step(old(Stored()), CallActivate)
      ensures r.Ok? <==> old(draft).Some? && old(draft).value.status == DRAFT_APPROVED
      ensures r.Ok? ==> r.value == overrides && draft == None
      ensures r.Ok? ==> MergedFrom(old(overrides), old(draft).value.overrides, overrides)
      ensures r.Err? ==> overrides == old(overrides) && draft == old(draft)
    {
      if draft.None? {
        return Err(NotFound);
      }
      if draft.value.status != DRAFT_APPROVED {
        return Err(NotApproved);
      }
      hide Inv, MergedFrom;
      MergeReads(overrides, draft.value.overrides);
      overrides := MergeDraft(overrides, draft.value.overrides);
      draft := None;
      r := Ok(overrides);
    }

    /** The loop of activatePolicy. */
    method MergeDraft(overrides: Overrides, changes: Overrides) returns (active: Overrides)
      ensures active == Merge(overrides, changes)
    {
      hide Merge, MergedOverride, MergedSoFar;
      MergeStarts(overrides, changes);
      active := overrides;
      var left := changes.Keys;
      while left != {}
        invariant left <= changes.Keys && MergedSoFar(overrides, changes, left, active)
        decreases |left|
      {
        var c: Category :| c in left;
        MergeNext(overrides, changes, left, active, c);
        if c in active {
          var current, change := active[c], changes[c];
          active := active[c := Override(
            if change.days.Some? then change.days else current.days,
            if change.behavior.Some? then change.behavior else current.behavior,
            if change.note.Some? then change.note else current.note)];
        } else {
          active := active[c := changes[c]];
        }
        left := left - {c};
      }
      MergeEnds(overrides, changes, active);
    }

    method PlaceLegalHold(c: nat) returns (r: Result<nat, RetentionError>)
      requires Inv(Stored())
      modifies this`holds, this`cases
      ensures Inv(Stored()) && Stored() == Step(old(Stored()), CallPlace(c))
      ensures r == if c >= |cases| then Err(NotFound) else Ok(|old(holds)|)
      ensures r.Ok? ==>
        && holds == old(holds) + [Hold(c, true)]
        && cases == old(cases)[c := old(cases)[c].(legalHold := true, retention := RETENTION_LEGAL_HOLD)]
      ensures r.Ok? ==> Held(holds, c) && forall now: int, days: nat :: Swept(cases[c], now, days) == cases[c]
    {
      StepKeepsInv(Stored(), CallPlace(c));
      if c >= |cases| {
        return Err(NotFound);
      }
      var id := |holds|;
      holds := holds + [Hold(c, true)];
      cases := cases[c := cases[c].(legalHold := true, retention := RETENTION_LEGAL_HOLD)];
      assert holds[id] == Hold(c, true);
      r := Ok(id);
    }

    method ReleaseLegalHold(h: nat) returns (r: Result<(), RetentionError>)
      requires Inv(Stored())
      modifies this`holds, this`cases
      ensures Inv(Stored()) && Stored() == Step(old(Stored()), CallRelease(h))
      ensures r == if h >= |holds| then Err(NotFound) else Ok(())
      ensures h < |holds| ==> !holds[h].active
      ensures r.Err? || !old(holds)[h].active ==> Stored() == old(Stored())
      ensures r.Ok? && old(holds)[h].active ==>
        var c := old(holds)[h].caseId;
        && holds == old(holds)[h := Hold(c, false)]
        && c < |old(cases)|
        && cases == if forall k :: 0 <= k < |holds| && k != h && holds[k].caseId == c ==> !holds[k].active
                    then old(cases)[c := old(cases)[c].(legalHold := false, retention := RETENTION_ACTIVE)] else old(cases)
    {
      StepKeepsInv(Stored(), CallRelease(h));
      if h >= |holds| {
        return Err(NotFound);
      }
      if !holds[h].active {
        return Ok(());
      }
      var c := holds[h].caseId;
      holds := holds[h := holds[h].(active := false)];
      if !Held(holds, c) {
        cases := cases[c := cases[c].(legalHold := false, retention := RETENTION_ACTIVE)];
      }
      r := Ok(());
    }

    /** softDeleteEligibleCases: case by case, skipping those flagged as held. */
    method SoftDeleteEligibleCases(now: int, days: nat) returns (softDeleted: nat, skipped: nat)
      modifies this`cases, this`records
      ensures Stored() == SoftDelete(old(Stored()), now, days)
      ensures |records| == |old(records)| + softDeleted + skipped
      ensures |cases| == |old(cases)| && forall c :: 0 <= c < |cases| ==>
        var was := old(cases)[c];
        cases[c] == if PastPeriod(was, now, days) && !was.legalHold
                    then was.(deletedAt := Some(now), retention := RETENTION_DELETED) else was
      ensures old(records) <= records && forall x :: x in records[|old(records)|..] <==>
        && x.caseId < |old(cases)| && PastPeriod(old(cases)[x.caseId], now, days)
        && x.action == if old(cases)[x.caseId].legalHold then SKIPPED_LEGAL_HOLD else SOFT_DELETED
      ensures softDeleted == Tally(old(cases), now, days, |old(cases)|, false)
      ensures skipped == Tally(old(cases), now, days, |old(cases)|, true)
    {
      var before := cases;
      softDeleted, skipped := 0, 0;
      for c := 0 to |before|
        invariant |cases| == |before|
        invariant forall k :: 0 <= k < c ==> cases[k] == Swept(before[k], now, days)
        invariant forall k :: c <= k < |before| ==> cases[k] == before[k]
        invariant records == old(records) + Recorded(before, now, days, c)
        invariant |records| == |old(records)| + softDeleted + skipped
        invariant softDeleted == Tally(before, now, days, c, false) && skipped == Tally(before, now, days, c, true)
      {
        if !Eligible(before[c], now, days) {
          continue;
        }
        if before[c].legalHold {
          skipped := skipped + 1;
          records := records + [SweepRecord(c, SKIPPED_LEGAL_HOLD)];
          continue;
        }
        cases := cases[c := before[c].(deletedAt := Some(now), retention := RETENTION_DELETED)];
        records := records + [SweepRecord(c, SOFT_DELETED)];
        softDeleted := softDeleted + 1;
      }
      assert cases == SweptCases(before, now, days);
      forall x: CaseRow {
        PastPeriodIsEligible(x, now, days);
      }
      RecordedMembers(before, now, days, |before|);
      assert records[|old(records)|..] == Recorded(before, now, days, |before|);
    }

    method ExecuteSweep(confirm: bool, categories: seq<Category>, now: int) returns (r: Result<seq<SummaryLine>, RetentionError>)
      requires Inv(Stored())
      modifies this
      ensures Inv(Stored()) && Stored() == Step(old(Stored()), CallSweep(confirm, categories, now))
      ensures r.Ok? <==> confirm
      ensures r.Ok? ==> |r.value| == |categories|
      ensures r.Ok? ==> forall i :: 0 <= i < |r.value| ==> LineAgrees(r.value[i], old(Stored()), categories[i])
      ensures r.Ok? ==> |records| == |old(records)| + Touched(r.value)
      ensures r.Err? ==> Stored() == old(Stored())
    {
      hide Effective, SoftDelete;
      CasePolicy(overrides);
      hide CasesDeletable, PastPeriod;
      StepKeepsInv(Stored(), CallSweep(confirm, categories, now));
      if !confirm {
        return Err(NotConfirmed);
      }
      var days := Effective(overrides, CASE_RECORD).days;
      var summary: seq<SummaryLine> := [];
      for i := 0 to |categories|
        invariant Stored() == Sweep(old(Stored()), categories, i, now)
        invariant overrides == old(overrides) && holds == old(holds) && draft == old(draft)
        invariant |summary| == i
        invariant forall k :: 0 <= k < i ==> LineAgrees(summary[k], old(Stored()), categories[k])
        invariant |records| == |old(records)| + Touched(summary)
      {
        ghost var earlier := summary;
        SweepIsOnly(old(Stored()), categories, i, now);
        if Effective(overrides, categories[i]).behavior != SOFT_DELETE {
          summary := summary + [SummaryLine(categories[i], 0, 0, true)];
        } else if categories[i] == CASE_RECORD {
          var softDeleted, skipped := SoftDeleteEligibleCases(now, days);
          summary := summary + [SummaryLine(categories[i], softDeleted, skipped, false)];
        } else {
          summary := summary + [SummaryLine(categories[i], 0, 0, true)];
        }
        assert summary[..i] == earlier;
      }
      r := Ok(summary);
    }
  }

  /** A summary line is about its category, and refuses it exactly when the sweep deletes no such records. */
  predicate LineAgrees(line: SummaryLine, db: Tables, c: Category) {
    && line.category == c && (line.refused <==> !(c == CASE_RECORD && CasesDeletable(db.overrides)))
    && (line.refused ==> line.softDeleted == 0 && line.skippedLegalHold == 0)
  }

  /** How many cases the lines of a summary account for. */
  function Touched(lines: seq<SummaryLine>): nat {
    if lines == [] then 0
    else
      var last := lines[|lines| - 1];
      Touched(lines[..|lines| - 1]) + last.softDeleted + last.skippedLegalHold
  }

  /** A closed case whose closing time lies more than that many days of 24 hours back. */
  predicate PastPeriod(x: CaseRow, now: int, days: nat) {
    x.closed && x.deletedAt == None && x.closedAt.Some? && x.closedAt.value + days * 24 * 60 * 60 * 1000 < now
  }

  lemma PastPeriodIsEligible(x: CaseRow, now: int, days: nat)
    ensures PastPeriod(x, now, days) <==> Eligible(x, now, days)
  {
    InDays(days);
  }

  lemma {:induction false} RecordedMembers(cases: seq<CaseRow>, now: int, days: nat, n: nat)
    requires n <= |cases|
    ensures forall x :: x in Recorded(cases, now, days, n) <==>
      && x.caseId < n && Eligible(cases[x.caseId], now, days)
      && x.action == if cases[x.caseId].legalHold then SKIPPED_LEGAL_HOLD else SOFT_DELETED
  {
    hide Eligible;
    if n > 0 {
      RecordedMembers(cases, now, days, n - 1);
    }
  }

  /** An entry leaves awards, audit logs and certificates of service kept for ever. */
  predicate Allowed(e: Entry) {
    e.category == AWARD || e.category == AUDIT_LOG || e.category == NOTICE_CERTIFICATE ==>
      e.change.behavior == None || e.change.behavior == Some(RETAIN_FOREVER)
  }

  lemma ForbiddenAmong(entries: seq<Entry>)
    ensures (forall i :: 0 <= i < |entries| ==> Allowed(entries[i])) <==> forall i :: 0 <= i < |entries| ==> !Forbidden(entries[i])
  {
    if !(forall i :: 0 <= i < |entries| ==> Allowed(entries[i])) {
      var i :| 0 <= i < |entries| && !Allowed(entries[i]);
      assert Forbidden(entries[i]);
    }
  }

  /** Entry i is the last of the first n for category c. */
  predicate LastFor(entries: seq<Entry>, n: nat, i: nat, c: Category)
    requires n <= |entries|
  {
    i < n && entries[i].category == c && forall j :: i < j < n ==> entries[j].category != c
  }

  /** A draft holds the categories its entries name, each with the last entry for it. */
  ghost predicate LastEntriesCount(entries: seq<Entry>, overrides: Overrides) {
    && (forall i :: 0 <= i < |entries| ==> entries[i].category in overrides)
    && (forall c :: c in overrides ==>
          exists i: nat :: LastFor(entries, |entries|, i, c) && overrides[c] == entries[i].change)
  }

  lemma {:induction false} LastDrafted(entries: seq<Entry>, n: nat, c: Category)
    requires n <= |entries|
    ensures c in Drafted(entries, n) ==>
      exists i: nat :: LastFor(entries, n, i, c) && Drafted(entries, n)[c] == entries[i].change
    ensures forall i :: 0 <= i < n && entries[i].category == c ==> c in Drafted(entries, n)
  {
    if n > 0 {
      LastDrafted(entries, n - 1, c);
      if entries[n - 1].category == c {
        assert LastFor(entries, n, n - 1, c);
      } else if c in Drafted(entries, n) {
        var i: nat :| LastFor(entries, n - 1, i, c) && Drafted(entries, n - 1)[c] == entries[i].change;
        assert LastFor(entries, n, i, c);
      }
    }
  }

  lemma DraftedCounts(entries: seq<Entry>)
    ensures LastEntriesCount(entries, Drafted(entries, |entries|))
  {
    hide Drafted, LastFor;
    forall c {
      LastDrafted(entries, |entries|, c);
    }
  }

  /** The merge with the categories in `left` still to come. */
  predicate MergedSoFar(active: Overrides, draft: Overrides, left: set<Category>, merged: Overrides) {
    && (forall c :: c in merged <==> c in active || (c in draft && c !in left))
    && (forall c :: c in merged ==>
          merged[c] == if c in draft && c !in left then MergedOverride(active, draft, c) else active[c])
  }

  lemma MergeStarts(active: Overrides, draft: Overrides)
    ensures MergedSoFar(active, draft, draft.Keys, active)
  {
  }

  lemma MergeEnds(active: Overrides, draft: Overrides, merged: Overrides)
    requires MergedSoFar(active, draft, {}, merged)
    ensures merged == Merge(active, draft)
  {
    hide MergedOverride;
    var all := Merge(active, draft);
    assert merged.Keys == all.Keys;
    assert forall c :: c in merged ==> merged[c] == all[c];
  }

  lemma MergeNext(active: Overrides, draft: Overrides, left: set<Category>, merged: Overrides, c: Category)
    requires MergedSoFar(active, draft, left, merged) && c in left && c in draft
    ensures var next :=
        if c in merged
        then Override(if draft[c].days.Some? then draft[c].days else merged[c].days,
                      if draft[c].behavior.Some? then draft[c].behavior else merged[c].behavior,
                      if draft[c].note.Some? then draft[c].note else merged[c].note)
        else draft[c];
      MergedSoFar(active, draft, left - {c}, merged[c := next])
  {
  }

  /** Field by field, the draft where it says something, and what was active otherwise. */
  predicate MergedFrom(active: Overrides, draft: Overrides, merged: Overrides) {
    && merged.Keys == active.Keys + draft.Keys
    && forall c :: c in merged ==>
         && merged[c].days == (if c in draft && (draft[c].days.Some? || c !in active) then draft[c].days else active[c].days)
         && merged[c].behavior
            == (if c in draft && (draft[c].behavior.Some? || c !in active) then draft[c].behavior else active[c].behavior)
         && merged[c].note == (if c in draft && (draft[c].note.Some? || c !in active) then draft[c].note else active[c].note)
  }

  lemma MergeReads(active: Overrides, draft: Overrides)
    ensures MergedFrom(active, draft, Merge(active, draft))
  {
  }

  lemma EffectiveReads(overrides: Overrides, c: Category)
    ensures var p := Effective(overrides, c);
      && p.days == (if c in overrides && overrides[c].days.Some? then overrides[c].days.value else DefaultPolicy(c).days)
      && p.behavior == (if c == AWARD || c == AUDIT_LOG || c == NOTICE_CERTIFICATE then RETAIN_FOREVER
                        else if c in overrides && overrides[c].behavior.Some? then overrides[c].behavior.value
                        else DefaultPolicy(c).behavior)
  {
    hide DefaultPolicy;
  }

  /** How many of the first n cases a sweep finds eligible, held or free. */
  function Tally(cases: seq<CaseRow>, now: int, days: nat, n: nat, held: bool): nat
    requires n <= |cases|
  {
    if n == 0 then 0
    else
      Tally(cases, now, days, n - 1, held)
      + if Eligible(cases[n - 1], now, days) && cases[n - 1].legalHold == held then 1 else 0
  }

  /** The default with its override, before the safeguard. */
  function Unclamped(overrides: Overrides, c: Category): CategoryPolicy {
    var base := DefaultPolicy(c);
    if c !in overrides then base
    else
      CategoryPolicy(Or(overrides[c].days, base.days), Or(overrides[c].behavior, base.behavior), OrElse(overrides[c].note, base.note))
  }

  function ClampedAmong(safeguarded: seq<Category>, overrides: Overrides, c: Category): CategoryPolicy {
    if c in safeguarded then Unclamped(overrides, c).(behavior := RETAIN_FOREVER) else Unclamped(overrides, c)
  }

  lemma ClampedIsEffective(overrides: Overrides, c: Category)
    ensures ClampedAmong([AWARD, AUDIT_LOG, NOTICE_CERTIFICATE], overrides, c) == Effective(overrides, c)
  {
    hide DefaultPolicy;
  }
}
