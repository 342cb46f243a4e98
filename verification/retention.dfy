/**
 Records retention: the reviewed policy, legal holds, and sweeps that soft-delete closed cases.
 Row numbers serve as ids and instants are milliseconds.
 */
module Retention {
  import opened Wrappers

  // ---- The policy ----

  datatype Category =
    | CASE_RECORD | FILING | EVIDENCE_DOCUMENT | AWARD | NOTICE_CERTIFICATE | AUDIT_LOG
    | EMAIL_EVIDENCE | COMPLIANCE_SCREENING | USER_ACCOUNT | AUTH_LOG | CMS_CONTENT

  datatype Behavior = RETAIN_FOREVER | SOFT_DELETE | REVIEW | ARCHIVE | LEGAL_HOLD_REQUIRED

  datatype CategoryPolicy = CategoryPolicy(days: nat, behavior: Behavior, note: Option<string>)

  datatype Override = Override(days: Option<nat>, behavior: Option<Behavior>, note: Option<string>)

  const YEAR := 365

  const RETENTION_CATEGORIES :=
    [CASE_RECORD, FILING, EVIDENCE_DOCUMENT, AWARD, NOTICE_CERTIFICATE, AUDIT_LOG,
     EMAIL_EVIDENCE, COMPLIANCE_SCREENING, USER_ACCOUNT, AUTH_LOG, CMS_CONTENT]

  predicate Safeguarded(c: Category) {
    c == AWARD || c == AUDIT_LOG || c == NOTICE_CERTIFICATE
  }

  function DefaultPolicy(c: Category): CategoryPolicy {
    match c
    case CASE_RECORD => CategoryPolicy(10 * YEAR, SOFT_DELETE, None)
    case FILING => CategoryPolicy(10 * YEAR, SOFT_DELETE, None)
    case EVIDENCE_DOCUMENT => CategoryPolicy(10 * YEAR, SOFT_DELETE, None)
    case AWARD => CategoryPolicy(0, RETAIN_FOREVER, None)
    case NOTICE_CERTIFICATE => CategoryPolicy(0, RETAIN_FOREVER, None)
    case AUDIT_LOG => CategoryPolicy(0, RETAIN_FOREVER, None)
    case EMAIL_EVIDENCE => CategoryPolicy(7 * YEAR, REVIEW, None)
    case COMPLIANCE_SCREENING => CategoryPolicy(5 * YEAR, REVIEW, None)
    case USER_ACCOUNT => CategoryPolicy(3 * YEAR, REVIEW, None)
    case AUTH_LOG => CategoryPolicy(YEAR, REVIEW, None)
    case CMS_CONTENT => CategoryPolicy(0, REVIEW, None)
  }

  type Overrides = map<Category, Override>

  function Or<T>(first: Option<T>, otherwise: T): T {
    if first.Some? then first.value else otherwise
  }

  function OrElse<T>(first: Option<T>, otherwise: Option<T>): Option<T> {
    if first.Some? then first else otherwise
  }

  /** getPolicy: the default with its override, and safeguarded categories kept for ever whatever is stored. */
  function Effective(overrides: Overrides, c: Category): CategoryPolicy {
    var base := DefaultPolicy(c);
    var o := if c in overrides then overrides[c] else Override(None, None, None);
    CategoryPolicy(
      Or(o.days, base.days),
      if Safeguarded(c) then RETAIN_FOREVER else Or(o.behavior, base.behavior),
      OrElse(o.note, base.note))
  }

  function MergedOverride(active: Overrides, draft: Overrides, c: Category): Override
    requires c in draft
  {
    if c !in active then draft[c]
    else
      Override(OrElse(draft[c].days, active[c].days), OrElse(draft[c].behavior, active[c].behavior),
               OrElse(draft[c].note, active[c].note))
  }

  /** activatePolicy: field by field, the draft wins where it says something. */
  function Merge(active: Overrides, draft: Overrides): Overrides {
    active + map c | c in draft :: MergedOverride(active, draft, c)
  }

  datatype DraftStatus = DRAFT | PENDING_REVIEW | DRAFT_APPROVED | DRAFT_REJECTED

  datatype PolicyDraft = PolicyDraft(overrides: Overrides, status: DraftStatus)

  datatype Entry = Entry(category: Category, change: Override)

  predicate Forbidden(e: Entry) {
    Safeguarded(e.category) && e.change.behavior.Some? && e.change.behavior.value != RETAIN_FOREVER
  }

  /** The overrides the first n entries of a draft make; a later entry for a category replaces an earlier one. */
  function Drafted(entries: seq<Entry>, n: nat): Overrides
    requires n <= |entries|
  {
    if n == 0 then map[] else Drafted(entries, n - 1)[entries[n - 1].category := entries[n - 1].change]
  }

  // ---- Cases and holds ----

  datatype RetentionStatus = RETENTION_ACTIVE | RETENTION_LEGAL_HOLD | RETENTION_DELETED

  /** A case; `closed` says that its stage is one of the terminal ones. */
  datatype CaseRow = CaseRow(
    closed: bool, closedAt: Option<int>, deletedAt: Option<int>, legalHold: bool, retention: RetentionStatus)

  datatype Hold = Hold(caseId: nat, active: bool)

  datatype SweepAction = SKIPPED_LEGAL_HOLD | SOFT_DELETED

  datatype SweepRecord = SweepRecord(caseId: nat, action: SweepAction)

  datatype Tables = Tables(
    cases: seq<CaseRow>, holds: seq<Hold>, overrides: Overrides, draft: Option<PolicyDraft>, records: seq<SweepRecord>)

  const EMPTY := Tables([], [], map[], None, [])

  predicate Linked(db: Tables) {
    forall h :: 0 <= h < |db.holds| ==> db.holds[h].caseId < |db.cases|
  }

  predicate Held(holds: seq<Hold>, c: nat) {
    exists h :: 0 <= h < |holds| && holds[h].caseId == c && holds[h].active
  }

  function PlaceHold(db: Tables, c: nat): Tables
    requires c < |db.cases|
  {
    db.(holds := db.holds + [Hold(c, true)],
        cases := db.cases[c := db.cases[c].(legalHold := true, retention := RETENTION_LEGAL_HOLD)])
  }

  /** releaseLegalHold: the case is set free only when no other hold on it is active. */
  function ReleaseHold(db: Tables, h: nat): Tables
    requires Linked(db) && h < |db.holds|
  {
    if !db.holds[h].active then db
    else
      var c := db.holds[h].caseId;
      var holds := db.holds[h := db.holds[h].(active := false)];
      db.(holds := holds,
          cases := if Held(holds, c) then db.cases
                   else db.cases[c := db.cases[c].(legalHold := false, retention := RETENTION_ACTIVE)])
  }

  // ---- Sweeps ----

  const DAY_MS := 86400000

  predicate Eligible(x: CaseRow, now: int, days: nat) {
    x.closed && x.deletedAt.None? && x.closedAt.Some? && x.closedAt.value < now - days * DAY_MS
  }

  function Swept(x: CaseRow, now: int, days: nat): CaseRow {
    if Eligible(x, now, days) && !x.legalHold then x.(deletedAt := Some(now), retention := RETENTION_DELETED) else x
  }

  /** What a sweep records of the first n cases. */
  function Recorded(cases: seq<CaseRow>, now: int, days: nat, n: nat): seq<SweepRecord>
    requires n <= |cases|
  {
    if n == 0 then []
    else
      var x := cases[n - 1];
      Recorded(cases, now, days, n - 1)
      + if Eligible(x, now, days) then [SweepRecord(n - 1, if x.legalHold then SKIPPED_LEGAL_HOLD else SOFT_DELETED)] else []
  }

  function SweptCases(cases: seq<CaseRow>, now: int, days: nat): (after: seq<CaseRow>)
    ensures |after| == |cases| && forall c :: 0 <= c < |cases| ==> after[c] == Swept(cases[c], now, days)
  {
    seq(|cases|, c requires 0 <= c < |cases| => Swept(cases[c], now, days))
  }

  /** softDeleteEligibleCases. */
  function SoftDelete(db: Tables, now: int, days: nat): Tables {
    db.(cases := SweptCases(db.cases, now, days), records := db.records + Recorded(db.cases, now, days, |db.cases|))
  }

  /** Only case records under SOFT_DELETE are ever acted on. */
  predicate ActedOn(db: Tables, c: Category) {
    c == CASE_RECORD && Effective(db.overrides, c).behavior == SOFT_DELETE
  }

  /** executeSweep over the first n of the chosen categories. */
  function Sweep(db: Tables, categories: seq<Category>, n: nat, now: int): Tables
    requires n <= |categories|
  {
    if n == 0 then db
    else
      var before := Sweep(db, categories, n - 1, now);
      if ActedOn(db, categories[n - 1]) then SoftDelete(before, now, Effective(db.overrides, CASE_RECORD).days) else before
  }

  // ---- Calls ----

  datatype RetentionError = SafeguardedCategory | NotFound | NotPending | NotApproved | NotConfirmed

  /** The calls of the service, and the cases other services open and close. */
  datatype Call =
    | CallOpen
    | CallClose(caseId: nat, closed: bool, closedAt: Option<int>)
    | CallDraft(entries: seq<Entry>, submit: bool)
    | CallReview(approve: bool)
    | CallActivate
    | CallPlace(caseId: nat)
    | CallRelease(hold: nat)
    | CallSweep(confirm: bool, categories: seq<Category>, now: int)

  /** What a call answers: the new tables, or the check that refused it. */
  function Outcome(db: Tables, call: Call): Result<Tables, RetentionError>
    requires Linked(db)
  {
    match call
    case CallOpen => Ok(db.(cases := db.cases + [CaseRow(false, None, None, false, RETENTION_ACTIVE)]))
    case CallClose(c, closed, closedAt) =>
      if c >= |db.cases| then Err(NotFound)
      else Ok(db.(cases := db.cases[c := db.cases[c].(closed := closed, closedAt := closedAt)]))
    case CallDraft(entries, submit) =>
      if exists i :: 0 <= i < |entries| && Forbidden(entries[i]) then Err(SafeguardedCategory)
      else Ok(db.(draft := Some(PolicyDraft(Drafted(entries, |entries|), if submit then PENDING_REVIEW else DRAFT))))
    case CallReview(approve) =>
      if db.draft.None? then Err(NotFound)
      else if db.draft.value.status != PENDING_REVIEW then Err(NotPending)
      else Ok(db.(draft := Some(db.draft.value.(status := if approve then DRAFT_APPROVED else DRAFT_REJECTED))))
    case CallActivate =>
      if db.draft.None? then Err(NotFound)
      else if db.draft.value.status != DRAFT_APPROVED then Err(NotApproved)
      else Ok(db.(overrides := Merge(db.overrides, db.draft.value.overrides), draft := None))
    case CallPlace(c) => if c >= |db.cases| then Err(NotFound) else Ok(PlaceHold(db, c))
    case CallRelease(h) => if h >= |db.holds| then Err(NotFound) else Ok(ReleaseHold(db, h))
    case CallSweep(confirm, categories, now) =>
      if !confirm then Err(NotConfirmed) else Ok(Sweep(db, categories, |categories|, now))
  }

  function Step(db: Tables, call: Call): Tables
    requires Linked(db)
  {
    var out := Outcome(db, call);
    if out.Ok? then out.value else db
  }

  // ---- Holds over a run ----

  /** A case is flagged exactly when a hold on it is active. */
  predicate FlagsAgree(db: Tables) {
    forall c :: 0 <= c < |db.cases| ==> (db.cases[c].legalHold <==> Held(db.holds, c))
  }

  predicate Inv(db: Tables) {
    Linked(db) && FlagsAgree(db)
  }

  lemma PlaceKeeps(db: Tables, c: nat)
    requires Inv(db) && c < |db.cases|
    ensures Inv(PlaceHold(db, c))
  {
    var after := PlaceHold(db, c);
    forall e | 0 <= e < |db.cases|
      ensures after.cases[e].legalHold <==> Held(after.holds, e)
    {
      if Held(db.holds, e) {
        var h :| 0 <= h < |db.holds| && db.holds[h].caseId == e && db.holds[h].active;
        assert after.holds[h] == db.holds[h];
      }
      assert after.holds[|db.holds|] == Hold(c, true);
    }
  }

  lemma ReleaseKeeps(db: Tables, h: nat)
    requires Inv(db) && h < |db.holds|
    ensures Inv(ReleaseHold(db, h))
  {
    var after := ReleaseHold(db, h);
    forall e | 0 <= e < |db.cases| && e != db.holds[h].caseId
      ensures Held(after.holds, e) <==> Held(db.holds, e)
    {
      if Held(db.holds, e) {
        var k :| 0 <= k < |db.holds| && db.holds[k].caseId == e && db.holds[k].active;
        assert after.holds[k] == db.holds[k];
      }
    }
    if db.holds[h].active {
      assert Held(db.holds, db.holds[h].caseId);
    }
  }

  /** A sweep changes cases only, and of those no flag. */
  predicate SweepOnly(a: Tables, b: Tables) {
    && b == a.(cases := b.cases, records := b.records)
    && |b.cases| == |a.cases|
    && forall c :: 0 <= c < |a.cases| ==> b.cases[c].legalHold == a.cases[c].legalHold
  }

  lemma {:induction false} SweepIsOnly(db: Tables, categories: seq<Category>, n: nat, now: int)
    requires n <= |categories|
    ensures SweepOnly(db, Sweep(db, categories, n, now))
  {
    if n > 0 {
      SweepIsOnly(db, categories, n - 1, now);
    }
  }

  lemma StepKeepsInv(db: Tables, call: Call)
    requires Inv(db)
    ensures Inv(Step(db, call))
  {
    hide Sweep, PlaceHold, ReleaseHold, Merge, Drafted, Held;
    match call
    case CallOpen => NewCaseFree(db);
    case CallPlace(c) => if c < |db.cases| { PlaceKeeps(db, c); }
    case CallRelease(h) => if h < |db.holds| { ReleaseKeeps(db, h); }
    case CallSweep(_, categories, now) => SweepIsOnly(db, categories, |categories|, now);
    case _ =>
  }

  lemma NewCaseFree(db: Tables)
    requires Linked(db)
    ensures !Held(db.holds, |db.cases|)
  {
  }

  /** The tables after the calls, starting from nothing. */
  function Run(calls: seq<Call>): (db: Tables)
    ensures Inv(db)
  {
    if calls == [] then EMPTY
    else
      var before := Run(calls[..|calls| - 1]);
      StepKeepsInv(before, calls[|calls| - 1]);
      Step(before, calls[|calls| - 1])
  }

  // ---- What a sweep deletes ----

  lemma {:induction false} SweepOnce(db: Tables, categories: seq<Category>, n: nat, now: int)
    requires n <= |categories|
    ensures Sweep(db, categories, n, now).cases
         == if exists i :: 0 <= i < n && ActedOn(db, categories[i])
            then SweptCases(db.cases, now, Effective(db.overrides, CASE_RECORD).days) else db.cases
  {
    hide Effective;
    if n > 0 {
      SweepOnce(db, categories, n - 1, now);
      SweptTwice(db.cases, now, Effective(db.overrides, CASE_RECORD).days);
    }
  }

  lemma SweptTwice(cases: seq<CaseRow>, now: int, days: nat)
    ensures SweptCases(SweptCases(cases, now, days), now, days) == SweptCases(cases, now, days)
  {
  }

  /** The override of a category in force, if it says anything. */
  function OverrideOf(overrides: Overrides, c: Category): Override {
    if c in overrides then overrides[c] else Override(None, None, None)
  }

  /** The days a closed case is kept: as the override says, ten years of 365 days otherwise. */
  function CaseDays(overrides: Overrides): nat {
    var days := OverrideOf(overrides, CASE_RECORD).days;
    if days.Some? then days.value else 3650
  }

  /** Case records are soft-deleted unless an override says otherwise. */
  predicate CasesDeletable(overrides: Overrides) {
    var behavior := OverrideOf(overrides, CASE_RECORD).behavior;
    behavior == None || behavior == Some(SOFT_DELETE)
  }

  lemma CasePolicy(overrides: Overrides)
    ensures Effective(overrides, CASE_RECORD).days == CaseDays(overrides)
    ensures Effective(overrides, CASE_RECORD).behavior == SOFT_DELETE <==> CasesDeletable(overrides)
  {
  }

  /**
   A sweep deletes exactly the closed cases without an active hold whose closing time lies more than the days of
   24 hours of their period back, and only when confirmed, asked to and allowed to by the policy.
   */
  lemma SweepDeletesExactly(calls: seq<Call>, confirm: bool, categories: seq<Category>, now: int, c: nat)
    requires c < |Run(calls).cases|
    ensures var db := Run(calls);
      var after := Step(db, CallSweep(confirm, categories, now));
      var was := db.cases[c];
      && |after.cases| == |db.cases|
      && (after.cases[c] != was
          <==> && confirm && CASE_RECORD in categories && CasesDeletable(db.overrides)
               && was.closed && was.deletedAt == None && was.closedAt.Some?
               && was.closedAt.value + CaseDays(db.overrides) * 24 * 60 * 60 * 1000 < now
               && forall h :: 0 <= h < |db.holds| && db.holds[h].caseId == c ==> !db.holds[h].active)
      && (after.cases[c] != was ==> after.cases[c] == was.(deletedAt := Some(now), retention := RETENTION_DELETED))
  {
    var db := Run(calls);
    hide Run, Effective, CaseDays, CasesDeletable;
    CasePolicy(db.overrides);
    SweepOnce(db, categories, |categories|, now);
    InDays(CaseDays(db.overrides));
    assert db.cases[c].legalHold <==> Held(db.holds, c);
  }

  lemma InDays(days: nat)
    ensures days * DAY_MS == days * 24 * 60 * 60 * 1000
  {
  }

  /** A case under an active hold survives every call, whatever the policy says. */
  lemma HeldCaseIsNotDeleted(calls: seq<Call>, call: Call, c: nat)
    requires c < |Run(calls).cases| && Held(Run(calls).holds, c)
    ensures var db := Run(calls);
      c < |Step(db, call).cases| && Step(db, call).cases[c].deletedAt == db.cases[c].deletedAt
  {
    var db := Run(calls);
    if call.CallSweep? {
      SweepDeletesExactly(calls, call.confirm, call.categories, call.now, c);
    } else {
      hide Run, Merge, Drafted, Held, Sweep;
    }
  }

  /** A second sweep at the same instant deletes nothing more. */
  lemma SecondSweepDeletesNothing(calls: seq<Call>, first: seq<Category>, second: seq<Category>, now: int)
    requires CASE_RECORD in first
    ensures var once := Step(Run(calls), CallSweep(true, first, now));
      Linked(once) && Step(once, CallSweep(true, second, now)).cases == once.cases
  {
    var db := Run(calls);
    hide Run, Effective;
    var once := Step(db, CallSweep(true, first, now));
    SweepIsOnly(db, first, |first|, now);
    SweepOnce(db, first, |first|, now);
    SweepOnce(once, second, |second|, now);
    SweptTwice(db.cases, now, Effective(db.overrides, CASE_RECORD).days);
  }

  /** Awards, audit logs and certificates of service are kept for ever under all stored overrides, and nothing else is. */
  lemma SafeguardHolds(c: Category)
    ensures c == AWARD || c == AUDIT_LOG || c == NOTICE_CERTIFICATE
       <==> forall o :: Effective(o, c).behavior == RETAIN_FOREVER
  {
    if !(c == AWARD || c == AUDIT_LOG || c == NOTICE_CERTIFICATE) {
      var o: Overrides := map[c := Override(None, Some(REVIEW), None)];
      assert Effective(o, c).behavior == REVIEW;
    }
  }

  /** Without overrides, which records a sweep may delete, and after how many years of 365 days. */
  lemma DefaultsRead(c: Category)
    ensures var p := Effective(map[], c);
      && (p.behavior == SOFT_DELETE <==> c in {CASE_RECORD, FILING, EVIDENCE_DOCUMENT})
      && (p.behavior == RETAIN_FOREVER <==> c in {AWARD, NOTICE_CERTIFICATE, AUDIT_LOG})
      && (p.behavior == REVIEW <==> c in {EMAIL_EVIDENCE, COMPLIANCE_SCREENING, USER_ACCOUNT, AUTH_LOG, CMS_CONTENT})
      && (c in {CASE_RECORD, FILING, EVIDENCE_DOCUMENT} ==> p.days == 3650)
      && (c == EMAIL_EVIDENCE ==> p.days == 2555) && (c == COMPLIANCE_SCREENING ==> p.days == 1825)
      && (c == USER_ACCOUNT ==> p.days == 1095) && (c == AUTH_LOG ==> p.days == 365)
      && (p.behavior == RETAIN_FOREVER || c == CMS_CONTENT ==> p.days == 0)
  {
  }

  /** Activating a draft changes the effective policy exactly where the draft says something, safeguards aside. */
  lemma ActivationTakesEffect(active: Overrides, draft: Overrides, c: Category)
    ensures var before, after := Effective(active, c), Effective(Merge(active, draft), c);
      && after.days == (if c in draft && draft[c].days.Some? then draft[c].days.value else before.days)
      && after.note == (if c in draft && draft[c].note.Some? then draft[c].note else before.note)
      && after.behavior
         == (if c in draft && draft[c].behavior.Some? && !Safeguarded(c) then draft[c].behavior.value else before.behavior)
  {
    hide DefaultPolicy;
  }

  // ---- Only reviewed policy becomes active ----

  /** The overrides of the drafts that were activated, in order. */
  function Activated(calls: seq<Call>): seq<Overrides> {
    if calls == [] then []
    else
      var before := Run(calls[..|calls| - 1]);
      Activated(calls[..|calls| - 1])
      + if calls[|calls| - 1].CallActivate? && Outcome(before, CallActivate).Ok? then [before.draft.value.overrides] else []
  }

  /** The overrides of the drafts approved on review, in order. */
  function Approvals(calls: seq<Call>): seq<Overrides> {
    if calls == [] then []
    else
      var before := Run(calls[..|calls| - 1]);
      Approvals(calls[..|calls| - 1])
      + if calls[|calls| - 1] == CallReview(true) && Outcome(before, CallReview(true)).Ok?
        then [before.draft.value.overrides] else []
  }

  function MergeAll(drafts: seq<Overrides>): Overrides {
    if drafts == [] then map[] else Merge(MergeAll(drafts[..|drafts| - 1]), drafts[|drafts| - 1])
  }

  /** s is what is left of t when some of its elements are dropped. */
  predicate Subsequence<T(==)>(s: seq<T>, t: seq<T>) {
    || s == []
    || (t != [] && Subsequence(s, t[..|t| - 1]))
    || (t != [] && s[|s| - 1] == t[|t| - 1] && Subsequence(s[..|s| - 1], t[..|t| - 1]))
  }

  lemma {:induction false} SubsequenceWeakens<T>(s: seq<T>, t: seq<T>, x: T)
    requires Subsequence(s, t)
    ensures Subsequence(s, t + [x]) && Subsequence(s + [x], t + [x])
  {
    assert (t + [x])[..|t|] == t && (s + [x])[..|s|] == s;
  }

  /** While an approved draft waits, its approval is the last one and no activation has used it. */
  predicate Accounts(overrides: Overrides, draft: Option<PolicyDraft>, approvals: seq<Overrides>, activated: seq<Overrides>) {
    && overrides == MergeAll(activated)
    && (if draft.Some? && draft.value.status == DRAFT_APPROVED
        then approvals != [] && approvals[|approvals| - 1] == draft.value.overrides
             && Subsequence(activated, approvals[..|approvals| - 1])
        else Subsequence(activated, approvals))
  }

  predicate AccountsOf(db: Tables, approvals: seq<Overrides>, activated: seq<Overrides>) {
    Accounts(db.overrides, db.draft, approvals, activated)
  }

  lemma ApprovalAccounts(overrides: Overrides, draft: PolicyDraft, approvals: seq<Overrides>, activated: seq<Overrides>)
    requires Accounts(overrides, Some(draft), approvals, activated) && draft.status == PENDING_REVIEW
    ensures Accounts(overrides, Some(draft.(status := DRAFT_APPROVED)), approvals + [draft.overrides], activated)
  {
    assert (approvals + [draft.overrides])[..|approvals|] == approvals;
  }

  lemma ActivationAccounts(overrides: Overrides, draft: PolicyDraft, approvals: seq<Overrides>, activated: seq<Overrides>)
    requires Accounts(overrides, Some(draft), approvals, activated) && draft.status == DRAFT_APPROVED
    ensures Accounts(Merge(overrides, draft.overrides), None, approvals, activated + [draft.overrides])
  {
    var x := draft.overrides;
    assert approvals == approvals[..|approvals| - 1] + [x];
    SubsequenceWeakens(activated, approvals[..|approvals| - 1], x);
    assert (activated + [x])[..|activated|] == activated;
  }

  /** A draft that is replaced or rejected leaves its approval, if any, unused. */
  lemma ReplacementAccounts(overrides: Overrides, draft: Option<PolicyDraft>, next: PolicyDraft,
                            approvals: seq<Overrides>, activated: seq<Overrides>)
    requires Accounts(overrides, draft, approvals, activated) && next.status != DRAFT_APPROVED
    ensures Accounts(overrides, Some(next), approvals, activated)
  {
    if draft.Some? && draft.value.status == DRAFT_APPROVED {
      var x := draft.value.overrides;
      assert approvals == approvals[..|approvals| - 1] + [x];
      SubsequenceWeakens(activated, approvals[..|approvals| - 1], x);
    }
  }

  lemma {:induction false} ActivationsAccounted(calls: seq<Call>)
    ensures AccountsOf(Run(calls), Approvals(calls), Activated(calls))
  {
    if calls != [] {
      var n := |calls| - 1;
      ActivationsAccounted(calls[..n]);
      var before := Run(calls[..n]);
      var approvals, activated := Approvals(calls[..n]), Activated(calls[..n]);
      hide Inv, Merge, Accounts, PlaceHold, ReleaseHold, Sweep, Drafted;
      PolicyAside(before, calls[n]);
      assert approvals + [] == approvals && activated + [] == activated;
      if Outcome(before, calls[n]).Ok? {
        match calls[n]
        case CallDraft(_, _) =>
          ReplacementAccounts(before.overrides, before.draft, Step(before, calls[n]).draft.value, approvals, activated);
        case CallReview(approve) =>
          if approve {
            ApprovalAccounts(before.overrides, before.draft.value, approvals, activated);
          } else {
            ReplacementAccounts(before.overrides, before.draft, Step(before, calls[n]).draft.value, approvals, activated);
          }
        case CallActivate =>
          ActivationAccounts(before.overrides, before.draft.value, approvals, activated);
          assert Activated(calls) == activated + [before.draft.value.overrides];
        case _ =>
      }
    }
  }

  /** Opening and closing cases, holds and sweeps leave policy and draft alone. */
  lemma PolicyAside(db: Tables, call: Call)
    requires Linked(db)
    ensures !call.CallActivate? ==> Step(db, call).overrides == db.overrides
    ensures !call.CallActivate? && !call.CallDraft? && !call.CallReview? ==> Step(db, call).draft == db.draft
  {
    hide Merge, Drafted, Sweep;
    if call.CallSweep? {
      SweepIsOnly(db, call.categories, |call.categories|, call.now);
    }
  }

  /**
   The active policy is the merge of the activated drafts, and each of those was approved as it stood,
   in the same order, one approval serving one activation.
   */
  lemma OnlyReviewedPolicyIsActive(calls: seq<Call>)
    ensures Run(calls).overrides == MergeAll(Activated(calls))
    ensures Subsequence(Activated(calls), Approvals(calls))
  {
    ActivationsAccounted(calls);
    hide Run, Activated, Approvals, Subsequence, MergeAll;
    var approvals := Approvals(calls);
    if approvals != [] {
      var last := approvals[|approvals| - 1];
      assert approvals == approvals[..|approvals| - 1] + [last];
      if Subsequence(Activated(calls), approvals[..|approvals| - 1]) {
        SubsequenceWeakens(Activated(calls), approvals[..|approvals| - 1], last);
      }
    }
  }

  // ---- A hold on a deleted case ----

  /** A hold was placed on case c when it had been deleted. */
  predicate HeldSinceDeletion(calls: seq<Call>, c: nat) {
    if calls == [] then false
    else
      var before := Run(calls[..|calls| - 1]);
      HeldSinceDeletion(calls[..|calls| - 1], c)
      || (calls[|calls| - 1] == CallPlace(c) && c < |before.cases| && before.cases[c].deletedAt.Some?)
  }

  /** The retention status of case c against its holds, its deletion, and whether a hold came after that. */
  predicate StatusReads(db: Tables, c: nat, heldSince: bool)
    requires c < |db.cases|
  {
    var x := db.cases[c];
    && (x.retention == RETENTION_LEGAL_HOLD <==> Held(db.holds, c))
    && (x.retention == RETENTION_DELETED <==> x.deletedAt.Some? && !heldSince)
    && (heldSince ==> x.deletedAt.Some?)
  }

  lemma PlaceReads(db: Tables, d: nat, c: nat, heldSince: bool)
    requires Inv(db) && c < |db.cases| && d < |db.cases| && StatusReads(db, c, heldSince)
    ensures StatusReads(PlaceHold(db, d), c, heldSince || (d == c && db.cases[c].deletedAt.Some?))
  {
    var after := PlaceHold(db, d);
    PlaceKeeps(db, d);
    assert after.cases[c].legalHold <==> Held(after.holds, c);
    assert db.cases[c].legalHold <==> Held(db.holds, c);
    hide Held;
  }

  lemma ReleaseReads(db: Tables, h: nat, c: nat, heldSince: bool)
    requires Inv(db) && c < |db.cases| && h < |db.holds| && StatusReads(db, c, heldSince)
    ensures StatusReads(ReleaseHold(db, h), c, heldSince)
  {
    var after := ReleaseHold(db, h);
    ReleaseKeeps(db, h);
    if db.holds[h].active {
      assert Held(db.holds, db.holds[h].caseId);
    }
    assert after.cases[c].legalHold <==> Held(after.holds, c);
    assert db.cases[c].legalHold <==> Held(db.holds, c);
    hide Held;
  }

  lemma SweepReads(db: Tables, categories: seq<Category>, now: int, c: nat, heldSince: bool)
    requires Inv(db) && c < |db.cases| && StatusReads(db, c, heldSince)
    ensures |Sweep(db, categories, |categories|, now).cases| == |db.cases|
    ensures StatusReads(Sweep(db, categories, |categories|, now), c, heldSince)
  {
    SweepIsOnly(db, categories, |categories|, now);
    SweepOnce(db, categories, |categories|, now);
    hide Sweep, Held, Effective;
  }

  lemma StepReads(db: Tables, call: Call, c: nat, heldSince: bool)
    requires Inv(db) && c < |Step(db, call).cases|
    requires if c < |db.cases| then StatusReads(db, c, heldSince) else !heldSince
    ensures StatusReads(
      Step(db, call), c, heldSince || (call == CallPlace(c) && c < |db.cases| && db.cases[c].deletedAt.Some?))
  {
    hide Sweep, Merge, Drafted, Held;
    match call
    case CallOpen => NewCaseFree(db);
    case CallPlace(d) => if d < |db.cases| { PlaceReads(db, d, c, heldSince); }
    case CallRelease(h) => if h < |db.holds| { ReleaseReads(db, h, c, heldSince); }
    case CallSweep(_, categories, now) =>
      SweepIsOnly(db, categories, |categories|, now);
      SweepReads(db, categories, now, c, heldSince);
    case _ =>
  }

  lemma {:induction false} NotHeldBefore(calls: seq<Call>, c: nat)
    requires c >= |Run(calls).cases|
    ensures !HeldSinceDeletion(calls, c)
  {
    if calls != [] {
      CasesStay(Run(calls[..|calls| - 1]), calls[|calls| - 1]);
      NotHeldBefore(calls[..|calls| - 1], c);
    }
  }

  lemma CasesStay(db: Tables, call: Call)
    requires Linked(db)
    ensures |db.cases| <= |Step(db, call).cases|
  {
    hide Sweep, Merge, Drafted;
    if call.CallSweep? {
      SweepIsOnly(db, call.categories, |call.categories|, call.now);
    }
  }

  /**
   Over every run a deleted case reads as deleted exactly when no hold was placed on it since,
   and any case reads as held exactly while a hold on it is active.
   */
  lemma {:induction false} DeletedReadsDeletedUnlessHeld(calls: seq<Call>, c: nat)
    requires c < |Run(calls).cases|
    ensures StatusReads(Run(calls), c, HeldSinceDeletion(calls, c))
  {
    var n := |calls| - 1;
    var before := Run(calls[..n]);
    if c < |before.cases| {
      DeletedReadsDeletedUnlessHeld(calls[..n], c);
    } else {
      NotHeldBefore(calls[..n], c);
    }
    StepReads(before, calls[n], c, HeldSinceDeletion(calls[..n], c));
  }

  const DELETE_THEN_RELEASE :=
    [CallOpen, CallClose(0, true, Some(0)), CallSweep(true, [CASE_RECORD], 4000 * DAY_MS), CallPlace(0), CallRelease(0)]

  lemma SweptOne()
    ensures Run(DELETE_THEN_RELEASE[..3]).cases
         == [CaseRow(true, Some(0), Some(4000 * DAY_MS), false, RETENTION_DELETED)]
    ensures Run(DELETE_THEN_RELEASE[..3]).holds == []
  {
    var calls := DELETE_THEN_RELEASE;
    hide Inv, Sweep;
    assert calls[..3][..2] == calls[..2];
    assert calls[..2][..1] == [CallOpen];
    assert [CallOpen][..0] == [];
    assert Run([]) == EMPTY;
    assert Run([CallOpen]) == EMPTY.(cases := [CaseRow(false, None, None, false, RETENTION_ACTIVE)]);
    var closed := Run(calls[..2]);
    assert closed == Step(Run([CallOpen]), CallClose(0, true, Some(0)));
    assert closed == EMPTY.(cases := [CaseRow(true, Some(0), None, false, RETENTION_ACTIVE)]);
    SweepIsOnly(closed, [CASE_RECORD], 1, 4000 * DAY_MS);
    SweepOnce(closed, [CASE_RECORD], 1, 4000 * DAY_MS);
    assert ActedOn(closed, [CASE_RECORD][0]);
  }

  /** So a deleted case that is held and released afterwards carries a deletion time and an active status. */
  lemma ReleasedHoldRevivesDeletedCase()
    ensures var db := Run(DELETE_THEN_RELEASE);
      |db.cases| == 1 && db.cases[0].deletedAt.Some? && db.cases[0].retention == RETENTION_ACTIVE
  {
    var calls := DELETE_THEN_RELEASE;
    SweptOne();
    hide Inv, Sweep;
    assert calls[..5] == calls && calls[..5][..4] == calls[..4] && calls[..4][..3] == calls[..3];
    var swept := Run(calls[..3]);
    var held := Run(calls[..4]);
    assert held == Step(swept, CallPlace(0));
    assert held.holds == [Hold(0, true)];
    assert Run(calls) == Step(held, CallRelease(0));
  }
}
