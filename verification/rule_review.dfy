/**
 Counsel's review of rule versions: chapter reviews, sign-off, gated activation, archiving
 and the pinning of cases, as calls on the tables of RuleVersions.
 */
module RuleReview {
  import opened Wrappers
  import opened RuleBook
  import opened RuleVersions

  // ---- Review summaries ----

  /** The review rows the chapters of version v call for. */
  function ChapterKeys(chapters: seq<Chapter>, v: nat): set<(nat, nat)> {
    set c: nat | c < |chapters| && chapters[c].versionId == v :: (v, c)
  }

  function ReviewKeys(reviews: map<(nat, nat), ChapterReviewStatus>, v: nat): set<(nat, nat)> {
    set k | k in reviews && k.0 == v
  }

  function KeysWith(reviews: map<(nat, nat), ChapterReviewStatus>, v: nat, status: ChapterReviewStatus): set<(nat, nat)> {
    set k | k in reviews && k.0 == v && reviews[k] == status
  }

  datatype Summary = Summary(
    chapterCount: nat, reviewed: nat, unreviewed: nat, hasBlockers: bool, hasChangeRequests: bool, clearForSignOff: bool)

  /** chapterSummary: everything is decided by counting rows. */
  function ChapterSummary(db: Tables, v: nat): Summary {
    var chapterCount := |ChapterKeys(db.chapters, v)|;
    var reviewed := |ReviewKeys(db.chapterReviews, v)|;
    var unreviewed := if chapterCount > reviewed then chapterCount - reviewed else 0;
    var hasBlockers := |KeysWith(db.chapterReviews, v, BLOCKER)| > 0;
    var hasChangeRequests := |KeysWith(db.chapterReviews, v, CHANGE_REQUESTED)| > 0;
    Summary(chapterCount, reviewed, unreviewed, hasBlockers, hasChangeRequests,
            chapterCount > 0 && unreviewed == 0 && !hasBlockers && !hasChangeRequests)
  }

  predicate Blocking(status: ChapterReviewStatus) {
    status == BLOCKER || status == CHANGE_REQUESTED
  }

  predicate HasChapter(db: Tables, v: nat) {
    exists c :: 0 <= c < |db.chapters| && db.chapters[c].versionId == v
  }

  /** Every chapter of version v was reviewed and none of the reviews blocks. */
  predicate EveryChapterCleared(db: Tables, v: nat) {
    forall c :: 0 <= c < |db.chapters| && db.chapters[c].versionId == v ==>
      (v, c) in db.chapterReviews && !Blocking(db.chapterReviews[(v, c)])
  }

  predicate ReviewsPlaced(db: Tables) {
    forall k :: k in db.chapterReviews ==> k.1 < |db.chapters| && db.chapters[k.1].versionId == k.0
  }

  lemma SubsetOfSameSize<T>(a: set<T>, b: set<T>)
    requires a <= b && |a| >= |b|
    ensures a == b
  {
    assert |b - a| == |b| - |a|;
    assert b - a == {};
  }

  lemma SubsetIsSmaller<T>(a: set<T>, b: set<T>)
    requires a <= b
    ensures |a| <= |b|
  {
    assert |b - a| == |b| - |a|;
  }

  /** The counts are clear exactly when the version has a chapter and every chapter was cleared. */
  lemma ClearCountsMeanCleared(db: Tables, v: nat)
    requires ReviewsPlaced(db)
    ensures ChapterSummary(db, v).clearForSignOff <==> HasChapter(db, v) && EveryChapterCleared(db, v)
  {
    var chapters, reviews := ChapterKeys(db.chapters, v), ReviewKeys(db.chapterReviews, v);
    assert reviews <= chapters;
    SubsetIsSmaller(reviews, chapters);
    if ChapterSummary(db, v).clearForSignOff {
      SubsetOfSameSize(reviews, chapters);
      var key :| key in chapters;
      assert HasChapter(db, v);
      assert KeysWith(db.chapterReviews, v, BLOCKER) == {} && KeysWith(db.chapterReviews, v, CHANGE_REQUESTED) == {};
      forall c | 0 <= c < |db.chapters| && db.chapters[c].versionId == v
        ensures (v, c) in db.chapterReviews && !Blocking(db.chapterReviews[(v, c)])
      {
        assert (v, c) in chapters;
        assert (v, c) !in KeysWith(db.chapterReviews, v, BLOCKER);
        assert (v, c) !in KeysWith(db.chapterReviews, v, CHANGE_REQUESTED);
      }
    }
    if HasChapter(db, v) && EveryChapterCleared(db, v) {
      var c: nat :| c < |db.chapters| && db.chapters[c].versionId == v;
      assert (v, c) in chapters;
      assert reviews == chapters;
      assert KeysWith(db.chapterReviews, v, BLOCKER) == {};
      assert KeysWith(db.chapterReviews, v, CHANGE_REQUESTED) == {};
    }
  }

  predicate SameReviews(a: Tables, b: Tables, v: nat) {
    && ChapterKeys(a.chapters, v) == ChapterKeys(b.chapters, v)
    && (forall k :: k in a.chapterReviews && k.0 == v ==> k in b.chapterReviews && b.chapterReviews[k] == a.chapterReviews[k])
    && (forall k :: k in b.chapterReviews && k.0 == v ==> k in a.chapterReviews)
  }

  lemma SummaryKept(a: Tables, b: Tables, v: nat)
    requires SameReviews(a, b, v)
    ensures ChapterSummary(b, v) == ChapterSummary(a, v)
  {
    assert ReviewKeys(a.chapterReviews, v) == ReviewKeys(b.chapterReviews, v);
    assert KeysWith(a.chapterReviews, v, BLOCKER) == KeysWith(b.chapterReviews, v, BLOCKER);
    assert KeysWith(a.chapterReviews, v, CHANGE_REQUESTED) == KeysWith(b.chapterReviews, v, CHANGE_REQUESTED);
  }

  /** recomputeReviewState: the state the reviews call for. */
  function NextState(s: Summary, signedOff: bool): ReviewState {
    if signedOff && s.clearForSignOff then APPROVED
    else if s.hasBlockers then BLOCKED
    else if s.hasChangeRequests then CHANGES_REQUESTED
    else if s.reviewed == 0 then NOT_STARTED
    else UNDER_REVIEW
  }

  /** The version after recomputeReviewState: a sign-off is revoked when the reviews no longer clear it. */
  function Recomputed(version: Version, s: Summary): Version {
    version.(
      reviewState := NextState(s, version.signedOffAt.Some?),
      signedOffAt := if s.clearForSignOff then version.signedOffAt else None)
  }

  function Recompute(db: Tables, v: nat): Tables
    requires v < |db.versions|
  {
    db.(versions := db.versions[v := Recomputed(db.versions[v], ChapterSummary(db, v))])
  }

  /** summarise: whether the rule-level review items clear a version. */
  predicate ClearToActivate(db: Tables, v: nat) {
    && |RulesOf(db, v)| > 0
    && |set k | k in db.reviewItems && k.0 == v && db.reviewItems[k] == OK| == |RulesOf(db, v)|
  }

  // ---- Calls ----

  datatype ReviewError =
    | NotFound | DuplicateName | UnplacedRule | NotDraft | NothingToEdit | NullColumn | NotClear | NotSignedOff
    | StaleReview | StillActive | AlreadyPinned

  datatype Call =
    | CallDraft(source: nat, name: string)
    | CallEdit(rule: nat, patch: Patch)
    | CallReviewRule(version: nat, rule: nat, verdict: RuleReviewStatus)
    | CallReviewChapter(version: nat, chapter: nat, status: ChapterReviewStatus)
    | CallSignOff(version: nat, now: int)
    | CallActivate(version: nat)
    | CallArchive(version: nat)
    | CallPin(caseId: nat, version: nat)

  predicate NameTaken(versions: seq<Version>, ruleSetId: nat, name: string) {
    exists i :: 0 <= i < |versions| && versions[i].ruleSetId == ruleSetId && versions[i].name == name
  }

  function Edit(db: Tables, rule: nat, patch: Patch): Tables
    requires rule < |db.rules|
  {
    var r := db.rules[rule];
    db.(rules := db.rules[rule := r.(wording := Patched(r.wording, patch))],
        reviewItems := db.reviewItems[(r.versionId, rule) := PENDING])
  }

  function ReviewChapter(db: Tables, v: nat, chapter: nat, status: ChapterReviewStatus): Tables
    requires v < |db.versions|
  {
    Recompute(db.(chapterReviews := db.chapterReviews[(v, chapter) := status]), v)
  }

  function SignOff(db: Tables, v: nat, now: int): Tables
    requires v < |db.versions|
  {
    db.(versions := db.versions[v := db.versions[v].(reviewState := APPROVED, signedOffAt := Some(now))])
  }

  function Retired(version: Version, ruleSetId: nat): Version {
    if version.ruleSetId == ruleSetId && version.status == ACTIVE then version.(status := SUPERSEDED) else version
  }

  function Superseded(versions: seq<Version>, ruleSetId: nat): (after: seq<Version>)
    ensures |after| == |versions|
    ensures forall i :: 0 <= i < |after| ==> after[i] == Retired(versions[i], ruleSetId)
  {
    seq(|versions|, i requires 0 <= i < |versions| => Retired(versions[i], ruleSetId))
  }

  function Activate(db: Tables, v: nat): Tables
    requires v < |db.versions|
  {
    var others := Superseded(db.versions, db.versions[v].ruleSetId);
    db.(versions := others[v := others[v].(status := ACTIVE)])
  }

  function Archive(db: Tables, v: nat): Tables
    requires v < |db.versions|
  {
    db.(versions := db.versions[v := db.versions[v].(status := ARCHIVED)])
  }

  /** What a call answers: the new tables, or the check that refused it. */
  function Outcome(db: Tables, call: Call): Result<Tables, ReviewError>
    requires Linked(db)
  {
    match call
    case CallDraft(source, name) =>
      if source >= |db.versions| then Err(NotFound)
      else if NameTaken(db.versions, db.versions[source].ruleSetId, name) then Err(DuplicateName)
      else if !Placed(db, source) then Err(UnplacedRule)
      else Ok(CreateDraft(db, source, name))
    case CallEdit(rule, patch) =>
      if rule >= |db.rules| then Err(NotFound)
      else if db.versions[db.rules[rule].versionId].status != DRAFT then Err(NotDraft)
      else if patch == NO_EDIT then Err(NothingToEdit)
      else if patch.title.Null? || patch.text.Null? || patch.publicVisible.Null? then Err(NullColumn)
      else Ok(Edit(db, rule, patch))
    case CallReviewRule(v, rule, verdict) =>
      if rule >= |db.rules| || db.rules[rule].versionId != v then Err(NotFound)
      else if db.versions[v].status != DRAFT then Err(NotDraft)
      else Ok(db.(reviewItems := db.reviewItems[(v, rule) := verdict]))
    case CallReviewChapter(v, chapter, status) =>
      if chapter >= |db.chapters| || db.chapters[chapter].versionId != v then Err(NotFound)
      else if db.versions[v].status != DRAFT then Err(NotDraft)
      else Ok(ReviewChapter(db, v, chapter, status))
    case CallSignOff(v, now) =>
      if v >= |db.versions| then Err(NotFound)
      else if db.versions[v].status != DRAFT then Err(NotDraft)
      else if !ChapterSummary(db, v).clearForSignOff then Err(NotClear)
      else Ok(SignOff(db, v, now))
    case CallActivate(v) =>
      if v >= |db.versions| then Err(NotFound)
      else if db.versions[v].status != DRAFT then Err(NotDraft)
      else if db.versions[v].reviewState != APPROVED || db.versions[v].signedOffAt.None? then Err(NotSignedOff)
      else if !ChapterSummary(db, v).clearForSignOff then Err(StaleReview)
      else Ok(Activate(db, v))
    case CallArchive(v) =>
      if v >= |db.versions| then Err(NotFound)
      else if db.versions[v].status == ACTIVE then Err(StillActive)
      else if db.versions[v].status == ARCHIVED then Ok(db)
      else Ok(Archive(db, v))
    case CallPin(caseId, v) =>
      if caseId in db.pins then Err(AlreadyPinned)
      else if v >= |db.versions| then Err(NotFound)
      else if db.versions[v].status == DRAFT then Err(NotDraft)
      else Ok(db.(pins := PinOnce(db.pins, caseId, v)))
  }

  function Step(db: Tables, call: Call): Tables
    requires Linked(db)
  {
    var out := Outcome(db, call);
    if out.Ok? then out.value else db
  }

  // ---- Invariants ----

  /** The stored review state of version v is what its reviews and sign-off call for, and a sign-off is backed by the counts. */
  predicate StateAgrees(db: Tables, v: nat)
    requires v < |db.versions|
  {
    && db.versions[v].reviewState == NextState(ChapterSummary(db, v), db.versions[v].signedOffAt.Some?)
    && (db.versions[v].signedOffAt.Some? ==> ChapterSummary(db, v).clearForSignOff)
  }

  predicate StatesAgree(db: Tables) {
    forall v :: 0 <= v < |db.versions| ==> StateAgrees(db, v)
  }

  predicate OneActive(versions: seq<Version>) {
    forall i, j :: 0 <= i < j < |versions| && versions[i].status == ACTIVE && versions[j].status == ACTIVE ==>
      versions[i].ruleSetId != versions[j].ruleSetId
  }

  predicate UniqueNames(versions: seq<Version>) {
    forall i, j :: 0 <= i < j < |versions| && versions[i].ruleSetId == versions[j].ruleSetId ==>
      versions[i].name != versions[j].name
  }

  predicate PinsPublished(db: Tables) {
    forall c :: c in db.pins ==> db.pins[c] < |db.versions| && db.versions[db.pins[c]].status != DRAFT
  }

  predicate Inv(db: Tables) {
    && Linked(db)
    && UniqueNumbers(db.rules)
    && ReviewsPlaced(db)
    && StatesAgree(db)
    && OneActive(db.versions)
    && UniqueNames(db.versions)
    && PinsPublished(db)
  }

  /** Freshly loaded versions satisfy the invariant: no reviews, no sign-offs, no pins, one active version a rule set. */
  lemma LoadedInv(db: Tables)
    requires Linked(db) && UniqueNumbers(db.rules) && OneActive(db.versions) && UniqueNames(db.versions)
    requires db.chapterReviews == map[] && db.pins == map[]
    requires forall v :: 0 <= v < |db.versions| ==>
      db.versions[v].reviewState == NOT_STARTED && db.versions[v].signedOffAt == None
    ensures Inv(db)
  {
    forall v | 0 <= v < |db.versions|
      ensures StateAgrees(db, v)
    {
      assert ReviewKeys(db.chapterReviews, v) == {};
      assert KeysWith(db.chapterReviews, v, BLOCKER) == {};
      assert KeysWith(db.chapterReviews, v, CHANGE_REQUESTED) == {};
    }
  }

  lemma ClonedRulesUnique(db: Tables, source: nat)
    requires UniqueNumbers(db.rules) && Placed(db, source)
    ensures UniqueNumbers(ClonedRules(db, source, |db.versions|))
  {
    var ids := RulesOf(db, source);
    var rows := ClonedRules(db, source, |db.versions|);
    OwnedDistinct(RuleOwners(db.rules), source);
    hide RulesOf, Placed, ChaptersOf, Position;
    forall j, k | 0 <= j < k < |rows|
      ensures rows[j].number != rows[k].number
    {
      assert ids[j] != ids[k];
    }
  }

  lemma DraftStates(db: Tables, source: nat, name: string)
    requires Inv(db) && source < |db.versions| && Placed(db, source)
    ensures StatesAgree(CreateDraft(db, source, name))
  {
    hide Placed, ClonedRules, ClonedDefinitions, RulesOf, PendingItems, NextState, ChapterSummary;
    var after := CreateDraft(db, source, name);
    var draft := |db.versions|;
    forall v | 0 <= v < draft
      ensures StateAgrees(after, v)
    {
      assert StateAgrees(db, v);
      assert ChapterKeys(db.chapters, v) == ChapterKeys(after.chapters, v);
      SummaryKept(db, after, v);
    }
    NothingReviewed(after, draft);
  }

  lemma NothingReviewed(db: Tables, v: nat)
    requires forall k :: k in db.chapterReviews ==> k.0 != v
    requires v < |db.versions| && db.versions[v].reviewState == NOT_STARTED && db.versions[v].signedOffAt == None
    ensures StateAgrees(db, v)
  {
    assert ReviewKeys(db.chapterReviews, v) == {};
    assert KeysWith(db.chapterReviews, v, BLOCKER) == {};
    assert KeysWith(db.chapterReviews, v, CHANGE_REQUESTED) == {};
  }

  lemma DraftLinked(db: Tables, source: nat, name: string)
    requires Linked(db) && source < |db.versions| && Placed(db, source)
    ensures Linked(CreateDraft(db, source, name))
  {
    hide Placed, RulesOf, PendingItems, ChaptersOf;
  }

  lemma DraftNumbers(db: Tables, source: nat, name: string)
    requires Linked(db) && UniqueNumbers(db.rules) && source < |db.versions| && Placed(db, source)
    ensures UniqueNumbers(CreateDraft(db, source, name).rules)
  {
    ClonedRulesUnique(db, source);
    hide Placed, RulesOf, PendingItems, ChaptersOf, ClonedDefinitions, ClonedChapters;
  }

  lemma DraftKeepsInv(db: Tables, source: nat, name: string)
    requires Inv(db) && source < |db.versions| && Placed(db, source)
    requires !NameTaken(db.versions, db.versions[source].ruleSetId, name)
    ensures Inv(CreateDraft(db, source, name))
  {
    DraftStates(db, source, name);
    DraftNumbers(db, source, name);
    DraftLinked(db, source, name);
    hide Placed, RulesOf, PendingItems, StatesAgree, ChaptersOf, Linked, UniqueNumbers, ClonedRules, ClonedDefinitions;
  }

  /** A call that touches neither chapters nor reviews leaves the states of the versions it keeps. */
  lemma StatesKept(a: Tables, b: Tables)
    requires StatesAgree(a) && b.chapters == a.chapters && b.chapterReviews == a.chapterReviews
    requires |b.versions| == |a.versions|
    requires forall v :: 0 <= v < |a.versions| ==>
      b.versions[v].reviewState == a.versions[v].reviewState && b.versions[v].signedOffAt == a.versions[v].signedOffAt
    ensures StatesAgree(b)
  {
    hide ChapterSummary, NextState;
    forall v | 0 <= v < |b.versions|
      ensures StateAgrees(b, v)
    {
      assert StateAgrees(a, v);
      SummaryKept(a, b, v);
    }
  }

  lemma ReviewKeepsStates(db: Tables, v: nat, chapter: nat, status: ChapterReviewStatus)
    requires StatesAgree(db) && v < |db.versions|
    ensures StatesAgree(ReviewChapter(db, v, chapter, status))
  {
    hide ChapterSummary;
    var after := ReviewChapter(db, v, chapter, status);
    var reviewed := db.(chapterReviews := db.chapterReviews[(v, chapter) := status]);
    SummaryKept(reviewed, after, v);
    forall w | 0 <= w < |db.versions| && w != v
      ensures StateAgrees(after, w)
    {
      assert StateAgrees(db, w);
      SummaryKept(db, after, w);
    }
  }

  lemma SignOffKeepsStates(db: Tables, v: nat, now: int)
    requires StatesAgree(db) && v < |db.versions| && ChapterSummary(db, v).clearForSignOff
    ensures StatesAgree(SignOff(db, v, now))
  {
    hide ChapterSummary;
    var after := SignOff(db, v, now);
    forall w | 0 <= w < |db.versions|
      ensures StateAgrees(after, w)
    {
      assert StateAgrees(db, w);
      SummaryKept(db, after, w);
    }
  }

  lemma EditKeepsInv(db: Tables, rule: nat, patch: Patch)
    requires Inv(db) && rule < |db.rules|
    ensures Inv(Edit(db, rule, patch))
  {
    hide StatesAgree, Patched;
    StatesKept(db, Edit(db, rule, patch));
  }

  lemma ReviewKeepsInv(db: Tables, v: nat, chapter: nat, status: ChapterReviewStatus)
    requires Inv(db) && v < |db.versions| && chapter < |db.chapters| && db.chapters[chapter].versionId == v
    ensures Inv(ReviewChapter(db, v, chapter, status))
  {
    hide StatesAgree, ChapterSummary, NextState, UniqueNumbers;
    ReviewKeepsStates(db, v, chapter, status);
  }

  lemma SignOffKeepsInv(db: Tables, v: nat, now: int)
    requires Inv(db) && v < |db.versions| && ChapterSummary(db, v).clearForSignOff
    ensures Inv(SignOff(db, v, now))
  {
    hide StatesAgree, ChapterSummary, NextState, UniqueNumbers;
    SignOffKeepsStates(db, v, now);
  }

  lemma ActivateKeepsInv(db: Tables, v: nat)
    requires Inv(db) && v < |db.versions|
    ensures Inv(Activate(db, v))
  {
    hide StatesAgree, UniqueNumbers;
    StatesKept(db, Activate(db, v));
  }

  lemma ArchiveKeepsInv(db: Tables, v: nat)
    requires Inv(db) && v < |db.versions|
    ensures Inv(Archive(db, v))
  {
    hide StatesAgree, UniqueNumbers;
    StatesKept(db, Archive(db, v));
  }

  /** Every call keeps the invariant. */
  lemma StepKeepsInv(db: Tables, call: Call)
    requires Inv(db)
    ensures Inv(Step(db, call))
  {
    hide UniqueNumbers, ReviewsPlaced, StatesAgree, OneActive, UniqueNames, ChapterSummary, CreateDraft, Patched;
    if Outcome(db, call).Ok? {
      match call
      case CallDraft(source, name) => DraftKeepsInv(db, source, name);
      case CallEdit(rule, patch) => EditKeepsInv(db, rule, patch);
      case CallReviewRule(v, rule, verdict) => RowsAsideKeepInv(db, Step(db, call));
      case CallReviewChapter(v, chapter, status) => ReviewKeepsInv(db, v, chapter, status);
      case CallSignOff(v, now) => SignOffKeepsInv(db, v, now);
      case CallActivate(v) => ActivateKeepsInv(db, v);
      case CallArchive(v) => if db.versions[v].status != ARCHIVED { ArchiveKeepsInv(db, v); }
      case CallPin(caseId, v) => RowsAsideKeepInv(db, Step(db, call));
    }
  }

  lemma RowsAsideKeepInv(db: Tables, after: Tables)
    requires Inv(db) && PinsPublished(after)
    requires after == db.(reviewItems := after.reviewItems, pins := after.pins)
    ensures Inv(after)
  {
    hide StatesAgree, UniqueNumbers;
    StatesKept(db, after);
  }

  // ---- Runs ----

  /** The tables after the calls. */
  function Run(db: Tables, calls: seq<Call>): (after: Tables)
    requires Inv(db)
    ensures Inv(after)
  {
    if calls == [] then db
    else
      var before := Run(db, calls[..|calls| - 1]);
      StepKeepsInv(before, calls[|calls| - 1]);
      Step(before, calls[|calls| - 1])
  }

  /** Sign-off is recorded exactly in state APPROVED, and then every chapter was reviewed and cleared. */
  lemma SignedOffMeansCleared(db: Tables, calls: seq<Call>, v: nat)
    requires Inv(db) && v < |Run(db, calls).versions|
    ensures var after := Run(db, calls);
      && (after.versions[v].signedOffAt.Some? <==> after.versions[v].reviewState == APPROVED)
      && (after.versions[v].signedOffAt.Some? ==> HasChapter(after, v) && EveryChapterCleared(after, v))
  {
    var after := Run(db, calls);
    hide ChapterSummary, Run, HasChapter, EveryChapterCleared;
    assert StateAgrees(after, v);
    ClearCountsMeanCleared(after, v);
  }

  /** Some chapter of version v has a review of that status. */
  predicate SomeReview(db: Tables, v: nat, status: ChapterReviewStatus) {
    exists k :: k in db.chapterReviews && k.0 == v && db.chapterReviews[k] == status
  }

  lemma CountsSay(db: Tables, v: nat)
    ensures ChapterSummary(db, v).hasBlockers <==> SomeReview(db, v, BLOCKER)
    ensures ChapterSummary(db, v).hasChangeRequests <==> SomeReview(db, v, CHANGE_REQUESTED)
    ensures ChapterSummary(db, v).reviewed == 0 <==> forall k :: k in db.chapterReviews ==> k.0 != v
  {
    var blockers, changes := KeysWith(db.chapterReviews, v, BLOCKER), KeysWith(db.chapterReviews, v, CHANGE_REQUESTED);
    assert blockers != {} <==> SomeReview(db, v, BLOCKER) by {
      if blockers != {} { var k :| k in blockers; }
      if SomeReview(db, v, BLOCKER) {
        var k :| k in db.chapterReviews && k.0 == v && db.chapterReviews[k] == BLOCKER;
        assert k in blockers;
      }
    }
    assert changes != {} <==> SomeReview(db, v, CHANGE_REQUESTED) by {
      if changes != {} { var k :| k in changes; }
      if SomeReview(db, v, CHANGE_REQUESTED) {
        var k :| k in db.chapterReviews && k.0 == v && db.chapterReviews[k] == CHANGE_REQUESTED;
        assert k in changes;
      }
    }
    var reviews := ReviewKeys(db.chapterReviews, v);
    assert forall k :: k in db.chapterReviews && k.0 == v ==> k in reviews;
  }

  /** Over every run the review state of a version without sign-off says what its reviews are. */
  lemma ReviewStateMeans(db: Tables, calls: seq<Call>, v: nat)
    requires Inv(db) && v < |Run(db, calls).versions| && Run(db, calls).versions[v].signedOffAt.None?
    ensures var after := Run(db, calls);
      match after.versions[v].reviewState
      case APPROVED => false
      case BLOCKED => SomeReview(after, v, BLOCKER)
      case CHANGES_REQUESTED => SomeReview(after, v, CHANGE_REQUESTED) && !SomeReview(after, v, BLOCKER)
      case NOT_STARTED => forall k :: k in after.chapterReviews ==> k.0 != v
      case UNDER_REVIEW =>
        && !SomeReview(after, v, CHANGE_REQUESTED) && !SomeReview(after, v, BLOCKER)
        && exists k :: k in after.chapterReviews && k.0 == v
  {
    var after := Run(db, calls);
    hide ChapterSummary, Run;
    assert StateAgrees(after, v);
    CountsSay(after, v);
  }

  /** The re-check at activation never refuses: a draft goes live exactly when it was signed off. */
  lemma ActivationNeverStale(db: Tables, calls: seq<Call>, v: nat)
    requires Inv(db)
    ensures var after := Run(db, calls);
      && Outcome(after, CallActivate(v)) != Err(StaleReview)
      && (Outcome(after, CallActivate(v)).Ok?
          <==> v < |after.versions| && after.versions[v].status == DRAFT && after.versions[v].signedOffAt.Some?)
  {
    hide ChapterSummary, Run, Activate;
    var after := Run(db, calls);
    if v < |after.versions| {
      assert StateAgrees(after, v);
    }
  }

  // ---- What never changes ----

  function Rank(status: VersionStatus): nat {
    match status
    case DRAFT => 0
    case ACTIVE => 1
    case SUPERSEDED => 2
    case ARCHIVED => 3
  }

  /** Versions keep their place and name, and their status only moves forward. */
  predicate VersionsAdvance(a: seq<Version>, b: seq<Version>) {
    && |a| <= |b|
    && forall v :: 0 <= v < |a| ==>
      && b[v].ruleSetId == a[v].ruleSetId && b[v].name == a[v].name
      && Rank(a[v].status) <= Rank(b[v].status)
  }

  predicate IsLive(versions: seq<Version>, ruleSetId: nat) {
    exists v :: 0 <= v < |versions| && versions[v].ruleSetId == ruleSetId && versions[v].status == ACTIVE
  }

  ghost predicate StillLive(a: seq<Version>, b: seq<Version>) {
    forall s: nat :: IsLive(a, s) ==> IsLive(b, s)
  }

  predicate Published(db: Tables, v: nat) {
    v < |db.versions| && db.versions[v].status != DRAFT
  }

  /** Chapters and definitions are only added, for new versions and new rules. */
  predicate ContentGrows(a: Tables, b: Tables) {
    && a.chapters <= b.chapters && a.definitions <= b.definitions
    && (forall i :: |a.chapters| <= i < |b.chapters| ==> b.chapters[i].versionId >= |a.versions|)
    && (forall i :: |a.definitions| <= i < |b.definitions| ==> b.definitions[i].ruleId >= |a.rules|)
  }

  /** Rules are only added, for new versions; those there change nothing but their wording, and that only in a draft. */
  predicate RulesKept(a: Tables, b: Tables) {
    && |a.rules| <= |b.rules|
    && (forall i :: |a.rules| <= i < |b.rules| ==> b.rules[i].versionId >= |a.versions|)
    && (forall i :: 0 <= i < |a.rules| ==> b.rules[i] == a.rules[i].(wording := b.rules[i].wording))
    && (forall i :: 0 <= i < |a.rules| ==> Published(a, a.rules[i].versionId) ==> b.rules[i] == a.rules[i])
  }

  predicate PinsStay(a: Tables, b: Tables) {
    forall c :: c in a.pins ==> c in b.pins && b.pins[c] == a.pins[c]
  }

  /** The chapter reviews of a published version are final. */
  predicate ReviewsFinal(a: Tables, b: Tables) {
    && (forall k :: k in a.chapterReviews && Published(a, k.0) ==>
          k in b.chapterReviews && b.chapterReviews[k] == a.chapterReviews[k])
    && (forall k :: k in b.chapterReviews && Published(a, k.0) ==> k in a.chapterReviews)
  }

  ghost predicate Evolves(a: Tables, b: Tables) {
    && VersionsAdvance(a.versions, b.versions)
    && StillLive(a.versions, b.versions)
    && ContentGrows(a, b)
    && RulesKept(a, b)
    && PinsStay(a, b)
    && ReviewsFinal(a, b)
  }

  lemma RulesKeptTransitively(a: Tables, b: Tables, c: Tables)
    requires Linked(a) && Linked(b) && VersionsAdvance(a.versions, b.versions) && RulesKept(a, b) && RulesKept(b, c)
    ensures RulesKept(a, c)
  {
    forall i | 0 <= i < |a.rules| && Published(a, a.rules[i].versionId)
      ensures c.rules[i] == a.rules[i]
    {
      assert Published(b, b.rules[i].versionId);
    }
  }

  lemma ReviewsFinalTransitively(a: Tables, b: Tables, c: Tables)
    requires VersionsAdvance(a.versions, b.versions) && ReviewsFinal(a, b) && ReviewsFinal(b, c)
    ensures ReviewsFinal(a, c)
  {
  }

  lemma EvolvesTransitively(a: Tables, b: Tables, c: Tables)
    requires Linked(a) && Linked(b) && Evolves(a, b) && Evolves(b, c)
    ensures Evolves(a, c)
  {
    RulesKeptTransitively(a, b, c);
    ReviewsFinalTransitively(a, b, c);
    hide IsLive, Linked, RulesKept, ReviewsFinal;
    assert |a.rules| <= |b.rules| by { RulesGrow(a, b); }
  }

  lemma RulesGrow(a: Tables, b: Tables)
    requires RulesKept(a, b)
    ensures |a.rules| <= |b.rules|
  {
  }

  lemma ActivationEvolves(db: Tables, v: nat)
    requires v < |db.versions| && db.versions[v].status == DRAFT
    ensures Evolves(db, Activate(db, v))
  {
    var after := Activate(db, v).versions;
    forall s: nat | IsLive(db.versions, s)
      ensures IsLive(after, s)
    {
      var w :| 0 <= w < |db.versions| && db.versions[w].ruleSetId == s && db.versions[w].status == ACTIVE;
      assert after[if s == db.versions[v].ruleSetId then v else w].status == ACTIVE;
    }
  }

  /** A call that keeps every status keeps the live rule sets. */
  lemma SameStatusesStillLive(a: seq<Version>, b: seq<Version>)
    requires VersionsAdvance(a, b)
    requires forall v :: 0 <= v < |a| && a[v].status == ACTIVE ==> b[v].status == ACTIVE
    ensures StillLive(a, b)
  {
    forall s: nat | IsLive(a, s)
      ensures IsLive(b, s)
    {
      var w :| 0 <= w < |a| && a[w].ruleSetId == s && a[w].status == ACTIVE;
      assert b[w].status == ACTIVE;
    }
  }

  lemma DraftEvolves(db: Tables, source: nat, name: string)
    requires Linked(db) && source < |db.versions| && Placed(db, source)
    ensures Evolves(db, CreateDraft(db, source, name))
  {
    hide Placed, RulesOf, ChaptersOf, PendingItems, Linked, StillLive;
    SameStatusesStillLive(db.versions, CreateDraft(db, source, name).versions);
  }

  lemma EditEvolves(db: Tables, rule: nat, patch: Patch)
    requires rule < |db.rules| && !Published(db, db.rules[rule].versionId)
    ensures Evolves(db, Edit(db, rule, patch))
  {
    hide StillLive, Patched;
    SameStatusesStillLive(db.versions, db.versions);
  }

  lemma ReviewEvolves(db: Tables, v: nat, chapter: nat, status: ChapterReviewStatus)
    requires v < |db.versions| && db.versions[v].status == DRAFT
    ensures Evolves(db, ReviewChapter(db, v, chapter, status))
  {
    hide StillLive, ChapterSummary, NextState;
    SameStatusesStillLive(db.versions, ReviewChapter(db, v, chapter, status).versions);
  }

  /** A call that only advances statuses, records a sign-off, or writes review items and pins. */
  lemma MarksEvolve(a: Tables, b: Tables)
    requires b == a.(versions := b.versions, reviewItems := b.reviewItems, pins := b.pins)
    requires VersionsAdvance(a.versions, b.versions) && PinsStay(a, b)
    requires forall v :: 0 <= v < |a.versions| && a.versions[v].status == ACTIVE ==> b.versions[v].status == ACTIVE
    ensures Evolves(a, b)
  {
    hide StillLive, VersionsAdvance, PinsStay;
    SameStatusesStillLive(a.versions, b.versions);
  }

  lemma StepEvolves(db: Tables, call: Call)
    requires Linked(db)
    ensures Evolves(db, Step(db, call))
  {
    hide CreateDraft, Edit, ReviewChapter, Activate, ChapterSummary, Evolves;
    if Outcome(db, call).Ok? {
      match call
      case CallDraft(source, name) => DraftEvolves(db, source, name);
      case CallEdit(rule, patch) => EditEvolves(db, rule, patch);
      case CallReviewChapter(v, chapter, status) => ReviewEvolves(db, v, chapter, status);
      case CallActivate(v) => ActivationEvolves(db, v);
      case CallReviewRule(_, _, _) => MarksEvolve(db, Step(db, call));
      case CallSignOff(_, _) => MarksEvolve(db, Step(db, call));
      case CallArchive(_) => MarksEvolve(db, Step(db, call));
      case CallPin(_, _) => MarksEvolve(db, Step(db, call));
    } else {
      MarksEvolve(db, db);
    }
  }

  /** Over any run statuses only advance, rule sets stay live, published content and reviews stay as they are, and pins stay. */
  lemma {:induction false} RunEvolves(db: Tables, calls: seq<Call>)
    requires Inv(db)
    ensures Evolves(db, Run(db, calls))
  {
    hide StatesAgree, UniqueNumbers, VersionsAdvance, StillLive, ContentGrows, RulesKept, ReviewsFinal;
    if calls == [] {
      Unmoved(db);
    } else {
      var before := Run(db, calls[..|calls| - 1]);
      RunEvolves(db, calls[..|calls| - 1]);
      StepEvolves(before, calls[|calls| - 1]);
      EvolvesTransitively(db, before, Run(db, calls));
    }
  }

  lemma Unmoved(db: Tables)
    ensures Evolves(db, db)
  {
  }

  predicate LiveIn(versions: seq<Version>, ruleSetId: nat, v: nat) {
    v < |versions| && versions[v].ruleSetId == ruleSetId && versions[v].status == ACTIVE
  }

  /** Exactly one version of the rule set is live. */
  ghost predicate ExactlyOneLive(versions: seq<Version>, ruleSetId: nat) {
    exists v: nat :: LiveIn(versions, ruleSetId, v) && forall w: nat :: LiveIn(versions, ruleSetId, w) ==> w == v
  }

  lemma LiveIsSole(versions: seq<Version>, ruleSetId: nat)
    requires OneActive(versions) && IsLive(versions, ruleSetId)
    ensures ExactlyOneLive(versions, ruleSetId)
  {
    var v: nat :| v < |versions| && versions[v].ruleSetId == ruleSetId && versions[v].status == ACTIVE;
    assert LiveIn(versions, ruleSetId, v);
  }

  /** A rule set that has a live version always has exactly one. */
  lemma LiveStaysExactlyOne(db: Tables, calls: seq<Call>, ruleSetId: nat)
    requires Inv(db) && IsLive(db.versions, ruleSetId)
    ensures ExactlyOneLive(Run(db, calls).versions, ruleSetId)
  {
    RunEvolves(db, calls);
    hide Run, IsLive, ExactlyOneLive, OneActive;
    LiveIsSole(Run(db, calls).versions, ruleSetId);
  }

  /** The same chapters, rules and definitions, row by row, in both tables. */
  ghost predicate SameBook(a: Tables, b: Tables, v: nat) {
    && ChaptersOf(b, v) == ChaptersOf(a, v)
    && RulesOf(b, v) == RulesOf(a, v)
    && (forall k :: 0 <= k < |ChaptersOf(a, v)| ==> b.chapters[ChaptersOf(a, v)[k]] == a.chapters[ChaptersOf(a, v)[k]])
    && (forall k :: 0 <= k < |RulesOf(a, v)| ==>
          && b.rules[RulesOf(a, v)[k]] == a.rules[RulesOf(a, v)[k]]
          && Terms(b.definitions, RulesOf(a, v)[k]) == Terms(a.definitions, RulesOf(a, v)[k]))
  }

  lemma OldRowsStay(a: Tables, b: Tables, v: nat)
    requires ContentGrows(a, b) && RulesKept(a, b) && v < |a.versions|
    ensures ChaptersOf(b, v) == ChaptersOf(a, v)
    ensures RulesOf(b, v) == RulesOf(a, v)
  {
    var moreChapters, moreRules := b.chapters[|a.chapters|..], b.rules[|a.rules|..];
    assert ChapterOwners(b.chapters) == ChapterOwners(a.chapters) + ChapterOwners(moreChapters);
    OwnedKept(ChapterOwners(a.chapters), ChapterOwners(moreChapters), v);
    assert RuleOwners(b.rules) == RuleOwners(a.rules) + RuleOwners(moreRules);
    OwnedKept(RuleOwners(a.rules), RuleOwners(moreRules), v);
  }

  lemma OldTermsStay(a: Tables, b: Tables, rule: nat)
    requires ContentGrows(a, b) && rule < |a.rules|
    ensures Terms(b.definitions, rule) == Terms(a.definitions, rule)
  {
    hide Terms;
    var more := b.definitions[|a.definitions|..];
    assert b.definitions == a.definitions + more;
    TermsAppend(a.definitions, more, rule);
    NoTerms(more, rule);
  }

  lemma PublishedBookStays(a: Tables, b: Tables, v: nat)
    requires Evolves(a, b) && Published(a, v)
    ensures SameBook(a, b, v)
  {
    OldRowsStay(a, b, v);
    hide RulesOf, ChaptersOf, Terms, StillLive, ReviewsFinal;
    forall k | 0 <= k < |RulesOf(a, v)|
      ensures Terms(b.definitions, RulesOf(a, v)[k]) == Terms(a.definitions, RulesOf(a, v)[k])
    {
      OldTermsStay(a, b, RulesOf(a, v)[k]);
    }
  }

  /** Once pinned, a case keeps its version, that version never is a draft, and its rules never change. */
  lemma PinnedRulesNeverChange(db: Tables, calls: seq<Call>, caseId: nat)
    requires Inv(db) && caseId in db.pins
    ensures var after := Run(db, calls);
      && caseId in after.pins && after.pins[caseId] == db.pins[caseId]
      && Published(after, db.pins[caseId])
      && SameBook(db, after, db.pins[caseId])
  {
    RunEvolves(db, calls);
    hide Run, SameBook, StatesAgree, UniqueNumbers, Linked;
    PublishedBookStays(db, Run(db, calls), db.pins[caseId]);
  }

  // ---- The gate ----

  predicate WasLive(status: VersionStatus) {
    status == ACTIVE || status == SUPERSEDED
  }

  /** Whatever went live since db, and is or was live, was signed off. */
  predicate SignedOffSince(db: Tables, after: Tables) {
    forall v :: 0 <= v < |after.versions| && !Published(db, v) && WasLive(after.versions[v].status) ==>
      after.versions[v].signedOffAt.Some?
  }

  lemma {:induction false} GateHolds(db: Tables, calls: seq<Call>)
    requires Inv(db)
    ensures SignedOffSince(db, Run(db, calls))
  {
    if calls != [] {
      GateHolds(db, calls[..|calls| - 1]);
      hide StatesAgree, UniqueNumbers, ReviewsPlaced, OneActive, UniqueNames, ChapterSummary, ClonedRules, Patched;
      var before := Run(db, calls[..|calls| - 1]);
      GateStep(db, before, calls[|calls| - 1]);
    }
  }

  lemma GateStep(db: Tables, before: Tables, call: Call)
    requires Linked(before) && SignedOffSince(db, before)
    ensures SignedOffSince(db, Step(before, call))
  {
    hide ChapterSummary, ClonedRules, ClonedChapters, ClonedDefinitions, Patched, Placed, PendingItems, RulesOf;
  }

  /** A version that went live in a run was signed off, and every one of its chapters is cleared for good. */
  lemma UnclearedNeverGoesLive(db: Tables, calls: seq<Call>, v: nat)
    requires Inv(db) && !Published(db, v)
    requires v < |Run(db, calls).versions|
    requires WasLive(Run(db, calls).versions[v].status)
    ensures var after := Run(db, calls);
      after.versions[v].signedOffAt.Some? && HasChapter(after, v) && EveryChapterCleared(after, v)
  {
    GateHolds(db, calls);
    SignedOffMeansCleared(db, calls, v);
  }

  // ---- Edits ----

  /** The accepted edits of rule i, in order. */
  function EditsOf(db: Tables, calls: seq<Call>, i: nat): seq<Patch>
    requires Inv(db)
  {
    if calls == [] then []
    else
      var last := calls[|calls| - 1];
      var earlier := EditsOf(db, calls[..|calls| - 1], i);
      if last.CallEdit? && last.rule == i && Outcome(Run(db, calls[..|calls| - 1]), last).Ok?
      then earlier + [last.patch] else earlier
  }

  function PatchedBy(w: Wording, patches: seq<Patch>): Wording {
    if patches == [] then w else Patched(PatchedBy(w, patches[..|patches| - 1]), patches[|patches| - 1])
  }

  lemma StepRewords(db: Tables, call: Call, i: nat)
    requires Linked(db) && i < |db.rules|
    ensures i < |Step(db, call).rules|
    ensures Step(db, call).rules[i].wording
         == if call.CallEdit? && call.rule == i && Outcome(db, call).Ok?
            then Patched(db.rules[i].wording, call.patch) else db.rules[i].wording
  {
    hide ChapterSummary, ClonedRules, ClonedChapters, ClonedDefinitions, Patched, Placed, PendingItems, RulesOf;
  }

  /** A rule reads as its accepted edits left it: nothing else touches its wording. */
  lemma {:induction false} WordingIsItsEdits(db: Tables, calls: seq<Call>, i: nat)
    requires Inv(db) && i < |db.rules|
    ensures i < |Run(db, calls).rules|
    ensures Run(db, calls).rules[i].wording == PatchedBy(db.rules[i].wording, EditsOf(db, calls, i))
  {
    if calls != [] {
      hide Inv, Patched, Outcome;
      var n := |calls| - 1;
      WordingIsItsEdits(db, calls[..n], i);
      StepRewords(Run(db, calls[..n]), calls[n], i);
    }
  }

  function Column<T>(edits: seq<Patch>, field: Patch -> Sent<T>): (sent: seq<Sent<T>>)
    ensures |sent| == |edits|
  {
    seq(|edits|, k requires 0 <= k < |edits| => field(edits[k]))
  }

  /** The last value sent, or the value at the outset. */
  function LastValue<T>(sent: seq<Sent<T>>, was: T): T {
    if sent == [] then was
    else if sent[|sent| - 1].Value? then sent[|sent| - 1].value
    else LastValue(sent[..|sent| - 1], was)
  }

  /** The last value or null sent, or what was there at the outset. */
  function LastMention<T>(sent: seq<Sent<T>>, was: Option<T>): Option<T> {
    if sent == [] then was
    else match sent[|sent| - 1]
      case Value(value) => Some(value)
      case Null => None
      case Absent => LastMention(sent[..|sent| - 1], was)
  }

  /** Field by field, a wording after some edits. */
  predicate ReadsAfter(was: Wording, edits: seq<Patch>, now: Wording) {
    && now.title == LastValue(Column(edits, (p: Patch) => p.title), was.title)
    && now.titleAr == LastMention(Column(edits, (p: Patch) => p.titleAr), was.titleAr)
    && now.text == LastValue(Column(edits, (p: Patch) => p.text), was.text)
    && now.textAr == LastMention(Column(edits, (p: Patch) => p.textAr), was.textAr)
    && now.mandatoryLawWarning == LastMention(Column(edits, (p: Patch) => p.mandatoryLawWarning), was.mandatoryLawWarning)
    && now.publicVisible == LastValue(Column(edits, (p: Patch) => p.publicVisible), was.publicVisible)
  }

  lemma ColumnFront<T>(edits: seq<Patch>, field: Patch -> Sent<T>)
    requires edits != []
    ensures Column(edits, field)[..|edits| - 1] == Column(edits[..|edits| - 1], field)
    ensures Column(edits, field)[|edits| - 1] == field(edits[|edits| - 1])
  {
  }

  lemma {:induction false} EditsReadAfter(was: Wording, edits: seq<Patch>)
    ensures ReadsAfter(was, edits, PatchedBy(was, edits))
  {
    if edits != [] {
      EditsReadAfter(was, edits[..|edits| - 1]);
      ColumnFront(edits, (p: Patch) => p.title);
      ColumnFront(edits, (p: Patch) => p.titleAr);
      ColumnFront(edits, (p: Patch) => p.text);
      ColumnFront(edits, (p: Patch) => p.textAr);
      ColumnFront(edits, (p: Patch) => p.mandatoryLawWarning);
      ColumnFront(edits, (p: Patch) => p.publicVisible);
      hide Column;
    }
  }

  /** Over every run each field of a rule is what the last accepted edit that mentions the field made it. */
  lemma FieldsAreLastEdits(db: Tables, calls: seq<Call>, i: nat)
    requires Inv(db) && i < |db.rules|
    ensures i < |Run(db, calls).rules|
    ensures ReadsAfter(db.rules[i].wording, EditsOf(db, calls, i), Run(db, calls).rules[i].wording)
  {
    WordingIsItsEdits(db, calls, i);
    EditsReadAfter(db.rules[i].wording, EditsOf(db, calls, i));
  }

  // ---- A clone and its source ----

  lemma DraftAppends(db: Tables, source: nat, name: string)
    requires source < |db.versions| && Placed(db, source)
    ensures db.rules <= CreateDraft(db, source, name).rules
  {
  }

  /** A new draft pairs off with its source, and each pair reads the same. */
  lemma DraftPairs(db: Tables, source: nat, name: string)
    requires Inv(db) && source < |db.versions| && Placed(db, source)
    ensures var after := CreateDraft(db, source, name);
      && Paired(after.rules, RulesOf(after, source), RulesOf(after, |db.versions|))
      && SameWordings(after.rules, RulesOf(after, source), RulesOf(after, |db.versions|))
  {
    hide Inv, CreateDraft, RulesOf, ChaptersOf, Placed, VersionsAdvance, StillLive, PinsStay, ReviewsFinal, SameChapters, Terms;
    var after := CreateDraft(db, source, name);
    assert Linked(db) by { InvParts(db); }
    DraftEvolves(db, source, name);
    OldRowsStay(db, after, source);
    CloneIsIsomorphic(db, source, name);
    DraftAppends(db, source, name);
    hide ContentGrows, Linked;
  }

  lemma InvParts(db: Tables)
    requires Inv(db)
    ensures Linked(db) && UniqueNumbers(db.rules)
  {
  }

  predicate SameWordings(rules: seq<Rule>, base: seq<nat>, target: seq<nat>)
    requires Paired(rules, base, target)
  {
    forall k :: 0 <= k < |base| ==> rules[base[k]].wording == rules[target[k]].wording
  }

  /** Later calls neither add nor remove rules of two versions, nor renumber them. */
  lemma PairsStay(a: Tables, b: Tables, v: nat, w: nat)
    requires Evolves(a, b) && v < |a.versions| && w < |a.versions|
    requires Paired(a.rules, RulesOf(a, v), RulesOf(a, w))
    ensures RulesOf(b, v) == RulesOf(a, v) && RulesOf(b, w) == RulesOf(a, w)
    ensures Paired(b.rules, RulesOf(b, v), RulesOf(b, w))
    ensures |a.rules| <= |b.rules| && forall i :: 0 <= i < |a.rules| ==> b.rules[i].number == a.rules[i].number
  {
    OldRowsStay(a, b, v);
    OldRowsStay(a, b, w);
    hide RulesOf, VersionsAdvance, StillLive, ContentGrows, PinsStay, ReviewsFinal;
  }

  /** The tables right after an accepted CallDraft, which keeps the invariant like any call. */
  ghost predicate Cloned(db: Tables, source: nat, name: string, after: Tables) {
    Inv(db) && Inv(after) && Outcome(db, CallDraft(source, name)) == Ok(after)
  }

  lemma ClonedFacts(db: Tables, source: nat, name: string, cloned: Tables)
    requires Cloned(db, source, name, cloned)
    ensures source < |db.versions| && |cloned.versions| == |db.versions| + 1
    ensures Paired(cloned.rules, RulesOf(cloned, source), RulesOf(cloned, |db.versions|))
    ensures SameWordings(cloned.rules, RulesOf(cloned, source), RulesOf(cloned, |db.versions|))
  {
    DraftPairs(db, source, name);
    hide RulesOf, Placed, Paired, SameWordings, ClonedRules, ClonedChapters, ClonedDefinitions, PendingItems;
  }

  /** The comparison of a draft with its source, later on, at one number. */
  lemma DriftEntry(db: Tables, source: nat, name: string, cloned: Tables, calls: seq<Call>, number: string) returns (k: nat)
    requires Cloned(db, source, name, cloned)
    requires number in Entries(Run(cloned, calls).rules, source, |db.versions|)
    ensures k < |RulesOf(cloned, source)| && |RulesOf(cloned, source)| == |RulesOf(cloned, |db.versions|)|
    ensures var i, j, rules := RulesOf(cloned, source)[k], RulesOf(cloned, |db.versions|)[k], Run(cloned, calls).rules;
      && cloned.rules[i].number == number == cloned.rules[j].number
      && cloned.rules[i].wording == cloned.rules[j].wording
      && i < |rules| && j < |rules|
      && Entries(rules, source, |db.versions|)[number] == EntryOf(rules, Some(i), Some(j))
  {
    hide RulesOf, Run, EntryOf, Entries, Evolves, Outcome, Inv;
    ClonedFacts(db, source, name, cloned);
    var after := Run(cloned, calls);
    RunEvolves(cloned, calls);
    PairsStay(cloned, after, source, |db.versions|);
    InvParts(after);
    k := PairedDiff(after, source, |db.versions|, number);
  }

  /** One of the rules with that number, in either version, was edited by an accepted call. */
  predicate EditedUnder(db: Tables, calls: seq<Call>, v: nat, w: nat, number: string)
    requires Inv(db)
  {
    exists i: nat :: i < |db.rules| && UnderNumber(db.rules[i], v, w, number) && EditsOf(db, calls, i) != []
  }

  predicate UnderNumber(rule: Rule, v: nat, w: nat, number: string) {
    rule.number == number && (rule.versionId == v || rule.versionId == w)
  }

  /**
   However a draft and its source are worked on after the clone, comparing them adds and removes nothing,
   and a rule shows as changed only if one of the pair was edited.
   */
  lemma DriftComesFromEdits(db: Tables, source: nat, name: string, cloned: Tables, calls: seq<Call>, number: string)
    requires Cloned(db, source, name, cloned)
    requires number in Entries(Run(cloned, calls).rules, source, |db.versions|)
    ensures var entry := Entries(Run(cloned, calls).rules, source, |db.versions|)[number];
      && (entry.Changed? || entry.Unchanged?)
      && (entry.Changed? ==> EditedUnder(cloned, calls, source, |db.versions|, number))
  {
    hide RulesOf, Run, EditsOf, Entries, Inv, Outcome, ChangedAmong;
    var k := DriftEntry(db, source, name, cloned, calls, number);
    var i, j := RulesOf(cloned, source)[k], RulesOf(cloned, |db.versions|)[k];
    WordingIsItsEdits(cloned, calls, i);
    WordingIsItsEdits(cloned, calls, j);
    assert UnderNumber(cloned.rules[i], source, |db.versions|, number);
    assert UnderNumber(cloned.rules[j], source, |db.versions|, number);
    if EditsOf(cloned, calls, i) == [] && EditsOf(cloned, calls, j) == [] {
      var w := Run(cloned, calls).rules[i].wording;
      NothingChanged(DIFF_FIELDS, w);
    }
  }

  lemma {:induction false} NothingChanged(fields: seq<Field>, w: Wording)
    ensures ChangedAmong(fields, w, w) == []
  {
  }

  /** Right after the clone the two versions compare as equal throughout. */
  lemma FreshCloneUnchanged(db: Tables, source: nat, name: string, cloned: Tables, number: string)
    requires Cloned(db, source, name, cloned)
    requires number in Entries(cloned.rules, source, |db.versions|)
    ensures Entries(cloned.rules, source, |db.versions|)[number].Unchanged?
  {
    hide RulesOf, Entries, Inv, Outcome;
    assert Run(cloned, []) == cloned;
    DriftComesFromEdits(db, source, name, cloned, [], number);
    assert forall i :: EditsOf(cloned, [], i) == [];
  }

  // ---- What sign-off does not cover ----

  /** The text of a version after later calls is the text at sign-off exactly when its accepted edits come to nothing. */
  lemma SignedTextStays(signed: Tables, calls: seq<Call>, v: nat)
    requires Inv(signed) && v < |signed.versions|
    ensures SameBook(signed, Run(signed, calls), v)
      <==> forall k :: 0 <= k < |RulesOf(signed, v)| ==>
             var w := signed.rules[RulesOf(signed, v)[k]].wording;
             PatchedBy(w, EditsOf(signed, calls, RulesOf(signed, v)[k])) == w
  {
    hide Run, EditsOf, Inv, RulesOf, ChaptersOf, Terms, PatchedBy;
    var after := Run(signed, calls);
    RunEvolves(signed, calls);
    OldRowsStay(signed, after, v);
    forall k | 0 <= k < |RulesOf(signed, v)|
      ensures var i := RulesOf(signed, v)[k];
        && Terms(after.definitions, i) == Terms(signed.definitions, i)
        && after.rules[i].wording == PatchedBy(signed.rules[i].wording, EditsOf(signed, calls, i))
    {
      OldTermsStay(signed, after, RulesOf(signed, v)[k]);
      WordingIsItsEdits(signed, calls, RulesOf(signed, v)[k]);
    }
  }

  /** An accepted edit leaves every sign-off standing, and with it the readiness to go live. */
  lemma EditKeepsSignOff(db: Tables, rule: nat, patch: Patch, v: nat)
    requires Inv(db)
    ensures Step(db, CallEdit(rule, patch)).versions == db.versions
    ensures Inv(Step(db, CallEdit(rule, patch)))
    ensures Outcome(Step(db, CallEdit(rule, patch)), CallActivate(v)).Ok? <==> Outcome(db, CallActivate(v)).Ok?
  {
    StepKeepsInv(db, CallEdit(rule, patch));
    ActivationNeverStale(db, [], v);
    ActivationNeverStale(Step(db, CallEdit(rule, patch)), [], v);
    hide Inv, ChapterSummary, Activate, Patched;
  }

  /** The rule-level review items have no say in activation. */
  lemma RuleReviewsDoNotGate(db: Tables, items: map<(nat, nat), RuleReviewStatus>, v: nat)
    requires Linked(db)
    ensures Linked(db.(reviewItems := items))
    ensures Outcome(db.(reviewItems := items), CallActivate(v)).Ok? <==> Outcome(db, CallActivate(v)).Ok?
  {
    hide ChapterSummary;
    if v < |db.versions| {
      SummaryKept(db, db.(reviewItems := items), v);
    }
  }

  const LOADED := Tables(
    [Version(0, "2.0", DRAFT, NOT_STARTED, None, "")],
    [Chapter(0, 1, "")],
    [Rule(0, 0, "1", Wording("t", None, "signed", None, None, true), "")],
    [], map[], map[], map[])
  const CLEARED := LOADED.(
    versions := [Version(0, "2.0", DRAFT, UNDER_REVIEW, None, "")], chapterReviews := map[(0, 0) := CHAPTER_APPROVED])
  const REVIEWED := CLEARED.(reviewItems := map[(0, 0) := OK])
  const SIGNED := REVIEWED.(versions := [Version(0, "2.0", DRAFT, APPROVED, Some(0), "")])

  const APPROVAL := [CallReviewChapter(0, 0, CHAPTER_APPROVED), CallReviewRule(0, 0, OK), CallSignOff(0, 0)]
  const REWORD := CallEdit(0, NO_EDIT.(text := Value("reworded")))

  lemma RunMore(db: Tables, calls: seq<Call>, call: Call)
    requires Inv(db)
    ensures Run(db, calls + [call]) == Step(Run(db, calls), call)
  {
    hide Inv, Outcome;
    assert (calls + [call])[..|calls|] == calls;
  }

  lemma ApprovedChapterClears(db: Tables)
    requires db.chapters == LOADED.chapters && db.chapterReviews == CLEARED.chapterReviews
    ensures ChapterSummary(db, 0) == Summary(1, 1, 0, false, false, true)
  {
    assert ChapterKeys(db.chapters, 0) == {(0, 0)};
    assert ReviewKeys(db.chapterReviews, 0) == {(0, 0)};
    assert KeysWith(db.chapterReviews, 0, BLOCKER) == {};
    assert KeysWith(db.chapterReviews, 0, CHANGE_REQUESTED) == {};
  }

  lemma ReviewStep()
    requires Linked(CLEARED)
    ensures Step(CLEARED, APPROVAL[1]) == REVIEWED
  {
    hide Linked;
  }

  lemma SignOffStep()
    requires Linked(REVIEWED)
    ensures Step(REVIEWED, APPROVAL[2]) == SIGNED
  {
    ApprovedChapterClears(REVIEWED);
    hide Linked, ChapterSummary;
  }

  lemma RewordStep()
    requires Linked(SIGNED)
    ensures Step(SIGNED, REWORD) == Edit(SIGNED, 0, REWORD.patch)
  {
    hide Linked, Edit;
  }

  lemma ActivateStep(db: Tables)
    requires Linked(db) && db == Edit(SIGNED, 0, REWORD.patch)
    ensures Step(db, CallActivate(0)) == Activate(db, 0)
  {
    ApprovedChapterClears(db);
    hide Linked, ChapterSummary, Activate, Patched;
  }

  lemma InvLinked(db: Tables)
    requires Inv(db)
    ensures Linked(db)
  {
  }

  /** One chapter approved, its rule found in order, and the version signed off. */
  lemma Approved()
    ensures Inv(LOADED) && Run(LOADED, APPROVAL) == SIGNED
  {
    hide Inv, Linked, Step;
    ReviewedFirst();
    InvLinked(REVIEWED);
    RunMore(LOADED, APPROVAL[..2], APPROVAL[2]);
    assert APPROVAL == APPROVAL[..2] + [APPROVAL[2]];
    SignOffStep();
    hide Run;
  }

  lemma ReviewedFirst()
    ensures Inv(LOADED) && Run(LOADED, APPROVAL[..2]) == REVIEWED
  {
    hide Inv, Linked, Step;
    ClearedFirst();
    InvLinked(CLEARED);
    RunMore(LOADED, [APPROVAL[0]], APPROVAL[1]);
    assert APPROVAL[..2] == [APPROVAL[0]] + [APPROVAL[1]];
    ReviewStep();
    hide Run;
  }

  lemma ClearedFirst()
    ensures Inv(LOADED) && Run(LOADED, [APPROVAL[0]]) == CLEARED
  {
    hide Inv, Linked, Step;
    LoadedIsInv();
    InvLinked(LOADED);
    RunMore(LOADED, [], APPROVAL[0]);
    assert [] + [APPROVAL[0]] == [APPROVAL[0]];
    assert Run(LOADED, []) == LOADED;
    ClearStep();
    hide Run;
  }

  lemma LoadedIsInv()
    ensures Inv(LOADED)
  {
    LoadedInv(LOADED);
    hide Inv;
  }

  lemma ClearStep()
    requires Linked(LOADED)
    ensures Step(LOADED, APPROVAL[0]) == CLEARED
  {
    ApprovedChapterClears(LOADED.(chapterReviews := CLEARED.chapterReviews));
    hide Linked, ChapterSummary;
  }

  lemma RewordedRun()
    ensures Inv(LOADED)
    ensures Run(LOADED, APPROVAL + [REWORD]) == Edit(SIGNED, 0, REWORD.patch)
    ensures Run(LOADED, APPROVAL + [REWORD] + [CallActivate(0)]) == Activate(Edit(SIGNED, 0, REWORD.patch), 0)
  {
    hide Inv, Linked, Step, Edit, Activate;
    Approved();
    InvLinked(SIGNED);
    RunMore(LOADED, APPROVAL, REWORD);
    RewordStep();
    var reworded := Edit(SIGNED, 0, REWORD.patch);
    InvLinked(reworded);
    RunMore(LOADED, APPROVAL + [REWORD], CallActivate(0));
    ActivateStep(reworded);
    hide Run;
  }

  /**
   So a rule of a version as loaded, reviewed, signed off and then reworded goes live unreviewed, though its own
   review item was reopened.
   */
  lemma RewordedRuleGoesLive()
    ensures Inv(LOADED)
    ensures var live := Run(LOADED, APPROVAL + [REWORD] + [CallActivate(0)]);
      && |live.versions| == 1 && live.versions[0].status == ACTIVE
      && |live.rules| == 1 && live.rules[0].wording.text == "reworded"
      && (0, 0) in live.reviewItems && live.reviewItems[(0, 0)] == PENDING
      && !ClearToActivate(live, 0)
  {
    RewordedRun();
    hide Run, Inv, RulesOf;
    var live := Run(LOADED, APPROVAL + [REWORD] + [CallActivate(0)]);
    assert live == Activate(Edit(SIGNED, 0, REWORD.patch), 0);
    assert (set k | k in live.reviewItems && k.0 == 0 && live.reviewItems[k] == OK) == {};
  }
}
