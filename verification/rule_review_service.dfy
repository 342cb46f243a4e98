/** The rule review service, with the pinning call of the rules service, carried out on stored tables. */
module RuleReviewServices {
  import opened Wrappers
  import opened RuleBook
  import opened RuleVersions
  import opened RuleReview

  class RuleReviewService {
    var versions: seq<Version>
    var chapters: seq<Chapter>
    var rules: seq<Rule>
    var definitions: seq<Definition>
    var chapterReviews: map<(nat, nat), ChapterReviewStatus>
    var reviewItems: map<(nat, nat), RuleReviewStatus>
    var pins: map<nat, nat>

    function Stored(): Tables
      reads this
    {
      Tables(versions, chapters, rules, definitions, chapterReviews, reviewItems, pins)
    }

    constructor (db: Tables)
      requires Inv(db)
      ensures Stored() == db
    {
      versions, chapters, rules, definitions := db.versions, db.chapters, db.rules, db.definitions;
      chapterReviews, reviewItems, pins := db.chapterReviews, db.reviewItems, db.pins;
    }

    /** createDraftVersion: copies chapters, then rules with their definitions and a pending review item each. */
    method CreateDraftVersion(source: nat, name: string) returns (r: Result<nat, ReviewError>)
      requires Inv(Stored())
      modifies this
      ensures Inv(Stored()) && Stored() == Step(old(Stored()), CallDraft(source, name))
      ensures r.Err? ==> Stored() == old(Stored())
      ensures r == Err(NotFound) <==> source >= |old(versions)|
      ensures r == Err(DuplicateName) <==>
        && source < |old(versions)|
        && !(forall i :: 0 <= i < |old(versions)| && old(versions)[i].ruleSetId == old(versions)[source].ruleSetId ==>
               old(versions)[i].name != name)
      ensures r.Err? ==> r.error == NotFound || r.error == DuplicateName
      ensures r.Ok? ==> Isomorphic(old(Stored()), source, Stored(), r.value)
      ensures r.Ok? ==>
        var from := old(versions)[source];
        versions == old(versions) + [Version(from.ruleSetId, name, DRAFT, NOT_STARTED, None, from.notice)]
      ensures r.Ok? ==>
        forall k: (nat, nat) :: k in reviewItems <==>
          k in old(reviewItems) || (k.0 == r.value && |old(rules)| <= k.1 < |rules|)
      ensures r.Ok? ==>
        forall k: (nat, nat) :: k in reviewItems ==>
          reviewItems[k] == if k.0 == r.value && |old(rules)| <= k.1 < |rules| then PENDING else old(reviewItems)[k]
      ensures r.Ok? ==> r.value == |old(versions)|
    {
      hide StatesAgree, UniqueNumbers, ReviewsPlaced, OneActive, UniqueNames, PinsPublished, Isomorphic;
      StepKeepsInv(Stored(), CallDraft(source, name));
      if source >= |versions| {
        return Err(NotFound);
      }
      if NameTaken(versions, versions[source].ruleSetId, name) {
        return Err(DuplicateName);
      }
      CloneIsIsomorphic(Stored(), source, name);
      if !Placed(Stored(), source) {
        return Err(UnplacedRule);
      }
      var draft := |versions|;
      ItemsRead(Stored(), source, name);
      CloneInto(source, name);
      r := Ok(draft);
    }

    /** The transaction of createDraftVersion. */
    method CloneInto(source: nat, name: string)
      requires source < |versions| && Placed(Stored(), source)
      modifies this
      ensures Stored() == CreateDraft(old(Stored()), source, name)
    {
      hide Placed, ClonedRules, ClonedChapters, ClonedDefinitions, PendingItems, ChaptersOf, RulesOf;
      var db := Stored();
      var draft := |versions|;
      versions := versions + [Version(versions[source].ruleSetId, name, DRAFT, NOT_STARTED, None, versions[source].notice)];
      var chapterMap := CloneChapters(db, source, draft);
      CloneRules(db, source, draft, chapterMap);
    }

    /** Copies the chapters and says which chapter became which. */
    method CloneChapters(db: Tables, source: nat, draft: nat) returns (chapterMap: map<nat, nat>)
      requires chapters == db.chapters
      modifies this`chapters
      ensures chapters == db.chapters + ClonedChapters(db, source, draft)
      ensures forall c :: c in ChaptersOf(db, source) ==>
        c in chapterMap && chapterMap[c] == |db.chapters| + Position(ChaptersOf(db, source), c)
    {
      hide ChaptersOf;
      chapterMap := map[];
      var ids := ChaptersOf(db, source);
      for k := 0 to |ids|
        invariant chapters == db.chapters + ClonedChapters(db, source, draft)[..k]
        invariant forall j :: 0 <= j < k ==> ids[j] in chapterMap && chapterMap[ids[j]] == |db.chapters| + j
      {
        SourcePosition(db, source, k);
        chapterMap := chapterMap[ids[k] := |chapters|];
        chapters := chapters + [db.chapters[ids[k]].(versionId := draft)];
      }
    }

    /** Copies the rules into the copied chapters, each with its definitions and a pending review item. */
    method CloneRules(db: Tables, source: nat, draft: nat, chapterMap: map<nat, nat>)
      requires rules == db.rules && definitions == db.definitions && reviewItems == db.reviewItems
      requires Placed(db, source)
      requires forall c :: c in ChaptersOf(db, source) ==>
        c in chapterMap && chapterMap[c] == |db.chapters| + Position(ChaptersOf(db, source), c)
      modifies this`rules, this`definitions, this`reviewItems
      ensures rules == db.rules + ClonedRules(db, source, draft)
      ensures definitions
           == db.definitions + ClonedDefinitions(db.definitions, RulesOf(db, source), |db.rules|, |RulesOf(db, source)|)
      ensures reviewItems == db.reviewItems + PendingItems(draft, |db.rules|, |RulesOf(db, source)|)
    {
      hide ChaptersOf, RulesOf, Terms, Placed, PendingItems, ClonedDefinitions, Attach;
      var ids := RulesOf(db, source);
      CopiesStart(db, ids, draft);
      for k := 0 to |ids|
        invariant rules == db.rules + ClonedRules(db, source, draft)[..k]
        invariant definitions == db.definitions + ClonedDefinitions(db.definitions, ids, |db.rules|, k)
        invariant reviewItems == db.reviewItems + PendingItems(draft, |db.rules|, k)
      {
        var row := db.rules[ids[k]];
        var id := |rules|;
        assert ClonedRules(db, source, draft)[k] == ClonedRule(db, source, draft, row);
        CopiesGrow(db, ids, draft, k);
        rules := rules + [row.(versionId := draft, chapterId := chapterMap[row.chapterId])];
        definitions := definitions + Attach(Terms(db.definitions, ids[k]), id);
        reviewItems := reviewItems[(draft, id) := PENDING];
      }
    }

    method UpdateRuleText(rule: nat, patch: Patch) returns (r: Result<Rule, ReviewError>)
      requires Inv(Stored())
      modifies this`rules, this`reviewItems
      ensures Inv(Stored()) && Stored() == Step(old(Stored()), CallEdit(rule, patch))
      ensures r.Err? ==> Stored() == old(Stored())
      ensures r.Ok? <==>
        && rule < |old(rules)| && versions[old(rules)[rule].versionId].status == DRAFT
        && (patch.title.Value? || !patch.titleAr.Absent? || patch.text.Value? || !patch.textAr.Absent?
            || !patch.mandatoryLawWarning.Absent? || patch.publicVisible.Value?)
        && !patch.title.Null? && !patch.text.Null? && !patch.publicVisible.Null?
      ensures r.Ok? ==>
        && |rules| == |old(rules)| && (forall i :: 0 <= i < |rules| && i != rule ==> rules[i] == old(rules)[i])
        && rules[rule] == old(rules)[rule].(wording := rules[rule].wording)
        && EditReads(old(rules)[rule].wording, patch, rules[rule].wording)
        && reviewItems == old(reviewItems)[(rules[rule].versionId, rule) := PENDING]
      ensures r.Ok? ==> rule < |rules| && r.value == rules[rule]
    {
      hide StatesAgree, UniqueNumbers, ReviewsPlaced, OneActive, UniqueNames, PinsPublished;
      StepKeepsInv(Stored(), CallEdit(rule, patch));
      if rule >= |rules| {
        return Err(NotFound);
      }
      var v := rules[rule].versionId;
      if versions[v].status != DRAFT {
        return Err(NotDraft);
      }
      if patch == NO_EDIT {
        return Err(NothingToEdit);
      }
      if patch.title.Null? || patch.text.Null? || patch.publicVisible.Null? {
        return Err(NullColumn);
      }
      rules := rules[rule := rules[rule].(wording := Patched(rules[rule].wording, patch))];
      reviewItems := reviewItems[(v, rule) := PENDING];
      r := Ok(rules[rule]);
    }

    method RecordReview(v: nat, rule: nat, verdict: RuleReviewStatus) returns (r: Result<RuleReviewStatus, ReviewError>)
      requires Inv(Stored())
      modifies this`reviewItems
      ensures Inv(Stored()) && Stored() == Step(old(Stored()), CallReviewRule(v, rule, verdict))
      ensures r.Err? ==> Stored() == old(Stored())
      ensures r.Ok? <==> rule < |rules| && rules[rule].versionId == v && versions[v].status == DRAFT
      ensures r.Ok? ==> reviewItems == old(reviewItems)[(v, rule) := verdict]
      ensures r.Ok? ==> r.value == verdict
      ensures forall w :: Outcome(Stored(), CallActivate(w)).Ok? <==> Outcome(old(Stored()), CallActivate(w)).Ok?
    {
      hide StatesAgree, UniqueNumbers, ReviewsPlaced, OneActive, UniqueNames, PinsPublished, ChapterSummary, Activate;
      StepKeepsInv(Stored(), CallReviewRule(v, rule, verdict));
      if rule >= |rules| || rules[rule].versionId != v {
        return Err(NotFound);
      }
      if versions[v].status != DRAFT {
        return Err(NotDraft);
      }
      forall w {
        RuleReviewsDoNotGate(Stored(), reviewItems[(v, rule) := verdict], w);
      }
      reviewItems := reviewItems[(v, rule) := verdict];
      r := Ok(verdict);
    }

    /** recomputeReviewState: a standing sign-off is kept while the chapters stay clear and revoked otherwise. */
    method RecomputeReviewState(v: nat)
      requires v < |versions|
      modifies this`versions
      ensures Stored() == Recompute(old(Stored()), v)
    {
      hide ChapterSummary;
      var s := ChapterSummary(Stored(), v);
      var next :=
        if s.hasBlockers then BLOCKED
        else if s.hasChangeRequests then CHANGES_REQUESTED
        else if s.reviewed == 0 then NOT_STARTED
        else UNDER_REVIEW;
      var version := versions[v].(reviewState := next);
      if version.signedOffAt.Some? {
        if s.clearForSignOff {
          version := version.(reviewState := APPROVED);
        } else {
          version := version.(signedOffAt := None);
        }
      }
      versions := versions[v := version];
    }

    method RecordChapterReview(v: nat, chapter: nat, status: ChapterReviewStatus)
      returns (r: Result<ChapterReviewStatus, ReviewError>)
      requires Inv(Stored())
      modifies this`chapterReviews, this`versions
      ensures Inv(Stored()) && Stored() == Step(old(Stored()), CallReviewChapter(v, chapter, status))
      ensures r.Err? ==> Stored() == old(Stored())
      ensures r.Ok? <==> chapter < |chapters| && chapters[chapter].versionId == v && old(versions)[v].status == DRAFT
      ensures r.Ok? ==> chapterReviews == old(chapterReviews)[(v, chapter) := status]
      ensures r.Ok? ==>
        && |versions| == |old(versions)| && (forall w :: 0 <= w < |versions| && w != v ==> versions[w] == old(versions)[w])
        && versions[v] == old(versions)[v].(reviewState := versions[v].reviewState, signedOffAt := versions[v].signedOffAt)
        && (versions[v].signedOffAt == if EveryChapterCleared(Stored(), v) then old(versions)[v].signedOffAt else None)
      ensures r.Ok? ==> r.value == status
    {
      if chapter < |chapters| && chapters[chapter].versionId == v {
        ReviewedIsCleared(Stored(), v, chapter, status);
      }
      hide StatesAgree, UniqueNumbers, ReviewsPlaced, OneActive, UniqueNames, PinsPublished, ChapterSummary;
      StepKeepsInv(Stored(), CallReviewChapter(v, chapter, status));
      if chapter >= |chapters| || chapters[chapter].versionId != v {
        return Err(NotFound);
      }
      if versions[v].status != DRAFT {
        return Err(NotDraft);
      }
      chapterReviews := chapterReviews[(v, chapter) := status];
      RecomputeReviewState(v);
      r := Ok(status);
    }

    method SignOff(v: nat, now: int) returns (r: Result<int, ReviewError>)
      requires Inv(Stored())
      modifies this`versions
      ensures Inv(Stored()) && Stored() == Step(old(Stored()), CallSignOff(v, now))
      ensures r.Err? ==> Stored() == old(Stored())
      ensures r.Ok? <==>
        && v < |old(versions)| && old(versions)[v].status == DRAFT
        && HasChapter(old(Stored()), v) && EveryChapterCleared(old(Stored()), v)
      ensures r.Ok? ==> versions == old(versions)[v := old(versions)[v].(reviewState := APPROVED, signedOffAt := Some(now))]
      ensures r.Ok? ==> r.value == now && HasChapter(Stored(), v) && EveryChapterCleared(Stored(), v)
    {
      hide StatesAgree, UniqueNumbers, OneActive, UniqueNames, PinsPublished, ChapterSummary;
      ClearCountsMeanCleared(Stored(), v);
      StepKeepsInv(Stored(), CallSignOff(v, now));
      if v >= |versions| {
        return Err(NotFound);
      }
      if versions[v].status != DRAFT {
        return Err(NotDraft);
      }
      if !ChapterSummary(Stored(), v).clearForSignOff {
        return Err(NotClear);
      }
      versions := versions[v := versions[v].(reviewState := APPROVED, signedOffAt := Some(now))];
      r := Ok(now);
    }

    method ActivateVersion(v: nat) returns (r: Result<VersionStatus, ReviewError>)
      requires Inv(Stored())
      modifies this`versions
      ensures Inv(Stored()) && Stored() == Step(old(Stored()), CallActivate(v))
      ensures r.Err? ==> Stored() == old(Stored())
      ensures r.Ok? <==> v < |old(versions)| && old(versions)[v].status == DRAFT && old(versions)[v].signedOffAt.Some?
      ensures r.Ok? ==>
        && |versions| == |old(versions)|
        && forall w :: 0 <= w < |versions| ==>
             var was := old(versions)[w];
             versions[w] == if w == v then was.(status := ACTIVE)
                            else if was.ruleSetId == versions[v].ruleSetId && was.status == ACTIVE then was.(status := SUPERSEDED)
                            else was
      ensures r.Ok? ==> v < |versions| && r.value == versions[v].status == ACTIVE
    {
      hide StatesAgree, UniqueNumbers, ReviewsPlaced, OneActive, UniqueNames, PinsPublished, ChapterSummary;
      StepKeepsInv(Stored(), CallActivate(v));
      ActivationNeverStale(Stored(), [], v);
      if v >= |versions| {
        return Err(NotFound);
      }
      var version := versions[v];
      if version.status != DRAFT {
        return Err(NotDraft);
      }
      if version.reviewState != APPROVED || version.signedOffAt.None? {
        return Err(NotSignedOff);
      }
      if !ChapterSummary(Stored(), v).clearForSignOff {
        return Err(StaleReview);
      }
      versions := Superseded(versions, version.ruleSetId);
      versions := versions[v := versions[v].(status := ACTIVE)];
      r := Ok(ACTIVE);
    }

    method ArchiveVersion(v: nat) returns (r: Result<VersionStatus, ReviewError>)
      requires Inv(Stored())
      modifies this`versions
      ensures Inv(Stored()) && Stored() == Step(old(Stored()), CallArchive(v))
      ensures r.Ok? <==> v < |old(versions)| && old(versions)[v].status != ACTIVE
      ensures versions == if r.Ok? then old(versions)[v := old(versions)[v].(status := ARCHIVED)] else old(versions)
      ensures r.Ok? ==> v < |versions| && r.value == versions[v].status == ARCHIVED
      ensures StillLive(old(versions), versions) && SameBook(old(Stored()), Stored(), v)
    {
      hide StillLive, SameBook, StatesAgree, UniqueNumbers, ReviewsPlaced, OneActive, UniqueNames, PinsPublished, ChapterSummary;
      StepKeepsInv(Stored(), CallArchive(v));
      StepEvolves(Stored(), CallArchive(v));
      ArchiveKeepsBook(Stored(), v);
      if v >= |versions| {
        return Err(NotFound);
      }
      if versions[v].status == ACTIVE {
        return Err(StillActive);
      }
      if versions[v].status == ARCHIVED {
        return Ok(ARCHIVED);
      }
      versions := versions[v := versions[v].(status := ARCHIVED)];
      r := Ok(ARCHIVED);
    }

    /** assignToCase: a case is pinned once, and never to a draft. */
    method AssignToCase(caseId: nat, v: nat) returns (r: Result<nat, ReviewError>)
      requires Inv(Stored())
      modifies this`pins
      ensures Inv(Stored()) && Stored() == Step(old(Stored()), CallPin(caseId, v))
      ensures r.Ok? <==> caseId !in old(pins) && v < |versions| && versions[v].status != DRAFT
      ensures pins == if r.Ok? then old(pins)[caseId := v] else old(pins)
      ensures r.Ok? ==> r.value == v && caseId in pins && pins[caseId] == v
    {
      hide StatesAgree, UniqueNumbers, ReviewsPlaced, OneActive, UniqueNames, ChapterSummary;
      StepKeepsInv(Stored(), CallPin(caseId, v));
      if caseId in pins {
        return Err(AlreadyPinned);
      }
      if v >= |versions| {
        return Err(NotFound);
      }
      if versions[v].status == DRAFT {
        return Err(NotDraft);
      }
      pins := pins[caseId := v];
      r := Ok(v);
    }

    /** diff: the comparison of two versions, or None when neither has a rule. */
    method Diff(base: nat, target: nat) returns (d: Option<Comparison>)
      requires Inv(Stored())
      ensures d == RuleVersions.Diff(rules, base, target)
      ensures d.None? <==> RulesOf(Stored(), base) == [] && RulesOf(Stored(), target) == []
    {
      NoRulesNoEntries(Stored(), base, target);
      d := RuleVersions.Diff(rules, base, target);
    }
  }

  /** Field by field, what an edit leaves: an absent field its old value, a null none, a value that value. */
  predicate EditReads(was: Wording, patch: Patch, now: Wording) {
    && now.title == (if patch.title.Value? then patch.title.value else was.title)
    && now.text == (if patch.text.Value? then patch.text.value else was.text)
    && now.publicVisible == (if patch.publicVisible.Value? then patch.publicVisible.value else was.publicVisible)
    && LeftBy(was.titleAr, patch.titleAr, now.titleAr)
    && LeftBy(was.textAr, patch.textAr, now.textAr)
    && LeftBy(was.mandatoryLawWarning, patch.mandatoryLawWarning, now.mandatoryLawWarning)
  }

  predicate LeftBy(was: Option<string>, sent: Sent<string>, now: Option<string>) {
    && (sent.Absent? ==> now == was)
    && (sent.Null? ==> now == None)
    && (sent.Value? ==> now == Some(sent.value))
  }

  /** After a chapter review the counts are clear exactly when every chapter is. */
  lemma ReviewedIsCleared(db: Tables, v: nat, chapter: nat, status: ChapterReviewStatus)
    requires ReviewsPlaced(db) && v < |db.versions| && chapter < |db.chapters| && db.chapters[chapter].versionId == v
    ensures var reviewed := db.(chapterReviews := db.chapterReviews[(v, chapter) := status]);
      ChapterSummary(reviewed, v).clearForSignOff <==> EveryChapterCleared(ReviewChapter(db, v, chapter, status), v)
  {
    var reviewed := db.(chapterReviews := db.chapterReviews[(v, chapter) := status]);
    ClearCountsMeanCleared(reviewed, v);
    hide ChapterSummary;
    assert HasChapter(reviewed, v);
  }

  lemma ArchiveKeepsBook(db: Tables, v: nat)
    requires Linked(db)
    ensures SameBook(db, Step(db, CallArchive(v)), v) && SameBook(db, db, v)
  {
    hide RulesOf, ChaptersOf, Terms;
    var after := Step(db, CallArchive(v));
    assert after.chapters == db.chapters && after.rules == db.rules && after.definitions == db.definitions;
    assert ChaptersOf(after, v) == ChaptersOf(db, v) && RulesOf(after, v) == RulesOf(db, v) by {
      SameRowsSameIds(db, after, v);
    }
  }

  lemma SameRowsSameIds(a: Tables, b: Tables, v: nat)
    requires b.chapters == a.chapters && b.rules == a.rules
    ensures ChaptersOf(b, v) == ChaptersOf(a, v) && RulesOf(b, v) == RulesOf(a, v)
  {
  }

  /** A draft has a pending item for each of its rules, and for nothing else. */
  lemma ItemsRead(db: Tables, source: nat, name: string)
    requires source < |db.versions| && Placed(db, source)
    ensures var after := CreateDraft(db, source, name);
      var own := (k: (nat, nat)) => k.0 == |db.versions| && |db.rules| <= k.1 < |after.rules|;
      && (forall k: (nat, nat) :: k in after.reviewItems <==> k in db.reviewItems || own(k))
      && (forall k: (nat, nat) :: k in after.reviewItems ==> after.reviewItems[k] == if own(k) then PENDING else db.reviewItems[k])
  {
    hide Placed, RulesOf, ChaptersOf, ClonedDefinitions;
  }

  lemma CopiesStart(db: Tables, ids: seq<nat>, draft: nat)
    ensures db.definitions + ClonedDefinitions(db.definitions, ids, |db.rules|, 0) == db.definitions
    ensures db.reviewItems + PendingItems(draft, |db.rules|, 0) == db.reviewItems
  {
  }

  lemma CopiesGrow(db: Tables, ids: seq<nat>, draft: nat, k: nat)
    requires k < |ids|
    ensures db.definitions + ClonedDefinitions(db.definitions, ids, |db.rules|, k + 1)
         == db.definitions + ClonedDefinitions(db.definitions, ids, |db.rules|, k)
            + Attach(Terms(db.definitions, ids[k]), |db.rules| + k)
    ensures db.reviewItems + PendingItems(draft, |db.rules|, k + 1)
         == (db.reviewItems + PendingItems(draft, |db.rules|, k))[(draft, |db.rules| + k) := PENDING]
  {
    hide Terms, Attach;
  }

  lemma SourcePosition(db: Tables, source: nat, k: nat)
    requires k < |ChaptersOf(db, source)|
    ensures forall j :: 0 <= j < k ==> ChaptersOf(db, source)[j] != ChaptersOf(db, source)[k]
    ensures Position(ChaptersOf(db, source), ChaptersOf(db, source)[k]) == k
  {
    OwnedDistinct(ChapterOwners(db.chapters), source);
    hide Owned;
  }

  lemma NoRulesNoEntries(db: Tables, base: nat, target: nat)
    ensures Entries(db.rules, base, target) == map[] <==> RulesOf(db, base) == [] && RulesOf(db, target) == []
  {
    hide EntryOf, Owned;
    var b, t := ByNumber(db.rules, base), ByNumber(db.rules, target);
    var entries := Entries(db.rules, base, target);
    if entries != map[] {
      var n :| n in entries;
      var k := RuleHasPosition(db, if n in b then b[n] else t[n]);
    }
    if RulesOf(db, base) != [] {
      assert db.rules[RulesOf(db, base)[0]].number in entries;
    }
    if RulesOf(db, target) != [] {
      assert db.rules[RulesOf(db, target)[0]].number in entries;
    }
  }
}
