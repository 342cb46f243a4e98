/** Rule set versions, their chapters, rules and deadline definitions: cloning a draft and comparing two versions. */
module RuleVersions {
  import opened Wrappers
  import opened RuleBook

  datatype VersionStatus = DRAFT | ACTIVE | SUPERSEDED | ARCHIVED

  datatype ReviewState = NOT_STARTED | UNDER_REVIEW | CHANGES_REQUESTED | BLOCKED | APPROVED

  datatype ChapterReviewStatus = NO_ISSUE | COMMENT | CHANGE_REQUESTED | BLOCKER | CHAPTER_APPROVED

  datatype RuleReviewStatus = PENDING | OK | CHANGE_REQUIRED | RULE_BLOCKER

  datatype Version = Version(
    ruleSetId: nat, name: string, status: VersionStatus, reviewState: ReviewState, signedOffAt: Option<int>, notice: string)

  /** A chapter; `heading` stands for its titles, summaries and sort order. */
  datatype Chapter = Chapter(versionId: nat, number: int, heading: string)

  /** The fields of a rule that may be edited, which are also the ones compared. */
  datatype Wording = Wording(
    title: string, titleAr: Option<string>, text: string, textAr: Option<string>,
    mandatoryLawWarning: Option<string>, publicVisible: bool)

  /** A rule; `operational` stands for the columns that are copied but never edited. */
  datatype Rule = Rule(versionId: nat, chapterId: nat, number: string, wording: Wording, operational: string)

  /** Row numbers serve as ids; reviews are keyed by version and chapter, review items by version and rule. */
  datatype Tables = Tables(
    versions: seq<Version>,
    chapters: seq<Chapter>,
    rules: seq<Rule>,
    definitions: seq<Definition>,
    chapterReviews: map<(nat, nat), ChapterReviewStatus>,
    reviewItems: map<(nat, nat), RuleReviewStatus>,
    pins: map<nat, nat>
  )

  // ---- Rows of a version ----

  /** The ids, in order, of the rows whose owner is v. */
  function Owned(owners: seq<nat>, v: nat): (ids: seq<nat>)
    ensures forall k :: 0 <= k < |ids| ==> ids[k] < |owners| && owners[ids[k]] == v
  {
    if owners == [] then []
    else
      var n := |owners| - 1;
      Owned(owners[..n], v) + if owners[n] == v then [n] else []
  }

  lemma {:induction false} OwnedHas(owners: seq<nat>, v: nat, i: nat)
    requires i < |owners| && owners[i] == v
    ensures i in Owned(owners, v)
  {
    var n := |owners| - 1;
    if i < n {
      OwnedHas(owners[..n], v, i);
      assert i in Owned(owners[..n], v);
    }
  }

  lemma {:induction false} OwnedByNone(owners: seq<nat>, v: nat)
    requires forall i :: 0 <= i < |owners| ==> owners[i] != v
    ensures Owned(owners, v) == []
  {
    if owners != [] {
      OwnedByNone(owners[..|owners| - 1], v);
    }
  }

  function From(first: nat, n: nat): (ids: seq<nat>)
    ensures |ids| == n && forall k :: 0 <= k < n ==> ids[k] == first + k
  {
    seq(n, k requires 0 <= k < n => first + k)
  }

  /** Rows of a new version all come after the rows that were there. */
  lemma {:induction false} OwnedByNewcomer(owners: seq<nat>, more: seq<nat>, v: nat)
    requires forall i :: 0 <= i < |owners| ==> owners[i] != v
    requires forall i :: 0 <= i < |more| ==> more[i] == v
    ensures Owned(owners + more, v) == From(|owners|, |more|)
  {
    if more == [] {
      assert owners + more == owners;
      OwnedByNone(owners, v);
    } else {
      var n := |more| - 1;
      assert (owners + more)[..|owners| + n] == owners + more[..n];
      OwnedByNewcomer(owners, more[..n], v);
      assert Owned(owners + more, v) == From(|owners|, n) + [|owners| + n];
    }
  }

  /** Rows of others do not disturb the rows of v. */
  lemma {:induction false} OwnedKept(owners: seq<nat>, more: seq<nat>, v: nat)
    requires forall i :: 0 <= i < |more| ==> more[i] != v
    ensures Owned(owners + more, v) == Owned(owners, v)
  {
    if more == [] {
      assert owners + more == owners;
    } else {
      var n := |more| - 1;
      assert (owners + more)[..|owners| + n] == owners + more[..n];
      OwnedKept(owners, more[..n], v);
    }
  }

  function ChapterOwners(chapters: seq<Chapter>): (owners: seq<nat>)
    ensures |owners| == |chapters| && forall i :: 0 <= i < |chapters| ==> owners[i] == chapters[i].versionId
  {
    seq(|chapters|, i requires 0 <= i < |chapters| => chapters[i].versionId)
  }

  function RuleOwners(rules: seq<Rule>): (owners: seq<nat>)
    ensures |owners| == |rules| && forall i :: 0 <= i < |rules| ==> owners[i] == rules[i].versionId
  {
    seq(|rules|, i requires 0 <= i < |rules| => rules[i].versionId)
  }

  function ChaptersOf(db: Tables, v: nat): (ids: seq<nat>)
    ensures forall k :: 0 <= k < |ids| ==> ids[k] < |db.chapters| && db.chapters[ids[k]].versionId == v
  {
    Owned(ChapterOwners(db.chapters), v)
  }

  function RulesOf(db: Tables, v: nat): (ids: seq<nat>)
    ensures forall k :: 0 <= k < |ids| ==> ids[k] < |db.rules| && db.rules[ids[k]].versionId == v
  {
    Owned(RuleOwners(db.rules), v)
  }

  /** Key and terms of the definitions of a rule, in order. */
  function Terms(definitions: seq<Definition>, rule: nat): seq<(string, DefinitionTerms)> {
    if definitions == [] then []
    else
      var last := definitions[|definitions| - 1];
      Terms(definitions[..|definitions| - 1], rule) + if last.ruleId == rule then [(last.key, last.terms)] else []
  }

  lemma {:induction false} TermsAppend(a: seq<Definition>, b: seq<Definition>, rule: nat)
    ensures Terms(a + b, rule) == Terms(a, rule) + Terms(b, rule)
  {
    if b == [] {
      assert a + b == a;
    } else {
      assert (a + b)[..|a + b| - 1] == a + b[..|b| - 1];
      TermsAppend(a, b[..|b| - 1], rule);
    }
  }

  lemma {:induction false} NoTerms(definitions: seq<Definition>, rule: nat)
    requires forall i :: 0 <= i < |definitions| ==> definitions[i].ruleId != rule
    ensures Terms(definitions, rule) == []
  {
    if definitions != [] {
      NoTerms(definitions[..|definitions| - 1], rule);
    }
  }

  // ---- Cloning a draft ----

  function Attach(terms: seq<(string, DefinitionTerms)>, rule: nat): (rows: seq<Definition>)
    ensures |rows| == |terms| && forall i :: 0 <= i < |rows| ==> rows[i].ruleId == rule
  {
    seq(|terms|, i requires 0 <= i < |terms| => Definition(rule, terms[i].0, terms[i].1))
  }

  lemma {:induction false} AttachedTerms(terms: seq<(string, DefinitionTerms)>, rule: nat)
    ensures Terms(Attach(terms, rule), rule) == terms
  {
    if terms != [] {
      var n := |terms| - 1;
      assert Attach(terms, rule)[..n] == Attach(terms[..n], rule);
      AttachedTerms(terms[..n], rule);
    }
  }

  function Position(ids: seq<nat>, id: nat): (k: nat)
    requires id in ids
    ensures k < |ids| && ids[k] == id
  {
    if ids[0] == id then 0 else 1 + Position(ids[1..], id)
  }

  /** Every rule of version v sits in a chapter of v. */
  predicate Placed(db: Tables, v: nat) {
    forall i :: 0 <= i < |db.rules| && db.rules[i].versionId == v ==> db.rules[i].chapterId in ChaptersOf(db, v)
  }

  function ClonedChapters(db: Tables, from: nat, draft: nat): (rows: seq<Chapter>)
    ensures |rows| == |ChaptersOf(db, from)|
    ensures forall k :: 0 <= k < |rows| ==> rows[k] == db.chapters[ChaptersOf(db, from)[k]].(versionId := draft)
  {
    var ids := ChaptersOf(db, from);
    assert forall k :: 0 <= k < |ids| ==> ids[k] in ids;
    seq(|ids|, k requires 0 <= k < |ids| => db.chapters[ids[k]].(versionId := draft))
  }

  /** The clone of a rule, in the clone of its chapter. */
  function ClonedRule(db: Tables, from: nat, draft: nat, rule: Rule): Rule
    requires rule.chapterId in ChaptersOf(db, from)
  {
    rule.(versionId := draft, chapterId := |db.chapters| + Position(ChaptersOf(db, from), rule.chapterId))
  }

  function ClonedRules(db: Tables, from: nat, draft: nat): (rows: seq<Rule>)
    requires Placed(db, from)
    ensures |rows| == |RulesOf(db, from)|
    ensures forall k :: 0 <= k < |rows| ==>
      && db.rules[RulesOf(db, from)[k]].chapterId in ChaptersOf(db, from)
      && rows[k] == ClonedRule(db, from, draft, db.rules[RulesOf(db, from)[k]])
  {
    var ids := RulesOf(db, from);
    assert forall k :: 0 <= k < |ids| ==> ids[k] in ids;
    seq(|ids|, k requires 0 <= k < |ids| => ClonedRule(db, from, draft, db.rules[ids[k]]))
  }

  /** The definitions of the first n of some rules, attached to consecutive new ones. */
  function ClonedDefinitions(definitions: seq<Definition>, rules: seq<nat>, first: nat, n: nat): (rows: seq<Definition>)
    requires n <= |rules|
    ensures forall i :: 0 <= i < |rows| ==> first <= rows[i].ruleId < first + n
  {
    if n == 0 then []
    else ClonedDefinitions(definitions, rules, first, n - 1) + Attach(Terms(definitions, rules[n - 1]), first + n - 1)
  }

  function PendingItems(draft: nat, first: nat, n: nat): map<(nat, nat), RuleReviewStatus> {
    map i: nat | first <= i < first + n :: (draft, i) := PENDING
  }

  /** createDraftVersion, once its checks have passed. */
  function CreateDraft(db: Tables, from: nat, name: string): Tables
    requires from < |db.versions| && Placed(db, from)
  {
    var draft := |db.versions|;
    var rules := RulesOf(db, from);
    db.(versions := db.versions
          + [Version(db.versions[from].ruleSetId, name, DRAFT, NOT_STARTED, None, db.versions[from].notice)],
        chapters := db.chapters + ClonedChapters(db, from, draft),
        rules := db.rules + ClonedRules(db, from, draft),
        definitions := db.definitions + ClonedDefinitions(db.definitions, rules, |db.rules|, |rules|),
        reviewItems := db.reviewItems + PendingItems(draft, |db.rules|, |rules|))
  }

  /** Owners and ids refer to rows that exist. */
  predicate Linked(db: Tables) {
    && (forall i :: 0 <= i < |db.chapters| ==> db.chapters[i].versionId < |db.versions|)
    && (forall i :: 0 <= i < |db.rules| ==> db.rules[i].versionId < |db.versions|)
    && (forall i :: 0 <= i < |db.rules| ==> db.rules[i].chapterId < |db.chapters|)
    && (forall i :: 0 <= i < |db.rules| ==> db.chapters[db.rules[i].chapterId].versionId == db.rules[i].versionId)
    && (forall i :: 0 <= i < |db.definitions| ==> db.definitions[i].ruleId < |db.rules|)
  }

  lemma LinkedPlaces(db: Tables, v: nat)
    requires Linked(db)
    ensures Placed(db, v)
  {
    forall i | 0 <= i < |db.rules| && db.rules[i].versionId == v
      ensures db.rules[i].chapterId in ChaptersOf(db, v)
    {
      OwnedHas(ChapterOwners(db.chapters), v, db.rules[i].chapterId);
    }
  }

  /** Two rules with the same content, each in the chapter at the same position of its own version. */
  predicate SameRule(a: Rule, chaptersA: seq<nat>, b: Rule, chaptersB: seq<nat>) {
    && a.number == b.number && a.wording == b.wording && a.operational == b.operational
    && |chaptersA| == |chaptersB|
    && (forall j :: 0 <= j < |chaptersA| ==> (a.chapterId == chaptersA[j] <==> b.chapterId == chaptersB[j]))
  }

  ghost predicate SameChapters(a: Tables, v: nat, b: Tables, w: nat) {
    var cv, cw := ChaptersOf(a, v), ChaptersOf(b, w);
    && |cv| == |cw|
    && (forall k :: 0 <= k < |cv| ==> b.chapters[cw[k]] == a.chapters[cv[k]].(versionId := w))
  }

  /** Version v of a and version w of b have the same chapters, rules and definitions, in the same order. */
  ghost predicate Isomorphic(a: Tables, v: nat, b: Tables, w: nat) {
    var rv, rw := RulesOf(a, v), RulesOf(b, w);
    && SameChapters(a, v, b, w)
    && |rv| == |rw|
    && (forall k :: 0 <= k < |rv| ==>
          && SameRule(a.rules[rv[k]], ChaptersOf(a, v), b.rules[rw[k]], ChaptersOf(b, w))
          && Terms(b.definitions, rw[k]) == Terms(a.definitions, rv[k]))
  }

  lemma {:induction false} ClonedTerms(definitions: seq<Definition>, rules: seq<nat>, first: nat, n: nat, k: nat)
    requires k < n <= |rules|
    ensures Terms(ClonedDefinitions(definitions, rules, first, n), first + k) == Terms(definitions, rules[k])
  {
    hide Terms;
    var before := ClonedDefinitions(definitions, rules, first, n - 1);
    var last := Attach(Terms(definitions, rules[n - 1]), first + n - 1);
    TermsAppend(before, last, first + k);
    if k == n - 1 {
      NoTerms(before, first + k);
      AttachedTerms(Terms(definitions, rules[k]), first + k);
    } else {
      ClonedTerms(definitions, rules, first, n - 1, k);
      NoTerms(last, first + k);
    }
  }

  lemma DraftChapters(db: Tables, from: nat, name: string)
    requires Linked(db) && from < |db.versions| && Placed(db, from)
    ensures ChaptersOf(CreateDraft(db, from, name), |db.versions|) == From(|db.chapters|, |ChaptersOf(db, from)|)
  {
    hide Owned, Placed;
    var draft := |db.versions|;
    var copies := ClonedChapters(db, from, draft);
    assert ChapterOwners(db.chapters + copies) == ChapterOwners(db.chapters) + ChapterOwners(copies);
    OwnedByNewcomer(ChapterOwners(db.chapters), ChapterOwners(copies), draft);
  }

  lemma DraftRules(db: Tables, from: nat, name: string)
    requires Linked(db) && from < |db.versions| && Placed(db, from)
    ensures RulesOf(CreateDraft(db, from, name), |db.versions|) == From(|db.rules|, |RulesOf(db, from)|)
  {
    hide Owned, Placed;
    var draft := |db.versions|;
    var copies := ClonedRules(db, from, draft);
    assert RuleOwners(db.rules + copies) == RuleOwners(db.rules) + RuleOwners(copies);
    OwnedByNewcomer(RuleOwners(db.rules), RuleOwners(copies), draft);
  }

  lemma DraftTerms(db: Tables, from: nat, name: string, k: nat)
    requires Linked(db) && from < |db.versions| && Placed(db, from) && k < |RulesOf(db, from)|
    ensures Terms(CreateDraft(db, from, name).definitions, |db.rules| + k) == Terms(db.definitions, RulesOf(db, from)[k])
  {
    hide Terms, ClonedRules, ClonedChapters, ClonedDefinitions, Placed, PendingItems;
    var rules := RulesOf(db, from);
    TermsAppend(db.definitions, ClonedDefinitions(db.definitions, rules, |db.rules|, |rules|), |db.rules| + k);
    NoTerms(db.definitions, |db.rules| + k);
    ClonedTerms(db.definitions, rules, |db.rules|, |rules|, k);
  }

  lemma {:induction false} PositionIs(ids: seq<nat>, j: nat)
    requires j < |ids|
    requires forall i, k :: 0 <= i < k < |ids| ==> ids[i] != ids[k]
    ensures ids[j] in ids && Position(ids, ids[j]) == j
  {
  }

  lemma {:induction false} OwnedDistinct(owners: seq<nat>, v: nat)
    ensures forall i, k :: 0 <= i < k < |Owned(owners, v)| ==> Owned(owners, v)[i] != Owned(owners, v)[k]
  {
    if owners != [] {
      OwnedDistinct(owners[..|owners| - 1], v);
    }
  }

  lemma DraftRule(db: Tables, from: nat, k: nat)
    requires Linked(db) && from < |db.versions| && Placed(db, from) && k < |RulesOf(db, from)|
    ensures SameRule(db.rules[RulesOf(db, from)[k]], ChaptersOf(db, from),
                     ClonedRules(db, from, |db.versions|)[k], From(|db.chapters|, |ChaptersOf(db, from)|))
  {
    hide Owned, Placed;
    OwnedDistinct(ChapterOwners(db.chapters), from);
  }

  lemma SameChaptersAppended(a: Tables, v: nat, b: Tables, w: nat)
    requires b.chapters == a.chapters + ClonedChapters(a, v, w)
    requires ChaptersOf(b, w) == From(|a.chapters|, |ChaptersOf(a, v)|)
    ensures SameChapters(a, v, b, w)
  {
    hide ChaptersOf, ClonedChapters, From;
    forall k | 0 <= k < |ChaptersOf(a, v)|
      ensures b.chapters[ChaptersOf(b, w)[k]] == a.chapters[ChaptersOf(a, v)[k]].(versionId := w)
    {
      assert b.chapters[|a.chapters| + k] == ClonedChapters(a, v, w)[k];
    }
  }

  /** The k-th rule of a draft repeats the k-th rule of its source. */
  lemma DraftRepeatsRule(db: Tables, from: nat, name: string, k: nat)
    requires Linked(db) && from < |db.versions| && Placed(db, from) && k < |RulesOf(db, from)|
    ensures |RulesOf(CreateDraft(db, from, name), |db.versions|)| == |RulesOf(db, from)|
    ensures var after := CreateDraft(db, from, name);
      var i, j := RulesOf(db, from)[k], RulesOf(after, |db.versions|)[k];
      && SameRule(db.rules[i], ChaptersOf(db, from), after.rules[j], ChaptersOf(after, |db.versions|))
      && Terms(after.definitions, j) == Terms(db.definitions, i)
  {
    hide Terms, Placed, SameRule, ClonedRules, ClonedChapters, ClonedDefinitions, PendingItems, RulesOf, ChaptersOf, Linked;
    var after := CreateDraft(db, from, name);
    var j := RulesOf(after, |db.versions|);
    DraftRules(db, from, name);
    assert j[k] == |db.rules| + k;
    assert after.rules[j[k]] == ClonedRules(db, from, |db.versions|)[k];
    DraftChapters(db, from, name);
    DraftTerms(db, from, name, k);
    DraftRule(db, from, k);
  }

  /** A new draft is isomorphic to the version it was cloned from. */
  lemma CloneIsIsomorphic(db: Tables, from: nat, name: string)
    requires Linked(db) && from < |db.versions|
    ensures Placed(db, from)
    ensures Isomorphic(db, from, CreateDraft(db, from, name), |db.versions|)
  {
    LinkedPlaces(db, from);
    DraftChapters(db, from, name);
    DraftRules(db, from, name);
    SameChaptersAppended(db, from, CreateDraft(db, from, name), |db.versions|);
    hide Terms, Placed, SameRule, SameChapters, RulesOf, ChaptersOf, Linked, From, CreateDraft;
    forall k | 0 <= k < |RulesOf(db, from)| {
      DraftRepeatsRule(db, from, name, k);
    }
  }

  // ---- Editing ----

  /** A field of an edit: left out, sent as null, or sent with a value. */
  datatype Sent<T> = Absent | Null | Value(value: T)

  datatype Patch = Patch(
    title: Sent<string>, titleAr: Sent<string>, text: Sent<string>, textAr: Sent<string>,
    mandatoryLawWarning: Sent<string>, publicVisible: Sent<bool>)

  const NO_EDIT := Patch(Absent, Absent, Absent, Absent, Absent, Absent)

  function Overwrite<T>(current: T, sent: Sent<T>): T {
    if sent.Value? then sent.value else current
  }

  function OverwriteNullable<T>(current: Option<T>, sent: Sent<T>): Option<T> {
    match sent
    case Absent => current
    case Null => None
    case Value(value) => Some(value)
  }

  function Patched(w: Wording, p: Patch): Wording {
    Wording(Overwrite(w.title, p.title), OverwriteNullable(w.titleAr, p.titleAr),
            Overwrite(w.text, p.text), OverwriteNullable(w.textAr, p.textAr),
            OverwriteNullable(w.mandatoryLawWarning, p.mandatoryLawWarning),
            Overwrite(w.publicVisible, p.publicVisible))
  }

  // ---- Comparing ----

  datatype Field = Title | TitleAr | Text | TextAr | MandatoryLawWarning | PublicVisible

  const DIFF_FIELDS := [Title, TitleAr, Text, TextAr, MandatoryLawWarning, PublicVisible]

  function Shown(value: Option<string>): string {
    if value.Some? then value.value else ""
  }

  /** The text a field is compared by: a missing value reads as empty. */
  function Rendered(w: Wording, f: Field): string {
    match f
    case Title => w.title
    case TitleAr => Shown(w.titleAr)
    case Text => w.text
    case TextAr => Shown(w.textAr)
    case MandatoryLawWarning => Shown(w.mandatoryLawWarning)
    case PublicVisible => if w.publicVisible then "true" else "false"
  }

  function ChangedAmong(fields: seq<Field>, base: Wording, target: Wording): (changed: seq<Field>)
    ensures forall f :: f in changed <==> f in fields && Rendered(base, f) != Rendered(target, f)
    ensures changed == [] <==> forall f :: f in fields ==> Rendered(base, f) == Rendered(target, f)
  {
    if fields == [] then []
    else
      (if Rendered(base, fields[0]) != Rendered(target, fields[0]) then [fields[0]] else [])
      + ChangedAmong(fields[1..], base, target)
  }

  datatype Entry =
    | Removed(title: string)
    | Added(title: string)
    | Changed(title: string, fields: seq<Field>, base: Wording, target: Wording)
    | Unchanged(title: string)

  /** The rules of a version by number; the last of two with the same number counts. */
  function ByNumber(rules: seq<Rule>, v: nat): (index: map<string, nat>)
    ensures forall n :: n in index ==>
      index[n] < |rules| && rules[index[n]].versionId == v && rules[index[n]].number == n
    ensures forall i :: 0 <= i < |rules| && rules[i].versionId == v ==> rules[i].number in index
  {
    if rules == [] then map[]
    else
      var n := |rules| - 1;
      var before := ByNumber(rules[..n], v);
      if rules[n].versionId == v then before[rules[n].number := n] else before
  }

  function EntryOf(rules: seq<Rule>, base: Option<nat>, target: Option<nat>): Entry
    requires base.Some? ==> base.value < |rules|
    requires target.Some? ==> target.value < |rules|
    requires base.Some? || target.Some?
  {
    if target.None? then Removed(rules[base.value].wording.title)
    else if base.None? then Added(rules[target.value].wording.title)
    else
      var b, t := rules[base.value].wording, rules[target.value].wording;
      var changed := ChangedAmong(DIFF_FIELDS, b, t);
      if changed != [] then Changed(t.title, changed, b, t) else Unchanged(t.title)
  }

  function Lookup(index: map<string, nat>, number: string): Option<nat> {
    if number in index then Some(index[number]) else None
  }

  datatype Comparison = Comparison(entries: map<string, Entry>, additions: nat, removals: nat, changes: nat, matches: nat)

  function Entries(rules: seq<Rule>, base: nat, target: nat): map<string, Entry> {
    var b, t := ByNumber(rules, base), ByNumber(rules, target);
    map number | number in b.Keys + t.Keys :: EntryOf(rules, Lookup(b, number), Lookup(t, number))
  }

  /** diff: an entry for every rule number of either version, or None when neither has a rule. */
  function Diff(rules: seq<Rule>, base: nat, target: nat): Option<Comparison> {
    var entries := Entries(rules, base, target);
    if entries == map[] then None
    else
      Some(Comparison(
        entries,
        |set n | n in entries && entries[n].Added?|,
        |set n | n in entries && entries[n].Removed?|,
        |set n | n in entries && entries[n].Changed?|,
        |set n | n in entries && entries[n].Unchanged?|))
  }

  predicate UniqueNumbers(rules: seq<Rule>) {
    forall i, j :: 0 <= i < j < |rules| && rules[i].versionId == rules[j].versionId ==> rules[i].number != rules[j].number
  }

  lemma NumberFinds(rules: seq<Rule>, i: nat)
    requires UniqueNumbers(rules) && i < |rules|
    ensures Lookup(ByNumber(rules, rules[i].versionId), rules[i].number) == Some(i)
  {
    var index := ByNumber(rules, rules[i].versionId);
    assert index[rules[i].number] == i;
  }

  /** Reading a comparison the other way round. */
  predicate Mirrors(e: Entry, f: Entry) {
    match e
    case Removed(title) => f == Added(title)
    case Added(title) => f == Removed(title)
    case Changed(_, fields, base, target) => f == Changed(base.title, fields, target, base)
    case Unchanged(title) => f == Unchanged(title)
  }

  lemma {:induction false} ChangedAmongMirrors(fields: seq<Field>, base: Wording, target: Wording)
    ensures ChangedAmong(fields, base, target) == ChangedAmong(fields, target, base)
  {
    if fields != [] {
      ChangedAmongMirrors(fields[1..], base, target);
    }
  }

  lemma UnchangedTitle(base: Wording, target: Wording)
    requires ChangedAmong(DIFF_FIELDS, base, target) == []
    ensures base.title == target.title
  {
    assert DIFF_FIELDS[0] == Title;
    assert Rendered(base, Title) == Rendered(target, Title);
  }

  lemma EntryMirrors(rules: seq<Rule>, b: Option<nat>, t: Option<nat>)
    requires b.Some? ==> b.value < |rules|
    requires t.Some? ==> t.value < |rules|
    requires b.Some? || t.Some?
    ensures Mirrors(EntryOf(rules, b, t), EntryOf(rules, t, b))
  {
    hide ChangedAmong, Rendered;
    if b.Some? && t.Some? {
      var x, y := rules[b.value].wording, rules[t.value].wording;
      ChangedAmongMirrors(DIFF_FIELDS, x, y);
      if ChangedAmong(DIFF_FIELDS, x, y) == [] {
        UnchangedTitle(x, y);
      }
    }
  }

  lemma EntriesMirror(rules: seq<Rule>, base: nat, target: nat, number: string)
    requires number in Entries(rules, base, target)
    ensures number in Entries(rules, target, base)
    ensures Mirrors(Entries(rules, base, target)[number], Entries(rules, target, base)[number])
  {
    hide EntryOf, Mirrors;
    EntryMirrors(rules, Lookup(ByNumber(rules, base), number), Lookup(ByNumber(rules, target), number));
  }

  lemma MirroredCounts(d: map<string, Entry>, e: map<string, Entry>)
    requires d.Keys == e.Keys
    requires forall n :: n in d ==> Mirrors(d[n], e[n])
    ensures |set n | n in d && d[n].Added?| == |set n | n in e && e[n].Removed?|
    ensures |set n | n in d && d[n].Removed?| == |set n | n in e && e[n].Added?|
    ensures |set n | n in d && d[n].Changed?| == |set n | n in e && e[n].Changed?|
    ensures |set n | n in d && d[n].Unchanged?| == |set n | n in e && e[n].Unchanged?|
  {
    assert (set n | n in d && d[n].Added?) == (set n | n in e && e[n].Removed?);
    assert (set n | n in d && d[n].Removed?) == (set n | n in e && e[n].Added?);
    assert (set n | n in d && d[n].Changed?) == (set n | n in e && e[n].Changed?);
    assert (set n | n in d && d[n].Unchanged?) == (set n | n in e && e[n].Unchanged?);
  }

  /** Swapping the two versions turns additions into removals and keeps the rest. */
  lemma DiffMirrors(rules: seq<Rule>, base: nat, target: nat)
    ensures Diff(rules, base, target).Some? <==> Diff(rules, target, base).Some?
    ensures Diff(rules, base, target).Some? ==>
      var d, e := Diff(rules, base, target).value, Diff(rules, target, base).value;
      && d.entries.Keys == e.entries.Keys
      && (forall n :: n in d.entries ==> Mirrors(d.entries[n], e.entries[n]))
      && d.additions == e.removals && d.removals == e.additions && d.changes == e.changes && d.matches == e.matches
  {
    var d, e := Entries(rules, base, target), Entries(rules, target, base);
    hide EntryOf, ByNumber, Entries, Mirrors;
    forall n | n in d
      ensures n in e && Mirrors(d[n], e[n])
    {
      EntriesMirror(rules, base, target, n);
    }
    forall n | n in e
      ensures n in d
    {
      EntriesMirror(rules, target, base, n);
    }
    assert d.Keys == e.Keys;
    assert d == map[] <==> d.Keys == {};
    assert e == map[] <==> e.Keys == {};
    MirroredCounts(d, e);
  }

  /** Two versions whose rules pair off by position under the same numbers. */
  ghost predicate Paired(rules: seq<Rule>, base: seq<nat>, target: seq<nat>) {
    && |base| == |target|
    && forall k :: 0 <= k < |base| ==> base[k] < |rules| && target[k] < |rules| && rules[base[k]].number == rules[target[k]].number
  }

  lemma RuleHasPosition(db: Tables, i: nat) returns (k: nat)
    requires i < |db.rules|
    ensures k < |RulesOf(db, db.rules[i].versionId)| && RulesOf(db, db.rules[i].versionId)[k] == i
  {
    OwnedHas(RuleOwners(db.rules), db.rules[i].versionId, i);
    k := Position(RulesOf(db, db.rules[i].versionId), i);
  }

  /** Of paired versions nothing is added or removed: every entry compares two rules at one position. */
  lemma PairedDiff(db: Tables, base: nat, target: nat, number: string) returns (k: nat)
    requires UniqueNumbers(db.rules)
    requires Paired(db.rules, RulesOf(db, base), RulesOf(db, target))
    requires number in Entries(db.rules, base, target)
    ensures k < |RulesOf(db, base)| && number == db.rules[RulesOf(db, base)[k]].number
    ensures Entries(db.rules, base, target)[number]
         == EntryOf(db.rules, Some(RulesOf(db, base)[k]), Some(RulesOf(db, target)[k]))
  {
    hide EntryOf, RulesOf;
    var bs, ts := RulesOf(db, base), RulesOf(db, target);
    var b, t := Lookup(ByNumber(db.rules, base), number), Lookup(ByNumber(db.rules, target), number);
    k := RuleHasPosition(db, if b.Some? then b.value else t.value);
    NumberFinds(db.rules, bs[k]);
    NumberFinds(db.rules, ts[k]);
  }

  /** Version v has a rule with that number. */
  predicate HasNumber(rules: seq<Rule>, v: nat, number: string) {
    exists i :: 0 <= i < |rules| && rules[i].versionId == v && rules[i].number == number
  }

  lemma NumberIndexed(rules: seq<Rule>, v: nat, number: string)
    ensures number in ByNumber(rules, v) <==> HasNumber(rules, v, number)
  {
    var index := ByNumber(rules, v);
    if number in index {
      assert rules[index[number]].number == number;
    }
  }

  /** What an entry says: only in the base, only in the target, or in both, with a field that reads differently or without. */
  lemma EntriesSay(rules: seq<Rule>, base: nat, target: nat, number: string)
    requires UniqueNumbers(rules)
    ensures number in Entries(rules, base, target) <==> HasNumber(rules, base, number) || HasNumber(rules, target, number)
    ensures number in Entries(rules, base, target) ==>
      var entry := Entries(rules, base, target)[number];
      && (entry.Removed? <==> HasNumber(rules, base, number) && !HasNumber(rules, target, number))
      && (entry.Added? <==> !HasNumber(rules, base, number) && HasNumber(rules, target, number))
      && (forall i, j :: 0 <= i < |rules| && 0 <= j < |rules| && SameNumber(rules, base, i, target, j, number) ==>
            (entry.Changed? <==> ReadsDifferently(rules[i].wording, rules[j].wording)))
  {
    hide ChangedAmong, ByNumber, HasNumber, Rendered;
    NumberIndexed(rules, base, number);
    NumberIndexed(rules, target, number);
    forall i, j | 0 <= i < |rules| && 0 <= j < |rules| && SameNumber(rules, base, i, target, j, number)
      ensures number in Entries(rules, base, target)
      ensures Entries(rules, base, target)[number].Changed? <==> ReadsDifferently(rules[i].wording, rules[j].wording)
    {
      NumberFinds(rules, i);
      NumberFinds(rules, j);
      AllFieldsCompared(rules[i].wording, rules[j].wording);
    }
  }

  predicate SameNumber(rules: seq<Rule>, v: nat, i: nat, w: nat, j: nat, number: string)
    requires i < |rules| && j < |rules|
  {
    rules[i].versionId == v && rules[j].versionId == w && rules[i].number == number && rules[j].number == number
  }

  /** A missing value and an empty one. */
  predicate Blank(value: Option<string>) {
    value == None || value == Some("")
  }

  predicate SameReading(a: Option<string>, b: Option<string>) {
    a == b || (Blank(a) && Blank(b))
  }

  /** One of the six compared fields differs, missing texts counting as empty. */
  predicate ReadsDifferently(a: Wording, b: Wording) {
    || a.title != b.title || a.text != b.text || a.publicVisible != b.publicVisible
    || !SameReading(a.titleAr, b.titleAr) || !SameReading(a.textAr, b.textAr)
    || !SameReading(a.mandatoryLawWarning, b.mandatoryLawWarning)
  }

  /** A field differs as it is rendered for comparison. */
  lemma FieldsDiffer(a: Wording, b: Wording, f: Field)
    ensures Rendered(a, f) != Rendered(b, f)
      <==> match f
           case Title => a.title != b.title
           case TitleAr => !SameReading(a.titleAr, b.titleAr)
           case Text => a.text != b.text
           case TextAr => !SameReading(a.textAr, b.textAr)
           case MandatoryLawWarning => !SameReading(a.mandatoryLawWarning, b.mandatoryLawWarning)
           case PublicVisible => a.publicVisible != b.publicVisible
  {
  }

  lemma AllFieldsCompared(a: Wording, b: Wording)
    ensures ChangedAmong(DIFF_FIELDS, a, b) != [] <==> ReadsDifferently(a, b)
  {
    hide Rendered, ChangedAmong, SameReading;
    forall f: Field {
      FieldsDiffer(a, b, f);
    }
    if ReadsDifferently(a, b) {
      SomeFieldDiffers(a, b);
    }
    forall f: Field
      ensures f in DIFF_FIELDS
    {
      match f
      case Title => assert DIFF_FIELDS[0] == f;
      case TitleAr => assert DIFF_FIELDS[1] == f;
      case Text => assert DIFF_FIELDS[2] == f;
      case TextAr => assert DIFF_FIELDS[3] == f;
      case MandatoryLawWarning => assert DIFF_FIELDS[4] == f;
      case PublicVisible => assert DIFF_FIELDS[5] == f;
    }
  }

  lemma SomeFieldDiffers(a: Wording, b: Wording)
    requires ReadsDifferently(a, b)
    ensures exists f: Field :: Rendered(a, f) != Rendered(b, f)
  {
    hide Rendered, SameReading;
    FieldsDiffer(a, b, Title);
    FieldsDiffer(a, b, TitleAr);
    FieldsDiffer(a, b, Text);
    FieldsDiffer(a, b, TextAr);
    FieldsDiffer(a, b, MandatoryLawWarning);
    FieldsDiffer(a, b, PublicVisible);
  }

  lemma DisjointUnion(a: set<string>, b: set<string>)
    requires a !! b
    ensures |a + b| == |a| + |b|
  {
  }

  /** The numbers of the rules of version v. */
  function Numbers(rules: seq<Rule>, v: nat): set<string> {
    set i | 0 <= i < |rules| && rules[i].versionId == v :: rules[i].number
  }

  lemma AllButAdded(e: map<string, Entry>, numbers: set<string>)
    requires forall n :: n in numbers <==> n in e && !e[n].Added?
    ensures |numbers| == |set n | n in e && e[n].Removed?| + |set n | n in e && e[n].Changed?| + |set n | n in e && e[n].Unchanged?|
  {
    var removed, changed, same :=
      set n | n in e && e[n].Removed?, set n | n in e && e[n].Changed?, set n | n in e && e[n].Unchanged?;
    DisjointUnion(removed, changed);
    DisjointUnion(removed + changed, same);
    assert numbers == removed + changed + same;
  }

  lemma AllButRemoved(e: map<string, Entry>, numbers: set<string>)
    requires forall n :: n in numbers <==> n in e && !e[n].Removed?
    ensures |numbers| == |set n | n in e && e[n].Added?| + |set n | n in e && e[n].Changed?| + |set n | n in e && e[n].Unchanged?|
  {
    var added, changed, same :=
      set n | n in e && e[n].Added?, set n | n in e && e[n].Changed?, set n | n in e && e[n].Unchanged?;
    DisjointUnion(added, changed);
    DisjointUnion(added + changed, same);
    assert numbers == added + changed + same;
  }

  /** Removed, changed and unchanged rules are the base's; added, changed and unchanged ones the target's. */
  lemma CountsCoverVersions(rules: seq<Rule>, base: nat, target: nat)
    requires UniqueNumbers(rules) && Diff(rules, base, target).Some?
    ensures var d := Diff(rules, base, target).value;
      && d.removals + d.changes + d.matches == |Numbers(rules, base)|
      && d.additions + d.changes + d.matches == |Numbers(rules, target)|
  {
    hide Entries, UniqueNumbers, EntryOf, Numbers, HasNumber, SameNumber, ReadsDifferently;
    var e := Entries(rules, base, target);
    forall n: string
      ensures n in Numbers(rules, base) <==> n in e && !e[n].Added?
      ensures n in Numbers(rules, target) <==> n in e && !e[n].Removed?
    {
      EntriesSay(rules, base, target, n);
      NumberListed(rules, base, n);
      NumberListed(rules, target, n);
    }
    AllButAdded(e, Numbers(rules, base));
    AllButRemoved(e, Numbers(rules, target));
  }

  lemma NumberListed(rules: seq<Rule>, v: nat, number: string)
    ensures number in Numbers(rules, v) <==> HasNumber(rules, v, number)
  {
  }

  /** The four counts of a comparison account for every entry once. */
  lemma CountsAddUp(rules: seq<Rule>, base: nat, target: nat)
    requires Diff(rules, base, target).Some?
    ensures var d := Diff(rules, base, target).value;
      d.additions + d.removals + d.changes + d.matches == |d.entries|
  {
    hide Entries;
    var e := Entries(rules, base, target);
    var added, removed := set n | n in e && e[n].Added?, set n | n in e && e[n].Removed?;
    var changed, same := set n | n in e && e[n].Changed?, set n | n in e && e[n].Unchanged?;
    DisjointUnion(added, removed);
    DisjointUnion(added + removed, changed);
    DisjointUnion(added + removed + changed, same);
    assert e.Keys == added + removed + changed + same;
    assert |e.Keys| == |e|;
  }
}
