/**
 Filings, their receipts and the corrections that supersede them. Row numbers serve as ids;
 the database refuses a second filing with the same number in a case and a second successor of a filing.
 */
module FilingRegister {
  import opened Wrappers
  import opened Decimals

  // ---- The tables ----

  datatype FilingStatus = SUBMITTED | SUPERSEDED

  /** A filing; `header` stands for the type, title, party, time zone and confidentiality that corrections carry over. */
  datatype Filing = Filing(
    caseId: nat, number: string, version: nat, header: string, documents: seq<nat>, contentHash: string,
    status: FilingStatus, supersedes: Option<nat>)

  datatype Approval = PENDING | APPROVED | REJECTED

  datatype Correction = Correction(filingId: nat, newVersion: nat, approval: Approval, newFilingId: Option<nat>)

  datatype FilingReceipt = FilingReceipt(number: string, version: nat, contentHash: string, documentCount: nat)

  datatype Tables = Tables(filings: seq<Filing>, corrections: seq<Correction>, receipts: map<nat, FilingReceipt>)

  const EMPTY := Tables([], [], map[])

  datatype FilingError = NotFound | AlreadySuperseded | AlreadyDecided | UniqueViolation

  // ---- Filing numbers ----

  function Zeros(n: nat): (s: string)
    ensures |s| == n && forall i :: 0 <= i < n ==> s[i] == '0'
  {
    seq(n, i requires 0 <= i < n => '0')
  }

  function PadStart(s: string, width: nat): (padded: string) {
    if |s| < width then Zeros(width - |s|) + s else s
  }

  /** The number of the k-th filing of a case. */
  function FilingNumber(k: nat): string {
    "F-" + PadStart(Decimal(k), 4)
  }

  function VersionNumber(base: string, version: nat): string {
    base + "-v" + Decimal(version)
  }

  lemma {:induction false} DecimalDigits(n: nat)
    ensures forall i :: 0 <= i < |Decimal(n)| ==> IsDigit(Decimal(n)[i])
    ensures n >= 1 ==> Decimal(n)[0] != '0'
  {
    if n >= 10 {
      DecimalDigits(n / 10);
    }
  }

  lemma PaddedInjective(a: nat, b: nat)
    requires a >= 1 && b >= 1 && PadStart(Decimal(a), 4) == PadStart(Decimal(b), 4)
    ensures a == b
  {
    hide Decimal;
    var x, y := Decimal(a), Decimal(b);
    DecimalDigits(a);
    DecimalDigits(b);
    assert y[0] == PadStart(y, 4)[|PadStart(y, 4)| - |y|] && x[0] == PadStart(x, 4)[|PadStart(x, 4)| - |x|];
    assert |x| == |y|;
    assert x == PadStart(x, 4)[|PadStart(x, 4)| - |x|..];
    assert y == PadStart(y, 4)[|PadStart(y, 4)| - |y|..];
    DecimalInjective(a, b);
  }

  /** An original number has a single hyphen, its second character. */
  lemma FilingNumberShape(k: nat)
    ensures var s := FilingNumber(k);
      |s| >= 6 && s[0] == 'F' && s[1] == '-' && forall i :: 2 <= i < |s| ==> IsDigit(s[i])
  {
    hide Decimal;
    DecimalDigits(k);
  }

  lemma VersionNumberInjective(a: string, v: nat, b: string, w: nat)
    requires VersionNumber(a, v) == VersionNumber(b, w)
    ensures a == b && v == w
  {
    hide Decimal;
    DecimalDigits(v);
    DecimalDigits(w);
    var s := VersionNumber(a, v);
    assert s[|a|] == '-' && s[|a| + 1] == 'v' && s[|a| + 2..] == Decimal(v);
    assert s[|b|] == '-' && s[|b| + 1] == 'v' && s[|b| + 2..] == Decimal(w);
    assert |a| == |b|;
    assert a == s[..|a|] == s[..|b|] == b;
    DecimalInjective(v, w);
  }

  // ---- Calls ----

  function CountCase(filings: seq<Filing>, caseId: nat): (n: nat) {
    if filings == [] then 0
    else CountCase(filings[..|filings| - 1], caseId) + if filings[|filings| - 1].caseId == caseId then 1 else 0
  }

  predicate Distinct(documents: seq<nat>) {
    forall i, j :: 0 <= i < j < |documents| ==> documents[i] != documents[j]
  }

  /** What the unique indexes let in. */
  predicate Insertable(filings: seq<Filing>, x: Filing) {
    && (forall i :: 0 <= i < |filings| ==> filings[i].caseId != x.caseId || filings[i].number != x.number)
    && (forall i :: 0 <= i < |filings| ==> x.supersedes.None? || filings[i].supersedes != x.supersedes)
    && Distinct(x.documents)
  }

  function ReceiptFor(x: Filing): FilingReceipt {
    FilingReceipt(x.number, x.version, x.contentHash, |x.documents|)
  }

  /** issueReceipt: a filing that has a receipt keeps it. */
  function IssueReceipt(db: Tables, f: nat): Tables
    requires f < |db.filings|
  {
    if f in db.receipts then db else db.(receipts := db.receipts[f := ReceiptFor(db.filings[f])])
  }

  function NewFiling(filings: seq<Filing>, caseId: nat, header: string, documents: seq<nat>, contentHash: string): Filing {
    Filing(caseId, FilingNumber(CountCase(filings, caseId) + 1), 1, header, documents, contentHash, SUBMITTED, None)
  }

  function CorrectedFiling(filings: seq<Filing>, c: Correction, documents: Option<seq<nat>>, contentHash: string): Filing
    requires c.filingId < |filings|
  {
    var f := filings[c.filingId];
    Filing(f.caseId, VersionNumber(f.number, c.newVersion), c.newVersion, f.header,
           if documents.Some? then documents.value else f.documents, contentHash, SUBMITTED, Some(c.filingId))
  }

  function Approve(db: Tables, c: nat, x: Filing): Tables
    requires c < |db.corrections| && db.corrections[c].filingId < |db.filings|
  {
    var f := db.corrections[c].filingId;
    IssueReceipt(
      db.(filings := (db.filings + [x])[f := db.filings[f].(status := SUPERSEDED)],
          corrections := db.corrections[c := db.corrections[c].(approval := APPROVED, newFilingId := Some(|db.filings|))]),
      |db.filings|)
  }

  datatype Call =
    | CallSubmit(caseId: nat, header: string, documents: seq<nat>, contentHash: string)
    | CallRequest(filing: nat)
    | CallApprove(correction: nat, newDocuments: Option<seq<nat>>, newHash: string)
    | CallReject(correction: nat)

  predicate Linked(db: Tables) {
    && (forall c :: 0 <= c < |db.corrections| ==> db.corrections[c].filingId < |db.filings|)
    && (forall f :: 0 <= f < |db.filings| ==> db.filings[f].supersedes.Some? ==> db.filings[f].supersedes.value < f)
  }

  /** What a call answers: the new tables, or the check that refused it. */
  function Outcome(db: Tables, call: Call): Result<Tables, FilingError>
    requires Linked(db)
  {
    match call
    case CallSubmit(caseId, header, documents, contentHash) =>
      var x := NewFiling(db.filings, caseId, header, documents, contentHash);
      if !Insertable(db.filings, x) then Err(UniqueViolation)
      else Ok(IssueReceipt(db.(filings := db.filings + [x]), |db.filings|))
    case CallRequest(f) =>
      if f >= |db.filings| then Err(NotFound)
      else if db.filings[f].status == SUPERSEDED then Err(AlreadySuperseded)
      else Ok(db.(corrections := db.corrections + [Correction(f, db.filings[f].version + 1, PENDING, None)]))
    case CallApprove(c, newDocuments, newHash) =>
      if c >= |db.corrections| then Err(NotFound)
      else if db.corrections[c].approval != PENDING then Err(AlreadyDecided)
      else
        var x := CorrectedFiling(db.filings, db.corrections[c], newDocuments, newHash);
        if !Insertable(db.filings, x) then Err(UniqueViolation) else Ok(Approve(db, c, x))
    case CallReject(c) =>
      if c >= |db.corrections| then Err(NotFound)
      else if db.corrections[c].approval != PENDING then Err(AlreadyDecided)
      else Ok(db.(corrections := db.corrections[c := db.corrections[c].(approval := REJECTED)]))
  }

  function Step(db: Tables, call: Call): Tables
    requires Linked(db)
  {
    var out := Outcome(db, call);
    if out.Ok? then out.value else db
  }

  // ---- Invariants ----

  predicate HasSuccessor(filings: seq<Filing>, f: nat) {
    exists i :: 0 <= i < |filings| && filings[i].supersedes == Some(f)
  }

  /** A filing is an original, numbered by its turn in the case, or the next version of an earlier filing of the case. */
  predicate RowAgrees(filings: seq<Filing>, i: nat)
    requires i < |filings|
  {
    var x := filings[i];
    && Distinct(x.documents)
    && match x.supersedes
       case None => x.version == 1 && x.number == FilingNumber(CountCase(filings[..i], x.caseId) + 1)
       case Some(p) =>
         p < i
         && x.caseId == filings[p].caseId && x.header == filings[p].header
         && x.version == filings[p].version + 1 && x.number == VersionNumber(filings[p].number, x.version)
  }

  predicate RowsAgree(filings: seq<Filing>) {
    forall i :: 0 <= i < |filings| ==> RowAgrees(filings, i)
  }

  predicate OneSuccessor(filings: seq<Filing>) {
    forall i, j :: 0 <= i < j < |filings| && filings[i].supersedes.Some? ==> filings[i].supersedes != filings[j].supersedes
  }

  predicate StatusesAgree(filings: seq<Filing>) {
    forall f :: 0 <= f < |filings| ==> (filings[f].status == SUPERSEDED <==> HasSuccessor(filings, f))
  }

  predicate ReceiptsAgree(db: Tables) {
    && (forall f :: f in db.receipts ==> f < |db.filings|)
    && (forall f :: 0 <= f < |db.filings| ==> f in db.receipts)
    && (forall f :: 0 <= f < |db.filings| ==> db.receipts[f] == ReceiptFor(db.filings[f]))
  }

  /** A correction proposes the next version of its filing; an approved one names the filing that became it. */
  predicate CorrectionsAgree(db: Tables) {
    forall c :: 0 <= c < |db.corrections| ==>
      var x := db.corrections[c];
      && x.filingId < |db.filings| && x.newVersion == db.filings[x.filingId].version + 1
      && (x.newFilingId.Some? <==> x.approval == APPROVED)
      && (x.newFilingId.Some? ==>
           x.newFilingId.value < |db.filings| && db.filings[x.newFilingId.value].supersedes == Some(x.filingId))
  }

  predicate Inv(db: Tables) {
    RowsAgree(db.filings) && OneSuccessor(db.filings) && StatusesAgree(db.filings) && ReceiptsAgree(db) && CorrectionsAgree(db)
  }

  lemma InvLinked(db: Tables)
    requires Inv(db)
    ensures Linked(db)
  {
    forall f | 0 <= f < |db.filings| && db.filings[f].supersedes.Some?
      ensures db.filings[f].supersedes.value < f
    {
      assert RowAgrees(db.filings, f);
    }
  }

  // ---- Numbers never collide ----

  lemma {:induction false} CountGrows(filings: seq<Filing>, i: nat, j: nat, caseId: nat)
    requires i <= j <= |filings|
    ensures CountCase(filings[..i], caseId) <= CountCase(filings[..j], caseId)
    ensures i < j && filings[i].caseId == caseId ==> CountCase(filings[..i], caseId) < CountCase(filings[..j], caseId)
  {
    if i < j {
      CountGrows(filings, i, j - 1, caseId);
      assert filings[..j][..j - 1] == filings[..j - 1];
    }
  }

  lemma {:induction false} NumberLength(filings: seq<Filing>, i: nat)
    requires RowsAgree(filings) && i < |filings|
    ensures |filings[i].number| >= 6
  {
    hide Decimal;
    assert RowAgrees(filings, i);
    if filings[i].supersedes.Some? {
      NumberLength(filings, filings[i].supersedes.value);
    } else {
      FilingNumberShape(CountCase(filings[..i], filings[i].caseId) + 1);
    }
  }

  lemma OriginalIsNoVersion(k: nat, base: string, version: nat)
    requires |base| >= 6
    ensures FilingNumber(k) != VersionNumber(base, version)
  {
    hide Decimal;
    FilingNumberShape(k);
    assert VersionNumber(base, version)[|base|] == '-';
  }

  /** No two filings of a case bear the same number. */
  lemma {:induction false} NumbersUnique(filings: seq<Filing>, i: nat, j: nat)
    requires RowsAgree(filings) && OneSuccessor(filings) && i < j < |filings| && filings[i].caseId == filings[j].caseId
    ensures filings[i].number != filings[j].number
    decreases i + j
  {
    hide FilingNumber, VersionNumber;
    var x, y := filings[i], filings[j];
    assert RowAgrees(filings, i) && RowAgrees(filings, j);
    if x.number == y.number {
      if x.supersedes.None? && y.supersedes.None? {
        CountGrows(filings, i, j, x.caseId);
        SameOriginal(CountCase(filings[..i], x.caseId) + 1, CountCase(filings[..j], x.caseId) + 1);
      } else if x.supersedes.None? {
        NumberLength(filings, y.supersedes.value);
        OriginalIsNoVersion(CountCase(filings[..i], x.caseId) + 1, filings[y.supersedes.value].number, y.version);
      } else if y.supersedes.None? {
        NumberLength(filings, x.supersedes.value);
        OriginalIsNoVersion(CountCase(filings[..j], y.caseId) + 1, filings[x.supersedes.value].number, x.version);
      } else {
        var p, q := x.supersedes.value, y.supersedes.value;
        VersionNumberInjective(filings[p].number, x.version, filings[q].number, y.version);
        if p < q {
          NumbersUnique(filings, p, q);
        } else if q < p {
          NumbersUnique(filings, q, p);
        }
      }
    }
  }

  lemma SameOriginal(a: nat, b: nat)
    requires a >= 1 && b >= 1 && FilingNumber(a) == FilingNumber(b)
    ensures a == b
  {
    hide Decimal, PadStart;
    assert FilingNumber(a)[2..] == PadStart(Decimal(a), 4);
    assert FilingNumber(b)[2..] == PadStart(Decimal(b), 4);
    PaddedInjective(a, b);
  }

  // ---- Steps ----

  /** Filings keep everything but their status, and receipts stay as issued. */
  predicate Keeps(a: Tables, b: Tables) {
    && |a.filings| <= |b.filings|
    && (forall f :: 0 <= f < |a.filings| ==> b.filings[f] == a.filings[f].(status := b.filings[f].status))
    && (forall f :: f in a.receipts ==> f in b.receipts && b.receipts[f] == a.receipts[f])
  }

  lemma {:induction false} CountSame(a: seq<Filing>, b: seq<Filing>, caseId: nat)
    requires |a| == |b| && forall f :: 0 <= f < |a| ==> b[f].caseId == a[f].caseId
    ensures CountCase(a, caseId) == CountCase(b, caseId)
  {
    if a != [] {
      CountSame(a[..|a| - 1], b[..|b| - 1], caseId);
    }
  }

  /** One row more, and statuses as they may be: the rows still agree. */
  lemma RowAppended(a: seq<Filing>, b: seq<Filing>)
    requires RowsAgree(a) && |b| == |a| + 1
    requires forall f :: 0 <= f < |a| ==> b[f] == a[f].(status := b[f].status)
    requires RowAgrees(a + [b[|a|]], |a|)
    ensures RowsAgree(b)
  {
    hide FilingNumber, VersionNumber, Distinct, CountCase;
    forall i | 0 <= i < |b|
      ensures RowAgrees(b, i)
    {
      CountSame((a + [b[|a|]])[..i], b[..i], b[i].caseId);
      if i < |a| {
        assert RowAgrees(a, i);
        assert (a + [b[|a|]])[..i] == a[..i];
      }
    }
  }

  /** A fresh filing is always let in by the unique indexes, but for repeated documents. */
  lemma SubmitNeverCollides(db: Tables, caseId: nat, header: string, documents: seq<nat>, contentHash: string)
    requires Inv(db)
    ensures Insertable(db.filings, NewFiling(db.filings, caseId, header, documents, contentHash)) <==> Distinct(documents)
  {
    hide FilingNumber, VersionNumber, Distinct, HasSuccessor;
    var x := NewFiling(db.filings, caseId, header, documents, contentHash);
    var extended := db.filings + [x.(documents := [])];
    EmptyDistinct();
    FreshRowsAgree(db.filings, x.(documents := []));
    forall i | 0 <= i < |db.filings| && db.filings[i].caseId == caseId
      ensures db.filings[i].number != x.number
    {
      NumbersUnique(extended, i, |db.filings|);
    }
  }

  lemma FreshRowsAgree(filings: seq<Filing>, x: Filing)
    requires RowsAgree(filings) && OneSuccessor(filings)
    requires x.supersedes.None? && Distinct(x.documents) && x.version == 1
    requires x.number == FilingNumber(CountCase(filings, x.caseId) + 1)
    ensures RowsAgree(filings + [x]) && OneSuccessor(filings + [x])
  {
    hide FilingNumber, VersionNumber, Distinct;
    assert (filings + [x])[..|filings|] == filings;
    RowAppended(filings, filings + [x]);
  }

  lemma CorrectedRowsAgree(filings: seq<Filing>, x: Filing, f: nat)
    requires RowsAgree(filings) && OneSuccessor(filings) && f < |filings| && !HasSuccessor(filings, f)
    requires x.supersedes == Some(f) && x.caseId == filings[f].caseId && x.header == filings[f].header && Distinct(x.documents)
    requires x.version == filings[f].version + 1 && x.number == VersionNumber(filings[f].number, x.version)
    ensures RowsAgree(filings + [x]) && OneSuccessor(filings + [x])
  {
    hide FilingNumber, VersionNumber, Distinct;
    RowAppended(filings, filings + [x]);
  }

  /** A correction gets past the unique indexes exactly when its filing has not been superseded and no document repeats. */
  lemma CorrectionInsertable(db: Tables, c: nat, documents: Option<seq<nat>>, contentHash: string)
    requires Inv(db) && c < |db.corrections|
    ensures Linked(db)
    ensures Insertable(db.filings, CorrectedFiling(db.filings, db.corrections[c], documents, contentHash))
      <==> db.filings[db.corrections[c].filingId].status == SUBMITTED && (documents.Some? ==> Distinct(documents.value))
  {
    InvLinked(db);
    hide FilingNumber, VersionNumber, Distinct, ReceiptsAgree;
    var f := db.corrections[c].filingId;
    var x := CorrectedFiling(db.filings, db.corrections[c], documents, contentHash);
    assert RowAgrees(db.filings, f);
    if db.filings[f].status == SUBMITTED {
      EmptyDistinct();
      var bare := x.(documents := []);
      CorrectedRowsAgree(db.filings, bare, f);
      forall i | 0 <= i < |db.filings| && db.filings[i].caseId == x.caseId
        ensures db.filings[i].number != x.number
      {
        NumbersUnique(db.filings + [bare], i, |db.filings|);
      }
    }
  }

  lemma EmptyDistinct()
    ensures Distinct([])
  {
  }

  lemma SubmitKeepsInv(db: Tables, x: Filing)
    requires Inv(db) && x.supersedes.None? && Distinct(x.documents) && x.version == 1 && x.status == SUBMITTED
    requires x.number == FilingNumber(CountCase(db.filings, x.caseId) + 1)
    ensures Inv(IssueReceipt(db.(filings := db.filings + [x]), |db.filings|))
  {
    hide FilingNumber, VersionNumber, Distinct, RowsAgree, OneSuccessor;
    FreshRowsAgree(db.filings, x);
    var filings := db.filings + [x];
    forall f | 0 <= f < |filings|
      ensures filings[f].status == SUPERSEDED <==> HasSuccessor(filings, f)
    {
      SuccessorAppended(db.filings, x, f);
      if f == |db.filings| {
        NoEarlySuccessor(db, f);
      }
    }
  }

  lemma SuccessorAppended(filings: seq<Filing>, x: Filing, f: nat)
    ensures HasSuccessor(filings + [x], f) <==> HasSuccessor(filings, f) || x.supersedes == Some(f)
  {
    if HasSuccessor(filings, f) {
      var i :| 0 <= i < |filings| && filings[i].supersedes == Some(f);
      assert (filings + [x])[i].supersedes == Some(f);
    }
    assert (filings + [x])[|filings|] == x;
  }

  lemma NoEarlySuccessor(db: Tables, f: nat)
    requires Inv(db) && f >= |db.filings|
    ensures !HasSuccessor(db.filings, f)
  {
    InvLinked(db);
  }

  lemma ApproveKeepsRows(db: Tables, c: nat, x: Filing)
    requires Inv(db) && c < |db.corrections|
    requires var f := db.corrections[c].filingId;
      !HasSuccessor(db.filings, f) && x.supersedes == Some(f) && x.caseId == db.filings[f].caseId
      && x.header == db.filings[f].header && Distinct(x.documents) && x.status == SUBMITTED
      && x.version == db.filings[f].version + 1 && x.number == VersionNumber(db.filings[f].number, x.version)
    ensures var filings := Approve(db, c, x).filings;
      RowsAgree(filings) && OneSuccessor(filings) && StatusesAgree(filings)
  {
    hide FilingNumber, VersionNumber, Distinct, ReceiptsAgree;
    var f := db.corrections[c].filingId;
    var filings := Approve(db, c, x).filings;
    CorrectedRowsAgree(db.filings, x, f);
    assert filings == (db.filings + [x])[f := db.filings[f].(status := SUPERSEDED)];
    assert RowAgrees(db.filings + [x], |db.filings|);
    RowAppended(db.filings, filings);
    hide RowsAgree;
    forall g | 0 <= g < |filings|
      ensures filings[g].status == SUPERSEDED <==> HasSuccessor(filings, g)
    {
      SuccessorAppended(db.filings, x, g);
      SameSuccessors(db.filings + [x], filings, g);
      if g == |db.filings| {
        NoEarlySuccessor(db, g);
      }
    }
  }

  lemma SameSuccessors(a: seq<Filing>, b: seq<Filing>, f: nat)
    requires |a| == |b| && forall i :: 0 <= i < |a| ==> b[i].supersedes == a[i].supersedes
    ensures HasSuccessor(a, f) <==> HasSuccessor(b, f)
  {
    if HasSuccessor(a, f) {
      var i :| 0 <= i < |a| && a[i].supersedes == Some(f);
      assert b[i].supersedes == Some(f);
    }
  }

  lemma ApproveKeepsInv(db: Tables, c: nat, x: Filing)
    requires Inv(db) && c < |db.corrections|
    requires var f := db.corrections[c].filingId;
      !HasSuccessor(db.filings, f) && x.supersedes == Some(f) && x.caseId == db.filings[f].caseId
      && x.header == db.filings[f].header && Distinct(x.documents) && x.status == SUBMITTED
      && x.version == db.filings[f].version + 1 && x.number == VersionNumber(db.filings[f].number, x.version)
    ensures Inv(Approve(db, c, x))
  {
    ApproveKeepsRows(db, c, x);
    hide RowsAgree, OneSuccessor, StatusesAgree, VersionNumber;
  }

  /** Every call keeps the invariant. */
  lemma StepKeepsInv(db: Tables, call: Call)
    requires Inv(db)
    ensures Linked(db) && Inv(Step(db, call))
  {
    InvLinked(db);
    match call
    case CallSubmit(caseId, header, documents, contentHash) =>
      hide FilingNumber, VersionNumber, Distinct, Inv, IssueReceipt, CountCase, Linked;
      var x := NewFiling(db.filings, caseId, header, documents, contentHash);
      if Insertable(db.filings, x) {
        SubmitKeepsInv(db, x);
      }
    case CallRequest(f) =>
      hide RowsAgree, OneSuccessor, StatusesAgree, ReceiptsAgree;
    case CallApprove(c, newDocuments, newHash) =>
      if c < |db.corrections| && db.corrections[c].approval == PENDING {
        hide FilingNumber, VersionNumber, Distinct, Approve, OneSuccessor, ReceiptsAgree, RowsAgree;
        var x := CorrectedFiling(db.filings, db.corrections[c], newDocuments, newHash);
        CorrectionInsertable(db, c, newDocuments, newHash);
        if Insertable(db.filings, x) {
          ApproveKeepsInv(db, c, x);
        }
      }
    case CallReject(c) =>
      hide RowsAgree, OneSuccessor, StatusesAgree, ReceiptsAgree;
  }

  lemma EmptyInv()
    ensures Inv(EMPTY)
  {
  }

  /** The tables after the calls, starting from tables that agree. */
  function Run(db: Tables, calls: seq<Call>): (after: Tables)
    requires Inv(db)
    ensures Inv(after)
  {
    if calls == [] then db
    else
      var before := Run(db, calls[..|calls| - 1]);
      StepKeepsInv(before, calls[|calls| - 1]);
      Step(before, calls[|calls| - 1])
  }

  // ---- Nothing is overwritten ----

  lemma StepKeeps(db: Tables, call: Call)
    requires Linked(db)
    requires forall f :: f in db.receipts ==> f < |db.filings|
    ensures Keeps(db, Step(db, call))
  {
    hide FilingNumber, VersionNumber, Insertable, CountCase;
  }

  /** Over any run a filing keeps its number, version and content, and its receipt stays as issued. */
  lemma {:induction false} HistoryIsKept(db: Tables, calls: seq<Call>)
    requires Inv(db)
    ensures Keeps(db, Run(db, calls))
    ensures forall f :: 0 <= f < |db.filings| && db.filings[f].status == SUPERSEDED ==>
      Run(db, calls).filings[f].status == SUPERSEDED
  {
    if calls != [] {
      HistoryIsKept(db, calls[..|calls| - 1]);
      var before := Run(db, calls[..|calls| - 1]);
      hide Inv, Run;
      ReceiptsPlaced(before);
      InvLinked(before);
      assert Run(db, calls) == Step(before, calls[|calls| - 1]) by { RunStep(db, calls); }
      StepKeeps(before, calls[|calls| - 1]);
      SupersededStays(before, calls[|calls| - 1]);
    }
  }

  lemma RunStep(db: Tables, calls: seq<Call>)
    requires Inv(db) && calls != []
    ensures Linked(Run(db, calls[..|calls| - 1]))
    ensures Run(db, calls) == Step(Run(db, calls[..|calls| - 1]), calls[|calls| - 1])
  {
    hide Inv, Step;
    InvLinked(Run(db, calls[..|calls| - 1]));
  }

  lemma ReceiptsPlaced(db: Tables)
    requires Inv(db)
    ensures forall f :: f in db.receipts ==> f < |db.filings|
  {
  }

  lemma SupersededStays(db: Tables, call: Call)
    requires Linked(db)
    ensures forall f :: 0 <= f < |db.filings| && db.filings[f].status == SUPERSEDED ==>
      f < |Step(db, call).filings| && Step(db, call).filings[f].status == SUPERSEDED
  {
    hide FilingNumber, VersionNumber, Insertable, CountCase;
  }

  /** The filing a correction is about is still current, and no document repeats. */
  predicate Approvable(db: Tables, c: nat, documents: Option<seq<nat>>)
    requires c < |db.corrections| && db.corrections[c].filingId < |db.filings|
  {
    db.filings[db.corrections[c].filingId].status == SUBMITTED && (documents.Some? ==> Distinct(documents.value))
  }

  /** A correction is approved exactly when it is pending, its filing is still current, and no document repeats. */
  lemma ApprovedExactlyWhenCurrent(db: Tables, calls: seq<Call>, c: nat, documents: Option<seq<nat>>, contentHash: string)
    requires Inv(db)
    ensures Linked(Run(db, calls))
    ensures var after := Run(db, calls);
      Outcome(after, CallApprove(c, documents, contentHash)).Ok?
      <==> c < |after.corrections| && after.corrections[c].approval == PENDING && Approvable(after, c, documents)
  {
    var after := Run(db, calls);
    InvLinked(after);
    hide Run, Insertable, Distinct, Approve, Inv;
    if c < |after.corrections| {
      CorrectionInsertable(after, c, documents, contentHash);
    }
  }

  /** A correction's approval changes only when it is decided itself. */
  lemma UndecidedStays(db: Tables, call: Call, c: nat)
    requires Linked(db) && c < |db.corrections|
    ensures var after := Step(db, call);
      && c < |after.corrections| && after.corrections[c].filingId == db.corrections[c].filingId
      && (after.corrections[c].approval == APPROVED && db.corrections[c].approval != APPROVED ==>
            call.CallApprove? && call.correction == c && Outcome(db, call).Ok?)
  {
    hide FilingNumber, VersionNumber, Insertable, CountCase, Linked;
  }

  /** A correction still pending when another superseded its filing can never be approved. */
  lemma {:induction false} OvertakenCorrectionNeverApproved(db: Tables, calls: seq<Call>, c: nat)
    requires Inv(db) && c < |db.corrections| && db.corrections[c].approval == PENDING
    requires db.corrections[c].filingId < |db.filings| && db.filings[db.corrections[c].filingId].status == SUPERSEDED
    ensures var after := Run(db, calls);
      && c < |after.corrections| && after.corrections[c].filingId == db.corrections[c].filingId
      && after.corrections[c].approval != APPROVED
  {
    if calls != [] {
      hide Inv, Outcome, Step, Insertable, Distinct, Run;
      var n := |calls| - 1;
      OvertakenCorrectionNeverApproved(db, calls[..n], c);
      HistoryIsKept(db, calls[..n]);
      RunStep(db, calls);
      UndecidedStays(Run(db, calls[..n]), calls[n], c);
      if calls[n].CallApprove? {
        ApprovedExactlyWhenCurrent(db, calls[..n], calls[n].correction, calls[n].newDocuments, calls[n].newHash);
      }
    } else {
      assert Run(db, calls) == db;
    }
  }

  // ---- Lines of versions ----

  /** h is f or one of the versions that came after it. */
  predicate Descends(filings: seq<Filing>, h: nat, f: nat)
    requires h < |filings| && RowsAgree(filings)
    decreases h
  {
    assert RowAgrees(filings, h);
    h == f || (filings[h].supersedes.Some? && Descends(filings, filings[h].supersedes.value, f))
  }

  /** The version that superseded f, or f itself. */
  function Latest(filings: seq<Filing>, f: nat): (h: nat)
    requires RowsAgree(filings) && f < |filings|
    ensures h < |filings| && !HasSuccessor(filings, h) && f <= h
    decreases |filings| - f
  {
    if HasSuccessor(filings, f) then
      var i := Successor(filings, f, 0);
      assert RowAgrees(filings, i);
      Latest(filings, i)
    else f
  }

  function Successor(filings: seq<Filing>, f: nat, from: nat): (i: nat)
    requires exists k :: from <= k < |filings| && filings[k].supersedes == Some(f)
    ensures from <= i < |filings| && filings[i].supersedes == Some(f)
    decreases |filings| - from
  {
    if filings[from].supersedes == Some(f) then from else Successor(filings, f, from + 1)
  }

  lemma {:induction false} DescendsFromParent(filings: seq<Filing>, h: nat, i: nat, f: nat)
    requires RowsAgree(filings) && h < |filings| && i < |filings| && Descends(filings, h, i) && filings[i].supersedes == Some(f)
    ensures Descends(filings, h, f)
    decreases h
  {
    hide FilingNumber, VersionNumber, Distinct;
    assert RowAgrees(filings, h);
    if h != i {
      DescendsFromParent(filings, filings[h].supersedes.value, i, f);
    }
  }

  lemma {:induction false} LatestDescends(filings: seq<Filing>, f: nat)
    requires RowsAgree(filings) && f < |filings|
    ensures Descends(filings, Latest(filings, f), f)
    decreases |filings| - f
  {
    if HasSuccessor(filings, f) {
      var i := Successor(filings, f, 0);
      assert RowAgrees(filings, i);
      LatestDescends(filings, i);
      DescendsFromParent(filings, Latest(filings, f), i, f);
    }
  }

  lemma {:induction false} DescendantsShareLatest(filings: seq<Filing>, h: nat, f: nat)
    requires RowsAgree(filings) && OneSuccessor(filings) && h < |filings| && f < |filings| && Descends(filings, h, f)
    ensures Latest(filings, h) == Latest(filings, f)
    ensures filings[h].caseId == filings[f].caseId && (h == f || filings[h].version > filings[f].version)
    decreases h
  {
    hide FilingNumber, VersionNumber, Distinct;
    assert RowAgrees(filings, h);
    if h != f {
      var p := filings[h].supersedes.value;
      DescendantsShareLatest(filings, p, f);
      assert HasSuccessor(filings, p);
      assert Successor(filings, p, 0) == h;
    }
  }

  /** Every filing has exactly one current version: one descendant that nothing has superseded. */
  lemma ExactlyOneCurrentVersion(db: Tables, calls: seq<Call>, f: nat)
    requires Inv(db) && f < |Run(db, calls).filings|
    ensures var filings := Run(db, calls).filings;
      && filings[Latest(filings, f)].status == SUBMITTED && Descends(filings, Latest(filings, f), f)
      && forall h :: 0 <= h < |filings| && Descends(filings, h, f) && filings[h].status == SUBMITTED ==> h == Latest(filings, f)
  {
    var filings := Run(db, calls).filings;
    hide Run, Descends, RowsAgree, ReceiptsAgree;
    LatestDescends(filings, f);
    forall h | 0 <= h < |filings| && Descends(filings, h, f) && filings[h].status == SUBMITTED
      ensures h == Latest(filings, f)
    {
      DescendantsShareLatest(filings, h, f);
    }
  }

  // ---- Two corrections of one filing ----

  const SUBMIT := CallSubmit(0, "", [], "")
  const TWO_PENDING := [SUBMIT, CallRequest(0), CallRequest(0)]

  predicate OneFiling(db: Tables) {
    |db.filings| == 1 && db.filings[0].status == SUBMITTED && db.filings[0].version == 1
  }

  lemma FirstFiling()
    ensures Inv(EMPTY) && Run(EMPTY, [SUBMIT]).corrections == [] && OneFiling(Run(EMPTY, [SUBMIT]))
  {
    EmptyInv();
    EmptyDistinct();
    SubmitNeverCollides(EMPTY, 0, "", [], "");
    RunStep(EMPTY, [SUBMIT]);
    assert [SUBMIT][..0] == [];
    assert Run(EMPTY, []) == EMPTY;
    hide FilingNumber, Inv, Run, CountCase, Insertable;
  }

  lemma Requested(db: Tables)
    requires Linked(db) && OneFiling(db)
    ensures Step(db, CallRequest(0)) == db.(corrections := db.corrections + [Correction(0, 2, PENDING, None)])
  {
  }

  lemma TwoPending()
    ensures Inv(EMPTY)
    ensures var db := Run(EMPTY, TWO_PENDING);
      OneFiling(db) && db.corrections == [Correction(0, 2, PENDING, None), Correction(0, 2, PENDING, None)]
  {
    FirstFiling();
    hide Run, Inv, Step, OneFiling;
    assert TWO_PENDING[..2][..1] == [SUBMIT];
    RunStep(EMPTY, TWO_PENDING[..2]);
    RunStep(EMPTY, TWO_PENDING);
    Requested(Run(EMPTY, [SUBMIT]));
    OneFilingStays(Run(EMPTY, [SUBMIT]), Run(EMPTY, TWO_PENDING[..2]));
    Requested(Run(EMPTY, TWO_PENDING[..2]));
    OneFilingStays(Run(EMPTY, TWO_PENDING[..2]), Run(EMPTY, TWO_PENDING));
  }

  lemma OneFilingStays(a: Tables, b: Tables)
    requires OneFiling(a) && b.filings == a.filings
    ensures OneFiling(b)
  {
  }

  /** So of two pending corrections of one filing only one can be approved; the other stays undecided or is rejected. */
  lemma SecondApprovalFails(newHash: string)
    ensures Inv(EMPTY)
    ensures var one := Run(EMPTY, TWO_PENDING + [CallApprove(0, None, newHash)]);
      && Linked(one)
      && |one.corrections| == 2 && one.corrections[0].approval == APPROVED && one.corrections[1].approval == PENDING
      && Outcome(one, CallApprove(1, None, newHash)) == Err(UniqueViolation)
  {
    hide Run, Inv, Step, Outcome, Linked;
    TwoPending();
    var approve := CallApprove(0, None, newHash);
    var calls := TWO_PENDING + [approve];
    assert calls[..3] == TWO_PENDING && calls[|calls| - 1] == approve;
    RunStep(EMPTY, calls);
    ApprovedExactlyWhenCurrent(EMPTY, TWO_PENDING, 0, None, newHash);
    ApprovedTables(Run(EMPTY, TWO_PENDING), 0, newHash);
    ApprovedExactlyWhenCurrent(EMPTY, calls, 1, None, newHash);
    InvLinked(Run(EMPTY, calls));
    OutcomeOfApproval(Run(EMPTY, calls), 1, newHash);
  }

  lemma OutcomeOfApproval(db: Tables, c: nat, newHash: string)
    requires Linked(db) && c < |db.corrections| && db.corrections[c].approval == PENDING
    ensures Outcome(db, CallApprove(c, None, newHash)).Ok? || Outcome(db, CallApprove(c, None, newHash)) == Err(UniqueViolation)
  {
    hide Insertable, CorrectedFiling, Approve;
  }

  lemma ApprovedTables(db: Tables, c: nat, newHash: string)
    requires Linked(db) && c < |db.corrections| && Outcome(db, CallApprove(c, None, newHash)).Ok?
    ensures var after := Step(db, CallApprove(c, None, newHash));
      && after.corrections == db.corrections[c := db.corrections[c].(approval := APPROVED, newFilingId := Some(|db.filings|))]
      && |after.filings| == |db.filings| + 1 && after.filings[db.corrections[c].filingId].status == SUPERSEDED
  {
    hide Insertable, VersionNumber;
  }
}
