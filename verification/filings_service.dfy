/** The filings service: the calls of the filing register, carried out on stored tables. */
module FilingsServices {
  import opened Wrappers
  import opened FilingRegister
  import opened Decimals

  class FilingsService {
    var filings: seq<Filing>
    var corrections: seq<Correction>
    var receipts: map<nat, FilingReceipt>

    function Stored(): Tables
      reads this
    {
      Tables(filings, corrections, receipts)
    }

    constructor ()
      ensures Stored() == EMPTY && Inv(Stored())
    {
      filings, corrections, receipts := [], [], map[];
      new;
      EmptyInv();
    }

    /** issueReceipt: one receipt a filing, whoever asks again. */
    method IssueReceipt(f: nat) returns (receipt: FilingReceipt)
      requires f < |filings|
      modifies this`receipts
      ensures Stored() == FilingRegister.IssueReceipt(old(Stored()), f)
      ensures f in receipts && receipt == receipts[f]
    {
      if f in receipts {
        return receipts[f];
      }
      var x := filings[f];
      receipt := FilingReceipt(x.number, x.version, x.contentHash, |x.documents|);
      receipts := receipts[f := receipt];
    }

    /** submit: refused only when a document is listed twice. */
    method Submit(caseId: nat, header: string, documents: seq<nat>, contentHash: string) returns (r: Result<nat, FilingError>)
      requires Inv(Stored())
      modifies this
      ensures Inv(Stored()) && Linked(old(Stored()))
      ensures Stored() == Step(old(Stored()), CallSubmit(caseId, header, documents, contentHash))
      ensures r == if Distinct(documents) then Ok(|old(filings)|) else Err(UniqueViolation)
      ensures r.Ok? ==>
        && |filings| == r.value + 1 && corrections == old(corrections)
        && var x := filings[r.value];
           && filings == old(filings) + [Filing(caseId, x.number, 1, header, documents, contentHash, SUBMITTED, None)]
           && NumberReads(x.number, |InCase(old(filings), caseId)| + 1)
           && receipts == old(receipts)[r.value := FilingReceipt(x.number, 1, contentHash, |documents|)]
      ensures r.Err? ==> Stored() == old(Stored())
    {
      assert |filings| !in receipts;
      CountIsSize(filings, caseId);
      FilingNumberReads(CountCase(filings, caseId) + 1);
      hide Inv, Insertable, Distinct, FilingNumber, NumberReads, InCase;
      StepKeepsInv(Stored(), CallSubmit(caseId, header, documents, contentHash));
      SubmitNeverCollides(Stored(), caseId, header, documents, contentHash);
      var count := CountCase(filings, caseId);
      var x := Filing(caseId, FilingNumber(count + 1), 1, header, documents, contentHash, SUBMITTED, None);
      if !Insertable(filings, x) {
        return Err(UniqueViolation);
      }
      var id := |filings|;
      filings := filings + [x];
      var receipt := IssueReceipt(id);
      r := Ok(id);
    }

    method RequestCorrection(f: nat) returns (r: Result<nat, FilingError>)
      requires Inv(Stored())
      modifies this`corrections
      ensures Inv(Stored()) && Linked(old(Stored())) && Stored() == Step(old(Stored()), CallRequest(f))
      ensures r == if f >= |filings| then Err(NotFound)
                   else if filings[f].status == SUPERSEDED then Err(AlreadySuperseded) else Ok(|old(corrections)|)
      ensures Linked(Stored())
      ensures corrections
        == if r.Ok? then old(corrections) + [Correction(f, filings[f].version + 1, PENDING, None)] else old(corrections)
      ensures r.Ok? ==> forall newHash :: Outcome(Stored(), CallApprove(r.value, None, newHash)).Ok?
    {
      hide Inv, Insertable, VersionNumber;
      StepKeepsInv(Stored(), CallRequest(f));
      if f >= |filings| {
        return Err(NotFound);
      }
      if filings[f].status == SUPERSEDED {
        return Err(AlreadySuperseded);
      }
      var id := |corrections|;
      corrections := corrections + [Correction(f, filings[f].version + 1, PENDING, None)];
      InvLinked(Stored());
      forall newHash {
        CorrectionInsertable(Stored(), id, None, newHash);
      }
      r := Ok(id);
    }

    /** decideCorrection: an approval that the unique indexes refuse changes nothing. */
    method DecideCorrection(c: nat, approve: bool, newDocuments: Option<seq<nat>>, newHash: string)
      returns (r: Result<Correction, FilingError>)
      requires Inv(Stored())
      modifies this
      ensures Inv(Stored()) && Linked(old(Stored()))
      ensures Stored() == Step(old(Stored()), if approve then CallApprove(c, newDocuments, newHash) else CallReject(c))
      ensures r.Ok? ==> c < |corrections| && r.value == corrections[c]
      ensures r.Ok? <==> c < |old(corrections)| && old(corrections)[c].approval == PENDING
                         && (!approve || Approvable(old(Stored()), c, newDocuments))
      ensures r.Err? ==> r.error == if c >= |old(corrections)| then NotFound
                                    else if old(corrections)[c].approval != PENDING then AlreadyDecided else UniqueViolation
      ensures r.Err? ==> Stored() == old(Stored())
      ensures r.Ok? && !approve ==>
        Stored() == old(Stored()).(corrections := old(corrections)[c := old(corrections)[c].(approval := REJECTED)])
      ensures r.Ok? && approve ==>
        && old(corrections)[c].filingId < |old(filings)|
        && Succeeded(old(Stored()), Stored(), c, newDocuments, newHash)
    {
      hide Inv, Insertable, Distinct, VersionNumber, FilingNumber, Succeeded;
      if c < |corrections| {
        ApprovalSucceeds(Stored(), c, newDocuments, newHash);
      }
      StepKeepsInv(Stored(), if approve then CallApprove(c, newDocuments, newHash) else CallReject(c));
      if c >= |corrections| {
        return Err(NotFound);
      }
      var correction := corrections[c];
      if correction.approval != PENDING {
        return Err(AlreadyDecided);
      }
      if !approve {
        corrections := corrections[c := correction.(approval := REJECTED)];
        return Ok(corrections[c]);
      }
      CorrectionInsertable(Stored(), c, newDocuments, newHash);
      var filing := filings[correction.filingId];
      var documents := if newDocuments.Some? then newDocuments.value else filing.documents;
      var id := |filings|;
      var x := Filing(filing.caseId, VersionNumber(filing.number, correction.newVersion), correction.newVersion, filing.header,
                      documents, newHash, SUBMITTED, Some(correction.filingId));
      if !Insertable(filings, x) {
        return Err(UniqueViolation);
      }
      filings := filings + [x];
      filings := filings[correction.filingId := filings[correction.filingId].(status := SUPERSEDED)];
      corrections := corrections[c := correction.(approval := APPROVED, newFilingId := Some(id))];
      var receipt := IssueReceipt(id);
      r := Ok(corrections[c]);
    }
  }

  /** The filings of a case, by row. */
  function InCase(filings: seq<Filing>, caseId: nat): set<int> {
    set i | 0 <= i < |filings| && filings[i].caseId == caseId
  }

  lemma {:induction false} CountIsSize(filings: seq<Filing>, caseId: nat)
    ensures CountCase(filings, caseId) == |InCase(filings, caseId)|
  {
    if filings != [] {
      var n := |filings| - 1;
      CountIsSize(filings[..n], caseId);
      var before, all := InCase(filings[..n], caseId), InCase(filings, caseId);
      assert all == if filings[n].caseId == caseId then before + {n} else before;
      assert n !in before;
    }
  }

  /** The text is "F-" and the number in at least four digits, without more zeros in front than that takes. */
  ghost predicate NumberReads(number: string, k: nat) {
    && |number| >= 6 && number[..2] == "F-" && Digits(number[2..]) && NumberOf(number[2..]) == k
    && (|number| > 6 ==> number[2] != '0')
  }

  /** The text is the earlier number, "-v" and the version in decimal. */
  ghost predicate VersionReads(number: string, base: string, version: nat) {
    && base + "-v" <= number && Digits(number[|base| + 2..])
    && NumberOf(number[|base| + 2..]) == version
    && (|number| > |base| + 3 ==> number[|base| + 2] != '0')
  }

  lemma {:induction false} LeadingZeros(zeros: nat, s: string)
    requires Digits(s)
    ensures Digits(Zeros(zeros) + s) && NumberOf(Zeros(zeros) + s) == NumberOf(s)
    decreases |s|
  {
    var t := Zeros(zeros) + s;
    assert t[..|t| - 1] == Zeros(zeros) + s[..|s| - 1];
    if |s| == 1 {
      OnlyZeros(zeros);
      assert s[..0] == "" && Zeros(zeros) + "" == Zeros(zeros);
    } else {
      LeadingZeros(zeros, s[..|s| - 1]);
    }
    assert t[|t| - 1] == s[|s| - 1];
  }

  lemma {:induction false} OnlyZeros(n: nat)
    ensures (forall i :: 0 <= i < n ==> IsDigit(Zeros(n)[i])) && NumberOf(Zeros(n)) == 0
  {
    if n > 0 {
      assert Zeros(n)[..n - 1] == Zeros(n - 1);
      OnlyZeros(n - 1);
    }
  }

  lemma FilingNumberReads(k: nat)
    requires k >= 1
    ensures NumberReads(FilingNumber(k), k)
  {
    DecimalRoundTrip(k);
    DecimalDigits(k);
    var s := Decimal(k);
    if |s| < 4 {
      LeadingZeros(4 - |s|, s);
    }
    hide Decimal, NumberOf, Digits, Zeros;
    assert FilingNumber(k)[2..] == PadStart(s, 4);
  }

  lemma VersionNumberReads(base: string, version: nat)
    ensures VersionReads(VersionNumber(base, version), base, version)
  {
    DecimalRoundTrip(version);
    DecimalDigits(version);
    ShortZero(version);
    var s := Decimal(version);
    hide Decimal, NumberOf, Digits;
    assert VersionNumber(base, version)[|base| + 2..] == s;
  }

  lemma ShortZero(n: nat)
    ensures n == 0 ==> |Decimal(n)| == 1
  {
  }

  lemma RowsPlaced(db: Tables, c: nat)
    requires Inv(db) && c < |db.corrections|
    ensures db.corrections[c].filingId < |db.filings| && |db.filings| !in db.receipts
  {
    hide RowsAgree, OneSuccessor, StatusesAgree;
  }

  lemma ApprovalSucceeds(db: Tables, c: nat, newDocuments: Option<seq<nat>>, newHash: string)
    requires Inv(db) && c < |db.corrections|
    ensures db.corrections[c].filingId < |db.filings|
    ensures var x := CorrectedFiling(db.filings, db.corrections[c], newDocuments, newHash);
      Succeeded(db, Approve(db, c, x), c, newDocuments, newHash)
  {
    hide Inv, VersionNumber, VersionReads;
    RowsPlaced(db, c);
    VersionNumberReads(db.filings[db.corrections[c].filingId].number, db.corrections[c].newVersion);
  }

  /** The next version stands beside the superseded filing, numbered after it, with the correction closed and a receipt. */
  ghost predicate Succeeded(a: Tables, b: Tables, c: nat, newDocuments: Option<seq<nat>>, newHash: string)
    requires c < |a.corrections| && a.corrections[c].filingId < |a.filings|
  {
    var f, version, id := a.corrections[c].filingId, a.corrections[c].newVersion, |a.filings|;
    var was := a.filings[f];
    && |b.filings| == id + 1
    && (forall i :: 0 <= i < id ==> b.filings[i] == if i == f then was.(status := SUPERSEDED) else a.filings[i])
    && var x := b.filings[id];
       && x == Filing(was.caseId, x.number, version, was.header,
                      if newDocuments.Some? then newDocuments.value else was.documents, newHash, SUBMITTED, Some(f))
       && VersionReads(x.number, was.number, version)
       && b.receipts == a.receipts[id := FilingReceipt(x.number, version, newHash, |x.documents|)]
       && b.corrections == a.corrections[c := Correction(f, version, APPROVED, Some(id))]
  }
}
