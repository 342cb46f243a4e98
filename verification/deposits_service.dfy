/** The deposits service: the calls of the deposit ledger, carried out on stored tables. */
module DepositsServices {
  import opened Wrappers
  import opened DepositLedger
  import Sums
  import Allocation

  class DepositsService {
    var requests: seq<Request>
    var shares: seq<Share>
    var payments: seq<Payment>
    var defaults: seq<PaymentDefault>
    var refunds: seq<Refund>
    var ledger: seq<Entry>

    function Stored(): Tables
      reads this
    {
      Tables(requests, shares, payments, defaults, refunds, ledger)
    }

    constructor ()
      ensures Stored() == EMPTY && Inv(Stored())
    {
      requests, shares, payments, defaults, refunds, ledger := [], [], [], [], [], [];
      new;
      EmptyInv();
    }

    method CreateRequest(
      caseId: nat, total: int, dueAt: Option<int>, how: Allocation.Method, parties: seq<Allocation.PartyShareInput>)
      returns (r: Result<nat, DepositError>)
      requires Inv(Stored())
      modifies this
      ensures Inv(Stored()) && Stored() == Step(old(Stored()), CallCreate(caseId, total, dueAt, how, parties))
      ensures r == if total < 0 then Err(InvalidBody) else if parties == [] then Err(NoParties) else Ok(|old(requests)|)
      ensures r.Ok? ==>
        && requests == old(requests) + [Request(caseId, total, dueAt, REQUESTED)]
        && ledger == old(ledger) + [Entry(caseId, CHARGE, -total)]
        && |old(shares)| <= |shares| && shares[..|old(shares)|] == old(shares)
        && SharesOut(shares[|old(shares)|..], r.value, total, how, parties)
    {
      hide Inv, EngineShares, SharesOut, Allocation.FollowsMethod;
      StepKeepsInv(Stored(), CallCreate(caseId, total, dueAt, how, parties));
      if total < 0 {
        return Err(InvalidBody);
      }
      if parties == [] {
        return Err(NoParties);
      }
      var engine := Allocation.Allocate(total, how, parties);
      SameShares(engine.value, EngineShares(total, how, parties));
      var id := |requests|;
      requests := requests + [Request(caseId, total, dueAt, REQUESTED)];
      shares := shares + NewShares(id, engine.value);
      ledger := ledger + [Entry(caseId, CHARGE, -total)];
      NewSharesOut(id, engine.value, total, how, parties);
      assert shares[|old(shares)|..] == NewShares(id, engine.value);
      r := Ok(id);
    }

    method RecomputeDepositStatus(r: nat)
      requires r < |requests|
      modifies this`requests
      ensures Stored() == Recompute(old(Stored()), r)
      ensures StatusSays(requests[r].status, shares, r)
    {
      DerivedStatusSays(shares, r);
      hide StatusSays;
      var allPaid := AllPaid(shares, r);
      var anyPaid := AnyPaid(shares, r);
      var anyDefault := AnyDefault(shares, r);
      var status :=
        if allPaid then DepositStatus.PAID
        else if anyDefault then DepositStatus.IN_DEFAULT
        else if anyPaid then DepositStatus.PARTIALLY_PAID
        else REQUESTED;
      requests := requests[r := requests[r].(status := status)];
    }

    method RecordPayment(shareId: nat, amount: int, paidBy: Option<string>, flag: Option<bool>)
      returns (r: Result<ShareStatus, DepositError>)
      requires Inv(Stored())
      modifies this
      ensures Inv(Stored()) && Stored() == Step(old(Stored()), CallPay(shareId, amount, paidBy, flag))
      ensures r.Ok? <==> amount >= 1 && shareId < |old(shares)|
      ensures r.Ok? ==> r.value == shares[shareId].status
      ensures r.Err? ==> r.error == if amount < 1 then InvalidBody else NotFound
      ensures r.Ok? ==>
        var share := old(shares)[shareId];
        var paid := share.paidAmount + amount;
        var substitute :=
          flag == Some(true) || (flag.None? && paidBy.Some? && paidBy.value != "" && paidBy.value != share.partyId);
        && payments == old(payments) + [Payment(shareId, amount, substitute)]
        && shares == old(shares)[shareId := share.(paidAmount := paid, status := r.value)]
        && r.value == (if paid < share.shareAmount then ShareStatus.PARTIALLY_PAID
                       else if substitute then PAID_BY_SUBSTITUTE else ShareStatus.PAID)
        && share.requestId < |requests| && StatusSays(requests[share.requestId].status, shares, share.requestId)
        && ledger == old(ledger) + [Entry(
             requests[share.requestId].caseId, if substitute then SUBSTITUTE_PAYMENT else PAYMENT, amount)]
        && |defaults| == |old(defaults)|
        && forall k :: 0 <= k < |defaults| ==>
             var was := old(defaults)[k];
             defaults[k] == if was.shareId == shareId && was.status == OPEN
                            then was.(status := if substitute then CURED_BY_SUBSTITUTE else CURED_BY_PARTY) else was
    {
      hide Conserved, StatusesAgree, DerivedStatus, StatusSays;
      StepKeepsInv(Stored(), CallPay(shareId, amount, paidBy, flag));
      if amount < 1 {
        return Err(InvalidBody);
      }
      if shareId >= |shares| {
        return Err(NotFound);
      }
      var share := shares[shareId];
      var substitute := IsSubstitute(share, paidBy, flag);
      var newPaid := share.paidAmount + amount;
      var status :=
        if newPaid >= share.shareAmount then (if substitute then PAID_BY_SUBSTITUTE else ShareStatus.PAID)
        else ShareStatus.PARTIALLY_PAID;
      var caseId := requests[share.requestId].caseId;
      payments := payments + [Payment(shareId, amount, substitute)];
      shares := shares[shareId := share.(paidAmount := newPaid, status := status)];
      ledger := ledger + [Entry(caseId, if substitute then SUBSTITUTE_PAYMENT else PAYMENT, amount)];
      defaults := Cure(defaults, shareId, substitute);
      RecomputeDepositStatus(share.requestId);
      r := Ok(status);
    }

    method DeclareDefaults(requestId: nat, now: int) returns (r: Result<nat, DepositError>)
      requires Inv(Stored())
      modifies this
      ensures Inv(Stored()) && Stored() == Step(old(Stored()), CallDeclare(requestId, now))
      ensures r.Ok? <==>
        requestId < |old(requests)| && old(requests)[requestId].dueAt.Some? && old(requests)[requestId].dueAt.value <= now
      ensures r.Ok? ==> r.value == |defaults| - |old(defaults)|
      ensures r.Ok? ==>
        && |shares| == |old(shares)| && StatusSays(requests[requestId].status, shares, requestId)
        && forall i :: 0 <= i < |shares| ==>
             var was := old(shares)[i];
             shares[i] == if was.requestId == requestId && was.paidAmount < was.shareAmount
                          then was.(status := ShareStatus.IN_DEFAULT) else was
    {
      hide Conserved, StatusesAgree, DerivedStatus, StatusSays;
      StepKeepsInv(Stored(), CallDeclare(requestId, now));
      if requestId >= |requests| {
        return Err(NotFound);
      }
      if requests[requestId].dueAt.None? || requests[requestId].dueAt.value > now {
        return Err(NotYetDue);
      }
      var before := shares;
      var declared := 0;
      for i := 0 to |before|
        invariant requests == old(requests) && payments == old(payments)
        invariant refunds == old(refunds) && ledger == old(ledger)
        invariant |shares| == |before|
        invariant forall k :: 0 <= k < i ==> shares[k] == Flagged(before, requestId)[k]
        invariant forall k :: i <= k < |before| ==> shares[k] == before[k]
        invariant defaults == old(defaults) + Declared(before, requestId, i)
        invariant declared == |Declared(before, requestId, i)|
      {
        var a := before[i];
        if a.requestId != requestId { continue; }
        var out := a.shareAmount - a.paidAmount;
        if out > 0 && a.status != ShareStatus.IN_DEFAULT {
          defaults := defaults + [PaymentDefault(i, out, OPEN)];
          shares := shares[i := shares[i].(status := ShareStatus.IN_DEFAULT)];
          declared := declared + 1;
        }
      }
      assert shares == Flagged(before, requestId);
      RecomputeDepositStatus(requestId);
      r := Ok(declared);
    }

    method Refund(paymentId: nat, amount: int) returns (r: Result<nat, DepositError>)
      requires Inv(Stored())
      modifies this
      ensures Inv(Stored()) && Stored() == Step(old(Stored()), CallRefund(paymentId, amount))
      ensures r.Ok? <==> paymentId < |old(payments)| && 1 <= amount <= old(payments)[paymentId].amount
      ensures r.Ok? ==>
        && r.value == |old(refunds)| && |refunds| == r.value + 1
        && ledger == old(ledger) + [Entry(CaseOfShare(Stored(), payments[paymentId].shareId), REFUND, -amount)]
    {
      hide Conserved, StatusesAgree;
      StepKeepsInv(Stored(), CallRefund(paymentId, amount));
      if amount < 1 {
        return Err(InvalidBody);
      }
      if paymentId >= |payments| {
        return Err(NotFound);
      }
      if amount > payments[paymentId].amount {
        return Err(RefundTooLarge);
      }
      var id := |refunds|;
      var caseId := requests[shares[payments[paymentId].shareId].requestId].caseId;
      refunds := refunds + [DepositLedger.Refund.Refund(paymentId, amount)];
      ledger := ledger + [Entry(caseId, REFUND, -amount)];
      r := Ok(id);
    }

    /** The balance listForCase adds up from the ledger of a case. */
    method CaseBalance(caseId: nat) returns (balance: int)
      ensures balance == Balance(Stored(), caseId)
    {
      balance := 0;
      var column := BalanceColumn(Stored(), caseId);
      for k := 0 to |ledger|
        invariant balance == Sums.Sum(column[..k])
      {
        assert column[..k + 1][..k] == column[..k];
        if ledger[k].caseId == caseId {
          balance := balance + ledger[k].amount;
        }
      }
      assert column[..|ledger|] == column;
    }
  }

  lemma SameShares(s: seq<Allocation.AllocationShare>, t: seq<Allocation.AllocationShare>)
    requires |s| == |t| && Allocation.Amounts(s) == Allocation.Amounts(t)
    requires forall i :: 0 <= i < |s| ==> s[i].partyId == t[i].partyId
    ensures forall r :: NewShares(r, s) == NewShares(r, t)
  {
    forall i | 0 <= i < |s| ensures s[i].shareAmount == t[i].shareAmount {
      assert Allocation.Amounts(s)[i] == Allocation.Amounts(t)[i];
    }
  }
}
