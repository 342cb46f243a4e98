/**
 Deposit requests, their shares, payments, defaults, refunds and the case ledger,
 as tables whose row numbers serve as ids, and what each service call does to them.
 All amounts are cents of one currency.
 */
module DepositLedger {
  import opened Wrappers
  import opened Sums
  import Allocation

  datatype DepositStatus = REQUESTED | PARTIALLY_PAID | PAID | IN_DEFAULT

  datatype ShareStatus = OUTSTANDING | PARTIALLY_PAID | PAID | PAID_BY_SUBSTITUTE | IN_DEFAULT

  datatype DefaultStatus = OPEN | CURED_BY_PARTY | CURED_BY_SUBSTITUTE

  datatype EntryKind = CHARGE | PAYMENT | SUBSTITUTE_PAYMENT | REFUND

  datatype Request = Request(caseId: nat, total: int, dueAt: Option<int>, status: DepositStatus)

  datatype Share = Share(requestId: nat, partyId: string, shareAmount: int, paidAmount: int, status: ShareStatus)

  datatype Payment = Payment(shareId: nat, amount: int, substitute: bool)

  datatype PaymentDefault = PaymentDefault(shareId: nat, amountOutstanding: int, status: DefaultStatus)

  datatype Refund = Refund(paymentId: nat, amount: int)

  datatype Entry = Entry(caseId: nat, kind: EntryKind, amount: int)

  datatype Tables = Tables(
    requests: seq<Request>,
    shares: seq<Share>,
    payments: seq<Payment>,
    defaults: seq<PaymentDefault>,
    refunds: seq<Refund>,
    ledger: seq<Entry>
  )

  datatype DepositError = InvalidBody | NoParties | NotFound | NotYetDue | RefundTooLarge

  const EMPTY := Tables([], [], [], [], [], [])

  // ---- The calls ----

  function NewShares(requestId: nat, shares: seq<Allocation.AllocationShare>): seq<Share> {
    seq(|shares|, i requires 0 <= i < |shares| =>
      Share(requestId, shares[i].partyId, shares[i].shareAmount, 0, OUTSTANDING))
  }

  /** The shares the allocation engine gives a request's parties. */
  ghost predicate Allocated(
    shares: seq<Allocation.AllocationShare>, total: int, how: Allocation.Method, parties: seq<Allocation.PartyShareInput>)
    requires parties != []
  {
    && |shares| == |parties|
    && (forall i :: 0 <= i < |parties| ==> shares[i].partyId == parties[i].partyId)
    && Allocation.Amounts(shares) == Allocation.Split(total, Allocation.Effective(Allocation.WeightsOf(how, parties)))
  }

  function ShareAmounts(rows: seq<Share>): (amounts: seq<int>)
    ensures |amounts| == |rows|
  {
    seq(|rows|, k requires 0 <= k < |rows| => rows[k].shareAmount)
  }

  /** A request's shares when it is made: one unpaid row a party, adding up to the total as the method asks. */
  predicate SharesOut(
    rows: seq<Share>, requestId: nat, total: int, how: Allocation.Method, parties: seq<Allocation.PartyShareInput>)
  {
    && |rows| == |parties|
    && (forall k :: 0 <= k < |rows| ==> rows[k] == Share(requestId, parties[k].partyId, rows[k].shareAmount, 0, OUTSTANDING))
    && Sum(ShareAmounts(rows)) == total
    && Allocation.FollowsMethod(total, how, parties, ShareAmounts(rows))
  }

  lemma NewSharesOut(
    requestId: nat, shares: seq<Allocation.AllocationShare>, total: int, how: Allocation.Method,
    parties: seq<Allocation.PartyShareInput>)
    requires |shares| == |parties| && forall k :: 0 <= k < |parties| ==> shares[k].partyId == parties[k].partyId
    requires Sum(Allocation.Amounts(shares)) == total
    requires Allocation.FollowsMethod(total, how, parties, Allocation.Amounts(shares))
    ensures SharesOut(NewShares(requestId, shares), requestId, total, how, parties)
  {
    hide Allocation.FollowsMethod;
    assert ShareAmounts(NewShares(requestId, shares)) == Allocation.Amounts(shares);
  }

  /** createRequest, once the engine has allocated the total. */
  function CreateRequest(
    db: Tables, caseId: nat, total: int, dueAt: Option<int>, shares: seq<Allocation.AllocationShare>): Tables
  {
    db.(requests := db.requests + [Request(caseId, total, dueAt, REQUESTED)],
        shares := db.shares + NewShares(|db.requests|, shares),
        ledger := db.ledger + [Entry(caseId, CHARGE, -total)])
  }

  predicate AllPaid(shares: seq<Share>, r: nat) {
    forall i :: 0 <= i < |shares| && shares[i].requestId == r ==> shares[i].paidAmount >= shares[i].shareAmount
  }

  predicate AnyPaid(shares: seq<Share>, r: nat) {
    exists i :: 0 <= i < |shares| && shares[i].requestId == r && shares[i].paidAmount > 0
  }

  predicate AnyDefault(shares: seq<Share>, r: nat) {
    exists i :: 0 <= i < |shares| && shares[i].requestId == r && shares[i].status == ShareStatus.IN_DEFAULT
  }

  /** recomputeDepositStatus: the status the shares of request r call for. */
  function DerivedStatus(shares: seq<Share>, r: nat): DepositStatus {
    if AllPaid(shares, r) then DepositStatus.PAID
    else if AnyDefault(shares, r) then DepositStatus.IN_DEFAULT
    else if AnyPaid(shares, r) then DepositStatus.PARTIALLY_PAID
    else REQUESTED
  }

  /** What each status says of the shares of request r. */
  predicate StatusSays(status: DepositStatus, shares: seq<Share>, r: nat) {
    && (status == DepositStatus.PAID
        <==> forall i :: 0 <= i < |shares| && shares[i].requestId == r ==> shares[i].paidAmount >= shares[i].shareAmount)
    && (status == DepositStatus.IN_DEFAULT
        <==> && (exists i :: 0 <= i < |shares| && shares[i].requestId == r && shares[i].paidAmount < shares[i].shareAmount)
             && (exists i :: 0 <= i < |shares| && shares[i].requestId == r && shares[i].status == ShareStatus.IN_DEFAULT))
    && (status == DepositStatus.PARTIALLY_PAID
        <==> && (exists i :: 0 <= i < |shares| && shares[i].requestId == r && shares[i].paidAmount < shares[i].shareAmount)
             && (forall i :: 0 <= i < |shares| && shares[i].requestId == r ==> shares[i].status != ShareStatus.IN_DEFAULT)
             && (exists i :: 0 <= i < |shares| && shares[i].requestId == r && shares[i].paidAmount > 0))
    && (status == REQUESTED
        <==> && (exists i :: 0 <= i < |shares| && shares[i].requestId == r && shares[i].paidAmount < shares[i].shareAmount)
             && (forall i :: 0 <= i < |shares| && shares[i].requestId == r ==> shares[i].status != ShareStatus.IN_DEFAULT)
             && (forall i :: 0 <= i < |shares| && shares[i].requestId == r ==> shares[i].paidAmount <= 0))
  }

  lemma DerivedStatusSays(shares: seq<Share>, r: nat)
    ensures StatusSays(DerivedStatus(shares, r), shares, r)
  {
  }

  function Recompute(db: Tables, r: nat): Tables
    requires r < |db.requests|
  {
    db.(requests := db.requests[r := db.requests[r].(status := DerivedStatus(db.shares, r))])
  }

  /** A payment is substitute when the body says so or another party is named as the payer. */
  function IsSubstitute(share: Share, paidBy: Option<string>, flag: Option<bool>): bool {
    match flag
    case Some(b) => b
    case None => paidBy.Some? && paidBy.value != "" && paidBy.value != share.partyId
  }

  function PaidShare(share: Share, amount: int, substitute: bool): Share {
    var paid := share.paidAmount + amount;
    share.(paidAmount := paid,
           status := if paid < share.shareAmount then ShareStatus.PARTIALLY_PAID
                     else if substitute then PAID_BY_SUBSTITUTE
                     else ShareStatus.PAID)
  }

  /** Every open default of share i is cured. */
  function Cure(defaults: seq<PaymentDefault>, i: nat, substitute: bool): (cured: seq<PaymentDefault>)
    ensures |cured| == |defaults|
  {
    seq(|defaults|, k requires 0 <= k < |defaults| =>
      if defaults[k].shareId == i && defaults[k].status == OPEN
      then defaults[k].(status := if substitute then CURED_BY_SUBSTITUTE else CURED_BY_PARTY)
      else defaults[k])
  }

  predicate Linked(db: Tables) {
    && (forall i :: 0 <= i < |db.shares| ==> db.shares[i].requestId < |db.requests|)
    && (forall i :: 0 <= i < |db.payments| ==> db.payments[i].shareId < |db.shares|)
    && (forall i :: 0 <= i < |db.defaults| ==> db.defaults[i].shareId < |db.shares|)
    && (forall i :: 0 <= i < |db.refunds| ==> db.refunds[i].paymentId < |db.payments|)
  }

  function RecordPayment(db: Tables, i: nat, amount: int, substitute: bool): Tables
    requires Linked(db) && i < |db.shares|
  {
    var share := db.shares[i];
    var kind := if substitute then SUBSTITUTE_PAYMENT else PAYMENT;
    Recompute(
      db.(payments := db.payments + [Payment(i, amount, substitute)],
          shares := db.shares[i := PaidShare(share, amount, substitute)],
          ledger := db.ledger + [Entry(db.requests[share.requestId].caseId, kind, amount)],
          defaults := Cure(db.defaults, i, substitute)),
      share.requestId)
  }

  /** A share of request r that declareDefaults flags. */
  predicate Overdue(share: Share, r: nat) {
    share.requestId == r && share.shareAmount - share.paidAmount > 0 && share.status != ShareStatus.IN_DEFAULT
  }

  function Flagged(shares: seq<Share>, r: nat): (flagged: seq<Share>)
    ensures |flagged| == |shares|
  {
    seq(|shares|, i requires 0 <= i < |shares| =>
      if Overdue(shares[i], r) then shares[i].(status := ShareStatus.IN_DEFAULT) else shares[i])
  }

  /** The defaults recorded for the first n shares. */
  function Declared(shares: seq<Share>, r: nat, n: nat): seq<PaymentDefault>
    requires n <= |shares|
  {
    if n == 0 then []
    else
      var rows := Declared(shares, r, n - 1);
      var s := shares[n - 1];
      if Overdue(s, r) then rows + [PaymentDefault(n - 1, s.shareAmount - s.paidAmount, OPEN)] else rows
  }

  function DeclareDefaults(db: Tables, r: nat): Tables
    requires r < |db.requests|
  {
    Recompute(
      db.(shares := Flagged(db.shares, r), defaults := db.defaults + Declared(db.shares, r, |db.shares|)), r)
  }

  function CaseOfShare(db: Tables, i: nat): nat
    requires Linked(db) && i < |db.shares|
  {
    db.requests[db.shares[i].requestId].caseId
  }

  function IssueRefund(db: Tables, p: nat, amount: int): Tables
    requires Linked(db) && p < |db.payments|
  {
    db.(refunds := db.refunds + [Refund(p, amount)],
        ledger := db.ledger + [Entry(CaseOfShare(db, db.payments[p].shareId), REFUND, -amount)])
  }

  // ---- Runs ----

  datatype Call =
    | CallCreate(caseId: nat, total: int, dueAt: Option<int>, how: Allocation.Method, parties: seq<Allocation.PartyShareInput>)
    | CallPay(shareId: nat, amount: int, paidBy: Option<string>, flag: Option<bool>)
    | CallDeclare(requestId: nat, now: int)
    | CallRefund(paymentId: nat, amount: int)

  ghost function EngineShares(total: int, how: Allocation.Method, parties: seq<Allocation.PartyShareInput>):
    (shares: seq<Allocation.AllocationShare>)
    requires parties != []
    ensures Allocated(shares, total, how, parties)
  {
    var amounts := Allocation.Split(total, Allocation.Effective(Allocation.WeightsOf(how, parties)));
    var shares := seq(|parties|, i requires 0 <= i < |parties| =>
      Allocation.AllocationShare(parties[i].partyId, parties[i].side, amounts[i]));
    assert Allocation.Amounts(shares) == amounts;
    shares
  }

  /** What a call answers: the new tables, or the check that refused it. */
  ghost function Outcome(db: Tables, call: Call): Result<Tables, DepositError>
    requires Linked(db)
  {
    match call
    case CallCreate(caseId, total, dueAt, how, parties) =>
      if total < 0 then Err(InvalidBody)
      else if parties == [] then Err(NoParties)
      else Ok(CreateRequest(db, caseId, total, dueAt, EngineShares(total, how, parties)))
    case CallPay(i, amount, paidBy, flag) =>
      if amount < 1 then Err(InvalidBody)
      else if i >= |db.shares| then Err(NotFound)
      else Ok(RecordPayment(db, i, amount, IsSubstitute(db.shares[i], paidBy, flag)))
    case CallDeclare(r, now) =>
      if r >= |db.requests| then Err(NotFound)
      else if db.requests[r].dueAt.None? || db.requests[r].dueAt.value > now then Err(NotYetDue)
      else Ok(DeclareDefaults(db, r))
    case CallRefund(p, amount) =>
      if amount < 1 then Err(InvalidBody)
      else if p >= |db.payments| then Err(NotFound)
      else if amount > db.payments[p].amount then Err(RefundTooLarge)
      else Ok(IssueRefund(db, p, amount))
  }

  ghost function Step(db: Tables, call: Call): Tables
    requires Linked(db)
  {
    var out := Outcome(db, call);
    if out.Ok? then out.value else db
  }

  // ---- Invariants ----

  function PaymentColumn(db: Tables, i: nat): seq<int> {
    seq(|db.payments|, k requires 0 <= k < |db.payments| => if db.payments[k].shareId == i then db.payments[k].amount else 0)
  }

  function ShareColumn(db: Tables, r: nat): seq<int> {
    seq(|db.shares|, k requires 0 <= k < |db.shares| => if db.shares[k].requestId == r then db.shares[k].shareAmount else 0)
  }

  function BalanceColumn(db: Tables, c: nat): seq<int> {
    seq(|db.ledger|, k requires 0 <= k < |db.ledger| => if db.ledger[k].caseId == c then db.ledger[k].amount else 0)
  }

  function ShortfallColumn(db: Tables, c: nat): seq<int>
    requires Linked(db)
  {
    seq(|db.shares|, k requires 0 <= k < |db.shares| =>
      if CaseOfShare(db, k) == c then db.shares[k].shareAmount - db.shares[k].paidAmount else 0)
  }

  function RefundColumn(db: Tables, c: nat): seq<int>
    requires Linked(db)
  {
    seq(|db.refunds|, k requires 0 <= k < |db.refunds| =>
      if CaseOfShare(db, db.payments[db.refunds[k].paymentId].shareId) == c then db.refunds[k].amount else 0)
  }

  /** The balance listForCase shows. */
  function Balance(db: Tables, c: nat): int {
    Sum(BalanceColumn(db, c))
  }

  /** Shares add up to their request, payments to their share, and the ledger to what is still owed plus refunds. */
  ghost predicate Conserved(db: Tables)
    requires Linked(db)
  {
    && (forall r :: 0 <= r < |db.requests| ==> Sum(ShareColumn(db, r)) == db.requests[r].total)
    && (forall i :: 0 <= i < |db.shares| ==> db.shares[i].paidAmount == Sum(PaymentColumn(db, i)))
    && (forall c: nat :: -Balance(db, c) == Sum(ShortfallColumn(db, c)) + Sum(RefundColumn(db, c)))
  }

  predicate OpenFor(d: PaymentDefault, i: nat) {
    d.shareId == i && d.status == OPEN
  }

  /** Exactly one default of share i is open, and it records what is outstanding. */
  ghost predicate OneOpenDefault(db: Tables, i: nat)
    requires i < |db.shares|
  {
    exists k :: 0 <= k < |db.defaults| && OpenFor(db.defaults[k], i)
      && db.defaults[k].amountOutstanding == db.shares[i].shareAmount - db.shares[i].paidAmount
      && forall j :: 0 <= j < |db.defaults| && OpenFor(db.defaults[j], i) ==> j == k
  }

  predicate NoOpenDefault(db: Tables, i: nat) {
    forall k :: 0 <= k < |db.defaults| ==> !OpenFor(db.defaults[k], i)
  }

  /** The latest payment on share i, if any. */
  function LastPayment(payments: seq<Payment>, i: nat): Option<Payment> {
    if payments == [] then None
    else if payments[|payments| - 1].shareId == i then Some(payments[|payments| - 1])
    else LastPayment(payments[..|payments| - 1], i)
  }

  /** The status of share i says what its amounts, its latest payment and its defaults say. */
  ghost predicate ShareAgrees(db: Tables, i: nat)
    requires i < |db.shares|
  {
    var s := db.shares[i];
    var last := LastPayment(db.payments, i);
    && s.paidAmount >= 0
    && (s.status == ShareStatus.IN_DEFAULT <==> OneOpenDefault(db, i))
    && (s.status != ShareStatus.IN_DEFAULT <==> NoOpenDefault(db, i))
    && (s.status == ShareStatus.IN_DEFAULT ==> s.paidAmount < s.shareAmount)
    && (s.status != ShareStatus.IN_DEFAULT ==>
         && (s.status == OUTSTANDING <==> s.paidAmount == 0)
         && (s.status == ShareStatus.PARTIALLY_PAID <==> 0 < s.paidAmount < s.shareAmount)
         && (s.status == ShareStatus.PAID
             <==> s.paidAmount > 0 && s.paidAmount >= s.shareAmount && last.Some? && !last.value.substitute)
         && (s.status == PAID_BY_SUBSTITUTE <==> s.paidAmount > 0 && s.paidAmount >= s.shareAmount && last.Some? && last.value.substitute))
  }

  /** A request of nothing that no call has looked at since it was made. */
  predicate UntouchedZero(db: Tables, r: nat)
    requires r < |db.requests|
  {
    db.requests[r].total == 0 && db.requests[r].status == REQUESTED
  }

  ghost predicate StatusesAgree(db: Tables)
    requires Linked(db)
  {
    && (forall i :: 0 <= i < |db.shares| ==> ShareAgrees(db, i))
    && (forall i :: 0 <= i < |db.shares| ==> db.shares[i].shareAmount >= 0)
    && (forall r :: 0 <= r < |db.requests| ==> db.requests[r].total >= 0)
    && (forall r :: 0 <= r < |db.requests| ==>
          (db.requests[r].status == DerivedStatus(db.shares, r) <==> !UntouchedZero(db, r)))
  }

  ghost predicate Inv(db: Tables) {
    Linked(db) && Conserved(db) && StatusesAgree(db)
  }

  /** The tables after a sequence of calls. */
  ghost function Run(db: Tables, calls: seq<Call>): Tables
    requires Inv(db)
    ensures Inv(Run(db, calls))
  {
    if calls == [] then db
    else
      var before := Run(db, calls[..|calls| - 1]);
      StepKeepsInv(before, calls[|calls| - 1]);
      Step(before, calls[|calls| - 1])
  }

  // ---- createRequest ----

  /** The engine's shares are not negative and add up to the total. */
  lemma EngineSharesAdd(total: int, how: Allocation.Method, parties: seq<Allocation.PartyShareInput>)
    requires parties != [] && total >= 0
    ensures Sum(Allocation.Amounts(EngineShares(total, how, parties))) == total
    ensures forall i :: 0 <= i < |parties| ==> EngineShares(total, how, parties)[i].shareAmount >= 0
  {
    var ws := Allocation.Effective(Allocation.WeightsOf(how, parties));
    var shares := EngineShares(total, how, parties);
    Allocation.SplitSum(total, ws);
    forall i | 0 <= i < |parties|
      ensures shares[i].shareAmount >= 0
    {
      Allocation.SplitNonNegative(total, ws, i);
      assert Allocation.Amounts(shares)[i] == shares[i].shareAmount;
    }
  }

  lemma {:induction false} ZeroSum(s: seq<int>)
    requires forall i :: 0 <= i < |s| ==> s[i] == 0
    ensures Sum(s) == 0
  {
    if s != [] {
      ZeroSum(s[..|s| - 1]);
    }
  }

  lemma CreateConserves(db: Tables, caseId: nat, total: int, dueAt: Option<int>, shares: seq<Allocation.AllocationShare>)
    requires Inv(db) && Sum(Allocation.Amounts(shares)) == total
    ensures Linked(CreateRequest(db, caseId, total, dueAt, shares)) && Conserved(CreateRequest(db, caseId, total, dueAt, shares))
  {
    hide Sum, StatusesAgree;
    var db' := CreateRequest(db, caseId, total, dueAt, shares);
    var newest, amounts := |db.requests|, Allocation.Amounts(shares);
    assert Linked(db');
    forall r | 0 <= r < |db'.requests| ensures Sum(ShareColumn(db', r)) == db'.requests[r].total {
      if r == newest {
        assert ShareColumn(db', r) == ShareColumn(db, r) + amounts;
        ZeroSum(ShareColumn(db, r));
        SumAppend(ShareColumn(db, r), amounts);
      } else {
        var none := seq(|shares|, k => 0);
        assert ShareColumn(db', r) == ShareColumn(db, r) + none;
        ZeroSum(none);
        SumAppend(ShareColumn(db, r), none);
      }
    }
    forall i | 0 <= i < |db'.shares| ensures db'.shares[i].paidAmount == Sum(PaymentColumn(db', i)) {
      assert PaymentColumn(db', i) == PaymentColumn(db, i);
      if i >= |db.shares| {
        ZeroSum(PaymentColumn(db, i));
      }
    }
    forall c: nat ensures -Balance(db', c) == Sum(ShortfallColumn(db', c)) + Sum(RefundColumn(db', c)) {
      var charge := if c == caseId then -total else 0;
      assert BalanceColumn(db', c) == BalanceColumn(db, c) + [charge];
      SumAppend(BalanceColumn(db, c), [charge]);
      SumOne(charge);
      var added := if c == caseId then amounts else seq(|shares|, k => 0);
      assert ShortfallColumn(db', c) == ShortfallColumn(db, c) + added;
      SumAppend(ShortfallColumn(db, c), added);
      if c != caseId { ZeroSum(added); }
      assert RefundColumn(db', c) == RefundColumn(db, c);
    }
  }

  lemma CreateAgrees(db: Tables, caseId: nat, total: int, dueAt: Option<int>, shares: seq<Allocation.AllocationShare>)
    requires Inv(db) && Sum(Allocation.Amounts(shares)) == total >= 0
    requires forall i :: 0 <= i < |shares| ==> shares[i].shareAmount >= 0
    requires Linked(CreateRequest(db, caseId, total, dueAt, shares))
    ensures StatusesAgree(CreateRequest(db, caseId, total, dueAt, shares))
  {
    hide Sum, Conserved;
    var db' := CreateRequest(db, caseId, total, dueAt, shares);
    forall i | 0 <= i < |db'.shares| ensures ShareAgrees(db', i) {
      if i < |db.shares| {
        assert ShareAgrees(db, i);
        assert OneOpenDefault(db, i) <==> OneOpenDefault(db', i);
      }
    }
    forall r | 0 <= r < |db'.requests|
      ensures db'.requests[r].status == DerivedStatus(db'.shares, r) <==> !UntouchedZero(db', r)
    {
      if r < |db.requests| {
        SameDerived(db.shares, db'.shares, r);
      } else {
        FreshDerived(db, db', shares, total);
      }
    }
  }

  /** New rows for other requests do not change what a request's shares call for. */
  lemma SameDerived(shares: seq<Share>, more: seq<Share>, r: nat)
    requires |shares| <= |more| && shares == more[..|shares|]
    requires forall i :: |shares| <= i < |more| ==> more[i].requestId != r
    ensures DerivedStatus(more, r) == DerivedStatus(shares, r)
  {
    assert forall i :: 0 <= i < |shares| ==> shares[i] == more[i];
  }

  lemma FreshDerived(db: Tables, db': Tables, shares: seq<Allocation.AllocationShare>, total: int)
    requires Linked(db) && db'.shares == db.shares + NewShares(|db.requests|, shares)
    requires Sum(Allocation.Amounts(shares)) == total
    requires forall i :: 0 <= i < |shares| ==> shares[i].shareAmount >= 0
    ensures DerivedStatus(db'.shares, |db.requests|) == if total == 0 then DepositStatus.PAID else REQUESTED
  {
    var r, amounts := |db.requests|, Allocation.Amounts(shares);
    SumNonNegative(amounts);
    forall k | 0 <= k < |db'.shares| && db'.shares[k].requestId == r
      ensures k >= |db.shares| && db'.shares[k].shareAmount == amounts[k - |db.shares|] && db'.shares[k].paidAmount == 0
    {
    }
    if total != 0 {
      var i :| 0 <= i < |amounts| && amounts[i] != 0;
      assert db'.shares[|db.shares| + i].requestId == r;
    }
  }

  // ---- recordPayment ----

  lemma PayConserves(db: Tables, i: nat, amount: int, substitute: bool)
    requires Inv(db) && i < |db.shares|
    ensures Linked(RecordPayment(db, i, amount, substitute)) && Conserved(RecordPayment(db, i, amount, substitute))
  {
    hide Sum, StatusesAgree, DerivedStatus;
    var db' := RecordPayment(db, i, amount, substitute);
    assert Linked(db');
    forall r | 0 <= r < |db'.requests| ensures Sum(ShareColumn(db', r)) == db'.requests[r].total {
      assert ShareColumn(db', r) == ShareColumn(db, r);
    }
    forall j | 0 <= j < |db'.shares| ensures db'.shares[j].paidAmount == Sum(PaymentColumn(db', j)) {
      var added := if j == i then amount else 0;
      assert PaymentColumn(db', j) == PaymentColumn(db, j) + [added];
      SumAppend(PaymentColumn(db, j), [added]);
      SumOne(added);
    }
    var home := CaseOfShare(db, i);
    forall c: nat ensures -Balance(db', c) == Sum(ShortfallColumn(db', c)) + Sum(RefundColumn(db', c)) {
      var added := if c == home then amount else 0;
      assert BalanceColumn(db', c) == BalanceColumn(db, c) + [added];
      SumAppend(BalanceColumn(db, c), [added]);
      SumOne(added);
      var short := ShortfallColumn(db, c);
      assert ShortfallColumn(db', c) == short[i := short[i] - added];
      SumUpdate(short, i, short[i] - added);
      assert RefundColumn(db', c) == RefundColumn(db, c);
    }
  }

  lemma PayAgrees(db: Tables, i: nat, amount: int, substitute: bool)
    requires Inv(db) && i < |db.shares| && amount >= 1
    requires Linked(RecordPayment(db, i, amount, substitute))
    ensures StatusesAgree(RecordPayment(db, i, amount, substitute))
  {
    assert Sum(ShareColumn(db, db.shares[i].requestId)) == db.requests[db.shares[i].requestId].total;
    hide Sum, Conserved;
    var db' := RecordPayment(db, i, amount, substitute);
    forall j | 0 <= j < |db'.shares| ensures ShareAgrees(db', j) {
      assert ShareAgrees(db, j);
      if j == i {
        PaidShareAgrees(db, db', i, amount, substitute);
      } else {
        OtherShareAgrees(db, db', i, j, amount, substitute);
      }
    }
    hide ShareAgrees, Cure;
    RecomputeAgrees(db, db', db.shares[i].requestId);
  }

  lemma PaidShareAgrees(db: Tables, db': Tables, i: nat, amount: int, substitute: bool)
    requires i < |db.shares| && ShareAgrees(db, i) && amount >= 1
    requires db'.shares == db.shares[i := PaidShare(db.shares[i], amount, substitute)]
    requires db'.payments == db.payments + [Payment(i, amount, substitute)]
    requires db'.defaults == Cure(db.defaults, i, substitute)
    ensures ShareAgrees(db', i)
  {
    assert NoOpenDefault(db', i);
    assert LastPayment(db'.payments, i) == Some(Payment(i, amount, substitute));
    hide LastPayment, Cure;
  }

  lemma OtherShareAgrees(db: Tables, db': Tables, i: nat, j: nat, amount: int, substitute: bool)
    requires i < |db.shares| && j < |db.shares| && i != j && ShareAgrees(db, j)
    requires |db'.shares| == |db.shares| && db'.shares[j] == db.shares[j]
    requires db'.payments == db.payments + [Payment(i, amount, substitute)]
    requires db'.defaults == Cure(db.defaults, i, substitute)
    ensures ShareAgrees(db', j)
  {
    assert db'.payments[..|db.payments|] == db.payments;
    assert LastPayment(db'.payments, j) == LastPayment(db.payments, j);
    OtherDefaultsStay(db, db', i, j, substitute);
    hide LastPayment, OneOpenDefault, NoOpenDefault;
  }

  lemma OtherDefaultsStay(db: Tables, db': Tables, i: nat, j: nat, substitute: bool)
    requires i != j && j < |db.shares| == |db'.shares| && db'.shares[j] == db.shares[j]
    requires db'.defaults == Cure(db.defaults, i, substitute)
    ensures NoOpenDefault(db', j) <==> NoOpenDefault(db, j)
    ensures OneOpenDefault(db', j) <==> OneOpenDefault(db, j)
  {
    assert forall k :: 0 <= k < |db.defaults| ==> (OpenFor(db'.defaults[k], j) <==> OpenFor(db.defaults[k], j));
    if k :| 0 <= k < |db.defaults| && OpenFor(db.defaults[k], j) {
      assert db'.defaults[k] == db.defaults[k];
    }
  }

  /** After a recomputation of request r, whose shares alone changed, every request agrees again. */
  lemma RecomputeAgrees(db: Tables, db': Tables, r: nat)
    requires Linked(db) && StatusesAgree(db) && r < |db.requests|
    requires |db'.shares| == |db.shares|
    requires db'.requests == db.requests[r := db.requests[r].(status := DerivedStatus(db'.shares, r))]
    requires forall k :: 0 <= k < |db.shares| ==> db'.shares[k].requestId == db.shares[k].requestId
    requires forall k :: 0 <= k < |db.shares| && db.shares[k].requestId != r ==> db'.shares[k] == db.shares[k]
    requires forall k :: 0 <= k < |db.shares| ==> db'.shares[k].shareAmount == db.shares[k].shareAmount
    requires forall k :: 0 <= k < |db.shares| ==> db'.shares[k].paidAmount >= db.shares[k].paidAmount
    requires Sum(ShareColumn(db, r)) == db.requests[r].total
    ensures forall q :: 0 <= q < |db'.requests| ==>
      (db'.requests[q].status == DerivedStatus(db'.shares, q) <==> !UntouchedZero(db', q))
  {
    hide Sum;
    forall q | 0 <= q < |db'.requests|
      ensures db'.requests[q].status == DerivedStatus(db'.shares, q) <==> !UntouchedZero(db', q)
    {
      if q != r {
        assert forall k :: 0 <= k < |db.shares| && db.shares[k].requestId == q ==> db'.shares[k] == db.shares[k];
        OtherRequestStays(db.shares, db'.shares, q);
      } else if db.requests[r].total == 0 {
        ZeroSharesFunded(db, db', r);
      }
    }
  }

  lemma OtherRequestStays(shares: seq<Share>, shares': seq<Share>, q: nat)
    requires |shares| == |shares'|
    requires forall k :: 0 <= k < |shares| ==> shares'[k].requestId == shares[k].requestId
    requires forall k :: 0 <= k < |shares| && shares[k].requestId == q ==> shares'[k] == shares[k]
    ensures DerivedStatus(shares', q) == DerivedStatus(shares, q)
  {
  }

  /** The shares of a request of nothing are all nothing, hence funded. */
  lemma ZeroSharesFunded(db: Tables, db': Tables, r: nat)
    requires Linked(db) && StatusesAgree(db) && Sum(ShareColumn(db, r)) == 0
    requires |db'.shares| == |db.shares|
    requires forall k :: 0 <= k < |db.shares| ==>
      && db'.shares[k].requestId == db.shares[k].requestId
      && db'.shares[k].shareAmount == db.shares[k].shareAmount
      && db'.shares[k].paidAmount >= db.shares[k].paidAmount
    ensures DerivedStatus(db'.shares, r) == DepositStatus.PAID
  {
    SumNonNegative(ShareColumn(db, r));
    forall k | 0 <= k < |db'.shares| && db'.shares[k].requestId == r
      ensures db'.shares[k].paidAmount >= db'.shares[k].shareAmount
    {
      assert ShareColumn(db, r)[k] == 0;
      assert ShareAgrees(db, k);
    }
  }

  // ---- declareDefaults ----

  /** Which rows the declaration adds: one open row for each overdue share, in order. */
  lemma {:induction false} DeclaredRows(shares: seq<Share>, r: nat, n: nat)
    requires n <= |shares|
    ensures forall k :: 0 <= k < |Declared(shares, r, n)| ==>
      var d := Declared(shares, r, n)[k];
      d.shareId < n && Overdue(shares[d.shareId], r) && d.status == OPEN
      && d.amountOutstanding == shares[d.shareId].shareAmount - shares[d.shareId].paidAmount
    ensures forall j, k :: 0 <= j < k < |Declared(shares, r, n)| ==>
      Declared(shares, r, n)[j].shareId < Declared(shares, r, n)[k].shareId
    ensures forall i :: 0 <= i < n && Overdue(shares[i], r) ==>
      exists k :: 0 <= k < |Declared(shares, r, n)| && Declared(shares, r, n)[k].shareId == i
  {
    if n > 0 {
      DeclaredRows(shares, r, n - 1);
      var rows, all := Declared(shares, r, n - 1), Declared(shares, r, n);
      forall i | 0 <= i < n && Overdue(shares[i], r)
        ensures exists k :: 0 <= k < |all| && all[k].shareId == i
      {
        if i < n - 1 {
          var k :| 0 <= k < |rows| && rows[k].shareId == i;
          assert all[k] == rows[k];
        } else {
          assert all[|rows|].shareId == i;
        }
      }
    }
  }

  lemma DeclareConserves(db: Tables, r: nat)
    requires Inv(db) && r < |db.requests|
    ensures Linked(DeclareDefaults(db, r)) && Conserved(DeclareDefaults(db, r))
  {
    hide Sum, StatusesAgree, DerivedStatus, Declared;
    var db' := DeclareDefaults(db, r);
    DeclaredRows(db.shares, r, |db.shares|);
    assert Linked(db');
    forall q | 0 <= q < |db'.requests| ensures Sum(ShareColumn(db', q)) == db'.requests[q].total {
      assert ShareColumn(db', q) == ShareColumn(db, q);
    }
    forall i | 0 <= i < |db'.shares| ensures db'.shares[i].paidAmount == Sum(PaymentColumn(db', i)) {
      assert PaymentColumn(db', i) == PaymentColumn(db, i);
    }
    forall c: nat ensures -Balance(db', c) == Sum(ShortfallColumn(db', c)) + Sum(RefundColumn(db', c)) {
      assert BalanceColumn(db', c) == BalanceColumn(db, c);
      assert ShortfallColumn(db', c) == ShortfallColumn(db, c);
      assert RefundColumn(db', c) == RefundColumn(db, c);
    }
  }

  lemma DeclareAgrees(db: Tables, r: nat)
    requires Inv(db) && r < |db.requests| && Linked(DeclareDefaults(db, r))
    ensures StatusesAgree(DeclareDefaults(db, r))
  {
    hide Sum, Declared;
    var db' := DeclareDefaults(db, r);
    forall i | 0 <= i < |db'.shares| ensures ShareAgrees(db', i) {
      assert ShareAgrees(db, i);
      DeclaredFor(db, db', r, i);
    }
    hide ShareAgrees, DerivedStatus;
    RecomputeAgrees(db, db', r);
  }

  lemma DeclaredFor(db: Tables, db': Tables, r: nat, i: nat)
    requires Linked(db) && i < |db.shares| && (Overdue(db.shares[i], r) ==> NoOpenDefault(db, i))
    requires db'.defaults == db.defaults + Declared(db.shares, r, |db.shares|)
    requires db'.shares == Flagged(db.shares, r)
    ensures Overdue(db.shares[i], r) ==> OneOpenDefault(db', i) && !NoOpenDefault(db', i)
    ensures !Overdue(db.shares[i], r) ==>
      (OneOpenDefault(db', i) <==> OneOpenDefault(db, i)) && (NoOpenDefault(db', i) <==> NoOpenDefault(db, i))
  {
    hide Declared, Linked;
    var rows := Declared(db.shares, r, |db.shares|);
    DeclaredRows(db.shares, r, |db.shares|);
    if Overdue(db.shares[i], r) {
      var k: nat :| 0 <= k < |rows| && rows[k].shareId == i;
      OnlyNewRow(db, db', rows, i, k);
    } else {
      hide OneOpenDefault, NoOpenDefault, Flagged;
      forall j | |db.defaults| <= j < |db'.defaults| ensures !OpenFor(db'.defaults[j], i) {
        assert db'.defaults[j] == rows[j - |db.defaults|];
      }
      assert db'.shares[i] == db.shares[i] by { assert Flagged(db.shares, r)[i] == db.shares[i]; }
      SameOpen(db, db', i);
    }
  }

  lemma OnlyNewRow(db: Tables, db': Tables, rows: seq<PaymentDefault>, i: nat, k: nat)
    requires i < |db.shares| == |db'.shares| && NoOpenDefault(db, i)
    requires db'.shares[i].shareAmount == db.shares[i].shareAmount && db'.shares[i].paidAmount == db.shares[i].paidAmount
    requires db'.defaults == db.defaults + rows && k < |rows|
    requires rows[k] == PaymentDefault(i, db.shares[i].shareAmount - db.shares[i].paidAmount, OPEN)
    requires forall j :: 0 <= j < |rows| && rows[j].shareId == i ==> j == k
    ensures OneOpenDefault(db', i) && !NoOpenDefault(db', i)
  {
    var new_ := |db.defaults| + k;
    assert OpenFor(db'.defaults[new_], i);
    forall j | 0 <= j < |db.defaults| ensures !OpenFor(db'.defaults[j], i) {
      assert !OpenFor(db.defaults[j], i);
    }
    forall j | |db.defaults| <= j < |db'.defaults| && OpenFor(db'.defaults[j], i) ensures j == new_ {
      assert rows[j - |db.defaults|].shareId == i;
    }
  }

  lemma SameOpen(db: Tables, db': Tables, i: nat)
    requires i < |db.shares| == |db'.shares|
    requires db'.shares[i].shareAmount == db.shares[i].shareAmount && db'.shares[i].paidAmount == db.shares[i].paidAmount
    requires |db.defaults| <= |db'.defaults| && db.defaults == db'.defaults[..|db.defaults|]
    requires forall j :: |db.defaults| <= j < |db'.defaults| ==> !OpenFor(db'.defaults[j], i)
    ensures OneOpenDefault(db', i) <==> OneOpenDefault(db, i)
    ensures NoOpenDefault(db', i) <==> NoOpenDefault(db, i)
  {
    assert forall k :: 0 <= k < |db.defaults| ==> db'.defaults[k] == db.defaults[k];
  }

  // ---- refund ----

  lemma RefundKeepsInv(db: Tables, p: nat, amount: int)
    requires Inv(db) && p < |db.payments|
    ensures Inv(IssueRefund(db, p, amount))
  {
    hide Sum, DerivedStatus;
    var db' := IssueRefund(db, p, amount);
    var home := CaseOfShare(db, db.payments[p].shareId);
    assert Linked(db');
    forall r | 0 <= r < |db'.requests| ensures Sum(ShareColumn(db', r)) == db'.requests[r].total {
      assert ShareColumn(db', r) == ShareColumn(db, r);
    }
    forall i | 0 <= i < |db'.shares| ensures ShareAgrees(db', i) && db'.shares[i].paidAmount == Sum(PaymentColumn(db', i)) {
      assert PaymentColumn(db', i) == PaymentColumn(db, i);
      assert ShareAgrees(db, i);
      SameOpen(db, db', i);
    }
    forall c: nat ensures -Balance(db', c) == Sum(ShortfallColumn(db', c)) + Sum(RefundColumn(db', c)) {
      var back := if c == home then amount else 0;
      assert BalanceColumn(db', c) == BalanceColumn(db, c) + [-back];
      SumAppend(BalanceColumn(db, c), [-back]);
      SumOne(-back);
      assert RefundColumn(db', c) == RefundColumn(db, c) + [back];
      SumAppend(RefundColumn(db, c), [back]);
      SumOne(back);
      assert ShortfallColumn(db', c) == ShortfallColumn(db, c);
    }
    assert forall r :: 0 <= r < |db'.requests| ==> (UntouchedZero(db', r) <==> UntouchedZero(db, r));
  }

  // ---- Every run ----

  lemma StepKeepsInv(db: Tables, call: Call)
    requires Inv(db)
    ensures Inv(Step(db, call))
  {
    hide Sum, Conserved, StatusesAgree, CreateRequest, RecordPayment, DeclareDefaults, IssueRefund, EngineShares;
    if Outcome(db, call).Ok? {
      match call
      case CallCreate(caseId, total, dueAt, how, parties) =>
        EngineSharesAdd(total, how, parties);
        CreateConserves(db, caseId, total, dueAt, EngineShares(total, how, parties));
        CreateAgrees(db, caseId, total, dueAt, EngineShares(total, how, parties));
      case CallPay(i, amount, paidBy, flag) =>
        PayConserves(db, i, amount, IsSubstitute(db.shares[i], paidBy, flag));
        PayAgrees(db, i, amount, IsSubstitute(db.shares[i], paidBy, flag));
      case CallDeclare(r, now) =>
        DeclareConserves(db, r);
        DeclareAgrees(db, r);
      case CallRefund(p, amount) =>
        RefundKeepsInv(db, p, amount);
    }
  }

  lemma EmptyInv()
    ensures Inv(EMPTY)
  {
    forall c: nat ensures -Balance(EMPTY, c) == Sum(ShortfallColumn(EMPTY, c)) + Sum(RefundColumn(EMPTY, c)) {
      ZeroSum(BalanceColumn(EMPTY, c));
      ZeroSum(ShortfallColumn(EMPTY, c));
      ZeroSum(RefundColumn(EMPTY, c));
    }
  }

  /** Conservation over every run: the ledger of a case shows what its shares still lack, plus all refunds. */
  lemma LedgerConserved(calls: seq<Call>, c: nat)
    ensures Inv(EMPTY)
    ensures
      var db := Run(EMPTY, calls);
      && -Balance(db, c) == Sum(ShortfallColumn(db, c)) + Sum(RefundColumn(db, c))
      && (forall r :: 0 <= r < |db.requests| ==> Sum(ShareColumn(db, r)) == db.requests[r].total)
      && (forall i :: 0 <= i < |db.shares| ==> db.shares[i].paidAmount == Sum(PaymentColumn(db, i)))
  {
    EmptyInv();
    var db := Run(EMPTY, calls);
    assert Conserved(db);
  }

  /** Over every run a request's status is the derived one, unless it is an untouched request of nothing. */
  lemma StatusesAlwaysAgree(calls: seq<Call>, r: nat, i: nat)
    ensures Inv(EMPTY)
    ensures
      var db := Run(EMPTY, calls);
      && (r < |db.requests| ==> (db.requests[r].status == DerivedStatus(db.shares, r) <==> !UntouchedZero(db, r)))
      && (i < |db.shares| ==> (db.shares[i].status == ShareStatus.IN_DEFAULT <==> OneOpenDefault(db, i)))
      && (i < |db.shares| ==> (db.shares[i].status != ShareStatus.IN_DEFAULT <==> NoOpenDefault(db, i)))
  {
    EmptyInv();
    var db := Run(EMPTY, calls);
    assert StatusesAgree(db);
    if i < |db.shares| {
      assert ShareAgrees(db, i);
    }
  }

  /**
   Over every run, on the shares themselves: a request is paid when every share is covered; otherwise it is in default
   when a share is, partially paid when something was paid, and requested when nothing was.
   */
  lemma StatusesMean(calls: seq<Call>, r: nat)
    ensures Inv(EMPTY)
    ensures var db := Run(EMPTY, calls);
      r < |db.requests| && !(db.requests[r].total == 0 && db.requests[r].status == REQUESTED) ==>
        StatusSays(db.requests[r].status, db.shares, r)
  {
    StatusesAlwaysAgree(calls, r, 0);
    DerivedStatusSays(Run(EMPTY, calls).shares, r);
    hide Run, Inv, StatusSays, DerivedStatus;
  }

  /** A request of nothing stands as REQUESTED although its shares call for PAID. */
  lemma ZeroRequestDisagrees(p: Allocation.PartyShareInput)
    ensures
      var db := CreateRequest(EMPTY, 0, 0, None, EngineShares(0, Allocation.EQUAL, [p]));
      db.requests[0].status == REQUESTED && DerivedStatus(db.shares, 0) == DepositStatus.PAID
  {
    hide EngineShares;
    var shares := EngineShares(0, Allocation.EQUAL, [p]);
    EngineSharesAdd(0, Allocation.EQUAL, [p]);
    FreshDerived(EMPTY, CreateRequest(EMPTY, 0, 0, None, shares), shares, 0);
  }

  // ---- The balance and the allocation engine's helper figures ----

  /** The shares of a case as the engine's payment helpers see them. */
  function CaseShares(db: Tables, c: nat, n: nat): seq<Allocation.ShareLedger>
    requires Linked(db) && n <= |db.shares|
  {
    if n == 0 then []
    else
      var s := db.shares[n - 1];
      CaseShares(db, c, n - 1)
      + if CaseOfShare(db, n - 1) == c then [Allocation.ShareLedger(s.partyId, s.shareAmount, s.paidAmount)] else []
  }

  /** None of the first n shares that belong to case c is overpaid. */
  predicate NoOverpayment(db: Tables, c: nat, n: nat)
    requires Linked(db) && n <= |db.shares|
  {
    forall i :: 0 <= i < n && CaseOfShare(db, i) == c ==> db.shares[i].paidAmount <= db.shares[i].shareAmount
  }

  /** What is outstanding is at least the shortfall, and more as soon as a share is overpaid. */
  lemma {:induction false} OutstandingIsShortfall(db: Tables, c: nat, n: nat)
    requires Linked(db) && n <= |db.shares|
    ensures Allocation.TotalOutstanding(CaseShares(db, c, n)) >= Sum(ShortfallColumn(db, c)[..n])
    ensures Allocation.TotalOutstanding(CaseShares(db, c, n)) == Sum(ShortfallColumn(db, c)[..n]) <==> NoOverpayment(db, c, n)
  {
    if n > 0 {
      hide Linked;
      OutstandingIsShortfall(db, c, n - 1);
      NextShare(db, c, n);
      NextOverpayment(db, c, n);
      hide NoOverpayment, Sum, ShortfallColumn, CaseShares, CaseOfShare, Allocation.TotalOutstanding;
    }
  }

  lemma NextOverpayment(db: Tables, c: nat, n: nat)
    requires Linked(db) && 0 < n <= |db.shares|
    ensures NoOverpayment(db, c, n)
      <==> NoOverpayment(db, c, n - 1)
           && (CaseOfShare(db, n - 1) == c ==> db.shares[n - 1].paidAmount <= db.shares[n - 1].shareAmount)
  {
    hide Linked, CaseOfShare;
  }

  /** What one more share adds on either side. */
  lemma NextShare(db: Tables, c: nat, n: nat)
    requires Linked(db) && 0 < n <= |db.shares|
    ensures var short := db.shares[n - 1].shareAmount - db.shares[n - 1].paidAmount;
      var mine := CaseOfShare(db, n - 1) == c;
      && Allocation.TotalOutstanding(CaseShares(db, c, n))
         == Allocation.TotalOutstanding(CaseShares(db, c, n - 1)) + (if mine && short > 0 then short else 0)
      && Sum(ShortfallColumn(db, c)[..n]) == Sum(ShortfallColumn(db, c)[..n - 1]) + (if mine then short else 0)
  {
    var column := ShortfallColumn(db, c);
    assert column[..n][..n - 1] == column[..n - 1] && column[..n][n - 1] == column[n - 1];
    var all, front := CaseShares(db, c, n), CaseShares(db, c, n - 1);
    if CaseOfShare(db, n - 1) == c {
      assert all == front + [all[|front|]] && all[..|all| - 1] == front;
    } else {
      assert all == front;
    }
  }

  /** The negated balance of a case is what another party could cover, plus refunds, exactly when no share is overpaid. */
  lemma BalanceIsOutstanding(db: Tables, c: nat)
    requires Inv(db)
    ensures -Balance(db, c) == Allocation.TotalOutstanding(CaseShares(db, c, |db.shares|)) + Sum(RefundColumn(db, c))
       <==> NoOverpayment(db, c, |db.shares|)
  {
    hide Sum, StatusesAgree;
    OutstandingIsShortfall(db, c, |db.shares|);
    assert ShortfallColumn(db, c)[..|db.shares|] == ShortfallColumn(db, c);
  }
}
