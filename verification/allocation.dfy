/**
 The deposit allocation engine: a total in cents is split in proportion to integer
 weights, rounding every quota down and handing the leftover cents to the largest
 remainders. Quotients are exact, where the service computes them in floating point.
 */
module Allocation {
  import opened Wrappers
  import opened Sums

  // ---- The split ----

  predicate Weights(ws: seq<int>) {
    (forall i :: 0 <= i < |ws| ==> ws[i] >= 0) && Sum(ws) > 0
  }

  /** Each party's quota rounded down. */
  function Floors(total: int, ws: seq<int>): (q: seq<int>)
    requires Weights(ws)
    ensures |q| == |ws|
  {
    seq(|ws|, i requires 0 <= i < |ws| => total * ws[i] / Sum(ws))
  }

  /** What rounding down cut off each quota, in units of one W-th of a cent. */
  function Remainders(total: int, ws: seq<int>): (r: seq<int>)
    requires Weights(ws)
    ensures |r| == |ws| && forall i :: 0 <= i < |r| ==> 0 <= r[i] < Sum(ws)
  {
    seq(|ws|, i requires 0 <= i < |ws| => total * ws[i] % Sum(ws))
  }

  function Leftover(total: int, ws: seq<int>): int
    requires Weights(ws)
  {
    total - Sum(Floors(total, ws))
  }

  /** Party j is served before party i: a larger remainder, or an equal one and listed first. */
  predicate Before(rem: seq<int>, j: int, i: int)
    requires 0 <= i < |rem| && 0 <= j < |rem|
  {
    rem[j] > rem[i] || (rem[j] == rem[i] && j < i)
  }

  ghost function Ahead(rem: seq<int>, i: int): set<int>
    requires 0 <= i < |rem|
  {
    set j | 0 <= j < |rem| && Before(rem, j, i)
  }

  ghost function Rank(rem: seq<int>, i: int): nat
    requires 0 <= i < |rem|
  {
    |Ahead(rem, i)|
  }

  /** Party i receives one of the leftover cents: fewer parties than that come before it. */
  ghost predicate Favoured(total: int, ws: seq<int>, i: int)
    requires Weights(ws) && 0 <= i < |ws|
  {
    Rank(Remainders(total, ws), i) < Leftover(total, ws)
  }

  ghost function Split(total: int, ws: seq<int>): (shares: seq<int>)
    requires Weights(ws)
    ensures |shares| == |ws|
  {
    seq(|ws|, i requires 0 <= i < |ws| => Floors(total, ws)[i] + if Favoured(total, ws, i) then 1 else 0)
  }

  function Ones(n: nat): (ws: seq<int>)
    ensures |ws| == n
  {
    seq(n, i => 1)
  }

  lemma {:induction false} OnesSum(n: nat)
    ensures Sum(Ones(n)) == n
  {
    if n > 0 {
      OnesSum(n - 1);
      assert Ones(n)[..n - 1] == Ones(n - 1);
    }
  }

  /** Without any positive weight the split is even. */
  function Effective(ws: seq<int>): (eff: seq<int>)
    requires |ws| > 0 && forall i :: 0 <= i < |ws| ==> ws[i] >= 0
    ensures |eff| == |ws| && Weights(eff)
  {
    OnesSum(|ws|);
    if Sum(ws) <= 0 then Ones(|ws|) else ws
  }

  // ---- The order of service ----

  /** Places index i behind every index with at least its remainder, as a stable sort does. */
  function InsertIndex(rem: seq<int>, i: int, order: seq<int>): seq<int>
    requires 0 <= i < |rem| && forall k :: 0 <= k < |order| ==> 0 <= order[k] < |rem|
  {
    if order == [] || rem[order[0]] < rem[i] then [i] + order
    else [order[0]] + InsertIndex(rem, i, order[1..])
  }

  /** A list of n of the first `bound` indices, each before all that follow it. */
  ghost predicate ServiceOrder(rem: seq<int>, order: seq<int>, n: nat, bound: nat)
    requires bound <= |rem|
  {
    && |order| == n
    && (forall k :: 0 <= k < n ==> 0 <= order[k] < bound)
    && (forall a, b :: 0 <= a < b < n ==> Before(rem, order[a], order[b]))
  }

  lemma {:induction false} InsertIndexMembers(rem: seq<int>, i: int, order: seq<int>)
    requires 0 <= i < |rem| && forall k :: 0 <= k < |order| ==> 0 <= order[k] < |rem|
    ensures |InsertIndex(rem, i, order)| == |order| + 1
    ensures forall x :: x in InsertIndex(rem, i, order) ==> x == i || x in order
  {
    if !(order == [] || rem[order[0]] < rem[i]) {
      InsertIndexMembers(rem, i, order[1..]);
    }
  }

  lemma {:induction false} InsertIndexOrder(rem: seq<int>, i: nat, order: seq<int>)
    requires i < |rem| && (forall k :: 0 <= k < |order| ==> 0 <= order[k] < i)
    requires forall a, b :: 0 <= a < b < |order| ==> Before(rem, order[a], order[b])
    ensures ServiceOrder(rem, InsertIndex(rem, i, order), |order| + 1, i + 1)
  {
    InsertIndexMembers(rem, i, order);
    var r := InsertIndex(rem, i, order);
    forall k | 0 <= k < |r| ensures 0 <= r[k] < i + 1 {
      assert r[k] in r;
    }
    if !(order == [] || rem[order[0]] < rem[i]) {
      var rest := InsertIndex(rem, i, order[1..]);
      InsertIndexMembers(rem, i, order[1..]);
      InsertIndexOrder(rem, i, order[1..]);
      forall b | 0 < b < |r| ensures Before(rem, r[0], r[b]) {
        assert r[b] == rest[b - 1] && rest[b - 1] in rest;
        if r[b] != i {
          var k :| 0 <= k < |order[1..]| && order[1..][k] == r[b];
          assert Before(rem, order[0], order[k + 1]);
        }
      }
    } else {
      forall b | 0 < b < |r| ensures Before(rem, r[0], r[b]) {
        assert b > 1 ==> Before(rem, order[0], order[b - 1]);
      }
    }
  }

  function Order(rem: seq<int>, n: nat): (order: seq<int>)
    requires n <= |rem|
    ensures ServiceOrder(rem, order, n, n)
  {
    if n == 0 then []
    else
      var before := Order(rem, n - 1);
      InsertIndexOrder(rem, n - 1, before);
      InsertIndex(rem, n - 1, before)
  }

  ghost function Image(order: seq<int>, k: nat): set<int>
    requires k <= |order|
  {
    set a | 0 <= a < k :: order[a]
  }

  lemma {:induction false} ImageSize(order: seq<int>, k: nat)
    requires k <= |order| && forall a, b :: 0 <= a < b < |order| ==> order[a] != order[b]
    ensures |Image(order, k)| == k
  {
    if k > 0 {
      ImageSize(order, k - 1);
      assert Image(order, k) == Image(order, k - 1) + {order[k - 1]};
    }
  }

  lemma Member<T>(s: set<T>) returns (x: T)
    requires s != {}
    ensures x in s
  {
    x :| x in s;
  }

  lemma {:induction false} SubsetSize<T>(s: set<T>, t: set<T>)
    requires s <= t
    ensures |s| <= |t|
  {
    if s != {} {
      var x :| x in s;
      SubsetSize(s - {x}, t - {x});
    }
  }

  lemma {:induction false} BoundedSize(s: set<int>, n: nat)
    requires forall x :: x in s ==> 0 <= x < n
    ensures |s| <= n
  {
    if n > 0 {
      BoundedSize(s - {n - 1}, n - 1);
    } else if s != {} {
      var x := Member(s);
    }
  }

  /** The service order lists every party. */
  lemma Covers(rem: seq<int>, order: seq<int>, j: int) returns (a: nat)
    requires ServiceOrder(rem, order, |rem|, |rem|) && 0 <= j < |rem|
    ensures a < |order| && order[a] == j
  {
    if j !in order {
      ImageSize(order, |order|);
      BoundedSize(Image(order, |order|) + {j}, |rem|);
      assert false;
    }
    a :| 0 <= a < |order| && order[a] == j;
  }

  /** The k-th party served has exactly k parties before it. */
  lemma RankOfOrder(rem: seq<int>, order: seq<int>, k: nat)
    requires ServiceOrder(rem, order, |rem|, |rem|) && k < |rem|
    ensures Rank(rem, order[k]) == k
  {
    forall j | 0 <= j < |rem|
      ensures j in Ahead(rem, order[k]) <==> j in Image(order, k)
    {
      var a := Covers(rem, order, j);
      if j in Image(order, k) {
        var c :| 0 <= c < k && order[c] == j;
      }
    }
    assert Ahead(rem, order[k]) == Image(order, k);
    ImageSize(order, k);
  }

  // ---- The computation ----

  lemma QuotaOf(total: int, ws: seq<int>, i: int)
    requires Weights(ws) && 0 <= i < |ws|
    ensures total * ws[i] == Sum(ws) * Floors(total, ws)[i] + Remainders(total, ws)[i]
  {
  }

  lemma {:induction false} QuotasAddUp(total: int, ws: seq<int>, n: nat)
    requires Weights(ws) && n <= |ws|
    ensures total * Sum(ws[..n]) == Sum(ws) * Sum(Floors(total, ws)[..n]) + Sum(Remainders(total, ws)[..n])
  {
    hide Floors, Remainders;
    if n > 0 {
      QuotasAddUp(total, ws, n - 1);
      var q, r, w := Floors(total, ws), Remainders(total, ws), Sum(ws);
      assert ws[..n][..n - 1] == ws[..n - 1] && q[..n][..n - 1] == q[..n - 1] && r[..n][..n - 1] == r[..n - 1];
      QuotaOf(total, ws, n - 1);
      Spread(total, Sum(ws[..n - 1]), ws[n - 1]);
      Spread(w, Sum(q[..n - 1]), q[n - 1]);
    }
  }

  lemma Spread(a: int, b: int, c: int)
    ensures a * (b + c) == a * b + a * c
  {
  }

  lemma {:induction false} SumBelow(rem: seq<int>, w: int, n: nat)
    requires n <= |rem| && forall i :: 0 <= i < |rem| ==> 0 <= rem[i] < w
    ensures 0 <= Sum(rem[..n]) <= n * (w - 1)
  {
    if n > 0 {
      SumBelow(rem, w, n - 1);
      assert rem[..n][..n - 1] == rem[..n - 1];
      Spread(w - 1, n - 1, 1);
    }
  }

  /** The cents left after rounding down are fewer than the parties. */
  lemma LeftoverBelowParties(total: int, ws: seq<int>)
    requires Weights(ws)
    ensures 0 <= Leftover(total, ws) < |ws|
    ensures Sum(Remainders(total, ws)) == Sum(ws) * Leftover(total, ws)
  {
    hide Floors, Remainders, Sum;
    var q, r, w, n := Floors(total, ws), Remainders(total, ws), Sum(ws), |ws|;
    QuotasAddUp(total, ws, n);
    SumBelow(r, w, n);
    assert ws[..n] == ws && q[..n] == q && r[..n] == r;
    BetweenMultiples(w, total, Sum(q), Sum(r), n);
    assert n > 0 by {
      if n == 0 { EmptySum(ws); assert false; }
    }
  }

  lemma EmptySum(ws: seq<int>)
    requires ws == []
    ensures Sum(ws) == 0
  {
  }

  lemma BetweenMultiples(w: int, total: int, q: int, r: int, n: nat)
    requires w > 0 && total * w == w * q + r && 0 <= r <= n * (w - 1)
    ensures r == w * (total - q)
    ensures 0 <= total - q && (n > 0 ==> total - q < n)
  {
    var left := total - q;
    assert r == w * left;
    if left < 0 {
      MultiplyMonotone(w, left, -1);
    }
    if n > 0 && left >= n {
      MultiplyMonotone(w, n, left);
    }
  }

  lemma MultiplyMonotone(w: int, a: int, b: int)
    requires w > 0 && a <= b
    ensures w * a <= w * b
  {
  }

  /** Hands one cent to each of the first `remainder` parties in the order of service. */
  method HandOut(result: array<int>, order: seq<int>, remainder: nat, ghost rem: seq<int>)
    requires |rem| == result.Length && ServiceOrder(rem, order, |rem|, |rem|)
    requires remainder < |rem|
    modifies result
    ensures Sum(result[..]) == Sum(old(result[..])) + remainder
    ensures forall j :: 0 <= j < |order| ==> result[order[j]] == old(result[..])[order[j]] + if j < remainder then 1 else 0
  {
    hide Sum;
    for k := 0 to remainder
      invariant Sum(result[..]) == Sum(old(result[..])) + k
      invariant forall j :: 0 <= j < |order| ==> result[order[j]] == old(result[..])[order[j]] + if j < k then 1 else 0
    {
      assert k % |order| == k;
      ghost var before := result[..];
      result[order[k % |order|]] := result[order[k % |order|]] + 1;
      assert result[..] == before[order[k] := before[order[k]] + 1];
      SumUpdate(before, order[k], before[order[k]] + 1);
    }
  }

  /** distribute: rounds down, then walks the order of service handing out the leftover cents. */
  method Distribute(total: int, ws: seq<int>) returns (result: array<int>)
    requires |ws| > 0 && forall i :: 0 <= i < |ws| ==> ws[i] >= 0
    ensures fresh(result) && result[..] == Split(total, Effective(ws))
    ensures Sum(result[..]) == total
    decreases Sum(ws) <= 0
  {
    hide Floors, Remainders, Sum, Order, Rank;
    OnesSum(|ws|);
    if Sum(ws) <= 0 {
      result := Distribute(total, Ones(|ws|));
      return;
    }
    var floored := Floors(total, ws);
    var rem := Remainders(total, ws);
    var remainder := total - Sum(floored);
    var order := Order(rem, |rem|);
    LeftoverBelowParties(total, ws);
    result := new int[|ws|](i requires 0 <= i < |ws| => floored[i]);
    assert result[..] == floored;
    HandOut(result, order, remainder, rem);
    forall i | 0 <= i < |ws|
      ensures result[i] == Split(total, ws)[i]
    {
      var j := Covers(rem, order, i);
      RankOfOrder(rem, order, j);
    }
    assert result[..] == Split(total, ws);
  }

  datatype Method = EQUAL | BY_PARTY_COUNT | BY_CLAIM_VALUE | BY_CLAIM_AND_COUNTERCLAIM | BY_TRIBUNAL | BY_AGREEMENT | CUSTOM

  datatype Side = CLAIMANT | RESPONDENT

  /** Amounts are cents; claim values and weights are whole numbers. */
  datatype PartyShareInput = PartyShareInput(partyId: string, side: Side, claimValue: Option<int>, weight: Option<int>)

  datatype AllocationShare = AllocationShare(partyId: string, side: Side, shareAmount: int)

  datatype AllocationError = NegativeTotal | NoParties

  /** A missing or negative figure weighs nothing. */
  function Clamp(figure: Option<int>): nat {
    if figure.Some? && figure.value > 0 then figure.value else 0
  }

  function WeightOf(how: Method, p: PartyShareInput): nat {
    match how
    case EQUAL | BY_PARTY_COUNT | BY_TRIBUNAL => 1
    case BY_CLAIM_VALUE | BY_CLAIM_AND_COUNTERCLAIM => Clamp(p.claimValue)
    case BY_AGREEMENT | CUSTOM => Clamp(p.weight)
  }

  function WeightsOf(how: Method, parties: seq<PartyShareInput>): (ws: seq<int>)
    ensures |ws| == |parties| && forall i :: 0 <= i < |ws| ==> ws[i] >= 0
  {
    seq(|parties|, i requires 0 <= i < |parties| => WeightOf(how, parties[i]))
  }

  function Amounts(shares: seq<AllocationShare>): (amounts: seq<int>)
    ensures |amounts| == |shares|
  {
    seq(|shares|, i requires 0 <= i < |shares| => shares[i].shareAmount)
  }

  // ---- What the methods promise, in terms of the figures the parties come with ----

  predicate Positive(figure: Option<int>) {
    figure.Some? && figure.value > 0
  }

  predicate Larger(a: Option<int>, b: Option<int>) {
    Positive(a) && Positive(b) && a.value > b.value
  }

  function PositiveSum(figures: seq<Option<int>>): nat {
    if figures == [] then 0
    else
      var last := figures[|figures| - 1];
      PositiveSum(figures[..|figures| - 1]) + if Positive(last) then last.value else 0
  }

  /** No two parties are more than a cent apart. */
  predicate Even(amounts: seq<int>) {
    forall i, j :: 0 <= i < |amounts| && 0 <= j < |amounts| ==> amounts[i] <= amounts[j] + 1
  }

  /**
   Each party gets its figure's part of the sum of the positive figures, to less than a cent; the larger figure never
   gets less, and no figure gets nothing. Without any positive figure the split is even.
   */
  predicate ByFigure(total: int, figures: seq<Option<int>>, amounts: seq<int>)
    requires |amounts| == |figures|
  {
    var all := PositiveSum(figures);
    if exists i :: 0 <= i < |figures| && Positive(figures[i]) then
      && (forall i :: 0 <= i < |figures| && !Positive(figures[i]) ==> amounts[i] == 0)
      && (forall i :: 0 <= i < |figures| && Positive(figures[i]) ==>
            total * figures[i].value - all < all * amounts[i] < total * figures[i].value + all)
      && (forall i, j :: 0 <= i < |figures| && 0 <= j < |figures| && Larger(figures[i], figures[j]) ==> amounts[i] >= amounts[j])
    else Even(amounts)
  }

  /** What the allocation method asks of the amounts. */
  predicate FollowsMethod(total: int, how: Method, parties: seq<PartyShareInput>, amounts: seq<int>)
    requires |amounts| == |parties|
  {
    match how
    case EQUAL | BY_PARTY_COUNT | BY_TRIBUNAL => Even(amounts)
    case BY_CLAIM_VALUE | BY_CLAIM_AND_COUNTERCLAIM =>
      ByFigure(total, seq(|parties|, i requires 0 <= i < |parties| => parties[i].claimValue), amounts)
    case BY_AGREEMENT | CUSTOM =>
      ByFigure(total, seq(|parties|, i requires 0 <= i < |parties| => parties[i].weight), amounts)
  }

  lemma OnesEven(total: int, n: nat)
    requires total >= 0 && n > 0
    ensures Weights(Ones(n)) && Even(Split(total, Ones(n)))
  {
    OnesSum(n);
    hide Split, Sum;
    forall i | 0 <= i < n
      ensures total / n <= Split(total, Ones(n))[i] <= total / n + 1
    {
      EvenSplit(total, n, i);
    }
  }

  predicate Weigh(figures: seq<Option<int>>, ws: seq<int>) {
    && |ws| == |figures|
    && (forall i :: 0 <= i < |ws| ==> ws[i] >= 0)
    && (forall i :: 0 <= i < |ws| ==> ws[i] == if Positive(figures[i]) then figures[i].value else 0)
  }

  lemma {:induction false} FiguresSum(figures: seq<Option<int>>, ws: seq<int>)
    requires Weigh(figures, ws)
    ensures Sum(ws) == PositiveSum(figures)
    ensures PositiveSum(figures) > 0 <==> exists i :: 0 <= i < |figures| && Positive(figures[i])
  {
    if figures != [] {
      FiguresSum(figures[..|figures| - 1], ws[..|ws| - 1]);
      if i :| 0 <= i < |figures| - 1 && Positive(figures[i]) {
        assert figures[..|figures| - 1][i] == figures[i];
      }
    }
  }

  lemma FiguresDecide(total: int, figures: seq<Option<int>>, ws: seq<int>)
    requires total >= 0 && figures != [] && Weigh(figures, ws)
    ensures ByFigure(total, figures, Split(total, Effective(ws)))
  {
    FiguresSum(figures, ws);
    if Sum(ws) <= 0 {
      OnesEven(total, |ws|);
    } else {
      hide Split, Sum, PositiveSum;
      forall i | 0 <= i < |ws| {
        SplitShape(total, ws, i);
      }
      forall i, j | 0 <= i < |ws| && 0 <= j < |ws| && ws[i] > ws[j]
        ensures Split(total, ws)[i] >= Split(total, ws)[j]
      {
        HeavierGetsNoLess(total, ws, i, j);
      }
    }
  }

  /** The split follows the method: equal methods ignore all figures, the claim methods the weights, the others the claims. */
  lemma SplitFollowsMethod(total: int, how: Method, parties: seq<PartyShareInput>)
    requires total >= 0 && parties != []
    ensures FollowsMethod(total, how, parties, Split(total, Effective(WeightsOf(how, parties))))
  {
    hide Split, Sum, ByFigure, Even;
    var ws := WeightsOf(how, parties);
    match how
    case EQUAL | BY_PARTY_COUNT | BY_TRIBUNAL =>
      OnesSum(|ws|);
      assert ws == Ones(|ws|);
      OnesEven(total, |ws|);
    case BY_CLAIM_VALUE | BY_CLAIM_AND_COUNTERCLAIM =>
      FiguresDecide(total, seq(|parties|, i requires 0 <= i < |parties| => parties[i].claimValue), ws);
    case BY_AGREEMENT | CUSTOM =>
      FiguresDecide(total, seq(|parties|, i requires 0 <= i < |parties| => parties[i].weight), ws);
  }

  method Allocate(total: int, how: Method, parties: seq<PartyShareInput>)
    returns (r: Result<seq<AllocationShare>, AllocationError>)
    ensures r.Err? <==> total < 0 || parties == []
    ensures total < 0 ==> r == Err(NegativeTotal)
    ensures r.Ok? ==>
      && |r.value| == |parties|
      && (forall i :: 0 <= i < |parties| ==>
            r.value[i].partyId == parties[i].partyId && r.value[i].side == parties[i].side)
      && Amounts(r.value) == Split(total, Effective(WeightsOf(how, parties)))
      && Sum(Amounts(r.value)) == total
      && FollowsMethod(total, how, parties, Amounts(r.value))
  {
    hide FollowsMethod, Split, Sum;
    if total < 0 {
      return Err(NegativeTotal);
    }
    if parties == [] {
      return Err(NoParties);
    }
    var cents := Distribute(total, WeightsOf(how, parties));
    var amounts := cents[..];
    var shares := seq(|parties|, i requires 0 <= i < |parties| && i < |amounts| =>
      AllocationShare(parties[i].partyId, parties[i].side, amounts[i]));
    assert Amounts(shares) == amounts;
    SplitFollowsMethod(total, how, parties);
    r := Ok(shares);
  }

  // ---- What the split guarantees ----

  lemma SplitSum(total: int, ws: seq<int>)
    requires Weights(ws)
    ensures Sum(Split(total, ws)) == total
  {
    hide Floors, Remainders, Sum, Order, Served, Split;
    LeftoverBelowParties(total, ws);
    var rem := Remainders(total, ws);
    ServedSum(total, ws, Order(rem, |rem|), Leftover(total, ws));
    ServedIsSplit(total, ws, Order(rem, |rem|), Leftover(total, ws));
  }

  /** The floors with one cent more for each of the first k parties served. */
  ghost function Served(total: int, ws: seq<int>, order: seq<int>, k: nat): (shares: seq<int>)
    requires Weights(ws) && ServiceOrder(Remainders(total, ws), order, |ws|, |ws|) && k <= |ws|
    ensures |shares| == |ws|
  {
    if k == 0 then Floors(total, ws)
    else
      var s := Served(total, ws, order, k - 1);
      s[order[k - 1] := s[order[k - 1]] + 1]
  }

  lemma {:induction false} ServedSum(total: int, ws: seq<int>, order: seq<int>, k: nat)
    requires Weights(ws) && ServiceOrder(Remainders(total, ws), order, |ws|, |ws|) && k <= |ws|
    ensures Sum(Served(total, ws, order, k)) == Sum(Floors(total, ws)) + k
    ensures forall j :: 0 <= j < |ws| ==>
      Served(total, ws, order, k)[order[j]] == Floors(total, ws)[order[j]] + if j < k then 1 else 0
  {
    hide Floors, Remainders, Sum;
    if k > 0 {
      ServedSum(total, ws, order, k - 1);
      var s := Served(total, ws, order, k - 1);
      SumUpdate(s, order[k - 1], s[order[k - 1]] + 1);
    }
  }

  lemma ServedIsSplit(total: int, ws: seq<int>, order: seq<int>, k: nat)
    requires Weights(ws) && ServiceOrder(Remainders(total, ws), order, |ws|, |ws|) && k <= |ws|
    requires k == Leftover(total, ws)
    ensures Served(total, ws, order, k) == Split(total, ws)
  {
    hide Floors, Remainders, Sum, Served, Rank;
    ServedSum(total, ws, order, k);
    forall i | 0 <= i < |ws|
      ensures Served(total, ws, order, k)[i] == Split(total, ws)[i]
    {
      var j := Covers(Remainders(total, ws), order, i);
      RankOfOrder(Remainders(total, ws), order, j);
    }
  }

  lemma SplitNonNegative(total: int, ws: seq<int>, i: int)
    requires total >= 0 && Weights(ws) && 0 <= i < |ws|
    ensures Split(total, ws)[i] >= 0
  {
    hide Sum, Favoured;
    MultiplySigns(total, ws[i]);
    assert Floors(total, ws)[i] == total * ws[i] / Sum(ws);
    QuotientNonNegative(total * ws[i], Sum(ws));
    hide Floors;
  }

  lemma QuotientNonNegative(a: int, w: int)
    requires w > 0 && a >= 0
    ensures a / w >= 0
  {
  }

  /** A party ahead of a favoured one is favoured too. */
  lemma FavouredAhead(total: int, ws: seq<int>, j: int, i: int)
    requires Weights(ws) && 0 <= i < |ws| && 0 <= j < |ws|
    requires Before(Remainders(total, ws), j, i)
    ensures Favoured(total, ws, i) ==> Favoured(total, ws, j)
  {
    var rem := Remainders(total, ws);
    assert Ahead(rem, j) <= Ahead(rem, i);
    SubsetSize(Ahead(rem, j), Ahead(rem, i));
  }

  /** A heavier party never gets less; of two equal ones the first listed never gets less. */
  lemma HeavierGetsNoLess(total: int, ws: seq<int>, i: int, j: int)
    requires total >= 0 && Weights(ws) && 0 <= i < |ws| && 0 <= j < |ws|
    requires ws[i] > ws[j] || (ws[i] == ws[j] && i < j)
    ensures Split(total, ws)[i] >= Split(total, ws)[j]
  {
    hide Sum, Rank;
    var q, r, w := Floors(total, ws), Remainders(total, ws), Sum(ws);
    assert total * ws[i] >= total * ws[j] by {
      Spread(total, ws[j], ws[i] - ws[j]);
    }
    QuotientMonotone(total * ws[j], total * ws[i], w);
    if q[i] == q[j] {
      if r[i] > r[j] || i < j {
        FavouredAhead(total, ws, i, j);
      } else {
        assert total * ws[i] == total * ws[j];
        assert total == 0 by { Spread(total, ws[j], ws[i] - ws[j]); }
        ZeroTotal(ws);
      }
    }
  }

  lemma QuotientMonotone(a: int, b: int, w: int)
    requires w > 0 && a <= b
    ensures a / w <= b / w
    ensures a / w == b / w ==> a % w <= b % w && (a % w == b % w ==> a == b)
  {
    if a / w > b / w {
      MultiplyMonotone(w, b / w + 1, a / w);
      Spread(w, b / w, 1);
    }
  }

  lemma ZeroTotal(ws: seq<int>)
    requires Weights(ws)
    ensures Leftover(0, ws) == 0
  {
    hide Sum;
    LeftoverBelowParties(0, ws);
    var r := Remainders(0, ws);
    assert forall i :: 0 <= i < |r| ==> r[i] == 0;
    SumNonNegative(r);
    if Leftover(0, ws) > 0 {
      MultiplyMonotone(Sum(ws), 1, Leftover(0, ws));
    }
  }

  /** The parties with something cut off, among the first n. */
  ghost function Positives(rem: seq<int>, n: nat): set<int>
    requires n <= |rem|
  {
    set i | 0 <= i < n && rem[i] > 0
  }

  lemma {:induction false} PositivesCarrySum(rem: seq<int>, w: int, n: nat)
    requires w > 0 && n <= |rem| && forall i :: 0 <= i < |rem| ==> 0 <= rem[i] < w
    ensures Sum(rem[..n]) <= (w - 1) * |Positives(rem, n)|
  {
    if n > 0 {
      PositivesCarrySum(rem, w, n - 1);
      assert rem[..n][..n - 1] == rem[..n - 1];
      if rem[n - 1] > 0 {
        assert Positives(rem, n) == Positives(rem, n - 1) + {n - 1};
        Spread(w - 1, |Positives(rem, n - 1)|, 1);
      } else {
        assert Positives(rem, n) == Positives(rem, n - 1);
      }
    }
  }

  /** A leftover cent only goes where rounding cut something off, so whole quotas are met exactly. */
  lemma WholeQuotaExact(total: int, ws: seq<int>, i: int)
    requires Weights(ws) && 0 <= i < |ws| && Remainders(total, ws)[i] == 0
    ensures !Favoured(total, ws, i)
    ensures Sum(ws) * Split(total, ws)[i] == total * ws[i]
  {
    hide Floors, Remainders, Sum;
    var rem, w, left := Remainders(total, ws), Sum(ws), Leftover(total, ws);
    LeftoverBelowParties(total, ws);
    PositivesCarrySum(rem, w, |rem|);
    assert rem[..|rem|] == rem;
    var positive := Positives(rem, |rem|);
    assert positive <= Ahead(rem, i);
    SubsetSize(positive, Ahead(rem, i));
    TooFewPositives(w, |positive|, left);
    QuotaOf(total, ws, i);
  }

  lemma TooFewPositives(w: int, n: nat, left: int)
    requires w > 0 && w * left <= (w - 1) * n
    ensures left <= n && (n == left ==> n == 0)
  {
    if left > n {
      MultiplyMonotone(w, n + 1, left);
    }
    assert (w - 1) * n == w * n - n;
  }

  lemma NoWeightNoQuota(total: int, ws: seq<int>, i: int)
    requires Weights(ws) && 0 <= i < |ws| && ws[i] == 0
    ensures Floors(total, ws)[i] == 0 && Remainders(total, ws)[i] == 0
    ensures Split(total, ws)[i] == 0
  {
    hide Sum;
    assert total * ws[i] == 0;
    assert !Favoured(total, ws, i) by {
      WholeQuotaExact(total, ws, i);
    }
    hide Favoured;
  }

  /** The shape of the split: exact sum, each share the quota rounded down or up, nothing for no weight. */
  lemma SplitShape(total: int, ws: seq<int>, i: int)
    requires total >= 0 && Weights(ws) && 0 <= i < |ws|
    ensures Sum(Split(total, ws)) == total
    ensures Sum(ws) * Split(total, ws)[i] < total * ws[i] + Sum(ws)
    ensures Sum(ws) * Split(total, ws)[i] > total * ws[i] - Sum(ws)
    ensures ws[i] == 0 ==> Split(total, ws)[i] == 0
  {
    hide Floors, Remainders, Sum, Favoured;
    SplitSum(total, ws);
    var q, w := Floors(total, ws)[i], Sum(ws);
    QuotaOf(total, ws, i);
    Spread(w, q, 1);
    if Remainders(total, ws)[i] == 0 {
      WholeQuotaExact(total, ws, i);
    }
    if ws[i] == 0 {
      NoWeightNoQuota(total, ws, i);
    }
  }

  /** An even split gives the odd cents to the parties listed first; so does a split without weights. */
  lemma EvenSplit(total: int, n: nat, i: int)
    requires total >= 0 && 0 <= i < n
    ensures Weights(Ones(n)) && Effective(seq(n, k => 0)) == Ones(n)
    ensures Split(total, Ones(n))[i] == total / n + if i < total % n then 1 else 0
  {
    hide Sum, Ahead, Rank;
    OnesSum(n);
    SumNonNegative(seq(n, k => 0));
    var ws := Ones(n);
    var q, rem := Floors(total, ws), Remainders(total, ws);
    assert total * 1 == total;
    assert forall k :: 0 <= k < n ==> q[k] == total / n && rem[k] == total % n;
    ConstantSum(q, total / n, n);
    assert q[..n] == q;
    EqualRank(rem, i);
    assert total == n * (total / n) + total % n;
  }

  lemma {:induction false} ConstantSum(s: seq<int>, x: int, n: nat)
    requires n <= |s| && forall k :: 0 <= k < |s| ==> s[k] == x
    ensures Sum(s[..n]) == n * x
  {
    if n > 0 {
      ConstantSum(s, x, n - 1);
      assert s[..n][..n - 1] == s[..n - 1];
    }
  }

  lemma {:induction false} EqualRank(rem: seq<int>, i: nat)
    requires i < |rem| && forall k :: 0 <= k < |rem| ==> rem[k] == rem[0]
    ensures Rank(rem, i) == i
  {
    if i == 0 {
      assert Ahead(rem, i) == {};
    } else {
      EqualRank(rem, i - 1);
      assert Ahead(rem, i) == Ahead(rem, i - 1) + {i - 1};
    }
  }

  // ---- Optimality ----

  /** Squared distance of one share from its exact quota, scaled by the weight sum. */
  function Miss(total: int, ws: seq<int>, shares: seq<int>, i: int): int
    requires 0 <= i < |ws| == |shares|
  {
    (Sum(ws) * shares[i] - total * ws[i]) * (Sum(ws) * shares[i] - total * ws[i])
  }

  /** Total squared distance of the first n shares from their quotas. */
  function Distance(total: int, ws: seq<int>, shares: seq<int>, n: nat): int
    requires n <= |ws| == |shares|
  {
    if n == 0 then 0 else Distance(total, ws, shares, n - 1) + Miss(total, ws, shares, n - 1)
  }

  /** Moving d cents from a share that misses its quota by w * b - r costs at least the marginal price w - 2 * cut. */
  lemma MarginalCost(w: int, r: int, b: int, d: int, cut: int)
    requires w > 0 && 0 <= r < w && 0 <= cut <= w && (b == 0 || b == 1)
    requires b == 0 ==> r <= cut
    requires b == 1 ==> r >= cut
    ensures
      var e := w * b - r;
      (w * d + e) * (w * d + e) - e * e >= w * d * (w - 2 * cut)
  {
    var e := w * b - r;
    var slack := w * d + 2 * e - w + 2 * cut;
    assert e == if b == 0 then -r else w - r;
    SlackHasSign(w, e, d, cut, slack);
    MultiplySigns(w, d * slack);
    CostSplits(w, d, e, cut, slack);
  }

  lemma SlackHasSign(w: int, e: int, d: int, cut: int, slack: int)
    requires w > 0 && 0 <= cut <= w && -w < e <= w && slack == w * d + 2 * e - w + 2 * cut
    requires -cut <= e <= w - cut
    ensures d * slack >= 0
  {
    if d >= 1 {
      MultiplyMonotone(w, 1, d);
      MultiplySigns(d, slack);
    } else if d <= -1 {
      MultiplyMonotone(w, d, -1);
      MultiplySigns(-d, -slack);
      assert (-d) * (-slack) == d * slack;
    }
  }

  lemma CostSplits(w: int, d: int, e: int, cut: int, slack: int)
    requires slack == w * d + 2 * e - w + 2 * cut
    ensures (w * d + e) * (w * d + e) - e * e == w * (d * slack) + w * d * (w - 2 * cut)
  {
    var m := w * d;
    assert (m + e) * (m + e) - e * e == m * (m + 2 * e);
    assert m + 2 * e == slack + (w - 2 * cut);
    assert m * (slack + (w - 2 * cut)) == m * slack + m * (w - 2 * cut);
    assert m * slack == w * (d * slack);
  }

  lemma MultiplySigns(a: int, b: int)
    requires a >= 0 && b >= 0
    ensures a * b >= 0 && (-a) * (-b) == a * b
  {
  }

  /** The remainder at the cut separates the favoured parties from the others. */
  lemma Cut(total: int, ws: seq<int>) returns (cut: int)
    requires Weights(ws)
    ensures 0 <= cut <= Sum(ws)
    ensures forall i :: 0 <= i < |ws| ==>
      if Favoured(total, ws, i) then Remainders(total, ws)[i] >= cut else Remainders(total, ws)[i] <= cut
  {
    hide Floors, Remainders, Sum, Order, Rank;
    var rem, left := Remainders(total, ws), Leftover(total, ws);
    var order := Order(rem, |rem|);
    LeftoverBelowParties(total, ws);
    cut := if left == 0 then Sum(ws) else rem[order[left - 1]];
    forall i | 0 <= i < |ws|
      ensures if Favoured(total, ws, i) then rem[i] >= cut else rem[i] <= cut
    {
      var j := Covers(rem, order, i);
      RankOfOrder(rem, order, j);
    }
  }

  lemma {:induction false} DistanceGap(total: int, ws: seq<int>, y: seq<int>, cut: int, n: nat)
    requires Weights(ws) && n <= |ws| == |y| && 0 <= cut <= Sum(ws)
    requires forall i :: 0 <= i < |ws| ==>
      if Favoured(total, ws, i) then Remainders(total, ws)[i] >= cut else Remainders(total, ws)[i] <= cut
    ensures
      var x, w := Split(total, ws), Sum(ws);
      Distance(total, ws, y, n) - Distance(total, ws, x, n) >= w * (Sum(y[..n]) - Sum(x[..n])) * (w - 2 * cut)
  {
    hide Floors, Remainders, Sum, Favoured, Miss;
    var x, w := Split(total, ws), Sum(ws);
    if n > 0 {
      DistanceGap(total, ws, y, cut, n - 1);
      MissGap(total, ws, y, cut, n - 1);
      PrefixGap(x, y, n);
      var before, d := Sum(y[..n - 1]) - Sum(x[..n - 1]), y[n - 1] - x[n - 1];
      Spread(w, before, d);
      Spread(w - 2 * cut, w * before, w * d);
    }
  }

  lemma PrefixGap(x: seq<int>, y: seq<int>, n: nat)
    requires 0 < n <= |x| == |y|
    ensures Sum(y[..n]) - Sum(x[..n]) == Sum(y[..n - 1]) - Sum(x[..n - 1]) + (y[n - 1] - x[n - 1])
  {
    assert y[..n][..n - 1] == y[..n - 1] && x[..n][..n - 1] == x[..n - 1];
  }

  lemma MissGap(total: int, ws: seq<int>, y: seq<int>, cut: int, i: nat)
    requires Weights(ws) && i < |ws| == |y| && 0 <= cut <= Sum(ws)
    requires if Favoured(total, ws, i) then Remainders(total, ws)[i] >= cut else Remainders(total, ws)[i] <= cut
    ensures
      var x, w := Split(total, ws), Sum(ws);
      Miss(total, ws, y, i) - Miss(total, ws, x, i) >= w * (y[i] - x[i]) * (w - 2 * cut)
  {
    hide Floors, Remainders, Sum, Favoured;
    var x, w := Split(total, ws), Sum(ws);
    var q, r, b := Floors(total, ws)[i], Remainders(total, ws)[i], if Favoured(total, ws, i) then 1 else 0;
    QuotaOf(total, ws, i);
    Spread(w, q, b);
    Spread(w, x[i], y[i] - x[i]);
    MarginalCost(w, r, b, y[i] - x[i], cut);
  }

  /** No other split of the total into whole cents lies closer to the exact quotas. */
  lemma SplitOptimal(total: int, ws: seq<int>, y: seq<int>)
    requires Weights(ws) && |y| == |ws| && Sum(y) == total
    ensures Distance(total, ws, Split(total, ws), |ws|) <= Distance(total, ws, y, |ws|)
  {
    hide Split, Favoured, Distance, Sum, Remainders;
    var cut := Cut(total, ws);
    DistanceGap(total, ws, y, cut, |ws|);
    SplitSum(total, ws);
    assert y[..|ws|] == y && Split(total, ws)[..|ws|] == Split(total, ws);
    assert Sum(ws) * (Sum(y) - Sum(Split(total, ws))) * (Sum(ws) - 2 * cut) == 0;
  }

  // ---- The documented remainder rule ----

  /** Party g is the first of those with the greatest value. */
  predicate FirstGreatest(values: seq<int>, g: int) {
    0 <= g < |values| && forall j :: 0 <= j < |values| ==> values[j] < values[g] || (values[j] == values[g] && g <= j)
  }

  /** The split the header of the file describes: the whole rounding remainder goes to the largest share. */
  function HeaderSplit(total: int, ws: seq<int>, largest: int): (shares: seq<int>)
    requires Weights(ws) && 0 <= largest < |ws|
    ensures |shares| == |ws|
  {
    Floors(total, ws)[largest := Floors(total, ws)[largest] + Leftover(total, ws)]
  }

  /** The party of the largest share also has the largest fraction of a cent cut off, and is the first with it. */
  predicate LargestFraction(total: int, ws: seq<int>, largest: int)
    requires Weights(ws) && 0 <= largest < |ws|
  {
    forall j :: 0 <= j < |ws| ==>
      || total * ws[j] % Sum(ws) < total * ws[largest] % Sum(ws)
      || (total * ws[j] % Sum(ws) == total * ws[largest] % Sum(ws) && largest <= j)
  }

  lemma NoneAheadOfFirst(rem: seq<int>, i: int)
    requires 0 <= i < |rem|
    ensures Rank(rem, i) == 0 <==> FirstGreatest(rem, i)
  {
    if FirstGreatest(rem, i) {
      assert Ahead(rem, i) == {};
    }
    if Rank(rem, i) == 0 {
      forall j | 0 <= j < |rem|
        ensures rem[j] < rem[i] || (rem[j] == rem[i] && i <= j)
      {
        assert j !in Ahead(rem, i) && !Before(rem, j, i);
      }
    }
  }

  lemma SameOrder(total: int, ws: seq<int>, i: int)
    requires Weights(ws) && 0 <= i < |ws|
    ensures FirstGreatest(Remainders(total, ws), i) <==> LargestFraction(total, ws, i)
  {
    hide Sum;
    var rem := Remainders(total, ws);
    assert forall j :: 0 <= j < |ws| ==> rem[j] == total * ws[j] % Sum(ws);
    if FirstGreatest(rem, i) {
      forall j | 0 <= j < |ws|
        ensures total * ws[j] % Sum(ws) < total * ws[i] % Sum(ws)
          || (total * ws[j] % Sum(ws) == total * ws[i] % Sum(ws) && i <= j)
      {
        assert rem[j] < rem[i] || (rem[j] == rem[i] && i <= j);
      }
    }
  }

  /**
   The header's rule holds exactly when nothing is left over, or a single cent is and the party
   of the largest share, the first of greatest weight, also has the largest fraction cut off.
   */
  lemma WholeRemainderToLargest(total: int, ws: seq<int>, largest: int)
    requires total >= 0 && Weights(ws) && FirstGreatest(ws, largest)
    ensures Split(total, ws) == HeaderSplit(total, ws, largest)
       <==> Leftover(total, ws) == 0 || (Leftover(total, ws) == 1 && LargestFraction(total, ws, largest))
  {
    LeftoverBelowParties(total, ws);
    var q, rem, k := Floors(total, ws), Remainders(total, ws), Leftover(total, ws);
    SameOrder(total, ws, largest);
    hide Sum, Floors, Remainders, Leftover, Rank, LargestFraction;
    forall i | 0 <= i < |ws| {
      NoneAheadOfFirst(rem, i);
    }
    assert Split(total, ws)[largest] <= q[largest] + 1;
    if k <= 1 && (k == 0 || FirstGreatest(rem, largest)) {
      assert forall i :: 0 <= i < |ws| && i != largest ==> !FirstGreatest(rem, i) || k == 0;
      assert Split(total, ws) == HeaderSplit(total, ws, largest);
    }
  }

  /** Ten cents over the weights 5 and 2: the odd cent goes to the smaller share. */
  lemma SmallerShareGetsTheCent()
    ensures Weights([5, 2]) && Split(10, [5, 2]) == [7, 3]
  {
    var ws := [5, 2];
    assert ws[..1] == [5] && ws[..0] == [];
    SumAppend([5], [2]);
    SumOne(5);
    SumOne(2);
    assert ws == [5] + [2];
    var q, rem := Floors(10, ws), Remainders(10, ws);
    assert q == [7] + [2] && rem == [1, 6];
    SumAppend([7], [2]);
    SumOne(7);
    assert Ahead(rem, 1) == {} && Ahead(rem, 0) == {1};
  }

  // ---- Payments against shares ----

  datatype ShareLedger = ShareLedger(partyId: string, shareAmount: int, paidAmount: int)

  /** What a share still lacks; an overpayment does not count. */
  function Outstanding(share: ShareLedger): int {
    if share.shareAmount > share.paidAmount then share.shareAmount - share.paidAmount else 0
  }

  function TotalOutstanding(shares: seq<ShareLedger>): int {
    if shares == [] then 0 else TotalOutstanding(shares[..|shares| - 1]) + Outstanding(shares[|shares| - 1])
  }

  /** Nothing is outstanding in total exactly when every share is covered. */
  lemma {:induction false} NothingOutstanding(shares: seq<ShareLedger>)
    ensures TotalOutstanding(shares) >= 0
    ensures TotalOutstanding(shares) == 0 <==> forall i :: 0 <= i < |shares| ==> shares[i].paidAmount >= shares[i].shareAmount
  {
    if shares != [] {
      NothingOutstanding(shares[..|shares| - 1]);
    }
  }
}
