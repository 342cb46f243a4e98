/**
 Counting the open days of a calendar: how many there are in a stretch of day
 numbers and where the n-th one falls. Nothing here depends on what makes a day open.
 */
module DayCounting {

  /** Periods run in calendar days or in business days. */
  datatype DayKind = CALENDAR | BUSINESS

  type Days = int -> bool

  /** Number of open days among the k days after day t. */
  function Count(open: Days, t: int, k: nat): nat {
    if k == 0 then 0 else Count(open, t, k - 1) + if open(t + k) then 1 else 0
  }

  lemma {:induction false} CountSplits(open: Days, t: int, j: nat, k: nat)
    ensures Count(open, t, j + k) == Count(open, t, j) + Count(open, t + j, k)
  {
    if k > 0 {
      CountSplits(open, t, j, k - 1);
      assert t + (j + k) == (t + j) + k;
    }
  }

  lemma {:induction false} CountBounded(open: Days, t: int, k: nat)
    ensures Count(open, t, k) <= k
  {
    if k > 0 {
      CountBounded(open, t, k - 1);
    }
  }

  lemma CountMonotone(open: Days, t: int, j: nat, k: nat)
    requires j <= k
    ensures Count(open, t, j) <= Count(open, t, k)
    ensures j < k && open(t + k) ==> Count(open, t, j) < Count(open, t, k)
  {
    CountSplits(open, t, j, k - j);
    if j < k {
      CountSplits(open, t, j, k - j - 1);
    }
  }

  /** Open days lost between two calendars, when every day but one keeps its state. */
  lemma {:induction false} CountLosesOne(open: Days, fewer: Days, lost: int, t: int, k: nat)
    requires forall e :: t < e && e != lost && open(e) ==> fewer(e)
    ensures Count(open, t, k) <= Count(fewer, t, k) + if t < lost <= t + k then 1 else 0
  {
    if k > 0 {
      CountLosesOne(open, fewer, lost, t, k - 1);
    }
  }

  lemma {:induction false} CountShrinks(open: Days, fewer: Days, t: int, k: nat)
    requires forall e :: t < e && fewer(e) ==> open(e)
    ensures Count(fewer, t, k) <= Count(open, t, k)
  {
    if k > 0 {
      CountShrinks(open, fewer, t, k - 1);
    }
  }

  // ---- The n-th open day ----

  /** There are n open days after day t. */
  ghost predicate Reaches(open: Days, t: int, n: nat) {
    exists k: nat :: Count(open, t, k) >= n
  }

  /** The count climbs by single steps, so it meets every value up to its end on an open day. */
  lemma {:induction false} NthWithin(open: Days, t: int, n: nat, k: nat) returns (j: nat)
    requires 1 <= n <= Count(open, t, k)
    ensures 1 <= j <= k && IsNth(open, t, n, t + j)
  {
    if Count(open, t, k - 1) < n {
      j := k;
    } else {
      j := NthWithin(open, t, n, k - 1);
    }
  }

  predicate IsNth(open: Days, t: int, n: nat, due: int) {
    t < due && open(due) && Count(open, t, due - t) == n
  }

  /** The n-th open day after day t. */
  ghost function Nth(open: Days, t: int, n: nat): (due: int)
    requires n >= 1 && Reaches(open, t, n)
    ensures IsNth(open, t, n, due)
  {
    var k: nat :| Count(open, t, k) >= n;
    assert exists due :: IsNth(open, t, n, due) by {
      var j := NthWithin(open, t, n, k);
    }
    var due :| IsNth(open, t, n, due);
    due
  }

  /** It is the only open day with n open days up to it, and the least day with that many. */
  lemma NthUnique(open: Days, t: int, n: nat, e: int)
    requires n >= 1 && Reaches(open, t, n) && t <= e
    ensures Count(open, t, e - t) < n <==> e < Nth(open, t, n)
    ensures IsNth(open, t, n, e) <==> e == Nth(open, t, n)
  {
    var due := Nth(open, t, n);
    if e < due {
      CountMonotone(open, t, e - t, due - t);
      assert t + (due - t) == due;
    } else {
      CountMonotone(open, t, due - t, e - t);
      assert t + (e - t) == e;
    }
  }

  /** Counting on from the a-th open day by b more lands on the (a + b)-th. */
  lemma NthAdds(open: Days, t: int, a: nat, b: nat)
    requires a >= 1 && b >= 1 && Reaches(open, t, a) && Reaches(open, t, a + b)
    requires Reaches(open, Nth(open, t, a), b)
    ensures Nth(open, Nth(open, t, a), b) == Nth(open, t, a + b)
  {
    var mid := Nth(open, t, a);
    var end := Nth(open, mid, b);
    CountSplits(open, t, mid - t, end - mid);
    NthUnique(open, t, a + b, end);
  }

  /** A later start never gives an earlier day; more days always give a later one. */
  lemma NthMonotone(open: Days, t: int, t': int, n: nat, n': nat)
    requires t <= t' && 1 <= n <= n'
    requires Reaches(open, t, n) && Reaches(open, t', n')
    ensures Nth(open, t, n) <= Nth(open, t', n')
    ensures t == t' && n < n' ==> Nth(open, t, n) < Nth(open, t', n')
  {
    var due, due' := Nth(open, t, n), Nth(open, t', n');
    CountSplits(open, t, t' - t, due' - t');
    NthUnique(open, t, n, due');
  }

  /** Closing days never brings the n-th open day forward. */
  lemma NthMonotoneInDays(open: Days, fewer: Days, t: int, n: nat)
    requires n >= 1 && Reaches(open, t, n) && Reaches(fewer, t, n)
    requires forall e :: t < e && fewer(e) ==> open(e)
    ensures Nth(open, t, n) <= Nth(fewer, t, n)
  {
    var due := Nth(fewer, t, n);
    CountShrinks(open, fewer, t, due - t);
    NthUnique(open, t, n, due);
  }

  // ---- Weekly calendars ----

  /** If one day in every week is open, 7 * m days hold m open days. */
  lemma {:induction false} WeeklyCount(open: Days, t: int, m: nat)
    requires forall start :: start >= t ==> WeekOpen(open, start)
    ensures Count(open, t, 7 * m) >= m
  {
    if m > 0 {
      WeeklyCount(open, t, m - 1);
      CountSplits(open, t, 7 * (m - 1), 7);
      var start := t + 7 * (m - 1);
      assert WeekOpen(open, start);
      var e :| start < e <= start + 7 && open(e);
      CountMonotone(open, start, 0, e - start);
      CountMonotone(open, start, e - start, 7);
      assert start + (e - start) == e;
    }
  }

  /** One of the seven days after start is open. */
  ghost predicate WeekOpen(open: Days, start: int) {
    exists e :: start < e <= start + 7 && open(e)
  }
}
