/** Whole numbers in decimal, as `String` writes them and `Number` reads them. */
module Decimals {

  /** `String(n)` of a whole number. */
  function Decimal(n: int): (s: string)
    ensures |s| >= 1
    decreases n < 0, if n < 0 then -n else n
  {
    if n < 0 then "-" + Decimal(-n)
    else if n < 10 then [Digit(n)]
    else Decimal(n / 10) + [Digit(n % 10)]
  }

  function Digit(n: int): char
    requires 0 <= n < 10
  {
    '0' + (n as char)
  }

  lemma {:induction false} DecimalStart(n: nat)
    ensures Decimal(n)[0] != '-'
  {
    if n >= 10 {
      DecimalStart(n / 10);
    }
  }

  lemma {:induction false} DecimalInjective(m: int, n: int)
    requires Decimal(m) == Decimal(n)
    ensures m == n
    decreases m < 0, if m < 0 then -m else m
  {
    if m >= 0 { DecimalStart(m); }
    if n >= 0 { DecimalStart(n); }
    if m < 0 {
      assert Decimal(m)[0] == '-';
      assert Decimal(-m) == Decimal(m)[1..] == Decimal(n)[1..] == Decimal(-n);
      DecimalInjective(-m, -n);
    } else if n < 0 {
      assert false;
    } else if m >= 10 && n >= 10 {
      var k := |Decimal(m)| - 1;
      assert Decimal(m / 10) == Decimal(m)[..k] == Decimal(n)[..k] == Decimal(n / 10);
      assert Digit(m % 10) == Decimal(m)[k] == Decimal(n)[k] == Digit(n % 10);
      DecimalInjective(m / 10, n / 10);
    } else {
      assert m < 10 && n < 10 by {
        assert |Decimal(m)| == |Decimal(n)|;
      }
    }
  }

  predicate IsDigit(c: char) { '0' <= c <= '9' }

  /** `Number` of a run of digits. */
  function NumberOf(s: string): nat
    requires forall i :: 0 <= i < |s| ==> IsDigit(s[i])
  {
    if s == "" then 0
    else
      assert IsDigit(s[|s| - 1]);
      10 * NumberOf(s[..|s| - 1]) + (s[|s| - 1] - '0') as int
  }

  predicate Digits(s: string) {
    s != "" && forall i :: 0 <= i < |s| ==> IsDigit(s[i])
  }

  /** Writing a number in decimal and reading it back gives the number. */
  lemma {:induction false} DecimalRoundTrip(n: nat)
    ensures Digits(Decimal(n)) && NumberOf(Decimal(n)) == n
  {
    if n >= 10 {
      DecimalRoundTrip(n / 10);
      var s := Decimal(n);
      assert s[..|s| - 1] == Decimal(n / 10);
    }
  }
}
