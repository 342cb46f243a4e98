/** What the text of a civil date says, read back by a parser of its own: year, '-', two month digits, '-', two day digits. */
module DateKeys {
  import opened Wrappers
  import opened CivilDates
  import opened Decimals
  import opened BusinessDays

  /** A whole number in decimal, with a minus sign when negative. */
  function ReadYear(s: string): Option<int> {
    if s != "" && s[0] == '-' && Digits(s[1..]) then Some(0 - NumberOf(s[1..]))
    else if Digits(s) then Some(NumberOf(s))
    else None
  }

  function ReadKey(s: string): Option<CivilDate> {
    var n := |s|;
    if n >= 7 && s[n - 6] == '-' && Digits(s[n - 5..n - 3]) && s[n - 3] == '-' && Digits(s[n - 2..]) then
      match ReadYear(s[..n - 6])
      case None => None
      case Some(year) => Some(CivilDate(year, NumberOf(s[n - 5..n - 3]), NumberOf(s[n - 2..])))
    else None
  }

  /** A text that reads as a date and writes the year without leading zeros, as in 2026-07-01. */
  predicate Plain(s: string) {
    ReadKey(s).Some? && NoLeadingZero(s[..|s| - 6])
  }

  predicate NoLeadingZero(s: string) {
    |s| == 1 || (|s| > 1 && s[0] != '0' && (s[0] == '-' ==> s[1] != '0'))
  }

  lemma DecimalReads(n: int)
    ensures ReadYear(Decimal(n)) == Some(n)
  {
    if n < 0 {
      DecimalRoundTrip(-n);
      assert Decimal(n)[1..] == Decimal(-n);
    } else {
      DecimalRoundTrip(n);
      DecimalStart(n);
    }
  }

  lemma PadReads(n: int)
    requires 1 <= n <= 31
    ensures |Pad(n)| == 2 && Digits(Pad(n)) && NumberOf(Pad(n)) == n
  {
    PadShape(n);
    var s := Pad(n);
    hide Pad;
    assert IsDigit(s[0]) && IsDigit(s[1]);
    assert s[..1] == [s[0]] && s[..1][..0] == "";
    assert NumberOf(s) == 10 * NumberOf(s[..1]) + (s[1] - '0') as int;
    assert NumberOf(s[..1]) == 10 * NumberOf("") + (s[0] - '0') as int;
  }

  /** The text of a date reads as that date. */
  lemma KeyReadsBack(d: CivilDate)
    requires Valid(d)
    ensures ReadKey(CivilToKey(d)) == Some(d)
  {
    DecimalReads(d.year);
    PadReads(d.month);
    PadReads(d.day);
    hide Decimal, Pad, NumberOf, Digits, ReadYear;
    var s, n := CivilToKey(d), |CivilToKey(d)|;
    assert n == |Decimal(d.year)| + 6;
    assert s[..n - 6] == Decimal(d.year) && s[n - 5..n - 3] == Pad(d.month) && s[n - 2..] == Pad(d.day);
  }

  lemma {:induction false} SameDigits(s: string, t: string)
    requires Digits(s) && Digits(t) && |s| == |t| && NumberOf(s) == NumberOf(t)
    ensures s == t
  {
    var k := |s| - 1;
    LastDigit(s);
    LastDigit(t);
    if k > 0 {
      SameDigits(s[..k], t[..k]);
    }
    assert s == s[..k] + [s[k]] && t == t[..k] + [t[k]];
  }

  lemma LastDigit(s: string)
    requires Digits(s)
    ensures var k := |s| - 1;
      0 <= (s[k] - '0') as int <= 9 && NumberOf(s) == 10 * NumberOf(s[..k]) + (s[k] - '0') as int
  {
    assert IsDigit(s[|s| - 1]);
  }

  lemma DecimalAppend(n: nat, last: int)
    requires n >= 1 && 0 <= last <= 9
    ensures Decimal(10 * n + last) == Decimal(n) + [Digit(last)]
  {
    assert (10 * n + last) / 10 == n && (10 * n + last) % 10 == last;
  }

  lemma {:induction false} DigitsAreDecimal(s: string)
    requires Digits(s) && (|s| == 1 || s[0] != '0')
    ensures Decimal(NumberOf(s)) == s
    ensures s[0] != '0' ==> NumberOf(s) >= 1
  {
    LastDigit(s);
    var k := |s| - 1;
    var last := (s[k] - '0') as int;
    assert Digit(last) == s[k];
    assert s == s[..k] + [s[k]];
    if k > 0 {
      DigitsAreDecimal(s[..k]);
      hide Decimal, NumberOf;
      DecimalAppend(NumberOf(s[..k]), last);
    } else {
      assert s[..0] == "" && NumberOf("") == 0;
      assert Decimal(last) == [Digit(last)];
    }
  }

  lemma YearIsDecimal(s: string, year: int)
    requires ReadYear(s) == Some(year) && NoLeadingZero(s)
    ensures Decimal(year) == s
  {
    if s[0] == '-' && Digits(s[1..]) {
      DigitsAreDecimal(s[1..]);
      assert s == "-" + s[1..];
    } else {
      DigitsAreDecimal(s);
    }
  }

  /** A text that reads as a date is put together from the parts it was read from. */
  lemma KeyParts(s: string)
    requires ReadKey(s).Some?
    ensures |s| >= 7 && s == s[..|s| - 6] + "-" + s[|s| - 5..|s| - 3] + "-" + s[|s| - 2..]
    ensures Digits(s[|s| - 5..|s| - 3]) && Digits(s[|s| - 2..])
    ensures ReadKey(s).value.month == NumberOf(s[|s| - 5..|s| - 3]) && ReadKey(s).value.day == NumberOf(s[|s| - 2..])
    ensures ReadYear(s[..|s| - 6]) == Some(ReadKey(s).value.year)
  {
    hide Digits, NumberOf, ReadYear;
  }

  /** A plain text is the key of the date it reads as, and of no other. */
  lemma PlainIsKey(s: string, d: CivilDate)
    requires Plain(s) && Valid(d)
    ensures ReadKey(s) == Some(d) <==> s == CivilToKey(d)
  {
    KeyReadsBack(d);
    if ReadKey(s) == Some(d) {
      KeyParts(s);
      hide NumberOf, Digits, Decimal, Pad, ReadYear, NoLeadingZero, ReadKey;
      PadReads(d.month);
      PadReads(d.day);
      YearIsDecimal(s[..|s| - 6], d.year);
      SameDigits(s[|s| - 5..|s| - 3], Pad(d.month));
      SameDigits(s[|s| - 2..], Pad(d.day));
    }
  }

  lemma {:induction false} DecimalHasNoLeadingZero(n: nat)
    ensures |Decimal(n)| == 1 || (Decimal(n)[0] != '0' && Decimal(n)[0] != '-')
    ensures n > 0 ==> Decimal(n)[0] != '0' && Decimal(n)[0] != '-'
  {
    if n >= 10 {
      DecimalHasNoLeadingZero(n / 10);
    } else {
      assert Decimal(n)[0] == Digit(n);
    }
  }

  lemma YearHasNoLeadingZero(year: int)
    ensures NoLeadingZero(Decimal(year))
  {
    DecimalHasNoLeadingZero(if year < 0 then -year else year);
    if year < 0 {
      assert Decimal(year) == "-" + Decimal(-year);
    }
  }

  lemma KeyIsPlain(d: CivilDate)
    requires Valid(d)
    ensures Plain(CivilToKey(d))
  {
    KeyReadsBack(d);
    PadReads(d.month);
    PadReads(d.day);
    YearHasNoLeadingZero(d.year);
    hide Pad, ReadKey, Decimal, NoLeadingZero, Digits;
    var s := CivilToKey(d);
    assert s[..|s| - 6] == Decimal(d.year);
  }

  /** A date is a business day exactly when it is no day of the weekend and no listed text is a plain one that reads as it. */
  lemma BusinessDayMeans(d: CivilDate, cal: HolidayCalendar)
    requires Valid(d)
    ensures IsBusinessDay(d, cal)
      <==> && (if cal.weekend == [] then WeekdayOf(d) != 0 && WeekdayOf(d) != 6 else WeekdayOf(d) !in cal.weekend)
           && forall s :: s in cal.holidays ==> !(Plain(s) && ReadKey(s) == Some(d))
  {
    hide WeekdayOf, CivilToKey, Plain, ReadKey;
    KeyIsPlain(d);
    forall s | s in cal.holidays && Plain(s)
      ensures ReadKey(s) == Some(d) <==> s == CivilToKey(d)
    {
      PlainIsKey(s, d);
    }
  }

  /** The weekday count has a Monday where the calendar has one. */
  lemma KnownWeekdays()
    ensures WeekdayOf(CivilDate(1970, 1, 1)) == 4 && WeekdayOf(CivilDate(2026, 6, 1)) == 1
  {
  }
}
