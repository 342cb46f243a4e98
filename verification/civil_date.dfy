/**
 Proleptic-Gregorian civil dates, as the deadline engine computes them through
 the UTC methods of the JavaScript `Date` object (section 21.4.1 of ECMA-262).
 */
module CivilDates {
  import opened Decimals

  datatype CivilDate = CivilDate(year: int, month: int, day: int)

  predicate IsLeap(y: int) {
    y % 4 == 0 && (y % 100 != 0 || y % 400 == 0)
  }

  function DaysInYear(y: int): int {
    if IsLeap(y) then 366 else 365
  }

  function DaysInMonth(y: int, m: int): int {
    if m == 2 then (if IsLeap(y) then 29 else 28)
    else if m == 4 || m == 6 || m == 9 || m == 11 then 30
    else 31
  }

  predicate Valid(d: CivilDate) {
    1 <= d.month <= 12 && 1 <= d.day <= DaysInMonth(d.year, d.month)
  }

  /** Dates that `Date.UTC` takes at face value: it reads the years 0 to 99 as 1900 to 1999. */
  predicate FaceValue(d: CivilDate) {
    !(0 <= d.year <= 99)
  }

  /** Dates on which the engine's forward loops stay clear of the remapped years. */
  predicate Modern(d: CivilDate) {
    Valid(d) && d.year >= 100
  }

  /** Chronological order of civil dates, by year, then month, then day. */
  predicate Precedes(d: CivilDate, e: CivilDate) {
    d.year < e.year
    || (d.year == e.year && (d.month < e.month || (d.month == e.month && d.day < e.day)))
  }

  // ---- Day numbers (days since 1970-01-01) ----

  /** DayFromYear: the day number of 1 January. */
  function DayFromYear(y: int): int {
    365 * (y - 1970) + (y - 1969) / 4 - (y - 1901) / 100 + (y - 1601) / 400
  }

  function DaysBeforeMonth(y: int, m: int): int {
    (if m <= 1 then 0 else if m == 2 then 31 else if m == 3 then 59 else if m == 4 then 90
     else if m == 5 then 120 else if m == 6 then 151 else if m == 7 then 181 else if m == 8 then 212
     else if m == 9 then 243 else if m == 10 then 273 else if m == 11 then 304 else if m == 12 then 334 else 365)
    + (if m > 2 && IsLeap(y) then 1 else 0)
  }

  /** MakeDay: a day of the month beyond the month's end runs on into the next months. */
  function MakeDay(y: int, m: int, day: int): int {
    DayFromYear(y) + DaysBeforeMonth(y, m) + day - 1
  }

  function DayNumber(d: CivilDate): int {
    MakeDay(d.year, d.month, d.day)
  }

  lemma YearLength(y: int)
    ensures DayFromYear(y + 1) == DayFromYear(y) + DaysInYear(y)
  {
    FourYears(y);
    Century(y);
    FourCenturies(y);
    CommonMultiples(y);
  }

  lemma FourYears(y: int)
    ensures (y - 1968) / 4 - (y - 1969) / 4 == if y % 4 == 0 then 1 else 0
  {
    var q := (y - 1969) / 4;
    assert 4 * q <= y - 1969 <= 4 * q + 3;
  }

  lemma Century(y: int)
    ensures (y - 1900) / 100 - (y - 1901) / 100 == if y % 100 == 0 then 1 else 0
  {
    var q := (y - 1901) / 100;
    assert 100 * q <= y - 1901 <= 100 * q + 99;
  }

  lemma FourCenturies(y: int)
    ensures (y - 1600) / 400 - (y - 1601) / 400 == if y % 400 == 0 then 1 else 0
  {
    var q := (y - 1601) / 400;
    assert 400 * q <= y - 1601 <= 400 * q + 399;
  }

  lemma CommonMultiples(y: int)
    ensures y % 400 == 0 ==> y % 100 == 0
    ensures y % 100 == 0 ==> y % 4 == 0
  {
  }

  lemma {:induction false} YearsOrdered(y: int, z: int)
    requires y <= z
    ensures DayFromYear(z) >= DayFromYear(y) + 365 * (z - y)
    decreases z - y
  {
    if y < z {
      YearLength(y);
      YearsOrdered(y + 1, z);
    }
  }

  /** A year of 365.2425 days is off by less than two days. */
  lemma YearBound(y: int)
    ensures 146097 * (y - 1970) - 600 <= 400 * DayFromYear(y) <= 146097 * (y - 1970) + 600
  {
    var a, b, c := (y - 1969) / 4, (y - 1901) / 100, (y - 1601) / 400;
    assert 4 * a <= y - 1969 <= 4 * a + 3;
    assert 100 * b <= y - 1901 <= 100 * b + 99;
    assert 400 * c <= y - 1601 <= 400 * c + 399;
  }

  lemma YearGuess(t: int)
    ensures
      var guess := 1970 + t * 400 / 146097;
      DayFromYear(guess - 1) <= t < DayFromYear(guess + 2)
  {
    hide DayFromYear;
    var guess := 1970 + t * 400 / 146097;
    YearBound(guess - 1);
    YearBound(guess + 2);
  }

  /** YearFromTime: the year whose days include day number t. */
  function YearOf(t: int): (y: int)
    ensures DayFromYear(y) <= t < DayFromYear(y + 1)
  {
    var guess := 1970 + t * 400 / 146097;
    YearGuess(t);
    if t < DayFromYear(guess) then guess - 1
    else if DayFromYear(guess + 1) <= t then guess + 1
    else guess
  }

  /** MonthFromTime: the month holding day k (from 0) of year y. */
  function MonthOf(y: int, k: int): (m: int)
    requires 0 <= k < DaysInYear(y)
    ensures 1 <= m <= 12 && DaysBeforeMonth(y, m) <= k < DaysBeforeMonth(y, m) + DaysInMonth(y, m)
  {
    if k < DaysBeforeMonth(y, 2) then 1 else if k < DaysBeforeMonth(y, 3) then 2
    else if k < DaysBeforeMonth(y, 4) then 3 else if k < DaysBeforeMonth(y, 5) then 4
    else if k < DaysBeforeMonth(y, 6) then 5 else if k < DaysBeforeMonth(y, 7) then 6
    else if k < DaysBeforeMonth(y, 8) then 7 else if k < DaysBeforeMonth(y, 9) then 8
    else if k < DaysBeforeMonth(y, 10) then 9 else if k < DaysBeforeMonth(y, 11) then 10
    else if k < DaysBeforeMonth(y, 12) then 11 else 12
  }

  function FromDayNumber(t: int): (d: CivilDate)
    ensures Valid(d) && DayNumber(d) == t
  {
    var y := YearOf(t);
    YearLength(y);
    var k := t - DayFromYear(y);
    var m := MonthOf(y, k);
    CivilDate(y, m, k - DaysBeforeMonth(y, m) + 1)
  }

  /** Within a year the day number grows with (month, day). */
  lemma WithinYear(y: int, m: int, d: int, m': int, d': int)
    requires 1 <= m < m' <= 12 && 1 <= d <= DaysInMonth(y, m) && 1 <= d'
    ensures MakeDay(y, m, d) < MakeDay(y, m', d')
  {
    assert DaysBeforeMonth(y, m + 1) == DaysBeforeMonth(y, m) + DaysInMonth(y, m);
    assert DaysBeforeMonth(y, m + 1) <= DaysBeforeMonth(y, m');
  }

  lemma YearSpan(d: CivilDate)
    requires Valid(d)
    ensures DayFromYear(d.year) <= DayNumber(d) < DayFromYear(d.year + 1)
  {
    YearLength(d.year);
  }

  lemma DayNumberStrictlyMonotone(d: CivilDate, e: CivilDate)
    requires Valid(d) && Valid(e) && Precedes(d, e)
    ensures DayNumber(d) < DayNumber(e)
  {
    if d.year < e.year {
      YearSpan(d);
      YearSpan(e);
      YearsOrdered(d.year + 1, e.year);
    } else if d.month < e.month {
      WithinYear(d.year, d.month, d.day, e.month, e.day);
    }
  }

  /** Day numbers order valid dates exactly as the calendar does. */
  lemma DayNumberOrder(d: CivilDate, e: CivilDate)
    requires Valid(d) && Valid(e)
    ensures DayNumber(d) < DayNumber(e) <==> Precedes(d, e)
    ensures DayNumber(d) == DayNumber(e) <==> d == e
  {
    if Precedes(d, e) {
      DayNumberStrictlyMonotone(d, e);
    } else if d != e {
      DayNumberStrictlyMonotone(e, d);
    }
  }

  /** Day numbers are a bijection between valid dates and the integers. */
  lemma DayNumberBijection(d: CivilDate, t: int)
    requires Valid(d)
    ensures FromDayNumber(DayNumber(d)) == d
    ensures DayNumber(d) == t <==> FromDayNumber(t) == d
  {
    DayNumberOrder(FromDayNumber(DayNumber(d)), d);
    DayNumberOrder(FromDayNumber(t), d);
  }

  // ---- The engine's date arithmetic ----

  /** `Date.UTC` reads a year from 0 to 99 as a year of the twentieth century. */
  function UtcYear(y: int): int {
    if 0 <= y <= 99 then 1900 + y else y
  }

  /** The day number `Date.UTC(d.year, d.month - 1, d.day)` stands for. */
  function AnchorDay(d: CivilDate): int {
    MakeDay(UtcYear(d.year), d.month, d.day)
  }

  /** What addCivilDays computes: n days on from the anchor. */
  function PlusDays(d: CivilDate, n: int): CivilDate {
    FromDayNumber(AnchorDay(d) + n)
  }

  /** Day of the week, 0 = Sunday: day number 0 was a Thursday. */
  function WeekdayOf(d: CivilDate): int {
    (AnchorDay(d) + 4) % 7
  }

  /** The mutable part of a JavaScript `Date` that addCivilDays uses: its day count. */
  class UtcDate {
    var time: int

    /** `new Date(Date.UTC(year, month - 1, day))` */
    constructor Utc(d: CivilDate)
      ensures time == AnchorDay(d)
    {
      time := AnchorDay(d);
    }

    function Fields(): (d: CivilDate)
      reads this
      ensures Valid(d) && DayNumber(d) == time
    {
      FromDayNumber(time)
    }

    /** Replaces the day of the month, running over month and year ends. */
    method SetUTCDate(day: int)
      modifies this
      ensures time == MakeDay(old(Fields()).year, old(Fields()).month, day)
    {
      time := MakeDay(Fields().year, Fields().month, day);
    }
  }

  lemma MakeDayShift(y: int, m: int, day: int, n: int)
    ensures MakeDay(y, m, day + n) == MakeDay(y, m, day) + n
  {
  }

  /** addCivilDays: moves the day of the month by n and reads the date back. */
  method AddCivilDays(d: CivilDate, n: int) returns (r: CivilDate)
    ensures r == PlusDays(d, n)
  {
    var anchor := new UtcDate.Utc(d);
    hide MakeDay, FromDayNumber;
    ghost var fields := anchor.Fields();
    anchor.SetUTCDate(anchor.Fields().day + n);
    MakeDayShift(fields.year, fields.month, fields.day, n);
    r := FromDayNumber(anchor.time);
  }

  // ---- Reference calendar: one day at a time ----

  /** The schoolbook successor of a date. */
  function NextDay(d: CivilDate): CivilDate {
    if d.day < DaysInMonth(d.year, d.month) then CivilDate(d.year, d.month, d.day + 1)
    else if d.month < 12 then CivilDate(d.year, d.month + 1, 1)
    else CivilDate(d.year + 1, 1, 1)
  }

  function DaysLater(d: CivilDate, n: nat): CivilDate {
    if n == 0 then d else NextDay(DaysLater(d, n - 1))
  }

  lemma NextDayStep(d: CivilDate)
    requires Valid(d)
    ensures Valid(NextDay(d)) && DayNumber(NextDay(d)) == DayNumber(d) + 1
  {
    if d.day == DaysInMonth(d.year, d.month) {
      if d.month < 12 {
        assert DaysBeforeMonth(d.year, d.month + 1) == DaysBeforeMonth(d.year, d.month) + DaysInMonth(d.year, d.month);
      } else {
        YearLength(d.year);
      }
    }
  }

  lemma {:induction false} DaysLaterNumber(d: CivilDate, n: nat)
    requires Valid(d)
    ensures Valid(DaysLater(d, n)) && DayNumber(DaysLater(d, n)) == DayNumber(d) + n
  {
    if n > 0 {
      DaysLaterNumber(d, n - 1);
      NextDayStep(DaysLater(d, n - 1));
    }
  }

  /** Adding n days is stepping the calendar n times. */
  lemma PlusDaysStepsTheCalendar(d: CivilDate, n: nat)
    requires Valid(d) && FaceValue(d)
    ensures PlusDays(d, n) == DaysLater(d, n)
  {
    hide FromDayNumber, MakeDay, DaysLater;
    DaysLaterNumber(d, n);
    DayNumberBijection(DaysLater(d, n), DayNumber(d) + n);
  }

  /** Adding keeps dates valid and is strictly monotone in the number of days; zero days change nothing. */
  lemma PlusDaysMonotone(d: CivilDate, a: int, b: int)
    requires Valid(d)
    ensures Valid(PlusDays(d, a))
    ensures Precedes(PlusDays(d, a), PlusDays(d, b)) <==> a < b
    ensures PlusDays(d, a) == PlusDays(d, b) <==> a == b
    ensures FaceValue(d) ==> PlusDays(d, 0) == d
  {
    hide DayFromYear, DaysBeforeMonth, FromDayNumber;
    DayNumberOrder(PlusDays(d, a), PlusDays(d, b));
    DayNumberBijection(d, DayNumber(d));
  }

  /** Subtracting undoes adding exactly when the date reached is taken at face value. */
  lemma SubtractingUndoesAdding(d: CivilDate, a: int)
    requires Valid(d) && FaceValue(d)
    ensures PlusDays(PlusDays(d, a), -a) == d <==> FaceValue(PlusDays(d, a))
  {
    hide MakeDay, FromDayNumber, PlusDays;
    PlusDaysAction(d, a, -a);
    PlusDaysMonotone(d, 0, 0);
    assert a + -a == 0;
  }

  /** How far the remapping of a year moves a date. */
  lemma RemapShift(d: CivilDate)
    requires Valid(d) && !FaceValue(d)
    ensures AnchorDay(d) >= DayNumber(d) + 365 * 1900 - 1
  {
    YearsOrdered(d.year, d.year + 1900);
  }

  /**
   Adding days is an action of the integers on civil dates exactly when the
   date reached in between is taken at face value.
   */
  lemma PlusDaysAction(d: CivilDate, a: int, b: int)
    requires Valid(d)
    ensures PlusDays(PlusDays(d, a), b) == PlusDays(d, a + b) <==> FaceValue(PlusDays(d, a))
  {
    hide DayFromYear, DaysBeforeMonth, FromDayNumber;
    var mid := PlusDays(d, a);
    if FaceValue(mid) {
      assert AnchorDay(mid) == DayNumber(mid);
    } else {
      RemapShift(mid);
      assert DayNumber(PlusDays(mid, b)) != DayNumber(PlusDays(d, a + b));
    }
  }

  /** A concrete date on which the action law fails: the last day of the year 99. */
  lemma PlusDaysActionFails()
    ensures PlusDays(PlusDays(CivilDate(100, 1, 1), -1), 1) != PlusDays(CivilDate(100, 1, 1), 0)
  {
    hide DayFromYear, DaysBeforeMonth, FromDayNumber;
    var d, e := CivilDate(100, 1, 1), CivilDate(99, 12, 31);
    NextDayStep(e);
    assert NextDay(e) == d;
    DayNumberBijection(e, DayNumber(d) - 1);
    PlusDaysAction(d, -1, 1);
  }

  /** A remapped date never keeps its weekday: nineteen centuries are no whole number of weeks. */
  lemma RemapWeekday(d: CivilDate)
    requires Valid(d) && !FaceValue(d)
    ensures 1 <= (AnchorDay(d) - DayNumber(d)) % 7 <= 3
  {
    hide DayFromYear;
    CenturyYears(d.year);
  }

  lemma CenturyYears(y: int)
    requires 0 <= y <= 99
    ensures DayFromYear(y + 1900) - DayFromYear(y) == if y == 0 then 693961 else 693960
  {
    assert (y - 69) / 4 - (y - 1969) / 4 == 475;
    assert (y - 1) / 100 - (y - 1901) / 100 == 19;
    assert (y + 299) / 400 == 0;
    assert (y - 1601) / 400 == if y == 0 then -5 else -4;
  }

  /** The weekday advances with the days added, exactly while the result is taken at face value. */
  lemma WeekdayAdvances(d: CivilDate, n: int)
    requires Valid(d)
    ensures WeekdayOf(PlusDays(d, n)) == (WeekdayOf(d) + n) % 7 <==> FaceValue(PlusDays(d, n))
  {
    hide MakeDay, FromDayNumber;
    var e := PlusDays(d, n);
    if !FaceValue(e) {
      RemapWeekday(e);
    }
    WeekCycle(AnchorDay(d) + 4, n, AnchorDay(e) - DayNumber(e));
  }

  lemma WeekCycle(t: int, n: int, jump: int)
    requires jump == 0 || 1 <= jump % 7 <= 3
    ensures (t + n + jump) % 7 == (t % 7 + n) % 7 <==> jump == 0
  {
  }

  /** Going forward from the year 100 on never meets a remapped year. */
  lemma ForwardStaysModern(d: CivilDate, n: nat)
    requires Modern(d)
    ensures Modern(PlusDays(d, n)) && DayNumber(PlusDays(d, n)) == DayNumber(d) + n
  {
    PlusDaysMonotone(d, 0, n);
  }

  // ---- Holiday keys ----

  /** `padStart(2, '0')` of a month or a day. */
  function Pad(n: int): string {
    if |Decimal(n)| < 2 then "0" + Decimal(n) else Decimal(n)
  }

  function CivilToKey(d: CivilDate): string {
    Decimal(d.year) + "-" + Pad(d.month) + "-" + Pad(d.day)
  }

  lemma PadShape(n: int)
    requires 1 <= n <= 31
    ensures Pad(n) == [Digit(n / 10), Digit(n % 10)]
  {
    if n >= 10 {
      assert Decimal(n / 10) == [Digit(n / 10)];
      assert Decimal(n) == [Digit(n / 10)] + [Digit(n % 10)];
    }
  }

  /** Two valid dates share a key only when they are the same date. */
  lemma CivilToKeyInjective(d: CivilDate, e: CivilDate)
    requires Valid(d) && Valid(e)
    ensures CivilToKey(d) == CivilToKey(e) <==> d == e
  {
    if CivilToKey(d) == CivilToKey(e) {
      PadShape(d.month);
      PadShape(e.month);
      PadShape(d.day);
      PadShape(e.day);
      var s, y := CivilToKey(d), |Decimal(d.year)|;
      assert |s| == y + 6 == |Decimal(e.year)| + 6;
      assert Decimal(d.year) == s[..y] == Decimal(e.year);
      assert Pad(d.month) == s[y + 1..y + 3] == Pad(e.month);
      assert Pad(d.day) == s[y + 4..] == Pad(e.day);
      DecimalInjective(d.year, e.year);
    }
  }
}
