/**
 The business days of a holiday calendar, and why the n-th one always exists when
 some weekday is outside the weekend.
 */
module BusinessDays {
  import opened CivilDates
  import opened DayCounting

  /** Weekend day numbers (0 = Sunday) and holiday dates as 'YYYY-MM-DD' keys. */
  datatype HolidayCalendar = HolidayCalendar(weekend: seq<int>, holidays: seq<string>)

  const DEFAULT_WEEKEND := [0, 6]

  /** The first day number of the year 100. */
  const FIRST_DAY := DayFromYear(100)

  function Weekend(cal: HolidayCalendar): seq<int> {
    if |cal.weekend| > 0 then cal.weekend else DEFAULT_WEEKEND
  }

  predicate IsBusinessDay(d: CivilDate, cal: HolidayCalendar) {
    WeekdayOf(d) !in Weekend(cal) && CivilToKey(d) !in cal.holidays
  }

  /** Some weekday lies outside the weekend; without one the engine's loops never end. */
  predicate HasWorkday(cal: HolidayCalendar) {
    exists w :: 0 <= w < 7 && w !in Weekend(cal)
  }

  /** The business days of a calendar, by day number. */
  function OpenDays(cal: HolidayCalendar): Days {
    (t: int) => IsBusinessDay(FromDayNumber(t), cal)
  }

  lemma OpenDay(cal: HolidayCalendar, t: int)
    requires t >= FIRST_DAY
    ensures Modern(FromDayNumber(t))
    ensures OpenDays(cal)(t) == IsBusinessDay(FromDayNumber(t), cal)
    ensures OpenDays(cal)(t) <==> (t + 4) % 7 !in Weekend(cal) && CivilToKey(FromDayNumber(t)) !in cal.holidays
  {
    hide FromDayNumber, CivilToKey, DaysBeforeMonth;
    var d := FromDayNumber(t);
    YearAtLeast100(d);
  }

  lemma YearAtLeast100(d: CivilDate)
    requires Valid(d)
    ensures d.year >= 100 <==> DayNumber(d) >= FIRST_DAY
  {
    hide DaysBeforeMonth;
    YearSpan(d);
    if d.year < 100 {
      YearsOrdered(d.year + 1, 100);
    } else {
      YearsOrdered(100, d.year);
    }
  }

  lemma ModernDay(d: CivilDate)
    requires Modern(d)
    ensures DayNumber(d) >= FIRST_DAY
    ensures FromDayNumber(DayNumber(d)) == d
  {
    YearAtLeast100(d);
    DayNumberBijection(d, DayNumber(d));
  }

  /** Without holidays every week has a business day. */
  lemma WeekHasWorkday(cal: HolidayCalendar, start: int)
    requires HasWorkday(cal) && cal.holidays == [] && start >= FIRST_DAY
    ensures WeekOpen(OpenDays(cal), start)
  {
    var w :| 0 <= w < 7 && w !in Weekend(cal);
    var i := (w - start - 5) % 7 + 1;
    hide FromDayNumber, CivilToKey;
    OpenDay(cal, start + i);
    WeekdayWithin(start, w);
  }

  lemma WeekdayWithin(start: int, w: int)
    requires 0 <= w < 7
    ensures (start + ((w - start - 5) % 7 + 1) + 4) % 7 == w
  {
  }

  /** One more holiday closes at most one day, because a key names at most one date. */
  lemma HolidayClosesOneDay(cal: HolidayCalendar, t: int) returns (lost: int)
    requires cal.holidays != [] && t >= FIRST_DAY
    ensures
      var less := cal.(holidays := cal.holidays[1..]);
      forall e :: t < e && e != lost && OpenDays(less)(e) ==> OpenDays(cal)(e)
  {
    hide FromDayNumber, CivilToKey, MakeDay;
    var key := cal.holidays[0];
    lost := if e :| t < e && CivilToKey(FromDayNumber(e)) == key then e else t;
    var less := cal.(holidays := cal.holidays[1..]);
    forall e | t < e && e != lost && OpenDays(less)(e)
      ensures OpenDays(cal)(e)
    {
      OpenDay(less, e);
      OpenDay(cal, e);
      if CivilToKey(FromDayNumber(e)) == key {
        CivilToKeyInjective(FromDayNumber(e), FromDayNumber(lost));
        assert false;
      }
    }
  }

  /** 7 * m days hold at least m business days less the number of holidays. */
  lemma {:induction false} WeeksSuffice(cal: HolidayCalendar, t: int, m: nat)
    requires HasWorkday(cal) && t >= FIRST_DAY
    ensures Count(OpenDays(cal), t, 7 * m) >= m - |cal.holidays|
    decreases |cal.holidays|
  {
    if cal.holidays == [] {
      forall start | start >= t
        ensures WeekOpen(OpenDays(cal), start)
      {
        WeekHasWorkday(cal, start);
      }
      WeeklyCount(OpenDays(cal), t, m);
    } else {
      var less := cal.(holidays := cal.holidays[1..]);
      SameWeekend(cal, less);
      WeeksSuffice(less, t, m);
      var lost := HolidayClosesOneDay(cal, t);
      CountLosesOne(OpenDays(less), OpenDays(cal), lost, t, 7 * m);
    }
  }

  lemma SameWeekend(cal: HolidayCalendar, other: HolidayCalendar)
    requires cal.weekend == other.weekend && HasWorkday(cal)
    ensures HasWorkday(other)
  {
    var w :| 0 <= w < 7 && w !in Weekend(cal);
    assert w !in Weekend(other);
  }

  lemma NthExists(cal: HolidayCalendar, t: int, n: nat)
    requires HasWorkday(cal) && t >= FIRST_DAY && n >= 1
    ensures Reaches(OpenDays(cal), t, n)
    ensures Nth(OpenDays(cal), t, n) <= t + 7 * (n + |cal.holidays|)
  {
    hide OpenDays;
    var horizon := 7 * (n + |cal.holidays|);
    WeeksSuffice(cal, t, n + |cal.holidays|);
    assert Count(OpenDays(cal), t, horizon) >= n;
    NthUnique(OpenDays(cal), t, n, t + horizon);
  }

  /** The day number of the n-th business day after day t, and how far it can be. */
  ghost function NthBusinessDay(cal: HolidayCalendar, t: int, n: nat): (due: int)
    requires HasWorkday(cal) && t >= FIRST_DAY && n >= 1
    ensures Reaches(OpenDays(cal), t, n)
    ensures due == Nth(OpenDays(cal), t, n) <= t + 7 * (n + |cal.holidays|)
  {
    NthExists(cal, t, n);
    Nth(OpenDays(cal), t, n)
  }

  /** There is a business day after t exactly when some weekday is outside the weekend. */
  lemma BusinessDaysExist(cal: HolidayCalendar, t: int)
    requires t >= FIRST_DAY
    ensures HasWorkday(cal) <==> exists e :: e > t && OpenDays(cal)(e)
  {
    if HasWorkday(cal) {
      assert OpenDays(cal)(NthBusinessDay(cal, t, 1));
    } else {
      forall e | e > t ensures !OpenDays(cal)(e) {
        OpenDay(cal, e);
        assert 0 <= (e + 4) % 7 < 7;
      }
    }
  }

  /** More holidays, the same weekend: every business day of the stricter calendar is one of the other's. */
  ghost predicate Stricter(stricter: HolidayCalendar, cal: HolidayCalendar) {
    stricter.weekend == cal.weekend && forall key :: key in cal.holidays ==> key in stricter.holidays
  }

  lemma StricterCloses(cal: HolidayCalendar, stricter: HolidayCalendar, t: int)
    requires Stricter(stricter, cal) && t >= FIRST_DAY
    ensures forall e :: t < e && OpenDays(stricter)(e) ==> OpenDays(cal)(e)
  {
    forall e | t < e && OpenDays(stricter)(e) ensures OpenDays(cal)(e) {
      OpenDay(cal, e);
      OpenDay(stricter, e);
    }
  }

  /** A later trigger, a longer period or more holidays never bring the n-th business day forward. */
  lemma NthBusinessDayMonotone(cal: HolidayCalendar, stricter: HolidayCalendar, t: int, t': int, n: nat, n': nat)
    requires HasWorkday(cal) && Stricter(stricter, cal) && FIRST_DAY <= t <= t' && 1 <= n <= n'
    ensures HasWorkday(stricter)
    ensures NthBusinessDay(cal, t, n) <= NthBusinessDay(stricter, t', n')
  {
    SameWeekend(cal, stricter);
    var due, due' := NthBusinessDay(cal, t, n), NthBusinessDay(cal, t', n');
    NthMonotone(OpenDays(cal), t, t', n, n');
    StricterCloses(cal, stricter, t');
    var later := NthBusinessDay(stricter, t', n');
    NthMonotoneInDays(OpenDays(cal), OpenDays(stricter), t', n');
  }

  /** A period of a + b business days is one of a followed by one of b. */
  lemma NthBusinessDayAdds(cal: HolidayCalendar, t: int, a: nat, b: nat)
    requires HasWorkday(cal) && t >= FIRST_DAY && a >= 1 && b >= 1
    ensures NthBusinessDay(cal, NthBusinessDay(cal, t, a), b) == NthBusinessDay(cal, t, a + b)
  {
    var mid, end := NthBusinessDay(cal, t, a), NthBusinessDay(cal, t, a + b);
    var last := NthBusinessDay(cal, mid, b);
    NthAdds(OpenDays(cal), t, a, b);
  }
}
