/**
 The procedural deadline calculation: the triggering day is excluded, periods run
 in calendar or business days, a calendar period that ends on a non-business day
 rolls forward, and the due moment is a cut-off time in the case's zone.
 */
module DeadlineEngine {
  import opened Wrappers
  import opened CivilDates
  import opened DayCounting
  import opened BusinessDays
  import opened DateKeys

  datatype Cutoff = Cutoff(hour: int, minute: int, second: int)

  datatype DeadlineResult = DeadlineResult(
    triggerCivilDate: string,
    startCivilDate: string,
    dueCivilDate: string,
    dueAt: int,
    rolledForward: bool
  )

  datatype DeadlineError = PeriodNotPositive

  const DEFAULT_CUTOFF := Cutoff(23, 59, 59)
  const MS_PER_DAY := 86_400_000

  /**
   A time zone: the offset, in milliseconds, to add to each UTC instant to get
   the wall-clock time.
   */
  type Zone = int -> int

  function UtcToZonedCivil(instant: int, zone: Zone): CivilDate {
    FromDayNumber((instant + zone(instant)) / MS_PER_DAY)
  }

  /** Milliseconds into the wall-clock day. */
  function TimeOfDay(instant: int, zone: Zone): int {
    (instant + zone(instant)) % MS_PER_DAY
  }

  function CutoffMs(time: Cutoff): int {
    1000 * (60 * (60 * time.hour + time.minute) + time.second)
  }

  /** `Date.UTC` of the civil date and time, before correcting for the zone. */
  function UtcGuess(d: CivilDate, time: Cutoff): int {
    AnchorDay(d) * MS_PER_DAY + CutoffMs(time)
  }

  function ZonedCivilToUtc(d: CivilDate, time: Cutoff, zone: Zone): int {
    var guess := UtcGuess(d, time);
    guess - zone(guess)
  }

  // ---- What a deadline means ----

  /** The least business day at or after day t. */
  ghost function RollForward(cal: HolidayCalendar, t: int): int
    requires HasWorkday(cal) && t > FIRST_DAY
  {
    NthBusinessDay(cal, t - 1, 1)
  }

  /** The day number a period of n days after trigger day t falls due on. */
  ghost function DueDay(cal: HolidayCalendar, t: int, n: nat, kind: DayKind): int
    requires HasWorkday(cal) && t >= FIRST_DAY && n >= 1
  {
    match kind
    case BUSINESS => NthBusinessDay(cal, t, n)
    case CALENDAR => RollForward(cal, t + n)
  }

  /** The instant a period of n days after the trigger instant falls due. */
  ghost function DueAt(
    triggerDate: int, n: int, kind: DayKind, cal: HolidayCalendar, cutoff: Cutoff, zone: Zone): int
    requires n >= 1 && HasWorkday(cal) && Modern(UtcToZonedCivil(triggerDate, zone))
  {
    var trigger := UtcToZonedCivil(triggerDate, zone);
    ModernDay(trigger);
    ZonedCivilToUtc(FromDayNumber(DueDay(cal, DayNumber(trigger), n, kind)), cutoff, zone)
  }

  // ---- The computation ----

  /** One step of the walk through the calendar, in both loops. */
  method StepDay(cursor: CivilDate, ghost cal: HolidayCalendar) returns (next: CivilDate)
    requires Modern(cursor)
    ensures Modern(next) && DayNumber(next) == DayNumber(cursor) + 1
    ensures OpenDays(cal)(DayNumber(next)) == IsBusinessDay(next, cal)
  {
    hide MakeDay, FromDayNumber, CivilToKey, WeekdayOf;
    next := AddCivilDays(cursor, 1);
    ForwardStaysModern(cursor, 1);
    ModernDay(next);
  }

  method RollToNextBusinessDay(d: CivilDate, cal: HolidayCalendar) returns (date: CivilDate, moved: bool)
    requires Modern(d) && DayNumber(d) > FIRST_DAY && HasWorkday(cal)
    ensures Modern(date) && DayNumber(date) == RollForward(cal, DayNumber(d))
    ensures moved <==> !IsBusinessDay(d, cal)
  {
    hide DayNumber, Modern, IsBusinessDay, FromDayNumber;
    ModernDay(d);
    ghost var open, before := OpenDays(cal), DayNumber(d) - 1;
    assert open(DayNumber(d)) == IsBusinessDay(d, cal);
    hide OpenDays;
    ghost var due := RollForward(cal, DayNumber(d));
    var cursor := d;
    moved := false;
    NthUnique(open, before, 1, before);
    while !IsBusinessDay(cursor, cal)
      invariant Modern(cursor) && before < DayNumber(cursor) <= due
      invariant Count(open, before, DayNumber(cursor) - 1 - before) == 0
      invariant open(DayNumber(cursor)) == IsBusinessDay(cursor, cal)
      invariant moved <==> cursor != d
      invariant moved ==> !IsBusinessDay(d, cal) && before + 1 < DayNumber(cursor)
      decreases due - DayNumber(cursor)
    {
      NthUnique(open, before, 1, DayNumber(cursor));
      cursor := StepDay(cursor, cal);
      moved := true;
    }
    NthUnique(open, before, 1, DayNumber(cursor));
    date := cursor;
  }

  /** The n-th business day after the trigger, by walking the calendar. */
  method CountBusinessDays(trigger: CivilDate, days: int, cal: HolidayCalendar) returns (cursor: CivilDate)
    requires Modern(trigger) && DayNumber(trigger) >= FIRST_DAY && HasWorkday(cal) && days >= 1
    ensures Modern(cursor) && DayNumber(cursor) == NthBusinessDay(cal, DayNumber(trigger), days)
  {
    hide DayNumber, Modern, IsBusinessDay, FromDayNumber, OpenDays;
    ghost var open, t, due := OpenDays(cal), DayNumber(trigger), NthBusinessDay(cal, DayNumber(trigger), days);
    cursor := trigger;
    var counted := 0;
    while counted < days
      invariant Modern(cursor) && t <= DayNumber(cursor) <= due
      invariant counted == Count(open, t, DayNumber(cursor) - t)
      invariant counted >= days ==> DayNumber(cursor) == due
      decreases due - DayNumber(cursor)
    {
      NthUnique(open, t, days, DayNumber(cursor));
      cursor := StepDay(cursor, cal);
      if IsBusinessDay(cursor, cal) {
        counted := counted + 1;
      }
      NthUnique(open, t, days, DayNumber(cursor));
    }
  }

  method ComputeDeadline(
    triggerDate: int, days: int, kind: DayKind, cal: HolidayCalendar, cutoff: Cutoff, zone: Zone)
    returns (r: Result<DeadlineResult, DeadlineError>)
    requires days >= 1 ==> HasWorkday(cal) && Modern(UtcToZonedCivil(triggerDate, zone))
    ensures r.Err? <==> days < 1
    ensures r.Ok? ==> Meets(r.value, triggerDate, days, kind, cal, cutoff, zone)
    ensures r.Ok? ==> DatesRead(r.value, triggerDate, days, kind, cal, zone)
  {
    hide MakeDay, FromDayNumber, CivilToKey, WeekdayOf, ZonedCivilToUtc, UtcToZonedCivil, ReadKey;
    if days < 1 {
      return Err(PeriodNotPositive);
    }
    var triggerCivil := UtcToZonedCivil(triggerDate, zone);
    ModernDay(triggerCivil);
    var startCivil := AddCivilDays(triggerCivil, 1);
    ForwardStaysModern(triggerCivil, 1);

    var dueCivil: CivilDate;
    var rolledForward := false;
    if kind == BUSINESS {
      dueCivil := CountBusinessDays(triggerCivil, days, cal);
    } else {
      var raw := AddCivilDays(triggerCivil, days);
      ForwardStaysModern(triggerCivil, days);
      dueCivil, rolledForward := RollToNextBusinessDay(raw, cal);
      ModernDay(raw);
      RollsOnlyOffClosedDays(cal, DayNumber(raw));
    }
    ModernDay(dueCivil);
    StartIsNextDay(triggerCivil);
    KeyReadsBack(triggerCivil);
    KeyReadsBack(startCivil);
    KeyReadsBack(dueCivil);
    var dueAt := ZonedCivilToUtc(dueCivil, cutoff, zone);
    r := Ok(DeadlineResult(
      CivilToKey(triggerCivil), CivilToKey(startCivil), CivilToKey(dueCivil), dueAt, rolledForward));
  }

  /** The promised result: the trigger day, the day after it, and the due day and moment. */
  ghost predicate Meets(
    r: DeadlineResult, triggerDate: int, days: int, kind: DayKind, cal: HolidayCalendar, cutoff: Cutoff, zone: Zone)
    requires days >= 1 && HasWorkday(cal) && Modern(UtcToZonedCivil(triggerDate, zone))
  {
    var trigger := UtcToZonedCivil(triggerDate, zone);
    ModernDay(trigger);
    var due := DueDay(cal, DayNumber(trigger), days, kind);
    && r.triggerCivilDate == CivilToKey(trigger)
    && r.startCivilDate == CivilToKey(NextDay(trigger))
    && r.dueCivilDate == CivilToKey(FromDayNumber(due))
    && r.dueAt == DueAt(triggerDate, days, kind, cal, cutoff, zone)
    && (r.rolledForward <==> kind == CALENDAR && due != DayNumber(trigger) + days)
  }

  /** The three texts of a result read as the trigger date, the day after it and the due date. */
  ghost predicate DatesRead(
    r: DeadlineResult, triggerDate: int, days: int, kind: DayKind, cal: HolidayCalendar, zone: Zone)
    requires days >= 1 && HasWorkday(cal) && Modern(UtcToZonedCivil(triggerDate, zone))
  {
    var trigger := UtcToZonedCivil(triggerDate, zone);
    ModernDay(trigger);
    && ReadKey(r.triggerCivilDate) == Some(trigger)
    && ReadKey(r.startCivilDate) == Some(NextDay(trigger))
    && ReadKey(r.dueCivilDate) == Some(FromDayNumber(DueDay(cal, DayNumber(trigger), days, kind)))
  }

  lemma StartIsNextDay(d: CivilDate)
    requires Modern(d)
    ensures PlusDays(d, 1) == NextDay(d)
  {
    hide MakeDay, FromDayNumber, PlusDays, NextDay;
    PlusDaysStepsTheCalendar(d, 1);
    assert DaysLater(d, 1) == NextDay(DaysLater(d, 0));
  }

  // ---- Properties of the due day ----

  /** Rolling forward gives the least business day at or after t. */
  lemma RollForwardLeast(cal: HolidayCalendar, t: int, e: int)
    requires HasWorkday(cal) && t > FIRST_DAY && e >= t
    ensures t <= RollForward(cal, t) < t + 7 * (|cal.holidays| + 1)
    ensures OpenDays(cal)(RollForward(cal, t))
    ensures OpenDays(cal)(e) ==> RollForward(cal, t) <= e
  {
    hide OpenDays;
    var open := OpenDays(cal);
    var due := NthBusinessDay(cal, t - 1, 1);
    CountMonotone(open, t - 1, 0, e - t + 1);
    assert t - 1 + (e - t + 1) == e;
    NthUnique(open, t - 1, 1, e);
  }

  lemma RollsOnlyOffClosedDays(cal: HolidayCalendar, t: int)
    requires HasWorkday(cal) && t > FIRST_DAY
    ensures RollForward(cal, t) == t <==> OpenDays(cal)(t)
  {
    hide OpenDays;
    RollForwardLeast(cal, t, t);
  }

  /** The due day is always a business day, at least n and at most 7 * (n + holidays) days after the trigger. */
  lemma DueDayInRange(cal: HolidayCalendar, t: int, n: nat, kind: DayKind)
    requires HasWorkday(cal) && t >= FIRST_DAY && n >= 1
    ensures OpenDays(cal)(DueDay(cal, t, n, kind))
    ensures t + n <= DueDay(cal, t, n, kind) <= t + 7 * (n + |cal.holidays|)
  {
    hide OpenDays;
    if kind == CALENDAR {
      RollForwardLeast(cal, t + n, t + n);
    } else {
      CountBounded(OpenDays(cal), t, NthBusinessDay(cal, t, n) - t);
    }
  }

  /** A business-day period ends on the business day with exactly n business days since the trigger. */
  lemma BusinessDueCounts(cal: HolidayCalendar, t: int, n: nat, e: int)
    requires HasWorkday(cal) && t >= FIRST_DAY && n >= 1 && e > t
    ensures e == DueDay(cal, t, n, BUSINESS) <==> OpenDays(cal)(e) && Count(OpenDays(cal), t, e - t) == n
    ensures e < DueDay(cal, t, n, BUSINESS) <==> Count(OpenDays(cal), t, e - t) < n
  {
    hide OpenDays;
    var due := NthBusinessDay(cal, t, n);
    NthUnique(OpenDays(cal), t, n, e);
  }

  /** The same period never falls due later in calendar days than in business days. */
  lemma CalendarNotAfterBusiness(cal: HolidayCalendar, t: int, n: nat)
    requires HasWorkday(cal) && t >= FIRST_DAY && n >= 1
    ensures DueDay(cal, t, n, CALENDAR) <= DueDay(cal, t, n, BUSINESS)
  {
    hide OpenDays;
    DueDayInRange(cal, t, n, BUSINESS);
    RollForwardLeast(cal, t + n, DueDay(cal, t, n, BUSINESS));
  }

  /** A later trigger, a longer period or more holidays never bring a deadline forward. */
  lemma DueDayMonotone(
    cal: HolidayCalendar, stricter: HolidayCalendar, t: int, t': int, n: nat, n': nat, kind: DayKind)
    requires HasWorkday(cal) && Stricter(stricter, cal) && FIRST_DAY <= t <= t' && 1 <= n <= n'
    ensures HasWorkday(stricter)
    ensures DueDay(cal, t, n, kind) <= DueDay(stricter, t', n', kind)
  {
    hide OpenDays;
    if kind == BUSINESS {
      NthBusinessDayMonotone(cal, stricter, t, t', n, n');
    } else {
      NthBusinessDayMonotone(cal, stricter, t + n - 1, t' + n' - 1, 1, 1);
    }
  }

  // ---- The due moment ----

  /**
   Read back in the zone, the due moment shows the due date and the cut-off time
   exactly when the zone's offset there is the offset at the first guess.
   */
  lemma CutoffFallsOnDate(d: CivilDate, time: Cutoff, zone: Zone)
    requires Modern(d) && 0 <= CutoffMs(time) < MS_PER_DAY
    ensures
      var due := ZonedCivilToUtc(d, time, zone);
      UtcToZonedCivil(due, zone) == d && TimeOfDay(due, zone) == CutoffMs(time)
      <==> zone(due) == zone(UtcGuess(d, time))
  {
    hide MakeDay, FromDayNumber;
    var guess, due := UtcGuess(d, time), ZonedCivilToUtc(d, time, zone);
    var wall := due + zone(due);
    DayNumberBijection(d, wall / MS_PER_DAY);
    DayAndTime(DayNumber(d), CutoffMs(time), wall);
  }

  /** The hours, minutes and seconds of a time of day in milliseconds. */
  predicate ShowsTime(ms: int, time: Cutoff) {
    ms / 3_600_000 == time.hour && ms / 60_000 % 60 == time.minute && ms / 1000 % 60 == time.second && ms % 1000 == 0
  }

  lemma ShowsCutoff(time: Cutoff)
    requires 0 <= time.hour < 24 && 0 <= time.minute < 60 && 0 <= time.second < 60
    ensures 0 <= CutoffMs(time) < MS_PER_DAY && ShowsTime(CutoffMs(time), time)
  {
  }

  /** Where the zone's offset stays, a clock in the zone shows the due date and the cut-off's hour, minute and second. */
  lemma CutoffShowsOnClock(d: CivilDate, time: Cutoff, zone: Zone)
    requires Modern(d) && 0 <= time.hour < 24 && 0 <= time.minute < 60 && 0 <= time.second < 60
    requires zone(ZonedCivilToUtc(d, time, zone)) == zone(UtcGuess(d, time))
    ensures
      var due := ZonedCivilToUtc(d, time, zone);
      UtcToZonedCivil(due, zone) == d && ShowsTime(TimeOfDay(due, zone), time)
  {
    ShowsCutoff(time);
    CutoffFallsOnDate(d, time, zone);
    hide UtcToZonedCivil, TimeOfDay, ZonedCivilToUtc, CutoffMs, ShowsTime;
  }

  /** An instant and the one 24 hours later fall on successive dates, where the zone's offset stays. */
  lemma DaysAre24Hours(instant: int, zone: Zone)
    requires zone(instant + 24 * 60 * 60 * 1000) == zone(instant)
    ensures UtcToZonedCivil(instant + 24 * 60 * 60 * 1000, zone) == NextDay(UtcToZonedCivil(instant, zone))
    ensures TimeOfDay(instant + 24 * 60 * 60 * 1000, zone) == TimeOfDay(instant, zone)
  {
    hide MakeDay, FromDayNumber;
    var d := UtcToZonedCivil(instant, zone);
    NextDayStep(d);
    DayNumberBijection(NextDay(d), DayNumber(d) + 1);
  }

  lemma DayAndTime(day: int, ms: int, wall: int)
    requires 0 <= ms < MS_PER_DAY
    ensures wall / MS_PER_DAY == day && wall % MS_PER_DAY == ms <==> wall == day * MS_PER_DAY + ms
  {
  }

  /**
   The due moment falls on the due date exactly when the change of the zone's offset between the
   first guess and the due moment does not carry the cut-off over midnight.
   */
  lemma DueMomentKeepsDate(d: CivilDate, time: Cutoff, zone: Zone)
    requires Modern(d)
    ensures
      var due := ZonedCivilToUtc(d, time, zone);
      UtcToZonedCivil(due, zone) == d <==> 0 <= CutoffMs(time) + zone(due) - zone(UtcGuess(d, time)) < MS_PER_DAY
  {
    hide MakeDay, FromDayNumber;
    var guess, due := UtcGuess(d, time), ZonedCivilToUtc(d, time, zone);
    var wall := due + zone(due);
    DayNumberBijection(d, wall / MS_PER_DAY);
    WithinDay(DayNumber(d), CutoffMs(time) + zone(due) - zone(guess), wall);
  }

  lemma WithinDay(day: int, ms: int, wall: int)
    requires wall == day * MS_PER_DAY + ms
    ensures wall / MS_PER_DAY == day <==> 0 <= ms < MS_PER_DAY
  {
  }

  /**
   A clock set forward an hour, from four hours behind UTC to three, between guess and due moment:
   the default cut-off of 1 January lands in the first hour of 2 January.
   */
  lemma CutoffMissedAcrossClockChange()
    ensures
      var zone: Zone := i => if i < MS_PER_DAY then -14_400_000 else -10_800_000;
      var due := ZonedCivilToUtc(CivilDate(1970, 1, 1), DEFAULT_CUTOFF, zone);
      && UtcToZonedCivil(due, zone) == CivilDate(1970, 1, 2)
      && TimeOfDay(due, zone) == CutoffMs(Cutoff(0, 59, 59))
  {
    hide FromDayNumber, MakeDay;
    EpochDay();
    SecondDay();
  }

  lemma SecondDay()
    ensures FromDayNumber(1) == CivilDate(1970, 1, 2)
  {
    hide FromDayNumber, MakeDay;
    EpochAnchor();
    DayNumberBijection(CivilDate(1970, 1, 2), 1);
  }

  lemma EpochDay()
    ensures AnchorDay(CivilDate(1970, 1, 1)) == 0
    ensures FromDayNumber(0) == CivilDate(1970, 1, 1)
  {
    hide FromDayNumber, MakeDay;
    EpochAnchor();
    DayNumberBijection(CivilDate(1970, 1, 1), 0);
  }

  lemma EpochAnchor()
    ensures MakeDay(1970, 1, 1) == 0 && MakeDay(1970, 1, 2) == 1
  {
    assert DayFromYear(1970) == 0;
    hide DayFromYear, IsLeap;
    assert DaysBeforeMonth(1970, 1) == 0;
  }
}
