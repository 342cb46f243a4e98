/**
 Reminder schedules: duration tokens such as "P7D" or "P2W", and the slots a
 reminder rule such as "P7D,P2D,P1D" places before a due moment.
 */
module Reminders {
  import opened Wrappers
  import opened Decimals

  const DAY_MS := 24 * 60 * 60 * 1000

  // ---- Duration tokens ----

  /** The characters `trim` removes: ECMAScript white space and line terminators. */
  predicate IsSpace(c: char) {
    c in "\t\n\r " || c in "\U{000b}\U{000c}\U{00a0}\U{1680}\U{2028}\U{2029}\U{202f}\U{205f}\U{3000}\U{feff}"
    || '\U{2000}' <= c <= '\U{200a}'
  }

  function Trim(s: string): string {
    if s != "" && IsSpace(s[0]) then Trim(s[1..])
    else if s != "" && IsSpace(s[|s| - 1]) then Trim(s[..|s| - 1])
    else s
  }

  /** `toUpperCase`, as far as it can produce the letters of a token. */
  function Upper(s: string): string {
    seq(|s|, i requires 0 <= i < |s| => if 'a' <= s[i] <= 'z' then s[i] - 'a' + 'A' else s[i])
  }

  /** Length of the longest run of digits at the start. */
  function DigitRun(s: string): (k: nat)
    ensures k <= |s| && forall i :: 0 <= i < k ==> IsDigit(s[i])
    ensures k < |s| ==> !IsDigit(s[k])
  {
    if s != "" && IsDigit(s[0]) then 1 + DigitRun(s[1..]) else 0
  }

  /** The part of a token after "P": weeks then days, each optional, not both missing. */
  function DurationBody(s: string): Option<nat> {
    var k := DigitRun(s);
    if k == 0 || k == |s| then None
    else if s[k] == 'D' && |s| == k + 1 then Some(NumberOf(s[..k]))
    else if s[k] == 'W' then
      var t := s[k + 1..];
      var j := DigitRun(t);
      if t == "" then Some(7 * NumberOf(s[..k]))
      else if 0 < j && j + 1 == |t| && t[j] == 'D' then Some(7 * NumberOf(s[..k]) + NumberOf(t[..j]))
      else None
    else None
  }

  function DurationTokenToDays(token: string): Option<nat> {
    var s := Upper(Trim(token));
    if s != "" && s[0] == 'P' then DurationBody(s[1..]) else None
  }

  /** The grammar of tokens: P<w>W, P<d>D or P<w>W<d>D, worth 7 days a week. */
  ghost predicate Denotes(s: string, days: nat) {
    || (exists w :: Digits(w) && s == "P" + w + "W" && days == 7 * NumberOf(w))
    || (exists d :: Digits(d) && s == "P" + d + "D" && days == NumberOf(d))
    || (exists w, d :: Digits(w) && Digits(d) && s == "P" + w + "W" + d + "D" && days == 7 * NumberOf(w) + NumberOf(d))
  }

  lemma {:induction false} DigitRunStops(d: string, rest: string)
    requires forall i :: 0 <= i < |d| ==> IsDigit(d[i])
    requires rest != "" && !IsDigit(rest[0])
    ensures DigitRun(d + rest) == |d|
  {
    if d == "" {
      assert d + rest == rest;
    } else {
      assert (d + rest)[1..] == d[1..] + rest;
      DigitRunStops(d[1..], rest);
    }
  }

  /** The parser accepts exactly the tokens of the grammar, with their value. */
  lemma DurationParsesGrammar(token: string, days: nat)
    ensures DurationTokenToDays(token) == Some(days) <==> Denotes(Upper(Trim(token)), days)
  {
    hide Trim, Upper, DigitRun, NumberOf, DurationBody;
    var s := Upper(Trim(token));
    if DurationTokenToDays(token) == Some(days) {
      BodyDenotes(s, days);
    }
    if w :| Digits(w) && s == "P" + w + "W" && days == 7 * NumberOf(w) {
      WeeksBody(s, w);
    }
    if d :| Digits(d) && s == "P" + d + "D" && days == NumberOf(d) {
      DaysBody(s, d);
    }
    if w, d :| Digits(w) && Digits(d) && s == "P" + w + "W" + d + "D" && days == 7 * NumberOf(w) + NumberOf(d) {
      WeeksAndDaysBody(s, w, d);
    }
  }

  lemma BodyDenotes(s: string, days: nat)
    requires s != "" && s[0] == 'P' && DurationBody(s[1..]) == Some(days)
    ensures Denotes(s, days)
  {
    hide DigitRun, NumberOf, Denotes, IsDigit;
    var body := s[1..];
    var k := DigitRun(body);
    var head := body[..k];
    assert Digits(head);
    if body[k] == 'D' {
      assert s == "P" + head + "D";
      DenotesDays(head);
    } else if body[k + 1..] == "" {
      assert s == "P" + head + "W";
      DenotesWeeks(head);
    } else {
      var t := body[k + 1..];
      var tail := t[..DigitRun(t)];
      assert t == tail + "D" && body == head + "W" + t;
      assert s == "P" + head + "W" + tail + "D";
      DenotesBoth(head, tail);
    }
  }

  lemma DenotesDays(d: string)
    requires Digits(d)
    ensures Denotes("P" + d + "D", NumberOf(d))
  {
  }

  lemma DenotesWeeks(w: string)
    requires Digits(w)
    ensures Denotes("P" + w + "W", 7 * NumberOf(w))
  {
  }

  lemma DenotesBoth(w: string, d: string)
    requires Digits(w) && Digits(d)
    ensures Denotes("P" + w + "W" + d + "D", 7 * NumberOf(w) + NumberOf(d))
  {
  }

  lemma WeeksBody(s: string, w: string)
    requires Digits(w) && s == "P" + w + "W"
    ensures DurationBody(s[1..]) == Some(7 * NumberOf(w))
  {
    assert s[1..] == w + "W";
    DigitRunStops(w, "W");
    assert s[1..][..|w|] == w;
  }

  lemma DaysBody(s: string, d: string)
    requires Digits(d) && s == "P" + d + "D"
    ensures DurationBody(s[1..]) == Some(NumberOf(d))
  {
    assert s[1..] == d + "D";
    DigitRunStops(d, "D");
    assert s[1..][..|d|] == d;
  }

  lemma WeeksAndDaysBody(s: string, w: string, d: string)
    requires Digits(w) && Digits(d) && s == "P" + w + "W" + d + "D"
    ensures DurationBody(s[1..]) == Some(7 * NumberOf(w) + NumberOf(d))
  {
    hide DigitRun, NumberOf;
    var body, tail := s[1..], d + "D";
    assert body == w + ("W" + tail);
    DigitRunStops(w, "W" + tail);
    DigitRunStops(d, "D");
    assert body[..|w|] == w && body[|w|] == 'W' && body[|w| + 1..] == tail;
    assert tail[..|d|] == d && tail[|d|] == 'D';
  }

  /** Rendering a period as a token and parsing it gives the period back. */
  lemma DurationRoundTrip(weeks: nat, days: nat)
    ensures DurationTokenToDays("P" + Decimal(weeks) + "W" + Decimal(days) + "D") == Some(7 * weeks + days)
    ensures DurationTokenToDays("P" + Decimal(days) + "D") == Some(days)
  {
    hide Trim, Upper, NumberOf, DurationTokenToDays, Decimal;
    DecimalRoundTrip(weeks);
    DecimalRoundTrip(days);
    var long, short := "P" + Decimal(weeks) + "W" + Decimal(days) + "D", "P" + Decimal(days) + "D";
    PlainToken(long);
    PlainToken(short);
    assert Denotes(long, 7 * weeks + days);
    assert Denotes(short, days);
    DurationParsesGrammar(long, 7 * weeks + days);
    DurationParsesGrammar(short, days);
  }

  lemma PlainToken(s: string)
    requires s != "" && s[0] == 'P' && s[|s| - 1] == 'D'
    requires forall i :: 0 <= i < |s| ==> s[i] == 'P' || s[i] == 'W' || s[i] == 'D' || IsDigit(s[i])
    ensures Upper(Trim(s)) == s
  {
    LettersAreNotSpace();
    hide IsSpace;
    TrimKeeps(s);
    UpperKeeps(s);
  }

  lemma LettersAreNotSpace()
    ensures !IsSpace('P') && !IsSpace('D')
  {
  }

  lemma TrimKeeps(s: string)
    requires s != "" && !IsSpace(s[0]) && !IsSpace(s[|s| - 1])
    ensures Trim(s) == s
  {
    hide IsSpace;
  }

  lemma UpperKeeps(s: string)
    requires forall i :: 0 <= i < |s| ==> !('a' <= s[i] <= 'z')
    ensures Upper(s) == s
  {
  }

  // ---- Schedules ----

  datatype Slot = Slot(offsetToken: string, scheduledFor: int)

  /** `split(',')`: the pieces between commas, one more than there are commas. */
  function Split(s: string): (pieces: seq<string>)
    ensures |pieces| >= 1
  {
    if s == "" then [""]
    else if s[0] == ',' then [""] + Split(s[1..])
    else
      var rest := Split(s[1..]);
      [[s[0]] + rest[0]] + rest[1..]
  }

  /** The pieces of a rule; a missing or empty rule has none. */
  function Pieces(rule: Option<string>): seq<string> {
    if rule.None? || rule.value == "" then [] else Split(rule.value)
  }

  /** The slot one piece of a rule places, if it is a token. */
  function SlotOf(dueAt: int, piece: string): Option<Slot> {
    var token := Trim(piece);
    if token == "" then None
    else match DurationTokenToDays(token)
      case None => None
      case Some(days) => Some(Slot(token, dueAt - days * DAY_MS))
  }

  /** The slots still ahead of `from`, in the order of the rule. */
  function SlotsAhead(dueAt: int, pieces: seq<string>, from: int): seq<Slot> {
    if pieces == [] then []
    else
      var ahead := SlotsAhead(dueAt, pieces[..|pieces| - 1], from);
      match SlotOf(dueAt, pieces[|pieces| - 1])
      case None => ahead
      case Some(slot) => if slot.scheduledFor <= from then ahead else ahead + [slot]
  }

  predicate Ascending(slots: seq<Slot>) {
    forall i, j :: 0 <= i < j < |slots| ==> slots[i].scheduledFor <= slots[j].scheduledFor
  }

  /** Puts a slot behind every slot that is not later, as a stable sort does. */
  function Insert(slot: Slot, slots: seq<Slot>): seq<Slot> {
    if slots == [] || slot.scheduledFor < slots[0].scheduledFor then [slot] + slots
    else [slots[0]] + Insert(slot, slots[1..])
  }

  function SortByTime(slots: seq<Slot>): seq<Slot> {
    if slots == [] then []
    else Insert(slots[|slots| - 1], SortByTime(slots[..|slots| - 1]))
  }

  lemma {:induction false} InsertMembers(slot: Slot, slots: seq<Slot>)
    ensures multiset(Insert(slot, slots)) == multiset(slots) + multiset{slot}
  {
    if !(slots == [] || slot.scheduledFor < slots[0].scheduledFor) {
      InsertMembers(slot, slots[1..]);
      assert slots == [slots[0]] + slots[1..];
    }
  }

  lemma {:induction false} InsertKeepsOrder(slot: Slot, slots: seq<Slot>)
    requires Ascending(slots)
    ensures Ascending(Insert(slot, slots))
  {
    if !(slots == [] || slot.scheduledFor < slots[0].scheduledFor) {
      var rest := Insert(slot, slots[1..]);
      InsertKeepsOrder(slot, slots[1..]);
      InsertMembers(slot, slots[1..]);
      forall s | s in rest ensures slots[0].scheduledFor <= s.scheduledFor {
        assert s in multiset(rest);
      }
    }
  }

  lemma {:induction false} SortSorts(slots: seq<Slot>)
    ensures multiset(SortByTime(slots)) == multiset(slots)
    ensures Ascending(SortByTime(slots))
  {
    if slots != [] {
      var init, last := slots[..|slots| - 1], slots[|slots| - 1];
      assert slots == init + [last];
      SortSorts(init);
      InsertMembers(last, SortByTime(init));
      InsertKeepsOrder(last, SortByTime(init));
    }
  }

  /** The slots of one time, in order. */
  function AtTime(slots: seq<Slot>, time: int): seq<Slot> {
    if slots == [] then []
    else (if slots[0].scheduledFor == time then [slots[0]] else []) + AtTime(slots[1..], time)
  }

  lemma {:induction false} AtTimeAppend(a: seq<Slot>, b: seq<Slot>, time: int)
    ensures AtTime(a + b, time) == AtTime(a, time) + AtTime(b, time)
  {
    if a == [] {
      assert a + b == b;
    } else {
      assert (a + b)[1..] == a[1..] + b;
      AtTimeAppend(a[1..], b, time);
    }
  }

  lemma {:induction false} NoneAtTime(slots: seq<Slot>, time: int)
    requires forall i :: 0 <= i < |slots| ==> slots[i].scheduledFor > time
    ensures AtTime(slots, time) == []
  {
    if slots != [] {
      NoneAtTime(slots[1..], time);
    }
  }

  lemma {:induction false} InsertStable(slot: Slot, slots: seq<Slot>, time: int)
    requires Ascending(slots)
    ensures AtTime(Insert(slot, slots), time) == AtTime(slots, time) + if slot.scheduledFor == time then [slot] else []
  {
    if slots == [] || slot.scheduledFor < slots[0].scheduledFor {
      if slot.scheduledFor == time {
        NoneAtTime(slots, time);
      }
      assert ([slot] + slots)[1..] == slots;
    } else {
      InsertStable(slot, slots[1..], time);
      assert ([slots[0]] + Insert(slot, slots[1..]))[1..] == Insert(slot, slots[1..]);
    }
  }

  /** Sorting is stable: slots of one time keep the order of the rule. */
  lemma {:induction false} SortIsStable(slots: seq<Slot>, time: int)
    ensures AtTime(SortByTime(slots), time) == AtTime(slots, time)
  {
    if slots != [] {
      var init, last := slots[..|slots| - 1], slots[|slots| - 1];
      assert slots == init + [last];
      SortIsStable(init, time);
      SortSorts(init);
      InsertStable(last, SortByTime(init), time);
      AtTimeAppend(init, [last], time);
      assert [last][1..] == [];
    }
  }

  function Schedule(dueAt: int, rule: Option<string>, from: int): seq<Slot> {
    SortByTime(SlotsAhead(dueAt, Pieces(rule), from))
  }

  method ComputeReminderSchedule(dueAt: int, rule: Option<string>, from: int) returns (slots: seq<Slot>)
    ensures slots == Schedule(dueAt, rule, from)
  {
    hide Trim, DurationTokenToDays, Split, SortByTime, Insert;
    slots := [];
    var pieces := Pieces(rule);
    for i := 0 to |pieces|
      invariant slots == SlotsAhead(dueAt, pieces[..i], from)
    {
      assert pieces[..i + 1][..i] == pieces[..i];
      var token := Trim(pieces[i]);
      if token == "" { continue; }
      var days := DurationTokenToDays(token);
      if days.None? { continue; }
      var scheduledFor := dueAt - days.value * DAY_MS;
      if scheduledFor <= from { continue; }
      slots := slots + [Slot(token, scheduledFor)];
    }
    assert pieces[..|pieces|] == pieces;
    slots := SortByTime(slots);
  }

  /** The reminders a rule plans for a due moment, whether already past or not. */
  ghost predicate Planned(slot: Slot, dueAt: int, rule: Option<string>) {
    exists i :: 0 <= i < |Pieces(rule)| && SlotOf(dueAt, Pieces(rule)[i]) == Some(slot)
  }

  lemma {:induction false} SlotsAheadMembers(dueAt: int, pieces: seq<string>, from: int, slot: Slot)
    ensures slot in SlotsAhead(dueAt, pieces, from)
       <==> slot.scheduledFor > from && exists i :: 0 <= i < |pieces| && SlotOf(dueAt, pieces[i]) == Some(slot)
  {
    if pieces != [] {
      var init := pieces[..|pieces| - 1];
      SlotsAheadMembers(dueAt, init, from, slot);
      if i :| 0 <= i < |pieces| && SlotOf(dueAt, pieces[i]) == Some(slot) && i < |pieces| - 1 {
        assert init[i] == pieces[i];
      }
    }
  }

  /** A schedule holds, in ascending order, exactly the planned reminders that are still ahead. */
  lemma ScheduleMembers(dueAt: int, rule: Option<string>, from: int, slot: Slot)
    ensures Ascending(Schedule(dueAt, rule, from))
    ensures slot in Schedule(dueAt, rule, from) <==> slot.scheduledFor > from && Planned(slot, dueAt, rule)
  {
    SlotsAheadMembers(dueAt, Pieces(rule), from, slot);
    var ahead := SlotsAhead(dueAt, Pieces(rule), from);
    SortSorts(ahead);
    assert slot in Schedule(dueAt, rule, from) <==> slot in multiset(ahead);
  }

  // ---- Rules as they are written ----

  /** Pieces joined with commas. */
  function Join(pieces: seq<string>): string
    requires pieces != []
  {
    if |pieces| == 1 then pieces[0] else pieces[0] + "," + Join(pieces[1..])
  }

  lemma {:induction false} SplitFirst(piece: string, rest: string)
    requires forall i :: 0 <= i < |piece| ==> piece[i] != ','
    ensures Split(piece + "," + rest) == [piece] + Split(rest)
    ensures Split(piece) == [piece]
  {
    var s := piece + "," + rest;
    if piece == "" {
      assert s == "," + rest && s[1..] == rest;
    } else {
      assert s[1..] == piece[1..] + "," + rest;
      SplitFirst(piece[1..], rest);
      assert piece == [piece[0]] + piece[1..];
    }
  }

  /** Splitting undoes joining. */
  lemma {:induction false} SplitJoin(pieces: seq<string>)
    requires pieces != [] && forall k, i :: 0 <= k < |pieces| && 0 <= i < |pieces[k]| ==> pieces[k][i] != ','
    ensures Split(Join(pieces)) == pieces
  {
    if |pieces| == 1 {
      SplitFirst(pieces[0], "");
    } else {
      SplitJoin(pieces[1..]);
      SplitFirst(pieces[0], Join(pieces[1..]));
    }
  }

  predicate Spaces(s: string) {
    forall i :: 0 <= i < |s| ==> IsSpace(s[i])
  }

  lemma {:induction false} TrimSpaced(a: string, s: string, b: string)
    requires Spaces(a) && Spaces(b) && s != "" && !IsSpace(s[0]) && !IsSpace(s[|s| - 1])
    ensures Trim(a + s + b) == s
    decreases |a| + |b|
  {
    hide IsSpace;
    var t := a + s + b;
    if a != "" {
      assert t[1..] == a[1..] + s + b;
      TrimSpaced(a[1..], s, b);
    } else if b != "" {
      var n := |b| - 1;
      assert t[0] == s[0] && t[|t| - 1] == b[n];
      assert t[..|t| - 1] == a + s + b[..n];
      TrimSpaced(a, s, b[..n]);
    } else {
      assert t == s;
    }
  }

  function DayToken(days: nat): string {
    "P" + Decimal(days) + "D"
  }

  /** The piece is the token for that many days, perhaps with white space around it. */
  ghost predicate Writes(piece: string, days: nat) {
    exists a, b :: Spaces(a) && Spaces(b) && piece == a + DayToken(days) + b
  }

  lemma TokenShape(days: nat)
    ensures var token := DayToken(days);
      && token != "" && !IsSpace(token[0]) && !IsSpace(token[|token| - 1])
      && (forall i :: 0 <= i < |token| ==> token[i] != ',')
      && DurationTokenToDays(token) == Some(days)
  {
    DecimalRoundTrip(days);
    LettersAreNotSpace();
    DurationRoundTrip(0, days);
    hide IsSpace, Decimal, DurationTokenToDays, NumberOf;
  }

  lemma PieceReads(dueAt: int, piece: string, days: nat)
    requires Writes(piece, days)
    ensures SlotOf(dueAt, piece) == Some(Slot(DayToken(days), dueAt - days * DAY_MS))
    ensures forall i :: 0 <= i < |piece| ==> piece[i] != ','
  {
    hide IsSpace, Trim, DurationTokenToDays, DayToken;
    var a, b :| Spaces(a) && Spaces(b) && piece == a + DayToken(days) + b;
    var token := DayToken(days);
    TokenShape(days);
    TrimSpaced(a, token, b);
    NoCommaInSpaces(a);
    NoCommaInSpaces(b);
    NoCommas(a, token, b);
  }

  lemma NoCommaInSpaces(s: string)
    requires Spaces(s)
    ensures forall i :: 0 <= i < |s| ==> s[i] != ','
  {
    assert !IsSpace(',');
    hide IsSpace;
  }

  lemma NoCommas(a: string, s: string, b: string)
    requires forall i :: 0 <= i < |a| ==> a[i] != ','
    requires forall i :: 0 <= i < |s| ==> s[i] != ','
    requires forall i :: 0 <= i < |b| ==> b[i] != ','
    ensures forall i :: 0 <= i < |a + s + b| ==> (a + s + b)[i] != ','
  {
  }

  /** A rule of day tokens schedules, ascending, one slot so many days of 24 hours before the due moment for each that is still ahead. */
  lemma RuleSchedules(dueAt: int, pieces: seq<string>, days: seq<nat>, from: int, slot: Slot)
    requires pieces != [] && |days| == |pieces| && forall i :: 0 <= i < |pieces| ==> Writes(pieces[i], days[i])
    ensures Ascending(Schedule(dueAt, Some(Join(pieces)), from))
    ensures slot in Schedule(dueAt, Some(Join(pieces)), from)
       <==> slot.scheduledFor > from
            && exists i :: 0 <= i < |days| && slot == Slot(DayToken(days[i]), dueAt - days[i] * 24 * 60 * 60 * 1000)
  {
    hide Writes, Join, Split, SlotOf, Schedule, DayToken;
    forall i | 0 <= i < |pieces|
      ensures SlotOf(dueAt, pieces[i]) == Some(Slot(DayToken(days[i]), dueAt - days[i] * 24 * 60 * 60 * 1000))
      ensures forall k :: 0 <= k < |pieces[i]| ==> pieces[i][k] != ','
    {
      PieceReads(dueAt, pieces[i], days[i]);
      assert days[i] * DAY_MS == days[i] * 24 * 60 * 60 * 1000;
    }
    SplitJoin(pieces);
    JoinNotEmpty(pieces, days);
    ScheduleMembers(dueAt, Some(Join(pieces)), from, slot);
    assert Pieces(Some(Join(pieces))) == pieces;
  }

  lemma JoinNotEmpty(pieces: seq<string>, days: seq<nat>)
    requires pieces != [] && |days| == |pieces| && Writes(pieces[0], days[0])
    ensures Join(pieces) != ""
  {
  }

  /** Tokens may be written in small letters. */
  lemma SmallLettersRead(days: nat)
    ensures DurationTokenToDays("p" + Decimal(days) + "d") == Some(days)
  {
    var s := "p" + Decimal(days) + "d";
    DecimalRoundTrip(days);
    SmallLettersAreNotSpace();
    hide IsSpace, Decimal, NumberOf, DurationTokenToDays, Trim;
    TrimKeeps(s);
    assert Upper(s) == "P" + Decimal(days) + "D";
    assert Denotes(Upper(Trim(s)), days);
    DurationParsesGrammar(s, days);
  }

  lemma SmallLettersAreNotSpace()
    ensures !IsSpace('p') && !IsSpace('d')
  {
  }
}
