/** What a recurring event means, said of its fields and its rule alone: which dates the
    rule selects, which instant a date has, and where COUNT and UNTIL end the series. The
    enumeration of slots is proved to mean exactly that. */
module SeriesMeaning {
  import opened Basics
  import opened CivilCalendar
  import opened Zones
  import opened Rules
  import opened Arithmetic
  import opened Schedules
  import opened SlotOrder
  import opened Series
  import opened WeekPattern
  import opened RuleShift
  import opened Engine

  // ------------------------------------------------------------ the dates of a rule

  /** Days since the first of the month. */
  function DayOfMonth(date: nat): nat {
    date - MonthStart(MonthOf(date))
  }

  /** The first day of the week that a date is in, if weeks begin on the given weekday. */
  function WeekBegin(date: int, weekStart: nat): int
    requires weekStart < 7
  {
    date - Around(Weekday(date) + 7 - weekStart)
  }

  /** Some months later, on the same day of the month. */
  predicate SameDayLater(start: nat, date: nat, months: nat)
    requires 1 <= months
  {
    DayOfMonth(date) == DayOfMonth(start) && Rem(MonthOf(date) - MonthOf(start), months) == 0
  }

  /** The rule selects the date, counted from the date of the start. */
  predicate RuleDay(r: Rule, start: nat, date: nat)
    requires 1 <= r.interval && r.weekStart < 7
  {
    && start <= date
    && match r.frequency
       case Daily => Rem(date - start, r.interval) == 0
       case Weekly =>
         && Weekday(date) in (if r.byDay.Some? then r.byDay.value else [Weekday(start)])
         && Rem(WeekBegin(date, r.weekStart) - WeekBegin(start, r.weekStart), 7 * r.interval) == 0
       case Monthly => SameDayLater(start, date, r.interval)
       case Yearly => SameDayLater(start, date, 12 * r.interval)
  }

  // ------------------------------------------------------------ monthly and yearly slots

  predicate ByMonth(s: Schedule) {
    SlotsOk(s) && (s.rule.frequency.Monthly? || s.rule.frequency.Yearly?)
  }

  lemma MonthSlotIsDay(s: Schedule, slot: nat)
    requires ByMonth(s) && Slot(s, slot).date.Some?
    ensures 0 <= Slot(s, slot).date.value && s.startDate <= Slot(s, slot).date.value
    ensures SameDayLater(s.startDate, Slot(s, slot).date.value, MonthsPerSlot(s))
  {
    var date := Slot(s, slot).date.value;
    SlotDatesFromStart(s, slot);
    MonthOfUnique(date, SlotMonth(s, slot));
    RemUnique(MonthOf(date) - MonthOf(s.startDate), slot, 0, MonthsPerSlot(s));
  }

  lemma DayHasMonthSlot(s: Schedule, date: nat) returns (slot: nat)
    requires ByMonth(s) && s.startDate <= date && SameDayLater(s.startDate, date, MonthsPerSlot(s))
    ensures Slot(s, slot).date == Some(date)
  {
    var months := MonthOf(date) - MonthOf(s.startDate);
    MonthOfMonotone(s.startDate, date);
    var q := Quot(months, MonthsPerSlot(s));
    if q < 0 {
      MulOrder(q, -1, MonthsPerSlot(s));
    }
    slot := q;
    assert SlotMonth(s, slot) == MonthOf(date);
  }

  /** The dates of MONTHLY and YEARLY slots: the start's own day of the month, every so
      many months; a month without that day has none. */
  lemma MonthSlotsIff(s: Schedule, date: nat)
    requires ByMonth(s)
    ensures (exists slot: nat :: Slot(s, slot).date == Some(date)) <==>
      s.startDate <= date && SameDayLater(s.startDate, date, MonthsPerSlot(s))
  {
    if slot: nat :| Slot(s, slot).date == Some(date) {
      MonthSlotIsDay(s, slot);
    }
    if s.startDate <= date && SameDayLater(s.startDate, date, MonthsPerSlot(s)) {
      var slot := DayHasMonthSlot(s, date);
    }
  }

  // ------------------------------------------------------------ daily and weekly slots

  lemma DailySlotsIff(s: Schedule, date: nat)
    requires SlotsOk(s) && s.rule.frequency.Daily?
    ensures (exists slot: nat :: Slot(s, slot).date == Some(date)) <==> s.startDate <= date && Rem(date - s.startDate, s.rule.interval) == 0
  {
    if slot: nat :| Slot(s, slot).date == Some(date) {
      RemUnique(date - s.startDate, slot, 0, s.rule.interval);
      SlotDatesFromStart(s, slot);
    }
    if s.startDate <= date && Rem(date - s.startDate, s.rule.interval) == 0 {
      var q := Quot(date - s.startDate, s.rule.interval);
      if q < 0 {
        MulOrder(q, -1, s.rule.interval);
      }
      var slot: nat := q;
      assert Slot(s, slot).date == Some(date);
    }
  }

  lemma WeekdayAfter(anchor: int, weeks: int, offset: nat, weekStart: nat)
    requires weekStart < 7 && offset < 7 && Weekday(anchor) == weekStart
    ensures Weekday(anchor + 7 * weeks + offset) == Around(offset + weekStart)
    ensures WeekBegin(anchor + 7 * weeks + offset, weekStart) == anchor + 7 * weeks
  {
  }

  lemma BeginsOnWeekStart(date: int, weekStart: nat)
    requires weekStart < 7
    ensures Weekday(WeekBegin(date, weekStart)) == weekStart && 0 <= date - WeekBegin(date, weekStart) < 7
  {
  }

  lemma OffsetsAre(s: Schedule, offset: nat)
    requires Built(s)
    ensures offset in s.weekDays <==> offset < 7 && Around(offset + s.rule.weekStart) in DaysOf(s.rule, s.startDate)
  {
  }

  /** A date that is `rest` days into its span of weeks. */
  lemma WeekParts(anchor: int, date: int, weekStart: nat, interval: nat)
    requires weekStart < 7 && 1 <= interval && Weekday(anchor) == weekStart
    ensures var rest := Rem(date - anchor, 7 * interval);
      rest < 7 <==> Rem(WeekBegin(date, weekStart) - anchor, 7 * interval) == 0
    ensures var rest := Rem(date - anchor, 7 * interval);
      rest < 7 ==> Weekday(date) == Around(rest + weekStart)
  {
    var span := 7 * interval;
    var q, rest := Quot(date - anchor, span), Rem(date - anchor, span);
    var weeks := q * interval;
    assert q * span == 7 * weeks;
    if rest < 7 {
      WeekdayAfter(anchor, weeks, rest, weekStart);
      RemUnique(WeekBegin(date, weekStart) - anchor, q, 0, span);
    }
    BeginsOnWeekStart(date, weekStart);
    if Rem(WeekBegin(date, weekStart) - anchor, span) == 0 {
      var p := Quot(WeekBegin(date, weekStart) - anchor, span);
      RemUnique(date - anchor, p, date - WeekBegin(date, weekStart), span);
    }
  }

  lemma PatternIsRuleDay(s: Schedule, date: nat)
    requires WeeklyOk(s) && Built(s) && WeekShape(WeekOf(s))
    ensures OnPattern(WeekOf(s), date) <==> RuleDay(s.rule, s.startDate, date)
  {
    var anchor := WeekBegin(s.startDate, s.rule.weekStart);
    assert s.weekAnchor == anchor;
    BeginsOnWeekStart(s.startDate, s.rule.weekStart);
    WeekParts(anchor, date, s.rule.weekStart, s.rule.interval);
    OffsetsAre(s, Rem(date - anchor, 7 * s.rule.interval));
  }

  /** The dates of a schedule's slots are exactly those that its rule selects. */
  lemma SlotDatesIff(s: Schedule, date: nat)
    requires SlotsOk(s) && Built(s)
    ensures (exists slot: nat :: Slot(s, slot).date == Some(date)) <==> RuleDay(s.rule, s.startDate, date)
  {
    match s.rule.frequency {
      case Daily => DailySlotsIff(s, date);
      case Weekly =>
        WeekOfShape(s);
        PatternIsRuleDay(s, date);
        if slot: nat :| Slot(s, slot).date == Some(date) {
          SlotOnPattern(s, slot);
        }
        if OnPattern(WeekOf(s), date) {
          var slot := PatternHasSlot(s, date);
        }
      case Monthly => MonthSlotsIff(s, date);
      case Yearly => MonthSlotsIff(s, date);
    }
  }

  // ------------------------------------------------------------ the instant of a date

  function StartDay(f: Fields): int {
    DateOfTime(LocalTime(f, Boundary(f.start)))
  }

  /** The wall clock of the start, on another date. */
  function WallClock(f: Fields, date: int): int {
    LocalTime(f, Boundary(f.start)) + Midnight(date) - Midnight(StartDay(f))
  }

  /** The least instant that shows a wall clock. */
  ghost predicate FirstShowing(zone: Zone, local: int, time: int) {
    zone.ToLocal(time) == local && forall u :: zone.ToLocal(u) == local ==> time <= u
  }

  /** The instant of the event on a date: its own start, midnight for an all-day event, and
      otherwise the earliest instant that shows its wall clock. */
  ghost predicate InstantOf(f: Fields, date: int, time: int) {
    if date == StartDay(f) then time == Boundary(f.start)
    else if f.allDay then time == Midnight(date)
    else FirstShowing(f.zone, WallClock(f, date), time) && InRange(DateOfTime(time))
  }

  lemma EarliestIsFirst(zone: Zone, date: int, timeOfDay: int, time: int)
    requires ZoneOk(zone)
    ensures FirstShowing(zone, Midnight(date) + timeOfDay, time) <==>
      zone.resolve(Midnight(date) + timeOfDay).Earliest() == Some(time)
  {
    var r := zone.resolve(Midnight(date) + timeOfDay);
    assert zone.Showing(date, timeOfDay) == r.Instants();
    assert forall t :: t in r.Instants() <==> zone.ToLocal(t) == Midnight(date) + timeOfDay;
    if r.Earliest().Some? {
      assert r.Earliest().value in r.Instants();
    }
    if FirstShowing(zone, Midnight(date) + timeOfDay, time) {
      assert time in r.Instants();
    }
  }

  lemma NewStart(f: Fields, r: Rule, s: Schedule)
    requires RuleOk(r) && New(f, r) == Ok(s)
    ensures s.start == Boundary(f.start) && s.startDate == StartDay(f) && s.allDay == f.allDay && s.zone == f.zone && s.rule == r
    ensures s.timeOfDay == LocalTime(f, Boundary(f.start)) - Midnight(StartDay(f)) && SlotsOk(s) && Built(s)
  {
    WeekData(r, s.startDate);
  }

  lemma AtDateIff(f: Fields, r: Rule, s: Schedule, date: int, time: int)
    requires RuleOk(r) && ZoneOk(f.zone) && New(f, r) == Ok(s)
    ensures AtDate(s, date) == Ok(Some(time)) <==> InRange(date) && InstantOf(f, date, time)
  {
    NewStart(f, r, s);
    AtDateIs(f, s, date, time);
  }

  lemma AtDateIs(f: Fields, s: Schedule, date: int, time: int)
    requires s.start == Boundary(f.start) && s.startDate == StartDay(f) && s.allDay == f.allDay && s.zone == f.zone && ZoneOk(f.zone)
    requires s.timeOfDay == LocalTime(f, Boundary(f.start)) - Midnight(StartDay(f))
    ensures AtDate(s, date) == Ok(Some(time)) <==> InRange(date) && InstantOf(f, date, time)
  {
    assert Midnight(date) + s.timeOfDay == WallClock(f, date);
    EarliestIsFirst(f.zone, date, s.timeOfDay, time);
  }

  // ------------------------------------------------------------ the positions of an event

  /** UNTIL is inclusive: by date, or by instant. */
  predicate NotPast(until: Option<Until>, date: int, time: int) {
    match until
    case None => true
    case Some(UntilDate(last)) => date <= last
    case Some(UntilInstant(seconds)) => time <= Seconds(seconds)
  }

  /** The event repeats at the instant, on a date that its rule selects, COUNT aside. */
  ghost predicate RepeatsOn(f: Fields, r: Rule, date: nat, time: int)
    requires 1 <= r.interval && r.weekStart < 7 && 0 <= StartDay(f)
  {
    InRange(date) && RuleDay(r, StartDay(f), date) && InstantOf(f, date, time) && NotPast(r.until, date, time)
  }

  ghost predicate RepeatsAt(f: Fields, r: Rule, time: int)
    requires 1 <= r.interval && r.weekStart < 7 && 0 <= StartDay(f)
  {
    exists date: nat :: RepeatsOn(f, r, date, time)
  }

  predicate Increasing(times: seq<int>) {
    forall i, j :: 0 <= i < j < |times| ==> times[i] < times[j]
  }

  /** All earlier repetitions, in order. */
  ghost predicate AllEarlier(f: Fields, r: Rule, time: int, earlier: seq<int>)
    requires 1 <= r.interval && r.weekStart < 7 && 0 <= StartDay(f)
  {
    Increasing(earlier) && forall u :: u in earlier <==> RepeatsAt(f, r, u) && u < time
  }

  /** The event occurs at the instant: it repeats there, and COUNT is not yet used up. */
  ghost predicate Occurs(f: Fields, r: Rule, time: int)
    requires 1 <= r.interval && r.weekStart < 7 && 0 <= StartDay(f)
  {
    && RepeatsAt(f, r, time)
    && (r.count.Some? ==> exists earlier :: AllEarlier(f, r, time, earlier) && |earlier| < r.count.value)
  }

  lemma PositionRepeats(f: Fields, r: Rule, s: Schedule, slot: nat)
    requires RuleOk(r) && ZoneOk(f.zone) && New(f, r) == Ok(s) && SlotsOk(s) && Position(s, slot).Some?
    ensures 0 <= StartDay(f) && RepeatsAt(f, r, Position(s, slot).value)
  {
    var date, time := Slot(s, slot).date.value, Position(s, slot).value;
    NewBuilds(f, r);
    assert AtDate(s, date) == Ok(Some(time)) && WithinUntil(s, time, date);
    AtDateIff(f, r, s, date, time);
    SlotDatesIff(s, date);
    assert RepeatsOn(f, r, date, time);
  }

  lemma RepetitionHasSlot(f: Fields, r: Rule, s: Schedule, time: int) returns (slot: nat)
    requires RuleOk(r) && ZoneOk(f.zone) && New(f, r) == Ok(s) && SlotsOk(s) && 0 <= StartDay(f) && RepeatsAt(f, r, time)
    ensures Position(s, slot) == Some(time)
  {
    var date: nat :| RepeatsOn(f, r, date, time);
    NewBuilds(f, r);
    SlotDatesIff(s, date);
    slot :| Slot(s, slot).date == Some(date);
    AtDateIff(f, r, s, date, time);
    assert WithinUntil(s, time, date);
  }

  /** The instants of the positions in the first slots. */
  function TimesTo(s: Schedule, slot: nat): seq<int>
    requires SlotsOk(s)
  {
    if slot == 0 then []
    else TimesTo(s, slot - 1) + if Position(s, slot - 1).Some? then [Position(s, slot - 1).value] else []
  }

  lemma {:induction false} TimesToCount(s: Schedule, slot: nat)
    requires SlotsOk(s)
    ensures |TimesTo(s, slot)| == Ordinal(s, slot)
  {
    if slot > 0 {
      TimesToCount(s, slot - 1);
    }
  }

  lemma {:induction false} TimesToHas(s: Schedule, slot: nat, k: nat)
    requires SlotsOk(s) && k < slot && Position(s, k).Some?
    ensures Position(s, k).value in TimesTo(s, slot)
  {
    if k < slot - 1 {
      TimesToHas(s, slot - 1, k);
    }
  }

  lemma {:induction false} TimesToFrom(s: Schedule, slot: nat, time: int) returns (k: nat)
    requires SlotsOk(s) && time in TimesTo(s, slot)
    ensures k < slot && Position(s, k) == Some(time)
  {
    if time in TimesTo(s, slot - 1) {
      k := TimesToFrom(s, slot - 1, time);
    } else {
      k := slot - 1;
    }
  }

  lemma {:induction false} TimesToIncrease(s: Schedule, slot: nat)
    requires Valid(s)
    ensures Increasing(TimesTo(s, slot))
  {
    if slot > 0 {
      TimesToIncrease(s, slot - 1);
      if Position(s, slot - 1).Some? {
        var before := TimesTo(s, slot - 1);
        forall u | u in before ensures u < Position(s, slot - 1).value {
          var k := TimesToFrom(s, slot - 1, u);
          PositionOrder(s, k, slot - 1);
        }
        IncreasingSnoc(before, Position(s, slot - 1).value);
      }
    }
  }

  lemma IncreasingSnoc(times: seq<int>, last: int)
    requires Increasing(times) && forall u :: u in times ==> u < last
    ensures Increasing(times + [last])
  {
    forall i | 0 <= i < |times| ensures times[i] < last {
      assert times[i] in times;
    }
  }

  /** The positions in the slots before one are all earlier repetitions. */
  lemma TimesToAreEarlier(f: Fields, r: Rule, s: Schedule, slot: nat)
    requires RuleOk(r) && ZoneOk(f.zone) && New(f, r) == Ok(s) && Valid(s) && Position(s, slot).Some?
    ensures 0 <= StartDay(f) && AllEarlier(f, r, Position(s, slot).value, TimesTo(s, slot))
  {
    var time := Position(s, slot).value;
    TimesToIncrease(s, slot);
    PositionRepeats(f, r, s, slot);
    forall u ensures u in TimesTo(s, slot) <==> RepeatsAt(f, r, u) && u < time {
      if u in TimesTo(s, slot) {
        var k := TimesToFrom(s, slot, u);
        PositionRepeats(f, r, s, k);
        PositionOrder(s, k, slot);
      }
      if RepeatsAt(f, r, u) && u < time {
        EarlierIsListed(f, r, s, slot, u);
      }
    }
  }

  lemma EarlierIsListed(f: Fields, r: Rule, s: Schedule, slot: nat, time: int)
    requires RuleOk(r) && ZoneOk(f.zone) && New(f, r) == Ok(s) && Valid(s) && Position(s, slot).Some?
    requires 0 <= StartDay(f) && RepeatsAt(f, r, time) && time < Position(s, slot).value
    ensures time in TimesTo(s, slot)
  {
    var k := RepetitionHasSlot(f, r, s, time);
    if slot < k {
      PositionOrder(s, slot, k);
    }
    TimesToHas(s, slot, k);
  }

  lemma InitMembers(times: seq<int>, u: int)
    requires Increasing(times) && times != []
    ensures u in times[..|times| - 1] <==> u in times && u < times[|times| - 1]
  {
    var n := |times| - 1;
    assert times == times[..n] + [times[n]];
    if u in times[..n] {
      var i :| 0 <= i < n && times[..n][i] == u;
    }
  }

  lemma SameLast(a: seq<int>, b: seq<int>)
    requires Increasing(a) && a != [] && forall u :: u in a ==> u in b
    ensures b != [] && (Increasing(b) ==> a[|a| - 1] <= b[|b| - 1])
  {
    assert a[|a| - 1] in a;
  }

  /** Increasing lists with the same members have the same length. */
  lemma {:induction false} SameIncreasing(a: seq<int>, b: seq<int>)
    requires Increasing(a) && Increasing(b) && forall u :: u in a <==> u in b
    ensures |a| == |b|
    decreases |a|
  {
    if b != [] {
      SameLast(b, a);
    }
    if a != [] {
      SameLast(a, b);
      var p, q := a[..|a| - 1], b[..|b| - 1];
      forall u ensures u in p <==> u in q {
        InitMembers(a, u);
        InitMembers(b, u);
      }
      SameIncreasing(p, q);
    }
  }

  /** The series of an event is exactly what the event means: its positions are the
      instants at which it occurs. */
  lemma PositionsIff(f: Fields, r: Rule, s: Schedule, time: int)
    requires RuleOk(r) && ZoneOk(f.zone) && New(f, r) == Ok(s)
    ensures Valid(s) && 0 <= StartDay(f) && (IsPosition(s, time) <==> Occurs(f, r, time))
  {
    NewIsValid(f, r);
    NewBuilds(f, r);
    if slot: nat :| InSeries(s, slot) && Position(s, slot) == Some(time) {
      PositionRepeats(f, r, s, slot);
      TimesToAreEarlier(f, r, s, slot);
      TimesToCount(s, slot);
    }
    if Occurs(f, r, time) {
      var slot := RepetitionHasSlot(f, r, s, time);
      TimesToAreEarlier(f, r, s, slot);
      TimesToCount(s, slot);
      if r.count.Some? {
        var earlier :| AllEarlier(f, r, time, earlier) && |earlier| < r.count.value;
        SameIncreasing(earlier, TimesTo(s, slot));
      }
      assert InSeries(s, slot);
    }
  }

  /** An event is accepted with a rule exactly when its fields are valid and in the supported
      years, and its own start is a repetition; a timestamp cannot end an all-day series. */
  lemma AcceptedIff(f: Fields, r: Rule)
    requires RuleOk(r)
    ensures New(f, r).Ok? <==>
      && FieldsOk(f) && StampInRange(f.start) && StampInRange(f.end) && InRange(StartDay(f))
      && RuleDay(r, StartDay(f), StartDay(f)) && NotPast(r.until, StartDay(f), Boundary(f.start))
      && !(f.allDay && r.until.Some? && r.until.value.UntilInstant?)
  {
    RemUnique(0, 0, 0, r.interval);
    RemUnique(0, 0, 0, 7 * r.interval);
    RemUnique(0, 0, 0, 12 * r.interval);
  }

  // ------------------------------------------------------------ windows

  /** The slots that a window lists are the occurrences of the event that reach into it. */
  lemma MatchesMean(f: Fields, r: Rule, s: Schedule, lower: int, upper: int, time: int)
    requires RuleOk(r) && ZoneOk(f.zone) && New(f, r) == Ok(s)
    ensures SlotsOk(s) && 0 <= StartDay(f)
    ensures (exists slot: nat :: slot in AllMatches(s, lower, upper) && Position(s, slot) == Some(time)) <==>
      Occurs(f, r, time) && time < upper && lower < time + (Boundary(f.end) - Boundary(f.start))
  {
    PositionsIff(f, r, s, time);
    AllMatchesComplete(s, lower, upper);
    assert s.duration == Boundary(f.end) - Boundary(f.start);
  }

  /** An occurrence is the event itself at another time: as long, and otherwise the same. */
  ghost predicate SameBut(f: Fields, time: int, g: Fields) {
    && g.title == f.title && g.description == f.description && g.location == f.location
    && g.allDay == f.allDay && g.zone == f.zone
    && StampFits(f.allDay, g.start) && Boundary(g.start) == time
    && StampFits(f.allDay, g.end) && Boundary(g.end) - time == Boundary(f.end) - Boundary(f.start)
  }

  lemma FieldsMean(f: Fields, r: Rule, s: Schedule, slot: nat, g: Fields)
    requires RuleOk(r) && ZoneOk(f.zone) && New(f, r) == Ok(s) && Valid(s) && Position(s, slot).Some?
    ensures FieldsAt(s, f, Position(s, slot).value) == Ok(g) <==>
      SameBut(f, Position(s, slot).value, g) && InRange(DateOfTime(Boundary(g.end)))
  {
    var time := Position(s, slot).value;
    NewStart(f, r, s);
    PositionFacts(s, slot);
    AtDateNear(s, Slot(s, slot).date.value);
    if f.allDay {
      WholeDaysApart(time, Slot(s, slot).date.value, f.end.date, f.start.date);
    }
  }

  lemma WholeDaysApart(time: int, date: int, end: int, start: int)
    requires time == Midnight(date)
    ensures Midnight(DateOfTime(time)) == time
    ensures Midnight(DateOfTime(time + (Midnight(end) - Midnight(start)))) == time + (Midnight(end) - Midnight(start))
  {
  }

  /** What an expansion lists: every occurrence that it returns is one that the event means,
      overlaps the window, and has the event's own fields and length. */
  lemma ExpansionMeans(event: Event, lower: int, upper: int, limit: nat, e: Expansion, i: nat)
    requires EventOk(event) && FromEvent(event).Ok? && i < |e.occurrences|
    requires ExactExpansion(ScheduleOf(event), event.fields, lower, upper, limit, e)
    ensures var f, g := event.fields, e.occurrences[i];
      var time := Boundary(g.originalStart);
      && 0 <= StartDay(f) && Occurs(f, event.rule.value, time) && SameBut(f, time, g.fields) && g.originalStart == g.fields.start
      && time < upper && lower < Boundary(g.fields.end)
  {
    var s, f, g := ScheduleOf(event), event.fields, e.occurrences[i];
    var m := AllMatches(s, lower, upper);
    var slot := First(limit, m)[i];
    assert GeneratedAt(s, f, slot, g) && slot == m[i] && slot in m;
    FieldsMean(f, event.rule.value, s, slot, g.fields);
    PositionsIff(f, event.rule.value, s, Position(s, slot).value);
    AllMatchesComplete(s, lower, upper);
  }

  /** Every occurrence in the window is listed, unless the list is cut off at its limit. */
  lemma ExpansionIsComplete(event: Event, lower: int, upper: int, limit: nat, e: Expansion, time: int)
    requires EventOk(event) && FromEvent(event).Ok? && ExactExpansion(ScheduleOf(event), event.fields, lower, upper, limit, e)
    requires 0 <= StartDay(event.fields) && Occurs(event.fields, event.rule.value, time) && !e.hasMore
    requires time < upper && lower < time + (Boundary(event.fields.end) - Boundary(event.fields.start))
    ensures exists i :: 0 <= i < |e.occurrences| && Boundary(e.occurrences[i].originalStart) == time
  {
    var s, f := ScheduleOf(event), event.fields;
    var m := AllMatches(s, lower, upper);
    MatchesMean(f, event.rule.value, s, lower, upper, time);
    var slot: nat :| slot in m && Position(s, slot) == Some(time);
    var i :| 0 <= i < |m| && m[i] == slot;
    assert First(limit, m) == m;
    assert GeneratedAt(s, f, slot, e.occurrences[i]);
    FieldsMean(f, event.rule.value, s, slot, e.occurrences[i].fields);
  }
}
