/** Rewriting a rule when its event is moved, and normalizing a rule for comparison. */
module RuleShift {
  import opened Basics
  import opened CivilCalendar
  import opened Text
  import opened Zones
  import opened Rules
  import opened Schedules
  import opened SlotOrder
  import opened Series
  import opened WeekPattern

  // ------------------------------------------------------------ the rewritings

  function LocalStart(fields: Fields): int {
    LocalTime(fields, Boundary(fields.start))
  }

  /** Whole seconds of an instant, as an UNTIL timestamp is written. */
  function WholeSeconds(time: int): int {
    time / 1_000_000_000
  }

  /** The cutoff of a moved rule: a date moves by days, a timestamp by wall clock. */
  function ShiftUntil(before: Fields, desired: Fields, until: Until): Result<Until> {
    match until
    case UntilDate(date) =>
      Ok(UntilDate(date + DateOfTime(LocalStart(desired)) - DateOfTime(LocalStart(before))))
    case UntilInstant(seconds) =>
      var local := LocalTime(before, Seconds(seconds)) + LocalStart(desired) - LocalStart(before);
      if desired.allDay then Ok(UntilInstant(WholeSeconds(Midnight(DateOfTime(local)))))
      else
        match desired.zone.resolve(local).Earliest()
        case None => Err
        case Some(time) => Ok(UntilInstant(WholeSeconds(time)))
  }

  /** The rule of an event moved from `before` to `desired`. */
  function ShiftRule(before: Fields, desired: Fields, rule: Rule): Result<Rule>
    requires RuleOk(rule)
  {
    if New(before, rule).Err? then Err
    else
      var days := DateOfTime(LocalStart(desired)) - DateOfTime(LocalStart(before));
      var byDay := if rule.byDay.Some? then Some(MovedDays(rule.byDay.value, days)) else None;
      match rule.until
      case None => Ok(rule.(byDay := byDay))
      case Some(until) =>
        var moved :- ShiftUntil(before, desired, until);
        if UntilOk(moved) then Ok(rule.(byDay := byDay, until := Some(moved))) else Err
  }

  /** The form of a rule that comparison uses: the default weekday made explicit, and
      the first day of the week dropped where every week is selected. */
  function SemanticRule(fields: Fields, rule: Rule): Rule
    requires RuleOk(rule)
  {
    if !rule.frequency.Weekly? then rule
    else
      rule.(byDay := Some(DaysOf(rule, DateOfTime(LocalStart(fields)))),
            weekStart := if rule.interval == 1 then 0 else rule.weekStart)
  }

  // ------------------------------------------------------------ equal and moved series

  /** The slots of `t` are those of `s`, `shift` days later. */
  ghost predicate SlotsMoved(s: Schedule, t: Schedule, shift: int)
    requires SlotsOk(s) && SlotsOk(t)
  {
    forall slot: nat :: Slot(s, slot).date.Some? && Slot(t, slot).date == Some(Slot(s, slot).date.value + shift)
  }

  lemma DailyMoves(s: Schedule, t: Schedule, shift: int)
    requires SlotsOk(s) && SlotsOk(t) && s.rule.frequency.Daily? && t.rule.frequency.Daily?
    requires t.rule.interval == s.rule.interval && t.startDate == s.startDate + shift
    ensures SlotsMoved(s, t, shift)
  {
  }

  /** The drift of a moved start within its week. */
  function Drift(s: Schedule, t: Schedule): int {
    (t.startDate - t.weekAnchor) - (s.startDate - s.weekAnchor)
  }

  /** The same, of a start that is moved by some days. */
  function DriftBy(s: Schedule, shift: int): int
    requires s.rule.weekStart < 7
  {
    StartOffset(s.rule, s.startDate + shift) - StartOffset(s.rule, s.startDate)
  }

  /** The week data of a schedule, as `New` computes it from the rule. */
  predicate Built(s: Schedule) {
    && s.rule.weekStart < 7
    && s.startDate - s.weekAnchor == StartOffset(s.rule, s.startDate)
    && s.weekDays == WeekOffsets(DaysOf(s.rule, s.startDate), s.rule.weekStart)
  }

  lemma NewBuilds(f: Fields, r: Rule)
    requires RuleOk(r) && New(f, r).Ok?
    ensures var s := New(f, r).value;
      && Built(s) && s.rule == r && s.startDate == DateOfTime(LocalStart(f))
      && s.allDay == f.allDay && s.zone == f.zone
  {
  }

  /** Moved weekdays yield the drifted week. */
  lemma BuiltDrifts(s: Schedule, t: Schedule, shift: int)
    requires Built(s) && Built(t) && s.rule.interval == t.rule.interval && t.startDate == s.startDate + shift
    requires Turned(DaysOf(s.rule, s.startDate), DaysOf(t.rule, t.startDate), Weekday(shift))
    ensures Drifted(WeekOf(s), WeekOf(t), shift, Drift(s, t))
  {
    DriftIsSmall(s, t);
    EveryDayDrifts(DaysOf(s.rule, s.startDate), DaysOf(t.rule, t.startDate), s.startDate, shift,
                   s.rule.weekStart, t.rule.weekStart, Drift(s, t));
  }

  lemma EveryDayDrifts(days: seq<nat>, moved: seq<nat>, start: int, shift: int, a: nat, b: nat, drift: int)
    requires a < 7 && b < 7 && -6 <= drift <= 6
    requires drift == Around(Weekday(start + shift) + 7 - b) - Around(Weekday(start) + 7 - a)
    requires Turned(days, moved, Weekday(shift))
    ensures DriftedDays(WeekOffsets(days, a), WeekOffsets(moved, b), drift)
  {
    forall o | 0 <= o < 7 ensures o in WeekOffsets(moved, b) <==> Around(o - drift) in WeekOffsets(days, a) {
      DaysDrift(days, moved, start, shift, a, b, o);
    }
  }

  lemma DriftIsSmall(s: Schedule, t: Schedule)
    requires Built(s) && Built(t)
    ensures -6 <= Drift(s, t) <= 6
    ensures Drift(s, t) == Around(Weekday(t.startDate) + 7 - t.rule.weekStart) - Around(Weekday(s.startDate) + 7 - s.rule.weekStart)
  {
  }

  lemma SelectionMoves(rule: Rule, start: int, shift: int, moved: Rule, day: nat)
    requires RuleOk(rule) && day < 7
    requires moved.byDay == (if rule.byDay.Some? then Some(MovedDays(rule.byDay.value, shift)) else None)
    ensures Around(day + Weekday(shift)) in DaysOf(moved, start + shift) <==> day in DaysOf(rule, start)
  {
    if rule.byDay.Some? {
      var days := rule.byDay.value;
      assert forall i :: 0 <= i < |days| ==> days[i] in days;
      MovedDaysExact(days, shift, day);
    } else {
      WeekdaySum(start, shift);
    }
  }

  lemma MovedDaysOk(days: seq<nat>, shift: int)
    requires days != [] && WeekdayList(days)
    ensures MovedDays(days, shift) != [] && WeekdayList(MovedDays(days, shift))
  {
    assert days[0] in days;
    assert forall i :: 0 <= i < |days| ==> days[i] in days;
    MovedDaysExact(days, shift, days[0]);
  }

  lemma ShiftRuleOk(before: Fields, desired: Fields, rule: Rule)
    requires RuleOk(rule) && ShiftRule(before, desired, rule).Ok?
    ensures RuleOk(ShiftRule(before, desired, rule).value)
  {
    if rule.byDay.Some? {
      MovedDaysOk(rule.byDay.value, DateOfTime(LocalStart(desired)) - DateOfTime(LocalStart(before)));
    }
  }

  // ------------------------------------------------------------ shift_rule

  /** An event before and after it is moved, each accepted with its rule. */
  ghost predicate ShiftedEvent(f: Fields, r: Rule, g: Fields) {
    && RuleOk(r) && ZoneOk(f.zone) && ZoneOk(g.zone)
    && New(f, r).Ok? && ShiftRule(f, g, r).Ok?
    && RuleOk(ShiftRule(f, g, r).value) && New(g, ShiftRule(f, g, r).value).Ok?
  }

  /** `t` has the rule of `s` with its weekdays turned, from a start `shift` days later. */
  ghost predicate RuleMoved(s: Schedule, t: Schedule, shift: int) {
    && SlotsOk(s) && SlotsOk(t) && Built(s) && Built(t)
    && t.startDate == s.startDate + shift
    && t.rule.frequency == s.rule.frequency && t.rule.interval == s.rule.interval && t.rule.count == s.rule.count
    && t.rule.weekStart == s.rule.weekStart
    && t.rule.byDay == (if s.rule.byDay.Some? then Some(MovedDays(s.rule.byDay.value, shift)) else None)
  }

  /** The same of all-day schedules, with the cutoff moved too. */
  ghost predicate Shifted(s: Schedule, t: Schedule, shift: int) {
    && Valid(s) && Valid(t) && s.allDay && t.allDay && RuleMoved(s, t, shift)
    && (match s.rule.until
        case None => t.rule.until.None?
        case Some(UntilDate(date)) => t.rule.until == Some(UntilDate(date + shift))
        case Some(UntilInstant(_)) => false)
  }

  /** Moving an event, timed or all-day, and rewriting its rule turns the weekdays; of an
      all-day event it moves the cutoff as well. */
  lemma ShiftRuleShifts(f: Fields, r: Rule, g: Fields)
    requires ShiftedEvent(f, r, g)
    ensures var s, t := New(f, r).value, New(g, ShiftRule(f, g, r).value).value;
      && RuleMoved(s, t, t.startDate - s.startDate)
      && (f.allDay && g.allDay ==> Shifted(s, t, t.startDate - s.startDate))
  {
    var q := ShiftRule(f, g, r).value;
    NewIsValid(f, r);
    NewIsValid(g, q);
    NewBuilds(f, r);
    NewBuilds(g, q);
    assert BoundsFit(f, r, Boundary(f.start), New(f, r).value.startDate);
  }

  lemma ShownAt(zone: Zone, local: int)
    requires ZoneOk(zone) && zone.resolve(local).Earliest().Some?
    ensures zone.ToLocal(zone.resolve(local).Earliest().value) == local
  {
    var date := DateOfTime(local);
    assert Midnight(date) + (local - Midnight(date)) == local;
    EarliestShows(zone, date, local - Midnight(date));
  }

  /** The cutoff instant of a timed event keeps its wall-clock distance from the start:
      an instant that shows the old cutoff's wall clock, moved as the start was, and cut
      to the second. */
  lemma ShiftedCutoff(f: Fields, g: Fields, seconds: int) returns (time: int)
    requires ZoneOk(g.zone) && !g.allDay && ShiftUntil(f, g, UntilInstant(seconds)).Ok?
    ensures ShiftUntil(f, g, UntilInstant(seconds)).value == UntilInstant(WholeSeconds(time))
    ensures g.zone.ToLocal(time) - LocalStart(g) == LocalTime(f, Seconds(seconds)) - LocalStart(f)
  {
    var local := LocalTime(f, Seconds(seconds)) + LocalStart(g) - LocalStart(f);
    time := g.zone.resolve(local).Earliest().value;
    ShownAt(g.zone, local);
  }

  /** Exactly when moving a DAILY or WEEKLY rule moves the date of every slot: always for
      DAILY, and for WEEKLY exactly when its selected weeks stay whole. */
  lemma ShiftMovesSlots(s: Schedule, t: Schedule, shift: int)
    requires RuleMoved(s, t, shift) && (s.rule.frequency.Daily? || s.rule.frequency.Weekly?)
    ensures SlotsMoved(s, t, shift) <==> s.rule.frequency.Daily? || KeepsWeeks(WeekOf(s), DriftBy(s, shift))
  {
    DriftIsBy(s, t, shift);
    if s.rule.frequency.Daily? {
      DailyMoves(s, t, shift);
    } else {
      WeeklyShift(s, t, shift);
    }
  }

  lemma DriftIsBy(s: Schedule, t: Schedule, shift: int)
    requires RuleMoved(s, t, shift)
    ensures Drift(s, t) == DriftBy(s, shift)
  {
  }

  lemma WeeklyShift(s: Schedule, t: Schedule, shift: int)
    requires WeeklyOk(s) && WeeklyOk(t) && Built(s) && Built(t)
    requires t.startDate == s.startDate + shift && t.rule.interval == s.rule.interval
    requires t.rule.byDay == (if s.rule.byDay.Some? then Some(MovedDays(s.rule.byDay.value, shift)) else None)
    ensures SlotsMoved(s, t, shift) <==> KeepsWeeks(WeekOf(s), Drift(s, t))
  {
    WeekDrifts(s, t, shift);
    DriftedSlots(s, t, shift);
  }

  lemma WeekDrifts(s: Schedule, t: Schedule, shift: int)
    requires WeeklyOk(s) && WeeklyOk(t) && Built(s) && Built(t)
    requires t.startDate == s.startDate + shift && t.rule.interval == s.rule.interval
    requires t.rule.byDay == (if s.rule.byDay.Some? then Some(MovedDays(s.rule.byDay.value, shift)) else None)
    ensures Drifted(WeekOf(s), WeekOf(t), shift, Drift(s, t))
  {
    forall day | 0 <= day < 7
      ensures Around(day + Weekday(shift)) in DaysOf(t.rule, t.startDate) <==> day in DaysOf(s.rule, s.startDate)
    {
      SelectionMoves(s.rule, s.startDate, shift, t.rule, day);
    }
    BuiltDrifts(s, t, shift);
  }

  lemma DriftedSlots(s: Schedule, t: Schedule, shift: int)
    requires WeeklyOk(s) && WeeklyOk(t) && Drifted(WeekOf(s), WeekOf(t), shift, Drift(s, t))
    ensures SlotsMoved(s, t, shift) <==> KeepsWeeks(WeekOf(s), Drift(s, t))
  {
    MovesIffKeepsWeeks(s, t, shift, Drift(s, t));
    forall slot: nat ensures Slot(s, slot).date.Some? {
      SlotOnPattern(s, slot);
    }
  }

  /** Weeks stay whole in particular for every-week rules and for a single weekday. */
  lemma SingleDayKeepsWeeks(s: Schedule, t: Schedule)
    requires WeeklyOk(s) && WeeklyOk(t) && (s.rule.interval == 1 || |s.weekDays| == 1)
    ensures KeepsWeeks(WeekOf(s), Drift(s, t))
  {
    if s.rule.interval != 1 {
      WeekOfShape(t);
      forall o | o in s.weekDays ensures 0 <= o + Drift(s, t) <= 6 {
        assert o == s.weekDays[0] == s.firstWeekDays[0];
      }
    }
  }

  lemma ExampleDrift(s: Schedule, t: Schedule)
    requires Built(s) && Built(t) && s.rule.byDay == Some([0, 2]) && s.rule.weekStart == 0 && t.rule.weekStart == 0
    requires Weekday(s.startDate) == 0 && t.startDate == s.startDate + 6
    ensures Drift(s, t) == 6 && 2 in s.weekDays
  {
    MondayDates();
    WeekdaySum(s.startDate, 6);
    DriftIsSmall(s, t);
    OffsetsOfDays([0, 2], 0, 2);
  }

  /** Every second week on Monday and Wednesday, moved from a Monday to the Sunday six
      days later, is such an event. */
  lemma ExampleIsShifted(f: Fields, g: Fields, r: Rule)
    requires f.allDay && f.start == Date(0) && f.end == Date(1) && ZoneOk(f.zone) && !Blank(f.title)
    requires g == f.(start := Date(6), end := Date(7)) && r == Rule(Weekly, 2, Some([0, 2]), 0, None, None)
    ensures ShiftedEvent(f, r, g)
  {
    MondayDates();
    ExampleRule(r, r.byDay.value, 6);
    ExampleIsNew(f, r, 0);
    ExampleIsNew(g, r.(byDay := Some(MovedDays(r.byDay.value, 6))), 6);
    ShiftWithoutUntil(f, g, r, 6);
  }

  lemma ShiftWithoutUntil(f: Fields, g: Fields, r: Rule, shift: int)
    requires RuleOk(r) && New(f, r).Ok? && r.until.None? && r.byDay.Some?
    requires shift == DateOfTime(LocalStart(g)) - DateOfTime(LocalStart(f))
    ensures ShiftRule(f, g, r) == Ok(r.(byDay := Some(MovedDays(r.byDay.value, shift))))
  {
  }

  lemma ExampleRule(r: Rule, days: seq<nat>, shift: int)
    requires r == Rule(Weekly, 2, Some(days), 0, None, None) && days == [0, 2] && shift == 6
    ensures RuleOk(r) && RuleOk(r.(byDay := Some(MovedDays(days, shift)))) && 6 in MovedDays(days, shift)
  {
    MondayDates();
    MovedDaysOk(days, shift);
    MovedDaysExact(days, shift, 0);
  }

  lemma MondayDates()
    ensures Weekday(0) == 0 && Weekday(6) == 6
    ensures DateOfTime(Midnight(0)) == 0 && DateOfTime(Midnight(6)) == 6
  {
  }

  lemma ExampleIsNew(f: Fields, r: Rule, date: int)
    requires RuleOk(r) && r.until.None? && r.byDay.Some? && Weekday(date) in r.byDay.value
    requires f.allDay && f.start == Date(date) && f.end == Date(date + 1) && 0 <= date < 10 && !Blank(f.title) && ZoneNameOk(f.zone.name)
    ensures New(f, r).Ok?
  {
    assert DateOfTime(Midnight(date)) == date;
  }

  /** Slot `slot` and its moved image are both in the supported years. */
  predicate BothInRange(s: Schedule, shift: int, slot: nat)
    requires SlotsOk(s) && Slot(s, slot).date.Some?
  {
    InRange(Slot(s, slot).date.value) && InRange(Slot(s, slot).date.value + shift)
  }

  /** The slots as far as this one are moved. */
  ghost predicate MovedUpTo(s: Schedule, t: Schedule, shift: int, slot: nat)
    requires SlotsOk(s) && SlotsOk(t)
  {
    forall k: nat :: k <= slot ==> Slot(s, k).date.Some? && Slot(t, k).date == Some(Slot(s, k).date.value + shift)
  }

  /** Moved slots of an all-day rule are moved positions, COUNT and UNTIL included. */
  lemma {:induction false} ShiftMovesSeries(s: Schedule, t: Schedule, shift: int, slot: nat)
    requires Shifted(s, t, shift) && MovedUpTo(s, t, shift, slot) && BothInRange(s, shift, slot)
    ensures Position(t, slot) ==
      if Position(s, slot).Some? then Some(Position(s, slot).value + Midnight(shift)) else None
    ensures Ordinal(t, slot) == Ordinal(s, slot)
    ensures InSeries(t, slot) <==> InSeries(s, slot)
  {
    PositionMoves(s, t, shift, slot);
    if slot > 0 {
      EarlierInRange(s, shift, slot);
      ShiftMovesSeries(s, t, shift, slot - 1);
    }
  }

  /** With a DAILY rule, or a WEEKLY rule for every week or for a single weekday, an
      all-day event moves as a whole: slot by slot its positions are the old ones, the day
      shift later, with the same ordinals, under any COUNT or UNTIL. */
  lemma ShiftTranslates(s: Schedule, t: Schedule, shift: int, slot: nat)
    requires Shifted(s, t, shift) && Slot(s, slot).date.Some? && BothInRange(s, shift, slot)
    requires s.rule.frequency.Daily? || (s.rule.frequency.Weekly? && (s.rule.interval == 1 || |s.weekDays| == 1))
    ensures Position(t, slot) == if Position(s, slot).Some? then Some(Position(s, slot).value + Midnight(shift)) else None
    ensures Ordinal(t, slot) == Ordinal(s, slot)
    ensures InSeries(t, slot) <==> InSeries(s, slot)
  {
    ShiftMovesSlots(s, t, shift);
    if s.rule.frequency.Weekly? {
      SingleDayKeepsWeeks(s, t);
    }
    ShiftMovesSeries(s, t, shift, slot);
  }

  lemma EarlierInRange(s: Schedule, shift: int, slot: nat)
    requires Valid(s) && slot > 0 && Slot(s, slot).date.Some? && Slot(s, slot - 1).date.Some?
    requires BothInRange(s, shift, slot) && InRange(s.startDate + shift)
    ensures BothInRange(s, shift, slot - 1)
  {
    DateOrder(s, slot - 1, slot);
    SlotDatesFromStart(s, slot - 1);
  }

  lemma PositionMoves(s: Schedule, t: Schedule, shift: int, slot: nat)
    requires Shifted(s, t, shift) && MovedUpTo(s, t, shift, slot) && BothInRange(s, shift, slot)
    ensures Position(t, slot) ==
      if Position(s, slot).Some? then Some(Position(s, slot).value + Midnight(shift)) else None
  {
    var date := Slot(s, slot).date.value;
    assert Slot(t, slot).date == Some(date + shift);
    assert AtDate(s, date) == Ok(Some(Midnight(date)));
    assert AtDate(t, date + shift) == Ok(Some(Midnight(date + shift)));
  }

  // ------------------------------------------------------------ semantic_rule

  /** Both schedules have the same positions, slot by slot. */
  ghost predicate SameSeries(s: Schedule, t: Schedule)
    requires SlotsOk(s) && SlotsOk(t)
  {
    forall slot: nat :: Position(s, slot) == Position(t, slot) && (InSeries(s, slot) <==> InSeries(t, slot))
  }

  lemma SemanticRuleOk(f: Fields, r: Rule)
    requires RuleOk(r) && New(f, r).Ok?
    ensures RuleOk(SemanticRule(f, r)) && New(f, SemanticRule(f, r)).Ok?
    ensures SameBounds(New(f, r).value, New(f, SemanticRule(f, r)).value)
  {
    assert WeekdayList([Weekday(DateOfTime(LocalStart(f)))]);
  }

  /** The schedules differ at most in how the rule states its weeks. */
  ghost predicate SameBounds(s: Schedule, t: Schedule) {
    && s.allDay == t.allDay && s.zone.resolve == t.zone.resolve && s.zone.offset == t.zone.offset
    && s.start == t.start && s.duration == t.duration && s.startDate == t.startDate && s.timeOfDay == t.timeOfDay
    && t.rule.until == s.rule.until && t.rule.count == s.rule.count
  }

  lemma WeeklySame(s: Schedule, t: Schedule)
    requires WeeklyOk(s) && WeeklyOk(t) && Built(s) && Built(t)
    requires t.startDate == s.startDate && t.rule.interval == s.rule.interval
    requires DaysOf(t.rule, t.startDate) == DaysOf(s.rule, s.startDate)
    requires s.rule.interval == 1 || t.rule.weekStart == s.rule.weekStart
    ensures forall slot: nat :: Slot(s, slot).date == Slot(t, slot).date
  {
    assert Weekday(0) == 0;
    BuiltDrifts(s, t, 0);
    SameWeeks(s, t);
    DriftedSlots(s, t, 0);
  }

  lemma SameWeeks(s: Schedule, t: Schedule)
    requires WeeklyOk(s) && Built(s) && Built(t) && t.startDate == s.startDate
    requires s.rule.interval == 1 || t.rule.weekStart == s.rule.weekStart
    ensures KeepsWeeks(WeekOf(s), Drift(s, t))
  {
    DriftIsSmall(s, t);
    WeekOfShape(s);
  }

  /** The comparison form of a rule generates the same series. */
  lemma SemanticRuleKeepsSeries(f: Fields, r: Rule)
    requires RuleOk(r) && ZoneOk(f.zone) && New(f, r).Ok?
    ensures RuleOk(SemanticRule(f, r)) && New(f, SemanticRule(f, r)).Ok?
    ensures Valid(New(f, r).value) && Valid(New(f, SemanticRule(f, r)).value)
    ensures SameSeries(New(f, r).value, New(f, SemanticRule(f, r)).value)
  {
    SemanticRuleOk(f, r);
    var q := SemanticRule(f, r);
    var s, t := New(f, r).value, New(f, q).value;
    NewIsValid(f, r);
    NewIsValid(f, q);
    NewBuilds(f, r);
    NewBuilds(f, q);
    if r.frequency.Weekly? {
      WeeklySame(s, t);
    }
    forall slot: nat
      ensures Position(s, slot) == Position(t, slot) && (InSeries(s, slot) <==> InSeries(t, slot))
    {
      if r.frequency.Weekly? {
        SameDatesSameSeries(s, t, slot);
      }
    }
  }

  lemma SamePosition(s: Schedule, t: Schedule, slot: nat)
    requires SlotsOk(s) && SlotsOk(t) && Slot(s, slot).date == Slot(t, slot).date && SameBounds(s, t)
    ensures Position(s, slot) == Position(t, slot)
  {
  }

  lemma {:induction false} SameDatesSameSeries(s: Schedule, t: Schedule, slot: nat)
    requires SlotsOk(s) && SlotsOk(t) && SameBounds(s, t)
    requires forall k: nat :: Slot(s, k).date == Slot(t, k).date
    ensures Position(s, slot) == Position(t, slot) && Ordinal(s, slot) == Ordinal(t, slot)
    ensures InSeries(s, slot) <==> InSeries(t, slot)
  {
    SamePosition(s, t, slot);
    if slot > 0 {
      SameDatesSameSeries(s, t, slot - 1);
    }
  }
}
