/** A rule bound to the event it repeats, and the calendar arithmetic of its
    slots: which date a slot falls on, which instant that is, and where UNTIL
    and a window bound cut the slots off. */
module Schedules {
  import opened Basics
  import opened CivilCalendar
  import opened Zones
  import opened Rules
  import opened Arithmetic

  datatype Schedule = Schedule(
    rule: Rule,
    allDay: bool,
    zone: Zone,
    start: int,
    duration: int,
    startDate: int,
    timeOfDay: int,
    weekAnchor: int,
    weekDays: seq<nat>,
    firstWeekDays: seq<nat>)

  /** The offsets below `bound` whose weekday is selected, in increasing order. */
  function SelectedOffsets(days: seq<nat>, weekStart: nat, bound: nat): (r: seq<nat>)
    requires weekStart < 7 && bound <= 7
    ensures forall o :: o in r ==> o < bound && Around(o + weekStart) in days
    ensures forall o :: 0 <= o < bound && Around(o + weekStart) in days ==> o in r
    ensures StrictlySorted(r)
  {
    if bound == 0 then []
    else
      var before := SelectedOffsets(days, weekStart, bound - 1);
      if Around(bound - 1 + weekStart) in days then AppendSorted(before, bound - 1); before + [bound - 1] else before
  }

  lemma AppendSorted(before: seq<nat>, last: nat)
    requires StrictlySorted(before) && forall d :: d in before ==> d < last
    ensures StrictlySorted(before + [last])
  {
    forall j | 0 <= j < |before| ensures before[j] < last {
      assert before[j] in before;
    }
  }

  const DAYS_PER_WEEK: nat := 7

  function WeekOffsets(days: seq<nat>, weekStart: nat): (r: seq<nat>)
    requires weekStart < 7
    ensures StrictlySorted(r) && forall o :: o in r ==> o < 7
  {
    SelectedOffsets(days, weekStart, DAYS_PER_WEEK)
  }

  function AtLeast(days: seq<nat>, bound: nat): seq<nat> {
    if days == [] then []
    else if days[0] >= bound then [days[0]] + AtLeast(days[1..], bound)
    else AtLeast(days[1..], bound)
  }

  function LocalTime(fields: Fields, time: int): int {
    if fields.allDay then time else fields.zone.ToLocal(time)
  }

  /** Validate an event against a rule and precompute its schedule. */
  function New(fields: Fields, rule: Rule): (r: Result<Schedule>)
    requires RuleOk(rule)
  {
    if !FieldsOk(fields) || !StampInRange(fields.start) || !StampInRange(fields.end) then Err
    else
      var start := Boundary(fields.start);
      var local := LocalTime(fields, start);
      var date := DateOfTime(local);
      if !InRange(date) || !BoundsFit(fields, rule, start, date) then Err
      else Ok(Scheduled(rule, fields.allDay, fields.zone, start, Boundary(fields.end) - start, local))
  }

  /** The schedule of a start that is valid for the rule. */
  function Scheduled(rule: Rule, allDay: bool, zone: Zone, start: int, duration: int, local: int): Schedule
    requires RuleOk(rule)
  {
    var date := DateOfTime(local);
    var weekDays := WeekOffsets(DaysOf(rule, date), rule.weekStart);
    Schedule(rule, allDay, zone, start, duration, date, local - Midnight(date), date - StartOffset(rule, date), weekDays,
             AtLeast(weekDays, StartOffset(rule, date)))
  }

  /** DTSTART is one of the selected weekdays and not after UNTIL. */
  predicate BoundsFit(fields: Fields, rule: Rule, start: int, date: int) {
    && (rule.byDay.Some? ==> Weekday(date) in rule.byDay.value)
    && (match rule.until
        case None => true
        case Some(UntilDate(until)) => date <= until
        case Some(UntilInstant(until)) => !fields.allDay && start <= Seconds(until))
  }

  function DaysOf(rule: Rule, date: int): seq<nat> {
    if rule.byDay.Some? then rule.byDay.value else [Weekday(date)]
  }

  /** Days from the first day of the week to the start. */
  function StartOffset(rule: Rule, date: int): nat
    requires rule.weekStart < 7
  {
    Around(Weekday(date) + 7 - rule.weekStart)
  }

  lemma WeekData(rule: Rule, date: int)
    requires RuleOk(rule) && Weekday(date) in DaysOf(rule, date)
    ensures var days := WeekOffsets(DaysOf(rule, date), rule.weekStart);
            var first := AtLeast(days, StartOffset(rule, date));
      0 < |first| <= |days| && first == days[|days| - |first|..] && first[0] == StartOffset(rule, date)
  {
    var days := WeekOffsets(DaysOf(rule, date), rule.weekStart);
    OffsetWeekday(Weekday(date), rule.weekStart);
    AtLeastIsSuffix(days, StartOffset(rule, date));
  }

  lemma OffsetWeekday(weekday: nat, weekStart: nat)
    requires weekday < 7 && weekStart < 7
    ensures Around(Around(weekday + 7 - weekStart) + weekStart) == weekday
  {
  }

  /** Of sorted days, those from a member on are a suffix that begins with it. */
  lemma {:induction false} AtLeastIsSuffix(days: seq<nat>, bound: nat)
    requires StrictlySorted(days) && bound in days
    ensures var first := AtLeast(days, bound);
      0 < |first| <= |days| && first == days[|days| - |first|..] && first[0] == bound
  {
    if days[0] < bound {
      AtLeastIsSuffix(days[1..], bound);
    } else {
      AtLeastAll(days, bound);
    }
  }

  lemma {:induction false} AtLeastAll(days: seq<nat>, bound: nat)
    requires forall i :: 0 <= i < |days| ==> bound <= days[i]
    ensures AtLeast(days, bound) == days
  {
    if days != [] {
      AtLeastAll(days[1..], bound);
    }
  }

  /** What `New` establishes, together with the zone hypotheses. */
  ghost predicate Valid(s: Schedule) {
    && RuleOk(s.rule)
    && ZoneOk(s.zone)
    && s.duration > 0
    && InRange(s.startDate) && InRange(DateOfTime(s.start))
    && 0 <= s.timeOfDay < DAY
    && (if s.allDay then s.start == Midnight(s.startDate) && s.timeOfDay == 0
        else s.zone.ToLocal(s.start) == Midnight(s.startDate) + s.timeOfDay)
    && WeekOk(s)
  }

  lemma NewIsValid(fields: Fields, rule: Rule)
    requires RuleOk(rule) && ZoneOk(fields.zone) && New(fields, rule).Ok?
    ensures Valid(New(fields, rule).value)
  {
    var s := New(fields, rule).value;
    WeekData(rule, s.startDate);
    assert WeekdayList(s.weekDays);
    StartAxis(fields, s);
  }

  /** The start splits into its local date and time of day. */
  lemma StartAxis(fields: Fields, s: Schedule)
    requires RuleOk(s.rule) && New(fields, s.rule) == Ok(s)
    ensures 0 <= s.timeOfDay < DAY && InRange(DateOfTime(s.start))
    ensures if s.allDay then s.start == Midnight(s.startDate) && s.timeOfDay == 0
            else s.zone.ToLocal(s.start) == Midnight(s.startDate) + s.timeOfDay
  {
  }

  /** The week data: sorted offsets, of which the first week has a suffix that
      begins with the start itself. */
  predicate WeekOk(s: Schedule) {
    && WeekdayList(s.weekDays)
    && 0 < |s.firstWeekDays| <= |s.weekDays|
    && s.firstWeekDays == s.weekDays[Skipped(s)..]
    && s.weekAnchor + s.firstWeekDays[0] == s.startDate
  }

  /** Selected weekdays of the first week that precede the start. */
  function Skipped(s: Schedule): int {
    |s.weekDays| - |s.firstWeekDays|
  }

  /** Only these schedules have one occurrence per slot. */
  predicate ArithmeticCount(s: Schedule) {
    (s.allDay || IsUtc(s.zone)) && (s.rule.frequency.Daily? || s.rule.frequency.Weekly?)
  }

  // ---------------------------------------------------------------- slots

  /** A slot's period floor, and the date if the period has it. */
  datatype Candidate = Candidate(floor: int, date: Option<int>)

  function MonthsPerSlot(s: Schedule): nat {
    if s.rule.frequency.Monthly? then s.rule.interval else 12 * s.rule.interval
  }

  function SlotMonth(s: Schedule, slot: nat): Month
    requires 0 <= s.startDate
  {
    MonthOf(s.startDate) + slot * MonthsPerSlot(s)
  }

  /** Week number and day offset of a WEEKLY slot. */
  function WeekSlot(s: Schedule, slot: nat): (nat, nat)
    requires s.weekDays != []
  {
    var first := |s.firstWeekDays|;
    if slot < first then (0, s.firstWeekDays[slot])
    else (((slot - first) / |s.weekDays|) + 1, s.weekDays[(slot - first) % |s.weekDays|])
  }

  /** The calendar slot without the date library's range limit. */
  function Slot(s: Schedule, slot: nat): Candidate
    requires 0 <= s.startDate && s.weekDays != []
  {
    match s.rule.frequency
    case Daily =>
      var date := s.startDate + slot * s.rule.interval;
      Candidate(date, Some(date))
    case Weekly =>
      var (week, day) := WeekSlot(s, slot);
      var date := s.weekAnchor + week * (7 * s.rule.interval) + day;
      Candidate(date, Some(date))
    case _ =>
      var month := SlotMonth(s, slot);
      var day := s.startDate - MonthStart(MonthOf(s.startDate));
      Candidate(MonthStart(month), if day < DaysIn(month) then Some(MonthStart(month) + day) else None)
  }

  function CandidateAt(s: Schedule, slot: nat): Result<Candidate>
    requires 0 <= s.startDate && s.weekDays != []
  {
    var c := Slot(s, slot);
    if c.floor < LIBRARY_LIMIT then Ok(c) else Err
  }

  /** The instant of the position on a date; a gap has none. */
  function AtDate(s: Schedule, date: int): Result<Option<int>> {
    if !InRange(date) then Err
    else if date == s.startDate then Ok(Some(s.start))
    else if s.allDay then Ok(Some(Midnight(date)))
    else
      match s.zone.resolve(Midnight(date) + s.timeOfDay).Earliest()
      case None => Ok(None)
      case Some(t) => if InRange(DateOfTime(t)) then Ok(Some(t)) else Err
  }

  predicate WithinUntil(s: Schedule, time: int, date: int) {
    match s.rule.until
    case None => true
    case Some(UntilDate(until)) => date <= until
    case Some(UntilInstant(until)) => time <= Seconds(until)
  }

  /** Whether every position from this floor on is certainly past UNTIL. */
  predicate PastUntilDate(s: Schedule, floor: int) {
    match s.rule.until
    case None => false
    case Some(UntilDate(until)) => floor > until
    case Some(UntilInstant(until)) => floor - DateOfTime(Seconds(until)) > 2
  }

  /** Where to look for a date: no slot that falls on it comes earlier. */
  function Seek(s: Schedule, date: int): nat
    requires 0 <= s.startDate && s.weekDays != [] && 1 <= s.rule.interval && s.weekAnchor <= s.startDate
  {
    if date <= s.startDate then 0
    else
      match s.rule.frequency
      case Daily => Quotient(date - s.startDate, s.rule.interval)
      case Weekly => FirstSlotOfCycle(s, Quotient(date - s.weekAnchor, 7 * s.rule.interval))
      case Monthly =>
        MonthOfMonotone(s.startDate, date);
        Quotient(MonthOf(date) - MonthOf(s.startDate), s.rule.interval)
      case Yearly =>
        MonthOfMonotone(s.startDate, date);
        Quotient(MonthOf(date) / 12 - MonthOf(s.startDate) / 12, s.rule.interval)
  }

  function FirstSlotOfCycle(s: Schedule, cycle: nat): nat {
    if cycle == 0 then 0 else |s.firstWeekDays| + (cycle - 1) * |s.weekDays|
  }
}
