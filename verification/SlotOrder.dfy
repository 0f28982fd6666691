/** The order facts about slots that make seeking and early stopping sound. */
module SlotOrder {
  import opened Basics
  import opened CivilCalendar
  import opened Rules
  import opened Arithmetic
  import opened Schedules

  /** The part of a schedule's validity that slot arithmetic needs. */
  predicate SlotsOk(s: Schedule) {
    RuleOk(s.rule) && InRange(s.startDate) && WeekOk(s)
  }

  // ------------------------------------------------------------ weekly slots

  /** WEEKLY dates counted from the start of the anchor week, skipped days included. */
  function WeekDate(s: Schedule, index: nat): int
    requires SlotsOk(s)
  {
    s.weekAnchor + (index / |s.weekDays|) * (7 * s.rule.interval) + s.weekDays[index % |s.weekDays|]
  }

  lemma WeekSlotIsWeekDate(s: Schedule, slot: nat)
    requires SlotsOk(s) && s.rule.frequency.Weekly?
    ensures Slot(s, slot).date == Some(WeekDate(s, slot + Skipped(s)))
  {
    var n, first := |s.weekDays|, |s.firstWeekDays|;
    var index := slot + Skipped(s);
    if slot < first {
      DivModUnique(0, index, n);
    } else {
      DivModParts(slot - first, n);
      assert index == ((slot - first) / n + 1) * n + (slot - first) % n;
      DivModUnique((slot - first) / n + 1, (slot - first) % n, n);
    }
  }

  lemma WeekDateStep(s: Schedule, index: nat)
    requires SlotsOk(s)
    ensures WeekDate(s, index) < WeekDate(s, index + 1)
  {
    var n := |s.weekDays|;
    DivModNext(index, n);
    if index % n == n - 1 {
      assert s.weekDays[n - 1] in s.weekDays;
      assert (index / n + 1) * (7 * s.rule.interval) == (index / n) * (7 * s.rule.interval) + 7 * s.rule.interval;
    }
  }

  // ------------------------------------------------------------ every frequency

  /** Consecutive slots occupy disjoint, increasing stretches of the calendar. */
  lemma SlotStep(s: Schedule, slot: nat)
    requires SlotsOk(s)
    ensures Slot(s, slot).floor < Slot(s, slot + 1).floor
    ensures Slot(s, slot).date.Some? ==> Slot(s, slot).floor <= Slot(s, slot).date.value < Slot(s, slot + 1).floor
  {
    match s.rule.frequency
    case Daily =>
      assert (slot + 1) * s.rule.interval == slot * s.rule.interval + s.rule.interval;
    case Weekly =>
      WeekSlotIsWeekDate(s, slot);
      WeekSlotIsWeekDate(s, slot + 1);
      WeekDateStep(s, slot + Skipped(s));
    case _ =>
      assert (slot + 1) * MonthsPerSlot(s) == slot * MonthsPerSlot(s) + MonthsPerSlot(s);
      MonthOrder(SlotMonth(s, slot), SlotMonth(s, slot + 1));
  }

  lemma {:induction false} FloorOrder(s: Schedule, j: nat, k: nat)
    requires SlotsOk(s) && j <= k
    ensures Slot(s, j).floor + (k - j) <= Slot(s, k).floor
    decreases k
  {
    if j < k {
      FloorOrder(s, j, k - 1);
      SlotStep(s, k - 1);
    }
  }

  lemma DateBelowLaterFloor(s: Schedule, j: nat, k: nat)
    requires SlotsOk(s) && j < k && Slot(s, j).date.Some?
    ensures Slot(s, j).date.value < Slot(s, k).floor
  {
    SlotStep(s, j);
    FloorOrder(s, j + 1, k);
  }

  lemma DateAtLeastFloor(s: Schedule, j: nat, k: nat)
    requires SlotsOk(s) && j <= k && Slot(s, k).date.Some?
    ensures Slot(s, j).floor <= Slot(s, k).floor <= Slot(s, k).date.value
  {
    SlotStep(s, k);
    FloorOrder(s, j, k);
  }

  lemma DateOrder(s: Schedule, j: nat, k: nat)
    requires SlotsOk(s) && j < k && Slot(s, j).date.Some? && Slot(s, k).date.Some?
    ensures Slot(s, j).date.value < Slot(s, k).date.value
  {
    DateBelowLaterFloor(s, j, k);
    SlotStep(s, k);
  }

  /** Slot 0 is the start date itself. */
  lemma SlotZero(s: Schedule)
    requires SlotsOk(s)
    ensures Slot(s, 0).date == Some(s.startDate) && 0 <= Slot(s, 0).floor
  {
    if s.rule.frequency.Weekly? {
      assert s.firstWeekDays[0] == s.weekDays[Skipped(s)];
    } else if s.rule.frequency.Monthly? || s.rule.frequency.Yearly? {
      assert SlotMonth(s, 0) == MonthOf(s.startDate);
    }
  }

  lemma SlotDatesFromStart(s: Schedule, slot: nat)
    requires SlotsOk(s) && Slot(s, slot).date.Some?
    ensures s.startDate <= Slot(s, slot).date.value
    ensures slot > 0 ==> s.startDate < Slot(s, slot).date.value
  {
    SlotZero(s);
    if slot > 0 {
      DateOrder(s, 0, slot);
    }
  }

  /** Slots number at most the days they span, so DATE_LIMIT bounds every series. */
  lemma SlotBelowDate(s: Schedule, slot: nat)
    requires SlotsOk(s)
    ensures slot <= Slot(s, slot).floor
    ensures Slot(s, slot).date.Some? ==> slot <= Slot(s, slot).date.value
  {
    SlotZero(s);
    FloorOrder(s, 0, slot);
    SlotStep(s, slot);
  }

  // ------------------------------------------------------------ seeking

  predicate SeekOk(s: Schedule) {
    SlotsOk(s) && s.weekAnchor <= s.startDate
  }

  /** Seeking skips only slots dated before the target. */
  lemma SeekSkipsEarlier(s: Schedule, date: int, slot: nat)
    requires SeekOk(s) && slot < Seek(s, date) && Slot(s, slot).date.Some?
    ensures Slot(s, slot).date.value < date
  {
    match s.rule.frequency
    case Daily =>
      MulStrict(slot, Seek(s, date), s.rule.interval);
    case Weekly =>
      WeekSeekSkips(s, date, slot);
    case _ =>
      MonthSeekSkips(s, date, slot);
  }

  lemma WeekSeekSkips(s: Schedule, date: int, slot: nat)
    requires SeekOk(s) && s.rule.frequency.Weekly? && slot < Seek(s, date)
    ensures Slot(s, slot).date.value < date
  {
    var n, span := |s.weekDays|, 7 * s.rule.interval;
    var index := slot + Skipped(s);
    WeekSlotIsWeekDate(s, slot);
    var cycle := Quotient(date - s.weekAnchor, span);
    assert cycle * n == (cycle - 1) * n + n;
    DivModParts(index, n);
    if index / n >= cycle {
      MulOrder(cycle, index / n, n);
    }
    MulStrict(index / n, cycle, span);
    assert s.weekDays[index % n] in s.weekDays;
  }

  lemma MonthSeekSkips(s: Schedule, date: int, slot: nat)
    requires SeekOk(s) && (s.rule.frequency.Monthly? || s.rule.frequency.Yearly?)
    requires slot < Seek(s, date) && Slot(s, slot).date.Some?
    ensures Slot(s, slot).date.value < date
  {
    SlotMonthSteps(s, slot);
    MonthsBeforeSeek(s, date, slot);
    MonthOrder(SlotMonth(s, slot), MonthOf(date));
  }

  lemma MonthsBeforeSeek(s: Schedule, date: int, slot: nat)
    requires SeekOk(s) && (s.rule.frequency.Monthly? || s.rule.frequency.Yearly?) && slot < Seek(s, date)
    ensures MonthOf(s.startDate) +
              (if s.rule.frequency.Monthly? then slot * s.rule.interval else 12 * (slot * s.rule.interval)) < MonthOf(date)
  {
    var a, b := MonthOf(s.startDate), MonthOf(date);
    MulStrict(slot, Seek(s, date), s.rule.interval);
    if s.rule.frequency.Yearly? {
      YearMonths(a, b, slot * s.rule.interval);
    }
  }

  lemma SlotMonthSteps(s: Schedule, slot: nat)
    requires SlotsOk(s)
    ensures SlotMonth(s, slot) == MonthOf(s.startDate) +
              if s.rule.frequency.Monthly? then slot * s.rule.interval else 12 * (slot * s.rule.interval)
  {
    assert slot * (12 * s.rule.interval) == 12 * (slot * s.rule.interval);
  }

  /** Whole years move the month number by twelves. */
  lemma YearMonths(a: nat, b: nat, years: nat)
    ensures (a + 12 * years) / 12 == a / 12 + years
    ensures a / 12 + years < b / 12 ==> a + 12 * years < b
  {
  }

  /** How many slots from the seek point can hold a given date. */
  function Attempts(s: Schedule): nat {
    if s.rule.frequency.Weekly? then |s.weekDays| else 1
  }

  /** Seeking a slot's own date lands within `Attempts` slots of it. */
  lemma SeekFinds(s: Schedule, slot: nat)
    requires SeekOk(s) && Slot(s, slot).date.Some?
    ensures var q := Seek(s, Slot(s, slot).date.value); q <= slot < q + Attempts(s)
  {
    var date := Slot(s, slot).date.value;
    SlotDatesFromStart(s, slot);
    if slot < Seek(s, date) {
      SeekSkipsEarlier(s, date, slot);
    }
    if slot > 0 {
      match s.rule.frequency
      case Daily =>
        DivModUnique(slot, 0, s.rule.interval);
      case Weekly =>
        WeekSeekFinds(s, slot);
      case _ =>
        MonthSeekFinds(s, slot);
    }
  }

  lemma WeekSeekFinds(s: Schedule, slot: nat)
    requires SeekOk(s) && s.rule.frequency.Weekly? && s.startDate < Slot(s, slot).date.value
    ensures slot < Seek(s, Slot(s, slot).date.value) + |s.weekDays|
  {
    var n, span := |s.weekDays|, 7 * s.rule.interval;
    var index := slot + Skipped(s);
    WeekSlotIsWeekDate(s, slot);
    assert s.weekDays[index % n] in s.weekDays;
    DivModUnique(index / n, s.weekDays[index % n], span);
    DivModParts(index, n);
    assert (index / n) * n == (index / n - 1) * n + n;
  }

  lemma MonthSeekFinds(s: Schedule, slot: nat)
    requires SeekOk(s) && (s.rule.frequency.Monthly? || s.rule.frequency.Yearly?)
    requires Slot(s, slot).date.Some? && s.startDate < Slot(s, slot).date.value
    ensures slot == Seek(s, Slot(s, slot).date.value)
  {
    var date := Slot(s, slot).date.value;
    var steps := slot * s.rule.interval;
    MonthOfUnique(date, SlotMonth(s, slot));
    SlotMonthSteps(s, slot);
    DivModUnique(slot, 0, s.rule.interval);
    YearMonths(MonthOf(s.startDate), 0, steps);
  }
}
