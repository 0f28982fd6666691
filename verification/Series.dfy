/** The reference meaning of a recurring event: enumerate the slots from 0, drop
    invalid dates and gaps, and apply UNTIL and COUNT. Every answer of the engine
    is stated against this enumeration. */
module Series {
  import opened Basics
  import opened CivilCalendar
  import opened Zones
  import opened Rules
  import opened Schedules
  import opened SlotOrder

  /** The instant of a slot that is a real position within UNTIL. */
  function Position(s: Schedule, slot: nat): Option<int>
    requires SlotsOk(s)
  {
    var date := Slot(s, slot).date;
    if date.None? then None
    else
      match AtDate(s, date.value)
      case Ok(Some(time)) => if WithinUntil(s, time, date.value) then Some(time) else None
      case _ => None
  }

  /** How many positions precede a slot. */
  function Ordinal(s: Schedule, slot: nat): nat
    requires SlotsOk(s)
  {
    if slot == 0 then 0
    else Ordinal(s, slot - 1) + if Position(s, slot - 1).Some? then 1 else 0
  }

  /** The slots that belong to the series, COUNT included. */
  predicate InSeries(s: Schedule, slot: nat)
    requires SlotsOk(s)
  {
    Position(s, slot).Some? && (s.rule.count.Some? ==> Ordinal(s, slot) < s.rule.count.value)
  }

  /** The instant `time` is a position of the series. */
  ghost predicate IsPosition(s: Schedule, time: int)
    requires SlotsOk(s)
  {
    exists slot: nat :: InSeries(s, slot) && Position(s, slot) == Some(time)
  }

  // ------------------------------------------------------------ instants

  /** Positions keep within a day of their date and show that date locally. */
  lemma AtDateNear(s: Schedule, date: int)
    requires Valid(s) && AtDate(s, date).Ok? && AtDate(s, date).value.Some?
    ensures var t := AtDate(s, date).value.value;
      && Midnight(date - 1) < t < Midnight(date + 2)
      && InRange(DateOfTime(t))
      && (if s.allDay then t == Midnight(date) else s.zone.ToLocal(t) == Midnight(date) + s.timeOfDay)
  {
    var t := AtDate(s, date).value.value;
    if !s.allDay {
      if date != s.startDate {
        EarliestShows(s.zone, date, s.timeOfDay);
      }
      assert t - DAY < s.zone.ToLocal(t) < t + DAY;
    }
  }

  /** A later date's position is a later instant. */
  lemma AtDateOrder(s: Schedule, a: int, b: int)
    requires Valid(s) && s.startDate <= a < b
    requires AtDate(s, a).Ok? && AtDate(s, a).value.Some?
    requires AtDate(s, b).Ok? && AtDate(s, b).value.Some?
    ensures AtDate(s, a).value.value < AtDate(s, b).value.value
  {
    AtDateNear(s, a);
    AtDateNear(s, b);
    if !s.allDay {
      var t, u := AtDate(s, a).value.value, AtDate(s, b).value.value;
      LaterDateIsLater(s.zone, a, b, s.timeOfDay, t, u);
    }
  }

  lemma PositionFacts(s: Schedule, slot: nat)
    requires Valid(s) && Position(s, slot).Some?
    ensures Slot(s, slot).date.Some?
    ensures var date := Slot(s, slot).date.value;
      && s.startDate <= date && InRange(date)
      && AtDate(s, date) == Ok(Some(Position(s, slot).value))
      && WithinUntil(s, Position(s, slot).value, date)
    ensures s.start <= Position(s, slot).value
    ensures slot < DATE_LIMIT
  {
    var date := Slot(s, slot).date.value;
    SlotDatesFromStart(s, slot);
    SlotBelowDate(s, slot);
    if slot > 0 {
      AtDateOrder(s, s.startDate, date);
    } else {
      SlotZero(s);
    }
  }

  /** Positions increase strictly with their slot. */
  lemma PositionOrder(s: Schedule, j: nat, k: nat)
    requires Valid(s) && j < k && Position(s, j).Some? && Position(s, k).Some?
    ensures Position(s, j).value < Position(s, k).value
  {
    PositionFacts(s, j);
    PositionFacts(s, k);
    DateOrder(s, j, k);
    AtDateOrder(s, Slot(s, j).date.value, Slot(s, k).date.value);
  }

  lemma PositionInjective(s: Schedule, j: nat, k: nat)
    requires Valid(s) && Position(s, j).Some? && Position(s, j) == Position(s, k)
    ensures j == k
  {
    if j < k {
      PositionOrder(s, j, k);
    } else if k < j {
      PositionOrder(s, k, j);
    }
  }

  // ------------------------------------------------------------ ordinals

  lemma {:induction false} OrdinalOrder(s: Schedule, j: nat, k: nat)
    requires SlotsOk(s) && j <= k
    ensures Ordinal(s, j) <= Ordinal(s, k) <= Ordinal(s, j) + (k - j)
    ensures j < k && Position(s, j).Some? ==> Ordinal(s, j) < Ordinal(s, k)
    decreases k
  {
    if j < k {
      OrdinalOrder(s, j, k - 1);
    }
  }

  /** No two positions share an ordinal. */
  lemma OrdinalInjective(s: Schedule, j: nat, k: nat)
    requires SlotsOk(s) && Position(s, j).Some? && Position(s, k).Some? && Ordinal(s, j) == Ordinal(s, k)
    ensures j == k
  {
    if j < k {
      OrdinalOrder(s, j, k);
    } else if k < j {
      OrdinalOrder(s, k, j);
    }
  }

  /** The series is a prefix of the positions: membership is downward closed. */
  lemma SeriesPrefix(s: Schedule, j: nat, k: nat)
    requires SlotsOk(s) && j <= k && InSeries(s, k) && Position(s, j).Some?
    ensures InSeries(s, j)
  {
    OrdinalOrder(s, j, k);
  }
}
