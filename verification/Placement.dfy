/** For schedules with one occurrence per slot, a cursor placed arithmetically is
    indistinguishable from one stepped there from slot 0. */
module Placement {
  import opened Basics
  import opened CivilCalendar
  import opened Zones
  import opened Schedules
  import opened SlotOrder
  import opened Series
  import opened Cursors

  /** What a cursor yields in its next `n` steps; a failure ends the list. */
  function Outputs(s: Schedule, c: CursorState, n: nat): seq<Result<Option<(nat, int)>>>
    requires SlotsOk(s)
    decreases n
  {
    if n == 0 then []
    else
      match StepFrom(s, c)
      case Err => [Err]
      case Ok((next, out)) => [Ok(out)] + Outputs(s, next, n - 1)
  }

  /** Step a cursor until it reaches a slot or stops. */
  function SteppedTo(s: Schedule, c: CursorState, slot: nat): Result<CursorState>
    requires SlotsOk(s)
    decreases slot - c.slot, !c.done
  {
    if c.slot >= slot || c.done then Ok(c)
    else
      match StepFrom(s, c)
      case Err => Err
      case Ok((next, _)) => SteppedTo(s, next, slot)
  }

  lemma ArithmeticInspects(s: Schedule, slot: nat)
    requires Valid(s) && ArithmeticCount(s) && InRange(Slot(s, slot).floor)
    ensures Inspect(s, slot).Ok? && !Inspect(s, slot).value.Skip?
  {
    ArithmeticNeverSkips(s, slot);
    if !s.allDay {
      assert s.zone.resolve(Midnight(Slot(s, slot).floor) + s.timeOfDay) ==
        Single(Midnight(Slot(s, slot).floor) + s.timeOfDay);
    }
  }

  /** Stepping from slot 0 arrives with the slot as ordinal, or stops early for good. */
  lemma {:induction false} StepsArrive(s: Schedule, c: CursorState, slot: nat)
    requires Valid(s) && ArithmeticCount(s) && InRange(Slot(s, slot).floor)
    requires c.slot <= slot && !c.done && c.ordinal == c.slot && Tracks(s, c, true)
    ensures var r := SteppedTo(s, c, slot);
      && r.Ok?
      && (r.value == CursorState(slot, slot, false)
          || (r.value.done && forall k: nat :: slot <= k ==> !InSeries(s, k)))
    decreases slot - c.slot
  {
    if c.slot < slot {
      FloorOrder(s, c.slot, slot);
      SlotBelowDate(s, c.slot);
      ArithmeticInspects(s, c.slot);
      StepTracks(s, c, true);
      var (next, out) := StepFrom(s, c).value;
      if !next.done {
        StepsArrive(s, next, slot);
      }
    }
  }

  lemma {:induction false} DoneYieldsNothing(s: Schedule, c: CursorState, d: CursorState, n: nat)
    requires SlotsOk(s) && c.done && d.done
    ensures Outputs(s, c, n) == Outputs(s, d, n)
  {
    if n > 0 {
      DoneYieldsNothing(s, c, d, n - 1);
    }
  }

  /** A cursor with no series slot ahead stops at its first step. */
  lemma PlacedStops(s: Schedule, slot: nat)
    requires Valid(s) && ArithmeticCount(s) && InRange(Slot(s, slot).floor)
    requires forall k: nat :: slot <= k ==> !InSeries(s, k)
    ensures var r := StepFrom(s, CursorState(slot, slot, false)); r.Ok? && r.value.0.done && r.value.1.None?
  {
    var c := CursorState(slot, slot, false);
    ArithmeticInspects(s, slot);
    ArithmeticTracks(s, slot);
    StepTracks(s, c, true);
    assert !InSeries(s, slot);
  }

  lemma PlacementIsExact(s: Schedule, slot: nat, n: nat)
    requires Valid(s) && ArithmeticCount(s) && InRange(Slot(s, slot).floor)
    ensures SteppedTo(s, ORIGIN, slot).Ok?
    ensures Outputs(s, SteppedTo(s, ORIGIN, slot).value, n) == Outputs(s, CursorState(slot, slot, false), n)
  {
    StepsArrive(s, ORIGIN, slot);
    var stepped := SteppedTo(s, ORIGIN, slot).value;
    if stepped.done && n > 0 {
      PlacedStops(s, slot);
      DoneYieldsNothing(s, stepped, StepFrom(s, CursorState(slot, slot, false)).value.0, n - 1);
    }
  }
}
