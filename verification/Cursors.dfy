/** The budgeted cursor: one slot inspected per step. */
module Cursors {
  import opened Basics
  import opened CivilCalendar
  import opened Zones
  import opened Schedules
  import opened SlotOrder
  import opened Series

  const CANDIDATE_BUDGET: nat := 200_000

  /** What one slot turns out to be. */
  datatype Outcome = Past | Skip | Hit(time: int)

  function Inspect(s: Schedule, slot: nat): Result<Outcome>
    requires SlotsOk(s)
  {
    var candidate :- CandidateAt(s, slot);
    if PastUntilDate(s, candidate.floor) then Ok(Past)
    else if candidate.date.None? then Ok(Skip)
    else
      var time :- AtDate(s, candidate.date.value);
      if time.None? then Ok(Skip)
      else if !WithinUntil(s, time.value, candidate.date.value) then Ok(Past)
      else Ok(Hit(time.value))
  }

  /** A slot in the series' reach is never mistaken for one past UNTIL. */
  lemma WithinIsNotPast(s: Schedule, slot: nat)
    requires Valid(s) && Position(s, slot).Some?
    ensures !PastUntilDate(s, Slot(s, slot).floor)
    ensures CandidateAt(s, slot) == Ok(Slot(s, slot))
  {
    PositionFacts(s, slot);
    DateAtLeastFloor(s, slot, slot);
    AtDateNear(s, Slot(s, slot).date.value);
  }

  /** The cursor hits exactly the positions of the reference enumeration. */
  lemma InspectHits(s: Schedule, slot: nat, time: int)
    requires Valid(s)
    ensures Inspect(s, slot) == Ok(Hit(time)) <==> Position(s, slot) == Some(time)
  {
    if Position(s, slot) == Some(time) {
      WithinIsNotPast(s, slot);
    }
  }

  /** Once a slot is past UNTIL, no later slot is a position. */
  lemma PastIsFinal(s: Schedule, slot: nat, later: nat)
    requires Valid(s) && Inspect(s, slot) == Ok(Past) && slot <= later
    ensures Position(s, later).None?
  {
    if Position(s, later).Some? {
      WithinIsNotPast(s, later);
      PositionFacts(s, later);
      FloorOrder(s, slot, later);
      if !PastUntilDate(s, Slot(s, slot).floor) && slot < later {
        var a, b := Slot(s, slot).date.value, Slot(s, later).date.value;
        SlotDatesFromStart(s, slot);
        DateOrder(s, slot, later);
        AtDateOrder(s, a, b);
      }
    }
  }

  /** Walking towards a position meets no failure and no early end. */
  lemma ReachesPosition(s: Schedule, slot: nat, later: nat)
    requires Valid(s) && slot <= later && Position(s, later).Some?
    ensures Inspect(s, slot).Ok? && !Inspect(s, slot).value.Past?
  {
    PositionFacts(s, later);
    DateAtLeastFloor(s, slot, later);
    if Inspect(s, slot) == Ok(Past) {
      PastIsFinal(s, slot, later);
    }
    var date := Slot(s, slot).date;
    if date.Some? && slot < later {
      DateOrder(s, slot, later);
      SlotDatesFromStart(s, slot);
      InstantsBetween(s, date.value, Slot(s, later).date.value);
    }
  }

  /** Between the start and a date in range, instants stay in range. */
  lemma InstantsBetween(s: Schedule, date: int, later: int)
    requires Valid(s) && s.startDate <= date <= later && InRange(later)
    requires AtDate(s, later).Ok? && AtDate(s, later).value.Some?
    ensures AtDate(s, date).Ok?
  {
    if date != s.startDate && date != later && !s.allDay {
      var r := s.zone.resolve(Midnight(date) + s.timeOfDay);
      if r.Earliest().Some? {
        var t, u := r.Earliest().value, AtDate(s, later).value.value;
        EarliestShows(s.zone, date, s.timeOfDay);
        AtDateNear(s, later);
        LaterDateIsLater(s.zone, s.startDate, date, s.timeOfDay, s.start, t);
        LaterDateIsLater(s.zone, date, later, s.timeOfDay, t, u);
      }
    }
  }

  // ------------------------------------------------------------ cursor states

  datatype CursorState = CursorState(slot: nat, ordinal: nat, done: bool)

  const ORIGIN: CursorState := CursorState(0, 0, false)

  predicate Halted(s: Schedule, c: CursorState) {
    c.done || (s.rule.count.Some? && c.ordinal >= s.rule.count.value)
  }

  /** One step of the cursor, without the work budget. */
  function StepFrom(s: Schedule, c: CursorState): Result<(CursorState, Option<(nat, int)>)>
    requires SlotsOk(s)
  {
    if Halted(s, c) then Ok((c.(done := true), None))
    else
      var outcome :- Inspect(s, c.slot);
      Ok(match outcome
         case Past => (CursorState(c.slot + 1, c.ordinal, true), None)
         case Skip => (CursorState(c.slot + 1, c.ordinal, false), None)
         case Hit(t) => (CursorState(c.slot + 1, c.ordinal + 1, false), Some((c.ordinal, t))))
  }

  /** The cursor agrees with the enumeration from slot 0: a finished cursor has no
      series slot ahead of it, and a live one that tracks ordinals counts right. */
  ghost predicate Tracks(s: Schedule, c: CursorState, ordinals: bool)
    requires SlotsOk(s)
  {
    && (c.done ==> forall k: nat :: c.slot <= k ==> !InSeries(s, k))
    && (!c.done && ordinals ==>
          forall k: nat :: c.slot <= k && Position(s, k).Some? ==> c.ordinal == Ordinal(s, c.slot))
  }

  /** Whether the cursor must know ordinals: COUNT applies, or the caller asks. */
  predicate NeedsOrdinals(s: Schedule, asked: bool) {
    asked || s.rule.count.Some?
  }

  lemma HaltedIsFinal(s: Schedule, c: CursorState, asked: bool)
    requires Valid(s) && Tracks(s, c, NeedsOrdinals(s, asked)) && Halted(s, c)
    ensures forall k: nat :: c.slot <= k ==> !InSeries(s, k)
  {
    forall k: nat | c.slot <= k ensures !InSeries(s, k) {
      if !c.done && InSeries(s, k) {
        OrdinalOrder(s, c.slot, k);
      }
    }
  }

  /** A step keeps the cursor in agreement with the enumeration, and yields
      exactly the position of the slot it passes, under its ordinal. */
  lemma StepTracks(s: Schedule, c: CursorState, asked: bool)
    requires Valid(s) && Tracks(s, c, NeedsOrdinals(s, asked)) && StepFrom(s, c).Ok?
    ensures Tracks(s, StepFrom(s, c).value.0, NeedsOrdinals(s, asked))
    ensures var (next, out) := StepFrom(s, c).value;
      && (next.done ==> forall k: nat :: c.slot <= k ==> !InSeries(s, k))
      && (out.None? ==> !InSeries(s, c.slot))
      && (out.Some? ==> InSeries(s, c.slot) && Position(s, c.slot) == Some(out.value.1))
      && (out.Some? && NeedsOrdinals(s, asked) ==> out.value.0 == Ordinal(s, c.slot))
  {
    var (next, out) := StepFrom(s, c).value;
    if Halted(s, c) {
      HaltedIsFinal(s, c, asked);
    } else {
      var outcome := Inspect(s, c.slot).value;
      if outcome.Past? {
        forall k: nat | c.slot <= k ensures !InSeries(s, k) {
          PastIsFinal(s, c.slot, k);
        }
      } else {
        if outcome.Hit? {
          InspectHits(s, c.slot, outcome.time);
        } else if Position(s, c.slot).Some? {
          InspectHits(s, c.slot, Position(s, c.slot).value);
        }
        assert Ordinal(s, next.slot) == Ordinal(s, c.slot) + if Position(s, c.slot).Some? then 1 else 0;
      }
    }
  }

  /** Towards a slot of the series the cursor neither fails nor stops. */
  lemma StepAdvances(s: Schedule, c: CursorState, asked: bool, target: nat)
    requires Valid(s) && Tracks(s, c, NeedsOrdinals(s, asked)) && !c.done
    requires c.slot <= target && InSeries(s, target)
    ensures !Halted(s, c) && StepFrom(s, c).Ok?
    ensures StepFrom(s, c).value.0.slot == c.slot + 1 && !StepFrom(s, c).value.0.done
  {
    if Halted(s, c) {
      HaltedIsFinal(s, c, asked);
    }
    ReachesPosition(s, c.slot, target);
  }

  // ------------------------------------------------------------ arithmetic counting

  lemma ArithmeticNeverSkips(s: Schedule, slot: nat)
    requires Valid(s) && ArithmeticCount(s)
    ensures Inspect(s, slot) != Ok(Skip)
  {
  }

  /** With one occurrence per slot, the slot number is the ordinal. */
  lemma {:induction false} ArithmeticOrdinal(s: Schedule, slot: nat, later: nat)
    requires Valid(s) && ArithmeticCount(s) && slot <= later && Position(s, later).Some?
    ensures Ordinal(s, slot) == slot
  {
    if slot > 0 {
      ArithmeticOrdinal(s, slot - 1, later);
      ReachesPosition(s, slot - 1, later);
      ArithmeticNeverSkips(s, slot - 1);
      InspectHits(s, slot - 1, Inspect(s, slot - 1).value.time);
    }
  }

  lemma ArithmeticTracks(s: Schedule, slot: nat)
    requires Valid(s) && ArithmeticCount(s)
    ensures Tracks(s, CursorState(slot, slot, false), true)
  {
    forall k: nat | slot <= k && Position(s, k).Some? ensures slot == Ordinal(s, slot) {
      ArithmeticOrdinal(s, slot, k);
    }
  }

  // ------------------------------------------------------------ the running objects

  class Budget {
    var spent: nat

    constructor ()
      ensures spent == 0
    {
      spent := 0;
    }

    method Spend() returns (ok: bool)
      modifies this
      ensures ok == (old(spent) < CANDIDATE_BUDGET)
      ensures spent == old(spent) + if ok then 1 else 0
    {
      ok := spent < CANDIDATE_BUDGET;
      if ok {
        spent := spent + 1;
      }
    }
  }

  /** Stepping from slot 0 fails here: the slot cannot be dated, or the budget is spent. */
  predicate Stops(s: Schedule, k: nat)
    requires SlotsOk(s)
  {
    Inspect(s, k).Err? || CANDIDATE_BUDGET <= k
  }

  /** Whether a cursor may be placed without stepping from slot 0. */
  predicate Jumps(s: Schedule, asked: bool) {
    ArithmeticCount(s) || !NeedsOrdinals(s, asked)
  }

  class Cursor {
    var slot: nat
    var ordinal: nat
    var done: bool

    ghost function State(): CursorState
      reads this
    {
      CursorState(slot, ordinal, done)
    }

    constructor (slot: nat, ordinal: nat)
      ensures State() == CursorState(slot, ordinal, false)
    {
      this.slot, this.ordinal, this.done := slot, ordinal, false;
    }

    /** Inspect precisely one slot, within the budget. */
    method Step(s: Schedule, budget: Budget) returns (r: Result<Option<(nat, int)>>)
      requires SlotsOk(s)
      modifies this, budget
      ensures Halted(s, old(State())) ==>
        r == Ok(None) && State() == old(State()).(done := true) && budget.spent == old(budget.spent)
      ensures !Halted(s, old(State())) ==>
        (r.Ok? <==> old(budget.spent) < CANDIDATE_BUDGET && StepFrom(s, old(State())).Ok?)
      ensures !Halted(s, old(State())) && r.Ok? ==>
        budget.spent == old(budget.spent) + 1 && StepFrom(s, old(State())) == Ok((State(), r.value))
    {
      if done || (s.rule.count.Some? && ordinal >= s.rule.count.value) {
        done := true;
        return Ok(None);
      }
      var paid := budget.Spend();
      if !paid {
        return Err;
      }
      var candidate := CandidateAt(s, slot);
      if candidate.Err? {
        return Err;
      }
      slot := slot + 1;
      if PastUntilDate(s, candidate.value.floor) {
        done := true;
        return Ok(None);
      }
      if candidate.value.date.None? {
        return Ok(None);
      }
      var date := candidate.value.date.value;
      var time := AtDate(s, date);
      if time.Err? {
        return Err;
      }
      if time.value.None? {
        return Ok(None);
      }
      if !WithinUntil(s, time.value.value, date) {
        done := true;
        return Ok(None);
      }
      var index := ordinal;
      ordinal := ordinal + 1;
      return Ok(Some((index, time.value.value)));
    }

    /** A cursor at a slot: placed there arithmetically, or stepped from slot 0. */
    static method AtSlot(s: Schedule, target: nat, asked: bool, budget: Budget) returns (r: Result<Cursor>)
      requires Valid(s) && budget.spent == 0
      modifies budget
      ensures r.Ok? ==>
        && fresh(r.value)
        && Tracks(s, r.value.State(), NeedsOrdinals(s, asked))
        && r.value.slot <= target && (r.value.done || r.value.slot == target) && (Jumps(s, asked) ==> r.value.slot == target)
        && budget.spent == if Jumps(s, asked) then 0 else r.value.slot
      ensures (exists k: nat :: target <= k && InSeries(s, k)) && (Jumps(s, asked) || target <= CANDIDATE_BUDGET) ==>
        r.Ok? && !r.value.done
      ensures r.Err? ==> !Jumps(s, asked) && exists k: nat :: k < target && Stops(s, k)
    {
      if ArithmeticCount(s) || (!asked && s.rule.count.None?) {
        var placed := new Cursor(target, if ArithmeticCount(s) then target else 0);
        if ArithmeticCount(s) {
          ArithmeticTracks(s, target);
        }
        return Ok(placed);
      }
      r := StepTo(s, target, asked, budget);
    }

    static method StepTo(s: Schedule, target: nat, asked: bool, budget: Budget) returns (r: Result<Cursor>)
      requires Valid(s) && budget.spent == 0
      modifies budget
      ensures r.Ok? ==>
        && fresh(r.value)
        && Tracks(s, r.value.State(), NeedsOrdinals(s, asked))
        && r.value.slot <= target && (r.value.done || r.value.slot == target)
        && budget.spent == r.value.slot
      ensures (exists k: nat :: target <= k && InSeries(s, k)) && target <= CANDIDATE_BUDGET ==> r.Ok? && !r.value.done
      ensures r.Err? ==> exists k: nat :: k < target && Stops(s, k)
    {
      var cursor := new Cursor(0, 0);
      while cursor.slot < target && !cursor.done
        invariant cursor.slot <= target && budget.spent == cursor.slot
        invariant Tracks(s, cursor.State(), NeedsOrdinals(s, asked))
        invariant (exists k: nat :: target <= k && InSeries(s, k)) ==> !cursor.done
        decreases target - cursor.slot, !cursor.done
      {
        ghost var before := cursor.State();
        if k: nat :| target <= k && InSeries(s, k) {
          StepAdvances(s, before, asked, k);
        }
        var stepped := cursor.Step(s, budget);
        if stepped.Err? {
          assert Stops(s, before.slot);
          return Err;
        }
        StepTracks(s, before, asked);
      }
      return Ok(cursor);
    }
  }
}
