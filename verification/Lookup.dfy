/** Single-position questions: resolving an original start, the index of a start,
    and the start of an index. */
module Lookup {
  import opened Basics
  import opened Zones
  import opened Rules
  import opened Schedules
  import opened SlotOrder
  import opened Series
  import opened Cursors
  import opened Engine

  // ------------------------------------------------------------ the answers

  /** A start names an instant when it is written in the event's own form. */
  predicate Names(s: Schedule, start: Stamp, time: int) {
    StampFits(s.allDay, start) && StampInRange(start) && Boundary(start) == time
  }

  /** The slot `slot` is the series position named by `start`. */
  predicate NamedSlot(s: Schedule, start: Stamp, slot: nat)
    requires SlotsOk(s)
  {
    InSeries(s, slot) && Names(s, start, Position(s, slot).value)
  }

  /** Slots whose ordinal is counted within the work budget. */
  predicate Countable(s: Schedule, slot: nat) {
    ArithmeticCount(s) || slot < CANDIDATE_BUDGET
  }

  ghost predicate Resolves(s: Schedule, fields: Fields, start: Stamp, occurrence: Fields)
    requires SlotsOk(s)
  {
    exists slot: nat ::
      && NamedSlot(s, start, slot)
      && (s.rule.count.Some? ==> Countable(s, slot))
      && FieldsAt(s, fields, Position(s, slot).value) == Ok(occurrence)
  }

  ghost predicate HasIndex(s: Schedule, start: Stamp, index: nat)
    requires SlotsOk(s)
  {
    exists slot: nat :: NamedSlot(s, start, slot) && Countable(s, slot) && Ordinal(s, slot) == index
  }

  ghost predicate HasPosition(s: Schedule, index: nat, start: Stamp)
    requires SlotsOk(s)
  {
    exists slot: nat :: Sought(s, index, slot) && start == FormatStamp(s.allDay, Position(s, slot).value)
  }

  /** The slot of an index. */
  predicate Sought(s: Schedule, index: nat, slot: nat)
    requires SlotsOk(s)
  {
    InSeries(s, slot) && Countable(s, slot) && Ordinal(s, slot) == index
  }

  // ------------------------------------------------------------ the theorems

  /** A position written out names its own slot. */
  lemma FormattedNames(s: Schedule, slot: nat)
    requires Valid(s) && InSeries(s, slot)
    ensures NamedSlot(s, FormatStamp(s.allDay, Position(s, slot).value), slot)
  {
    PositionFacts(s, slot);
    AtDateNear(s, Slot(s, slot).date.value);
  }

  /** A start that is accepted is already in the form positions are written in. */
  lemma NamedIsFormatted(s: Schedule, start: Stamp, slot: nat)
    requires Valid(s) && NamedSlot(s, start, slot)
    ensures start == FormatStamp(s.allDay, Position(s, slot).value)
  {
  }

  lemma PositionThenIndex(s: Schedule, index: nat, start: Stamp)
    requires Valid(s) && HasPosition(s, index, start)
    ensures HasIndex(s, start, index)
  {
    var slot: nat :| Sought(s, index, slot) && start == FormatStamp(s.allDay, Position(s, slot).value);
    FormattedNames(s, slot);
  }

  lemma IndexThenPosition(s: Schedule, start: Stamp, index: nat)
    requires Valid(s) && HasIndex(s, start, index)
    ensures HasPosition(s, index, start)
  {
    var slot: nat :| NamedSlot(s, start, slot) && Countable(s, slot) && Ordinal(s, slot) == index;
    NamedIsFormatted(s, start, slot);
    assert Sought(s, index, slot);
  }

  /** Positions increase strictly with their index; so each index has one position. */
  lemma PositionsIncrease(s: Schedule, i: nat, p: Stamp, j: nat, q: Stamp)
    requires Valid(s) && HasPosition(s, i, p) && HasPosition(s, j, q)
    ensures i < j <==> Boundary(p) < Boundary(q)
  {
    var a := PositionSlot(s, i, p);
    var b := PositionSlot(s, j, q);
    SlotsCompare(s, a, b);
  }

  lemma PositionUnique(s: Schedule, index: nat, p: Stamp, q: Stamp)
    requires Valid(s) && HasPosition(s, index, p) && HasPosition(s, index, q)
    ensures p == q
  {
    var a := PositionSlot(s, index, p);
    var b := PositionSlot(s, index, q);
    OrdinalInjective(s, a, b);
  }

  /** Slots, ordinals and instants of positions compare alike. */
  lemma SlotsCompare(s: Schedule, a: nat, b: nat)
    requires Valid(s) && Position(s, a).Some? && Position(s, b).Some?
    ensures a < b <==> Ordinal(s, a) < Ordinal(s, b)
    ensures a < b <==> Position(s, a).value < Position(s, b).value
  {
    if a < b {
      PositionOrder(s, a, b);
      OrdinalOrder(s, a, b);
    } else if b < a {
      PositionOrder(s, b, a);
      OrdinalOrder(s, b, a);
    }
  }

  lemma PositionSlot(s: Schedule, index: nat, start: Stamp) returns (slot: nat)
    requires Valid(s) && HasPosition(s, index, start)
    ensures Position(s, slot) == Some(Boundary(start)) && Ordinal(s, slot) == index
    ensures start == FormatStamp(s.allDay, Boundary(start))
  {
    slot :| Sought(s, index, slot) && start == FormatStamp(s.allDay, Position(s, slot).value);
    FormattedNames(s, slot);
  }

  /** Everything an expansion returns is accepted by `Resolve`, with the same fields. */
  lemma ExpandedResolves(s: Schedule, fields: Fields, lower: int, upper: int, limit: nat, e: Expansion, i: nat)
    requires Valid(s) && fields.allDay == s.allDay
    requires ExactExpansion(s, fields, lower, upper, limit, e) && i < |e.occurrences|
    ensures Resolves(s, fields, e.occurrences[i].originalStart, e.occurrences[i].fields)
  {
    var slot := First(limit, AllMatches(s, lower, upper))[i];
    var g := e.occurrences[i];
    assert GeneratedAt(s, fields, slot, g);
    FormattedNames(s, slot);
  }

  // ------------------------------------------------------------ finding a slot

  /** The local date of an instant: the date its position would be looked up under. */
  function LookupDate(s: Schedule, time: int): int {
    DateOfTime(if s.allDay then time else s.zone.ToLocal(time))
  }

  lemma PositionLookupDate(s: Schedule, slot: nat)
    requires Valid(s) && Position(s, slot).Some?
    ensures Slot(s, slot).date == Some(LookupDate(s, Position(s, slot).value))
  {
    PositionFacts(s, slot);
    AtDateNear(s, Slot(s, slot).date.value);
  }

  /** No slot from `slot` on is the position at `time`. */
  ghost predicate NoneFrom(s: Schedule, slot: nat, time: int)
    requires SlotsOk(s)
  {
    forall k: nat :: slot <= k ==> Position(s, k) != Some(time)
  }

  lemma FloorBeyondEnds(s: Schedule, slot: nat, time: int)
    requires Valid(s) && Slot(s, slot).floor > LookupDate(s, time)
    ensures NoneFrom(s, slot, time)
  {
    forall k: nat | slot <= k ensures Position(s, k) != Some(time) {
      if Position(s, k) == Some(time) {
        PositionLookupDate(s, k);
        DateAtLeastFloor(s, slot, k);
      }
    }
  }

  lemma WrongInstantEnds(s: Schedule, slot: nat, time: int)
    requires Valid(s) && Slot(s, slot).date == Some(LookupDate(s, time)) && Position(s, slot) != Some(time)
    ensures NoneFrom(s, slot, time)
  {
    forall k: nat | slot <= k ensures Position(s, k) != Some(time) {
      if Position(s, k) == Some(time) {
        PositionLookupDate(s, k);
        if slot < k {
          DateOrder(s, slot, k);
        }
      }
    }
  }

  lemma SeekWindow(s: Schedule, time: int)
    requires Valid(s)
    ensures forall k: nat :: Position(s, k) == Some(time) ==>
      Seek(s, LookupDate(s, time)) <= k < Seek(s, LookupDate(s, time)) + Attempts(s)
  {
    forall k: nat | Position(s, k) == Some(time)
      ensures Seek(s, LookupDate(s, time)) <= k < Seek(s, LookupDate(s, time)) + Attempts(s)
    {
      PositionLookupDate(s, k);
      SeekFinds(s, k);
    }
  }

  /** Find the slot of an original start, COUNT aside. */
  method TargetSlot(s: Schedule, start: Stamp) returns (r: Result<(nat, int)>)
    requires Valid(s)
    ensures r.Ok? ==> Names(s, start, r.value.1) && Position(s, r.value.0) == Some(r.value.1)
    ensures r.Err? && StampFits(s.allDay, start) && StampInRange(start) ==> NoneFrom(s, 0, Boundary(start))
  {
    if !StampFits(s.allDay, start) || !StampInRange(start) {
      return Err;
    }
    var target := Boundary(start);
    if target < s.start {
      forall k: nat | Position(s, k).Some? ensures Position(s, k).value != target {
        PositionFacts(s, k);
      }
      return Err;
    }
    var date := LookupDate(s, target);
    var slot := Seek(s, date);
    var last := slot + Attempts(s);
    SeekWindow(s, target);
    while slot < last
      invariant slot <= last
      invariant forall k: nat :: k < slot ==> Position(s, k) != Some(target)
    {
      var candidate := CandidateAt(s, slot);
      if candidate.Err? {
        BeyondLibrary(s, slot, target);
        return Err;
      }
      if candidate.value.date == Some(date) {
        if AtDate(s, date) == Ok(Some(target)) && WithinUntil(s, target, date) {
          return Ok((slot, target));
        }
        WrongInstantEnds(s, slot, target);
        return Err;
      }
      if candidate.value.floor > date {
        FloorBeyondEnds(s, slot, target);
        return Err;
      }
      assert Position(s, slot) != Some(target) by {
        if Position(s, slot) == Some(target) {
          PositionLookupDate(s, slot);
        }
      }
      slot := slot + 1;
    }
    return Err;
  }

  /** Dates the library cannot represent are no positions. */
  lemma BeyondLibrary(s: Schedule, slot: nat, time: int)
    requires Valid(s) && CandidateAt(s, slot).Err?
    ensures NoneFrom(s, slot, time)
  {
    forall k: nat | slot <= k ensures Position(s, k) != Some(time) {
      if Position(s, k) == Some(time) {
        PositionFacts(s, k);
        DateAtLeastFloor(s, slot, k);
      }
    }
  }

  /** Count up to a slot: its ordinal, when the slot is in the series and in budget. */
  method OrdinalAt(s: Schedule, slot: nat) returns (r: Result<nat>)
    requires Valid(s) && Position(s, slot).Some?
    ensures r.Ok? <==> InSeries(s, slot) && Countable(s, slot)
    ensures r.Ok? ==> r.value == Ordinal(s, slot)
  {
    var budget := new Budget();
    var placed := Cursor.AtSlot(s, slot, true, budget);
    if placed.Err? {
      return Err;
    }
    var cursor := placed.value;
    ghost var before := cursor.State();
    if InSeries(s, slot) && Countable(s, slot) {
      StepAdvances(s, before, true, slot);
    }
    var stepped := cursor.Step(s, budget);
    if stepped.Err? {
      return Err;
    }
    StepTracks(s, before, true);
    if stepped.value.None? {
      return Err;
    }
    return Ok(stepped.value.value.0);
  }

  // ------------------------------------------------------------ the questions

  method Resolve(s: Schedule, fields: Fields, start: Stamp) returns (r: Result<Fields>)
    requires Valid(s)
    ensures r.Ok? ==> Resolves(s, fields, start, r.value)
    ensures r.Err? ==> forall f :: !Resolves(s, fields, start, f)
  {
    var target := TargetSlot(s, start);
    if target.Err? {
      return Err;
    }
    var slot := target.value.0;
    forall k: nat | NamedSlot(s, start, k) ensures k == slot {
      PositionInjective(s, k, slot);
    }
    if s.rule.count.Some? {
      var ordinal := OrdinalAt(s, slot);
      if ordinal.Err? {
        return Err;
      }
    }
    return FieldsAt(s, fields, target.value.1);
  }

  method OccurrenceIndex(s: Schedule, start: Stamp) returns (r: Result<nat>)
    requires Valid(s)
    ensures r.Ok? ==> HasIndex(s, start, r.value) && r.value < 0x1_0000_0000
    ensures r.Err? ==> forall i: nat :: !HasIndex(s, start, i)
  {
    var target := TargetSlot(s, start);
    if target.Err? {
      return Err;
    }
    var slot := target.value.0;
    forall k: nat | NamedSlot(s, start, k) ensures k == slot {
      PositionInjective(s, k, slot);
    }
    PositionFacts(s, slot);
    OrdinalOrder(s, 0, slot);
    r := OrdinalAt(s, slot);
  }

  /** The sought slot, if there is one, is not yet behind `slot`. */
  ghost predicate Ahead(s: Schedule, index: nat, slot: nat)
    requires SlotsOk(s)
  {
    forall k: nat :: Sought(s, index, k) ==> slot <= k
  }

  /** A cursor and budget on the way to an index. */
  ghost predicate Searching(s: Schedule, index: nat, c: CursorState, spent: nat)
    requires SlotsOk(s)
  {
    && Tracks(s, c, true) && Ahead(s, index, c.slot)
    && (!c.done ==> if ArithmeticCount(s) then c.slot == index && spent == 0 else spent == c.slot)
  }

  /** A failing step cannot be on the way to the sought slot. */
  lemma SearchFails(s: Schedule, index: nat, c: CursorState, spent: nat, k: nat)
    requires Valid(s) && Searching(s, index, c, spent) && !c.done && !Halted(s, c)
    requires !(spent < CANDIDATE_BUDGET && StepFrom(s, c).Ok?)
    ensures !Sought(s, index, k)
  {
    if Sought(s, index, k) {
      StepAdvances(s, c, true, k);
    }
  }

  /** A step that does not yield the index leaves the sought slot ahead. */
  lemma SearchGoesOn(s: Schedule, index: nat, c: CursorState, spent: nat)
    requires Valid(s) && Searching(s, index, c, spent) && !c.done && StepFrom(s, c).Ok?
    requires StepFrom(s, c).value.1.Some? ==> StepFrom(s, c).value.1.value.0 != index
    ensures Searching(s, index, StepFrom(s, c).value.0, spent + 1)
    ensures ArithmeticCount(s) ==> StepFrom(s, c).value.0.done
  {
    StepTracks(s, c, true);
    if ArithmeticCount(s) && !Halted(s, c) {
      ArithmeticNeverSkips(s, c.slot);
      if Inspect(s, c.slot).value.Hit? {
        InspectHits(s, c.slot, Inspect(s, c.slot).value.time);
        ArithmeticOrdinal(s, c.slot, c.slot);
      }
    }
  }

  lemma SearchFinds(s: Schedule, index: nat, c: CursorState, spent: nat)
    requires Valid(s) && Searching(s, index, c, spent) && !c.done && StepFrom(s, c).Ok?
    requires spent < CANDIDATE_BUDGET
    requires StepFrom(s, c).value.1.Some? && StepFrom(s, c).value.1.value.0 == index
    ensures HasPosition(s, index, FormatStamp(s.allDay, StepFrom(s, c).value.1.value.1))
  {
    StepTracks(s, c, true);
    assert Sought(s, index, c.slot);
  }

  lemma SearchStarts(s: Schedule, index: nat)
    requires Valid(s)
    ensures var from := if ArithmeticCount(s) then index else 0; Searching(s, index, CursorState(from, from, false), 0)
  {
    if ArithmeticCount(s) {
      ArithmeticTracks(s, index);
      forall k: nat | Sought(s, index, k) ensures index <= k {
        OrdinalOrder(s, 0, k);
      }
    }
  }

  method PositionAt(s: Schedule, index: nat) returns (r: Result<Stamp>)
    requires Valid(s)
    ensures r.Ok? ==> HasPosition(s, index, r.value)
    ensures r.Err? ==> forall p :: !HasPosition(s, index, p)
  {
    if s.rule.count.Some? && index >= s.rule.count.value {
      assert forall k: nat :: !Sought(s, index, k);
      return Err;
    }
    r := Search(s, index);
  }

  /** The cursor loop of `PositionAt`. */
  method Search(s: Schedule, index: nat) returns (r: Result<Stamp>)
    requires Valid(s)
    ensures r.Ok? ==> HasPosition(s, index, r.value)
    ensures r.Err? ==> forall k: nat :: !Sought(s, index, k)
  {
    var budget := new Budget();
    var from := if ArithmeticCount(s) then index else 0;
    var cursor := new Cursor(from, from);
    SearchStarts(s, index);
    while !cursor.done
      invariant Searching(s, index, cursor.State(), budget.spent)
      decreases !cursor.done, CANDIDATE_BUDGET - budget.spent
    {
      ghost var before, spent := cursor.State(), budget.spent;
      var stepped := cursor.Step(s, budget);
      if stepped.Err? {
        forall k: nat ensures !Sought(s, index, k) {
          SearchFails(s, index, before, spent, k);
        }
        return Err;
      }
      if stepped.value.Some? && stepped.value.value.0 == index {
        SearchFinds(s, index, before, spent);
        return Ok(FormatStamp(s.allDay, stepped.value.value.1));
      }
      SearchGoesOn(s, index, before, spent);
    }
    assert forall k: nat :: !Sought(s, index, k);
    return Err;
  }
}
