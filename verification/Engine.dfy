/** The four questions asked of a recurring event: the positions in a window, the
    fields of one position, the index of a position, and the position of an index. */
module Engine {
  import opened Basics
  import opened CivilCalendar
  import opened Zones
  import opened Rules
  import opened Schedules
  import opened SlotOrder
  import opened Series
  import opened Cursors

  const MAX_RESULTS: nat := 10_000

  datatype Generated = Generated(originalStart: Stamp, fields: Fields)

  datatype Expansion = Expansion(occurrences: seq<Generated>, hasMore: bool)

  /** The schedule of an event that carries a rule. */
  function FromEvent(event: Event): Result<Schedule>
    requires event.rule.Some? ==> RuleOk(event.rule.value)
  {
    if event.rule.None? then Err else New(event.fields, event.rule.value)
  }

  /** An event whose rule came out of the parser and whose zone is a real one. */
  ghost predicate EventOk(event: Event) {
    (event.rule.Some? ==> RuleOk(event.rule.value)) && ZoneOk(event.fields.zone)
  }

  ghost function ScheduleOf(event: Event): (s: Schedule)
    requires EventOk(event) && FromEvent(event).Ok?
    ensures Valid(s)
  {
    NewIsValid(event.fields, event.rule.value);
    FromEvent(event).value
  }

  /** The occurrence's fields; its end must stay in the supported years. */
  function FieldsAt(s: Schedule, fields: Fields, start: int): Result<Fields> {
    var end := start + s.duration;
    if !InRange(DateOfTime(end)) then Err
    else Ok(fields.(start := FormatStamp(fields.allDay, start), end := FormatStamp(fields.allDay, end)))
  }

  // ------------------------------------------------------------ windows

  /** A series slot whose occurrence overlaps the half-open window. */
  predicate Overlaps(s: Schedule, lower: int, upper: int, slot: nat)
    requires SlotsOk(s)
  {
    && InSeries(s, slot)
    && Position(s, slot).value < upper
    && lower < Position(s, slot).value + s.duration
  }

  /** The reference answer: enumerate the slots below `bound` and keep those that overlap. */
  function Matches(s: Schedule, lower: int, upper: int, bound: nat): seq<nat>
    requires SlotsOk(s)
  {
    if bound == 0 then []
    else
      var before := Matches(s, lower, upper, bound - 1);
      if Overlaps(s, lower, upper, bound - 1) then before + [bound - 1] else before
  }

  /** All overlapping slots: no series has a slot at or above DATE_LIMIT. */
  function AllMatches(s: Schedule, lower: int, upper: int): seq<nat>
    requires SlotsOk(s)
  {
    Matches(s, lower, upper, DATE_LIMIT)
  }

  lemma {:induction false} MatchesGrow(s: Schedule, lower: int, upper: int, a: nat, b: nat)
    requires SlotsOk(s) && a <= b
    ensures Matches(s, lower, upper, a) <= Matches(s, lower, upper, b)
    ensures (forall k: nat :: a <= k < b ==> !Overlaps(s, lower, upper, k)) ==>
      Matches(s, lower, upper, a) == Matches(s, lower, upper, b)
    decreases b
  {
    if a < b {
      MatchesGrow(s, lower, upper, a, b - 1);
    }
  }

  lemma {:induction false} MatchesExact(s: Schedule, lower: int, upper: int, bound: nat)
    requires SlotsOk(s)
    ensures forall k: nat :: k in Matches(s, lower, upper, bound) <==> k < bound && Overlaps(s, lower, upper, k)
    ensures StrictlySorted(Matches(s, lower, upper, bound))
  {
    if bound > 0 {
      MatchesExact(s, lower, upper, bound - 1);
      var before := Matches(s, lower, upper, bound - 1);
      assert forall i :: 0 <= i < |before| ==> before[i] in before;
    }
  }

  /** `AllMatches` lists every overlapping slot of the series, in increasing order. */
  lemma AllMatchesComplete(s: Schedule, lower: int, upper: int)
    requires Valid(s)
    ensures var m := AllMatches(s, lower, upper);
      && (forall k: nat :: k in m <==> Overlaps(s, lower, upper, k))
      && StrictlySorted(m)
  {
    MatchesExact(s, lower, upper, DATE_LIMIT);
    forall k: nat | Overlaps(s, lower, upper, k) ensures k < DATE_LIMIT {
      PositionFacts(s, k);
    }
  }

  /** Listed slots are listed in the order of their instants. */
  lemma MatchesIncrease(s: Schedule, lower: int, upper: int, i: nat, j: nat)
    requires Valid(s) && i < j < |AllMatches(s, lower, upper)|
    ensures var m := AllMatches(s, lower, upper);
      && m[i] < m[j] && InSeries(s, m[i]) && InSeries(s, m[j])
      && Position(s, m[i]).value < Position(s, m[j]).value
  {
    var m := AllMatches(s, lower, upper);
    MatchesExact(s, lower, upper, DATE_LIMIT);
    assert m[i] in m && m[j] in m;
    PositionOrder(s, m[i], m[j]);
  }

  /** When nothing overlaps from a slot on, the slots before it are all of them. */
  lemma MatchesEnd(s: Schedule, lower: int, upper: int, bound: nat)
    requires Valid(s) && Finished(s, lower, upper, bound)
    ensures Matches(s, lower, upper, bound) == AllMatches(s, lower, upper)
  {
    if bound <= DATE_LIMIT {
      MatchesGrow(s, lower, upper, bound, DATE_LIMIT);
    } else {
      forall k: nat | DATE_LIMIT <= k ensures !Overlaps(s, lower, upper, k) {
        if Overlaps(s, lower, upper, k) {
          PositionFacts(s, k);
        }
      }
      MatchesGrow(s, lower, upper, DATE_LIMIT, bound);
    }
  }

  // ------------------------------------------------------------ where expansion starts and stops

  /** The conservative seek loses no long event that reaches into the window. */
  lemma SeekLosesNothing(s: Schedule, lower: int, upper: int)
    requires Valid(s)
    ensures Matches(s, lower, upper, Seek(s, DateOfTime(lower - s.duration - 2 * DAY))) == []
  {
    var date := DateOfTime(lower - s.duration - 2 * DAY);
    var q := Seek(s, date);
    forall k: nat | k < q ensures !Overlaps(s, lower, upper, k) {
      if Overlaps(s, lower, upper, k) {
        PositionFacts(s, k);
        SeekSkipsEarlier(s, date, k);
        AtDateNear(s, Slot(s, k).date.value);
      }
    }
    MatchesGrow(s, lower, upper, 0, q);
  }

  /** Nothing from this slot on overlaps the window. */
  ghost predicate Finished(s: Schedule, lower: int, upper: int, slot: nat)
    requires SlotsOk(s)
  {
    forall k: nat :: slot <= k ==> !Overlaps(s, lower, upper, k)
  }

  /** A period that begins three days after the window's last date is past it. */
  lemma PastWindow(s: Schedule, lower: int, upper: int, slot: nat, k: nat)
    requires Valid(s) && Slot(s, slot).floor - DateOfTime(upper) > 2 && slot <= k
    ensures !Overlaps(s, lower, upper, k)
  {
    if Overlaps(s, lower, upper, k) {
      PositionFacts(s, k);
      DateAtLeastFloor(s, slot, k);
      PositionNearDate(s, k);
    }
  }

  lemma PositionNearDate(s: Schedule, slot: nat)
    requires Valid(s) && Position(s, slot).Some?
    ensures Slot(s, slot).date.Some?
    ensures Midnight(Slot(s, slot).date.value - 1) < Position(s, slot).value
  {
    PositionFacts(s, slot);
    AtDateNear(s, Slot(s, slot).date.value);
  }

  lemma PastUpper(s: Schedule, lower: int, upper: int, slot: nat)
    requires Valid(s) && Position(s, slot).Some? && upper <= Position(s, slot).value
    ensures Finished(s, lower, upper, slot)
  {
    forall k: nat | slot <= k ensures !Overlaps(s, lower, upper, k) {
      if Overlaps(s, lower, upper, k) && slot < k {
        PositionOrder(s, slot, k);
      }
    }
  }

  /** The checks made before each step; a stop loses nothing. */
  method StopsHere(s: Schedule, cursor: Cursor, lower: int, upper: int) returns (r: Result<bool>)
    requires Valid(s) && Tracks(s, cursor.State(), NeedsOrdinals(s, false)) && !cursor.done
    ensures r == Ok(true) ==> Finished(s, lower, upper, cursor.slot)
    ensures r.Err? ==> Inspect(s, cursor.slot).Err? && CandidateAt(s, cursor.slot).Err?
    ensures r == Ok(false) ==> Slot(s, cursor.slot).floor - DateOfTime(upper) <= 2
  {
    if s.rule.count.Some? && cursor.ordinal >= s.rule.count.value {
      HaltedIsFinal(s, cursor.State(), false);
      return Ok(true);
    }
    var candidate := CandidateAt(s, cursor.slot);
    if candidate.Err? {
      return Err;
    }
    if candidate.value.floor - DateOfTime(upper) > 2 {
      forall k: nat | cursor.slot <= k ensures !Overlaps(s, lower, upper, k) {
        PastWindow(s, lower, upper, cursor.slot, k);
      }
      return Ok(true);
    }
    if PastUntilDate(s, candidate.value.floor) {
      forall k: nat | cursor.slot <= k ensures !Overlaps(s, lower, upper, k) {
        PastIsFinal(s, cursor.slot, k);
      }
      return Ok(true);
    }
    return Ok(false);
  }

  /** One step of the expansion's cursor, in terms of the enumeration. */
  method Advance(s: Schedule, cursor: Cursor, budget: Budget) returns (r: Result<Option<int>>)
    requires Valid(s) && Tracks(s, cursor.State(), NeedsOrdinals(s, false)) && !cursor.done
    requires Jumps(s, false) || budget.spent == cursor.slot
    modifies cursor, budget
    ensures r.Ok? ==> old(cursor.slot) <= cursor.slot
    ensures r.Ok? ==> cursor.slot - old(cursor.slot) == budget.spent - old(budget.spent)
    ensures r.Err? ==> Inspect(s, old(cursor.slot)).Err? || CANDIDATE_BUDGET <= old(budget.spent)
    ensures r.Ok? ==>
      && Tracks(s, cursor.State(), NeedsOrdinals(s, false))
      && (Jumps(s, false) || budget.spent == cursor.slot)
      && (cursor.done || old(budget.spent) < budget.spent <= CANDIDATE_BUDGET)
    ensures r.Ok? && r.value.Some? ==> !cursor.done && cursor.slot == old(cursor.slot) + 1
    ensures r == Ok(None) ==> forall k: nat :: old(cursor.slot) <= k < cursor.slot ==> !InSeries(s, k)
    ensures r.Ok? && r.value.Some? ==>
      && InSeries(s, old(cursor.slot)) && Position(s, old(cursor.slot)) == r.value
      && (Jumps(s, false) || old(cursor.slot) < CANDIDATE_BUDGET)
  {
    ghost var before := cursor.State();
    var stepped := cursor.Step(s, budget);
    if stepped.Err? {
      return Err;
    }
    StepTracks(s, before, false);
    return Ok(if stepped.value.None? then None else Some(stepped.value.value.1));
  }

  // ------------------------------------------------------------ expand

  /** An expansion answers a window exactly: the first `limit` overlapping
      positions of the enumeration, and whether one more exists. */
  ghost predicate ExactExpansion(s: Schedule, fields: Fields, lower: int, upper: int, limit: nat, e: Expansion)
    requires SlotsOk(s)
  {
    var m := AllMatches(s, lower, upper);
    var page := First(limit, m);
    && e.hasMore == (|m| > limit)
    && GeneratedFrom(s, fields, page, e.occurrences)
  }

  /** Each occurrence is the one of the slot at the same place in `slots`. */
  ghost predicate GeneratedFrom(s: Schedule, fields: Fields, slots: seq<nat>, occurrences: seq<Generated>)
    requires SlotsOk(s)
  {
    && |occurrences| == |slots|
    && forall i :: 0 <= i < |slots| ==> GeneratedAt(s, fields, slots[i], occurrences[i])
  }

  ghost predicate GeneratedAt(s: Schedule, fields: Fields, slot: nat, g: Generated)
    requires SlotsOk(s)
  {
    && InSeries(s, slot)
    && FieldsAt(s, fields, Position(s, slot).value) == Ok(g.fields)
    && g.originalStart == g.fields.start
    && (s.rule.count.Some? && !ArithmeticCount(s) ==> slot < CANDIDATE_BUDGET)
  }

  /** The scan, begun at `from`, cannot get past slot `k`, which it reaches: the slot
      cannot be dated, its occurrence ends outside the supported years, or the budget
      that is spent from `base` on has run out. */
  ghost predicate BlockedAt(s: Schedule, fields: Fields, lower: int, upper: int, from: nat, base: nat, k: nat)
    requires SlotsOk(s)
  {
    && (k < from || Slot(s, k).floor - DateOfTime(upper) <= 2 || CandidateAt(s, k).Err?)
    && (|| Inspect(s, k).Err?
        || (Overlaps(s, lower, upper, k) && FieldsAt(s, fields, Position(s, k).value).Err?)
        || base + CANDIDATE_BUDGET <= k)
  }

  /** Where the scan of a window begins. */
  function ScanFrom(s: Schedule, lower: int): nat
    requires SeekOk(s)
  {
    Seek(s, DateOfTime(lower - s.duration - 2 * DAY))
  }

  /** Where its budget begins to be spent. */
  function BaseOf(s: Schedule, from: nat): nat {
    if Jumps(s, false) then from else 0
  }

  ghost predicate Blocked(s: Schedule, fields: Fields, lower: int, upper: int)
    requires Valid(s)
  {
    exists k: nat :: BlockedAt(s, fields, lower, upper, ScanFrom(s, lower), BaseOf(s, ScanFrom(s, lower)), k)
  }

  /** What the caller must get right. */
  predicate ArgumentsOk(event: Event, windowStart: Stamp, windowEnd: Stamp, limit: nat)
    requires EventOk(event)
  {
    && limit <= MAX_RESULTS && FromEvent(event).Ok?
    && StampInRange(windowStart) && StampInRange(windowEnd) && Boundary(windowStart) < Boundary(windowEnd)
  }

  /** An expansion that succeeds is exact, and one that fails had bad arguments or met
      a slot that it could not get past. */
  method Expand(event: Event, windowStart: Stamp, windowEnd: Stamp, limit: nat) returns (r: Result<Expansion>)
    requires EventOk(event)
    ensures r.Ok? ==>
      && ArgumentsOk(event, windowStart, windowEnd, limit)
      && ExactExpansion(ScheduleOf(event), event.fields, Boundary(windowStart), Boundary(windowEnd), limit, r.value)
    ensures r.Err? && ArgumentsOk(event, windowStart, windowEnd, limit) ==>
      Blocked(ScheduleOf(event), event.fields, Boundary(windowStart), Boundary(windowEnd))
  {
    if limit > MAX_RESULTS {
      return Err;
    }
    var schedule := FromEvent(event);
    if schedule.Err? || !StampInRange(windowStart) || !StampInRange(windowEnd) {
      return Err;
    }
    var s := schedule.value;
    NewIsValid(event.fields, event.rule.value);
    var lower, upper := Boundary(windowStart), Boundary(windowEnd);
    if lower >= upper {
      return Err;
    }
    r := ExpandSchedule(s, event.fields, lower, upper, limit);
  }

  /** What the loop has gathered from the slots below `bound`. */
  ghost predicate Gathered(s: Schedule, fields: Fields, lower: int, upper: int, limit: nat, bound: nat, gs: seq<Generated>)
    requires SlotsOk(s)
  {
    |gs| <= limit && GeneratedFrom(s, fields, Matches(s, lower, upper, bound), gs)
  }

  lemma GatherNothing(s: Schedule, fields: Fields, lower: int, upper: int, limit: nat, a: nat, b: nat, gs: seq<Generated>)
    requires SlotsOk(s) && Gathered(s, fields, lower, upper, limit, a, gs) && a <= b
    requires forall k: nat :: a <= k < b ==> !Overlaps(s, lower, upper, k)
    ensures Gathered(s, fields, lower, upper, limit, b, gs)
  {
    MatchesGrow(s, lower, upper, a, b);
  }

  lemma GatherOne(s: Schedule, fields: Fields, lower: int, upper: int, limit: nat, slot: nat, gs: seq<Generated>, g: Generated)
    requires SlotsOk(s) && Gathered(s, fields, lower, upper, limit, slot, gs) && |gs| < limit
    requires Overlaps(s, lower, upper, slot) && GeneratedAt(s, fields, slot, g)
    ensures Gathered(s, fields, lower, upper, limit, slot + 1, gs + [g])
  {
  }

  lemma GatherComplete(s: Schedule, fields: Fields, lower: int, upper: int, limit: nat, bound: nat, gs: seq<Generated>)
    requires Valid(s) && Gathered(s, fields, lower, upper, limit, bound, gs) && Finished(s, lower, upper, bound)
    ensures ExactExpansion(s, fields, lower, upper, limit, Expansion(gs, false))
  {
    MatchesEnd(s, lower, upper, bound);
  }

  lemma GatherOverflow(s: Schedule, fields: Fields, lower: int, upper: int, limit: nat, slot: nat, gs: seq<Generated>)
    requires Valid(s) && Gathered(s, fields, lower, upper, limit, slot, gs) && |gs| == limit
    requires Overlaps(s, lower, upper, slot)
    ensures ExactExpansion(s, fields, lower, upper, limit, Expansion(gs, true))
  {
    var m := Matches(s, lower, upper, slot);
    MatchesEndsBeyond(s, lower, upper, slot + 1);
    assert m + [slot] <= AllMatches(s, lower, upper);
    assert First(limit, AllMatches(s, lower, upper)) == m;
  }

  /** The seek, and then the cursor loop. */
  method ExpandSchedule(s: Schedule, fields: Fields, lower: int, upper: int, limit: nat) returns (r: Result<Expansion>)
    requires Valid(s)
    ensures r.Ok? ==> ExactExpansion(s, fields, lower, upper, limit, r.value)
    ensures r.Err? ==> Blocked(s, fields, lower, upper)
  {
    if upper <= s.start {
      BeforeStart(s, lower, upper);
      return Ok(Expansion([], false));
    }
    SeekLosesNothing(s, lower, upper);
    r := ScanWindow(s, fields, lower, upper, limit, ScanFrom(s, lower));
  }

  /** The cursor, from a slot before which nothing overlaps the window. */
  method ScanWindow(s: Schedule, fields: Fields, lower: int, upper: int, limit: nat, from: nat) returns (r: Result<Expansion>)
    requires Valid(s) && Matches(s, lower, upper, from) == []
    ensures r.Ok? ==> ExactExpansion(s, fields, lower, upper, limit, r.value)
    ensures r.Err? ==> exists k: nat :: BlockedAt(s, fields, lower, upper, from, BaseOf(s, from), k)
  {
    var budget := new Budget();
    var placed := Cursor.AtSlot(s, from, false, budget);
    if placed.Err? {
      ghost var k: nat :| k < from && Stops(s, k);
      assert BlockedAt(s, fields, lower, upper, from, BaseOf(s, from), k);
      return Err;
    }
    MatchesGrow(s, lower, upper, placed.value.slot, from);
    r := ExpandFrom(s, fields, lower, upper, limit, placed.value, budget, from, BaseOf(s, from));
  }

  datatype Verdict = Continue(occurrences: seq<Generated>) | Finish(expansion: Expansion) | Fail

  /** What becomes of one position: past the window, before it, or a result. */
  method Consider(s: Schedule, fields: Fields, lower: int, upper: int, limit: nat, start: int,
                  occurrences: seq<Generated>, ghost slot: nat)
    returns (v: Verdict)
    requires Valid(s) && InSeries(s, slot) && Position(s, slot) == Some(start)
    requires Jumps(s, false) || slot < CANDIDATE_BUDGET
    requires Gathered(s, fields, lower, upper, limit, slot, occurrences)
    ensures v.Continue? ==> Gathered(s, fields, lower, upper, limit, slot + 1, v.occurrences)
    ensures v.Finish? ==> ExactExpansion(s, fields, lower, upper, limit, v.expansion)
    ensures v.Fail? ==> Overlaps(s, lower, upper, slot) && FieldsAt(s, fields, start).Err?
  {
    if start >= upper {
      PastUpper(s, lower, upper, slot);
      GatherComplete(s, fields, lower, upper, limit, slot, occurrences);
      return Finish(Expansion(occurrences, false));
    }
    if start + s.duration <= lower {
      GatherNothing(s, fields, lower, upper, limit, slot, slot + 1, occurrences);
      return Continue(occurrences);
    }
    if |occurrences| == limit {
      GatherOverflow(s, fields, lower, upper, limit, slot, occurrences);
      return Finish(Expansion(occurrences, true));
    }
    var occurrence := FieldsAt(s, fields, start);
    if occurrence.Err? {
      return Fail;
    }
    var generated := Generated(occurrence.value.start, occurrence.value);
    GatherOne(s, fields, lower, upper, limit, slot, occurrences, generated);
    return Continue(occurrences + [generated]);
  }

  /** The state of the loop between iterations. */
  ghost predicate Looping(s: Schedule, fields: Fields, lower: int, upper: int, limit: nat,
                          c: CursorState, spent: nat, occurrences: seq<Generated>, base: nat)
    requires SlotsOk(s)
  {
    && Tracks(s, c, NeedsOrdinals(s, false))
    && (Jumps(s, false) || base == 0) && base + spent == c.slot
    && Gathered(s, fields, lower, upper, limit, c.slot, occurrences)
  }

  /** One iteration: the stop checks and then one step. */
  method Iterate(s: Schedule, fields: Fields, lower: int, upper: int, limit: nat, cursor: Cursor, budget: Budget,
                 occurrences: seq<Generated>, ghost from: nat, ghost base: nat)
    returns (v: Verdict)
    requires Valid(s) && !cursor.done
    requires Looping(s, fields, lower, upper, limit, cursor.State(), budget.spent, occurrences, base)
    modifies cursor, budget
    ensures v.Finish? ==> ExactExpansion(s, fields, lower, upper, limit, v.expansion)
    ensures v.Fail? ==> BlockedAt(s, fields, lower, upper, from, base, old(cursor.slot))
    ensures v.Continue? ==>
      && Looping(s, fields, lower, upper, limit, cursor.State(), budget.spent, v.occurrences, base)
      && (cursor.done || old(budget.spent) < budget.spent <= CANDIDATE_BUDGET)
  {
    var stop := StopsHere(s, cursor, lower, upper);
    if stop.Err? {
      return Fail;
    }
    if stop.value {
      GatherComplete(s, fields, lower, upper, limit, cursor.slot, occurrences);
      return Finish(Expansion(occurrences, false));
    }
    v := StepOnce(s, fields, lower, upper, limit, cursor, budget, occurrences, from, base);
  }

  /** One step, and what becomes of its position. */
  method StepOnce(s: Schedule, fields: Fields, lower: int, upper: int, limit: nat, cursor: Cursor, budget: Budget,
                  occurrences: seq<Generated>, ghost from: nat, ghost base: nat)
    returns (v: Verdict)
    requires Valid(s) && !cursor.done
    requires Looping(s, fields, lower, upper, limit, cursor.State(), budget.spent, occurrences, base)
    requires Slot(s, cursor.slot).floor - DateOfTime(upper) <= 2
    modifies cursor, budget
    ensures v.Finish? ==> ExactExpansion(s, fields, lower, upper, limit, v.expansion)
    ensures v.Fail? ==> BlockedAt(s, fields, lower, upper, from, base, old(cursor.slot))
    ensures v.Continue? ==>
      && Looping(s, fields, lower, upper, limit, cursor.State(), budget.spent, v.occurrences, base)
      && (cursor.done || old(budget.spent) < budget.spent <= CANDIDATE_BUDGET)
  {
    ghost var slot := cursor.slot;
    var stepped := Advance(s, cursor, budget);
    if stepped.Err? {
      return Fail;
    }
    if stepped.value.None? {
      GatherNothing(s, fields, lower, upper, limit, slot, cursor.slot, occurrences);
      return Continue(occurrences);
    }
    v := Consider(s, fields, lower, upper, limit, stepped.value.value, occurrences, slot);
  }

  /** The cursor loop. */
  method ExpandFrom(s: Schedule, fields: Fields, lower: int, upper: int, limit: nat, cursor: Cursor, budget: Budget,
                    ghost from: nat, ghost base: nat)
    returns (r: Result<Expansion>)
    requires Valid(s) && Looping(s, fields, lower, upper, limit, cursor.State(), budget.spent, [], base)
    modifies cursor, budget
    ensures r.Ok? ==> ExactExpansion(s, fields, lower, upper, limit, r.value)
    ensures r.Err? ==> exists k: nat :: BlockedAt(s, fields, lower, upper, from, base, k)
  {
    var occurrences: seq<Generated> := [];
    while !cursor.done
      invariant Looping(s, fields, lower, upper, limit, cursor.State(), budget.spent, occurrences, base)
      decreases !cursor.done, CANDIDATE_BUDGET - budget.spent
    {
      var verdict := Iterate(s, fields, lower, upper, limit, cursor, budget, occurrences, from, base);
      match verdict {
        case Fail => return Err;
        case Finish(expansion) => return Ok(expansion);
        case Continue(more) => occurrences := more;
      }
    }
    GatherComplete(s, fields, lower, upper, limit, cursor.slot, occurrences);
    return Ok(Expansion(occurrences, false));
  }

  /** Nothing overlaps a window that ends by the start. */
  lemma BeforeStart(s: Schedule, lower: int, upper: int)
    requires Valid(s) && upper <= s.start
    ensures AllMatches(s, lower, upper) == []
  {
    forall k: nat | k < DATE_LIMIT ensures !Overlaps(s, lower, upper, k) {
      if Overlaps(s, lower, upper, k) {
        PositionFacts(s, k);
      }
    }
    MatchesGrow(s, lower, upper, 0, DATE_LIMIT);
  }

  /** Matches found so far are the beginning of all matches. */
  lemma MatchesEndsBeyond(s: Schedule, lower: int, upper: int, bound: nat)
    requires Valid(s)
    ensures Matches(s, lower, upper, bound) <= AllMatches(s, lower, upper)
  {
    if bound <= DATE_LIMIT {
      MatchesGrow(s, lower, upper, bound, DATE_LIMIT);
    } else {
      MatchesGrow(s, lower, upper, DATE_LIMIT, bound);
      forall k: nat | DATE_LIMIT <= k ensures !Overlaps(s, lower, upper, k) {
        if Overlaps(s, lower, upper, k) {
          PositionFacts(s, k);
        }
      }
    }
  }
}
