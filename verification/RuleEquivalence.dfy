/** Deciding whether two rules of the same event generate the same positions. */
module RuleEquivalence {
  import opened Basics
  import opened Zones
  import opened Rules
  import opened Schedules
  import opened Series
  import opened Engine
  import opened RuleShift

  /** Two events with the same start, end, day mode and zone. */
  ghost predicate SameTimes(f: Fields, g: Fields) {
    f.start == g.start && f.end == g.end && f.allDay == g.allDay && f.zone == g.zone
  }

  /** The first instant that a cutoff excludes; a local midnight must be unambiguous. */
  function ExclusiveEnd(fields: Fields, until: Until): Result<int> {
    match until
    case UntilDate(date) =>
      if fields.allDay then Ok(Midnight(date + 1))
      else
        (match fields.zone.resolve(Midnight(date + 1))
         case Single(time) => Ok(time)
         case _ => Err)
    case UntilInstant(seconds) => Ok(Seconds(seconds) + 1)
  }

  // ------------------------------------------------------------ cutoffs

  /** `s` is the schedule `u` of the unbounded rule, cut off by an UNTIL. */
  ghost predicate CutOff(u: Schedule, s: Schedule, until: Until) {
    && Valid(u) && Valid(s)
    && u.rule.until.None? && u.rule.count.None?
    && s == u.(rule := u.rule.(until := Some(until)))
    && (until.UntilInstant? ==> !u.allDay)
  }

  lemma CutOffSlots(u: Schedule, s: Schedule, until: Until, slot: nat)
    requires CutOff(u, s, until)
    ensures Slot(s, slot) == Slot(u, slot)
    ensures Position(s, slot).Some? ==> Position(u, slot) == Position(s, slot)
    ensures InSeries(u, slot) <==> Position(u, slot).Some?
    ensures InSeries(s, slot) <==> Position(s, slot).Some?
  {
  }

  /** Exactly the positions before the exclusive end survive the cutoff. */
  lemma CutOffIsExclusive(u: Schedule, s: Schedule, until: Until, f: Fields, end: int, slot: nat)
    requires CutOff(u, s, until) && f.allDay == u.allDay && f.zone == u.zone
    requires ExclusiveEnd(f, until) == Ok(end) && Position(u, slot).Some?
    ensures Position(s, slot).Some? <==> Position(u, slot).value < end
  {
    var t := Position(u, slot).value;
    PositionFacts(u, slot);
    CutOffSlots(u, s, until, slot);
    var date := Slot(u, slot).date.value;
    AtDateNear(u, date);
    if until.UntilDate? && !u.allDay {
      MidnightSplits(u.zone, until.date + 1, end, t);
    }
    assert AtDate(s, date) == AtDate(u, date);
  }

  /** If the unbounded rule has no position between two cutoffs, they cut alike. */
  lemma NothingBetween(u: Schedule, a: Schedule, b: Schedule, ua: Until, ub: Until, f: Fields, aEnd: int, bEnd: int, time: int)
    requires CutOff(u, a, ua) && CutOff(u, b, ub) && f.allDay == u.allDay && f.zone == u.zone
    requires ExclusiveEnd(f, ua) == Ok(aEnd) && ExclusiveEnd(f, ub) == Ok(bEnd)
    requires forall slot: nat :: Position(u, slot).Some? ==>
      (Position(u, slot).value < aEnd <==> Position(u, slot).value < bEnd)
    ensures IsPosition(a, time) <==> IsPosition(b, time)
  {
    forall slot: nat
      ensures InSeries(a, slot) && Position(a, slot) == Some(time) <==> InSeries(b, slot) && Position(b, slot) == Some(time)
    {
      CutOffSlots(u, a, ua, slot);
      CutOffSlots(u, b, ub, slot);
      if Position(u, slot).Some? {
        CutOffIsExclusive(u, a, ua, f, aEnd, slot);
        CutOffIsExclusive(u, b, ub, f, bEnd, slot);
      }
    }
  }

  /** A complete expansion whose occurrences all start before `lo` shows that no
      position lies in [lo, hi). */
  lemma ExpansionShowsNone(u: Schedule, f: Fields, lo: int, hi: int, limit: nat, e: Expansion, slot: nat)
    requires Valid(u) && f.allDay == u.allDay && ExactExpansion(u, f, lo, hi, limit, e) && !e.hasMore
    requires forall i :: 0 <= i < |e.occurrences| ==> Boundary(e.occurrences[i].originalStart) < lo
    requires u.rule.count.None? && Position(u, slot).Some?
    ensures !(lo <= Position(u, slot).value < hi)
  {
    var t := Position(u, slot).value;
    if lo <= t < hi {
      var m := AllMatches(u, lo, hi);
      AllMatchesComplete(u, lo, hi);
      assert slot in m;
      var i :| 0 <= i < |m| && m[i] == slot;
      GeneratedStart(u, f, slot, e.occurrences[i]);
    }
  }

  /** A generated occurrence is keyed by its own instant. */
  lemma GeneratedStart(u: Schedule, f: Fields, slot: nat, g: Generated)
    requires Valid(u) && f.allDay == u.allDay && GeneratedAt(u, f, slot, g)
    ensures Boundary(g.originalStart) == Position(u, slot).value
  {
    PositionFacts(u, slot);
    AtDateNear(u, Slot(u, slot).date.value);
  }

  /** An event's schedule is its unbounded schedule, cut off. */
  lemma UnboundedSchedule(f: Fields, rule: Rule, until: Until)
    requires RuleOk(rule) && rule.until == Some(until) && ZoneOk(f.zone) && New(f, rule).Ok?
    ensures New(f, rule.(until := None)).Ok?
    ensures CutOff(New(f, rule.(until := None)).value, New(f, rule).value, until)
  {
    NewIsValid(f, rule);
    NewIsValid(f, rule.(until := None));
  }

  /** `New` reads only an event's times. */
  lemma NewReadsTimes(f: Fields, g: Fields, rule: Rule)
    requires RuleOk(rule) && SameTimes(f, g) && New(f, rule).Ok? && New(g, rule).Ok?
    ensures New(f, rule) == New(g, rule)
  {
    var start, end := Boundary(f.start), Boundary(f.end);
    assert LocalTime(f, start) == LocalTime(g, start);
    assert New(f, rule).value == Scheduled(rule, f.allDay, f.zone, start, end - start, LocalTime(f, start));
    assert New(g, rule).value == Scheduled(rule, f.allDay, f.zone, start, end - start, LocalTime(f, start));
  }

  // ------------------------------------------------------------ the decision

  ghost predicate SamePositions(a: Event, b: Event)
    requires EventOk(a) && EventOk(b) && FromEvent(a).Ok? && FromEvent(b).Ok?
  {
    forall time :: IsPosition(ScheduleOf(a), time) <==> IsPosition(ScheduleOf(b), time)
  }

  method RulesEquivalent(a: Event, b: Event) returns (r: Result<bool>)
    requires EventOk(a) && EventOk(b)
    ensures r == Ok(true) && SameTimes(a.fields, b.fields) && FromEvent(a).Ok? && FromEvent(b).Ok? ==> SamePositions(a, b)
    ensures a.rule == b.rule ==> r == Ok(true)
    ensures r == Ok(false) && DifferInUntil(a, b) ==> Crowded(a, b) || !SamePositions(a, b)
    ensures a.rule != b.rule && !TwoCutoffs(a.rule, b.rule) ==> r == Ok(false)
    ensures r.Err? ==> TwoCutoffs(a.rule, b.rule) && Undecided(a, b)
  {
    if a.rule == b.rule {
      if SameTimes(a.fields, b.fields) && FromEvent(a).Ok? && FromEvent(b).Ok? {
        NewReadsTimes(a.fields, b.fields, a.rule.value);
      }
      return Ok(true);
    }
    if a.rule.None? || b.rule.None? {
      return Ok(false);
    }
    var pattern := a.rule.value.(until := None);
    if pattern != b.rule.value.(until := None) || a.rule.value.until.None? || b.rule.value.until.None? {
      return Ok(false);
    }
    r := CompareCutoffs(a, b);
  }

  lemma {:induction false} SameEnd(a: Event, b: Event, end: int)
    requires EventOk(a) && EventOk(b) && TwoCutoffs(a.rule, b.rule)
    requires ExclusiveEnd(a.fields, a.rule.value.until.value) == Ok(end) && ExclusiveEnd(b.fields, b.rule.value.until.value) == Ok(end)
    ensures DifferInUntil(a, b) ==> SamePositions(a, b)
  {
    if DifferInUntil(a, b) {
      CutoffsAgree(a, b, end, end);
    }
  }

  /** Two cutoffs of one pattern. */
  method CompareCutoffs(a: Event, b: Event) returns (r: Result<bool>)
    requires EventOk(a) && EventOk(b) && TwoCutoffs(a.rule, b.rule)
    ensures r == Ok(true) && DifferInUntil(a, b) ==> SamePositions(a, b)
    ensures r == Ok(false) && DifferInUntil(a, b) ==> Crowded(a, b) || !SamePositions(a, b)
    ensures r.Err? ==> Undecided(a, b)
  {
    var aEnd := ExclusiveEnd(a.fields, a.rule.value.until.value);
    var bEnd := ExclusiveEnd(b.fields, b.rule.value.until.value);
    if aEnd.Err? || bEnd.Err? {
      return Err;
    }
    if aEnd.value == bEnd.value {
      SameEnd(a, b, aEnd.value);
      return Ok(true);
    }
    r := DecideBetween(a, b, aEnd.value, bEnd.value);
  }

  /** One pattern with two cutoffs. */
  predicate TwoCutoffs(a: Option<Rule>, b: Option<Rule>) {
    && a.Some? && b.Some? && a.value.until.Some? && b.value.until.Some?
    && a.value == b.value.(until := a.value.until)
  }

  /** The stretch between the cutoffs cannot be looked at. */
  ghost predicate Unexpandable(a: Event, lo: int, hi: int)
    requires EventOk(a) && a.rule.Some?
  {
    ArgumentsOk(Unbounded(a), Instant(lo), Instant(hi), 10_000) ==> Blocked(ScheduleOf(Unbounded(a)), a.fields, lo, hi)
  }

  /** A cutoff falls on a local midnight that does not occur exactly once, or the stretch
      between the cutoffs cannot be looked at. */
  ghost predicate Undecided(a: Event, b: Event)
    requires EventOk(a) && EventOk(b) && TwoCutoffs(a.rule, b.rule)
  {
    var aEnd, bEnd := ExclusiveEnd(a.fields, a.rule.value.until.value), ExclusiveEnd(b.fields, b.rule.value.until.value);
    aEnd.Err? || bEnd.Err? || Unexpandable(a, Lesser(aEnd.value, bEnd.value), -Lesser(-aEnd.value, -bEnd.value))
  }

  /** Look between two different cutoffs of one pattern. */
  method DecideBetween(a: Event, b: Event, aEnd: int, bEnd: int) returns (r: Result<bool>)
    requires EventOk(a) && EventOk(b) && aEnd != bEnd
    requires a.rule.Some? && b.rule.Some? && a.rule.value.until.Some? && b.rule.value.until.Some?
    requires ExclusiveEnd(a.fields, a.rule.value.until.value) == Ok(aEnd)
    requires ExclusiveEnd(b.fields, b.rule.value.until.value) == Ok(bEnd)
    ensures r == Ok(true) && DifferInUntil(a, b) ==> SamePositions(a, b)
    ensures r == Ok(false) && DifferInUntil(a, b) ==> Crowded(a, b) || !SamePositions(a, b)
    ensures r.Err? ==> Unexpandable(a, Lesser(aEnd, bEnd), -Lesser(-aEnd, -bEnd))
  {
    var lo, hi := Lesser(aEnd, bEnd), -Lesser(-aEnd, -bEnd);
    var expanded := ExpandPattern(a, lo, hi);
    if expanded.Err? {
      return Err;
    }
    Decided(a, b, aEnd, bEnd, expanded.value);
    r := Ok(AllBefore(expanded.value, lo));
  }

  lemma {:induction false} Decided(a: Event, b: Event, aEnd: int, bEnd: int, e: Expansion)
    requires EventOk(a) && EventOk(b) && aEnd != bEnd
    requires a.rule.Some? && b.rule.Some? && a.rule.value.until.Some? && b.rule.value.until.Some?
    requires ExclusiveEnd(a.fields, a.rule.value.until.value) == Ok(aEnd)
    requires ExclusiveEnd(b.fields, b.rule.value.until.value) == Ok(bEnd)
    requires EventOk(Unbounded(a)) && FromEvent(Unbounded(a)).Ok?
    requires ExactExpansion(ScheduleOf(Unbounded(a)), a.fields, Lesser(aEnd, bEnd), -Lesser(-aEnd, -bEnd), 10_000, e)
    ensures AllBefore(e, Lesser(aEnd, bEnd)) && DifferInUntil(a, b) ==> SamePositions(a, b)
    ensures !AllBefore(e, Lesser(aEnd, bEnd)) && DifferInUntil(a, b) ==> Crowded(a, b) || !SamePositions(a, b)
  {
    if DifferInUntil(a, b) {
      DecidesRight(a, b, aEnd, bEnd, e);
    }
  }

  /** Expand the pattern without its cutoff. */
  method ExpandPattern(a: Event, lo: int, hi: int) returns (r: Result<Expansion>)
    requires EventOk(a) && a.rule.Some?
    ensures r.Ok? ==>
      && EventOk(Unbounded(a)) && FromEvent(Unbounded(a)).Ok?
      && ExactExpansion(ScheduleOf(Unbounded(a)), a.fields, lo, hi, 10_000, r.value)
    ensures r.Err? ==> Unexpandable(a, lo, hi)
  {
    r := Expand(Unbounded(a), Instant(lo), Instant(hi), 10_000);
  }

  /** A complete expansion none of whose occurrences starts at `lo` or later. */
  predicate AllBefore(e: Expansion, lo: int) {
    !e.hasMore && forall i :: 0 <= i < |e.occurrences| ==> Boundary(e.occurrences[i].originalStart) < lo
  }

  lemma DecidesRight(a: Event, b: Event, aEnd: int, bEnd: int, e: Expansion)
    requires DifferInUntil(a, b) && aEnd != bEnd
    requires ExclusiveEnd(a.fields, a.rule.value.until.value) == Ok(aEnd)
    requires ExclusiveEnd(b.fields, b.rule.value.until.value) == Ok(bEnd)
    requires EventOk(Unbounded(a)) && FromEvent(Unbounded(a)).Ok?
    requires ExactExpansion(ScheduleOf(Unbounded(a)), a.fields, Lesser(aEnd, bEnd), -Lesser(-aEnd, -bEnd), 10_000, e)
    ensures if AllBefore(e, Lesser(aEnd, bEnd)) then SamePositions(a, b) else Crowded(a, b) || !SamePositions(a, b)
  {
    if AllBefore(e, Lesser(aEnd, bEnd)) {
      ExpansionDecides(a, b, aEnd, bEnd, e);
    } else if e.hasMore {
      MoreIsCrowded(a, b, aEnd, bEnd, e, ScheduleOf(Unbounded(a)));
    } else {
      var i := NotAllBefore(e, Lesser(aEnd, bEnd));
      ExpansionSeparates(a, b, aEnd, bEnd, e, i);
    }
  }

  lemma NotAllBefore(e: Expansion, lo: int) returns (i: nat)
    requires !e.hasMore && !AllBefore(e, lo)
    ensures i < |e.occurrences| && Boundary(e.occurrences[i].originalStart) >= lo
  {
    i :| i < |e.occurrences| && Boundary(e.occurrences[i].originalStart) >= lo;
  }

  lemma {:induction false} MoreIsCrowded(a: Event, b: Event, aEnd: int, bEnd: int, e: Expansion, u: Schedule)
    requires DifferInUntil(a, b) && e.hasMore
    requires ExclusiveEnd(a.fields, a.rule.value.until.value) == Ok(aEnd)
    requires ExclusiveEnd(b.fields, b.rule.value.until.value) == Ok(bEnd)
    requires EventOk(Unbounded(a)) && FromEvent(Unbounded(a)).Ok? && u == ScheduleOf(Unbounded(a))
    requires ExactExpansion(u, a.fields, Lesser(aEnd, bEnd), -Lesser(-aEnd, -bEnd), 10_000, e)
    ensures Crowded(a, b)
  {
    MoreMatches(u, a.fields, Lesser(aEnd, bEnd), -Lesser(-aEnd, -bEnd), e);
    ManyIsCrowded(a, b, aEnd, bEnd, u);
  }

  lemma {:induction false} ManyIsCrowded(a: Event, b: Event, aEnd: int, bEnd: int, u: Schedule)
    requires DifferInUntil(a, b)
    requires ExclusiveEnd(a.fields, a.rule.value.until.value) == Ok(aEnd)
    requires ExclusiveEnd(b.fields, b.rule.value.until.value) == Ok(bEnd)
    requires EventOk(Unbounded(a)) && FromEvent(Unbounded(a)).Ok? && u == ScheduleOf(Unbounded(a))
    requires TooMany(u, Lesser(aEnd, bEnd), -Lesser(-aEnd, -bEnd))
    ensures Crowded(a, b)
  {
  }

  lemma MoreMatches(u: Schedule, f: Fields, lo: int, hi: int, e: Expansion)
    requires Valid(u) && ExactExpansion(u, f, lo, hi, 10_000, e) && e.hasMore
    ensures TooMany(u, lo, hi)
  {
  }

  /** Two events that differ in UNTIL at most. */
  ghost predicate DifferInUntil(a: Event, b: Event) {
    && EventOk(a) && EventOk(b) && SameTimes(a.fields, b.fields) && FromEvent(a).Ok? && FromEvent(b).Ok?
    && a.rule.Some? && b.rule.Some? && a.rule.value.until.Some? && b.rule.value.until.Some?
    && a.rule.value.(until := None) == b.rule.value.(until := None)
  }

  /** The event without its UNTIL. */
  function Unbounded(a: Event): Event
    requires a.rule.Some?
  {
    a.(rule := Some(a.rule.value.(until := None)))
  }

  function Lesser(a: int, b: int): int {
    if a < b then a else b
  }

  /** More than ten thousand occurrences reach into the stretch between the cutoffs:
      the comparison then gives up and answers no. */
  ghost predicate Crowded(a: Event, b: Event)
    requires DifferInUntil(a, b)
  {
    var aEnd, bEnd := ExclusiveEnd(a.fields, a.rule.value.until.value), ExclusiveEnd(b.fields, b.rule.value.until.value);
    && aEnd.Ok? && bEnd.Ok? && EventOk(Unbounded(a)) && FromEvent(Unbounded(a)).Ok?
    && TooMany(ScheduleOf(Unbounded(a)), Lesser(aEnd.value, bEnd.value), -Lesser(-aEnd.value, -bEnd.value))
  }

  ghost predicate TooMany(u: Schedule, lo: int, hi: int)
    requires Valid(u)
  {
    |AllMatches(u, lo, hi)| > 10_000
  }

  /** A position between the cutoffs belongs to one series only. */
  lemma BetweenSeparates(u: Schedule, s: Schedule, t: Schedule, us: Until, ut: Until, f: Fields, lo: int, hi: int, slot: nat)
    requires CutOff(u, s, us) && CutOff(u, t, ut) && f.allDay == u.allDay && f.zone == u.zone
    requires ExclusiveEnd(f, us) == Ok(lo) && ExclusiveEnd(f, ut) == Ok(hi)
    requires Position(u, slot).Some? && lo <= Position(u, slot).value < hi
    ensures IsPosition(t, Position(u, slot).value) && !IsPosition(s, Position(u, slot).value)
  {
    var time := Position(u, slot).value;
    CutOffIsExclusive(u, s, us, f, lo, slot);
    CutOffIsExclusive(u, t, ut, f, hi, slot);
    CutOffSlots(u, t, ut, slot);
    if k: nat :| InSeries(s, k) && Position(s, k) == Some(time) {
      CutOffSlots(u, s, us, k);
      PositionInjective(u, slot, k);
    }
  }

  /** Both schedules are cut off from the schedule of their common pattern. */
  lemma BothCutOff(a: Event, b: Event)
    requires DifferInUntil(a, b) && EventOk(Unbounded(a)) && FromEvent(Unbounded(a)).Ok?
    ensures var u := ScheduleOf(Unbounded(a));
      && CutOff(u, ScheduleOf(a), a.rule.value.until.value) && CutOff(u, ScheduleOf(b), b.rule.value.until.value)
      && a.fields.allDay == u.allDay && a.fields.zone == u.zone
      && ExclusiveEnd(a.fields, b.rule.value.until.value) == ExclusiveEnd(b.fields, b.rule.value.until.value)
  {
    UnboundedSchedule(a.fields, a.rule.value, a.rule.value.until.value);
    UnboundedSchedule(b.fields, b.rule.value, b.rule.value.until.value);
    NewReadsTimes(a.fields, b.fields, a.rule.value.(until := None));
  }

  lemma ExpansionSeparates(a: Event, b: Event, aEnd: int, bEnd: int, e: Expansion, i: nat)
    requires DifferInUntil(a, b) && aEnd != bEnd && i < |e.occurrences|
    requires ExclusiveEnd(a.fields, a.rule.value.until.value) == Ok(aEnd)
    requires ExclusiveEnd(b.fields, b.rule.value.until.value) == Ok(bEnd)
    requires EventOk(Unbounded(a)) && FromEvent(Unbounded(a)).Ok?
    requires ExactExpansion(ScheduleOf(Unbounded(a)), a.fields, Lesser(aEnd, bEnd), -Lesser(-aEnd, -bEnd), 10_000, e)
    requires Boundary(e.occurrences[i].originalStart) >= Lesser(aEnd, bEnd)
    ensures !SamePositions(a, b)
  {
    BothCutOff(a, b);
    var time := ExpansionShowsOne(ScheduleOf(Unbounded(a)), ScheduleOf(a), ScheduleOf(b), a.rule.value.until.value, b.rule.value.until.value,
                                  a.fields, aEnd, bEnd, e, i);
  }

  lemma ExpansionShowsOne(u: Schedule, s: Schedule, t: Schedule, us: Until, ut: Until, f: Fields, sEnd: int, tEnd: int,
                          e: Expansion, i: nat) returns (time: int)
    requires CutOff(u, s, us) && CutOff(u, t, ut) && f.allDay == u.allDay && f.zone == u.zone && sEnd != tEnd
    requires ExclusiveEnd(f, us) == Ok(sEnd) && ExclusiveEnd(f, ut) == Ok(tEnd)
    requires ExactExpansion(u, f, Lesser(sEnd, tEnd), -Lesser(-sEnd, -tEnd), 10_000, e) && i < |e.occurrences|
    requires Boundary(e.occurrences[i].originalStart) >= Lesser(sEnd, tEnd)
    ensures IsPosition(s, time) != IsPosition(t, time)
  {
    var slot := SlotBetween(u, f, Lesser(sEnd, tEnd), -Lesser(-sEnd, -tEnd), e, i);
    EndsSeparate(u, s, t, us, ut, f, sEnd, tEnd, slot);
    time := Position(u, slot).value;
  }

  lemma EndsSeparate(u: Schedule, s: Schedule, t: Schedule, us: Until, ut: Until, f: Fields, sEnd: int, tEnd: int, slot: nat)
    requires CutOff(u, s, us) && CutOff(u, t, ut) && f.allDay == u.allDay && f.zone == u.zone && sEnd != tEnd
    requires ExclusiveEnd(f, us) == Ok(sEnd) && ExclusiveEnd(f, ut) == Ok(tEnd)
    requires Position(u, slot).Some? && Lesser(sEnd, tEnd) <= Position(u, slot).value < -Lesser(-sEnd, -tEnd)
    ensures IsPosition(s, Position(u, slot).value) != IsPosition(t, Position(u, slot).value)
  {
    if sEnd < tEnd {
      BetweenSeparates(u, s, t, us, ut, f, sEnd, tEnd, slot);
    } else {
      BetweenSeparates(u, t, s, ut, us, f, tEnd, sEnd, slot);
    }
  }

  /** The slot of an occurrence that starts in the window. */
  lemma SlotBetween(u: Schedule, f: Fields, lo: int, hi: int, e: Expansion, i: nat) returns (slot: nat)
    requires Valid(u) && f.allDay == u.allDay && ExactExpansion(u, f, lo, hi, 10_000, e) && i < |e.occurrences|
    requires Boundary(e.occurrences[i].originalStart) >= lo
    ensures Position(u, slot).Some? && lo <= Position(u, slot).value < hi
  {
    var m := AllMatches(u, lo, hi);
    AllMatchesComplete(u, lo, hi);
    slot := First(10_000, m)[i];
    assert slot in m;
    GeneratedStart(u, f, slot, e.occurrences[i]);
  }

  lemma CutoffsAgree(a: Event, b: Event, aEnd: int, bEnd: int)
    requires DifferInUntil(a, b)
    requires ExclusiveEnd(a.fields, a.rule.value.until.value) == Ok(aEnd)
    requires ExclusiveEnd(b.fields, b.rule.value.until.value) == Ok(bEnd)
    requires New(a.fields, a.rule.value.(until := None)).Ok? ==>
      Valid(New(a.fields, a.rule.value.(until := None)).value) ==>
      forall slot: nat :: Position(New(a.fields, a.rule.value.(until := None)).value, slot).Some? ==>
        (Position(New(a.fields, a.rule.value.(until := None)).value, slot).value < aEnd <==>
         Position(New(a.fields, a.rule.value.(until := None)).value, slot).value < bEnd)
    ensures SamePositions(a, b)
  {
    var ua, ub := a.rule.value.until.value, b.rule.value.until.value;
    UnboundedSchedule(a.fields, a.rule.value, ua);
    UnboundedSchedule(b.fields, b.rule.value, ub);
    NewReadsTimes(a.fields, b.fields, a.rule.value.(until := None));
    var u := New(a.fields, a.rule.value.(until := None)).value;
    forall time ensures IsPosition(ScheduleOf(a), time) <==> IsPosition(ScheduleOf(b), time) {
      NothingBetween(u, ScheduleOf(a), ScheduleOf(b), ua, ub, a.fields, aEnd, bEnd, time);
    }
  }

  lemma ExpansionDecides(a: Event, b: Event, aEnd: int, bEnd: int, e: Expansion)
    requires DifferInUntil(a, b) && aEnd != bEnd
    requires ExclusiveEnd(a.fields, a.rule.value.until.value) == Ok(aEnd)
    requires ExclusiveEnd(b.fields, b.rule.value.until.value) == Ok(bEnd)
    requires EventOk(Unbounded(a)) && FromEvent(Unbounded(a)).Ok?
    requires ExactExpansion(ScheduleOf(Unbounded(a)), a.fields, Lesser(aEnd, bEnd), -Lesser(-aEnd, -bEnd), 10_000, e)
    requires !e.hasMore
    requires forall i :: 0 <= i < |e.occurrences| ==> Boundary(e.occurrences[i].originalStart) < Lesser(aEnd, bEnd)
    ensures SamePositions(a, b)
  {
    var u := ScheduleOf(Unbounded(a));
    assert u == New(a.fields, a.rule.value.(until := None)).value;
    forall slot: nat | Position(u, slot).Some?
      ensures Position(u, slot).value < aEnd <==> Position(u, slot).value < bEnd
    {
      ExpansionShowsNone(u, a.fields, Lesser(aEnd, bEnd), -Lesser(-aEnd, -bEnd), 10_000, e, slot);
    }
    CutoffsAgree(a, b, aEnd, bEnd);
  }

  /** The event with its rule in comparison form. */
  function SemanticEvent(event: Event): Result<Event>
    requires event.rule.Some? ==> RuleOk(event.rule.value)
  {
    if event.rule.None? then Ok(event)
    else if New(event.fields, event.rule.value).Err? then Err
    else Ok(event.(rule := Some(SemanticRule(event.fields, event.rule.value))))
  }

  lemma SemanticEventKeepsPositions(event: Event, time: int)
    requires EventOk(event) && FromEvent(event).Ok?
    ensures SemanticEvent(event).Ok? && EventOk(SemanticEvent(event).value) && FromEvent(SemanticEvent(event).value).Ok?
    ensures IsPosition(ScheduleOf(event), time) <==> IsPosition(ScheduleOf(SemanticEvent(event).value), time)
  {
    SemanticRuleKeepsSeries(event.fields, event.rule.value);
    var s, t := ScheduleOf(event), ScheduleOf(SemanticEvent(event).value);
    assert SameSeries(s, t);
  }

  /** The comparison of two schedules: normalize both rules, then decide. */
  method SchedulesEquivalent(a: Event, b: Event) returns (r: Result<bool>)
    requires EventOk(a) && EventOk(b)
    ensures r == Ok(true) && SameTimes(a.fields, b.fields) && FromEvent(a).Ok? && FromEvent(b).Ok? ==> SamePositions(a, b)
  {
    var left, right := SemanticEvent(a), SemanticEvent(b);
    if left.Err? || right.Err? {
      return Err;
    }
    SemanticOk(a);
    SemanticOk(b);
    r := RulesEquivalent(left.value, right.value);
    if r == Ok(true) && SameTimes(a.fields, b.fields) && FromEvent(a).Ok? && FromEvent(b).Ok? {
      forall time ensures IsPosition(ScheduleOf(a), time) <==> IsPosition(ScheduleOf(b), time) {
        SemanticEventKeepsPositions(a, time);
        SemanticEventKeepsPositions(b, time);
      }
    }
  }

  lemma SemanticOk(event: Event)
    requires EventOk(event) && SemanticEvent(event).Ok?
    ensures EventOk(SemanticEvent(event).value)
  {
    if event.rule.Some? {
      SemanticRuleOk(event.fields, event.rule.value);
    }
  }
}
