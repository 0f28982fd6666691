/** When moving an all-day event moves its whole series: exactly, for DAILY and WEEKLY
    rules, under any COUNT and UNTIL. */
module SeriesShift {
  import opened Basics
  import opened CivilCalendar
  import opened Text
  import opened Zones
  import opened Rules
  import opened Schedules
  import opened SlotOrder
  import opened Series
  import opened Cursors
  import opened WeekPattern
  import opened RuleShift

  /** The all-day series has a position on the date. */
  ghost predicate OnDate(s: Schedule, date: int)
    requires SlotsOk(s)
  {
    IsPosition(s, Midnight(date))
  }

  /** Within the supported years, the positions of `t` are those of `s`, `shift` days later. */
  ghost predicate Translated(s: Schedule, t: Schedule, shift: int)
    requires SlotsOk(s) && SlotsOk(t)
  {
    forall date :: InRange(date) && InRange(date + shift) ==> (OnDate(s, date) <==> OnDate(t, date + shift))
  }

  /** The series has no position on or after the date, of those that stay in the supported
      years when moved. */
  ghost predicate EndsBefore(s: Schedule, date: int, shift: int)
    requires SlotsOk(s)
  {
    forall later :: date <= later && InRange(later + shift) ==> !OnDate(s, later)
  }

  // ------------------------------------------------------------ dates and slots

  lemma DateHasSlot(s: Schedule, date: int) returns (slot: nat)
    requires Valid(s) && s.allDay && OnDate(s, date)
    ensures InSeries(s, slot) && Slot(s, slot).date == Some(date) && InRange(date)
  {
    slot :| InSeries(s, slot) && Position(s, slot) == Some(Midnight(date));
    PositionFacts(s, slot);
    AtDateNear(s, Slot(s, slot).date.value);
  }

  lemma SlotHasDate(s: Schedule, slot: nat)
    requires Valid(s) && s.allDay && InSeries(s, slot)
    ensures Slot(s, slot).date.Some? && OnDate(s, Slot(s, slot).date.value)
  {
    PositionFacts(s, slot);
    AtDateNear(s, Slot(s, slot).date.value);
  }

  /** Slots before a member of the series belong to it as well. */
  lemma EarlierSlot(s: Schedule, k: nat, j: nat)
    requires Valid(s) && ArithmeticCount(s) && k <= j && InSeries(s, j)
    ensures InSeries(s, k)
  {
    ReachesPosition(s, k, j);
    ArithmeticNeverSkips(s, k);
    var time := Inspect(s, k).value.time;
    InspectHits(s, k, time);
    SeriesPrefix(s, k, j);
  }

  /** Of a weekly series that goes on, every earlier date of the pattern is a position. */
  lemma EarlierDate(s: Schedule, date: int, later: int)
    requires Valid(s) && s.allDay && WeeklyOk(s) && WeekShape(WeekOf(s)) && OnPattern(WeekOf(s), date)
    requires date <= later && OnDate(s, later)
    ensures OnDate(s, date)
  {
    var k := PatternHasSlot(s, date);
    var j := DateHasSlot(s, later);
    if j < k {
      DateOrder(s, j, k);
    }
    EarlierSlot(s, k, j);
    SlotHasDate(s, k);
  }

  lemma DateIsOnPattern(s: Schedule, date: int)
    requires Valid(s) && s.allDay && WeeklyOk(s) && OnDate(s, date)
    ensures WeekShape(WeekOf(s)) && OnPattern(WeekOf(s), date)
  {
    var slot := DateHasSlot(s, date);
    SlotOnPattern(s, slot);
  }

  // ------------------------------------------------------------ moved as far as needed

  lemma MovesForth(s: Schedule, t: Schedule, shift: int, slot: nat)
    requires Shifted(s, t, shift) && MovedUpTo(s, t, shift, slot) && BothInRange(s, shift, slot)
    ensures InSeries(s, slot) <==> InSeries(t, slot)
    ensures InSeries(s, slot) ==> OnDate(s, Slot(s, slot).date.value) && OnDate(t, Slot(s, slot).date.value + shift)
  {
    ShiftMovesSeries(s, t, shift, slot);
    BothHaveDates(s, t, shift, slot);
  }

  lemma {:induction false} BothHaveDates(s: Schedule, t: Schedule, shift: int, slot: nat)
    requires Valid(s) && Valid(t) && s.allDay && t.allDay && (InSeries(s, slot) <==> InSeries(t, slot))
    requires Position(t, slot) == if Position(s, slot).Some? then Some(Position(s, slot).value + Midnight(shift)) else None
    ensures InSeries(s, slot) ==> Slot(s, slot).date.Some?
    ensures InSeries(s, slot) ==> OnDate(s, Slot(s, slot).date.value) && OnDate(t, Slot(s, slot).date.value + shift)
  {
    if InSeries(s, slot) {
      PositionFacts(s, slot);
      AtDateNear(s, Slot(s, slot).date.value);
      assert Midnight(Slot(s, slot).date.value + shift) == Midnight(Slot(s, slot).date.value) + Midnight(shift);
    }
  }

  /** A position whose slot is moved has its image. */
  lemma ImageOf(s: Schedule, t: Schedule, shift: int, date: int, slot: nat)
    requires Shifted(s, t, shift) && MovedUpTo(s, t, shift, slot) && Slot(s, slot).date == Some(date)
    requires InRange(date) && InRange(date + shift) && (InSeries(s, slot) || InSeries(t, slot))
    ensures OnDate(s, date) && OnDate(t, date + shift)
  {
    MovesForth(s, t, shift, slot);
  }

  /** If every slot is moved, so is the series. */
  lemma AllMovedTranslates(s: Schedule, t: Schedule, shift: int)
    requires Shifted(s, t, shift) && SlotsMoved(s, t, shift)
    ensures Translated(s, t, shift)
  {
    forall date | InRange(date) && InRange(date + shift) ensures OnDate(s, date) <==> OnDate(t, date + shift) {
      MovedForward(s, t, shift, date);
      MovedBack(s, t, shift, date);
    }
  }

  lemma MovedForward(s: Schedule, t: Schedule, shift: int, date: int)
    requires Shifted(s, t, shift) && SlotsMoved(s, t, shift) && InRange(date) && InRange(date + shift)
    ensures OnDate(s, date) ==> OnDate(t, date + shift)
  {
    if OnDate(s, date) {
      var k := DateHasSlot(s, date);
      ImageOf(s, t, shift, date, k);
    }
  }

  lemma MovedBack(s: Schedule, t: Schedule, shift: int, date: int)
    requires Shifted(s, t, shift) && SlotsMoved(s, t, shift) && InRange(date) && InRange(date + shift)
    ensures OnDate(t, date + shift) ==> OnDate(s, date)
  {
    if OnDate(t, date + shift) {
      var k := DateHasSlot(t, date + shift);
      SlotMovedBack(s, t, shift, date, k);
      ImageOf(s, t, shift, date, k);
    }
  }

  lemma SlotMovedBack(s: Schedule, t: Schedule, shift: int, date: int, slot: nat)
    requires SlotsOk(s) && SlotsOk(t) && SlotsMoved(s, t, shift) && Slot(t, slot).date == Some(date + shift)
    ensures Slot(s, slot).date == Some(date) && MovedUpTo(s, t, shift, slot)
  {
  }

  lemma UpToBefore(s: Schedule, t: Schedule, shift: int, limit: int, slot: nat)
    requires WeeklyOk(s) && WeeklyOk(t) && WeekShape(WeekOf(s)) && WeekShape(WeekOf(t))
    requires MovesBefore(WeekOf(s), WeekOf(t), shift, limit)
    requires Slot(s, slot).date.Some? && Slot(s, slot).date.value < limit
    ensures MovedUpTo(s, t, shift, slot)
  {
    forall k: nat | k <= slot
      ensures Slot(s, k).date.Some? && Slot(t, k).date == Some(Slot(s, k).date.value + shift)
    {
      SlotOnPattern(s, k);
      if k < slot {
        DateOrder(s, k, slot);
      }
      SameEnumerationBefore(s, t, shift, limit, k);
    }
  }

  lemma MovesBeforeBack(w: Week, v: Week, shift: int, limit: int)
    requires WeekShape(w) && WeekShape(v) && MovesBefore(w, v, shift, limit)
    ensures MovesBefore(v, w, -shift, limit + shift)
  {
    forall date | date < limit + shift ensures OnPattern(v, date) <==> OnPattern(w, date - shift) {
      assert date - shift + shift == date;
    }
  }

  /** Two series that end before their patterns differ are translated. */
  lemma EndingTranslates(s: Schedule, t: Schedule, shift: int, limit: int)
    requires Shifted(s, t, shift) && WeeklyOk(s) && WeeklyOk(t) && WeekShape(WeekOf(s)) && WeekShape(WeekOf(t))
    requires MovesBefore(WeekOf(s), WeekOf(t), shift, limit)
    requires EndsBefore(s, limit, shift) && EndsBefore(t, limit + shift, -shift)
    ensures Translated(s, t, shift)
  {
    forall date | InRange(date) && InRange(date + shift) ensures OnDate(s, date) <==> OnDate(t, date + shift) {
      if OnDate(s, date) {
        var k := DateHasSlot(s, date);
        UpToBefore(s, t, shift, limit, k);
        ImageOf(s, t, shift, date, k);
      } else if OnDate(t, date + shift) {
        var k := DateHasSlot(t, date + shift);
        BackBefore(s, t, shift, limit, date, k);
        ImageOf(s, t, shift, date, k);
      }
    }
  }

  lemma BackBefore(s: Schedule, t: Schedule, shift: int, limit: int, date: int, slot: nat)
    requires WeeklyOk(s) && WeeklyOk(t) && WeekShape(WeekOf(s)) && WeekShape(WeekOf(t))
    requires MovesBefore(WeekOf(s), WeekOf(t), shift, limit)
    requires Slot(t, slot).date == Some(date + shift) && date < limit
    ensures MovedUpTo(s, t, shift, slot) && Slot(s, slot).date == Some(date)
  {
    MovesBeforeBack(WeekOf(s), WeekOf(t), shift, limit);
    UpToBefore(t, s, -shift, limit + shift, slot);
    UpToBackwards(s, t, shift, slot);
  }

  lemma UpToBackwards(s: Schedule, t: Schedule, shift: int, slot: nat)
    requires SlotsOk(s) && SlotsOk(t) && MovedUpTo(t, s, -shift, slot)
    ensures MovedUpTo(s, t, shift, slot)
  {
  }

  // ------------------------------------------------------------ the crossing shows

  /** Exactly one of the patterns has a day at the date. */
  ghost predicate Differ(s: Schedule, t: Schedule, shift: int, date: int)
    requires WeeklyOk(s) && WeeklyOk(t)
  {
    && WeekShape(WeekOf(s)) && WeekShape(WeekOf(t)) && s.startDate <= date
    && OnPattern(WeekOf(s), date) != OnPattern(WeekOf(t), date + shift)
  }

  /** A series that goes on has exactly the dates of its pattern. */
  lemma DatesOfPattern(s: Schedule, date: int, later: int)
    requires Valid(s) && s.allDay && WeeklyOk(s) && WeekShape(WeekOf(s)) && date <= later && OnDate(s, later)
    ensures OnDate(s, date) <==> OnPattern(WeekOf(s), date)
  {
    if OnPattern(WeekOf(s), date) {
      EarlierDate(s, date, later);
    } else if OnDate(s, date) {
      DateIsOnPattern(s, date);
    }
  }

  /** Where both series go on beyond such a date, it shows. */
  lemma DifferenceShows(s: Schedule, t: Schedule, shift: int, date: int, later: int)
    requires Valid(s) && Valid(t) && s.allDay && t.allDay && WeeklyOk(s) && WeeklyOk(t)
    requires Differ(s, t, shift, date) && date <= later && OnDate(s, later) && OnDate(t, later + shift)
    ensures OnDate(s, date) != OnDate(t, date + shift)
  {
    DatesOfPattern(s, date, later);
    DatesOfPattern(t, date + shift, later + shift);
  }

  lemma NotBoth(s: Schedule, t: Schedule, shift: int, date: int, later: int)
    requires Shifted(s, t, shift) && WeeklyOk(s) && WeeklyOk(t) && Differ(s, t, shift, date) && date <= later
    requires Translated(s, t, shift) && InRange(later) && InRange(later + shift)
    ensures !OnDate(s, later) && !OnDate(t, later + shift)
  {
    if OnDate(s, later) || OnDate(t, later + shift) {
      DifferenceShows(s, t, shift, date, later);
    }
  }

  /** A translated pair of series has no position from a date at which the patterns differ. */
  lemma DifferenceEnds(s: Schedule, t: Schedule, shift: int, date: int)
    requires Shifted(s, t, shift) && WeeklyOk(s) && WeeklyOk(t) && Differ(s, t, shift, date)
    requires Translated(s, t, shift)
    ensures EndsBefore(s, date, shift) && EndsBefore(t, date + shift, -shift)
  {
    forall later | date <= later && InRange(later + shift) ensures !OnDate(s, later) {
      if InRange(later) {
        NotBoth(s, t, shift, date, later);
      } else if OnDate(s, later) {
        var k := DateHasSlot(s, later);
      }
    }
    forall later | date + shift <= later && InRange(later - shift) ensures !OnDate(t, later) {
      if InRange(later) {
        NotBoth(s, t, shift, date, later - shift);
      } else if OnDate(t, later) {
        var k := DateHasSlot(t, later);
      }
    }
  }

  // ------------------------------------------------------------ the theorem

  lemma WeekFacts(s: Schedule, t: Schedule, shift: int)
    requires RuleMoved(s, t, shift) && s.rule.frequency.Weekly?
    ensures WeeklyOk(s) && WeeklyOk(t) && WeekShape(WeekOf(s)) && WeekShape(WeekOf(t))
    ensures Drifted(WeekOf(s), WeekOf(t), shift, Drift(s, t))
    ensures StrictlySorted(WeekOf(s).days) && WeekOf(s).start - WeekOf(s).anchor in WeekOf(s).days
  {
    WeekOfShape(s);
    WeekOfShape(t);
    WeekDrifts(s, t, shift);
    assert s.firstWeekDays[0] == s.weekDays[Skipped(s)];
  }

  /** The weeks are whole, or there is a first crossing. */
  lemma WholeOrCrossing(w: Week, drift: int)
    ensures !KeepsWeeks(w, drift) ==> w.span != 7 && FirstCrossing(w.days, drift).Some?
  {
  }

  lemma {:induction false} EndingTranslatesIff(s: Schedule, t: Schedule, shift: int, limit: int)
    requires Shifted(s, t, shift) && WeeklyOk(s) && WeeklyOk(t) && WeekShape(WeekOf(s)) && WeekShape(WeekOf(t))
    requires MovesBefore(WeekOf(s), WeekOf(t), shift, limit) && Differ(s, t, shift, limit)
    ensures Translated(s, t, shift) <==> EndsBefore(s, limit, shift) && EndsBefore(t, limit + shift, -shift)
  {
    if EndsBefore(s, limit, shift) && EndsBefore(t, limit + shift, -shift) {
      EndingTranslates(s, t, shift, limit);
    }
    if Translated(s, t, shift) {
      DifferenceEnds(s, t, shift, limit);
    }
  }

  // ------------------------------------------------------------ where a series is cut off

  /** The first slot from `from` on that is not dated before the date; from slot 0, the
      number of slots that are. */
  function SlotsBefore(s: Schedule, limit: int, from: nat): (k: nat)
    requires SlotsOk(s)
    ensures from <= k
    decreases limit - Slot(s, from).floor
  {
    SlotStep(s, from);
    if Slot(s, from).date.Some? && Slot(s, from).date.value < limit then SlotsBefore(s, limit, from + 1) else from
  }

  /** The rule cuts the series off before the date: in the supported years, before it or
      after the move, by UNTIL, or by COUNT. */
  predicate CutBefore(s: Schedule, limit: int, shift: int)
    requires SlotsOk(s)
  {
    || !InRange(limit)
    || !InRange(limit + shift)
    || (s.rule.until.Some? && s.rule.until.value.UntilDate? && s.rule.until.value.date < limit)
    || (s.rule.count.Some? && s.rule.count.value <= SlotsBefore(s, limit, 0))
  }

  lemma {:induction false} SlotsBeforeSplits(s: Schedule, limit: int, from: nat, slot: nat)
    requires WeeklyOk(s) && from <= slot
    ensures Slot(s, slot).date.Some? && (Slot(s, slot).date.value < limit <==> slot < SlotsBefore(s, limit, from))
    decreases slot - from
  {
    SlotOnPattern(s, from);
    SlotOnPattern(s, slot);
    if from < slot {
      DateOrder(s, from, slot);
      if Slot(s, from).date.value < limit {
        SlotsBeforeSplits(s, limit, from + 1, slot);
      }
    }
  }

  /** As many slots of the moved series lie before the moved date. */
  lemma SameSlotsBefore(s: Schedule, t: Schedule, shift: int, limit: int)
    requires WeeklyOk(s) && WeeklyOk(t) && WeekShape(WeekOf(s)) && WeekShape(WeekOf(t))
    requires MovesBefore(WeekOf(s), WeekOf(t), shift, limit)
    ensures SlotsBefore(t, limit + shift, 0) == SlotsBefore(s, limit, 0)
  {
    var k, m := SlotsBefore(s, limit, 0), SlotsBefore(t, limit + shift, 0);
    if k < m {
      SlotsBeforeSplits(t, limit + shift, 0, k);
      BackBefore(s, t, shift, limit, Slot(t, k).date.value - shift, k);
      SlotsBeforeSplits(s, limit, 0, k);
    } else if m < k {
      SlotsBeforeSplits(s, limit, 0, m);
      SameEnumerationBefore(s, t, shift, limit, m);
      SlotsBeforeSplits(t, limit + shift, 0, m);
    }
  }

  /** A series whose rule cuts it off has no position from there on. */
  lemma CutEnds(s: Schedule, limit: int, shift: int, later: int)
    requires Valid(s) && s.allDay && WeeklyOk(s) && s.startDate <= limit && InRange(s.startDate + shift)
    requires CutBefore(s, limit, shift) && limit <= later && InRange(later + shift)
    ensures !OnDate(s, later)
  {
    if OnDate(s, later) {
      var slot := DateHasSlot(s, later);
      PositionFacts(s, slot);
      SlotsBeforeSplits(s, limit, 0, slot);
      ArithmeticOrdinal(s, slot, slot);
    }
  }

  lemma CutSeriesEnds(s: Schedule, limit: int, shift: int)
    requires Valid(s) && s.allDay && WeeklyOk(s) && s.startDate <= limit && InRange(s.startDate + shift)
    requires CutBefore(s, limit, shift)
    ensures EndsBefore(s, limit, shift)
  {
    forall later | limit <= later && InRange(later + shift) ensures !OnDate(s, later) {
      CutEnds(s, limit, shift, later);
    }
  }

  /** One whose rule does not has the date of its pattern. */
  lemma UncutGoesOn(s: Schedule, limit: int, shift: int)
    requires Valid(s) && s.allDay && WeeklyOk(s) && WeekShape(WeekOf(s)) && OnPattern(WeekOf(s), limit)
    requires !CutBefore(s, limit, shift) && !(s.rule.until.Some? && s.rule.until.value.UntilInstant?)
    ensures OnDate(s, limit)
  {
    var slot := PatternHasSlot(s, limit);
    assert AtDate(s, limit) == Ok(Some(Midnight(limit)));
    assert Position(s, slot) == Some(Midnight(limit));
    ArithmeticOrdinal(s, slot, slot);
    FirstFrom(s, limit, slot);
  }

  lemma FirstFrom(s: Schedule, limit: int, slot: nat)
    requires WeeklyOk(s) && Slot(s, slot).date == Some(limit)
    ensures slot == SlotsBefore(s, limit, 0)
  {
    var k := SlotsBefore(s, limit, 0);
    SlotsBeforeSplits(s, limit, 0, slot);
    SlotsBeforeSplits(s, limit, 0, k);
    if k < slot {
      DateOrder(s, k, slot);
    }
  }

  /** The moved rule cuts off where the rule does. */
  lemma CutMoves(s: Schedule, t: Schedule, shift: int, limit: int)
    requires Shifted(s, t, shift) && WeeklyOk(s) && WeeklyOk(t) && WeekShape(WeekOf(s)) && WeekShape(WeekOf(t))
    requires MovesBefore(WeekOf(s), WeekOf(t), shift, limit)
    ensures CutBefore(t, limit + shift, -shift) <==> CutBefore(s, limit, shift)
  {
    SameSlotsBefore(s, t, shift, limit);
  }

  lemma CutDecides(s: Schedule, t: Schedule, shift: int, limit: int)
    requires Shifted(s, t, shift) && WeeklyOk(s) && WeeklyOk(t) && WeekShape(WeekOf(s)) && WeekShape(WeekOf(t))
    requires MovesBefore(WeekOf(s), WeekOf(t), shift, limit) && Differ(s, t, shift, limit)
    ensures EndsBefore(s, limit, shift) && EndsBefore(t, limit + shift, -shift) <==> CutBefore(s, limit, shift)
  {
    CutMoves(s, t, shift, limit);
    if CutBefore(s, limit, shift) {
      CutSeriesEnds(s, limit, shift);
      CutSeriesEnds(t, limit + shift, -shift);
    } else if OnPattern(WeekOf(s), limit) {
      UncutGoesOn(s, limit, shift);
    } else {
      UncutGoesOn(t, limit + shift, -shift);
    }
  }

  // ------------------------------------------------------------ the exact condition

  /** Where a selected day crosses its week's edge, the series is translated exactly when
      its own rule cuts it off before the first date at which one does. */
  lemma CrossingTranslatesIff(s: Schedule, t: Schedule, shift: int)
    requires Shifted(s, t, shift) && s.rule.frequency.Weekly? && WeekOf(s).span != 7
    requires FirstCrossing(s.weekDays, DriftBy(s, shift)).Some?
    ensures Translated(s, t, shift) <==> CutBefore(s, CrossingDate(WeekOf(s), DriftBy(s, shift)), shift)
  {
    var limit := CrossingDate(WeekOf(s), DriftBy(s, shift));
    FirstDifference(s, t, shift, limit);
    EndingTranslatesIff(s, t, shift, limit);
    CutDecides(s, t, shift, limit);
  }

  lemma FirstDifference(s: Schedule, t: Schedule, shift: int, limit: int)
    requires RuleMoved(s, t, shift) && s.rule.frequency.Weekly? && WeekOf(s).span != 7
    requires FirstCrossing(s.weekDays, DriftBy(s, shift)).Some? && limit == CrossingDate(WeekOf(s), DriftBy(s, shift))
    ensures WeeklyOk(s) && WeeklyOk(t) && WeekShape(WeekOf(s)) && WeekShape(WeekOf(t))
    ensures MovesBefore(WeekOf(s), WeekOf(t), shift, limit) && Differ(s, t, shift, limit)
  {
    DriftIsBy(s, t, shift);
    WeekFacts(s, t, shift);
    SpanIsWide(s);
    CrossingDecides(WeekOf(s), WeekOf(t), shift, DriftBy(s, shift), limit);
  }

  lemma SpanIsWide(s: Schedule)
    requires RuleOk(s.rule) && WeekOf(s).span != 7
    ensures WeekOf(s).span >= 14
  {
  }

  /** What a caller can check before moving a series by some days: the rule is DAILY, or
      its selected weeks stay whole, or it cuts the series off before the first date that
      crosses the edge of a week. */
  predicate ShiftIsSafe(s: Schedule, shift: int)
    requires SlotsOk(s) && s.rule.weekStart < 7
  {
    || s.rule.frequency.Daily?
    || KeepsWeeks(WeekOf(s), DriftBy(s, shift))
    || (FirstCrossing(s.weekDays, DriftBy(s, shift)).Some? && CutBefore(s, CrossingDate(WeekOf(s), DriftBy(s, shift)), shift))
  }

  /** For an all-day DAILY or WEEKLY event, moving the event and rewriting its rule moves
      the series exactly when that holds. */
  lemma ShiftTranslatesIff(s: Schedule, t: Schedule, shift: int)
    requires Shifted(s, t, shift) && (s.rule.frequency.Daily? || s.rule.frequency.Weekly?)
    ensures Translated(s, t, shift) <==> ShiftIsSafe(s, shift)
  {
    ShiftMovesSlots(s, t, shift);
    if s.rule.frequency.Daily? || KeepsWeeks(WeekOf(s), DriftBy(s, shift)) {
      AllMovedTranslates(s, t, shift);
    } else {
      WholeOrCrossing(WeekOf(s), DriftBy(s, shift));
      CrossingTranslatesIff(s, t, shift);
    }
  }

  /** The same of the events themselves. */
  lemma EventTranslatesIff(f: Fields, r: Rule, g: Fields, s: Schedule, t: Schedule, shift: int)
    requires ShiftedEvent(f, r, g) && f.allDay && g.allDay && (r.frequency.Daily? || r.frequency.Weekly?)
    requires s == New(f, r).value && t == New(g, ShiftRule(f, g, r).value).value
    requires shift == DateOfTime(LocalStart(g)) - DateOfTime(LocalStart(f))
    ensures SlotsOk(s) && SlotsOk(t) && s.rule.weekStart < 7 && (Translated(s, t, shift) <==> ShiftIsSafe(s, shift))
  {
    ShiftRuleShifts(f, r, g);
    NewBuilds(f, r);
    NewBuilds(g, ShiftRule(f, g, r).value);
    ShiftTranslatesIff(s, t, shift);
  }

  lemma CrossingDecides(w: Week, v: Week, shift: int, drift: int, limit: int)
    requires WeekShape(w) && WeekShape(v) && Drifted(w, v, shift, drift) && w.span >= 14 && StrictlySorted(w.days)
    requires w.start - w.anchor in w.days && FirstCrossing(w.days, drift).Some? && limit == CrossingDate(w, drift)
    ensures MovesBefore(w, v, shift, limit) && w.start <= limit
    ensures OnPattern(w, limit) != OnPattern(v, limit + shift)
  {
    forall date | date < limit ensures OnPattern(w, date) <==> OnPattern(v, date + shift) {
      CrossingIsFirst(w, v, shift, drift, date);
    }
    CrossingIsFirst(w, v, shift, drift, limit);
    CrossingAfterStart(w, v, shift, drift);
  }

  // ------------------------------------------------------------ a position that is lost

  /** Every second week on Monday and Wednesday, moved from a Monday to the Sunday six
      days later: Wednesday 0001-01-03 is a position, and six days after it there is none. */
  lemma ShiftCanLoseDays(f: Fields, g: Fields, r: Rule, s: Schedule, t: Schedule)
    requires f.allDay && f.start == Date(0) && f.end == Date(1) && ZoneOk(f.zone) && !Blank(f.title)
    requires g == f.(start := Date(6), end := Date(7)) && r == Rule(Weekly, 2, Some([0, 2]), 0, None, None)
    requires RuleOk(r) && New(f, r) == Ok(s) && ShiftRule(f, g, r).Ok? && RuleOk(ShiftRule(f, g, r).value)
    requires New(g, ShiftRule(f, g, r).value) == Ok(t)
    ensures Valid(s) && Valid(t) && OnDate(s, 2) && !OnDate(t, 2 + 6) && !Translated(s, t, 6)
  {
    ExampleIsShifted(f, g, r);
    ShiftRuleShifts(f, r, g);
    NewBuilds(f, r);
    NewBuilds(g, ShiftRule(f, g, r).value);
    MondayDates();
    ShiftWithoutUntil(f, g, r, 6);
    ExampleLoses(s, t);
  }

  lemma ExampleLoses(s: Schedule, t: Schedule)
    requires Shifted(s, t, 6) && s.rule == Rule(Weekly, 2, Some([0, 2]), 0, None, None) && t.rule.weekStart == 0
    requires s.startDate == 0
    ensures OnDate(s, 2) && !OnDate(t, 8) && !Translated(s, t, 6)
  {
    MondayDates();
    ExampleDrift(s, t);
    WeekFacts(s, t, 6);
    ExampleWeeks(WeekOf(s), WeekOf(t));
    ExampleHas(s, 2);
    if OnDate(t, 8) {
      DateIsOnPattern(t, 8);
    }
    assert InRange(2) && InRange(2 + 6);
  }

  lemma ExampleWeeks(w: Week, v: Week)
    requires WeekShape(w) && WeekShape(v) && Drifted(w, v, 6, 6) && w.start == w.anchor == 0 && w.span == 14 && 2 in w.days
    ensures OnPattern(w, 2) && !OnPattern(v, 8)
  {
    SmallRem(2, 14);
    SmallRem(8, 14);
  }

  /** Without COUNT and UNTIL, every date of the pattern is a position. */
  lemma ExampleHas(s: Schedule, date: int)
    requires Valid(s) && s.allDay && WeeklyOk(s) && WeekShape(WeekOf(s)) && OnPattern(WeekOf(s), date) && InRange(date)
    requires s.rule.count.None? && s.rule.until.None?
    ensures OnDate(s, date)
  {
    var slot := PatternHasSlot(s, date);
    assert AtDate(s, date) == Ok(Some(Midnight(date)));
    assert Position(s, slot) == Some(Midnight(date));
  }
}
