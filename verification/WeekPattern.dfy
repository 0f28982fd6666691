/** WEEKLY rules as sets of dates. A rule's slots list its pattern in order, so
    two rules with the same pattern have the same series, and a moved pattern has
    the moved series. */
module WeekPattern {
  import opened Basics
  import opened CivilCalendar
  import opened Rules
  import opened Arithmetic
  import opened Schedules
  import opened SlotOrder

  /** The selected days of every `span` days, from a start date on. */
  datatype Week = Week(start: int, anchor: int, span: nat, days: seq<nat>)

  predicate WeekShape(w: Week) {
    7 <= w.span && w.anchor <= w.start <= w.anchor + 6 && forall o :: o in w.days ==> o < 7
  }

  predicate OnPattern(w: Week, date: int)
    requires WeekShape(w)
  {
    w.start <= date && Rem(date - w.anchor, w.span) in w.days
  }

  // ------------------------------------------------------------ slots list the pattern

  predicate WeeklyOk(s: Schedule) {
    SlotsOk(s) && s.rule.frequency.Weekly?
  }

  function WeekOf(s: Schedule): Week {
    Week(s.startDate, s.weekAnchor, 7 * s.rule.interval, s.weekDays)
  }

  lemma WeekOfShape(s: Schedule)
    requires WeeklyOk(s)
    ensures WeekShape(WeekOf(s))
  {
    assert s.firstWeekDays[0] == s.weekDays[Skipped(s)];
    assert s.weekDays[Skipped(s)] in s.weekDays;
  }

  lemma SlotOnPattern(s: Schedule, slot: nat)
    requires WeeklyOk(s)
    ensures WeekShape(WeekOf(s)) && Slot(s, slot).date.Some? && OnPattern(WeekOf(s), Slot(s, slot).date.value)
  {
    var index := slot + Skipped(s);
    WeekOfShape(s);
    WeekSlotIsWeekDate(s, slot);
    SlotDatesFromStart(s, slot);
    var day := s.weekDays[index % |s.weekDays|];
    assert day in s.weekDays;
    RemUnique(Slot(s, slot).date.value - s.weekAnchor, index / |s.weekDays|, day, 7 * s.rule.interval);
  }

  lemma PatternHasSlot(s: Schedule, date: int) returns (slot: nat)
    requires WeeklyOk(s) && WeekShape(WeekOf(s)) && OnPattern(WeekOf(s), date)
    ensures Slot(s, slot).date == Some(date)
  {
    var n, span := |s.weekDays|, 7 * s.rule.interval;
    var week, day := Quot(date - s.weekAnchor, span), Rem(date - s.weekAnchor, span);
    var i :| 0 <= i < n && s.weekDays[i] == day;
    assert 0 <= week by {
      if week < 0 {
        MulOrder(week, -1, span);
      }
    }
    var index := week * n + i;
    assert Skipped(s) <= index by {
      NotSkipped(s, week, i, span, date);
    }
    DivModUnique(week, i, n);
    slot := index - Skipped(s);
    WeekSlotIsWeekDate(s, slot);
  }

  /** A selected date from the start on is not among the skipped days. */
  lemma NotSkipped(s: Schedule, week: nat, i: nat, span: nat, date: int)
    requires WeeklyOk(s) && i < |s.weekDays| && s.startDate <= date
    requires date == s.weekAnchor + week * span + s.weekDays[i]
    ensures Skipped(s) <= week * |s.weekDays| + i
  {
    if week == 0 {
      assert s.firstWeekDays[0] == s.weekDays[Skipped(s)];
    } else {
      MulOrder(1, week, |s.weekDays|);
    }
  }

  /** The second pattern is the first one, `shift` days later. */
  ghost predicate Moves(w: Week, v: Week, shift: int)
    requires WeekShape(w) && WeekShape(v)
  {
    forall date :: OnPattern(w, date) <==> OnPattern(v, date + shift)
  }

  /** Moving a pattern moves its enumeration, slot by slot. */
  lemma {:induction false} SameEnumeration(s: Schedule, t: Schedule, shift: int, slot: nat)
    requires WeeklyOk(s) && WeeklyOk(t) && WeekShape(WeekOf(s)) && WeekShape(WeekOf(t))
    requires Moves(WeekOf(s), WeekOf(t), shift)
    ensures Slot(t, slot).date == Some(Slot(s, slot).date.value + shift)
  {
    SlotOnPattern(s, slot);
    SlotOnPattern(t, slot);
    var a, b := Slot(s, slot).date.value, Slot(t, slot).date.value;
    var j := PatternHasSlot(t, a + shift);
    assert OnPattern(WeekOf(s), b - shift) by {
      assert b - shift + shift == b;
    }
    var k := PatternHasSlot(s, b - shift);
    if j < slot {
      SameEnumeration(s, t, shift, j);
      DateOrder(s, j, slot);
    } else if k < slot {
      SameEnumeration(s, t, shift, k);
      DateOrder(t, k, slot);
    } else if slot < j {
      DateOrder(t, slot, j);
      if slot < k {
        DateOrder(s, slot, k);
      }
    }
  }

  /** The patterns correspond before a date. */
  ghost predicate MovesBefore(w: Week, v: Week, shift: int, limit: int)
    requires WeekShape(w) && WeekShape(v)
  {
    forall date :: date < limit ==> (OnPattern(w, date) <==> OnPattern(v, date + shift))
  }

  /** Then so do the enumerations, as far as that date. */
  lemma {:induction false} SameEnumerationBefore(s: Schedule, t: Schedule, shift: int, limit: int, slot: nat)
    requires WeeklyOk(s) && WeeklyOk(t) && WeekShape(WeekOf(s)) && WeekShape(WeekOf(t))
    requires MovesBefore(WeekOf(s), WeekOf(t), shift, limit)
    requires Slot(s, slot).date.Some? && Slot(s, slot).date.value < limit
    ensures Slot(t, slot).date == Some(Slot(s, slot).date.value + shift)
  {
    SlotOnPattern(s, slot);
    SlotOnPattern(t, slot);
    var a, b := Slot(s, slot).date.value, Slot(t, slot).date.value;
    var j := PatternHasSlot(t, a + shift);
    if j < slot {
      SlotOnPattern(s, j);
      DateOrder(s, j, slot);
      SameEnumerationBefore(s, t, shift, limit, j);
    } else {
      if slot < j {
        DateOrder(t, slot, j);
      }
      assert OnPattern(WeekOf(s), b - shift) by {
        assert b - shift + shift == b;
      }
      var k := PatternHasSlot(s, b - shift);
      if k < slot {
        SameEnumerationBefore(s, t, shift, limit, k);
        DateOrder(t, k, slot);
      } else if slot < k {
        DateOrder(s, slot, k);
      }
    }
  }

  // ------------------------------------------------------------ drifting within the week

  /** `v` starts `shift` days after `w`, at an offset `drift` further into its week,
      and its days are those of `w` turned around the week by the drift. */
  ghost predicate Drifted(w: Week, v: Week, shift: int, drift: int) {
    && -6 <= drift <= 6
    && v.start == w.start + shift && v.anchor == w.anchor + shift - drift && v.span == w.span
    && DriftedDays(w.days, v.days, drift)
  }

  ghost predicate DriftedDays(days: seq<nat>, drifted: seq<nat>, drift: int)
    requires -6 <= drift <= 6
  {
    forall o :: 0 <= o < 7 ==> (o in drifted <==> Around(o - drift) in days)
  }

  /** `moved` are the weekdays of `days`, turned around the week. */
  ghost predicate Turned(days: seq<nat>, moved: seq<nat>, turn: nat)
    requires turn < 7
  {
    forall day :: 0 <= day < 7 ==> (Around(day + turn) in moved <==> day in days)
  }

  /** Every week is selected, or no selected day drifts over the week's edge. */
  predicate KeepsWeeks(w: Week, drift: int) {
    w.span == 7 || forall o :: o in w.days ==> 0 <= o + drift <= 6
  }

  lemma EveryWeekMoves(w: Week, v: Week, shift: int, drift: int, date: int)
    requires WeekShape(w) && WeekShape(v) && Drifted(w, v, shift, drift) && w.span == 7
    ensures OnPattern(w, date) <==> OnPattern(v, date + shift)
  {
    var a := date - w.anchor;
    var q, r := Quot(a + drift, 7), Rem(a + drift, 7);
    RemUnique(a, if r - drift < 0 then q - 1 else if r - drift < 7 then q else q + 1, Around(r - drift), 7);
    assert date + shift - v.anchor == a + drift;
  }

  lemma SomeWeeksMove(w: Week, v: Week, shift: int, drift: int, date: int)
    requires WeekShape(w) && WeekShape(v) && Drifted(w, v, shift, drift)
    requires forall o :: o in w.days ==> 0 <= o + drift <= 6
    ensures OnPattern(w, date) <==> OnPattern(v, date + shift)
  {
    var a := date - w.anchor;
    assert date + shift - v.anchor == a + drift;
    var r, q := Rem(a, w.span), Rem(a + drift, w.span);
    if r in w.days {
      assert Around(r + drift - drift) == r;
      RemUnique(a + drift, Quot(a, w.span), r + drift, w.span);
    }
    if q in v.days {
      assert 0 <= Around(q - drift) + drift <= 6;
      RemUnique(a, Quot(a + drift, w.span), q - drift, w.span);
    }
  }

  /** With weeks left out, a day that crosses the week's edge is lost. */
  lemma CrossingDayIsLost(w: Week, v: Week, shift: int, drift: int, offset: nat)
    requires WeekShape(w) && WeekShape(v) && Drifted(w, v, shift, drift) && w.span >= 14
    requires offset in w.days && !(0 <= offset + drift <= 6)
    ensures OnPattern(w, w.anchor + w.span + offset)
    ensures !OnPattern(v, w.anchor + w.span + offset + shift)
  {
    RemUnique(w.span + offset, 1, offset, w.span);
    assert w.anchor + w.span + offset + shift - v.anchor == w.span + offset + drift;
    if offset + drift < 0 {
      RemUnique(w.span + offset + drift, 0, w.span + offset + drift, w.span);
    } else {
      RemUnique(w.span + offset + drift, 1, offset + drift, w.span);
    }
  }

  // ------------------------------------------------------------ the first crossing

  /** A selected day that drifts over the week's edge. */
  predicate Crosses(offset: nat, drift: int) {
    !(0 <= offset + drift <= 6)
  }

  /** The first selected day that does. */
  function FirstCrossing(days: seq<nat>, drift: int): (r: Option<nat>)
    ensures r.None? ==> forall o :: o in days ==> !Crosses(o, drift)
    ensures r.Some? ==> r.value in days && Crosses(r.value, drift)
    ensures r.Some? && StrictlySorted(days) ==> forall o :: o in days && Crosses(o, drift) ==> r.value <= o
  {
    if days == [] then None
    else if Crosses(days[0], drift) then Some(days[0])
    else
      var rest := FirstCrossing(days[1..], drift);
      assert forall o :: o in days ==> o == days[0] || o in days[1..];
      assert StrictlySorted(days) ==> StrictlySorted(days[1..]);
      rest
  }

  /** The first date at which a drifted pattern with weeks left out differs: a day that
      leaves its week at the end, or one that enters the first week at its end. */
  function CrossingDate(w: Week, drift: int): int
    requires FirstCrossing(w.days, drift).Some?
  {
    w.anchor + FirstCrossing(w.days, drift).value + if drift > 0 then 0 else 7
  }

  lemma SmallRem(a: int, n: nat)
    requires 0 <= a < n
    ensures Rem(a, n) == a
  {
    RemUnique(a, 0, a, n);
  }

  /** Within the first week, left to itself, a pattern is its selected days. */
  lemma InFirstWeek(w: Week, date: int)
    requires WeekShape(w) && w.span >= 14 && w.start <= date < w.anchor + w.span
    ensures OnPattern(w, date) <==> date - w.anchor in w.days
  {
    SmallRem(date - w.anchor, w.span);
  }

  /** Before the crossing the patterns correspond, and at the crossing they do not. */
  lemma CrossingIsFirst(w: Week, v: Week, shift: int, drift: int, date: int)
    requires WeekShape(w) && WeekShape(v) && Drifted(w, v, shift, drift) && w.span >= 14 && StrictlySorted(w.days)
    requires w.start - w.anchor in w.days && FirstCrossing(w.days, drift).Some?
    ensures date < CrossingDate(w, drift) ==> (OnPattern(w, date) <==> OnPattern(v, date + shift))
    ensures date == CrossingDate(w, drift) ==>
      if drift > 0 then OnPattern(w, date) && !OnPattern(v, date + shift)
      else !OnPattern(w, date) && OnPattern(v, date + shift)
  {
    CrossingAfterStart(w, v, shift, drift);
    if w.start <= date < CrossingDate(w, drift) {
      BeforeCrossing(w, v, shift, drift, date);
    } else if date == CrossingDate(w, drift) {
      AtCrossing(w, v, shift, drift);
    }
  }

  lemma BeforeCrossing(w: Week, v: Week, shift: int, drift: int, date: int)
    requires WeekShape(w) && WeekShape(v) && Drifted(w, v, shift, drift) && w.span >= 14 && StrictlySorted(w.days)
    requires w.start - w.anchor in w.days && FirstCrossing(w.days, drift).Some? && w.start <= date < CrossingDate(w, drift)
    ensures OnPattern(w, date) <==> OnPattern(v, date + shift)
  {
    var o := date - w.anchor;
    assert date + shift - v.anchor == o + drift;
    InFirstWeek(w, date);
    InFirstWeek(v, date + shift);
    if o + drift <= 6 {
      assert o + drift in v.days <==> Around(o) in w.days;
    }
  }

  lemma AtCrossing(w: Week, v: Week, shift: int, drift: int)
    requires WeekShape(w) && WeekShape(v) && Drifted(w, v, shift, drift) && w.span >= 14 && StrictlySorted(w.days)
    requires w.start - w.anchor in w.days && FirstCrossing(w.days, drift).Some? && w.start <= CrossingDate(w, drift)
    ensures var date := CrossingDate(w, drift);
      if drift > 0 then OnPattern(w, date) && !OnPattern(v, date + shift)
      else !OnPattern(w, date) && OnPattern(v, date + shift)
  {
    var date := CrossingDate(w, drift);
    var o := date - w.anchor;
    assert date + shift - v.anchor == o + drift;
    InFirstWeek(w, date);
    InFirstWeek(v, date + shift);
    if o + drift <= 6 {
      assert o + drift in v.days <==> Around(o) in w.days;
    }
  }

  lemma CrossingAfterStart(w: Week, v: Week, shift: int, drift: int)
    requires WeekShape(w) && WeekShape(v) && Drifted(w, v, shift, drift) && w.span >= 14
    requires FirstCrossing(w.days, drift).Some?
    ensures w.start < CrossingDate(w, drift) <= w.anchor + 12
  {
    assert v.start - v.anchor == w.start - w.anchor + drift;
  }

  /** A drifted WEEKLY rule has the moved slots exactly when its weeks stay whole. */
  lemma MovesIffKeepsWeeks(s: Schedule, t: Schedule, shift: int, drift: int)
    requires WeeklyOk(s) && WeeklyOk(t) && Drifted(WeekOf(s), WeekOf(t), shift, drift)
    ensures KeepsWeeks(WeekOf(s), drift) <==>
      forall slot: nat :: Slot(t, slot).date == Some(Slot(s, slot).date.value + shift)
  {
    var w, v := WeekOf(s), WeekOf(t);
    WeekOfShape(s);
    WeekOfShape(t);
    if KeepsWeeks(w, drift) {
      forall date ensures OnPattern(w, date) <==> OnPattern(v, date + shift) {
        if w.span == 7 {
          EveryWeekMoves(w, v, shift, drift, date);
        } else {
          SomeWeeksMove(w, v, shift, drift, date);
        }
      }
      forall slot: nat ensures Slot(t, slot).date == Some(Slot(s, slot).date.value + shift) {
        SameEnumeration(s, t, shift, slot);
      }
    } else {
      var offset :| offset in w.days && !(0 <= offset + drift <= 6);
      CrossingDayIsLost(w, v, shift, drift, offset);
      var date := w.anchor + w.span + offset;
      var slot := PatternHasSlot(s, date);
      SlotOnPattern(t, slot);
    }
  }

  // ------------------------------------------------------------ weekday selections

  /** Weekdays turned by a number of days, as the rule parser orders them. */
  function MovedDays(days: seq<nat>, shift: int): seq<nat> {
    WeekOffsets(seq(|days|, i requires 0 <= i < |days| => Weekday(days[i] + shift)), 0)
  }

  lemma MovedDaysExact(days: seq<nat>, shift: int, day: nat)
    requires day < 7 && forall i :: 0 <= i < |days| ==> days[i] < 7
    ensures Around(day + Weekday(shift)) in MovedDays(days, shift) <==> day in days
  {
    var moved := seq(|days|, i requires 0 <= i < |days| => Weekday(days[i] + shift));
    var to := Around(day + Weekday(shift));
    forall i | 0 <= i < |days| ensures moved[i] == to <==> days[i] == day {
      WeekdaySum(days[i], shift);
      assert Weekday(days[i]) == days[i];
    }
    if day in days {
      var i :| 0 <= i < |days| && days[i] == day;
      assert moved[i] == to;
    }
    assert Around(to + 0) == to;
  }

  /** What `New` computes of a week: the offset of the start and the selected offsets. */
  lemma OffsetsOfDays(days: seq<nat>, weekStart: nat, offset: nat)
    requires weekStart < 7 && offset < 7
    ensures offset in WeekOffsets(days, weekStart) <==> Around(offset + weekStart) in days
  {
  }

  /** Turning the weekdays and moving the start turns the offsets by the drift; the
      week may begin on another day as well. */
  lemma DaysDrift(days: seq<nat>, moved: seq<nat>, start: int, shift: int, a: nat, b: nat, offset: nat)
    requires a < 7 && b < 7 && offset < 7
    requires Turned(days, moved, Weekday(shift))
    ensures var drift := Around(Weekday(start + shift) + 7 - b) - Around(Weekday(start) + 7 - a);
      offset in WeekOffsets(moved, b) <==> Around(offset - drift) in WeekOffsets(days, a)
  {
    WeekdaySum(start, shift);
    var drift := Around(Weekday(start + shift) + 7 - b) - Around(Weekday(start) + 7 - a);
    var back := Around(offset - drift);
    OffsetsOfDays(moved, b, offset);
    OffsetsOfDays(days, a, back);
    assert Around(offset + b) == Around(Around(back + a) + Weekday(shift));
  }
}
