/** When two event sets count as equal. The comparison looks at the rules and at the
    overridden positions only; a positive answer means that the sets agree at every
    position, and so in every window. */
module SetEquivalence {
  import opened Basics
  import opened Zones
  import opened Rules
  import opened Schedules
  import opened SlotOrder
  import opened Series
  import opened Engine
  import opened Lookup
  import opened RuleEquivalence
  import opened EventSets
  import opened Projection

  // ------------------------------------------------------------ comparable form

  /** A zone under its canonical name. */
  function Renamed(canonical: string -> string, z: Zone): Zone {
    z.(name := canonical(z.name))
  }

  /** The master, or a live override, is in this zone. */
  ghost predicate UsesZone(es: EventSet, z: Zone) {
    || z == es.event.fields.zone
    || exists o :: o in es.overrides && o.event.Some? && o.event.value.fields.zone == z
  }

  ghost predicate InUse(left: EventSet, right: EventSet, z: Zone) {
    UsesZone(left, z) || UsesZone(right, z)
  }

  /** Zones with one canonical name convert alike. */
  ghost predicate SameByName(canonical: string -> string, y: Zone, z: Zone) {
    canonical(y.name) == canonical(z.name) ==> y.resolve == z.resolve && y.offset == z.offset
  }

  /** What the comparison relies on, of the zones that the two sets use: a real zone is
      one under its canonical name too, and zones with one canonical name convert alike. */
  ghost predicate Canonizes(canonical: string -> string, left: EventSet, right: EventSet) {
    && (forall z :: InUse(left, right, z) && ZoneOk(z) ==> ZoneOk(Renamed(canonical, z)))
    && (forall y, z :: InUse(left, right, y) && InUse(left, right, z) ==> SameByName(canonical, y, z))
  }

  /** If every zone keeps its name, this says that names tell the zones in use apart. */
  lemma {:induction false} NamesCanonize(canonical: string -> string, left: EventSet, right: EventSet)
    requires forall name :: canonical(name) == name
    ensures Canonizes(canonical, left, right) <==>
      forall y, z :: InUse(left, right, y) && InUse(left, right, z) && y.name == z.name ==> y.resolve == z.resolve && y.offset == z.offset
  {
    assert forall z :: Renamed(canonical, z) == z;
    if Canonizes(canonical, left, right) {
      forall y, z | InUse(left, right, y) && InUse(left, right, z) && y.name == z.name ensures y.resolve == z.resolve && y.offset == z.offset {
        assert SameByName(canonical, y, z);
      }
    }
  }

  /** It can be met with two names for one zone, beside a zone of another kind. */
  lemma {:induction false} AliasesCanonize(at: int, alias: Zone, canonical: string -> string, left: EventSet, right: EventSet)
    requires alias == FallBack(at).(name := "Fall/Alias")
    requires forall name :: canonical(name) == if name == "Fall/Alias" then "Fall/Back" else name
    requires forall z :: InUse(left, right, z) ==> z == UTC || z == FallBack(at) || z == alias
    ensures Canonizes(canonical, left, right)
    ensures canonical(alias.name) == canonical(FallBack(at).name) && alias.name != FallBack(at).name
  {
    var back := FallBack(at);
    assert Renamed(canonical, UTC) == UTC && Renamed(canonical, back) == back && Renamed(canonical, alias) == back;
    FallBackIsOk(at);
    UtcIsOk();
  }

  /** Such sets exist. */
  lemma AliasedSets(at: int) returns (left: EventSet, right: EventSet, canonical: string -> string)
    ensures SetOk(left) && SetOk(right) && ValidSet(left) && ValidSet(right) && Canonizes(canonical, left, right)
    ensures left.event.fields.zone == FallBack(at) && right.event.fields.zone.name != FallBack(at).name
    ensures Match(left.event.fields, right.event.fields)
  {
    var alias := FallBack(at).(name := "Fall/Alias");
    var f := Fields("t", None, None, Instant(0), Instant(1), false, FallBack(at));
    left, right := EventSet(Event(f, None, Standalone), [], None), EventSet(Event(f.(zone := alias), None, Standalone), [], None);
    canonical := name => if name == "Fall/Alias" then "Fall/Back" else name;
    AliasesCanonize(at, alias, canonical, left, right);
    FallBackIsOk(at);
    AliasIsOk(at, alias);
    assert 't' in f.title;
  }

  lemma AliasIsOk(at: int, alias: Zone)
    requires alias == FallBack(at).(name := "Fall/Alias")
    ensures ZoneOk(alias)
  {
    FallBackIsOk(at);
    assert alias.name[0] in alias.name;
    var z := FallBack(at);
    assert forall t :: alias.ToLocal(t) == z.ToLocal(t);
    assert forall date, timeOfDay :: alias.Showing(date, timeOfDay) == z.Showing(date, timeOfDay);
  }

  /** Dates are the same in every zone. */
  function CanonicalFields(canonical: string -> string, f: Fields): Fields {
    f.(zone := if f.allDay then UTC else Renamed(canonical, f.zone))
  }

  function CanonicalEvent(canonical: string -> string, event: Event): Event {
    event.(fields := CanonicalFields(canonical, event.fields))
  }

  function CanonicalOverride(canonical: string -> string, o: Override): Override {
    if o.event.None? then o else o.(event := Some(CanonicalEvent(canonical, o.event.value)))
  }

  function CanonicalOverrides(canonical: string -> string, overrides: seq<Override>): (r: seq<Override>)
    ensures |r| == |overrides| && forall i :: 0 <= i < |r| ==> r[i] == CanonicalOverride(canonical, overrides[i])
  {
    seq(|overrides|, i requires 0 <= i < |overrides| => CanonicalOverride(canonical, overrides[i]))
  }

  function ComparableSet(canonical: string -> string, es: EventSet): Result<EventSet>
    requires es.event.rule.Some? ==> RuleOk(es.event.rule.value)
  {
    match SemanticEvent(CanonicalEvent(canonical, es.event))
    case Err => Err
    case Ok(event) => Ok(es.(event := event, overrides := CanonicalOverrides(canonical, es.overrides)))
  }

  // ------------------------------------------------------------ fields that match

  function LocationOf(f: Fields): Option<string> {
    if f.location == Some("") then None else f.location
  }

  /** The comparison of fields in canonical form; descriptions are content. */
  predicate AlikeFields(f: Fields, g: Fields) {
    && f.title == g.title && LocationOf(f) == LocationOf(g)
    && f.start == g.start && f.end == g.end && f.allDay == g.allDay && f.zone.name == g.zone.name
  }

  /** Fields that say the same: all but the description, zones by what they convert. */
  ghost predicate Match(f: Fields, g: Fields) {
    && f.title == g.title && LocationOf(f) == LocationOf(g)
    && f.start == g.start && f.end == g.end && f.allDay == g.allDay
    && (!f.allDay ==> f.zone.resolve == g.zone.resolve && f.zone.offset == g.zone.offset)
  }

  /** Fields in canonical form that compare alike are the same times, and match. */
  lemma {:induction false} AlikeMatch(canonical: string -> string, f: Fields, g: Fields)
    requires SameByName(canonical, f.zone, g.zone) && AlikeFields(CanonicalFields(canonical, f), CanonicalFields(canonical, g))
    ensures SameTimes(CanonicalFields(canonical, f), CanonicalFields(canonical, g)) && Match(f, g)
  {
  }

  // ------------------------------------------------------------ positions of the comparable form

  /** The schedule of an event does not depend on how its zone is named. */
  lemma {:induction false} CanonicalSchedule(canonical: string -> string, event: Event)
    requires EventOk(event) && ZoneOk(Renamed(canonical, event.fields.zone))
    ensures EventOk(CanonicalEvent(canonical, event)) && FromEvent(CanonicalEvent(canonical, event)).Ok? == FromEvent(event).Ok?
    ensures FromEvent(event).Ok? ==>
      ScheduleOf(CanonicalEvent(canonical, event)) == ScheduleOf(event).(zone := CanonicalFields(canonical, event.fields).zone)
  {
    UtcIsOk();
    var f, g := event.fields, CanonicalFields(canonical, event.fields);
    assert forall t :: LocalTime(f, t) == LocalTime(g, t);
  }

  lemma SameButZone(s: Schedule, t: Schedule, slot: nat)
    requires SlotsOk(s) && t == s.(zone := t.zone) && (s.allDay || t.zone.resolve == s.zone.resolve)
    ensures Position(s, slot) == Position(t, slot) && InSeries(s, slot) == InSeries(t, slot)
  {
    SameOrdinal(s, t, slot);
  }

  lemma SameInstant(s: Schedule, t: Schedule, slot: nat)
    requires SlotsOk(s) && t == s.(zone := t.zone) && (s.allDay || t.zone.resolve == s.zone.resolve)
    ensures Position(s, slot) == Position(t, slot)
  {
    assert Slot(s, slot) == Slot(t, slot);
    assert forall date :: AtDate(s, date) == AtDate(t, date);
  }

  lemma {:induction false} SameOrdinal(s: Schedule, t: Schedule, slot: nat)
    requires SlotsOk(s) && t == s.(zone := t.zone) && (s.allDay || t.zone.resolve == s.zone.resolve)
    ensures Position(s, slot) == Position(t, slot) && Ordinal(s, slot) == Ordinal(t, slot)
  {
    SameInstant(s, t, slot);
    if slot > 0 {
      SameOrdinal(s, t, slot - 1);
    }
  }

  /** The comparable form of a series repeats at the same instants, with the same length. */
  lemma {:induction false} ComparablePositions(canonical: string -> string, es: EventSet)
    requires SetOk(es) && ZoneOk(Renamed(canonical, es.event.fields.zone)) && ComparableSet(canonical, es).Ok? && es.event.rule.Some?
    ensures var c := ComparableSet(canonical, es).value;
      && FromEvent(es.event).Ok? && SetOk(c) && FromEvent(c.event).Ok?
      && ScheduleOf(c.event).duration == ScheduleOf(es.event).duration
      && ScheduleOf(c.event).allDay == ScheduleOf(es.event).allDay == es.event.fields.allDay
      && forall time :: IsPosition(ScheduleOf(c.event), time) <==> IsPosition(ScheduleOf(es.event), time)
  {
    var middle := CanonicalEvent(canonical, es.event);
    CanonicalSchedule(canonical, es.event);
    SemanticOk(middle);
    var s, t := ScheduleOf(es.event), ScheduleOf(middle);
    forall time ensures IsPosition(ScheduleOf(SemanticEvent(middle).value), time) <==> IsPosition(s, time) {
      SemanticEventKeepsPositions(middle, time);
      SamePositionsButZone(s, t, time);
    }
    SemanticEventKeepsPositions(middle, 0);
  }

  lemma SamePositionsButZone(s: Schedule, t: Schedule, time: int)
    requires SlotsOk(s) && t == s.(zone := t.zone) && (s.allDay || t.zone.resolve == s.zone.resolve)
    ensures IsPosition(s, time) <==> IsPosition(t, time)
  {
    forall slot: nat ensures Position(s, slot) == Position(t, slot) && InSeries(s, slot) == InSeries(t, slot) {
      SameButZone(s, t, slot);
    }
  }

  lemma {:induction false} FindCanonical(canonical: string -> string, overrides: seq<Override>, key: Stamp)
    ensures var c, o := Find(CanonicalOverrides(canonical, overrides), key), Find(overrides, key);
      && (c.Some? <==> o.Some?) && (o.Some? ==> c.value == CanonicalOverride(canonical, o.value))
    decreases |overrides|
  {
    if overrides != [] {
      assert CanonicalOverrides(canonical, overrides)[1..] == CanonicalOverrides(canonical, overrides[1..]);
      FindCanonical(canonical, overrides[1..], key);
    }
  }

  // ------------------------------------------------------------ what a set means at a position

  /** The event at a position has the fields `f`: those of its override, or the generated
      ones. How much work a lookup may spend does not come into it. */
  ghost predicate Means(es: EventSet, key: Stamp, f: Fields)
    requires SetOk(es)
  {
    && es.event.kind.Series? && FromEvent(es.event).Ok?
    && match Find(es.overrides, key)
       case Some(o) => o.event.Some? && o.event.value.fields == f
       case None => GeneratedAs(es.event, key, f)
  }

  ghost predicate GeneratedAs(event: Event, key: Stamp, f: Fields)
    requires EventOk(event) && FromEvent(event).Ok?
  {
    var s := ScheduleOf(event);
    IsPosition(s, Boundary(key)) && Names(s, key, Boundary(key)) && f == OccurrenceFields(s, event.fields, Boundary(key))
  }

  /** What is selected at a position is what the set means there. */
  lemma SelectedIsMeant(es: EventSet, key: Stamp)
    requires SetOk(es) && Selected(es, Some(key)).Ok? && FromEvent(es.event).Ok?
    ensures Means(es, key, Selected(es, Some(key)).value.fields)
  {
    if Find(es.overrides, key).None? {
      var s, f := ScheduleOf(es.event), Selected(es, Some(key)).value.fields;
      assert Resolves(s, es.event.fields, key, f);
      var slot: nat :| NamedSlot(s, key, slot) && FieldsAt(s, es.event.fields, Position(s, slot).value) == Ok(f);
      assert IsPosition(s, Boundary(key));
    }
  }

  /** The set has a matching event at the position. */
  ghost predicate Holds(es: EventSet, key: Stamp, f: Fields)
    requires SetOk(es)
  {
    exists g :: Means(es, key, g) && Match(f, g)
  }

  /** What the comparable form means is what the set means, in canonical form. */
  lemma {:induction false} ComparableMeans(canonical: string -> string, es: EventSet, c: EventSet, key: Stamp, f: Fields) returns (g: Fields)
    requires SetOk(es) && ZoneOk(Renamed(canonical, es.event.fields.zone)) && ComparableSet(canonical, es) == Ok(c) && es.event.rule.Some?
    requires SetOk(c) && Means(c, key, f)
    ensures Means(es, key, g) && f == CanonicalFields(canonical, g) && UsesZone(es, g.zone)
  {
    ComparablePositions(canonical, es);
    FindCanonical(canonical, es.overrides, key);
    if Find(es.overrides, key).Some? {
      g := Find(es.overrides, key).value.event.value.fields;
      FoundIsThere(es.overrides, key);
    } else {
      ComparableFields(canonical, es.event, c.event);
      g := GeneratedInForm(canonical, es.event, c.event, key, f);
    }
  }

  lemma {:induction false} FoundIsThere(overrides: seq<Override>, key: Stamp)
    requires Find(overrides, key).Some?
    ensures Find(overrides, key).value in overrides
  {
    if overrides[0].originalStart != key {
      FoundIsThere(overrides[1..], key);
    }
  }

  lemma {:induction false} GeneratedInForm(canonical: string -> string, event: Event, c: Event, key: Stamp, f: Fields) returns (g: Fields)
    requires EventOk(event) && EventOk(c) && FromEvent(event).Ok? && FromEvent(c).Ok? && GeneratedAs(c, key, f)
    requires c.fields == CanonicalFields(canonical, event.fields)
    requires ScheduleOf(c).duration == ScheduleOf(event).duration && ScheduleOf(c).allDay == ScheduleOf(event).allDay
    requires forall time :: IsPosition(ScheduleOf(c), time) <==> IsPosition(ScheduleOf(event), time)
    ensures GeneratedAs(event, key, g) && f == CanonicalFields(canonical, g) && g.zone == event.fields.zone
  {
    g := OccurrenceFields(ScheduleOf(event), event.fields, Boundary(key));
  }

  lemma {:induction false} ComparableFields(canonical: string -> string, event: Event, c: Event)
    requires EventOk(event) && SemanticEvent(CanonicalEvent(canonical, event)) == Ok(c)
    ensures c.fields == CanonicalFields(canonical, event.fields) && c.kind == event.kind
  {
  }

  // ------------------------------------------------------------ sets that agree

  /** Two events that repeat at the same instants with matching fields. */
  ghost predicate RepeatAlike(a: Event, b: Event) {
    EventOk(a) && EventOk(b) && FromEvent(a).Ok? && FromEvent(b).Ok? && SamePositions(a, b) && Match(a.fields, b.fields)
  }

  lemma GeneratedMatch(a: Event, b: Event, key: Stamp)
    requires RepeatAlike(a, b) && IsPosition(ScheduleOf(a), Boundary(key)) && Names(ScheduleOf(a), key, Boundary(key))
    ensures var s, t := ScheduleOf(a), ScheduleOf(b);
      && IsPosition(t, Boundary(key)) && Names(t, key, Boundary(key))
      && Match(OccurrenceFields(s, a.fields, Boundary(key)), OccurrenceFields(t, b.fields, Boundary(key)))
  {
  }

  /** Whatever one set means at the position, the other holds. */
  ghost predicate AgreeAt(left: EventSet, right: EventSet, key: Stamp)
    requires SetOk(left) && SetOk(right)
  {
    forall f :: Means(left, key, f) ==> Holds(right, key, f)
  }

  lemma AgreeWhereGenerated(left: EventSet, right: EventSet, key: Stamp)
    requires SetOk(left) && SetOk(right) && left.event.kind == right.event.kind && RepeatAlike(left.event, right.event)
    requires Find(left.overrides, key).None? && Find(right.overrides, key).None?
    ensures AgreeAt(left, right, key)
  {
    forall f | Means(left, key, f) ensures Holds(right, key, f) {
      GeneratedMatch(left.event, right.event, key);
      assert Means(right, key, OccurrenceFields(ScheduleOf(right.event), right.event.fields, Boundary(key)));
    }
  }

  lemma AgreeWithWitness(left: EventSet, right: EventSet, key: Stamp, f: Fields, g: Fields)
    requires SetOk(left) && SetOk(right) && Means(left, key, f) && Means(right, key, g) && Match(f, g)
    ensures AgreeAt(left, right, key) && AgreeAt(right, left, key)
  {
  }

  /** What the comparison checks at an overridden position. */
  ghost predicate Checked(l: EventSet, r: EventSet, key: Stamp)
    requires SetOk(l) && SetOk(r)
  {
    var a, b := Find(l.overrides, key), Find(r.overrides, key);
    (a.Some? && b.Some? && a.value.event.None? && b.value.event.None?) || FieldsAgree(l, r, Some(key))
  }

  /** Where both exclude the position, neither means anything there. */
  lemma {:induction false} ExcludedAgree(canonical: string -> string, left: EventSet, right: EventSet, l: EventSet, r: EventSet, key: Stamp)
    requires SetOk(left) && SetOk(right)
    requires ComparableSet(canonical, left) == Ok(l) && ComparableSet(canonical, right) == Ok(r)
    requires var a, b := Find(l.overrides, key), Find(r.overrides, key);
      a.Some? && b.Some? && a.value.event.None? && b.value.event.None?
    ensures AgreeAt(left, right, key) && AgreeAt(right, left, key)
  {
    FindCanonical(canonical, left.overrides, key);
    FindCanonical(canonical, right.overrides, key);
  }

  lemma {:induction false} CheckedAgree(canonical: string -> string, left: EventSet, right: EventSet, l: EventSet, r: EventSet, key: Stamp)
    requires SetOk(left) && SetOk(right) && Canonizes(canonical, left, right) && left.event.rule.Some? && right.event.rule.Some?
    requires ComparableSet(canonical, left) == Ok(l) && ComparableSet(canonical, right) == Ok(r) && SetOk(l) && SetOk(r)
    requires Checked(l, r, key)
    ensures AgreeAt(left, right, key) && AgreeAt(right, left, key)
  {
    var a, b := Find(l.overrides, key), Find(r.overrides, key);
    if a.Some? && b.Some? && a.value.event.None? && b.value.event.None? {
      ExcludedAgree(canonical, left, right, l, r, key);
    } else {
      ComparablePositions(canonical, left);
      ComparablePositions(canonical, right);
      SelectedIsMeant(l, key);
      SelectedIsMeant(r, key);
      var f := ComparableMeans(canonical, left, l, key, Selected(l, Some(key)).value.fields);
      var g := ComparableMeans(canonical, right, r, key, Selected(r, Some(key)).value.fields);
      AlikeMatch(canonical, f, g);
      AgreeWithWitness(left, right, key, f, g);
    }
  }

  /** The sets agree at every position. */
  ghost predicate Agree(left: EventSet, right: EventSet)
    requires SetOk(left) && SetOk(right)
  {
    && left.event.kind == right.event.kind && Match(left.event.fields, right.event.fields)
    && (left.event.kind.Series? ==> FromEvent(left.event).Ok? && FromEvent(right.event).Ok?)
    && forall key :: AgreeAt(left, right, key) && AgreeAt(right, left, key)
  }

  /** The events of both sets repeat alike, if their comparable forms do. */
  lemma {:induction false} ComparableRepeat(canonical: string -> string, left: EventSet, right: EventSet, l: EventSet, r: EventSet)
    requires SetOk(left) && SetOk(right) && Canonizes(canonical, left, right) && left.event.rule.Some? && right.event.rule.Some?
    requires ComparableSet(canonical, left) == Ok(l) && ComparableSet(canonical, right) == Ok(r) && SetOk(l) && SetOk(r)
    requires AlikeFields(l.event.fields, r.event.fields)
    requires SameTimes(l.event.fields, r.event.fields) && FromEvent(l.event).Ok? && FromEvent(r.event).Ok? ==> SamePositions(l.event, r.event)
    ensures RepeatAlike(left.event, right.event) && RepeatAlike(right.event, left.event)
  {
    ComparablePositions(canonical, left);
    ComparablePositions(canonical, right);
    ComparableFields(canonical, left.event, l.event);
    ComparableFields(canonical, right.event, r.event);
    AlikeMatch(canonical, left.event.fields, right.event.fields);
  }

  /** Checking the overridden positions is enough. */
  lemma {:induction false} CheckedEverywhere(canonical: string -> string, left: EventSet, right: EventSet, l: EventSet, r: EventSet)
    requires SetOk(left) && SetOk(right) && Canonizes(canonical, left, right) && left.event.rule.Some? && right.event.rule.Some?
    requires left.event.kind == right.event.kind
    requires ComparableSet(canonical, left) == Ok(l) && ComparableSet(canonical, right) == Ok(r) && SetOk(l) && SetOk(r)
    requires AlikeFields(l.event.fields, r.event.fields)
    requires SameTimes(l.event.fields, r.event.fields) && FromEvent(l.event).Ok? && FromEvent(r.event).Ok? ==> SamePositions(l.event, r.event)
    requires forall key :: key in KeysOf(l.overrides) + KeysOf(r.overrides) ==> Checked(l, r, key)
    ensures Agree(left, right)
  {
    ComparableRepeat(canonical, left, right, l, r);
    forall key ensures AgreeAt(left, right, key) && AgreeAt(right, left, key) {
      FindExact(l.overrides, key);
      FindExact(r.overrides, key);
      FindCanonical(canonical, left.overrides, key);
      FindCanonical(canonical, right.overrides, key);
      if key in KeysOf(l.overrides) + KeysOf(r.overrides) {
        CheckedAgree(canonical, left, right, l, r, key);
      } else {
        AgreeWhereGenerated(left, right, key);
        AgreeWhereGenerated(right, left, key);
      }
    }
  }

  // ------------------------------------------------------------ the comparison

  /** What a valid set selects has valid fields. */
  lemma SelectedFieldsOk(es: EventSet, key: Option<Stamp>)
    requires SetOk(es) && Selected(es, key).Ok?
    ensures FieldsOk(Selected(es, key).value.fields)
  {
    if key.Some? {
      if Find(es.overrides, key.value).Some? {
        FoundIsThere(es.overrides, key.value);
      } else {
        ResolvedFieldsOk(es.event, key.value);
      }
    }
  }

  lemma ResolvedFieldsOk(event: Event, key: Stamp)
    requires EventOk(event) && ResolvedFields(event, key).Ok?
    ensures FieldsOk(ResolvedFields(event, key).value) && event.rule.Some? && StampFits(event.fields.allDay, key)
  {
    var s, f := ScheduleOf(event), ResolvedFields(event, key).value;
    var slot: nat :| NamedSlot(s, key, slot) && FieldsAt(s, event.fields, Position(s, slot).value) == Ok(f);
    NamedIsFormatted(s, key, slot);
    if s.allDay {
      AllDayEnd(event, slot);
    }
  }

  /** An all-day occurrence ends days after it starts. */
  lemma AllDayEnd(event: Event, slot: nat)
    requires EventOk(event) && FromEvent(event).Ok? && event.fields.allDay && InSeries(ScheduleOf(event), slot)
    ensures var s := ScheduleOf(event);
      Midnight(DateOfTime(Position(s, slot).value)) < Midnight(DateOfTime(Position(s, slot).value + s.duration))
  {
    var s := ScheduleOf(event);
    PositionFacts(s, slot);
    AtDateNear(s, Slot(s, slot).date.value);
    DaysLater(Slot(s, slot).date.value, event.fields.start.date, event.fields.end.date);
  }

  lemma DaysLater(date: int, from: int, to: int)
    ensures DateOfTime(Midnight(date)) == date && DateOfTime(Midnight(date) + (Midnight(to) - Midnight(from))) == date + to - from
  {
  }

  /** Compares what both sets select; `alike` compares descriptions and participants,
      which need the provider's own data. */
  method ContentEquivalent(l: EventSet, r: EventSet, key: Option<Stamp>, alike: Option<Stamp> -> Result<bool>) returns (same: Result<bool>)
    requires SetOk(l) && SetOk(r)
    ensures same.Err? <==> Selected(l, key).Err? || Selected(r, key).Err? || (FieldsAgree(l, r, key) && alike(key).Err?)
    ensures same == Ok(true) <==> FieldsAgree(l, r, key) && alike(key) == Ok(true)
    ensures same == Ok(false) ==> !FieldsAgree(l, r, key) || alike(key) == Ok(false)
  {
    var a := SelectedEvent(l, key);
    var b := SelectedEvent(r, key);
    if a.Err? || b.Err? {
      return Err;
    }
    SelectedFieldsOk(l, key);
    SelectedFieldsOk(r, key);
    if !FieldsOk(a.value.fields) || !FieldsOk(b.value.fields) {
      return Err;
    }
    if !AlikeFields(a.value.fields, b.value.fields) {
      return Ok(false);
    }
    return alike(key);
  }

  /** Both sets select an event, with the same fields. */
  ghost predicate FieldsAgree(l: EventSet, r: EventSet, key: Option<Stamp>)
    requires SetOk(l) && SetOk(r)
  {
    var e, f := Selected(l, key), Selected(r, key);
    e.Ok? && f.Ok? && AlikeFields(e.value.fields, f.value.fields)
  }

  predicate BothExcluded(l: EventSet, r: EventSet, key: Stamp) {
    var a, b := Find(l.overrides, key), Find(r.overrides, key);
    a.Some? && b.Some? && a.value.event.None? && b.value.event.None?
  }

  /** The position belongs to both series. */
  ghost predicate InBoth(l: EventSet, r: EventSet, key: Stamp)
    requires SetOk(l) && SetOk(r)
  {
    ResolvedFields(l.event, key).Ok? && ResolvedFields(r.event, key).Ok?
  }

  /** Both sets say the same at a position of both: they exclude it, or they have events
      with the same fields and alike content. */
  ghost predicate SameAt(l: EventSet, r: EventSet, key: Stamp, alike: Option<Stamp> -> Result<bool>)
    requires SetOk(l) && SetOk(r)
  {
    BothExcluded(l, r, key) || (FieldsAgree(l, r, Some(key)) && alike(Some(key)) == Ok(true))
  }

  /** The comparison of content at the position fails. */
  ghost predicate ContentFails(l: EventSet, r: EventSet, key: Stamp, alike: Option<Stamp> -> Result<bool>)
    requires SetOk(l) && SetOk(r)
  {
    !BothExcluded(l, r, key) && FieldsAgree(l, r, Some(key)) && alike(Some(key)).Err?
  }

  /** The check of one overridden position. Resolving it first shows that it belongs
      to both series. */
  method CheckKey(l: EventSet, r: EventSet, key: Stamp, alike: Option<Stamp> -> Result<bool>) returns (same: Result<bool>)
    requires SetOk(l) && SetOk(r)
    ensures same == Ok(true) ==> InBoth(l, r, key) && SameAt(l, r, key, alike)
    ensures ValidSet(l) && ValidSet(r) ==>
      && (same.Err? <==> !InBoth(l, r, key) || ContentFails(l, r, key, alike))
      && (same == Ok(true) <==> InBoth(l, r, key) && SameAt(l, r, key, alike))
  {
    var inLeft := ResolveEvent(l.event, key);
    var inRight := ResolveEvent(r.event, key);
    if inLeft.Err? || inRight.Err? {
      return Err;
    }
    ResolvedFieldsOk(l.event, key);
    ResolvedFieldsOk(r.event, key);
    var a, b := Find(l.overrides, key), Find(r.overrides, key);
    if a.Some? && b.Some? && (a.value.event.None? || b.value.event.None?) {
      return Ok(a.value.event.None? && b.value.event.None?);
    }
    if (a.Some? && b.None? && a.value.event.None?) || (a.None? && b.Some? && b.value.event.None?) {
      return Ok(false);
    }
    same := ContentEquivalent(l, r, Some(key), alike);
  }

  /** The loop over the overridden positions of both sets. */
  method CheckKeys(l: EventSet, r: EventSet, alike: Option<Stamp> -> Result<bool>) returns (same: Result<bool>)
    requires SetOk(l) && SetOk(r) && ValidSet(l) && ValidSet(r)
    ensures same == Ok(true) <==> forall key :: key in KeysOf(l.overrides) + KeysOf(r.overrides) ==> InBoth(l, r, key) && SameAt(l, r, key, alike)
    ensures same == Ok(false) ==> exists key ::
      key in KeysOf(l.overrides) + KeysOf(r.overrides) && InBoth(l, r, key) && !SameAt(l, r, key, alike) && !ContentFails(l, r, key, alike)
    ensures same.Err? ==> exists key ::
      key in KeysOf(l.overrides) + KeysOf(r.overrides) && (!InBoth(l, r, key) || ContentFails(l, r, key, alike))
  {
    var keys := KeysOf(l.overrides) + KeysOf(r.overrides);
    ghost var all := keys;
    while keys != {}
      invariant keys <= all
      invariant forall key :: key in all - keys ==> InBoth(l, r, key) && SameAt(l, r, key, alike)
      decreases |keys|
    {
      var key :| key in keys;
      same := CheckKey(l, r, key, alike);
      if same != Ok(true) {
        return same;
      }
      keys := keys - {key};
    }
    return Ok(true);
  }

  /** The rules differ, and not only in cutoffs that cut the series alike. */
  ghost predicate RulesDiffer(a: Event, b: Event)
    requires EventOk(a) && EventOk(b)
  {
    a.rule != b.rule && (DifferInUntil(a, b) ==> Crowded(a, b) || !SamePositions(a, b))
  }

  /** The sets differ, in kind, rule, fields or content, for the series or at an overridden
      position of both. */
  ghost predicate Differ(l: EventSet, r: EventSet, alike: Option<Stamp> -> Result<bool>)
    requires SetOk(l) && SetOk(r)
  {
    || l.event.kind != r.event.kind
    || RulesDiffer(l.event, r.event)
    || !AlikeFields(l.event.fields, r.event.fields)
    || alike(None) == Ok(false)
    || exists key :: key in KeysOf(l.overrides) + KeysOf(r.overrides) && !SameAt(l, r, key, alike) && !ContentFails(l, r, key, alike)
  }

  /** The comparison cannot be carried out. */
  ghost predicate Undecidable(l: EventSet, r: EventSet, alike: Option<Stamp> -> Result<bool>)
    requires SetOk(l) && SetOk(r)
  {
    || (TwoCutoffs(l.event.rule, r.event.rule) && l.event.rule != r.event.rule && Undecided(l.event, r.event))
    || alike(None).Err?
    || exists key :: key in KeysOf(l.overrides) + KeysOf(r.overrides) && (!InBoth(l, r, key) || ContentFails(l, r, key, alike))
  }

  /** True only if both sets agree at every position, and their content is alike for the
      series and at every overridden position that is not excluded. False only if the
      comparable forms differ, and an error only if they cannot be compared. */
  method EquivalentSets(left: EventSet, right: EventSet, canonical: string -> string, alike: Option<Stamp> -> Result<bool>)
    returns (same: Result<bool>)
    requires SetOk(left) && SetOk(right) && Canonizes(canonical, left, right)
    ensures same == Ok(true) ==> DistinctKeys(left.overrides) && DistinctKeys(right.overrides) && Agree(left, right)
    ensures same == Ok(true) ==> alike(None) == Ok(true) && forall key :: key in KeysOf(left.overrides) + KeysOf(right.overrides) ==>
      BothExcluded(left, right, key) || alike(Some(key)) == Ok(true)
    ensures var l, r := ComparableSet(canonical, left), ComparableSet(canonical, right);
      if l.Err? || r.Err? || !ValidSet(l.value) || !ValidSet(r.value) then same.Err?
      else
        && SetOk(l.value) && SetOk(r.value)
        && (same == Ok(false) ==> Differ(l.value, r.value, alike))
        && (same.Err? ==> Undecidable(l.value, r.value, alike))
    ensures left == right && Comparable(canonical, left, alike) ==> same == Ok(true)
  {
    var l, r := ComparableSet(canonical, left), ComparableSet(canonical, right);
    if l.Err? || r.Err? {
      return Err;
    }
    var leftValid := Validate(l.value);
    var rightValid := Validate(r.value);
    if !leftValid || !rightValid {
      return Err;
    }
    ComparableOk(canonical, left, l.value);
    ComparableOk(canonical, right, r.value);
    Reflexive(canonical, left, right, l.value, r.value, alike);
    same := Compare(l.value, r.value, alike);
    if same == Ok(true) {
      PositiveAnswer(canonical, left, right, l.value, r.value, alike);
    }
  }

  lemma {:induction false} PositiveAnswer(canonical: string -> string, left: EventSet, right: EventSet, l: EventSet, r: EventSet,
                                          alike: Option<Stamp> -> Result<bool>)
    requires SetOk(left) && SetOk(right) && Canonizes(canonical, left, right) && left.event.kind == right.event.kind
    requires ComparableSet(canonical, left) == Ok(l) && ComparableSet(canonical, right) == Ok(r) && SetOk(l) && SetOk(r)
    requires ValidSet(l) && ValidSet(r) && l.event.kind == left.event.kind && r.event.kind == right.event.kind
    requires (l.event.rule.Some? <==> left.event.rule.Some?) && (r.event.rule.Some? <==> right.event.rule.Some?)
    requires AlikeFields(l.event.fields, r.event.fields)
    requires SameTimes(l.event.fields, r.event.fields) && FromEvent(l.event).Ok? && FromEvent(r.event).Ok? ==> SamePositions(l.event, r.event)
    requires forall key :: key in KeysOf(l.overrides) + KeysOf(r.overrides) ==> SameAt(l, r, key, alike)
    ensures DistinctKeys(left.overrides) && DistinctKeys(right.overrides) && Agree(left, right)
    ensures forall key :: key in KeysOf(left.overrides) + KeysOf(right.overrides) ==>
      BothExcluded(left, right, key) || alike(Some(key)) == Ok(true)
  {
    AgreeInAll(canonical, left, right, l, r);
    SameKeys(canonical, left, right, l, r);
    ComparableDistinct(canonical, left, l);
    ComparableDistinct(canonical, right, r);
  }

  /** The comparison of two comparable forms. */
  method Compare(l: EventSet, r: EventSet, alike: Option<Stamp> -> Result<bool>) returns (same: Result<bool>)
    requires SetOk(l) && SetOk(r) && ValidSet(l) && ValidSet(r)
    ensures same == Ok(true) ==>
      && l.event.kind == r.event.kind && AlikeFields(l.event.fields, r.event.fields) && alike(None) == Ok(true)
      && (SameTimes(l.event.fields, r.event.fields) && FromEvent(l.event).Ok? && FromEvent(r.event).Ok? ==> SamePositions(l.event, r.event))
      && forall key :: key in KeysOf(l.overrides) + KeysOf(r.overrides) ==> SameAt(l, r, key, alike)
    ensures same == Ok(false) ==> Differ(l, r, alike)
    ensures same.Err? ==> Undecidable(l, r, alike)
    ensures !Differ(l, r, alike) && !Undecidable(l, r, alike) ==> same == Ok(true)
  {
    if l.event.kind != r.event.kind {
      return Ok(false);
    }
    same := RulesEquivalent(l.event, r.event);
    if same != Ok(true) {
      assert same.Ok? ==> !same.value;
      return same;
    }
    same := ContentEquivalent(l, r, None, alike);
    assert FieldsAgree(l, r, None) <==> AlikeFields(l.event.fields, r.event.fields);
    if same != Ok(true) {
      assert same.Ok? ==> !same.value;
      return same;
    }
    same := CheckKeys(l, r, alike);
  }

  /** A set that can be compared: its comparable form is valid, every key is a position of
      the series, and the content can be told to be alike. */
  ghost predicate Comparable(canonical: string -> string, es: EventSet, alike: Option<Stamp> -> Result<bool>)
    requires SetOk(es)
  {
    var c := ComparableSet(canonical, es);
    && c.Ok? && SetOk(c.value) && ValidSet(c.value)
    && (forall key :: key in KeysOf(c.value.overrides) ==> ResolvedFields(c.value.event, key).Ok?)
    && forall key :: alike(key) == Ok(true)
  }

  lemma {:induction false} Reflexive(canonical: string -> string, left: EventSet, right: EventSet, l: EventSet, r: EventSet,
                                     alike: Option<Stamp> -> Result<bool>)
    requires SetOk(left) && SetOk(right) && SetOk(l) && SetOk(r)
    requires ComparableSet(canonical, left) == Ok(l) && ComparableSet(canonical, right) == Ok(r)
    ensures left == right && Comparable(canonical, left, alike) ==> !Differ(l, r, alike) && !Undecidable(l, r, alike)
  {
    if left == right && Comparable(canonical, left, alike) {
      SameAsItself(l, alike);
    }
  }

  /** Such a set neither differs from itself nor fails to be compared, exclusions included. */
  lemma {:induction false} SameAsItself(c: EventSet, alike: Option<Stamp> -> Result<bool>)
    requires SetOk(c) && ValidSet(c) && (forall key :: alike(key) == Ok(true))
    requires forall key :: key in KeysOf(c.overrides) ==> ResolvedFields(c.event, key).Ok?
    ensures !Differ(c, c, alike) && !Undecidable(c, c, alike)
    ensures forall key :: key in KeysOf(c.overrides) ==> SameAt(c, c, key, alike)
  {
    forall key | key in KeysOf(c.overrides) ensures SameAt(c, c, key, alike) {
      FindExact(c.overrides, key);
      ResolvedFieldsOk(c.event, key);
    }
  }

  lemma {:induction false} ComparableDistinct(canonical: string -> string, es: EventSet, c: EventSet)
    requires SetOk(es) && ComparableSet(canonical, es) == Ok(c) && DistinctKeys(c.overrides)
    ensures DistinctKeys(es.overrides)
  {
    assert forall i :: 0 <= i < |es.overrides| ==> c.overrides[i].originalStart == es.overrides[i].originalStart;
  }

  lemma {:induction false} ComparableOk(canonical: string -> string, es: EventSet, c: EventSet)
    requires SetOk(es) && ZoneOk(Renamed(canonical, es.event.fields.zone)) && ComparableSet(canonical, es) == Ok(c)
    ensures SetOk(c) && c.event.kind == es.event.kind && (c.event.rule.Some? <==> es.event.rule.Some?)
  {
    UtcIsOk();
    SemanticOk(CanonicalEvent(canonical, es.event));
    ComparableFields(canonical, es.event, c.event);
  }

  lemma {:induction false} AgreeInAll(canonical: string -> string, left: EventSet, right: EventSet, l: EventSet, r: EventSet)
    requires SetOk(left) && SetOk(right) && Canonizes(canonical, left, right) && left.event.kind == right.event.kind
    requires ComparableSet(canonical, left) == Ok(l) && ComparableSet(canonical, right) == Ok(r) && SetOk(l) && SetOk(r)
    requires ValidSet(l) && ValidSet(r) && l.event.kind == left.event.kind && r.event.kind == right.event.kind
    requires (l.event.rule.Some? <==> left.event.rule.Some?) && (r.event.rule.Some? <==> right.event.rule.Some?)
    requires AlikeFields(l.event.fields, r.event.fields)
    requires SameTimes(l.event.fields, r.event.fields) && FromEvent(l.event).Ok? && FromEvent(r.event).Ok? ==> SamePositions(l.event, r.event)
    requires forall key :: key in KeysOf(l.overrides) + KeysOf(r.overrides) ==> Checked(l, r, key)
    ensures Agree(left, right)
  {
    if left.event.rule.Some? {
      CheckedEverywhere(canonical, left, right, l, r);
    } else {
      ComparableFields(canonical, left.event, l.event);
      ComparableFields(canonical, right.event, r.event);
      AlikeMatch(canonical, left.event.fields, right.event.fields);
    }
  }

  lemma {:induction false} SameKeys(canonical: string -> string, left: EventSet, right: EventSet, l: EventSet, r: EventSet)
    requires SetOk(left) && SetOk(right)
    requires ComparableSet(canonical, left) == Ok(l) && ComparableSet(canonical, right) == Ok(r)
    ensures KeysOf(left.overrides) + KeysOf(right.overrides) == KeysOf(l.overrides) + KeysOf(r.overrides)
    ensures forall key :: BothExcluded(left, right, key) <==> BothExcluded(l, r, key)
  {
    forall key ensures (key in KeysOf(left.overrides) <==> key in KeysOf(l.overrides))
      && (key in KeysOf(right.overrides) <==> key in KeysOf(r.overrides)) && (BothExcluded(left, right, key) <==> BothExcluded(l, r, key))
    {
      FindExact(left.overrides, key);
      FindExact(l.overrides, key);
      FindExact(right.overrides, key);
      FindExact(r.overrides, key);
      FindCanonical(canonical, left.overrides, key);
      FindCanonical(canonical, right.overrides, key);
    }
  }
}
