/** The list of a window holds exactly the events that the set means and that overlap the
    window; so sets that agree at every position list matching events in every window. */
module SetWindows {
  import opened Basics
  import opened Zones
  import opened Rules
  import opened Schedules
  import opened SlotOrder
  import opened Series
  import opened Engine
  import opened Lookup
  import opened EventSets
  import opened Projection
  import opened SetEquivalence

  // ------------------------------------------------------------ members of the lists

  lemma {:induction false} KeptMembers(entries: seq<Entry>, keys: set<Stamp>, e: Entry)
    ensures e in Kept(entries, keys) <==> e in entries && !(e.key.Some? && e.key.value in keys)
  {
    if entries != [] {
      assert entries == [entries[0]] + entries[1..];
      KeptMembers(entries[1..], keys, e);
    }
  }

  /** The entry of an override that is live and overlaps the window. */
  ghost predicate IsLiveEntry(o: Override, lower: int, upper: int, e: Entry) {
    && o.event.Some? && FieldsOverlap(o.event.value.fields, lower, upper)
    && e == Entry(Some(o.originalStart), Normalized(o.event.value.fields), true)
  }

  lemma {:induction false} LiveIsListed(overrides: seq<Override>, lower: int, upper: int, i: nat, e: Entry)
    requires i < |overrides| && IsLiveEntry(overrides[i], lower, upper, e)
    ensures e in LiveEntries(overrides, lower, upper)
  {
    if i < |overrides| - 1 {
      LiveIsListed(overrides[..|overrides| - 1], lower, upper, i, e);
    }
  }

  lemma {:induction false} ListedIsLive(overrides: seq<Override>, lower: int, upper: int, e: Entry) returns (i: nat)
    requires e in LiveEntries(overrides, lower, upper)
    ensures i < |overrides| && IsLiveEntry(overrides[i], lower, upper, e)
  {
    var n := |overrides| - 1;
    if e in LiveEntries(overrides[..n], lower, upper) {
      i := ListedIsLive(overrides[..n], lower, upper, e);
    } else {
      i := n;
    }
  }

  lemma {:induction false} FindAt(overrides: seq<Override>, i: nat)
    requires DistinctKeys(overrides) && i < |overrides|
    ensures Find(overrides, overrides[i].originalStart) == Some(overrides[i])
  {
    if i > 0 {
      FindAt(overrides[1..], i - 1);
    }
  }

  lemma {:induction false} FoundAt(overrides: seq<Override>, key: Stamp) returns (i: nat)
    requires Find(overrides, key).Some?
    ensures i < |overrides| && overrides[i] == Find(overrides, key).value && overrides[i].originalStart == key
  {
    if overrides[0].originalStart == key {
      i := 0;
    } else {
      var j := FoundAt(overrides[1..], key);
      i := j + 1;
    }
  }

  // ------------------------------------------------------------ generated entries

  lemma WholeDays(a: int, b: int)
    ensures DateOfTime(Midnight(a)) == a && Midnight(b) - Midnight(a) == Midnight(b - a) && Midnight(a) + Midnight(b) == Midnight(a + b)
  {
  }

  /** A generated occurrence is written with its own start and end. */
  lemma GeneratedTimes(event: Event, slot: nat)
    requires EventOk(event) && FromEvent(event).Ok? && InSeries(ScheduleOf(event), slot)
    ensures var s := ScheduleOf(event);
      var t := Position(s, slot).value;
      var f := OccurrenceFields(s, event.fields, t);
      && s.allDay == event.fields.allDay && Names(s, f.start, t)
      && Boundary(f.start) == t && Boundary(f.end) == t + s.duration && s.duration > 0
  {
    var s := ScheduleOf(event);
    FormattedNames(s, slot);
    if s.allDay {
      var t := Position(s, slot).value;
      WholeDays(event.fields.start.date, event.fields.end.date);
      PositionFacts(s, slot);
      AtDateNear(s, Slot(s, slot).date.value);
      WholeDays(Slot(s, slot).date.value, event.fields.end.date - event.fields.start.date);
      WholeDays(Slot(s, slot).date.value + (event.fields.end.date - event.fields.start.date), 0);
    }
  }

  /** The slot of a generated entry overlaps the window exactly when the entry does. */
  lemma GeneratedOverlap(event: Event, slot: nat, lower: int, upper: int)
    requires EventOk(event) && FromEvent(event).Ok? && InSeries(ScheduleOf(event), slot)
    ensures var s := ScheduleOf(event);
      Overlaps(s, lower, upper, slot) <==> FieldsOverlap(OccurrenceFields(s, event.fields, Position(s, slot).value), lower, upper)
  {
    GeneratedTimes(event, slot);
  }

  lemma ListedSlot(s: Schedule, fields: Fields, slots: seq<nat>, e: Entry) returns (slot: nat)
    requires SlotsOk(s) && (forall i :: 0 <= i < |slots| ==> Position(s, slots[i]).Some?)
    requires e in GeneratedEntries(s, fields, slots)
    ensures slot in slots && Position(s, slot).Some? && e == GeneratedEntry(s, fields, slot)
  {
    var g := GeneratedEntries(s, fields, slots);
    var i :| 0 <= i < |g| && g[i] == e;
    slot := slots[i];
  }

  lemma SlotIsListed(s: Schedule, fields: Fields, slots: seq<nat>, slot: nat)
    requires SlotsOk(s) && (forall i :: 0 <= i < |slots| ==> Position(s, slots[i]).Some?)
    requires slot in slots && Position(s, slot).Some?
    ensures GeneratedEntry(s, fields, slot) in GeneratedEntries(s, fields, slots)
  {
    var i :| 0 <= i < |slots| && slots[i] == slot;
    assert GeneratedEntries(s, fields, slots)[i] == GeneratedEntry(s, fields, slot);
  }

  // ------------------------------------------------------------ lists and meanings

  /** A text as it is shown: an empty one is none. */
  predicate TextShown(text: Option<string>, shown: Option<string>) {
    shown == if text.Some? && text.value != "" then text else None
  }

  /** Fields as an entry shows them. */
  ghost predicate ShownAs(f: Fields, shown: Fields) {
    && shown.title == f.title && TextShown(f.description, shown.description) && TextShown(f.location, shown.location)
    && shown.start == f.start && shown.end == f.end && shown.allDay == f.allDay && shown.zone == f.zone
  }

  /** An entry that stands for the fields `f` at its key. */
  ghost predicate StandsFor(e: Entry, key: Stamp, f: Fields) {
    e.key == Some(key) && ShownAs(f, e.fields)
  }

  /** Exceptions are marked as such. */
  ghost predicate MarkedFor(es: EventSet, key: Stamp, e: Entry) {
    e.isException <==> Find(es.overrides, key).Some?
  }

  lemma MeantOfGenerated(es: EventSet, lower: int, upper: int, e: Entry) returns (f: Fields)
    requires SetOk(es) && es.event.kind.Series? && FromEvent(es.event).Ok?
    requires var s := ScheduleOf(es.event); var m := AllMatches(s, lower, upper);
      && (forall i :: 0 <= i < |m| ==> Position(s, m[i]).Some?)
      && e in Kept(GeneratedEntries(s, es.event.fields, m), KeysOf(es.overrides))
    ensures e.key.Some? && StandsFor(e, e.key.value, f) && Means(es, e.key.value, f) && FieldsOverlap(f, lower, upper)
    ensures MarkedFor(es, e.key.value, e)
  {
    var s := ScheduleOf(es.event);
    var m := AllMatches(s, lower, upper);
    KeptMembers(GeneratedEntries(s, es.event.fields, m), KeysOf(es.overrides), e);
    var slot := ListedSlot(s, es.event.fields, m, e);
    AllMatchesComplete(s, lower, upper);
    GeneratedOverlap(es.event, slot, lower, upper);
    GeneratedTimes(es.event, slot);
    f := OccurrenceFields(s, es.event.fields, Position(s, slot).value);
    FindExact(es.overrides, f.start);
    assert IsPosition(s, Boundary(f.start));
    assert GeneratedAs(es.event, f.start, f);
  }

  /** Every entry of a series stands for an event that the set means and that overlaps
      the window. */
  lemma MeantOfEntry(es: EventSet, lower: int, upper: int, e: Entry) returns (f: Fields)
    requires SetOk(es) && DistinctKeys(es.overrides) && es.event.kind.Series? && FromEvent(es.event).Ok?
    requires e in AllEntries(es, lower, upper)
    ensures e.key.Some? && StandsFor(e, e.key.value, f) && Means(es, e.key.value, f) && FieldsOverlap(f, lower, upper)
    ensures MarkedFor(es, e.key.value, e)
  {
    MatchesArePositions(ScheduleOf(es.event), lower, upper);
    if e in LiveEntries(es.overrides, lower, upper) {
      var i := ListedIsLive(es.overrides, lower, upper, e);
      FindAt(es.overrides, i);
      f := es.overrides[i].event.value.fields;
    } else {
      f := MeantOfGenerated(es, lower, upper, e);
    }
  }

  lemma EntryOfGenerated(es: EventSet, lower: int, upper: int, key: Stamp, f: Fields) returns (e: Entry)
    requires SetOk(es) && es.event.kind.Series? && FromEvent(es.event).Ok?
    requires Find(es.overrides, key).None? && GeneratedAs(es.event, key, f) && FieldsOverlap(f, lower, upper)
    ensures StandsFor(e, key, f) && MarkedFor(es, key, e) && e in AllEntries(es, lower, upper)
  {
    var s := ScheduleOf(es.event);
    var m := AllMatches(s, lower, upper);
    MatchesArePositions(s, lower, upper);
    AllMatchesComplete(s, lower, upper);
    var slot: nat :| InSeries(s, slot) && Position(s, slot) == Some(Boundary(key));
    GeneratedOverlap(es.event, slot, lower, upper);
    GeneratedTimes(es.event, slot);
    SlotIsListed(s, es.event.fields, m, slot);
    e := GeneratedEntry(s, es.event.fields, slot);
    NamedIsFormatted(s, key, slot);
    FindExact(es.overrides, key);
    KeptMembers(GeneratedEntries(s, es.event.fields, m), KeysOf(es.overrides), e);
  }

  /** Every event that the set means and that overlaps the window has its entry. */
  lemma EntryOfMeant(es: EventSet, lower: int, upper: int, key: Stamp, f: Fields) returns (e: Entry)
    requires SetOk(es) && es.event.kind.Series? && FromEvent(es.event).Ok?
    requires Means(es, key, f) && FieldsOverlap(f, lower, upper)
    ensures StandsFor(e, key, f) && MarkedFor(es, key, e) && e in AllEntries(es, lower, upper)
  {
    if Find(es.overrides, key).Some? {
      var i := FoundAt(es.overrides, key);
      e := Entry(Some(key), Normalized(f), true);
      LiveIsListed(es.overrides, lower, upper, i, e);
      MatchesArePositions(ScheduleOf(es.event), lower, upper);
    } else {
      e := EntryOfGenerated(es, lower, upper, key, f);
    }
  }

  // ------------------------------------------------------------ windows of sets that agree

  ghost predicate MatchingEntry(e: Entry, d: Entry) {
    e.key == d.key && Match(e.fields, d.fields)
  }

  lemma MatchingOverlap(f: Fields, g: Fields, lower: int, upper: int)
    requires Match(f, g)
    ensures FieldsOverlap(f, lower, upper) == FieldsOverlap(g, lower, upper) && Match(Normalized(f), Normalized(g))
  {
  }

  lemma ShownMatch(f: Fields, g: Fields, a: Fields, b: Fields)
    requires Match(f, g) && ShownAs(f, a) && ShownAs(g, b)
    ensures Match(a, b)
  {
  }

  /** Sets that agree list matching entries in every window. */
  lemma WindowsAgree(left: EventSet, right: EventSet, lower: int, upper: int, e: Entry) returns (d: Entry)
    requires SetOk(left) && SetOk(right) && DistinctKeys(left.overrides) && Agree(left, right)
    requires e in AllEntries(left, lower, upper)
    ensures d in AllEntries(right, lower, upper) && MatchingEntry(e, d)
  {
    if left.event.kind.Series? {
      var f := MeantOfEntry(left, lower, upper, e);
      var key := e.key.value;
      assert AgreeAt(left, right, key);
      var g :| Means(right, key, g) && Match(f, g);
      MatchingOverlap(f, g, lower, upper);
      d := EntryOfMeant(right, lower, upper, key, g);
      ShownMatch(f, g, e.fields, d.fields);
    } else {
      MatchingOverlap(left.event.fields, right.event.fields, lower, upper);
      d := Entry(None, Normalized(right.event.fields), false);
    }
  }

  /** Sets that agree select matching events, wherever both select one. */
  lemma SelectionsAgree(left: EventSet, right: EventSet, key: Option<Stamp>)
    requires SetOk(left) && SetOk(right) && Agree(left, right)
    requires Selected(left, key).Ok? && Selected(right, key).Ok?
    ensures Match(Selected(left, key).value.fields, Selected(right, key).value.fields)
  {
    if key.Some? {
      SelectedIsMeant(left, key.value);
      SelectedIsMeant(right, key.value);
      assert AgreeAt(left, right, key.value);
    }
  }
}
