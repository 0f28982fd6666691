/** The edit algebra: editing one occurrence, and remapping a series' exceptions
    when the series itself is edited. */
module Edits {
  import opened Basics
  import opened Zones
  import opened Rules
  import opened Engine
  import opened EventSets
  import opened Projection

  /** What an edit changes; an empty description or location clears the field. */
  datatype Edit = Edit(
    title: Option<string>,
    description: Option<string>,
    location: Option<string>,
    zone: Option<Zone>,
    allDay: Option<bool>,
    start: Option<Stamp>,
    end: Option<Stamp>)

  function PatchText(current: Option<string>, edit: Option<string>): Option<string> {
    match edit
    case None => current
    case Some(text) => if text == "" then None else Some(text)
  }

  function ApplyPatch(fields: Fields, edit: Edit): Result<Fields> {
    var allDay := if edit.allDay.Some? then edit.allDay.value else fields.allDay;
    var duration := Boundary(fields.end) - Boundary(fields.start);
    var start := if edit.start.Some? then edit.start.value else fields.start;
    var end :=
      if edit.end.Some? then edit.end.value
      else if edit.start.Some? then FormatStamp(allDay, Boundary(edit.start.value) + duration)
      else fields.end;
    var patched := Fields(
                     if edit.title.Some? then edit.title.value else fields.title,
                     PatchText(fields.description, edit.description),
                     PatchText(fields.location, edit.location),
                     start, end, allDay,
                     if edit.zone.Some? then edit.zone.value else fields.zone);
    if FieldsOk(patched) then Ok(patched) else Err
  }

  // ------------------------------------------------------------ what an edit changes

  /** An absent edit keeps the text, an empty one clears it, and any other sets it. */
  predicate TextEdited(before: Option<string>, edit: Option<string>, after: Option<string>) {
    && (edit.None? ==> after == before)
    && (edit == Some("") ==> after == None)
    && (edit.Some? && edit.value != "" ==> after == edit)
  }

  /** Title, texts, zone and day mode, each from its own edit. */
  ghost predicate DetailsEdited(before: Fields, edit: Edit, after: Fields) {
    && (if edit.title.Some? then after.title == edit.title.value else after.title == before.title)
    && TextEdited(before.description, edit.description, after.description)
    && TextEdited(before.location, edit.location, after.location)
    && (if edit.zone.Some? then after.zone == edit.zone.value else after.zone == before.zone)
    && (if edit.allDay.Some? then after.allDay == edit.allDay.value else after.allDay == before.allDay)
  }

  /** The length of an event; of one that is all day, whole days. */
  predicate Lasts(f: Fields, length: int) {
    var rest := length - (Boundary(f.end) - Boundary(f.start));
    if f.allDay then 0 <= rest < DAY else rest == 0
  }

  /** A new start without an end keeps the length; a new end is taken as it is. */
  predicate TimesEdited(before: Fields, edit: Edit, after: Fields) {
    && after.start == (if edit.start.Some? then edit.start.value else before.start)
    && (edit.end.Some? ==> after.end == edit.end.value)
    && (edit.end.None? && edit.start.None? ==> after.end == before.end)
    && (edit.end.None? && edit.start.Some? ==> Lasts(after, Boundary(before.end) - Boundary(before.start)))
  }

  ghost predicate FieldsEdited(before: Fields, edit: Edit, after: Fields) {
    DetailsEdited(before, edit, after) && TimesEdited(before, edit, after)
  }

  /** An edit yields exactly the valid fields that it asks for, if there are any. */
  lemma ApplyPatchIff(before: Fields, edit: Edit, after: Fields)
    ensures ApplyPatch(before, edit) == Ok(after) <==> FieldsEdited(before, edit, after) && FieldsOk(after)
  {
    var length := Boundary(before.end) - Boundary(before.start);
    var allDay := if edit.allDay.Some? then edit.allDay.value else before.allDay;
    if edit.start.Some? && edit.end.None? && FieldsOk(after) && FieldsEdited(before, edit, after) {
      EndIsDetermined(after, length);
    }
  }

  lemma EndIsDetermined(f: Fields, length: int)
    requires StampFits(f.allDay, f.end) && Lasts(f, length)
    ensures f.end == FormatStamp(f.allDay, Boundary(f.start) + length)
  {
  }

  // ------------------------------------------------------------ content provenance

  /** The provenance of the master or of a live override cannot be derived. */
  predicate Underivable(es: EventSet, derive: Option<Stamp> -> Result<Provenance>) {
    || derive(None).Err?
    || exists i :: 0 <= i < |es.overrides| && es.overrides[i].event.Some? && derive(Some(es.overrides[i].originalStart)).Err?
  }

  /** The override at `i` is live. */
  predicate Live(os: seq<Override>, i: nat) {
    i < |os| && os[i].event.Some?
  }

  /** The keys of the live overrides. */
  function LiveKeys(os: seq<Override>): set<Stamp> {
    set i | 0 <= i < |os| && Live(os, i) :: os[i].originalStart
  }

  /** The frozen provenance of a set: what was captured before, or else what is derived
      for the master and for exactly the live overrides. */
  ghost predicate Captured(es: EventSet, derive: Option<Stamp> -> Result<Provenance>, content: Content) {
    if es.content.Some? then content == es.content.value
    else
      && derive(None) == Ok(content.master)
      && content.overrides.Keys == LiveKeys(es.overrides)
      && forall key :: key in content.overrides ==> derive(Some(key)) == Ok(content.overrides[key])
  }

  /** Freeze the provenance of the master and of every live override. */
  method CaptureContent(es: EventSet, derive: Option<Stamp> -> Result<Provenance>) returns (r: Result<Content>)
    requires DistinctKeys(es.overrides)
    ensures r.Ok? ==> Captured(es, derive, r.value)
    ensures r.Err? ==> es.content.None? && Underivable(es, derive)
  {
    if es.content.Some? {
      return Ok(es.content.value);
    }
    var master := derive(None);
    if master.Err? {
      return Err;
    }
    var overrides: map<Stamp, Provenance> := map[];
    for i := 0 to |es.overrides|
      invariant overrides.Keys == LiveKeys(es.overrides[..i])
      invariant forall key :: key in overrides ==> derive(Some(key)) == Ok(overrides[key])
    {
      LiveKeysSnoc(es.overrides, i);
      if es.overrides[i].event.Some? {
        var provenance := derive(Some(es.overrides[i].originalStart));
        if provenance.Err? {
          return Err;
        }
        overrides := overrides[es.overrides[i].originalStart := provenance.value];
      }
    }
    assert es.overrides[..|es.overrides|] == es.overrides;
    return Ok(Content(master.value, overrides));
  }

  lemma LiveKeysSnoc(os: seq<Override>, i: nat)
    requires i < |os|
    ensures LiveKeys(os[..i + 1]) == LiveKeys(os[..i]) + if os[i].event.Some? then {os[i].originalStart} else {}
  {
    var a, b := os[..i], os[..i + 1];
    forall key | key in LiveKeys(b) ensures key in LiveKeys(a) + if os[i].event.Some? then {os[i].originalStart} else {} {
      var j :| 0 <= j < |b| && Live(b, j) && b[j].originalStart == key;
      if j < i {
        assert a[j] == b[j] && Live(a, j);
      }
    }
    forall key | key in LiveKeys(a) ensures key in LiveKeys(b) {
      var j :| 0 <= j < |a| && Live(a, j) && a[j].originalStart == key;
      assert b[j] == a[j] && Live(b, j);
    }
    if os[i].event.Some? {
      assert b[i] == os[i] && Live(b, i);
    }
  }

  /** The body of a key becomes plain text; a key without content starts from the master's. */
  function MarkPlain(content: Content, key: Stamp): Content {
    var base := if key in content.overrides then content.overrides[key] else content.master;
    content.(overrides := content.overrides[key := base.(format := Plain)])
  }

  // ------------------------------------------------------------ one occurrence

  /** All overrides but those of a key. */
  function Without(overrides: seq<Override>, key: Stamp): seq<Override> {
    if overrides == [] then []
    else
      var n := |overrides| - 1;
      if overrides[n].originalStart == key then Without(overrides[..n], key)
      else Without(overrides[..n], key) + [overrides[n]]
  }

  /** The overrides with one key set: replaced in place, or appended. */
  function WithOverride(overrides: seq<Override>, key: Stamp, event: Event): seq<Override> {
    if overrides == [] then [Override(key, Some(event))]
    else if overrides[0].originalStart == key then [overrides[0].(event := Some(event))] + overrides[1..]
    else [overrides[0]] + WithOverride(overrides[1..], key, event)
  }

  lemma {:induction false} WithOverrideIsLocal(overrides: seq<Override>, key: Stamp, event: Event, other: Stamp)
    ensures var after := WithOverride(overrides, key, event);
      && Find(after, other) == (if other == key then Some(Override(key, Some(event))) else Find(overrides, other))
      && |after| == (if key in KeysOf(overrides) then |overrides| else |overrides| + 1)
      && KeysOf(after) == KeysOf(overrides) + {key}
  {
    var after := WithOverride(overrides, key, event);
    if overrides == [] {
    } else {
      KeysCons(overrides);
      KeysCons(after);
      if overrides[0].originalStart != key {
        WithOverrideIsLocal(overrides[1..], key, event, other);
        assert after[1..] == WithOverride(overrides[1..], key, event);
      } else {
        assert after[1..] == overrides[1..];
      }
    }
  }

  lemma {:induction false} WithoutAppend(a: seq<Override>, b: seq<Override>, key: Stamp)
    ensures Without(a + b, key) == Without(a, key) + Without(b, key)
  {
    if b == [] {
      assert a + b == a;
    } else {
      var n := |b| - 1;
      assert (a + b)[..|a| + n] == a + b[..n];
      WithoutAppend(a, b[..n], key);
    }
  }

  lemma WithoutOne(o: Override, key: Stamp)
    ensures Without([o], key) == if o.originalStart == key then [] else [o]
  {
    assert [o][..0] == [];
  }

  lemma {:induction false} WithoutWithOverride(overrides: seq<Override>, key: Stamp, event: Event)
    ensures Without(WithOverride(overrides, key, event), key) == Without(overrides, key)
  {
    var after := WithOverride(overrides, key, event);
    if overrides == [] {
      WithoutOne(after[0], key);
      assert after == [after[0]];
    } else {
      assert overrides == [overrides[0]] + overrides[1..];
      WithoutAppend([overrides[0]], overrides[1..], key);
      WithoutOne(overrides[0], key);
      WithoutOne(after[0], key);
      assert after == [after[0]] + after[1..];
      WithoutAppend([after[0]], after[1..], key);
      if overrides[0].originalStart == key {
        assert after[1..] == overrides[1..];
      } else {
        assert after[1..] == WithOverride(overrides[1..], key, event);
        WithoutWithOverride(overrides[1..], key, event);
      }
    }
  }

  /** The override of the key has the fields that the edit asks for. */
  ghost predicate OverrideEdited(selected: Fields, edit: Edit, overrides: seq<Override>, key: Stamp) {
    exists g :: FieldsEdited(selected, edit, g) && FieldsOk(g) && Find(overrides, key) == Some(Override(key, Some(Event(g, None, Occurrence))))
  }

  /** `after` is `before` with the occurrence at `key` edited. */
  ghost predicate OccurrenceEdited(before: EventSet, key: Stamp, edit: Edit, after: EventSet)
    requires SetOk(before)
  {
    var selected := Selected(before, Some(key));
    && selected.Ok? && ApplyPatch(selected.value.fields, edit).Ok?
    && ValidSet(before) && ValidSet(after)
    && after.event == before.event
    && after.overrides == WithOverride(before.overrides, key, Event(ApplyPatch(selected.value.fields, edit).value, None, Occurrence))
  }

  /** The provenance after an edit: a changed description is plain text, all else stays. */
  ghost function EditedContent(before: EventSet, key: Stamp, edit: Edit, content: Content): Content
    requires SetOk(before)
  {
    var selected := Selected(before, Some(key));
    if selected.Ok? && ApplyPatch(selected.value.fields, edit).Ok?
       && ApplyPatch(selected.value.fields, edit).value.description != selected.value.fields.description
    then MarkPlain(content, key)
    else content
  }

  /** Marking one body leaves the master and every other key's provenance alone. */
  lemma EditedContentIsLocal(before: EventSet, key: Stamp, edit: Edit, content: Content, other: Stamp)
    requires SetOk(before) && other != key
    ensures var after := EditedContent(before, key, edit, content);
      && after.master == content.master
      && (other in after.overrides <==> other in content.overrides)
      && (other in content.overrides ==> after.overrides[other] == content.overrides[other])
  {
  }

  /** At the key itself, a changed description is plain text, with the roles and the organizer
      that the position had; otherwise nothing changes. */
  lemma EditedContentAtKey(before: EventSet, key: Stamp, edit: Edit, content: Content, g: Fields)
    requires SetOk(before) && Selected(before, Some(key)).Ok?
    requires FieldsEdited(Selected(before, Some(key)).value.fields, edit, g) && FieldsOk(g)
    ensures var after := EditedContent(before, key, edit, content);
      var had := if key in content.overrides then content.overrides[key] else content.master;
      if g.description == Selected(before, Some(key)).value.fields.description then after == content
      else
        && key in after.overrides && after.overrides[key].format == Plain
        && after.overrides[key].roles == had.roles && after.overrides[key].organizer == had.organizer
  {
    ApplyPatchIff(Selected(before, Some(key)).value.fields, edit, g);
  }

  method EditOccurrence(before: EventSet, key: Stamp, edit: Edit, derive: Option<Stamp> -> Result<Provenance>)
    returns (r: Result<EventSet>)
    requires SetOk(before)
    ensures r.Ok? ==> OccurrenceEdited(before, key, edit, r.value)
    ensures r.Ok? ==> OverrideEdited(Selected(before, Some(key)).value.fields, edit, r.value.overrides, key)
    ensures r.Err? ==> (before.content.None? && Underivable(before, derive)) || forall after :: !OccurrenceEdited(before, key, edit, after)
    ensures r.Ok? ==> exists content ::
      Captured(before, derive, content) && r.value.content == Some(EditedContent(before, key, edit, content))
  {
    var selected := SelectedEvent(before, Some(key));
    if selected.Err? {
      return Err;
    }
    var content := CaptureContent(before, derive);
    if content.Err? {
      return Err;
    }
    var patched := ApplyPatch(selected.value.fields, edit);
    if patched.Err? {
      return Err;
    }
    var event := Event(patched.value, None, Occurrence);
    ApplyPatchIff(selected.value.fields, edit, patched.value);
    WithOverrideIsLocal(before.overrides, key, event, key);
    var overrides := SetOverride(before.overrides, key, event);
    var desired := content.value;
    if patched.value.description != selected.value.fields.description {
      desired := MarkPlain(desired, key);
    }
    var after := EventSet(before.event, overrides, Some(desired));
    var valid := Validate(after);
    if !valid {
      return Err;
    }
    return Ok(after);
  }

  /** Find the key and replace its event, or push a new override. */
  method SetOverride(overrides: seq<Override>, key: Stamp, event: Event) returns (after: seq<Override>)
    ensures after == WithOverride(overrides, key, event)
  {
    var i := 0;
    while i < |overrides| && overrides[i].originalStart != key
      invariant 0 <= i <= |overrides|
      invariant WithOverride(overrides, key, event) == overrides[..i] + WithOverride(overrides[i..], key, event)
    {
      PassedOver(overrides, key, event, i);
      i := i + 1;
    }
    if i < |overrides| {
      after := overrides[i := overrides[i].(event := Some(event))];
      ReplacedAt(overrides, key, event, i);
    } else {
      after := overrides + [Override(key, Some(event))];
      assert overrides[i..] == [];
    }
  }

  lemma PassedOver(overrides: seq<Override>, key: Stamp, event: Event, i: nat)
    requires i < |overrides| && overrides[i].originalStart != key
    ensures overrides[..i] + WithOverride(overrides[i..], key, event) == overrides[..i + 1] + WithOverride(overrides[i + 1..], key, event)
  {
    assert overrides[i..][1..] == overrides[i + 1..];
    assert overrides[..i + 1] == overrides[..i] + [overrides[i]];
  }

  lemma ReplacedAt(overrides: seq<Override>, key: Stamp, event: Event, i: nat)
    requires i < |overrides| && overrides[i].originalStart == key
    ensures overrides[..i] + WithOverride(overrides[i..], key, event) == overrides[i := overrides[i].(event := Some(event))]
  {
    assert overrides[i..][1..] == overrides[i + 1..];
  }

  /** Every other position, and the master, select the same event as before. */
  lemma OtherSelectionsUnchanged(before: EventSet, key: Stamp, edit: Edit, after: EventSet, other: Option<Stamp>)
    requires SetOk(before) && SetOk(after) && OccurrenceEdited(before, key, edit, after) && other != Some(key)
    ensures Selected(after, other) == Selected(before, other)
  {
    if other.Some? {
      var event := Event(ApplyPatch(Selected(before, Some(key)).value.fields, edit).value, None, Occurrence);
      WithOverrideIsLocal(before.overrides, key, event, other.value);
    }
  }

  /** The edited position selects the event that the edit asks for, field by field. */
  lemma EditedSelection(before: EventSet, key: Stamp, edit: Edit, after: EventSet)
    requires SetOk(before) && SetOk(after) && OccurrenceEdited(before, key, edit, after)
    ensures var selected := Selected(after, Some(key));
      && selected.Ok? && selected.value.rule == None && selected.value.kind == Occurrence
      && FieldsEdited(Selected(before, Some(key)).value.fields, edit, selected.value.fields)
  {
    var patched := ApplyPatch(Selected(before, Some(key)).value.fields, edit).value;
    ApplyPatchIff(Selected(before, Some(key)).value.fields, edit, patched);
    WithOverrideIsLocal(before.overrides, key, Event(patched, None, Occurrence), key);
  }

  // ------------------------------------------------------------ locality in a window

  lemma {:induction false} KeptTwice(entries: seq<Entry>, a: set<Stamp>, b: set<Stamp>)
    ensures Kept(Kept(entries, a), b) == Kept(entries, a + b)
  {
    if entries != [] {
      KeptTwice(entries[1..], a, b);
    }
  }

  lemma {:induction false} LiveWithout(overrides: seq<Override>, key: Stamp, lower: int, upper: int)
    ensures Kept(LiveEntries(overrides, lower, upper), {key}) == LiveEntries(Without(overrides, key), lower, upper)
  {
    if overrides != [] {
      var n := |overrides| - 1;
      var o := overrides[n];
      var init := Without(overrides[..n], key);
      LiveWithout(overrides[..n], key, lower, upper);
      if o.event.Some? && FieldsOverlap(o.event.value.fields, lower, upper) {
        var e := Entry(Some(o.originalStart), Normalized(o.event.value.fields), true);
        KeptAppend(LiveEntries(overrides[..n], lower, upper), [e], {key});
        assert [e][1..] == [];
      }
      assert (init + [o])[..|init|] == init;
    }
  }

  /** The window's list differs only in the entry of the edited key. */
  lemma EditIsLocalInWindow(before: EventSet, key: Stamp, edit: Edit, after: EventSet, lower: int, upper: int)
    requires SetOk(before) && SetOk(after) && OccurrenceEdited(before, key, edit, after)
    requires FromEvent(before.event).Ok?
    ensures Kept(AllEntries(after, lower, upper), {key}) == Kept(AllEntries(before, lower, upper), {key})
  {
    var s := ScheduleOf(before.event);
    var event := Event(ApplyPatch(Selected(before, Some(key)).value.fields, edit).value, None, Occurrence);
    WithOverrideIsLocal(before.overrides, key, event, key);
    WithoutWithOverride(before.overrides, key, event);
    MatchesArePositions(s, lower, upper);
    var generated := GeneratedEntries(s, before.event.fields, AllMatches(s, lower, upper));
    WindowWithout(generated, before.overrides, key, lower, upper);
    WindowWithout(generated, after.overrides, key, lower, upper);
    assert KeysOf(before.overrides) + {key} == KeysOf(after.overrides) + {key};
  }

  lemma WindowWithout(generated: seq<Entry>, overrides: seq<Override>, key: Stamp, lower: int, upper: int)
    ensures Kept(Kept(generated, KeysOf(overrides)) + LiveEntries(overrides, lower, upper), {key}) ==
      Kept(generated, KeysOf(overrides) + {key}) + LiveEntries(Without(overrides, key), lower, upper)
  {
    KeptAppend(Kept(generated, KeysOf(overrides)), LiveEntries(overrides, lower, upper), {key});
    KeptTwice(generated, KeysOf(overrides), {key});
    LiveWithout(overrides, key, lower, upper);
  }

  lemma {:induction false} KeptInsert(order: Stamp -> int, entries: seq<Entry>, e: Entry, keys: set<Stamp>)
    requires Sorted(order, entries)
    ensures Kept(Insert(order, entries, e), keys) ==
      if e.key.Some? && e.key.value in keys then Kept(entries, keys) else Insert(order, Kept(entries, keys), e)
  {
    if entries == [] {
      assert [e][1..] == [];
    } else if Before(order, e, entries[0]) {
      assert ([e] + entries)[1..] == entries;
      KeptSorted(order, entries, keys);
      var k := Kept(entries, keys);
      if k != [] {
        assert k[0] in k;
        var i :| 0 <= i < |entries| && entries[i] == k[0];
      }
    } else {
      var rest := Insert(order, entries[1..], e);
      assert ([entries[0]] + rest)[1..] == rest;
      KeptInsert(order, entries[1..], e, keys);
    }
  }

  /** Dropping a key commutes with sorting, so sorted lists differ only in that entry too. */
  lemma {:induction false} KeptSort(order: Stamp -> int, entries: seq<Entry>, more: seq<Entry>, keys: set<Stamp>)
    requires Sorted(order, entries)
    ensures Kept(InsertAll(order, entries, more), keys) == InsertAll(order, Kept(entries, keys), Kept(more, keys))
    decreases more
  {
    if more != [] {
      InsertSorts(order, entries, more[0]);
      KeptInsert(order, entries, more[0], keys);
      KeptSort(order, Insert(order, entries, more[0]), more[1..], keys);
    }
  }

  lemma EditIsLocalInSortedWindow(order: Stamp -> int, before: EventSet, key: Stamp, edit: Edit, after: EventSet, lower: int, upper: int)
    requires SetOk(before) && SetOk(after) && OccurrenceEdited(before, key, edit, after)
    requires FromEvent(before.event).Ok?
    ensures Kept(Sort(order, AllEntries(after, lower, upper)), {key}) ==
            Kept(Sort(order, AllEntries(before, lower, upper)), {key})
  {
    EditIsLocalInWindow(before, key, edit, after, lower, upper);
    KeptSort(order, [], AllEntries(after, lower, upper), {key});
    KeptSort(order, [], AllEntries(before, lower, upper), {key});
  }
}
