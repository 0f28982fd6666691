/** Editing a whole series without resetting its exceptions: each exception keeps
    its place in the series, its cancellation, its displacement and its content. */
module SeriesEdits {
  import opened Basics
  import opened Zones
  import opened Rules
  import opened Schedules
  import opened Engine
  import opened Lookup
  import opened SeriesMeaning
  import opened EventSets
  import opened Edits

  // ------------------------------------------------------------ moving an exception

  /** A wall-clock time as a stamp in an event's own form; a gap has none. */
  function FromLocal(fields: Fields, local: int): Result<Stamp> {
    if fields.allDay then Ok(Date(DateOfTime(local)))
    else
      match fields.zone.resolve(local).Earliest()
      case None => Err
      case Some(time) => Ok(Instant(time))
  }

  function LocalOf(fields: Fields, stamp: Stamp): int {
    LocalTime(fields, Boundary(stamp))
  }

  /** The exception's event under its new key: same wall-clock displacement and
      duration, in the new series' day mode and zone; only inherited texts follow. */
  function MoveException(before: Fields, desired: Fields, edit: Edit, key: Stamp, newKey: Stamp, event: Fields, inherits: bool)
    : Result<Fields>
  {
    var displacement := LocalOf(before, event.start) - LocalOf(before, key);
    var duration := Boundary(event.end) - Boundary(event.start);
    var placed := event.(allDay := desired.allDay, zone := desired.zone);
    var start :- FromLocal(placed, LocalOf(desired, newKey) + displacement);
    Ok(placed.(
       start := start,
       end := FormatStamp(desired.allDay, Boundary(start) + duration),
       title := if event.title == before.title && edit.title.Some? then desired.title else event.title,
       description := if inherits then desired.description else event.description,
       location := if event.location == before.location && edit.location.Some? then desired.location else event.location))
  }

  /** The stamp of a wall clock in an event's own form: its date, or the earliest instant
      that shows it. */
  ghost predicate StampShows(f: Fields, local: int, stamp: Stamp) {
    if f.allDay then stamp == Date(DateOfTime(local)) else stamp.Instant? && FirstShowing(f.zone, local, stamp.time)
  }

  lemma FromLocalIff(f: Fields, local: int, stamp: Stamp)
    requires ZoneOk(f.zone)
    ensures FromLocal(f, local) == Ok(stamp) <==> StampShows(f, local, stamp)
  {
    if !f.allDay && stamp.Instant? {
      var date := DateOfTime(local);
      EarliestIsFirst(f.zone, date, local - Midnight(date), stamp.time);
    }
  }

  /** Of the texts, those that an exception has in common with the master follow it. */
  predicate TextsFollow(before: Fields, desired: Fields, edit: Edit, event: Fields, inherits: bool, moved: Fields) {
    && (edit.title.Some? && event.title == before.title ==> moved.title == desired.title)
    && (edit.title.None? || event.title != before.title ==> moved.title == event.title)
    && (edit.location.Some? && event.location == before.location ==> moved.location == desired.location)
    && (edit.location.None? || event.location != before.location ==> moved.location == event.location)
    && (inherits ==> moved.description == desired.description)
    && (!inherits ==> moved.description == event.description)
  }

  /** An exception under its new key: in the new series' day mode and zone, as far by the
      wall clock from its position as it was, and as long. */
  ghost predicate ExceptionMoved(before: Fields, desired: Fields, edit: Edit, key: Stamp, newKey: Stamp, event: Fields, inherits: bool,
                                 moved: Fields)
  {
    && moved.allDay == desired.allDay && moved.zone == desired.zone
    && StampShows(desired, LocalOf(desired, newKey) + (LocalOf(before, event.start) - LocalOf(before, key)), moved.start)
    && Lasts(moved, Boundary(event.end) - Boundary(event.start)) && StampFits(desired.allDay, moved.end)
    && TextsFollow(before, desired, edit, event, inherits, moved)
  }

  lemma MoveExceptionIff(before: Fields, desired: Fields, edit: Edit, key: Stamp, newKey: Stamp, event: Fields, inherits: bool, moved: Fields)
    requires ZoneOk(desired.zone)
    ensures MoveException(before, desired, edit, key, newKey, event, inherits) == Ok(moved) <==>
      ExceptionMoved(before, desired, edit, key, newKey, event, inherits, moved)
  {
    var local := LocalOf(desired, newKey) + (LocalOf(before, event.start) - LocalOf(before, key));
    var length := Boundary(event.end) - Boundary(event.start);
    FromLocalIff(event.(allDay := desired.allDay, zone := desired.zone), local, moved.start);
    if Lasts(moved, length) && StampFits(moved.allDay, moved.end) {
      EndIsDetermined(moved, length);
    }
    FormattedLasts(moved, length);
  }

  lemma FormattedLasts(f: Fields, length: int)
    ensures f.end == FormatStamp(f.allDay, Boundary(f.start) + length) ==> Lasts(f, length) && StampFits(f.allDay, f.end)
  {
  }

  /** In an unchanged day mode that the exception shares, the moved exception keeps
      its wall-clock displacement from its position, and its duration. */
  lemma DisplacementKept(before: Fields, desired: Fields, edit: Edit, key: Stamp, newKey: Stamp, event: Fields, inherits: bool)
    requires ZoneOk(desired.zone) && before.allDay == desired.allDay == event.allDay && FieldsOk(event)
    requires StampFits(before.allDay, key) && StampFits(desired.allDay, newKey)
    requires MoveException(before, desired, edit, key, newKey, event, inherits).Ok?
    ensures var moved := MoveException(before, desired, edit, key, newKey, event, inherits).value;
      && LocalOf(desired, moved.start) - LocalOf(desired, newKey) == LocalOf(before, event.start) - LocalOf(before, key)
      && Boundary(moved.end) - Boundary(moved.start) == Boundary(event.end) - Boundary(event.start)
  {
    var local := LocalOf(desired, newKey) + LocalOf(before, event.start) - LocalOf(before, key);
    if desired.allDay {
      AllDayMoves(newKey.date, event.start.date, key.date, event.end.date);
    } else {
      var date := DateOfTime(local);
      EarliestShows(desired.zone, date, local - Midnight(date));
    }
  }

  lemma AllDayMoves(newKey: int, start: int, key: int, end: int)
    ensures DateOfTime(Midnight(newKey) + Midnight(start) - Midnight(key)) == newKey + start - key
    ensures DateOfTime(Midnight(newKey + start - key) + Midnight(end) - Midnight(start)) == newKey + end - key
  {
  }

  // ------------------------------------------------------------ remapping all exceptions

  /** One exception before and after: the same occurrence index in both series. */
  ghost predicate Remapped(was: Schedule, now: Schedule, before: Fields, desired: Fields, edit: Edit, inherits: set<Stamp>,
                           o: Override, moved: Override)
    requires Valid(was) && Valid(now)
  {
    && (exists index: nat :: HasIndex(was, o.originalStart, index) && HasPosition(now, index, moved.originalStart))
    && (match o.event
        case None => moved.event.None?
        case Some(event) =>
          && moved.event.Some?
          && moved.event.value == event.(fields := moved.event.value.fields)
          && MoveException(before, desired, edit, o.originalStart, moved.originalStart, event.fields,
                           o.originalStart in inherits) == Ok(moved.event.value.fields))
  }

  ghost predicate AllRemapped(was: Schedule, now: Schedule, before: Fields, desired: Fields, edit: Edit, inherits: set<Stamp>,
                              os: seq<Override>, moved: seq<Override>)
    requires Valid(was) && Valid(now)
  {
    && |moved| == |os|
    && forall i {:trigger Remapped(was, now, before, desired, edit, inherits, os[i], moved[i])} :: 0 <= i < |os| ==>
         Remapped(was, now, before, desired, edit, inherits, os[i], moved[i])
  }

  lemma RemappedSnoc(was: Schedule, now: Schedule, before: Fields, desired: Fields, edit: Edit, inherits: set<Stamp>,
                     os: seq<Override>, moved: seq<Override>, o: Override, one: Override)
    requires Valid(was) && Valid(now) && AllRemapped(was, now, before, desired, edit, inherits, os, moved)
    requires Remapped(was, now, before, desired, edit, inherits, o, one)
    ensures AllRemapped(was, now, before, desired, edit, inherits, os + [o], moved + [one])
  {
    var more, after := os + [o], moved + [one];
    forall i | 0 <= i < |more| ensures Remapped(was, now, before, desired, edit, inherits, more[i], after[i]) {
      if i < |os| {
        assert more[i] == os[i] && after[i] == moved[i];
      }
    }
  }

  lemma RemappedAt(was: Schedule, now: Schedule, before: Fields, desired: Fields, edit: Edit, inherits: set<Stamp>,
                   os: seq<Override>, moved: seq<Override>, i: nat)
    requires Valid(was) && Valid(now) && i < |os| && AllRemapped(was, now, before, desired, edit, inherits, os, moved)
    ensures Remapped(was, now, before, desired, edit, inherits, os[i], moved[i])
  {
  }

  lemma RemappedNext(was: Schedule, now: Schedule, before: Fields, desired: Fields, edit: Edit, inherits: set<Stamp>,
                     os: seq<Override>, i: nat, moved: seq<Override>, one: Override)
    requires Valid(was) && Valid(now) && i < |os| && AllRemapped(was, now, before, desired, edit, inherits, os[..i], moved)
    requires Remapped(was, now, before, desired, edit, inherits, os[i], one)
    ensures AllRemapped(was, now, before, desired, edit, inherits, os[..i + 1], moved + [one])
  {
    RemappedSnoc(was, now, before, desired, edit, inherits, os[..i], moved, os[i], one);
    assert os[..i + 1] == os[..i] + [os[i]];
  }

  lemma NoneRemapped(was: Schedule, now: Schedule, before: Fields, desired: Fields, edit: Edit, inherits: set<Stamp>,
                     os: seq<Override>, i: nat)
    requires Valid(was) && Valid(now) && i < |os|
    requires forall moved :: !Remapped(was, now, before, desired, edit, inherits, os[i], moved)
    ensures forall moved :: !AllRemapped(was, now, before, desired, edit, inherits, os, moved)
  {
    forall moved | AllRemapped(was, now, before, desired, edit, inherits, os, moved) ensures false {
      RemappedAt(was, now, before, desired, edit, inherits, os, moved, i);
    }
  }

  method RemapExceptions(was: Schedule, now: Schedule, before: Fields, desired: Fields, edit: Edit, inherits: set<Stamp>,
                         os: seq<Override>)
    returns (r: Result<seq<Override>>)
    requires Valid(was) && Valid(now)
    ensures r.Ok? ==> AllRemapped(was, now, before, desired, edit, inherits, os, r.value)
    ensures r.Err? ==> forall moved :: !AllRemapped(was, now, before, desired, edit, inherits, os, moved)
  {
    var moved: seq<Override> := [];
    for i := 0 to |os|
      invariant AllRemapped(was, now, before, desired, edit, inherits, os[..i], moved)
    {
      var one := RemapOne(was, now, before, desired, edit, inherits, os[i]);
      if one.Err? {
        NoneRemapped(was, now, before, desired, edit, inherits, os, i);
        return Err;
      }
      RemappedNext(was, now, before, desired, edit, inherits, os, i, moved, one.value);
      moved := moved + [one.value];
    }
    assert os[..|os|] == os;
    return Ok(moved);
  }

  /** Moving a key leaves no choice: its index is the only one, and so is its new position. */
  lemma KeyIsDetermined(was: Schedule, now: Schedule, start: Stamp, index: nat)
    requires Valid(was) && Valid(now) && HasIndex(was, start, index)
    ensures forall i: nat :: HasIndex(was, start, i) ==> i == index
    ensures forall p, q :: HasPosition(now, index, p) && HasPosition(now, index, q) ==> p == q
  {
    forall i: nat | HasIndex(was, start, i) ensures i == index {
      IndexThenPosition(was, start, i);
      IndexThenPosition(was, start, index);
      SamePositionSameIndex(was, i, start, index, start);
    }
    forall p, q | HasPosition(now, index, p) && HasPosition(now, index, q) ensures p == q {
      PositionUnique(now, index, p, q);
    }
  }

  /** So an exception has at most one image. */
  lemma RemappedUnique(was: Schedule, now: Schedule, before: Fields, desired: Fields, edit: Edit, inherits: set<Stamp>,
                       o: Override, a: Override, b: Override)
    requires Valid(was) && Valid(now)
    requires Remapped(was, now, before, desired, edit, inherits, o, a)
    requires Remapped(was, now, before, desired, edit, inherits, o, b)
    ensures a == b
  {
    var index: nat :| HasIndex(was, o.originalStart, index) && HasPosition(now, index, a.originalStart);
    KeyIsDetermined(was, now, o.originalStart, index);
    assert a.originalStart == b.originalStart;
  }

  lemma AllRemappedUnique(was: Schedule, now: Schedule, before: Fields, desired: Fields, edit: Edit, inherits: set<Stamp>,
                          os: seq<Override>, a: seq<Override>, b: seq<Override>)
    requires Valid(was) && Valid(now)
    requires AllRemapped(was, now, before, desired, edit, inherits, os, a)
    requires AllRemapped(was, now, before, desired, edit, inherits, os, b)
    ensures a == b
  {
    forall i | 0 <= i < |os| ensures a[i] == b[i] {
      RemappedUnique(was, now, before, desired, edit, inherits, os[i], a[i], b[i]);
    }
  }

  method RemapOne(was: Schedule, now: Schedule, before: Fields, desired: Fields, edit: Edit, inherits: set<Stamp>, o: Override)
    returns (r: Result<Override>)
    requires Valid(was) && Valid(now)
    ensures r.Ok? ==> Remapped(was, now, before, desired, edit, inherits, o, r.value)
    ensures r.Err? ==> forall moved :: !Remapped(was, now, before, desired, edit, inherits, o, moved)
  {
    var index := OccurrenceIndex(was, o.originalStart);
    if index.Err? {
      return Err;
    }
    KeyIsDetermined(was, now, o.originalStart, index.value);
    var key := PositionAt(now, index.value);
    if key.Err? {
      return Err;
    }
    if o.event.None? {
      return Ok(Override(key.value, None));
    }
    var event := o.event.value;
    var fields := MoveException(before, desired, edit, o.originalStart, key.value, event.fields, o.originalStart in inherits);
    if fields.Err? {
      return Err;
    }
    return Ok(Override(key.value, Some(event.(fields := fields.value))));
  }

  /** Distinct positions stay distinct, and stay in the same order. */
  lemma RemapKeepsOrder(was: Schedule, now: Schedule, p: Stamp, i: nat, p': Stamp, q: Stamp, j: nat, q': Stamp)
    requires Valid(was) && Valid(now)
    requires HasIndex(was, p, i) && HasPosition(now, i, p') && HasIndex(was, q, j) && HasPosition(now, j, q')
    ensures Boundary(p) < Boundary(q) <==> Boundary(p') < Boundary(q')
    ensures p == q <==> p' == q'
  {
    IndexThenPosition(was, p, i);
    IndexThenPosition(was, q, j);
    PositionsIncrease(was, i, p, j, q);
    PositionsIncrease(now, i, p', j, q');
    SamePositionSameIndex(was, i, p, j, q);
    SamePositionSameIndex(now, i, p', j, q');
  }

  lemma SamePositionSameIndex(s: Schedule, i: nat, p: Stamp, j: nat, q: Stamp)
    requires Valid(s) && HasPosition(s, i, p) && HasPosition(s, j, q)
    ensures i == j <==> p == q
  {
    PositionsIncrease(s, i, p, j, q);
    PositionsIncrease(s, j, q, i, p);
    if i == j {
      PositionUnique(s, i, p, q);
    }
  }

  lemma KeysStayDistinct(was: Schedule, now: Schedule, before: Fields, desired: Fields, edit: Edit, inherits: set<Stamp>,
                         os: seq<Override>, moved: seq<Override>)
    requires Valid(was) && Valid(now) && AllRemapped(was, now, before, desired, edit, inherits, os, moved)
    requires DistinctKeys(os)
    ensures DistinctKeys(moved)
  {
    forall i, j | 0 <= i < j < |moved| ensures moved[i].originalStart != moved[j].originalStart {
      RemappedAt(was, now, before, desired, edit, inherits, os, moved, i);
      RemappedAt(was, now, before, desired, edit, inherits, os, moved, j);
      var a: nat :| HasIndex(was, os[i].originalStart, a) && HasPosition(now, a, moved[i].originalStart);
      var b: nat :| HasIndex(was, os[j].originalStart, b) && HasPosition(now, b, moved[j].originalStart);
      RemapKeepsOrder(was, now, os[i].originalStart, a, moved[i].originalStart, os[j].originalStart, b, moved[j].originalStart);
    }
  }

  // ------------------------------------------------------------ carrying content along

  /** Move captured provenance from old keys to new ones, reading only the old map. */
  method RemapContent(content: map<Stamp, Provenance>, os: seq<Override>, moved: seq<Override>)
    returns (r: map<Stamp, Provenance>)
    requires |os| == |moved| && DistinctKeys(moved)
    ensures forall i :: 0 <= i < |os| ==>
      (moved[i].originalStart in r <==> os[i].originalStart in content)
      && (os[i].originalStart in content ==> r[moved[i].originalStart] == content[os[i].originalStart])
    ensures r.Keys <= KeysOf(moved)
  {
    r := map[];
    for i := 0 to |os|
      invariant r.Keys <= KeysOf(moved[..i])
      invariant forall j :: 0 <= j < i ==>
        (moved[j].originalStart in r <==> os[j].originalStart in content)
        && (os[j].originalStart in content ==> r[moved[j].originalStart] == content[os[j].originalStart])
    {
      NewKey(moved, i, KeysOf(moved[..i]));
      if os[i].originalStart in content {
        r := r[moved[i].originalStart := content[os[i].originalStart]];
      }
    }
    assert moved[..|os|] == moved;
  }

  lemma NewKey(moved: seq<Override>, i: nat, keys: set<Stamp>)
    requires i < |moved| && DistinctKeys(moved) && keys == KeysOf(moved[..i])
    ensures moved[i].originalStart !in keys
    ensures KeysOf(moved[..i + 1]) == keys + {moved[i].originalStart}
  {
    assert moved[..i + 1] == moved[..i] + [moved[i]];
    assert forall j :: 0 <= j < i ==> moved[..i][j] == moved[j];
  }

  // ------------------------------------------------------------ the whole edit

  /** The exceptions of an edited series: remapped by index, with their content. */
  ghost predicate SeriesEdited(before: EventSet, desired: Event, edit: Edit, inherits: set<Stamp>, content: Content, after: EventSet)
    requires EventOk(before.event) && EventOk(desired) && FromEvent(before.event).Ok? && FromEvent(desired).Ok?
  {
    && ValidSet(after) && after.event == desired
    && AllRemapped(ScheduleOf(before.event), ScheduleOf(desired), before.event.fields, desired.fields, edit, inherits,
                   before.overrides, after.overrides)
    && after.content.Some? && after.content.value.master == content.master
    && (forall i :: 0 <= i < |before.overrides| ==>
          var o, n := before.overrides[i].originalStart, after.overrides[i].originalStart;
          (n in after.content.value.overrides <==> o in content.overrides)
          && (o in content.overrides ==> after.content.value.overrides[n] == content.overrides[o]))
  }

  method EditSeries(before: EventSet, desired: Event, edit: Edit, inherits: set<Stamp>, content: Content)
    returns (r: Result<EventSet>)
    requires EventOk(before.event) && EventOk(desired)
    ensures r.Ok? ==>
      && ValidSet(before) && FromEvent(before.event).Ok? && FromEvent(desired).Ok? && desired.kind.Series?
      && SeriesEdited(before, desired, edit, inherits, content, r.value)
    ensures r.Err? && ValidSet(before) && FromEvent(before.event).Ok? && FromEvent(desired).Ok? && desired.kind.Series? ==>
      forall after :: !SeriesEdited(before, desired, edit, inherits, content, after)
  {
    var valid := Validate(before);
    var was, now := FromEvent(before.event), FromEvent(desired);
    if !valid || was.Err? || now.Err? || !desired.kind.Series? {
      return Err;
    }
    NewIsValid(before.event.fields, before.event.rule.value);
    NewIsValid(desired.fields, desired.rule.value);
    var moved := RemapExceptions(was.value, now.value, before.event.fields, desired.fields, edit, inherits, before.overrides);
    if moved.Err? {
      return Err;
    }
    KeysStayDistinct(was.value, now.value, before.event.fields, desired.fields, edit, inherits, before.overrides, moved.value);
    var overrides := RemapContent(content.overrides, before.overrides, moved.value);
    var after := EventSet(desired, moved.value, Some(Content(content.master, overrides)));
    var ok := Validate(after);
    if !ok {
      forall other | SeriesEdited(before, desired, edit, inherits, content, other) ensures false {
        AllRemappedUnique(was.value, now.value, before.event.fields, desired.fields, edit, inherits, before.overrides,
                          moved.value, other.overrides);
      }
      return Err;
    }
    return Ok(after);
  }
}
