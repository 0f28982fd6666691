/** A standalone event, or a series with its finite overrides. */
module EventSets {
  import opened Basics
  import opened Rules
  import opened Schedules
  import opened Series
  import opened Engine
  import opened Lookup

  /** An exception keyed by its original position; without an event it excludes the slot. */
  datatype Override = Override(originalStart: Stamp, event: Option<Event>)

  datatype Format = Plain | Html

  /** Where an event's content came from: body format, participant roles, organizer. */
  datatype Provenance = Provenance(format: Format, roles: map<string, string>, organizer: Option<string>)

  datatype Content = Content(master: Provenance, overrides: map<Stamp, Provenance>)

  datatype EventSet = EventSet(event: Event, overrides: seq<Override>, content: Option<Content>)

  function KeysOf(overrides: seq<Override>): set<Stamp> {
    set i | 0 <= i < |overrides| :: overrides[i].originalStart
  }

  predicate DistinctKeys(overrides: seq<Override>) {
    forall i, j :: 0 <= i < j < |overrides| ==> overrides[i].originalStart != overrides[j].originalStart
  }

  predicate OverrideOk(master: Event, o: Override) {
    && StampFits(master.fields.allDay, o.originalStart)
    && (o.event.Some? ==> FieldsOk(o.event.value.fields) && o.event.value.rule.None?)
  }

  /** A complete classification with valid content and canonical, distinct keys. */
  predicate ValidSet(es: EventSet) {
    && FieldsOk(es.event.fields)
    && (match es.event.kind
        case Standalone => es.event.rule.None? && es.overrides == []
        case Series => es.event.rule.Some?
        case Occurrence => false)
    && (forall i :: 0 <= i < |es.overrides| ==> OverrideOk(es.event, es.overrides[i]))
    && DistinctKeys(es.overrides)
  }

  /** The override of a key: the first that matches. */
  function Find(overrides: seq<Override>, key: Stamp): Option<Override> {
    if overrides == [] then None
    else if overrides[0].originalStart == key then Some(overrides[0])
    else Find(overrides[1..], key)
  }

  lemma {:induction false} FindExact(overrides: seq<Override>, key: Stamp)
    ensures Find(overrides, key).Some? <==> key in KeysOf(overrides)
    ensures Find(overrides, key).Some? ==> Find(overrides, key).value.originalStart == key
  {
    if overrides != [] {
      FindExact(overrides[1..], key);
      KeysCons(overrides);
    }
  }

  lemma KeysCons(overrides: seq<Override>)
    requires overrides != []
    ensures KeysOf(overrides) == {overrides[0].originalStart} + KeysOf(overrides[1..])
  {
    assert forall i :: 1 <= i < |overrides| ==> overrides[i] == overrides[1..][i - 1];
  }

  /** Validation walks the overrides with a growing set of positions. */
  method Validate(es: EventSet) returns (ok: bool)
    ensures ok == ValidSet(es)
  {
    if !FieldsOk(es.event.fields) {
      return false;
    }
    match es.event.kind {
      case Standalone =>
        if es.event.rule.Some? || es.overrides != [] {
          return false;
        }
      case Series =>
        if es.event.rule.None? {
          return false;
        }
      case Occurrence =>
        return false;
    }
    var positions: set<Stamp> := {};
    var i := 0;
    while i < |es.overrides|
      invariant 0 <= i <= |es.overrides|
      invariant positions == KeysOf(es.overrides[..i])
      invariant DistinctKeys(es.overrides[..i])
      invariant forall j :: 0 <= j < i ==> OverrideOk(es.event, es.overrides[j])
    {
      var item := es.overrides[i];
      if !StampFits(es.event.fields.allDay, item.originalStart) {
        return false;
      }
      if item.originalStart in positions {
        KeyIsEarlier(es.overrides, i);
        return false;
      }
      if item.event.Some? && (!FieldsOk(item.event.value.fields) || item.event.value.rule.Some?) {
        assert !OverrideOk(es.event, es.overrides[i]);
        return false;
      }
      NewKey(es.overrides, i);
      positions := positions + {item.originalStart};
      i := i + 1;
    }
    assert es.overrides[..i] == es.overrides;
    return true;
  }

  lemma KeyIsEarlier(overrides: seq<Override>, i: nat)
    requires i < |overrides| && overrides[i].originalStart in KeysOf(overrides[..i])
    ensures !DistinctKeys(overrides)
  {
    var j :| 0 <= j < i && overrides[..i][j].originalStart == overrides[i].originalStart;
  }

  lemma NewKey(overrides: seq<Override>, i: nat)
    requires i < |overrides| && overrides[i].originalStart !in KeysOf(overrides[..i]) && DistinctKeys(overrides[..i])
    ensures DistinctKeys(overrides[..i + 1])
    ensures KeysOf(overrides[..i + 1]) == KeysOf(overrides[..i]) + {overrides[i].originalStart}
  {
    assert overrides[..i + 1] == overrides[..i] + [overrides[i]];
    assert forall j :: 0 <= j < i ==> overrides[..i][j].originalStart in KeysOf(overrides[..i]);
  }

  // ------------------------------------------------------------ selection

  ghost predicate SetOk(es: EventSet) {
    EventOk(es.event)
  }

  /** The generated fields of an original position. */
  ghost function ResolvedFields(event: Event, key: Stamp): Result<Fields>
    requires EventOk(event)
  {
    if FromEvent(event).Ok? && exists f :: Resolves(ScheduleOf(event), event.fields, key, f)
    then
      var f :| Resolves(ScheduleOf(event), event.fields, key, f);
      Ok(f)
    else Err
  }

  /** The effective event at a position: its override, or the generated occurrence. */
  ghost function Selected(es: EventSet, key: Option<Stamp>): Result<Event>
    requires SetOk(es)
  {
    if !ValidSet(es) then Err
    else if key.None? then Ok(es.event)
    else if !es.event.kind.Series? || !StampFits(es.event.fields.allDay, key.value) then Err
    else
      match Find(es.overrides, key.value)
      case Some(o) => if o.event.Some? then Ok(o.event.value) else Err
      case None =>
        match ResolvedFields(es.event, key.value)
        case Err => Err
        case Ok(f) => Ok(Event(f, None, Occurrence))
  }

  lemma ResolvesUnique(s: Schedule, fields: Fields, key: Stamp, f: Fields, g: Fields)
    requires Valid(s) && Resolves(s, fields, key, f) && Resolves(s, fields, key, g)
    ensures f == g
  {
    var j: nat :| NamedSlot(s, key, j) && FieldsAt(s, fields, Position(s, j).value) == Ok(f);
    var k: nat :| NamedSlot(s, key, k) && FieldsAt(s, fields, Position(s, k).value) == Ok(g);
    PositionInjective(s, j, k);
  }

  method SelectedEvent(es: EventSet, key: Option<Stamp>) returns (r: Result<Event>)
    requires SetOk(es)
    ensures r == Selected(es, key)
  {
    var valid := Validate(es);
    if !valid {
      return Err;
    }
    if key.None? {
      return Ok(es.event);
    }
    if !es.event.kind.Series? || !StampFits(es.event.fields.allDay, key.value) {
      return Err;
    }
    var found := Find(es.overrides, key.value);
    if found.Some? {
      return if found.value.event.Some? then Ok(found.value.event.value) else Err;
    }
    var fields := ResolveEvent(es.event, key.value);
    return if fields.Err? then Err else Ok(Event(fields.value, None, Occurrence));
  }

  method ResolveEvent(event: Event, key: Stamp) returns (r: Result<Fields>)
    requires EventOk(event)
    ensures r == ResolvedFields(event, key)
  {
    var schedule := FromEvent(event);
    if schedule.Err? {
      return Err;
    }
    ghost var s := ScheduleOf(event);
    r := Resolve(schedule.value, event.fields, key);
    if r.Ok? {
      assert Resolves(s, event.fields, key, r.value);
      ResolvesUnique(s, event.fields, key, r.value, ResolvedFields(event, key).value);
    }
  }
}
