/** Editing a standalone event or a whole series through one of its occurrences. Times
    refer to the selected occurrence: the master moves by as much as it does, and the
    occurrence lands where it was asked to. */
module WholeSeries {
  import opened Basics
  import opened Zones
  import opened Rules
  import opened Schedules
  import opened Series
  import opened Engine
  import opened Lookup
  import opened RuleShift
  import opened EventSets
  import opened Projection
  import opened Edits
  import opened SeriesEdits
  import opened SetEquivalence
  import opened SetWindows
  import RuleText

  /** What is asked: the selected position, the field changes, the text of a new rule (an
      empty one ends the recurrence), and whether exceptions are dropped. */
  datatype Request = Request(key: Option<Stamp>, edit: Edit, rule: Option<string>, reset: bool)

  ghost predicate ZonesOk(before: EventSet, q: Request) {
    SetOk(before) && (q.edit.zone.Some? ==> ZoneOk(q.edit.zone.value))
  }

  // ------------------------------------------------------------ the new master

  function Duration(f: Fields): int {
    Boundary(f.end) - Boundary(f.start)
  }

  /** The master in the zone that the edit asks for. */
  function Template(before: Fields, edit: Edit, edited: Fields): Fields {
    before.(zone := if edit.zone.Some? then edited.zone else before.zone)
  }

  /** Where the master starts when the selected occurrence is edited. */
  function MasterStart(before: Fields, edit: Edit, selected: Fields, edited: Fields): Result<Option<Stamp>> {
    if edit.start.None? && edit.zone.None? then Ok(None)
    else
      var template := Template(before, edit, edited);
      var shift := LocalOf(template, edited.start) - LocalOf(before, selected.start);
      var start :- FromLocal(template, LocalOf(before, before.start) + shift);
      Ok(Some(start))
  }

  /** The edit of the master that the edit of an occurrence stands for. */
  function MasterEdit(before: Event, key: Option<Stamp>, edit: Edit, selected: Fields, edited: Fields): Result<Edit> {
    if !before.kind.Series? || key.None? then Ok(edit)
    else if before.fields.allDay != edited.allDay then Err
    else
      var start :- MasterStart(before.fields, edit, selected, edited);
      if edit.start.None? && edit.end.None? && edit.zone.None? then Ok(edit)
      else
        var from := if start.Some? then start.value else before.fields.start;
        var duration := Duration(if edit.end.Some? then edited else before.fields);
        Ok(edit.(start := start, end := Some(FormatStamp(before.fields.allDay, Boundary(from) + duration))))
  }

  /** A rule that must fit the event. */
  function Fitting(fields: Fields, rule: Rule, kind: RecurrenceKind): Result<(Option<Rule>, RecurrenceKind)>
    requires RuleOk(rule)
  {
    if New(fields, rule).Err? then Err else Ok((Some(rule), kind))
  }

  /** The new rule and kind: the rule asked for, or the old one moved with the start. */
  function NewRule(before: Event, fields: Fields, rule: Option<string>): Result<(Option<Rule>, RecurrenceKind)>
    requires before.rule.Some? ==> RuleOk(before.rule.value)
  {
    match rule
    case Some(text) =>
      if text == "" then Ok((None, Standalone))
      else
        var asked :- RuleText.ParseRule(text);
        RuleText.ParsedRuleOk(text);
        Fitting(fields, asked, Series)
    case None =>
      if before.rule.None? then Ok((None, before.kind))
      else if before.fields.start == fields.start && before.fields.zone.name == fields.zone.name then
        Fitting(fields, before.rule.value, before.kind)
      else
        var moved :- ShiftRule(before.fields, fields, before.rule.value);
        ShiftRuleOk(before.fields, fields, before.rule.value);
        Fitting(fields, moved, before.kind)
  }

  method ChooseRule(before: Event, fields: Fields, rule: Option<string>) returns (r: Result<(Option<Rule>, RecurrenceKind)>)
    requires before.rule.Some? ==> RuleOk(before.rule.value)
    ensures r == NewRule(before, fields, rule)
  {
    if rule.Some? && rule.value != "" {
      var asked := RuleText.Parse(rule.value);
      if asked.Err? {
        return Err;
      }
      RuleText.ParsedRuleOk(rule.value);
      return Fitting(fields, asked.value, Series);
    }
    return NewRule(before, fields, rule);
  }

  // ------------------------------------------------------------ inherited descriptions

  function FormatAt(content: Content, key: Stamp): Format {
    if key in content.overrides then content.overrides[key].format else content.master.format
  }

  /** An exception whose description, and its format, is the master's. */
  predicate InheritsText(before: EventSet, content: Content, i: nat) {
    && i < |before.overrides| && before.overrides[i].event.Some?
    && before.overrides[i].event.value.fields.description == before.event.fields.description
    && FormatAt(content, before.overrides[i].originalStart) == content.master.format
  }

  function Inheriting(before: EventSet, content: Content): set<Stamp> {
    set i | 0 <= i < |before.overrides| && InheritsText(before, content, i) :: before.overrides[i].originalStart
  }

  /** The loop that collects them. */
  method CollectInheriting(before: EventSet, content: Content) returns (keys: set<Stamp>)
    ensures keys == Inheriting(before, content)
  {
    keys := {};
    for i := 0 to |before.overrides|
      invariant keys == set j | 0 <= j < i && InheritsText(before, content, j) :: before.overrides[j].originalStart
    {
      if InheritsText(before, content, i) {
        keys := keys + {before.overrides[i].originalStart};
      }
    }
  }

  /** A changed description is plain text, for the master and for all that inherit it. */
  function Replain(content: Content, keys: set<Stamp>): Content {
    var master := content.master.(format := Plain);
    Content(master, map key | key in content.overrides.Keys + keys ::
                      if key !in keys then content.overrides[key]
                      else if key in content.overrides then content.overrides[key].(format := Plain)
                      else master)
  }

  /** The loop that marks them. */
  method MarkInheriting(content: Content, keys: set<Stamp>) returns (marked: Content)
    ensures marked == Replain(content, keys)
  {
    marked := content.(master := content.master.(format := Plain));
    var left := keys;
    while left != {}
      invariant left <= keys && marked == Replain(content, keys - left)
      decreases |left|
    {
      var key :| key in left;
      MarkOne(content, keys - left, key);
      marked := MarkPlain(marked, key);
      assert keys - (left - {key}) == (keys - left) + {key};
      left := left - {key};
    }
    assert keys - {} == keys;
  }

  lemma MarkOne(content: Content, done: set<Stamp>, key: Stamp)
    requires key !in done
    ensures MarkPlain(Replain(content, done), key) == Replain(content, done + {key})
  {
  }

  // ------------------------------------------------------------ the plan of an edit

  /** All that an edit decides before the exceptions move. */
  datatype Plan = Plan(edited: Fields, desired: Event, inherits: set<Stamp>, content: Content)

  function PlanOf(before: EventSet, q: Request, selected: Fields, content: Content): Result<Plan>
    requires before.event.rule.Some? ==> RuleOk(before.event.rule.value)
  {
    var edited :- ApplyPatch(selected, q.edit);
    var masterEdit :- MasterEdit(before.event, q.key, q.edit, selected, edited);
    var fields :- ApplyPatch(before.event.fields, masterEdit);
    var (rule, kind) :- NewRule(before.event, fields, q.rule);
    var changed := fields.description != before.event.fields.description;
    var inherits := if changed then Inheriting(before, content) else {};
    Ok(Plan(edited, Event(fields, rule, kind), inherits, if changed then Replain(content, inherits) else content))
  }

  lemma PlanIsOk(before: EventSet, q: Request, selected: Fields, content: Content)
    requires ZonesOk(before, q) && PlanOf(before, q, selected, content).Ok?
    ensures EventOk(PlanOf(before, q, selected, content).value.desired)
  {
    var plan := PlanOf(before, q, selected, content).value;
    RuleIsOk(before.event, plan.desired.fields, q.rule);
  }

  lemma RuleIsOk(before: Event, fields: Fields, rule: Option<string>)
    requires (before.rule.Some? ==> RuleOk(before.rule.value)) && NewRule(before, fields, rule).Ok?
    ensures var r := NewRule(before, fields, rule).value.0; r.Some? ==> RuleOk(r.value) && New(fields, r.value).Ok?
  {
    if rule.Some? && rule.value != "" {
      RuleText.ParsedRuleOk(rule.value);
    } else if rule.None? && before.rule.Some? && ShiftRule(before.fields, fields, before.rule.value).Ok? {
      ShiftRuleOk(before.fields, fields, before.rule.value);
    }
  }

  /** The plan as it is made, with its loops. */
  method MakePlan(before: EventSet, q: Request, selected: Fields, content: Content) returns (r: Result<Plan>)
    requires ZonesOk(before, q)
    ensures r == PlanOf(before, q, selected, content)
    ensures forall plan :: r == Ok(plan) <==> Planned(before, q, selected, content, plan)
  {
    forall plan ensures PlanOf(before, q, selected, content) == Ok(plan) <==> Planned(before, q, selected, content, plan) {
      PlannedIff(before, q, selected, content, plan);
    }
    var edited := ApplyPatch(selected, q.edit);
    if edited.Err? {
      return Err;
    }
    var masterEdit := MasterEdit(before.event, q.key, q.edit, selected, edited.value);
    if masterEdit.Err? {
      return Err;
    }
    var fields := ApplyPatch(before.event.fields, masterEdit.value);
    if fields.Err? {
      return Err;
    }
    var inherits, marked := {}, content;
    if fields.value.description != before.event.fields.description {
      inherits := CollectInheriting(before, content);
      marked := MarkInheriting(content, inherits);
    }
    var rule := ChooseRule(before.event, fields.value, q.rule);
    if rule.Err? {
      return Err;
    }
    return Ok(Plan(edited.value, Event(fields.value, rule.value.0, rule.value.1), inherits, marked));
  }

  // ------------------------------------------------------------ what the plan is

  /** The master's times. It starts as far by the wall clock from where it did as the selected
      occurrence does, and is as long as that, if its end is edited, or else as before. */
  ghost predicate MasterTimes(before: Fields, edit: Edit, selected: Fields, edited: Fields, after: Fields) {
    && (if edit.start.None? && edit.zone.None? then after.start == before.start
        else StampShows(after, LocalOf(before, before.start) + (LocalOf(after, edited.start) - LocalOf(before, selected.start)), after.start))
    && (if edit.start.None? && edit.end.None? && edit.zone.None? then after.end == before.end
        else Lasts(after, Duration(if edit.end.Some? then edited else before)))
  }

  /** The new master: its texts, zone and day mode are edited as they stand, its times
      through the selected occurrence. */
  ghost predicate MasterEdited(before: Event, key: Option<Stamp>, edit: Edit, selected: Fields, edited: Fields, after: Fields) {
    && DetailsEdited(before.fields, edit, after) && FieldsOk(after)
    && if !before.kind.Series? || key.None? then TimesEdited(before.fields, edit, after)
       else before.fields.allDay == edited.allDay == after.allDay && MasterTimes(before.fields, edit, selected, edited, after)
  }

  lemma MasterEditDetails(before: Event, key: Option<Stamp>, edit: Edit, selected: Fields, edited: Fields)
    requires MasterEdit(before, key, edit, selected, edited).Ok?
    ensures var m := MasterEdit(before, key, edit, selected, edited).value;
      m.title == edit.title && m.description == edit.description && m.location == edit.location && m.zone == edit.zone && m.allDay == edit.allDay
  {
  }

  /** Through an occurrence of a series. */
  lemma MasterTimesIff(before: Event, key: Option<Stamp>, edit: Edit, selected: Fields, edited: Fields, after: Fields)
    requires ZoneOk(after.zone) && before.kind.Series? && key.Some? && before.fields.allDay == edited.allDay == after.allDay
    requires after.zone == (if edit.zone.Some? then edited.zone else before.fields.zone) && StampFits(after.allDay, after.end)
    ensures (MasterEdit(before, key, edit, selected, edited).Ok? && TimesEdited(before.fields, MasterEdit(before, key, edit, selected, edited).value, after))
      <==> MasterTimes(before.fields, edit, selected, edited, after)
  {
    var template := Template(before.fields, edit, edited);
    var local := LocalOf(before.fields, before.fields.start) + (LocalOf(after, edited.start) - LocalOf(before.fields, selected.start));
    assert LocalOf(template, edited.start) == LocalOf(after, edited.start);
    FromLocalIff(template, local, after.start);
    var length := Duration(if edit.end.Some? then edited else before.fields);
    if Lasts(after, length) {
      EndIsDetermined(after, length);
    }
  }

  lemma MasterEditedIff(before: Event, key: Option<Stamp>, edit: Edit, selected: Fields, edited: Fields, after: Fields)
    requires ZoneOk(before.fields.zone) && (edit.zone.Some? ==> ZoneOk(edit.zone.value)) && FieldsEdited(selected, edit, edited)
    ensures (MasterEdit(before, key, edit, selected, edited).Ok?
             && ApplyPatch(before.fields, MasterEdit(before, key, edit, selected, edited).value) == Ok(after))
      <==> MasterEdited(before, key, edit, selected, edited, after)
  {
    var m := MasterEdit(before, key, edit, selected, edited);
    if m.Ok? {
      MasterEditDetails(before, key, edit, selected, edited);
      ApplyPatchIff(before.fields, m.value, after);
    }
    if before.kind.Series? && key.Some? && DetailsEdited(before.fields, edit, after) && FieldsOk(after) && before.fields.allDay == edited.allDay {
      MasterTimesIff(before, key, edit, selected, edited, after);
    }
  }

  /** The new rule: none, the one asked for, or the old one, moved if the start or the zone
      is another. It fits the new master. */
  ghost predicate RuleEdited(before: Event, text: Option<string>, after: Event)
    requires before.rule.Some? ==> RuleOk(before.rule.value)
  {
    && (text == Some("") ==> after.rule == None && after.kind == Standalone)
    && (text.Some? && text.value != "" ==>
          after.kind == Series && after.rule.Some? && RuleText.ParseRule(text.value) == Ok(after.rule.value))
    && (text.None? ==> after.kind == before.kind && (after.rule.Some? <==> before.rule.Some?))
    && (text.None? && before.rule.Some? ==>
          var stays := before.fields.start == after.fields.start && before.fields.zone.name == after.fields.zone.name;
          if stays then after.rule == before.rule
          else ShiftRule(before.fields, after.fields, before.rule.value) == Ok(after.rule.value))
    && (after.rule.Some? ==> RuleOk(after.rule.value) && New(after.fields, after.rule.value).Ok?)
  }

  lemma RuleEditedIff(before: Event, text: Option<string>, after: Event)
    requires before.rule.Some? ==> RuleOk(before.rule.value)
    ensures NewRule(before, after.fields, text) == Ok((after.rule, after.kind)) <==> RuleEdited(before, text, after)
  {
    if NewRule(before, after.fields, text).Ok? {
      RuleIsOk(before, after.fields, text);
    }
  }

  /** The exception at the key has the master's description, in the master's format. */
  ghost predicate Shares(before: EventSet, content: Content, i: nat, key: Stamp) {
    && i < |before.overrides| && before.overrides[i].originalStart == key
    && (match before.overrides[i].event
        case None => false
        case Some(event) => event.fields.description == before.event.fields.description)
    && (key in content.overrides ==> content.overrides[key].format == content.master.format)
  }

  /** Where the description changes, it is plain text for the master and for the exceptions
      that had the master's; everything else stays. */
  ghost predicate ContentEdited(before: EventSet, content: Content, plan: Plan) {
    if plan.desired.fields.description == before.event.fields.description then plan.inherits == {} && plan.content == content
    else
      && (forall key :: key in plan.inherits <==> exists i: nat :: Shares(before, content, i, key))
      && plan.content.master == content.master.(format := Plain)
      && plan.content.overrides.Keys == content.overrides.Keys + plan.inherits
      && forall key :: key in plan.content.overrides ==>
           var had := if key in content.overrides then content.overrides[key] else content.master;
           plan.content.overrides[key] == if key in plan.inherits then had.(format := Plain) else had
  }

  lemma SharesIff(before: EventSet, content: Content, key: Stamp)
    ensures key in Inheriting(before, content) <==> exists i: nat :: Shares(before, content, i, key)
  {
    if i: nat :| i < |before.overrides| && InheritsText(before, content, i) && before.overrides[i].originalStart == key {
      assert Shares(before, content, i, key);
    }
    if i: nat :| Shares(before, content, i, key) {
      assert InheritsText(before, content, i);
    }
  }

  lemma ContentEditedIff(before: EventSet, content: Content, plan: Plan)
    ensures ContentEdited(before, content, plan) <==>
      var changed := plan.desired.fields.description != before.event.fields.description;
      && plan.inherits == (if changed then Inheriting(before, content) else {})
      && plan.content == (if changed then Replain(content, plan.inherits) else content)
  {
    if plan.desired.fields.description != before.event.fields.description {
      forall key ensures key in Inheriting(before, content) <==> exists i: nat :: Shares(before, content, i, key) {
        SharesIff(before, content, key);
      }
      if ContentEdited(before, content, plan) {
        assert plan.inherits == Inheriting(before, content);
        assert plan.content.overrides == Replain(content, plan.inherits).overrides;
      }
    }
  }

  /** The plan of an edit, said of the fields, the rule and the provenance themselves. */
  ghost predicate Planned(before: EventSet, q: Request, selected: Fields, content: Content, plan: Plan)
    requires before.event.rule.Some? ==> RuleOk(before.event.rule.value)
  {
    && FieldsEdited(selected, q.edit, plan.edited) && FieldsOk(plan.edited)
    && MasterEdited(before.event, q.key, q.edit, selected, plan.edited, plan.desired.fields)
    && RuleEdited(before.event, q.rule, plan.desired)
    && ContentEdited(before, content, plan)
  }

  /** The plan that is computed is the one that the edit asks for, and none is computed
      exactly when there is none. */
  lemma PlannedIff(before: EventSet, q: Request, selected: Fields, content: Content, plan: Plan)
    requires ZonesOk(before, q)
    ensures PlanOf(before, q, selected, content) == Ok(plan) <==> Planned(before, q, selected, content, plan)
  {
    ApplyPatchIff(selected, q.edit, plan.edited);
    if ApplyPatch(selected, q.edit) == Ok(plan.edited) {
      MasterEditedIff(before.event, q.key, q.edit, selected, plan.edited, plan.desired.fields);
      RuleEditedIff(before.event, q.rule, plan.desired);
      ContentEditedIff(before, content, plan);
    }
  }

  // ------------------------------------------------------------ the phase

  /** The position of the selected index in the new series, displaced as the selected
      occurrence is, is the start that was asked for. */
  ghost predicate LandsAt(before: Event, desired: Event, key: Stamp, selected: Fields, edited: Fields, index: nat, newKey: Stamp)
    requires EventOk(before) && EventOk(desired)
  {
    && FromEvent(before).Ok? && FromEvent(desired).Ok?
    && HasIndex(ScheduleOf(before), key, index) && HasPosition(ScheduleOf(desired), index, newKey)
    && LocalOf(desired.fields, newKey) + (LocalOf(before.fields, selected.start) - LocalOf(before.fields, key))
       == LocalOf(desired.fields, edited.start)
  }

  ghost predicate PhaseKept(before: Event, desired: Event, key: Stamp, selected: Fields, edited: Fields)
    requires EventOk(before) && EventOk(desired)
  {
    && ResolvedFields(before, key).Ok?
    && exists index: nat, newKey :: LandsAt(before, desired, key, selected, edited, index, newKey)
  }

  /** The final check of a reschedule. */
  method CheckPhase(before: Event, desired: Event, key: Stamp, selected: Fields, edited: Fields) returns (ok: bool)
    requires EventOk(before) && EventOk(desired)
    ensures ok <==> PhaseKept(before, desired, key, selected, edited)
  {
    var was, now := FromEvent(before), FromEvent(desired);
    if was.Err? || now.Err? {
      return false;
    }
    NewIsValid(before.fields, before.rule.value);
    NewIsValid(desired.fields, desired.rule.value);
    var index := OccurrenceIndex(was.value, key);
    if index.Err? {
      return false;
    }
    KeyIsDetermined(was.value, now.value, key, index.value);
    var newKey := PositionAt(now.value, index.value);
    if newKey.Err? {
      return false;
    }
    var resolved := ResolveEvent(before, key);
    if resolved.Err? {
      return false;
    }
    ResolvedStart(before, key);
    var displacement := LocalOf(before.fields, selected.start) - LocalOf(before.fields, resolved.value.start);
    ok := LocalOf(desired.fields, newKey.value) + displacement == LocalOf(desired.fields, edited.start);
    if ok {
      assert LandsAt(before, desired, key, selected, edited, index.value, newKey.value);
    }
  }

  /** A position resolves to fields that start there. */
  lemma ResolvedStart(event: Event, key: Stamp)
    requires EventOk(event) && ResolvedFields(event, key).Ok?
    ensures ResolvedFields(event, key).value.start == key
  {
    var s, f := ScheduleOf(event), ResolvedFields(event, key).value;
    var slot: nat :| NamedSlot(s, key, slot) && FieldsAt(s, event.fields, Position(s, slot).value) == Ok(f);
    NamedIsFormatted(s, key, slot);
  }

  // ------------------------------------------------------------ the whole edit

  /** The exceptions of the new set: dropped, none, or remapped by their index. */
  ghost predicate ExceptionsMoved(before: EventSet, q: Request, plan: Plan, after: EventSet)
    requires SetOk(before) && EventOk(plan.desired)
  {
    && ValidSet(after) && after.event == plan.desired
    && if q.reset then after == EventSet(plan.desired, [], Some(Content(plan.content.master, map[])))
       else if before.overrides == [] then after == EventSet(plan.desired, [], Some(plan.content))
       else
         && plan.desired.kind.Series? && FromEvent(before.event).Ok? && FromEvent(plan.desired).Ok?
         && SeriesEdited(before, plan.desired, q.edit, plan.inherits, plan.content, after)
  }

  method MoveExceptions(before: EventSet, q: Request, plan: Plan) returns (r: Result<EventSet>)
    requires SetOk(before) && ValidSet(before) && EventOk(plan.desired)
    ensures r.Ok? ==> ExceptionsMoved(before, q, plan, r.value)
    ensures r.Err? ==> forall after :: !ExceptionsMoved(before, q, plan, after)
  {
    if !q.reset && before.overrides != [] {
      r := EditSeries(before, plan.desired, q.edit, plan.inherits, plan.content);
      return;
    }
    var after := EventSet(plan.desired, [], Some(if q.reset then Content(plan.content.master, map[]) else plan.content));
    var valid := Validate(after);
    return if valid then Ok(after) else Err;
  }

  /** Whether the selected occurrence of a series is given a new start. */
  predicate Reschedules(before: EventSet, q: Request, plan: Plan) {
    before.event.kind.Series? && plan.desired.kind.Series? && q.edit.start.Some? && q.key.Some?
  }

  /** `after` is `before` edited as `q` asks, with the given provenance and plan. */
  ghost predicate WholeEdited(before: EventSet, q: Request, derive: Option<Stamp> -> Result<Provenance>,
                              content: Content, plan: Plan, after: EventSet)
    requires SetOk(before)
  {
    && ValidSet(before) && Selected(before, q.key).Ok? && Captured(before, derive, content)
    && Planned(before, q, Selected(before, q.key).value.fields, content, plan)
    && EventOk(plan.desired) && ExceptionsMoved(before, q, plan, after)
    && (Reschedules(before, q, plan) ==>
          PhaseKept(before.event, plan.desired, q.key.value, Selected(before, q.key).value.fields, plan.edited))
  }

  lemma {:induction false} CapturedOnce(es: EventSet, derive: Option<Stamp> -> Result<Provenance>, a: Content, b: Content)
    requires Captured(es, derive, a) && Captured(es, derive, b)
    ensures a == b
  {
    if es.content.None? {
      assert a.overrides.Keys == b.overrides.Keys;
      assert forall key :: key in a.overrides ==> a.overrides[key] == b.overrides[key];
      assert a.overrides == b.overrides;
    }
  }

  /** The edit of a whole series, or of a standalone event. It fails only when provenance
      cannot be derived or no such edited set exists. */
  method EditWhole(before: EventSet, q: Request, derive: Option<Stamp> -> Result<Provenance>) returns (r: Result<EventSet>)
    requires ZonesOk(before, q)
    ensures r.Ok? ==> exists content, plan :: WholeEdited(before, q, derive, content, plan, r.value)
    ensures r.Err? ==>
      || (before.content.None? && Underivable(before, derive))
      || forall content, plan, after :: !WholeEdited(before, q, derive, content, plan, after)
  {
    var valid := Validate(before);
    if !valid {
      return Err;
    }
    var selected := SelectedEvent(before, q.key);
    if selected.Err? {
      return Err;
    }
    var content := CaptureContent(before, derive);
    if content.Err? {
      return Err;
    }
    r := CarryOut(before, q, derive, selected.value.fields, content.value);
  }

  method CarryOut(before: EventSet, q: Request, ghost derive: Option<Stamp> -> Result<Provenance>, selected: Fields, content: Content)
    returns (r: Result<EventSet>)
    requires ZonesOk(before, q) && ValidSet(before) && Captured(before, derive, content)
    requires Selected(before, q.key).Ok? && Selected(before, q.key).value.fields == selected
    ensures r.Ok? ==> exists content, plan :: WholeEdited(before, q, derive, content, plan, r.value)
    ensures r.Err? ==> forall content, plan, after :: !WholeEdited(before, q, derive, content, plan, after)
  {
    var plan := MakePlan(before, q, selected, content);
    if plan.Err? {
      OnlyPlan(before, q, derive, content);
      return Err;
    }
    PlanIsOk(before, q, selected, content);
    OnlyPlan(before, q, derive, content);
    var after := MoveExceptions(before, q, plan.value);
    if after.Err? {
      return Err;
    }
    if Reschedules(before, q, plan.value) {
      var kept := CheckPhase(before.event, plan.value.desired, q.key.value, selected, plan.value.edited);
      if !kept {
        return Err;
      }
    }
    assert WholeEdited(before, q, derive, content, plan.value, after.value);
    return after;
  }

  /** Whatever the edited set, its provenance and plan are the ones computed. */
  lemma {:induction false} OnlyPlan(before: EventSet, q: Request, derive: Option<Stamp> -> Result<Provenance>, content: Content)
    requires SetOk(before) && Selected(before, q.key).Ok? && Captured(before, derive, content)
    ensures forall other, plan, after :: WholeEdited(before, q, derive, other, plan, after) ==>
      Planned(before, q, Selected(before, q.key).value.fields, content, plan)
  {
    forall other, plan, after | WholeEdited(before, q, derive, other, plan, after)
      ensures Planned(before, q, Selected(before, q.key).value.fields, content, plan)
    {
      CapturedOnce(before, derive, content, other);
    }
  }

  // ------------------------------------------------------------ where things land

  /** A wall clock that is written as a stamp shows that wall clock. */
  lemma FromLocalShows(fields: Fields, local: int)
    requires ZoneOk(fields.zone) && FromLocal(fields, local).Ok? && (fields.allDay ==> local == Midnight(DateOfTime(local)))
    ensures LocalOf(fields, FromLocal(fields, local).value) == local
  {
    if !fields.allDay {
      var date := DateOfTime(local);
      EarliestShows(fields.zone, date, local - Midnight(date));
    }
  }

  lemma DatesApart(a: int, b: int, c: int)
    ensures Midnight(a) + (Midnight(b) - Midnight(c)) == Midnight(DateOfTime(Midnight(a) + (Midnight(b) - Midnight(c))))
  {
  }

  /** The master moves by the wall-clock distance by which the selected occurrence does. */
  lemma MasterMoves(before: Fields, edit: Edit, selected: Fields, edited: Fields)
    requires ZoneOk(before.zone) && ZoneOk(edited.zone)
    requires StampFits(before.allDay, before.start) && StampFits(before.allDay, selected.start) && StampFits(before.allDay, edited.start)
    requires MasterStart(before, edit, selected, edited).Ok? && MasterStart(before, edit, selected, edited).value.Some?
    ensures var template := Template(before, edit, edited);
      LocalOf(template, MasterStart(before, edit, selected, edited).value.value) - LocalOf(before, before.start)
      == LocalOf(template, edited.start) - LocalOf(before, selected.start)
  {
    var template := Template(before, edit, edited);
    var local := LocalOf(before, before.start) + (LocalOf(template, edited.start) - LocalOf(before, selected.start));
    if before.allDay {
      DatesApart(before.start.date, edited.start.date, selected.start.date);
    }
    FromLocalShows(template, local);
  }

  /** A plan made through an occurrence of a series keeps its day mode. */
  lemma SameDayMode(before: EventSet, q: Request, selected: Fields, content: Content, plan: Plan)
    requires SetOk(before) && Planned(before, q, selected, content, plan)
    requires before.event.kind.Series? && q.key.Some?
    ensures plan.desired.fields.allDay == plan.edited.allDay && StampFits(plan.edited.allDay, plan.edited.start)
  {
  }

  lemma PositionMeans(event: Event, index: nat, newKey: Stamp)
    requires EventOk(event) && FromEvent(event).Ok? && HasPosition(ScheduleOf(event), index, newKey)
    ensures var f := OccurrenceFields(ScheduleOf(event), event.fields, Boundary(newKey));
      GeneratedAs(event, newKey, f) && f.start == newKey
  {
    var s := ScheduleOf(event);
    var slot: nat :| Sought(s, index, slot) && newKey == FormatStamp(s.allDay, Position(s, slot).value);
    FormattedNames(s, slot);
    assert InSeries(s, slot) && Position(s, slot) == Some(Boundary(newKey));
  }

  /** No exception moves to the position of an index that had none. */
  lemma NotTaken(before: EventSet, q: Request, plan: Plan, after: EventSet, key: Stamp, index: nat, newKey: Stamp)
    requires SetOk(before) && EventOk(plan.desired) && ExceptionsMoved(before, q, plan, after)
    requires FromEvent(before.event).Ok? && FromEvent(plan.desired).Ok?
    requires HasIndex(ScheduleOf(before.event), key, index) && HasPosition(ScheduleOf(plan.desired), index, newKey)
    requires Find(before.overrides, key).None?
    ensures Find(after.overrides, newKey).None?
  {
    FindExact(after.overrides, newKey);
    FindExact(before.overrides, key);
    if newKey in KeysOf(after.overrides) {
      var i :| 0 <= i < |after.overrides| && after.overrides[i].originalStart == newKey;
      SameImage(before, plan.desired, q.edit, plan.inherits, plan.content, after, i, key, index, newKey);
    }
  }

  /** An exception is at the position of an index exactly when it was. */
  lemma SameImage(before: EventSet, desired: Event, edit: Edit, inherits: set<Stamp>, content: Content, after: EventSet,
                  i: nat, key: Stamp, index: nat, newKey: Stamp)
    requires EventOk(before.event) && EventOk(desired) && FromEvent(before.event).Ok? && FromEvent(desired).Ok?
    requires SeriesEdited(before, desired, edit, inherits, content, after) && i < |before.overrides|
    requires HasIndex(ScheduleOf(before.event), key, index) && HasPosition(ScheduleOf(desired), index, newKey)
    ensures before.overrides[i].originalStart == key <==> after.overrides[i].originalStart == newKey
  {
    var was, now := ScheduleOf(before.event), ScheduleOf(desired);
    RemappedAt(was, now, before.event.fields, desired.fields, edit, inherits, before.overrides, after.overrides, i);
    var o, n := before.overrides[i].originalStart, after.overrides[i].originalStart;
    var k: nat :| HasIndex(was, o, k) && HasPosition(now, k, n);
    RemapKeepsOrder(was, now, o, k, n, key, index, newKey);
  }

  /** The edited set has, at the selected index, an event that starts where it was asked to. */
  ghost predicate StartsAsAsked(before: EventSet, after: EventSet, key: Stamp, edited: Fields, index: nat, newKey: Stamp, f: Fields)
    requires SetOk(before) && SetOk(after)
  {
    && FromEvent(before.event).Ok? && FromEvent(after.event).Ok?
    && HasIndex(ScheduleOf(before.event), key, index) && HasPosition(ScheduleOf(after.event), index, newKey)
    && Means(after, newKey, f) && LocalOf(after.event.fields, f.start) == LocalOf(after.event.fields, edited.start)
  }

  /** Rescheduling through a generated occurrence. */
  lemma GeneratedLands(before: EventSet, q: Request, selected: Fields, plan: Plan, after: EventSet, key: Stamp, index: nat, newKey: Stamp)
      returns (f: Fields)
    requires SetOk(before) && EventOk(plan.desired) && ExceptionsMoved(before, q, plan, after) && plan.desired.kind.Series?
    requires LandsAt(before.event, plan.desired, key, selected, plan.edited, index, newKey)
    requires Find(before.overrides, key).None? && selected.start == key
    ensures StartsAsAsked(before, after, key, plan.edited, index, newKey, f)
  {
    NotTaken(before, q, plan, after, key, index, newKey);
    PositionMeans(plan.desired, index, newKey);
    f := OccurrenceFields(ScheduleOf(plan.desired), plan.desired.fields, Boundary(newKey));
  }

  /** The moved exception is at the position of its index. */
  lemma ExceptionMoves(before: EventSet, q: Request, plan: Plan, after: EventSet, key: Stamp, index: nat, newKey: Stamp) returns (f: Fields)
    requires SetOk(before) && EventOk(plan.desired) && ExceptionsMoved(before, q, plan, after) && plan.desired.kind.Series?
    requires FromEvent(before.event).Ok? && FromEvent(plan.desired).Ok? && !q.reset
    requires HasIndex(ScheduleOf(before.event), key, index) && HasPosition(ScheduleOf(plan.desired), index, newKey)
    requires Find(before.overrides, key).Some? && Find(before.overrides, key).value.event.Some?
    ensures Means(after, newKey, f)
    ensures MoveException(before.event.fields, plan.desired.fields, q.edit, key, newKey, Find(before.overrides, key).value.event.value.fields,
                          key in plan.inherits) == Ok(f)
  {
    var i := FoundAt(before.overrides, key);
    SameImage(before, plan.desired, q.edit, plan.inherits, plan.content, after, i, key, index, newKey);
    RemappedAt(ScheduleOf(before.event), ScheduleOf(plan.desired), before.event.fields, plan.desired.fields, q.edit, plan.inherits,
               before.overrides, after.overrides, i);
    FindAt(after.overrides, i);
    f := after.overrides[i].event.value.fields;
  }

  lemma MovedStart(before: Fields, desired: Fields, edit: Edit, key: Stamp, newKey: Stamp, event: Fields, inherits: bool, local: int)
    requires ZoneOk(desired.zone) && MoveException(before, desired, edit, key, newKey, event, inherits).Ok?
    requires LocalOf(desired, newKey) + (LocalOf(before, event.start) - LocalOf(before, key)) == local
    requires desired.allDay ==> local == Midnight(DateOfTime(local))
    ensures LocalOf(desired, MoveException(before, desired, edit, key, newKey, event, inherits).value.start) == local
  {
    FromLocalShows(event.(allDay := desired.allDay, zone := desired.zone), local);
  }

  /** Rescheduling through an exception. */
  lemma ExceptionLands(before: EventSet, q: Request, selected: Fields, plan: Plan, after: EventSet, key: Stamp, index: nat, newKey: Stamp)
      returns (f: Fields)
    requires SetOk(before) && EventOk(plan.desired) && ExceptionsMoved(before, q, plan, after) && plan.desired.kind.Series? && !q.reset
    requires LandsAt(before.event, plan.desired, key, selected, plan.edited, index, newKey)
    requires Find(before.overrides, key).Some? && Find(before.overrides, key).value.event.Some?
    requires Find(before.overrides, key).value.event.value.fields == selected
    requires plan.desired.fields.allDay == plan.edited.allDay && StampFits(plan.edited.allDay, plan.edited.start)
    ensures StartsAsAsked(before, after, key, plan.edited, index, newKey, f)
  {
    f := ExceptionMoves(before, q, plan, after, key, index, newKey);
    if plan.edited.allDay {
      WholeDays(plan.edited.start.date, 0);
    }
    MovedStart(before.event.fields, plan.desired.fields, q.edit, key, newKey, selected, key in plan.inherits,
               LocalOf(plan.desired.fields, plan.edited.start));
  }

  /** An accepted reschedule puts the selected occurrence, generated or exception, exactly
      where it was asked to start; only dropping the exceptions can undo an exception's
      own displacement. */
  lemma {:induction false} LandsAsAsked(before: EventSet, q: Request, derive: Option<Stamp> -> Result<Provenance>, content: Content, plan: Plan,
                     after: EventSet, key: Stamp)
      returns (index: nat, newKey: Stamp, f: Fields)
    requires SetOk(before) && WholeEdited(before, q, derive, content, plan, after)
    requires Reschedules(before, q, plan) && q.key == Some(key) && (q.reset ==> Find(before.overrides, key).None?)
    ensures SetOk(after) && StartsAsAsked(before, after, key, plan.edited, index, newKey, f)
  {
    var selected := Selected(before, q.key).value.fields;
    index, newKey :| LandsAt(before.event, plan.desired, key, selected, plan.edited, index, newKey);
    if Find(before.overrides, key).None? {
      ResolvedStart(before.event, key);
      f := GeneratedLands(before, q, selected, plan, after, key, index, newKey);
    } else {
      SameDayMode(before, q, selected, content, plan);
      f := ExceptionLands(before, q, selected, plan, after, key, index, newKey);
    }
  }
}
