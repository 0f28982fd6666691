# Verified model of the calendar, recipient and account logic

This project models the parts of the mail and calendar client that decide something
hard, and proves what they promise. Dates are day numbers (day 0 is 0001-01-01),
instants are nanosecond counts, and a time zone is a resolver from wall clocks to
instants with stated hypotheses (`Zones.ZoneOk`): offsets are below one day, the same
wall clock on a later date is a later instant, a wall clock resolves to exactly the
instants that show it, none of them in a gap, and a midnight that occurs exactly once
separates the dates before it from the rest, and its name may be stored. `Zones.UtcIsOk`,
`Zones.SpringForwardIsOk` and `Zones.FallBackIsOk` show that the hypotheses can be met: without
a change, with a gap and with a fold.

| area | modules |
|---|---|
| recurrence engine | `Rules`, `RuleText`, `RuleSpelling`, `Schedules`, `SlotOrder`, `Series`, `Cursors`, `Engine`, `Lookup`, `Placement`, `SeriesMeaning` |
| rule algebra | `WeekPattern`, `RuleShift`, `SeriesShift`, `RuleEquivalence` |
| event sets | `EventSets`, `Projection`, `Edits`, `SeriesEdits`, `WholeSeries`, `SetEquivalence`, `SetWindows`, `JsPatch`, `JsPatchOrder` |
| iCalendar text | `ICalText`, `ICalLines`, `ICalEvents`, `ICalProperties`, `ICalKeeping`, `ICalSplit`, `ICalCalendar`, `ICalUnfolding`, `ICalRewrite`, `ICalLaws`, `ICalReturns`, `ICalRepeat`, `ICalReading`, `ICalChecked`, `ICalExamples` |
| recipients | `RecipientLexer`, `DisplayNames`, `Recipients`, `RecipientReading`, `RecipientRefusals` |
| protocols | `Refreshes`, `RefreshOutcome`, `TokenLifecycle`, `Navigation`, `IdleStop` |
| shared | `Basics`, `Arithmetic`, `Text`, `Splitting`, `CivilCalendar`, `Zones` |

## How the main results are stated

- **Recurrence.** The reference is plain enumeration: `Series.Position` inspects one slot,
  `Series.Ordinal` counts positions from slot 0, `Series.InSeries` applies COUNT. `Expand`,
  `Resolve`, `OccurrenceIndex` and `PositionAt` seek and count arithmetically and are proved
  against that enumeration, failures included: `Expand` fails on good arguments only at a slot
  that it reaches and cannot get past, and the three lookups fail only when no answer exists
  within their budget.
- **What an event means** is said of its fields and its rule alone, without slots
  (`SeriesMeaning.Occurs`): the dates that the rule selects (a MONTHLY or YEARLY rule only the day
  of the month of the start), the least instant that shows the start's wall clock there, UNTIL, and
  as many of them as COUNT allows. The positions of the enumeration are exactly these
  (`PositionsIff`), and an expansion lists exactly these in its window, each with the event's own
  fields and length (`ExpansionMeans`, `ExpansionIsComplete`).
- **Rule text.** However a rule is spelled, with letters of either case, blanks around it and one
  `RRULE:` or none, it parses to that rule (`EverySpelling`); parts may come in any order
  (`OrderIsIgnored`) but not twice (`AcceptedParts`), and eight digits are the date that they spell
  (`DateMeans`).
- **Moving a WEEKLY rule** is not always faithful. For slots the exact condition is that the
  selected weeks stay whole (`ShiftMovesSlots`). For the series it is that, or that UNTIL, COUNT or
  the supported years cut it off before the first date at which a selected day crosses its week's
  edge (`ShiftTranslatesIff`; a caller can compute `ShiftIsSafe` before the move).
  `ShiftCanLoseDays` is an event that loses a Wednesday.
- **Comparing rules** is sound. It is complete for two cutoffs of one pattern, unless more than
  ten thousand occurrences reach into the stretch between them (`Crowded`).
- **Comparing event sets** looks only at the rules, the master and the overridden positions. A
  positive answer means that both sets mean matching events at every position (`EquivalentSets`),
  and so list matching entries in every window (`WindowsAgree`). A negative answer means that the
  kinds, the rules, the fields or the content really differ, or that some position is overridden
  differently (`Differ`), and an error that something cannot be decided (`Undecidable`). So a set
  is equivalent to itself (`SameAsItself`). The hypothesis is that zones which
  the two sets use convert alike if they have one canonical name; `AliasedSets` shows sets that
  meet it with two names for one zone.
- **An edit** is said field by field (`FieldsEdited`): an absent change keeps its field, an empty
  description or location clears it, a new start without an end keeps the length, and a new end is
  taken as it is. The edited occurrence (`EditOccurrence`) and the new master, with its rule and the
  descriptions that follow it (`Planned`), are stated so.
- **Editing a series through an occurrence** moves the master by the same wall-clock distance
  (`MasterMoves`), and an accepted reschedule puts the selected occurrence, generated or
  exception, exactly where it was asked to start (`LandsAsAsked`).
- **Reading what was written.** A reader of content lines that follows RFC 5545 and RFC 6868, and
  names nothing of the writer, reads in the edited event each replaced property once, with the
  wanted stamp, zone or text, and every other property as it was (`EventReads`,
  `WrittenEventReads`); an edit is accepted exactly when the event may be edited (`EditedIff`).
- **Rewriting iCalendar text.** Two promises fail on odd input, and each has its exact condition,
  stated on the input. Unfolding the output gives the wanted lines if and only if no kept physical
  line ends in a carriage return (`RewriteReadsBack`). Repeating an edit changes nothing if and only
  if, besides, it is `Settled`: the replacement stands outside every nested component, and no line
  hides a replaced property behind leading white space (`RewriteTwice`). With
  the check that comes first, the output must pass it again; if no logical line but the first
  begins with a blank, that is so exactly when the logical lines of the input are a complete
  calendar of as many events (`RepeatChecked`). `TrailingReturn`, `StrayProperty` and `MisnestedRepeats` are calendar
  texts that pass every check of the repository's own and fail it. The external parser's count of
  events is an input of the model. A parser that matches component names refuses the last text;
  with such a parser only stray lines are left (`NestedIsSettled`).
- **JSCalendar patches.** A patch that passes the overlap check can still depend on the order of
  its entries. It does not if and only if its decoded places are pairwise apart, or equal with
  equal values (`PatchOutcomeIff`; `TwoCommuteIff` for two entries). Well-formed escapes are enough
  (`WellEscapedIsCompatible`); `LoneTildeCollides` shows a patch that depends on it.
- **Recipients.** Reading a printed list returns its addresses (`ParseOfFormat`) and shows its names
  (`NamesOfFormat`), by a reader that strips quotes and escapes on its own; so lists that differ in
  either are printed differently (`FormatIsInjective`). An address shown before brackets that hold
  another one is refused (`ShownAddressMustAgree`).
- **Token refreshes.** What a getter leaves is decided by the steps that it took itself, whatever
  runs beside it (`GetterOutcome`): a rejected refresh latches the account, a granted one is stored,
  and anything else leaves tokens and latch as they were. A latch is cleared only after a store, a delete or a commit for its account
  that succeeded (`ClearingFollowsSuccess`), and a delete or replace that fails gives up the lock
  with the latch it found (`FailedChangeRestores`), which is the one at the time it took the lock
  (`FailureLeavesAsFound`). The lifecycle operations of `TokenLifecycle` are runs of this machine
  (`OperationIsRun`).
- **Protocols** are machines of small steps; their results hold after every finite run of every
  interleaving.

Where the code and its comments differ, the model follows the code.

## Model

| member | source | states |
|---|---|---|
| RuleText.Parse | src-tauri/src/calendar/simple_recurrence.rs:165-232 | the parser's loop over the parts, with its duplicate and bound checks, computes `ParseRule` |
| RuleText.ParsedRuleOk | src-tauri/src/calendar/simple_recurrence.rs:165-232 | whatever parses satisfies every rule invariant: interval range, BYDAY and WKST only for WEEKLY, not both COUNT and UNTIL, dates in range |
| RuleText.RuleRoundTrip | src-tauri/src/calendar/simple_recurrence.rs:234-271 | parsing a printed rule returns that rule, for every rule the parser can return |
| RuleText.UntilRoundTrip | src-tauri/src/calendar/simple_recurrence.rs:136-162 | a printed UNTIL, date or instant, parses back to itself |
| RuleText.NormalizeIsIdempotent | src-tauri/src/calendar/simple_recurrence.rs:658-664 | normalizing twice is normalizing once, and the normalized text is the same rule, so the series is unchanged |
| RuleSpelling.EverySpelling | src-tauri/src/calendar/simple_recurrence.rs:165-171 | however a rule is spelled, with letters of either case, blanks around it and one `RRULE:` or none, it parses to that rule |
| RuleSpelling.SecondPrefixIsRefused | src-tauri/src/calendar/simple_recurrence.rs:169-186 | a second `RRULE:` is refused |
| RuleSpelling.DashedIsPlain | src-tauri/src/calendar/simple_recurrence.rs:136-146 | a dashed date under UNTIL means what the plain one does, errors included |
| RuleSpelling.DateMeans | src-tauri/src/calendar/simple_recurrence.rs:136-146 | eight digits parse to a date exactly when they are its year, month and day of the month, in this order |
| RuleSpelling.ClockMeans | src-tauri/src/calendar/simple_recurrence.rs:146-162 | six digits are a time of day exactly when they are its hours, minutes and seconds |
| RuleSpelling.AcceptedParts | src-tauri/src/calendar/simple_recurrence.rs:178-217 | an accepted text has parts with known keys, each with a value and none repeated, and FREQ is one of them |
| RuleSpelling.OrderIsIgnored | src-tauri/src/calendar/simple_recurrence.rs:178-216 | exchanging two neighbouring parts changes nothing, errors included |
| Schedules.NewIsValid | src-tauri/src/calendar/simple_recurrence.rs:303-385 | a schedule that is accepted has consistent start, week and cutoff data |
| SlotOrder.SlotStep | src-tauri/src/calendar/simple_recurrence.rs:392-449 | consecutive slots occupy disjoint, increasing stretches of the calendar, for all four frequencies; which dates they have is `SeriesMeaning.SlotDatesIff` |
| SlotOrder.SeekSkipsEarlier | src-tauri/src/calendar/simple_recurrence.rs:490-515 | every slot that seeking skips is dated before the target |
| SlotOrder.SeekFinds | src-tauri/src/calendar/simple_recurrence.rs:490-553 | seeking a slot's own date lands within the attempts that the lookup makes |
| Series.PositionOrder | src-tauri/src/calendar/simple_recurrence.rs:392-488 | positions increase strictly with their slot, across invalid dates and gaps |
| Series.SeriesPrefix | src-tauri/src/calendar/simple_recurrence.rs:621-656 | a series is a prefix of the positions: COUNT cuts nothing before a member |
| Cursors.InspectHits | src-tauri/src/calendar/simple_recurrence.rs:621-656 | the cursor yields exactly the positions of the enumeration |
| Cursors.PastIsFinal | src-tauri/src/calendar/simple_recurrence.rs:469-488 | once a slot is past UNTIL, no later slot is a position |
| Cursors.StepTracks | src-tauri/src/calendar/simple_recurrence.rs:621-656 | a step keeps slot and ordinal in agreement with the enumeration and yields its position under its ordinal |
| Cursors.Budget.Spend | src-tauri/src/calendar/simple_recurrence.rs:580-591 | the budget allows exactly 200000 inspections |
| Cursors.Cursor.Step | src-tauri/src/calendar/simple_recurrence.rs:621-656 | one inspection within the budget, with the whole new cursor and budget state |
| Cursors.Cursor.AtSlot | src-tauri/src/calendar/simple_recurrence.rs:600-619 | a placed or stepped cursor agrees with the enumeration; it fails only at an undatable slot or when the budget is spent, and never for a reachable series slot |
| Placement.PlacementIsExact | src-tauri/src/calendar/simple_recurrence.rs:386-390 | for daily and weekly all-day or UTC schedules, a cursor placed arithmetically yields the same later outputs and ordinals as one stepped from slot 0 |
| Engine.AllMatchesComplete | src-tauri/src/calendar/simple_recurrence.rs:671-745 | the reference list holds every overlapping slot of the series and nothing else, in order |
| Engine.MatchesIncrease | src-tauri/src/calendar/simple_recurrence.rs:671-745 | listed occurrences increase in time |
| Engine.SeekLosesNothing | src-tauri/src/calendar/simple_recurrence.rs:694-708 | the conservative seek skips no occurrence that reaches into the window, however long |
| Engine.StopsHere | src-tauri/src/calendar/simple_recurrence.rs:709-725 | each early break is complete: nothing from that slot on overlaps |
| Engine.Expand | src-tauri/src/calendar/simple_recurrence.rs:671-745 | success is exactly the first `limit` overlapping positions and whether one more exists; failure means bad arguments or a slot that the scan reaches and cannot get past |
| Lookup.TargetSlot | src-tauri/src/calendar/simple_recurrence.rs:517-553 | the slot of an original start, or proof that no slot has it |
| Lookup.Resolve | src-tauri/src/calendar/simple_recurrence.rs:750-764 | accepts exactly the starts of series positions, within COUNT and UNTIL, with their fields |
| Lookup.OccurrenceIndex | src-tauri/src/calendar/simple_recurrence.rs:766-778 | the ordinal of a start, or proof that it has none within the budget |
| Lookup.PositionAt | src-tauri/src/calendar/simple_recurrence.rs:780-803 | the position of an index, or proof that it has none within the budget |
| Lookup.PositionThenIndex | src-tauri/src/calendar/simple_recurrence.rs:766-803 | if an index has a position, that position has that index, under the same budget |
| Lookup.IndexThenPosition | src-tauri/src/calendar/simple_recurrence.rs:766-803 | the position of the index of an accepted start is that start in canonical form |
| Lookup.PositionsIncrease | src-tauri/src/calendar/simple_recurrence.rs:780-803 | positions compare as their indices do |
| Lookup.ExpandedResolves | src-tauri/src/calendar/simple_recurrence.rs:671-764 | every expanded occurrence resolves, with identical fields, counted rules included |
| SeriesMeaning.MonthSlotsIff | src-tauri/src/calendar/simple_recurrence.rs:421-442 | a date has a MONTHLY or YEARLY slot if and only if it is not before the start, has the start's day of the month, and is a multiple of the interval in months away |
| SeriesMeaning.SlotDatesIff | src-tauri/src/calendar/simple_recurrence.rs:392-449 | the dates of the slots are exactly the dates that the rule selects, for all four frequencies |
| SeriesMeaning.AtDateIff | src-tauri/src/calendar/simple_recurrence.rs:451-467 | the instant of a date is the start itself, midnight for an all-day event, or the least instant that shows the wall clock of the start; a gap has none |
| SeriesMeaning.PositionsIff | src-tauri/src/calendar/simple_recurrence.rs:392-488 | an instant is a position of the series if and only if the event occurs there, said of its fields and rule alone: dates, wall clock, UNTIL and COUNT |
| SeriesMeaning.AcceptedIff | src-tauri/src/calendar/simple_recurrence.rs:303-385 | an event is accepted with a rule exactly when its fields are valid and in range and its own start is one of the rule's dates, not past UNTIL |
| SeriesMeaning.ExpansionMeans | src-tauri/src/calendar/simple_recurrence.rs:671-745 | every occurrence that an expansion lists is one that the event means, overlaps the window, and has the event's own fields and length |
| SeriesMeaning.ExpansionIsComplete | src-tauri/src/calendar/simple_recurrence.rs:671-745 | every occurrence in the window is listed, unless the list is cut off at its limit |
| WeekPattern.SameEnumeration | src-tauri/src/calendar/simple_recurrence.rs:412-430 | moving a weekly pattern moves its enumeration slot by slot |
| WeekPattern.MovesIffKeepsWeeks | src-tauri/src/calendar/actions.rs:419-464 | turned weekdays give the moved slots exactly when no selected day drifts over the edge of a selected week |
| WeekPattern.CrossingIsFirst | src-tauri/src/calendar/actions.rs:419-464 | the patterns agree before the first crossing date, and differ there |
| WeekPattern.SameEnumerationBefore | src-tauri/src/calendar/simple_recurrence.rs:412-430 | before that date the slots are the moved slots, one by one |
| RuleShift.ShiftRuleShifts | src-tauri/src/calendar/actions.rs:419-464 | for every event, timed or all-day, the rewritten rule is the rule with its weekdays turned by the day shift; for all-day events its cutoff is moved by it too |
| RuleShift.ShiftedCutoff | src-tauri/src/calendar/actions.rs:449-458 | a timed cutoff keeps its wall-clock distance from the start, to whole seconds |
| RuleShift.ShiftRuleOk | src-tauri/src/calendar/actions.rs:419-464 | the rewritten rule satisfies every rule invariant |
| RuleShift.ShiftMovesSlots | src-tauri/src/calendar/actions.rs:419-464 | moving a DAILY or WEEKLY rule moves every slot, if and only if DAILY or the weeks stay whole |
| RuleShift.SingleDayKeepsWeeks | src-tauri/src/calendar/actions.rs:419-464 | every-week rules and single-weekday rules always keep their weeks whole |
| RuleShift.ShiftMovesSeries | src-tauri/src/calendar/actions.rs:419-464 | as far as the slots move, positions move with the same ordinals, under COUNT and UNTIL |
| RuleShift.ShiftTranslates | src-tauri/src/calendar/actions.rs:419-464 | the k-th position of a shifted DAILY, every-week or single-weekday all-day schedule is the old one plus the day shift, with the same ordinal and membership |
| SeriesShift.ShiftTranslatesIff | src-tauri/src/calendar/actions.rs:419-464 | every position of an all-day DAILY or WEEKLY series is translated, both ways, if and only if DAILY, the weeks stay whole, or the rule's own UNTIL, COUNT or the supported years cut the series off before the first crossing date |
| SeriesShift.EventTranslatesIff | src-tauri/src/calendar/actions.rs:419-464 | the same condition, on the event and its rule before the move |
| SeriesShift.CrossingTranslatesIff | src-tauri/src/calendar/actions.rs:419-464 | where a selected day crosses its week's edge, the series is translated if and only if its rule cuts it off before that date |
| SeriesShift.ShiftCanLoseDays | src-tauri/src/calendar/actions.rs:419-464 | at a concrete event, a position of the series is lost by the shift |
| RuleShift.ExampleIsShifted | src-tauri/src/calendar/actions.rs:419-464 | that event and its shift are accepted |
| RuleShift.SemanticRuleKeepsSeries | src-tauri/src/calendar/actions.rs:835-862 | the comparison form (default BYDAY added, WKST dropped at INTERVAL=1) has the same positions |
| RuleEquivalence.CutOffIsExclusive | src-tauri/src/calendar/actions.rs:891-910 | exactly the positions before the exclusive cutoff survive an UNTIL |
| RuleEquivalence.RulesEquivalent | src-tauri/src/calendar/actions.rs:867-928 | true only for equal position sets; equal rules give true; false for two cutoffs of one pattern only if position sets differ or the stretch between is crowded, and always for any other two rules that differ; an error only where the cutoffs cannot be compared |
| RuleEquivalence.CompareCutoffs | src-tauri/src/calendar/actions.rs:880-928 | two cutoffs of one pattern: the answer, or an error only if a cutoff has no single instant or the stretch between cannot be expanded |
| RuleEquivalence.SchedulesEquivalent | src-tauri/src/calendar/actions.rs:795-928 | comparing the comparison forms is sound for the original rules |
| EventSets.Validate | src-tauri/src/calendar/event_set.rs:319-372 | accepts exactly complete classifications with valid content and canonical, distinct keys |
| EventSets.SelectedEvent | src-tauri/src/calendar/actions.rs:199-223 | the override of a key, or the generated occurrence, or an error for cancelled and foreign keys |
| Projection.KeptCount | src-tauri/src/calendar/actions.rs:264-299 | with distinct keys, overriding removes at most one generated entry per key |
| Projection.TruncationIsExact | src-tauri/src/calendar/actions.rs:264-319 | asking for `limit` plus the number of overrides loses nothing, even when the extra slot is itself excluded |
| Projection.InsertAllSorts | src-tauri/src/calendar/actions.rs:317-319 | the page's sort is a sorted permutation |
| Projection.Project | src-tauri/src/calendar/actions.rs:247-344 | a page is exactly the first `limit` sorted entries of kept positions and live overrides, and `hasMore` holds iff there are more; it fails only for a bad window, set or limit, or a blocked expansion |
| Projection.PageIsFirst | src-tauri/src/calendar/actions.rs:317-326 | with the rest of the list, which is there exactly when the page says so, a page is the whole list in order of start and key |
| Edits.CaptureContent | src-tauri/src/calendar/event_set.rs:70-88 | provenance is frozen once, for the master and every live override; failure names one that cannot be derived |
| Edits.SetOverride | src-tauri/src/calendar/actions.rs:488-505 | the key's override is replaced in place, or one is appended |
| Edits.ApplyPatchIff | src-tauri/src/calendar/actions.rs:388-417 | an edit yields exactly the valid fields that it asks for, field by field: absent keeps, text sets, an empty text clears, a new start alone keeps the length, a new end is taken as it is |
| Edits.WithOverrideIsLocal | src-tauri/src/calendar/actions.rs:488-505 | every other key keeps its override, and at most one key is added |
| Edits.EditOccurrence | src-tauri/src/calendar/actions.rs:476-508 | the override of the key has the edited fields, said field by field, and all else stays; the content is what was captured, before or just now, with a changed description made plain at that key; failure only when no edited set exists or provenance cannot be derived |
| Edits.EditedContentIsLocal | src-tauri/src/calendar/event_set.rs:115-128 | marking one body leaves the master's and every other key's provenance alone |
| Edits.EditedContentAtKey | src-tauri/src/calendar/event_set.rs:115-128 | at the key itself a changed description is plain text and roles and organizer stay; an unchanged one changes nothing |
| Edits.OtherSelectionsUnchanged | src-tauri/src/calendar/actions.rs:199-223 | every other position, and the master, select the same event before and after |
| Edits.EditedSelection | src-tauri/src/calendar/actions.rs:476-508 | the edited position selects an event whose every field is what the edit asks for, or was before |
| Edits.EditIsLocalInWindow | src-tauri/src/calendar/actions.rs:247-344 | in every window the list differs only in the entry of the edited key |
| Edits.EditIsLocalInSortedWindow | src-tauri/src/calendar/actions.rs:247-344 | so does the sorted list |
| SeriesEdits.RemapOne | src-tauri/src/calendar/actions.rs:605-634 | an exception moves to the position with the same index in the new series; failure only when it has no image |
| SeriesEdits.RemapExceptions | src-tauri/src/calendar/actions.rs:603-635 | all exceptions are remapped, or no remapping exists |
| SeriesEdits.RemappedUnique | src-tauri/src/calendar/actions.rs:605-634 | an exception has at most one image |
| SeriesEdits.RemapKeepsOrder | src-tauri/src/calendar/actions.rs:605-608 | remapped keys keep their order and stay distinct |
| SeriesEdits.KeysStayDistinct | src-tauri/src/calendar/actions.rs:603-635 | distinct keys stay distinct |
| SeriesEdits.DisplacementKept | src-tauri/src/calendar/actions.rs:609-619 | in an unchanged, shared day mode an exception keeps its wall-clock displacement and its duration |
| SeriesEdits.MoveExceptionIff | src-tauri/src/calendar/actions.rs:609-633 | a moved exception, exactly: the new series' day mode and zone, its wall-clock distance from its position, its length, and texts that follow the master only where they were the master's |
| SeriesEdits.RemapContent | src-tauri/src/calendar/event_set.rs:129-138 | captured provenance follows each key, even when old and new key sets overlap |
| SeriesEdits.EditSeries | src-tauri/src/calendar/actions.rs:594-637 | for a given new master: remapped exceptions, cancellations kept, and content carried; failure on good input only when no such set exists |
| WholeSeries.CollectInheriting | src-tauri/src/calendar/actions.rs:555-567 | the loop that finds the exceptions whose description and format are the master's |
| WholeSeries.MarkInheriting | src-tauri/src/calendar/actions.rs:568-571 | the loop that makes a changed description plain for the master and exactly those exceptions |
| WholeSeries.MakePlan | src-tauri/src/calendar/actions.rs:509-593 | a plan is made exactly when there is one: the edited occurrence and the new master field by field, the master's start moved by the wall clock as far as the occurrence's, the new, moved or dropped rule, and plain descriptions for the master and the exceptions that shared its own |
| WholeSeries.MasterEditedIff | src-tauri/src/calendar/actions.rs:509-553 | the new master, exactly: its texts, zone and day mode by the edit, its times through the selected occurrence |
| WholeSeries.MasterMoves | src-tauri/src/calendar/actions.rs:519-536 | the master's wall-clock shift is that of the selected occurrence |
| WholeSeries.CheckPhase | src-tauri/src/calendar/actions.rs:640-660 | accepts exactly the reschedules whose selected index lands on the requested start |
| WholeSeries.MoveExceptions | src-tauri/src/calendar/actions.rs:594-637 | exceptions dropped, or remapped by index, or refused because no such set exists |
| WholeSeries.EditWhole | src-tauri/src/calendar/actions.rs:509-663 | the whole branch: new master, rule and inherited descriptions as `Planned` states them of the fields, exceptions, phase check; failure only when provenance cannot be derived or no such set exists |
| WholeSeries.LandsAsAsked | src-tauri/src/calendar/actions.rs:466-661 | after an accepted reschedule the event at the selected index starts exactly at the requested wall clock, whether generated or an exception |
| SetEquivalence.CheckKey | src-tauri/src/calendar/actions.rs:701-728 | at an overridden position: yes only if both are excluded, or matching events belong to both series; no only if that fails or their content differs |
| SetEquivalence.ContentEquivalent | src-tauri/src/calendar/actions.rs:731-750 | yes only if the content is alike, no only if it differs at the position, and an error only if it cannot be compared |
| SetEquivalence.EquivalentSets | src-tauri/src/calendar/actions.rs:671-731 | yes only if both sets mean matching events at every position and their content is alike where it is compared; no only if kinds, rules, fields, content or an overridden position differ; an error only if something is undecidable; a comparable set is equivalent to itself |
| SetEquivalence.SameAsItself | src-tauri/src/calendar/actions.rs:671-731 | a set that is comparable, with all its positions resolvable and its content alike, differs from itself nowhere and is undecidable nowhere |
| SetEquivalence.NamesCanonize | src-tauri/src/calendar/actions.rs:752-793 | without aliases, the hypothesis on zone names says that names tell the zones in use apart |
| SetEquivalence.AliasedSets | src-tauri/src/calendar/actions.rs:752-793 | valid sets that meet the hypothesis with two names for one zone |
| SetWindows.MeantOfEntry | src-tauri/src/calendar/actions.rs:247-344 | every entry of a window shows an event that the set means and that overlaps the window, with empty texts shown as none, and is marked as an exception exactly if it is one |
| SetWindows.EntryOfMeant | src-tauri/src/calendar/actions.rs:247-344 | every event that the set means and that overlaps the window has its entry |
| SetWindows.WindowsAgree | src-tauri/src/calendar/actions.rs:668-671 | sets that agree list matching entries in every window |
| SetWindows.SelectionsAgree | src-tauri/src/calendar/actions.rs:199-223 | sets that agree select matching events wherever both select one |
| JsPatch.CheckOverlap | src-tauri/src/calendar/event_set.rs:795-802 | finds exactly the patches in which one pointer continues another |
| JsPatch.ApplyPatch | src-tauri/src/calendar/event_set.rs:791-827 | applies the entries one by one, with missing and non-object parents refused |
| JsPatch.EntriesCommute | src-tauri/src/calendar/event_set.rs:803-827 | entries at places that are not within one another commute, failures included |
| JsPatch.OrderDoesNotMatter | src-tauri/src/calendar/event_set.rs:803-827 | if the decoded places are pairwise apart or equal with equal values, every permutation gives the same value, or every permutation fails |
| JsPatch.DecodeIsInjective | src-tauri/src/calendar/event_set.rs:804-807 | pointer decoding loses nothing on well-formed escapes |
| JsPatch.PathOfPointer | src-tauri/src/calendar/event_set.rs:803-807 | the pointer written for any path, escaped as RFC 6901 says, is read back as that path |
| JsPatch.PointersApart | src-tauri/src/calendar/event_set.rs:795-807 | passing the overlap check means decoded places apart |
| JsPatch.PatchHasOneOutcome | src-tauri/src/calendar/event_set.rs:795-827 | a checked, well-escaped patch has one outcome in every order |
| JsPatch.LoneTildeCollides | src-tauri/src/calendar/event_set.rs:804-807 | two pointers that pass the check, name the same member and depend on order |
| JsPatchOrder.OneOutcomeIffCompatible | src-tauri/src/calendar/event_set.rs:803-827 | entries have one outcome in every order on every value, if and only if they are pairwise at places apart or identical |
| JsPatchOrder.PatchOutcomeIff | src-tauri/src/calendar/event_set.rs:795-827 | the same for a patch that passes the overlap check, on its decoded places |
| JsPatchOrder.TwoCommuteIff | src-tauri/src/calendar/event_set.rs:803-827 | two entries commute on every value, if and only if their places are apart or the entries are equal |
| JsPatchOrder.WellEscapedIsCompatible | src-tauri/src/calendar/event_set.rs:795-807 | a checked patch with well-formed escapes meets that condition |
| ICalText.FoldLine | src-tauri/src/calendar/ical.rs:666-689 | the folding loop takes the greatest prefix that fits, at a character boundary |
| ICalText.FitIsGreatest | src-tauri/src/calendar/ical.rs:666-689 | that prefix is within the limit, and any longer one is not |
| ICalText.FewestOctets | src-tauri/src/calendar/ical.rs:666-689 | a character takes the fewest octets that can hold its code |
| ICalText.FoldIsShort | src-tauri/src/calendar/ical.rs:666-689 | no physical line is longer than 75 octets |
| ICalText.FoldedContinues | src-tauri/src/calendar/ical.rs:666-689 | the continuation lines carry exactly the folded text |
| ICalText.ReadBackIff | src-tauri/src/calendar/ical.rs:401-427 | written lines read back as they were, if and only if none ends in a carriage return |
| ICalText.EndingOfEmit | src-tauri/src/calendar/ical.rs:402-406 | the line ending of written text is detected again |
| ICalLines.Unfold | src-tauri/src/calendar/ical.rs:401-427 | the unfolding loop groups physical lines into logical ones |
| ICalLines.GroupKeeps | src-tauri/src/calendar/ical.rs:410-426 | unfolding loses no physical line |
| ICalLines.GroupOfFlat | src-tauri/src/calendar/ical.rs:410-426 | regrouping the physical lines of logical lines gives those lines |
| ICalEvents.TopLevelEventRanges | src-tauri/src/calendar/ical.rs:429-455 | the scan for VEVENT ranges, with its unmatched-END errors |
| ICalEvents.RangesAfterReplacing | src-tauri/src/calendar/ical.rs:429-455 | replacing the inside of one event by balanced lines moves later ranges and changes no other |
| ICalProperties.TraitsAreOk | src-tauri/src/calendar/ical.rs:230-238 | a line that names a property is no component marker, and trimming keeps its name |
| ICalProperties.LeadingWhiteHides | src-tauri/src/calendar/ical.rs:483-515 | white space before a property hides it from the drop but not from the count |
| ICalProperties.EscapeText | src-tauri/src/calendar/ical.rs:644-664 | the escaping loop computes `TextValue`, one escape per line break of either form |
| ICalProperties.EncodeParameter | src-tauri/src/calendar/ical.rs:1277-1296 | the parameter encoding loop computes `ParameterValue` |
| ICalProperties.TextIsOneLine | src-tauri/src/calendar/ical.rs:644-664 | an escaped text holds no line break, whatever the text |
| ICalProperties.ContentFacts | src-tauri/src/calendar/ical.rs:517-563 | every generated content line names its property and holds no line break; its value is `ICalReading.ContentReads` |
| ICalKeeping.TopLevelPropertyCount | src-tauri/src/calendar/ical.rs:483-499 | the counting loop counts lines outside nested components |
| ICalKeeping.CountKept | src-tauri/src/calendar/ical.rs:333-343 | after the drop a rewritten property is counted only in stray lines, any other as before |
| ICalKeeping.KeepTwice | src-tauri/src/calendar/ical.rs:333-350 | dropping again drops nothing more |
| ICalKeeping.SecondIsEditable | src-tauri/src/calendar/ical.rs:457-481 | the rewritten event passes validation again exactly when no stray line repeats a replaced property |
| ICalSplit.TakeComponent | src-tauri/src/calendar/ical.rs:212-228 | where a component ends, by depth alone, or that it never does |
| ICalSplit.SplitCalendarComponents | src-tauri/src/calendar/ical.rs:155-210 | accepts exactly one complete VCALENDAR with at least one event between blank lines, and counts its events |
| ICalCalendar.CalendarIff | src-tauri/src/calendar/ical.rs:155-228 | lines are accepted, with so many events, exactly when they are blank lines, the opening, whole components and single lines, the closing, and blank lines, with so many events among the components, and not none |
| ICalUnfolding.SplitOfLines | src-tauri/src/calendar/ical.rs:156-163 | unfolding written lines by deleting folds gives their logical texts, if no trailing carriage return and no text that begins with a blank is among them |
| ICalRewrite.WriteLines | src-tauri/src/calendar/ical.rs:331-350 | the output loop writes the kept lines, and the replacement before the event's END |
| ICalRewrite.OccurrenceContentLines | src-tauri/src/calendar/ical.rs:517-563 | the generated lines, escaped, encoded and folded by their loops; what they say is `ICalReading.ContentReads` |
| ICalRewrite.RewriteOccurrence | src-tauri/src/calendar/ical.rs:277-352 | the rewriting from text to text, with the refusals of the completeness check, the event count, the structure and the target's validation; what the edited event then reads as is `ICalReading.WrittenEventReads` |
| ICalLaws.ReplacementIsFolded | src-tauri/src/calendar/ical.rs:517-563 | generated lines are at most 75 octets and unfold to the wanted contents |
| ICalLaws.RewriteReadsBack | src-tauri/src/calendar/ical.rs:317-352 | unfolding the output gives the wanted logical lines, if and only if no physical line of the input that is kept ends in a carriage return |
| ICalReturns.ReturnsShow | src-tauri/src/calendar/ical.rs:317-352 | if a kept line ends in a carriage return, the edit repeated never gives the same text |
| ICalRepeat.OtherEventsUntouched | src-tauri/src/calendar/ical.rs:317-352 | every other VEVENT keeps its ordinal and its lines; the edited one is its markers around the new inside |
| ICalReading.TextReadsBack | src-tauri/src/calendar/ical.rs:644-664 | an escaped text is well formed and reads, by a strict reader of its own, as the text with line breaks and control characters normalized |
| ICalReading.EncodedReadsBack | src-tauri/src/calendar/ical.rs:1277-1296 | so does an encoded parameter value, which holds no quotation mark |
| ICalReading.ContentReads | src-tauri/src/calendar/ical.rs:517-612 | each generated line reads as wanted: DTSTART as the start, DTEND as the end, DURATION as the duration, with VALUE=DATE or TZID as the trimmed zone name, and the texts as the wanted texts |
| ICalReading.EventReads | src-tauri/src/calendar/ical.rs:317-352 | in the edited event each replaced property is held once and reads as wanted, an emptied one is gone, and every other property is as it was |
| ICalReading.WrittenEventReads | src-tauri/src/calendar/ical.rs:317-427 | the same of the text that is written, if no kept line ends in a carriage return |
| ICalReading.EditedIff | src-tauri/src/calendar/ical.rs:317-325 | an edit is carried out exactly when the events are those that were parsed and the selected one has its one UID, which is the one asked for, one RECURRENCE-ID, one start and one end, and none of its texts twice |
| ICalRepeat.SecondPass | src-tauri/src/calendar/ical.rs:317-352 | the same edit on the produced lines gives them back, if and only if it is settled |
| ICalRepeat.RewriteTwice | src-tauri/src/calendar/ical.rs:317-352 | on every text: the same edit on the output gives the output, if and only if it is settled and no kept line ends in a carriage return |
| ICalChecked.RewriteKeepsCount | src-tauri/src/calendar/ical.rs:155-228 | the rewritten lines are a complete calendar if and only if the lines were, and then of as many events |
| ICalChecked.RepeatChecked | src-tauri/src/calendar/ical.rs:277-352 | the same with the completeness check: in general the output must pass it again; if no logical line but the first begins with a blank, that is if and only if the input's logical lines are a complete calendar of as many events |
| ICalChecked.NestedIsSettled | src-tauri/src/calendar/ical.rs:331-350 | if nested components are opened before they are closed, and closed, only stray lines keep an edit from being settled |
| ICalExamples.TrailingReturn | src-tauri/src/calendar/ical.rs:401-427 | a calendar text with three carriage returns before a line feed: the edit is accepted, reads back wrong, and repeated does not give the same text |
| ICalExamples.StrayProperty | src-tauri/src/calendar/ical.rs:483-515 | a calendar text with a title behind white space: the edit is accepted, and repeated does not give the same text |
| ICalExamples.MisnestedRepeats | src-tauri/src/calendar/ical.rs:331-350 | a calendar text with a component closed before it is opened passes all of the repository's own checks, and the edit repeated does not give the same text |
| RecipientLexer.ScanProtected | src/lib/compose-recipients.ts:86-116 | the inner loop over quotes, comments and literals |
| RecipientLexer.TokenizeRecipients | src/lib/compose-recipients.ts:47-159 | the scanner's loop computes `Tokenize` |
| RecipientLexer.RunIsLocal | src/lib/compose-recipients.ts:47-159 | a clean piece of input is scanned inside a larger one as it is alone |
| DisplayNames.DisplayReads | src/lib/compose-recipients.ts:327-367 | a printed name, quoted or not, reads as the name, by a reader that strips quotes and escapes on its own |
| DisplayNames.DisplayIsInjective | src/lib/compose-recipients.ts:364-366 | different names are printed differently |
| Recipients.ParseRecipients | src/lib/compose-recipients.ts:246-264 | the reader's loop, skipping blanks and reporting the first bad recipient by its ordinal |
| Recipients.ListLexes | src/lib/compose-recipients.ts:47-159 | a list, with commas or semicolons, has exactly one good span per recipient, with its address and its printed name |
| Recipients.ParseOfFormat | src/lib/compose-recipients.ts:355-367 | reading the printed list of any recipients with exact addresses and printable names returns exactly their addresses; their names are `NamesOfFormat` |
| Recipients.ParseOfList | src/lib/compose-recipients.ts:47-159 | the same with semicolons between the recipients |
| Recipients.NamesOfFormat | src/lib/compose-recipients.ts:355-367 | each span of the printed list shows the name of its recipient: none if it was missing, empty or the address, and otherwise the name itself, tabs read as spaces |
| Recipients.FormatIsInjective | src/lib/compose-recipients.ts:355-367 | two lists are printed alike only if they have the same addresses and printed names |
| RecipientReading.TokensOk | src/lib/compose-recipients.ts:47-159 | every accepted span has text of the right kind in each part, and no control character |
| RecipientReading.AcceptedIsExact | src/lib/compose-recipients.ts:162-264 | for every input, each accepted address is an exact bare address |
| RecipientReading.ReadingIsStable | src/lib/compose-recipients.ts:246-264 | printing the addresses that were read and reading them again gives the same addresses |
| RecipientRefusals.RefusesFirstBad | src/lib/compose-recipients.ts:246-264 | a list is refused exactly when a recipient is bad, and the first one is reported, counted among those that are not blank |
| RecipientRefusals.MailboxIff | src/lib/compose-recipients.ts:204-244 | a span is an address exactly when its parts are one, or end in one in brackets after words, quoted text or the same address; no group is |
| RecipientRefusals.ShownAddressMustAgree | src/lib/compose-recipients.ts:226-235 | an address before brackets is accepted only if the brackets hold the same one, for all exact addresses |
| Refreshes.StepKeeps | src-tauri/src/provider.rs:713-866 | every step of every getter and lifecycle operation keeps the lock, token and latch invariants |
| Refreshes.RunsKeep | src-tauri/src/provider.rs:207-223 | the invariants hold after every run from any stored tokens |
| Refreshes.RefreshesNeverOverlap | src-tauri/src/provider.rs:207-223 | two refreshes of one account are never in flight together |
| Refreshes.RefreshPresentsStored | src-tauri/src/provider.rs:713-866 | a refresh presents the refresh token then in the store, which stays there while it is in flight |
| Refreshes.NoRefreshWhileLatched | src-tauri/src/oauth.rs:1357-1446 | after an account is latched, no Zoom, Graph or mail refresh is sent for it before a store, delete or commit has succeeded and cleared the latch, and it is not latched again in between |
| Refreshes.ClearingFollowsSuccess | src-tauri/src/provider.rs:231-363 | the last thing that happened to an account before its latch is cleared is a store, delete or commit that succeeded |
| Refreshes.FailedChangeRestores | src-tauri/src/provider.rs:267-363 | a delete or replace that failed gives up the lock with the latch that it found, and with the tokens too if its compensation succeeded |
| Refreshes.FailureLeavesAsFound | src-tauri/src/provider.rs:267-363 | over every run, from the state in which a delete or replace takes the lock to the one in which it has failed: the latch is as it was, and so are the tokens if the compensation succeeded |
| Refreshes.LatchIsLogged | src-tauri/src/oauth.rs:1397-1446 | the latch holds exactly the accounts last latched and not yet cleared |
| RefreshOutcome.GetterOutcome | src-tauri/src/provider.rs:713-866 | over every run, from taking the lock to giving it up: a getter's own steps decide what it leaves; a rejected refresh latches if its kind does, a granted one is stored (Graph exchanging only its refresh token), and otherwise tokens and latch are as they were |
| TokenLifecycle.Lifecycle.StoreAndCommit | src-tauri/src/provider.rs:231-265 | success stores and unlatches; an undone failure leaves no tokens; other accounts are untouched |
| TokenLifecycle.Lifecycle.DeleteAndCommit | src-tauri/src/provider.rs:267-312 | for every fault pattern: success deletes and unlatches, an undone failure restores tokens and latch, and the latch is restored even when the tokens are not |
| TokenLifecycle.Lifecycle.ReplaceAndCommit | src-tauri/src/provider.rs:314-363 | the same for replacing |
| TokenLifecycle.Lifecycle.Store | src-tauri/src/oauth.rs:1415-1446 | a failing store may have taken effect; only a successful one may clear the latch |
| TokenLifecycle.Lifecycle.Delete | src-tauri/src/oauth.rs:1535-1554 | the same for deletion |
| TokenLifecycle.OperationIsRun | src-tauri/src/provider.rs:231-363 | each operation, under any faults, is a run of enabled steps of the refresh machine with the same tokens and latch at the end |
| TokenLifecycle.FailureRestores | src-tauri/src/provider.rs:267-363 | a failed delete or replace has the latch that it found, and if undone the tokens |
| Navigation.CalendarStore.FetchEvents | src/stores/calendar.ts:418-424 | a fetch takes the next request number and the range of the current place |
| Navigation.CalendarStore.GoToDate | src/stores/calendar.ts:788-805 | navigation keeps the place on display, or cancels a pending navigation |
| Navigation.CalendarStore.SetViewMode | src/stores/calendar.ts:784-786 | a mode change is a navigation |
| Navigation.CalendarStore.RetryNavigation | src/stores/calendar.ts:807-820 | a retry goes where the last navigation failed to go, or reads the range again, and keeps what is shown and held |
| Navigation.CalendarStore.CompleteRead | src/stores/calendar.ts:465-488 | only the newest answer commits, and only for the active range |
| Navigation.CalendarStore.FailRequest | src/stores/calendar.ts:489-506 | a failed newest request gives up the pending navigation |
| Navigation.RunsKeep | src/stores/calendar.ts:418-507 | the invariants hold after every run |
| Navigation.DisplayIsCoherent | src/stores/calendar.ts:418-507 | with settings fixed, the place on display denotes the range of the held events, and loading holds iff the newest request is on its way |
| Navigation.OnlyNewestCommits | src/stores/calendar.ts:465-506 | only an answer to the newest request changes what is held or shown, and it then shows what was asked for |
| Navigation.CancelMakesStale | src/stores/calendar.ts:788-797 | cancelling leaves the display alone and makes every request on its way stale |
| Navigation.NewestIsShown | src/stores/calendar.ts:465-488 | the newest answer, for the wanted range, is shown with its events, and a failed navigation is forgotten |
| Navigation.FailureThenRetry | src/stores/calendar.ts:489-506 | a failed navigation leaves what is shown alone; whatever ends in the background then, a retry goes where it was going, with a new request for that range |
| Navigation.ErrorIsSettled | src/stores/calendar.ts:418-507 | an error is shown only when nothing is on its way |
| IdleStop.StepKeeps | src-tauri/src/state.rs:36-66 | every step of registering, stopping and guarded acting keeps the invariants |
| IdleStop.NothingRunsAfterStop | src-tauri/src/state.rs:51-66 | no guarded action begins after a stop has set the flag, and none is under way when it is set |
| IdleStop.StopShutsEverySocket | src-tauri/src/state.rs:36-58 | once a stop request has ended, the registered socket is shut, and so is any whose registration ends later |
| IdleStop.LastSocketIsShut | src-tauri/src/state.rs:40-58 | by the steps taken: once a stop has ended, the socket registered last and not forgotten is shut; a forgotten one is let go; none is shut before a stop |
| IdleStop.ActsUnlessStopped | src-tauri/src/state.rs:60-66 | a guarded action begins if and only if no stop was asked for before |

## Left out

- The viewer's recurrence expansion (`display_recurrence.rs`, the display branch of the projection, `src/lib/rrule.ts`): it delegates to an external library or is a best-effort fallback.
- Timestamps as text: times are integers and stamps are canonical, so RFC 3339 offsets, fractional digits and date formatting are not modelled; UNTIL and rule text are.
- The sort of a page compares timestamp texts; the model takes their order as a parameter with a stated hypothesis (`Projection.TextOrder`): texts of dates, and of instants whole seconds apart, compare as times do. `Projection.TimesAreInTextOrder` shows that it can be met.
- Time-zone tables: zones are resolvers that satisfy `Zones.ZoneOk`. A zone whose clock is set back by a whole day or more is outside them.
- SeriesEdits.EditSeries: the new master, the inheriting keys and the captured content are inputs here; `WholeSeries.EditWhole` derives them.
- WholeSeries.EditWhole: a new time zone is given as a zone rather than by its name.
- RuleEquivalence.SchedulesEquivalent: the rule is given parsed, so the two forms of UNTIL that only this comparison converts (an RFC 3339 timestamp and a local wall clock) are not modelled.
- SetEquivalence.EquivalentSets: attendees, organizers, descriptions and body formats (`actions.rs:747-749`) are compared by a parameter, since they need the provider's own data; canonical names of time zones are one too (`actions.rs:752-793`), with the hypothesis that, of the zones in use, those with one canonical name convert alike. Keys are visited in any order, which can change only which negative answer or error is given.
- Native provenance of the providers (`event_set.rs:435-753` and `832-1000`): per-field validation; provenance is a parameter of `Edits.CaptureContent`.
- ICalRewrite.RewriteOccurrence: the index of the selected component and the number of components that the parser found are inputs, since an external library reads them. Formatted stamps are inputs too, with the hypothesis that they hold no line break; so the validation of the wanted fields, which comes first, is left to `Rules.FieldsOk`.
- Error messages: errors carry no payload.
- JSON arrays and numbers are opaque leaves in `JsPatch`; a pointer cannot enter them, as in the code.
- Recipient helpers for autocompletion and ranking (`compose-recipients.ts:266-353`): easy members on top of the same scanner.
- UTF-16: recipients are sequences of characters rather than of code units; no scanner rule looks inside a surrogate pair.
- HTTP, keyring, sockets and timers: calls to them are steps or faults of the protocol machines.
- TokenLifecycle.Lifecycle.StoreAndCommit: the latch is not restored when storing fails, because the code does not restore it.
