/** The recurrence rules the editor supports, and the events that carry them. */
module Rules {
  import opened Basics
  import opened CivilCalendar
  import opened Zones
  import opened Text

  datatype Frequency = Daily | Weekly | Monthly | Yearly

  /** A timestamp UNTIL has whole seconds. */
  datatype Until = UntilDate(date: int) | UntilInstant(seconds: int)

  /** Weekdays count from Monday; `byDay` is sorted and free of duplicates. */
  datatype Rule = Rule(
    frequency: Frequency,
    interval: nat,
    byDay: Option<seq<nat>>,
    weekStart: nat,
    count: Option<nat>,
    until: Option<Until>)

  predicate StrictlySorted(days: seq<nat>) {
    forall i, j :: 0 <= i < j < |days| ==> days[i] < days[j]
  }

  predicate WeekdayList(days: seq<nat>) {
    StrictlySorted(days) && forall d :: d in days ==> d < 7
  }

  /** What parsing a rule guarantees. */
  predicate RuleOk(rule: Rule) {
    && 1 <= rule.interval <= 99
    && (rule.byDay.Some? ==> rule.frequency.Weekly? && rule.byDay.value != [] && WeekdayList(rule.byDay.value))
    && rule.weekStart < 7
    && (rule.weekStart != 0 ==> rule.frequency.Weekly?)
    && (rule.count.Some? ==> 1 <= rule.count.value < 0x1_0000_0000)
    && !(rule.count.Some? && rule.until.Some?)
    && (rule.until.Some? ==> UntilOk(rule.until.value))
  }

  /** UNTIL lies in the supported years. */
  predicate UntilOk(until: Until) {
    match until
    case UntilDate(d) => InRange(d)
    case UntilInstant(s) => InRange(DateOfTime(Seconds(s)))
  }

  /** A time as the application writes it: an ISO date or a UTC timestamp. */
  datatype Stamp = Date(date: int) | Instant(time: int)

  /** The instant a stamp stands for; a date means UTC midnight. */
  function Boundary(stamp: Stamp): int {
    match stamp
    case Date(d) => Midnight(d)
    case Instant(t) => t
  }

  /** A stamp that denotes a time inside the supported years. */
  predicate StampInRange(stamp: Stamp) {
    match stamp
    case Date(d) => InRange(d)
    case Instant(t) => InRange(DateOfTime(t))
  }

  datatype RecurrenceKind = Standalone | Series | Occurrence

  /** The fields of an event or occurrence that an edit may change. */
  datatype Fields = Fields(
    title: string,
    description: Option<string>,
    location: Option<string>,
    start: Stamp,
    end: Stamp,
    allDay: bool,
    zone: Zone)

  datatype Event = Event(fields: Fields, rule: Option<Rule>, kind: RecurrenceKind)

  /** The stamp form an event's own times must have. */
  predicate StampFits(allDay: bool, stamp: Stamp) {
    if allDay then stamp.Date? else stamp.Instant?
  }

  function FormatStamp(allDay: bool, time: int): Stamp {
    if allDay then Date(DateOfTime(time)) else Instant(time)
  }

  /** The field validation every event passes: a title, a usable zone name, times of the
      right form, and an end after the start. */
  predicate FieldsOk(fields: Fields) {
    && !Blank(fields.title) && ZoneNameOk(fields.zone.name)
    && StampFits(fields.allDay, fields.start)
    && StampFits(fields.allDay, fields.end)
    && Boundary(fields.start) < Boundary(fields.end)
  }
}
