/** The text form of rules: parsing, printing, and that they undo each other. */
module RuleText {
  import opened Basics
  import opened CivilCalendar
  import opened Zones
  import opened Rules
  import opened Schedules
  import opened Splitting

  const MAX_LENGTH: nat := 4096

  // ------------------------------------------------------------ weekdays

  const DAY_CODES: seq<string> := ["MO", "TU", "WE", "TH", "FR", "SA", "SU"]

  function DayCode(day: nat): string
    requires day < 7
  {
    DAY_CODES[day]
  }

  function DayIndex(code: string): Option<nat> {
    if code == "MO" then Some(0)
    else if code == "TU" then Some(1)
    else if code == "WE" then Some(2)
    else if code == "TH" then Some(3)
    else if code == "FR" then Some(4)
    else if code == "SA" then Some(5)
    else if code == "SU" then Some(6)
    else None
  }

  lemma DayCodeFacts(day: nat)
    requires day < 7
    ensures DayIndex(DayCode(day)) == Some(day) && PlainText(DayCode(day)) && |DayCode(day)| == 2
    ensures ',' !in DayCode(day) && ';' !in DayCode(day)
  {
  }

  /** Weekdays in order, without duplicates. */
  function SortedDays(days: seq<nat>): (r: seq<nat>)
    ensures WeekdayList(r)
  {
    WeekOffsets(days, 0)
  }

  function ParseDays(codes: seq<string>): Result<seq<nat>> {
    if codes == [] then Ok([])
    else
      var rest :- ParseDays(codes[1..]);
      match DayIndex(Trim(codes[0]))
      case None => Err
      case Some(day) => Ok([day] + rest)
  }

  function PrintDays(days: seq<nat>): (r: seq<string>)
    requires forall i :: 0 <= i < |days| ==> days[i] < 7
    ensures |r| == |days| && forall i :: 0 <= i < |days| ==> r[i] == DayCode(days[i])
  {
    if days == [] then [] else [DayCode(days[0])] + PrintDays(days[1..])
  }

  lemma {:induction false} DaysRoundTrip(days: seq<nat>)
    requires forall i :: 0 <= i < |days| ==> days[i] < 7
    ensures ParseDays(PrintDays(days)) == Ok(days)
  {
    if days != [] {
      DayCodeFacts(days[0]);
      PlainIsTrimmed(DayCode(days[0]));
      DaysRoundTrip(days[1..]);
      var codes := PrintDays(days);
      assert codes[0] == DayCode(days[0]) && codes[1..] == PrintDays(days[1..]);
      assert ParseDays(codes) == Ok([days[0]] + days[1..]);
      assert days == [days[0]] + days[1..];
    }
  }

  /** Two sorted lists with the same members are equal. */
  lemma {:induction false} SortedUnique(a: seq<nat>, b: seq<nat>)
    requires StrictlySorted(a) && StrictlySorted(b) && forall d :: d in a <==> d in b
    ensures a == b
  {
    if b != [] {
      SortedHead(b, a);
    }
    if a != [] {
      SortedHead(a, b);
      SortedTail(a);
      SortedTail(b);
      SortedUnique(a[1..], b[1..]);
      assert a == [a[0]] + a[1..] && b == [b[0]] + b[1..];
    }
  }

  lemma SortedHead(a: seq<nat>, b: seq<nat>)
    requires a != [] && StrictlySorted(b) && forall d :: d in a ==> d in b
    ensures b != [] && b[0] <= a[0]
  {
    assert a[0] in a;
    var i :| 0 <= i < |b| && b[i] == a[0];
  }

  lemma SortedTail(a: seq<nat>)
    requires a != [] && StrictlySorted(a)
    ensures StrictlySorted(a[1..]) && forall d :: d in a[1..] <==> d in a && d != a[0]
  {
  }

  lemma SortedDaysFixed(days: seq<nat>)
    requires WeekdayList(days)
    ensures SortedDays(days) == days
  {
    forall d ensures d in SortedDays(days) <==> d in days {
      if 0 <= d < 7 {
        assert Around(d + 0) == d;
      }
    }
    SortedUnique(SortedDays(days), days);
  }

  // ------------------------------------------------------------ dates and timestamps

  /** A date from its civil fields, if it exists and is in the supported years. */
  function CivilDate(year: nat, month: nat, day: nat): Result<int> {
    if 1 <= year <= 9999 && 1 <= month <= 12 && 1 <= day <= DaysIn(12 * year + month - 1)
    then Ok(MonthStart(12 * year + month - 1) + day - 1)
    else Err
  }

  function ParseDate(digits: string): Result<int>
    requires |digits| == 8 && AllDigits(digits)
  {
    CivilDate(DigitsValue(digits[..4]), DigitsValue(digits[4..6]), DigitsValue(digits[6..]))
  }

  function PrintDate(date: nat): (s: string)
    ensures |s| == 8 && AllDigits(s)
  {
    var month := MonthOf(date);
    PrintCivil(month / 12, month % 12 + 1, date - MonthStart(month) + 1)
  }

  function PrintCivil(year: nat, month: nat, day: nat): (s: string)
    ensures |s| == 8 && AllDigits(s)
  {
    Padded(year, 4) + Padded(month, 2) + Padded(day, 2)
  }

  lemma ParsePrintedCivil(year: nat, month: nat, day: nat)
    requires year < 10_000 && month < 100 && day < 100
    ensures ParseDate(PrintCivil(year, month, day)) == CivilDate(year, month, day)
  {
    var s := PrintCivil(year, month, day);
    assert s[..4] == Padded(year, 4) && s[4..6] == Padded(month, 2) && s[6..] == Padded(day, 2);
    FourDigits(year);
    TwoDigits(month);
    TwoDigits(day);
  }

  lemma YearInRange(date: nat, limit: nat)
    requires date < DATE_LIMIT && limit == 10_000
    ensures 1 <= MonthOf(date) / 12 < limit
  {
    YearsClosedForm(limit);
    if MonthOf(date) >= 12 * limit {
      if MonthOf(date) > 12 * limit {
        MonthOrder(12 * limit, MonthOf(date));
      }
    }
  }

  lemma CivilRoundTrip(year: nat, month0: nat, day: nat)
    requires 1 <= year < 10_000 && month0 < 12 && day < DaysIn(12 * year + month0)
    ensures CivilDate(year, month0 + 1, day + 1) == Ok(MonthStart(12 * year + month0) + day)
  {
    assert 12 * year + (month0 + 1) - 1 == 12 * year + month0;
  }

  lemma DateRoundTrip(date: nat)
    requires InRange(date)
    ensures ParseDate(PrintDate(date)) == Ok(date)
  {
    var month: nat := MonthOf(date);
    YearInRange(date, 10_000);
    MonthParts(month);
    CivilRoundTrip(month / 12, month % 12, date - MonthStart(month));
    ParsePrintedCivil(month / 12, month % 12 + 1, date - MonthStart(month) + 1);
  }

  lemma MonthParts(month: nat)
    ensures month == 12 * (month / 12) + month % 12 && month % 12 < 12
  {
  }

  lemma TwoDigits(n: nat)
    requires n < 100
    ensures DigitsValue(Padded(n, 2)) == n
  {
    assert Power10(2) == 100;
    PaddedValue(n, 2);
  }

  lemma FourDigits(n: nat)
    requires n < 10_000
    ensures DigitsValue(Padded(n, 4)) == n
  {
    assert Power10(4) == 10_000;
    PaddedValue(n, 4);
  }

  /** Seconds since midnight, from a clock reading. */
  function ClockSeconds(hour: nat, minute: nat, second: nat): Result<nat> {
    if hour < 24 && minute < 60 && second < 60 then Ok(3600 * hour + 60 * minute + second) else Err
  }

  function PrintClock(seconds: nat): (s: string)
    ensures |s| == 6 && AllDigits(s)
  {
    Padded(seconds / 3600, 2) + Padded(seconds / 60 % 60, 2) + Padded(seconds % 60, 2)
  }

  function ParseClock(digits: string): Result<nat>
    requires |digits| == 6 && AllDigits(digits)
  {
    ClockSeconds(DigitsValue(digits[..2]), DigitsValue(digits[2..4]), DigitsValue(digits[4..]))
  }

  lemma ClockRoundTrip(seconds: nat)
    requires seconds < 86_400
    ensures ParseClock(PrintClock(seconds)) == Ok(seconds)
  {
    var hour, minute, second := seconds / 3600, seconds / 60 % 60, seconds % 60;
    var s := PrintClock(seconds);
    assert s[..2] == Padded(hour, 2) && s[2..4] == Padded(minute, 2) && s[4..] == Padded(second, 2);
    TwoDigits(hour);
    TwoDigits(minute);
    TwoDigits(second);
    ClockParts(seconds);
  }

  lemma ClockParts(seconds: nat)
    requires seconds < 86_400
    ensures 3600 * (seconds / 3600) + 60 * (seconds / 60 % 60) + seconds % 60 == seconds
  {
    var minutes := seconds / 60;
    assert seconds == 60 * minutes + seconds % 60;
    assert minutes == 60 * (minutes / 60) + minutes % 60;
    assert minutes / 60 == seconds / 3600;
  }

  function ParseUntil(value: string): Result<Until> {
    if |value| == 10 then
      if value[4] == '-' && value[7] == '-' && AllDigits(value[..4] + value[5..7] + value[8..])
      then
        var date :- ParseDate(value[..4] + value[5..7] + value[8..]);
        Ok(UntilDate(date))
      else Err
    else if |value| == 8 && AllDigits(value) then
      var date :- ParseDate(value);
      Ok(UntilDate(date))
    else if |value| == 16 && value[8] == 'T' && value[15] == 'Z' && AllDigits(value[..8]) && AllDigits(value[9..15]) then
      var date :- ParseDate(value[..8]);
      var seconds :- ParseClock(value[9..15]);
      Ok(UntilInstant(86_400 * date + seconds))
    else Err
  }

  function PrintUntil(until: Until): string
    requires UntilOk(until)
  {
    match until
    case UntilDate(date) => PrintDate(date)
    case UntilInstant(seconds) =>
      var date := DateOfTime(Seconds(seconds));
      PrintDate(date) + "T" + PrintClock(seconds - 86_400 * date) + "Z"
  }

  lemma StampSlices(date: string, clock: string)
    requires |date| == 8 && |clock| == 6
    ensures var s := date + "T" + clock + "Z";
      |s| == 16 && s[..8] == date && s[9..15] == clock && s[8] == 'T' && s[15] == 'Z'
  {
  }

  lemma StampParses(date: string, clock: string, d: int, c: nat)
    requires |date| == 8 && |clock| == 6 && AllDigits(date) && AllDigits(clock)
    requires ParseDate(date) == Ok(d) && ParseClock(clock) == Ok(c)
    ensures ParseUntil(date + "T" + clock + "Z") == Ok(UntilInstant(86_400 * d + c))
  {
    StampSlices(date, clock);
  }

  lemma DateParses(text: string, d: int)
    requires |text| == 8 && AllDigits(text) && ParseDate(text) == Ok(d)
    ensures ParseUntil(text) == Ok(UntilDate(d))
  {
  }

  lemma UntilRoundTrip(until: Until)
    requires UntilOk(until)
    ensures ParseUntil(PrintUntil(until)) == Ok(until)
  {
    match until
    case UntilDate(date) =>
      DateRoundTrip(date);
      DateParses(PrintDate(date), date);
    case UntilInstant(seconds) =>
      var date := DateOfTime(Seconds(seconds));
      ClockOfInstant(seconds, date);
      InstantRoundTrip(date, seconds - 86_400 * date);
  }

  lemma ClockOfInstant(seconds: int, date: int)
    requires date == DateOfTime(Seconds(seconds))
    ensures 0 <= seconds - 86_400 * date < 86_400
  {
  }

  lemma InstantRoundTrip(date: nat, clock: nat)
    requires InRange(date) && clock < 86_400
    ensures ParseUntil(PrintDate(date) + "T" + PrintClock(clock) + "Z") == Ok(UntilInstant(86_400 * date + clock))
  {
    DateRoundTrip(date);
    ClockRoundTrip(clock);
    StampParses(PrintDate(date), PrintClock(clock), date, clock);
  }

  lemma ParsedUntilOk(value: string)
    requires ParseUntil(value).Ok?
    ensures UntilOk(ParseUntil(value).value)
  {
    if |value| == 10 {
      ParsedDateInRange(value[..4] + value[5..7] + value[8..]);
    } else if |value| == 8 {
      ParsedDateInRange(value);
    } else {
      ParsedDateInRange(value[..8]);
      SecondsInDay(ParseDate(value[..8]).value, ParseClock(value[9..15]).value);
    }
  }

  lemma SecondsInDay(date: int, seconds: nat)
    requires seconds < 86_400
    ensures DateOfTime(Seconds(86_400 * date + seconds)) == date
  {
    assert Midnight(date) <= Seconds(86_400 * date + seconds) < Midnight(date + 1);
  }

  lemma ParsedDateInRange(digits: string)
    requires |digits| == 8 && AllDigits(digits) && ParseDate(digits).Ok?
    ensures InRange(ParseDate(digits).value)
  {
    var year, month := DigitsValue(digits[..4]), DigitsValue(digits[4..6]);
    LastDayInRange(12 * year + month - 1, 10_000);
  }

  lemma LastDayInRange(month: Month, limit: nat)
    requires month < 12 * limit && limit == 10_000
    ensures MonthStart(month) + DaysIn(month) <= DATE_LIMIT
  {
    YearsClosedForm(limit);
    MonthOrder(month, 12 * limit);
  }

  // ------------------------------------------------------------ parts

  /** What has been read so far, and which keys. */
  datatype Draft = Draft(
    frequency: Option<Frequency>,
    interval: nat,
    byDay: Option<seq<nat>>,
    weekStart: nat,
    count: Option<nat>,
    until: Option<Until>,
    keys: set<string>)

  const EMPTY: Draft := Draft(None, 1, None, 0, None, None, {})

  function PositiveInteger(value: string): Result<nat> {
    if value == "" || !AllDigits(value) then Err
    else
      var n := DigitsValue(value);
      if 0 < n < 0x1_0000_0000 then Ok(n) else Err
  }

  function ParseFrequency(value: string): Result<Frequency> {
    if value == "DAILY" then Ok(Daily)
    else if value == "WEEKLY" then Ok(Weekly)
    else if value == "MONTHLY" then Ok(Monthly)
    else if value == "YEARLY" then Ok(Yearly)
    else Err
  }

  /** Read one value under its key. */
  function ReadValue(d: Draft, key: string, value: string): Result<Draft> {
    if key == "FREQ" then
      var frequency :- ParseFrequency(value);
      Ok(d.(frequency := Some(frequency)))
    else if key == "INTERVAL" then
      var interval :- PositiveInteger(value);
      if interval > 99 then Err else Ok(d.(interval := interval))
    else if key == "COUNT" then
      var count :- PositiveInteger(value);
      Ok(d.(count := Some(count)))
    else if key == "UNTIL" then
      var until :- ParseUntil(value);
      Ok(d.(until := Some(until)))
    else if key == "WKST" then
      match DayIndex(value)
      case None => Err
      case Some(day) => Ok(d.(weekStart := day))
    else if key == "BYDAY" then
      var days :- ParseDays(Split(value, ','));
      Ok(d.(byDay := Some(SortedDays(days))))
    else Err
  }

  /** Read one `KEY=VALUE` part; empty values and repeated keys are refused. */
  function ReadPart(d: Draft, part: string): Result<Draft> {
    match SplitOnce(part, '=')
    case None => Err
    case Some((rawKey, rawValue)) =>
      var key, value := Trim(rawKey), Trim(rawValue);
      if value == "" || key in d.keys then Err
      else ReadValue(d.(keys := d.keys + {key}), key, value)
  }

  function ReadParts(d: Draft, parts: seq<string>): Result<Draft>
    decreases parts
  {
    if parts == [] then Ok(d)
    else
      var next :- ReadPart(d, parts[0]);
      ReadParts(next, parts[1..])
  }

  function Finish(d: Draft): Result<Rule> {
    if d.frequency.None? then Err
    else if d.frequency != Some(Weekly) && (d.byDay.Some? || "WKST" in d.keys) then Err
    else if d.count.Some? && d.until.Some? then Err
    else Ok(Rule(d.frequency.value, d.interval, d.byDay, d.weekStart, d.count, d.until))
  }

  predicate AcceptableText(input: string) {
    |input| <= MAX_LENGTH && forall i :: 0 <= i < |input| ==> ' ' <= input[i] <= '~'
  }

  /** Normalized case and spacing, without the optional prefix. */
  function RuleBody(input: string): string {
    var text := UpperText(Trim(input));
    if "RRULE:" <= text then text[6..] else text
  }

  function ParseRule(input: string): Result<Rule> {
    if !AcceptableText(input) then Err
    else
      var draft :- ReadParts(EMPTY, Split(RuleBody(input), ';'));
      Finish(draft)
  }

  /** The parser's loop over the parts. */
  method Parse(input: string) returns (r: Result<Rule>)
    ensures r == ParseRule(input)
  {
    if !AcceptableText(input) {
      return Err;
    }
    var parts := Split(RuleBody(input), ';');
    var draft := EMPTY;
    var i := 0;
    while i < |parts|
      invariant 0 <= i <= |parts|
      invariant ReadParts(EMPTY, parts) == ReadParts(draft, parts[i..])
    {
      var next := ReadPart(draft, parts[i]);
      assert parts[i..][1..] == parts[i + 1..];
      if next.Err? {
        return Err;
      }
      draft := next.value;
      i := i + 1;
    }
    r := Finish(draft);
  }

  // ------------------------------------------------------------ parsed rules are well formed

  /** What every draft satisfies. */
  predicate DraftOk(d: Draft) {
    && 1 <= d.interval <= 99 && d.weekStart < 7
    && (d.weekStart != 0 ==> "WKST" in d.keys)
    && (d.byDay.Some? ==> d.byDay.value != [] && WeekdayList(d.byDay.value))
    && (d.count.Some? ==> 1 <= d.count.value < 0x1_0000_0000)
    && (d.until.Some? ==> UntilOk(d.until.value))
  }

  lemma ReadValueOk(d: Draft, key: string, value: string)
    requires DraftOk(d) && key in d.keys && ReadValue(d, key, value).Ok?
    ensures DraftOk(ReadValue(d, key, value).value)
  {
    if key == "UNTIL" {
      ParsedUntilOk(value);
    } else if key == "BYDAY" {
      var days := ParseDays(Split(value, ',')).value;
      ParsedDays(Split(value, ','));
      assert Around(days[0] + 0) == days[0];
      assert days[0] in SortedDays(days);
    }
  }

  lemma {:induction false} ParsedDays(codes: seq<string>)
    requires ParseDays(codes).Ok?
    ensures |ParseDays(codes).value| == |codes| && forall d :: d in ParseDays(codes).value ==> d < 7
  {
    if codes != [] {
      ParsedDays(codes[1..]);
    }
  }

  lemma {:induction false} ReadPartsOk(d: Draft, parts: seq<string>)
    requires DraftOk(d) && ReadParts(d, parts).Ok?
    ensures DraftOk(ReadParts(d, parts).value)
    decreases parts
  {
    if parts != [] {
      var (rawKey, rawValue) := SplitOnce(parts[0], '=').value;
      var key := Trim(rawKey);
      ReadValueOk(d.(keys := d.keys + {key}), key, Trim(rawValue));
      ReadPartsOk(ReadPart(d, parts[0]).value, parts[1..]);
    }
  }

  lemma ParsedRuleOk(input: string)
    requires ParseRule(input).Ok?
    ensures RuleOk(ParseRule(input).value)
  {
    ReadPartsOk(EMPTY, Split(RuleBody(input), ';'));
  }

  // ------------------------------------------------------------ printing

  function PrintFrequency(frequency: Frequency): string {
    match frequency
    case Daily => "DAILY"
    case Weekly => "WEEKLY"
    case Monthly => "MONTHLY"
    case Yearly => "YEARLY"
  }

  function Part(key: string, value: string): string {
    key + "=" + value
  }

  /** The optional parts in their stable order. */
  function IntervalParts(rule: Rule): seq<string> {
    if rule.interval == 1 then [] else [Part("INTERVAL", PrintNat(rule.interval))]
  }

  function DayParts(rule: Rule): seq<string>
    requires RuleOk(rule)
  {
    if rule.byDay.None? then []
    else
      assert forall i :: 0 <= i < |rule.byDay.value| ==> rule.byDay.value[i] in rule.byDay.value;
      [Part("BYDAY", Join(PrintDays(rule.byDay.value), ','))]
  }

  function WeekStartParts(rule: Rule): seq<string>
    requires RuleOk(rule)
  {
    if rule.weekStart == 0 then [] else [Part("WKST", DayCode(rule.weekStart))]
  }

  function CountParts(rule: Rule): seq<string> {
    if rule.count.None? then [] else [Part("COUNT", PrintNat(rule.count.value))]
  }

  function UntilParts(rule: Rule): seq<string>
    requires RuleOk(rule)
  {
    if rule.until.None? then [] else [Part("UNTIL", PrintUntil(rule.until.value))]
  }

  function PartsOf(rule: Rule): seq<string>
    requires RuleOk(rule)
  {
    [Part("FREQ", PrintFrequency(rule.frequency))] + IntervalParts(rule) + DayParts(rule) + WeekStartParts(rule)
      + CountParts(rule) + UntilParts(rule)
  }

  function Serialize(rule: Rule): string
    requires RuleOk(rule)
  {
    Join(PartsOf(rule), ';')
  }

  // ------------------------------------------------------------ the round trip

  /** A value that survives trimming and splitting. */
  predicate CleanValue(value: string) {
    value != "" && PlainText(value) && ';' !in value && |value| <= 20
  }

  predicate CleanKey(key: string) {
    PlainText(key) && '=' !in key && ';' !in key && |key| <= 8
  }

  lemma ReadPrinted(d: Draft, key: string, value: string)
    requires CleanKey(key) && CleanValue(value) && key !in d.keys
    ensures ReadPart(d, Part(key, value)) == ReadValue(d.(keys := d.keys + {key}), key, value)
  {
    assert Part(key, value) == key + ['='] + value;
    SplitOnceAt(key, '=', value);
    PlainIsTrimmed(key);
    PlainIsTrimmed(value);
  }

  lemma {:induction false} ReadAppend(d: Draft, a: seq<string>, b: seq<string>)
    requires ReadParts(d, a).Ok?
    ensures ReadParts(d, a + b) == ReadParts(ReadParts(d, a).value, b)
    decreases a
  {
    if a == [] {
      assert a + b == b;
    } else {
      assert (a + b)[1..] == a[1..] + b;
      ReadAppend(ReadPart(d, a[0]).value, a[1..], b);
    }
  }

  lemma ReadOne(d: Draft, part: string)
    ensures ReadParts(d, [part]) == ReadPart(d, part)
  {
    assert [part][1..] == [];
  }

  /** The printed values are clean. */
  lemma FrequencyPrints(frequency: Frequency)
    ensures CleanValue(PrintFrequency(frequency)) && ParseFrequency(PrintFrequency(frequency)) == Ok(frequency)
  {
  }

  lemma NumberPrints(n: nat)
    requires 0 < n < 0x1_0000_0000
    ensures CleanValue(PrintNat(n)) && PositiveInteger(PrintNat(n)) == Ok(n)
  {
    PrintedValue(n);
    assert Power10(5) == 100_000;
    assert Power10(10) == 10_000_000_000 by {
      assert Power10(8) == 100_000_000 by {
        assert Power10(7) == 10_000_000;
      }
    }
    PrintedLength(n, 10);
  }

  lemma DigitsAreClean(s: string)
    requires AllDigits(s) && s != "" && |s| <= 20
    ensures CleanValue(s)
  {
    assert forall c :: c in s ==> IsDigit(c);
  }

  lemma CleanAppend(a: string, b: string)
    requires CleanValue(a) && CleanValue(b) && |a + b| <= 20
    ensures CleanValue(a + b)
  {
  }

  lemma StampIsClean(date: string, clock: string)
    requires |date| == 8 && |clock| == 6 && AllDigits(date) && AllDigits(clock)
    ensures CleanValue(date + "T" + clock + "Z")
  {
    DigitsAreClean(date);
    DigitsAreClean(clock);
    CleanAppend(date, "T");
    CleanAppend(date + "T", clock);
    CleanAppend(date + "T" + clock, "Z");
  }

  lemma UntilIsClean(until: Until)
    requires UntilOk(until)
    ensures CleanValue(PrintUntil(until))
  {
    match until
    case UntilDate(date) => DigitsAreClean(PrintDate(date));
    case UntilInstant(seconds) =>
      var date := DateOfTime(Seconds(seconds));
      StampIsClean(PrintDate(date), PrintClock(seconds - 86_400 * date));
  }

  lemma CodesClean(days: seq<nat>, i: nat)
    requires WeekdayList(days) && i < |days|
    ensures days[i] < 7 && PlainText(DayCode(days[i])) && |DayCode(days[i])| == 2
    ensures ',' !in DayCode(days[i]) && ';' !in DayCode(days[i])
  {
    assert days[i] in days;
    DayCodeFacts(days[i]);
  }

  lemma BelowSeven(days: seq<nat>)
    requires WeekdayList(days)
    ensures forall i :: 0 <= i < |days| ==> days[i] < 7
  {
    forall i | 0 <= i < |days| ensures days[i] < 7 {
      CodesClean(days, i);
    }
  }

  lemma DaysParse(days: seq<nat>)
    requires days != [] && WeekdayList(days) && forall i :: 0 <= i < |days| ==> days[i] < 7
    ensures ParseDays(Split(Join(PrintDays(days), ','), ',')) == Ok(days)
  {
    var codes := PrintDays(days);
    forall i | 0 <= i < |codes| ensures ',' !in codes[i] {
      CodesClean(days, i);
    }
    SplitOfJoin(codes, ',');
    DaysRoundTrip(days);
  }

  lemma DaysPrint(days: seq<nat>)
    requires days != [] && WeekdayList(days)
    ensures forall i :: 0 <= i < |days| ==> days[i] < 7
    ensures CleanValue(Join(PrintDays(days), ','))
    ensures ParseDays(Split(Join(PrintDays(days), ','), ',')) == Ok(days)
  {
    BelowSeven(days);
    DaysParse(days);
    DaysClean(days);
  }

  lemma {:induction false} DaysClean(days: seq<nat>)
    requires days != [] && WeekdayList(days) && forall i :: 0 <= i < |days| ==> days[i] < 7
    ensures CleanValue(Join(PrintDays(days), ','))
  {
    var codes := PrintDays(days);
    forall i | 0 <= i < |codes| ensures PlainText(codes[i]) && |codes[i]| == 2 && ';' !in codes[i] {
      CodesClean(days, i);
    }
    JoinedPlain(codes, ',', 2);
    JoinedWithout(codes, ',', ';');
    AtMostSevenDays(days);
  }

  /** Joining clean pieces of one length. */
  lemma {:induction false} JoinedPlain(parts: seq<string>, sep: char, width: nat)
    requires parts != [] && Plain(sep)
    requires forall i :: 0 <= i < |parts| ==> PlainText(parts[i]) && |parts[i]| <= width && parts[i] != ""
    ensures PlainText(Join(parts, sep)) && |Join(parts, sep)| + 1 <= |parts| * (width + 1) && Join(parts, sep) != ""
  {
    if |parts| > 1 {
      JoinedPlain(parts[1..], sep, width);
    }
  }

  lemma JoinedWithout(parts: seq<string>, sep: char, c: char)
    requires c != sep && forall i :: 0 <= i < |parts| ==> c !in parts[i]
    ensures c !in Join(parts, sep)
  {
    if c in Join(parts, sep) {
      JoinChars(parts, sep, c);
    }
  }

  /** Seven weekdays at most: a sorted list below 7 grows by at least one per place. */
  lemma AtMostSevenDays(days: seq<nat>)
    requires WeekdayList(days)
    ensures |days| <= 7
  {
    SortedGrows(days);
    if |days| > 0 {
      assert days[|days| - 1] in days;
    }
  }

  lemma {:induction false} SortedGrows(days: seq<nat>)
    requires StrictlySorted(days)
    ensures |days| > 0 ==> |days| - 1 <= days[|days| - 1]
  {
    if |days| > 1 {
      SortedGrows(days[..|days| - 1]);
    }
  }

  // Reading each printed part sets its field and nothing else.

  function KeyIf(present: bool, key: string): set<string> {
    if present then {key} else {}
  }

  lemma ReadInterval(d: Draft, rule: Rule)
    requires RuleOk(rule) && d.interval == 1 && "INTERVAL" !in d.keys
    ensures ReadParts(d, IntervalParts(rule)) ==
      Ok(d.(interval := rule.interval, keys := d.keys + KeyIf(rule.interval != 1, "INTERVAL")))
  {
    assert d.keys + {} == d.keys;
    if rule.interval != 1 {
      NumberPrints(rule.interval);
      ReadPrinted(d, "INTERVAL", PrintNat(rule.interval));
      ReadOne(d, Part("INTERVAL", PrintNat(rule.interval)));
    }
  }

  lemma ReadDays(d: Draft, rule: Rule)
    requires RuleOk(rule) && d.byDay.None? && "BYDAY" !in d.keys
    ensures ReadParts(d, DayParts(rule)) ==
      Ok(d.(byDay := rule.byDay, keys := d.keys + KeyIf(rule.byDay.Some?, "BYDAY")))
  {
    assert d.keys + {} == d.keys;
    if rule.byDay.Some? {
      var days := rule.byDay.value;
      DaysPrint(days);
      SortedDaysFixed(days);
      ReadPrinted(d, "BYDAY", Join(PrintDays(days), ','));
      ReadOne(d, Part("BYDAY", Join(PrintDays(days), ',')));
    }
  }

  lemma ReadWeekStart(d: Draft, rule: Rule)
    requires RuleOk(rule) && d.weekStart == 0 && "WKST" !in d.keys
    ensures ReadParts(d, WeekStartParts(rule)) ==
      Ok(d.(weekStart := rule.weekStart, keys := d.keys + KeyIf(rule.weekStart != 0, "WKST")))
  {
    assert d.keys + {} == d.keys;
    if rule.weekStart != 0 {
      DayCodeFacts(rule.weekStart);
      ReadPrinted(d, "WKST", DayCode(rule.weekStart));
      ReadOne(d, Part("WKST", DayCode(rule.weekStart)));
    }
  }

  lemma ReadCount(d: Draft, rule: Rule)
    requires RuleOk(rule) && d.count.None? && "COUNT" !in d.keys
    ensures ReadParts(d, CountParts(rule)) ==
      Ok(d.(count := rule.count, keys := d.keys + KeyIf(rule.count.Some?, "COUNT")))
  {
    assert d.keys + {} == d.keys;
    if rule.count.Some? {
      NumberPrints(rule.count.value);
      ReadPrinted(d, "COUNT", PrintNat(rule.count.value));
      ReadOne(d, Part("COUNT", PrintNat(rule.count.value)));
    }
  }

  lemma ReadUntilText(d: Draft, value: string, until: Until)
    requires CleanValue(value) && ParseUntil(value) == Ok(until) && "UNTIL" !in d.keys
    ensures ReadParts(d, [Part("UNTIL", value)]) == Ok(d.(until := Some(until), keys := d.keys + {"UNTIL"}))
  {
    ReadPrinted(d, "UNTIL", value);
    ReadOne(d, Part("UNTIL", value));
  }

  lemma ReadUntil(d: Draft, rule: Rule)
    requires RuleOk(rule) && d.until.None? && "UNTIL" !in d.keys
    ensures ReadParts(d, UntilParts(rule)) ==
      Ok(d.(until := rule.until, keys := d.keys + KeyIf(rule.until.Some?, "UNTIL")))
  {
    if rule.until.Some? {
      UntilRoundTrip(rule.until.value);
      UntilIsClean(rule.until.value);
      ReadUntilText(d, PrintUntil(rule.until.value), rule.until.value);
    } else {
      assert d.keys + {} == d.keys;
    }
  }

  lemma ReadFrequency(rule: Rule)
    ensures ReadParts(EMPTY, [Part("FREQ", PrintFrequency(rule.frequency))]) ==
      Ok(EMPTY.(frequency := Some(rule.frequency), keys := {"FREQ"}))
  {
    assert EMPTY.keys + {"FREQ"} == {"FREQ"};
    FrequencyPrints(rule.frequency);
    ReadPrinted(EMPTY, "FREQ", PrintFrequency(rule.frequency));
    ReadOne(EMPTY, Part("FREQ", PrintFrequency(rule.frequency)));
  }

  // The draft after each group of printed parts.

  function Draft0(rule: Rule): Draft {
    EMPTY.(frequency := Some(rule.frequency), keys := {"FREQ"})
  }

  function Draft1(rule: Rule): Draft {
    Draft0(rule).(interval := rule.interval, keys := Draft0(rule).keys + KeyIf(rule.interval != 1, "INTERVAL"))
  }

  function Draft2(rule: Rule): Draft {
    Draft1(rule).(byDay := rule.byDay, keys := Draft1(rule).keys + KeyIf(rule.byDay.Some?, "BYDAY"))
  }

  function Draft3(rule: Rule): Draft {
    Draft2(rule).(weekStart := rule.weekStart, keys := Draft2(rule).keys + KeyIf(rule.weekStart != 0, "WKST"))
  }

  function Draft4(rule: Rule): Draft {
    Draft3(rule).(count := rule.count, keys := Draft3(rule).keys + KeyIf(rule.count.Some?, "COUNT"))
  }

  function Draft5(rule: Rule): Draft {
    Draft4(rule).(until := rule.until, keys := Draft4(rule).keys + KeyIf(rule.until.Some?, "UNTIL"))
  }

  lemma ToDraft2(rule: Rule)
    requires RuleOk(rule)
    ensures ReadParts(Draft0(rule), IntervalParts(rule)) == Ok(Draft1(rule))
    ensures ReadParts(Draft1(rule), DayParts(rule)) == Ok(Draft2(rule))
  {
    ReadInterval(Draft0(rule), rule);
    ReadDays(Draft1(rule), rule);
  }

  lemma ToDraft3(rule: Rule)
    requires RuleOk(rule)
    ensures ReadParts(Draft2(rule), WeekStartParts(rule)) == Ok(Draft3(rule))
  {
    ReadWeekStart(Draft2(rule), rule);
  }

  lemma ToDraft4(rule: Rule)
    requires RuleOk(rule)
    ensures ReadParts(Draft3(rule), CountParts(rule)) == Ok(Draft4(rule))
  {
    ReadCount(Draft3(rule), rule);
  }

  lemma ToDraft5(rule: Rule)
    requires RuleOk(rule)
    ensures ReadParts(Draft4(rule), UntilParts(rule)) == Ok(Draft5(rule))
  {
    ReadUntil(Draft4(rule), rule);
  }

  lemma FinishDraft5(rule: Rule)
    requires RuleOk(rule)
    ensures Finish(Draft5(rule)) == Ok(rule)
  {
  }

  /** Reading all printed parts restores every field. */
  lemma ReadPartsOf(rule: Rule)
    requires RuleOk(rule)
    ensures ReadParts(EMPTY, PartsOf(rule)).Ok? && Finish(ReadParts(EMPTY, PartsOf(rule)).value) == Ok(rule)
  {
    ReadFrequency(rule);
    ToDraft2(rule);
    ToDraft3(rule);
    ToDraft4(rule);
    ToDraft5(rule);
    ReadSix(EMPTY, [Part("FREQ", PrintFrequency(rule.frequency))], Draft0(rule), IntervalParts(rule), Draft1(rule),
            DayParts(rule), Draft2(rule), WeekStartParts(rule), Draft3(rule), CountParts(rule), Draft4(rule),
            UntilParts(rule), Draft5(rule));
    FinishDraft5(rule);
  }

  /** Six groups of parts, read one after the other. */
  lemma ReadSix(d: Draft, p0: seq<string>, d0: Draft, p1: seq<string>, d1: Draft, p2: seq<string>, d2: Draft,
                p3: seq<string>, d3: Draft, p4: seq<string>, d4: Draft, p5: seq<string>, d5: Draft)
    requires ReadParts(d, p0) == Ok(d0) && ReadParts(d0, p1) == Ok(d1) && ReadParts(d1, p2) == Ok(d2)
    requires ReadParts(d2, p3) == Ok(d3) && ReadParts(d3, p4) == Ok(d4) && ReadParts(d4, p5) == Ok(d5)
    ensures ReadParts(d, p0 + p1 + p2 + p3 + p4 + p5) == Ok(d5)
  {
    ReadAppend(d, p0, p1);
    ReadAppend(d, p0 + p1, p2);
    ReadAppend(d, p0 + p1 + p2, p3);
    ReadAppend(d, p0 + p1 + p2 + p3, p4);
    ReadAppend(d, p0 + p1 + p2 + p3 + p4, p5);
  }

  predicate CleanPart(part: string) {
    part != "" && PlainText(part) && ';' !in part && |part| <= 29
  }

  lemma PartIsClean(key: string, value: string)
    requires CleanKey(key) && CleanValue(value)
    ensures CleanPart(Part(key, value))
  {
  }

  predicate CleanParts(parts: seq<string>) {
    forall i :: 0 <= i < |parts| ==> CleanPart(parts[i])
  }

  lemma IntervalIsClean(rule: Rule)
    requires RuleOk(rule)
    ensures CleanParts(IntervalParts(rule))
  {
    if rule.interval != 1 {
      NumberPrints(rule.interval);
      PartIsClean("INTERVAL", PrintNat(rule.interval));
    }
  }

  lemma DaysAreClean(rule: Rule)
    requires RuleOk(rule)
    ensures CleanParts(DayParts(rule)) && CleanParts(WeekStartParts(rule))
  {
    if rule.byDay.Some? {
      DaysPrint(rule.byDay.value);
      PartIsClean("BYDAY", Join(PrintDays(rule.byDay.value), ','));
    }
    if rule.weekStart != 0 {
      DayCodeFacts(rule.weekStart);
      PartIsClean("WKST", DayCode(rule.weekStart));
    }
  }

  lemma BoundsAreClean(rule: Rule)
    requires RuleOk(rule)
    ensures CleanParts(CountParts(rule)) && CleanParts(UntilParts(rule))
  {
    if rule.count.Some? {
      NumberPrints(rule.count.value);
      PartIsClean("COUNT", PrintNat(rule.count.value));
    }
    if rule.until.Some? {
      UntilIsClean(rule.until.value);
      PartIsClean("UNTIL", PrintUntil(rule.until.value));
    }
  }

  lemma PartsAreClean(rule: Rule)
    requires RuleOk(rule)
    ensures CleanParts(PartsOf(rule)) && 1 <= |PartsOf(rule)| <= 6
    ensures PartsOf(rule)[0] == Part("FREQ", PrintFrequency(rule.frequency))
  {
    FrequencyPrints(rule.frequency);
    PartIsClean("FREQ", PrintFrequency(rule.frequency));
    IntervalIsClean(rule);
    DaysAreClean(rule);
    BoundsAreClean(rule);
  }

  lemma JoinStarts(parts: seq<string>, sep: char)
    requires parts != [] && parts[0] != ""
    ensures Join(parts, sep) != "" && Join(parts, sep)[0] == parts[0][0]
  {
  }

  /** The printed text passes the text checks and is its own body. */
  lemma SerializedIsBody(rule: Rule)
    requires RuleOk(rule)
    ensures AcceptableText(Serialize(rule)) && RuleBody(Serialize(rule)) == Serialize(rule)
  {
    PartsAreClean(rule);
    CleanIsBody(PartsOf(rule));
  }

  lemma PlainIsBody(text: string)
    requires PlainText(text) && text != "" && text[0] == 'F' && |text| <= MAX_LENGTH
    ensures AcceptableText(text) && RuleBody(text) == text
  {
    PlainIsTrimmed(text);
    assert "RRULE:"[0] == 'R';
  }

  lemma CleanIsBody(parts: seq<string>)
    requires CleanParts(parts) && 1 <= |parts| <= 6 && parts[0] != "" && parts[0][0] == 'F'
    ensures AcceptableText(Join(parts, ';')) && RuleBody(Join(parts, ';')) == Join(parts, ';')
  {
    JoinedClean(parts);
    JoinStarts(parts, ';');
    PlainIsBody(Join(parts, ';'));
  }

  lemma JoinedClean(parts: seq<string>)
    requires CleanParts(parts) && 1 <= |parts| <= 6
    ensures PlainText(Join(parts, ';')) && |Join(parts, ';')| <= MAX_LENGTH
  {
    JoinedPlain(parts, ';', 29);
  }

  /** Parsing undoes printing, for every rule the parser can return. */
  lemma RuleRoundTrip(rule: Rule)
    requires RuleOk(rule)
    ensures ParseRule(Serialize(rule)) == Ok(rule)
  {
    SerializedIsBody(rule);
    PartsAreClean(rule);
    SplitOfJoin(PartsOf(rule), ';');
    ReadPartsOf(rule);
  }

  // ------------------------------------------------------------ normalization

  /** Validate a rule against its event and print it in stable order. */
  function NormalizeRule(fields: Fields, input: string): Result<string> {
    var rule :- ParseRule(input);
    ParsedRuleOk(input);
    if New(fields, rule).Err? then Err else Ok(Serialize(rule))
  }

  /** Normalizing is idempotent, and the normalized text is the same rule, so it
      has the same schedule. */
  lemma NormalizeIsIdempotent(fields: Fields, input: string)
    requires NormalizeRule(fields, input).Ok?
    ensures var text := NormalizeRule(fields, input).value;
      && NormalizeRule(fields, text) == Ok(text)
      && ParseRule(text) == ParseRule(input)
  {
    ParsedRuleOk(input);
    RuleRoundTrip(ParseRule(input).value);
  }
}
