/** The spellings of a rule that mean the same: letters of either case, blanks around it,
    one `RRULE:` before it, and a dashed date under UNTIL. */
module RuleSpelling {
  import opened Basics
  import opened CivilCalendar
  import opened Rules
  import opened Text
  import opened Splitting
  import opened RuleText

  // ------------------------------------------------------------ dashed dates

  /** The date of a plain form, with dashes. */
  function Dashed(digits: string): string
    requires |digits| == 8
  {
    digits[..4] + "-" + digits[4..6] + "-" + digits[6..]
  }

  lemma DashedParts(y: string, m: string, d: string, dashed: string)
    requires |y| == 4 && |m| == 2 && |d| == 2 && dashed == y + "-" + m + "-" + d
    ensures |dashed| == 10 && dashed[4] == '-' && dashed[7] == '-' && dashed[..4] == y && dashed[5..7] == m && dashed[8..] == d
  {
  }

  /** A dashed date under UNTIL is the plain one. */
  lemma DashedIsPlain(digits: string)
    requires |digits| == 8
    ensures ParseUntil(Dashed(digits)) == ParseUntil(digits)
  {
    DashedParts(digits[..4], digits[4..6], digits[6..], Dashed(digits));
    assert digits[..4] + digits[4..6] + digits[6..] == digits;
  }

  // ------------------------------------------------------------ what the digits say

  /** A decimal numeral of two digits. */
  function Two(digits: string): nat
    requires |digits| == 2 && AllDigits(digits)
  {
    10 * DigitValue(digits[0]) + DigitValue(digits[1])
  }

  lemma TwoIsValue(digits: string)
    requires |digits| == 2 && AllDigits(digits)
    ensures DigitsValue(digits) == Two(digits)
  {
    assert digits[..1][..0] == "" && digits[..1] == [digits[0]];
    assert DigitsValue(digits[..1]) == DigitValue(digits[0]);
  }

  lemma FourIsValue(digits: string)
    requires |digits| == 4 && AllDigits(digits)
    ensures DigitsValue(digits) == 100 * Two(digits[..2]) + Two(digits[2..])
  {
    assert digits[..3][..2] == digits[..2] && digits[..3][2] == digits[2];
    TwoIsValue(digits[..2]);
    assert DigitsValue(digits[..3]) == 10 * DigitsValue(digits[..2]) + DigitValue(digits[2]);
  }

  lemma DayOf(month: Month, day: nat)
    requires day < DaysIn(month)
    ensures MonthOf(MonthStart(month) + day) == month
  {
    MonthOfUnique(MonthStart(month) + day, month);
  }

  /** Eight digits are a date exactly when they are its year, its month and its day of the
      month, in this order. */
  lemma DateMeans(digits: string, date: nat)
    requires |digits| == 8 && AllDigits(digits) && InRange(date)
    ensures ParseDate(digits) == Ok(date) <==>
      && 100 * Two(digits[..2]) + Two(digits[2..4]) == MonthOf(date) / 12
      && Two(digits[4..6]) == MonthOf(date) % 12 + 1
      && Two(digits[6..]) == date - MonthStart(MonthOf(date)) + 1
  {
    var year, month, day := DigitsValue(digits[..4]), DigitsValue(digits[4..6]), DigitsValue(digits[6..]);
    assert digits[..4][..2] == digits[..2] && digits[..4][2..] == digits[2..4];
    FourIsValue(digits[..4]);
    TwoIsValue(digits[4..6]);
    TwoIsValue(digits[6..]);
    CivilMeans(year, month, day, date);
  }

  lemma CivilMeans(year: nat, month: nat, day: nat, date: nat)
    requires InRange(date)
    ensures CivilDate(year, month, day) == Ok(date) <==>
      year == MonthOf(date) / 12 && month == MonthOf(date) % 12 + 1 && day == date - MonthStart(MonthOf(date)) + 1
  {
    if CivilDate(year, month, day) == Ok(date) {
      CivilSays(year, month, day, date);
    }
    YearInRange(date, 10_000);
    MonthParts(MonthOf(date));
    CivilRoundTrip(MonthOf(date) / 12, MonthOf(date) % 12, date - MonthStart(MonthOf(date)));
  }

  lemma CivilSays(year: nat, month: nat, day: nat, date: nat)
    requires CivilDate(year, month, day) == Ok(date)
    ensures year == MonthOf(date) / 12 && month == MonthOf(date) % 12 + 1 && day == date - MonthStart(MonthOf(date)) + 1
  {
    DayOf(12 * year + month - 1, day - 1);
    MonthParts(12 * year + month - 1);
  }

  /** Six digits are a time of day exactly when they are its hours, minutes and seconds. */
  lemma ClockMeans(digits: string, seconds: nat)
    requires |digits| == 6 && AllDigits(digits) && seconds < 86_400
    ensures ParseClock(digits) == Ok(seconds) <==>
      && Two(digits[..2]) == seconds / 3600 && Two(digits[2..4]) == seconds / 60 % 60 && Two(digits[4..]) == seconds % 60
  {
    TwoIsValue(digits[..2]);
    TwoIsValue(digits[2..4]);
    TwoIsValue(digits[4..]);
    ClockParts(seconds);
  }

  // ------------------------------------------------------------ trimming

  lemma {:induction false} TrimStartOver(lead: string, s: string)
    requires Blank(lead)
    ensures TrimStart(lead + s) == TrimStart(s)
  {
    if lead == "" {
      assert lead + s == s;
    } else {
      assert lead[0] in lead && (lead + s)[1..] == lead[1..] + s;
      TrimStartOver(lead[1..], s);
    }
  }

  lemma {:induction false} TrimEndOver(s: string, tail: string)
    requires Blank(tail)
    ensures TrimEnd(s + tail) == TrimEnd(s)
    decreases |tail|
  {
    if tail == "" {
      assert s + tail == s;
    } else {
      var n := |tail| - 1;
      assert tail[n] in tail && (s + tail)[..|s| + n] == s + tail[..n];
      TrimEndOver(s, tail[..n]);
    }
  }

  /** Text that ends in no blank is kept before anything that is trimmed. */
  lemma {:induction false} TrimEndKept(a: string, s: string)
    requires a != "" && !IsWhite(a[|a| - 1])
    ensures TrimEnd(a + s) == a + TrimEnd(s)
    decreases |s|
  {
    if s == "" {
      assert a + s == a && a + TrimEnd(s) == a;
    } else if IsWhite(s[|s| - 1]) {
      assert (a + s)[..|a| + |s| - 1] == a + s[..|s| - 1];
      TrimEndKept(a, s[..|s| - 1]);
    }
  }

  /** The blanks that are trimmed from the start. */
  lemma {:induction false} TrimStartParts(s: string) returns (lead: string)
    ensures Blank(lead) && s == lead + TrimStart(s) && (TrimStart(s) != "" ==> !IsWhite(TrimStart(s)[0]))
  {
    lead := "";
    if s != "" && IsWhite(s[0]) {
      var rest := TrimStartParts(s[1..]);
      lead := [s[0]] + rest;
    }
  }

  lemma TrimEndAfter(lead: string, t: string)
    requires t != "" && !IsWhite(t[0])
    ensures TrimEnd(lead + t) == lead + TrimEnd(t)
  {
    var first, rest := [t[0]], t[1..];
    Rejoined(lead, first, rest, t);
    TrimEndKept(lead + first, rest);
    TrimEndKept(first, rest);
    Rejoined(lead, first, TrimEnd(rest), first + TrimEnd(rest));
  }

  lemma Rejoined(a: string, b: string, c: string, bc: string)
    requires bc == b + c
    ensures a + bc == a + b + c
  {
  }

  /** Trimming the end alone leaves blanks before what is trimmed on both sides. */
  lemma TrimmedParts(s: string) returns (lead: string)
    ensures Blank(lead) && TrimEnd(s) == lead + Trim(s)
  {
    lead := TrimStartParts(s);
    var t := TrimStart(s);
    if t == "" {
      TrimEndOver("", s);
      assert "" + s == s;
      lead := "";
    } else {
      TrimEndAfter(lead, t);
    }
  }

  lemma TrimBetween(lead: string, s: string, tail: string)
    requires Blank(lead) && Blank(tail)
    ensures Trim(lead + s + tail) == Trim(s)
  {
    assert lead + s + tail == lead + (s + tail);
    TrimStartOver(lead, s + tail);
    var own := TrimStartParts(s);
    var t := TrimStart(s);
    if t == "" {
      assert s == own;
      TrimStartOver(s, tail);
      TrimStartOver(tail, "");
      assert tail + "" == tail;
    } else {
      assert s + tail == own + (t + tail);
      TrimStartOver(own, t + tail);
      assert TrimStart(t + tail) == t + tail;
      TrimEndOver(t, tail);
    }
  }

  lemma UpperIsWhite(c: char)
    ensures IsWhite(Upper(c)) == IsWhite(c)
  {
  }

  lemma {:induction false} UpperTrimStart(s: string)
    ensures TrimStart(UpperText(s)) == UpperText(TrimStart(s))
  {
    if s != "" {
      UpperIsWhite(s[0]);
      UpperTrimStart(s[1..]);
      assert UpperText(s)[1..] == UpperText(s[1..]);
    }
  }

  lemma {:induction false} UpperTrimEnd(s: string)
    ensures TrimEnd(UpperText(s)) == UpperText(TrimEnd(s))
    decreases |s|
  {
    if s != "" {
      var n := |s| - 1;
      UpperIsWhite(s[n]);
      UpperTrimEnd(s[..n]);
      assert UpperText(s)[..n] == UpperText(s[..n]);
    }
  }

  lemma UpperTrim(s: string)
    ensures Trim(UpperText(s)) == UpperText(Trim(s))
  {
    UpperTrimStart(s);
    UpperTrimEnd(TrimStart(s));
  }

  // ------------------------------------------------------------ case and blanks

  /** Case does not matter. */
  lemma CaseIsIgnored(a: string, b: string)
    requires AcceptableText(a) && AcceptableText(b) && UpperText(a) == UpperText(b)
    ensures ParseRule(a) == ParseRule(b)
  {
    UpperTrim(a);
    UpperTrim(b);
  }

  /** Blanks around a rule do not matter. */
  lemma BlanksAreIgnored(lead: string, s: string, tail: string)
    requires Blank(lead) && Blank(tail) && AcceptableText(lead + s + tail) && AcceptableText(s)
    ensures ParseRule(lead + s + tail) == ParseRule(s)
  {
    TrimBetween(lead, s, tail);
  }

  // ------------------------------------------------------------ the prefix

  lemma {:induction false} SplitOver(lead: string, s: string, sep: char)
    requires sep !in lead
    ensures Split(lead + s, sep) == [lead + Split(s, sep)[0]] + Split(s, sep)[1..]
  {
    if lead == "" {
      assert lead + s == s && lead + Split(s, sep)[0] == Split(s, sep)[0];
    } else {
      assert (lead + s)[1..] == lead[1..] + s;
      SplitOver(lead[1..], s, sep);
      assert [lead[0]] + (lead[1..] + Split(s, sep)[0]) == lead + Split(s, sep)[0];
    }
  }

  lemma {:induction false} SplitOnceOver(lead: string, s: string, sep: char)
    requires sep !in lead
    ensures SplitOnce(s, sep).None? ==> SplitOnce(lead + s, sep).None?
    ensures SplitOnce(s, sep).Some? ==>
      SplitOnce(lead + s, sep) == Some((lead + SplitOnce(s, sep).value.0, SplitOnce(s, sep).value.1))
  {
    if lead == "" {
      assert lead + s == s;
      if SplitOnce(s, sep).Some? {
        assert lead + SplitOnce(s, sep).value.0 == SplitOnce(s, sep).value.0;
      }
    } else {
      assert (lead + s)[1..] == lead[1..] + s;
      SplitOnceOver(lead[1..], s, sep);
      if SplitOnce(s, sep).Some? {
        assert [lead[0]] + (lead[1..] + SplitOnce(s, sep).value.0) == lead + SplitOnce(s, sep).value.0;
      }
    }
  }

  lemma BlankHolds(lead: string)
    requires Blank(lead)
    ensures ';' !in lead && '=' !in lead && Blank(UpperText(lead))
  {
    forall c | c in UpperText(lead) ensures IsWhite(c) {
      var i :| 0 <= i < |lead| && UpperText(lead)[i] == c;
      UpperIsWhite(lead[i]);
      assert lead[i] in lead;
    }
  }

  /** Blanks before a part do not matter. */
  lemma ReadPartOver(d: Draft, lead: string, part: string)
    requires Blank(lead) && '=' !in lead
    ensures ReadPart(d, lead + part) == ReadPart(d, part)
  {
    SplitOnceOver(lead, part, '=');
    if SplitOnce(part, '=').Some? {
      TrimStartOver(lead, SplitOnce(part, '=').value.0);
    }
  }

  lemma ReadPartsOver(d: Draft, lead: string, body: string)
    requires Blank(lead) && '=' !in lead && ';' !in lead
    ensures ReadParts(d, Split(lead + body, ';')) == ReadParts(d, Split(body, ';'))
  {
    var parts, over := Split(body, ';'), Split(lead + body, ';');
    SplitOver(lead, body, ';');
    assert over[0] == lead + parts[0] && over[1..] == parts[1..];
    ReadPartOver(d, lead, parts[0]);
  }

  function Prefix(): string {
    "RRULE:"
  }

  /** The text of a rule, in capitals and trimmed. */
  function TextOf(s: string): string {
    UpperText(Trim(s))
  }

  lemma UpperAppend(a: string, b: string)
    ensures UpperText(a + b) == UpperText(a) + UpperText(b)
  {
  }

  lemma PrefixTrim(s: string)
    ensures Trim(Prefix() + s) == Prefix() + TrimEnd(s)
  {
    assert TrimStart(Prefix() + s) == Prefix() + s;
    TrimEndKept(Prefix(), s);
  }

  lemma PrefixUpper(t: string)
    ensures UpperText(Prefix() + t) == Prefix() + UpperText(t)
  {
    UpperAppend(Prefix(), t);
    assert UpperText(Prefix()) == Prefix();
  }

  lemma BodyAfterPrefix(all: string, rest: string)
    requires UpperText(Trim(all)) == Prefix() + rest
    ensures RuleBody(all) == rest
  {
    assert (Prefix() + rest)[..6] == Prefix() && (Prefix() + rest)[6..] == rest;
  }

  /** With the prefix before it, the body of a rule is its text, after some blanks. */
  lemma PrefixedBody(s: string) returns (lead: string)
    ensures Blank(lead) && RuleBody(Prefix() + s) == lead + TextOf(s)
  {
    var own := TrimmedParts(s);
    PrefixTrim(s);
    PrefixUpper(TrimEnd(s));
    BodyAfterPrefix(Prefix() + s, UpperText(TrimEnd(s)));
    UpperAppend(own, Trim(s));
    BlankHolds(own);
    lead := UpperText(own);
  }

  /** One prefix does not matter. */
  lemma PrefixIsIgnored(s: string)
    requires AcceptableText(Prefix() + s) && !(Prefix() <= TextOf(s))
    ensures ParseRule(Prefix() + s) == ParseRule(s)
  {
    var lead := PrefixedBody(s);
    assert forall i :: 0 <= i < |s| ==> s[i] == (Prefix() + s)[|Prefix()| + i];
    assert AcceptableText(s);
    BlankHolds(lead);
    ReadPartsOver(EMPTY, lead, TextOf(s));
  }

  lemma KeyWithPrefix(d: Draft, key: string, value: string)
    requires Prefix() <= key
    ensures ReadValue(d, key, value).Err?
  {
    assert key[0] == 'R';
  }

  lemma PartWithPrefix(d: Draft, rest: string)
    ensures ReadPart(d, Prefix() + rest).Err?
  {
    SplitOnceOver(Prefix(), rest, '=');
    if SplitOnce(rest, '=').Some? {
      var (key, value) := SplitOnce(rest, '=').value;
      assert TrimStart(Prefix() + key) == Prefix() + key;
      TrimEndKept(Prefix(), key);
      KeyWithPrefix(d.(keys := d.keys + {Trim(Prefix() + key)}), Trim(Prefix() + key), Trim(value));
    }
  }

  /** A second prefix is refused. */
  lemma SecondPrefixIsRefused(s: string)
    requires Prefix() <= TextOf(s)
    ensures ParseRule(Prefix() + s).Err?
  {
    var lead := PrefixedBody(s);
    var rest := TextOf(s)[6..];
    assert TextOf(s) == Prefix() + rest;
    BlankHolds(lead);
    ReadPartsOver(EMPTY, lead, TextOf(s));
    SplitOver(Prefix(), rest, ';');
    PartWithPrefix(EMPTY, Split(rest, ';')[0]);
  }

  // ------------------------------------------------------------ all spellings of a rule

  lemma PartOfAcceptable(a: string, s: string, b: string)
    requires AcceptableText(a + s + b)
    ensures AcceptableText(s)
  {
    assert forall i :: 0 <= i < |s| ==> s[i] == (a + s + b)[|a| + i];
  }

  lemma UpperIsAcceptable(s: string)
    requires AcceptableText(s)
    ensures AcceptableText(UpperText(s)) && UpperText(UpperText(s)) == UpperText(s)
  {
  }

  lemma PrintedHasNoPrefix(rule: Rule)
    requires RuleOk(rule)
    ensures !(Prefix() <= TextOf(Serialize(rule)))
  {
    SerializedIsBody(rule);
    var text := Serialize(rule);
    TrimIsShorter(text);
  }

  lemma TrimIsShorter(s: string)
    ensures |Trim(s)| <= |s|
  {
    var lead := TrimStartParts(s);
    TrimEndIsShorter(TrimStart(s));
  }

  lemma {:induction false} TrimEndIsShorter(s: string)
    ensures |TrimEnd(s)| <= |s|
    decreases |s|
  {
    if s != "" {
      TrimEndIsShorter(s[..|s| - 1]);
    }
  }

  /** However a rule is spelled, with letters of either case, blanks around it and one
      prefix or none, it is parsed as that rule. */
  lemma EverySpelling(rule: Rule, lead: string, text: string, tail: string)
    requires RuleOk(rule) && Blank(lead) && Blank(tail) && AcceptableText(lead + text + tail)
    requires UpperText(text) == Serialize(rule) || UpperText(text) == Prefix() + Serialize(rule)
    ensures ParseRule(lead + text + tail) == Ok(rule)
  {
    PartOfAcceptable(lead, text, tail);
    BlanksAreIgnored(lead, text, tail);
    UpperIsAcceptable(text);
    CaseIsIgnored(text, UpperText(text));
    RuleRoundTrip(rule);
    if UpperText(text) != Serialize(rule) {
      PrintedHasNoPrefix(rule);
      PrefixIsIgnored(Serialize(rule));
    }
  }

  // ------------------------------------------------------------ the parts of a rule

  function KeyOf(part: string): Option<string> {
    match SplitOnce(part, '=')
    case None => None
    case Some((key, _)) => Some(Trim(key))
  }

  predicate KnownKey(key: string) {
    key == "FREQ" || key == "INTERVAL" || key == "BYDAY" || key == "WKST" || key == "COUNT" || key == "UNTIL"
  }

  /** Every part has a known key of its own and a value. */
  predicate PartsDistinct(parts: seq<string>) {
    && (forall i :: 0 <= i < |parts| ==>
          && KeyOf(parts[i]).Some? && KnownKey(KeyOf(parts[i]).value) && Trim(SplitOnce(parts[i], '=').value.1) != "")
    && (forall i, j :: 0 <= i < j < |parts| ==> KeyOf(parts[i]) != KeyOf(parts[j]))
  }

  predicate HasKey(parts: seq<string>, key: string) {
    parts != [] && (KeyOf(parts[0]) == Some(key) || HasKey(parts[1..], key))
  }

  lemma ReadPartKeys(d: Draft, part: string)
    requires ReadPart(d, part).Ok?
    ensures KeyOf(part).Some? && KnownKey(KeyOf(part).value) && Trim(SplitOnce(part, '=').value.1) != ""
    ensures KeyOf(part).value !in d.keys && ReadPart(d, part).value.keys == d.keys + {KeyOf(part).value}
  {
  }

  lemma ReadPartFrequency(d: Draft, part: string)
    requires ReadPart(d, part).Ok?
    ensures ReadPart(d, part).value.frequency.Some? <==> d.frequency.Some? || KeyOf(part) == Some("FREQ")
  {
  }

  lemma DistinctCons(parts: seq<string>, keys: set<string>)
    requires parts != [] && KeyOf(parts[0]).Some? && KnownKey(KeyOf(parts[0]).value) && Trim(SplitOnce(parts[0], '=').value.1) != ""
    requires PartsDistinct(parts[1..]) && KeyOf(parts[0]).value !in keys
    requires forall part :: part in parts[1..] ==> KeyOf(part).Some? && KeyOf(part).value !in keys + {KeyOf(parts[0]).value}
    ensures PartsDistinct(parts) && forall part :: part in parts ==> KeyOf(part).Some? && KeyOf(part).value !in keys
  {
    var rest := parts[1..];
    assert forall i :: 1 <= i < |parts| ==> parts[i] == rest[i - 1] && parts[i] in rest;
  }

  lemma {:induction false} ReadPartsKeys(d: Draft, parts: seq<string>)
    requires ReadParts(d, parts).Ok?
    ensures PartsDistinct(parts) && forall part :: part in parts ==> KeyOf(part).Some? && KeyOf(part).value !in d.keys
    decreases |parts|
  {
    if parts != [] {
      ReadPartKeys(d, parts[0]);
      ReadPartsKeys(ReadPart(d, parts[0]).value, parts[1..]);
      DistinctCons(parts, d.keys);
    }
  }

  lemma {:induction false} ReadPartsFrequency(d: Draft, parts: seq<string>)
    requires ReadParts(d, parts).Ok?
    ensures ReadParts(d, parts).value.frequency.Some? <==> d.frequency.Some? || HasKey(parts, "FREQ")
    decreases |parts|
  {
    if parts != [] {
      ReadPartFrequency(d, parts[0]);
      ReadPartsFrequency(ReadPart(d, parts[0]).value, parts[1..]);
    }
  }

  /** A text that is accepted is made of parts with known keys, each with a value and none
      repeated, of which one is FREQ. */
  lemma AcceptedParts(input: string)
    requires ParseRule(input).Ok?
    ensures var parts := Split(RuleBody(input), ';');
      PartsDistinct(parts) && HasKey(parts, "FREQ")
  {
    ReadPartsKeys(EMPTY, Split(RuleBody(input), ';'));
    ReadPartsFrequency(EMPTY, Split(RuleBody(input), ';'));
  }

  /** A value under a new key. */
  function Under(d: Result<Draft>, key: string, value: string): Result<Draft> {
    match d
    case Err => Err
    case Ok(e) => ReadValue(e.(keys := e.keys + {key}), key, value)
  }

  lemma ValuesCommute(d: Draft, k: string, v: string, l: string, w: string)
    requires k != l
    ensures Under(Under(Ok(d), k, v), l, w) == Under(Under(Ok(d), l, w), k, v)
  {
    assert d.keys + {k} + {l} == d.keys + {l} + {k};
  }

  lemma UnderKeys(d: Draft, k: string, v: string)
    requires Under(Ok(d), k, v).Ok?
    ensures Under(Ok(d), k, v).value.keys == d.keys + {k}
  {
  }

  predicate Usable(d: Draft, part: string) {
    KeyOf(part).Some? && Trim(SplitOnce(part, '=').value.1) != "" && KeyOf(part).value !in d.keys
  }

  function ValueOf(part: string): string
    requires KeyOf(part).Some?
  {
    Trim(SplitOnce(part, '=').value.1)
  }

  lemma PartIsValue(d: Draft, part: string)
    ensures ReadPart(d, part) == if Usable(d, part) then Under(Ok(d), KeyOf(part).value, ValueOf(part)) else Err
  {
  }

  lemma ThenPart(d: Draft, p: string, q: string)
    requires Usable(d, p) && ReadPart(d, p).Ok?
    ensures ReadPart(ReadPart(d, p).value, q) ==
      if !Usable(d, q) || KeyOf(p) == KeyOf(q) then Err else Under(ReadPart(d, p), KeyOf(q).value, ValueOf(q))
  {
    PartIsValue(d, p);
    UnderKeys(d, KeyOf(p).value, ValueOf(p));
    PartIsValue(ReadPart(d, p).value, q);
  }

  function Then(r: Result<Draft>, part: string): Result<Draft> {
    match r
    case Err => Err
    case Ok(d) => ReadPart(d, part)
  }

  lemma TwoParts(d: Draft, p: string, q: string)
    ensures ReadParts(d, [p, q]) == Then(ReadPart(d, p), q)
  {
    assert [p, q][1..] == [q] && [q][1..] == [];
    if ReadPart(d, p).Ok? {
      var e := ReadPart(d, p).value;
      assert ReadParts(e, [q]) == if ReadPart(e, q).Err? then Err else ReadParts(ReadPart(e, q).value, []);
    }
  }

  lemma ThenIs(d: Draft, p: string, q: string)
    ensures Then(ReadPart(d, p), q) ==
      if !Usable(d, p) || !Usable(d, q) || KeyOf(p) == KeyOf(q) then Err
      else Under(Under(Ok(d), KeyOf(p).value, ValueOf(p)), KeyOf(q).value, ValueOf(q))
  {
    PartIsValue(d, p);
    if ReadPart(d, p).Ok? {
      ThenPart(d, p, q);
    }
  }

  /** Two parts in either order. */
  lemma PartsCommute(d: Draft, p: string, q: string)
    ensures Then(ReadPart(d, p), q) == Then(ReadPart(d, q), p)
  {
    ThenIs(d, p, q);
    ThenIs(d, q, p);
    if KeyOf(p).Some? && KeyOf(q).Some? && KeyOf(p) != KeyOf(q) {
      ValuesCommute(d, KeyOf(p).value, ValueOf(p), KeyOf(q).value, ValueOf(q));
    }
  }

  lemma {:induction false} NeighboursCommute(d: Draft, before: seq<string>, p: string, q: string, after: seq<string>)
    ensures ReadParts(d, before + [p, q] + after) == ReadParts(d, before + [q, p] + after)
    decreases |before|
  {
    if before == [] {
      FirstTwo(d, p, q, after);
      FirstTwo(d, q, p, after);
      PartsCommute(d, p, q);
      assert before + [p, q] + after == [p, q] + after && before + [q, p] + after == [q, p] + after;
    } else {
      ReadBehind(d, before, [p, q], after);
      ReadBehind(d, before, [q, p], after);
      if ReadPart(d, before[0]).Ok? {
        NeighboursCommute(ReadPart(d, before[0]).value, before[1..], p, q, after);
      }
    }
  }

  /** The order of the parts does not matter: exchanging any two neighbours changes nothing. */
  lemma OrderIsIgnored(a: string, b: string, before: seq<string>, p: string, q: string, after: seq<string>)
    requires AcceptableText(a) && AcceptableText(b)
    requires Split(RuleBody(a), ';') == before + [p, q] + after && Split(RuleBody(b), ';') == before + [q, p] + after
    ensures ParseRule(a) == ParseRule(b)
  {
    NeighboursCommute(EMPTY, before, p, q, after);
  }

  lemma FirstTwo(d: Draft, p: string, q: string, after: seq<string>)
    ensures ReadParts(d, [p, q] + after) ==
      if Then(ReadPart(d, p), q).Err? then Err else ReadParts(Then(ReadPart(d, p), q).value, after)
  {
    TwoParts(d, p, q);
    ReadThrough(d, [p, q], after);
  }

  lemma ReadBehind(d: Draft, before: seq<string>, mid: seq<string>, after: seq<string>)
    requires before != []
    ensures ReadParts(d, before + mid + after) ==
      if ReadPart(d, before[0]).Err? then Err else ReadParts(ReadPart(d, before[0]).value, before[1..] + mid + after)
  {
    Behind(before, mid, after);
  }

  lemma Behind(before: seq<string>, mid: seq<string>, after: seq<string>)
    requires before != []
    ensures (before + mid + after)[0] == before[0] && (before + mid + after)[1..] == before[1..] + mid + after
  {
  }

  lemma {:induction false} ReadThrough(d: Draft, a: seq<string>, b: seq<string>)
    ensures ReadParts(d, a + b) == if ReadParts(d, a).Err? then Err else ReadParts(ReadParts(d, a).value, b)
    decreases |a|
  {
    if a == [] {
      assert a + b == b;
    } else {
      assert (a + b)[1..] == a[1..] + b;
      if ReadPart(d, a[0]).Ok? {
        ReadThrough(ReadPart(d, a[0]).value, a[1..], b);
      }
    }
  }
}
