/** The properties of a VEVENT that an occurrence edit looks at: how a line names
    one, which of them a patch rewrites, and the lines that replace them. */
module ICalProperties {
  import opened Basics
  import opened Text
  import opened Splitting
  import opened ICalText
  import opened ICalEvents

  datatype Property = Uid | RecurrenceId | DtStart | DtEnd | Duration | Summary | Description | Location

  function NameOf(p: Property): string {
    match p
    case Uid => "UID"
    case RecurrenceId => "RECURRENCE-ID"
    case DtStart => "DTSTART"
    case DtEnd => "DTEND"
    case Duration => "DURATION"
    case Summary => "SUMMARY"
    case Description => "DESCRIPTION"
    case Location => "LOCATION"
  }

  function Known(name: string): (r: Option<Property>)
    ensures r.Some? ==> UpperText(name) == NameOf(r.value)
  {
    var u := UpperText(name);
    if u == "UID" then Some(Uid)
    else if u == "RECURRENCE-ID" then Some(RecurrenceId)
    else if u == "DTSTART" then Some(DtStart)
    else if u == "DTEND" then Some(DtEnd)
    else if u == "DURATION" then Some(Duration)
    else if u == "SUMMARY" then Some(Summary)
    else if u == "DESCRIPTION" then Some(Description)
    else if u == "LOCATION" then Some(Location)
    else None
  }

  /** The property that a line names, as it stands. */
  function PropertyOf(line: string): Option<Property> {
    match PropertyName(line)
    case None => None
    case Some(name) => Known(name)
  }

  /** The value of a UID line. */
  function UidIn(line: string): Option<string> {
    if PropertyOf(line) != Some(Uid) then None
    else
      match SplitOnce(line, ':')
      case None => None
      case Some((_, value)) => Some(value)
  }

  /** All that the rewriting reads of a line: its marker, the property it names as it
      stands, the property it names once trimmed, and its UID value. */
  datatype Traits = Traits(marker: Marker, named: Option<Property>, counted: Option<Property>, uid: Option<string>)

  function TraitsOf(line: string): Traits {
    Traits(MarkerOf(line), PropertyOf(line), PropertyOf(Trim(line)), UidIn(line))
  }

  /** A line that names a property is no marker, and trimming does not change the name. */
  predicate TraitsOk(t: Traits) {
    && (t.named.Some? ==> t.marker == Plain && t.counted == t.named)
    && (t.uid.Some? ==> t.named == Some(Uid))
  }

  // ------------------------------------------------------------ names and trimming

  predicate IsDelimiter(c: char) {
    c == ';' || c == ':'
  }

  lemma {:induction false} PropertyNamePrefix(line: string)
    requires PropertyName(line).Some?
    ensures var name := PropertyName(line).value;
      && |name| < |line| && line[..|name|] == name && IsDelimiter(line[|name|])
      && forall i :: 0 <= i < |name| ==> !IsDelimiter(name[i])
  {
    if !IsDelimiter(line[0]) {
      PropertyNamePrefix(line[1..]);
      var name, inner := PropertyName(line).value, PropertyName(line[1..]).value;
      assert name == [line[0]] + inner;
      assert line[..|name|] == [line[0]] + line[1..][..|inner|];
    }
  }

  lemma {:induction false} PropertyNameAt(line: string, k: nat)
    requires k < |line| && IsDelimiter(line[k]) && forall i :: 0 <= i < k ==> !IsDelimiter(line[i])
    ensures PropertyName(line) == Some(line[..k])
  {
    if k > 0 {
      PropertyNameAt(line[1..], k - 1);
      assert line[..k] == [line[0]] + line[1..][..k - 1];
    }
  }

  lemma {:induction false} TrimEndKeeps(s: string, k: nat)
    requires k < |s| && !IsWhite(s[k])
    ensures k < |TrimEnd(s)| <= |s| && TrimEnd(s) == s[..|TrimEnd(s)|]
    decreases |s|
  {
    if IsWhite(s[|s| - 1]) {
      TrimEndKeeps(s[..|s| - 1], k);
    }
  }

  /** A text whose name starts with a letter keeps its name when trimmed. */
  lemma TrimKeepsName(line: string)
    requires PropertyName(line).Some? && PropertyName(line).value != "" && !IsWhite(line[0])
    ensures PropertyName(Trim(line)) == PropertyName(line) && Trim(line) != "" && Trim(line)[0] == line[0]
  {
    var name := PropertyName(line).value;
    PropertyNamePrefix(line);
    assert TrimStart(line) == line;
    TrimEndKeeps(line, |name|);
    var t := TrimEnd(line);
    assert forall i :: 0 <= i < |name| ==> t[i] == name[i];
    PropertyNameAt(t, |name|);
    assert t[..|name|] == name;
  }

  lemma {:induction false} SplitOncePrefix(s: string, sep: char)
    requires SplitOnce(s, sep).Some?
    ensures var (a, b) := SplitOnce(s, sep).value; s == a + [sep] + b
  {
    if s[0] != sep {
      SplitOncePrefix(s[1..], sep);
    }
  }

  lemma SameNameFirst(a: string, b: string)
    requires SameName(a, b) && b != ""
    ensures a != "" && Upper(a[0]) == Upper(b[0])
  {
    assert UpperText(a)[0] == UpperText(b)[0];
  }

  /** A line is no marker when it begins with a letter that no marker begins with. */
  lemma NotMarker(line: string, marker: string)
    requires line != "" && marker != "" && Upper(line[0]) != Upper(marker[0])
    ensures ComponentMarker(line, marker).None?
  {
    if SplitOnce(line, ':').Some? {
      SplitOncePrefix(line, ':');
      var prefix := SplitOnce(line, ':').value.0;
      if SameName(prefix, marker) {
        SameNameFirst(prefix, marker);
        assert false;
      }
    }
  }

  lemma FirstLetter(p: Property)
    ensures NameOf(p) != "" && 'D' <= NameOf(p)[0] <= 'U' && NameOf(p)[0] != 'E' && Upper(NameOf(p)[0]) == NameOf(p)[0]
  {
  }

  /** A line that names a property begins with the letter that the property's name does. */
  lemma NamedBegins(line: string)
    requires PropertyOf(line).Some?
    ensures line != "" && PropertyName(line).value != "" && Upper(line[0]) == NameOf(PropertyOf(line).value)[0]
  {
    var name, p := PropertyName(line).value, PropertyOf(line).value;
    PropertyNamePrefix(line);
    FirstLetter(p);
    assert UpperText(name)[0] == NameOf(p)[0];
    assert line[..|name|][0] == line[0];
  }

  lemma LetterIsNotWhite(c: char)
    requires 'D' <= Upper(c) <= 'U'
    ensures !IsWhite(c)
  {
  }

  /** Every line's traits are consistent. */
  lemma TraitsAreOk(line: string)
    ensures TraitsOk(TraitsOf(line))
  {
    if PropertyOf(line).Some? {
      NamedBegins(line);
      FirstLetter(PropertyOf(line).value);
      LetterIsNotWhite(line[0]);
      TrimKeepsName(line);
      NotMarker(Trim(line), "BEGIN");
      NotMarker(Trim(line), "END");
    }
  }

  /** White space before a property line hides its name as it stands, but not once it
      is trimmed. */
  lemma LeadingWhiteHides(w: char, line: string)
    requires IsWhite(w) && PropertyOf(line).Some?
    ensures TraitsOf([w] + line) == Traits(Plain, None, PropertyOf(line), None)
  {
    var t := [w] + line;
    assert t[1..] == line;
    TraitsAreOk(line);
    assert TrimStart(t) == TrimStart(line);
    if PropertyOf(t).Some? {
      NamedBegins(t);
      FirstLetter(PropertyOf(t).value);
      LetterIsNotWhite(w);
      assert false;
    }
  }

  // ------------------------------------------------------------ the patch

  /** Which fields the patch sets. */
  datatype Patch = Patch(title: bool, description: bool, location: bool, times: bool)

  predicate Rewrites(patch: Patch, p: Property) {
    match p
    case Summary => patch.title
    case Description => patch.description
    case Location => patch.location
    case DtStart => patch.times
    case DtEnd => patch.times
    case Duration => patch.times
    case Uid => false
    case RecurrenceId => false
  }

  /** The wanted fields; the stamps are already in iCalendar form. */
  datatype Desired = Desired(
    title: string,
    description: Option<string>,
    location: Option<string>,
    allDay: bool,
    timezone: Option<string>,
    start: string,
    end: string,
    duration: string)

  predicate IsBreak(c: char) {
    c == '\r' || c == '\n'
  }

  /** A line break of either form is taken as one. */
  function WidthOf(s: string): (n: nat)
    requires s != ""
    ensures 1 <= n <= |s|
  {
    if s[0] == '\r' && |s| > 1 && s[1] == '\n' then 2 else 1
  }

  /** What the first character or line break of a text is escaped to. */
  function TextPiece(c: char): string {
    if c == '\\' || c == ';' || c == ',' then ['\\', c]
    else if IsBreak(c) then "\\n"
    else [if IsControl(c) then ' ' else c]
  }

  function TextValue(s: string): string {
    if s == "" then "" else TextPiece(s[0]) + TextValue(s[WidthOf(s)..])
  }

  function EncodedPiece(c: char): string {
    if c == '^' then "^^"
    else if c == '"' then "^'"
    else if IsBreak(c) then "^n"
    else [if IsControl(c) then ' ' else c]
  }

  function Encoded(s: string): string {
    if s == "" then "" else EncodedPiece(s[0]) + Encoded(s[WidthOf(s)..])
  }

  lemma MoveOver(done: string, rest: string, whole: string, piece: string, tail: string)
    requires done + rest == whole && rest == piece + tail
    ensures done + piece + tail == whole
  {
    assert done + piece + tail == done + (piece + tail);
  }

  lemma TextHead(s: string, i: nat, n: nat)
    requires i < |s| && n == WidthOf(s[i..])
    ensures i + n <= |s| && TextValue(s[i..]) == TextPiece(s[i]) + TextValue(s[i + n..])
  {
    assert s[i..][n..] == s[i + n..];
  }

  lemma EncodedHead(s: string, i: nat, n: nat)
    requires i < |s| && n == WidthOf(s[i..])
    ensures i + n <= |s| && Encoded(s[i..]) == EncodedPiece(s[i]) + Encoded(s[i + n..])
  {
    assert s[i..][n..] == s[i + n..];
  }

  /** The escaping loop. */
  method EscapeText(value: string) returns (escaped: string)
    ensures escaped == TextValue(value)
  {
    escaped := "";
    var i := 0;
    while i < |value|
      invariant 0 <= i <= |value| && escaped + TextValue(value[i..]) == TextValue(value)
    {
      ghost var n := WidthOf(value[i..]);
      TextHead(value, i, n);
      MoveOver(escaped, TextValue(value[i..]), TextValue(value), TextPiece(value[i]), TextValue(value[i + n..]));
      escaped := escaped + TextPiece(value[i]);
      i := if value[i] == '\r' && i + 1 < |value| && value[i + 1] == '\n' then i + 2 else i + 1;
    }
  }

  /** The encoding loop of a quoted parameter. */
  method EncodeParameter(value: string) returns (encoded: string)
    ensures encoded == ParameterValue(value)
  {
    var text := Trim(value);
    var inner := "";
    var i := 0;
    while i < |text|
      invariant 0 <= i <= |text| && inner + Encoded(text[i..]) == Encoded(text)
    {
      ghost var n := WidthOf(text[i..]);
      EncodedHead(text, i, n);
      MoveOver(inner, Encoded(text[i..]), Encoded(text), EncodedPiece(text[i]), Encoded(text[i + n..]));
      inner := inner + EncodedPiece(text[i]);
      i := if text[i] == '\r' && i + 1 < |text| && text[i + 1] == '\n' then i + 2 else i + 1;
    }
    encoded := "\"" + inner + "\"";
  }

  function ParameterValue(s: string): string {
    "\"" + Encoded(Trim(s)) + "\""
  }

  function TimeParameter(d: Desired): string {
    if d.allDay then ";VALUE=DATE"
    else if d.timezone.Some? then ";TZID=" + ParameterValue(d.timezone.value)
    else ""
  }

  /** What follows the name of a generated property. */
  function RestOf(p: Property, d: Desired): string {
    match p
    case Summary => ":" + TextValue(d.title)
    case Description => ":" + TextValue(if d.description.Some? then d.description.value else "")
    case Location => ":" + TextValue(if d.location.Some? then d.location.value else "")
    case DtStart => TimeParameter(d) + ":" + d.start
    case DtEnd => TimeParameter(d) + ":" + d.end
    case Duration => ":" + d.duration
    case Uid => ":"
    case RecurrenceId => ":"
  }

  function ContentOf(p: Property, d: Desired): string {
    NameOf(p) + RestOf(p, d)
  }

  predicate HasText(s: Option<string>) {
    s.Some? && s.value != ""
  }

  function If(b: bool, p: Property): seq<Property> {
    if b then [p] else []
  }

  /** The properties that the replacement sets; an emptied text field is dropped only. */
  function Replaced(patch: Patch, d: Desired, useDuration: bool): seq<Property> {
    If(patch.title, Summary)
    + If(patch.description && HasText(d.description), Description)
    + If(patch.location && HasText(d.location), Location)
    + If(patch.times, DtStart)
    + If(patch.times, if useDuration then Duration else DtEnd)
  }

  function Contents(ps: seq<Property>, d: Desired): (r: seq<string>)
    ensures |r| == |ps| && forall i :: 0 <= i < |ps| ==> r[i] == ContentOf(ps[i], d)
  {
    seq(|ps|, i requires 0 <= i < |ps| => ContentOf(ps[i], d))
  }

  // ------------------------------------------------------------ generated contents

  /** Stamps have no line breaks. */
  predicate StampsOk(d: Desired) {
    OneLine(d.start) && OneLine(d.end) && OneLine(d.duration)
  }

  predicate OneLine(s: string) {
    Without(s, '\r') && Without(s, '\n')
  }

  lemma OneLineAppend(a: string, b: string)
    requires OneLine(a) && OneLine(b)
    ensures OneLine(a + b)
  {
  }

  lemma {:induction false} TextIsOneLine(s: string)
    ensures OneLine(TextValue(s))
    decreases |s|
  {
    if s != "" {
      TextIsOneLine(s[WidthOf(s)..]);
    }
  }

  lemma {:induction false} EncodedIsOneLine(s: string)
    ensures OneLine(Encoded(s))
    decreases |s|
  {
    if s != "" {
      EncodedIsOneLine(s[WidthOf(s)..]);
    }
  }

  lemma ParameterIsOneLine(d: Desired)
    ensures OneLine(TimeParameter(d)) && (TimeParameter(d) == "" || TimeParameter(d)[0] == ';')
  {
    if d.timezone.Some? {
      var e := Encoded(Trim(d.timezone.value));
      EncodedIsOneLine(Trim(d.timezone.value));
      OneLineAppend("\"", e);
      OneLineAppend("\"" + e, "\"");
      OneLineAppend(";TZID=", ParameterValue(d.timezone.value));
    }
  }

  lemma RestFacts(p: Property, d: Desired)
    requires StampsOk(d)
    ensures OneLine(RestOf(p, d)) && RestOf(p, d) != "" && IsDelimiter(RestOf(p, d)[0])
  {
    ParameterIsOneLine(d);
    TextIsOneLine(d.title);
    TextIsOneLine(if d.description.Some? then d.description.value else "");
    TextIsOneLine(if d.location.Some? then d.location.value else "");
    OneLineAppend(TimeParameter(d), ":");
  }

  lemma NameFacts(p: Property)
    ensures OneLine(NameOf(p)) && UpperText(NameOf(p)) == NameOf(p) && Known(NameOf(p)) == Some(p)
    ensures forall i :: 0 <= i < |NameOf(p)| ==> !IsDelimiter(NameOf(p)[i])
  {
    NameIsUpper(p);
    NameIsKnown(p, NameOf(p));
  }

  lemma NameIsUpper(p: Property)
    ensures UpperText(NameOf(p)) == NameOf(p)
  {
  }

  lemma NameIsKnown(p: Property, name: string)
    requires UpperText(name) == NameOf(p)
    ensures Known(name) == Some(p)
  {
  }

  /** A generated content line names its property and has no line break. */
  lemma ContentFacts(p: Property, d: Desired)
    requires StampsOk(d)
    ensures var c := ContentOf(p, d); OneLine(c) && c != "" && !StartsBlank(c) && PropertyOf(c) == Some(p)
  {
    var c, n := ContentOf(p, d), |NameOf(p)|;
    RestFacts(p, d);
    NameFacts(p);
    FirstLetter(p);
    OneLineAppend(NameOf(p), RestOf(p, d));
    NameThenRest(NameOf(p), RestOf(p, d));
    assert c[0] == NameOf(p)[0];
  }

  lemma NameThenRest(name: string, rest: string)
    requires rest != "" && IsDelimiter(rest[0]) && forall i :: 0 <= i < |name| ==> !IsDelimiter(name[i])
    ensures PropertyName(name + rest) == Some(name)
  {
    var c := name + rest;
    PropertyNameAt(c, |name|);
    assert c[..|name|] == name;
  }
}
