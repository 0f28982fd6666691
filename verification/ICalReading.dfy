/** Reading a content line as RFC 5545 defines it, with the caret encoding of RFC 6868:
    the value after the first colon outside quotation marks, the parameters before it, and
    the text that an escaped value stands for. What an edit writes reads as it was wanted. */
module ICalReading {
  import opened Basics
  import opened Text
  import opened Splitting
  import opened ICalLines
  import opened ICalEvents
  import opened ICalProperties
  import opened ICalKeeping
  import opened ICalRewrite
  import opened ICalLaws
  import opened ICalRepeat

  // ------------------------------------------------------------ the reader

  /** What is before and after the first colon outside quotation marks. */
  function Halves(line: string, quoted: bool): Option<(string, string)> {
    if line == "" then None
    else if line[0] == ':' && !quoted then Some(("", line[1..]))
    else
      match Halves(line[1..], if line[0] == '"' then !quoted else quoted)
      case None => None
      case Some((head, value)) => Some(([line[0]] + head, value))
  }

  /** The name and the parameters: the pieces between semicolons outside quotation marks. */
  function Pieces(head: string, quoted: bool): (r: seq<string>)
    ensures r != []
  {
    if head == "" then [""]
    else if head[0] == ';' && !quoted then [""] + Pieces(head[1..], false)
    else
      var rest := Pieces(head[1..], if head[0] == '"' then !quoted else quoted);
      [[head[0]] + rest[0]] + rest[1..]
  }

  function Unquoted(value: string): string {
    if |value| >= 2 && value[0] == '"' && value[|value| - 1] == '"' then value[1..|value| - 1] else value
  }

  /** The caret encoding of parameter values, undone. */
  function Decoded(s: string): string {
    if s == "" then ""
    else if |s| >= 2 && s[0] == '^' && s[1] == 'n' then ['\n'] + Decoded(s[2..])
    else if |s| >= 2 && s[0] == '^' && s[1] == '^' then ['^'] + Decoded(s[2..])
    else if |s| >= 2 && s[0] == '^' && s[1] == '\'' then ['"'] + Decoded(s[2..])
    else [s[0]] + Decoded(s[1..])
  }

  /** A character before the rest of a text, if that can be read. */
  function After(c: char, rest: Option<string>): Option<string> {
    match rest
    case None => None
    case Some(text) => Some([c] + text)
  }

  /** The escapes of a text value, undone. A bare semicolon or comma would end the value, a
      backslash begins an escape, and control characters have no place in it. */
  function Unescaped(s: string): Option<string> {
    if s == "" then Some("")
    else if s[0] == '\\' then
      if |s| < 2 then None
      else if s[1] == 'n' || s[1] == 'N' then After('\n', Unescaped(s[2..]))
      else if s[1] == '\\' || s[1] == ';' || s[1] == ',' then After(s[1], Unescaped(s[2..]))
      else None
    else if s[0] == ';' || s[0] == ',' || IsControl(s[0]) then None
    else After(s[0], Unescaped(s[1..]))
  }

  function Parameter(pieces: seq<string>, name: string): Option<string> {
    if pieces == [] then None
    else
      match SplitOnce(pieces[0], '=')
      case None => Parameter(pieces[1..], name)
      case Some((n, value)) => if SameName(n, name) then Some(Decoded(Unquoted(value))) else Parameter(pieces[1..], name)
  }

  function ValueOf(line: string): Option<string> {
    match Halves(line, false)
    case None => None
    case Some((_, value)) => Some(value)
  }

  function ParameterOf(line: string, name: string): Option<string> {
    match Halves(line, false)
    case None => None
    case Some((head, _)) => Parameter(Pieces(head, false)[1..], name)
  }

  /** A text as it can be stored: every line break is a newline, and every other control
      character a space. */
  function Stored(s: string): string {
    if s == "" then ""
    else if |s| >= 2 && s[0] == '\r' && s[1] == '\n' then ['\n'] + Stored(s[2..])
    else [if s[0] == '\r' || s[0] == '\n' then '\n' else if IsControl(s[0]) then ' ' else s[0]] + Stored(s[1..])
  }

  // ------------------------------------------------------------ escaping and its inverse

  lemma UnescapedPiece(c: char, rest: string)
    ensures Unescaped(TextPiece(c) + rest) == After(if IsBreak(c) then '\n' else if IsControl(c) then ' ' else c, Unescaped(rest))
  {
    var s := TextPiece(c) + rest;
    if |TextPiece(c)| == 2 {
      assert s[2..] == rest;
    } else {
      assert s[1..] == rest;
    }
  }

  lemma DecodedPiece(c: char, rest: string)
    ensures Decoded(EncodedPiece(c) + rest) == [if IsBreak(c) then '\n' else if IsControl(c) then ' ' else c] + Decoded(rest)
  {
    var s := EncodedPiece(c) + rest;
    if |EncodedPiece(c)| == 2 {
      assert s[2..] == rest;
    } else {
      assert s[1..] == rest;
    }
  }

  /** An escaped text reads as the text as it is stored. */
  lemma {:induction false} TextReadsBack(s: string)
    ensures Unescaped(TextValue(s)) == Some(Stored(s))
    decreases |s|
  {
    if s != "" {
      TextReadsBack(s[WidthOf(s)..]);
      UnescapedPiece(s[0], TextValue(s[WidthOf(s)..]));
    }
  }

  /** So does an encoded parameter, and it holds no quotation mark. */
  lemma {:induction false} EncodedReadsBack(s: string)
    ensures Decoded(Encoded(s)) == Stored(s) && '"' !in Encoded(s)
    decreases |s|
  {
    if s != "" {
      EncodedReadsBack(s[WidthOf(s)..]);
      DecodedPiece(s[0], Encoded(s[WidthOf(s)..]));
    }
  }

  // ------------------------------------------------------------ reading a generated line

  lemma {:induction false} HalvesOver(a: string, rest: string, quoted: bool)
    requires '"' !in a && (quoted || ':' !in a) && Halves(rest, quoted).Some?
    ensures Halves(a + rest, quoted) == Some((a + Halves(rest, quoted).value.0, Halves(rest, quoted).value.1))
  {
    if a == "" {
      assert a + rest == rest && a + Halves(rest, quoted).value.0 == Halves(rest, quoted).value.0;
    } else {
      assert (a + rest)[1..] == a[1..] + rest;
      HalvesOver(a[1..], rest, quoted);
      assert [a[0]] + (a[1..] + Halves(rest, quoted).value.0) == a + Halves(rest, quoted).value.0;
    }
  }

  lemma {:induction false} PiecesOver(a: string, rest: string, quoted: bool)
    requires '"' !in a && (quoted || ';' !in a)
    ensures Pieces(a + rest, quoted) == [a + Pieces(rest, quoted)[0]] + Pieces(rest, quoted)[1..]
  {
    if a == "" {
      assert a + rest == rest && a + Pieces(rest, quoted)[0] == Pieces(rest, quoted)[0];
    } else {
      assert (a + rest)[1..] == a[1..] + rest;
      PiecesOver(a[1..], rest, quoted);
      assert [a[0]] + (a[1..] + Pieces(rest, quoted)[0]) == a + Pieces(rest, quoted)[0];
    }
  }

  /** A line without parameters. */
  lemma BareLine(name: string, value: string)
    requires '"' !in name && ':' !in name && ';' !in name
    ensures Halves(name + ":" + value, false) == Some((name, value)) && Pieces(name, false) == [name]
  {
    assert name + ":" + value == name + (":" + value);
    assert (":" + value)[1..] == value;
    HalvesOver(name, ":" + value, false);
    PiecesOver(name, "", false);
    assert name + "" == name;
  }

  lemma PiecesAfterName(name: string, parameter: string)
    requires '"' !in name && ';' !in name && Pieces(parameter, false) == [parameter]
    ensures Pieces(name + (";" + parameter), false) == [name, parameter]
  {
    var marked := ";" + parameter;
    assert marked[1..] == parameter;
    assert Pieces(marked, false) == ["", parameter];
    PiecesOver(name, marked, false);
    assert name + "" == name;
  }

  /** A line with one parameter that needs no quoting. */
  lemma MarkedLine(name: string, parameter: string, value: string)
    requires '"' !in name && ':' !in name && ';' !in name && '"' !in parameter && ':' !in parameter && ';' !in parameter
    ensures Halves(name + (";" + parameter) + ":" + value, false) == Some((name + (";" + parameter), value))
    ensures Pieces(name + (";" + parameter), false) == [name, parameter]
  {
    var tail := ":" + value;
    assert tail[1..] == value;
    assert name + (";" + parameter) + ":" + value == (name + (";" + parameter)) + tail;
    HalvesOver(name + (";" + parameter), tail, false);
    assert name + (";" + parameter) + "" == name + (";" + parameter);
    PiecesOver(parameter, "", false);
    assert parameter + "" == parameter;
    PiecesAfterName(name, parameter);
  }

  lemma QuotedHalves(key: string, inner: string, tail: string)
    requires '"' !in key && ':' !in key && '"' !in inner && Halves(tail, false).Some?
    ensures Halves(key + ("\"" + (inner + ("\"" + tail))), false) ==
      Some((key + ("\"" + (inner + ("\"" + Halves(tail, false).value.0))), Halves(tail, false).value.1))
  {
    var closed := "\"" + tail;
    assert closed[1..] == tail;
    HalvesOver(inner, closed, true);
    var quote := "\"" + (inner + closed);
    assert quote[1..] == inner + closed;
    HalvesOver(key, quote, false);
  }

  lemma QuotedPieces(key: string, inner: string)
    requires '"' !in key && ';' !in key && '"' !in inner
    ensures Pieces(key + ("\"" + (inner + "\"")), false) == [key + ("\"" + (inner + "\""))]
  {
    var closed := "\"";
    assert closed[1..] == "" && [closed[0]] + "" == closed;
    assert Pieces("", false) == [""];
    assert Pieces(closed, true) == [closed];
    PiecesOver(inner, closed, true);
    var quote := "\"" + (inner + closed);
    assert quote[1..] == inner + closed;
    assert Pieces(quote, false) == [quote];
    PiecesOver(key, quote, false);
  }

  predicate Word(s: string) {
    '"' !in s && ':' !in s && ';' !in s && '=' !in s
  }

  /** A line with one quoted parameter. */
  lemma QuotedLine(name: string, key: string, inner: string, value: string)
    requires Word(name) && Word(key) && '"' !in inner
    ensures var head := name + (";" + (key + "=" + ("\"" + inner + "\"")));
      Halves(head + (":" + value), false) == Some((head, value)) && Pieces(head, false) == [name, key + "=" + ("\"" + inner + "\"")]
  {
    var tail := ":" + value;
    assert tail[1..] == value;
    var parameter := key + "=" + ("\"" + inner + "\"");
    var head := name + (";" + parameter);
    QuotedHalves(name + ";" + (key + "="), inner, tail);
    assert head + tail == name + ";" + (key + "=") + ("\"" + (inner + ("\"" + tail)));
    assert head == name + ";" + (key + "=") + ("\"" + (inner + ("\"" + "")));
    QuotedPieces(key + "=", inner);
    assert parameter == key + "=" + ("\"" + (inner + "\""));
    PiecesAfterName(name, parameter);
  }

  /** The parameters of the stamps: a date without a zone, a zone, or none. */
  predicate ZoneReads(line: string, d: Desired) {
    && ParameterOf(line, "VALUE") == (if d.allDay then Some("DATE") else None)
    && ParameterOf(line, "TZID") == (if !d.allDay && d.timezone.Some? then Some(Stored(Trim(d.timezone.value))) else None)
  }

  /** A line holds the wanted text, if any is wanted. */
  predicate TextReads(line: string, text: Option<string>) {
    ValueOf(line).Some? && Unescaped(ValueOf(line).value) == Some(Stored(if text.Some? then text.value else ""))
  }

  /** A line reads as the wanted value of the property. */
  predicate Reads(line: string, p: Property, d: Desired) {
    match p
    case Summary => TextReads(line, Some(d.title))
    case Description => TextReads(line, d.description)
    case Location => TextReads(line, d.location)
    case DtStart => ValueOf(line) == Some(d.start) && ZoneReads(line, d)
    case DtEnd => ValueOf(line) == Some(d.end) && ZoneReads(line, d)
    case Duration => ValueOf(line) == Some(d.duration)
    case Uid => true
    case RecurrenceId => true
  }

  lemma NameIsWord(p: Property)
    ensures Word(NameOf(p))
  {
    LettersOf(p);
  }

  lemma LettersOf(p: Property)
    ensures forall i :: 0 <= i < |NameOf(p)| ==> 'A' <= NameOf(p)[i] <= 'Z' || NameOf(p)[i] == '-'
  {
  }

  lemma NoParameters(name: string)
    ensures Parameter([name][1..], "VALUE") == None && Parameter([name][1..], "TZID") == None
  {
    assert [name][1..] == [];
  }

  /** A line with one parameter has that one alone. */
  lemma OneParameter(name: string, key: string, value: string, wanted: string)
    requires '=' !in key
    ensures Parameter([name, key + "=" + value][1..], wanted) == if SameName(key, wanted) then Some(Decoded(Unquoted(value))) else None
  {
    var pieces := [key + "=" + value];
    assert [name, key + "=" + value][1..] == pieces;
    SplitOnceAt(key, '=', value);
    assert pieces[1..] == [];
    assert Parameter(pieces[1..], wanted) == None;
  }

  lemma {:induction false} PlainDecodes(s: string)
    requires '^' !in s
    ensures Decoded(s) == s
  {
    if s != "" {
      PlainDecodes(s[1..]);
      assert s == [s[0]] + s[1..];
    }
  }

  lemma KeysDiffer()
    ensures SameName("TZID", "TZID") && SameName("VALUE", "VALUE") && !SameName("TZID", "VALUE") && !SameName("VALUE", "TZID")
  {
    assert |UpperText("TZID")| != |UpperText("VALUE")|;
  }

  lemma DateLine(name: string, value: string)
    requires Word(name)
    ensures var line := name + (";VALUE=DATE" + ":" + value);
      ValueOf(line) == Some(value) && ParameterOf(line, "VALUE") == Some("DATE") && ParameterOf(line, "TZID") == None
  {
    var parameter := "VALUE" + "=" + "DATE";
    assert ";VALUE=DATE" == ";" + parameter;
    MarkedLine(name, parameter, value);
    assert name + (";VALUE=DATE" + ":" + value) == name + (";" + parameter) + ":" + value;
    OneParameter(name, "VALUE", "DATE", "VALUE");
    OneParameter(name, "VALUE", "DATE", "TZID");
    PlainDecodes("DATE");
    assert Unquoted("DATE") == "DATE";
    KeysDiffer();
  }

  lemma QuotedReads(name: string, key: string, inner: string, value: string, line: string, wanted: string)
    requires Word(name) && Word(key) && '"' !in inner
    requires line == name + (";" + (key + "=" + ("\"" + inner + "\""))) + (":" + value)
    ensures ValueOf(line) == Some(value)
    ensures ParameterOf(line, wanted) == if SameName(key, wanted) then Some(Decoded(inner)) else None
  {
    QuotedLine(name, key, inner, value);
    OneParameter(name, key, "\"" + inner + "\"", wanted);
    assert Unquoted("\"" + inner + "\"") == inner;
  }

  lemma Regrouped(name: string, marked: string, key: string, quoted: string, value: string)
    requires marked == ";" + key + "="
    ensures name + (marked + quoted + ":" + value) == name + (";" + (key + "=" + quoted)) + (":" + value)
  {
  }

  lemma ZoneLine(name: string, zone: string, value: string)
    requires Word(name)
    ensures var line := name + (";TZID=" + ParameterValue(zone) + ":" + value);
      ValueOf(line) == Some(value) && ParameterOf(line, "TZID") == Some(Stored(Trim(zone))) && ParameterOf(line, "VALUE") == None
  {
    var key, inner := "TZID", Encoded(Trim(zone));
    var line := name + (";TZID=" + ParameterValue(zone) + ":" + value);
    EncodedReadsBack(Trim(zone));
    Regrouped(name, ";TZID=", key, ParameterValue(zone), value);
    QuotedReads(name, key, inner, value, line, "TZID");
    QuotedReads(name, key, inner, value, line, "VALUE");
    KeysDiffer();
  }

  lemma PlainLine(name: string, value: string)
    requires Word(name)
    ensures var line := name + (":" + value);
      ValueOf(line) == Some(value) && ParameterOf(line, "TZID") == None && ParameterOf(line, "VALUE") == None
  {
    BareLine(name, value);
    assert name + (":" + value) == name + ":" + value;
    NoParameters(name);
  }

  lemma TimeLine(name: string, d: Desired, value: string)
    requires Word(name)
    ensures var line := name + (TimeParameter(d) + ":" + value); ValueOf(line) == Some(value) && ZoneReads(line, d)
  {
    if d.allDay {
      DateLine(name, value);
    } else if d.timezone.Some? {
      ZoneLine(name, d.timezone.value, value);
    } else {
      assert "" + ":" + value == ":" + value;
      PlainLine(name, value);
    }
  }

  lemma TextLine(name: string, text: string)
    requires Word(name)
    ensures TextReads(name + (":" + TextValue(text)), Some(text))
  {
    PlainLine(name, TextValue(text));
    TextReadsBack(text);
  }

  /** Every generated line reads as the wanted value of its property. */
  lemma ContentReads(p: Property, d: Desired)
    ensures Reads(ContentOf(p, d), p, d)
  {
    NameIsWord(p);
    match p {
      case Summary => TextLine(NameOf(p), d.title);
      case Description => TextLine(NameOf(p), if d.description.Some? then d.description.value else "");
      case Location => TextLine(NameOf(p), if d.location.Some? then d.location.value else "");
      case DtStart => TimeLine(NameOf(p), d, d.start);
      case DtEnd => TimeLine(NameOf(p), d, d.end);
      case Duration => PlainLine(NameOf(p), d.duration);
      case Uid =>
      case RecurrenceId =>
    }
  }

  // ------------------------------------------------------------ reading the edited event

  /** The lines outside nested components that name a property. */
  function Named(xs: seq<Line>, ts: seq<Traits>, depth: nat, p: Property): seq<string>
    requires |xs| == |ts|
  {
    if ts == [] then []
    else
      (if depth == 0 && ts[0].named == Some(p) then [xs[0].text] else []) + Named(xs[1..], ts[1..], DepthStep(depth, ts[0].marker), p)
  }

  function Holding(xs: seq<Line>, p: Property): seq<string> {
    Named(xs, TraitsIn(xs), 0, p)
  }

  lemma {:induction false} NamedAppend(a: seq<Line>, s: seq<Traits>, b: seq<Line>, t: seq<Traits>, depth: nat, p: Property)
    requires |a| == |s| && |b| == |t|
    ensures Named(a + b, s + t, depth, p) == Named(a, s, depth, p) + Named(b, t, Nesting(s, depth), p)
    decreases |a|
  {
    if s == [] {
      assert a + b == b && s + t == t;
    } else {
      assert (a + b)[1..] == a[1..] + b && (s + t)[1..] == s[1..] + t;
      var next := DepthStep(depth, s[0].marker);
      var rest, more := Named(a[1..], s[1..], next, p), Named(b, t, Nesting(s, depth), p);
      NamedAppend(a[1..], s[1..], b, t, next, p);
      Assoc(if depth == 0 && s[0].named == Some(p) then [a[0].text] else [], rest, more);
    }
  }

  /** What is kept holds the properties that are not rewritten, and no other. */
  lemma {:induction false} NamedKept(xs: seq<Line>, ts: seq<Traits>, depth: nat, patch: Patch, p: Property)
    requires |xs| == |ts| && AllOk(ts)
    ensures |Keep(xs, ts, depth, patch)| == |Keep(ts, ts, depth, patch)|
    ensures Named(Keep(xs, ts, depth, patch), Keep(ts, ts, depth, patch), depth, p) == if Rewrites(patch, p) then [] else Named(xs, ts, depth, p)
    decreases |xs|
  {
    if ts != [] {
      var next := DepthStep(depth, ts[0].marker);
      NamedKept(xs[1..], ts[1..], next, patch, p);
      if !(depth == 0 && Drops(patch, ts[0])) {
        var xs', ts' := Keep(xs, ts, depth, patch), Keep(ts, ts, depth, patch);
        assert xs'[1..] == Keep(xs[1..], ts[1..], next, patch) && ts'[1..] == Keep(ts[1..], ts[1..], next, patch);
      }
    }
  }

  /** Generated lines hold each property as often as it was asked for. */
  lemma {:induction false} NamedGenerated(xs: seq<Line>, us: seq<Traits>, ps: seq<Property>, d: Desired, depth: nat, p: Property)
    requires |xs| == |us| && Generated(us, ps) && forall i :: 0 <= i < |xs| ==> xs[i].text == ContentOf(ps[i], d)
    ensures |Named(xs, us, depth, p)| == if depth == 0 then Times(ps, p) else 0
    ensures forall line :: line in Named(xs, us, depth, p) ==> line == ContentOf(p, d)
    decreases |xs|
  {
    if us != [] {
      assert Generated(us[1..], ps[1..]);
      NamedGenerated(xs[1..], us[1..], ps[1..], d, depth, p);
    }
  }

  /** The new lines read as wanted: a property that is not rewritten is held as before; a
      rewritten one is held once, with its wanted value, or not at all if it was emptied. */
  predicate InsideReads(was: seq<Line>, now: seq<Line>, edit: Edit, p: Property) {
    var ts := TraitsIn(was);
    if !Rewrites(edit.patch, p) then Holding(now, p) == Holding(was, p)
    else if Sets(edit.patch, edit.desired, UsesDuration(ts), p) && Nesting(ts, 0) == 0 then
      |Holding(now, p)| == 1 && Reads(Holding(now, p)[0], p, edit.desired)
    else Holding(now, p) == []
  }

  lemma ReplacementHolds(edit: Edit, useDuration: bool, depth: nat, p: Property)
    requires StampsOk(edit.desired)
    ensures var held := Named(Replacement(edit, useDuration), Fresh(edit, useDuration), depth, p);
      && |held| == (if depth == 0 && Sets(edit.patch, edit.desired, useDuration, p) then 1 else 0)
      && forall line :: line in held ==> Reads(line, p, edit.desired)
  {
    var ps := Replaced(edit.patch, edit.desired, useDuration);
    FreshIsGenerated(edit, useDuration);
    NamedGenerated(Replacement(edit, useDuration), Fresh(edit, useDuration), ps, edit.desired, depth, p);
    TimesReplaced(edit.patch, edit.desired, useDuration, p);
    ContentReads(p, edit.desired);
  }

  lemma NamedInside(was: seq<Line>, ts: seq<Traits>, edit: Edit, p: Property, rep: seq<Line>, us: seq<Traits>)
    requires ts == TraitsIn(was) && rep == Replacement(edit, UsesDuration(ts)) && us == Fresh(edit, UsesDuration(ts))
    ensures Holding(Inside(was, ts, edit), p) ==
      (if Rewrites(edit.patch, p) then [] else Named(was, ts, 0, p)) + Named(rep, us, Nesting(ts, 0), p)
  {
    var kept, traits := Keep(was, ts, 0, edit.patch), Keep(ts, ts, 0, edit.patch);
    TraitsInOk(was);
    NamedKept(was, ts, 0, edit.patch, p);
    KeepNesting(ts, 0, edit.patch);
    InsideTraits(was, ts, edit);
    NamedAppend(kept, traits, rep, us, 0, p);
  }

  lemma InsideIsRead(was: seq<Line>, ts: seq<Traits>, edit: Edit, p: Property)
    requires ts == TraitsIn(was) && StampsOk(edit.desired)
    ensures InsideReads(was, Inside(was, ts, edit), edit, p)
  {
    var rep, us := Replacement(edit, UsesDuration(ts)), Fresh(edit, UsesDuration(ts));
    NamedInside(was, ts, edit, p, rep, us);
    ReplacementHolds(edit, UsesDuration(ts), Nesting(ts, 0), p);
    SetsIsRewritten(edit.patch, edit.desired, UsesDuration(ts), p);
    HeldAlone(Named(was, ts, 0, p), Named(rep, us, Nesting(ts, 0), p));
  }

  lemma SetsIsRewritten(patch: Patch, d: Desired, useDuration: bool, p: Property)
    ensures Sets(patch, d, useDuration, p) ==> Rewrites(patch, p)
  {
  }

  lemma HeldAlone(a: seq<string>, b: seq<string>)
    ensures a == [] ==> a + b == b
    ensures b == [] ==> a + b == a
    ensures |b| == 1 ==> b[0] in b
  {
  }

  /** The inside of the event with an ordinal. */
  function EventInside(ls: seq<Line>, ordinal: nat): Option<seq<Line>> {
    InsideOf(ls, Marks(TraitsIn(ls)), ordinal)
  }

  function InsideOf(ls: seq<Line>, ms: seq<Marker>, ordinal: nat): Option<seq<Line>> {
    match EventRanges(ms)
    case Err => None
    case Ok(ranges) =>
      if ordinal < |ranges| && ranges[ordinal].start < ranges[ordinal].end < |ls|
      then Some(ls[ranges[ordinal].start + 1..ranges[ordinal].end]) else None
  }

  lemma InsideBefore(ls: seq<Line>, ts: seq<Traits>, r: Range, edit: Edit)
    requires ts == TraitsIn(ls) && Target(ls, ts, edit) == Ok(r)
    ensures EventInside(ls, edit.selected) == Some(ls[r.start + 1..r.end])
  {
  }

  lemma InsideAfter(ls: seq<Line>, ts: seq<Traits>, r: Range, edit: Edit, after: seq<Line>, inner: seq<Line>)
    requires ts == TraitsIn(ls) && Target(ls, ts, edit) == Ok(r) && RewriteLines(ls, edit) == Ok(after) && StampsOk(edit.desired)
    requires inner == Inside(ls[r.start + 1..r.end], ts[r.start + 1..r.end], edit)
    ensures EventInside(after, edit.selected) == Some(inner)
  {
    OtherEventsUntouched(ls, edit, edit.selected);
    var found := EventRanges(Marks(TraitsIn(after))).value[edit.selected];
    InsideFound(after, found, ls[r.start], inner, ls[r.end]);
  }

  /** Reading the edited event among all lines. */
  lemma EventReads(ls: seq<Line>, edit: Edit, p: Property)
    requires RewriteLines(ls, edit).Ok? && StampsOk(edit.desired)
    ensures var was, now := EventInside(ls, edit.selected), EventInside(RewriteLines(ls, edit).value, edit.selected);
      was.Some? && now.Some? && InsideReads(was.value, now.value, edit, p)
  {
    var ts := TraitsIn(ls);
    var r := Target(ls, ts, edit).value;
    var was, traits := ls[r.start + 1..r.end], ts[r.start + 1..r.end];
    TraitsOfSlice(ls, r.start + 1, r.end);
    InsideIsRead(was, traits, edit, p);
    InsideBefore(ls, ts, r, edit);
    InsideAfter(ls, ts, r, edit, RewriteLines(ls, edit).value, Inside(was, traits, edit));
  }

  lemma InsideFound(ls: seq<Line>, r: Range, first: Line, inner: seq<Line>, last: Line)
    requires r.start <= r.end < |ls| && EventLines(ls, r) == [first] + inner + [last]
    ensures r.start < r.end && ls[r.start + 1..r.end] == inner
  {
    assert |EventLines(ls, r)| == |inner| + 2;
    forall i | 0 <= i < |inner| ensures ls[r.start + 1 + i] == inner[i] {
      assert ls[r.start + 1 + i] == EventLines(ls, r)[i + 1];
    }
  }

  /** Reading the edited event in the text that is written. */
  lemma WrittenEventReads(text: string, edit: Edit, p: Property)
    requires Rewrite(text, edit).Ok? && StampsOk(edit.desired)
    requires KeepsNoReturns(LinesIn(text), TraitsIn(LinesIn(text)), Target(LinesIn(text), TraitsIn(LinesIn(text)), edit).value, edit)
    ensures var was, now := EventInside(LinesIn(text), edit.selected), EventInside(LinesIn(Rewrite(text, edit).value), edit.selected);
      was.Some? && now.Some? && InsideReads(was.value, now.value, edit, p)
  {
    RewriteReadsBack(text, edit);
    EventReads(LinesIn(text), edit, p);
  }

  // ------------------------------------------------------------ which edits are accepted

  /** The line is the first that holds a UID, and its value is this one. */
  predicate FirstUidAt(xs: seq<Line>, k: nat, uid: string) {
    k < |xs| && UidIn(xs[k].text) == Some(uid) && forall j :: 0 <= j < k ==> UidIn(xs[j].text).None?
  }

  predicate UidsAre(xs: seq<Line>, ts: seq<Traits>) {
    |xs| == |ts| && forall i :: 0 <= i < |xs| ==> ts[i].uid == UidIn(xs[i].text)
  }

  lemma UidsTail(xs: seq<Line>, ts: seq<Traits>)
    requires xs != [] && UidsAre(xs, ts)
    ensures UidsAre(xs[1..], ts[1..])
  {
  }

  lemma LaterUid(xs: seq<Line>, uid: string, k: nat)
    requires xs != [] && UidIn(xs[0].text).None?
    ensures FirstUidAt(xs[1..], k, uid) <==> FirstUidAt(xs, k + 1, uid)
  {
    if FirstUidAt(xs[1..], k, uid) {
      assert forall j :: 1 <= j < k + 1 ==> xs[j] == xs[1..][j - 1];
    }
    if FirstUidAt(xs, k + 1, uid) {
      assert forall j :: 0 <= j < k ==> xs[1..][j] == xs[j + 1];
    }
  }

  lemma {:induction false} UidFound(xs: seq<Line>, ts: seq<Traits>, uid: string) returns (k: nat)
    requires UidsAre(xs, ts) && FirstUid(ts) == Some(uid)
    ensures FirstUidAt(xs, k, uid)
    decreases |xs|
  {
    k := 0;
    if ts[0].uid.None? {
      UidsTail(xs, ts);
      var rest := UidFound(xs[1..], ts[1..], uid);
      LaterUid(xs, uid, rest);
      k := rest + 1;
    }
  }

  lemma {:induction false} UidStands(xs: seq<Line>, ts: seq<Traits>, uid: string, k: nat)
    requires UidsAre(xs, ts) && FirstUidAt(xs, k, uid)
    ensures FirstUid(ts) == Some(uid)
    decreases |xs|
  {
    if k > 0 {
      UidsTail(xs, ts);
      LaterUid(xs, uid, k - 1);
      UidStands(xs[1..], ts[1..], uid, k - 1);
    }
  }

  lemma UidIff(xs: seq<Line>, uid: string)
    ensures FirstUid(TraitsIn(xs)) == Some(uid) <==> exists k: nat :: FirstUidAt(xs, k, uid)
  {
    var ts := TraitsIn(xs);
    forall i | 0 <= i < |xs| ensures ts[i].uid == UidIn(xs[i].text) {
      TraitAt(xs, i);
    }
    assert UidsAre(xs, ts);
    if FirstUid(ts) == Some(uid) {
      var k := UidFound(xs, ts, uid);
    }
    if k: nat :| FirstUidAt(xs, k, uid) {
      UidStands(xs, ts, uid, k);
    }
  }

  /** An event that may be edited: it has its one UID, which is the one asked for, one
      RECURRENCE-ID, one start and one end, and none of its texts twice. */
  ghost predicate MayBeEdited(xs: seq<Line>, uid: string) {
    var ts := TraitsIn(xs);
    && (forall p :: p == Uid || p == RecurrenceId || p == DtStart ==> Count(ts, 0, p) == 1)
    && (forall p :: p == Summary || p == Description || p == Location ==> Count(ts, 0, p) < 2)
    && (if Count(ts, 0, DtEnd) == 0 then Count(ts, 0, Duration) == 1 else Count(ts, 0, DtEnd) == 1 && Count(ts, 0, Duration) == 0)
    && exists k: nat :: FirstUidAt(xs, k, uid)
  }

  lemma EditableIff(xs: seq<Line>, ts: seq<Traits>, uid: string)
    requires ts == TraitsIn(xs)
    ensures Editable(ts, uid) <==> MayBeEdited(xs, uid)
  {
    UidIff(xs, uid);
  }

  lemma InsideAt(ls: seq<Line>, ms: seq<Marker>, ordinal: nat, found: seq<Range>, r: Range)
    requires EventRanges(ms) == Ok(found) && ordinal < |found| && r == found[ordinal] && r.start < r.end < |ls|
    ensures InsideOf(ls, ms, ordinal) == Some(ls[r.start + 1..r.end])
  {
  }

  lemma RangeIn(ms: seq<Marker>, found: seq<Range>, q: nat)
    requires EventRanges(ms) == Ok(found) && q < |found|
    ensures found[q].start < found[q].end < |ms|
  {
    RangeFacts(ms, q);
  }

  lemma TargetIff(ls: seq<Line>, ts: seq<Traits>, edit: Edit, found: seq<Range>, r: Range)
    requires |ts| == |ls| && EventRanges(Marks(ts)) == Ok(found) && |found| == edit.parsed && edit.selected < edit.parsed
    requires r == found[edit.selected] && r.start < r.end < |ls|
    ensures Target(ls, ts, edit).Ok? <==> Editable(ts[r.start + 1..r.end], edit.uid)
  {
  }

  lemma SliceTraits(ls: seq<Line>, ts: seq<Traits>, i: nat, j: nat, xs: seq<Line>, inside: seq<Traits>)
    requires ts == TraitsIn(ls) && i <= j <= |ls| && xs == ls[i..j] && inside == ts[i..j]
    ensures inside == TraitsIn(xs)
  {
    TraitsOfSlice(ls, i, j);
  }

  /** An edit is carried out exactly when the events are those that were parsed, and the
      selected one may be edited. */
  lemma EditedIff(ls: seq<Line>, edit: Edit)
    ensures RewriteLines(ls, edit).Ok? <==>
      && EventRanges(Marks(TraitsIn(ls))).Ok? && |EventRanges(Marks(TraitsIn(ls))).value| == edit.parsed
      && EventInside(ls, edit.selected).Some? && MayBeEdited(EventInside(ls, edit.selected).value, edit.uid)
  {
    var ts := TraitsIn(ls);
    var found := EventRanges(Marks(ts));
    RewritesAtTarget(ls, ts, edit);
    if found.Ok? && |found.value| == edit.parsed && edit.selected < edit.parsed {
      var r := found.value[edit.selected];
      RangeIn(Marks(ts), found.value, edit.selected);
      InsideAt(ls, Marks(ts), edit.selected, found.value, r);
      TargetIff(ls, ts, edit, found.value, r);
      var xs, inside := ls[r.start + 1..r.end], ts[r.start + 1..r.end];
      SliceTraits(ls, ts, r.start + 1, r.end, xs, inside);
      EditableIff(xs, inside, edit.uid);
    }
  }

  lemma RewritesAtTarget(ls: seq<Line>, ts: seq<Traits>, edit: Edit)
    requires ts == TraitsIn(ls)
    ensures RewriteLines(ls, edit).Ok? <==> Target(ls, ts, edit).Ok?
    ensures Target(ls, ts, edit).Ok? ==>
      EventRanges(Marks(ts)).Ok? && |EventRanges(Marks(ts)).value| == edit.parsed && edit.selected < edit.parsed
    ensures EventRanges(Marks(ts)).Ok? && edit.selected >= |EventRanges(Marks(ts)).value| ==> EventInside(ls, edit.selected).None?
  {
  }
}
