/** Three calendar texts that pass every check of the rewriting and do not survive it:
    one reads back wrong, and an edit of any of them repeated does not give the same text. */
module ICalExamples {
  import opened Basics
  import opened Text
  import opened Splitting
  import opened ICalText
  import opened ICalLines
  import opened ICalEvents
  import opened ICalProperties
  import opened ICalKeeping
  import opened ICalSplit
  import opened ICalUnfolding
  import opened ICalRewrite
  import opened ICalLaws
  import opened ICalRepeat
  import opened ICalChecked

  // ------------------------------------------------------------ the lines

  const HEAD: seq<string> := ["BEGIN:VCALENDAR", "BEGIN:VEVENT", "UID:u", "RECURRENCE-ID:1", "DTSTART:1", "DTEND:2"]

  const TAIL: seq<string> := ["END:VEVENT", "END:VCALENDAR"]

  /** A calendar of one event that ends with some lines, written with CR LF. */
  function CalendarWith(more: seq<string>): string {
    Emit(HEAD + more + TAIL, CrLf)
  }

  /** New title for the one event. */
  function NewTitle(d: Desired): Edit {
    Edit(0, 1, "u", Patch(true, false, false, false), d)
  }

  // ------------------------------------------------------------ what the lines are

  lemma BeginLine(name: string)
    requires PlainText(name)
    ensures var line := "BEGIN:" + name;
      Trim(line) == line && MarkerOf(line) == Begin(SameName(name, "VEVENT")) && !PieceOf(line).closes
  {
    var line := "BEGIN:" + name;
    PlainIsTrimmed(line);
    SplitOnceAt("BEGIN", ':', name);
    assert "BEGIN" + [':'] + name == line;
    NotNamed(line, "END:VCALENDAR");
  }

  lemma EndLine(name: string)
    requires PlainText(name)
    ensures var line := "END:" + name;
      Trim(line) == line && MarkerOf(line) == End(SameName(name, "VEVENT"))
  {
    var line := "END:" + name;
    PlainIsTrimmed(line);
    SplitOnceAt("END", ':', name);
    assert "END" + [':'] + name == line;
  }

  lemma MarkerNames(line: string)
    requires line != "" && (Upper(line[0]) == 'B' || Upper(line[0]) == 'E')
    ensures PropertyOf(line).None? && UidIn(line).None?
  {
    if PropertyOf(line).Some? {
      NamedBegins(line);
      FirstLetter(PropertyOf(line).value);
    }
  }

  lemma MarkerTraits(line: string)
    requires line != "" && (Upper(line[0]) == 'B' || Upper(line[0]) == 'E') && Trim(line) == line
    ensures TraitsOf(line) == Traits(MarkerOf(line), None, None, None)
  {
    MarkerNames(line);
  }

  lemma PropertyLine(p: Property, value: string)
    ensures var line := NameOf(p) + ":" + value;
      && PropertyOf(line) == Some(p) && Skipped(PieceOf(line))
      && TraitsOf(line) == Traits(Plain, Some(p), Some(p), if p == Uid then Some(value) else None)
  {
    var line := NameOf(p) + ":" + value;
    NameFacts(p);
    assert line == NameOf(p) + (":" + value);
    NameThenRest(NameOf(p), ":" + value);
    TraitsAreOk(line);
    NamedIsSkipped(line);
    if p == Uid {
      SplitOnceAt("UID", ':', value);
      assert "UID" + [':'] + value == line;
    }
  }

  const HEAD_TRAITS: seq<Traits> := [
    Traits(Begin(false), None, None, None),
    Traits(Begin(true), None, None, None),
    Traits(Plain, Some(Uid), Some(Uid), Some("u")),
    Traits(Plain, Some(RecurrenceId), Some(RecurrenceId), None),
    Traits(Plain, Some(DtStart), Some(DtStart), None),
    Traits(Plain, Some(DtEnd), Some(DtEnd), None)]

  const TAIL_TRAITS: seq<Traits> := [Traits(End(true), None, None, None), Traits(End(false), None, None, None)]

  lemma BeginTraits(line: string, name: string)
    requires PlainText(name) && line == "BEGIN:" + name
    ensures TraitsOf(line) == Traits(Begin(SameName(name, "VEVENT")), None, None, None)
    ensures PieceOf(line) == Piece(false, SameName(line, "BEGIN:VCALENDAR"), false, Begin(SameName(name, "VEVENT")))
  {
    BeginLine(name);
    MarkerTraits(line);
  }

  lemma EndTraits(line: string, name: string)
    requires PlainText(name) && line == "END:" + name
    ensures TraitsOf(line) == Traits(End(SameName(name, "VEVENT")), None, None, None)
    ensures PieceOf(line).closes == SameName(line, "END:VCALENDAR") && PieceOf(line).marker == End(SameName(name, "VEVENT"))
    ensures !PieceOf(line).blank
  {
    EndLine(name);
    MarkerTraits(line);
  }

  lemma NotEvent(name: string)
    requires name == "VCALENDAR" || name == "VALARM"
    ensures !SameName(name, "VEVENT")
  {
    assert UpperText(name)[1] != UpperText("VEVENT")[1];
  }

  lemma PropertyTraits(line: string, p: Property, value: string)
    requires line == NameOf(p) + ":" + value
    ensures TraitsOf(line) == Traits(Plain, Some(p), Some(p), if p == Uid then Some(value) else None)
    ensures Skipped(PieceOf(line))
  {
    PropertyLine(p, value);
  }

  /** `know` tells the traits of a line, and `piece` what it is to the first check. */
  ghost predicate Tells(know: string -> Traits, piece: string -> Piece) {
    && (forall s {:trigger TraitsOf(s)} :: know(s) == TraitsOf(s))
    && (forall s {:trigger PieceOf(s)} :: piece(s) == PieceOf(s))
  }

  lemma OpensCalendar(know: string -> Traits, piece: string -> Piece, line: string, name: string)
    requires Tells(know, piece) && name == "VCALENDAR" && line == "BEGIN:" + name
    ensures know(line) == Traits(Begin(false), None, None, None) && !piece(line).blank && piece(line).opens
  {
    BeginTraits(line, name);
    NotEvent(name);
  }

  lemma OpensEvent(know: string -> Traits, piece: string -> Piece, line: string, name: string)
    requires Tells(know, piece) && name == "VEVENT" && line == "BEGIN:" + name
    ensures know(line) == Traits(Begin(true), None, None, None) && !piece(line).closes && piece(line).marker == Begin(true)
  {
    BeginTraits(line, name);
  }

  lemma ClosesEvent(know: string -> Traits, piece: string -> Piece, line: string, name: string)
    requires Tells(know, piece) && name == "VEVENT" && line == "END:" + name
    ensures know(line) == Traits(End(true), None, None, None) && !piece(line).closes && piece(line).marker == End(true)
  {
    EndTraits(line, name);
  }

  lemma ClosesCalendar(know: string -> Traits, piece: string -> Piece, line: string, name: string)
    requires Tells(know, piece) && name == "VCALENDAR" && line == "END:" + name
    ensures know(line) == Traits(End(false), None, None, None) && piece(line).closes
  {
    EndTraits(line, name);
    NotEvent(name);
  }

  lemma HoldsProperty(know: string -> Traits, piece: string -> Piece, line: string, p: Property, value: string)
    requires Tells(know, piece) && line == NameOf(p) + ":" + value
    ensures know(line) == Traits(Plain, Some(p), Some(p), if p == Uid then Some(value) else None) && Skipped(piece(line))
  {
    PropertyTraits(line, p, value);
  }

  lemma HeadTells(know: string -> Traits, piece: string -> Piece, head: seq<string>)
    requires Tells(know, piece) && head == HEAD
    ensures forall i :: 0 <= i < 6 ==> know(head[i]) == HEAD_TRAITS[i]
    ensures !piece(head[0]).blank && piece(head[0]).opens && !piece(head[1]).closes && piece(head[1]).marker == Begin(true)
    ensures forall i :: 2 <= i < 6 ==> Skipped(piece(head[i]))
  {
    OpensCalendar(know, piece, head[0], "VCALENDAR");
    OpensEvent(know, piece, head[1], "VEVENT");
    HoldsProperty(know, piece, head[2], Uid, "u");
    HoldsProperty(know, piece, head[3], RecurrenceId, "1");
    HoldsProperty(know, piece, head[4], DtStart, "1");
    HoldsProperty(know, piece, head[5], DtEnd, "2");
  }

  lemma TailTells(know: string -> Traits, piece: string -> Piece, tail: seq<string>)
    requires Tells(know, piece) && tail == TAIL
    ensures forall i :: 0 <= i < 2 ==> know(tail[i]) == TAIL_TRAITS[i]
    ensures !piece(tail[0]).closes && piece(tail[0]).marker == End(true) && piece(tail[1]).closes
  {
    ClosesEvent(know, piece, tail[0], "VEVENT");
    ClosesCalendar(know, piece, tail[1], "VCALENDAR");
  }

  // ------------------------------------------------------------ the event among its lines

  lemma {:induction false} TraitsTold(know: string -> Traits, piece: string -> Piece, ls: seq<Line>, ts: seq<Traits>)
    requires Tells(know, piece) && |ls| == |ts| && forall i :: 0 <= i < |ls| ==> know(ls[i].text) == ts[i]
    ensures TraitsIn(ls) == ts
  {
    forall i | 0 <= i < |ls| ensures TraitsIn(ls)[i] == ts[i] {
      TraitAt(ls, i);
    }
  }

  lemma {:induction false} PiecesTold(know: string -> Traits, piece: string -> Piece, lines: seq<string>, ps: seq<Piece>)
    requires Tells(know, piece) && |lines| == |ps| && forall i :: 0 <= i < |lines| ==> piece(lines[i]) == ps[i]
    ensures Pieces(lines) == ps
  {
    assert forall i :: 0 <= i < |lines| ==> Pieces(lines)[i] == PieceOf(lines[i]);
  }

  /** The one event of the calendar is found. */
  lemma {:induction false} FindsEvent(more: seq<Traits>)
    requires Balanced(Marks(more))
    ensures EventRanges(Marks(HEAD_TRAITS + more + TAIL_TRAITS)) == Ok([Range(1, 6 + |more|)])
  {
    var ms, n := Marks(HEAD_TRAITS + more + TAIL_TRAITS), 6 + |more|;
    assert ms[0] == Begin(false) && ms[1] == Begin(true) && ms[2] == ms[3] == ms[4] == ms[5] == Plain;
    assert ms[6..n] == Marks(more);
    assert ms[n] == End(true) && ms[n + 1] == End(false);
    FindsRange(ms, n);
  }

  lemma {:induction false} FindsRange(ms: seq<Marker>, n: nat)
    requires n >= 6 && |ms| == n + 2 && ms[0] == Begin(false) && ms[1] == Begin(true) && ms[2] == ms[3] == ms[4] == ms[5] == Plain
    requires Balanced(ms[6..n]) && ms[n] == End(true) && ms[n + 1] == End(false)
    ensures EventRanges(ms) == Ok([Range(1, n)])
  {
    assert ScanTo(ms, 1) == Scan(1, None, []);
    assert ScanTo(ms, 2) == Scan(2, Some(1), []);
    assert ScanTo(ms, 4) == Scan(2, Some(1), []);
    assert ScanTo(ms, 6) == Scan(2, Some(1), []);
    ScanQuiet(ms, 6, n);
    assert ScanTo(ms, n + 1) == Scan(1, None, [Range(1, n)]);
    assert ScanTo(ms, n + 2) == Scan(0, None, [Range(1, n)]);
  }

  /** The event's own four properties. */
  const OWN: seq<Traits> := HEAD_TRAITS[2..]

  lemma CountFirst(ts: seq<Traits>, p: Property, q: Property)
    requires ts != [] && ts[0].marker == Plain && ts[0].counted == Some(q)
    ensures Count(ts, 0, p) == (if p == q then 1 else 0) + Count(ts[1..], 0, p) && Nesting(ts, 0) == Nesting(ts[1..], 0)
  {
  }

  lemma OwnCount(p: Property)
    ensures Count(OWN, 0, p) == if p == Uid || p == RecurrenceId || p == DtStart || p == DtEnd then 1 else 0
    ensures Nesting(OWN, 0) == 0 && FirstUid(OWN) == Some("u")
  {
    var ts := OWN;
    CountFirst(ts, p, Uid);
    CountFirst(ts[1..], p, RecurrenceId);
    CountFirst(ts[1..][1..], p, DtStart);
    CountFirst(ts[1..][1..][1..], p, DtEnd);
    assert ts[1..][1..][1..][1..] == [];
  }

  /** It may be edited if `more` adds no property but, perhaps, a title. */
  lemma EventIsEditable(more: seq<Traits>)
    requires forall p :: p != Summary ==> Count(more, 0, p) == 0
    requires Count(more, 0, Summary) <= 1
    ensures Editable(OWN + more, "u") && !UsesDuration(OWN + more)
  {
    forall p: Property ensures Count(OWN + more, 0, p) == Count(OWN, 0, p) + Count(more, 0, p) {
      CountAppend(OWN, more, 0, p);
      OwnCount(p);
    }
    OwnCount(Uid);
    UidAppend(OWN, more);
    OwnCount(RecurrenceId);
    OwnCount(DtStart);
    OwnCount(DtEnd);
    OwnCount(Duration);
    OwnCount(Summary);
    OwnCount(Description);
    OwnCount(Location);
  }

  // ------------------------------------------------------------ reading the text

  function SimpleLines(lines: seq<string>): (r: seq<Line>)
    ensures |r| == |lines| && forall i :: 0 <= i < |lines| ==> r[i] == Line(lines[i], [lines[i]])
  {
    seq(|lines|, i requires 0 <= i < |lines| => Line(lines[i], [lines[i]]))
  }

  lemma {:induction false} FlatSimple(lines: seq<string>)
    ensures Flat(SimpleLines(lines)) == lines
    decreases |lines|
  {
    if lines != [] {
      var init := lines[..|lines| - 1];
      assert SimpleLines(lines)[..|lines| - 1] == SimpleLines(init);
      FlatSimple(init);
    }
  }

  lemma GroupSimple(lines: seq<string>)
    requires LaterFilled(lines)
    ensures Group(lines) == SimpleLines(lines)
  {
    var ls := SimpleLines(lines);
    forall i | 0 <= i < |ls| ensures LineOk(ls[i]) {
      SingleLineOk(lines[i]);
    }
    FlatSimple(lines);
    GroupOfFlat(ls);
  }

  /** What `more` may hold. */
  predicate Usable(more: seq<string>) {
    AllWithout(more, '\n') && forall i :: 0 <= i < |more| ==> !StartsBlank(more[i])
  }

  lemma LinesUsable(more: seq<string>)
    requires Usable(more)
    ensures var all := HEAD + more + TAIL; AllWithout(all, '\n') && !StartsWithBom(all) && Usable(all) && LaterFilled(all)
  {
    assert Usable(HEAD) && Usable(TAIL);
  }

  lemma ShedCalendar(more: seq<string>)
    ensures ShedAll(HEAD + more + TAIL, CrLf) == HEAD + ShedAll(more, CrLf) + TAIL
  {
    assert NoReturns(HEAD) && NoReturns(TAIL);
    ShedNothing(HEAD);
    ShedNothing(TAIL);
    ShedThree(HEAD, more, TAIL);
  }

  lemma ShedThree(a: seq<string>, x: seq<string>, b: seq<string>)
    ensures ShedAll(a + x + b, CrLf) == ShedAll(a, CrLf) + ShedAll(x, CrLf) + ShedAll(b, CrLf)
  {
  }

  /** The text is read as its lines, each without one trailing carriage return. */
  lemma CalendarReads(more: seq<string>)
    requires Usable(more)
    ensures var lines := HEAD + ShedAll(more, CrLf) + TAIL;
      LinesIn(CalendarWith(more)) == SimpleLines(lines) && SplitLines(CalendarWith(more)) == lines
  {
    var all, lines := HEAD + more + TAIL, HEAD + ShedAll(more, CrLf) + TAIL;
    LinesUsable(more);
    ShedCalendar(more);
    ReadBackIff(all, CrLf);
    SplitOfPlain(all);
    ShedUsable(more);
    LinesUsable(ShedAll(more, CrLf));
    GroupSimple(lines);
  }

  lemma ShedUsable(more: seq<string>)
    requires Usable(more)
    ensures Usable(ShedAll(more, CrLf))
  {
  }

  // ------------------------------------------------------------ the first check

  lemma HeadReads(ps: seq<Piece>)
    requires |ps| == 6 && !ps[0].blank && ps[0].opens && !ps[1].closes && ps[1].marker == Begin(true)
    requires forall i :: 2 <= i < 6 ==> Skipped(ps[i])
    ensures ReadAll(Before, ps) == Within(1, true, 0)
  {
    var rest := ps[1..];
    assert rest[0] == ps[1] && rest[1..] == ps[2..];
    assert ReadAll(Among(0), rest) == ReadAll(Within(1, true, 0), ps[2..]);
    SkippedChangesNothing(Within(1, true, 0), ps[2..]);
  }

  lemma TailReads(s: Reading, ps: seq<Piece>)
    requires s == Within(1, true, 0) || s == Within(1, false, 1)
    requires |ps| == 2 && ps[0].marker == End(true) && ps[1].closes
    ensures ReadAll(s, ps) == After(1)
  {
    assert ReadAll(Among(1), ps[1..]) == After(1) by {
      assert ps[1..][1..] == [];
    }
  }

  /** What is read of a piece of the calendar. */
  lemma {:induction false} CalendarIsComplete(know: string -> Traits, piece: string -> Piece, read: seq<string>)
    requires Tells(know, piece)
    requires var s := ReadAll(Within(1, true, 0), Pieces(read)); s == Within(1, true, 0) || s == Within(1, false, 1)
    ensures EventCount(Pieces(HEAD + read + TAIL)) == Ok(1)
  {
    HeadTells(know, piece, HEAD);
    TailTells(know, piece, TAIL);
    var h, t := seq(6, i requires 0 <= i < 6 => piece(HEAD[i])), seq(2, i requires 0 <= i < 2 => piece(TAIL[i]));
    PiecesTold(know, piece, HEAD, h);
    PiecesTold(know, piece, TAIL, t);
    CompleteFromParts(h, Pieces(read), t);
    PiecesOfThree(HEAD, read, TAIL);
  }

  lemma PiecesOfThree(a: seq<string>, x: seq<string>, b: seq<string>)
    ensures Pieces(a + x + b) == Pieces(a) + Pieces(x) + Pieces(b)
  {
  }

  lemma CompleteFromParts(h: seq<Piece>, x: seq<Piece>, t: seq<Piece>)
    requires |h| == 6 && !h[0].blank && h[0].opens && !h[1].closes && h[1].marker == Begin(true)
    requires forall i :: 2 <= i < 6 ==> Skipped(h[i])
    requires |t| == 2 && t[0].marker == End(true) && t[1].closes
    requires var s := ReadAll(Within(1, true, 0), x); s == Within(1, true, 0) || s == Within(1, false, 1)
    ensures EventCount(h + x + t) == Ok(1)
  {
    HeadReads(h);
    TailReads(ReadAll(Within(1, true, 0), x), t);
    ReadAppend(Before, h + x, t);
    ReadAppend(Before, h, x);
  }

  // ------------------------------------------------------------ an edit that is accepted

  /** Lines that may end the event: what is read of them are the traits `ts`, and they
      pass every check. */
  ghost predicate Fits(know: string -> Traits, piece: string -> Piece, more: seq<string>, ts: seq<Traits>) {
    var read := ShedAll(more, CrLf);
    var s := ReadAll(Within(1, true, 0), Pieces(read));
    && Usable(more) && |ts| == |more| && (forall i :: 0 <= i < |ts| ==> know(read[i]) == ts[i])
    && Balanced(Marks(ts)) && (forall p :: p != Summary ==> Count(ts, 0, p) == 0) && Count(ts, 0, Summary) <= 1
    && (s == Within(1, true, 0) || s == Within(1, false, 1))
  }

  lemma {:induction false} CalendarTraits(know: string -> Traits, piece: string -> Piece, more: seq<string>, ts: seq<Traits>)
    requires Tells(know, piece) && Fits(know, piece, more, ts)
    ensures LinesIn(CalendarWith(more)) == SimpleLines(HEAD + ShedAll(more, CrLf) + TAIL)
    ensures TraitsIn(LinesIn(CalendarWith(more))) == HEAD_TRAITS + ts + TAIL_TRAITS
  {
    var read := ShedAll(more, CrLf);
    var lines := HEAD + read + TAIL;
    CalendarReads(more);
    HeadTells(know, piece, HEAD);
    TailTells(know, piece, TAIL);
    TraitsOfParts(know, HEAD, read, TAIL, HEAD_TRAITS, ts, TAIL_TRAITS);
    TraitsTold(know, piece, SimpleLines(lines), HEAD_TRAITS + ts + TAIL_TRAITS);
  }

  lemma {:induction false} TraitsOfParts(
      know: string -> Traits, a: seq<string>, x: seq<string>, b: seq<string>, ta: seq<Traits>, tx: seq<Traits>, tb: seq<Traits>)
    requires |a| == |ta| && |x| == |tx| && |b| == |tb|
    requires forall i :: 0 <= i < |a| ==> know(a[i]) == ta[i]
    requires forall i :: 0 <= i < |x| ==> know(x[i]) == tx[i]
    requires forall i :: 0 <= i < |b| ==> know(b[i]) == tb[i]
    ensures forall i :: 0 <= i < |a| + |x| + |b| ==> know((a + x + b)[i]) == (ta + tx + tb)[i]
  {
  }

  /** The edit of the one event is accepted. */
  lemma {:induction false} EditIsAccepted(know: string -> Traits, piece: string -> Piece, more: seq<string>, ts: seq<Traits>, d: Desired)
    requires Tells(know, piece) && Fits(know, piece, more, ts)
    ensures var text := CalendarWith(more);
      var ls := LinesIn(text);
      var r := Range(1, 6 + |ts|);
      && SplitCalendar(text) == Ok(1)
      && |ls| == 8 + |ts| && Target(ls, TraitsIn(ls), NewTitle(d)) == Ok(r)
      && TraitsIn(ls)[2..6 + |ts|] == OWN + ts
      && RewriteChecked(text, NewTitle(d)).Ok?
  {
    CalendarReads(more);
    CalendarIsComplete(know, piece, ShedAll(more, CrLf));
    CalendarTraits(know, piece, more, ts);
    FindsEvent(ts);
    EventIsEditable(ts);
    InsideOfCalendar(ts);
  }

  lemma InsideOfCalendar(ts: seq<Traits>)
    ensures (HEAD_TRAITS + ts + TAIL_TRAITS)[2..6 + |ts|] == OWN + ts
  {
  }

  lemma TellersExist() returns (know: string -> Traits, piece: string -> Piece)
    ensures Tells(know, piece)
  {
    know, piece := (s: string) => TraitsOf(s), (s: string) => PieceOf(s);
  }

  // ------------------------------------------------------------ a trailing carriage return

  /** A line that begins with X names no property and is no marker. */
  lemma XLine(line: string)
    requires line != "" && line[0] == 'X'
    ensures TraitsOf(line) == X_TRAITS[0] && Skipped(PieceOf(line))
  {
    TrimEndKeeps(line, 0);
    assert Trim(line)[0] == 'X';
    NoNameX(line);
    NoNameX(Trim(line));
    NotMarker(Trim(line), "BEGIN");
    NotMarker(Trim(line), "END");
    NotNamed(Trim(line), "END:VCALENDAR");
  }

  lemma NoNameX(line: string)
    requires line != "" && line[0] == 'X'
    ensures PropertyOf(line).None?
  {
    if PropertyOf(line).Some? {
      NamedBegins(line);
      FirstLetter(PropertyOf(line).value);
    }
  }

  lemma {:induction false} KeepAll<T>(xs: seq<T>, ts: seq<Traits>, depth: nat, patch: Patch)
    requires |xs| == |ts| && forall i :: 0 <= i < |ts| ==> !Drops(patch, ts[i])
    ensures Keep(xs, ts, depth, patch) == xs
    decreases |ts|
  {
    if ts != [] {
      KeepAll(xs[1..], ts[1..], DepthStep(depth, ts[0].marker), patch);
    }
  }

  /** A line before three carriage returns and a line feed. */
  const RETURNS: seq<string> := ["X:1\r\r"]

  const X_TRAITS: seq<Traits> := [Traits(Plain, None, None, None)]

  /** One more line that is no marker. */
  lemma {:induction false} OneMoreFits(know: string -> Traits, piece: string -> Piece, more: seq<string>, read: string, t: Traits)
    requires Tells(know, piece) && Usable(more) && ShedAll(more, CrLf) == [read]
    requires TraitsOf(read) == t && Skipped(PieceOf(read)) && (t.counted == None || t.counted == Some(Summary))
    ensures Fits(know, piece, more, [t])
  {
    SkippedIsOpen(PieceOf(read));
    PiecesTold(know, piece, [read], [piece(read)]);
    OneLineFits(t);
  }

  lemma SkippedIsOpen(p: Piece)
    requires Skipped(p)
    ensures ReadAll(Within(1, true, 0), [p]) == Within(1, true, 0)
  {
    SkippedChangesNothing(Within(1, true, 0), [p]);
  }

  lemma OneLineFits(t: Traits)
    requires t.marker == Plain
    ensures Balanced(Marks([t])) && forall p :: Count([t], 0, p) == if t.counted == Some(p) then 1 else 0
  {
    assert [t][1..] == [] && Marks([t])[1..] == [];
  }

  lemma {:induction false} ReturnsFit(know: string -> Traits, piece: string -> Piece, more: seq<string>)
    requires Tells(know, piece) && more == RETURNS
    ensures Fits(know, piece, more, X_TRAITS)
  {
    var read := ShedAll(more, CrLf);
    XLine(read[0]);
    OneMoreFits(know, piece, more, read[0], X_TRAITS[0]);
  }

  lemma KeptIsAll(more: seq<string>, ts: seq<Traits>, d: Desired)
    requires var ls := LinesIn(CalendarWith(more));
      && |ls| == 8 + |ts| && TraitsIn(ls)[2..6 + |ts|] == OWN + ts
      && (forall i :: 0 <= i < |ts| ==> ts[i].named.None?)
    ensures var ls := LinesIn(CalendarWith(more));
      KeptLines(ls, TraitsIn(ls), Range(1, 6 + |ts|), NewTitle(d)) == ls
  {
    var ls := LinesIn(CalendarWith(more));
    var n := 6 + |ts|;
    assert forall i :: 0 <= i < 4 ==> !Drops(NewTitle(d).patch, OWN[i]);
    KeepAll(ls[2..n], OWN + ts, 0, NewTitle(d).patch);
    ThreeParts(ls, 2, n);
  }

  /** The output does not read back as it was meant, and the edit repeated does not
      give the same text. */
  lemma TrailingReturn(d: Desired)
    requires StampsOk(d)
    ensures var text := CalendarWith(RETURNS);
      var r := RewriteChecked(text, NewTitle(d));
      && r.Ok? && LinesIn(r.value) != RewriteLines(LinesIn(text), NewTitle(d)).value
      && RewriteChecked(r.value, NewTitle(d)) != r
  {
    var know, piece := TellersExist();
    ReturnsFit(know, piece, RETURNS);
    EditIsAccepted(know, piece, RETURNS, X_TRAITS, d);
    KeptIsAll(RETURNS, X_TRAITS, d);
    var text := CalendarWith(RETURNS);
    ReturnIsRead();
    RewriteReadsBack(text, NewTitle(d));
    RewriteTwice(text, NewTitle(d));
  }

  lemma ReturnIsRead()
    ensures !NoReturns(Flat(LinesIn(CalendarWith(RETURNS))))
  {
    var read := ShedAll(RETURNS, CrLf);
    CalendarReads(RETURNS);
    FlatSimple(HEAD + read + TAIL);
    ReturnStays(RETURNS);
    EndsAmong(HEAD, read, TAIL);
  }

  lemma ReturnStays(more: seq<string>)
    requires more == RETURNS
    ensures EndsReturn(ShedAll(more, CrLf)[0])
  {
  }

  lemma EndsAmong(a: seq<string>, x: seq<string>, b: seq<string>)
    requires x != [] && EndsReturn(x[0])
    ensures !NoReturns(a + x + b)
  {
    assert (a + x + b)[|a|] == x[0];
  }

  // ------------------------------------------------------------ a stray property

  /** A title behind white space that is no fold. */
  const STRAY: seq<string> := ["\U{0B}SUMMARY:1"]

  const STRAY_TRAITS: seq<Traits> := [Traits(Plain, None, Some(Summary), None)]

  lemma StrayLine(w: char, rest: string)
    requires IsWhite(w) && PropertyOf(rest) == Some(Summary)
    ensures TraitsOf([w] + rest) == STRAY_TRAITS[0] && Skipped(PieceOf([w] + rest))
  {
    LeadingWhiteHides(w, rest);
    NamedIsSkipped(rest);
    SameTrim(w, rest);
  }

  lemma SameTrim(w: char, rest: string)
    requires IsWhite(w)
    ensures PieceOf([w] + rest) == PieceOf(rest)
  {
    assert ([w] + rest)[1..] == rest;
    assert TrimStart([w] + rest) == TrimStart(rest);
  }

  lemma StrayIsStray(line: string, value: string)
    requires line == ['\U{0B}'] + (NameOf(Summary) + ":" + value)
    ensures TraitsOf(line) == STRAY_TRAITS[0] && Skipped(PieceOf(line))
  {
    PropertyLine(Summary, value);
    StrayLine('\U{0B}', NameOf(Summary) + ":" + value);
  }

  lemma {:induction false} StrayFits(know: string -> Traits, piece: string -> Piece, more: seq<string>)
    requires Tells(know, piece) && more == STRAY
    ensures Fits(know, piece, more, STRAY_TRAITS)
  {
    var read := ShedAll(more, CrLf);
    StrayIsStray(read[0], "1");
    OneMoreFits(know, piece, more, read[0], STRAY_TRAITS[0]);
  }

  lemma {:induction false} StrayAtEnd(ts: seq<Traits>, t: Traits, depth: nat, p: Property)
    requires Stray(t, Nesting(ts, depth), p)
    ensures Strays(ts + [t], depth, p) > 0
    decreases |ts|
  {
    if ts != [] {
      assert (ts + [t])[1..] == ts[1..] + [t];
      StrayAtEnd(ts[1..], t, DepthStep(depth, ts[0].marker), p);
    }
  }

  /** The new title stands beside the stray one, so the edit repeated does not give the
      same text. */
  lemma StrayProperty(d: Desired)
    requires StampsOk(d)
    ensures var r := RewriteChecked(CalendarWith(STRAY), NewTitle(d));
      r.Ok? && RewriteChecked(r.value, NewTitle(d)) != r
  {
    var know, piece := TellersExist();
    StrayFits(know, piece, STRAY);
    EditIsAccepted(know, piece, STRAY, STRAY_TRAITS, d);
    OwnCount(Summary);
    StrayAtEnd(OWN, STRAY_TRAITS[0], 0, Summary);
    assert Sets(NewTitle(d).patch, d, UsesDuration(OWN + STRAY_TRAITS), Summary);
    RewriteTwice(CalendarWith(STRAY), NewTitle(d));
  }

  // ------------------------------------------------------------ a component closed before it is opened

  const MISNESTED: seq<string> := ["END:VALARM", "BEGIN:VALARM"]

  const MISNESTED_TRAITS: seq<Traits> := [Traits(End(false), None, None, None), Traits(Begin(false), None, None, None)]

  lemma {:induction false} MisnestedLines(know: string -> Traits, piece: string -> Piece, end: string, begin: string, name: string)
    requires Tells(know, piece) && name == "VALARM" && end == "END:" + name && begin == "BEGIN:" + name
    ensures know(end) == MISNESTED_TRAITS[0] && know(begin) == MISNESTED_TRAITS[1]
    ensures !piece(end).closes && piece(end).marker == End(false) && !piece(begin).closes && piece(begin).marker == Begin(false)
  {
    EndTraits(end, name);
    BeginTraits(begin, name);
    NotEvent(name);
  }

  /** To the first check the event ends early, and another component is closed by its END. */
  lemma MisnestedReads(ps: seq<Piece>)
    requires |ps| == 2 && ps[0].marker == End(false) && !ps[1].closes && ps[1].marker == Begin(false)
    ensures ReadAll(Within(1, true, 0), ps) == Within(1, false, 1)
  {
    assert ps[1..][0] == ps[1] && ps[1..][1..] == [];
    assert ReadAll(Among(1), ps[1..]) == Within(1, false, 1);
  }

  lemma MisnestedTraits(ts: seq<Traits>)
    requires ts == MISNESTED_TRAITS
    ensures Balanced(Marks(ts)) && (forall p :: Count(ts, 0, p) == 0) && Nesting(ts, 0) == 1
  {
    assert ts[1..][1..] == [] && ts[1..][0] == ts[1];
    assert Nesting(ts[1..], 0) == 1;
    assert Marks(ts)[1..][1..] == [] && Marks(ts)[1..][0] == Begin(false);
    assert Quiet(Marks(ts)[1..], 1) && DepthAfter(Marks(ts)[1..], 1) == 2;
    forall p ensures Count(ts, 0, p) == 0 {
      assert Count(ts[1..], 0, p) == 0;
    }
  }

  lemma {:induction false} MisnestedFits(know: string -> Traits, piece: string -> Piece, more: seq<string>, name: string)
    requires Tells(know, piece) && Usable(more) && ShedAll(more, CrLf) == more
    requires |more| == 2 && name == "VALARM" && more[0] == "END:" + name && more[1] == "BEGIN:" + name
    ensures Fits(know, piece, more, MISNESTED_TRAITS)
  {
    MisnestedLines(know, piece, more[0], more[1], name);
    PiecesTold(know, piece, more, [piece(more[0]), piece(more[1])]);
    MisnestedReads(Pieces(more));
    MisnestedTraits(MISNESTED_TRAITS);
  }

  lemma MisnestedUsable(more: seq<string>)
    requires more == MISNESTED
    ensures Usable(more) && ShedAll(more, CrLf) == more
  {
    assert NoReturns(more);
    ShedNothing(more);
  }

  /** The repository's own checks all accept it, given that the parser finds one event.
      The new title is nested, so the next edit does not drop it. */
  lemma MisnestedRepeats(d: Desired)
    requires StampsOk(d)
    ensures var r := RewriteChecked(CalendarWith(MISNESTED), NewTitle(d));
      r.Ok? && RewriteChecked(r.value, NewTitle(d)) != r
  {
    var know, piece := TellersExist();
    MisnestedUsable(MISNESTED);
    MisnestedFits(know, piece, MISNESTED, "VALARM");
    EditIsAccepted(know, piece, MISNESTED, MISNESTED_TRAITS, d);
    MisnestedTraits(MISNESTED_TRAITS);
    OwnCount(Summary);
    NestingAppend(OWN, MISNESTED_TRAITS, 0);
    assert Replaced(NewTitle(d).patch, d, false)[0] == Summary;
    EventIsEditable(MISNESTED_TRAITS);
    RewriteTwice(CalendarWith(MISNESTED), NewTitle(d));
  }
}
