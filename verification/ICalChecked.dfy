/** Rewriting one event of a complete calendar leaves a complete calendar with as many
    events, so a repeated edit passes the first check again. */
module ICalChecked {
  import opened Basics
  import opened Splitting
  import opened ICalText
  import opened ICalLines
  import opened ICalEvents
  import opened ICalProperties
  import opened ICalKeeping
  import opened ICalSplit
  import opened ICalUnfolding
  import opened ICalRewrite
  import opened ICalLaws
  import opened ICalRepeat

  // ------------------------------------------------------------ lines that change no reading

  /** A line that is skipped inside the calendar. */
  predicate Skipped(p: Piece) {
    !p.blank && !p.closes && p.marker == Plain
  }

  predicate AllSkipped(ps: seq<Piece>) {
    forall i :: 0 <= i < |ps| ==> Skipped(ps[i])
  }

  lemma NotNamed(t: string, name: string)
    requires t != "" && name != "" && Upper(t[0]) != Upper(name[0])
    ensures !SameName(t, name)
  {
    if SameName(t, name) {
      SameNameFirst(t, name);
    }
  }

  /** A line that names a property is skipped. */
  lemma NamedIsSkipped(line: string)
    requires PropertyOf(line).Some?
    ensures Skipped(PieceOf(line))
  {
    TraitsAreOk(line);
    NamedBegins(line);
    FirstLetter(PropertyOf(line).value);
    LetterIsNotWhite(line[0]);
    TrimKeepsName(line);
    NotNamed(Trim(line), "END:VCALENDAR");
  }

  /** Between the first line of a calendar and its end. */
  predicate Open(s: Reading) {
    s.Among? || s.Within?
  }

  lemma {:induction false} SkippedChangesNothing(s: Reading, ps: seq<Piece>)
    requires Open(s) && AllSkipped(ps)
    ensures ReadAll(s, ps) == s
    decreases |ps|
  {
    if ps != [] {
      SkippedChangesNothing(s, ps[1..]);
    }
  }

  /** A calendar that is still open was open before. */
  lemma {:induction false} OpenBefore(s: Reading, ps: seq<Piece>)
    requires s != Before && Open(ReadAll(s, ps))
    ensures Open(s)
    decreases |ps|
  {
    if ps != [] {
      OpenBefore(Read(s, ps[0]), ps[1..]);
    }
  }

  // ------------------------------------------------------------ the rewritten lines

  function PiecesIn(ls: seq<Line>): (r: seq<Piece>)
    ensures |r| == |ls| && forall i :: 0 <= i < |ls| ==> r[i] == PieceOf(ls[i].text)
  {
    seq(|ls|, i requires 0 <= i < |ls| => PieceOf(ls[i].text))
  }

  lemma PiecesOfTexts(ls: seq<Line>)
    ensures Pieces(Texts(ls)) == PiecesIn(ls)
  {
  }

  lemma PiecesAppend(a: seq<Line>, b: seq<Line>)
    ensures PiecesIn(a + b) == PiecesIn(a) + PiecesIn(b)
  {
  }

  lemma PiecesCons(ls: seq<Line>)
    requires ls != []
    ensures PiecesIn(ls) == [PieceOf(ls[0].text)] + PiecesIn(ls[1..])
  {
  }

  lemma ReadCons(s: Reading, p: Piece, ps: seq<Piece>)
    ensures ReadAll(s, [p] + ps) == ReadAll(Read(s, p), ps)
  {
    assert ([p] + ps)[1..] == ps;
  }

  /** What is dropped changes no reading. */
  lemma {:induction false} KeptReads(ls: seq<Line>, ts: seq<Traits>, depth: nat, patch: Patch, s: Reading)
    requires ts == TraitsIn(ls) && s != Before
    requires Open(ReadAll(s, PiecesIn(ls))) || Open(ReadAll(s, PiecesIn(Keep(ls, ts, depth, patch))))
    ensures ReadAll(s, PiecesIn(Keep(ls, ts, depth, patch))) == ReadAll(s, PiecesIn(ls))
    decreases |ls|
  {
    if ls != [] {
      var p := PieceOf(ls[0].text);
      PiecesCons(ls);
      ReadCons(s, p, PiecesIn(ls[1..]));
      if Open(ReadAll(s, PiecesIn(ls))) {
        OpenBefore(s, PiecesIn(ls));
      } else {
        OpenBefore(s, PiecesIn(Keep(ls, ts, depth, patch)));
      }
      if depth == 0 && Drops(patch, ts[0]) {
        NamedIsSkipped(ls[0].text);
        KeptReads(ls[1..], ts[1..], depth, patch, s);
      } else {
        var next := DepthStep(depth, ts[0].marker);
        var kept := Keep(ls[1..], ts[1..], next, patch);
        PiecesAppend([ls[0]], kept);
        PiecesCons([ls[0]]);
        ReadCons(s, p, PiecesIn(kept));
        KeptReads(ls[1..], ts[1..], next, patch, Read(s, p));
      }
    }
  }

  lemma ReplacementIsSkipped(edit: Edit, useDuration: bool)
    requires StampsOk(edit.desired)
    ensures AllSkipped(PiecesIn(Replacement(edit, useDuration)))
  {
    var rep := Replacement(edit, useDuration);
    forall i | 0 <= i < |rep| ensures Skipped(PiecesIn(rep)[i]) {
      ReplacementIsFolded(edit, useDuration, i);
      NamedIsSkipped(rep[i].text);
    }
  }

  /** Neither the drop nor the replacement changes what is read. */
  lemma InsideReads(ls: seq<Line>, ts: seq<Traits>, edit: Edit, s: Reading)
    requires ts == TraitsIn(ls) && StampsOk(edit.desired) && s != Before
    requires Open(ReadAll(s, PiecesIn(ls))) || Open(ReadAll(s, PiecesIn(Inside(ls, ts, edit))))
    ensures ReadAll(s, PiecesIn(Inside(ls, ts, edit))) == ReadAll(s, PiecesIn(ls))
  {
    var kept, rep := Keep(ls, ts, 0, edit.patch), Replacement(edit, UsesDuration(ts));
    ReplacementIsSkipped(edit, UsesDuration(ts));
    PiecesAppend(kept, rep);
    ReadAppend(s, PiecesIn(kept), PiecesIn(rep));
    BegunStays(s, PiecesIn(kept));
    if !Open(ReadAll(s, PiecesIn(ls))) {
      OpenBefore(ReadAll(s, PiecesIn(kept)), PiecesIn(rep));
    }
    KeptReads(ls, ts, 0, edit.patch, s);
    SkippedChangesNothing(ReadAll(s, PiecesIn(kept)), PiecesIn(rep));
  }

  lemma ReadThree(s: Reading, a: seq<Line>, x: seq<Line>, b: seq<Line>)
    ensures ReadAll(s, PiecesIn(a + x + b)) == ReadAll(ReadAll(ReadAll(s, PiecesIn(a)), PiecesIn(x)), PiecesIn(b))
  {
    PiecesAppend(a + x, b);
    PiecesAppend(a, x);
    ReadAppend(s, PiecesIn(a + x), PiecesIn(b));
    ReadAppend(s, PiecesIn(a), PiecesIn(x));
  }

  /** Before the first marker the reading may not have begun; after it, it has. */
  lemma {:induction false} BegunAfter(s: Reading, ps: seq<Piece>)
    requires ps != [] && !ps[|ps| - 1].blank
    ensures ReadAll(s, ps) != Before
    decreases |ps|
  {
    if |ps| > 1 {
      assert ps[1..][|ps| - 2] == ps[|ps| - 1];
      BegunAfter(Read(s, ps[0]), ps[1..]);
    }
  }

  /** A marker that the calendar does not end before finds it open. */
  lemma OpenAtMarker(s: Reading, p: Piece, ps: seq<Piece>)
    requires s != Before && !p.blank && ReadAll(s, [p] + ps) != Refused
    ensures Open(s)
  {
    ReadCons(s, p, ps);
    if !Open(s) {
      RefusedStays(ps);
    }
  }

  lemma MarkerIsFilled(line: string)
    requires MarkerOf(line) != Plain
    ensures !PieceOf(line).blank
  {
  }

  /** The rewritten lines are a complete calendar exactly when the lines were, and then
      of as many events. */
  lemma {:induction false} RewriteKeepsCount(ls: seq<Line>, ts: seq<Traits>, r: Range, edit: Edit)
    requires ts == TraitsIn(ls) && Target(ls, ts, edit) == Ok(r) && StampsOk(edit.desired)
    ensures EventCount(PiecesIn(RewriteAt(ls, ts, r, edit))) == EventCount(PiecesIn(ls))
  {
    var a, x, b := ls[..r.start + 1], ls[r.start + 1..r.end], ls[r.end..];
    MarkersOfTarget(ls, ts, r, edit);
    ThreeParts(ls, r.start + 1, r.end);
    TraitsOfSlice(ls, r.start + 1, r.end);
    CountKept3(a, x, b, ls, ts[r.start + 1..r.end], edit);
  }

  lemma MarkersOfTarget(ls: seq<Line>, ts: seq<Traits>, r: Range, edit: Edit)
    requires ts == TraitsIn(ls) && Target(ls, ts, edit) == Ok(r)
    ensures MarkerOf(ls[r.start].text) != Plain && MarkerOf(ls[r.end].text) != Plain
  {
    RangeFacts(Marks(ts), edit.selected);
    TraitAt(ls, r.start);
    TraitAt(ls, r.end);
  }

  lemma CountKept3(a: seq<Line>, x: seq<Line>, b: seq<Line>, ls: seq<Line>, ts: seq<Traits>, edit: Edit)
    requires ls == a + x + b && a != [] && b != [] && ts == TraitsIn(x) && StampsOk(edit.desired)
    requires MarkerOf(a[|a| - 1].text) != Plain && MarkerOf(b[0].text) != Plain
    ensures EventCount(PiecesIn(a + Inside(x, ts, edit) + b)) == EventCount(PiecesIn(ls))
  {
    var s := ReadAll(Before, PiecesIn(a));
    MarkerIsFilled(a[|a| - 1].text);
    MarkerIsFilled(b[0].text);
    BegunAfter(Before, PiecesIn(a));
    ReadThree(Before, a, x, b);
    ReadThree(Before, a, Inside(x, ts, edit), b);
    if EventCount(PiecesIn(ls)).Ok? {
      OpenAtEnd(s, x, b);
      InsideReads(x, ts, edit, s);
    } else if EventCount(PiecesIn(a + Inside(x, ts, edit) + b)).Ok? {
      OpenAtEnd(s, Inside(x, ts, edit), b);
      InsideReads(x, ts, edit, s);
    }
  }

  /** A complete calendar is open at a marker. */
  lemma OpenAtEnd(s: Reading, x: seq<Line>, b: seq<Line>)
    requires s != Before && b != [] && !PieceOf(b[0].text).blank
    requires ReadAll(ReadAll(s, PiecesIn(x)), PiecesIn(b)).After?
    ensures Open(ReadAll(s, PiecesIn(x)))
  {
    BegunStays(s, PiecesIn(x));
    PiecesCons(b);
    OpenAtMarker(ReadAll(s, PiecesIn(x)), PieceOf(b[0].text), PiecesIn(b[1..]));
  }

  lemma {:induction false} BegunStays(s: Reading, ps: seq<Piece>)
    requires s != Before
    ensures ReadAll(s, ps) != Before
    decreases |ps|
  {
    if ps != [] {
      BegunStays(Read(s, ps[0]), ps[1..]);
    }
  }

  // ------------------------------------------------------------ on texts

  /** Both ways of unfolding the text agree, and no logical line but the first begins
      with a blank. */
  predicate UnfoldsAlike(text: string) {
    SplitLines(text) == Texts(LinesIn(text)) && LaterFilled(Texts(LinesIn(text)))
  }

  predicate Filled(ls: seq<Line>) {
    forall i :: 0 <= i < |ls| ==> !StartsBlank(ls[i].text)
  }

  lemma {:induction false} KeptFilled(ls: seq<Line>, ts: seq<Traits>, depth: nat, patch: Patch)
    requires |ls| == |ts| && Filled(ls)
    ensures Filled(Keep(ls, ts, depth, patch))
    decreases |ls|
  {
    if ls != [] {
      KeptFilled(ls[1..], ts[1..], if depth == 0 && Drops(patch, ts[0]) then depth else DepthStep(depth, ts[0].marker), patch);
    }
  }

  lemma ReplacementFilled(edit: Edit, useDuration: bool)
    requires StampsOk(edit.desired)
    ensures Filled(Replacement(edit, useDuration))
  {
    var ps := Replaced(edit.patch, edit.desired, useDuration);
    forall i | 0 <= i < |ps| ensures !StartsBlank(Replacement(edit, useDuration)[i].text) {
      ContentFacts(ps[i], edit.desired);
    }
  }

  lemma InsideFilled(ls: seq<Line>, ts: seq<Traits>, edit: Edit)
    requires |ls| == |ts| && Filled(ls) && StampsOk(edit.desired)
    ensures Filled(Inside(ls, ts, edit))
  {
    KeptFilled(ls, ts, 0, edit.patch);
    ReplacementFilled(edit, UsesDuration(ts));
  }

  lemma LaterOfThree(a: seq<Line>, x: seq<Line>, b: seq<Line>)
    requires a != [] && LaterFilled(Texts(a)) && Filled(x) && Filled(b)
    ensures LaterFilled(Texts(a + x + b))
  {
    var all := a + x + b;
    forall i | 0 < i < |all| ensures !StartsBlank(all[i].text) {
      if i >= |a| + |x| {
        assert all[i] == b[i - |a| - |x|];
      } else if i >= |a| {
        assert all[i] == x[i - |a|];
      } else {
        assert all[i].text == Texts(a)[i];
      }
    }
  }

  lemma LaterParts(ls: seq<Line>, i: nat, j: nat)
    requires 0 < i <= j <= |ls| && LaterFilled(Texts(ls))
    ensures LaterFilled(Texts(ls[..i])) && Filled(ls[i..j]) && Filled(ls[j..])
  {
    assert forall k :: 0 <= k < |ls| ==> Texts(ls)[k] == ls[k].text;
  }

  lemma RewrittenFilled(ls: seq<Line>, ts: seq<Traits>, r: Range, edit: Edit)
    requires |ls| == |ts| && r.start < r.end < |ls| && LaterFilled(Texts(ls)) && StampsOk(edit.desired)
    ensures LaterFilled(Texts(RewriteAt(ls, ts, r, edit)))
  {
    var x, inside := ls[r.start + 1..r.end], ts[r.start + 1..r.end];
    LaterParts(ls, r.start + 1, r.end);
    InsideFilled(x, inside, edit);
    LaterOfThree(ls[..r.start + 1], Inside(x, inside, edit), ls[r.end..]);
  }

  /** The first check of the output counts the events among the logical lines of the text. */
  lemma OutputCount(text: string, edit: Edit)
    requires Rewrite(text, edit).Ok? && StampsOk(edit.desired) && LaterFilled(Texts(LinesIn(text)))
    requires var ls := LinesIn(text); KeepsNoReturns(ls, TraitsIn(ls), Target(ls, TraitsIn(ls), edit).value, edit)
    ensures SplitCalendar(Rewrite(text, edit).value) == EventCount(PiecesIn(LinesIn(text)))
  {
    var ls := LinesIn(text);
    var ts := TraitsIn(ls);
    var r := Target(ls, ts, edit).value;
    var after := RewriteAt(ls, ts, r, edit);
    TextIsReadable(text);
    RewrittenIsReadable(ls, ts, r, edit);
    ReturnsAreKept(ls, ts, r, edit);
    RewrittenFilled(ls, ts, r, edit);
    SplitOfLines(after, EndingOf(text));
    PiecesOfTexts(after);
    RewriteKeepsCount(ls, ts, r, edit);
  }

  /** With the first check. In general, repeating an edit changes nothing exactly when it
      is settled, no kept line ends in a carriage return, and the output passes that check
      again. If no logical line but the first begins with a blank, it does exactly when the
      logical lines of the text are a complete calendar of as many events; and that they
      are, if both ways of unfolding the text agree. */
  lemma RepeatChecked(text: string, edit: Edit)
    requires RewriteChecked(text, edit).Ok? && StampsOk(edit.desired)
    ensures var ls := LinesIn(text);
      var ts := TraitsIn(ls);
      var r := Target(ls, ts, edit).value;
      var output := RewriteChecked(text, edit).value;
      var repeats := Settled(ts[r.start + 1..r.end], edit.patch, edit.desired) && KeepsNoReturns(ls, ts, r, edit);
      && (RewriteChecked(output, edit) == Ok(output) <==> repeats && SplitCalendar(output) == Ok(edit.parsed))
      && (LaterFilled(Texts(ls)) ==>
            (RewriteChecked(output, edit) == Ok(output) <==> repeats && EventCount(PiecesIn(ls)) == Ok(edit.parsed)))
      && (UnfoldsAlike(text) ==> (RewriteChecked(output, edit) == Ok(output) <==> repeats))
  {
    var ls := LinesIn(text);
    var ts := TraitsIn(ls);
    var r := Target(ls, ts, edit).value;
    RewriteTwice(text, edit);
    PiecesOfTexts(ls);
    if LaterFilled(Texts(ls)) && KeepsNoReturns(ls, ts, r, edit) {
      OutputCount(text, edit);
    }
  }

  // ------------------------------------------------------------ components that match

  /** Nested components that are opened before they are closed, and closed. */
  predicate Nests(ts: seq<Traits>, depth: nat) {
    if ts == [] then depth == 0
    else (ts[0].marker.End? ==> depth > 0) && Nests(ts[1..], DepthStep(depth, ts[0].marker))
  }

  /** Where they are, as a parser that matches names demands, only stray lines keep an
      edit from being settled. */
  lemma {:induction false} NestedIsSettled(ts: seq<Traits>, patch: Patch, d: Desired)
    requires Nests(ts, 0)
    ensures Settled(ts, patch, d) <==> NoStrays(ts, patch, d)
  {
    NestsToNothing(ts, 0);
  }

  lemma {:induction false} NestsToNothing(ts: seq<Traits>, depth: nat)
    requires Nests(ts, depth)
    ensures Nesting(ts, depth) == 0
    decreases |ts|
  {
    if ts != [] {
      NestsToNothing(ts[1..], DepthStep(depth, ts[0].marker));
    }
  }
}
