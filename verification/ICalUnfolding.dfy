/** Unfolding a text by deleting folds gives the logical lines that unfolding it line
    by line gives, if no logical line begins with a blank. */
module ICalUnfolding {
  import opened ICalText
  import opened ICalLines
  import opened ICalSplit

  predicate Starts(s: string, c: char) {
    s != "" && s[0] == c
  }

  // ------------------------------------------------------------ deleting folds from written lines

  /** Text put before the first line. */
  function Prefixed(a: string, lines: seq<string>): (r: seq<string>)
    requires lines != []
    ensures |r| == |lines|
  {
    [a + lines[0]] + lines[1..]
  }

  /** Each line that starts with `c` joins the line before it, without the `c`. */
  function Merge(lines: seq<string>, c: char): (r: seq<string>)
    ensures lines != [] ==> r != []
    decreases |lines|
  {
    if |lines| <= 1 then lines
    else if Starts(lines[1], c) then Prefixed(lines[0], Merge([lines[1][1..]] + lines[2..], c))
    else [lines[0]] + Merge(lines[1..], c)
  }

  lemma RemoveThrough(line: string, e: Ending, c: char, rest: string)
    requires Without(line, '\n') && line != ""
    ensures var s := line + EndingText(e) + rest;
      var p := EndingText(e) + [c];
      Remove(s, p) == [line[0]] + Remove(line[1..] + EndingText(e) + rest, p)
  {
    var s, p := line + EndingText(e) + rest, EndingText(e) + [c];
    assert s[1..] == line[1..] + EndingText(e) + rest;
    assert s[0] == line[0] && s[1] == if |line| > 1 then line[1] else EndingText(e)[0];
    assert p[0] != s[0] || p[1] != s[1];
  }

  /** Up to its end, a line is left as it is. */
  lemma {:induction false} RemoveLine(line: string, e: Ending, c: char, rest: string)
    requires Without(line, '\n')
    ensures Remove(line + EndingText(e) + rest, EndingText(e) + [c]) == line + Remove(EndingText(e) + rest, EndingText(e) + [c])
    decreases |line|
  {
    if line == "" {
      assert line + EndingText(e) + rest == EndingText(e) + rest;
    } else {
      RemoveThrough(line, e, c, rest);
      RemoveLine(line[1..], e, c, rest);
    }
  }

  lemma RemoveFold(e: Ending, c: char, rest: string)
    requires Starts(rest, c)
    ensures Remove(EndingText(e) + rest, EndingText(e) + [c]) == Remove(rest[1..], EndingText(e) + [c])
  {
    var s, p, n := EndingText(e) + rest, EndingText(e) + [c], |EndingText(e)|;
    assert s[n..] == rest;
    assert s[..n + 1] == p;
    assert s[n + 1..] == rest[1..];
  }

  lemma RemoveBreak(e: Ending, c: char, rest: string)
    requires c != '\n' && !Starts(rest, c)
    ensures Remove(EndingText(e) + rest, EndingText(e) + [c]) == EndingText(e) + Remove(rest, EndingText(e) + [c])
  {
    if e == CrLf {
      RemoveCrLf(c, rest);
    } else {
      assert ("\n" + rest)[1..] == rest;
      assert rest == "" || ("\n" + rest)[1] != ("\n" + [c])[1];
    }
  }

  lemma RemoveCrLf(c: char, rest: string)
    requires !Starts(rest, c)
    ensures Remove("\r\n" + rest, "\r\n" + [c]) == "\r\n" + Remove(rest, "\r\n" + [c])
  {
    var s, p := "\r\n" + rest, "\r\n" + [c];
    assert rest == "" || s[2] != p[2];
    RemoveNewline(p, rest);
    assert s[1..] == "\n" + rest;
  }

  lemma RemoveNewline(p: string, rest: string)
    requires p != "" && p[0] != '\n'
    ensures Remove("\n" + rest, p) == "\n" + Remove(rest, p)
  {
    assert ("\n" + rest)[1..] == rest;
  }

  lemma PrefixedEmit(a: string, lines: seq<string>, e: Ending)
    requires lines != []
    ensures a + Emit(lines, e) == Emit(Prefixed(a, lines), e)
  {
    EmitHead(lines, e);
    EmitHead(Prefixed(a, lines), e);
    assert Prefixed(a, lines)[1..] == lines[1..];
  }

  lemma EmitTail(line: string, lines: seq<string>, e: Ending)
    requires lines != []
    ensures line + (EndingText(e) + Emit(lines, e)) == Emit([line] + lines, e)
  {
    EmitHead([line] + lines, e);
    assert ([line] + lines)[1..] == lines;
  }

  /** A text without its first character. */
  lemma EmitRest(lines: seq<string>, e: Ending)
    requires lines != [] && lines[0] != ""
    ensures Emit(lines, e)[1..] == Emit([lines[0][1..]] + lines[1..], e)
  {
    var t := [lines[0][1..]] + lines[1..];
    EmitHead(lines, e);
    EmitHead(t, e);
    assert t[1..] == lines[1..];
  }

  lemma EmitStarts(lines: seq<string>, e: Ending, c: char)
    requires lines != [] && c != '\r' && c != '\n'
    ensures Starts(Emit(lines, e), c) == Starts(lines[0], c)
  {
    EmitHead(lines, e);
  }

  /** Deleting folds from written lines merges them. */
  lemma {:induction false} RemoveEmit(lines: seq<string>, e: Ending, c: char)
    requires lines != [] && AllWithout(lines, '\n') && c != '\r' && c != '\n'
    ensures Remove(Emit(lines, e), EndingText(e) + [c]) == Emit(Merge(lines, c), e)
    decreases |lines|
  {
    var line := lines[0];
    EmitHead(lines, e);
    if |lines| == 1 {
      RemoveLine(line, e, c, "");
      RemoveBreak(e, c, "");
      assert EndingText(e) + "" == EndingText(e);
      assert line + EndingText(e) + "" == Emit(lines, e);
    } else {
      var tail := lines[1..];
      RemoveLine(line, e, c, Emit(tail, e));
      EmitStarts(tail, e, c);
      if Starts(tail[0], c) {
        RemoveFold(e, c, Emit(tail, e));
        RemoveJoined(lines, e, c);
      } else {
        RemoveBreak(e, c, Emit(tail, e));
        RemoveEmit(tail, e, c);
        EmitTail(line, Merge(tail, c), e);
      }
    }
  }

  lemma {:induction false} RemoveJoined(lines: seq<string>, e: Ending, c: char)
    requires |lines| > 1 && AllWithout(lines, '\n') && c != '\r' && c != '\n' && Starts(lines[1], c)
    ensures lines[0] + Remove(Emit(lines[1..], e)[1..], EndingText(e) + [c]) == Emit(Merge(lines, c), e)
    decreases |lines|, 0
  {
    var joined := [lines[1][1..]] + lines[2..];
    EmitRest(lines[1..], e);
    assert lines[1..][1..] == lines[2..];
    RemoveEmit(joined, e, c);
    PrefixedEmit(lines[0], Merge(joined, c), e);
  }

  // ------------------------------------------------------------ written lines, unfolded

  function MergeBoth(lines: seq<string>): seq<string> {
    Merge(Merge(lines, ' '), '\t')
  }

  lemma {:induction false} MergeHasNoBreaks(lines: seq<string>, c: char)
    requires AllWithout(lines, '\n')
    ensures AllWithout(Merge(lines, c), '\n')
    decreases |lines|
  {
    if |lines| > 1 {
      if Starts(lines[1], c) {
        MergeHasNoBreaks([lines[1][1..]] + lines[2..], c);
      } else {
        MergeHasNoBreaks(lines[1..], c);
      }
    }
  }

  lemma RemoveFoldsEmit(lines: seq<string>, e: Ending)
    requires lines != [] && AllWithout(lines, '\n')
    ensures RemoveFolds(Emit(lines, e), e) == Emit(MergeBoth(lines), e)
    ensures MergeBoth(lines) != [] && AllWithout(MergeBoth(lines), '\n')
  {
    RemoveEmit(lines, e, ' ');
    MergeHasNoBreaks(lines, ' ');
    RemoveEmit(Merge(lines, ' '), e, '\t');
    MergeHasNoBreaks(Merge(lines, ' '), '\t');
    assert [' '] == " " && ['\t'] == "\t";
  }

  lemma {:induction false} NormalizeEmit(lines: seq<string>)
    requires lines != [] && AllWithout(lines, '\n')
    ensures Normalize(Emit(lines, CrLf)) == Emit(lines, Lf)
    decreases |lines|
  {
    var rest := if |lines| == 1 then "" else Emit(lines[1..], CrLf);
    EmitHead(lines, CrLf);
    EmitHead(lines, Lf);
    NormalizeLine(lines[0], CrLf, rest);
    if |lines| > 1 {
      NormalizeEmit(lines[1..]);
    }
  }

  lemma ShedCons(lines: seq<string>)
    requires lines != []
    ensures ShedAll(lines, CrLf) == [StripReturn(lines[0])] + ShedAll(lines[1..], CrLf)
  {
  }

  lemma FirstOfEmit(lines: seq<string>)
    requires lines != [] && AllWithout(lines, '\n')
    ensures LinesOf(Emit(lines, Lf)) == [StripReturn(lines[0])] + if |lines| == 1 then [] else LinesOf(Emit(lines[1..], Lf))
  {
    EmitHead(lines, Lf);
    FirstLine(lines[0], if |lines| == 1 then "" else Emit(lines[1..], Lf));
  }

  lemma {:induction false} LinesOfLf(lines: seq<string>)
    requires lines != [] && AllWithout(lines, '\n')
    ensures LinesOf(Emit(lines, Lf)) == ShedAll(lines, CrLf)
    decreases |lines|
  {
    FirstOfEmit(lines);
    ShedCons(lines);
    if |lines| > 1 {
      LinesOfLf(lines[1..]);
    }
  }

  lemma NoBomInEmit(lines: seq<string>, e: Ending)
    requires lines != [] && !StartsWithBom(lines)
    ensures StripBom(Emit(lines, e)) == Emit(lines, e)
  {
    EmitHead(lines, e);
  }

  /** The lines of a text written with CR LF. */
  lemma SplitOfCrLf(lines: seq<string>)
    requires lines != [] && AllWithout(lines, '\n') && !StartsWithBom(lines)
    ensures SplitLines(Emit(lines, CrLf)) == ShedAll(MergeBoth(MergeBoth(lines)), CrLf)
  {
    var once := MergeBoth(lines);
    NoBomInEmit(lines, CrLf);
    RemoveFoldsEmit(lines, CrLf);
    NormalizeEmit(once);
    RemoveFoldsEmit(once, Lf);
    LinesOfLf(MergeBoth(once));
  }

  lemma {:induction false} RemoveNothing(s: string, c: char)
    requires !HasCrLf(s)
    ensures Remove(s, "\r\n" + [c]) == s
    decreases |s|
  {
    if s != "" {
      assert |s| > 1 && s[0] == '\r' ==> s[0 + 1] != '\n';
      assert ("\r\n" + [c])[0] == '\r' && ("\r\n" + [c])[1] == '\n';
      NoCrLfAfter(s);
      RemoveNothing(s[1..], c);
    }
  }

  lemma NoCrLfAfter(s: string)
    requires s != "" && !HasCrLf(s)
    ensures !HasCrLf(s[1..])
  {
    var t := s[1..];
    forall i | 0 <= i < |t| - 1 ensures !(t[i] == '\r' && t[i + 1] == '\n') {
      assert !(s[i + 1] == '\r' && s[i + 1 + 1] == '\n');
    }
  }

  lemma {:induction false} NothingToNormalize(s: string)
    requires !HasCrLf(s)
    ensures Normalize(s) == s
    decreases |s|
  {
    if s != "" {
      assert |s| > 1 && s[0] == '\r' ==> s[0 + 1] != '\n';
      NoCrLfAfter(s);
      NothingToNormalize(s[1..]);
    }
  }

  /** The lines of a text written with LF. */
  lemma SplitOfLf(lines: seq<string>)
    requires lines != [] && AllWithout(lines, '\n') && !StartsWithBom(lines) && NoReturns(lines)
    ensures SplitLines(Emit(lines, Lf)) == ShedAll(MergeBoth(lines), CrLf)
  {
    var text := Emit(lines, Lf);
    NoBomInEmit(lines, Lf);
    EndingOfEmit(lines, Lf);
    RemoveNothing(text, ' ');
    RemoveNothing(text, '\t');
    assert "\r\n" + [' '] == EndingText(CrLf) + " " && "\r\n" + ['\t'] == EndingText(CrLf) + "\t";
    NothingToNormalize(text);
    RemoveFoldsEmit(lines, Lf);
    LinesOfLf(MergeBoth(lines));
  }

  // ------------------------------------------------------------ merging and grouping

  /** Each line that starts with a blank joins the line before it, without the blank. */
  function MergeAny(lines: seq<string>): (r: seq<string>)
    ensures lines != [] ==> r != []
    decreases |lines|
  {
    if |lines| <= 1 then lines
    else if StartsBlank(lines[1]) then Prefixed(lines[0], MergeAny([lines[1][1..]] + lines[2..]))
    else [lines[0]] + MergeAny(lines[1..])
  }

  /** No line but the first begins with a blank. */
  predicate LaterFilled(lines: seq<string>) {
    forall i :: 0 < i < |lines| ==> !StartsBlank(lines[i])
  }

  lemma MergePrefixed(a: string, lines: seq<string>, c: char)
    requires lines != []
    ensures Merge(Prefixed(a, lines), c) == Prefixed(a, Merge(lines, c))
  {
    var p := Prefixed(a, lines);
    if |lines| > 1 {
      assert p[1..] == lines[1..] && p[2..] == lines[2..];
      if Starts(lines[1], c) {
        var m := Merge([lines[1][1..]] + lines[2..], c);
        assert a + lines[0] + m[0] == a + (lines[0] + m[0]);
      }
    }
  }

  lemma {:induction false} MergeKeepsStart(lines: seq<string>, c: char)
    requires lines != []
    ensures |lines[0]| <= |Merge(lines, c)[0]| && Merge(lines, c)[0][..|lines[0]|] == lines[0]
  {
  }

  /** Merging at spaces and then at tabs merges at blanks. */
  lemma {:induction false} BothIsAny(lines: seq<string>)
    requires lines != [] && LaterFilled(MergeAny(lines))
    ensures MergeBoth(lines) == MergeAny(lines)
    decreases |lines|
  {
    if |lines| > 1 {
      if StartsBlank(lines[1]) {
        BothIsAnyJoined(lines);
      } else {
        BothIsAnyApart(lines);
      }
    }
  }

  /** Whichever blank a line starts with, it joins the line before it. */
  lemma JoinedAtSpace(lines: seq<string>, next: seq<string>)
    requires |lines| > 1 && Starts(lines[1], ' ') && next == [lines[1][1..]] + lines[2..]
    ensures MergeBoth(lines) == Prefixed(lines[0], MergeBoth(next))
  {
    MergePrefixed(lines[0], Merge(next, ' '), '\t');
  }

  lemma TabIsPrefix(lines: seq<string>, next: seq<string>)
    requires |lines| > 1 && Starts(lines[1], '\t') && next == [lines[1][1..]] + lines[2..]
    ensures Merge(lines, ' ') == [lines[0]] + Prefixed("\t", Merge(next, ' '))
  {
    assert "\t" + lines[1][1..] == lines[1] && next[1..] == lines[2..];
    assert lines[1..] == Prefixed("\t", next);
    MergePrefixed("\t", next, ' ');
  }

  lemma MergeAtTab(f: string, lines: seq<string>)
    requires lines != []
    ensures Merge([f] + Prefixed("\t", lines), '\t') == Prefixed(f, Merge(lines, '\t'))
  {
    var all := [f] + Prefixed("\t", lines);
    assert all[1][1..] == lines[0] && all[2..] == lines[1..];
    assert [lines[0]] + lines[1..] == lines;
  }

  lemma JoinedAtTab(lines: seq<string>, next: seq<string>)
    requires |lines| > 1 && Starts(lines[1], '\t') && next == [lines[1][1..]] + lines[2..]
    ensures MergeBoth(lines) == Prefixed(lines[0], MergeBoth(next))
  {
    TabIsPrefix(lines, next);
    MergeAtTab(lines[0], Merge(next, ' '));
  }

  lemma {:induction false} BothIsAnyJoined(lines: seq<string>)
    requires |lines| > 1 && StartsBlank(lines[1]) && LaterFilled(MergeAny(lines))
    ensures MergeBoth(lines) == MergeAny(lines)
    decreases |lines|, 0
  {
    var next := [lines[1][1..]] + lines[2..];
    assert forall i :: 0 < i < |MergeAny(next)| ==> MergeAny(next)[i] == MergeAny(lines)[i];
    BothIsAny(next);
    if Starts(lines[1], '\t') {
      JoinedAtTab(lines, next);
    } else {
      JoinedAtSpace(lines, next);
    }
  }

  lemma {:induction false} BothIsAnyApart(lines: seq<string>)
    requires |lines| > 1 && !StartsBlank(lines[1]) && LaterFilled(MergeAny(lines))
    ensures MergeBoth(lines) == MergeAny(lines)
    decreases |lines|, 0
  {
    var tail := lines[1..];
    var any := MergeAny(tail);
    assert MergeAny(lines) == [lines[0]] + any;
    assert forall i :: 0 <= i < |any| ==> any[i] == MergeAny(lines)[i + 1];
    BothIsAny(tail);
    var m := Merge(tail, ' ');
    MergeKeepsStart(m, '\t');
    assert m[0] != "" ==> m[0][0] == any[0][0];
    assert ([lines[0]] + m)[1..] == m;
  }

  /** A line with its continuations is merged into one. */
  lemma {:induction false} MergeGroup(g: seq<string>, lines: seq<string>)
    requires IsGroup(g) && (lines != [] ==> !StartsBlank(lines[0]))
    ensures MergeAny(g + lines) == [Unfolded(g)] + MergeAny(lines)
    decreases |g|
  {
    if |g| == 1 {
      MergeAlone(g[0], lines);
      assert g == [g[0]] && g[1..] == [] && g[0] + "" == g[0];
    } else {
      var next := [g[1][1..]] + g[2..];
      NextGroup(g, next);
      MergeGroup(next, lines);
      MergeNext(g, lines, next);
    }
  }

  lemma MergeAlone(line: string, lines: seq<string>)
    requires lines != [] ==> !StartsBlank(lines[0])
    ensures MergeAny([line] + lines) == [line] + MergeAny(lines)
  {
    assert ([line] + lines)[1..] == lines;
    assert lines == [] ==> [line] + lines == [line];
  }

  lemma NextGroup(g: seq<string>, next: seq<string>)
    requires IsGroup(g) && |g| > 1 && next == [g[1][1..]] + g[2..]
    ensures IsGroup(next) && Unfolded(g) == g[0] + Unfolded(next)
  {
    assert next[1..] == g[2..] == g[1..][1..];
    assert forall i :: 0 <= i < |next[1..]| ==> next[1..][i] == g[1..][i + 1];
  }

  lemma MergeNext(g: seq<string>, lines: seq<string>, next: seq<string>)
    requires |g| > 1 && StartsBlank(g[1]) && next == [g[1][1..]] + g[2..]
    ensures MergeAny(g + lines) == Prefixed(g[0], MergeAny(next + lines))
  {
    var all := g + lines;
    assert [all[1][1..]] + all[2..] == next + lines;
  }

  function Texts(ls: seq<Line>): (r: seq<string>)
    ensures |r| == |ls| && forall i :: 0 <= i < |ls| ==> r[i] == ls[i].text
  {
    seq(|ls|, i requires 0 <= i < |ls| => ls[i].text)
  }

  lemma {:induction false} MergeOfFlat(ls: seq<Line>)
    requires forall i :: 0 <= i < |ls| ==> LineOk(ls[i]) && (i > 0 ==> !StartsBlank(ls[i].physical[0]))
    ensures MergeAny(Flat(ls)) == Texts(ls)
    decreases |ls|
  {
    if ls != [] {
      var rest := Flat(ls[1..]);
      FlatHead(ls);
      if |ls| > 1 {
        FlatHead(ls[1..]);
      }
      MergeOfFlat(ls[1..]);
      MergeGroup(ls[0].physical, rest);
    }
  }

  lemma FlatHead(ls: seq<Line>)
    requires ls != []
    ensures Flat(ls) == ls[0].physical + Flat(ls[1..])
    ensures ls[0].physical != [] ==> Flat(ls)[0] == ls[0].physical[0]
  {
    assert ls == [ls[0]] + ls[1..];
    FlatAppend([ls[0]], ls[1..]);
    assert [ls[0]][..0] == [];
  }

  lemma {:induction false} NothingToMerge(lines: seq<string>, c: char)
    requires LaterFilled(lines) && (c == ' ' || c == '\t')
    ensures Merge(lines, c) == lines
    decreases |lines|
  {
    if |lines| > 1 {
      assert forall i :: 0 < i < |lines[1..]| ==> lines[1..][i] == lines[i + 1];
      NothingToMerge(lines[1..], c);
    }
  }

  lemma EndsApart(a: string, b: string)
    requires !EndsReturn(a) && !EndsReturn(b)
    ensures !EndsReturn(a + b)
  {
  }

  lemma {:induction false} ContinuationEnds(lines: seq<string>)
    requires Continues(lines) && NoReturns(lines)
    ensures !EndsReturn(Continuation(lines))
  {
    if lines != [] {
      assert lines[0][1..] != "" ==> lines[0][1..][|lines[0]| - 2] == lines[0][|lines[0]| - 1];
      ContinuationEnds(lines[1..]);
      EndsApart(lines[0][1..], Continuation(lines[1..]));
    }
  }

  lemma {:induction false} TextsEnd(ls: seq<Line>)
    requires NoReturns(Flat(ls)) && forall i :: 0 <= i < |ls| ==> LineOk(ls[i])
    ensures NoReturns(Texts(ls))
    decreases |ls|
  {
    if ls != [] {
      var g := ls[0].physical;
      FlatHead(ls);
      assert forall i :: 0 <= i < |g| ==> g[i] == Flat(ls)[i];
      assert forall i :: 0 <= i < |Flat(ls[1..])| ==> Flat(ls[1..])[i] == Flat(ls)[|g| + i];
      TextsEnd(ls[1..]);
      ContinuationEnds(g[1..]);
      EndsApart(g[0], Continuation(g[1..]));
      assert forall i :: 0 < i < |ls| ==> Texts(ls)[i] == Texts(ls[1..])[i - 1];
    }
  }

  lemma ShedNothing(lines: seq<string>)
    requires NoReturns(lines)
    ensures ShedAll(lines, CrLf) == lines
  {
  }

  /** Written lines, unfolded by deletion, are their logical texts. */
  lemma SplitOfLines(ls: seq<Line>, e: Ending)
    requires ls != [] && LinesOk(ls) && LaterFilled(Texts(ls))
    requires AllWithout(Flat(ls), '\n') && !StartsWithBom(Flat(ls)) && NoReturns(Flat(ls))
    ensures SplitLines(Emit(Flat(ls), e)) == Texts(ls)
  {
    var f, texts := Flat(ls), Texts(ls);
    FlatHead(ls);
    MergeOfFlat(ls);
    BothIsAny(f);
    TextsEnd(ls);
    ShedNothing(texts);
    if e == CrLf {
      SplitOfCrLf(f);
      NothingToMerge(texts, ' ');
      NothingToMerge(texts, '\t');
    } else {
      SplitOfLf(f);
    }
  }

  /** Lines without folds, written with CR LF, lose one trailing carriage return each. */
  lemma SplitOfPlain(lines: seq<string>)
    requires lines != [] && AllWithout(lines, '\n') && !StartsWithBom(lines) && LaterFilled(lines)
    ensures SplitLines(Emit(lines, CrLf)) == ShedAll(lines, CrLf)
  {
    SplitOfCrLf(lines);
    NothingToMerge(lines, ' ');
    NothingToMerge(lines, '\t');
  }
}
