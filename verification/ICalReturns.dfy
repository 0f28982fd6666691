/** Carriage returns at the ends of lines: reading written lines sheds some, so lines
    that have any do not survive a second rewriting. */
module ICalReturns {
  import opened Basics
  import opened ICalText
  import opened ICalLines
  import opened ICalEvents
  import opened ICalProperties
  import opened ICalKeeping
  import opened ICalRewrite
  import opened ICalLaws

  // ------------------------------------------------------------ counting

  /** How many carriage returns end a line. */
  function Returns(s: string): nat {
    if EndsReturn(s) then 1 + Returns(s[..|s| - 1]) else 0
  }

  function Total(lines: seq<string>): nat {
    if lines == [] then 0 else Returns(lines[0]) + Total(lines[1..])
  }

  lemma {:induction false} TotalAppend(a: seq<string>, b: seq<string>)
    ensures Total(a + b) == Total(a) + Total(b)
  {
    if a == [] {
      assert a + b == b;
    } else {
      assert (a + b)[1..] == a[1..] + b;
      TotalAppend(a[1..], b);
    }
  }

  lemma ShedReturns(line: string, e: Ending)
    ensures Returns(Shed(line, e)) <= Returns(line)
    ensures EndsReturn(line) ==> Returns(Shed(line, e)) < Returns(line)
  {
    var once := StripReturn(line);
    assert Returns(once) <= Returns(line);
    assert Returns(StripReturn(once)) <= Returns(once);
  }

  /** Reading sheds a return of every line that ends in one. */
  lemma {:induction false} ShedTotal(lines: seq<string>, e: Ending)
    ensures Total(ShedAll(lines, e)) <= Total(lines)
    ensures !NoReturns(lines) ==> Total(ShedAll(lines, e)) < Total(lines)
  {
    if lines != [] {
      ShedReturns(lines[0], e);
      ShedTotal(lines[1..], e);
      assert ShedAll(lines, e)[1..] == ShedAll(lines[1..], e);
      if NoReturns(lines[1..]) && !EndsReturn(lines[0]) {
        assert forall i :: 0 <= i < |lines| ==> lines[i] == if i == 0 then lines[0] else lines[1..][i - 1];
      }
    }
  }

  lemma {:induction false} NoneInTotal(lines: seq<string>)
    requires NoReturns(lines)
    ensures Total(lines) == 0
  {
    if lines != [] {
      NoneInTotal(lines[1..]);
    }
  }

  // ------------------------------------------------------------ the weight of lines

  /** How many carriage returns end the physical lines of some lines. */
  function Weight(ls: seq<Line>): nat {
    if ls == [] then 0 else Total(ls[0].physical) + Weight(ls[1..])
  }

  lemma {:induction false} WeightIsTotal(ls: seq<Line>)
    ensures Weight(ls) == Total(Flat(ls))
  {
    if ls != [] {
      FlatCons(ls);
      TotalAppend(ls[0].physical, Flat(ls[1..]));
      WeightIsTotal(ls[1..]);
    }
  }

  lemma {:induction false} WeightAppend(a: seq<Line>, b: seq<Line>)
    ensures Weight(a + b) == Weight(a) + Weight(b)
  {
    if a == [] {
      assert a + b == b;
    } else {
      assert (a + b)[1..] == a[1..] + b;
      WeightAppend(a[1..], b);
    }
  }

  lemma {:induction false} KeepWeight(ls: seq<Line>, ts: seq<Traits>, depth: nat, patch: Patch)
    requires |ls| == |ts|
    ensures Weight(Keep(ls, ts, depth, patch)) <= Weight(ls)
    decreases |ls|
  {
    if ls != [] {
      KeepWeight(ls[1..], ts[1..], if depth == 0 && Drops(patch, ts[0]) then depth else DepthStep(depth, ts[0].marker), patch);
    }
  }

  lemma WeightOfThree(a: seq<Line>, x: seq<Line>, b: seq<Line>)
    ensures Weight(a + x + b) == Weight(a) + Weight(x) + Weight(b)
  {
    WeightAppend(a + x, b);
    WeightAppend(a, x);
  }

  lemma WeightBetween(ls: seq<Line>, i: nat, j: nat, x: seq<Line>)
    requires i <= j <= |ls| && Weight(x) <= Weight(ls[i..j])
    ensures Weight(ls[..i] + x + ls[j..]) <= Weight(ls)
  {
    ThreeParts(ls, i, j);
    WeightOfThree(ls[..i], ls[i..j], ls[j..]);
    WeightOfThree(ls[..i], x, ls[j..]);
  }

  lemma ReplacementWeight(edit: Edit, useDuration: bool)
    requires StampsOk(edit.desired)
    ensures Weight(Replacement(edit, useDuration)) == 0
  {
    var rep := Replacement(edit, useDuration);
    ReplacementEach(edit, useDuration);
    NoReturnsIsEach(Flat(rep));
    NoneInTotal(Flat(rep));
    WeightIsTotal(rep);
  }

  lemma InsideWeight(x: seq<Line>, inside: seq<Traits>, edit: Edit)
    requires |x| == |inside| && StampsOk(edit.desired)
    ensures Weight(Inside(x, inside, edit)) <= Weight(x)
  {
    KeepWeight(x, inside, 0, edit.patch);
    ReplacementWeight(edit, UsesDuration(inside));
    WeightAppend(Keep(x, inside, 0, edit.patch), Replacement(edit, UsesDuration(inside)));
  }

  lemma RewrittenPart(ls: seq<Line>, ts: seq<Traits>, r: Range, edit: Edit) returns (x: seq<Line>)
    requires |ts| == |ls| && r.start < r.end < |ls|
    ensures RewriteAt(ls, ts, r, edit) == ls[..r.start + 1] + x + ls[r.end..]
    ensures StampsOk(edit.desired) ==> Weight(x) <= Weight(ls[r.start + 1..r.end])
  {
    x := Inside(ls[r.start + 1..r.end], ts[r.start + 1..r.end], edit);
    if StampsOk(edit.desired) {
      InsideWeight(ls[r.start + 1..r.end], ts[r.start + 1..r.end], edit);
    }
  }

  /** Rewriting adds no trailing carriage return. */
  lemma RewriteWeight(ls: seq<Line>, ts: seq<Traits>, r: Range, edit: Edit)
    requires |ts| == |ls| && r.start < r.end < |ls| && StampsOk(edit.desired)
    ensures Weight(RewriteAt(ls, ts, r, edit)) <= Weight(ls)
  {
    var x := RewrittenPart(ls, ts, r, edit);
    WeightBetween(ls, r.start + 1, r.end, x);
  }

  // ------------------------------------------------------------ written text determines its lines

  /** A line as it is written, up to its line feed. */
  function Written(line: string, e: Ending): string {
    if e == CrLf then line + "\r" else line
  }

  lemma WrittenHead(lines: seq<string>, e: Ending)
    requires lines != [] && AllWithout(lines, '\n')
    ensures var text := Emit(lines, e);
      var n := |Written(lines[0], e)|;
      && LineLength(text) == n && n < |text| && text[..n] == Written(lines[0], e)
      && text[n + 1..] == if |lines| == 1 then "" else Emit(lines[1..], e)
  {
    EmitHead(lines, e);
    var rest := if |lines| == 1 then "" else Emit(lines[1..], e);
    var w := Written(lines[0], e);
    assert Emit(lines, e) == w + "\n" + rest;
    LineLengthOf(w, rest);
  }

  lemma EmitIsNotEmpty(lines: seq<string>, e: Ending)
    ensures Emit(lines, e) != ""
  {
  }

  lemma SameHead(f: seq<string>, g: seq<string>, e: Ending)
    requires f != [] && g != [] && AllWithout(f, '\n') && AllWithout(g, '\n') && Emit(f, e) == Emit(g, e)
    ensures f[0] == g[0] && (|f| > 1 <==> |g| > 1)
    ensures |f| > 1 ==> Emit(f[1..], e) == Emit(g[1..], e)
  {
    WrittenHead(f, e);
    WrittenHead(g, e);
    assert Written(f[0], e)[..|f[0]|] == f[0] && Written(g[0], e)[..|g[0]|] == g[0];
    EmitIsNotEmpty(f[1..], e);
    EmitIsNotEmpty(g[1..], e);
  }

  lemma {:induction false} EmitIsInjective(f: seq<string>, g: seq<string>, e: Ending)
    requires f != [] && g != [] && AllWithout(f, '\n') && AllWithout(g, '\n') && Emit(f, e) == Emit(g, e)
    ensures f == g
    decreases |f|
  {
    SameHead(f, g, e);
    if |f| > 1 {
      EmitIsInjective(f[1..], g[1..], e);
    }
    assert f == [f[0]] + f[1..] && g == [g[0]] + g[1..];
  }

  lemma CrLfInSuffix(s: string, k: nat)
    requires k <= |s|
    ensures HasCrLf(s[k..]) ==> HasCrLf(s)
  {
    if HasCrLf(s[k..]) {
      var i :| 0 <= i < |s[k..]| - 1 && s[k..][i] == '\r' && s[k..][i + 1] == '\n';
      assert s[k + i] == '\r' && s[k + i + 1] == '\n';
    }
  }

  lemma CrLfAtFront(s: string)
    ensures |s| > 1 && s[0] == '\r' && s[1] == '\n' ==> HasCrLf(s)
  {
    if |s| > 1 && s[0] == '\r' && s[1] == '\n' {
      assert s[0 + 1] == '\n';
    }
  }

  lemma CrLfAtBreak(s: string, n: nat)
    ensures n == LineLength(s) < |s| && EndsReturn(s[..n]) ==> HasCrLf(s)
  {
    if n == LineLength(s) < |s| && EndsReturn(s[..n]) {
      assert s[n - 1] == '\r' && s[n - 1 + 1] == '\n';
    }
  }

  lemma {:induction false} NormalizeNothing(s: string)
    requires !HasCrLf(s)
    ensures Normalize(s) == s
  {
    if s != "" {
      CrLfInSuffix(s, 1);
      CrLfAtFront(s);
      NormalizeNothing(s[1..]);
    }
  }

  lemma {:induction false} StripBomSuffix(s: string) returns (k: nat)
    ensures k <= |s| && StripBom(s) == s[k..]
  {
    k := 0;
    if s != "" && s[0] == BOM {
      var j := StripBomSuffix(s[1..]);
      k := j + 1;
    }
  }

  /** In a text without CR LF, a line that is followed by another does not end in a
      carriage return. */
  lemma FirstOfLf(text: string)
    requires EndingOf(text) == Lf && |PhysicalLines(text)| > 1
    ensures !EndsReturn(PhysicalLines(text)[0])
  {
    var k := StripBomSuffix(text);
    var s := StripBom(text);
    CrLfInSuffix(text, k);
    NormalizeNothing(s);
    CrLfAtBreak(s, LineLength(s));
  }

  lemma EndingShows(lines: seq<string>)
    requires lines != []
    ensures EndingOf(Emit(lines, CrLf)) == CrLf
  {
    EmitHead(lines, CrLf);
    var text, n := Emit(lines, CrLf), |lines[0]|;
    assert text[n] == '\r' && text[n + 1] == '\n';
  }

  // ------------------------------------------------------------ the second rewriting

  lemma {:induction false} FlatIsLonger(ls: seq<Line>)
    requires LinesOk(ls)
    ensures |ls| <= |Flat(ls)|
  {
    if ls != [] {
      LinesOkInit(ls);
      FlatIsLonger(ls[..|ls| - 1]);
    }
  }

  /** The first written line of a rewriting does not end in a carriage return, if the
      text has no CR LF. */
  lemma FirstWritten(text: string, r: Range, edit: Edit)
    requires StampsOk(edit.desired) && r.start < r.end < |LinesIn(text)| && EndingOf(text) == Lf
    ensures var f := Flat(RewriteAt(LinesIn(text), TraitsIn(LinesIn(text)), r, edit)); f != [] && !EndsReturn(f[0])
  {
    var ls := LinesIn(text);
    var after := RewriteAt(ls, TraitsIn(ls), r, edit);
    TextIsReadable(text);
    RewrittenIsReadable(ls, TraitsIn(ls), r, edit);
    FlatIsLonger(ls);
    FirstOfLf(text);
    assert after[0] == ls[0];
    FlatFirst(ls);
    FlatFirst(after);
  }

  lemma DifferentEndings(f: seq<string>, g: seq<string>)
    requires f != [] && g != [] && AllWithout(f, '\n') && AllWithout(g, '\n')
    ensures Emit(f, Lf) == Emit(g, CrLf) ==> EndsReturn(f[0])
  {
    WrittenHead(f, Lf);
    WrittenHead(g, CrLf);
    assert Written(g[0], CrLf)[|g[0]|] == '\r';
  }

  /** If a line that is written ends in a carriage return, repeating the edit does not
      give the same text. */
  lemma ReturnsShow(text: string, edit: Edit)
    requires Rewrite(text, edit).Ok? && StampsOk(edit.desired)
    requires !NoReturns(Flat(RewriteLines(LinesIn(text), edit).value))
    ensures Rewrite(Rewrite(text, edit).value, edit) != Ok(Rewrite(text, edit).value)
  {
    var ls, e := LinesIn(text), EndingOf(text);
    var ts := TraitsIn(ls);
    var r := Target(ls, ts, edit).value;
    var f := Flat(RewriteAt(ls, ts, r, edit));
    var output := Emit(f, e);
    TextIsReadable(text);
    RewrittenIsReadable(ls, ts, r, edit);
    FlatFirst(RewriteAt(ls, ts, r, edit));
    if Rewrite(output, edit) == Ok(output) {
      var again := LinesIn(output);
      var q := Target(again, TraitsIn(again), edit).value;
      var g := Flat(RewriteAt(again, TraitsIn(again), q, edit));
      FewerReturns(f, e, output, again, q, edit);
      if e == CrLf {
        EndingShows(f);
      } else {
        FirstWritten(text, r, edit);
      }
      SameText(f, g, e, EndingOf(output));
    }
  }

  lemma FewerReturns(f: seq<string>, e: Ending, output: string, again: seq<Line>, q: Range, edit: Edit)
    requires f != [] && AllWithout(f, '\n') && !StartsWithBom(f) && !NoReturns(f) && output == Emit(f, e)
    requires again == LinesIn(output) && q.start < q.end < |again| && StampsOk(edit.desired)
    ensures var g := Flat(RewriteAt(again, TraitsIn(again), q, edit));
      g != [] && AllWithout(g, '\n') && Total(g) < Total(f)
  {
    ReadBackIff(f, e);
    ShedTotal(f, e);
    TextIsReadable(output);
    RewrittenIsReadable(again, TraitsIn(again), q, edit);
    FlatFirst(RewriteAt(again, TraitsIn(again), q, edit));
    RewriteWeight(again, TraitsIn(again), q, edit);
    WeightIsTotal(again);
    WeightIsTotal(RewriteAt(again, TraitsIn(again), q, edit));
  }

  lemma SameText(f: seq<string>, g: seq<string>, e: Ending, d: Ending)
    requires f != [] && g != [] && AllWithout(f, '\n') && AllWithout(g, '\n') && Total(g) < Total(f)
    requires (e == CrLf ==> d == CrLf) && (e == Lf ==> !EndsReturn(f[0]))
    ensures Emit(f, e) != Emit(g, d)
  {
    if Emit(f, e) == Emit(g, d) {
      if e == d {
        EmitIsInjective(f, g, e);
      } else {
        DifferentEndings(f, g);
      }
    }
  }
}
