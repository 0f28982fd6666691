/** Logical iCalendar lines, each kept with the physical lines it was read from. */
module ICalLines {
  import opened ICalText

  /** A logical line and its physical form. */
  datatype Line = Line(text: string, physical: seq<string>)

  /** A first line and its continuations. */
  predicate IsGroup(g: seq<string>) {
    g != [] && Continues(g[1..])
  }

  function Unfolded(g: seq<string>): string
    requires IsGroup(g)
  {
    g[0] + Continuation(g[1..])
  }

  /** A line that says what its physical lines say. */
  predicate LineOk(line: Line) {
    IsGroup(line.physical) && line.text == Unfolded(line.physical)
  }

  /** Lines as reading finds them: only the very first may begin with a blank. */
  predicate LinesOk(ls: seq<Line>) {
    forall i :: 0 <= i < |ls| ==> LineOk(ls[i]) && (i > 0 ==> !StartsBlank(ls[i].physical[0]))
  }

  /** One more physical line: a continuation joins the line before it, if there is one. */
  function AddLine(ls: seq<Line>, physical: string): seq<Line> {
    if StartsBlank(physical) && ls != [] then
      var last := ls[|ls| - 1];
      ls[..|ls| - 1] + [Line(last.text + physical[1..], last.physical + [physical])]
    else ls + [Line(physical, [physical])]
  }

  function Group(physical: seq<string>): seq<Line> {
    if physical == [] then [] else AddLine(Group(physical[..|physical| - 1]), physical[|physical| - 1])
  }

  function LinesIn(text: string): seq<Line> {
    Group(PhysicalLines(text))
  }

  /** The physical lines, in order. */
  function Flat(ls: seq<Line>): seq<string> {
    if ls == [] then [] else Flat(ls[..|ls| - 1]) + ls[|ls| - 1].physical
  }

  /** The unfolding loop. */
  method Unfold(text: string) returns (ls: seq<Line>, ending: Ending)
    ensures ls == LinesIn(text) && ending == EndingOf(text)
  {
    ending := EndingOf(text);
    var physical := PhysicalLines(text);
    ls := [];
    var i := 0;
    while i < |physical|
      invariant 0 <= i <= |physical| && ls == Group(physical[..i])
    {
      assert physical[..i + 1][..i] == physical[..i];
      ls := AddLine(ls, physical[i]);
      i := i + 1;
    }
    assert physical[..i] == physical;
  }

  // ------------------------------------------------------------ grouping and flattening

  lemma {:induction false} ContinuationSnoc(lines: seq<string>, more: string)
    requires Continues(lines) && StartsBlank(more)
    ensures Continues(lines + [more]) && Continuation(lines + [more]) == Continuation(lines) + more[1..]
  {
    var all := lines + [more];
    if lines == [] {
      assert all[1..] == [];
    } else {
      ContinuationSnoc(lines[1..], more);
      assert all[1..] == lines[1..] + [more];
    }
  }

  lemma JoinedLineOk(line: Line, more: string)
    requires LineOk(line) && StartsBlank(more)
    ensures LineOk(Line(line.text + more[1..], line.physical + [more]))
  {
    ContinuationSnoc(line.physical[1..], more);
    assert (line.physical + [more])[1..] == line.physical[1..] + [more];
  }

  lemma AddLineOk(ls: seq<Line>, physical: string)
    requires LinesOk(ls)
    ensures LinesOk(AddLine(ls, physical)) && Flat(AddLine(ls, physical)) == Flat(ls) + [physical]
  {
    var r := AddLine(ls, physical);
    if StartsBlank(physical) && ls != [] {
      JoinedLineOk(ls[|ls| - 1], physical);
      assert r[..|r| - 1] == ls[..|ls| - 1];
    } else {
      SingleLineOk(physical);
      assert r[..|r| - 1] == ls;
    }
  }

  lemma SingleLineOk(physical: string)
    ensures LineOk(Line(physical, [physical]))
  {
    assert [physical][1..] == [];
  }

  /** Grouping loses no physical line. */
  lemma {:induction false} GroupKeeps(physical: seq<string>)
    ensures LinesOk(Group(physical)) && Flat(Group(physical)) == physical
  {
    if physical != [] {
      var init, last := physical[..|physical| - 1], physical[|physical| - 1];
      GroupKeeps(init);
      AddLineOk(Group(init), last);
      assert physical == init + [last];
    }
  }

  lemma GroupSnoc(before: seq<string>, physical: string)
    ensures Group(before + [physical]) == AddLine(Group(before), physical)
  {
    assert (before + [physical])[..|before|] == before;
  }

  lemma GroupContinues(before: seq<string>, ls: seq<Line>, line: Line, more: string)
    requires Group(before) == ls + [line] && StartsBlank(more)
    ensures Group(before + [more]) == ls + [Line(line.text + more[1..], line.physical + [more])]
  {
    GroupSnoc(before, more);
    assert (ls + [line])[..|ls|] == ls;
  }

  /** Continuations are collected into the line that they continue. */
  lemma {:induction false} GroupContinuations(before: seq<string>, ls: seq<Line>, line: Line, more: seq<string>)
    requires Group(before) == ls + [line] && Continues(more)
    ensures Group(before + more) == ls + [Line(line.text + Continuation(more), line.physical + more)]
    decreases |more|
  {
    if more == [] {
      assert before + more == before && line.physical + more == line.physical && line.text + "" == line.text;
    } else {
      var first, rest := more[0], more[1..];
      GroupContinues(before, ls, line, first);
      var next := Line(line.text + first[1..], line.physical + [first]);
      GroupContinuations(before + [first], ls, next, rest);
      Regroup(before, more);
      Regroup(line.physical, more);
      Associate(line.text, first[1..], Continuation(rest));
    }
  }

  lemma Regroup(before: seq<string>, more: seq<string>)
    requires more != []
    ensures before + [more[0]] + more[1..] == before + more
  {
  }

  lemma Associate(a: string, b: string, c: string)
    ensures a + b + c == a + (b + c)
  {
  }

  lemma GroupOneMore(before: seq<string>, ls: seq<Line>, line: Line)
    requires Group(before) == ls && LineOk(line) && (ls != [] ==> !StartsBlank(line.physical[0]))
    ensures Group(before + line.physical) == ls + [line]
  {
    var head, more := line.physical[0], line.physical[1..];
    GroupSnoc(before, head);
    GroupContinuations(before + [head], ls, Line(head, [head]), more);
    Regroup(before, line.physical);
    assert line.physical == [head] + more;
  }

  lemma LinesOkInit(ls: seq<Line>)
    requires LinesOk(ls) && ls != []
    ensures LinesOk(ls[..|ls| - 1]) && LineOk(ls[|ls| - 1])
    ensures ls[..|ls| - 1] != [] ==> !StartsBlank(ls[|ls| - 1].physical[0])
  {
  }

  /** Regrouping flattened lines gives them back. */
  lemma {:induction false} GroupOfFlat(ls: seq<Line>)
    requires LinesOk(ls)
    ensures Group(Flat(ls)) == ls
  {
    if ls != [] {
      LinesOkInit(ls);
      GroupOfFlat(ls[..|ls| - 1]);
      GroupOfLast(ls, ls[..|ls| - 1], ls[|ls| - 1]);
    }
  }

  lemma GroupOfLast(ls: seq<Line>, init: seq<Line>, last: Line)
    requires ls == init + [last] && LineOk(last) && (init != [] ==> !StartsBlank(last.physical[0])) && Group(Flat(init)) == init
    ensures Group(Flat(ls)) == ls
  {
    GroupOneMore(Flat(init), init, last);
    assert ls[..|ls| - 1] == init;
  }

  lemma {:induction false} FlatAppend(a: seq<Line>, b: seq<Line>)
    ensures Flat(a + b) == Flat(a) + Flat(b)
    decreases |b|
  {
    if b == [] {
      assert a + b == a;
    } else {
      assert (a + b)[..|a + b| - 1] == a + b[..|b| - 1];
      FlatAppend(a, b[..|b| - 1]);
    }
  }

  // ------------------------------------------------------------ generated lines

  function FoldedLine(content: string): Line {
    Line(content, Fold(content, true))
  }

  function FoldedLines(contents: seq<string>): (r: seq<Line>)
    ensures |r| == |contents| && forall i :: 0 <= i < |contents| ==> r[i] == FoldedLine(contents[i])
  {
    seq(|contents|, i requires 0 <= i < |contents| => FoldedLine(contents[i]))
  }

  /** A generated line reads back as its content, and begins as it does. */
  lemma FoldedLineOk(content: string)
    requires content != ""
    ensures LineOk(FoldedLine(content)) && StartsBlank(Fold(content, true)[0]) == StartsBlank(content)
    ensures Fold(content, true)[0] != "" && Fold(content, true)[0][0] == content[0]
  {
    var k := Fit(content, 75);
    FitTakesSome(content, 75);
    FoldedContinues(content[k..]);
    var g := Fold(content, true);
    assert g[0] == content[..k] && g[1..] == Fold(content[k..], false);
    assert content[..k] + content[k..] == content;
  }
}
