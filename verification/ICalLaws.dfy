/** What rewriting one event promises. */
module ICalLaws {
  import opened Basics
  import opened ICalText
  import opened ICalLines
  import opened ICalEvents
  import opened ICalProperties
  import opened ICalKeeping
  import opened ICalRewrite

  // ------------------------------------------------------------ generated lines

  /** Every generated physical line is at most 75 octets, and the generated lines
      read back as the wanted contents. */
  lemma ReplacementIsFolded(edit: Edit, useDuration: bool, i: nat)
    requires StampsOk(edit.desired) && i < |Replaced(edit.patch, edit.desired, useDuration)|
    ensures var ps := Replaced(edit.patch, edit.desired, useDuration);
      var line := Replacement(edit, useDuration)[i];
      && WithinLimit(line.physical) && LineOk(line) && line.text == ContentOf(ps[i], edit.desired)
      && !StartsBlank(line.physical[0])
      && AllWithout(line.physical, '\n') && NoReturns(line.physical)
      && TraitsOf(line.text).named == Some(ps[i])
  {
    var c := ContentOf(Replaced(edit.patch, edit.desired, useDuration)[i], edit.desired);
    ContentFacts(Replaced(edit.patch, edit.desired, useDuration)[i], edit.desired);
    FoldIsShort(c, true);
    FoldedLineOk(c);
    FoldAddsNothing(c, true, '\n');
    FoldAddsNothing(c, true, '\r');
    NoReturnsInside(Fold(c, true));
  }

  lemma NoReturnsInside(lines: seq<string>)
    requires AllWithout(lines, '\r')
    ensures NoReturns(lines)
  {
  }

  // ------------------------------------------------------------ properties of all physical lines

  predicate Each(lines: seq<string>, P: string -> bool) {
    forall i :: 0 <= i < |lines| ==> P(lines[i])
  }

  lemma EachAppend(a: seq<string>, b: seq<string>, P: string -> bool)
    ensures Each(a + b, P) <==> Each(a, P) && Each(b, P)
  {
    if Each(a + b, P) {
      assert forall i :: 0 <= i < |a| ==> a[i] == (a + b)[i];
      assert forall i :: 0 <= i < |b| ==> b[i] == (a + b)[|a| + i];
    }
  }

  lemma FlatCons(ls: seq<Line>)
    requires ls != []
    ensures Flat(ls) == ls[0].physical + Flat(ls[1..])
  {
    assert ls == [ls[0]] + ls[1..];
    FlatAppend([ls[0]], ls[1..]);
    FlatOne(ls[0]);
  }

  lemma {:induction false} KeptEach(ls: seq<Line>, ts: seq<Traits>, depth: nat, patch: Patch, P: string -> bool)
    requires |ls| == |ts| && Each(Flat(ls), P)
    ensures Each(Flat(Keep(ls, ts, depth, patch)), P)
    decreases |ls|
  {
    if ls != [] {
      FlatCons(ls);
      EachAppend(ls[0].physical, Flat(ls[1..]), P);
      if depth == 0 && Drops(patch, ts[0]) {
        KeptEach(ls[1..], ts[1..], depth, patch, P);
      } else {
        var rest := Keep(ls[1..], ts[1..], DepthStep(depth, ts[0].marker), patch);
        KeptEach(ls[1..], ts[1..], DepthStep(depth, ts[0].marker), patch, P);
        FlatCons([ls[0]] + rest);
        assert ([ls[0]] + rest)[1..] == rest;
        EachAppend(ls[0].physical, Flat(rest), P);
      }
    }
  }

  lemma {:induction false} ListEach(ls: seq<Line>, P: string -> bool)
    requires forall i :: 0 <= i < |ls| ==> Each(ls[i].physical, P)
    ensures Each(Flat(ls), P)
    decreases |ls|
  {
    if ls != [] {
      FlatCons(ls);
      ListEach(ls[1..], P);
      EachAppend(ls[0].physical, Flat(ls[1..]), P);
    }
  }

  /** What holds of every line that was read and of every generated one holds of
      every line that is written. */
  lemma RewrittenEach(ls: seq<Line>, ts: seq<Traits>, r: Range, edit: Edit, P: string -> bool)
    requires |ts| == |ls| && r.start < r.end < |ls| && Each(Flat(ls), P)
    requires Each(Flat(Replacement(edit, UsesDuration(ts[r.start + 1..r.end]))), P)
    ensures Each(Flat(RewriteAt(ls, ts, r, edit)), P)
  {
    var a, x, b := ls[..r.start + 1], ls[r.start + 1..r.end], ls[r.end..];
    var inside := ts[r.start + 1..r.end];
    EachPart(ls, r.start + 1, r.end, P);
    KeptEach(x, inside, 0, edit.patch, P);
    EachTogether(a, Keep(x, inside, 0, edit.patch), Replacement(edit, UsesDuration(inside)), b, P);
  }

  lemma EachPart(ls: seq<Line>, i: nat, j: nat, P: string -> bool)
    requires i <= j <= |ls| && Each(Flat(ls), P)
    ensures Each(Flat(ls[..i]), P) && Each(Flat(ls[i..j]), P) && Each(Flat(ls[j..]), P)
  {
    ThreeParts(ls, i, j);
    EachOfParts(ls, ls[..i], ls[i..j], ls[j..], P);
  }

  lemma ThreeParts<T>(s: seq<T>, i: nat, j: nat)
    requires i <= j <= |s|
    ensures s == s[..i] + s[i..j] + s[j..]
  {
  }

  lemma EachOfParts(ls: seq<Line>, a: seq<Line>, x: seq<Line>, b: seq<Line>, P: string -> bool)
    requires ls == a + x + b && Each(Flat(ls), P)
    ensures Each(Flat(a), P) && Each(Flat(x), P) && Each(Flat(b), P)
  {
    EachOfThree(a, x, b, P);
  }

  lemma EachTogether(a: seq<Line>, kept: seq<Line>, rep: seq<Line>, b: seq<Line>, P: string -> bool)
    requires Each(Flat(a), P) && Each(Flat(kept), P) && Each(Flat(rep), P) && Each(Flat(b), P)
    ensures Each(Flat(a + (kept + rep) + b), P)
  {
    EachOfTwo(kept, rep, P);
    EachOfThree(a, kept + rep, b, P);
  }

  lemma EachOfTwo(a: seq<Line>, b: seq<Line>, P: string -> bool)
    ensures Each(Flat(a + b), P) <==> Each(Flat(a), P) && Each(Flat(b), P)
  {
    FlatAppend(a, b);
    EachAppend(Flat(a), Flat(b), P);
  }

  lemma EachOfThree(a: seq<Line>, x: seq<Line>, b: seq<Line>, P: string -> bool)
    ensures Each(Flat(a + x + b), P) <==> Each(Flat(a), P) && Each(Flat(x), P) && Each(Flat(b), P)
  {
    EachOfTwo(a + x, b, P);
    EachOfTwo(a, x, P);
  }

  // ------------------------------------------------------------ the lines stay readable

  /** Lines that may follow others. */
  predicate Follow(ls: seq<Line>) {
    forall i :: 0 <= i < |ls| ==> LineOk(ls[i]) && !StartsBlank(ls[i].physical[0])
  }

  lemma {:induction false} KeptFollow(ls: seq<Line>, ts: seq<Traits>, depth: nat, patch: Patch)
    requires |ls| == |ts| && Follow(ls)
    ensures Follow(Keep(ls, ts, depth, patch))
    decreases |ls|
  {
    if ls != [] {
      KeptFollow(ls[1..], ts[1..], if depth == 0 && Drops(patch, ts[0]) then depth else DepthStep(depth, ts[0].marker), patch);
    }
  }

  lemma FollowAppend(a: seq<Line>, b: seq<Line>)
    requires Follow(b)
    ensures Follow(a) ==> Follow(a + b)
    ensures a != [] && LinesOk(a) ==> LinesOk(a + b)
  {
  }

  lemma SlicesFollow(ls: seq<Line>, k: nat, n: nat)
    requires LinesOk(ls) && 0 < k <= n <= |ls|
    ensures LinesOk(ls[..k]) && Follow(ls[k..n])
  {
  }

  lemma ReplacementFollows(edit: Edit, useDuration: bool)
    requires StampsOk(edit.desired)
    ensures Follow(Replacement(edit, useDuration))
  {
    forall i | 0 <= i < |Replacement(edit, useDuration)|
      ensures LineOk(Replacement(edit, useDuration)[i]) && !StartsBlank(Replacement(edit, useDuration)[i].physical[0]) {
      ReplacementIsFolded(edit, useDuration, i);
    }
  }

  lemma RewrittenOk(ls: seq<Line>, ts: seq<Traits>, r: Range, edit: Edit)
    requires |ts| == |ls| && r.start < r.end < |ls| && LinesOk(ls) && StampsOk(edit.desired)
    ensures LinesOk(RewriteAt(ls, ts, r, edit))
  {
    var x, inside := ls[r.start + 1..r.end], ts[r.start + 1..r.end];
    var kept, rep := Keep(x, inside, 0, edit.patch), Replacement(edit, UsesDuration(inside));
    SlicesFollow(ls, r.start + 1, r.end);
    SlicesFollow(ls, r.end, |ls|);
    assert ls[r.end..|ls|] == ls[r.end..];
    KeptFollow(x, inside, 0, edit.patch);
    ReplacementFollows(edit, UsesDuration(inside));
    FollowAll(ls[..r.start + 1], kept, rep, ls[r.end..]);
  }

  lemma FollowAll(a: seq<Line>, kept: seq<Line>, rep: seq<Line>, b: seq<Line>)
    requires a != [] && LinesOk(a) && Follow(kept) && Follow(rep) && Follow(b)
    ensures LinesOk(a + (kept + rep) + b)
  {
    FollowAppend(kept, rep);
    FollowAppend(a, kept + rep);
    FollowAppend(a + (kept + rep), b);
  }

  lemma FlatFirst(ls: seq<Line>)
    requires ls != [] && ls[0].physical != []
    ensures Flat(ls) != [] && Flat(ls)[0] == ls[0].physical[0]
  {
    FlatCons(ls);
  }

  // ------------------------------------------------------------ reading back

  lemma ReplacementEach(edit: Edit, useDuration: bool)
    requires StampsOk(edit.desired)
    ensures Each(Flat(Replacement(edit, useDuration)), s => Without(s, '\n'))
    ensures Each(Flat(Replacement(edit, useDuration)), s => !EndsReturn(s))
  {
    var rep := Replacement(edit, useDuration);
    forall i | 0 <= i < |rep| ensures Each(rep[i].physical, s => Without(s, '\n')) && Each(rep[i].physical, s => !EndsReturn(s)) {
      ReplacementIsFolded(edit, useDuration, i);
    }
    ListEach(rep, s => Without(s, '\n'));
    ListEach(rep, s => !EndsReturn(s));
  }

  /** Lines that a text could hold. */
  predicate Readable(ls: seq<Line>) {
    ls != [] && LinesOk(ls) && AllWithout(Flat(ls), '\n') && !StartsWithBom(Flat(ls))
  }

  lemma TextIsReadable(text: string)
    ensures LinesIn(text) != [] ==> Readable(LinesIn(text))
    ensures Flat(LinesIn(text)) == PhysicalLines(text)
  {
    GroupKeeps(PhysicalLines(text));
    ReadLines(text);
  }

  /** Writing readable lines and reading them gives them back exactly when no physical
      line ends in a carriage return. */
  lemma EmitReadsBack(ls: seq<Line>, e: Ending)
    requires Readable(ls)
    ensures LinesIn(Emit(Flat(ls), e)) == ls <==> NoReturns(Flat(ls))
    ensures NoReturns(Flat(ls)) ==> EndingOf(Emit(Flat(ls), e)) == e
  {
    var text := Emit(Flat(ls), e);
    FlatFirst(ls);
    ReadBackIff(Flat(ls), e);
    GroupOfFlat(ls);
    GroupKeeps(PhysicalLines(text));
    if NoReturns(Flat(ls)) {
      EndingOfEmit(Flat(ls), e);
    }
  }

  /** Rewriting keeps lines readable, and adds no trailing carriage return. */
  lemma RewrittenIsReadable(ls: seq<Line>, ts: seq<Traits>, r: Range, edit: Edit)
    requires |ts| == |ls| && r.start < r.end < |ls| && Readable(ls) && StampsOk(edit.desired)
    ensures Readable(RewriteAt(ls, ts, r, edit))
    ensures NoReturns(Flat(ls)) ==> NoReturns(Flat(RewriteAt(ls, ts, r, edit)))
  {
    var after := RewriteAt(ls, ts, r, edit);
    RewrittenOk(ls, ts, r, edit);
    ReplacementEach(edit, UsesDuration(ts[r.start + 1..r.end]));
    assert Each(Flat(ls), s => Without(s, '\n'));
    RewrittenEach(ls, ts, r, edit, s => Without(s, '\n'));
    if NoReturns(Flat(ls)) {
      assert Each(Flat(ls), s => !EndsReturn(s));
      RewrittenEach(ls, ts, r, edit, s => !EndsReturn(s));
    }
    assert after[0] == ls[0];
    FlatFirst(ls);
    FlatFirst(after);
  }

  /** No physical line that is written again ends in a carriage return. */
  predicate KeepsNoReturns(ls: seq<Line>, ts: seq<Traits>, r: Range, edit: Edit)
    requires |ts| == |ls| && r.start < r.end < |ls|
  {
    NoReturns(Flat(KeptLines(ls, ts, r, edit)))
  }

  lemma NoReturnsIsEach(lines: seq<string>)
    ensures NoReturns(lines) <==> Each(lines, s => !EndsReturn(s))
  {
  }

  predicate CleanLines(ls: seq<Line>) {
    forall i :: 0 <= i < |ls| ==> NoReturns(ls[i].physical)
  }

  lemma CleanAppend(a: seq<Line>, b: seq<Line>)
    ensures CleanLines(a + b) <==> CleanLines(a) && CleanLines(b)
  {
    if CleanLines(a + b) {
      assert forall i :: 0 <= i < |a| ==> a[i] == (a + b)[i];
      assert forall i :: 0 <= i < |b| ==> b[i] == (a + b)[|a| + i];
    }
  }

  lemma {:induction false} CleanIsFlat(ls: seq<Line>)
    ensures CleanLines(ls) <==> NoReturns(Flat(ls))
    decreases |ls|
  {
    if ls != [] {
      FlatCons(ls);
      CleanIsFlat(ls[1..]);
      NoReturnsAppend(ls[0].physical, Flat(ls[1..]));
      assert ls == [ls[0]] + ls[1..];
      CleanAppend([ls[0]], ls[1..]);
    }
  }

  lemma NoReturnsAppend(a: seq<string>, b: seq<string>)
    ensures NoReturns(a + b) <==> NoReturns(a) && NoReturns(b)
  {
    NoReturnsIsEach(a + b);
    NoReturnsIsEach(a);
    NoReturnsIsEach(b);
    EachAppend(a, b, s => !EndsReturn(s));
  }

  lemma ReplacementIsClean(edit: Edit, useDuration: bool)
    requires StampsOk(edit.desired)
    ensures CleanLines(Replacement(edit, useDuration))
  {
    forall i | 0 <= i < |Replacement(edit, useDuration)| ensures NoReturns(Replacement(edit, useDuration)[i].physical) {
      ReplacementIsFolded(edit, useDuration, i);
    }
  }

  lemma {:induction false} InsideIsClean(xs: seq<Line>, ts: seq<Traits>, edit: Edit)
    requires |xs| == |ts| && StampsOk(edit.desired)
    ensures CleanLines(Inside(xs, ts, edit)) <==> CleanLines(Keep(xs, ts, 0, edit.patch))
  {
    ReplacementIsClean(edit, UsesDuration(ts));
    CleanAppend(Keep(xs, ts, 0, edit.patch), Replacement(edit, UsesDuration(ts)));
  }

  lemma CleanBetween(a: seq<Line>, x: seq<Line>, y: seq<Line>, b: seq<Line>)
    requires CleanLines(x) <==> CleanLines(y)
    ensures CleanLines(a + x + b) <==> CleanLines(a + y + b)
  {
    CleanAppend(a + x, b);
    CleanAppend(a, x);
    CleanAppend(a + y, b);
    CleanAppend(a, y);
  }

  /** The replacement adds none. */
  lemma {:induction false} RewriteIsClean(ls: seq<Line>, ts: seq<Traits>, r: Range, edit: Edit)
    requires |ts| == |ls| && r.start < r.end < |ls| && StampsOk(edit.desired)
    ensures CleanLines(RewriteAt(ls, ts, r, edit)) <==> CleanLines(KeptLines(ls, ts, r, edit))
  {
    var xs, inside := ls[r.start + 1..r.end], ts[r.start + 1..r.end];
    InsideIsClean(xs, inside, edit);
    CleanBetween(ls[..r.start + 1], Inside(xs, inside, edit), Keep(xs, inside, 0, edit.patch), ls[r.end..]);
  }

  lemma {:induction false} ReturnsAreKept(ls: seq<Line>, ts: seq<Traits>, r: Range, edit: Edit)
    requires |ts| == |ls| && r.start < r.end < |ls| && StampsOk(edit.desired)
    ensures NoReturns(Flat(RewriteAt(ls, ts, r, edit))) <==> KeepsNoReturns(ls, ts, r, edit)
  {
    RewriteIsClean(ls, ts, r, edit);
    CleanIsFlat(RewriteAt(ls, ts, r, edit));
    CleanIsFlat(KeptLines(ls, ts, r, edit));
  }

  /** Unfolding the output gives the input's logical lines, with only the selected
      event's rewritten top-level properties dropped and the replacement before its
      END, if and only if no physical line that is kept ends in a carriage return. */
  lemma RewriteReadsBack(text: string, edit: Edit)
    requires Rewrite(text, edit).Ok? && StampsOk(edit.desired)
    ensures var ls := LinesIn(text);
      var ts := TraitsIn(ls);
      var clean := KeepsNoReturns(ls, ts, Target(ls, ts, edit).value, edit);
      && (LinesIn(Rewrite(text, edit).value) == RewriteLines(ls, edit).value <==> clean)
      && (clean ==> EndingOf(Rewrite(text, edit).value) == EndingOf(text))
  {
    var ls := LinesIn(text);
    var ts := TraitsIn(ls);
    var r := Target(ls, ts, edit).value;
    TextIsReadable(text);
    RewrittenIsReadable(ls, ts, r, edit);
    ReturnsAreKept(ls, ts, r, edit);
    EmitReadsBack(RewriteAt(ls, ts, r, edit), EndingOf(text));
  }
}
