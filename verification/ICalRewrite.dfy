/** Rewriting exactly one VEVENT of a calendar text. Reading the result gives the
    lines that were wanted, every other event is untouched, and a second application
    changes nothing, each under its exact condition. */
module ICalRewrite {
  import opened Basics
  import opened ICalText
  import opened ICalLines
  import opened ICalEvents
  import opened ICalProperties
  import opened ICalKeeping
  import opened ICalSplit

  function TraitsIn(ls: seq<Line>): (r: seq<Traits>)
    ensures |r| == |ls|
  {
    if ls == [] then [] else [TraitsOf(ls[0].text)] + TraitsIn(ls[1..])
  }

  lemma {:induction false} TraitAt(ls: seq<Line>, i: nat)
    requires i < |ls|
    ensures TraitsIn(ls)[i] == TraitsOf(ls[i].text)
  {
    if i > 0 {
      TraitAt(ls[1..], i - 1);
    }
  }

  /** The edit: which event, its UID, how many events the parser found, and the patch. */
  datatype Edit = Edit(selected: nat, parsed: nat, uid: string, patch: Patch, desired: Desired)

  /** The lines that replace the dropped ones. */
  function Replacement(edit: Edit, useDuration: bool): seq<Line> {
    FoldedLines(Contents(Replaced(edit.patch, edit.desired, useDuration), edit.desired))
  }

  /** The range of the selected event, if it can be found and edited. */
  function Target(ls: seq<Line>, ts: seq<Traits>, edit: Edit): (r: Result<Range>)
    requires |ts| == |ls|
    ensures r.Ok? ==> r.value.start < r.value.end < |ls|
  {
    match EventRanges(Marks(ts))
    case Err => Err
    case Ok(ranges) =>
      if |ranges| != edit.parsed || edit.selected >= |ranges| then Err
      else
        RangeFacts(Marks(ts), edit.selected);
        var r := ranges[edit.selected];
        if Editable(ts[r.start + 1..r.end], edit.uid) then Ok(r) else Err
  }

  /** The new lines of an event whose inside is `inside`, in the given surroundings. */
  function Inside(inside: seq<Line>, ts: seq<Traits>, edit: Edit): seq<Line>
    requires |inside| == |ts|
  {
    Keep(inside, ts, 0, edit.patch) + Replacement(edit, UsesDuration(ts))
  }

  function RewriteAt(ls: seq<Line>, ts: seq<Traits>, r: Range, edit: Edit): seq<Line>
    requires |ts| == |ls| && r.start < r.end < |ls|
  {
    ls[..r.start + 1] + Inside(ls[r.start + 1..r.end], ts[r.start + 1..r.end], edit) + ls[r.end..]
  }

  /** The lines of the input that are written again. */
  function KeptLines(ls: seq<Line>, ts: seq<Traits>, r: Range, edit: Edit): seq<Line>
    requires |ts| == |ls| && r.start < r.end < |ls|
  {
    ls[..r.start + 1] + Keep(ls[r.start + 1..r.end], ts[r.start + 1..r.end], 0, edit.patch) + ls[r.end..]
  }

  /** The rewriting, given the traits of the lines. */
  function RewriteWith(ls: seq<Line>, ts: seq<Traits>, edit: Edit): Result<seq<Line>>
    requires |ts| == |ls|
  {
    match Target(ls, ts, edit)
    case Err => Err
    case Ok(r) => Ok(RewriteAt(ls, ts, r, edit))
  }

  function RewriteLines(ls: seq<Line>, edit: Edit): Result<seq<Line>> {
    RewriteWith(ls, TraitsIn(ls), edit)
  }

  function Rewrite(text: string, edit: Edit): Result<string> {
    match RewriteLines(LinesIn(text), edit)
    case Err => Err
    case Ok(ls) => Ok(Emit(Flat(ls), EndingOf(text)))
  }

  /** The rewriting with the check that comes first: the text is one complete calendar
      that holds as many events as the parser found. */
  function RewriteChecked(text: string, edit: Edit): Result<string> {
    if SplitCalendar(text) == Ok(edit.parsed) then Rewrite(text, edit) else Err
  }

  // ------------------------------------------------------------ the output loop

  method RewriteOccurrence(text: string, edit: Edit) returns (r: Result<string>)
    ensures r == RewriteChecked(text, edit)
  {
    var events := SplitCalendarComponents(text);
    if events != Ok(edit.parsed) {
      return Err;
    }
    var ls, ending := Unfold(text);
    var ts := TraitsIn(ls);
    TraitsInOk(ls);
    var output := RewriteTarget(ls, ts, edit);
    if output.Err? {
      return Err;
    }
    return Ok(Emit(output.value, ending));
  }

  lemma TraitsInOk(ls: seq<Line>)
    ensures AllOk(TraitsIn(ls))
  {
    forall i | 0 <= i < |ls| ensures TraitsOk(TraitsIn(ls)[i]) {
      TraitAt(ls, i);
      TraitsAreOk(ls[i].text);
    }
  }

  method RewriteTarget(ls: seq<Line>, ts: seq<Traits>, edit: Edit) returns (r: Result<seq<string>>)
    requires |ts| == |ls| && AllOk(ts)
    ensures match Target(ls, ts, edit) case Err => r == Err case Ok(range) => r == Ok(Flat(RewriteAt(ls, ts, range, edit)))
  {
    var found := TopLevelEventRanges(Marks(ts));
    if found.Err? || |found.value| != edit.parsed || edit.selected >= |found.value| {
      return Err;
    }
    RangeFacts(Marks(ts), edit.selected);
    var range := found.value[edit.selected];
    var inside := ts[range.start + 1..range.end];
    if !Editable(inside, edit.uid) {
      return Err;
    }
    var durations := TopLevelPropertyCount(inside, Duration);
    var replacement := OccurrenceContentLines(edit, durations == 1);
    var output := WriteLines(ls, ts, range, edit, replacement);
    WrittenIsRewritten(ls, ts, range, edit);
    return Ok(output);
  }

  // ------------------------------------------------------------ the generated lines

  /** What follows the name of a generated property. */
  method ContentRest(p: Property, d: Desired) returns (rest: string)
    ensures rest == RestOf(p, d)
  {
    match p {
      case Summary =>
        var text := EscapeText(d.title);
        return ":" + text;
      case Description =>
        var text := EscapeText(if d.description.Some? then d.description.value else "");
        return ":" + text;
      case Location =>
        var text := EscapeText(if d.location.Some? then d.location.value else "");
        return ":" + text;
      case DtStart =>
        var parameter := TimeParameters(d);
        return parameter + ":" + d.start;
      case DtEnd =>
        var parameter := TimeParameters(d);
        return parameter + ":" + d.end;
      case Duration => return ":" + d.duration;
      case Uid => return ":";
      case RecurrenceId => return ":";
    }
  }

  method TimeParameters(d: Desired) returns (parameter: string)
    ensures parameter == TimeParameter(d)
  {
    if d.allDay {
      return ";VALUE=DATE";
    }
    if d.timezone.None? {
      return "";
    }
    var encoded := EncodeParameter(d.timezone.value);
    return ";TZID=" + encoded;
  }

  /** One more line, if it is wanted. */
  method AddContent(lines: seq<Line>, ghost ps: seq<Property>, wanted: bool, p: Property, d: Desired) returns (more: seq<Line>)
    requires lines == FoldedLines(Contents(ps, d))
    ensures more == FoldedLines(Contents(ps + If(wanted, p), d))
  {
    if !wanted {
      assert ps + If(wanted, p) == ps;
      return lines;
    }
    var rest := ContentRest(p, d);
    var content := NameOf(p) + rest;
    var folded := FoldLine(content);
    OneMoreContent(ps, p, d);
    more := lines + [Line(content, folded)];
  }

  lemma OneMoreContent(ps: seq<Property>, p: Property, d: Desired)
    ensures FoldedLines(Contents(ps + [p], d)) == FoldedLines(Contents(ps, d)) + [FoldedLine(ContentOf(p, d))]
  {
    assert Contents(ps + [p], d) == Contents(ps, d) + [ContentOf(p, d)];
  }

  /** The lines that replace the dropped ones, escaped and folded. */
  method OccurrenceContentLines(edit: Edit, useDuration: bool) returns (lines: seq<Line>)
    ensures lines == Replacement(edit, useDuration)
  {
    var patch, d := edit.patch, edit.desired;
    ghost var ps: seq<Property> := If(patch.title, Summary);
    lines := AddContent([], [], patch.title, Summary, d);
    assert [] + If(patch.title, Summary) == ps;
    lines := AddContent(lines, ps, patch.description && HasText(d.description), Description, d);
    ps := ps + If(patch.description && HasText(d.description), Description);
    lines := AddContent(lines, ps, patch.location && HasText(d.location), Location, d);
    ps := ps + If(patch.location && HasText(d.location), Location);
    lines := AddContent(lines, ps, patch.times, DtStart, d);
    ps := ps + If(patch.times, DtStart);
    lines := AddContent(lines, ps, patch.times, if useDuration then Duration else DtEnd, d);
  }

  lemma WrittenIsRewritten(ls: seq<Line>, ts: seq<Traits>, r: Range, edit: Edit)
    requires |ts| == |ls| && r.start < r.end < |ls|
    ensures Written(ls, ts, r, edit.patch, Replacement(edit, UsesDuration(ts[r.start + 1..r.end])), |ls|) == RewriteAt(ls, ts, r, edit)
  {
    var inside, traits := ls[r.start + 1..r.end], ts[r.start + 1..r.end];
    AllWritten(ls, ts, r, edit.patch, Replacement(edit, UsesDuration(traits)), Keep(inside, traits, 0, edit.patch));
  }

  lemma AllWritten(ls: seq<Line>, ts: seq<Traits>, r: Range, patch: Patch, replacement: seq<Line>, kept: seq<Line>)
    requires |ts| == |ls| && r.start < r.end < |ls| && kept == Keep(ls[r.start + 1..r.end], ts[r.start + 1..r.end], 0, patch)
    ensures Written(ls, ts, r, patch, replacement, |ls|) == ls[..r.start + 1] + (kept + replacement) + ls[r.end..]
  {
    assert ls[r.end..|ls|] == ls[r.end..];
    Assoc(ls[..r.start + 1], kept, replacement);
  }

  /** The lines written so far, when the first `i` lines are done. */
  ghost function Written(ls: seq<Line>, ts: seq<Traits>, r: Range, patch: Patch, replacement: seq<Line>, i: nat): seq<Line>
    requires |ts| == |ls| && r.start < r.end < |ls| && i <= |ls|
  {
    if i <= r.start then ls[..i]
    else if i <= r.end then ls[..r.start + 1] + Keep(ls[r.start + 1..i], ts[r.start + 1..i], 0, patch)
    else ls[..r.start + 1] + Keep(ls[r.start + 1..r.end], ts[r.start + 1..r.end], 0, patch) + replacement + ls[r.end..i]
  }

  ghost function NestedAt(ts: seq<Traits>, r: Range, i: nat): nat
    requires r.start < r.end < |ts| && i <= |ts|
  {
    if i <= r.start then 0 else if i <= r.end then Nesting(ts[r.start + 1..i], 0) else Nesting(ts[r.start + 1..r.end], 0)
  }

  method WriteLines(ls: seq<Line>, ts: seq<Traits>, r: Range, edit: Edit, replacement: seq<Line>) returns (output: seq<string>)
    requires |ts| == |ls| && r.start < r.end < |ls| && AllOk(ts)
    ensures output == Flat(Written(ls, ts, r, edit.patch, replacement, |ls|))
  {
    output := [];
    var nested: nat := 0;
    var i := 0;
    while i < |ls|
      invariant 0 <= i <= |ls|
      invariant output == OutputTo(ls, ts, r, edit.patch, replacement, i)
      invariant nested == NestedAt(ts, r, i)
    {
      var inside := r.start < i < r.end;
      NestedNext(ts, r, i);
      if inside && nested == 0 && Drops(edit.patch, ts[i]) {
        i := i + 1;
        continue;
      }
      if i == r.end {
        output := output + Flat(replacement);
      }
      output := output + ls[i].physical;
      if inside {
        nested := DepthStep(nested, ts[i].marker);
      }
      i := i + 1;
    }
    OutputIsFlat(ls, ts, r, edit.patch, replacement);
  }

  lemma KeepSnoc(ls: seq<Line>, ts: seq<Traits>, a: nat, i: nat, patch: Patch)
    requires |ts| == |ls| && a <= i < |ls| && AllOk(ts)
    ensures Keep(ls[a..i + 1], ts[a..i + 1], 0, patch) == Keep(ls[a..i], ts[a..i], 0, patch) +
      if Nesting(ts[a..i], 0) == 0 && Drops(patch, ts[i]) then [] else [ls[i]]
    ensures Nesting(ts[a..i + 1], 0) == DepthStep(Nesting(ts[a..i], 0), ts[i].marker)
  {
    assert ls[a..i + 1] == ls[a..i] + [ls[i]] && ts[a..i + 1] == ts[a..i] + [ts[i]];
    KeepAppend(ls[a..i], ts[a..i], [ls[i]], [ts[i]], 0, patch);
    NestingAppend(ts[a..i], [ts[i]], 0);
  }

  lemma Assoc<T>(a: seq<T>, b: seq<T>, c: seq<T>)
    ensures a + (b + c) == a + b + c
  {
  }

  /** What the line at `i` adds. */
  ghost function Added(ls: seq<Line>, ts: seq<Traits>, r: Range, patch: Patch, replacement: seq<Line>, i: nat): seq<Line>
    requires |ts| == |ls| && r.start < r.end < |ls| && i < |ls|
  {
    if r.start < i < r.end && NestedAt(ts, r, i) == 0 && Drops(patch, ts[i]) then []
    else if i == r.end then replacement + [ls[i]]
    else [ls[i]]
  }

  lemma WrittenStep(ls: seq<Line>, ts: seq<Traits>, r: Range, patch: Patch, replacement: seq<Line>, i: nat)
    requires |ts| == |ls| && r.start < r.end < |ls| && i < |ls| && AllOk(ts)
    ensures Written(ls, ts, r, patch, replacement, i + 1) ==
      Written(ls, ts, r, patch, replacement, i) + Added(ls, ts, r, patch, replacement, i)
  {
    var a := r.start + 1;
    if i <= r.start {
      assert ls[..i + 1] == ls[..i] + [ls[i]];
    } else if i < r.end {
      KeepSnoc(ls, ts, a, i, patch);
      Assoc(ls[..a], Keep(ls[a..i], ts[a..i], 0, patch), Added(ls, ts, r, patch, replacement, i));
    } else {
      var kept := ls[..a] + Keep(ls[a..r.end], ts[a..r.end], 0, patch);
      assert ls[r.end..i + 1] == ls[r.end..i] + [ls[i]];
      if i == r.end {
        Assoc(kept, replacement, [ls[i]]);
      } else {
        Assoc(kept + replacement, ls[r.end..i], [ls[i]]);
      }
    }
  }

  /** The physical lines that the line at `i` adds. */
  ghost function Adds(ls: seq<Line>, ts: seq<Traits>, r: Range, patch: Patch, replacement: seq<Line>, i: nat): seq<string>
    requires |ts| == |ls| && r.start < r.end < |ls| && i < |ls|
  {
    if r.start < i < r.end && NestedAt(ts, r, i) == 0 && Drops(patch, ts[i]) then []
    else if i == r.end then Flat(replacement) + ls[i].physical
    else ls[i].physical
  }

  /** The physical lines of the first `i` lines. */
  ghost function OutputTo(ls: seq<Line>, ts: seq<Traits>, r: Range, patch: Patch, replacement: seq<Line>, i: nat): seq<string>
    requires |ts| == |ls| && r.start < r.end < |ls| && i <= |ls|
  {
    if i == 0 then []
    else OutputTo(ls, ts, r, patch, replacement, i - 1) + Adds(ls, ts, r, patch, replacement, i - 1)
  }

  lemma AddsIsFlat(ls: seq<Line>, ts: seq<Traits>, r: Range, patch: Patch, replacement: seq<Line>, i: nat)
    requires |ts| == |ls| && r.start < r.end < |ls| && i < |ls|
    ensures Flat(Added(ls, ts, r, patch, replacement, i)) == Adds(ls, ts, r, patch, replacement, i)
  {
    FlatOne(ls[i]);
    FlatAppend(replacement, [ls[i]]);
  }

  /** Anything that starts empty and grows by what each line adds is the output. */
  lemma {:induction false} OutputGrows(
      ls: seq<Line>, ts: seq<Traits>, r: Range, patch: Patch, replacement: seq<Line>, i: nat, grown: nat -> seq<string>)
    requires |ts| == |ls| && r.start < r.end < |ls| && i <= |ls| && grown(0) == []
    requires forall k: nat {:trigger Adds(ls, ts, r, patch, replacement, k)} ::
      k < |ls| ==> grown(k + 1) == grown(k) + Adds(ls, ts, r, patch, replacement, k)
    ensures OutputTo(ls, ts, r, patch, replacement, i) == grown(i)
  {
    if i > 0 {
      OutputGrows(ls, ts, r, patch, replacement, i - 1, grown);
    }
  }

  lemma OutputIsFlat(ls: seq<Line>, ts: seq<Traits>, r: Range, patch: Patch, replacement: seq<Line>)
    requires |ts| == |ls| && r.start < r.end < |ls| && AllOk(ts)
    ensures OutputTo(ls, ts, r, patch, replacement, |ls|) == Flat(Written(ls, ts, r, patch, replacement, |ls|))
  {
    var grown := (k: nat) => if k <= |ls| then Flat(Written(ls, ts, r, patch, replacement, k)) else [];
    forall k: nat | k < |ls| ensures grown(k + 1) == grown(k) + Adds(ls, ts, r, patch, replacement, k) {
      FlatStep(ls, ts, r, patch, replacement, k);
    }
    OutputGrows(ls, ts, r, patch, replacement, |ls|, grown);
  }

  lemma FlatStep(ls: seq<Line>, ts: seq<Traits>, r: Range, patch: Patch, replacement: seq<Line>, i: nat)
    requires |ts| == |ls| && r.start < r.end < |ls| && i < |ls| && AllOk(ts)
    ensures Flat(Written(ls, ts, r, patch, replacement, i + 1)) ==
      Flat(Written(ls, ts, r, patch, replacement, i)) + Adds(ls, ts, r, patch, replacement, i)
  {
    WrittenStep(ls, ts, r, patch, replacement, i);
    FlatAppend(Written(ls, ts, r, patch, replacement, i), Added(ls, ts, r, patch, replacement, i));
    AddsIsFlat(ls, ts, r, patch, replacement, i);
  }

  lemma FlatOne(line: Line)
    ensures Flat([line]) == line.physical
  {
    assert [line][..0] == [];
  }

  lemma NestedNext(ts: seq<Traits>, r: Range, i: nat)
    requires r.start < r.end < |ts| && i < |ts| && AllOk(ts)
    ensures NestedAt(ts, r, i + 1) ==
      if r.start < i < r.end then DepthStep(NestedAt(ts, r, i), ts[i].marker) else NestedAt(ts, r, i)
  {
    var a := r.start + 1;
    if r.start < i < r.end {
      assert ts[a..i + 1] == ts[a..i] + [ts[i]];
      NestingAppend(ts[a..i], [ts[i]], 0);
    }
  }
}
