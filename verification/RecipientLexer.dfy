/** The recipient scanner: a cursor over the input that respects quotes, comments,
    domain literals and angle brackets, and cuts spans at top-level separators. */
module RecipientLexer {
  import opened Basics
  import opened Text

  datatype Kind = TextPart | Quoted | Literal | Less | Greater | At | Colon

  datatype Part = Part(kind: Kind, start: nat, end: nat)

  /** One recipient field; `error` says that its syntax is refused. */
  datatype Span = Span(start: nat, end: nat, parts: seq<Part>, error: bool)

  predicate IsPadding(c: char) {
    c == ' ' || c == '\t'
  }

  predicate HasControl(s: string) {
    exists i :: 0 <= i < |s| && IsControl(s[i])
  }

  // ------------------------------------------------------------ protected text

  function Closing(open: char): char {
    if open == '(' then ')' else if open == '[' then ']' else '"'
  }

  /** Scan quoted, commented or bracketed text: the cursor after it, the depth left
      open, and whether a domain literal held an opening bracket. */
  function Scan(input: string, cursor: nat, open: char, depth: nat, escaped: bool, bad: bool): (r: (nat, nat, bool))
    requires cursor <= |input|
    ensures cursor <= r.0 <= |input|
    decreases |input| - cursor
  {
    if cursor == |input| || depth == 0 then (cursor, depth, bad)
    else
      var c := input[cursor];
      if escaped then Scan(input, cursor + 1, open, depth, false, bad)
      else if c == '\\' then Scan(input, cursor + 1, open, depth, true, bad)
      else if open == '(' && c == '(' then Scan(input, cursor + 1, open, depth + 1, false, bad)
      else if c == Closing(open) then Scan(input, cursor + 1, open, depth - 1, false, bad)
      else Scan(input, cursor + 1, open, depth, false, bad || (open == '[' && c == '['))
  }

  /** Protected text, from just after its opening character. */
  function ScanFrom(input: string, cursor: nat, open: char): (r: (nat, nat, bool))
    requires cursor <= |input|
    ensures cursor <= r.0 <= |input|
  {
    Scan(input, cursor, open, 1, false, false)
  }

  // ------------------------------------------------------------ the scanner's state

  datatype State = State(
    spans: seq<Span>,
    start: nat,
    parts: seq<Part>,
    error: bool,
    angleDepth: nat,
    seenAngle: bool,
    cursor: nat)

  const INITIAL: State := State([], 0, [], false, 0, false, 0)

  predicate StateOk(input: string, st: State) {
    st.start <= st.cursor <= |input|
  }

  /** Close the current span; control characters refuse it whatever its syntax. */
  function FinishSpan(input: string, st: State, end: nat): State
    requires st.start <= end <= |input|
  {
    State(st.spans + [Span(st.start, end, st.parts, st.error || HasControl(input[st.start..end]))],
          end + 1, [], false, 0, false, st.cursor)
  }

  function AddText(parts: seq<Part>, cursor: nat): seq<Part> {
    if parts != [] && parts[|parts| - 1].kind == TextPart && parts[|parts| - 1].end == cursor
    then parts[..|parts| - 1] + [Part(TextPart, parts[|parts| - 1].start, cursor + 1)]
    else parts + [Part(TextPart, cursor, cursor + 1)]
  }

  predicate OpensProtected(c: char) {
    c == '"' || c == '(' || c == '['
  }

  predicate IsSeparator(c: char) {
    c == ',' || c == ';'
  }

  function ProtectedStep(input: string, st: State): State
    requires st.cursor < |input|
  {
    PassProtected(st, input[st.cursor], ScanFrom(input, st.cursor + 1, input[st.cursor]))
  }

  /** The state after protected text; a comment leaves no part. */
  function PassProtected(st: State, open: char, scanned: (nat, nat, bool)): State {
    st.(cursor := scanned.0,
        error := st.error || scanned.2 || scanned.1 > 0,
        parts := if open == '(' then st.parts
                 else st.parts + [Part(if open == '"' then Quoted else Literal, st.cursor, scanned.0)])
  }

  function SymbolKind(c: char): Option<Kind> {
    match c
    case '<' => Some(Less)
    case '>' => Some(Greater)
    case '@' => Some(At)
    case ':' => Some(Colon)
    case _ => None
  }

  function SymbolStep(st: State, kind: Kind): State {
    st.(cursor := st.cursor + 1,
        parts := st.parts + [Part(kind, st.cursor, st.cursor + 1)],
        error := st.error || (kind == Less && st.seenAngle) || (kind == Greater && st.angleDepth == 0),
        seenAngle := st.seenAngle || kind == Less,
        angleDepth := if kind == Less then st.angleDepth + 1
                      else if kind == Greater && st.angleDepth > 0 then st.angleDepth - 1
                      else st.angleDepth)
  }

  /** One iteration of the scanner. */
  function Step(input: string, st: State): (r: State)
    requires StateOk(input, st) && st.cursor < |input|
    ensures StateOk(input, r) && st.cursor < r.cursor
  {
    var c := input[st.cursor];
    if IsPadding(c) then st.(cursor := st.cursor + 1)
    else if IsSeparator(c) then
      if st.angleDepth == 0 then FinishSpan(input, st, st.cursor).(cursor := st.cursor + 1)
      else st.(error := true, cursor := st.cursor + 1)
    else if OpensProtected(c) then ProtectedStep(input, st)
    else if SymbolKind(c).Some? then SymbolStep(st, SymbolKind(c).value)
    else if c == ')' || c == ']' || c == '\\' then st.(error := true, cursor := st.cursor + 1)
    else st.(parts := AddText(st.parts, st.cursor), cursor := st.cursor + 1)
  }

  function Run(input: string, st: State): (r: State)
    requires StateOk(input, st)
    ensures StateOk(input, r) && r.cursor == |input|
    decreases |input| - st.cursor
  {
    if st.cursor == |input| then st else Run(input, Step(input, st))
  }

  /** The spans of an input: an angle bracket left open refuses the last one. */
  function Tokenize(input: string): seq<Span> {
    var st := Run(input, INITIAL);
    FinishSpan(input, st.(error := st.error || st.angleDepth > 0), |input|).spans
  }

  /** The inner loop over protected text. */
  method ScanProtected(input: string, from: nat, open: char) returns (cursor: nat, depth: nat, bad: bool)
    requires from <= |input|
    ensures (cursor, depth, bad) == Scan(input, from, open, 1, false, false)
  {
    cursor, depth, bad := from, 1, false;
    var escaped := false;
    while cursor < |input| && depth > 0
      invariant from <= cursor <= |input|
      invariant Scan(input, cursor, open, depth, escaped, bad) == Scan(input, from, open, 1, false, false)
    {
      var inner := input[cursor];
      cursor := cursor + 1;
      if escaped {
        escaped := false;
      } else if inner == '\\' {
        escaped := true;
      } else if open == '(' && inner == '(' {
        depth := depth + 1;
      } else if inner == Closing(open) {
        depth := depth - 1;
      } else if open == '[' && inner == '[' {
        bad := true;
      }
    }
  }

  /** The scanner's loop. */
  method TokenizeRecipients(input: string) returns (spans: seq<Span>)
    ensures spans == Tokenize(input)
  {
    var st := INITIAL;
    while st.cursor < |input|
      invariant StateOk(input, st) && Run(input, st) == Run(input, INITIAL)
      decreases |input| - st.cursor
    {
      var c := input[st.cursor];
      if OpensProtected(c) {
        var cursor, depth, bad := ScanProtected(input, st.cursor + 1, c);
        var parts := if c == '(' then st.parts
                     else st.parts + [Part(if c == '"' then Quoted else Literal, st.cursor, cursor)];
        st := st.(cursor := cursor, error := st.error || bad || depth > 0, parts := parts);
      } else {
        st := Step(input, st);
      }
    }
    spans := FinishSpan(input, st.(error := st.error || st.angleDepth > 0), |input|).spans;
  }

  // ------------------------------------------------------------ what a run keeps

  /** Spans are only added; while none is, errors and part kinds stay. */
  lemma {:induction false} RunKeeps(input: string, st: State)
    requires StateOk(input, st)
    ensures var r := Run(input, st);
      && |st.spans| <= |r.spans|
      && (|r.spans| == |st.spans| ==>
            && (st.error ==> r.error)
            && |st.parts| <= |r.parts|
            && forall i :: 0 <= i < |st.parts| ==> r.parts[i].kind == st.parts[i].kind)
    decreases |input| - st.cursor
  {
    if st.cursor < |input| {
      RunKeeps(input, Step(input, st));
    }
  }

  // ------------------------------------------------------------ locality

  /** The text `piece` stands in `input` at offset `off`. */
  predicate StandsAt(input: string, off: nat, piece: string) {
    off + |piece| <= |input| && input[off..off + |piece|] == piece
  }

  lemma {:induction false} ScanIsLocal(input: string, off: nat, piece: string, cursor: nat, open: char, depth: nat, escaped: bool, bad: bool)
    requires StandsAt(input, off, piece) && cursor <= |piece|
    requires Scan(piece, cursor, open, depth, escaped, bad).1 == 0
    ensures var r := Scan(piece, cursor, open, depth, escaped, bad);
      Scan(input, off + cursor, open, depth, escaped, bad) == (off + r.0, 0, r.2)
    decreases |piece| - cursor
  {
    if cursor < |piece| && depth > 0 {
      var c := piece[cursor];
      assert input[off + cursor] == input[off..off + |piece|][cursor] == c;
      if escaped {
        ScanIsLocal(input, off, piece, cursor + 1, open, depth, false, bad);
      } else if c == '\\' {
        ScanIsLocal(input, off, piece, cursor + 1, open, depth, true, bad);
      } else if open == '(' && c == '(' {
        ScanIsLocal(input, off, piece, cursor + 1, open, depth + 1, false, bad);
      } else if c == Closing(open) {
        ScanIsLocal(input, off, piece, cursor + 1, open, depth - 1, false, bad);
      } else {
        ScanIsLocal(input, off, piece, cursor + 1, open, depth, false, bad || (open == '[' && c == '['));
      }
    }
  }

  function ShiftPart(p: Part, off: nat): Part {
    Part(p.kind, p.start + off, p.end + off)
  }

  function Shift(parts: seq<Part>, off: nat): (r: seq<Part>)
    ensures |r| == |parts| && forall i :: 0 <= i < |parts| ==> r[i] == ShiftPart(parts[i], off)
  {
    seq(|parts|, i requires 0 <= i < |parts| => ShiftPart(parts[i], off))
  }

  /** The state of the outer run that corresponds to an inner state on `piece`. */
  function Within(base: State, off: nat, st: State): State {
    base.(parts := base.parts + Shift(st.parts, off), cursor := off + st.cursor)
  }

  /** The outer parts that precede the piece do not merge with its text. */
  predicate Separate(base: State) {
    base.parts != [] ==> base.parts[|base.parts| - 1].kind != TextPart
  }

  /** The inner run ends well: one span, no error, no angle brackets. */
  ghost predicate CleanRun(piece: string, st: State)
    requires StateOk(piece, st)
  {
    var r := Run(piece, st);
    && st.spans == [] && r.spans == [] && !r.error && !st.seenAngle && st.angleDepth == 0
    && forall i :: 0 <= i < |r.parts| ==> r.parts[i].kind != Less && r.parts[i].kind != Greater
  }

  /** On a clean run no step cuts a span, fails, or meets an angle bracket. */
  lemma CleanStep(piece: string, st: State)
    requires StateOk(piece, st) && st.cursor < |piece| && CleanRun(piece, st)
    ensures !st.error && !Step(piece, st).error && CleanRun(piece, Step(piece, st))
    ensures var c := piece[st.cursor]; !IsSeparator(c) && SymbolKind(c) != Some(Less) && SymbolKind(c) != Some(Greater)
  {
    var next := Step(piece, st);
    RunKeeps(piece, st);
    RunKeeps(piece, next);
    var c := piece[st.cursor];
    if SymbolKind(c).Some? && !IsPadding(c) && !IsSeparator(c) && !OpensProtected(c) {
      assert next.parts[|st.parts|].kind == SymbolKind(c).value;
    }
  }

  lemma ProtectedIsLocal(input: string, off: nat, piece: string, base: State, st: State)
    requires StandsAt(input, off, piece) && StateOk(piece, st) && st.cursor < |piece| && OpensProtected(piece[st.cursor])
    requires input[off + st.cursor] == piece[st.cursor] && !base.error && !ProtectedStep(piece, st).error
    ensures ProtectedStep(input, Within(base, off, st)) == Within(base, off, ProtectedStep(piece, st))
  {
    var open := piece[st.cursor];
    var scanned := ScanFrom(piece, st.cursor + 1, open);
    CleanPass(st, open, scanned);
    ScanFromIsLocal(input, off, piece, st.cursor + 1, open);
    PassIsLocal(base, off, st, open, scanned);
    StepPasses(input, Within(base, off, st), open, (off + scanned.0, scanned.1, scanned.2));
    StepPasses(piece, st, open, scanned);
  }

  lemma StepPasses(input: string, st: State, open: char, scanned: (nat, nat, bool))
    requires st.cursor < |input| && input[st.cursor] == open && scanned == ScanFrom(input, st.cursor + 1, open)
    ensures ProtectedStep(input, st) == PassProtected(st, open, scanned)
  {
  }

  lemma ScanFromIsLocal(input: string, off: nat, piece: string, cursor: nat, open: char)
    requires StandsAt(input, off, piece) && cursor <= |piece| && ScanFrom(piece, cursor, open).1 == 0
    ensures var r := ScanFrom(piece, cursor, open); ScanFrom(input, off + cursor, open) == (off + r.0, 0, r.2)
  {
    ScanIsLocal(input, off, piece, cursor, open, 1, false, false);
  }

  lemma CleanPass(st: State, open: char, scanned: (nat, nat, bool))
    requires !PassProtected(st, open, scanned).error
    ensures !st.error && scanned.1 == 0 && !scanned.2
  {
  }

  lemma PassIsLocal(base: State, off: nat, st: State, open: char, scanned: (nat, nat, bool))
    requires !base.error && !st.error && scanned.1 == 0 && !scanned.2
    ensures PassProtected(Within(base, off, st), open, (off + scanned.0, scanned.1, scanned.2)) ==
      Within(base, off, PassProtected(st, open, scanned))
  {
    var next := PassProtected(st, open, scanned);
    if open != '(' {
      assert next.parts[..|st.parts|] == st.parts;
    }
    ShiftAppend(base.parts, st.parts, next.parts, off);
  }

  lemma SymbolIsLocal(base: State, off: nat, st: State, kind: Kind)
    requires kind == At || kind == Colon
    requires !base.error && !st.error && !st.seenAngle && st.angleDepth == 0
    ensures SymbolStep(Within(base, off, st), kind) == Within(base, off, SymbolStep(st, kind))
  {
    var next := SymbolStep(st, kind);
    assert next.parts[..|st.parts|] == st.parts;
    ShiftAppend(base.parts, st.parts, next.parts, off);
  }

  /** A step that neither cuts a span, fails, nor meets an angle bracket. */
  predicate CleanChar(piece: string, st: State)
    requires StateOk(piece, st) && st.cursor < |piece|
  {
    var c := piece[st.cursor];
    && !st.error && !Step(piece, st).error && !st.seenAngle && st.angleDepth == 0
    && !IsSeparator(c) && SymbolKind(c) != Some(Less) && SymbolKind(c) != Some(Greater)
  }

  lemma CleanCharIsLocal(input: string, off: nat, piece: string, base: State, st: State)
    requires StandsAt(input, off, piece) && StateOk(piece, st) && st.cursor < |piece|
    requires base.start <= off && !base.error && Separate(base) && CleanChar(piece, st)
    ensures StateOk(input, Within(base, off, st))
    ensures Step(input, Within(base, off, st)) == Within(base, off, Step(piece, st))
  {
    var c := piece[st.cursor];
    SameChar(input, off, piece, st.cursor);
    if OpensProtected(c) {
      ProtectedIsLocal(input, off, piece, base, st);
    } else if SymbolKind(c).Some? {
      SymbolIsLocal(base, off, st, SymbolKind(c).value);
    } else {
      PlainCharIsLocal(input, off, piece, base, st);
    }
  }

  lemma SameChar(input: string, off: nat, piece: string, k: nat)
    requires StandsAt(input, off, piece) && k < |piece|
    ensures input[off + k] == piece[k]
  {
    assert input[off + k] == input[off..off + |piece|][k];
  }

  /** Padding and text. */
  lemma {:induction false} PlainCharIsLocal(input: string, off: nat, piece: string, base: State, st: State)
    requires StandsAt(input, off, piece) && StateOk(piece, st) && st.cursor < |piece| && StateOk(input, Within(base, off, st))
    requires Separate(base) && CleanChar(piece, st) && input[off + st.cursor] == piece[st.cursor]
    requires !OpensProtected(piece[st.cursor]) && SymbolKind(piece[st.cursor]).None?
    ensures Step(input, Within(base, off, st)) == Within(base, off, Step(piece, st))
  {
    TextIsLocal(base, st.parts, off, st.cursor);
  }

  /** On a clean run, a step inside the piece is the same step in the larger input. */
  lemma StepIsLocal(input: string, off: nat, piece: string, base: State, st: State)
    requires StandsAt(input, off, piece) && StateOk(piece, st) && st.cursor < |piece|
    requires base.start <= off && !base.error && Separate(base) && CleanRun(piece, st)
    ensures StateOk(input, Within(base, off, st))
    ensures Step(input, Within(base, off, st)) == Within(base, off, Step(piece, st))
  {
    CleanStep(piece, st);
    CleanCharIsLocal(input, off, piece, base, st);
  }

  lemma ShiftAppend(base: seq<Part>, parts: seq<Part>, more: seq<Part>, off: nat)
    requires |more| == |parts| || (|more| == |parts| + 1 && more[..|parts|] == parts)
    requires |more| == |parts| ==> more == parts
    ensures base + Shift(more, off) ==
      base + Shift(parts, off) + (if |more| == |parts| then [] else [ShiftPart(more[|parts|], off)])
  {
    if |more| > |parts| {
      assert forall i :: 0 <= i < |parts| ==> more[i] == more[..|parts|][i];
    }
  }

  lemma TextIsLocal(base: State, parts: seq<Part>, off: nat, cursor: nat)
    requires Separate(base)
    ensures AddText(base.parts + Shift(parts, off), off + cursor) == base.parts + Shift(AddText(parts, cursor), off)
  {
    var all := base.parts + Shift(parts, off);
    if parts != [] {
      assert all[|all| - 1] == ShiftPart(parts[|parts| - 1], off);
      assert all[..|all| - 1] == base.parts + Shift(parts[..|parts| - 1], off);
    }
  }

  /** Lexing is compositional: the larger run passes a clean piece as the piece's own run does. */
  lemma {:induction false} RunIsLocal(input: string, off: nat, piece: string, base: State, st: State)
    requires StandsAt(input, off, piece) && StateOk(piece, st)
    requires base.start <= off && !base.error && Separate(base) && CleanRun(piece, st)
    ensures StateOk(input, Within(base, off, st)) && StateOk(input, Within(base, off, Run(piece, st)))
    ensures Run(input, Within(base, off, st)) == Run(input, Within(base, off, Run(piece, st)))
    decreases |piece| - st.cursor
  {
    if st.cursor < |piece| {
      CleanStep(piece, st);
      StepIsLocal(input, off, piece, base, st);
      RunIsLocal(input, off, piece, base, Step(piece, st));
    }
  }
}
