/** Whatever the recipient reader accepts is an exact address: reading its own
    results again gives the same results. */
module RecipientReading {
  import opened Basics
  import opened Text
  import opened RecipientLexer
  import opened Recipients

  // ------------------------------------------------------------ what parts are made of

  predicate PlainChar(c: char) {
    && !IsPadding(c) && !IsSeparator(c) && !OpensProtected(c) && SymbolKind(c).None?
    && c != ')' && c != ']' && c != '\\'
  }

  predicate PlainText(s: string) {
    s != "" && forall i :: 0 <= i < |s| ==> PlainChar(s[i])
  }

  /** Protected text, complete and exactly as long as it should be. */
  predicate Enclosed(s: string, open: char) {
    s != "" && s[0] == open && ScanFrom(s, 1, open) == (|s|, 0, false)
  }

  predicate TextOfKind(s: string, kind: Kind) {
    match kind
    case TextPart => PlainText(s)
    case Quoted => Enclosed(s, '"')
    case Literal => Enclosed(s, '[')
    case _ => true
  }

  /** A part lies between the bounds and its text is of its kind. */
  predicate PartOk(input: string, p: Part, from: nat, to: nat) {
    from <= p.start < p.end <= to <= |input| && TextOfKind(input[p.start..p.end], p.kind)
  }

  predicate PartsOk(input: string, parts: seq<Part>, from: nat, to: nat) {
    forall i :: 0 <= i < |parts| ==> PartOk(input, parts[i], from, to)
  }

  /** A span without an error has no control character, and its parts are in order. */
  predicate SpanOk(input: string, span: Span) {
    !span.error ==>
      && span.start <= span.end <= |input|
      && !HasControl(input[span.start..span.end]) && PartsOk(input, span.parts, span.start, span.end)
  }

  predicate SpansOk(input: string, spans: seq<Span>) {
    forall i :: 0 <= i < |spans| ==> SpanOk(input, spans[i])
  }

  /** The scan of protected text needs only that text. */
  lemma {:induction false} ScanRestricts(input: string, off: nat, to: nat, cursor: nat, open: char, depth: nat, escaped: bool, bad: bool)
    requires off <= cursor <= to <= |input| && depth > 0
    requires Scan(input, cursor, open, depth, escaped, bad) == (to, 0, false)
    ensures Scan(input[off..to], cursor - off, open, depth, escaped, bad) == (to - off, 0, false)
    decreases |input| - cursor
  {
    var s := input[off..to];
    assert cursor < to;
    var c := input[cursor];
    assert s[cursor - off] == c;
    if escaped {
      ScanRestricts(input, off, to, cursor + 1, open, depth, false, bad);
    } else if c == '\\' {
      ScanRestricts(input, off, to, cursor + 1, open, depth, true, bad);
    } else if open == '(' && c == '(' {
      ScanRestricts(input, off, to, cursor + 1, open, depth + 1, false, bad);
    } else if c == Closing(open) {
      if depth > 1 {
        ScanRestricts(input, off, to, cursor + 1, open, depth - 1, false, bad);
      }
    } else {
      ScanRestricts(input, off, to, cursor + 1, open, depth, false, bad || (open == '[' && c == '['));
    }
  }

  lemma ProtectedIsEnclosed(input: string, start: nat, open: char, end: nat)
    requires start < |input| && input[start] == open && OpensProtected(open) && ScanFrom(input, start + 1, open) == (end, 0, false)
    ensures start < end <= |input| && Enclosed(input[start..end], open)
  {
    ScanRestricts(input, start, end, start + 1, open, 1, false, false);
  }

  lemma PartsWiden(input: string, parts: seq<Part>, from: nat, to: nat, wider: nat)
    requires PartsOk(input, parts, from, to) && to <= wider <= |input|
    ensures PartsOk(input, parts, from, wider)
  {
  }

  lemma AddPart(input: string, parts: seq<Part>, from: nat, to: nat, p: Part)
    requires PartsOk(input, parts, from, to) && PartOk(input, p, from, to)
    ensures PartsOk(input, parts + [p], from, to)
  {
  }

  lemma AddTextOk(input: string, parts: seq<Part>, from: nat, cursor: nat)
    requires PartsOk(input, parts, from, cursor) && from <= cursor < |input| && PlainChar(input[cursor])
    ensures PartsOk(input, AddText(parts, cursor), from, cursor + 1)
  {
    PartsWiden(input, parts, from, cursor, cursor + 1);
    if parts != [] && parts[|parts| - 1].kind == TextPart && parts[|parts| - 1].end == cursor {
      var last := parts[|parts| - 1];
      assert input[last.start..cursor + 1] == input[last.start..cursor] + [input[cursor]];
      AddPart(input, parts[..|parts| - 1], from, cursor + 1, Part(TextPart, last.start, cursor + 1));
    } else {
      assert input[cursor..cursor + 1] == [input[cursor]];
      AddPart(input, parts, from, cursor + 1, Part(TextPart, cursor, cursor + 1));
    }
  }

  // ------------------------------------------------------------ what the scanner keeps

  /** What the scanner has found so far. */
  predicate FoundOk(input: string, st: State) {
    && SpansOk(input, st.spans)
    && (!st.error ==> st.start <= st.cursor <= |input| && PartsOk(input, st.parts, st.start, st.cursor))
  }

  lemma FinishedOk(input: string, st: State, end: nat)
    requires StateOk(input, st) && FoundOk(input, st) && st.cursor <= end <= |input|
    ensures SpansOk(input, FinishSpan(input, st, end).spans)
  {
    if !st.error {
      PartsWiden(input, st.parts, st.start, st.cursor, end);
    }
  }

  lemma ProtectedFound(input: string, st: State)
    requires StateOk(input, st) && FoundOk(input, st) && st.cursor < |input| && OpensProtected(input[st.cursor])
    ensures FoundOk(input, ProtectedStep(input, st))
  {
    var open := input[st.cursor];
    var scanned := ScanFrom(input, st.cursor + 1, open);
    var next := ProtectedStep(input, st);
    if !next.error {
      PartsWiden(input, st.parts, st.start, st.cursor, scanned.0);
      if open != '(' {
        ProtectedIsEnclosed(input, st.cursor, open, scanned.0);
        AddPart(input, st.parts, st.start, scanned.0, Part(if open == '"' then Quoted else Literal, st.cursor, scanned.0));
      }
    }
  }

  lemma SymbolFound(input: string, st: State, kind: Kind)
    requires StateOk(input, st) && FoundOk(input, st) && st.cursor < |input|
    requires kind == Less || kind == Greater || kind == At || kind == Colon
    ensures FoundOk(input, SymbolStep(st, kind))
  {
    if !SymbolStep(st, kind).error {
      PartsWiden(input, st.parts, st.start, st.cursor, st.cursor + 1);
      AddPart(input, st.parts, st.start, st.cursor + 1, Part(kind, st.cursor, st.cursor + 1));
    }
  }

  lemma StepFound(input: string, st: State)
    requires StateOk(input, st) && FoundOk(input, st) && st.cursor < |input|
    ensures FoundOk(input, Step(input, st))
  {
    var c := input[st.cursor];
    if IsPadding(c) {
      if !st.error {
        PartsWiden(input, st.parts, st.start, st.cursor, st.cursor + 1);
      }
    } else if IsSeparator(c) {
      FinishedOk(input, st, st.cursor);
    } else if OpensProtected(c) {
      ProtectedFound(input, st);
    } else if SymbolKind(c).Some? {
      SymbolFound(input, st, SymbolKind(c).value);
    } else if PlainChar(c) && !st.error {
      AddTextOk(input, st.parts, st.start, st.cursor);
    }
  }

  lemma {:induction false} RunFound(input: string, st: State)
    requires StateOk(input, st) && FoundOk(input, st)
    ensures FoundOk(input, Run(input, st))
    decreases |input| - st.cursor
  {
    if st.cursor < |input| {
      StepFound(input, st);
      RunFound(input, Step(input, st));
    }
  }

  /** Every span that the scanner accepts is in order. */
  lemma TokensOk(input: string)
    ensures SpansOk(input, Tokenize(input))
  {
    RunFound(input, INITIAL);
    var st := Run(input, INITIAL);
    FinishedOk(input, st.(error := st.error || st.angleDepth > 0), |input|);
  }

  // ------------------------------------------------------------ what a mailbox is

  /** A word, an at-sign and a domain. */
  predicate Spec(input: string, parts: seq<Part>, l: Part, d: Part, address: string) {
    && l in parts && d in parts
    && (l.kind == TextPart || l.kind == Quoted) && (d.kind == TextPart || d.kind == Literal)
    && Slice(input, d.start, d.end) != "[]"
    && address == Slice(input, l.start, l.end) + "@" + Slice(input, d.start, d.end)
  }

  lemma AddrSpecIsSpec(input: string, parts: seq<Part>, address: string) returns (l: Part, d: Part)
    requires ReadAddrSpec(input, parts) == Some(address)
    ensures Spec(input, parts, l, d, address)
  {
    AddrSpecShape(input, parts);
    l, d := parts[0], parts[2];
  }

  lemma MailboxIsSpec(input: string, parts: seq<Part>, address: string) returns (l: Part, d: Part)
    requires ReadMailbox(input, parts) == Some(address)
    ensures Spec(input, parts, l, d, address)
  {
    var open := IndexOfKind(parts, Less);
    if open.None? {
      l, d := AddrSpecIsSpec(input, parts, address);
    } else {
      var inner := parts[open.value + 1..|parts| - 1];
      l, d := AddrSpecIsSpec(input, inner, address);
      assert l in parts && d in parts;
    }
  }

  // ------------------------------------------------------------ scanning an address

  lemma {:induction false} TextGoesOn(input: string, st: State, start: nat, text: string)
    requires StateOk(input, st) && StandsAt(input, st.cursor, text) && forall i :: 0 <= i < |text| ==> PlainChar(text[i])
    requires st.parts != [] && st.parts[|st.parts| - 1] == Part(TextPart, start, st.cursor)
    ensures Goes(input, st, st.(parts := st.parts[..|st.parts| - 1] + [Part(TextPart, start, st.cursor + |text|)],
                                cursor := st.cursor + |text|))
    decreases |text|
  {
    var init := st.parts[..|st.parts| - 1];
    if text != "" {
      StandsTail(input, st.cursor, text);
      var next := OneMoreChar(input, st, init, start);
      TextGoesOn(input, next, start, text[1..]);
      GoesOn(input, st, next, st.(parts := init + [Part(TextPart, start, st.cursor + |text|)], cursor := st.cursor + |text|));
    } else {
      assert st.parts == init + [Part(TextPart, start, st.cursor)];
    }
  }

  lemma {:induction false} OneMoreChar(input: string, st: State, init: seq<Part>, start: nat) returns (next: State)
    requires StateOk(input, st) && st.cursor < |input| && PlainChar(input[st.cursor])
    requires st.parts != [] && init == st.parts[..|st.parts| - 1] && st.parts[|st.parts| - 1] == Part(TextPart, start, st.cursor)
    ensures Goes(input, st, next) && next == st.(parts := init + [Part(TextPart, start, st.cursor + 1)], cursor := st.cursor + 1)
    ensures next.parts[..|next.parts| - 1] == init
  {
    next := Step(input, st);
  }

  lemma StandsTail(input: string, off: nat, text: string)
    requires text != "" && StandsAt(input, off, text)
    ensures input[off] == text[0] && StandsAt(input, off + 1, text[1..])
  {
    assert input[off] == input[off..off + |text|][0];
    assert input[off + 1..off + 1 + |text[1..]|] == input[off..off + |text|][1..];
  }

  lemma FirstChar(input: string, st: State)
    requires StateOk(input, st) && st.cursor < |input| && PlainChar(input[st.cursor]) && Separate(st)
    ensures Goes(input, st, AfterParts(st, [Part(TextPart, st.cursor, st.cursor + 1)], 1))
  {
  }

  /** Plain text after a part that is no text gives one text part. */
  lemma {:induction false} TextGoes(input: string, st: State, text: string)
    requires StateOk(input, st) && StandsAt(input, st.cursor, text) && PlainText(text) && Separate(st)
    ensures Goes(input, st, AfterParts(st, [Part(TextPart, st.cursor, st.cursor + |text|)], |text|))
  {
    StandsTail(input, st.cursor, text);
    var next := FirstGoes(input, st);
    var last := AfterParts(st, [Part(TextPart, st.cursor, st.cursor + |text|)], |text|);
    RestGoes(input, st, text, next);
    GoesOn(input, st, next, last);
  }

  lemma {:induction false} FirstGoes(input: string, st: State) returns (next: State)
    requires StateOk(input, st) && st.cursor < |input| && PlainChar(input[st.cursor]) && Separate(st)
    ensures next == AfterParts(st, [Part(TextPart, st.cursor, st.cursor + 1)], 1) && StateOk(input, next) && Goes(input, st, next)
  {
    FirstChar(input, st);
    next := AfterParts(st, [Part(TextPart, st.cursor, st.cursor + 1)], 1);
  }

  lemma {:induction false} RestGoes(input: string, st: State, text: string, next: State)
    requires StateOk(input, next) && PlainText(text) && StandsAt(input, st.cursor + 1, text[1..])
    requires next == AfterParts(st, [Part(TextPart, st.cursor, st.cursor + 1)], 1)
    ensures Goes(input, next, AfterParts(st, [Part(TextPart, st.cursor, st.cursor + |text|)], |text|))
  {
    assert next.parts[..|next.parts| - 1] == st.parts;
    TextGoesOn(input, next, st.cursor, text[1..]);
  }

  lemma EnclosedGoes(input: string, st: State, text: string, open: char)
    requires StateOk(input, st) && StandsAt(input, st.cursor, text) && Enclosed(text, open) && (open == '"' || open == '[')
    requires !st.error
    ensures Goes(input, st, AfterParts(st, [Part(if open == '"' then Quoted else Literal, st.cursor, st.cursor + |text|)], |text|))
  {
    var c := st.cursor;
    assert input[c] == input[c..c + |text|][0] == text[0];
    ScanFromIsLocal(input, c, text, 1, open);
  }

  lemma WordGoes(input: string, st: State, text: string, kind: Kind)
    requires StateOk(input, st) && StandsAt(input, st.cursor, text) && TextOfKind(text, kind) && Separate(st) && !st.error
    requires kind == TextPart || kind == Quoted || kind == Literal
    ensures Goes(input, st, AfterParts(st, [Part(kind, st.cursor, st.cursor + |text|)], |text|))
  {
    match kind {
      case TextPart => TextGoes(input, st, text);
      case Quoted => EnclosedGoes(input, st, text, '"');
      case Literal => EnclosedGoes(input, st, text, '[');
    }
  }

  lemma AtGoes(input: string, st: State)
    requires StateOk(input, st) && st.cursor < |input| && input[st.cursor] == '@'
    ensures Goes(input, st, AfterParts(st, [Part(At, st.cursor, st.cursor + 1)], 1))
  {
  }

  /** The parts of an address that is one word, an at-sign and one domain. */
  function SpecParts(l: string, lk: Kind, d: string, dk: Kind): seq<Part> {
    [Part(lk, 0, |l|), Part(At, |l|, |l| + 1), Part(dk, |l| + 1, |l| + 1 + |d|)]
  }

  /** The same, said so that a lemma that only passes it on does not unfold it. */
  ghost predicate IsWord(s: string, kind: Kind) {
    forall t {:trigger TextOfKind(t, kind)} :: t == s ==> TextOfKind(t, kind)
  }

  /** The scanner within one span, without errors or angle brackets. */
  function Midway(parts: seq<Part>, cursor: nat): State {
    State([], 0, parts, false, 0, false, cursor)
  }

  lemma FirstWord(address: string, l: string, lk: Kind)
    requires StandsAt(address, 0, l) && IsWord(l, lk) && (lk == TextPart || lk == Quoted)
    ensures Goes(address, INITIAL, Midway([Part(lk, 0, |l|)], |l|))
  {
    assert TextOfKind(l, lk);
    WordGoes(address, INITIAL, l, lk);
    assert [] + [Part(lk, 0, |l|)] == [Part(lk, 0, |l|)];
  }

  lemma MiddleAt(address: string, p: Part, n: nat)
    requires n < |address| && address[n] == '@'
    ensures Goes(address, Midway([p], n), Midway([p, Part(At, n, n + 1)], n + 1))
  {
    AtGoes(address, Midway([p], n));
    assert [p] + [Part(At, n, n + 1)] == [p, Part(At, n, n + 1)];
  }

  lemma MidwayIsOk(address: string, parts: seq<Part>, n: nat)
    requires n <= |address| && parts != [] && parts[|parts| - 1].kind == At
    ensures StateOk(address, Midway(parts, n)) && Separate(Midway(parts, n))
  {
  }

  lemma {:induction false} LastWord(address: string, p: Part, at: Part, n: nat, d: string, dk: Kind)
    requires StandsAt(address, n, d) && IsWord(d, dk) && (dk == TextPart || dk == Literal) && at.kind == At
    ensures Goes(address, Midway([p, at], n), Midway([p, at, Part(dk, n, n + |d|)], n + |d|))
  {
    var st := Midway([p, at], n);
    MidwayIsOk(address, [p, at], n);
    assert AfterParts(st, [Part(dk, n, n + |d|)], |d|) == Midway([p, at, Part(dk, n, n + |d|)], n + |d|);
    WordFollows(address, st, d, dk, Midway([p, at, Part(dk, n, n + |d|)], n + |d|));
  }

  lemma {:induction false} WordFollows(address: string, st: State, d: string, dk: Kind, after: State)
    requires StateOk(address, st) && StandsAt(address, st.cursor, d) && IsWord(d, dk) && Separate(st) && !st.error
    requires (dk == TextPart || dk == Literal) && after == AfterParts(st, [Part(dk, st.cursor, st.cursor + |d|)], |d|)
    ensures Goes(address, st, after)
  {
    assert TextOfKind(d, dk);
    WordGoes(address, st, d, dk);
  }

  lemma SpecText(l: string, d: string, address: string)
    requires address == l + "@" + d
    ensures StandsAt(address, 0, l) && address[|l|] == '@' && StandsAt(address, |l| + 1, d) && |address| == |l| + 1 + |d|
  {
  }

  lemma {:induction false} SpecRuns(l: string, lk: Kind, d: string, dk: Kind, address: string)
    requires StandsAt(address, 0, l) && StandsAt(address, |l| + 1, d) && |address| == |l| + 1 + |d| && address[|l|] == '@'
    requires IsWord(l, lk) && IsWord(d, dk) && (lk == TextPart || lk == Quoted) && (dk == TextPart || dk == Literal)
    ensures Run(address, INITIAL) == Midway(SpecParts(l, lk, d, dk), |address|)
  {
    var n := |l|;
    var p, at := Part(lk, 0, n), Part(At, n, n + 1);
    FirstWord(address, l, lk);
    LastWord(address, p, at, n + 1, d, dk);
    ThroughAt(address, p, n, Midway(SpecParts(l, lk, d, dk), |address|));
  }

  lemma ThroughAt(address: string, p: Part, n: nat, last: State)
    requires n < |address| && address[n] == '@' && last.cursor == |address|
    requires Goes(address, INITIAL, Midway([p], n)) && Goes(address, Midway([p, Part(At, n, n + 1)], n + 1), last)
    ensures Run(address, INITIAL) == last
  {
    MiddleAt(address, p, n);
    GoesOn(address, INITIAL, Midway([p], n), Midway([p, Part(At, n, n + 1)], n + 1));
    GoesOn(address, INITIAL, Midway([p, Part(At, n, n + 1)], n + 1), last);
  }

  lemma SpecReads(l: string, lk: Kind, d: string, dk: Kind, address: string)
    requires address == l + "@" + d && (lk == TextPart || lk == Quoted) && (dk == TextPart || dk == Literal) && d != "[]"
    ensures ReadAddrSpec(address, SpecParts(l, lk, d, dk)) == Some(address)
  {
    var p := SpecParts(l, lk, d, dk);
    assert address[0..|l|] == l && address[|l| + 1..|l| + 1 + |d|] == d;
    ShapeReads(address, p, l, d);
  }

  lemma SpecIsExact(l: string, lk: Kind, d: string, dk: Kind, address: string)
    requires address == l + "@" + d && TextOfKind(l, lk) && TextOfKind(d, dk) && !HasControl(address) && d != "[]"
    requires (lk == TextPart || lk == Quoted) && (dk == TextPart || dk == Literal)
    ensures ExactAddress(address)
  {
    SpecText(l, d, address);
    SpecRuns(l, lk, d, dk, address);
    SpecReads(l, lk, d, dk, address);
    assert address[0..|address|] == address;
  }

  // ------------------------------------------------------------ every accepted address

  lemma SlicePrintable(input: string, from: nat, to: nat, a: nat, b: nat)
    requires from <= a <= b <= to <= |input| && !HasControl(input[from..to])
    ensures !HasControl(input[a..b])
  {
    forall i | 0 <= i < b - a ensures !IsControl(input[a..b][i]) {
      assert input[a..b][i] == input[from..to][a - from + i];
    }
  }

  lemma SpanIsExact(input: string, span: Span, address: string)
    requires SpanOk(input, span) && !span.error && ReadMailbox(input, span.parts) == Some(address)
    ensures ExactAddress(address)
  {
    var l, d := MailboxIsSpec(input, span.parts, address);
    var i :| 0 <= i < |span.parts| && span.parts[i] == l;
    var j :| 0 <= j < |span.parts| && span.parts[j] == d;
    SlicePrintable(input, span.start, span.end, l.start, l.end);
    SlicePrintable(input, span.start, span.end, d.start, d.end);
    AppendPrintable(input[l.start..l.end], "@");
    AppendPrintable(input[l.start..l.end] + "@", input[d.start..d.end]);
    SpecIsExact(input[l.start..l.end], l.kind, input[d.start..d.end], d.kind, address);
  }

  predicate AllExact(addresses: seq<string>) {
    forall i :: 0 <= i < |addresses| ==> ExactAddress(addresses[i])
  }

  lemma {:induction false} ReadSpansExact(input: string, spans: seq<Span>, index: nat, addresses: seq<string>)
    requires SpansOk(input, spans) && AllExact(addresses) && ReadSpans(input, spans, index, addresses).Accepted?
    ensures AllExact(ReadSpans(input, spans, index, addresses).addresses)
    decreases spans
  {
    if spans != [] {
      var span := spans[0];
      if !span.error && AllPadding(Slice(input, span.start, span.end)) {
        ReadSpansExact(input, spans[1..], index, addresses);
      } else {
        var address := ReadMailbox(input, span.parts).value;
        SpanIsExact(input, span, address);
        ReadSpansExact(input, spans[1..], index + 1, addresses + [address]);
      }
    }
  }

  /** Whatever is accepted is a list of exact addresses. */
  lemma AcceptedIsExact(input: string)
    requires ParsedRecipients(input).Accepted?
    ensures AllExact(ParsedRecipients(input).addresses)
  {
    TokensOk(input);
    ReadSpansExact(input, Tokenize(input), 0, []);
  }

  function Bare(addresses: seq<string>): (r: seq<Recipient>)
    ensures |r| == |addresses| && forall i :: 0 <= i < |r| ==> r[i] == Recipient(None, addresses[i])
  {
    seq(|addresses|, i requires 0 <= i < |addresses| => Recipient(None, addresses[i]))
  }

  /** Reading is stable: printing the addresses that were read and reading them again
      gives the same addresses. */
  lemma ReadingIsStable(input: string)
    requires ParsedRecipients(input).Accepted?
    ensures ParsedRecipients(FormatList(Bare(ParsedRecipients(input).addresses))) == ParsedRecipients(input)
  {
    var addresses := ParsedRecipients(input).addresses;
    AcceptedIsExact(input);
    ParseOfFormat(Bare(addresses));
    assert Emails(Bare(addresses)) == addresses;
  }
}
