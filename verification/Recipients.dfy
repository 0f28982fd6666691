/** Reading and printing recipient lists. Printing a list and reading it back
    returns exactly its addresses, and the names that were printed with them. */
module Recipients {
  import opened Basics
  import opened Text
  import opened RecipientLexer
  import opened DisplayNames

  // ------------------------------------------------------------ reading a mailbox

  /** A slice as the host language takes it: empty when out of order. */
  function Slice(input: string, start: nat, end: nat): string {
    if start <= end <= |input| then input[start..end] else ""
  }

  function IndexOfKind(parts: seq<Part>, kind: Kind): (r: Option<nat>)
    ensures r.Some? ==> r.value < |parts| && parts[r.value].kind == kind
    ensures r.Some? ==> forall i :: 0 <= i < r.value ==> parts[i].kind != kind
    ensures r.None? ==> forall i :: 0 <= i < |parts| ==> parts[i].kind != kind
  {
    if parts == [] then None
    else if parts[0].kind == kind then Some(0)
    else
      match IndexOfKind(parts[1..], kind)
      case None => None
      case Some(i) =>
        assert forall j :: 1 <= j <= i ==> parts[j] == parts[1..][j - 1];
        Some(i + 1)
  }

  /** An address is one word, an at-sign, and one domain. */
  function ReadAddrSpec(input: string, parts: seq<Part>): Option<string> {
    match IndexOfKind(parts, At)
    case None => None
    case Some(at) =>
      if IndexOfKind(parts[at + 1..], At).Some? || at != 1 || |parts| != 3 then None
      else if parts[0].kind != TextPart && parts[0].kind != Quoted then None
      else if parts[2].kind != TextPart && parts[2].kind != Literal then None
      else
        var local := Slice(input, parts[0].start, parts[0].end);
        var domain := Slice(input, parts[2].start, parts[2].end);
        if domain == "[]" then None else Some(local + "@" + domain)
  }

  /** The parts of a display name. */
  predicate IsDisplay(parts: seq<Part>) {
    forall i :: 0 <= i < |parts| ==> parts[i].kind == TextPart || parts[i].kind == Quoted
  }

  function ReadMailbox(input: string, parts: seq<Part>): Option<string> {
    if IndexOfKind(parts, Colon).Some? then None
    else
      match IndexOfKind(parts, Less)
      case None => ReadAddrSpec(input, parts)
      case Some(open) =>
        var close := IndexOfKind(parts, Greater);
        if close != Some(|parts| - 1) || close == Some(open + 1) then None
        else
          var mailbox := ReadAddrSpec(input, parts[open + 1..|parts| - 1]);
          var display := parts[..open];
          if mailbox.None? then None
          else if IndexOfKind(display, At).Some? then
            (if ReadAddrSpec(input, display) == mailbox then mailbox else None)
          else if !IsDisplay(display) then None
          else mailbox
  }

  // ------------------------------------------------------------ reading a list

  datatype ParseResult = Accepted(addresses: seq<string>) | Refused(index: nat)

  predicate AllPadding(s: string) {
    forall i :: 0 <= i < |s| ==> IsPadding(s[i])
  }

  /** Read spans in order; blank ones are skipped, the first bad one is reported by
      its ordinal among the nonblank ones. */
  function ReadSpans(input: string, spans: seq<Span>, index: nat, addresses: seq<string>): ParseResult
    decreases spans
  {
    if spans == [] then Accepted(addresses)
    else
      var span := spans[0];
      if !span.error && AllPadding(Slice(input, span.start, span.end)) then ReadSpans(input, spans[1..], index, addresses)
      else if span.error then Refused(index + 1)
      else
        match ReadMailbox(input, span.parts)
        case None => Refused(index + 1)
        case Some(address) => ReadSpans(input, spans[1..], index + 1, addresses + [address])
  }

  function ParsedRecipients(input: string): ParseResult {
    ReadSpans(input, Tokenize(input), 0, [])
  }

  method ParseRecipients(input: string) returns (r: ParseResult)
    ensures r == ParsedRecipients(input)
  {
    var spans := TokenizeRecipients(input);
    var addresses: seq<string> := [];
    var index := 0;
    var i := 0;
    while i < |spans|
      invariant 0 <= i <= |spans|
      invariant ReadSpans(input, spans[i..], index, addresses) == ParsedRecipients(input)
    {
      var span := spans[i];
      assert spans[i..][1..] == spans[i + 1..];
      i := i + 1;
      if !span.error && AllPadding(Slice(input, span.start, span.end)) {
        continue;
      }
      index := index + 1;
      if span.error {
        return Refused(index);
      }
      var mailbox := ReadMailbox(input, span.parts);
      if mailbox.None? {
        return Refused(index);
      }
      addresses := addresses + [mailbox.value];
    }
    return Accepted(addresses);
  }

  /** An input that is one bare address and nothing else. */
  predicate ExactAddress(email: string) {
    var spans := Tokenize(email);
    |spans| == 1 && !spans[0].error && ReadAddrSpec(email, spans[0].parts) == Some(email)
  }

  /** The same, said so that a lemma that only passes it on does not unfold the scanner. */
  ghost predicate IsAddress(email: string) {
    forall e {:trigger ExactAddress(e)} :: e == email ==> ExactAddress(e)
  }

  // ------------------------------------------------------------ printing

  datatype Recipient = Recipient(name: Option<string>, email: string)

  function FormatRecipient(r: Recipient): string {
    if r.name.None? then r.email
    else
      var name := ReplaceTabs(r.name.value);
      if name == "" || name == r.email then r.email else Display(name) + " <" + r.email + ">"
  }

  /** Texts in a list, with a separator and a space between them. */
  function Joined(texts: seq<string>, sep: char): string {
    if texts == [] then ""
    else if |texts| == 1 then texts[0]
    else texts[0] + [sep, ' '] + Joined(texts[1..], sep)
  }

  function Texts(rs: seq<Recipient>): seq<string> {
    seq(|rs|, i requires 0 <= i < |rs| => FormatRecipient(rs[i]))
  }

  function FormatList(rs: seq<Recipient>): string {
    Joined(Texts(rs), ',')
  }

  // ------------------------------------------------------------ part bounds

  predicate PartsWithin(parts: seq<Part>, bound: nat) {
    forall i :: 0 <= i < |parts| ==> parts[i].start <= parts[i].end <= bound
  }

  lemma {:induction false} RunPartsWithin(input: string, st: State)
    requires StateOk(input, st) && PartsWithin(st.parts, st.cursor)
    ensures PartsWithin(Run(input, st).parts, |input|)
    decreases |input| - st.cursor
  {
    if st.cursor < |input| {
      RunPartsWithin(input, Step(input, st));
    }
  }

  lemma SliceOfSlice(s: string, a: nat, b: nat, c: nat, d: nat)
    requires a <= b <= |s| && c <= d <= b - a
    ensures s[a..b][c..d] == s[a + c..a + d]
  {
    forall i | 0 <= i < d - c ensures s[a..b][c..d][i] == s[a + c..a + d][i] {
      assert s[a..b][c..d][i] == s[a..b][c + i] == s[a + c + i];
    }
  }

  lemma SliceWithin(input: string, off: nat, piece: string, start: nat, end: nat)
    requires StandsAt(input, off, piece) && start <= end <= |piece|
    ensures Slice(input, start + off, end + off) == Slice(piece, start, end)
  {
    SliceOfSlice(input, off, off + |piece|, start, end);
  }

  /** Three parts of the right kinds. */
  predicate AddressShape(p: seq<Part>) {
    && |p| == 3 && p[1].kind == At
    && (p[0].kind == TextPart || p[0].kind == Quoted)
    && (p[2].kind == TextPart || p[2].kind == Literal)
  }

  lemma AddrSpecShape(input: string, p: seq<Part>)
    ensures AddressShape(p) ==>
      var local, domain := Slice(input, p[0].start, p[0].end), Slice(input, p[2].start, p[2].end);
      ReadAddrSpec(input, p) == if domain == "[]" then None else Some(local + "@" + domain)
    ensures !AddressShape(p) ==> ReadAddrSpec(input, p).None?
  {
    if AddressShape(p) {
      var i := IndexOfKind(p, At);
      assert i == Some(1);
      assert p[2..] == [p[2]];
      assert IndexOfKind(p[2..], At).None?;
    }
  }

  lemma AddressParses(email: string, p: seq<Part>)
    requires ReadAddrSpec(email, p) == Some(email)
    ensures AddressShape(p) && '@' in email
    ensures var local, domain := Slice(email, p[0].start, p[0].end), Slice(email, p[2].start, p[2].end);
      domain != "[]" && local + "@" + domain == email
  {
    AddrSpecShape(email, p);
  }

  lemma ShapeReads(input: string, p: seq<Part>, local: string, domain: string)
    requires AddressShape(p) && domain != "[]"
    requires Slice(input, p[0].start, p[0].end) == local && Slice(input, p[2].start, p[2].end) == domain
    ensures ReadAddrSpec(input, p) == Some(local + "@" + domain)
  {
    AddrSpecShape(input, p);
  }

  lemma ShiftedSlices(input: string, off: nat, piece: string, p: seq<Part>, i: nat)
    requires StandsAt(input, off, piece) && PartsWithin(p, |piece|) && i < |p|
    ensures var q := Shift(p, off); Slice(input, q[i].start, q[i].end) == Slice(piece, p[i].start, p[i].end)
  {
    SliceWithin(input, off, piece, p[i].start, p[i].end);
  }

  /** The parts of an exact address, wherever it stands. */
  lemma AddressReads(input: string, off: nat, email: string, p: seq<Part>)
    requires StandsAt(input, off, email) && PartsWithin(p, |email|) && ReadAddrSpec(email, p) == Some(email)
    ensures AddressShape(p) && ReadAddrSpec(input, Shift(p, off)) == Some(email)
  {
    AddressParses(email, p);
    ShiftedSlices(input, off, email, p, 0);
    ShiftedSlices(input, off, email, p, 2);
    ShapeReads(input, Shift(p, off), Slice(email, p[0].start, p[0].end), Slice(email, p[2].start, p[2].end));
  }

  /** What being an exact address says of the scanner's run over it. */
  lemma ExactIsClean(email: string)
    requires ExactAddress(email)
    ensures CleanRun(email, INITIAL) && !HasControl(email)
    ensures var p := Run(email, INITIAL).parts; PartsWithin(p, |email|) && ReadAddrSpec(email, p) == Some(email)
  {
    var st := Run(email, INITIAL);
    RunPartsWithin(email, INITIAL);
    RunKeepsStart(email, INITIAL);
    ExactRun(email, st);
    ShapeHasNoAngle(email, st.parts);
  }

  lemma ShapeHasNoAngle(input: string, p: seq<Part>)
    requires ReadAddrSpec(input, p).Some?
    ensures forall i :: 0 <= i < |p| ==> p[i].kind != Less && p[i].kind != Greater
  {
    AddrSpecShape(input, p);
  }

  lemma ExactRun(email: string, st: State)
    requires ExactAddress(email) && st == Run(email, INITIAL)
    ensures st.spans == [] && !st.error && ReadAddrSpec(email, st.parts) == Some(email)
    ensures st.start == 0 ==> !HasControl(email)
  {
    if st.start == 0 {
      assert email[st.start..|email|] == email;
    }
  }

  lemma {:induction false} RunKeepsStart(input: string, st: State)
    requires StateOk(input, st)
    ensures |Run(input, st).spans| >= |st.spans|
    ensures |Run(input, st).spans| == |st.spans| ==> Run(input, st).start == st.start
    decreases |input| - st.cursor
  {
    if st.cursor < |input| {
      RunKeepsStart(input, Step(input, st));
    }
  }

  // ------------------------------------------------------------ display names

  /** Where the angle bracket opens. */
  function OpensAt(parts: seq<Part>): Option<nat> {
    match IndexOfKind(parts, Less)
    case None => None
    case Some(i) => Some(parts[i].start)
  }

  /** The display name of a span, as a reader takes it. */
  function NameIn(input: string, span: Span): Option<string> {
    match OpensAt(span.parts)
    case None => None
    case Some(open) => Some(NameShown(Slice(input, span.start, open)))
  }

  /** A recipient prints as its bare address, or as a name and a bracketed address. */
  predicate PrintsBare(r: Recipient) {
    r.name.None? || ReplaceTabs(r.name.value) == "" || ReplaceTabs(r.name.value) == r.email
  }

  /** The name that is printed: none if it is missing, empty or the address itself; tabs
      become spaces. */
  function PrintedName(r: Recipient): Option<string> {
    if PrintsBare(r) then None else Some(ReplaceTabs(r.name.value))
  }

  /** The bracket after the display name opens where it was printed. */
  predicate Opens(parts: seq<Part>, cursor: nat, r: Recipient) {
    OpensAt(parts) == if PrintsBare(r) then None else Some(cursor + |Display(ReplaceTabs(r.name.value))| + 1)
  }

  lemma ShapeOpensNowhere(p: seq<Part>)
    requires AddressShape(p)
    ensures OpensAt(p) == None
  {
  }

  lemma DisplayStands(input: string, start: nat, cursor: nat, name: string)
    requires start <= cursor && StandsAt(input, cursor, Display(name) + " ")
    ensures Slice(input, start, cursor + |Display(name)| + 1) == input[start..cursor] + Display(name) + " "
  {
    var text := Display(name) + " ";
    assert input[start..cursor + |text|] == input[start..cursor] + input[cursor..cursor + |text|];
    assert input[start..cursor] + text == input[start..cursor] + Display(name) + " ";
  }

  lemma NameIsRead(input: string, start: nat, cursor: nat, r: Recipient, span: Span)
    requires start <= cursor && StandsAt(input, cursor, FormatRecipient(r)) && AllPadding(input[start..cursor])
    requires span.start == start && Opens(span.parts, cursor, r)
    ensures NameIn(input, span) == PrintedName(r)
  {
    if !PrintsBare(r) {
      var name := ReplaceTabs(r.name.value);
      NamedPrefix(input, cursor, name, r.email);
      DisplayStands(input, start, cursor, name);
      DisplayReads(input[start..cursor], name);
    }
  }

  lemma NamedPrefix(input: string, cursor: nat, name: string, email: string)
    requires StandsAt(input, cursor, Display(name) + " <" + email + ">")
    ensures StandsAt(input, cursor, Display(name) + " ")
  {
    var text, tail := Display(name) + " ", "<" + email + ">";
    assert Display(name) + " <" + email + ">" == text + tail;
    StandsSplit(input, cursor, text, tail);
  }

  // ------------------------------------------------------------ passing each token

  /** `after` is where the run goes from `st`. */
  ghost predicate Goes(input: string, st: State, after: State) {
    StateOk(input, st) && StateOk(input, after) && Run(input, st) == Run(input, after)
  }

  lemma PadGoes(input: string, st: State)
    requires StateOk(input, st) && st.cursor < |input| && input[st.cursor] == ' '
    ensures Goes(input, st, st.(cursor := st.cursor + 1))
  {
  }

  lemma SymbolGoes(input: string, st: State)
    requires StateOk(input, st) && st.cursor < |input| && (input[st.cursor] == '<' || input[st.cursor] == '>')
    ensures Goes(input, st, SymbolStep(st, if input[st.cursor] == '<' then Less else Greater))
  {
  }

  predicate AllText(parts: seq<Part>) {
    forall i :: 0 <= i < |parts| ==> parts[i].kind == TextPart
  }

  /** Plain words lex to text parts. */
  lemma {:induction false} WordsGo(input: string, st: State, name: string) returns (after: State)
    requires StateOk(input, st) && StandsAt(input, st.cursor, name) && AllText(st.parts)
    requires forall i :: 0 <= i < |name| ==> !IsSpecial(name[i]) && name[i] != '\t'
    ensures Goes(input, st, after) && AllText(after.parts)
    ensures after == st.(parts := after.parts, cursor := st.cursor + |name|)
    decreases |name|
  {
    after := st;
    if name != "" {
      assert input[st.cursor] == input[st.cursor..st.cursor + |name|][0] == name[0];
      var next := Step(input, st);
      assert next.cursor == st.cursor + 1;
      assert input[next.cursor..next.cursor + |name[1..]|] == input[st.cursor..st.cursor + |name|][1..];
      after := WordsGo(input, next, name[1..]);
    }
  }

  /** Escaped text is passed without closing its quotes. */
  lemma {:induction false} EscapedScans(input: string, cursor: nat, name: string)
    requires StandsAt(input, cursor, Escape(name))
    ensures Scan(input, cursor, '"', 1, false, false) == Scan(input, cursor + |Escape(name)|, '"', 1, false, false)
    decreases |name|
  {
    if name != "" {
      var e := Escape(name);
      var k := |e| - |Escape(name[1..])|;
      assert input[cursor..cursor + |e|][k..] == input[cursor + k..cursor + |e|];
      assert e[k..] == Escape(name[1..]);
      assert input[cursor] == input[cursor..cursor + |e|][0] == e[0];
      if k == 2 {
        assert input[cursor + 1] == input[cursor..cursor + |e|][1] == e[1];
      }
      EscapedScans(input, cursor + k, name[1..]);
    }
  }

  lemma {:induction false} QuotedGoes(input: string, st: State, name: string)
    requires StateOk(input, st) && StandsAt(input, st.cursor, "\"" + Escape(name) + "\"")
    ensures var end := st.cursor + |Escape(name)| + 2;
      Goes(input, st, st.(parts := st.parts + [Part(Quoted, st.cursor, end)], cursor := end))
  {
    QuotedStands(input, st.cursor, name);
    QuotedScans(input, st.cursor + 1, name);
  }

  lemma QuotedStands(input: string, c: nat, name: string)
    requires StandsAt(input, c, "\"" + Escape(name) + "\"")
    ensures c + |Escape(name)| + 2 <= |input| && input[c] == '"' && input[c + 1 + |Escape(name)|] == '"'
    ensures StandsAt(input, c + 1, Escape(name))
  {
    var text, inner := "\"" + Escape(name) + "\"", Escape(name);
    Enclosing(inner, text);
    SliceOfSlice(input, c, c + |text|, 1, 1 + |inner|);
    assert input[c] == input[c..c + |text|][0];
    assert input[c + 1 + |inner|] == input[c..c + |text|][1 + |inner|];
  }

  lemma Enclosing(inner: string, text: string)
    requires text == "\"" + inner + "\""
    ensures |text| == |inner| + 2 && text[0] == '"' && text[1 + |inner|] == '"' && text[1..1 + |inner|] == inner
  {
  }

  lemma QuotedScans(input: string, cursor: nat, name: string)
    requires StandsAt(input, cursor, Escape(name))
    requires cursor + |Escape(name)| < |input| && input[cursor + |Escape(name)|] == '"'
    ensures Scan(input, cursor, '"', 1, false, false) == (cursor + |Escape(name)| + 1, 0, false)
  {
    EscapedScans(input, cursor, name);
  }

  // ------------------------------------------------------------ passing a recipient

  /** A name whose only control characters are tabs. */
  predicate PrintableName(name: string) {
    forall i :: 0 <= i < |name| ==> name[i] == '\t' || !IsControl(name[i])
  }

  predicate GoodRecipient(r: Recipient) {
    ExactAddress(r.email) && (r.name.Some? ==> PrintableName(r.name.value))
  }

  /** The beginning of a span. */
  function Fresh(spans: seq<Span>, start: nat, cursor: nat): State {
    State(spans, start, [], false, 0, false, cursor)
  }

  type Reader = seq<Part> -> Option<string>

  /** `reader` is the mailbox reader of this input. The lemmas below name it rather
      than its definition, which they do not need. */
  ghost predicate ReadsMailboxes(input: string, reader: Reader) {
    forall p {:trigger ReadMailbox(input, p)} :: reader(p) == ReadMailbox(input, p)
  }

  /** The state after one recipient: its parts read back as its address. */
  ghost predicate Passed(reader: Reader, st: State, spans: seq<Span>, start: nat, cursor: nat, email: string) {
    && st == State(spans, start, st.parts, false, 0, st.seenAngle, cursor)
    && reader(st.parts) == Some(email)
  }

  /** The parts of an address, as the scanner finds them on its own. */
  function AddressParts(email: string): seq<Part> {
    Run(email, INITIAL).parts
  }

  lemma AddressFacts(input: string, off: nat, email: string)
    requires StandsAt(input, off, email) && IsAddress(email)
    ensures AddressShape(Shift(AddressParts(email), off))
    ensures ReadAddrSpec(input, Shift(AddressParts(email), off)) == Some(email)
  {
    assert ExactAddress(email);
    ExactIsClean(email);
    AddressReads(input, off, email, AddressParts(email));
  }

  lemma WithinInitial(st: State)
    ensures Within(st, st.cursor, INITIAL) == st
  {
    assert Shift([], st.cursor) == [];
    assert st.parts + [] == st.parts;
  }

  /** The state after some text of length `n` that left the parts `p`. */
  function AfterParts(st: State, p: seq<Part>, n: nat): State {
    st.(parts := st.parts + p, cursor := st.cursor + n)
  }

  lemma AddressGoes(input: string, st: State, email: string)
    requires StateOk(input, st) && StandsAt(input, st.cursor, email) && IsAddress(email)
    requires !st.error && Separate(st)
    ensures Goes(input, st, AfterParts(st, Shift(AddressParts(email), st.cursor), |email|))
  {
    assert ExactAddress(email);
    ExactIsClean(email);
    WithinInitial(st);
    RunIsLocal(input, st.cursor, email, st, INITIAL);
    assert Within(st, st.cursor, Run(email, INITIAL)) == AfterParts(st, Shift(AddressParts(email), st.cursor), |email|);
  }

  /** A bare address. */
  lemma BareGoes(input: string, reader: Reader, spans: seq<Span>, start: nat, cursor: nat, email: string) returns (after: State)
    requires ReadsMailboxes(input, reader)
    requires start <= cursor && StandsAt(input, cursor, email) && IsAddress(email)
    ensures Goes(input, Fresh(spans, start, cursor), after)
    ensures Passed(reader, after, spans, start, cursor + |email|, email) && OpensAt(after.parts) == None
  {
    var st := Fresh(spans, start, cursor);
    var p := Shift(AddressParts(email), cursor);
    AddressGoes(input, st, email);
    after := AfterParts(st, p, |email|);
    assert st.parts + p == p;
    AddressFacts(input, cursor, email);
    ShapeOpensNowhere(p);
    BareReads(input, reader, cursor, email);
  }

  lemma BareReads(input: string, reader: Reader, off: nat, email: string)
    requires ReadsMailboxes(input, reader) && StandsAt(input, off, email) && IsAddress(email)
    ensures reader(Shift(AddressParts(email), off)) == Some(email)
  {
    AddressFacts(input, off, email);
    ShapeIsMailbox(input, Shift(AddressParts(email), off), email);
  }

  lemma ShapeIsMailbox(input: string, p: seq<Part>, email: string)
    requires AddressShape(p) && ReadAddrSpec(input, p) == Some(email)
    ensures ReadMailbox(input, p) == Some(email)
  {
  }

  lemma AngledReads(input: string, reader: Reader, display: seq<Part>, less: Part, off: nat, greater: Part, email: string)
    requires ReadsMailboxes(input, reader) && StandsAt(input, off, email) && IsAddress(email)
    requires IsDisplay(display) && less.kind == Less && greater.kind == Greater
    ensures reader(display + [less] + Shift(AddressParts(email), off) + [greater]) == Some(email)
  {
    AddressFacts(input, off, email);
    NamedReads(input, display, less, Shift(AddressParts(email), off), greater, email);
  }

  /** Display parts, an angle bracket, an address, and the closing bracket. */
  lemma NamedReads(input: string, display: seq<Part>, less: Part, p: seq<Part>, greater: Part, email: string)
    requires AddressShape(p) && ReadAddrSpec(input, p) == Some(email) && less.kind == Less && greater.kind == Greater
    requires IsDisplay(display)
    ensures ReadMailbox(input, display + [less] + p + [greater]) == Some(email)
  {
    NamedKinds(display, less, p, greater);
    assert IndexOfKind(display, At).None?;
  }

  lemma NamedKinds(display: seq<Part>, less: Part, p: seq<Part>, greater: Part)
    requires AddressShape(p) && less.kind == Less && greater.kind == Greater && IsDisplay(display)
    ensures var all, n := display + [less] + p + [greater], |display|;
      && IndexOfKind(all, Colon).None? && IndexOfKind(all, Less) == Some(n) && IndexOfKind(all, Greater) == Some(n + 4)
      && |all| == n + 5 && all[n + 1..n + 4] == p && all[..n] == display
  {
    NamedPlaces(display, less, p, greater, display + [less] + p + [greater]);
  }

  lemma NamedPlaces(display: seq<Part>, less: Part, p: seq<Part>, greater: Part, all: seq<Part>)
    requires |p| == 3 && all == display + [less] + p + [greater]
    ensures var n := |display|;
      && |all| == n + 5 && all[..n] == display && all[n] == less && all[n + 1..n + 4] == p && all[n + 4] == greater
      && (forall i :: 0 <= i < n ==> all[i] == display[i]) && (forall i :: n < i < n + 4 ==> all[i] == p[i - n - 1])
  {
  }

  lemma AngledOpens(input: string, display: seq<Part>, less: Part, off: nat, greater: Part, email: string)
    requires StandsAt(input, off, email) && IsAddress(email)
    requires IsDisplay(display) && less.kind == Less && greater.kind == Greater
    ensures OpensAt(display + [less] + Shift(AddressParts(email), off) + [greater]) == Some(less.start)
  {
    AddressFacts(input, off, email);
    NamedKinds(display, less, Shift(AddressParts(email), off), greater);
  }

  lemma OpenGoes(input: string, st: State)
    requires StateOk(input, st) && st.cursor + 1 < |input| && input[st.cursor] == ' ' && input[st.cursor + 1] == '<'
    ensures Goes(input, st, SymbolStep(st.(cursor := st.cursor + 1), Less))
  {
    PadGoes(input, st);
    SymbolGoes(input, st.(cursor := st.cursor + 1));
  }

  function AfterOpen(st: State): State {
    SymbolStep(st.(cursor := st.cursor + 1), Less)
  }

  /** The state after a bracketed address whose parts are `p`. */
  function AfterAngled(st: State, p: seq<Part>, n: nat): State {
    SymbolStep(AfterParts(AfterOpen(st), p, n), Greater)
  }

  lemma GoesOn(input: string, a: State, b: State, c: State)
    requires Goes(input, a, b) && Goes(input, b, c)
    ensures Goes(input, a, c)
  {
  }

  lemma AngledRuns(input: string, st: State, p: seq<Part>, n: nat)
    requires StateOk(input, st) && st.cursor + 2 + n < |input|
    requires input[st.cursor] == ' ' && input[st.cursor + 1] == '<' && input[st.cursor + 2 + n] == '>'
    requires Goes(input, AfterOpen(st), AfterParts(AfterOpen(st), p, n))
    ensures Goes(input, st, AfterAngled(st, p, n))
  {
    OpenGoes(input, st);
    var s3 := AfterParts(AfterOpen(st), p, n);
    SymbolGoes(input, s3);
    GoesOn(input, st, AfterOpen(st), s3);
    GoesOn(input, st, s3, SymbolStep(s3, Greater));
  }

  lemma AngledState(st: State, p: seq<Part>, n: nat)
    requires !st.error && st.angleDepth == 0 && !st.seenAngle
    ensures var c := st.cursor;
      AfterAngled(st, p, n) ==
        State(st.spans, st.start, st.parts + [Part(Less, c + 1, c + 2)] + p + [Part(Greater, c + 2 + n, c + 3 + n)],
              false, 0, true, c + n + 3)
  {
  }

  /** After the display name: a space, and the address in angle brackets. */
  lemma AngledGoes(input: string, reader: Reader, st: State, email: string) returns (after: State)
    requires ReadsMailboxes(input, reader)
    requires StateOk(input, st) && StandsAt(input, st.cursor, " <" + email + ">") && IsAddress(email)
    requires !st.error && st.angleDepth == 0 && !st.seenAngle
    requires IsDisplay(st.parts)
    ensures Goes(input, st, after)
    ensures Passed(reader, after, st.spans, st.start, st.cursor + |email| + 3, email) && OpensAt(after.parts) == Some(st.cursor + 1)
  {
    var c := st.cursor;
    var p := Shift(AddressParts(email), c + 2);
    AngledText(input, c, email);
    AngledPath(input, st, email);
    AngledState(st, p, |email|);
    AngledReads(input, reader, st.parts, Part(Less, c + 1, c + 2), c + 2, Part(Greater, c + 2 + |email|, c + 3 + |email|), email);
    AngledOpens(input, st.parts, Part(Less, c + 1, c + 2), c + 2, Part(Greater, c + 2 + |email|, c + 3 + |email|), email);
    after := AfterAngled(st, p, |email|);
  }

  lemma AngledPath(input: string, st: State, email: string)
    requires StateOk(input, st) && StandsAt(input, st.cursor, " <" + email + ">") && IsAddress(email)
    requires !st.error && !st.seenAngle
    ensures Goes(input, st, AfterAngled(st, Shift(AddressParts(email), st.cursor + 2), |email|))
  {
    AngledText(input, st.cursor, email);
    OpenAddressGoes(input, st, email);
    AngledRuns(input, st, Shift(AddressParts(email), st.cursor + 2), |email|);
  }

  lemma OpenState(input: string, st: State)
    requires st.start <= st.cursor + 2 <= |input| && !st.error && !st.seenAngle
    ensures var open := AfterOpen(st);
      StateOk(input, open) && open.cursor == st.cursor + 2 && !open.error && Separate(open)
  {
  }

  lemma OpenAddressGoes(input: string, st: State, email: string)
    requires StateOk(input, st) && StandsAt(input, st.cursor + 2, email) && IsAddress(email)
    requires !st.error && !st.seenAngle
    ensures Goes(input, AfterOpen(st), AfterParts(AfterOpen(st), Shift(AddressParts(email), AfterOpen(st).cursor), |email|))
  {
    OpenState(input, st);
    var open := AfterOpen(st);
    AddressGoes(input, open, email);
  }

  lemma AngledText(input: string, c: nat, email: string)
    requires StandsAt(input, c, " <" + email + ">")
    ensures input[c] == ' ' && input[c + 1] == '<' && input[c + 2 + |email|] == '>' && StandsAt(input, c + 2, email)
  {
    var text := " <" + email + ">";
    assert input[c] == input[c..c + |text|][0];
    assert input[c + 1] == input[c..c + |text|][1];
    assert input[c + 2 + |email|] == input[c..c + |text|][2 + |email|];
    SliceOfSlice(input, c, c + |text|, 2, 2 + |email|);
    assert text[2..2 + |email|] == email;
  }

  lemma DisplayGoes(input: string, spans: seq<Span>, start: nat, cursor: nat, name: string) returns (after: State)
    requires start <= cursor && StandsAt(input, cursor, Display(name)) && forall i :: 0 <= i < |name| ==> name[i] != '\t'
    ensures Goes(input, Fresh(spans, start, cursor), after)
    ensures after == Fresh(spans, start, cursor + |Display(name)|).(parts := after.parts)
    ensures IsDisplay(after.parts)
  {
    var st := Fresh(spans, start, cursor);
    if NeedsQuotes(name) {
      QuotedGoes(input, st, name);
      var end := cursor + |Escape(name)| + 2;
      after := st.(parts := [Part(Quoted, cursor, end)], cursor := end);
      assert st.parts + [Part(Quoted, cursor, end)] == after.parts;
    } else {
      after := WordsGo(input, st, name);
    }
  }

  lemma StandsSplit(input: string, off: nat, a: string, b: string)
    requires StandsAt(input, off, a + b)
    ensures StandsAt(input, off, a) && StandsAt(input, off + |a|, b)
  {
    SliceOfSlice(input, off, off + |a + b|, 0, |a|);
    SliceOfSlice(input, off, off + |a + b|, |a|, |a + b|);
    assert (a + b)[..|a|] == a && (a + b)[|a|..] == b;
    assert input[off..off + |a + b|][0..|a|] == (a + b)[0..|a|];
    assert input[off..off + |a + b|][|a|..|a + b|] == (a + b)[|a|..|a + b|];
  }

  lemma FormatCases(r: Recipient)
    ensures FormatRecipient(r) ==
      if PrintsBare(r) then r.email else Display(ReplaceTabs(r.name.value)) + (" <" + r.email + ">")
  {
    if !PrintsBare(r) {
      var d := Display(ReplaceTabs(r.name.value));
      assert d + " <" + r.email + ">" == d + (" <" + r.email + ">");
    }
  }

  lemma RecipientGoes(input: string, reader: Reader, spans: seq<Span>, start: nat, cursor: nat, r: Recipient) returns (after: State)
    requires ReadsMailboxes(input, reader)
    requires start <= cursor && StandsAt(input, cursor, FormatRecipient(r)) && IsAddress(r.email)
    ensures Goes(input, Fresh(spans, start, cursor), after)
    ensures Passed(reader, after, spans, start, cursor + |FormatRecipient(r)|, r.email) && Opens(after.parts, cursor, r)
  {
    FormatCases(r);
    if PrintsBare(r) {
      after := BareGoes(input, reader, spans, start, cursor, r.email);
    } else {
      after := PrintedGoes(input, reader, spans, start, cursor, r, ReplaceTabs(r.name.value), FormatRecipient(r));
    }
  }

  lemma PrintedGoes(input: string, reader: Reader, spans: seq<Span>, start: nat, cursor: nat, r: Recipient, name: string, text: string)
      returns (after: State)
    requires ReadsMailboxes(input, reader) && text == Display(name) + (" <" + r.email + ">")
    requires start <= cursor && StandsAt(input, cursor, text) && IsAddress(r.email) && !PrintsBare(r) && name == ReplaceTabs(r.name.value)
    ensures Goes(input, Fresh(spans, start, cursor), after)
    ensures Passed(reader, after, spans, start, cursor + |text|, r.email) && Opens(after.parts, cursor, r)
  {
    after := NamedGoes(input, reader, spans, start, cursor, name, r.email);
  }

  lemma NamedGoes(input: string, reader: Reader, spans: seq<Span>, start: nat, cursor: nat, name: string, email: string) returns (after: State)
    requires ReadsMailboxes(input, reader)
    requires start <= cursor && StandsAt(input, cursor, Display(name) + (" <" + email + ">")) && IsAddress(email)
    requires forall i :: 0 <= i < |name| ==> name[i] != '\t'
    ensures Goes(input, Fresh(spans, start, cursor), after)
    ensures Passed(reader, after, spans, start, cursor + |Display(name)| + |email| + 3, email)
    ensures OpensAt(after.parts) == Some(cursor + |Display(name)| + 1)
  {
    StandsSplit(input, cursor, Display(name), " <" + email + ">");
    var shown := DisplayGoes(input, spans, start, cursor, name);
    after := AngledGoes(input, reader, shown, email);
  }

  // ------------------------------------------------------------ no control characters

  lemma {:induction false} EscapeKeepsPrintable(name: string)
    requires !HasControl(name)
    ensures !HasControl(Escape(name))
  {
    if name != "" {
      assert forall i :: 0 <= i < |name[1..]| ==> name[1..][i] == name[i + 1];
      EscapeKeepsPrintable(name[1..]);
    }
  }

  lemma AddressIsPrintable(email: string)
    requires ExactAddress(email)
    ensures !HasControl(email) && '@' in email
  {
    ExactIsClean(email);
    AddrSpecShape(email, AddressParts(email));
  }

  lemma FormatIsPrintable(r: Recipient)
    requires !HasControl(r.email) && '@' in r.email && (r.name.Some? ==> PrintableName(r.name.value))
    ensures !HasControl(FormatRecipient(r)) && '@' in FormatRecipient(r)
  {
    FormatCases(r);
    if !PrintsBare(r) {
      var name := ReplaceTabs(r.name.value);
      assert !HasControl(name);
      EscapeKeepsPrintable(name);
      AppendPrintable("\"", Escape(name));
      AppendPrintable("\"" + Escape(name), "\"");
      AppendPrintable(" <", r.email);
      AppendPrintable(" <" + r.email, ">");
      AppendPrintable(Display(name), " <" + r.email + ">");
    }
  }

  lemma AppendPrintable(a: string, b: string)
    requires !HasControl(a) && !HasControl(b)
    ensures !HasControl(a + b)
  {
  }

  // ------------------------------------------------------------ the list

  /** A span that reads as one recipient: its address, and the name printed with it. */
  predicate GoodSpan(input: string, reader: Reader, span: Span, r: Recipient) {
    && !span.error && !AllPadding(Slice(input, span.start, span.end))
    && reader(span.parts) == Some(r.email) && NameIn(input, span) == PrintedName(r)
  }

  predicate GoodRecipients(rs: seq<Recipient>) {
    forall i :: 0 <= i < |rs| ==> GoodRecipient(rs[i])
  }

  type Judge = (Span, Recipient) -> bool

  /** `good` judges the spans of this input. */
  ghost predicate JudgesSpans(input: string, reader: Reader, good: Judge) {
    && ReadsMailboxes(input, reader)
    && forall span, r {:trigger GoodSpan(input, reader, span, r)} :: good(span, r) == GoodSpan(input, reader, span, r)
  }

  /** `spans` read, one for one, as the recipients `rs`. */
  predicate GoodSpans(good: Judge, spans: seq<Span>, rs: seq<Recipient>) {
    |spans| == |rs| && forall i :: 0 <= i < |spans| ==> good(spans[i], rs[i])
  }

  function Emails(rs: seq<Recipient>): seq<string> {
    seq(|rs|, i requires 0 <= i < |rs| => rs[i].email)
  }

  /** The span that closes at the cursor. */
  function ClosedSpan(input: string, st: State): Span
    requires StateOk(input, st)
  {
    Span(st.start, st.cursor, st.parts, st.error || HasControl(input[st.start..st.cursor]))
  }

  lemma LeadAndText(lead: string, text: string)
    requires !HasControl(lead) && !HasControl(text) && '@' in text
    ensures !HasControl(lead + text) && !AllPadding(lead + text)
  {
    AppendPrintable(lead, text);
    var k :| 0 <= k < |text| && text[k] == '@';
    assert (lead + text)[|lead| + k] == '@';
  }

  lemma SpanText(input: string, start: nat, cursor: nat, text: string)
    requires start <= cursor && StandsAt(input, cursor, text)
    requires !HasControl(input[start..cursor]) && !HasControl(text) && '@' in text
    ensures !HasControl(input[start..cursor + |text|]) && !AllPadding(Slice(input, start, cursor + |text|))
  {
    assert input[start..cursor + |text|] == input[start..cursor] + text;
    LeadAndText(input[start..cursor], text);
  }

  /** A comma and a semicolon both end a recipient. */
  predicate Separates(sep: char) {
    sep == ',' || sep == ';'
  }

  lemma SeparatorGoes(input: string, st: State)
    requires StateOk(input, st) && st.cursor < |input| && Separates(input[st.cursor]) && st.angleDepth == 0
    ensures Goes(input, st, Fresh(st.spans + [ClosedSpan(input, st)], st.cursor + 1, st.cursor + 1))
  {
  }

  /** The spans after the end of the input. */
  function Finished(input: string, st: State): seq<Span>
    requires StateOk(input, st)
  {
    var last := Run(input, st);
    FinishSpan(input, last.(error := last.error || last.angleDepth > 0), |input|).spans
  }

  lemma TextIsPrintable(r: Recipient)
    requires GoodRecipient(r)
    ensures !HasControl(FormatRecipient(r)) && '@' in FormatRecipient(r)
  {
    AddressIsPrintable(r.email);
    FormatIsPrintable(r);
  }

  /** `texts` are the printed forms of the good recipients `rs`. */
  ghost predicate Printed(texts: seq<string>, rs: seq<Recipient>) {
    && |texts| == |rs|
    && forall i {:trigger FormatRecipient(rs[i])} :: 0 <= i < |rs| ==> GoodRecipient(rs[i]) && texts[i] == FormatRecipient(rs[i])
  }

  lemma PrintedTail(texts: seq<string>, rs: seq<Recipient>)
    requires rs != [] && Printed(texts, rs)
    ensures Printed(texts[1..], rs[1..])
  {
    forall i | 0 <= i < |rs| - 1 ensures GoodRecipient(rs[1..][i]) && texts[1..][i] == FormatRecipient(rs[1..][i]) {
      assert rs[1..][i] == rs[i + 1] && texts[1..][i] == texts[i + 1];
      var again := FormatRecipient(rs[i + 1]);
    }
  }

  lemma FirstIsPrintable(texts: seq<string>, rs: seq<Recipient>)
    requires Printed(texts, rs) && rs != []
    ensures !HasControl(texts[0]) && '@' in texts[0]
  {
    assert texts[0] == FormatRecipient(rs[0]);
    TextIsPrintable(rs[0]);
  }

  lemma FirstReads(input: string, reader: Reader, spans: seq<Span>, start: nat, cursor: nat, texts: seq<string>, rs: seq<Recipient>) returns (after: State)
    requires ReadsMailboxes(input, reader) && Printed(texts, rs) && rs != [] && start <= cursor && StandsAt(input, cursor, texts[0])
    ensures Goes(input, Fresh(spans, start, cursor), after)
    ensures after == State(spans, start, after.parts, false, 0, after.seenAngle, cursor + |texts[0]|)
    ensures reader(after.parts) == Some(rs[0].email) && Opens(after.parts, cursor, rs[0])
  {
    assert texts[0] == FormatRecipient(rs[0]);
    assert IsAddress(rs[0].email);
    after := RecipientGoes(input, reader, spans, start, cursor, rs[0]);
  }

  /** Blank space that may be before a printed recipient. */
  predicate Lead(s: string) {
    !HasControl(s) && AllPadding(s)
  }

  lemma FirstIsGood(input: string, reader: Reader, start: nat, cursor: nat, texts: seq<string>, rs: seq<Recipient>, span: Span)
    requires Printed(texts, rs) && rs != [] && start <= cursor && StandsAt(input, cursor, texts[0]) && Lead(input[start..cursor])
    requires span.start == start && span.end == cursor + |texts[0]| && span.error == HasControl(input[start..span.end])
    requires reader(span.parts) == Some(rs[0].email) && Opens(span.parts, cursor, rs[0])
    ensures GoodSpan(input, reader, span, rs[0])
  {
    FirstIsPrintable(texts, rs);
    SpanIsClean(input, start, cursor, texts[0], span);
    FirstNameReads(input, start, cursor, texts, rs, span);
    IsGood(input, reader, span, rs[0]);
  }

  lemma IsGood(input: string, reader: Reader, span: Span, r: Recipient)
    requires !span.error && !AllPadding(Slice(input, span.start, span.end))
    requires reader(span.parts) == Some(r.email) && NameIn(input, span) == PrintedName(r)
    ensures GoodSpan(input, reader, span, r)
  {
  }

  lemma SpanIsClean(input: string, start: nat, cursor: nat, text: string, span: Span)
    requires start <= cursor && StandsAt(input, cursor, text)
    requires !HasControl(input[start..cursor]) && !HasControl(text) && '@' in text
    requires span.start == start && span.end == cursor + |text| && span.error == HasControl(input[start..span.end])
    ensures !span.error && !AllPadding(Slice(input, span.start, span.end))
  {
    SpanText(input, start, cursor, text);
  }

  lemma FirstNameReads(input: string, start: nat, cursor: nat, texts: seq<string>, rs: seq<Recipient>, span: Span)
    requires Printed(texts, rs) && rs != [] && start <= cursor && StandsAt(input, cursor, texts[0]) && AllPadding(input[start..cursor])
    requires span.start == start && Opens(span.parts, cursor, rs[0])
    ensures NameIn(input, span) == PrintedName(rs[0])
  {
    assert texts[0] == FormatRecipient(rs[0]);
    NameIsRead(input, start, cursor, rs[0], span);
  }

  /** What a recipient, printed after blank space, contributes: one good span. */
  lemma OneRecipient(input: string, reader: Reader, spans: seq<Span>, start: nat, cursor: nat, texts: seq<string>, rs: seq<Recipient>) returns (after: State)
    requires ReadsMailboxes(input, reader) && Printed(texts, rs) && rs != []
    requires start <= cursor && StandsAt(input, cursor, texts[0]) && Lead(input[start..cursor])
    ensures Goes(input, Fresh(spans, start, cursor), after)
    ensures after == State(spans, start, after.parts, false, 0, after.seenAngle, cursor + |texts[0]|)
    ensures GoodSpan(input, reader, ClosedSpan(input, after), rs[0])
  {
    after := FirstReads(input, reader, spans, start, cursor, texts, rs);
    FirstIsGood(input, reader, start, cursor, texts, rs, ClosedSpan(input, after));
  }

  /** Lexer compositionality at the top-level separators: the printed list has
      exactly one good span for each recipient, after those already found. */
  lemma {:induction false} ListLexes(
      input: string, reader: Reader, good: Judge, sep: char, spans: seq<Span>, done: seq<Recipient>, start: nat, cursor: nat,
      texts: seq<string>, rs: seq<Recipient>)
    requires JudgesSpans(input, reader, good) && Printed(texts, rs) && rs != [] && GoodSpans(good, spans, done) && Separates(sep)
    requires start <= cursor && EndsWith(input, cursor, Joined(texts, sep))
    requires Lead(input[start..cursor])
    ensures GoodSpans(good, Finished(input, Fresh(spans, start, cursor)), done + rs)
    decreases rs
  {
    if |rs| == 1 {
      LastLexes(input, reader, good, spans, done, start, cursor, texts, rs);
      assert [rs[0]] == rs;
    } else {
      var c := cursor + |texts[0]| + 1;
      JoinedText(input, cursor, texts, sep);
      var more := HeadLexes(input, reader, good, spans, done, start, cursor, texts, rs);
      PrintedTail(texts, rs);
      ListLexes(input, reader, good, sep, more, done + [rs[0]], c, c + 1, texts[1..], rs[1..]);
      assert done + [rs[0]] + rs[1..] == done + rs;
    }
  }

  lemma SpaceLeads(input: string, c: nat)
    requires c < |input| && input[c] == ' '
    ensures Lead(input[c..c + 1])
  {
    assert input[c..c + 1] == " ";
  }

  lemma LastLexes(
      input: string, reader: Reader, good: Judge, spans: seq<Span>, done: seq<Recipient>, start: nat, cursor: nat, texts: seq<string>, rs: seq<Recipient>)
    requires JudgesSpans(input, reader, good) && Printed(texts, rs) && rs != [] && GoodSpans(good, spans, done)
    requires start <= cursor && StandsAt(input, cursor, texts[0]) && Lead(input[start..cursor])
    requires cursor + |texts[0]| == |input|
    ensures GoodSpans(good, Finished(input, Fresh(spans, start, cursor)), done + [rs[0]])
  {
    var after := OneRecipient(input, reader, spans, start, cursor, texts, rs);
    assert Finished(input, Fresh(spans, start, cursor)) == spans + [ClosedSpan(input, after)];
  }

  lemma HeadLexes(
      input: string, reader: Reader, good: Judge, spans: seq<Span>, done: seq<Recipient>, start: nat, cursor: nat, texts: seq<string>, rs: seq<Recipient>)
    returns (more: seq<Span>)
    requires JudgesSpans(input, reader, good) && Printed(texts, rs) && rs != [] && GoodSpans(good, spans, done)
    requires start <= cursor && StandsAt(input, cursor, texts[0]) && Lead(input[start..cursor])
    requires var c := cursor + |texts[0]|; c + 1 < |input| && Separates(input[c]) && input[c + 1] == ' '
    ensures GoodSpans(good, more, done + [rs[0]])
    ensures var c := cursor + |texts[0]|;
      && Lead(input[c + 1..c + 2])
      && Finished(input, Fresh(spans, start, cursor)) == Finished(input, Fresh(more, c + 1, c + 2))
  {
    var after := OneRecipient(input, reader, spans, start, cursor, texts, rs);
    more := spans + [ClosedSpan(input, after)];
    SeparatorGoes(input, after);
    SpaceGoes(input, more, after.cursor + 1);
  }

  lemma SpaceGoes(input: string, spans: seq<Span>, c: nat)
    requires c < |input| && input[c] == ' '
    ensures Lead(input[c..c + 1]) && Goes(input, Fresh(spans, c, c), Fresh(spans, c, c + 1))
  {
    PadGoes(input, Fresh(spans, c, c));
    SpaceLeads(input, c);
  }

  predicate EndsWith(input: string, cursor: nat, text: string) {
    cursor <= |input| && input[cursor..] == text
  }

  lemma JoinedText(input: string, cursor: nat, texts: seq<string>, sep: char)
    requires |texts| > 1 && EndsWith(input, cursor, Joined(texts, sep))
    ensures var c := cursor + |texts[0]|;
      && StandsAt(input, cursor, texts[0]) && c + 1 < |input| && input[c] == sep && input[c + 1] == ' '
      && EndsWith(input, c + 2, Joined(texts[1..], sep))
  {
    var text, rest := texts[0], Joined(texts[1..], sep);
    assert input[cursor..] == input[cursor..cursor + |text + [sep, ' '] + rest|];
    ListText(input, cursor, text, rest, sep);
  }

  lemma ListText(input: string, cursor: nat, text: string, rest: string, sep: char)
    requires StandsAt(input, cursor, text + [sep, ' '] + rest)
    ensures StandsAt(input, cursor, text) && StandsAt(input, cursor + |text| + 2, rest)
    ensures input[cursor + |text|] == sep && input[cursor + |text| + 1] == ' '
  {
    StandsSplit(input, cursor, text + [sep, ' '], rest);
    StandsSplit(input, cursor, text, [sep, ' ']);
    var c := cursor + |text|;
    assert input[c] == input[c..c + 2][0] && input[c + 1] == input[c..c + 2][1];
  }

  lemma {:induction false} GoodSpansRead(input: string, reader: Reader, good: Judge, spans: seq<Span>, rs: seq<Recipient>, index: nat, addresses: seq<string>)
    requires JudgesSpans(input, reader, good) && GoodSpans(good, spans, rs)
    ensures ReadSpans(input, spans, index, addresses) == Accepted(addresses + Emails(rs))
    decreases spans
  {
    if spans == [] {
      assert addresses + Emails(rs) == addresses;
    } else {
      assert GoodSpan(input, reader, spans[0], rs[0]);
      GoodSpansRead(input, reader, good, spans[1..], rs[1..], index + 1, addresses + [rs[0].email]);
      assert addresses + [rs[0].email] + Emails(rs[1..]) == addresses + Emails(rs);
    }
  }

  /** A printed list has one span for each recipient. */
  lemma PrintedSpans(input: string, rs: seq<Recipient>, sep: char, reader: Reader, good: Judge)
    requires GoodRecipients(rs) && rs != [] && Separates(sep) && input == Joined(Texts(rs), sep) && JudgesSpans(input, reader, good)
    ensures GoodSpans(good, Tokenize(input), rs)
  {
    assert input[0..0] == "" && input[0..] == input;
    ListLexes(input, reader, good, sep, [], [], 0, 0, Texts(rs), rs);
    assert Tokenize(input) == Finished(input, Fresh([], 0, 0));
    assert [] + rs == rs;
  }

  /** Reading a list of good recipients, with commas or with semicolons between them,
      returns exactly their addresses, in order. */
  lemma ParseOfList(rs: seq<Recipient>, sep: char)
    requires GoodRecipients(rs) && Separates(sep)
    ensures ParsedRecipients(Joined(Texts(rs), sep)) == Accepted(Emails(rs))
  {
    var input := Joined(Texts(rs), sep);
    if rs == [] {
      NothingParses();
    } else {
      var reader: Reader := p => ReadMailbox(input, p);
      var good: Judge := (span, r) => GoodSpan(input, reader, span, r);
      PrintedSpans(input, rs, sep, reader, good);
      GoodSpansRead(input, reader, good, Tokenize(input), rs, 0, []);
      assert [] + Emails(rs) == Emails(rs);
    }
  }

  /** Printing any list of good recipients and reading it back returns exactly
      their addresses, in order. */
  lemma ParseOfFormat(rs: seq<Recipient>)
    requires GoodRecipients(rs)
    ensures ParsedRecipients(FormatList(rs)) == Accepted(Emails(rs))
  {
    ParseOfList(rs, ',');
  }

  /** Each span of the printed list shows the name of its recipient: without its quotes and
      escapes it is the name that was given, tabs read as spaces. */
  lemma NamesOfFormat(rs: seq<Recipient>, i: nat)
    requires GoodRecipients(rs) && i < |rs|
    ensures var spans := Tokenize(FormatList(rs)); |spans| == |rs| && NameIn(FormatList(rs), spans[i]) == PrintedName(rs[i])
  {
    var input := FormatList(rs);
    var reader: Reader := p => ReadMailbox(input, p);
    var good: Judge := (span, r) => GoodSpan(input, reader, span, r);
    PrintedSpans(input, rs, ',', reader, good);
    assert GoodSpan(input, reader, Tokenize(input)[i], rs[i]);
  }

  /** Two lists are printed alike only if they have the same addresses and printed names. */
  lemma FormatIsInjective(a: seq<Recipient>, b: seq<Recipient>)
    requires GoodRecipients(a) && GoodRecipients(b) && FormatList(a) == FormatList(b)
    ensures |a| == |b| && forall i :: 0 <= i < |a| ==> a[i].email == b[i].email && PrintedName(a[i]) == PrintedName(b[i])
  {
    ParseOfFormat(a);
    ParseOfFormat(b);
    assert |Emails(a)| == |Emails(b)|;
    forall i | 0 <= i < |a| ensures a[i].email == b[i].email && PrintedName(a[i]) == PrintedName(b[i]) {
      assert Emails(a)[i] == Emails(b)[i];
      NamesOfFormat(a, i);
      NamesOfFormat(b, i);
    }
  }

  lemma NothingParses()
    ensures ParsedRecipients("") == Accepted([])
  {
    assert Tokenize("") == [Span(0, 0, [], false)];
    var spans := Tokenize("");
    assert spans[1..] == [];
    assert AllPadding(Slice("", 0, 0));
    assert ReadSpans("", spans, 0, []) == ReadSpans("", spans[1..], 0, []);
  }
}
