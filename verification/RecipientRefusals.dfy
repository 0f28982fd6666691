/** What reading recipients refuses: the first bad one by its ordinal among those that are
    not blank, and an address shown before brackets that hold another. */
module RecipientRefusals {
  import opened Basics
  import opened RecipientLexer
  import opened Recipients

  // ------------------------------------------------------------ which recipient is refused

  predicate BlankSpan(input: string, span: Span) {
    !span.error && AllPadding(Slice(input, span.start, span.end))
  }

  predicate BadSpan(input: string, span: Span) {
    !BlankSpan(input, span) && (span.error || ReadMailbox(input, span.parts).None?)
  }

  /** How many spans are not blank. */
  function Filled(input: string, spans: seq<Span>): nat {
    if spans == [] then 0 else (if BlankSpan(input, spans[0]) then 0 else 1) + Filled(input, spans[1..])
  }

  /** What a span that is not bad adds. */
  function Added(input: string, span: Span): seq<string> {
    if BlankSpan(input, span) || ReadMailbox(input, span.parts).None? then [] else [ReadMailbox(input, span.parts).value]
  }

  /** The addresses of the spans that are not blank. */
  function AddressesIn(input: string, spans: seq<Span>): seq<string> {
    if spans == [] then [] else Added(input, spans[0]) + AddressesIn(input, spans[1..])
  }

  lemma {:induction false} FirstBadSpan(input: string, spans: seq<Span>, index: nat, addresses: seq<string>, k: nat)
    requires k < |spans| && BadSpan(input, spans[k]) && forall j :: 0 <= j < k ==> !BadSpan(input, spans[j])
    ensures ReadSpans(input, spans, index, addresses) == Refused(index + Filled(input, spans[..k]) + 1)
    decreases k
  {
    if k > 0 {
      assert !BadSpan(input, spans[0]);
      assert spans[..k][0] == spans[0] && spans[..k][1..] == spans[1..][..k - 1];
      assert forall j :: 0 <= j < k - 1 ==> spans[1..][j] == spans[j + 1];
      if BlankSpan(input, spans[0]) {
        FirstBadSpan(input, spans[1..], index, addresses, k - 1);
      } else {
        FirstBadSpan(input, spans[1..], index + 1, addresses + [ReadMailbox(input, spans[0].parts).value], k - 1);
      }
    }
  }

  lemma GoodSpanAdds(input: string, spans: seq<Span>, index: nat, addresses: seq<string>)
    requires spans != [] && !BadSpan(input, spans[0])
    ensures ReadSpans(input, spans, index, addresses) ==
      ReadSpans(input, spans[1..], if BlankSpan(input, spans[0]) then index else index + 1, addresses + Added(input, spans[0]))
  {
    if BlankSpan(input, spans[0]) {
      assert addresses + [] == addresses;
    }
  }

  lemma Assoc(a: seq<string>, b: seq<string>, c: seq<string>)
    ensures a + b + c == a + (b + c)
  {
  }

  lemma {:induction false} NoBadSpan(input: string, spans: seq<Span>, index: nat, addresses: seq<string>)
    requires forall j :: 0 <= j < |spans| ==> !BadSpan(input, spans[j])
    ensures ReadSpans(input, spans, index, addresses) == Accepted(addresses + AddressesIn(input, spans))
    decreases |spans|
  {
    if spans == [] {
      assert addresses + AddressesIn(input, spans) == addresses;
    } else {
      var one, rest := Added(input, spans[0]), AddressesIn(input, spans[1..]);
      GoodSpanAdds(input, spans, index, addresses);
      NoBadSpan(input, spans[1..], if BlankSpan(input, spans[0]) then index else index + 1, addresses + one);
      Assoc(addresses, one, rest);
    }
  }

  /** A list is refused exactly when one of its recipients is bad; the first is reported,
      counted among those that are not blank. Otherwise all addresses are returned. */
  lemma RefusesFirstBad(input: string, k: nat)
    requires forall j :: 0 <= j < k && j < |Tokenize(input)| ==> !BadSpan(input, Tokenize(input)[j])
    requires k < |Tokenize(input)| ==> BadSpan(input, Tokenize(input)[k])
    ensures ParsedRecipients(input) ==
      if k < |Tokenize(input)| then Refused(Filled(input, Tokenize(input)[..k]) + 1)
      else Accepted(AddressesIn(input, Tokenize(input)))
  {
    var spans := Tokenize(input);
    if k < |spans| {
      FirstBadSpan(input, spans, 0, [], k);
    } else {
      NoBadSpan(input, spans, 0, []);
      assert [] + AddressesIn(input, spans) == AddressesIn(input, spans);
    }
  }

  // ------------------------------------------------------------ which spans are mailboxes

  /** An address in angle brackets, after nothing, words and quoted text, or itself. */
  predicate Bracketed(input: string, parts: seq<Part>, open: nat, email: string) {
    && open + 5 == |parts| && parts[open].kind == Less && parts[open + 4].kind == Greater
    && AddressShape(parts[open + 1..open + 4]) && ReadAddrSpec(input, parts[open + 1..open + 4]) == Some(email)
    && (IsDisplay(parts[..open]) || (AddressShape(parts[..open]) && ReadAddrSpec(input, parts[..open]) == Some(email)))
  }

  /** A span is read as an address exactly when its parts are the address, or end in it in
      angle brackets; a group, with its colon, is neither. */
  lemma MailboxIff(input: string, parts: seq<Part>, email: string)
    ensures ReadMailbox(input, parts) == Some(email) <==>
      || (AddressShape(parts) && ReadAddrSpec(input, parts) == Some(email))
      || exists open: nat :: Bracketed(input, parts, open, email)
  {
    AddrSpecShape(input, parts);
    if ReadMailbox(input, parts) == Some(email) && IndexOfKind(parts, Less).Some? {
      BracketsFound(input, parts, IndexOfKind(parts, Less).value, email);
    }
    if AddressShape(parts) && ReadAddrSpec(input, parts) == Some(email) {
      ShapeIsMailbox(input, parts, email);
    }
    if open: nat :| Bracketed(input, parts, open, email) {
      BracketsRead(input, parts, open, email);
    }
  }

  lemma BracketsFound(input: string, parts: seq<Part>, open: nat, email: string)
    requires ReadMailbox(input, parts) == Some(email) && IndexOfKind(parts, Less) == Some(open)
    ensures Bracketed(input, parts, open, email)
  {
    var inner, display := parts[open + 1..|parts| - 1], parts[..open];
    AddrSpecShape(input, inner);
    AddrSpecShape(input, display);
    assert open + 5 == |parts| && inner == parts[open + 1..open + 4];
  }

  lemma BracketsRead(input: string, parts: seq<Part>, open: nat, email: string)
    requires Bracketed(input, parts, open, email)
    ensures ReadMailbox(input, parts) == Some(email)
  {
    var display, p := parts[..open], parts[open + 1..open + 4];
    assert parts == display + [parts[open]] + p + [parts[open + 4]];
    if IsDisplay(display) {
      NamedReads(input, display, parts[open], p, parts[open + 4], email);
    } else {
      BothRead(input, display, parts[open], p, parts[open + 4], email, email);
    }
  }

  // ------------------------------------------------------------ an address shown before another

  lemma KindsOfBoth(display: seq<Part>, less: Part, p: seq<Part>, greater: Part, all: seq<Part>)
    requires AddressShape(display) && AddressShape(p) && less.kind == Less && greater.kind == Greater
    requires all == display + [less] + p + [greater]
    ensures IndexOfKind(all, Colon).None? && IndexOfKind(all, Less) == Some(3) && IndexOfKind(all, Greater) == Some(7)
    ensures |all| == 8 && all[4..7] == p && all[..3] == display && IndexOfKind(display, At).Some?
  {
    NamedPlaces(display, less, p, greater, all);
  }

  lemma BothRead(input: string, display: seq<Part>, less: Part, p: seq<Part>, greater: Part, shown: string, email: string)
    requires AddressShape(display) && ReadAddrSpec(input, display) == Some(shown)
    requires AddressShape(p) && ReadAddrSpec(input, p) == Some(email) && less.kind == Less && greater.kind == Greater
    ensures ReadMailbox(input, display + [less] + p + [greater]) == if shown == email then Some(email) else None
  {
    KindsOfBoth(display, less, p, greater, display + [less] + p + [greater]);
  }

  /** The answer for an address shown before a bracketed one. */
  function Agreed(shown: string, email: string): Option<string> {
    if shown == email then Some(email) else None
  }

  lemma BothParts(input: string, reader: Reader, off: nat, shown: string, next: nat, email: string, less: Part, greater: Part)
    requires ReadsMailboxes(input, reader) && IsAddress(shown) && IsAddress(email)
    requires StandsAt(input, off, shown) && StandsAt(input, next, email) && less.kind == Less && greater.kind == Greater
    ensures reader(Shift(AddressParts(shown), off) + [less] + Shift(AddressParts(email), next) + [greater]) == Agreed(shown, email)
  {
    AddressFacts(input, off, shown);
    AddressFacts(input, next, email);
    BothRead(input, Shift(AddressParts(shown), off), less, Shift(AddressParts(email), next), greater, shown, email);
  }

  /** The state after the address that is shown. */
  lemma ShownGoes(input: string, shown: string, p: seq<Part>) returns (mid: State)
    requires IsAddress(shown) && StandsAt(input, 0, shown) && p == Shift(AddressParts(shown), 0)
    ensures Goes(input, Fresh([], 0, 0), mid) && mid == State([], 0, p, false, 0, false, |shown|)
  {
    var st := Fresh([], 0, 0);
    AddressGoes(input, st, shown);
    mid := AfterParts(st, p, |shown|);
    assert st.parts + p == p;
  }

  lemma BothStand(input: string, shown: string, email: string, tail: string)
    requires tail == " <" + email + ">" && input == shown + tail
    ensures StandsAt(input, 0, shown) && StandsAt(input, |shown|, tail) && |tail| == |email| + 3
    ensures StandsAt(input, |shown| + 2, email)
  {
    assert input[0..0 + |input|] == input;
    StandsSplit(input, 0, shown, tail);
    AngledText(input, |shown|, email);
  }

  /** The state at the end of such an input. */
  lemma BothGo(input: string, reader: Reader, shown: string, email: string) returns (after: State)
    requires ReadsMailboxes(input, reader) && IsAddress(shown) && IsAddress(email) && input == shown + (" <" + email + ">")
    ensures Goes(input, Fresh([], 0, 0), after) && after == State([], 0, after.parts, false, 0, true, |input|)
    ensures reader(after.parts) == Agreed(shown, email)
  {
    var n, p, q := |shown|, Shift(AddressParts(shown), 0), Shift(AddressParts(email), |shown| + 2);
    BothStand(input, shown, email, " <" + email + ">");
    var mid := ShownGoes(input, shown, p);
    AngledPath(input, mid, email);
    AngledState(mid, q, |email|);
    BothParts(input, reader, 0, shown, n + 2, email, Part(Less, n + 1, n + 2), Part(Greater, n + 2 + |email|, n + 3 + |email|));
    after := AfterAngled(mid, q, |email|);
    GoesOn(input, Fresh([], 0, 0), mid, after);
  }

  lemma BothArePrintable(shown: string, email: string)
    requires ExactAddress(shown) && ExactAddress(email)
    ensures var input := shown + (" <" + email + ">"); !HasControl(input) && !AllPadding(input)
  {
    AddressIsPrintable(shown);
    AddressIsPrintable(email);
    AppendPrintable(" <", email);
    AppendPrintable(" <" + email, ">");
    AppendPrintable(shown, " <" + email + ">");
    var k :| 0 <= k < |shown| && shown[k] == '@';
    assert (shown + (" <" + email + ">"))[k] == '@';
  }

  /** An address shown before brackets is accepted only if the brackets hold the same one. */
  lemma ShownAddressMustAgree(shown: string, email: string)
    requires ExactAddress(shown) && ExactAddress(email)
    ensures ParsedRecipients(shown + (" <" + email + ">")) == if shown == email then Accepted([email]) else Refused(1)
  {
    var input := shown + (" <" + email + ">");
    assert IsAddress(shown) && IsAddress(email);
    var reader: Reader := p => ReadMailbox(input, p);
    var after := BothGo(input, reader, shown, email);
    BothArePrintable(shown, email);
    OneSpan(input, after);
    OneAnswer(input, reader, after.parts, Agreed(shown, email));
  }

  lemma OneAnswer(input: string, reader: Reader, parts: seq<Part>, answer: Option<string>)
    requires ReadsMailboxes(input, reader) && Tokenize(input) == [Span(0, |input|, parts, false)]
    requires !BlankSpan(input, Span(0, |input|, parts, false)) && reader(parts) == answer
    ensures ParsedRecipients(input) == if answer.Some? then Accepted([answer.value]) else Refused(1)
  {
    var spans := Tokenize(input);
    assert ReadMailbox(input, parts) == answer;
    assert spans[..0] == [] && spans[1..] == [];
    RefusesFirstBad(input, if answer.Some? then 1 else 0);
  }

  lemma OneSpan(input: string, after: State)
    requires Goes(input, Fresh([], 0, 0), after) && after == State([], 0, after.parts, false, 0, true, |input|)
    requires !HasControl(input) && !AllPadding(input)
    ensures Tokenize(input) == [Span(0, |input|, after.parts, false)] && !BlankSpan(input, Tokenize(input)[0])
  {
    assert input[0..|input|] == input;
    assert [] + [ClosedSpan(input, after)] == [ClosedSpan(input, after)];
    assert Tokenize(input) == Finished(input, Fresh([], 0, 0));
  }
}
