/** Physical iCalendar lines: folding at 75 octets, line breaks, and reading
    back what was written. */
module ICalText {
  import opened Basics

  // ------------------------------------------------------------ folding

  /** The length of a character in UTF-8. */
  function CharOctets(c: char): (n: nat)
    ensures 1 <= n <= 4
  {
    if c < '\U{80}' then 1 else if c < '\U{800}' then 2 else if c < '\U{10000}' then 3 else 4
  }

  /** How many characters a sequence of so many octets can tell apart: seven bits alone,
      and otherwise six bits in each octet after the first, whose own share shrinks. */
  function Capacity(n: nat): nat
    requires 1 <= n <= 4
  {
    match n
    case 1 => 128
    case 2 => 32 * 64
    case 3 => 16 * 64 * 64
    case _ => 8 * 64 * 64 * 64
  }

  /** A character takes the fewest octets that can hold it, as UTF-8 has it. */
  lemma FewestOctets(c: char, n: nat)
    requires 1 <= n <= 4
    ensures c as int < Capacity(n) <==> CharOctets(c) <= n
  {
  }

  function Octets(s: string): nat {
    if s == "" then 0 else CharOctets(s[0]) + Octets(s[1..])
  }

  /** The character index of an octet offset, if the offset is a character boundary. */
  function Boundary(s: string, n: nat): (r: Option<nat>)
    ensures r.Some? ==> r.value <= |s|
  {
    if n == 0 then Some(0)
    else if s == "" || n < CharOctets(s[0]) then None
    else
      match Boundary(s[1..], n - CharOctets(s[0]))
      case None => None
      case Some(k) => Some(k + 1)
  }

  /** How many leading characters fit in `limit` octets. */
  function Fit(s: string, limit: nat): (k: nat)
    ensures k <= |s|
  {
    if s == "" || limit < CharOctets(s[0]) then 0 else 1 + Fit(s[1..], limit - CharOctets(s[0]))
  }

  /** A content line as physical lines: each takes as much as fits, and every line
      but the first begins with the space that marks a continuation. */
  function Fold(s: string, first: bool): seq<string> {
    if s == "" then []
    else
      var k := Fit(s, if first then 75 else 74);
      [(if first then "" else " ") + s[..k]] + Fold(s[k..], false)
  }

  lemma OctetsHead(s: string, k: nat)
    requires 0 < k <= |s|
    ensures Octets(s[..k]) == CharOctets(s[0]) + Octets(s[1..][..k - 1])
  {
    assert s[..k][1..] == s[1..][..k - 1];
  }

  lemma {:induction false} OctetsSplit(s: string, k: nat)
    requires k <= |s|
    ensures Octets(s) == Octets(s[..k]) + Octets(s[k..])
  {
    if k == 0 {
      assert s[0..] == s;
    } else {
      OctetsHead(s, k);
      OctetsSplit(s[1..], k - 1);
      assert s[1..][k - 1..] == s[k..];
    }
  }

  /** `Fit` is the greatest prefix within the limit. */
  lemma {:induction false} FitIsGreatest(s: string, limit: nat, k: nat)
    requires k <= |s|
    ensures Octets(s[..k]) <= limit <==> k <= Fit(s, limit)
  {
    if k > 0 {
      OctetsHead(s, k);
      if CharOctets(s[0]) <= limit {
        FitIsGreatest(s[1..], limit - CharOctets(s[0]), k - 1);
      }
    }
  }

  lemma {:induction false} BoundaryIsPrefix(s: string, n: nat)
    ensures Boundary(s, n).Some? ==> Octets(s[..Boundary(s, n).value]) == n
  {
    if n > 0 && s != "" && CharOctets(s[0]) <= n {
      BoundaryIsPrefix(s[1..], n - CharOctets(s[0]));
      if Boundary(s, n).Some? {
        OctetsHead(s, Boundary(s, n).value);
      }
    }
  }

  lemma {:induction false} PrefixIsBoundary(s: string, k: nat)
    requires k <= |s|
    ensures Boundary(s, Octets(s[..k])) == Some(k)
  {
    if k > 0 {
      OctetsHead(s, k);
      PrefixIsBoundary(s[1..], k - 1);
    }
  }

  lemma FitTakesSome(s: string, limit: nat)
    requires s != "" && limit >= 4
    ensures Fit(s, limit) > 0
  {
  }

  /** The loop that folds: back up from the limit to a character boundary, then
      take every further character that still fits. */
  method FoldLine(line: string) returns (folded: seq<string>)
    ensures folded == Fold(line, true)
  {
    var remaining, first := line, true;
    folded := [];
    while remaining != ""
      invariant folded + Fold(remaining, first) == Fold(line, true)
      decreases |remaining|
    {
      var limit := if first then 75 else 74;
      FitTakesSome(remaining, limit);
      var k := ChunkEnd(remaining, limit);
      var prefix := if first then "" else " ";
      assert folded + Fold(remaining, first) == (folded + [prefix + remaining[..k]]) + Fold(remaining[k..], false);
      folded := folded + [prefix + remaining[..k]];
      remaining, first := remaining[k..], false;
    }
  }

  method ChunkEnd(remaining: string, limit: nat) returns (k: nat)
    ensures k == Fit(remaining, limit)
  {
    ghost var fit := Fit(remaining, limit);
    FitIsGreatest(remaining, limit, fit);
    PrefixIsBoundary(remaining, fit);
    OctetsSplit(remaining, fit);
    var total := Octets(remaining);
    var end := if total < limit then total else limit;
    while Boundary(remaining, end).None?
      invariant Octets(remaining[..fit]) <= end <= limit
      decreases end
    {
      end := end - 1;
    }
    k := Boundary(remaining, end).value;
    BoundaryIsPrefix(remaining, end);
    FitIsGreatest(remaining, limit, k);
    while end < total
      invariant k <= fit && end == Octets(remaining[..k])
      decreases fit - k
    {
      ExtendPrefix(remaining, k, total);
      FitIsGreatest(remaining, limit, k + 1);
      var next := CharOctets(remaining[k]);
      if end + next > limit {
        break;
      }
      end, k := end + next, k + 1;
    }
    if end >= total {
      OctetsSplit(remaining, k);
      AllFits(remaining, k, fit);
    }
  }

  lemma ExtendPrefix(s: string, k: nat, total: nat)
    requires k <= |s| && Octets(s[..k]) < total == Octets(s)
    ensures k < |s| && Octets(s[..k + 1]) == Octets(s[..k]) + CharOctets(s[k])
  {
    assert s[..|s|] == s;
    OctetsSplit(s[..k + 1], k);
    assert s[..k + 1][..k] == s[..k] && s[..k + 1][k..] == [s[k]];
  }

  lemma AllFits(s: string, k: nat, fit: nat)
    requires k <= fit <= |s| && Octets(s[..k]) == Octets(s)
    ensures k == fit
  {
    OctetsSplit(s, k);
    NoneIsEmpty(s[k..]);
  }

  lemma NoneIsEmpty(s: string)
    ensures Octets(s) == 0 ==> s == ""
  {
  }

  // ------------------------------------------------------------ what folding promises

  predicate StartsBlank(s: string) {
    s != "" && (s[0] == ' ' || s[0] == '\t')
  }

  predicate Continues(lines: seq<string>) {
    forall i :: 0 <= i < |lines| ==> StartsBlank(lines[i])
  }

  predicate WithinLimit(lines: seq<string>) {
    forall i :: 0 <= i < |lines| ==> Octets(lines[i]) <= 75
  }

  predicate Without(s: string, c: char) {
    forall i :: 0 <= i < |s| ==> s[i] != c
  }

  predicate AllWithout(lines: seq<string>, c: char) {
    forall i :: 0 <= i < |lines| ==> Without(lines[i], c)
  }

  /** The text of continuation lines, without the mark each begins with. */
  function Continuation(lines: seq<string>): string
    requires Continues(lines)
  {
    if lines == [] then "" else lines[0][1..] + Continuation(lines[1..])
  }

  /** No physical line is longer than 75 octets. */
  lemma {:induction false} FoldIsShort(s: string, first: bool)
    ensures WithinLimit(Fold(s, first))
    decreases |s|
  {
    if s != "" {
      var limit := if first then 75 else 74;
      var k := Fit(s, limit);
      FitTakesSome(s, limit);
      FitIsGreatest(s, limit, k);
      FoldIsShort(s[k..], false);
      var piece := " " + s[..k];
      assert piece[1..] == s[..k];
      assert Octets(piece) == 1 + Octets(s[..k]);
      assert "" + s[..k] == s[..k];
    }
  }

  /** The continuation lines carry the whole text. */
  lemma {:induction false} FoldedContinues(s: string)
    ensures Continues(Fold(s, false)) && Continuation(Fold(s, false)) == s
    decreases |s|
  {
    if s != "" {
      var k := Fit(s, 74);
      FitTakesSome(s, 74);
      FoldedContinues(s[k..]);
      var lines := Fold(s, false);
      assert lines[1..] == Fold(s[k..], false);
      assert lines[0][1..] == s[..k];
      assert s[..k] + s[k..] == s;
    }
  }

  lemma {:induction false} FoldAddsNothing(s: string, first: bool, c: char)
    requires Without(s, c) && c != ' '
    ensures AllWithout(Fold(s, first), c)
    decreases |s|
  {
    if s != "" {
      var limit := if first then 75 else 74;
      var k := Fit(s, limit);
      FitTakesSome(s, limit);
      FoldAddsNothing(s[k..], false, c);
      assert Without(s[..k], c) && Without(" " + s[..k], c) && Without("" + s[..k], c);
    }
  }

  // ------------------------------------------------------------ line breaks

  const BOM: char := '\U{FEFF}'

  function StripBom(s: string): string {
    if s != "" && s[0] == BOM then StripBom(s[1..]) else s
  }

  /** Every CR LF becomes LF. */
  function Normalize(s: string): string {
    if s == "" then ""
    else if |s| > 1 && s[0] == '\r' && s[1] == '\n' then "\n" + Normalize(s[2..])
    else [s[0]] + Normalize(s[1..])
  }

  function LineLength(s: string): (k: nat)
    ensures k <= |s| && Without(s[..k], '\n') && (k < |s| ==> s[k] == '\n')
  {
    if s == "" || s[0] == '\n' then 0
    else
      var k := LineLength(s[1..]);
      assert s[..k + 1] == [s[0]] + s[1..][..k];
      k + 1
  }

  predicate EndsReturn(s: string) {
    s != "" && s[|s| - 1] == '\r'
  }

  function StripReturn(s: string): string {
    if EndsReturn(s) then s[..|s| - 1] else s
  }

  /** The lines of a text: a terminated line loses one carriage return before its
      line feed; a last line without a line feed is taken as it is. */
  function LinesOf(s: string): seq<string>
    decreases |s|
  {
    if s == "" then []
    else
      var k := LineLength(s);
      if k == |s| then [s] else [StripReturn(s[..k])] + LinesOf(s[k + 1..])
  }

  function PhysicalLines(text: string): seq<string> {
    LinesOf(Normalize(StripBom(text)))
  }

  predicate HasCrLf(text: string) {
    exists i :: 0 <= i < |text| - 1 && text[i] == '\r' && text[i + 1] == '\n'
  }

  datatype Ending = CrLf | Lf

  function EndingText(e: Ending): string {
    match e
    case CrLf => "\r\n"
    case Lf => "\n"
  }

  function EndingOf(text: string): Ending {
    if HasCrLf(text) then CrLf else Lf
  }

  function JoinLines(lines: seq<string>, separator: string): string {
    if lines == [] then ""
    else if |lines| == 1 then lines[0]
    else lines[0] + separator + JoinLines(lines[1..], separator)
  }

  /** Physical lines as a text, the last one terminated too. */
  function Emit(lines: seq<string>, e: Ending): string {
    JoinLines(lines, EndingText(e)) + EndingText(e)
  }

  // ------------------------------------------------------------ reading back

  lemma EmitHead(lines: seq<string>, e: Ending)
    requires lines != []
    ensures Emit(lines, e) == lines[0] + EndingText(e) + (if |lines| == 1 then "" else Emit(lines[1..], e))
  {
  }

  /** What a written line is read as: its trailing carriage returns suffer. */
  function Shed(line: string, e: Ending): string {
    match e
    case CrLf => StripReturn(line)
    case Lf => StripReturn(StripReturn(line))
  }

  lemma ShedKeepsIff(line: string, e: Ending)
    ensures Shed(line, e) == line <==> !EndsReturn(line)
  {
  }

  function Normalized(line: string, e: Ending): string {
    if e == Lf then StripReturn(line) else line
  }

  lemma NormalizeBreak(line: string, e: Ending, rest: string)
    requires line == "" || (line == "\r" && e == Lf)
    ensures Normalize(line + EndingText(e) + rest) == "\n" + Normalize(rest)
    ensures Normalized(line, e) == ""
  {
    var s := line + EndingText(e) + rest;
    if s[0] == '\r' {
      assert s[2..] == rest;
    } else {
      assert s[1..] == rest;
    }
  }

  /** Any other line gives its first character. */
  lemma NormalizeHead(line: string, e: Ending, rest: string)
    requires Without(line, '\n') && line != "" && !(line == "\r" && e == Lf)
    ensures Normalize(line + EndingText(e) + rest) == [line[0]] + Normalize(line[1..] + EndingText(e) + rest)
    ensures Normalized(line, e) == [line[0]] + Normalized(line[1..], e)
  {
    var s := line + EndingText(e) + rest;
    assert s[1..] == line[1..] + EndingText(e) + rest;
    if |line| == 1 {
      assert s[1] == EndingText(e)[0];
    } else {
      assert s[1] == line[1];
    }
  }

  /** A line of text up to its line feed, and the rest, are normalized separately. */
  lemma {:induction false} NormalizeLine(line: string, e: Ending, rest: string)
    requires Without(line, '\n')
    ensures Normalize(line + EndingText(e) + rest) == Normalized(line, e) + "\n" + Normalize(rest)
    decreases |line|
  {
    if line == "" || (line == "\r" && e == Lf) {
      NormalizeBreak(line, e, rest);
    } else {
      NormalizeHead(line, e, rest);
      NormalizeLine(line[1..], e, rest);
    }
  }

  lemma FirstLine(line: string, rest: string)
    requires Without(line, '\n')
    ensures LinesOf(line + "\n" + rest) == [StripReturn(line)] + LinesOf(rest)
  {
    var s := line + "\n" + rest;
    LineLengthOf(line, rest);
    assert s[..|line|] == line && s[|line| + 1..] == rest;
  }

  lemma {:induction false} LineLengthOf(line: string, rest: string)
    requires Without(line, '\n')
    ensures LineLength(line + "\n" + rest) == |line|
  {
    var s := line + "\n" + rest;
    if line != "" {
      assert s[1..] == line[1..] + "\n" + rest;
      LineLengthOf(line[1..], rest);
    }
  }

  function ShedAll(lines: seq<string>, e: Ending): (r: seq<string>)
    ensures |r| == |lines| && forall i :: 0 <= i < |lines| ==> r[i] == Shed(lines[i], e)
  {
    seq(|lines|, i requires 0 <= i < |lines| => Shed(lines[i], e))
  }

  lemma {:induction false} LinesOfEmit(lines: seq<string>, e: Ending)
    requires lines != [] && AllWithout(lines, '\n')
    ensures LinesOf(Normalize(Emit(lines, e))) == ShedAll(lines, e)
    decreases |lines|
  {
    var line := lines[0];
    var rest := if |lines| == 1 then "" else Emit(lines[1..], e);
    EmitHead(lines, e);
    FirstShed(line, e, rest);
    if |lines| > 1 {
      LinesOfEmit(lines[1..], e);
    }
    ShedHead(lines, e);
  }

  lemma ShedHead(lines: seq<string>, e: Ending)
    requires lines != []
    ensures ShedAll(lines, e) == [Shed(lines[0], e)] + ShedAll(lines[1..], e)
  {
  }

  lemma FirstShed(line: string, e: Ending, rest: string)
    requires Without(line, '\n')
    ensures LinesOf(Normalize(line + EndingText(e) + rest)) == [Shed(line, e)] + LinesOf(Normalize(rest))
  {
    NormalizeLine(line, e, rest);
    FirstLine(Normalized(line, e), Normalize(rest));
  }

  predicate StartsWithBom(lines: seq<string>) {
    lines != [] && lines[0] != "" && lines[0][0] == BOM
  }

  predicate NoReturns(lines: seq<string>) {
    forall i :: 0 <= i < |lines| ==> !EndsReturn(lines[i])
  }

  /** Written lines read back as they were if and only if none ends in a carriage return. */
  lemma ReadBackIff(lines: seq<string>, e: Ending)
    requires lines != [] && AllWithout(lines, '\n') && !StartsWithBom(lines)
    ensures PhysicalLines(Emit(lines, e)) == ShedAll(lines, e)
    ensures PhysicalLines(Emit(lines, e)) == lines <==> NoReturns(lines)
  {
    EmitHead(lines, e);
    assert StripBom(Emit(lines, e)) == Emit(lines, e);
    LinesOfEmit(lines, e);
    if NoReturns(lines) {
      assert ShedAll(lines, e) == lines;
    } else {
      var i :| 0 <= i < |lines| && EndsReturn(lines[i]);
      ShedKeepsIff(lines[i], e);
      assert ShedAll(lines, e)[i] != lines[i];
    }
  }

  lemma CrLfInside(line: string, e: Ending, rest: string)
    requires Without(line, '\n') && !EndsReturn(line)
    ensures HasCrLf(line + EndingText(e) + rest) == (e == CrLf || HasCrLf(rest))
  {
    var s := line + EndingText(e) + rest;
    var n := |line| + |EndingText(e)|;
    assert s[n..] == rest;
    if e == CrLf {
      assert s[|line|] == '\r' && s[|line| + 1] == '\n';
    }
    if HasCrLf(rest) {
      var i :| 0 <= i < |rest| - 1 && rest[i] == '\r' && rest[i + 1] == '\n';
      assert s[n + i] == '\r' && s[n + i + 1] == '\n';
    }
    if e == Lf && HasCrLf(s) {
      var i :| 0 <= i < |s| - 1 && s[i] == '\r' && s[i + 1] == '\n';
      assert i != |line| && i + 1 != |line|;
      if i >= n {
        assert rest[i - n] == '\r' && rest[i - n + 1] == '\n';
      }
    }
  }

  /** The line ending of a written text is detected again. */
  lemma {:induction false} EndingOfEmit(lines: seq<string>, e: Ending)
    requires lines != [] && AllWithout(lines, '\n') && NoReturns(lines)
    ensures EndingOf(Emit(lines, e)) == e
    decreases |lines|
  {
    EmitHead(lines, e);
    var rest := if |lines| == 1 then "" else Emit(lines[1..], e);
    CrLfInside(lines[0], e, rest);
    if |lines| > 1 {
      EndingOfEmit(lines[1..], e);
    }
  }

  // ------------------------------------------------------------ lines that were read

  lemma {:induction false} LinesHaveNoBreaks(s: string)
    ensures AllWithout(LinesOf(s), '\n')
    decreases |s|
  {
    if s != "" {
      var k := LineLength(s);
      if k < |s| {
        LinesHaveNoBreaks(s[k + 1..]);
      } else {
        assert s[..k] == s;
      }
    }
  }

  lemma {:induction false} StripBomStrips(s: string)
    ensures StripBom(s) == "" || StripBom(s)[0] != BOM
  {
    if s != "" && s[0] == BOM {
      StripBomStrips(s[1..]);
    }
  }

  lemma ReadLines(text: string)
    ensures AllWithout(PhysicalLines(text), '\n') && !StartsWithBom(PhysicalLines(text))
  {
    var s := StripBom(text);
    StripBomStrips(text);
    LinesHaveNoBreaks(Normalize(s));
    if s != "" {
      var t := Normalize(s);
      assert t[0] != BOM;
      var k := LineLength(t);
      assert k > 0 ==> t[..k][0] == t[0];
    }
  }
}
