/** The check that a text is one complete VCALENDAR, and how many events it holds.
    It unfolds the text by deleting folds, and not line by line. */
module ICalSplit {
  import opened Basics
  import opened Splitting
  import opened ICalText
  import opened ICalEvents

  // ------------------------------------------------------------ unfolding by deletion

  /** Every occurrence of a pattern deleted, from left to right. */
  function Remove(s: string, pattern: string): string
    requires pattern != ""
    decreases |s|
  {
    if s == "" then ""
    else if pattern <= s then Remove(s[|pattern|..], pattern)
    else [s[0]] + Remove(s[1..], pattern)
  }

  function RemoveFolds(s: string, e: Ending): string {
    Remove(Remove(s, EndingText(e) + " "), EndingText(e) + "\t")
  }

  function SplitLines(text: string): seq<string> {
    LinesOf(RemoveFolds(Normalize(RemoveFolds(StripBom(text), CrLf)), Lf))
  }

  // ------------------------------------------------------------ what is accepted

  /** What a line is to this check. */
  datatype Piece = Piece(blank: bool, opens: bool, closes: bool, marker: Marker)

  function PieceOf(line: string): Piece {
    var t := Trim(line);
    Piece(t == "", SameName(t, "BEGIN:VCALENDAR"), SameName(t, "END:VCALENDAR"), MarkerOf(line))
  }

  function Pieces(lines: seq<string>): (r: seq<Piece>)
    ensures |r| == |lines| && forall i :: 0 <= i < |lines| ==> r[i] == PieceOf(lines[i])
  {
    seq(|lines|, i requires 0 <= i < |lines| => PieceOf(lines[i]))
  }

  /** Where the reading of a calendar stands; `events` counts those that are complete. */
  datatype Reading =
    | Before
    | Among(events: nat)
    | Within(depth: nat, event: bool, events: nat)
    | After(events: nat)
    | Refused

  function Read(s: Reading, p: Piece): Reading {
    match s
    case Before => if p.blank then Before else if p.opens then Among(0) else Refused
    case Among(n) =>
      if p.closes then After(n)
      else if p.marker.Begin? then Within(1, p.marker.event, n)
      else Among(n)
    case Within(depth, event, n) =>
      if p.marker.Begin? then Within(depth + 1, event, n)
      else if p.marker.Plain? then s
      else if depth <= 1 then Among(if event then n + 1 else n)
      else Within(depth - 1, event, n)
    case After(n) => if p.blank then s else Refused
    case Refused => Refused
  }

  function ReadAll(s: Reading, ps: seq<Piece>): Reading
    decreases |ps|
  {
    if ps == [] then s else ReadAll(Read(s, ps[0]), ps[1..])
  }

  /** How many events a complete calendar holds: at least one, or it is refused. */
  function EventCount(ps: seq<Piece>): Result<nat> {
    var s := ReadAll(Before, ps);
    if s.After? && s.events > 0 then Ok(s.events) else Err
  }

  function SplitCalendar(text: string): Result<nat> {
    EventCount(Pieces(SplitLines(text)))
  }

  // ------------------------------------------------------------ the loops

  lemma {:induction false} ReadAppend(s: Reading, a: seq<Piece>, b: seq<Piece>)
    ensures ReadAll(s, a + b) == ReadAll(ReadAll(s, a), b)
    decreases |a|
  {
    if a == [] {
      assert a + b == b;
    } else {
      assert (a + b)[1..] == a[1..] + b;
      ReadAppend(Read(s, a[0]), a[1..], b);
    }
  }

  /** Reading the first `i` lines. */
  ghost function ReadTo(ps: seq<Piece>, i: nat): Reading
    requires i <= |ps|
  {
    ReadAll(Before, ps[..i])
  }

  lemma ReadNext(ps: seq<Piece>, i: nat)
    requires i < |ps|
    ensures ReadTo(ps, i + 1) == Read(ReadTo(ps, i), ps[i])
  {
    assert ps[..i + 1] == ps[..i] + [ps[i]];
    ReadAppend(Before, ps[..i], [ps[i]]);
    assert [ps[i]][1..] == [];
  }

  lemma {:induction false} RefusedStays(ps: seq<Piece>)
    ensures ReadAll(Refused, ps) == Refused
  {
    if ps != [] {
      RefusedStays(ps[1..]);
    }
  }

  lemma RefusedTo(ps: seq<Piece>, i: nat)
    requires i <= |ps| && ReadTo(ps, i) == Refused
    ensures ReadTo(ps, |ps|) == Refused
  {
    assert ps[..|ps|] == ps[..i] + ps[i..];
    ReadAppend(Before, ps[..i], ps[i..]);
    RefusedStays(ps[i..]);
  }

  /** Takes one component: where its lines end, unless it is never closed. */
  method TakeComponent(ps: seq<Piece>, start: nat) returns (next: Option<nat>)
    requires start < |ps| && ps[start].marker.Begin? && ReadTo(ps, start).Among? && !ps[start].closes
    ensures next.None? ==> ReadTo(ps, |ps|).Within?
    ensures next.Some? ==> start < next.value <= |ps|
    ensures next.Some? ==> ReadTo(ps, next.value) == Among(ReadTo(ps, start).events + if ps[start].marker.event then 1 else 0)
  {
    var depth: nat, index := 0, start;
    while index < |ps|
      invariant start <= index <= |ps|
      invariant index == start ==> depth == 0
      invariant index > start ==> depth > 0
      invariant index > start ==> ReadTo(ps, index) == Within(depth, ps[start].marker.event, ReadTo(ps, start).events)
    {
      ReadNext(ps, index);
      match ps[index].marker {
        case Begin(_) => depth := depth + 1;
        case End(_) =>
          depth := depth - 1;
          if depth == 0 {
            return Some(index + 1);
          }
        case Plain =>
      }
      index := index + 1;
    }
    return None;
  }

  /** The first line that is not blank. */
  method FirstFilled(ps: seq<Piece>) returns (first: Option<nat>)
    ensures first.None? ==> ReadTo(ps, |ps|) == Before
    ensures first.Some? ==> first.value < |ps| && !ps[first.value].blank && ReadTo(ps, first.value) == Before
  {
    var i := 0;
    while i < |ps|
      invariant 0 <= i <= |ps| && ReadTo(ps, i) == Before
    {
      if !ps[i].blank {
        return Some(i);
      }
      ReadNext(ps, i);
      i := i + 1;
    }
    return None;
  }

  /** Whether only blank lines follow. */
  method OnlyBlank(ps: seq<Piece>, from: nat) returns (r: bool)
    requires from <= |ps| && ReadTo(ps, from).After?
    ensures ReadTo(ps, |ps|) == if r then ReadTo(ps, from) else Refused
  {
    var i := from;
    while i < |ps|
      invariant from <= i <= |ps| && ReadTo(ps, i) == ReadTo(ps, from)
    {
      ReadNext(ps, i);
      if !ps[i].blank {
        RefusedTo(ps, i + 1);
        return false;
      }
      i := i + 1;
    }
    return true;
  }

  method SplitCalendarComponents(text: string) returns (r: Result<nat>)
    ensures r == SplitCalendar(text)
  {
    var ps := Pieces(SplitLines(text));
    assert ps[..|ps|] == ps;
    var first := FirstFilled(ps);
    if first.None? {
      return Err;
    }
    ReadNext(ps, first.value);
    if !ps[first.value].opens {
      RefusedTo(ps, first.value + 1);
      return Err;
    }
    r := CountComponents(ps, first.value + 1);
  }

  /** The loop over the components of the calendar. */
  method CountComponents(ps: seq<Piece>, start: nat) returns (r: Result<nat>)
    requires start <= |ps| && ReadTo(ps, start) == Among(0)
    ensures r == EventCount(ps)
  {
    assert ps[..|ps|] == ps;
    var events: nat, index, closed := 0, start, false;
    while index < |ps| && !closed
      invariant start <= index <= |ps|
      invariant ReadTo(ps, index) == if closed then After(events) else Among(events)
      decreases |ps| - index
    {
      ReadNext(ps, index);
      if ps[index].closes {
        closed, index := true, index + 1;
      } else if ps[index].marker.Begin? {
        var next := TakeComponent(ps, index);
        if next.None? {
          return Err;
        }
        events := if ps[index].marker.event then events + 1 else events;
        index := next.value;
      } else {
        index := index + 1;
      }
    }
    if !closed {
      return Err;
    }
    var blank := OnlyBlank(ps, index);
    return if blank && events > 0 then Ok(events) else Err;
  }
}
