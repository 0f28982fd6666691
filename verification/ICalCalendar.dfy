/** What one complete calendar is, said of its lines by structure: blank lines, the line that
    opens it, whole components and single lines, the line that closes it, and blank lines. */
module ICalCalendar {
  import opened Basics
  import opened ICalEvents
  import opened ICalSplit

  /** How many more components the lines open than they close. */
  function Opened(ps: seq<Piece>): int {
    if ps == [] then 0 else Opened(ps[..|ps| - 1]) + (match ps[|ps| - 1].marker case Begin(_) => 1 case End(_) => -1 case Plain => 0)
  }

  /** From the line that opens a component to the one that closes it. */
  predicate IsComponent(g: seq<Piece>) {
    && g != [] && g[0].marker.Begin? && !g[0].closes && Opened(g) == 0
    && forall i :: 0 < i < |g| ==> Opened(g[..i]) > 0
  }

  predicate IsItem(g: seq<Piece>) {
    IsComponent(g) || (|g| == 1 && !g[0].marker.Begin? && !g[0].closes)
  }

  predicate AllItems(gs: seq<seq<Piece>>) {
    forall i :: 0 <= i < |gs| ==> IsItem(gs[i])
  }

  predicate AllBlank(ps: seq<Piece>) {
    forall i :: 0 <= i < |ps| ==> ps[i].blank
  }

  function Together(gs: seq<seq<Piece>>): seq<Piece> {
    if gs == [] then [] else gs[0] + Together(gs[1..])
  }

  function IsEvent(g: seq<Piece>): nat {
    if g != [] && g[0].marker == Begin(true) then 1 else 0
  }

  function EventsAmong(gs: seq<seq<Piece>>): nat {
    if gs == [] then 0 else IsEvent(gs[0]) + EventsAmong(gs[1..])
  }

  /** The lines are one calendar that holds these items. */
  predicate IsCalendar(ps: seq<Piece>, before: seq<Piece>, open: Piece, gs: seq<seq<Piece>>, close: Piece, after: seq<Piece>) {
    && ps == before + ([open] + (Together(gs) + ([close] + after)))
    && AllBlank(before) && AllBlank(after) && !open.blank && open.opens && AllItems(gs) && close.closes
  }

  // ------------------------------------------------------------ reading by structure

  lemma {:induction false} ReadBlank(s: Reading, ps: seq<Piece>)
    requires AllBlank(ps) && (s.Before? || s.After?)
    ensures ReadAll(s, ps) == s
    decreases |ps|
  {
    if ps != [] {
      ReadBlank(s, ps[1..]);
    }
  }

  lemma ReadOne(s: Reading, p: Piece, ps: seq<Piece>)
    ensures ReadAll(s, [p] + ps) == ReadAll(Read(s, p), ps)
  {
    assert ([p] + ps)[1..] == ps;
  }

  /** Within a component the depth is the number of components left open. */
  lemma {:induction false} ReadWithin(g: seq<Piece>, i: nat, n: nat)
    requires IsComponent(g) && 0 < i < |g|
    ensures ReadAll(Among(n), g[..i]) == Within(Opened(g[..i]), g[0].marker.event, n)
  {
    var prefix := g[..i];
    if i == 1 {
      assert prefix == [g[0]] + [] && prefix[..0] == [];
      ReadOne(Among(n), g[0], []);
    } else {
      ReadWithin(g, i - 1, n);
      assert prefix[..i - 1] == g[..i - 1] && prefix == g[..i - 1] + [g[i - 1]];
      ReadLast(Among(n), g[..i - 1], g[i - 1]);
    }
  }

  lemma ReadLast(s: Reading, ps: seq<Piece>, p: Piece)
    ensures ReadAll(s, ps + [p]) == Read(ReadAll(s, ps), p)
  {
    ReadAppend(s, ps, [p]);
    assert [p] == [p] + [];
    ReadOne(ReadAll(s, ps), p, []);
  }

  /** A component has a line that opens it and another that closes it. */
  lemma OpenAndClose(g: seq<Piece>)
    requires IsComponent(g)
    ensures |g| > 1
  {
    assert g[..0] == [] && Opened(g[..0]) == 0;
  }

  lemma ReadComponent(g: seq<Piece>, n: nat)
    requires IsComponent(g)
    ensures ReadAll(Among(n), g) == Among(n + IsEvent(g))
  {
    OpenAndClose(g);
    var k := |g| - 1;
    var init, last := g[..k], g[k];
    assert g == init + [last];
    ReadWithin(g, k, n);
    ReadLast(Among(n), init, last);
    Closes(g, init, last);
  }

  /** The last line of a component closes what is still open, and nothing else is. */
  lemma Closes(g: seq<Piece>, init: seq<Piece>, last: Piece)
    requires IsComponent(g) && |g| > 1 && init == g[..|g| - 1] && last == g[|g| - 1]
    ensures Opened(init) == 1 && last.marker.End?
  {
  }

  lemma ReadItem(g: seq<Piece>, n: nat)
    requires IsItem(g)
    ensures ReadAll(Among(n), g) == Among(n + IsEvent(g))
  {
    if IsComponent(g) {
      ReadComponent(g, n);
    } else {
      assert g == [g[0]] + [];
      ReadOne(Among(n), g[0], []);
    }
  }

  lemma {:induction false} ReadItems(gs: seq<seq<Piece>>, n: nat)
    requires AllItems(gs)
    ensures ReadAll(Among(n), Together(gs)) == Among(n + EventsAmong(gs))
    decreases |gs|
  {
    if gs != [] {
      ReadItem(gs[0], n);
      ReadItems(gs[1..], n + IsEvent(gs[0]));
      ReadAppend(Among(n), gs[0], Together(gs[1..]));
    }
  }

  lemma CalendarIsRead(ps: seq<Piece>, before: seq<Piece>, open: Piece, gs: seq<seq<Piece>>, close: Piece, after: seq<Piece>)
    requires IsCalendar(ps, before, open, gs, close, after)
    ensures ReadAll(Before, ps) == After(EventsAmong(gs))
  {
    var n := EventsAmong(gs);
    ReadAppend(Before, before, [open] + (Together(gs) + ([close] + after)));
    ReadBlank(Before, before);
    ReadOne(Before, open, Together(gs) + ([close] + after));
    ReadAppend(Among(0), Together(gs), [close] + after);
    ReadItems(gs, 0);
    ReadOne(Among(n), close, after);
    ReadBlank(After(n), after);
  }

  // ------------------------------------------------------------ the structure of what is read

  lemma {:induction false} AfterIsBlank(n: nat, ps: seq<Piece>)
    requires ReadAll(After(n), ps).After?
    ensures AllBlank(ps) && ReadAll(After(n), ps) == After(n)
    decreases |ps|
  {
    if ps != [] {
      if !ps[0].blank {
        RefusedStays(ps[1..]);
      }
      AfterIsBlank(n, ps[1..]);
    }
  }

  /** A component that has begun and is still open. */
  predicate Going(done: seq<Piece>) {
    && done != [] && done[0].marker.Begin? && !done[0].closes
    && forall i :: 0 < i <= |done| ==> Opened(done[..i]) > 0
  }

  function Depth(done: seq<Piece>): int {
    Opened(done)
  }

  lemma OneMore(done: seq<Piece>, p: Piece, more: seq<Piece>)
    requires Going(done) && more == done + [p]
    ensures Depth(done) > 0 && more[0] == done[0]
    ensures Depth(more) == Depth(done) + (match p.marker case Begin(_) => 1 case End(_) => -1 case Plain => 0)
    ensures if Depth(more) > 0 then Going(more) else IsComponent(more)
  {
    assert done[..|done|] == done && more[..|done|] == done && more[..|more|] == more;
    assert forall i :: 0 < i <= |done| ==> more[..i] == done[..i];
  }

  /** A component that is being read ends. */
  lemma {:induction false} ComponentEnds(done: seq<Piece>, rest: seq<Piece>, n: nat) returns (k: nat)
    requires Going(done) && Depth(done) > 0
    requires ReadAll(Within(Depth(done), done[0].marker.event, n), rest).After?
    ensures k <= |rest| && IsComponent(done + rest[..k])
    ensures ReadAll(Within(Depth(done), done[0].marker.event, n), rest) == ReadAll(Among(n + IsEvent(done)), rest[k..])
    decreases |rest|
  {
    var more := done + [rest[0]];
    OneMore(done, rest[0], more);
    if Depth(more) == 0 {
      k := 1;
      assert rest[..1] == [rest[0]];
    } else {
      var j := ComponentEnds(more, rest[1..], n);
      k := j + 1;
      Further(done, rest, more, j);
    }
  }

  lemma Further(done: seq<Piece>, rest: seq<Piece>, more: seq<Piece>, j: nat)
    requires j < |rest| && more == done + [rest[0]]
    ensures done + rest[..j + 1] == more + rest[1..][..j] && rest[1..][j..] == rest[j + 1..]
  {
  }

  lemma {:induction false} AmongEnds(n: nat, ps: seq<Piece>) returns (gs: seq<seq<Piece>>, close: Piece, after: seq<Piece>)
    requires ReadAll(Among(n), ps).After?
    ensures ps == Together(gs) + ([close] + after) && AllItems(gs) && close.closes && AllBlank(after)
    ensures ReadAll(Among(n), ps) == After(n + EventsAmong(gs))
    decreases |ps|
  {
    if ps[0].closes {
      gs, close, after := [], ps[0], ps[1..];
      AfterIsBlank(n, after);
      assert ps == [] + ([close] + after);
    } else if ps[0].marker.Begin? {
      gs, close, after := ComponentThen(n, ps);
    } else {
      var more: seq<seq<Piece>>;
      more, close, after := AmongEnds(n, ps[1..]);
      gs := [[ps[0]]] + more;
      ItemThen([ps[0]], more, ps, close, after);
    }
  }

  lemma ItemThen(g: seq<Piece>, more: seq<seq<Piece>>, ps: seq<Piece>, close: Piece, after: seq<Piece>)
    requires |g| <= |ps| && ps[..|g|] == g && ps[|g|..] == Together(more) + ([close] + after)
    ensures Together([g] + more) == g + Together(more) && ps == Together([g] + more) + ([close] + after)
    ensures EventsAmong([g] + more) == IsEvent(g) + EventsAmong(more)
  {
    assert ([g] + more)[1..] == more;
    assert ps == g + ps[|g|..];
    Regroup(g, Together(more), [close] + after);
  }

  lemma Regroup(a: seq<Piece>, b: seq<Piece>, c: seq<Piece>)
    ensures a + (b + c) == a + b + c
  {
  }

  lemma {:induction false} ComponentThen(n: nat, ps: seq<Piece>) returns (gs: seq<seq<Piece>>, close: Piece, after: seq<Piece>)
    requires ps != [] && !ps[0].closes && ps[0].marker.Begin? && ReadAll(Among(n), ps).After?
    ensures ps == Together(gs) + ([close] + after) && AllItems(gs) && close.closes && AllBlank(after)
    ensures ReadAll(Among(n), ps) == After(n + EventsAmong(gs))
    decreases |ps|, 0
  {
    var first, rest := [ps[0]], ps[1..];
    assert first[..0] == [] && first[..1] == first;
    assert Opened(first[..0]) == 0 && Depth(first) == 1;
    assert Going(first);
    var k := ComponentEnds(first, rest, n);
    var g := first + rest[..k];
    var more: seq<seq<Piece>>;
    more, close, after := AmongEnds(n + IsEvent(first), rest[k..]);
    assert ps[..|g|] == g && ps[|g|..] == rest[k..];
    gs := [g] + more;
    ItemThen(g, more, ps, close, after);
  }

  lemma {:induction false} BeforeEnds(ps: seq<Piece>) returns (before: seq<Piece>, open: Piece, rest: seq<Piece>)
    requires ReadAll(Before, ps).After?
    ensures ps == before + ([open] + rest) && AllBlank(before) && !open.blank && open.opens
    ensures ReadAll(Before, ps) == ReadAll(Among(0), rest)
    decreases |ps|
  {
    if ps[0].blank {
      before, open, rest := BeforeEnds(ps[1..]);
      before := [ps[0]] + before;
    } else {
      if !ps[0].opens {
        RefusedStays(ps[1..]);
      }
      before, open, rest := [], ps[0], ps[1..];
    }
  }

  /** The lines are accepted, with so many events, exactly when they are one calendar whose
      items are whole components and single lines, among them so many events, and not none. */
  lemma CalendarIff(ps: seq<Piece>, n: nat)
    ensures EventCount(ps) == Ok(n) <==>
      0 < n && exists before, open, gs, close, after :: IsCalendar(ps, before, open, gs, close, after) && EventsAmong(gs) == n
  {
    if before, open, gs, close, after :| IsCalendar(ps, before, open, gs, close, after) && EventsAmong(gs) == n {
      CalendarIsRead(ps, before, open, gs, close, after);
    }
    if ReadAll(Before, ps).After? {
      var before, open, rest := BeforeEnds(ps);
      var gs, close, after := AmongEnds(0, rest);
      assert IsCalendar(ps, before, open, gs, close, after);
    }
  }
}
