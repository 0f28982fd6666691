/** Exactly when the order of a JSCalendar patch shows: for some value, two orders of
    its entries end differently, unless every two entries are at places apart or are
    the same entry twice. */
module JsPatchOrder {
  import opened Basics
  import opened JsPatch

  /** Every order of the entries gives, on every value, the same result or a failure. */
  ghost predicate OneOutcome(es: seq<Entry>)
    requires EntriesOk(es)
  {
    forall v: Json, fs: seq<Entry> | EntriesOk(fs) && multiset(fs) == multiset(es) ::
      ApplyAll(Ok(v), fs) == ApplyAll(Ok(v), es)
  }

  // ------------------------------------------------------------ reaching a place

  /** Everything on the way to a place is there, and is an object. */
  predicate Reaches(v: Json, path: seq<string>)
    requires path != []
  {
    v.Object? && (|path| == 1 || (path[0] in v.fields && Reaches(v.fields[path[0]], path[1..])))
  }

  /** What stands at a place. */
  function Get(v: Json, path: seq<string>): Option<Json>
    requires path != []
  {
    if !v.Object? || path[0] !in v.fields then None
    else if |path| == 1 then Some(v.fields[path[0]])
    else Get(v.fields[path[0]], path[1..])
  }

  /** An entry succeeds exactly where its place is reached, and then stands there. */
  lemma {:induction false} ApplyIffReaches(v: Json, p: seq<string>, x: Json)
    requires p != []
    ensures ApplyAt(v, p, x).Ok? <==> Reaches(v, p)
    ensures Reaches(v, p) ==> Get(ApplyAt(v, p, x).value, p) == if x.Null? then None else Some(x)
    decreases |p|
  {
    if v.Object? && |p| > 1 && p[0] in v.fields {
      ApplyIffReaches(v.fields[p[0]], p[1..], x);
    }
  }

  /** Writing a place again leaves only the last value. */
  lemma {:induction false} Overwrites(v: Json, p: seq<string>, x: Json, y: Json)
    requires p != [] && Reaches(v, p)
    ensures ApplyAt(v, p, x).Ok? && Reaches(ApplyAt(v, p, x).value, p)
    ensures ApplyAt(ApplyAt(v, p, x).value, p, y) == ApplyAt(v, p, y)
    decreases |p|
  {
    ApplyIffReaches(v, p, x);
    var w := ApplyAt(v, p, x).value;
    if |p| == 1 {
      assert WithMember(w.fields, p[0], if y.Null? then None else Some(y)) ==
             WithMember(v.fields, p[0], if y.Null? then None else Some(y));
    } else {
      var k := p[0];
      Overwrites(v.fields[k], p[1..], x, y);
      var inner := ApplyAt(v.fields[k], p[1..], x).value;
      ApplyIffReaches(v.fields[k], p[1..], y);
      var again := ApplyAt(v.fields[k], p[1..], y).value;
      assert v.fields[k := inner][k := again] == v.fields[k := again];
    }
  }

  /** The first place lies strictly above the second. */
  predicate Above(p: seq<string>, q: seq<string>) {
    Prefix(p, q) && p != q
  }

  lemma AboveIsShorter(p: seq<string>, q: seq<string>)
    ensures Above(p, q) ==> |p| < |q|
    ensures |p| == 1 && |q| > 1 && p[0] == q[0] ==> Above(p, q)
  {
    if |p| == |q| {
      assert q[..|p|] == q;
    }
  }

  lemma AboveBelow(p: seq<string>, q: seq<string>)
    requires p != [] && q != [] && p[0] == q[0]
    ensures Above(p[1..], q[1..]) <==> Above(p, q)
  {
    PrefixBelow(p, q);
    assert p == [p[0]] + p[1..] && q == [q[0]] + q[1..];
  }

  /** A write breaks the way only to places below it. */
  lemma {:induction false} StillReaches(v: Json, p: seq<string>, x: Json, q: seq<string>)
    requires p != [] && q != [] && Reaches(v, p) && Reaches(v, q) && !Above(p, q)
    ensures ApplyAt(v, p, x).Ok? && Reaches(ApplyAt(v, p, x).value, q)
    decreases |p|
  {
    ApplyIffReaches(v, p, x);
    AboveIsShorter(p, q);
    if |q| > 1 && p[0] == q[0] {
      AboveBelow(p, q);
      StillReaches(v.fields[p[0]], p[1..], x, q[1..]);
    }
  }

  /** Below a place that is not there, nothing is reached. */
  lemma {:induction false} NothingBelow(v: Json, p: seq<string>, q: seq<string>)
    requires p != [] && Above(p, q) && Get(v, p).None?
    ensures q != [] && !Reaches(v, q)
    decreases |p|
  {
    assert p[0] == q[..|p|][0];
    AboveIsShorter(p, q);
    if v.Object? && p[0] in v.fields && |p| > 1 {
      AboveBelow(p, q);
      NothingBelow(v.fields[p[0]], p[1..], q[1..]);
    }
  }

  // ------------------------------------------------------------ a value that all entries reach

  /** The value with the objects on the way to a place added. */
  function Grown(v: Json, path: seq<string>): Json
    requires path != []
    decreases |path|
  {
    var fields := if v.Object? then v.fields else map[];
    if |path| == 1 then Object(fields)
    else Object(fields[path[0] := Grown(if path[0] in fields then fields[path[0]] else Null, path[1..])])
  }

  lemma {:induction false} GrownReaches(v: Json, p: seq<string>, q: seq<string>)
    requires p != [] && q != []
    ensures Reaches(Grown(v, p), p)
    ensures Reaches(v, q) ==> Reaches(Grown(v, p), q)
    decreases |p|
  {
    if |p| > 1 {
      var inner := if v.Object? && p[0] in v.fields then v.fields[p[0]] else Null;
      GrownReaches(inner, p[1..], if |q| > 1 then q[1..] else q);
    }
  }

  function Tree(es: seq<Entry>): Json
    requires EntriesOk(es)
  {
    if es == [] then Object(map[]) else Grown(Tree(es[1..]), es[0].path)
  }

  predicate ReachesAll(v: Json, es: seq<Entry>)
    requires EntriesOk(es)
  {
    forall i :: 0 <= i < |es| ==> Reaches(v, es[i].path)
  }

  lemma {:induction false} TreeReaches(es: seq<Entry>)
    requires EntriesOk(es)
    ensures ReachesAll(Tree(es), es)
  {
    if es != [] {
      TreeReaches(es[1..]);
      forall i | 0 <= i < |es| ensures Reaches(Tree(es), es[i].path) {
        if i > 0 {
          assert es[i] == es[1..][i - 1];
        }
        GrownReaches(Tree(es[1..]), es[0].path, es[i].path);
      }
    }
  }

  /** No entry breaks the way of a later one. */
  predicate Downhill(es: seq<Entry>) {
    forall i, j :: 0 <= i < j < |es| ==> !Above(es[i].path, es[j].path)
  }

  /** Such an order succeeds on a value that all entries reach, and keeps the way to any
      place that no entry is above. */
  lemma {:induction false} DownhillSucceeds(v: Json, es: seq<Entry>, p: seq<string>)
    requires EntriesOk(es) && ReachesAll(v, es) && Downhill(es) && p != [] && Reaches(v, p)
    requires forall i :: 0 <= i < |es| ==> !Above(es[i].path, p)
    ensures ApplyAll(Ok(v), es).Ok? && Reaches(ApplyAll(Ok(v), es).value, p)
    decreases |es|
  {
    if es != [] {
      var e, rest := es[0], es[1..];
      ApplyIffReaches(v, e.path, e.value);
      var w := ApplyAt(v, e.path, e.value).value;
      StillReaches(v, e.path, e.value, p);
      forall i | 0 <= i < |rest| ensures Reaches(w, rest[i].path) {
        assert rest[i] == es[i + 1];
        StillReaches(v, e.path, e.value, rest[i].path);
      }
      DownhillSucceeds(w, rest, p);
    }
  }

  predicate Descending(es: seq<Entry>) {
    forall i, j :: 0 <= i < j < |es| ==> |es[j].path| <= |es[i].path|
  }

  lemma {:induction false} Deepest(es: seq<Entry>) returns (k: nat)
    requires es != []
    ensures k < |es| && forall i :: 0 <= i < |es| ==> |es[i].path| <= |es[k].path|
  {
    k := 0;
    if |es| > 1 {
      var j := Deepest(es[1..]);
      assert forall i :: 1 <= i < |es| ==> es[i] == es[1..][i - 1];
      if |es[0].path| < |es[j + 1].path| {
        k := j + 1;
      }
    }
  }

  lemma TakenOut(es: seq<Entry>, k: nat, more: seq<Entry>)
    requires k < |es| && multiset(more) == multiset(es[..k] + es[k + 1..])
    ensures multiset([es[k]] + more) == multiset(es)
  {
    assert es == es[..k] + [es[k]] + es[k + 1..];
    TakeOut(es[..k], es[k], es[k + 1..]);
    TakeOut([], es[k], more);
    assert [] + [es[k]] + more == [es[k]] + more && [] + more == more;
  }

  lemma RestIsShallower(es: seq<Entry>, k: nat, more: seq<Entry>)
    requires k < |es| && EntriesOk(es) && multiset(more) == multiset(es[..k] + es[k + 1..])
    requires forall i :: 0 <= i < |es| ==> |es[i].path| <= |es[k].path|
    ensures forall j :: 0 <= j < |more| ==> |more[j].path| <= |es[k].path|
  {
    var rest := es[..k] + es[k + 1..];
    forall j | 0 <= j < |more| ensures |more[j].path| <= |es[k].path| {
      assert more[j] in multiset(more);
      assert more[j] in rest;
    }
  }

  lemma DescendingCons(e: Entry, more: seq<Entry>)
    requires Descending(more) && EntriesOk(more) && e.path != []
    requires forall j :: 0 <= j < |more| ==> |more[j].path| <= |e.path|
    ensures Descending([e] + more) && EntriesOk([e] + more)
  {
  }

  /** Deepest places first is an order that breaks no way. */
  lemma {:induction false} Arrange(es: seq<Entry>) returns (fs: seq<Entry>)
    requires EntriesOk(es)
    ensures multiset(fs) == multiset(es) && EntriesOk(fs) && Descending(fs)
    decreases |es|
  {
    fs := [];
    if es != [] {
      var k := Deepest(es);
      var rest := es[..k] + es[k + 1..];
      assert forall i :: 0 <= i < |rest| ==> rest[i] == if i < k then es[i] else es[i + 1];
      var more := Arrange(rest);
      fs := [es[k]] + more;
      TakenOut(es, k, more);
      RestIsShallower(es, k, more);
      DescendingCons(es[k], more);
    }
  }

  lemma DescendingIsDownhill(es: seq<Entry>)
    requires Descending(es)
    ensures Downhill(es)
  {
    forall i, j | 0 <= i < j < |es| ensures !Above(es[i].path, es[j].path) {
      AboveIsShorter(es[i].path, es[j].path);
    }
  }

  // ------------------------------------------------------------ orders that end differently

  lemma Disagree(v: Json, es: seq<Entry>, fs: seq<Entry>, gs: seq<Entry>)
    requires EntriesOk(es) && EntriesOk(fs) && EntriesOk(gs)
    requires multiset(fs) == multiset(es) && multiset(gs) == multiset(es)
    requires ApplyAll(Ok(v), fs) != ApplyAll(Ok(v), gs)
    ensures !OneOutcome(es)
  {
  }

  /** The entries other than two. */
  function Others(es: seq<Entry>, c: nat, d: nat): seq<Entry>
    requires c < d < |es|
  {
    es[..c] + es[c + 1..d] + es[d + 1..]
  }

  lemma PutTogether(es: seq<Entry>, c: nat, d: nat)
    requires EntriesOk(es) && c < d < |es|
    ensures EntriesOk(Others(es, c, d))
    ensures multiset(es) == multiset(Others(es, c, d)) + multiset{es[c]} + multiset{es[d]}
  {
    var a, m, b := es[..c], es[c + 1..d], es[d + 1..];
    var rest := Others(es, c, d);
    assert es == a + [es[c]] + (m + [es[d]] + b);
    TakeOut(a, es[c], m + [es[d]] + b);
    assert a + (m + [es[d]] + b) == (a + m) + [es[d]] + b;
    TakeOut(a + m, es[d], b);
    forall i | 0 <= i < |rest| ensures rest[i].path != [] {
      assert rest[i] in es;
    }
  }

  lemma PutFirst(a: Entry, rest: seq<Entry>)
    ensures multiset([a] + rest) == multiset(rest) + multiset{a}
  {
    assert multiset([a] + rest) == multiset([a]) + multiset(rest);
  }

  lemma PutLast(rest: seq<Entry>, b: Entry)
    ensures multiset(rest + [b]) == multiset(rest) + multiset{b}
  {
    assert multiset(rest + [b]) == multiset(rest) + multiset([b]);
  }

  lemma Around(a: Entry, rest: seq<Entry>, b: Entry)
    ensures multiset([a] + rest + [b]) == multiset(rest) + multiset{a} + multiset{b}
  {
    PutFirst(a, rest);
    PutLast([a] + rest, b);
  }

  lemma FirstFails(v: Json, e: Entry, es: seq<Entry>)
    requires EntriesOk(es) && e.path != [] && !Reaches(v, e.path)
    ensures ApplyAll(Ok(v), [e] + es) == Err
  {
    ApplyCons(Ok(v), e, es);
    ApplyIffReaches(v, e.path, e.value);
    ErrorStays(es);
  }

  /** An entry above another one shows the order: its own place may be missing, or it
      may cut the way to the other. `c` stands for the upper entry. */
  lemma AboveShows(es: seq<Entry>, rest: seq<Entry>, c: Entry, d: Entry)
    requires EntriesOk(es) && EntriesOk(rest) && multiset(es) == multiset(rest) + multiset{c} + multiset{d}
    requires c.path != [] && d.path != [] && Above(c.path, d.path)
    requires c in es
    ensures !OneOutcome(es)
  {
    var v := Tree(es);
    TreeReaches(es);
    var fs := SomeOrder(es);
    var gs, hs := [c, d] + rest, [d, c] + rest;
    PairFirst(es, rest, c, d);
    InEitherOrder(multiset(rest), c, d);
    PairFirst(es, rest, d, c);
    if ApplyAll(Ok(v), gs) != ApplyAll(Ok(v), fs) {
      Disagree(v, es, fs, gs);
    } else {
      var gone := MissingShows(v, rest, c, d);
      Disagree(gone, es, gs, hs);
    }
  }

  lemma PairFirst(es: seq<Entry>, rest: seq<Entry>, c: Entry, d: Entry)
    requires multiset(es) == multiset(rest) + multiset{c} + multiset{d}
    ensures multiset([c, d] + rest) == multiset(es)
  {
    var more, all := [d] + rest, [c, d] + rest;
    assert all == [c] + more;
    PutFirst(d, rest);
    PutFirst(c, more);
    InEitherOrder(multiset(rest), c, d);
  }

  lemma InEitherOrder(m: multiset<Entry>, c: Entry, d: Entry)
    ensures m + multiset{c} + multiset{d} == m + multiset{d} + multiset{c}
  {
  }

  /** Where the upper place is missing, the upper entry must go first. */
  lemma MissingShows(v: Json, rest: seq<Entry>, c: Entry, d: Entry) returns (gone: Json)
    requires EntriesOk(rest) && c.path != [] && d.path != [] && Above(c.path, d.path) && Reaches(v, c.path)
    requires ApplyAll(Ok(v), [c, d] + rest).Ok?
    ensures ApplyAll(Ok(gone), [c, d] + rest) != ApplyAll(Ok(gone), [d, c] + rest)
  {
    ApplyIffReaches(v, c.path, Null);
    gone := ApplyAt(v, c.path, Null).value;
    Overwrites(v, c.path, Null, c.value);
    NothingBelow(gone, c.path, d.path);
    assert [c, d] + rest == [c] + ([d] + rest) && [d, c] + rest == [d] + ([c] + rest);
    ApplyCons(Ok(v), c, [d] + rest);
    ApplyCons(Ok(gone), c, [d] + rest);
    FirstFails(gone, d, [c] + rest);
  }

  /** Some order succeeds on the value that all entries reach. */
  lemma SomeOrder(es: seq<Entry>) returns (fs: seq<Entry>)
    requires EntriesOk(es) && es != []
    ensures EntriesOk(fs) && multiset(fs) == multiset(es) && ApplyAll(Ok(Tree(es)), fs).Ok?
  {
    TreeReaches(es);
    fs := Arrange(es);
    DescendingIsDownhill(fs);
    ArrangedSucceeds(Tree(es), es, fs);
  }

  lemma ArrangedSucceeds(v: Json, es: seq<Entry>, fs: seq<Entry>)
    requires EntriesOk(es) && EntriesOk(fs) && multiset(fs) == multiset(es) && es != []
    requires ReachesAll(v, es) && Downhill(fs)
    ensures ApplyAll(Ok(v), fs).Ok?
  {
    forall i | 0 <= i < |fs| ensures Reaches(v, fs[i].path) {
      assert fs[i] in multiset(fs);
      assert fs[i] in es;
    }
    assert |fs| == |multiset(fs)| == |es|;
    var top := [fs[0].path[0]];
    assert Reaches(v, top);
    assert forall i :: 0 <= i < |fs| ==> !Above(fs[i].path, top);
    DownhillSucceeds(v, fs, top);
  }

  /** Two different values for one place show the order, when no entry is above another. */
  lemma SamePlaceShows(es: seq<Entry>, rest: seq<Entry>, c: Entry, d: Entry)
    requires EntriesOk(es) && EntriesOk(rest) && multiset(es) == multiset(rest) + multiset{c} + multiset{d}
    requires c.path != [] && c.path == d.path && c.value != d.value && c in es && d in es
    requires forall i, j :: 0 <= i < |es| && 0 <= j < |es| ==> !Above(es[i].path, es[j].path)
    ensures !OneOutcome(es)
  {
    var v := Tree(es);
    TreeReaches(es);
    LastWins(v, es, rest, c, d);
    LastWins(v, es, rest, d, c);
    Around(c, rest, d);
    Around(d, rest, c);
    Disagree(v, es, [c] + rest + [d], [d] + rest + [c]);
  }

  lemma LastWins(v: Json, es: seq<Entry>, rest: seq<Entry>, first: Entry, last: Entry)
    requires EntriesOk(es) && EntriesOk(rest) && multiset(es) == multiset(rest) + multiset{first} + multiset{last}
    requires first.path != [] && first.path == last.path && ReachesAll(v, es) && first in es && last in es
    requires forall i, j :: 0 <= i < |es| && 0 <= j < |es| ==> !Above(es[i].path, es[j].path)
    ensures EntriesOk([first] + rest + [last])
    ensures var r := ApplyAll(Ok(v), [first] + rest + [last]);
      r.Ok? && Get(r.value, last.path) == if last.value.Null? then None else Some(last.value)
  {
    var before := [first] + rest;
    forall i | 0 <= i < |before| ensures before[i] in es && Reaches(v, before[i].path) && !Above(before[i].path, last.path) {
      assert before[i] in multiset(before);
      assert multiset(before) == multiset{first} + multiset(rest);
      assert before[i] in multiset(es);
      assert last in es;
    }
    forall i, j | 0 <= i < j < |before| ensures !Above(before[i].path, before[j].path) {
      assert before[i] in es && before[j] in es;
    }
    DownhillSucceeds(v, before, last.path);
    ApplySnoc(Ok(v), before, last);
    ApplyIffReaches(ApplyAll(Ok(v), before).value, last.path, last.value);
  }

  lemma {:induction false} ApplySnoc(v: Result<Json>, es: seq<Entry>, e: Entry)
    requires EntriesOk(es) && e.path != []
    ensures ApplyAll(v, es + [e]) == ApplyEntry(ApplyAll(v, es), e)
    decreases |es|
  {
    if es == [] {
      assert es + [e] == [e] + [];
      ApplyCons(v, e, []);
    } else {
      assert es + [e] == [es[0]] + (es[1..] + [e]);
      ApplyCons(v, es[0], es[1..] + [e]);
      ApplySnoc(ApplyEntry(v, es[0]), es[1..], e);
    }
  }

  // ------------------------------------------------------------ the theorems

  lemma AboveSomewhere(es: seq<Entry>, i: nat, j: nat)
    requires EntriesOk(es) && i < |es| && j < |es| && Above(es[i].path, es[j].path)
    ensures !OneOutcome(es)
  {
    if i < j {
      PutTogether(es, i, j);
      AboveShows(es, Others(es, i, j), es[i], es[j]);
    } else {
      assert i != j;
      PutTogether(es, j, i);
      AboveShows(es, Others(es, j, i), es[i], es[j]);
    }
  }

  /** Entries have one outcome in every order, on every value, if and only if every two
      of them are at places apart or are the same entry. */
  lemma OneOutcomeIffCompatible(es: seq<Entry>)
    requires EntriesOk(es)
    ensures OneOutcome(es) <==> Compatible(es)
  {
    if Compatible(es) {
      forall v: Json, fs: seq<Entry> | EntriesOk(fs) && multiset(fs) == multiset(es)
        ensures ApplyAll(Ok(v), fs) == ApplyAll(Ok(v), es)
      {
        OrderDoesNotMatter(Ok(v), es, fs);
      }
    } else if i, j :| 0 <= i < |es| && 0 <= j < |es| && Above(es[i].path, es[j].path) {
      AboveSomewhere(es, i, j);
    } else {
      var i, j :| 0 <= i < j < |es| && !Agree(es[i], es[j]);
      SamePlace(es[i].path, es[j].path);
      PutTogether(es, i, j);
      SamePlaceShows(es, Others(es, i, j), es[i], es[j]);
    }
  }

  lemma SamePlace(p: seq<string>, q: seq<string>)
    requires !Apart(p, q) && !Above(p, q) && !Above(q, p)
    ensures p == q
  {
  }

  /** A patch that passes the overlap check has one outcome in every order exactly when
      its decoded places are pairwise apart, or equal with equal values. */
  lemma PatchOutcomeIff(p: Patch)
    requires PatchOk(p) && !Overlaps(p)
    ensures (forall v: Json, fs: seq<Entry> | EntriesOk(fs) && multiset(fs) == multiset(Entries(p)) ::
               ApplyAll(Ok(v), fs) == Effective(v, p)) <==> Compatible(Entries(p))
  {
    OneOutcomeIffCompatible(Entries(p));
    assert forall v: Json :: Effective(v, p) == ApplyAll(Ok(v), Entries(p));
  }

  /** Well-formed escapes are enough. */
  lemma WellEscapedIsCompatible(p: Patch)
    requires PatchOk(p) && WellEscapedPatch(p) && !Overlaps(p)
    ensures Compatible(Entries(p))
  {
    PatchIsApart(p);
  }

  /** Two entries commute on every value exactly when they agree. */
  lemma TwoCommuteIff(p: seq<string>, x: Json, q: seq<string>, y: Json)
    requires p != [] && q != []
    ensures Commute(Entry(p, x), Entry(q, y)) <==> Apart(p, q) || (p == q && x == y)
  {
    var a, b := Entry(p, x), Entry(q, y);
    OneOutcomeIffCompatible([a, b]);
    OutcomeOfTwo(a, b);
    CompatibleTwo(a, b);
  }

  lemma CompatibleTwo(a: Entry, b: Entry)
    ensures Compatible([a, b]) <==> Agree(a, b)
  {
    var es := [a, b];
    assert es[0] == a && es[1] == b;
  }

  ghost predicate Commute(a: Entry, b: Entry)
    requires a.path != [] && b.path != []
  {
    forall v: Json :: ApplyEntry(ApplyAt(v, a.path, a.value), b) == ApplyEntry(ApplyAt(v, b.path, b.value), a)
  }

  lemma UseOutcome(es: seq<Entry>, v: Json, fs: seq<Entry>)
    requires EntriesOk(es) && OneOutcome(es) && EntriesOk(fs) && multiset(fs) == multiset(es)
    ensures ApplyAll(Ok(v), fs) == ApplyAll(Ok(v), es)
  {
  }

  lemma {:induction false} OutcomeCommutes(a: Entry, b: Entry)
    requires a.path != [] && b.path != [] && OneOutcome([a, b])
    ensures Commute(a, b)
  {
    forall v: Json ensures ApplyEntry(ApplyAt(v, a.path, a.value), b) == ApplyEntry(ApplyAt(v, b.path, b.value), a) {
      SwappedOutcome(a, b, v);
      SwappedApplies(a, b, v);
    }
  }

  lemma SwappedOutcome(a: Entry, b: Entry, v: Json)
    requires a.path != [] && b.path != [] && OneOutcome([a, b])
    ensures ApplyAll(Ok(v), [b, a]) == ApplyAll(Ok(v), [a, b])
  {
    OrderOfTwo(a, b);
    UseOutcome([a, b], v, [b, a]);
  }

  lemma {:induction false} SwappedApplies(a: Entry, b: Entry, v: Json)
    requires a.path != [] && b.path != [] && ApplyAll(Ok(v), [b, a]) == ApplyAll(Ok(v), [a, b])
    ensures ApplyEntry(ApplyAt(v, a.path, a.value), b) == ApplyEntry(ApplyAt(v, b.path, b.value), a)
  {
    ApplyTwo(Ok(v), a, b);
    ApplyTwo(Ok(v), b, a);
  }

  lemma CommuteHasOutcome(a: Entry, b: Entry, v: Json, fs: seq<Entry>)
    requires a.path != [] && b.path != [] && Commute(a, b) && EntriesOk(fs) && multiset(fs) == multiset([a, b])
    ensures ApplyAll(Ok(v), fs) == ApplyAll(Ok(v), [a, b])
  {
    OrdersOfTwo(fs, a, b);
    if fs != [a, b] {
      TwoAreSame(v, a, b);
    }
  }

  lemma OutcomeOfTwo(a: Entry, b: Entry)
    requires a.path != [] && b.path != []
    ensures OneOutcome([a, b]) <==> Commute(a, b)
  {
    if OneOutcome([a, b]) {
      OutcomeCommutes(a, b);
    }
    if Commute(a, b) {
      var ab := [a, b];
      forall v: Json, fs: seq<Entry> | EntriesOk(fs) && multiset(fs) == multiset(ab)
        ensures ApplyAll(Ok(v), fs) == ApplyAll(Ok(v), ab)
      {
        CommuteHasOutcome(a, b, v, fs);
      }
    }
  }

  lemma TwoAreSame(v: Json, a: Entry, b: Entry)
    requires a.path != [] && b.path != [] && Commute(a, b)
    ensures ApplyAll(Ok(v), [a, b]) == ApplyAll(Ok(v), [b, a])
  {
    ApplyTwo(Ok(v), a, b);
    ApplyTwo(Ok(v), b, a);
  }

  lemma OrderOfTwo(a: Entry, b: Entry)
    ensures multiset([b, a]) == multiset([a, b])
  {
    assert [a, b] == [a] + [b] && [b, a] == [b] + [a];
  }

  lemma OrdersOfTwo(fs: seq<Entry>, a: Entry, b: Entry)
    requires multiset(fs) == multiset([a, b])
    ensures fs == [a, b] || fs == [b, a]
  {
    assert |fs| == |multiset(fs)| == 2;
    var c, d := fs[0], fs[1];
    assert fs == [c, d];
    assert multiset([c, d])[c] == multiset([a, b])[c] && multiset([c, d])[d] == multiset([a, b])[d];
    assert multiset([c, d])[a] == multiset([a, b])[a] && multiset([c, d])[b] == multiset([a, b])[b];
  }
}
