/** Dropping the rewritten top-level properties of one event: what is kept, what is
    counted, and what a second pass does. Everything here is about lines' traits. */
module ICalKeeping {
  import opened Basics
  import opened ICalEvents
  import opened ICalProperties

  predicate Drops(patch: Patch, t: Traits) {
    t.named.Some? && Rewrites(patch, t.named.value)
  }

  /** The items whose lines are kept; only lines outside nested components are dropped. */
  function Keep<T>(xs: seq<T>, ts: seq<Traits>, depth: nat, patch: Patch): seq<T>
    requires |xs| == |ts|
  {
    if ts == [] then []
    else if depth == 0 && Drops(patch, ts[0]) then Keep(xs[1..], ts[1..], depth, patch)
    else [xs[0]] + Keep(xs[1..], ts[1..], DepthStep(depth, ts[0].marker), patch)
  }

  function Marks(ts: seq<Traits>): (r: seq<Marker>)
    ensures |r| == |ts| && forall i :: 0 <= i < |ts| ==> r[i] == ts[i].marker
  {
    seq(|ts|, i requires 0 <= i < |ts| => ts[i].marker)
  }

  /** The nesting depth after some lines. */
  function Nesting(ts: seq<Traits>, depth: nat): nat {
    if ts == [] then depth else Nesting(ts[1..], DepthStep(depth, ts[0].marker))
  }

  /** How many lines outside nested components are counted as the property. */
  function Count(ts: seq<Traits>, depth: nat, p: Property): nat {
    if ts == [] then 0
    else (if Counts(ts[0], depth, p) then 1 else 0) + Count(ts[1..], DepthStep(depth, ts[0].marker), p)
  }

  predicate Counts(t: Traits, depth: nat, p: Property) {
    t.marker == Plain && depth == 0 && t.counted == Some(p)
  }

  predicate AllOk(ts: seq<Traits>) {
    forall i :: 0 <= i < |ts| ==> TraitsOk(ts[i])
  }

  method TopLevelPropertyCount(ts: seq<Traits>, p: Property) returns (count: nat)
    ensures count == Count(ts, 0, p)
  {
    var depth: nat := 0;
    count := 0;
    var i := 0;
    while i < |ts|
      invariant 0 <= i <= |ts|
      invariant count + Count(ts[i..], depth, p) == Count(ts, 0, p)
    {
      assert ts[i..][1..] == ts[i + 1..];
      match ts[i].marker {
        case Begin(_) => depth := depth + 1;
        case End(_) => depth := if depth > 0 then depth - 1 else 0;
        case Plain =>
          if depth == 0 && ts[i].counted == Some(p) {
            count := count + 1;
          }
      }
      i := i + 1;
    }
  }

  // ------------------------------------------------------------ appending

  lemma {:induction false} NestingAppend(a: seq<Traits>, b: seq<Traits>, depth: nat)
    ensures Nesting(a + b, depth) == Nesting(b, Nesting(a, depth))
  {
    if a == [] {
      assert a + b == b;
    } else {
      assert (a + b)[1..] == a[1..] + b;
      NestingAppend(a[1..], b, DepthStep(depth, a[0].marker));
    }
  }

  lemma {:induction false} CountAppend(a: seq<Traits>, b: seq<Traits>, depth: nat, p: Property)
    ensures Count(a + b, depth, p) == Count(a, depth, p) + Count(b, Nesting(a, depth), p)
  {
    if a == [] {
      assert a + b == b;
    } else {
      assert (a + b)[1..] == a[1..] + b;
      CountAppend(a[1..], b, DepthStep(depth, a[0].marker), p);
    }
  }

  lemma {:induction false} KeepAppend<T>(xs: seq<T>, ts: seq<Traits>, ys: seq<T>, us: seq<Traits>, depth: nat, patch: Patch)
    requires |xs| == |ts| && |ys| == |us| && AllOk(ts)
    ensures Keep(xs + ys, ts + us, depth, patch) == Keep(xs, ts, depth, patch) + Keep(ys, us, Nesting(ts, depth), patch)
    decreases |ts|
  {
    if ts == [] {
      assert xs + ys == ys && ts + us == us;
    } else {
      assert (xs + ys)[1..] == xs[1..] + ys && (ts + us)[1..] == ts[1..] + us;
      KeepAppend(xs[1..], ts[1..], ys, us, DepthStep(depth, ts[0].marker), patch);
    }
  }

  // ------------------------------------------------------------ what is kept

  /** Kept items and kept traits go together. */
  lemma {:induction false} KeepLength<T>(xs: seq<T>, ts: seq<Traits>, depth: nat, patch: Patch)
    requires |xs| == |ts| && AllOk(ts)
    ensures |Keep(xs, ts, depth, patch)| == |Keep(ts, ts, depth, patch)| <= |ts| && AllOk(Keep(ts, ts, depth, patch))
    decreases |ts|
  {
    if ts != [] {
      KeepLength(xs[1..], ts[1..], DepthStep(depth, ts[0].marker), patch);
    }
  }

  /** Dropped lines are no markers, so the structure stays. */
  lemma {:induction false} KeepNesting(ts: seq<Traits>, depth: nat, patch: Patch)
    requires AllOk(ts)
    ensures Nesting(Keep(ts, ts, depth, patch), depth) == Nesting(ts, depth)
    decreases |ts|
  {
    if ts != [] {
      var rest := Keep(ts[1..], ts[1..], DepthStep(depth, ts[0].marker), patch);
      KeepNesting(ts[1..], DepthStep(depth, ts[0].marker), patch);
      if !(depth == 0 && Drops(patch, ts[0])) {
        assert ([ts[0]] + rest)[1..] == rest;
      }
    }
  }

  lemma {:induction false} KeepQuiet(ts: seq<Traits>, nesting: nat, depth: nat, patch: Patch)
    requires AllOk(ts)
    ensures Quiet(Marks(Keep(ts, ts, nesting, patch)), depth) == Quiet(Marks(ts), depth)
    ensures DepthAfter(Marks(Keep(ts, ts, nesting, patch)), depth) == DepthAfter(Marks(ts), depth)
    decreases |ts|
  {
    if ts != [] {
      var m := ts[0].marker;
      var rest := Keep(ts[1..], ts[1..], DepthStep(nesting, m), patch);
      KeepQuiet(ts[1..], DepthStep(nesting, m), DepthStep(depth, m), patch);
      assert Marks(ts)[1..] == Marks(ts[1..]);
      if !(nesting == 0 && Drops(patch, ts[0])) {
        assert Marks([ts[0]] + rest)[1..] == Marks(rest);
      }
    }
  }

  lemma {:induction false} PlainQuiet(a: seq<Marker>, b: seq<Marker>, depth: nat)
    requires forall i :: 0 <= i < |b| ==> b[i] == Plain
    ensures Quiet(a + b, depth) == Quiet(a, depth) && DepthAfter(a + b, depth) == DepthAfter(a, depth)
    decreases |a| + |b|
  {
    if a != [] {
      assert (a + b)[1..] == a[1..] + b;
      PlainQuiet(a[1..], b, DepthStep(depth, a[0]));
    } else if b != [] {
      assert (a + b)[1..] == a + b[1..];
      PlainQuiet(a, b[1..], depth);
    }
  }

  /** Keeping again keeps everything. */
  lemma {:induction false} KeepTwice<T>(xs: seq<T>, ts: seq<Traits>, depth: nat, patch: Patch)
    requires |xs| == |ts| && AllOk(ts)
    ensures |Keep(xs, ts, depth, patch)| == |Keep(ts, ts, depth, patch)|
    ensures Keep(Keep(xs, ts, depth, patch), Keep(ts, ts, depth, patch), depth, patch) == Keep(xs, ts, depth, patch)
    decreases |ts|
  {
    KeepLength(xs, ts, depth, patch);
    if ts != [] {
      var next := DepthStep(depth, ts[0].marker);
      KeepTwice(xs[1..], ts[1..], next, patch);
      if !(depth == 0 && Drops(patch, ts[0])) {
        var kx, kt := Keep(xs[1..], ts[1..], next, patch), Keep(ts[1..], ts[1..], next, patch);
        assert ([xs[0]] + kx)[1..] == kx && ([ts[0]] + kt)[1..] == kt;
      }
    }
  }

  /** Lines that the patch rewrites, as generated: dropped at the top level, and kept
      in a nested component. */
  predicate AllDropped(us: seq<Traits>, patch: Patch) {
    forall i :: 0 <= i < |us| ==> TraitsOk(us[i]) && Drops(patch, us[i])
  }

  lemma {:induction false} KeepGenerated<T>(ys: seq<T>, us: seq<Traits>, depth: nat, patch: Patch)
    requires |ys| == |us| && AllDropped(us, patch)
    ensures Keep(ys, us, depth, patch) == if depth == 0 then [] else ys
    decreases |us|
  {
    if us != [] {
      KeepGenerated(ys[1..], us[1..], depth, patch);
    }
  }

  // ------------------------------------------------------------ what is counted

  /** A line that is counted as a rewritten property but is not dropped: its name
      appears only once the line is trimmed. */
  predicate Stray(t: Traits, depth: nat, p: Property) {
    Counts(t, depth, p) && t.named.None?
  }

  function Strays(ts: seq<Traits>, depth: nat, p: Property): nat {
    if ts == [] then 0
    else (if Stray(ts[0], depth, p) then 1 else 0) + Strays(ts[1..], DepthStep(depth, ts[0].marker), p)
  }

  lemma {:induction false} StraysAreCounted(ts: seq<Traits>, depth: nat, p: Property)
    ensures Strays(ts, depth, p) <= Count(ts, depth, p)
  {
    if ts != [] {
      StraysAreCounted(ts[1..], DepthStep(depth, ts[0].marker), p);
    }
  }

  /** After the drop, a rewritten property is counted only in stray lines, and any
      other property as before. */
  lemma {:induction false} CountKept(ts: seq<Traits>, depth: nat, p: Property, patch: Patch)
    requires AllOk(ts)
    ensures Count(Keep(ts, ts, depth, patch), depth, p) == if Rewrites(patch, p) then Strays(ts, depth, p) else Count(ts, depth, p)
    decreases |ts|
  {
    if ts != [] {
      var next := DepthStep(depth, ts[0].marker);
      CountKept(ts[1..], next, p, patch);
      if !(depth == 0 && Drops(patch, ts[0])) {
        var rest := Keep(ts[1..], ts[1..], next, patch);
        assert ([ts[0]] + rest)[1..] == rest;
      }
    }
  }

  // ------------------------------------------------------------ the UID

  function FirstUid(ts: seq<Traits>): Option<string> {
    if ts == [] then None else if ts[0].uid.Some? then ts[0].uid else FirstUid(ts[1..])
  }

  lemma {:induction false} UidKept(ts: seq<Traits>, depth: nat, patch: Patch)
    requires AllOk(ts)
    ensures FirstUid(Keep(ts, ts, depth, patch)) == FirstUid(ts)
    decreases |ts|
  {
    if ts != [] {
      var next := DepthStep(depth, ts[0].marker);
      UidKept(ts[1..], next, patch);
      if !(depth == 0 && Drops(patch, ts[0])) {
        var rest := Keep(ts[1..], ts[1..], next, patch);
        assert ([ts[0]] + rest)[1..] == rest;
      }
    }
  }

  lemma {:induction false} UidAppend(a: seq<Traits>, b: seq<Traits>)
    requires FirstUid(a).Some?
    ensures FirstUid(a + b) == FirstUid(a)
  {
    if a[0].uid.None? {
      assert (a + b)[1..] == a[1..] + b;
      UidAppend(a[1..], b);
    }
  }

  // ------------------------------------------------------------ validation

  /** What the rewriting demands of the event that it rewrites. */
  predicate Editable(ts: seq<Traits>, uid: string) {
    && Count(ts, 0, Uid) == 1 && Count(ts, 0, RecurrenceId) == 1 && Count(ts, 0, DtStart) == 1
    && Count(ts, 0, Summary) <= 1 && Count(ts, 0, Description) <= 1 && Count(ts, 0, Location) <= 1
    && Count(ts, 0, DtEnd) + Count(ts, 0, Duration) == 1
    && FirstUid(ts) == Some(uid)
  }

  predicate UsesDuration(ts: seq<Traits>) {
    Count(ts, 0, Duration) == 1
  }

  // ------------------------------------------------------------ the second pass

  /** How often a property is in the list. */
  function Times(ps: seq<Property>, p: Property): nat {
    if ps == [] then 0 else (if ps[0] == p then 1 else 0) + Times(ps[1..], p)
  }

  /** The traits of generated lines. */
  predicate Generated(us: seq<Traits>, ps: seq<Property>) {
    && |us| == |ps|
    && forall i :: 0 <= i < |us| ==> TraitsOk(us[i]) && us[i].named == Some(ps[i])
  }

  lemma {:induction false} CountGenerated(us: seq<Traits>, ps: seq<Property>, depth: nat, p: Property)
    requires Generated(us, ps)
    ensures Count(us, depth, p) == if depth == 0 then Times(ps, p) else 0
    ensures Nesting(us, depth) == depth
    decreases |us|
  {
    if us != [] {
      assert Generated(us[1..], ps[1..]);
      CountGenerated(us[1..], ps[1..], depth, p);
    }
  }

  /** The properties that the replacement sets. */
  predicate Sets(patch: Patch, d: Desired, useDuration: bool, p: Property) {
    match p
    case Summary => patch.title
    case Description => patch.description && HasText(d.description)
    case Location => patch.location && HasText(d.location)
    case DtStart => patch.times
    case Duration => patch.times && useDuration
    case DtEnd => patch.times && !useDuration
    case Uid => false
    case RecurrenceId => false
  }

  lemma TimesIf(b: bool, x: Property, p: Property)
    ensures Times(If(b, x), p) == One(b && x == p)
  {
    assert [x][1..] == [];
  }

  lemma TimesReplaced(patch: Patch, d: Desired, useDuration: bool, p: Property)
    ensures Times(Replaced(patch, d, useDuration), p) == if Sets(patch, d, useDuration, p) then 1 else 0
  {
    TimesOfIfs(Replaced(patch, d, useDuration), patch.title, Summary, patch.description && HasText(d.description), Description,
               patch.location && HasText(d.location), Location, patch.times, DtStart,
               patch.times, if useDuration then Duration else DtEnd, p);
  }

  function One(b: bool): nat {
    if b then 1 else 0
  }

  lemma TimesOfIfs(
      ps: seq<Property>, b1: bool, p1: Property, b2: bool, p2: Property, b3: bool, p3: Property, b4: bool, p4: Property, b5: bool, p5: Property, p: Property)
    requires ps == If(b1, p1) + If(b2, p2) + If(b3, p3) + If(b4, p4) + If(b5, p5)
    ensures Times(ps, p) ==
      One(b1 && p1 == p) + One(b2 && p2 == p) + One(b3 && p3 == p) + One(b4 && p4 == p) + One(b5 && p5 == p)
  {
    TimesOfFive(If(b1, p1), If(b2, p2), If(b3, p3), If(b4, p4), If(b5, p5), p);
    TimesIf(b1, p1, p);
    TimesIf(b2, p2, p);
    TimesIf(b3, p3, p);
    TimesIf(b4, p4, p);
    TimesIf(b5, p5, p);
  }

  lemma TimesOfFive(a: seq<Property>, b: seq<Property>, c: seq<Property>, t: seq<Property>, u: seq<Property>, p: Property)
    ensures Times(a + b + c + t + u, p) == Times(a, p) + Times(b, p) + Times(c, p) + Times(t, p) + Times(u, p)
  {
    TimesAppend(a, b, p);
    TimesAppend(a + b, c, p);
    TimesAppend(a + b + c, t, p);
    TimesAppend(a + b + c + t, u, p);
  }

  lemma {:induction false} TimesAppend(a: seq<Property>, b: seq<Property>, p: Property)
    ensures Times(a + b, p) == Times(a, p) + Times(b, p)
  {
    if a == [] {
      assert a + b == b;
    } else {
      assert (a + b)[1..] == a[1..] + b;
      TimesAppend(a[1..], b, p);
    }
  }

  /** The traits of the event after the rewriting. */
  function AfterTraits(ts: seq<Traits>, us: seq<Traits>, patch: Patch): seq<Traits> {
    Keep(ts, ts, 0, patch) + us
  }

  /** Counts after the rewriting, when the replacement stands at the top level. */
  lemma CountAfter(ts: seq<Traits>, us: seq<Traits>, ps: seq<Property>, patch: Patch, p: Property)
    requires AllOk(ts) && Generated(us, ps)
    ensures Count(AfterTraits(ts, us, patch), 0, p) ==
      (if Rewrites(patch, p) then Strays(ts, 0, p) else Count(ts, 0, p)) + (if Nesting(ts, 0) == 0 then Times(ps, p) else 0)
  {
    CountAppend(Keep(ts, ts, 0, patch), us, 0, p);
    KeepNesting(ts, 0, patch);
    CountKept(ts, 0, p, patch);
    CountGenerated(us, ps, Nesting(ts, 0), p);
  }

  /** No property that the replacement sets also stands in a stray line. */
  predicate NoStrays(ts: seq<Traits>, patch: Patch, d: Desired) {
    forall p :: Sets(patch, d, UsesDuration(ts), p) ==> Strays(ts, 0, p) == 0
  }

  /** A property counts after the rewriting exactly as it did, or is the replacement's. */
  lemma CountSecond(ts: seq<Traits>, us: seq<Traits>, patch: Patch, d: Desired, p: Property)
    requires AllOk(ts) && Generated(us, Replaced(patch, d, UsesDuration(ts))) && (Nesting(ts, 0) == 0 || us == [])
    ensures SecondCount(ts, us, patch, d, p)
  {
    StraysAreCounted(ts, 0, p);
    CountAfter(ts, us, Replaced(patch, d, UsesDuration(ts)), patch, p);
    TimesReplaced(patch, d, UsesDuration(ts), p);
  }

  /** The rewritten event may be rewritten again, with the same replacement, exactly
      when no stray line repeats a replaced property. */
  lemma {:induction false} SecondIsEditable(ts: seq<Traits>, us: seq<Traits>, patch: Patch, d: Desired, uid: string)
    requires AllOk(ts) && Generated(us, Replaced(patch, d, UsesDuration(ts))) && (Nesting(ts, 0) == 0 || us == [])
    requires Editable(ts, uid)
    ensures Editable(AfterTraits(ts, us, patch), uid) <==> NoStrays(ts, patch, d)
    ensures NoStrays(ts, patch, d) ==> UsesDuration(AfterTraits(ts, us, patch)) == UsesDuration(ts)
  {
    UidAfter(ts, us, patch);
    forall p: Property ensures SecondCount(ts, us, patch, d, p) {
      CountSecond(ts, us, patch, d, p);
    }
    assert SecondCount(ts, us, patch, d, Uid) && SecondCount(ts, us, patch, d, RecurrenceId)
      && SecondCount(ts, us, patch, d, DtStart) && SecondCount(ts, us, patch, d, DtEnd)
      && SecondCount(ts, us, patch, d, Duration) && SecondCount(ts, us, patch, d, Summary)
      && SecondCount(ts, us, patch, d, Description) && SecondCount(ts, us, patch, d, Location);
  }

  lemma UidAfter(ts: seq<Traits>, us: seq<Traits>, patch: Patch)
    requires AllOk(ts) && FirstUid(ts).Some?
    ensures FirstUid(AfterTraits(ts, us, patch)) == FirstUid(ts)
  {
    UidKept(ts, 0, patch);
    UidAppend(Keep(ts, ts, 0, patch), us);
  }

  predicate SecondCount(ts: seq<Traits>, us: seq<Traits>, patch: Patch, d: Desired, p: Property) {
    && Strays(ts, 0, p) <= Count(ts, 0, p)
    && Count(AfterTraits(ts, us, patch), 0, p) ==
       if Sets(patch, d, UsesDuration(ts), p) then 1 + Strays(ts, 0, p)
       else if Rewrites(patch, p) then Strays(ts, 0, p)
       else Count(ts, 0, p)
  }
}
