/** After one event has been rewritten: the other events are where and what they
    were, and the same edit applied again changes nothing, under an exact condition. */
module ICalRepeat {
  import opened Basics
  import opened ICalLines
  import opened ICalEvents
  import opened ICalProperties
  import opened ICalKeeping
  import opened ICalRewrite
  import opened ICalLaws
  import opened ICalReturns

  // ------------------------------------------------------------ the traits of the new lines

  lemma {:induction false} TraitsOfTwo(a: seq<Line>, b: seq<Line>)
    ensures TraitsIn(a + b) == TraitsIn(a) + TraitsIn(b)
  {
    if a == [] {
      assert a + b == b;
    } else {
      assert (a + b)[1..] == a[1..] + b;
      TraitsOfTwo(a[1..], b);
    }
  }

  lemma TraitsOfThree(a: seq<Line>, x: seq<Line>, b: seq<Line>)
    ensures TraitsIn(a + x + b) == TraitsIn(a) + TraitsIn(x) + TraitsIn(b)
  {
    TraitsOfTwo(a + x, b);
    TraitsOfTwo(a, x);
  }

  lemma CutTraits(ls: seq<Line>, i: nat)
    requires i <= |ls|
    ensures TraitsIn(ls[..i]) == TraitsIn(ls)[..i] && TraitsIn(ls[i..]) == TraitsIn(ls)[i..]
  {
    Rejoin(ls, i);
    CutAppended(ls, ls[..i], ls[i..]);
  }

  lemma Rejoin<T>(s: seq<T>, i: nat)
    requires i <= |s|
    ensures s == s[..i] + s[i..]
  {
  }

  lemma CutAppended(ls: seq<Line>, a: seq<Line>, b: seq<Line>)
    requires ls == a + b
    ensures TraitsIn(ls)[..|a|] == TraitsIn(a) && TraitsIn(ls)[|a|..] == TraitsIn(b)
  {
    TraitsOfTwo(a, b);
    CutAt(TraitsIn(a), TraitsIn(b));
  }

  lemma CutAt<T>(x: seq<T>, y: seq<T>)
    ensures (x + y)[..|x|] == x && (x + y)[|x|..] == y
  {
  }

  lemma SliceTwice<T>(s: seq<T>, i: nat, j: nat)
    requires i <= j <= |s|
    ensures s[..j][i..] == s[i..j]
  {
  }

  lemma TraitsOfSlice(ls: seq<Line>, i: nat, j: nat)
    requires i <= j <= |ls|
    ensures TraitsIn(ls[i..j]) == TraitsIn(ls)[i..j]
  {
    CutTraits(ls, j);
    CutTraits(ls[..j], i);
    SliceTwice(ls, i, j);
    SliceTwice(TraitsIn(ls), i, j);
  }

  lemma {:induction false} TraitsOfKept(ls: seq<Line>, depth: nat, patch: Patch)
    ensures TraitsIn(Keep(ls, TraitsIn(ls), depth, patch)) == Keep(TraitsIn(ls), TraitsIn(ls), depth, patch)
    decreases |ls|
  {
    var ts := TraitsIn(ls);
    if ls != [] {
      TraitsOfSlice(ls, 1, |ls|);
      assert ls[1..|ls|] == ls[1..] && ts[1..|ls|] == ts[1..];
      if depth == 0 && Drops(patch, ts[0]) {
        TraitsOfKept(ls[1..], depth, patch);
      } else {
        var next := DepthStep(depth, ts[0].marker);
        TraitsOfKept(ls[1..], next, patch);
        TraitsOfTwo([ls[0]], Keep(ls[1..], ts[1..], next, patch));
        assert [ls[0]][1..] == [];
      }
    }
  }

  /** The traits of the replacement. */
  function Fresh(edit: Edit, useDuration: bool): seq<Traits> {
    TraitsIn(Replacement(edit, useDuration))
  }

  lemma FreshIsGenerated(edit: Edit, useDuration: bool)
    requires StampsOk(edit.desired)
    ensures Generated(Fresh(edit, useDuration), Replaced(edit.patch, edit.desired, useDuration))
  {
    var us, ps := Fresh(edit, useDuration), Replaced(edit.patch, edit.desired, useDuration);
    TraitsInOk(Replacement(edit, useDuration));
    forall i | 0 <= i < |us| ensures TraitsOk(us[i]) && us[i].named == Some(ps[i]) {
      ReplacementIsFolded(edit, useDuration, i);
      TraitAt(Replacement(edit, useDuration), i);
    }
  }

  lemma GeneratedIsDropped(us: seq<Traits>, patch: Patch, d: Desired, useDuration: bool)
    requires Generated(us, Replaced(patch, d, useDuration))
    ensures AllDropped(us, patch)
  {
    var ps := Replaced(patch, d, useDuration);
    forall i | 0 <= i < |us| ensures Drops(patch, us[i]) {
      TimesOf(ps, i);
      TimesReplaced(patch, d, useDuration, ps[i]);
    }
  }

  lemma {:induction false} TimesOf(ps: seq<Property>, i: nat)
    requires i < |ps|
    ensures Times(ps, ps[i]) > 0
  {
    if i > 0 {
      TimesOf(ps[1..], i - 1);
    }
  }

  /** The traits of the event's inside after the edit. */
  function AfterInside(ts: seq<Traits>, edit: Edit): seq<Traits> {
    AfterTraits(ts, Fresh(edit, UsesDuration(ts)), edit.patch)
  }

  /** The traits of all lines after the edit. */
  function TraitsAfter(ts: seq<Traits>, r: Range, edit: Edit): seq<Traits>
    requires r.start < r.end < |ts|
  {
    ts[..r.start + 1] + AfterInside(ts[r.start + 1..r.end], edit) + ts[r.end..]
  }

  lemma InsideTraits(xs: seq<Line>, ts: seq<Traits>, edit: Edit)
    requires ts == TraitsIn(xs)
    ensures TraitsIn(Inside(xs, ts, edit)) == AfterInside(ts, edit)
  {
    TraitsOfKept(xs, 0, edit.patch);
    TraitsOfTwo(Keep(xs, ts, 0, edit.patch), Replacement(edit, UsesDuration(ts)));
  }

  lemma {:induction false} RewrittenTraits(ls: seq<Line>, ts: seq<Traits>, r: Range, edit: Edit)
    requires ts == TraitsIn(ls) && r.start < r.end < |ls|
    ensures TraitsIn(RewriteAt(ls, ts, r, edit)) == TraitsAfter(ts, r, edit)
  {
    TraitsOfSlice(ls, r.start + 1, r.end);
    CutTraits(ls, r.start + 1);
    CutTraits(ls, r.end);
    TraitsAround(ls[..r.start + 1], ls[r.start + 1..r.end], ls[r.end..], ts[r.start + 1..r.end], edit);
  }

  lemma {:induction false} TraitsAround(a: seq<Line>, xs: seq<Line>, b: seq<Line>, ts: seq<Traits>, edit: Edit)
    requires ts == TraitsIn(xs)
    ensures TraitsIn(a + Inside(xs, ts, edit) + b) == TraitsIn(a) + AfterInside(ts, edit) + TraitsIn(b)
  {
    InsideTraits(xs, ts, edit);
    TraitsOfThree(a, Inside(xs, ts, edit), b);
  }

  // ------------------------------------------------------------ the ranges of the new lines

  /** What the patch leaves of an event is balanced if the event was. */
  lemma AfterIsBalanced(ts: seq<Traits>, us: seq<Traits>, patch: Patch)
    requires AllOk(ts) && Balanced(Marks(ts)) && AllDropped(us, patch)
    ensures Balanced(Marks(AfterTraits(ts, us, patch)))
  {
    var kept := Keep(ts, ts, 0, patch);
    KeepQuiet(ts, 0, INSIDE, patch);
    assert Marks(kept + us) == Marks(kept) + Marks(us);
    PlainQuiet(Marks(kept), Marks(us), INSIDE);
  }

  lemma SliceMarks(ts: seq<Traits>, i: nat, j: nat)
    requires i <= j <= |ts|
    ensures Marks(ts[i..j]) == Marks(ts)[i..j]
  {
  }

  lemma MarksAround(ts: seq<Traits>, i: nat, j: nat, x: seq<Traits>)
    requires i <= j <= |ts|
    ensures Marks(ts[..i] + x + ts[j..]) == Marks(ts)[..i] + Marks(x) + Marks(ts)[j..]
  {
  }

  /** Replacing the inside of one event by balanced lines. */
  lemma {:induction false} RangesOfReplaced(ts: seq<Traits>, x: seq<Traits>, all: seq<Traits>, q: nat, r: Range)
    requires EventRanges(Marks(ts)).Ok? && q < |EventRanges(Marks(ts)).value| && EventRanges(Marks(ts)).value[q] == r
    requires r.start < r.end < |ts| && Balanced(Marks(x)) && all == ts[..r.start + 1] + x + ts[r.end..]
    ensures EventRanges(Marks(all)).Ok?
    ensures MovedRanges(EventRanges(Marks(ts)).value, EventRanges(Marks(all)).value, q, |x| - (r.end - r.start - 1))
  {
    RangesAfterReplacing(Marks(ts), q, Marks(x), r);
    MarksAround(ts, r.start + 1, r.end, x);
  }

  // ------------------------------------------------------------ the other events

  lemma {:induction false} RangesOnlyGrow(ms: seq<Marker>, i: nat, j: nat)
    requires i <= j <= |ms| && ScanTo(ms, j).Scan?
    ensures ScanTo(ms, i).Scan? && |ScanTo(ms, i).ranges| <= |ScanTo(ms, j).ranges|
    decreases j
  {
    if i < j {
      RangesOnlyGrow(ms, i, j - 1);
    }
  }

  /** Ranges are listed in order and do not overlap. */
  lemma RangesInOrder(ms: seq<Marker>, i: nat, j: nat)
    requires EventRanges(ms).Ok? && i < j < |EventRanges(ms).value|
    ensures EventRanges(ms).value[i].end < EventRanges(ms).value[j].start
  {
    RangeFacts(ms, i);
    RangeFacts(ms, j);
    var e, s := EventRanges(ms).value[i].end, EventRanges(ms).value[j].start;
    if s + 1 <= e {
      RangesOnlyGrow(ms, s + 1, e);
    }
  }

  /** The lines of an event. */
  function EventLines(ls: seq<Line>, r: Range): seq<Line>
    requires r.start <= r.end < |ls|
  {
    ls[r.start..r.end + 1]
  }

  /** Slices before and after the part that is replaced. */
  lemma SliceBefore<T>(a: seq<T>, x: seq<T>, b: seq<T>, i: nat, j: nat)
    requires i <= j <= |a|
    ensures (a + x + b)[i..j] == a[i..j]
  {
  }

  lemma SliceAfter<T>(a: seq<T>, x: seq<T>, b: seq<T>, i: nat, j: nat)
    requires i <= j <= |b|
    ensures (a + x + b)[|a| + |x| + i..|a| + |x| + j] == b[i..j]
  {
  }

  lemma SliceOfPrefix<T>(s: seq<T>, k: nat, i: nat, j: nat)
    requires i <= j <= k <= |s|
    ensures s[..k][i..j] == s[i..j]
  {
  }

  lemma SliceOfSuffix<T>(s: seq<T>, k: nat, i: nat, j: nat)
    requires k <= i <= j <= |s|
    ensures s[k..][i - k..j - k] == s[i..j]
  {
  }

  lemma EventBefore(ls: seq<Line>, inner: seq<Line>, all: seq<Line>, r: Range, o: Range)
    requires r.start < r.end < |ls| && o.start <= o.end < r.start && all == ls[..r.start + 1] + inner + ls[r.end..]
    ensures o.end < |all| && EventLines(all, o) == EventLines(ls, o)
  {
    SliceBefore(ls[..r.start + 1], inner, ls[r.end..], o.start, o.end + 1);
    SliceOfPrefix(ls, r.start + 1, o.start, o.end + 1);
  }

  lemma EventAfter(ls: seq<Line>, inner: seq<Line>, all: seq<Line>, r: Range, o: Range, after: Range)
    requires r.start < r.end < o.start <= o.end < |ls| && all == ls[..r.start + 1] + inner + ls[r.end..]
    requires var delta := |inner| - (r.end - r.start - 1); after.start == o.start + delta && after.end == o.end + delta
    ensures after.start <= after.end < |all| && EventLines(all, after) == EventLines(ls, o)
  {
    SliceAfter(ls[..r.start + 1], inner, ls[r.end..], o.start - r.end, o.end + 1 - r.end);
    SliceOfSuffix(ls, r.end, o.start, o.end + 1);
  }

  lemma EditedEvent(ls: seq<Line>, inner: seq<Line>, all: seq<Line>, r: Range, after: Range)
    requires r.start < r.end < |ls| && after == Range(r.start, r.start + 1 + |inner|) && all == ls[..r.start + 1] + inner + ls[r.end..]
    ensures after.end < |all| && EventLines(all, after) == [ls[r.start]] + inner + [ls[r.end]]
  {
    assert all[r.start + 1..after.end] == inner;
  }

  /** The selected event is the one at `r`. */
  predicate Selects(ts: seq<Traits>, r: Range, edit: Edit) {
    var found := EventRanges(Marks(ts));
    found.Ok? && |found.value| == edit.parsed && edit.selected < edit.parsed && found.value[edit.selected] == r
  }

  lemma TargetIsOk(ls: seq<Line>, ts: seq<Traits>, r: Range, edit: Edit)
    requires ts == TraitsIn(ls) && Target(ls, ts, edit) == Ok(r)
    ensures Selects(ts, r, edit) && AllOk(ts)
    ensures AllOk(ts[r.start + 1..r.end]) && Editable(ts[r.start + 1..r.end], edit.uid)
  {
    TraitsInOk(ls);
  }

  lemma {:induction false} InsideIsBalanced(ts: seq<Traits>, edit: Edit)
    requires AllOk(ts) && Balanced(Marks(ts)) && StampsOk(edit.desired)
    ensures Balanced(Marks(AfterInside(ts, edit)))
  {
    FreshIsDropped(edit, UsesDuration(ts));
    AfterIsBalanced(ts, Fresh(edit, UsesDuration(ts)), edit.patch);
  }

  /** The ranges found after the edit. */
  lemma {:induction false} NewRanges(ts: seq<Traits>, r: Range, edit: Edit, inside: seq<Traits>, x: seq<Traits>, all: seq<Traits>)
    requires AllOk(ts) && Selects(ts, r, edit) && r.start < r.end < |ts| && StampsOk(edit.desired)
    requires inside == ts[r.start + 1..r.end] && x == AfterInside(inside, edit) && all == ts[..r.start + 1] + x + ts[r.end..]
    ensures EventRanges(Marks(all)).Ok?
    ensures MovedRanges(EventRanges(Marks(ts)).value, EventRanges(Marks(all)).value, edit.selected, |x| - (r.end - r.start - 1))
  {
    SelectedIsBalanced(ts, r, edit);
    InsideIsBalanced(inside, edit);
    RangesOfReplaced(ts, x, all, edit.selected, r);
  }

  lemma {:induction false} SelectedIsBalanced(ts: seq<Traits>, r: Range, edit: Edit)
    requires Selects(ts, r, edit) && r.start < r.end < |ts|
    ensures Balanced(Marks(ts[r.start + 1..r.end]))
  {
    RangeFacts(Marks(ts), edit.selected);
    SliceMarks(ts, r.start + 1, r.end);
  }

  lemma {:induction false} SelectsAfter(ts: seq<Traits>, r: Range, edit: Edit, inside: seq<Traits>, x: seq<Traits>, all: seq<Traits>)
    requires AllOk(ts) && Selects(ts, r, edit) && r.start < r.end < |ts| && StampsOk(edit.desired)
    requires inside == ts[r.start + 1..r.end] && x == AfterInside(inside, edit) && all == ts[..r.start + 1] + x + ts[r.end..]
    ensures Selects(all, Range(r.start, r.start + 1 + |x|), edit)
  {
    NewRanges(ts, r, edit, inside, x, all);
  }

  lemma FreshIsDropped(edit: Edit, useDuration: bool)
    requires StampsOk(edit.desired)
    ensures AllDropped(Fresh(edit, useDuration), edit.patch)
  {
    FreshIsGenerated(edit, useDuration);
    GeneratedIsDropped(Fresh(edit, useDuration), edit.patch, edit.desired, useDuration);
  }

  /** Every other event is listed at the same ordinal and has exactly the lines it had;
      the edited one keeps its own markers around the new inside. */
  lemma OtherEventsUntouched(ls: seq<Line>, edit: Edit, j: nat)
    requires RewriteLines(ls, edit).Ok? && StampsOk(edit.desired) && j < edit.parsed
    ensures var ts := TraitsIn(ls);
      var after := RewriteLines(ls, edit).value;
      var before, found := EventRanges(Marks(ts)).value, EventRanges(Marks(TraitsIn(after)));
      var r := Target(ls, ts, edit).value;
      && found.Ok? && |before| == |found.value| == edit.parsed && before[edit.selected] == r
      && before[j].start <= before[j].end < |ls| && found.value[j].start <= found.value[j].end < |after|
      && EventLines(after, found.value[j]) ==
         if j == edit.selected then [ls[r.start]] + Inside(ls[r.start + 1..r.end], ts[r.start + 1..r.end], edit) + [ls[r.end]]
         else EventLines(ls, before[j])
  {
    var ts := TraitsIn(ls);
    var r := Target(ls, ts, edit).value;
    TargetIsOk(ls, ts, r, edit);
    RewrittenTraits(ls, ts, r, edit);
    var xs, inside := ls[r.start + 1..r.end], ts[r.start + 1..r.end];
    InsideLength(xs, inside, edit);
    EventsAfter(ls, Inside(xs, inside, edit), RewriteAt(ls, ts, r, edit), ts, r, edit, inside, AfterInside(inside, edit),
                TraitsAfter(ts, r, edit), j);
  }

  lemma {:induction false} EventsAfter(ls: seq<Line>, inner: seq<Line>, all: seq<Line>, ts: seq<Traits>, r: Range, edit: Edit,
                                       inside: seq<Traits>, x: seq<Traits>, after: seq<Traits>, j: nat)
    requires |ts| == |ls| && AllOk(ts) && Selects(ts, r, edit) && r.start < r.end < |ls| && StampsOk(edit.desired) && j < edit.parsed
    requires inside == ts[r.start + 1..r.end] && x == AfterInside(inside, edit) && after == ts[..r.start + 1] + x + ts[r.end..]
    requires |inner| == |x| && all == ls[..r.start + 1] + inner + ls[r.end..]
    ensures var before, found := EventRanges(Marks(ts)).value, EventRanges(Marks(after));
      && found.Ok? && |before| == |found.value|
      && before[j].start <= before[j].end < |ls| && found.value[j].start <= found.value[j].end < |all|
      && EventLines(all, found.value[j]) ==
         if j == edit.selected then [ls[r.start]] + inner + [ls[r.end]] else EventLines(ls, before[j])
  {
    NewRanges(ts, r, edit, inside, x, after);
    PlaceEvents(ls, inner, all, Marks(ts), r, EventRanges(Marks(after)).value, edit.selected, j);
  }

  lemma InsideLength(xs: seq<Line>, ts: seq<Traits>, edit: Edit)
    requires |xs| == |ts| && AllOk(ts)
    ensures |Inside(xs, ts, edit)| == |AfterInside(ts, edit)|
  {
    KeepLength(xs, ts, 0, edit.patch);
  }

  lemma {:induction false} PlaceEvents(ls: seq<Line>, inner: seq<Line>, all: seq<Line>, ms: seq<Marker>, r: Range, found: seq<Range>,
                                       q: nat, j: nat)
    requires |ms| == |ls| && EventRanges(ms).Ok? && q < |EventRanges(ms).value| && j < |EventRanges(ms).value|
    requires EventRanges(ms).value[q] == r && r.start < r.end < |ls| && all == ls[..r.start + 1] + inner + ls[r.end..]
    requires MovedRanges(EventRanges(ms).value, found, q, |inner| - (r.end - r.start - 1))
    ensures var o := EventRanges(ms).value[j];
      && o.start <= o.end < |ls| && found[j].start <= found[j].end < |all|
      && EventLines(all, found[j]) == if j == q then [ls[r.start]] + inner + [ls[r.end]] else EventLines(ls, o)
  {
    var o := EventRanges(ms).value[j];
    RangeFacts(ms, j);
    if j < q {
      RangesInOrder(ms, j, q);
      EventBefore(ls, inner, all, r, o);
    } else if j > q {
      RangesInOrder(ms, q, j);
      EventAfter(ls, inner, all, r, o, found[j]);
    } else {
      EditedEvent(ls, inner, all, r, found[j]);
    }
  }

  // ------------------------------------------------------------ the second application

  /** When the edit may be repeated: the replacement is empty or stands outside every
      nested component, and no property that it sets also stands in a stray line. */
  predicate Settled(ts: seq<Traits>, patch: Patch, d: Desired) {
    && (Nesting(ts, 0) == 0 || Replaced(patch, d, UsesDuration(ts)) == [])
    && NoStrays(ts, patch, d)
  }

  /** What the second drop leaves. */
  lemma InsideTwice(xs: seq<Line>, ts: seq<Traits>, rep: seq<Line>, us: seq<Traits>, patch: Patch)
    requires |xs| == |ts| && |rep| == |us| && AllOk(ts) && AllDropped(us, patch)
    ensures |Keep(xs, ts, 0, patch) + rep| == |AfterTraits(ts, us, patch)|
    ensures Keep(Keep(xs, ts, 0, patch) + rep, AfterTraits(ts, us, patch), 0, patch) ==
      Keep(xs, ts, 0, patch) + if Nesting(ts, 0) == 0 then [] else rep
  {
    var kx, kt := Keep(xs, ts, 0, patch), Keep(ts, ts, 0, patch);
    KeepLength(xs, ts, 0, patch);
    KeepAppend(kx, kt, rep, us, 0, patch);
    KeepTwice(xs, ts, 0, patch);
    KeepNesting(ts, 0, patch);
    KeepGenerated(rep, us, Nesting(ts, 0), patch);
  }

  lemma ReplacedLength(patch: Patch, d: Desired, a: bool, b: bool)
    ensures |Replaced(patch, d, a)| == |Replaced(patch, d, b)|
  {
  }

  /** A kept part followed by a replacement, the second time round. */
  lemma SameTwice(kept: seq<Line>, rep: seq<Line>, again: seq<Line>, top: bool)
    requires |rep| == |again|
    ensures kept + (if top then [] else rep) + again == kept + rep <==> rep == [] || (top && again == rep)
  {
    if top {
      assert kept + [] == kept;
      assert (kept + again)[|kept|..] == again && (kept + rep)[|kept|..] == rep;
    } else if rep == [] {
      assert kept + rep + again == kept + rep;
    }
  }

  lemma FreshEmpty(edit: Edit, useDuration: bool)
    ensures Fresh(edit, useDuration) == [] <==> Replaced(edit.patch, edit.desired, useDuration) == []
    ensures Replacement(edit, useDuration) == [] <==> Replaced(edit.patch, edit.desired, useDuration) == []
  {
  }

  lemma ReplacementLength(edit: Edit, a: bool, b: bool)
    ensures |Replacement(edit, a)| == |Replacement(edit, b)|
  {
    ReplacedLength(edit.patch, edit.desired, a, b);
  }

  /** The inside of the event after the edit and after the same edit again. */
  lemma SecondKeep(xs: seq<Line>, ts: seq<Traits>, edit: Edit)
    requires |xs| == |ts| && AllOk(ts) && StampsOk(edit.desired)
    ensures var first := Inside(xs, ts, edit);
      var after := AfterInside(ts, edit);
      var rep, again := Replacement(edit, UsesDuration(ts)), Replacement(edit, UsesDuration(after));
      && |first| == |after|
      && (Inside(first, after, edit) == first <==> rep == [] || (Nesting(ts, 0) == 0 && again == rep))
  {
    var useDuration := UsesDuration(ts);
    var rep, us := Replacement(edit, useDuration), Fresh(edit, useDuration);
    var again := UsesDuration(AfterTraits(ts, us, edit.patch));
    FreshIsGenerated(edit, useDuration);
    GeneratedIsDropped(us, edit.patch, edit.desired, useDuration);
    InsideTwice(xs, ts, rep, us, edit.patch);
    ReplacementLength(edit, useDuration, again);
    SameTwice(Keep(xs, ts, 0, edit.patch), rep, Replacement(edit, again), Nesting(ts, 0) == 0);
  }

  /** The inside after the edit may be edited again, and stays as it is. */
  predicate InsideRepeats(xs: seq<Line>, ts: seq<Traits>, edit: Edit)
    requires |xs| == |ts|
  {
    var first, after := Inside(xs, ts, edit), AfterInside(ts, edit);
    |first| == |after| && StaysSo(first, after, edit)
  }

  /** An inside that may be edited, and that the edit leaves as it is. */
  predicate StaysSo(inner: seq<Line>, traits: seq<Traits>, edit: Edit)
    requires |inner| == |traits|
  {
    Editable(traits, edit.uid) && Inside(inner, traits, edit) == inner
  }

  /** The edit repeated on the inside of the event: it is allowed and gives the same
      lines exactly when the edit is settled. */
  lemma SecondInside(xs: seq<Line>, ts: seq<Traits>, edit: Edit)
    requires |xs| == |ts| && AllOk(ts) && Editable(ts, edit.uid) && StampsOk(edit.desired)
    ensures InsideRepeats(xs, ts, edit) <==> Settled(ts, edit.patch, edit.desired)
  {
    var us := Fresh(edit, UsesDuration(ts));
    SecondKeep(xs, ts, edit);
    FreshEmpty(edit, UsesDuration(ts));
    FreshIsGenerated(edit, UsesDuration(ts));
    if Nesting(ts, 0) == 0 || us == [] {
      SecondIsEditable(ts, us, edit.patch, edit.desired, edit.uid);
    }
  }

  /** The same edit on the lines it produced gives them back exactly when it is settled. */
  lemma {:induction false} SecondPass(ls: seq<Line>, edit: Edit)
    requires RewriteLines(ls, edit).Ok? && StampsOk(edit.desired)
    ensures var ts := TraitsIn(ls);
      var r := Target(ls, ts, edit).value;
      var after := RewriteLines(ls, edit).value;
      RewriteLines(after, edit) == Ok(after) <==> Settled(ts[r.start + 1..r.end], edit.patch, edit.desired)
  {
    var ts := TraitsIn(ls);
    SecondPassAt(ls, ts, Target(ls, ts, edit).value, edit);
  }

  lemma {:induction false} SecondPassAt(ls: seq<Line>, ts: seq<Traits>, r: Range, edit: Edit)
    requires ts == TraitsIn(ls) && Target(ls, ts, edit) == Ok(r) && StampsOk(edit.desired)
    ensures var after := RewriteAt(ls, ts, r, edit);
      RewriteLines(after, edit) == Ok(after) <==> Settled(ts[r.start + 1..r.end], edit.patch, edit.desired)
  {
    TargetIsOk(ls, ts, r, edit);
    RepeatedInside(ls, ts, r, edit);
    SecondInside(ls[r.start + 1..r.end], ts[r.start + 1..r.end], edit);
  }

  /** Repeating the edit is repeating it on the inside of the event. */
  lemma {:induction false} RepeatedInside(ls: seq<Line>, ts: seq<Traits>, r: Range, edit: Edit)
    requires ts == TraitsIn(ls) && Target(ls, ts, edit) == Ok(r) && StampsOk(edit.desired)
    ensures var after := RewriteAt(ls, ts, r, edit);
      RewriteLines(after, edit) == Ok(after) <==> InsideRepeats(ls[r.start + 1..r.end], ts[r.start + 1..r.end], edit)
  {
    TargetIsOk(ls, ts, r, edit);
    RewrittenTraits(ls, ts, r, edit);
    var xs, inside := ls[r.start + 1..r.end], ts[r.start + 1..r.end];
    SelectsAfter(ts, r, edit, inside, AfterInside(inside, edit), TraitsAfter(ts, r, edit));
    InsideLength(xs, inside, edit);
    RepeatedParts(ls, ts, Inside(xs, inside, edit), AfterInside(inside, edit), RewriteAt(ls, ts, r, edit), TraitsAfter(ts, r, edit), r, edit);
  }

  lemma {:induction false} RepeatedParts(ls: seq<Line>, ts: seq<Traits>, inner: seq<Line>, traits: seq<Traits>,
                                         all: seq<Line>, allTraits: seq<Traits>, r: Range, edit: Edit)
    requires |ts| == |ls| && r.start < r.end < |ls| && |inner| == |traits|
    requires all == ls[..r.start + 1] + inner + ls[r.end..] && allTraits == ts[..r.start + 1] + traits + ts[r.end..]
    requires Selects(allTraits, Range(r.start, r.start + 1 + |traits|), edit)
    ensures RewriteWith(all, allTraits, edit) == Ok(all) <==> StaysSo(inner, traits, edit)
  {
    RepeatedAmong(ls[..r.start + 1], inner, ls[r.end..], ts[..r.start + 1], traits, ts[r.end..], all, allTraits, edit);
  }

  /** Rewriting lines whose selected event has the inside `inner`, between `a` and `b`. */
  lemma RepeatedAmong(a: seq<Line>, inner: seq<Line>, b: seq<Line>, ta: seq<Traits>, traits: seq<Traits>, tb: seq<Traits>,
                      ls: seq<Line>, ts: seq<Traits>, edit: Edit)
    requires a != [] && b != [] && |a| == |ta| && |inner| == |traits| && |b| == |tb|
    requires ls == a + inner + b && ts == ta + traits + tb
    requires Selects(ts, Range(|a| - 1, |a| + |inner|), edit)
    ensures RewriteWith(ls, ts, edit) == Ok(ls) <==> StaysSo(inner, traits, edit)
  {
    var r := Range(|a| - 1, |a| + |inner|);
    MiddleOfThree(a, inner, b);
    MiddleOfThree(ta, traits, tb);
    WithRange(ls, ts, r, edit);
    if Editable(traits, edit.uid) {
      ReplacesMiddle(ls, |a|, r.end, Inside(inner, traits, edit));
    }
  }

  lemma WithRange(ls: seq<Line>, ts: seq<Traits>, r: Range, edit: Edit)
    requires |ts| == |ls| && r.start < r.end < |ls| && Selects(ts, r, edit)
    ensures RewriteWith(ls, ts, edit) == if Editable(ts[r.start + 1..r.end], edit.uid) then Ok(RewriteAt(ls, ts, r, edit)) else Err
  {
  }

  lemma ReplacesMiddle<T>(s: seq<T>, i: nat, j: nat, y: seq<T>)
    requires i <= j <= |s|
    ensures s[..i] + y + s[j..] == s <==> y == s[i..j]
  {
    ThreeParts(s, i, j);
    MiddleDecides(s[..i], y, s[i..j], s[j..]);
  }

  lemma MiddleDecides<T>(a: seq<T>, x: seq<T>, y: seq<T>, b: seq<T>)
    ensures a + x + b == a + y + b <==> x == y
  {
    MiddleOfThree(a, x, b);
    MiddleOfThree(a, y, b);
  }

  lemma MiddleOfThree<T>(a: seq<T>, x: seq<T>, b: seq<T>)
    ensures (a + x + b)[|a|..|a| + |x|] == x && (a + x + b)[..|a|] == a && (a + x + b)[|a| + |x|..] == b
  {
  }

  /** On texts: repeating an edit changes nothing exactly when it is settled and no line
      that is kept ends in a carriage return. */
  lemma RewriteTwice(text: string, edit: Edit)
    requires Rewrite(text, edit).Ok? && StampsOk(edit.desired)
    ensures var ls := LinesIn(text);
      var ts := TraitsIn(ls);
      var r := Target(ls, ts, edit).value;
      var output := Rewrite(text, edit).value;
      Rewrite(output, edit) == Ok(output) <==>
        Settled(ts[r.start + 1..r.end], edit.patch, edit.desired) && KeepsNoReturns(ls, ts, r, edit)
  {
    var ls := LinesIn(text);
    var ts := TraitsIn(ls);
    var r := Target(ls, ts, edit).value;
    ReturnsAreKept(ls, ts, r, edit);
    if KeepsNoReturns(ls, ts, r, edit) {
      CleanTwice(text, edit);
    } else {
      ReturnsShow(text, edit);
    }
  }

  lemma CleanTwice(text: string, edit: Edit)
    requires Rewrite(text, edit).Ok? && StampsOk(edit.desired)
    requires KeepsNoReturns(LinesIn(text), TraitsIn(LinesIn(text)), Target(LinesIn(text), TraitsIn(LinesIn(text)), edit).value, edit)
    ensures var ts := TraitsIn(LinesIn(text));
      var r := Target(LinesIn(text), ts, edit).value;
      var output := Rewrite(text, edit).value;
      Rewrite(output, edit) == Ok(output) <==> Settled(ts[r.start + 1..r.end], edit.patch, edit.desired)
  {
    var ls := LinesIn(text);
    var after, output := RewriteLines(ls, edit).value, Rewrite(text, edit).value;
    RewriteReadsBack(text, edit);
    SecondPass(ls, edit);
    if Rewrite(output, edit) == Ok(output) {
      SameOutput(output, edit);
    }
  }

  /** A text that rewriting leaves as it is, of lines without trailing carriage returns,
      has lines that rewriting leaves as they are. */
  lemma SameOutput(output: string, edit: Edit)
    requires Rewrite(output, edit) == Ok(output) && StampsOk(edit.desired)
    ensures RewriteLines(LinesIn(output), edit) == Ok(LinesIn(output))
  {
    var ls := LinesIn(output);
    var ts := TraitsIn(ls);
    var r := Target(ls, ts, edit).value;
    RewriteReadsBack(output, edit);
    ReturnsAreKept(ls, ts, r, edit);
    if !KeepsNoReturns(ls, ts, r, edit) {
      ReturnsShow(output, edit);
    }
  }
}
