/** Component structure of logical lines: markers, property names, and the ranges
    of the top-level VEVENTs. */
module ICalEvents {
  import opened Basics
  import opened Splitting

  predicate SameName(a: string, b: string) {
    UpperText(a) == UpperText(b)
  }

  function ComponentMarker(line: string, marker: string): Option<string> {
    match SplitOnce(line, ':')
    case None => None
    case Some((prefix, name)) => if SameName(prefix, marker) then Some(name) else None
  }

  function PropertyName(line: string): Option<string> {
    if line == "" then None
    else if line[0] == ';' || line[0] == ':' then Some("")
    else
      match PropertyName(line[1..])
      case None => None
      case Some(name) => Some([line[0]] + name)
  }

  /** What a line is to the component structure. */
  datatype Marker = Begin(event: bool) | End(event: bool) | Plain

  function MarkerOf(line: string): Marker {
    var trimmed := Trim(line);
    match ComponentMarker(trimmed, "BEGIN")
    case Some(name) => Begin(SameName(name, "VEVENT"))
    case None =>
      match ComponentMarker(trimmed, "END")
      case Some(name) => End(SameName(name, "VEVENT"))
      case None => Plain
  }

  // ------------------------------------------------------------ event ranges

  /** The lines of a VEVENT, from its BEGIN to its END. */
  datatype Range = Range(start: nat, end: nat)

  datatype Scan =
    | Failed
    | Scan(depth: nat, start: Option<nat>, ranges: seq<Range>)

  const SCAN_START: Scan := Scan(0, None, [])

  function ScanLine(s: Scan, index: nat, m: Marker): Scan {
    if s.Failed? then Failed
    else
      match m
      case Begin(event) => Scan(s.depth + 1, if s.depth == 1 && event then Some(index) else s.start, s.ranges)
      case End(event) =>
        if s.depth == 0 then Failed
        else if s.depth == 2 && event then
          (if s.start.None? then Failed else Scan(1, None, s.ranges + [Range(s.start.value, index)]))
        else Scan(s.depth - 1, s.start, s.ranges)
      case Plain => s
  }

  /** The scan of the first `n` lines. */
  function ScanTo(ms: seq<Marker>, n: nat): Scan
    requires n <= |ms|
  {
    if n == 0 then SCAN_START else ScanLine(ScanTo(ms, n - 1), n - 1, ms[n - 1])
  }

  function EventRanges(ms: seq<Marker>): Result<seq<Range>> {
    var s := ScanTo(ms, |ms|);
    if s.Failed? then Err else Ok(s.ranges)
  }

  /** The loop that finds the events. */
  method TopLevelEventRanges(ms: seq<Marker>) returns (r: Result<seq<Range>>)
    ensures r == EventRanges(ms)
  {
    var depth: nat, start: Option<nat>, ranges: seq<Range> := 0, None, [];
    var index := 0;
    while index < |ms|
      invariant 0 <= index <= |ms|
      invariant ScanTo(ms, index) == Scan(depth, start, ranges)
    {
      match ms[index] {
        case Begin(event) =>
          if depth == 1 && event {
            start := Some(index);
          }
          depth := depth + 1;
        case End(event) =>
          if depth == 0 {
            FailureStays(ms, index + 1, |ms|);
            return Err;
          }
          depth := depth - 1;
          if depth == 1 && event {
            if start.None? {
              FailureStays(ms, index + 1, |ms|);
              return Err;
            }
            ranges := ranges + [Range(start.value, index)];
            start := None;
          }
        case Plain =>
      }
      index := index + 1;
    }
    return Ok(ranges);
  }

  lemma {:induction false} FailureStays(ms: seq<Marker>, i: nat, j: nat)
    requires i <= j <= |ms| && ScanTo(ms, i).Failed?
    ensures ScanTo(ms, j).Failed?
    decreases j
  {
    if i < j {
      FailureStays(ms, i, j - 1);
    }
  }

  // ------------------------------------------------------------ what a range says

  /** A range was closed at its end, by the event that was opened at its start. */
  predicate ClosedBy(ms: seq<Marker>, q: nat, range: Range) {
    && range.end < |ms|
    && var s := ScanTo(ms, range.end);
       && s.Scan? && s.depth == 2 && s.start == Some(range.start) && |s.ranges| == q
       && ms[range.end] == End(true)
  }

  lemma {:induction false} RangesAreClosed(ms: seq<Marker>, n: nat, q: nat)
    requires n <= |ms| && ScanTo(ms, n).Scan? && q < |ScanTo(ms, n).ranges|
    ensures ScanTo(ms, n).ranges[q].end < n && ClosedBy(ms, q, ScanTo(ms, n).ranges[q])
  {
    if q < |ScanTo(ms, n - 1).ranges| {
      RangesAreClosed(ms, n - 1, q);
    }
  }

  /** The pending start is a line that opened an event. */
  lemma {:induction false} StartWasOpened(ms: seq<Marker>, n: nat)
    requires n <= |ms| && ScanTo(ms, n).Scan? && ScanTo(ms, n).start.Some?
    ensures var a := ScanTo(ms, n).start.value;
      && a < n && ms[a] == Begin(true) && ScanTo(ms, a).Scan? && ScanTo(ms, a).depth == 1
  {
    if ScanTo(ms, n - 1).start == ScanTo(ms, n).start {
      StartWasOpened(ms, n - 1);
    }
  }

  /** Until the event is closed, its start is the pending one and no range is added. */
  lemma {:induction false} PendingBetween(ms: seq<Marker>, a: nat, n: nat, e: nat)
    requires a < n <= e <= |ms| && ScanTo(ms, e).Scan? && ScanTo(ms, e).start == Some(a)
    ensures ScanTo(ms, n).Scan? && ScanTo(ms, n).start == Some(a) && ScanTo(ms, n).ranges == ScanTo(ms, e).ranges
    decreases e - n
  {
    if n < e {
      PendingBetween(ms, a, n + 1, e);
      var s := ScanTo(ms, n);
      if s.start != Some(a) {
        assert false;
      }
    }
  }

  // ------------------------------------------------------------ inside one event

  /** A step that changes only the depth. */
  predicate QuietAt(depth: nat, m: Marker) {
    match m
    case Begin(event) => !(depth == 1 && event)
    case End(event) => depth > 0 && !(depth == 2 && event)
    case Plain => true
  }

  function DepthStep(depth: nat, m: Marker): nat {
    match m
    case Begin(_) => depth + 1
    case End(_) => if depth > 0 then depth - 1 else 0
    case Plain => depth
  }

  /** Every one of these lines changes only the depth. */
  predicate Quiet(ms: seq<Marker>, depth: nat) {
    ms != [] ==> QuietAt(depth, ms[0]) && Quiet(ms[1..], DepthStep(depth, ms[0]))
  }

  /** The depth after lines that saturate at zero, as the rewriting loop counts it. */
  function DepthAfter(ms: seq<Marker>, depth: nat): nat {
    if ms == [] then depth else DepthAfter(ms[1..], DepthStep(depth, ms[0]))
  }

  lemma QuietScan(s: Scan, index: nat, m: Marker)
    requires s.Scan? && QuietAt(s.depth, m)
    ensures ScanLine(s, index, m) == Scan(DepthStep(s.depth, m), s.start, s.ranges)
  {
  }

  /** The lines of an event, between its markers, are quiet, and the scan ends them
      where it began. */
  lemma {:induction false} EventIsQuiet(ms: seq<Marker>, a: nat, n: nat, e: nat)
    requires a < n <= e <= |ms| && ScanTo(ms, e).Scan? && ScanTo(ms, e).start == Some(a)
    ensures ScanTo(ms, n).Scan? && Quiet(ms[n..e], ScanTo(ms, n).depth)
    ensures DepthAfter(ms[n..e], ScanTo(ms, n).depth) == ScanTo(ms, e).depth
    decreases e - n
  {
    PendingBetween(ms, a, n, e);
    if n < e {
      PendingBetween(ms, a, n + 1, e);
      EventIsQuiet(ms, a, n + 1, e);
      var m := ms[n];
      StepIsQuiet(ScanTo(ms, n), n, m, a);
      assert ms[n..e][0] == ms[n] && ms[n..e][1..] == ms[n + 1..e];
    } else {
      assert ms[n..e] == [];
    }
  }

  lemma StepIsQuiet(s: Scan, index: nat, m: Marker, a: nat)
    requires s.Scan? && s.start == Some(a) && a < index
    requires var t := ScanLine(s, index, m); t.Scan? && t.start == Some(a) && t.ranges == s.ranges
    ensures QuietAt(s.depth, m) && ScanLine(s, index, m).depth == DepthStep(s.depth, m)
  {
  }

  /** Quiet lines anywhere move only the depth. */
  lemma {:induction false} ScanQuiet(ms: seq<Marker>, n: nat, e: nat)
    requires n <= e <= |ms| && ScanTo(ms, n).Scan? && Quiet(ms[n..e], ScanTo(ms, n).depth)
    ensures var s := ScanTo(ms, n); ScanTo(ms, e) == Scan(DepthAfter(ms[n..e], s.depth), s.start, s.ranges)
    decreases e - n
  {
    if n < e {
      assert ms[n..e][0] == ms[n] && ms[n..e][1..] == ms[n + 1..e];
      QuietScan(ScanTo(ms, n), n, ms[n]);
      ScanQuiet(ms, n + 1, e);
    }
  }

  lemma {:induction false} ScanOfPrefix(a: seq<Marker>, b: seq<Marker>, n: nat)
    requires n <= |a| && n <= |b| && a[..n] == b[..n]
    ensures ScanTo(a, n) == ScanTo(b, n)
  {
    if n > 0 {
      assert a[..n - 1] == a[..n][..n - 1] && b[..n - 1] == b[..n][..n - 1];
      assert a[n - 1] == a[..n][n - 1] && b[n - 1] == b[..n][n - 1];
      ScanOfPrefix(a, b, n - 1);
    }
  }

  // ------------------------------------------------------------ the other events

  /** One event keeps its start, and everything from its end on moves. */
  predicate MovedRanges(before: seq<Range>, after: seq<Range>, q: nat, delta: int) {
    && |before| == |after|
    && forall i :: 0 <= i < |before| ==>
         && after[i].start == before[i].start + (if i <= q then 0 else delta)
         && after[i].end == before[i].end + (if i < q then 0 else delta)
  }

  /** Two scans that agree up to the moved positions. */
  predicate MovedScan(s: Scan, t: Scan, q: nat, delta: int) {
    && s.Scan? == t.Scan?
    && (s.Scan? ==>
          && s.depth == t.depth && s.start.Some? == t.start.Some?
          && (s.start.Some? ==> t.start.value == s.start.value + delta)
          && q < |s.ranges| && MovedRanges(s.ranges, t.ranges, q, delta))
  }

  lemma MovedStep(s: Scan, t: Scan, q: nat, delta: int, i: nat, j: nat, m: Marker)
    requires MovedScan(s, t, q, delta) && j == i + delta
    ensures MovedScan(ScanLine(s, i, m), ScanLine(t, j, m), q, delta)
  {
  }

  /** After the edited event, scans of the same lines agree up to the move. */
  lemma {:induction false} MovedTail(a: seq<Marker>, b: seq<Marker>, i: nat, j: nat, n: nat, q: nat, delta: int)
    requires i <= n <= |a| && j == i + delta && n + delta <= |b| && a[i..n] == b[j..n + delta]
    requires MovedScan(ScanTo(a, i), ScanTo(b, j), q, delta)
    ensures MovedScan(ScanTo(a, n), ScanTo(b, n + delta), q, delta)
    decreases n - i
  {
    if i < n {
      assert a[i] == a[i..n][0] == b[j];
      assert a[i + 1..n] == a[i..n][1..] && b[j + 1..n + delta] == b[j..n + delta][1..];
      MovedStep(ScanTo(a, i), ScanTo(b, j), q, delta, i, j, a[i]);
      MovedTail(a, b, i + 1, j + 1, n, q, delta);
    }
  }

  /** The depth inside a top-level event. */
  const INSIDE: nat := 2

  /** Lines that may stand inside an event: each changes only the depth, and together
      they leave it as it was. */
  predicate Balanced(ms: seq<Marker>) {
    Quiet(ms, INSIDE) && DepthAfter(ms, INSIDE) == INSIDE
  }

  /** A listed range lies within the lines, its inside is balanced, and the scan of
      the inside leaves everything as it was. */
  lemma RangeFacts(ms: seq<Marker>, q: nat)
    requires EventRanges(ms).Ok? && q < |EventRanges(ms).value|
    ensures var r := EventRanges(ms).value[q];
      && r.start < r.end < |ms| && ms[r.start] == Begin(true) && ms[r.end] == End(true)
      && Balanced(ms[r.start + 1..r.end])
      && ScanTo(ms, r.end) == ScanTo(ms, r.start + 1)
      && OpenAt(ScanTo(ms, r.end), q, r.start)
  {
    var r := EventRanges(ms).value[q];
    RangesAreClosed(ms, |ms|, q);
    StartWasOpened(ms, r.end);
    PendingBetween(ms, r.start, r.start + 1, r.end);
    EventIsQuiet(ms, r.start, r.start + 1, r.end);
  }

  /** The scan inside the event that will be the `q`-th and began at `start`. */
  predicate OpenAt(s: Scan, q: nat, start: nat) {
    s.Scan? && s.depth == INSIDE && s.start == Some(start) && |s.ranges| == q
  }

  lemma ScanOfInner(a: seq<Marker>, q: nat, inner: seq<Marker>, tail: seq<Marker>, s: nat)
    requires s < |a| && OpenAt(ScanTo(a, s + 1), q, s) && Balanced(inner)
    ensures ScanTo(a[..s + 1] + inner + tail, s + 1 + |inner|) == ScanTo(a, s + 1)
  {
    var b := a[..s + 1] + inner + tail;
    assert b[..s + 1] == a[..s + 1];
    ScanOfPrefix(a, b, s + 1);
    assert b[s + 1..s + 1 + |inner|] == inner;
    ScanQuiet(b, s + 1, s + 1 + |inner|);
  }

  /** Replacing the inside of one event by balanced lines moves every later event and
      changes no other range. */
  lemma RangesAfterReplacing(a: seq<Marker>, q: nat, inner: seq<Marker>, r: Range)
    requires EventRanges(a).Ok? && q < |EventRanges(a).value| && EventRanges(a).value[q] == r
    requires r.start < r.end < |a| && Balanced(inner)
    ensures var b := a[..r.start + 1] + inner + a[r.end..];
      EventRanges(b).Ok? && MovedRanges(EventRanges(a).value, EventRanges(b).value, q, |inner| - (r.end - r.start - 1))
  {
    var s, e := r.start, r.end;
    RangeFacts(a, q);
    var b := a[..s + 1] + inner + a[e..];
    var mid := s + 1 + |inner|;
    ScanOfInner(a, q, inner, a[e..], s);
    assert b[mid] == a[e];
    ClosesAlike(ScanTo(a, e), q, s, e, mid);
    assert a[e + 1..|a|] == b[mid + 1..|a| + (mid - e)];
    MovedTail(a, b, e + 1, mid + 1, |a|, q, mid - e);
  }

  lemma ClosesAlike(s: Scan, q: nat, start: nat, e: nat, mid: nat)
    requires OpenAt(s, q, start)
    ensures MovedScan(ScanLine(s, e, End(true)), ScanLine(s, mid, End(true)), q, mid - e)
  {
  }
}
