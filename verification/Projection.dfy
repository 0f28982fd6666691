/** Paging a series with its overrides over a window. */
module Projection {
  import opened Basics
  import opened Zones
  import opened Rules
  import opened Schedules
  import opened SlotOrder
  import opened Series
  import opened Engine
  import opened EventSets

  /** One line of a page; a standalone event has no key. */
  datatype Entry = Entry(key: Option<Stamp>, fields: Fields, isException: bool)

  datatype Page = Page(entries: seq<Entry>, hasMore: bool)

  // ------------------------------------------------------------ sorting

  /** Pages sort by the text of the start and then of the key. `order` ranks stamps
      as their texts compare. */
  predicate KeyBefore(order: Stamp -> int, a: Option<Stamp>, b: Option<Stamp>) {
    b.Some? && (a.None? || order(a.value) < order(b.value))
  }

  predicate Before(order: Stamp -> int, a: Entry, b: Entry) {
    || order(a.fields.start) < order(b.fields.start)
    || (order(a.fields.start) == order(b.fields.start) && KeyBefore(order, a.key, b.key))
  }

  /** What text order guarantees: dates, and instants a whole number of seconds
      apart, compare as times do. */
  ghost predicate TextOrder(order: Stamp -> int) {
    && (forall a, b :: a < b ==> order(Date(a)) < order(Date(b)))
    && (forall t, u, n: nat :: 1 <= n && u == t + Seconds(n) ==> order(Instant(t)) < order(Instant(u)))
  }

  /** The order of times themselves meets it. */
  lemma TimesAreInTextOrder()
    ensures TextOrder(stamp => Boundary(stamp))
  {
  }

  /** Stable insertion: after every entry that does not come later. */
  function Insert(order: Stamp -> int, entries: seq<Entry>, e: Entry): seq<Entry> {
    if entries == [] then [e]
    else if Before(order, e, entries[0]) then [e] + entries
    else [entries[0]] + Insert(order, entries[1..], e)
  }

  function InsertAll(order: Stamp -> int, entries: seq<Entry>, more: seq<Entry>): seq<Entry>
    decreases more
  {
    if more == [] then entries else InsertAll(order, Insert(order, entries, more[0]), more[1..])
  }

  function Sort(order: Stamp -> int, entries: seq<Entry>): seq<Entry> {
    InsertAll(order, [], entries)
  }

  ghost predicate Sorted(order: Stamp -> int, entries: seq<Entry>) {
    forall i, j :: 0 <= i < j < |entries| ==> !Before(order, entries[j], entries[i])
  }

  lemma {:induction false} InsertMembers(order: Stamp -> int, entries: seq<Entry>, e: Entry)
    ensures multiset(Insert(order, entries, e)) == multiset(entries) + multiset{e}
  {
    if entries != [] {
      assert entries == [entries[0]] + entries[1..];
      InsertMembers(order, entries[1..], e);
    }
  }

  lemma {:induction false} InsertSorts(order: Stamp -> int, entries: seq<Entry>, e: Entry)
    requires Sorted(order, entries)
    ensures Sorted(order, Insert(order, entries, e))
  {
    if entries != [] && !Before(order, e, entries[0]) {
      InsertSorts(order, entries[1..], e);
      InsertMembers(order, entries[1..], e);
      PrependSortedEntry(order, entries[0], Insert(order, entries[1..], e), entries[1..], e);
    }
  }

  lemma PrependSortedEntry(order: Stamp -> int, first: Entry, rest: seq<Entry>, others: seq<Entry>, e: Entry)
    requires Sorted(order, rest) && multiset(rest) == multiset(others) + multiset{e}
    requires !Before(order, e, first) && forall i :: 0 <= i < |others| ==> !Before(order, others[i], first)
    ensures Sorted(order, [first] + rest)
  {
    forall j | 0 <= j < |rest| ensures !Before(order, rest[j], first) {
      assert rest[j] in multiset(rest);
    }
  }

  /** `Sort` sorts: the result is ordered and has the same entries. */
  lemma {:induction false} InsertAllSorts(order: Stamp -> int, entries: seq<Entry>, more: seq<Entry>)
    requires Sorted(order, entries)
    ensures Sorted(order, InsertAll(order, entries, more))
    ensures multiset(InsertAll(order, entries, more)) == multiset(entries) + multiset(more)
    decreases more
  {
    if more != [] {
      InsertSorts(order, entries, more[0]);
      InsertMembers(order, entries, more[0]);
      InsertAllSorts(order, Insert(order, entries, more[0]), more[1..]);
      assert more == [more[0]] + more[1..];
    }
  }

  // ------------------------------------------------------------ prefixes of a sorted list

  /** The first n entries after an insertion depend only on the first n before it. */
  lemma {:induction false} FirstOfInsert(order: Stamp -> int, n: nat, entries: seq<Entry>, e: Entry)
    ensures First(n, Insert(order, entries, e)) == First(n, Insert(order, First(n, entries), e))
  {
    if entries != [] && !Before(order, e, entries[0]) && n > 0 {
      FirstOfInsert(order, n - 1, entries[1..], e);
      assert First(n, entries) == [entries[0]] + First(n - 1, entries[1..]);
      assert First(n, entries)[1..] == First(n - 1, entries[1..]);
    }
  }

  lemma {:induction false} FirstOfInsertAll(order: Stamp -> int, n: nat, a: seq<Entry>, b: seq<Entry>, more: seq<Entry>)
    requires First(n, a) == First(n, b)
    ensures First(n, InsertAll(order, a, more)) == First(n, InsertAll(order, b, more))
    decreases more
  {
    if more != [] {
      FirstOfInsert(order, n, a, more[0]);
      FirstOfInsert(order, n, b, more[0]);
      FirstOfInsertAll(order, n, Insert(order, a, more[0]), Insert(order, b, more[0]), more[1..]);
    }
  }

  lemma {:induction false} InsertLast(order: Stamp -> int, entries: seq<Entry>, e: Entry)
    requires forall i :: 0 <= i < |entries| ==> !Before(order, e, entries[i])
    ensures Insert(order, entries, e) == entries + [e]
  {
    if entries != [] {
      InsertLast(order, entries[1..], e);
      assert entries == [entries[0]] + entries[1..];
    }
  }

  lemma {:induction false} InsertAllAppend(order: Stamp -> int, entries: seq<Entry>, a: seq<Entry>, b: seq<Entry>)
    ensures InsertAll(order, entries, a + b) == InsertAll(order, InsertAll(order, entries, a), b)
    decreases a
  {
    if a == [] {
      assert a + b == b;
    } else {
      assert (a + b)[1..] == a[1..] + b;
      InsertAllAppend(order, Insert(order, entries, a[0]), a[1..], b);
    }
  }

  /** A list that is already sorted is its own sort. */
  lemma {:induction false} SortOfSorted(order: Stamp -> int, entries: seq<Entry>)
    requires Sorted(order, entries)
    ensures Sort(order, entries) == entries
  {
    if entries != [] {
      var n := |entries| - 1;
      var init := entries[..n];
      assert entries == init + [entries[n]];
      SortOfSorted(order, init);
      InsertAllAppend(order, [], init, [entries[n]]);
      InsertLast(order, init, entries[n]);
      assert [entries[n]][1..] == [];
      assert InsertAll(order, init, [entries[n]]) == InsertAll(order, Insert(order, init, entries[n]), []);
    }
  }

  // ------------------------------------------------------------ overridden positions

  /** Entries whose key is not overridden. */
  function Kept(entries: seq<Entry>, keys: set<Stamp>): seq<Entry> {
    if entries == [] then []
    else if entries[0].key.Some? && entries[0].key.value in keys then Kept(entries[1..], keys)
    else [entries[0]] + Kept(entries[1..], keys)
  }

  predicate DistinctEntries(entries: seq<Entry>) {
    && (forall i :: 0 <= i < |entries| ==> entries[i].key.Some?)
    && (forall i, j :: 0 <= i < j < |entries| ==> entries[i].key != entries[j].key)
  }

  lemma {:induction false} KeptAppend(a: seq<Entry>, b: seq<Entry>, keys: set<Stamp>)
    ensures Kept(a + b, keys) == Kept(a, keys) + Kept(b, keys)
  {
    if a == [] {
      assert a + b == b;
    } else {
      assert (a + b)[1..] == a[1..] + b;
      KeptAppend(a[1..], b, keys);
    }
  }

  lemma {:induction false} KeptIgnoresAbsent(entries: seq<Entry>, keys: set<Stamp>, key: Stamp)
    requires forall i :: 0 <= i < |entries| ==> entries[i].key != Some(key)
    ensures Kept(entries, keys - {key}) == Kept(entries, keys)
  {
    if entries != [] {
      KeptIgnoresAbsent(entries[1..], keys, key);
    }
  }

  /** Pigeonhole: with distinct keys, overriding removes at most one entry per key. */
  lemma {:induction false} KeptCount(entries: seq<Entry>, keys: set<Stamp>)
    requires DistinctEntries(entries)
    ensures |entries| <= |Kept(entries, keys)| + |keys|
  {
    if entries != [] {
      var key := entries[0].key.value;
      if key in keys {
        KeptIgnoresAbsent(entries[1..], keys, key);
        KeptCount(entries[1..], keys - {key});
      } else {
        KeptCount(entries[1..], keys);
      }
    }
  }

  lemma {:induction false} KeysCount(overrides: seq<Override>)
    ensures |KeysOf(overrides)| <= |overrides|
  {
    if overrides != [] {
      KeysCons(overrides);
      KeysCount(overrides[1..]);
    }
  }

  lemma {:induction false} KeptSorted(order: Stamp -> int, entries: seq<Entry>, keys: set<Stamp>)
    requires Sorted(order, entries)
    ensures Sorted(order, Kept(entries, keys))
    ensures forall e :: e in Kept(entries, keys) ==> e in entries
  {
    if entries != [] {
      KeptSorted(order, entries[1..], keys);
      var rest := Kept(entries[1..], keys);
      forall j | 0 <= j < |rest| ensures !Before(order, rest[j], entries[0]) {
        assert rest[j] in rest;
        var i :| 0 <= i < |entries[1..]| && entries[1..][i] == rest[j];
        assert entries[i + 1] == rest[j];
      }
    }
  }

  // ------------------------------------------------------------ the full list

  /** The fields of a generated occurrence. */
  function OccurrenceFields(s: Schedule, fields: Fields, time: int): Fields {
    fields.(start := FormatStamp(fields.allDay, time), end := FormatStamp(fields.allDay, time + s.duration))
  }

  /** Empty texts count as absent. */
  function Normalized(fields: Fields): Fields {
    fields.(
      description := if fields.description == Some("") then None else fields.description,
      location := if fields.location == Some("") then None else fields.location)
  }

  function GeneratedEntry(s: Schedule, fields: Fields, slot: nat): Entry
    requires SlotsOk(s) && Position(s, slot).Some?
  {
    var f := OccurrenceFields(s, fields, Position(s, slot).value);
    Entry(Some(f.start), Normalized(f), false)
  }

  function GeneratedEntries(s: Schedule, fields: Fields, slots: seq<nat>): (r: seq<Entry>)
    requires SlotsOk(s) && forall i :: 0 <= i < |slots| ==> Position(s, slots[i]).Some?
    ensures |r| == |slots| && forall i :: 0 <= i < |r| ==> r[i] == GeneratedEntry(s, fields, slots[i])
  {
    if slots == [] then []
    else GeneratedEntries(s, fields, slots[..|slots| - 1]) + [GeneratedEntry(s, fields, slots[|slots| - 1])]
  }

  /** Half-open overlap; an empty interval counts where it lies. */
  predicate FieldsOverlap(fields: Fields, lower: int, upper: int) {
    var start, end := Boundary(fields.start), Boundary(fields.end);
    start < upper && (lower < end || (start == end && lower <= start))
  }

  /** Live overrides that overlap the window, wherever their original slot lies. */
  function LiveEntries(overrides: seq<Override>, lower: int, upper: int): seq<Entry> {
    if overrides == [] then []
    else
      var n := |overrides| - 1;
      var init := LiveEntries(overrides[..n], lower, upper);
      var o := overrides[n];
      if o.event.Some? && FieldsOverlap(o.event.value.fields, lower, upper)
      then init + [Entry(Some(o.originalStart), Normalized(o.event.value.fields), true)]
      else init
  }

  /** Everything the window holds: generated positions without an override, and
      live overrides. */
  ghost function SeriesEntries(s: Schedule, es: EventSet, lower: int, upper: int): seq<Entry>
    requires Valid(s)
  {
    MatchesArePositions(s, lower, upper);
    Kept(GeneratedEntries(s, es.event.fields, AllMatches(s, lower, upper)), KeysOf(es.overrides))
      + LiveEntries(es.overrides, lower, upper)
  }

  ghost function AllEntries(es: EventSet, lower: int, upper: int): seq<Entry>
    requires SetOk(es) && (es.event.kind.Series? ==> FromEvent(es.event).Ok?)
  {
    if es.event.kind.Series? then SeriesEntries(ScheduleOf(es.event), es, lower, upper)
    else if FieldsOverlap(es.event.fields, lower, upper) then [Entry(None, Normalized(es.event.fields), false)]
    else []
  }

  lemma MatchesArePositions(s: Schedule, lower: int, upper: int)
    requires Valid(s)
    ensures var m := AllMatches(s, lower, upper); forall i :: 0 <= i < |m| ==> Position(s, m[i]).Some?
  {
    var m := AllMatches(s, lower, upper);
    AllMatchesComplete(s, lower, upper);
    assert forall i :: 0 <= i < |m| ==> m[i] in m;
  }

  // ------------------------------------------------------------ generated entries are in text order

  /** Positions of a schedule lie whole seconds apart. */
  lemma WholeSecondsApart(s: Schedule, j: nat, k: nat) returns (n: nat)
    requires Valid(s) && !s.allDay && j < k && Position(s, j).Some? && Position(s, k).Some?
    ensures 1 <= n && Position(s, k).value == Position(s, j).value + Seconds(n)
  {
    PositionOrder(s, j, k);
    PositionFacts(s, j);
    PositionFacts(s, k);
    var t, u := Position(s, j).value, Position(s, k).value;
    var a, b := Slot(s, j).date.value, Slot(s, k).date.value;
    AtDateNear(s, a);
    AtDateNear(s, b);
    assert t == Midnight(a) + s.timeOfDay - Seconds(s.zone.offset(t));
    assert u == Midnight(b) + s.timeOfDay - Seconds(s.zone.offset(u));
    n := 86_400 * (b - a) + s.zone.offset(t) - s.zone.offset(u);
  }

  lemma GeneratedOrder(order: Stamp -> int, s: Schedule, fields: Fields, j: nat, k: nat)
    requires TextOrder(order) && Valid(s) && fields.allDay == s.allDay
    requires j < k && Position(s, j).Some? && Position(s, k).Some?
    ensures order(GeneratedEntry(s, fields, j).fields.start) < order(GeneratedEntry(s, fields, k).fields.start)
    ensures GeneratedEntry(s, fields, j).key != GeneratedEntry(s, fields, k).key
  {
    if s.allDay {
      PositionFacts(s, j);
      PositionFacts(s, k);
      DateOrder(s, j, k);
      AtDateNear(s, Slot(s, j).date.value);
      AtDateNear(s, Slot(s, k).date.value);
    } else {
      var n := WholeSecondsApart(s, j, k);
    }
  }

  lemma GeneratedSorted(order: Stamp -> int, s: Schedule, fields: Fields, slots: seq<nat>)
    requires TextOrder(order) && Valid(s) && fields.allDay == s.allDay && StrictlySorted(slots)
    requires forall i :: 0 <= i < |slots| ==> Position(s, slots[i]).Some?
    ensures Sorted(order, GeneratedEntries(s, fields, slots)) && DistinctEntries(GeneratedEntries(s, fields, slots))
  {
    var g := GeneratedEntries(s, fields, slots);
    forall i, j | 0 <= i < j < |g| ensures !Before(order, g[j], g[i]) && g[i].key != g[j].key {
      GeneratedOrder(order, s, fields, slots[i], slots[j]);
    }
  }

  // ------------------------------------------------------------ pages are exact

  /** A page is the beginning of the sorted full list and says whether there is more. */
  ghost predicate ExactPage(order: Stamp -> int, all: seq<Entry>, limit: nat, page: Page) {
    page.entries == First(limit, Sort(order, all)) && page.hasMore == (|all| > limit)
  }

  /** The order of a page: by start and, at the same start, by key, with no key first. */
  ghost predicate InOrder(order: Stamp -> int, entries: seq<Entry>) {
    forall i, j :: 0 <= i < j < |entries| ==>
      || order(entries[i].fields.start) < order(entries[j].fields.start)
      || (&& order(entries[i].fields.start) == order(entries[j].fields.start)
          && (entries[i].key.None? || (entries[j].key.Some? && order(entries[i].key.value) <= order(entries[j].key.value))))
  }

  /** A page holds the first entries of the list in order: with the rest of them, which is
      there exactly when the page says that there is more, it is the whole list. */
  lemma {:induction false} PageIsFirst(order: Stamp -> int, all: seq<Entry>, limit: nat, page: Page) returns (rest: seq<Entry>)
    requires ExactPage(order, all, limit, page)
    ensures multiset(page.entries + rest) == multiset(all) && InOrder(order, page.entries + rest)
    ensures (|page.entries| == limit || rest == []) && |page.entries| <= limit && (page.hasMore <==> rest != [])
  {
    var sorted := Sort(order, all);
    InsertAllSorts(order, [], all);
    rest := sorted[|page.entries|..];
    assert page.entries + rest == sorted;
    assert |multiset(sorted)| == |multiset(all)|;
  }

  /** The list that a truncated expansion yields, sorted and truncated, is exact:
      `limit` plus the number of overrides is enough, by the pigeonhole count. */
  lemma TruncationIsExact(order: Stamp -> int, slots: seq<Entry>, keys: set<Stamp>, live: seq<Entry>, limit: nat, budget: nat)
    requires Sorted(order, slots) && DistinctEntries(slots) && limit + |keys| <= budget
    ensures var values := Kept(First(budget, slots), keys) + live;
      ExactPage(order, Kept(slots, keys) + live, limit,
                Page(First(limit, Sort(order, values)), |slots| > budget || |values| > limit))
  {
    if |slots| > budget {
      var head, tail := slots[..budget], slots[budget..];
      var k1, k2 := Kept(head, keys), Kept(tail, keys);
      assert slots == head + tail;
      KeptAppend(head, tail, keys);
      KeptCount(head, keys);
      KeptCount(slots[..budget + 1], keys);
      PrefixKept(slots, budget + 1, keys);
      KeptSorted(order, slots, keys);
      KeptSorted(order, head, keys);
      SortOfSorted(order, k1);
      SortOfSorted(order, k1 + k2);
      InsertAllAppend(order, [], k1, live);
      InsertAllAppend(order, [], k1 + k2, live);
      assert First(limit, k1) == First(limit, k1 + k2);
      FirstOfInsertAll(order, limit, k1, k1 + k2, live);
    }
  }

  lemma PrefixKept(slots: seq<Entry>, n: nat, keys: set<Stamp>)
    requires n <= |slots|
    ensures |Kept(slots[..n], keys)| <= |Kept(slots, keys)|
  {
    assert slots == slots[..n] + slots[n..];
    KeptAppend(slots[..n], slots[n..], keys);
  }

  lemma GeneratedPrefix(s: Schedule, fields: Fields, slots: seq<nat>, n: nat)
    requires SlotsOk(s) && forall i :: 0 <= i < |slots| ==> Position(s, slots[i]).Some?
    ensures GeneratedEntries(s, fields, First(n, slots)) == First(n, GeneratedEntries(s, fields, slots))
  {
    var g := GeneratedEntries(s, fields, slots);
    assert forall i :: 0 <= i < |First(n, slots)| ==> First(n, slots)[i] == slots[i];
  }

  // ------------------------------------------------------------ projecting

  /** Window validity: positive, at most 366 days, and a limit of 1 to 2000. */
  predicate WindowOk(start: Stamp, end: Stamp, limit: nat) {
    0 < Boundary(end) - Boundary(start) <= 366 * 86_400_000_000_000 && 1 <= limit <= 2000
  }

  method Project(es: EventSet, start: Stamp, end: Stamp, limit: nat, order: Stamp -> int) returns (r: Result<Page>)
    requires SetOk(es) && TextOrder(order)
    ensures r.Ok? ==>
      && WindowOk(start, end, limit) && ValidSet(es) && (es.event.kind.Series? ==> FromEvent(es.event).Ok?)
      && ExactPage(order, AllEntries(es, Boundary(start), Boundary(end)), limit, r.value)
    ensures r.Err? ==>
      || !WindowOk(start, end, limit) || !ValidSet(es)
      || (es.event.kind.Series?
          && (ArgumentsOk(es.event, start, end, limit + |es.overrides|) ==>
                Blocked(ScheduleOf(es.event), es.event.fields, Boundary(start), Boundary(end))))
  {
    if !WindowOk(start, end, limit) {
      return Err;
    }
    var valid := Validate(es);
    if !valid {
      return Err;
    }
    var lower, upper := Boundary(start), Boundary(end);
    var values: seq<Entry> := [];
    var hasMore := false;
    if es.event.kind.Series? {
      var budget := limit + |es.overrides|;
      if budget > 10_000 {
        return Err;
      }
      var expanded := Expand(es.event, start, end, budget);
      if expanded.Err? {
        return Err;
      }
      hasMore := expanded.value.hasMore;
      var kept := KeepGenerated(expanded.value.occurrences, es.overrides);
      var live := CollectLive(es.overrides, lower, upper);
      values := kept + live;
      SeriesPage(order, es, lower, upper, limit, expanded.value, kept, live);
    } else if FieldsOverlap(es.event.fields, lower, upper) {
      values := [Entry(None, Normalized(es.event.fields), false)];
    }
    var sorted := Sort(order, values);
    hasMore := hasMore || |values| > limit;
    return Ok(Page(First(limit, sorted), hasMore));
  }

  /** The entries of an expansion, as a page lists them. */
  function ExpansionEntries(occurrences: seq<Generated>): (r: seq<Entry>)
    ensures |r| == |occurrences|
    ensures forall i :: 0 <= i < |r| ==>
      r[i] == Entry(Some(occurrences[i].originalStart), Normalized(occurrences[i].fields), false)
  {
    if occurrences == [] then []
    else
      var g := occurrences[|occurrences| - 1];
      ExpansionEntries(occurrences[..|occurrences| - 1]) + [Entry(Some(g.originalStart), Normalized(g.fields), false)]
  }

  method KeepGenerated(occurrences: seq<Generated>, overrides: seq<Override>) returns (values: seq<Entry>)
    ensures values == Kept(ExpansionEntries(occurrences), KeysOf(overrides))
  {
    values := [];
    var all := ExpansionEntries(occurrences);
    for i := 0 to |occurrences|
      invariant values == Kept(all[..i], KeysOf(overrides))
    {
      assert all[..i + 1] == all[..i] + [all[i]];
      KeptAppend(all[..i], [all[i]], KeysOf(overrides));
      assert [all[i]][1..] == [];
      var overridden := exists j :: 0 <= j < |overrides| && overrides[j].originalStart == occurrences[i].originalStart;
      assert overridden <==> occurrences[i].originalStart in KeysOf(overrides);
      if !overridden {
        values := values + [Entry(Some(occurrences[i].originalStart), Normalized(occurrences[i].fields), false)];
      }
    }
    assert all[..|occurrences|] == all;
  }

  method CollectLive(overrides: seq<Override>, lower: int, upper: int) returns (values: seq<Entry>)
    ensures values == LiveEntries(overrides, lower, upper)
  {
    values := [];
    for i := 0 to |overrides|
      invariant values == LiveEntries(overrides[..i], lower, upper)
    {
      assert overrides[..i + 1][..i] == overrides[..i];
      if overrides[i].event.Some? && FieldsOverlap(overrides[i].event.value.fields, lower, upper) {
        values := values + [Entry(Some(overrides[i].originalStart), Normalized(overrides[i].event.value.fields), true)];
      }
    }
    assert overrides[..|overrides|] == overrides;
  }

  /** The expansion's entries are the generated entries of the first slots. */
  lemma ExpansionIsPrefix(s: Schedule, fields: Fields, lower: int, upper: int, limit: nat, e: Expansion)
    requires Valid(s) && ExactExpansion(s, fields, lower, upper, limit, e)
    ensures forall i :: 0 <= i < |AllMatches(s, lower, upper)| ==> Position(s, AllMatches(s, lower, upper)[i]).Some?
    ensures ExpansionEntries(e.occurrences) == First(limit, GeneratedEntries(s, fields, AllMatches(s, lower, upper)))
  {
    var m := AllMatches(s, lower, upper);
    MatchesArePositions(s, lower, upper);
    GeneratedPrefix(s, fields, m, limit);
    var page := First(limit, m);
    forall i | 0 <= i < |page|
      ensures ExpansionEntries(e.occurrences)[i] == GeneratedEntry(s, fields, page[i])
    {
      assert GeneratedAt(s, fields, page[i], e.occurrences[i]);
    }
  }

  lemma SeriesPage(order: Stamp -> int, es: EventSet, lower: int, upper: int, limit: nat, e: Expansion,
                   kept: seq<Entry>, live: seq<Entry>)
    requires SetOk(es) && TextOrder(order) && es.event.kind.Series? && FromEvent(es.event).Ok?
    requires ExactExpansion(ScheduleOf(es.event), es.event.fields, lower, upper, limit + |es.overrides|, e)
    requires kept == Kept(ExpansionEntries(e.occurrences), KeysOf(es.overrides))
    requires live == LiveEntries(es.overrides, lower, upper)
    ensures ExactPage(order, AllEntries(es, lower, upper), limit,
                      Page(First(limit, Sort(order, kept + live)), e.hasMore || |kept + live| > limit))
  {
    var s, fields := ScheduleOf(es.event), es.event.fields;
    var m := AllMatches(s, lower, upper);
    ExpansionIsPrefix(s, fields, lower, upper, limit + |es.overrides|, e);
    AllMatchesComplete(s, lower, upper);
    GeneratedSorted(order, s, fields, m);
    KeysCount(es.overrides);
    var slots := GeneratedEntries(s, fields, m);
    PageOfSlots(order, slots, KeysOf(es.overrides), live, limit, limit + |es.overrides|, e, kept);
  }

  lemma PageOfSlots(order: Stamp -> int, slots: seq<Entry>, keys: set<Stamp>, live: seq<Entry>, limit: nat, budget: nat,
                    e: Expansion, kept: seq<Entry>)
    requires Sorted(order, slots) && DistinctEntries(slots) && limit + |keys| <= budget
    requires kept == Kept(First(budget, slots), keys) && e.hasMore == (|slots| > budget)
    ensures ExactPage(order, Kept(slots, keys) + live, limit,
                      Page(First(limit, Sort(order, kept + live)), e.hasMore || |kept + live| > limit))
  {
    TruncationIsExact(order, slots, keys, live, limit, budget);
  }
}
