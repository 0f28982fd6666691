/** JSCalendar patches (section 1.4.9 of RFC 8984): pointers into a JSON tree, the
    overlap check, and independence of the order in which entries are applied. */
module JsPatch {
  import opened Basics
  import opened Splitting

  /** A JSON value; numbers, strings, booleans and arrays have no members to name. */
  datatype Json = Null | Scalar(text: string) | Object(fields: map<string, Json>)

  // ------------------------------------------------------------ pointers

  /** Replace every pair of a tilde and `digit`, from left to right. */
  function ReplacePair(s: string, digit: char, with: char): string {
    if s == "" then ""
    else if |s| > 1 && s[0] == '~' && s[1] == digit then [with] + ReplacePair(s[2..], digit, with)
    else [s[0]] + ReplacePair(s[1..], digit, with)
  }

  function Decode(segment: string): string {
    ReplacePair(ReplacePair(segment, '1', '/'), '0', '~')
  }

  function DecodeAll(segments: seq<string>): (r: seq<string>)
    ensures |r| == |segments| && forall i :: 0 <= i < |r| ==> r[i] == Decode(segments[i])
  {
    seq(|segments|, i requires 0 <= i < |segments| => Decode(segments[i]))
  }

  /** The member names along a pointer. */
  function PathOf(pointer: string): (r: seq<string>)
    ensures r != []
  {
    DecodeAll(Split(pointer, '/'))
  }

  // ------------------------------------------------------------ applying

  datatype Entry = Entry(path: seq<string>, value: Json)

  /** Set or, for null, remove the member at the end of a path; every member on the way
      must be there already, and what holds the last one must be an object. */
  function ApplyAt(v: Json, path: seq<string>, value: Json): Result<Json>
    requires path != []
  {
    if !v.Object? then Err
    else if |path| == 1 then
      Ok(Object(if value.Null? then v.fields - {path[0]} else v.fields[path[0] := value]))
    else if path[0] !in v.fields then Err
    else
      match ApplyAt(v.fields[path[0]], path[1..], value)
      case Err => Err
      case Ok(inner) => Ok(Object(v.fields[path[0] := inner]))
  }

  function ApplyEntry(v: Result<Json>, e: Entry): Result<Json>
    requires e.path != []
  {
    match v
    case Err => Err
    case Ok(value) => ApplyAt(value, e.path, e.value)
  }

  predicate EntriesOk(es: seq<Entry>) {
    forall i :: 0 <= i < |es| ==> es[i].path != []
  }

  function ApplyAll(v: Result<Json>, es: seq<Entry>): Result<Json>
    requires EntriesOk(es)
    decreases |es|
  {
    if es == [] then v else ApplyAll(ApplyEntry(v, es[0]), es[1..])
  }

  /** A patch as it is written: pointers and values. */
  datatype Patch = Patch(pointers: seq<string>, values: seq<Json>)

  predicate PatchOk(p: Patch) {
    |p.pointers| == |p.values| && forall i, j :: 0 <= i < j < |p.pointers| ==> p.pointers[i] != p.pointers[j]
  }

  predicate StartsWith(s: string, prefix: string) {
    |prefix| <= |s| && s[..|prefix|] == prefix
  }

  predicate Overlaps(p: Patch) {
    exists i, j :: 0 <= i < |p.pointers| && 0 <= j < |p.pointers|
      && p.pointers[j] != p.pointers[i] && StartsWith(p.pointers[j], p.pointers[i] + "/")
  }

  function Entries(p: Patch): (r: seq<Entry>)
    requires |p.pointers| == |p.values|
    ensures |r| == |p.pointers| && EntriesOk(r)
    ensures forall i :: 0 <= i < |r| ==> r[i] == Entry(PathOf(p.pointers[i]), p.values[i])
  {
    seq(|p.pointers|, i requires 0 <= i < |p.pointers| => Entry(PathOf(p.pointers[i]), p.values[i]))
  }

  /** The effective value: overlapping patches are refused, others are applied. */
  function Effective(v: Json, p: Patch): Result<Json>
    requires |p.pointers| == |p.values|
  {
    if Overlaps(p) then Err else ApplyAll(Ok(v), Entries(p))
  }

  method CheckOverlap(p: Patch) returns (overlaps: bool)
    ensures overlaps == Overlaps(p)
  {
    var i := 0;
    while i < |p.pointers|
      invariant 0 <= i <= |p.pointers|
      invariant forall k, j :: 0 <= k < i && 0 <= j < |p.pointers| && p.pointers[j] != p.pointers[k] ==>
        !StartsWith(p.pointers[j], p.pointers[k] + "/")
    {
      var j := 0;
      while j < |p.pointers|
        invariant 0 <= j <= |p.pointers|
        invariant forall m :: 0 <= m < j && p.pointers[m] != p.pointers[i] ==> !StartsWith(p.pointers[m], p.pointers[i] + "/")
      {
        if p.pointers[j] != p.pointers[i] && StartsWith(p.pointers[j], p.pointers[i] + "/") {
          return true;
        }
        j := j + 1;
      }
      i := i + 1;
    }
    return false;
  }

  method ApplyPatch(v: Json, p: Patch) returns (r: Result<Json>)
    requires |p.pointers| == |p.values|
    ensures r == Effective(v, p)
  {
    var overlaps := CheckOverlap(p);
    if overlaps {
      return Err;
    }
    ghost var es := Entries(p);
    r := Ok(v);
    var i := 0;
    while i < |p.pointers| && r.Ok?
      invariant 0 <= i <= |p.pointers|
      invariant ApplyAll(r, es[i..]) == ApplyAll(Ok(v), es)
    {
      assert es[i..][1..] == es[i + 1..];
      r := ApplyAt(r.value, PathOf(p.pointers[i]), p.values[i]);
      i := i + 1;
    }
    if r.Err? {
      ErrorStays(es[i..]);
    }
  }

  lemma {:induction false} ErrorStays(es: seq<Entry>)
    requires EntriesOk(es)
    ensures ApplyAll(Err, es) == Err
  {
    if es != [] {
      ErrorStays(es[1..]);
    }
  }

  // ------------------------------------------------------------ order

  predicate Prefix(a: seq<string>, b: seq<string>) {
    |a| <= |b| && b[..|a|] == a
  }

  predicate Apart(a: seq<string>, b: seq<string>) {
    !Prefix(a, b) && !Prefix(b, a)
  }

  /** Entries at places that are not within one another commute, errors included. */
  lemma {:induction false} EntriesCommute(v: Json, p: seq<string>, x: Json, q: seq<string>, y: Json)
    requires p != [] && q != [] && Apart(p, q)
    ensures ApplyEntry(ApplyAt(v, p, x), Entry(q, y)) == ApplyEntry(ApplyAt(v, q, y), Entry(p, x))
    decreases |p|
  {
    if v.Object? {
      if p[0] == q[0] {
        CommuteBelow(v, p, x, q, y);
      } else {
        CommuteAside(v.fields, p, x, q, y);
      }
    }
  }

  /** The same first member: the entries meet, or not, below it. */
  lemma {:induction false} CommuteBelow(v: Json, p: seq<string>, x: Json, q: seq<string>, y: Json)
    requires p != [] && q != [] && Apart(p, q) && v.Object? && p[0] == q[0]
    ensures ApplyEntry(ApplyAt(v, p, x), Entry(q, y)) == ApplyEntry(ApplyAt(v, q, y), Entry(p, x))
    decreases |p|, 0
  {
    ApartBelow(p, q);
    if p[0] in v.fields {
      EntriesCommute(v.fields[p[0]], p[1..], x, q[1..], y);
      Below(v, p, x, q, y);
      Below(v, q, y, p, x);
    }
  }

  /** Two entries below one member, as one change of that member. */
  lemma Below(v: Json, p: seq<string>, x: Json, q: seq<string>, y: Json)
    requires |p| > 1 && |q| > 1 && v.Object? && p[0] == q[0] && p[0] in v.fields
    ensures ApplyEntry(ApplyAt(v, p, x), Entry(q, y)) ==
      match ApplyEntry(ApplyAt(v.fields[p[0]], p[1..], x), Entry(q[1..], y))
      case Err => Err
      case Ok(inner) => Ok(Object(v.fields[p[0] := inner]))
  {
    var once := ApplyAt(v.fields[p[0]], p[1..], x);
    if once.Ok? {
      var twice := ApplyAt(once.value, q[1..], y);
      if twice.Ok? {
        assert v.fields[p[0] := once.value][q[0] := twice.value] == v.fields[p[0] := twice.value];
      }
    }
  }

  lemma PrefixBelow(p: seq<string>, q: seq<string>)
    requires p != [] && q != [] && p[0] == q[0]
    ensures Prefix(p[1..], q[1..]) <==> Prefix(p, q)
  {
    if |p| <= |q| {
      assert q[..|p|] == [q[0]] + q[1..][..|p| - 1];
      assert p == [p[0]] + p[1..];
    }
  }

  lemma ApartBelow(p: seq<string>, q: seq<string>)
    requires p != [] && q != [] && p[0] == q[0] && Apart(p, q)
    ensures |p| > 1 && |q| > 1 && Apart(p[1..], q[1..])
  {
    PrefixBelow(p, q);
    PrefixBelow(q, p);
    EmptyIsPrefix(p[1..], q[1..]);
    EmptyIsPrefix(q[1..], p[1..]);
  }

  lemma EmptyIsPrefix(a: seq<string>, b: seq<string>)
    ensures a == [] ==> Prefix(a, b)
  {
  }

  /** What an entry makes of its own first member, whatever else the object holds. */
  function Member(fields: map<string, Json>, path: seq<string>, value: Json): Result<Option<Json>>
    requires path != []
  {
    if |path| == 1 then Ok(if value.Null? then None else Some(value))
    else if path[0] !in fields then Err
    else
      match ApplyAt(fields[path[0]], path[1..], value)
      case Err => Err
      case Ok(inner) => Ok(Some(inner))
  }

  function WithMember(fields: map<string, Json>, key: string, member: Option<Json>): map<string, Json> {
    if member.None? then fields - {key} else fields[key := member.value]
  }

  lemma ByMember(fields: map<string, Json>, path: seq<string>, value: Json)
    requires path != []
    ensures ApplyAt(Object(fields), path, value) ==
      match Member(fields, path, value)
      case Err => Err
      case Ok(member) => Ok(Object(WithMember(fields, path[0], member)))
  {
  }

  /** Changes of different members do not see each other. */
  lemma MemberAside(fields: map<string, Json>, key: string, member: Option<Json>, q: seq<string>, y: Json)
    requires q != [] && q[0] != key
    ensures Member(WithMember(fields, key, member), q, y) == Member(fields, q, y)
  {
  }

  lemma WithBoth(fields: map<string, Json>, k: string, a: Option<Json>, l: string, b: Option<Json>)
    requires k != l
    ensures WithMember(WithMember(fields, k, a), l, b) == WithMember(WithMember(fields, l, b), k, a)
  {
  }

  lemma AfterMember(fields: map<string, Json>, p: seq<string>, x: Json, q: seq<string>, y: Json)
    requires p != [] && q != [] && p[0] != q[0]
    ensures ApplyEntry(ApplyAt(Object(fields), p, x), Entry(q, y)) ==
      match (Member(fields, p, x), Member(fields, q, y))
      case (Ok(a), Ok(b)) => Ok(Object(WithMember(WithMember(fields, p[0], a), q[0], b)))
      case (_, _) => Err
  {
    ByMember(fields, p, x);
    var a := Member(fields, p, x);
    if a.Ok? {
      ByMember(WithMember(fields, p[0], a.value), q, y);
      MemberAside(fields, p[0], a.value, q, y);
    }
  }

  lemma CommuteAside(fields: map<string, Json>, p: seq<string>, x: Json, q: seq<string>, y: Json)
    requires p != [] && q != [] && p[0] != q[0]
    ensures ApplyEntry(ApplyAt(Object(fields), p, x), Entry(q, y)) == ApplyEntry(ApplyAt(Object(fields), q, y), Entry(p, x))
  {
    AfterMember(fields, p, x, q, y);
    AfterMember(fields, q, y, p, x);
    var a, b := Member(fields, p, x), Member(fields, q, y);
    if a.Ok? && b.Ok? {
      WithBoth(fields, p[0], a.value, q[0], b.value);
    }
  }

  /** All places are apart. */
  predicate AllApart(es: seq<Entry>) {
    forall i, j :: 0 <= i < j < |es| ==> Apart(es[i].path, es[j].path)
  }

  /** Two entries that do not see their order: at places apart, or the same entry twice. */
  predicate Agree(a: Entry, b: Entry) {
    Apart(a.path, b.path) || a == b
  }

  predicate Compatible(es: seq<Entry>) {
    forall i, j :: 0 <= i < j < |es| ==> Agree(es[i], es[j])
  }

  lemma ApplyCons(v: Result<Json>, e: Entry, es: seq<Entry>)
    requires EntriesOk(es) && e.path != []
    ensures ApplyAll(v, [e] + es) == ApplyAll(ApplyEntry(v, e), es)
  {
    assert ([e] + es)[1..] == es;
  }

  /** An entry may be moved over one that it agrees with. */
  lemma SwapTwo(v: Result<Json>, a: Entry, b: Entry, es: seq<Entry>)
    requires EntriesOk(es) && a.path != [] && b.path != [] && Agree(a, b)
    ensures ApplyAll(v, [a] + ([b] + es)) == ApplyAll(v, [b] + ([a] + es))
  {
    ApplyCons(v, a, [b] + es);
    ApplyCons(ApplyEntry(v, a), b, es);
    ApplyCons(v, b, [a] + es);
    ApplyCons(ApplyEntry(v, b), a, es);
    if v.Ok? && a != b {
      EntriesCommute(v.value, a.path, a.value, b.path, b.value);
    }
  }

  /** An entry after others that it agrees with may go first. */
  lemma {:induction false} MoveOver(v: Result<Json>, before: seq<Entry>, e: Entry, after: seq<Entry>)
    requires EntriesOk(before) && e.path != [] && EntriesOk(after)
    requires forall i :: 0 <= i < |before| ==> Agree(before[i], e)
    ensures ApplyAll(v, before + [e] + after) == ApplyAll(v, [e] + (before + after))
    decreases |before|
  {
    if before == [] {
      assert before + [e] + after == [e] + (before + after);
    } else {
      var first, rest := before[0], before[1..];
      assert before + [e] + after == [first] + (rest + [e] + after);
      ApplyCons(v, first, rest + [e] + after);
      MoveOver(ApplyEntry(v, first), rest, e, after);
      ApplyCons(v, first, [e] + (rest + after));
      SwapTwo(v, first, e, rest + after);
      assert [first] + (rest + after) == before + after;
    }
  }

  /** The result, or the failure, does not depend on the order of the entries. */
  lemma {:induction false} OrderDoesNotMatter(v: Result<Json>, es: seq<Entry>, fs: seq<Entry>)
    requires EntriesOk(es) && EntriesOk(fs) && Compatible(es) && multiset(es) == multiset(fs)
    ensures ApplyAll(v, es) == ApplyAll(v, fs)
    decreases |fs|
  {
    if fs == [] {
      assert multiset(es) == multiset{};
      assert es == [];
    } else {
      assert fs[0] in multiset(fs);
      assert fs[0] in multiset(es);
      var k :| 0 <= k < |es| && es[k] == fs[0];
      var rest := es[..k] + es[k + 1..];
      assert es == es[..k] + [es[k]] + es[k + 1..];
      MoveOver(v, es[..k], es[k], es[k + 1..]);
      RestOf(es, fs, k);
      ApplyCons(v, es[k], rest);
      OrderDoesNotMatter(ApplyEntry(v, fs[0]), rest, fs[1..]);
    }
  }

  lemma RestOf(es: seq<Entry>, fs: seq<Entry>, k: nat)
    requires k < |es| && fs != [] && es[k] == fs[0] && multiset(es) == multiset(fs) && Compatible(es) && EntriesOk(es)
    ensures var rest := es[..k] + es[k + 1..]; multiset(rest) == multiset(fs[1..]) && Compatible(rest) && EntriesOk(rest)
  {
    assert es == es[..k] + [es[k]] + es[k + 1..];
    assert fs == [fs[0]] + fs[1..];
    TakeOut(es[..k], es[k], es[k + 1..]);
    TakeOut([], fs[0], fs[1..]);
    assert [] + [fs[0]] + fs[1..] == fs && [] + fs[1..] == fs[1..];
    CancelOne(multiset(es[..k] + es[k + 1..]), multiset(fs[1..]), es[k]);
    WithoutOne(es, k);
  }

  lemma TakeOut(a: seq<Entry>, e: Entry, b: seq<Entry>)
    ensures multiset(a + [e] + b) == multiset(a + b) + multiset{e}
  {
    assert multiset(a + [e] + b) == multiset(a) + multiset([e]) + multiset(b);
    assert multiset(a + b) == multiset(a) + multiset(b);
    assert multiset([e]) == multiset{e};
  }

  lemma CancelOne(m: multiset<Entry>, n: multiset<Entry>, e: Entry)
    requires m + multiset{e} == n + multiset{e}
    ensures m == n
  {
    forall x: Entry ensures m[x] == n[x] {
      assert (m + multiset{e})[x] == (n + multiset{e})[x];
    }
  }

  lemma WithoutOne(es: seq<Entry>, k: nat)
    requires k < |es| && Compatible(es) && EntriesOk(es)
    ensures Compatible(es[..k] + es[k + 1..]) && EntriesOk(es[..k] + es[k + 1..])
  {
    var rest := es[..k] + es[k + 1..];
    assert forall i :: 0 <= i < |rest| ==> rest[i] == if i < k then es[i] else es[i + 1];
  }

  // ------------------------------------------------------------ well-formed pointers

  /** Every tilde begins an escape. */
  predicate WellEscaped(s: string) {
    s == "" || (if s[0] == '~' then |s| > 1 && (s[1] == '0' || s[1] == '1') && WellEscaped(s[2..]) else WellEscaped(s[1..]))
  }

  /** One escape or character of a segment. */
  function Width(s: string): (n: nat)
    requires s != ""
    ensures 1 <= n <= 2
  {
    if s[0] == '~' then 2 else 1
  }

  function Head(s: string): char
    requires s != "" && WellEscaped(s)
  {
    if s[0] != '~' then s[0] else if s[1] == '1' then '/' else '~'
  }

  lemma DecodePlain(s: string)
    requires s != "" && s[0] != '~'
    ensures Decode(s) == [s[0]] + Decode(s[1..])
  {
    var once, rest := ReplacePair(s, '1', '/'), ReplacePair(s[1..], '1', '/');
    assert once == [s[0]] + rest;
    assert once[1..] == rest;
  }

  lemma DecodeSlash(s: string)
    requires |s| > 1 && s[0] == '~' && s[1] == '1'
    ensures Decode(s) == ['/'] + Decode(s[2..])
  {
    var once, rest := ReplacePair(s, '1', '/'), ReplacePair(s[2..], '1', '/');
    assert once == ['/'] + rest;
    assert once[1..] == rest;
  }

  lemma DecodeTilde(s: string)
    requires |s| > 1 && s[0] == '~' && s[1] == '0'
    ensures Decode(s) == ['~'] + Decode(s[2..])
  {
    var once, rest := ReplacePair(s, '1', '/'), ReplacePair(s[2..], '1', '/');
    assert s[1..][1..] == s[2..];
    assert ReplacePair(s[1..], '1', '/') == ['0'] + rest;
    assert once == ['~'] + (['0'] + rest);
    assert once[2..] == rest;
  }

  /** The two replacements together read one escape or character at a time. */
  lemma DecodeHead(s: string)
    requires s != "" && WellEscaped(s)
    ensures Width(s) <= |s| && WellEscaped(s[Width(s)..]) && Decode(s) == [Head(s)] + Decode(s[Width(s)..])
  {
    if s[0] != '~' {
      DecodePlain(s);
    } else if s[1] == '1' {
      DecodeSlash(s);
    } else {
      DecodeTilde(s);
    }
  }

  predicate SegmentOk(s: string) {
    WellEscaped(s) && '/' !in s
  }

  /** A member name as section 3 of RFC 6901 writes it in a pointer. */
  function Encoded(name: string): string {
    if name == "" then ""
    else (if name[0] == '~' then "~0" else if name[0] == '/' then "~1" else [name[0]]) + Encoded(name[1..])
  }

  /** Every name is read back from its written form, which is well formed. */
  lemma {:induction false} DecodeOfEncoded(name: string)
    ensures SegmentOk(Encoded(name)) && Decode(Encoded(name)) == name
  {
    if name != "" {
      var s, rest := Encoded(name), Encoded(name[1..]);
      DecodeOfEncoded(name[1..]);
      assert s[Width(s)..] == rest;
      DecodeHead(s);
    }
  }

  function EncodedAll(path: seq<string>): (r: seq<string>)
    ensures |r| == |path| && forall i :: 0 <= i < |r| ==> r[i] == Encoded(path[i])
  {
    seq(|path|, i requires 0 <= i < |path| => Encoded(path[i]))
  }

  /** Every path is read back from the pointer that is written for it. */
  lemma PathOfPointer(path: seq<string>)
    requires path != []
    ensures PathOf(Join(EncodedAll(path), '/')) == path
  {
    var segments := EncodedAll(path);
    forall i | 0 <= i < |path| ensures SegmentOk(segments[i]) && Decode(segments[i]) == path[i] {
      DecodeOfEncoded(path[i]);
    }
    SplitOfJoin(segments, '/');
  }

  /** Decoding loses nothing. */
  lemma {:induction false} DecodeIsInjective(s: string, t: string)
    requires SegmentOk(s) && SegmentOk(t) && Decode(s) == Decode(t)
    ensures s == t
    decreases |s|
  {
    if s != "" {
      DecodeHead(s);
    }
    if t != "" {
      DecodeHead(t);
    }
    if s != "" && t != "" {
      var a, b := Decode(s[Width(s)..]), Decode(t[Width(t)..]);
      assert ([Head(s)] + a)[0] == ([Head(t)] + b)[0] && ([Head(s)] + a)[1..] == a && ([Head(t)] + b)[1..] == b;
      SameHead(s, t);
      TailOk(s);
      TailOk(t);
      DecodeIsInjective(s[Width(s)..], t[Width(t)..]);
      assert s == s[..Width(s)] + s[Width(s)..] && t == t[..Width(t)] + t[Width(t)..];
    }
  }

  lemma SameHead(s: string, t: string)
    requires s != "" && t != "" && SegmentOk(s) && SegmentOk(t) && Head(s) == Head(t)
    ensures Width(s) == Width(t) && s[..Width(s)] == t[..Width(t)]
  {
    assert s[0] in s && t[0] in t;
  }

  lemma TailOk(s: string)
    requires s != "" && SegmentOk(s)
    ensures Width(s) <= |s| && SegmentOk(s[Width(s)..])
  {
    DecodeHead(s);
    assert forall c :: c in s[Width(s)..] ==> c in s;
  }

  predicate PointerOk(pointer: string) {
    forall i :: 0 <= i < |Split(pointer, '/')| ==> WellEscaped(Split(pointer, '/')[i])
  }

  lemma {:induction false} SegmentsHaveNoSeparator(s: string, sep: char)
    ensures forall i :: 0 <= i < |Split(s, sep)| ==> sep !in Split(s, sep)[i]
  {
    if s != "" {
      SegmentsHaveNoSeparator(s[1..], sep);
    }
  }

  lemma {:induction false} JoinOfSplit(s: string, sep: char)
    ensures Join(Split(s, sep), sep) == s
  {
    if s != "" {
      var rest := Split(s[1..], sep);
      JoinOfSplit(s[1..], sep);
      if s[0] == sep {
        assert ([""] + rest)[1..] == rest;
        assert "" + [sep] + Join(rest, sep) == s;
      } else {
        var first := [s[0]] + rest[0];
        var all := [first] + rest[1..];
        assert all[1..] == rest[1..];
        if |rest| > 1 {
          assert first + [sep] + Join(rest[1..], sep) == [s[0]] + (rest[0] + [sep] + Join(rest[1..], sep));
        }
      }
    }
  }

  lemma {:induction false} JoinAppend(a: seq<string>, b: seq<string>, sep: char)
    requires a != [] && b != []
    ensures Join(a + b, sep) == Join(a, sep) + [sep] + Join(b, sep)
  {
    if |a| == 1 {
      assert (a + b)[1..] == b;
    } else {
      assert (a + b)[1..] == a[1..] + b;
      JoinAppend(a[1..], b, sep);
      assert a[0] + [sep] + (Join(a[1..], sep) + [sep] + Join(b, sep)) == a[0] + [sep] + Join(a[1..], sep) + [sep] + Join(b, sep);
    }
  }

  /** A pointer whose segments begin another's is that pointer or is continued by it. */
  lemma SegmentPrefix(p: string, q: string)
    requires Prefix(Split(p, '/'), Split(q, '/'))
    ensures p == q || StartsWith(q, p + "/")
  {
    var a, b := Split(p, '/'), Split(q, '/');
    JoinOfSplit(p, '/');
    JoinOfSplit(q, '/');
    if |a| < |b| {
      assert b == a + b[|a|..];
      JoinAppend(a, b[|a|..], '/');
      assert q == p + "/" + Join(b[|a|..], '/');
    } else {
      assert b == a;
    }
  }

  lemma DecodedPrefix(a: seq<string>, b: seq<string>)
    requires Prefix(DecodeAll(a), DecodeAll(b))
    requires (forall i :: 0 <= i < |a| ==> SegmentOk(a[i])) && forall i :: 0 <= i < |b| ==> SegmentOk(b[i])
    ensures Prefix(a, b)
  {
    forall i | 0 <= i < |a| ensures a[i] == b[i] {
      assert DecodeAll(b)[..|a|][i] == DecodeAll(a)[i];
      DecodeIsInjective(a[i], b[i]);
    }
  }

  /** Well-escaped pointers that neither continue nor equal one another name places apart. */
  lemma PointersApart(p: string, q: string)
    requires PointerOk(p) && PointerOk(q) && p != q && !StartsWith(q, p + "/") && !StartsWith(p, q + "/")
    ensures Apart(PathOf(p), PathOf(q))
  {
    SegmentsHaveNoSeparator(p, '/');
    SegmentsHaveNoSeparator(q, '/');
    if Prefix(PathOf(p), PathOf(q)) {
      DecodedPrefix(Split(p, '/'), Split(q, '/'));
      SegmentPrefix(p, q);
      assert false;
    }
    if Prefix(PathOf(q), PathOf(p)) {
      DecodedPrefix(Split(q, '/'), Split(p, '/'));
      SegmentPrefix(q, p);
      assert false;
    }
  }

  // ------------------------------------------------------------ the theorem

  predicate WellEscapedPatch(p: Patch) {
    forall i :: 0 <= i < |p.pointers| ==> PointerOk(p.pointers[i])
  }

  /** A patch that passes the overlap check and uses well-formed escapes has its
      entries at places apart. */
  lemma PatchIsApart(p: Patch)
    requires PatchOk(p) && WellEscapedPatch(p) && !Overlaps(p)
    ensures AllApart(Entries(p))
  {
    forall i, j | 0 <= i < j < |p.pointers| ensures Apart(PathOf(p.pointers[i]), PathOf(p.pointers[j])) {
      PointersApart(p.pointers[i], p.pointers[j]);
    }
  }

  /** Such a patch has one outcome: in every order of its entries, the same value or a
      failure. */
  lemma PatchHasOneOutcome(v: Json, p: Patch, fs: seq<Entry>)
    requires PatchOk(p) && WellEscapedPatch(p) && !Overlaps(p) && EntriesOk(fs) && multiset(fs) == multiset(Entries(p))
    ensures ApplyAll(Ok(v), fs) == Effective(v, p)
  {
    PatchIsApart(p);
    OrderDoesNotMatter(Ok(v), Entries(p), fs);
  }

  /** Without well-formed escapes the order shows: a lone tilde and an escaped one name
      the same member, and pass the overlap check. */
  lemma LoneTildeCollides(x: Json, y: Json)
    requires x != y && !x.Null? && !y.Null?
    ensures var p := Patch(["~", "~0"], [x, y]);
      && PatchOk(p) && !Overlaps(p)
      && ApplyAll(Ok(Object(map[])), [Entries(p)[0], Entries(p)[1]]) != ApplyAll(Ok(Object(map[])), [Entries(p)[1], Entries(p)[0]])
  {
    var p := Patch(["~", "~0"], [x, y]);
    var a, b := Entries(p)[0], Entries(p)[1];
    SplitWhole("~", '/');
    SplitWhole("~0", '/');
    LoneTilde();
    DecodeTilde("~0");
    assert a.path == ["~"] && b.path == ["~"];
    var start := Object(map[]);
    ApplyTwo(Ok(start), a, b);
    ApplyTwo(Ok(start), b, a);
    assert map["~" := x]["~" := y] == map["~" := y] && map["~" := y]["~" := x] == map["~" := x];
    assert map["~" := x]["~"] == x && map["~" := y]["~"] == y;
  }

  lemma LoneTilde()
    ensures Decode("~") == "~" && Decode("") == ""
  {
    assert ReplacePair("~", '1', '/') == "~";
    assert ReplacePair("~", '0', '~') == "~";
  }

  lemma ApplyTwo(v: Result<Json>, a: Entry, b: Entry)
    requires a.path != [] && b.path != []
    ensures ApplyAll(v, [a, b]) == ApplyEntry(ApplyEntry(v, a), b)
  {
    var both, one: seq<Entry>, none: seq<Entry> := [a, b], [b], [];
    assert both[1..] == one && one[1..] == none;
    assert ApplyAll(v, both) == ApplyAll(ApplyEntry(v, a), one);
    assert ApplyAll(ApplyEntry(v, a), one) == ApplyAll(ApplyEntry(ApplyEntry(v, a), b), none);
  }
}
