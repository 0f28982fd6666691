/** Instants and time zones.

    Instants are nanoseconds on the UTC axis and wall-clock times are nanoseconds
    on a zone's local axis, both counted from 0001-01-01T00:00. A zone is the pair
    of conversions the time-zone library offers; what the engine relies on is
    collected in `ZoneOk`. */
module Zones {
  import opened Basics
  import opened Text

  /** One day, in nanoseconds. */
  const DAY: int := 86_400_000_000_000

  /** The first moment of a date. */
  function Midnight(date: int): int {
    86_400_000_000_000 * date
  }

  function Seconds(n: int): int {
    1_000_000_000 * n
  }

  /** The calendar date of an instant or wall-clock time. */
  function DateOfTime(time: int): (date: int)
    ensures Midnight(date) <= time < Midnight(date + 1)
  {
    time / 86_400_000_000_000
  }

  /** What a wall-clock time denotes: nothing in a gap, two instants in a fold. */
  datatype LocalResult = Gap | Single(time: int) | Ambiguous(first: int, second: int) {
    function Instants(): set<int> {
      match this
      case Gap => {}
      case Single(t) => {t}
      case Ambiguous(a, b) => {a, b}
    }

    /** The instant the engine picks: the earlier one of a fold. */
    function Earliest(): Option<int> {
      match this
      case Gap => None
      case Single(t) => Some(t)
      case Ambiguous(a, b) => Some(if a <= b then a else b)
    }
  }

  /** `offset` is the zone's offset from UTC, in seconds, at an instant. */
  datatype Zone = Zone(name: string, resolve: int -> LocalResult, offset: int -> int) {
    function ToLocal(time: int): int {
      time + Seconds(offset(time))
    }

    /** The instants that show a time of day on a date. */
    ghost function Showing(date: int, timeOfDay: int): set<int> {
      resolve(Midnight(date) + timeOfDay).Instants()
    }
  }

  predicate IsUtc(zone: Zone) {
    zone.name == "UTC"
  }

  /** A time-zone name that may be stored: not blank, and without control characters. */
  predicate ZoneNameOk(name: string) {
    !Blank(name) && forall c :: c in name ==> !IsControl(c)
  }

  /** The properties of a time zone that the engine relies on. */
  ghost predicate ZoneOk(zone: Zone) {
    && ZoneNameOk(zone.name)
    && (IsUtc(zone) ==> forall t :: zone.offset(t) == 0)
    && (IsUtc(zone) ==> forall t :: zone.resolve(t) == Single(t))
    && RoundTrips(zone)
    && OffsetsBelowDay(zone)
    && IncreasesWithDate(zone)
    && MidnightsSplit(zone)
  }

  /** A wall clock resolves to exactly the instants that show it. */
  ghost predicate RoundTrips(zone: Zone) {
    forall date, timeOfDay, t :: t in zone.Showing(date, timeOfDay) <==> zone.ToLocal(t) == Midnight(date) + timeOfDay
  }

  /** Offsets are smaller than a day. */
  ghost predicate OffsetsBelowDay(zone: Zone) {
    forall t :: t - DAY < zone.ToLocal(t) < t + DAY
  }

  /** The same wall clock on a later date is a later instant. */
  ghost predicate IncreasesWithDate(zone: Zone) {
    forall a, b, timeOfDay, t, u ::
      a < b && t in zone.Showing(a, timeOfDay) && u in zone.Showing(b, timeOfDay) ==> t < u
  }

  /** A midnight that occurs exactly once separates the dates before it from the rest. */
  ghost predicate MidnightsSplit(zone: Zone) {
    forall date, t :: zone.Showing(date, 0) == {t} ==> forall u :: u < t <==> zone.ToLocal(u) < Midnight(date)
  }

  // The hypotheses, one instance at a time.

  lemma EarliestShows(zone: Zone, date: int, timeOfDay: int)
    requires ZoneOk(zone) && zone.resolve(Midnight(date) + timeOfDay).Earliest().Some?
    ensures zone.ToLocal(zone.resolve(Midnight(date) + timeOfDay).Earliest().value) == Midnight(date) + timeOfDay
  {
    assert zone.resolve(Midnight(date) + timeOfDay).Earliest().value in zone.Showing(date, timeOfDay);
  }

  lemma LaterDateIsLater(zone: Zone, a: int, b: int, timeOfDay: int, t: int, u: int)
    requires ZoneOk(zone) && a < b
    requires zone.ToLocal(t) == Midnight(a) + timeOfDay && zone.ToLocal(u) == Midnight(b) + timeOfDay
    ensures t < u
  {
    assert t in zone.Showing(a, timeOfDay) && u in zone.Showing(b, timeOfDay);
  }

  lemma MidnightSplits(zone: Zone, date: int, t: int, u: int)
    requires ZoneOk(zone) && zone.resolve(Midnight(date)) == Single(t)
    ensures u < t <==> zone.ToLocal(u) < Midnight(date)
  {
    assert Midnight(date) + 0 == Midnight(date);
    assert zone.Showing(date, 0) == {t};
  }

  const UTC: Zone := Zone("UTC", l => Single(l), t => 0)

  lemma PlainName(name: string)
    requires name == "UTC" || name == "Spring/Forward" || name == "Fall/Back"
    ensures ZoneNameOk(name)
  {
    assert name[0] in name;
  }

  lemma UtcIsOk()
    ensures ZoneOk(UTC)
  {
    PlainName(UTC.name);
    UtcRoundTrips();
    UtcOrders();
  }

  lemma UtcRoundTrips()
    ensures RoundTrips(UTC)
    ensures forall date, timeOfDay :: UTC.Showing(date, timeOfDay) == {Midnight(date) + timeOfDay}
  {
    assert forall t :: UTC.ToLocal(t) == t;
    assert forall date, timeOfDay :: UTC.Showing(date, timeOfDay) == {Midnight(date) + timeOfDay};
  }

  lemma UtcOrders()
    ensures OffsetsBelowDay(UTC) && IncreasesWithDate(UTC) && MidnightsSplit(UTC)
  {
    UtcRoundTrips();
    assert forall t :: UTC.ToLocal(t) == t;
  }

  /** A zone with one forward jump of an hour at the instant `at`: it has a gap an
      hour wide, and the hypotheses hold of it. */
  function SpringForward(at: int): Zone {
    Zone("Spring/Forward",
         l => if l < at then Single(l) else if l < at + Seconds(3600) then Gap else Single(l - Seconds(3600)),
         t => if t < at then 0 else 3600)
  }

  lemma SpringForwardIsOk(at: int)
    ensures ZoneOk(SpringForward(at))
  {
    var z := SpringForward(at);
    PlainName(z.name);
    SpringForwardRoundTrips(at);
    SpringForwardIncreases(at);
    SpringForwardSplits(at);
  }

  lemma SpringForwardIncreases(at: int)
    ensures OffsetsBelowDay(SpringForward(at)) && IncreasesWithDate(SpringForward(at))
  {
    var z := SpringForward(at);
    assert forall t :: z.ToLocal(t) == if t < at then t else t + Seconds(3600);
    forall a, b, timeOfDay, t, u | a < b && t in z.Showing(a, timeOfDay) && u in z.Showing(b, timeOfDay) ensures t < u {
    }
  }

  lemma SpringForwardSplits(at: int)
    ensures MidnightsSplit(SpringForward(at))
  {
    var z := SpringForward(at);
    assert forall t :: z.ToLocal(t) == if t < at then t else t + Seconds(3600);
    forall date, t | z.Showing(date, 0) == {t}
      ensures forall u :: u < t <==> z.ToLocal(u) < Midnight(date)
    {
      assert t in z.Showing(date, 0);
    }
  }

  lemma SpringForwardRoundTrips(at: int)
    ensures RoundTrips(SpringForward(at))
  {
  }

  /** A zone set back by an hour at the instant `at`: the hour before it is shown twice,
      and of the two instants the engine takes the earlier one. */
  function FallBack(at: int): Zone {
    Zone("Fall/Back",
         l => if l < at then Single(l - Seconds(3600))
              else if l < at + Seconds(3600) then Ambiguous(l - Seconds(3600), l)
              else Single(l),
         t => if t < at then 3600 else 0)
  }

  lemma FallBackLocal(at: int, t: int)
    ensures FallBack(at).ToLocal(t) == if t < at then t + Seconds(3600) else t
  {
  }

  lemma FallBackShows(at: int, l: int, t: int)
    ensures t in FallBack(at).resolve(l).Instants() <==> FallBack(at).ToLocal(t) == l
  {
    FallBackLocal(at, t);
    if l < at {
      assert FallBack(at).resolve(l).Instants() == {l - Seconds(3600)};
    } else if l < at + Seconds(3600) {
      assert FallBack(at).resolve(l).Instants() == {l - Seconds(3600), l};
    } else {
      assert FallBack(at).resolve(l).Instants() == {l};
    }
  }

  lemma FallBackRoundTrips(at: int)
    ensures RoundTrips(FallBack(at))
  {
    var z := FallBack(at);
    forall date, timeOfDay, t
      ensures t in z.Showing(date, timeOfDay) <==> z.ToLocal(t) == Midnight(date) + timeOfDay
    {
      FallBackShows(at, Midnight(date) + timeOfDay, t);
    }
  }

  /** A wall clock that is shown once splits the instants. */
  lemma FallBackSplits(at: int, l: int, t: int, u: int)
    requires FallBack(at).resolve(l).Instants() == {t}
    ensures u < t <==> FallBack(at).ToLocal(u) < l
  {
    var z := FallBack(at);
    FallBackLocal(at, u);
    assert t in z.resolve(l).Instants();
    FallBackShows(at, l, t);
    FallBackLocal(at, t);
    if at <= l < at + Seconds(3600) {
      assert l in z.resolve(l).Instants() && l - Seconds(3600) in z.resolve(l).Instants();
    }
  }

  lemma FallBackIsOk(at: int)
    ensures ZoneOk(FallBack(at))
    ensures FallBack(at).resolve(at).Earliest() == Some(at - Seconds(3600))
  {
    var z := FallBack(at);
    PlainName(z.name);
    FallBackRoundTrips(at);
    forall t ensures t - DAY < z.ToLocal(t) < t + DAY {
      FallBackLocal(at, t);
    }
    FallBackIncreases(at);
    forall date, t | z.Showing(date, 0) == {t} ensures forall u :: u < t <==> z.ToLocal(u) < Midnight(date) {
      forall u ensures u < t <==> z.ToLocal(u) < Midnight(date) {
        FallBackSplits(at, Midnight(date) + 0, t, u);
      }
    }
  }

  lemma FallBackIncreases(at: int)
    ensures IncreasesWithDate(FallBack(at))
  {
    var z := FallBack(at);
    forall a, b, timeOfDay, t, u | a < b && t in z.Showing(a, timeOfDay) && u in z.Showing(b, timeOfDay) ensures t < u {
      FallBackShows(at, Midnight(a) + timeOfDay, t);
      FallBackShows(at, Midnight(b) + timeOfDay, u);
      FallBackLocal(at, t);
      FallBackLocal(at, u);
    }
  }
}
