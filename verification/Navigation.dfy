/** Calendar navigation: requests for a date range overlap freely, and the store
    keeps showing the last coherent range until the newest request answers. */
module Navigation {
  import opened Basics

  datatype Mode = Day | Week | Month

  datatype Place = Place(date: string, mode: Mode)

  datatype Span = Span(start: string, end: string)

  /** Week start and display zone; ranges depend on them. */
  type Settings = nat

  type Ranges = (Settings, Place) -> Span

  /** A range request on its way: reading, or already shown and refreshing the
      selected event. */
  datatype Flight = Reading(span: Span, settings: Settings) | Refreshing

  /** The events that are held: who asked, for which span, under which settings. */
  datatype Held = Held(request: nat, span: Span, settings: Settings, events: seq<string>)

  datatype State = State(
    current: Place,
    pending: Option<Place>,
    failed: Option<Place>,
    newest: nat,
    loading: bool,
    error: bool,
    held: Option<Held>,
    settings: Settings,
    flights: map<nat, Flight>)

  function Start(place: Place, settings: Settings): State {
    State(place, None, None, 0, false, false, None, settings, map[])
  }

  /** What is on display: the place that was left while a navigation is pending. */
  function Shown(s: State): Place {
    if s.pending.Some? then s.pending.value else s.current
  }

  datatype Step =
    | Go(place: Place)
    | SetMode(mode: Mode)
    | Refresh
    | Retry
    | Change(settings: Settings)
    | Answer(request: nat, events: seq<string>, refreshes: bool)
    | Fail(request: nat)
    | Done(request: nat)

  predicate Enabled(s: State, step: Step) {
    match step
    case Answer(r, _, _) => r in s.flights && s.flights[r].Reading?
    case Fail(r) => r in s.flights && s.flights[r].Reading?
    case Done(r) => r in s.flights && s.flights[r].Refreshing?
    case _ => true
  }

  // ------------------------------------------------------------ the effect of a step

  function Fetch(s: State, ranges: Ranges): State {
    s.(newest := s.newest + 1,
       loading := true,
       error := false,
       flights := s.flights[s.newest + 1 := Reading(ranges(s.settings, s.current), s.settings)])
  }

  /** Going back to what is shown cancels the pending navigation; going anywhere else
      starts one. */
  function GoTo(s: State, ranges: Ranges, place: Place): State {
    if s.pending.Some? && place == Shown(s) then
      s.(newest := s.newest + 1, current := place, pending := None, loading := false, error := false)
    else
      Fetch(s.(pending := Some(Shown(s)), current := place), ranges)
  }

  function Land(s: State, request: nat): State {
    s.(flights := s.flights - {request}, loading := if request == s.newest then false else s.loading)
  }

  /** A failed newest request gives up the pending navigation. */
  function Failed(s: State, request: nat): State {
    if request != s.newest then Land(s, request)
    else if s.pending.Some? then
      Land(s, request).(failed := Some(s.current), current := s.pending.value, pending := None, error := true)
    else Land(s, request).(error := true)
  }

  function Answered(s: State, ranges: Ranges, request: nat, events: seq<string>, refreshes: bool): State
    requires request in s.flights && s.flights[request].Reading?
  {
    var span := s.flights[request].span;
    if request != s.newest then Land(s, request)
    else if ranges(s.settings, s.current) != span then Failed(s, request)
    else
      var shown := s.(held := Some(Held(request, span, s.settings, events)), pending := None, failed := None);
      if refreshes then shown.(flights := s.flights[request := Refreshing]) else Land(shown, request)
  }

  function Next(s: State, ranges: Ranges, step: Step): State
    requires Enabled(s, step)
  {
    match step
    case Go(place) => GoTo(s, ranges, place)
    case SetMode(mode) => GoTo(s, ranges, Place(s.current.date, mode))
    case Refresh => Fetch(s, ranges)
    case Retry => if s.failed.Some? then GoTo(s, ranges, s.failed.value) else Fetch(s, ranges)
    case Change(settings) => s.(settings := settings)
    case Answer(r, events, refreshes) => Answered(s, ranges, r, events, refreshes)
    case Fail(r) => Failed(s, r)
    case Done(r) => Land(s, r)
  }

  function After(s: State, ranges: Ranges, steps: seq<Step>): Option<State> {
    if steps == [] then Some(s)
    else
      match After(s, ranges, steps[..|steps| - 1])
      case None => None
      case Some(t) =>
        var step := steps[|steps| - 1];
        if Enabled(t, step) then Some(Next(t, ranges, step)) else None
  }

  // ------------------------------------------------------------ the store

  /** The store's fields, changed step by step as the answers come in. */
  class CalendarStore {
    var currentDate: string
    var viewMode: Mode
    var pendingDisplay: Option<Place>
    var failedNavigation: Option<Place>
    var rangeRequest: nat
    var loading: bool
    var eventsError: bool
    var held: Option<Held>
    var settings: Settings
    var flights: map<nat, Flight>
    const ranges: Ranges

    function Snapshot(): State
      reads this
    {
      State(Place(currentDate, viewMode), pendingDisplay, failedNavigation, rangeRequest, loading, eventsError, held, settings, flights)
    }

    /** What every reachable store satisfies: in particular, the place on display denotes
        the range of the held events. */
    predicate Valid()
      reads this
    {
      Inv(Snapshot(), ranges)
    }

    constructor (date: string, mode: Mode, settings: Settings, ranges: Ranges)
      ensures Valid()
      ensures Snapshot() == Start(Place(date, mode), settings) && this.ranges == ranges
    {
      currentDate, viewMode := date, mode;
      pendingDisplay, failedNavigation := None, None;
      rangeRequest, loading, eventsError := 0, false, false;
      held, flights := None, map[];
      this.settings, this.ranges := settings, ranges;
    }

    /** The part of a fetch that runs before its first answer. */
    method FetchEvents()
      requires HeldOk(Snapshot(), ranges) && forall r <- flights :: r <= rangeRequest
      modifies this
      ensures Valid()
      ensures Snapshot() == Fetch(old(Snapshot()), ranges)
    {
      FetchKeeps(Snapshot(), ranges);
      rangeRequest := rangeRequest + 1;
      loading, eventsError := true, false;
      flights := flights[rangeRequest := Reading(ranges(settings, Place(currentDate, viewMode)), settings)];
    }

    method GoToDate(date: string, mode: Mode)
      requires Valid()
      modifies this
      ensures Valid() && Shown(Snapshot()) == old(Shown(Snapshot())) && held == old(held)
      ensures Snapshot() == GoTo(old(Snapshot()), ranges, Place(date, mode))
    {
      GoKeeps(Snapshot(), ranges, Place(date, mode));
      var shown := Shown(Snapshot());
      if pendingDisplay.Some? && date == shown.date && mode == shown.mode {
        rangeRequest := rangeRequest + 1;
        currentDate, viewMode := date, mode;
        pendingDisplay := None;
        loading, eventsError := false, false;
        return;
      }
      if pendingDisplay.None? {
        pendingDisplay := Some(shown);
      }
      currentDate, viewMode := date, mode;
      FetchEvents();
    }

    method SetViewMode(mode: Mode)
      requires Valid()
      modifies this
      ensures Valid() && Shown(Snapshot()) == old(Shown(Snapshot())) && held == old(held)
      ensures Snapshot() == GoTo(old(Snapshot()), ranges, Place(old(currentDate), mode))
    {
      GoToDate(currentDate, mode);
    }

    /** Go where the last navigation failed to go, or read the current range again. */
    method RetryNavigation()
      requires Valid()
      modifies this
      ensures Valid() && Shown(Snapshot()) == old(Shown(Snapshot())) && held == old(held)
      ensures Snapshot() == Next(old(Snapshot()), ranges, Retry)
    {
      if failedNavigation.Some? {
        GoToDate(failedNavigation.value.date, failedNavigation.value.mode);
      } else {
        FetchEvents();
      }
    }

    /** The request ends. */
    method Finish(request: nat)
      modifies this
      ensures old(Valid()) && old(request in flights && (request == rangeRequest ==> pendingDisplay.None?)) ==> Valid()
      ensures Snapshot() == Land(old(Snapshot()), request)
    {
      if Valid() && request in flights && (request == rangeRequest ==> pendingDisplay.None?) {
        LandKeeps(Snapshot(), ranges, request);
      }
      flights := flights - {request};
      if request == rangeRequest {
        loading := false;
      }
    }

    method FailRequest(request: nat)
      requires Valid() && request in flights && flights[request].Reading?
      modifies this
      ensures Valid() && Shown(Snapshot()) == old(Shown(Snapshot())) && held == old(held)
      ensures Snapshot() == Failed(old(Snapshot()), request)
    {
      FailKeeps(Snapshot(), ranges, request);
      if request == rangeRequest {
        if pendingDisplay.Some? {
          failedNavigation := Some(Place(currentDate, viewMode));
          currentDate, viewMode := pendingDisplay.value.date, pendingDisplay.value.mode;
          pendingDisplay := None;
        }
        eventsError := true;
      }
      Finish(request);
    }

    method CompleteRead(request: nat, events: seq<string>, refreshes: bool)
      requires Valid() && request in flights && flights[request].Reading?
      modifies this
      ensures Valid()
      ensures held != old(held) ==> request == rangeRequest && held.Some? && held.value.events == events
      ensures Snapshot() == Answered(old(Snapshot()), ranges, request, events, refreshes)
    {
      AnswerKeeps(Snapshot(), ranges, request, events, refreshes);
      var span := flights[request].span;
      if request != rangeRequest {
        Finish(request);
        return;
      }
      var active := ranges(settings, Place(currentDate, viewMode));
      if active != span {
        FailRequest(request);
        return;
      }
      held := Some(Held(request, span, settings, events));
      pendingDisplay, failedNavigation := None, None;
      if refreshes {
        flights := flights[request := Refreshing];
      } else {
        Finish(request);
      }
    }
  }

  // ------------------------------------------------------------ the invariant

  /** The held events are those of the place on display. */
  predicate HeldOk(s: State, ranges: Ranges) {
    s.held.Some? ==>
      s.held.value.span == ranges(s.held.value.settings, Shown(s)) && s.held.value.request <= s.newest
  }

  /** A pending navigation has its newest request still reading; the store is loading
      exactly while the newest request is on its way; that request reads the range of
      the current place; and no request has a number yet to be given. */
  predicate FlightsOk(s: State, ranges: Ranges) {
    && (s.pending.Some? ==> s.newest in s.flights && s.flights[s.newest].Reading?)
    && (s.loading <==> s.newest in s.flights)
    && (s.newest in s.flights && s.flights[s.newest].Reading? ==>
          && s.flights[s.newest].span == ranges(s.flights[s.newest].settings, s.current)
          && (s.held.Some? ==> s.held.value.request < s.newest))
    && (forall r <- s.flights :: r <= s.newest)
  }

  predicate Inv(s: State, ranges: Ranges) {
    HeldOk(s, ranges) && FlightsOk(s, ranges)
  }

  lemma FetchKeeps(s: State, ranges: Ranges)
    requires HeldOk(s, ranges) && forall r <- s.flights :: r <= s.newest
    ensures Inv(Fetch(s, ranges), ranges)
  {
  }

  lemma GoKeeps(s: State, ranges: Ranges, place: Place)
    requires Inv(s, ranges)
    ensures Inv(GoTo(s, ranges, place), ranges) && Shown(GoTo(s, ranges, place)) == Shown(s)
  {
    if !(s.pending.Some? && place == Shown(s)) {
      FetchKeeps(s.(pending := Some(Shown(s)), current := place), ranges);
    }
  }

  lemma LandKeeps(s: State, ranges: Ranges, request: nat)
    requires Inv(s, ranges) && request in s.flights && (request == s.newest ==> s.pending.None?)
    ensures Inv(Land(s, request), ranges)
  {
  }

  lemma FailKeeps(s: State, ranges: Ranges, request: nat)
    requires Inv(s, ranges) && request in s.flights && s.flights[request].Reading?
    ensures Inv(Failed(s, request), ranges) && Shown(Failed(s, request)) == Shown(s)
  {
  }

  lemma AnswerKeeps(s: State, ranges: Ranges, request: nat, events: seq<string>, refreshes: bool)
    requires Inv(s, ranges) && request in s.flights && s.flights[request].Reading?
    ensures Inv(Answered(s, ranges, request, events, refreshes), ranges)
  {
    FailKeeps(s, ranges, request);
  }

  lemma StepKeeps(s: State, ranges: Ranges, step: Step)
    requires Inv(s, ranges) && Enabled(s, step)
    ensures Inv(Next(s, ranges, step), ranges)
  {
    match step {
      case Go(place) => GoKeeps(s, ranges, place);
      case SetMode(mode) => GoKeeps(s, ranges, Place(s.current.date, mode));
      case Refresh => FetchKeeps(s, ranges);
      case Retry =>
        if s.failed.Some? {
          GoKeeps(s, ranges, s.failed.value);
        } else {
          FetchKeeps(s, ranges);
        }
      case Change(settings) =>
      case Answer(r, events, refreshes) => AnswerKeeps(s, ranges, r, events, refreshes);
      case Fail(r) => FailKeeps(s, ranges, r);
      case Done(r) => LandKeeps(s, ranges, r);
    }
  }

  lemma {:induction false} RunsKeep(place: Place, settings: Settings, ranges: Ranges, steps: seq<Step>)
    requires After(Start(place, settings), ranges, steps).Some?
    ensures Inv(After(Start(place, settings), ranges, steps).value, ranges)
  {
    if steps != [] {
      var before := steps[..|steps| - 1];
      RunsKeep(place, settings, ranges, before);
      StepKeeps(After(Start(place, settings), ranges, before).value, ranges, steps[|steps| - 1]);
    }
  }

  // ------------------------------------------------------------ what every run promises

  /** Without a change of settings they are what they were. */
  predicate Unchanged(steps: seq<Step>) {
    forall i :: 0 <= i < |steps| ==> !steps[i].Change?
  }

  lemma {:induction false} SettingsStay(s: State, ranges: Ranges, steps: seq<Step>)
    requires After(s, ranges, steps).Some? && Unchanged(steps)
    requires s.held.None? && s.flights == map[]
    ensures var t := After(s, ranges, steps).value;
      && t.settings == s.settings && (t.held.Some? ==> t.held.value.settings == s.settings)
      && forall r <- t.flights :: t.flights[r].Reading? ==> t.flights[r].settings == s.settings
  {
    if steps != [] {
      var before := steps[..|steps| - 1];
      SettingsStay(s, ranges, before);
      var t := After(s, ranges, before).value;
      assert !steps[|steps| - 1].Change?;
      SettingsStep(t, ranges, steps[|steps| - 1]);
    }
  }

  lemma SettingsStep(t: State, ranges: Ranges, step: Step)
    requires Enabled(t, step) && !step.Change?
    requires t.held.Some? ==> t.held.value.settings == t.settings
    requires forall r <- t.flights :: t.flights[r].Reading? ==> t.flights[r].settings == t.settings
    ensures var u := Next(t, ranges, step);
      && u.settings == t.settings && (u.held.Some? ==> u.held.value.settings == u.settings)
      && forall r <- u.flights :: u.flights[r].Reading? ==> u.flights[r].settings == u.settings
  {
  }

  /** With the range settings fixed, after every run the place on display denotes the
      range for which the held events were committed, and a newest request that
      answers is never refused for its range. */
  lemma DisplayIsCoherent(place: Place, settings: Settings, ranges: Ranges, steps: seq<Step>)
    requires After(Start(place, settings), ranges, steps).Some? && Unchanged(steps)
    ensures var s := After(Start(place, settings), ranges, steps).value;
      && (s.held.Some? ==> s.held.value.span == ranges(s.settings, Shown(s)))
      && (s.newest in s.flights && s.flights[s.newest].Reading? ==> s.flights[s.newest].span == ranges(s.settings, s.current))
      && (s.pending.Some? ==> s.loading)
      && (s.loading <==> s.newest in s.flights)
  {
    RunsKeep(place, settings, ranges, steps);
    SettingsStay(Start(place, settings), ranges, steps);
  }

  /** Only an answer to the newest request changes the held events or what is shown;
      it then shows what was asked for. */
  lemma OnlyNewestCommits(s: State, ranges: Ranges, step: Step)
    requires Inv(s, ranges) && Enabled(s, step)
    ensures var t := Next(s, ranges, step);
      t.held != s.held || Shown(t) != Shown(s) ==>
        && step.Answer? && step.request == s.newest
        && Shown(t) == s.current && t.pending.None?
        && t.held == Some(Held(s.newest, ranges(s.settings, s.current), s.settings, step.events))
        && (s.held.Some? ==> s.held.value.request < s.newest)
  {
    match step {
      case Go(place) => GoKeeps(s, ranges, place);
      case SetMode(mode) => GoKeeps(s, ranges, Place(s.current.date, mode));
      case Retry =>
        if s.failed.Some? {
          GoKeeps(s, ranges, s.failed.value);
        }
      case Fail(r) => FailKeeps(s, ranges, r);
      case Answer(r, _, _) => FailKeeps(s, ranges, r);
      case _ =>
    }
  }

  /** Cancelling a pending navigation leaves the display alone, and makes every request
      on its way stale: none of them can commit any more. */
  lemma CancelMakesStale(s: State, ranges: Ranges)
    requires Inv(s, ranges) && s.pending.Some?
    ensures var t := Next(s, ranges, Go(Shown(s)));
      && Shown(t) == Shown(s) && t.held == s.held && !t.loading
      && forall r <- t.flights :: r != t.newest
  {
  }

  // ------------------------------------------------------------ failures and retries

  /** The newest answer, for the range that is wanted, is shown with its events; a failed
      navigation is then forgotten. */
  lemma NewestIsShown(s: State, ranges: Ranges, events: seq<string>, refreshes: bool)
    requires Inv(s, ranges) && s.newest in s.flights && s.flights[s.newest].Reading?
    requires s.flights[s.newest].settings == s.settings
    ensures var t := Next(s, ranges, Answer(s.newest, events, refreshes));
      && Shown(t) == t.current == s.current && t.failed.None? && t.error == s.error
      && t.held.Some? && t.held.value.events == events && t.held.value.span == ranges(s.settings, s.current)
      && (t.loading <==> refreshes)
  {
  }

  /** Steps that the user does not take: old answers and failures, ends, settings. */
  predicate Background(steps: seq<Step>) {
    forall i :: 0 <= i < |steps| ==> steps[i].Answer? || steps[i].Fail? || steps[i].Done? || steps[i].Change?
  }

  /** A state in which no request that matters is on its way. */
  predicate Rests(s: State, t: State) {
    && t.current == s.current && t.pending == s.pending && t.failed == s.failed && t.newest == s.newest
    && t.loading == s.loading && t.error == s.error && t.held == s.held && t.newest !in t.flights
  }

  lemma {:induction false} BackgroundRests(s: State, ranges: Ranges, steps: seq<Step>)
    requires s.newest !in s.flights && Background(steps) && After(s, ranges, steps).Some?
    ensures Rests(s, After(s, ranges, steps).value)
  {
    if steps != [] {
      BackgroundRests(s, ranges, steps[..|steps| - 1]);
    }
  }

  /** A navigation that fails leaves what is shown alone and says so; whatever ends in the
      background then, a retry goes where the navigation was going, with a new request for
      the range of that place. */
  lemma FailureThenRetry(s: State, ranges: Ranges, steps: seq<Step>)
    requires Inv(s, ranges) && s.pending.Some? && Background(steps)
    requires After(Next(s, ranges, Fail(s.newest)), ranges, steps).Some?
    ensures var t := After(Next(s, ranges, Fail(s.newest)), ranges, steps).value;
      var u := Next(t, ranges, Retry);
      && t.error && !t.loading && Shown(t) == t.current == Shown(s) && t.held == s.held
      && u.current == s.current && Shown(u) == Shown(s) && u.held == s.held && u.loading && !u.error
      && u.newest > s.newest && u.newest in u.flights && u.flights[u.newest] == Reading(ranges(u.settings, s.current), u.settings)
  {
    BackgroundRests(Next(s, ranges, Fail(s.newest)), ranges, steps);
  }

  /** An error is shown only when nothing is on its way. */
  lemma {:induction false} ErrorIsSettled(place: Place, settings: Settings, ranges: Ranges, steps: seq<Step>)
    requires After(Start(place, settings), ranges, steps).Some?
    ensures var s := After(Start(place, settings), ranges, steps).value; s.error ==> !s.loading && s.pending.None?
  {
    if steps != [] {
      var before := steps[..|steps| - 1];
      ErrorIsSettled(place, settings, ranges, before);
      RunsKeep(place, settings, ranges, before);
    }
  }
}
