/** Stopping an IDLE loop: the stop flag, the event gate and the registered socket,
    under every interleaving of the threads that use them. */
module IdleStop {
  import opened Basics

  type Thread = nat
  type Socket = nat

  datatype Phase =
    | Idle
    | Joining(socket: Socket)
    | Deciding(socket: Socket, stop: bool)
    | Gating
    | Marked
    | Flagged
    | Closing
    | Checking
    | Acting

  predicate HoldsGate(p: Phase) {
    p.Gating? || p.Marked? || p.Checking? || p.Acting?
  }

  predicate HoldsLock(p: Phase) {
    p.Joining? || p.Deciding? || p.Closing?
  }

  datatype Event = Stop | Act

  /** `shut` are the sockets that were shut down, and `stopped` says that some stop
      request has run to its end. */
  datatype State = State(
    flag: bool,
    gate: Option<Thread>,
    lock: Option<Thread>,
    socket: Option<Socket>,
    shut: set<Socket>,
    stopped: bool,
    phases: map<Thread, Phase>,
    log: seq<Event>)

  const START: State := State(false, None, None, None, {}, false, map[], [])

  datatype Step =
    | Join(thread: Thread, socket: Socket)
    | Decide(thread: Thread)
    | Register(thread: Thread)
    | Forget(thread: Thread)
    | Gate(thread: Thread)
    | SetFlag(thread: Thread)
    | Ungate(thread: Thread)
    | Lock(thread: Thread)
    | Shut(thread: Thread)
    | Enter(thread: Thread)
    | Check(thread: Thread)
    | Leave(thread: Thread)

  function PhaseOf(s: State, t: Thread): Phase {
    if t in s.phases then s.phases[t] else Idle
  }

  predicate Enabled(s: State, step: Step) {
    var p := PhaseOf(s, step.thread);
    match step
    case Join(_, _) => p.Idle? && s.lock.None?
    case Decide(_) => p.Joining?
    case Register(_) => p.Deciding?
    case Forget(_) => p.Idle? && s.lock.None?
    case Gate(_) => p.Idle? && s.gate.None?
    case SetFlag(_) => p.Gating?
    case Ungate(_) => p.Marked?
    case Lock(_) => p.Flagged? && s.lock.None?
    case Shut(_) => p.Closing?
    case Enter(_) => p.Idle? && s.gate.None?
    case Check(_) => p.Checking?
    case Leave(_) => p.Acting?
  }

  function To(s: State, t: Thread, p: Phase): State {
    s.(phases := s.phases[t := p])
  }

  function Next(s: State, step: Step): State
    requires Enabled(s, step)
  {
    var t, p := step.thread, PhaseOf(s, step.thread);
    match step
    case Join(_, x) => To(s, t, Joining(x)).(lock := Some(t))
    case Decide(_) => To(s, t, Deciding(p.socket, s.flag))
    case Register(_) =>
      var r := To(s, t, Idle).(lock := None);
      if p.stop then r.(shut := s.shut + {p.socket}) else r.(socket := Some(p.socket))
    case Forget(_) => s.(socket := None)
    case Gate(_) => To(s, t, Gating).(gate := Some(t))
    case SetFlag(_) => To(s, t, Marked).(flag := true, log := s.log + [Stop])
    case Ungate(_) => To(s, t, Flagged).(gate := None)
    case Lock(_) => To(s, t, Closing).(lock := Some(t))
    case Shut(_) =>
      To(s, t, Idle).(lock := None, stopped := true,
                      shut := if s.socket.Some? then s.shut + {s.socket.value} else s.shut)
    case Enter(_) => To(s, t, Checking).(gate := Some(t))
    case Check(_) =>
      if s.flag then To(s, t, Idle).(gate := None) else To(s, t, Acting).(log := s.log + [Act])
    case Leave(_) => To(s, t, Idle).(gate := None)
  }

  function After(steps: seq<Step>): Option<State> {
    if steps == [] then Some(START)
    else
      match After(steps[..|steps| - 1])
      case None => None
      case Some(s) =>
        var step := steps[|steps| - 1];
        if Enabled(s, step) then Some(Next(s, step)) else None
  }

  // ------------------------------------------------------------ the invariant

  predicate PhaseOk(s: State, t: Thread, p: Phase) {
    && (HoldsGate(p) ==> s.gate == Some(t))
    && (HoldsLock(p) ==> s.lock == Some(t))
    && (p.Acting? ==> !s.flag)
    && (p.Marked? || p.Flagged? || p.Closing? ==> s.flag)
    && (p.Deciding? && s.stopped ==> p.stop)
  }

  predicate PhasesOk(s: State) {
    forall t <- s.phases :: PhaseOk(s, t, s.phases[t])
  }

  /** Once a stop request has ended, the registered socket is shut. */
  predicate StopOk(s: State) {
    s.stopped ==> s.flag && (s.socket.Some? ==> s.socket.value in s.shut)
  }

  /** Nothing acts after a stop. */
  predicate LogOk(log: seq<Event>, flag: bool) {
    && (forall i :: 0 <= i < |log| && log[i] == Stop ==> flag)
    && (forall i, j :: 0 <= i < j < |log| && log[i] == Stop ==> log[j] != Act)
  }

  predicate Inv(s: State) {
    PhasesOk(s) && StopOk(s) && LogOk(s.log, s.flag)
  }

  lemma LogSnoc(log: seq<Event>, flag: bool, e: Event)
    requires LogOk(log, flag) && (e == Act ==> !flag)
    ensures LogOk(log + [e], flag || e == Stop)
  {
  }

  /** A thread's own step leaves the others' phases in order. */
  lemma OthersOk(s: State, next: State, t: Thread, p: Phase)
    requires PhasesOk(s) && next.phases == s.phases[t := p] && PhaseOk(next, t, p)
    requires s.gate.Some? && s.gate != Some(t) ==> next.gate == s.gate
    requires s.lock.Some? && s.lock != Some(t) ==> next.lock == s.lock
    requires next.flag == s.flag || (next.flag && s.gate == Some(t))
    requires next.stopped == s.stopped || (s.lock == Some(t))
    ensures PhasesOk(next)
  {
    forall u | u in s.phases && u != t ensures PhaseOk(next, u, s.phases[u]) {
      assert PhaseOk(s, u, s.phases[u]);
    }
  }

  lemma StepKeeps(s: State, step: Step)
    requires Inv(s) && Enabled(s, step)
    ensures Inv(Next(s, step))
  {
    var t, next := step.thread, Next(s, step);
    if t in s.phases {
      assert PhaseOk(s, t, s.phases[t]);
    }
    if !step.Forget? {
      OthersOk(s, next, t, next.phases[t]);
    }
    LogSnoc(s.log, s.flag, Stop);
    if !s.flag {
      LogSnoc(s.log, s.flag, Act);
    }
  }

  lemma {:induction false} RunsKeep(steps: seq<Step>)
    requires After(steps).Some?
    ensures Inv(After(steps).value)
  {
    if steps != [] {
      var before := steps[..|steps| - 1];
      RunsKeep(before);
      StepKeeps(After(before).value, steps[|steps| - 1]);
    }
  }

  /** In every run: no guarded action begins after a stop request has set the flag, and
      none is under way when it is set. */
  lemma NothingRunsAfterStop(steps: seq<Step>)
    requires After(steps).Some?
    ensures var s := After(steps).value;
      && (forall i, j :: 0 <= i < j < |s.log| && s.log[i] == Stop ==> s.log[j] != Act)
      && (forall t <- s.phases :: s.phases[t].Acting? ==> !s.flag && s.gate == Some(t))
  {
    RunsKeep(steps);
    var s := After(steps).value;
    forall t | t in s.phases && s.phases[t].Acting? ensures !s.flag && s.gate == Some(t) {
      assert PhaseOk(s, t, s.phases[t]);
    }
  }

  /** In every run: once a stop request has ended, the registered socket is shut, and so
      is every socket whose registration ends later. No stop is lost between a check of
      the flag and the registration. */
  lemma StopShutsEverySocket(steps: seq<Step>, t: Thread)
    requires After(steps).Some? && After(steps).value.stopped
    ensures var s := After(steps).value;
      && (s.socket.Some? ==> s.socket.value in s.shut)
      && (PhaseOf(s, t).Deciding? ==> PhaseOf(s, t).socket in Next(s, Register(t)).shut)
  {
    RunsKeep(steps);
    var s := After(steps).value;
    if PhaseOf(s, t).Deciding? {
      assert PhaseOk(s, t, s.phases[t]);
    }
  }

  // ------------------------------------------------------------ by the steps taken

  /** The socket that a thread last came to register. */
  function Brought(steps: seq<Step>, t: Thread): Option<Socket> {
    if steps == [] then None
    else
      var last := steps[|steps| - 1];
      if last.Join? && last.thread == t then Some(last.socket) else Brought(steps[..|steps| - 1], t)
  }

  /** The socket of the registration that ended last, unless it has been forgotten. */
  function Current(steps: seq<Step>): Option<Socket> {
    if steps == [] then None
    else
      var last, before := steps[|steps| - 1], steps[..|steps| - 1];
      if last.Forget? then None else if last.Register? then Brought(before, last.thread) else Current(before)
  }

  /** A stop request has set the flag. */
  predicate StopAsked(steps: seq<Step>) {
    steps != [] && (steps[|steps| - 1].SetFlag? || StopAsked(steps[..|steps| - 1]))
  }

  /** A stop request has ended. */
  predicate StopEnded(steps: seq<Step>) {
    steps != [] && (steps[|steps| - 1].Shut? || StopEnded(steps[..|steps| - 1]))
  }

  /** What the state keeps of the steps taken. */
  predicate Recalls(s: State, steps: seq<Step>) {
    && s.flag == StopAsked(steps) && s.stopped == StopEnded(steps)
    && (forall t <- s.phases :: s.phases[t].Joining? || s.phases[t].Deciding? ==> Brought(steps, t) == Some(s.phases[t].socket))
    && (if Current(steps).Some? then s.socket == Current(steps) || Current(steps).value in s.shut else s.socket.None?)
    && (s.shut != {} ==> s.flag)
    && (forall t <- s.phases :: s.phases[t].Deciding? && s.phases[t].stop ==> s.flag)
  }

  lemma RecallsStep(s: State, steps: seq<Step>, before: seq<Step>, step: Step)
    requires Inv(s) && Recalls(s, before) && Enabled(s, step)
    requires steps != [] && before == steps[..|steps| - 1] && step == steps[|steps| - 1]
    ensures Recalls(Next(s, step), steps)
  {
    if step.thread in s.phases {
      assert PhaseOk(s, step.thread, s.phases[step.thread]);
    }
  }

  lemma {:induction false} RunsRecall(steps: seq<Step>)
    requires After(steps).Some?
    ensures Recalls(After(steps).value, steps)
  {
    if steps != [] {
      var before := steps[..|steps| - 1];
      RunsRecall(before);
      RunsKeep(before);
      RecallsStep(After(before).value, steps, before, steps[|steps| - 1]);
    }
  }

  /** In every run: once a stop request has ended, the socket that was registered last and
      not forgotten is shut; one that is forgotten is let go, and none is shut before a stop
      was asked for. */
  lemma LastSocketIsShut(steps: seq<Step>)
    requires After(steps).Some?
    ensures StopEnded(steps) && Current(steps).Some? ==> Current(steps).value in After(steps).value.shut
    ensures !StopAsked(steps) ==> After(steps).value.shut == {}
    ensures Current(steps).None? ==> After(steps).value.socket.None?
  {
    RunsRecall(steps);
    RunsKeep(steps);
  }

  /** In every run: a guarded action that has passed the gate begins if and only if no stop
      was asked for before. */
  lemma ActsUnlessStopped(steps: seq<Step>, t: Thread)
    requires After(steps).Some? && Enabled(After(steps).value, Check(t))
    ensures var s, next := After(steps).value, Next(After(steps).value, Check(t));
      && (PhaseOf(next, t).Acting? <==> !StopAsked(steps))
      && next.log == if StopAsked(steps) then s.log else s.log + [Act]
  {
    RunsRecall(steps);
  }
}
