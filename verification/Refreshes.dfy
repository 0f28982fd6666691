/** Token refreshes under the per-account lock: every interleaving of the token
    getters and the lifecycle operations, as a state machine of small steps. */
module Refreshes {
  import opened Basics

  type Account = string
  type TaskId = nat

  /** The stored tokens of an account. */
  datatype Tokens = Tokens(access: string, refresh: Option<string>, expired: bool)

  /** The token getters; `rooms` is the optional room-scope probe. */
  datatype Kind = Zoom | Graph(rooms: bool) | Mail | Google | Oidc

  /** The getters that refuse to start while the account is latched. */
  predicate Checks(k: Kind) {
    k.Zoom? || k.Graph? || k.Mail?
  }

  /** The getters whose rejected refresh latches the account. */
  predicate Latches(k: Kind) {
    k.Zoom? || k.Mail? || (k.Graph? && !k.rooms)
  }

  /** The getters that return an access token that has not expired without a refresh. */
  predicate Caches(k: Kind) {
    k.Zoom? || k.Google? || k.Oidc?
  }

  /** The lifecycle operations on an account's tokens. */
  datatype Op = StoreOp(value: Tokens) | DeleteOp | ReplaceOp(value: Tokens)

  /** What a lifecycle operation found: whether the account was latched, and its tokens.
      Storing the first tokens takes no snapshot and undoes by deleting. */
  datatype Found = Found(latched: bool, previous: Option<Tokens>)

  /** Where a task is; every phase but `Idle` holds the account's lock. */
  datatype Phase =
    | Idle
    | Checking(kind: Kind)
    | Loading(kind: Kind)
    | Ready(kind: Kind, tokens: Tokens)
    | Waiting(kind: Kind, tokens: Tokens)
    | Storing(kind: Kind, tokens: Tokens)
    | Snapshotting(op: Op)
    | Changing(op: Op, found: Found)
    | Committing(op: Op, found: Found)
    | Compensating(op: Op, found: Found)
    | Marking(op: Op, found: Found, restored: bool)
    | Clearing
    | GivingUp(op: Op, found: Found, restored: bool)
    | Leaving

  datatype Task = Task(account: Account, phase: Phase)

  /** What succeeded: a store, a delete, or the commit of a lifecycle operation. */
  datatype Success = ByStore | ByDelete | ByCommit

  datatype Event =
    | Sent(kind: Kind, account: Account, refresh: string)
    | Succeeded(account: Account, what: Success)
    | Latched(account: Account)
    | Cleared(account: Account)

  datatype State = State(
    store: map<Account, Tokens>,
    latch: set<Account>,
    locks: map<Account, TaskId>,
    tasks: map<TaskId, Task>,
    log: seq<Event>)

  /** Nothing runs and nothing is latched; the store is whatever was kept. */
  function Start(store: map<Account, Tokens>): State {
    State(store, {}, map[], map[], [])
  }

  /** How a call to the token store ends. A failed call may still have taken effect;
      only a successful one may clear the latch. */
  datatype Fault = Succeeds(clears: bool) | Fails(applied: bool)

  datatype Response = Granted(tokens: Tokens) | InvalidGrant | Failure

  datatype Step =
    | Begin(task: TaskId, kind: Kind, account: Account)
    | BeginLifecycle(task: TaskId, op: Op, account: Account)
    | CheckLatch(task: TaskId)
    | Load(task: TaskId, ok: bool)
    | Send(task: TaskId)
    | Receive(task: TaskId, response: Response)
    | Put(task: TaskId, fault: Fault)
    | Snapshot(task: TaskId, ok: bool)
    | Change(task: TaskId, fault: Fault)
    | Commit(task: TaskId, ok: bool)
    | Compensate(task: TaskId, fault: Fault)
    | PutBack(task: TaskId)
    | Clear(task: TaskId)
    | Abandon(task: TaskId)
    | Release(task: TaskId)

  function PhaseOf(s: State, t: TaskId): Phase {
    if t in s.tasks then s.tasks[t].phase else Idle
  }

  /** A getter may be abandoned at any point; a lifecycle operation runs to its end. */
  predicate IsGetting(p: Phase) {
    p.Checking? || p.Loading? || p.Ready? || p.Waiting? || p.Storing?
  }

  /** Which steps a task may take. */
  predicate Enabled(s: State, step: Step) {
    var p := PhaseOf(s, step.task);
    match step
    case Begin(_, _, a) => p.Idle? && a !in s.locks
    case BeginLifecycle(_, _, a) => p.Idle? && a !in s.locks
    case CheckLatch(_) => p.Checking?
    case Load(_, _) => p.Loading?
    case Send(_) => p.Ready? && p.tokens.refresh.Some?
    case Receive(_, _) => p.Waiting?
    case Put(_, _) => p.Storing?
    case Snapshot(_, _) => p.Snapshotting?
    case Change(_, _) => p.Changing?
    case Commit(_, _) => p.Committing?
    case Compensate(_, _) => p.Compensating?
    case PutBack(_) => p.Marking?
    case Clear(_) => p.Clearing?
    case Abandon(_) => IsGetting(p)
    case Release(_) => p.Leaving? || p.GivingUp?
  }

  // ------------------------------------------------------------ the effect of a step

  function TokensOf(store: map<Account, Tokens>, a: Account): Option<Tokens> {
    if a in store then Some(store[a]) else None
  }

  function Move(s: State, t: TaskId, p: Phase): State
    requires t in s.tasks
  {
    s.(tasks := s.tasks[t := Task(s.tasks[t].account, p)])
  }

  function Acquire(s: State, t: TaskId, a: Account, p: Phase): State {
    s.(locks := s.locks[a := t], tasks := s.tasks[t := Task(a, p)])
  }

  function Mark(s: State, a: Account): State {
    s.(latch := s.latch + {a}, log := s.log + [Latched(a)])
  }

  /** Clearing a latch that is not set is not an event. */
  function Unmark(s: State, a: Account): State {
    if a in s.latch then s.(latch := s.latch - {a}, log := s.log + [Cleared(a)]) else s
  }

  predicate Applied(fault: Fault) {
    fault.Succeeds? || fault.applied
  }

  function Log(s: State, e: Event): State {
    s.(log := s.log + [e])
  }

  function Stored(store: map<Account, Tokens>, a: Account, value: Option<Tokens>, fault: Fault): map<Account, Tokens> {
    if !Applied(fault) then store else if value.Some? then store[a := value.value] else store - {a}
  }

  /** A call to the token store: `None` deletes. */
  function Call(s: State, a: Account, value: Option<Tokens>, fault: Fault): State {
    var s1 := s.(store := Stored(s.store, a, value, fault));
    if fault.Fails? then s1
    else
      var s2 := Log(s1, Succeeded(a, if value.Some? then ByStore else ByDelete));
      if fault.clears then Unmark(s2, a) else s2
  }

  /** What the operation puts in the store. */
  function Wanted(op: Op): Option<Tokens> {
    match op
    case StoreOp(value) => Some(value)
    case DeleteOp => None
    case ReplaceOp(value) => Some(value)
  }

  /** Undoing: a first store deletes, the others put the snapshot back; deleting nothing
      needs no undoing. */
  function Undo(s: State, a: Account, op: Op, found: Found, fault: Fault): State {
    match op
    case StoreOp(_) => Call(s, a, None, fault)
    case DeleteOp => if found.previous.Some? then Call(s, a, found.previous, fault) else s
    case ReplaceOp(_) => Call(s, a, found.previous, fault)
  }

  predicate Restores(op: Op, found: Found, fault: Fault) {
    fault.Succeeds? || (op.DeleteOp? && found.previous.None?)
  }

  /** What a getter does with the tokens it loaded. */
  function Loaded(k: Kind, tokens: Option<Tokens>): Phase {
    if tokens.None? || (Caches(k) && !tokens.value.expired) || tokens.value.refresh.None? then Leaving
    else Ready(k, tokens.value)
  }

  /** What a getter stores after a granted refresh; the Graph getter keeps the stored
      access token and stores only a new refresh token. */
  function Refreshed(k: Kind, kept: Tokens, granted: Tokens): Phase {
    if !k.Graph? then Storing(k, granted)
    else if granted.refresh.Some? then Storing(k, kept.(refresh := granted.refresh))
    else Leaving
  }

  function Received(s: State, t: TaskId, response: Response): State
    requires t in s.tasks && s.tasks[t].phase.Waiting?
  {
    var p, a := s.tasks[t].phase, s.tasks[t].account;
    match response
    case Granted(tokens) => Move(s, t, Refreshed(p.kind, p.tokens, tokens))
    case InvalidGrant => Move(if Latches(p.kind) then Mark(s, a) else s, t, Leaving)
    case Failure => Move(s, t, Leaving)
  }

  function NextGetting(s: State, step: Step): State
    requires Enabled(s, step) && (step.CheckLatch? || step.Load? || step.Send? || step.Receive? || step.Put?)
  {
    var t := step.task;
    var a, p := s.tasks[t].account, s.tasks[t].phase;
    match step
    case CheckLatch(_) => Move(s, t, if Checks(p.kind) && a in s.latch then Leaving else Loading(p.kind))
    case Load(_, ok) => Move(s, t, Loaded(p.kind, if ok then TokensOf(s.store, a) else None))
    case Send(_) => Log(Move(s, t, Waiting(p.kind, p.tokens)), Sent(p.kind, a, p.tokens.refresh.value))
    case Receive(_, response) => Received(s, t, response)
    case Put(_, fault) =>
      Move(Call(s, a, Some(p.tokens), fault), t, if fault.Succeeds? && p.kind.Zoom? then Clearing else Leaving)
  }

  function NextLifecycle(s: State, step: Step): State
    requires Enabled(s, step) && (step.Snapshot? || step.Change? || step.Commit? || step.Compensate? || step.PutBack?)
  {
    var t := step.task;
    var a, p := s.tasks[t].account, s.tasks[t].phase;
    match step
    case Snapshot(_, ok) =>
      var found := Found(a in s.latch, TokensOf(s.store, a));
      Move(s, t, if ok then Changing(p.op, found) else Leaving)
    case Change(_, fault) =>
      Move(Call(s, a, Wanted(p.op), fault), t, if fault.Succeeds? then Committing(p.op, p.found) else Compensating(p.op, p.found))
    case Commit(_, ok) =>
      if ok then Log(Move(s, t, Clearing), Succeeded(a, ByCommit)) else Move(s, t, Compensating(p.op, p.found))
    case Compensate(_, fault) =>
      Move(Undo(s, a, p.op, p.found, fault), t, Marking(p.op, p.found, Restores(p.op, p.found, fault)))
    case PutBack(_) =>
      Move(if !p.op.StoreOp? && p.found.latched then Mark(s, a) else s, t, GivingUp(p.op, p.found, p.restored))
  }

  function Next(s: State, step: Step): State
    requires Enabled(s, step)
  {
    var t := step.task;
    match step
    case Begin(_, k, a) => Acquire(s, t, a, Checking(k))
    case BeginLifecycle(_, op, a) =>
      Acquire(s, t, a, if op.StoreOp? then Changing(op, Found(false, None)) else Snapshotting(op))
    case Clear(_) => Move(Unmark(s, s.tasks[t].account), t, Leaving)
    case Abandon(_) => Move(s, t, Leaving)
    case Release(_) =>
      s.(locks := s.locks - {s.tasks[t].account}, tasks := s.tasks[t := Task(s.tasks[t].account, Idle)])
    case CheckLatch(_) => NextGetting(s, step)
    case Load(_, _) => NextGetting(s, step)
    case Send(_) => NextGetting(s, step)
    case Receive(_, _) => NextGetting(s, step)
    case Put(_, _) => NextGetting(s, step)
    case Snapshot(_, _) => NextLifecycle(s, step)
    case Change(_, _) => NextLifecycle(s, step)
    case Commit(_, _) => NextLifecycle(s, step)
    case Compensate(_, _) => NextLifecycle(s, step)
    case PutBack(_) => NextLifecycle(s, step)
  }

  /** The state after a run, if every step was enabled. */
  function After(store: map<Account, Tokens>, steps: seq<Step>): Option<State> {
    if steps == [] then Some(Start(store))
    else
      match After(store, steps[..|steps| - 1])
      case None => None
      case Some(s) =>
        var step := steps[|steps| - 1];
        if Enabled(s, step) then Some(Next(s, step)) else None
  }

  ghost predicate Reachable(s: State) {
    exists store, steps :: After(store, steps) == Some(s)
  }

  // ------------------------------------------------------------ the invariant

  /** Exactly the busy tasks hold locks, each that of its own account. */
  predicate LocksOk(locks: map<Account, TaskId>, tasks: map<TaskId, Task>) {
    && (forall a <- locks :: locks[a] in tasks && tasks[locks[a]].account == a && !tasks[locks[a]].phase.Idle?)
    && (forall t <- tasks :: !tasks[t].phase.Idle? ==> tasks[t].account in locks && locks[tasks[t].account] == t)
  }

  /** The last event that succeeded for, latched or cleared the account. */
  function Last(log: seq<Event>, a: Account): Option<Event> {
    if log == [] then None
    else if log[|log| - 1].account == a && !log[|log| - 1].Sent? then Some(log[|log| - 1])
    else Last(log[..|log| - 1], a)
  }

  predicate Holds(store: map<Account, Tokens>, a: Account, tokens: Option<Tokens>) {
    if tokens.Some? then a in store && store[a] == tokens.value else a !in store
  }

  /** A task past its latch check sees no latch; one past its load sees the tokens that
      it loaded still in the store; one that is about to clear has just succeeded. */
  predicate GettingOk(task: Task, store: map<Account, Tokens>, latch: set<Account>, log: seq<Event>) {
    var p, a := task.phase, task.account;
    && ((p.Loading? || p.Ready? || p.Waiting?) && Checks(p.kind) ==> a !in latch)
    && (p.Ready? || p.Waiting? ==> p.tokens.refresh.Some? && Holds(store, a, Some(p.tokens)))
    && (p.Clearing? && a in latch ==> Last(log, a).Some? && Last(log, a).value.Succeeded?)
  }

  /** The snapshot of an operation that takes one. */
  predicate Snapped(p: Phase) {
    (p.Changing? || p.Committing? || p.Compensating? || p.Marking? || p.GivingUp?) && !p.op.StoreOp?
  }

  /** A latch that is set was found set; what a deletion did not find is not there; what
      has been put back is there again; and an undone operation has the latch it found. */
  predicate LifecycleOk(task: Task, store: map<Account, Tokens>, latch: set<Account>) {
    var p, a := task.phase, task.account;
    Snapped(p) ==>
      && (a in latch ==> p.found.latched)
      && (p.op.DeleteOp? && p.found.previous.None? ==> a !in store)
      && ((p.Marking? || p.GivingUp?) && p.restored ==> Holds(store, a, p.found.previous))
      && (p.GivingUp? ==> (a in latch <==> p.found.latched))
  }

  predicate TaskOk(task: Task, store: map<Account, Tokens>, latch: set<Account>, log: seq<Event>) {
    GettingOk(task, store, latch, log) && LifecycleOk(task, store, latch)
  }

  predicate TasksOk(tasks: map<TaskId, Task>, store: map<Account, Tokens>, latch: set<Account>, log: seq<Event>) {
    forall t <- tasks :: TaskOk(tasks[t], store, latch, log)
  }

  /** Whether the log's last word on the account is that it is latched. */
  predicate LatchedBy(log: seq<Event>, a: Account) {
    if log == [] then false
    else
      match log[|log| - 1]
      case Latched(b) => if a == b then true else LatchedBy(log[..|log| - 1], a)
      case Cleared(b) => if a == b then false else LatchedBy(log[..|log| - 1], a)
      case Sent(_, _, _) => LatchedBy(log[..|log| - 1], a)
      case Succeeded(_, _) => LatchedBy(log[..|log| - 1], a)
  }

  ghost predicate LatchOk(log: seq<Event>, latch: set<Account>) {
    forall a :: a in latch <==> LatchedBy(log, a)
  }

  /** An event that may follow a log: no checked refresh is sent while its account is
      latched, and a latch is cleared only right after a success for its account. */
  predicate MayFollow(log: seq<Event>, e: Event) {
    && (e.Sent? && Checks(e.kind) ==> !LatchedBy(log, e.account))
    && (e.Cleared? ==> Last(log, e.account).Some? && Last(log, e.account).value.Succeeded?)
  }

  predicate LogOk(log: seq<Event>) {
    forall j :: 0 <= j < |log| ==> MayFollow(log[..j], log[j])
  }

  ghost predicate Inv(s: State) {
    && LocksOk(s.locks, s.tasks) && TasksOk(s.tasks, s.store, s.latch, s.log)
    && LatchOk(s.log, s.latch) && LogOk(s.log)
  }

  // ------------------------------------------------------------ steps keep the invariant

  lemma LogSnoc(log: seq<Event>, e: Event)
    requires LogOk(log) && MayFollow(log, e)
    ensures LogOk(log + [e])
  {
    var more := log + [e];
    forall j | 0 <= j < |more| ensures MayFollow(more[..j], more[j]) {
      assert more[..j] == if j < |log| then log[..j] else log;
    }
  }

  lemma LastSnoc(log: seq<Event>, e: Event, a: Account)
    ensures Last(log + [e], a) == if e.account == a && !e.Sent? then Some(e) else Last(log, a)
    ensures LatchedBy(log + [e], a) ==
      if e.account == a && e.Latched? then true else if e.account == a && e.Cleared? then false else LatchedBy(log, a)
  {
    assert (log + [e])[..|log|] == log;
  }

  lemma MoveLocks(locks: map<Account, TaskId>, tasks: map<TaskId, Task>, t: TaskId, p: Phase)
    requires LocksOk(locks, tasks) && t in tasks && !tasks[t].phase.Idle? && !p.Idle?
    ensures LocksOk(locks, tasks[t := Task(tasks[t].account, p)])
  {
  }

  lemma AcquireLocks(locks: map<Account, TaskId>, tasks: map<TaskId, Task>, t: TaskId, a: Account, p: Phase)
    requires LocksOk(locks, tasks) && a !in locks && (t in tasks ==> tasks[t].phase.Idle?) && !p.Idle?
    ensures LocksOk(locks[a := t], tasks[t := Task(a, p)])
  {
  }

  lemma ReleaseLocks(locks: map<Account, TaskId>, tasks: map<TaskId, Task>, t: TaskId)
    requires LocksOk(locks, tasks) && t in tasks && !tasks[t].phase.Idle?
    ensures LocksOk(locks - {tasks[t].account}, tasks[t := Task(tasks[t].account, Idle)])
  {
  }

  /** Two stores that differ at most in the account. */
  ghost predicate SameElsewhere(one: map<Account, Tokens>, other: map<Account, Tokens>, a: Account) {
    forall b :: b != a ==> (b in one <==> b in other) && (b in one ==> one[b] == other[b])
  }

  /** What a task may do to the shared state: change the tokens and the latch of its own
      account, and log events about it, each of which may follow. */
  ghost predicate OwnChange(s: State, next: State, a: Account) {
    && next.locks == s.locks && next.tasks == s.tasks
    && SameElsewhere(next.store, s.store, a)
    && (forall b :: b != a ==> (b in next.latch <==> b in s.latch) && Last(next.log, b) == Last(s.log, b))
    && LatchOk(next.log, next.latch) && LogOk(next.log)
  }

  lemma NoChange(s: State, a: Account)
    requires Inv(s)
    ensures OwnChange(s, s, a)
  {
  }

  lemma LogChange(s: State, e: Event)
    requires LatchOk(s.log, s.latch) && LogOk(s.log) && MayFollow(s.log, e) && (e.Sent? || e.Succeeded?)
    ensures OwnChange(s, Log(s, e), e.account)
    ensures Last(Log(s, e).log, e.account) == if e.Sent? then Last(s.log, e.account) else Some(e)
  {
    LogSnoc(s.log, e);
    forall b ensures Last(s.log + [e], b) == (if e.account == b && !e.Sent? then Some(e) else Last(s.log, b))
      && LatchedBy(s.log + [e], b) == LatchedBy(s.log, b)
    {
      LastSnoc(s.log, e, b);
    }
  }

  lemma MarkChange(s: State, a: Account)
    requires LatchOk(s.log, s.latch) && LogOk(s.log)
    ensures OwnChange(s, Mark(s, a), a) && a in Mark(s, a).latch
  {
    LogSnoc(s.log, Latched(a));
    forall b ensures (b != a ==> Last(s.log + [Latched(a)], b) == Last(s.log, b))
      && LatchedBy(s.log + [Latched(a)], b) == (b == a || LatchedBy(s.log, b))
    {
      LastSnoc(s.log, Latched(a), b);
    }
  }

  lemma UnmarkChange(s: State, a: Account)
    requires LatchOk(s.log, s.latch) && LogOk(s.log)
    requires a in s.latch ==> Last(s.log, a).Some? && Last(s.log, a).value.Succeeded?
    ensures OwnChange(s, Unmark(s, a), a) && a !in Unmark(s, a).latch
  {
    if a in s.latch {
      LogSnoc(s.log, Cleared(a));
      forall b ensures (b != a ==> Last(s.log + [Cleared(a)], b) == Last(s.log, b))
        && LatchedBy(s.log + [Cleared(a)], b) == (b != a && LatchedBy(s.log, b))
      {
        LastSnoc(s.log, Cleared(a), b);
      }
    }
  }

  lemma ChangeTwice(s: State, u: State, v: State, a: Account)
    requires OwnChange(s, u, a) && OwnChange(u, v, a)
    ensures OwnChange(s, v, a)
  {
  }

  lemma StoreChange(s: State, store: map<Account, Tokens>, a: Account)
    requires LatchOk(s.log, s.latch) && LogOk(s.log) && SameElsewhere(store, s.store, a)
    ensures OwnChange(s, s.(store := store), a)
  {
  }

  /** What a call leaves: a failure changes at most the tokens, a success may clear the
      latch, and a success that does not is the account's last event. */
  lemma CallChange(s: State, a: Account, value: Option<Tokens>, fault: Fault)
    requires LatchOk(s.log, s.latch) && LogOk(s.log)
    ensures var next := Call(s, a, value, fault);
      && OwnChange(s, next, a)
      && (a in next.latch ==> a in s.latch)
      && (fault.Succeeds? ==> Holds(next.store, a, value))
      && (value.None? && a !in s.store ==> a !in next.store)
      && (fault.Succeeds? && a in next.latch ==> Last(next.log, a).Some? && Last(next.log, a).value.Succeeded?)
  {
    var store := Stored(s.store, a, value, fault);
    var s1 := s.(store := store);
    StoreChange(s, store, a);
    if fault.Succeeds? {
      var e := Succeeded(a, if value.Some? then ByStore else ByDelete);
      LogChange(s1, e);
      ChangeTwice(s, s1, Log(s1, e), a);
      if fault.clears {
        UnmarkChange(Log(s1, e), a);
        ChangeTwice(s, Log(s1, e), Unmark(Log(s1, e), a), a);
      }
    }
  }

  /** Other tasks do not look at the owner's account. */
  lemma OthersStayOk(s: State, next: State, t: TaskId, u: TaskId)
    requires LocksOk(s.locks, s.tasks) && t in s.tasks && u in s.tasks && u != t && !s.tasks[t].phase.Idle?
    requires OwnChange(s, next, s.tasks[t].account) && TaskOk(s.tasks[u], s.store, s.latch, s.log)
    ensures TaskOk(s.tasks[u], next.store, next.latch, next.log)
  {
    if !s.tasks[u].phase.Idle? {
      assert s.tasks[u].account != s.tasks[t].account;
    }
  }

  /** A change by the owner of an account, and its next phase. */
  lemma OwnerStep(s: State, next: State, t: TaskId, p: Phase)
    requires Inv(s) && t in s.tasks && !s.tasks[t].phase.Idle? && !p.Idle?
    requires OwnChange(s, next, s.tasks[t].account)
    requires TaskOk(Task(s.tasks[t].account, p), next.store, next.latch, next.log)
    ensures Inv(Move(next, t, p))
  {
    MoveLocks(s.locks, s.tasks, t, p);
    forall u | u in s.tasks && u != t ensures TaskOk(s.tasks[u], next.store, next.latch, next.log) {
      OthersStayOk(s, next, t, u);
    }
  }

  lemma LockSteps(s: State, step: Step)
    requires Inv(s) && Enabled(s, step) && (step.Begin? || step.BeginLifecycle? || step.Release?)
    ensures Inv(Next(s, step))
  {
    var t, next := step.task, Next(s, step);
    match step {
      case Begin(_, k, a) => AcquireLocks(s.locks, s.tasks, t, a, Checking(k));
      case BeginLifecycle(_, op, a) => AcquireLocks(s.locks, s.tasks, t, a, next.tasks[t].phase);
      case Release(_) => ReleaseLocks(s.locks, s.tasks, t);
    }
  }

  lemma ReadSteps(s: State, step: Step)
    requires Inv(s) && Enabled(s, step) && (step.CheckLatch? || step.Load? || step.Abandon? || step.Snapshot?)
    ensures Inv(Next(s, step))
  {
    var t := step.task;
    NoChange(s, s.tasks[t].account);
    OwnerStep(s, s, t, Next(s, step).tasks[t].phase);
  }

  lemma SendStep(s: State, t: TaskId)
    requires Inv(s) && Enabled(s, Send(t))
    ensures Inv(Next(s, Send(t)))
  {
    var p, a := s.tasks[t].phase, s.tasks[t].account;
    assert TaskOk(s.tasks[t], s.store, s.latch, s.log);
    var e := Sent(p.kind, a, p.tokens.refresh.value);
    LogChange(s, e);
    OwnerStep(s, Log(s, e), t, Waiting(p.kind, p.tokens));
  }

  lemma ReceiveStep(s: State, step: Step)
    requires Inv(s) && Enabled(s, step) && step.Receive?
    ensures Inv(Next(s, step))
  {
    var t := step.task;
    var a, p := s.tasks[t].account, s.tasks[t].phase;
    if step.response.InvalidGrant? && Latches(p.kind) {
      MarkChange(s, a);
      OwnerStep(s, Mark(s, a), t, Leaving);
    } else {
      NoChange(s, a);
      OwnerStep(s, s, t, Next(s, step).tasks[t].phase);
    }
  }

  lemma PutStep(s: State, step: Step)
    requires Inv(s) && Enabled(s, step) && step.Put?
    ensures Inv(Next(s, step))
  {
    var t := step.task;
    var a, p := s.tasks[t].account, s.tasks[t].phase;
    CallChange(s, a, Some(p.tokens), step.fault);
    OwnerStep(s, Call(s, a, Some(p.tokens), step.fault), t, Next(s, step).tasks[t].phase);
  }

  lemma ClearStep(s: State, step: Step)
    requires Inv(s) && Enabled(s, step) && step.Clear?
    ensures Inv(Next(s, step))
  {
    var t := step.task;
    var a := s.tasks[t].account;
    assert TaskOk(s.tasks[t], s.store, s.latch, s.log);
    UnmarkChange(s, a);
    OwnerStep(s, Unmark(s, a), t, Leaving);
  }

  lemma ChangeStep(s: State, step: Step)
    requires Inv(s) && Enabled(s, step) && step.Change?
    ensures Inv(Next(s, step))
  {
    var t := step.task;
    var a, p := s.tasks[t].account, s.tasks[t].phase;
    assert TaskOk(s.tasks[t], s.store, s.latch, s.log);
    CallChange(s, a, Wanted(p.op), step.fault);
    OwnerStep(s, Call(s, a, Wanted(p.op), step.fault), t, Next(s, step).tasks[t].phase);
  }

  lemma CommitStep(s: State, step: Step)
    requires Inv(s) && Enabled(s, step) && step.Commit?
    ensures Inv(Next(s, step))
  {
    var t := step.task;
    var a, p := s.tasks[t].account, s.tasks[t].phase;
    assert TaskOk(s.tasks[t], s.store, s.latch, s.log);
    if step.ok {
      LogChange(s, Succeeded(a, ByCommit));
      OwnerStep(s, Log(s, Succeeded(a, ByCommit)), t, Clearing);
    } else {
      NoChange(s, a);
      OwnerStep(s, s, t, Compensating(p.op, p.found));
    }
  }

  lemma CompensateStep(s: State, step: Step)
    requires Inv(s) && Enabled(s, step) && step.Compensate?
    ensures Inv(Next(s, step))
  {
    var t := step.task;
    var a, p := s.tasks[t].account, s.tasks[t].phase;
    assert TaskOk(s.tasks[t], s.store, s.latch, s.log);
    if p.op.DeleteOp? && p.found.previous.None? {
      NoChange(s, a);
    } else {
      CallChange(s, a, if p.op.StoreOp? then None else p.found.previous, step.fault);
    }
    OwnerStep(s, Undo(s, a, p.op, p.found, step.fault), t, Next(s, step).tasks[t].phase);
  }

  lemma PutBackStep(s: State, step: Step)
    requires Inv(s) && Enabled(s, step) && step.PutBack?
    ensures Inv(Next(s, step))
  {
    var t := step.task;
    var a, p := s.tasks[t].account, s.tasks[t].phase;
    assert TaskOk(s.tasks[t], s.store, s.latch, s.log);
    if !p.op.StoreOp? && p.found.latched {
      MarkChange(s, a);
      OwnerStep(s, Mark(s, a), t, GivingUp(p.op, p.found, p.restored));
    } else {
      NoChange(s, a);
      OwnerStep(s, s, t, GivingUp(p.op, p.found, p.restored));
    }
  }

  lemma StepKeeps(s: State, step: Step)
    requires Inv(s) && Enabled(s, step)
    ensures Inv(Next(s, step))
  {
    match step {
      case Begin(_, _, _) => LockSteps(s, step);
      case BeginLifecycle(_, _, _) => LockSteps(s, step);
      case Release(_) => LockSteps(s, step);
      case CheckLatch(_) => ReadSteps(s, step);
      case Load(_, _) => ReadSteps(s, step);
      case Abandon(_) => ReadSteps(s, step);
      case Snapshot(_, _) => ReadSteps(s, step);
      case Send(t) => SendStep(s, t);
      case Receive(_, _) => ReceiveStep(s, step);
      case Put(_, _) => PutStep(s, step);
      case Clear(_) => ClearStep(s, step);
      case Change(_, _) => ChangeStep(s, step);
      case Commit(_, _) => CommitStep(s, step);
      case Compensate(_, _) => CompensateStep(s, step);
      case PutBack(_) => PutBackStep(s, step);
    }
  }

  /** The invariant holds after every run. */
  lemma {:induction false} RunsKeep(store: map<Account, Tokens>, steps: seq<Step>)
    requires After(store, steps).Some?
    ensures Inv(After(store, steps).value)
  {
    if steps != [] {
      var before := steps[..|steps| - 1];
      RunsKeep(store, before);
      StepKeeps(After(store, before).value, steps[|steps| - 1]);
    }
  }

  // ------------------------------------------------------------ what every run promises

  /** Two refreshes of one account are never in flight together. */
  lemma RefreshesNeverOverlap(s: State, t: TaskId, u: TaskId)
    requires Reachable(s) && PhaseOf(s, t).Waiting? && PhaseOf(s, u).Waiting? && s.tasks[t].account == s.tasks[u].account
    ensures t == u
  {
    var store, steps :| After(store, steps) == Some(s);
    RunsKeep(store, steps);
  }

  /** A refresh presents the refresh token that is in the store when it is sent, and
      that token stays there for as long as the refresh is in flight. */
  lemma RefreshPresentsStored(s: State, t: TaskId)
    requires Reachable(s) && (PhaseOf(s, t).Ready? || PhaseOf(s, t).Waiting?)
    ensures var a, p := s.tasks[t].account, s.tasks[t].phase;
      && a in s.store && s.store[a].refresh.Some?
      && p.tokens == s.store[a]
      && (p.Ready? ==> Next(s, Send(t)).log == s.log + [Sent(p.kind, a, s.store[a].refresh.value)])
  {
    var store, steps :| After(store, steps) == Some(s);
    RunsKeep(store, steps);
    assert TaskOk(s.tasks[t], s.store, s.latch, s.log);
  }

  lemma {:induction false} ClearedBetween(log: seq<Event>, i: nat, a: Account) returns (m: nat)
    requires i < |log| && log[i] == Latched(a) && !LatchedBy(log, a)
    ensures i < m < |log| && log[m] == Cleared(a) && forall k :: m < k < |log| ==> log[k] != Latched(a)
    decreases |log|
  {
    m := |log| - 1;
    if log[m] != Cleared(a) {
      var before := log[..m];
      m := ClearedBetween(before, i, a);
      assert log[m] == before[m] && forall k :: m < k < |before| ==> log[k] == before[k];
    }
  }

  lemma {:induction false} LastFrom(log: seq<Event>, i: nat, a: Account) returns (c: nat)
    requires i < |log| && log[i] == Latched(a) && Last(log, a).Some? && Last(log, a).value.Succeeded?
    ensures i < c < |log| && log[c] == Last(log, a).value && log[c].account == a
    decreases |log|
  {
    c := |log| - 1;
    if !(log[c].account == a && !log[c].Sent?) {
      var before := log[..c];
      c := LastFrom(before, i, a);
      assert log[c] == before[c];
    }
  }

  /** Once an account has been latched, a Zoom, Graph or mail refresh is sent for it only
      after its latch has been cleared for good: by a store, a delete or a commit that
      succeeded since, and not latched again in between. */
  lemma NoRefreshWhileLatched(s: State, i: nat, j: nat) returns (c: nat, m: nat)
    requires Reachable(s) && i < j < |s.log|
    requires s.log[j].Sent? && Checks(s.log[j].kind) && s.log[i] == Latched(s.log[j].account)
    ensures i < c < m < j && s.log[m] == Cleared(s.log[j].account)
    ensures s.log[c].Succeeded? && s.log[c].account == s.log[j].account
    ensures forall k :: m < k < j ==> s.log[k] != Latched(s.log[j].account)
  {
    var store, steps :| After(store, steps) == Some(s);
    RunsKeep(store, steps);
    var a := s.log[j].account;
    assert MayFollow(s.log[..j], s.log[j]);
    m := ClearedBetween(s.log[..j], i, a);
    assert s.log[m] == s.log[..j][m] && forall k :: m < k < j ==> s.log[k] == s.log[..j][k];
    assert MayFollow(s.log[..m], s.log[m]);
    c := LastFrom(s.log[..m], i, a);
    assert s.log[c] == s.log[..m][c];
  }

  /** The latch holds exactly the accounts whose last log entry about it latched them. */
  lemma LatchIsLogged(s: State, a: Account)
    requires Reachable(s)
    ensures a in s.latch <==> LatchedBy(s.log, a)
  {
    var store, steps :| After(store, steps) == Some(s);
    RunsKeep(store, steps);
  }

  /** Every clearing of a latch follows a success for its account. */
  lemma ClearingFollowsSuccess(s: State, m: nat)
    requires Reachable(s) && m < |s.log| && s.log[m].Cleared?
    ensures var last := Last(s.log[..m], s.log[m].account); last.Some? && last.value.Succeeded?
  {
    var store, steps :| After(store, steps) == Some(s);
    RunsKeep(store, steps);
    assert MayFollow(s.log[..m], s.log[m]);
  }

  /** A delete or replace that failed gives up the lock with the latch that it found, and,
      if its compensation succeeded, with the tokens that it found. */
  lemma FailedChangeRestores(s: State, t: TaskId)
    requires Reachable(s) && PhaseOf(s, t).GivingUp? && !PhaseOf(s, t).op.StoreOp?
    ensures var a, p := s.tasks[t].account, s.tasks[t].phase;
      && (a in s.latch <==> p.found.latched)
      && (p.restored ==> Holds(s.store, a, p.found.previous))
  {
    var store, steps :| After(store, steps) == Some(s);
    RunsKeep(store, steps);
    assert TaskOk(s.tasks[t], s.store, s.latch, s.log);
  }

  // ------------------------------------------------------------ from taking the lock to giving it up

  /** The state after a run that begins in a given state. */
  function RunFrom(s: State, steps: seq<Step>): Option<State>
    decreases |steps|
  {
    if steps == [] then Some(s)
    else if Enabled(s, steps[0]) then RunFrom(Next(s, steps[0]), steps[1..])
    else None
  }

  /** Nothing about the account, and nothing about the task, is changed. */
  predicate Untouched(u: State, next: State, a: Account, t: TaskId) {
    && (a in next.latch <==> a in u.latch) && TokensOf(next.store, a) == TokensOf(u.store, a)
    && (t in u.tasks ==> t in next.tasks && next.tasks[t] == u.tasks[t])
  }

  lemma CallElsewhere(u: State, b: Account, value: Option<Tokens>, fault: Fault, a: Account, t: TaskId)
    requires a != b
    ensures Untouched(u, Call(u, b, value, fault), a, t)
  {
  }

  lemma GettingElsewhere(u: State, step: Step, a: Account, t: TaskId)
    requires Enabled(u, step) && (step.CheckLatch? || step.Load? || step.Send? || step.Receive? || step.Put?)
    requires step.task != t && u.tasks[step.task].account != a
    ensures Untouched(u, Next(u, step), a, t)
  {
    if step.Put? {
      CallElsewhere(u, u.tasks[step.task].account, Some(u.tasks[step.task].phase.tokens), step.fault, a, t);
    }
  }

  lemma LifecycleElsewhere(u: State, step: Step, a: Account, t: TaskId)
    requires Enabled(u, step) && (step.Snapshot? || step.Change? || step.Commit? || step.Compensate? || step.PutBack?)
    requires step.task != t && u.tasks[step.task].account != a
    ensures Untouched(u, Next(u, step), a, t)
  {
    var b, p := u.tasks[step.task].account, u.tasks[step.task].phase;
    if step.Change? {
      CallElsewhere(u, b, Wanted(p.op), step.fault, a, t);
    } else if step.Compensate? {
      CallElsewhere(u, b, None, step.fault, a, t);
      CallElsewhere(u, b, p.found.previous, step.fault, a, t);
    }
  }

  /** A step of one task leaves the accounts that others have locked alone. */
  lemma OthersKeep(u: State, step: Step, t: TaskId)
    requires LocksOk(u.locks, u.tasks) && Enabled(u, step) && step.task != t && t in u.tasks && !u.tasks[t].phase.Idle?
    ensures Untouched(u, Next(u, step), u.tasks[t].account, t)
  {
    var a := u.tasks[t].account;
    assert u.locks[a] == t;
    match step {
      case Begin(_, _, _) =>
      case BeginLifecycle(_, _, _) =>
      case Clear(_) =>
      case Abandon(_) =>
      case Release(_) =>
      case CheckLatch(_) => GettingElsewhere(u, step, a, t);
      case Load(_, _) => GettingElsewhere(u, step, a, t);
      case Send(_) => GettingElsewhere(u, step, a, t);
      case Receive(_, _) => GettingElsewhere(u, step, a, t);
      case Put(_, _) => GettingElsewhere(u, step, a, t);
      case Snapshot(_, _) => LifecycleElsewhere(u, step, a, t);
      case Change(_, _) => LifecycleElsewhere(u, step, a, t);
      case Commit(_, _) => LifecycleElsewhere(u, step, a, t);
      case Compensate(_, _) => LifecycleElsewhere(u, step, a, t);
      case PutBack(_) => LifecycleElsewhere(u, step, a, t);
    }
  }

  /** Since `t` took the lock of `a` for the operation in state `s`: until the snapshot
      nothing about the account has changed, and the snapshot is what was found. */
  ghost predicate Since(s: State, u: State, t: TaskId, op: Op, a: Account) {
    && t in u.tasks && u.tasks[t].account == a
    && var p := u.tasks[t].phase;
       || p.Clearing? || p.Leaving?
       || (p == Snapshotting(op) && (a in u.latch <==> a in s.latch) && TokensOf(u.store, a) == TokensOf(s.store, a))
       || (Snapped(p) && p.op == op && p.found == Found(a in s.latch, TokensOf(s.store, a)))
  }

  lemma SinceOwnStep(s: State, u: State, step: Step, op: Op, a: Account)
    requires Enabled(u, step) && Since(s, u, step.task, op, a) && !op.StoreOp? && !step.Release?
    ensures Since(s, Next(u, step), step.task, op, a)
  {
    var p := u.tasks[step.task].phase;
    assert p.Clearing? || p.Snapshotting? || Snapped(p);
  }

  lemma SinceStep(s: State, u: State, step: Step, t: TaskId, op: Op, a: Account)
    requires Inv(u) && Enabled(u, step) && Since(s, u, t, op, a) && !op.StoreOp?
    requires step.task == t ==> !step.Release?
    ensures Since(s, Next(u, step), t, op, a)
  {
    if step.task == t {
      SinceOwnStep(s, u, step, op, a);
    } else {
      OthersKeep(u, step, t);
    }
  }

  lemma {:induction false} SinceRuns(s: State, u: State, steps: seq<Step>, t: TaskId, op: Op, a: Account)
    requires Inv(u) && Since(s, u, t, op, a) && !op.StoreOp? && RunFrom(u, steps).Some?
    requires forall i :: 0 <= i < |steps| && steps[i].task == t ==> !steps[i].Release?
    ensures Inv(RunFrom(u, steps).value) && Since(s, RunFrom(u, steps).value, t, op, a)
    decreases |steps|
  {
    if steps != [] {
      SinceStep(s, u, steps[0], t, op, a);
      StepKeeps(u, steps[0]);
      SinceRuns(s, Next(u, steps[0]), steps[1..], t, op, a);
    }
  }

  /** From the state in which a delete or a replace takes the lock, through any run, to the
      state in which it has failed and is about to give the lock up: the account's latch
      is as it was, and so are its tokens if the compensation succeeded. */
  lemma FailureLeavesAsFound(s: State, t: TaskId, op: Op, a: Account, steps: seq<Step>)
    requires Reachable(s) && Enabled(s, BeginLifecycle(t, op, a)) && !op.StoreOp?
    requires forall i :: 0 <= i < |steps| && steps[i].task == t ==> !steps[i].Release?
    requires var end := RunFrom(Next(s, BeginLifecycle(t, op, a)), steps); end.Some? && PhaseOf(end.value, t).GivingUp?
    ensures var u := RunFrom(Next(s, BeginLifecycle(t, op, a)), steps).value;
      && (a in u.latch <==> a in s.latch)
      && (PhaseOf(u, t).restored ==> TokensOf(u.store, a) == TokensOf(s.store, a))
  {
    var store, before :| After(store, before) == Some(s);
    RunsKeep(store, before);
    var begun := Next(s, BeginLifecycle(t, op, a));
    StepKeeps(s, BeginLifecycle(t, op, a));
    SinceRuns(s, begun, steps, t, op, a);
    var u := RunFrom(begun, steps).value;
    assert TaskOk(u.tasks[t], u.store, u.latch, u.log);
  }
}
