/** What one token getter does, whatever runs beside it: said of the steps that it took
    itself, from taking the account's lock to giving it up. */
module RefreshOutcome {
  import opened Basics
  import opened Refreshes

  /** The steps of one task. */
  function Own(steps: seq<Step>, t: TaskId): seq<Step> {
    if steps == [] then [] else (if steps[0].task == t then [steps[0]] else []) + Own(steps[1..], t)
  }

  /** A refresh is called for: there is a refresh token, and no cached token will do. */
  predicate Needed(k: Kind, found: Option<Tokens>) {
    found.Some? && found.value.refresh.Some? && (Caches(k) ==> found.value.expired)
  }

  /** The tokens to store: those granted, but Graph only exchanges its refresh token. */
  predicate Renewed(k: Kind, found: Option<Tokens>, granted: Tokens, now: Option<Tokens>) {
    && now.Some? && now.value.refresh == granted.refresh
    && (if k.Graph? then found.Some? && now.value.access == found.value.access && now.value.expired == found.value.expired
        else now.value.access == granted.access && now.value.expired == granted.expired)
  }

  /** The steps up to the answer of the token endpoint. */
  predicate Asked(own: seq<Step>, k: Kind, found: Option<Tokens>, latched: bool) {
    && |own| >= 4 && own[0].CheckLatch? && own[1].Load? && own[1].ok && own[2].Send? && own[3].Receive?
    && Needed(k, found) && !(Checks(k) && latched)
  }

  predicate Answered(own: seq<Step>, k: Kind, found: Option<Tokens>, latched: bool) {
    Asked(own, k, found, latched) && own[3].response.Granted? && (k.Graph? ==> own[3].response.tokens.refresh.Some?)
  }

  /** What the getter leaves, by the steps that it took:
      - a latched account is given up at once, and so is one that needs no refresh;
      - a rejected refresh latches the account, if the getter's kind does;
      - a granted one is stored, and a stored one may clear the latch, for Zoom always;
      - anything else leaves tokens and latch as they were. */
  predicate Ended(own: seq<Step>, k: Kind, found: Option<Tokens>, latched: bool, now: Option<Tokens>, nowLatched: bool) {
    var same := now == found && nowLatched == latched;
    && own != []
    && match own[|own| - 1]
       case Abandon(_) => same
       case CheckLatch(_) => same && |own| == 1 && Checks(k) && latched
       case Load(_, ok) => same && |own| == 2 && (ok ==> !Needed(k, found))
       case Receive(_, response) =>
         && |own| == 4 && Asked(own, k, found, latched)
         && (match response
             case Granted(tokens) => same && k.Graph? && tokens.refresh.None?
             case InvalidGrant => now == found && nowLatched == (latched || Latches(k))
             case Failure => same)
       case Put(_, fault) =>
         && |own| == 5 && Answered(own, k, found, latched)
         && (if fault.Succeeds? then !k.Zoom? && nowLatched == (latched && !fault.clears) else nowLatched == latched)
         && (if Applied(fault) then Renewed(k, found, own[3].response.tokens, now) else now == found)
       case Clear(_) =>
         && |own| == 6 && own[4].Put? && own[4].fault.Succeeds? && Answered(own, k, found, latched)
         && k.Zoom? && !nowLatched && Renewed(k, found, own[3].response.tokens, now)
       case _ => false
  }

  /** Where the getter is, by the steps that it has taken. */
  ghost predicate Getting(s: State, u: State, t: TaskId, k: Kind, a: Account, own: seq<Step>) {
    && t in u.tasks && u.tasks[t].account == a
    && var p, found, latched := u.tasks[t].phase, TokensOf(s.store, a), a in s.latch;
       var now, nowLatched := TokensOf(u.store, a), a in u.latch;
       var same := now == found && nowLatched == latched;
       match p
       case Checking(kind) => kind == k && same && own == []
       case Loading(kind) => kind == k && same && |own| == 1 && own[0].CheckLatch? && !(Checks(k) && latched)
       case Ready(kind, tokens) =>
         && kind == k && same && |own| == 2 && own[0].CheckLatch? && own[1].Load? && own[1].ok
         && found == Some(tokens) && Needed(k, found) && !(Checks(k) && latched)
       case Waiting(kind, tokens) =>
         && kind == k && same && |own| == 3 && own[0].CheckLatch? && own[1].Load? && own[1].ok && own[2].Send?
         && found == Some(tokens) && Needed(k, found) && !(Checks(k) && latched)
       case Storing(kind, tokens) =>
         kind == k && same && |own| == 4 && Answered(own, k, found, latched) && Renewed(k, found, own[3].response.tokens, Some(tokens))
       case Clearing =>
         && |own| == 5 && Answered(own, k, found, latched) && own[4].Put? && own[4].fault.Succeeds? && k.Zoom?
         && Renewed(k, found, own[3].response.tokens, now)
       case Leaving => Ended(own, k, found, latched, now, nowLatched)
       case _ => false
  }

  lemma Snoc(own: seq<Step>, step: Step)
    ensures |own + [step]| == |own| + 1 && (own + [step])[|own|] == step && forall i :: 0 <= i < |own| ==> (own + [step])[i] == own[i]
  {
  }

  /** Before the answer. */
  lemma AskingStep(s: State, u: State, step: Step, k: Kind, a: Account, own: seq<Step>, more: seq<Step>)
    requires Enabled(u, step) && Getting(s, u, step.task, k, a, own) && !step.Release? && more == own + [step]
    requires var p := u.tasks[step.task].phase; p.Checking? || p.Loading? || p.Ready?
    ensures Getting(s, Next(u, step), step.task, k, a, more)
  {
    Snoc(own, step);
  }

  lemma AnswerStep(s: State, u: State, step: Step, k: Kind, a: Account, own: seq<Step>, more: seq<Step>)
    requires Enabled(u, step) && Getting(s, u, step.task, k, a, own) && !step.Release? && more == own + [step]
    requires u.tasks[step.task].phase.Waiting?
    ensures Getting(s, Next(u, step), step.task, k, a, more)
  {
    Snoc(own, step);
  }

  lemma StoringStep(s: State, u: State, step: Step, k: Kind, a: Account, own: seq<Step>, more: seq<Step>)
    requires Enabled(u, step) && Getting(s, u, step.task, k, a, own) && !step.Release? && more == own + [step]
    requires var p := u.tasks[step.task].phase; p.Storing? || p.Clearing?
    ensures Getting(s, Next(u, step), step.task, k, a, more)
  {
    Snoc(own, step);
  }

  /** The same, said so that a lemma that only passes it on does not unfold it. */
  ghost predicate Underway(s: State, u: State, t: TaskId, k: Kind, a: Account, own: seq<Step>) {
    forall o {:trigger Getting(s, u, t, k, a, o)} :: o == own ==> Getting(s, u, t, k, a, o)
  }

  lemma OwnStep(s: State, u: State, step: Step, k: Kind, a: Account, own: seq<Step>)
    requires Enabled(u, step) && Getting(s, u, step.task, k, a, own) && !step.Release?
    ensures Underway(s, Next(u, step), step.task, k, a, own + [step])
  {
    var p := u.tasks[step.task].phase;
    if p.Waiting? {
      AnswerStep(s, u, step, k, a, own, own + [step]);
    } else if p.Storing? || p.Clearing? {
      StoringStep(s, u, step, k, a, own, own + [step]);
    } else {
      AskingStep(s, u, step, k, a, own, own + [step]);
    }
  }

  lemma OtherStep(s: State, u: State, step: Step, t: TaskId, k: Kind, a: Account, own: seq<Step>)
    requires Inv(u) && Enabled(u, step) && Getting(s, u, t, k, a, own) && step.task != t
    ensures Underway(s, Next(u, step), t, k, a, own)
  {
    OthersKeep(u, step, t);
  }

  lemma AnyStep(s: State, u: State, step: Step, t: TaskId, k: Kind, a: Account, own: seq<Step>)
    requires Inv(u) && Enabled(u, step) && Underway(s, u, t, k, a, own) && (step.task == t ==> !step.Release?)
    ensures Inv(Next(u, step)) && Underway(s, Next(u, step), t, k, a, if step.task == t then own + [step] else own)
  {
    assert Getting(s, u, t, k, a, own);
    StepKeeps(u, step);
    if step.task == t {
      OwnStep(s, u, step, k, a, own);
    } else {
      OtherStep(s, u, step, t, k, a, own);
    }
  }

  lemma OwnCons(own: seq<Step>, steps: seq<Step>, t: TaskId, more: seq<Step>)
    requires steps != [] && more == (if steps[0].task == t then own + [steps[0]] else own)
    ensures more + Own(steps[1..], t) == own + Own(steps, t)
  {
  }

  lemma {:induction false} GettingRuns(s: State, u: State, steps: seq<Step>, t: TaskId, k: Kind, a: Account, own: seq<Step>)
    requires Inv(u) && Underway(s, u, t, k, a, own) && RunFrom(u, steps).Some?
    requires forall i :: 0 <= i < |steps| && steps[i].task == t ==> !steps[i].Release?
    ensures Underway(s, RunFrom(u, steps).value, t, k, a, own + Own(steps, t))
    decreases |steps|
  {
    if steps == [] {
      assert own + Own(steps, t) == own;
    } else {
      var more := if steps[0].task == t then own + [steps[0]] else own;
      AnyStep(s, u, steps[0], t, k, a, own);
      GettingRuns(s, Next(u, steps[0]), steps[1..], t, k, a, more);
      OwnCons(own, steps, t, more);
    }
  }

  /** From the state in which a getter takes the lock, through any run, to the state in which
      it is about to give the lock up: its own steps alone decide the account's tokens and
      latch. */
  lemma GetterOutcome(s: State, t: TaskId, k: Kind, a: Account, steps: seq<Step>)
    requires Reachable(s) && Enabled(s, Begin(t, k, a))
    requires forall i :: 0 <= i < |steps| && steps[i].task == t ==> !steps[i].Release?
    requires var end := RunFrom(Next(s, Begin(t, k, a)), steps); end.Some? && PhaseOf(end.value, t).Leaving?
    ensures var u := RunFrom(Next(s, Begin(t, k, a)), steps).value;
      Ended(Own(steps, t), k, TokensOf(s.store, a), a in s.latch, TokensOf(u.store, a), a in u.latch)
  {
    var store, before :| After(store, before) == Some(s);
    RunsKeep(store, before);
    var begun := Next(s, Begin(t, k, a));
    StepKeeps(s, Begin(t, k, a));
    assert Getting(s, begun, t, k, a, []);
    GettingRuns(s, begun, steps, t, k, a, []);
    var u := RunFrom(begun, steps).value;
    assert [] + Own(steps, t) == Own(steps, t);
    assert Getting(s, u, t, k, a, Own(steps, t));
  }
}
