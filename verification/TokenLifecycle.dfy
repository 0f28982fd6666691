/** Changing an account's tokens together with its database record: if the commit
    fails, the tokens and the latch are put back. */
module TokenLifecycle {
  import opened Basics
  import opened Refreshes

  /** How an operation ends: done, failed with everything undone, or failed with the
      undoing failed too. */
  datatype Outcome = Committed | Undone | Stuck

  // ------------------------------------------------------------ operations as runs of steps

  /** How the calls of an operation end: the snapshot, the change, the commit and the undoing. */
  datatype Faults = Faults(loads: bool, change: Fault, commits: bool, undo: Fault)

  /** The steps of the undoing. */
  function UndoSteps(t: TaskId, f: Faults): seq<Step> {
    [Compensate(t, f.undo), PutBack(t), Release(t)]
  }

  function ChangeSteps(t: TaskId, f: Faults): seq<Step> {
    if f.change.Fails? then [Change(t, f.change)] + UndoSteps(t, f)
    else if f.commits then [Change(t, f.change), Commit(t, true), Clear(t), Release(t)]
    else [Change(t, f.change), Commit(t, false)] + UndoSteps(t, f)
  }

  /** The steps of an operation, from taking the lock to giving it up. */
  function OpSteps(t: TaskId, op: Op, a: Account, f: Faults): seq<Step> {
    [BeginLifecycle(t, op, a)] +
    if op.StoreOp? then ChangeSteps(t, f)
    else if f.loads then [Snapshot(t, true)] + ChangeSteps(t, f)
    else [Snapshot(t, false), Release(t)]
  }

  /** What an operation leaves. */
  datatype Ended = Ended(store: map<Account, Tokens>, latch: set<Account>, outcome: Outcome)

  function Unlatched(latch: set<Account>, a: Account, fault: Fault): set<Account> {
    if fault.Succeeds? && fault.clears then latch - {a} else latch
  }

  function FoundBy(store: map<Account, Tokens>, latch: set<Account>, op: Op, a: Account): Found {
    if op.StoreOp? then Found(false, None) else Found(a in latch, TokensOf(store, a))
  }

  function UndoResult(store: map<Account, Tokens>, latch: set<Account>, op: Op, a: Account, found: Found, fault: Fault): Ended {
    var skip := op.DeleteOp? && found.previous.None?;
    var unlatched := if skip then latch else Unlatched(latch, a, fault);
    Ended(
      if skip then store else Stored(store, a, found.previous, fault),
      if found.latched then unlatched + {a} else unlatched,
      if Restores(op, found, fault) then Undone else Stuck)
  }

  function OpResult(store: map<Account, Tokens>, latch: set<Account>, op: Op, a: Account, f: Faults): Ended {
    if !op.StoreOp? && !f.loads then Ended(store, latch, Undone)
    else
      var changed, unlatched := Stored(store, a, Wanted(op), f.change), Unlatched(latch, a, f.change);
      if f.change.Succeeds? && f.commits then Ended(changed, unlatched - {a}, Committed)
      else UndoResult(changed, unlatched, op, a, FoundBy(store, latch, op, a), f.undo)
  }

  /** The run ends with this store and latch, and with the task idle. */
  ghost predicate RunsTo(s: State, steps: seq<Step>, t: TaskId, store: map<Account, Tokens>, latch: set<Account>) {
    var u := RunFrom(s, steps);
    u.Some? && u.value.store == store && u.value.latch == latch && PhaseOf(u.value, t).Idle?
  }

  lemma RunCons(s: State, step: Step, steps: seq<Step>, t: TaskId, store: map<Account, Tokens>, latch: set<Account>)
    requires Enabled(s, step) && RunsTo(Next(s, step), steps, t, store, latch)
    ensures RunsTo(s, [step] + steps, t, store, latch)
  {
    assert ([step] + steps)[1..] == steps;
  }

  lemma RunEnds(s: State, t: TaskId)
    requires PhaseOf(s, t).Leaving? || PhaseOf(s, t).GivingUp?
    ensures RunsTo(s, [Release(t)], t, s.store, s.latch)
  {
    assert [Release(t)][1..] == [];
  }

  lemma CallIs(s: State, a: Account, value: Option<Tokens>, fault: Fault)
    ensures var u := Call(s, a, value, fault);
      u.store == Stored(s.store, a, value, fault) && u.latch == Unlatched(s.latch, a, fault) && u.tasks == s.tasks
  {
  }

  lemma UndoIs(s: State, a: Account, op: Op, found: Found, fault: Fault)
    requires op.StoreOp? ==> found == Found(false, None)
    ensures var u, r := Undo(s, a, op, found, fault), UndoResult(s.store, s.latch, op, a, found, fault);
      && u.store == r.store && u.tasks == s.tasks
      && r.latch == (if found.latched then u.latch + {a} else u.latch)
  {
    CallIs(s, a, found.previous, fault);
  }

  lemma UndoStates(s: State, t: TaskId, a: Account, op: Op, found: Found, fault: Fault)
    requires t in s.tasks && s.tasks[t] == Task(a, Compensating(op, found)) && (op.StoreOp? ==> found == Found(false, None))
    ensures var s1 := Next(s, Compensate(t, fault));
      && Enabled(s1, PutBack(t))
      && var s2, r := Next(s1, PutBack(t)), UndoResult(s.store, s.latch, op, a, found, fault);
         s2.store == r.store && s2.latch == r.latch && PhaseOf(s2, t).GivingUp?
  {
    UndoIs(s, a, op, found, fault);
  }

  lemma UndoRuns(s: State, t: TaskId, a: Account, op: Op, found: Found, f: Faults)
    requires t in s.tasks && s.tasks[t] == Task(a, Compensating(op, found)) && (op.StoreOp? ==> found == Found(false, None))
    ensures var r := UndoResult(s.store, s.latch, op, a, found, f.undo); RunsTo(s, UndoSteps(t, f), t, r.store, r.latch)
  {
    var s1 := Next(s, Compensate(t, f.undo));
    var s2 := Next(s1, PutBack(t));
    UndoStates(s, t, a, op, found, f.undo);
    RunEnds(s2, t);
    RunCons(s1, PutBack(t), [Release(t)], t, s2.store, s2.latch);
    assert [PutBack(t)] + [Release(t)] == [PutBack(t), Release(t)];
    RunCons(s, Compensate(t, f.undo), [PutBack(t), Release(t)], t, s2.store, s2.latch);
    assert [Compensate(t, f.undo)] + [PutBack(t), Release(t)] == UndoSteps(t, f);
  }

  lemma CommitRuns(s: State, t: TaskId, a: Account)
    requires t in s.tasks && s.tasks[t].account == a && s.tasks[t].phase.Committing?
    ensures RunsTo(s, [Commit(t, true), Clear(t), Release(t)], t, s.store, s.latch - {a})
  {
    var s1 := Next(s, Commit(t, true));
    var s2 := Next(s1, Clear(t));
    RunEnds(s2, t);
    RunCons(s1, Clear(t), [Release(t)], t, s2.store, s2.latch);
    assert [Clear(t)] + [Release(t)] == [Clear(t), Release(t)];
    RunCons(s, Commit(t, true), [Clear(t), Release(t)], t, s2.store, s2.latch);
    assert [Commit(t, true)] + [Clear(t), Release(t)] == [Commit(t, true), Clear(t), Release(t)];
  }

  lemma ChangeRuns(s: State, t: TaskId, a: Account, op: Op, found: Found, f: Faults)
    requires t in s.tasks && s.tasks[t] == Task(a, Changing(op, found)) && found == FoundBy(s.store, s.latch, op, a)
    requires op.StoreOp? || f.loads
    ensures var r := OpResult(s.store, s.latch, op, a, f); RunsTo(s, ChangeSteps(t, f), t, r.store, r.latch)
  {
    var r := OpResult(s.store, s.latch, op, a, f);
    var s1 := Next(s, Change(t, f.change));
    assert s1.store == Stored(s.store, a, Wanted(op), f.change) && s1.latch == Unlatched(s.latch, a, f.change);
    if f.change.Fails? {
      UndoRuns(s1, t, a, op, found, f);
      RunCons(s, Change(t, f.change), UndoSteps(t, f), t, r.store, r.latch);
    } else if f.commits {
      CommitRuns(s1, t, a);
      RunCons(s, Change(t, f.change), [Commit(t, true), Clear(t), Release(t)], t, r.store, r.latch);
      assert [Change(t, f.change)] + [Commit(t, true), Clear(t), Release(t)] == ChangeSteps(t, f);
    } else {
      UndoRuns(Next(s1, Commit(t, false)), t, a, op, found, f);
      RunCons(s1, Commit(t, false), UndoSteps(t, f), t, r.store, r.latch);
      RunCons(s, Change(t, f.change), [Commit(t, false)] + UndoSteps(t, f), t, r.store, r.latch);
      assert [Change(t, f.change)] + ([Commit(t, false)] + UndoSteps(t, f)) == ChangeSteps(t, f);
    }
  }

  /** An operation is a run of the machine of steps: begun in any state in which its task is
      idle and the account is not locked, its steps are enabled one after the other and
      lead to the result of the operation. */
  lemma OperationIsRun(s: State, t: TaskId, op: Op, a: Account, f: Faults)
    requires PhaseOf(s, t).Idle? && a !in s.locks
    ensures var r := OpResult(s.store, s.latch, op, a, f); RunsTo(s, OpSteps(t, op, a, f), t, r.store, r.latch)
  {
    var r := OpResult(s.store, s.latch, op, a, f);
    var s1 := Next(s, BeginLifecycle(t, op, a));
    if op.StoreOp? {
      ChangeRuns(s1, t, a, op, Found(false, None), f);
      RunCons(s, BeginLifecycle(t, op, a), ChangeSteps(t, f), t, r.store, r.latch);
    } else if f.loads {
      ChangeRuns(Next(s1, Snapshot(t, true)), t, a, op, FoundBy(s.store, s.latch, op, a), f);
      RunCons(s1, Snapshot(t, true), ChangeSteps(t, f), t, r.store, r.latch);
      RunCons(s, BeginLifecycle(t, op, a), [Snapshot(t, true)] + ChangeSteps(t, f), t, r.store, r.latch);
    } else {
      RunEnds(Next(s1, Snapshot(t, false)), t);
      RunCons(s1, Snapshot(t, false), [Release(t)], t, r.store, r.latch);
      assert [Snapshot(t, false)] + [Release(t)] == [Snapshot(t, false), Release(t)];
      RunCons(s, BeginLifecycle(t, op, a), [Snapshot(t, false), Release(t)], t, r.store, r.latch);
    }
  }

  // ------------------------------------------------------------ what the results promise

  /** Only the account's own tokens and latch change. */
  lemma OnlyItsAccount(store: map<Account, Tokens>, latch: set<Account>, op: Op, a: Account, f: Faults)
    ensures var r := OpResult(store, latch, op, a, f); r.store - {a} == store - {a} && r.latch - {a} == latch - {a}
  {
  }

  /** The operation is done exactly when every call succeeded, and then the latch is clear. */
  lemma CommittedWhen(store: map<Account, Tokens>, latch: set<Account>, op: Op, a: Account, f: Faults)
    ensures var r := OpResult(store, latch, op, a, f);
      && (r.outcome == Committed <==> (op.StoreOp? || f.loads) && f.change.Succeeds? && f.commits)
      && (r.outcome == Committed ==>
            r.store == (if Wanted(op).Some? then store[a := Wanted(op).value] else store - {a}) && r.latch == latch - {a})
  {
  }

  /** A delete or replace that failed has the latch that it found, whatever the faults; and
      if it was undone, the tokens too. Only a failed undoing leaves it stuck. */
  lemma FailureRestores(store: map<Account, Tokens>, latch: set<Account>, op: Op, a: Account, f: Faults)
    requires !op.StoreOp?
    ensures var r := OpResult(store, latch, op, a, f);
      && (r.outcome == Undone ==> r.store == store)
      && (r.outcome != Committed ==> r.latch == latch)
      && (r.outcome == Stuck ==> f.undo.Fails? && (op.DeleteOp? ==> a in store))
  {
  }

  /** A first store that failed and was undone leaves no tokens. */
  lemma FailedStoreRemoves(store: map<Account, Tokens>, latch: set<Account>, value: Tokens, a: Account, f: Faults)
    ensures var r := OpResult(store, latch, StoreOp(value), a, f);
      && (r.outcome == Undone ==> r.store == store - {a} && r.latch <= latch)
      && (r.outcome == Stuck ==> f.undo.Fails?)
  {
  }

  // ------------------------------------------------------------ the operations

  /** The token store and the latch registry, used under the account's lock. */
  class Lifecycle {
    var tokens: map<Account, Tokens>
    var latch: set<Account>

    constructor (tokens: map<Account, Tokens>, latch: set<Account>)
      ensures this.tokens == tokens && this.latch == latch
    {
      this.tokens, this.latch := tokens, latch;
    }

    /** Whatever the fault, only the account changes. */
    method Store(account: Account, value: Tokens, fault: Fault) returns (ok: bool)
      modifies this
      ensures ok == fault.Succeeds?
      ensures tokens == if Applied(fault) then old(tokens)[account := value] else old(tokens)
      ensures latch == if fault.Succeeds? && fault.clears then old(latch) - {account} else old(latch)
    {
      if Applied(fault) {
        tokens := tokens[account := value];
      }
      if fault.Succeeds? && fault.clears {
        latch := latch - {account};
      }
      ok := fault.Succeeds?;
    }

    method Delete(account: Account, fault: Fault) returns (ok: bool)
      modifies this
      ensures ok == fault.Succeeds?
      ensures tokens == if Applied(fault) then old(tokens) - {account} else old(tokens)
      ensures latch == if fault.Succeeds? && fault.clears then old(latch) - {account} else old(latch)
    {
      if Applied(fault) {
        tokens := tokens - {account};
      }
      if fault.Succeeds? && fault.clears {
        latch := latch - {account};
      }
      ok := fault.Succeeds?;
    }

    /** Put a snapshot back. */
    method Restore(account: Account, previous: Option<Tokens>, fault: Fault) returns (ok: bool)
      modifies this
      ensures ok == fault.Succeeds?
      ensures tokens == Stored(old(tokens), account, previous, fault) && latch == Unlatched(old(latch), account, fault)
    {
      if previous.Some? {
        ok := Store(account, previous.value, fault);
      } else {
        ok := Delete(account, fault);
      }
    }

    /** Delete the tokens and commit. If the operation reports an undone failure, the
        tokens and the latch are as they were, whatever the faults were; even if the
        tokens could not be put back, the latch is. */
    method DeleteAndCommit(account: Account, loads: bool, deleting: Fault, commits: bool, restoring: Fault) returns (r: Outcome)
      modifies this
      ensures OpResult(old(tokens), old(latch), DeleteOp, account, Faults(loads, deleting, commits, restoring)) == Ended(tokens, latch, r)
      ensures r == Committed <==> loads && deleting.Succeeds? && commits
      ensures r == Committed ==> tokens == old(tokens) - {account} && latch == old(latch) - {account}
      ensures r == Undone ==> tokens == old(tokens)
      ensures r != Committed ==> latch == old(latch)
      ensures r == Stuck ==> account in old(tokens) && restoring.Fails?
      ensures tokens - {account} == old(tokens) - {account} && latch - {account} == old(latch) - {account}
    {
      ghost var f := Faults(loads, deleting, commits, restoring);
      OnlyItsAccount(tokens, latch, DeleteOp, account, f);
      CommittedWhen(tokens, latch, DeleteOp, account, f);
      FailureRestores(tokens, latch, DeleteOp, account, f);
      var latched := account in latch;
      if !loads {
        return Undone;
      }
      var previous := if account in tokens then Some(tokens[account]) else None;
      var deleted := Delete(account, deleting);
      if !deleted || !commits {
        r := Undone;
        if previous.Some? {
          var stored := Store(account, previous.value, restoring);
          if !stored {
            r := Stuck;
          }
        }
        if latched {
          latch := latch + {account};
        }
        return;
      }
      latch := latch - {account};
      r := Committed;
    }

    /** Replace the tokens and commit, with the same promises. */
    method ReplaceAndCommit(account: Account, value: Tokens, loads: bool, storing: Fault, commits: bool, restoring: Fault) returns (r: Outcome)
      modifies this
      ensures OpResult(old(tokens), old(latch), ReplaceOp(value), account, Faults(loads, storing, commits, restoring)) == Ended(tokens, latch, r)
      ensures r == Committed <==> loads && storing.Succeeds? && commits
      ensures r == Committed ==> tokens == old(tokens)[account := value] && latch == old(latch) - {account}
      ensures r == Undone ==> tokens == old(tokens)
      ensures r != Committed ==> latch == old(latch)
      ensures r == Stuck ==> restoring.Fails?
      ensures tokens - {account} == old(tokens) - {account} && latch - {account} == old(latch) - {account}
    {
      ghost var f := Faults(loads, storing, commits, restoring);
      OnlyItsAccount(tokens, latch, ReplaceOp(value), account, f);
      CommittedWhen(tokens, latch, ReplaceOp(value), account, f);
      FailureRestores(tokens, latch, ReplaceOp(value), account, f);
      var latched := account in latch;
      if !loads {
        return Undone;
      }
      var previous := if account in tokens then Some(tokens[account]) else None;
      var stored := Store(account, value, storing);
      if !stored || !commits {
        var restored := Restore(account, previous, restoring);
        if latched {
          latch := latch + {account};
        }
        return if restored then Undone else Stuck;
      }
      latch := latch - {account};
      r := Committed;
    }

    /** Store the first tokens of an account and commit. Undoing removes whatever the
        account had, and does not put the latch back. */
    method StoreAndCommit(account: Account, value: Tokens, storing: Fault, commits: bool, removing: Fault) returns (r: Outcome)
      modifies this
      ensures OpResult(old(tokens), old(latch), StoreOp(value), account, Faults(true, storing, commits, removing)) == Ended(tokens, latch, r)
      ensures r == Committed <==> storing.Succeeds? && commits
      ensures r == Committed ==> tokens == old(tokens)[account := value] && latch == old(latch) - {account}
      ensures r == Undone ==> tokens == old(tokens) - {account} && latch <= old(latch)
      ensures r == Stuck ==> removing.Fails?
      ensures tokens - {account} == old(tokens) - {account} && latch - {account} == old(latch) - {account}
    {
      ghost var f := Faults(true, storing, commits, removing);
      OnlyItsAccount(tokens, latch, StoreOp(value), account, f);
      CommittedWhen(tokens, latch, StoreOp(value), account, f);
      FailedStoreRemoves(tokens, latch, value, account, f);
      var stored := Store(account, value, storing);
      if !stored || !commits {
        var removed := Delete(account, removing);
        return if removed then Undone else Stuck;
      }
      latch := latch - {account};
      r := Committed;
    }
  }
}
