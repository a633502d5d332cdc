/**
Which end of a wait a tool learns of, over whole runs of the rendezvous: an answer, a timeout or a
cancellation, and who is behind a cancellation.
*/
module BridgeOutcomes {
  import opened BridgeProtocol

  /** Step `i` ends a wait for registration `r`. */
  predicate EndsWaitAt(states: seq<State>, actions: seq<Action>, i: nat, r: nat) {
    && i < |actions| && i < |states| && actions[i].EndWait? && actions[i].waiter in states[i].waiters
    && states[i].waiters[actions[i].waiter].registration == r
  }

  /** Step `i` takes registration `r`, which is pending, out of the table: by its id, or with all there is. */
  predicate WithdrawsAt(states: seq<State>, actions: seq<Action>, i: nat, r: nat) {
    && i < |actions| && i < |states| && r < |states[i].ids|
    && states[i].ids[r] in states[i].pending && states[i].pending[states[i].ids[r]] == r
    && (actions[i] == Cancel(states[i].ids[r]) || actions[i].Clear?)
  }

  lemma {:induction false} ClearSetsNoFuture(q: State, order: seq<string>)
    ensures AfterClear(q, order).futures == q.futures
    decreases |order|
  {
    if order != [] {
      ClearSetsNoFuture(AfterCancel(q, order[0]), order[1..]);
    }
  }

  lemma {:induction false} ClearWithdrawsPending(q: State, order: seq<string>, r: nat)
    requires Inv(q) && r < |q.fates| == |AfterClear(q, order).fates|
    requires AfterClear(q, order).fates[r] == Withdrawn && q.fates[r] != Withdrawn
    ensures q.fates[r] == Pending
    decreases |order|
  {
    if order != [] {
      var q' := AfterCancel(q, order[0]);
      CancelKeepsInv(q, order[0]);
      if q'.fates[r] != Withdrawn {
        ClearKeepsLength(q', order[1..]);
        ClearWithdrawsPending(q', order[1..], r);
      }
      assert HasOneFate(q, r);
    }
  }

  lemma {:induction false} ClearKeepsLength(q: State, order: seq<string>)
    ensures |AfterClear(q, order).fates| == |q.fates|
    decreases |order|
  {
    if order != [] {
      ClearKeepsLength(AfterCancel(q, order[0]), order[1..]);
    }
  }

  lemma OnlyWithdrawalWithdraws(q: State, a: Action, r: nat)
    requires Inv(q) && Enabled(q, a) && r < |After(q, a).fates| && After(q, a).fates[r] == Withdrawn
    ensures r < |q.fates|
    ensures q.fates[r] == Withdrawn || (q.fates[r] == Pending && (a == Cancel(q.ids[r]) || a.Clear?))
  {
    if r < |q.ids| {
      assert HasOneFate(q, r);
    }
    if a.Clear? {
      ClearKeepsLength(q, a.order);
      if q.fates[r] != Withdrawn {
        ClearWithdrawsPending(q, a.order, r);
      }
    }
  }

  lemma {:induction false} WithdrawnBy(states: seq<State>, actions: seq<Action>, i: nat, r: nat) returns (k: nat)
    requires IsRun(states, actions) && i < |states| && r < |states[i].fates| && states[i].fates[r] == Withdrawn
    ensures k < i && WithdrawsAt(states, actions, k, r)
  {
    assert i > 0;
    RunKeepsInv(states, actions, i - 1);
    assert StepAt(states, actions, i - 1);
    OnlyWithdrawalWithdraws(states[i - 1], actions[i - 1], r);
    if states[i - 1].fates[r] == Withdrawn {
      k := WithdrawnBy(states, actions, i - 1, r);
    } else {
      assert HasOneFate(states[i - 1], r);
      k := i - 1;
    }
  }

  /** What cancels a future: the callback of a withdrawal, or the end of a wait for it. */
  lemma OnlyTheseCancel(q: State, a: Action, r: nat)
    requires Inv(q) && Enabled(q, a) && r < |After(q, a).futures| && After(q, a).futures[r] == Cancelled
    ensures r < |q.futures|
    ensures || q.futures[r] == Cancelled || (a.EndWait? && q.waiters[a.waiter].registration == r)
            || q.fates[r] == Withdrawn
  {
    if a.Clear? {
      ClearSetsNoFuture(q, a.order);
    }
    if a.Run? {
      assert Agrees(q.callbacks[a.callback], q.fates);
    }
  }

  lemma {:induction false} CancelledBy(states: seq<State>, actions: seq<Action>, i: nat, r: nat) returns (k: nat)
    requires IsRun(states, actions) && i < |states| && r < |states[i].futures| && states[i].futures[r] == Cancelled
    ensures k < i && (WithdrawsAt(states, actions, k, r) || EndsWaitAt(states, actions, k, r))
  {
    assert i > 0;
    RunKeepsInv(states, actions, i - 1);
    assert StepAt(states, actions, i - 1);
    OnlyTheseCancel(states[i - 1], actions[i - 1], r);
    if states[i - 1].futures[r] == Cancelled {
      k := CancelledBy(states, actions, i - 1, r);
    } else if states[i - 1].fates[r] == Withdrawn {
      k := WithdrawnBy(states, actions, i - 1, r);
    } else {
      k := i - 1;
    }
  }

  /**
  Over every run, a tool learns of a timeout exactly if its time was up, of an answer exactly if it looked and there
  was one, and of a cancellation exactly if its run was cancelled or it looked at a future that was: then the
  registration had been withdrawn, or another wait for it had ended before.
  */
  lemma OutcomeTells(states: seq<State>, actions: seq<Action>, i: nat)
    requires IsRun(states, actions) && i < |actions| && actions[i].EndWait? && StepAt(states, actions, i)
    ensures var q, w, ending := states[i], actions[i].waiter, actions[i].ending;
      var r, outcome := q.waiters[w].registration, OutcomeOf(q, w, ending);
      && (outcome == Timeout <==> ending == TimedOut)
      && (outcome.Answer? <==> ending == Settled && q.futures[r].Done?)
      && (outcome.Answer? ==> q.futures[r] == Done(outcome.payload))
      && (outcome == Cancellation <==> ending == RunCancelled || (ending == Settled && q.futures[r] == Cancelled))
      && (ending == Settled && q.futures[r] == Cancelled ==>
            exists k :: 0 <= k < i && (WithdrawsAt(states, actions, k, r) || EndsWaitAt(states, actions, k, r)))
  {
    var r := states[i].waiters[actions[i].waiter].registration;
    if states[i].futures[r] == Cancelled {
      var k := CancelledBy(states, actions, i, r);
    }
  }
}
