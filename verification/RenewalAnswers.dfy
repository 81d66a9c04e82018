/**
 What callers and waiters of the renewal handshake are told, and by what.
 */
module RenewalAnswers {
  import opened Options
  import opened Renewal

  // What one step does to waiter w.
  ghost predicate WaiterMoves(s: State, a: Action, t: State, w: nat)
    requires w < |t.waiters|
  {
    if w >= |s.waiters| then t.waiters[w] == Waiting
    else
      t.waiters[w] == s.waiters[w]
      || (a == LoadSlot(w) && s.waiters[w] == Waiting
          && t.waiters[w] == match s.slot case Some(ch) => WaitOn(ch) case None => Answered(false))
      || (a == SeeClosed(w) && s.waiters[w].WaitOn? && s.waiters[w].ch < |s.closes| && s.closes[s.waiters[w].ch] > 0
          && t.waiters[w] == Answered(true))
      || (a == GiveUp(w) && s.waiters[w].WaitOn? && t.waiters[w] == Answered(false))
  }

  lemma StepWaiter(s: State, a: Action, w: nat)
    requires Enabled(s, a) && w < |Step(s, a).waiters|
    ensures WaiterMoves(s, a, Step(s, a), w)
  {
  }

  // A waiter waits on the channel that it found in the slot.
  lemma {:induction false} WaitsOnLoaded(run: seq<State>, actions: seq<Action>, k: nat, w: nat) returns (j: nat)
    requires IsRun(run, actions) && k < |run| && w < |run[k].waiters| && run[k].waiters[w].WaitOn?
    ensures j < k <= |actions| && actions[j] == LoadSlot(w) && run[j].slot == Some(run[k].waiters[w].ch)
  {
    assert k > 0;
    RunStep(run, actions, k - 1);
    StepWaiter(run[k - 1], actions[k - 1], w);
    hide Step, Enabled;
    if w < |run[k - 1].waiters| && run[k - 1].waiters[w] == run[k].waiters[w] {
      j := WaitsOnLoaded(run, actions, k - 1, w);
    } else {
      j := k - 1;
    }
  }

  // Why a waiter was answered at step j.
  ghost predicate AnsweredAt(run: seq<State>, actions: seq<Action>, j: nat, w: nat, ok: bool)
    requires j < |actions| && |run| == |actions| + 1
  {
    if ok then
      && actions[j] == SeeClosed(w) && w < |run[j].waiters| && run[j].waiters[w].WaitOn?
      && Closings(run[..j + 1], actions[..j], run[j].waiters[w].ch) == 1
    else actions[j] == GiveUp(w) || (actions[j] == LoadSlot(w) && run[j].slot == None)
  }

  // In every run a waiter that was told true had found a channel in the slot, which had been closed by then; one that was told
  // false found none, or gave up.
  lemma {:induction false} WaiterTold(run: seq<State>, actions: seq<Action>, k: nat, w: nat) returns (j: nat)
    requires IsRun(run, actions) && k < |run| && w < |run[k].waiters| && run[k].waiters[w].Answered?
    ensures j < k <= |actions| && |run| == |actions| + 1 && AnsweredAt(run, actions, j, w, run[k].waiters[w].ok)
  {
    assert k > 0;
    RunStep(run, actions, k - 1);
    StepWaiter(run[k - 1], actions[k - 1], w);
    if w < |run[k - 1].waiters| && run[k - 1].waiters[w] == run[k].waiters[w] {
      hide Step, Enabled, AnsweredAt, WaiterMoves;
      j := WaiterTold(run, actions, k - 1, w);
    } else {
      j := k - 1;
      if run[k].waiters[w].ok {
        hide Step, Enabled;
        ClosedByThen(run, actions, j, run[j].waiters[w].ch);
      }
    }
  }

  lemma ClosedByThen(run: seq<State>, actions: seq<Action>, j: nat, ch: nat)
    requires IsRun(run, actions) && j <= |actions| && ch < |run[j].closes| && run[j].closes[ch] > 0
    ensures Closings(run[..j + 1], actions[..j], ch) == 1
  {
    PrefixRun(run, actions, j);
    assert run[..j + 1][|actions[..j]|] == run[j];
    hide IsRun, Closings;
    ClosingsCounted(run[..j + 1], actions[..j], ch);
    ClosedAtMostOnce(run[..j + 1], actions[..j], ch);
  }

  // What one step does to caller i.
  ghost predicate CallerMoves(s: State, a: Action, t: State, i: nat)
    requires i < |t.callers|
  {
    if i >= |s.callers| then t.callers[i] == Calling
    else
      t.callers[i] == s.callers[i]
      || (a == CompareAndSwap(i) && s.callers[i] == Calling && t.callers[i] == if s.slot.None? then Stored else Lost)
      || (a == Send(i) && s.callers[i] == Stored && t.callers[i] == Returned(!s.token))
      || (a == CloseOwn(i) && s.callers[i] == Lost && t.callers[i] == Returned(false))
  }

  lemma StepCaller(s: State, a: Action, i: nat)
    requires Enabled(s, a) && i < |Step(s, a).callers|
    ensures CallerMoves(s, a, Step(s, a), i)
  {
  }

  // A caller lost because the slot was taken when it came.
  lemma {:induction false} LostToAnother(run: seq<State>, actions: seq<Action>, k: nat, i: nat) returns (j: nat)
    requires IsRun(run, actions) && k < |run| && i < |run[k].callers| && (run[k].callers[i].Lost? || run[k].callers[i].Stored?)
    ensures j < k <= |actions| && actions[j] == CompareAndSwap(i) && (run[k].callers[i].Lost? <==> run[j].slot.Some?)
  {
    assert k > 0;
    RunStep(run, actions, k - 1);
    StepCaller(run[k - 1], actions[k - 1], i);
    hide Step, Enabled;
    if i < |run[k - 1].callers| && run[k - 1].callers[i] == run[k].callers[i] {
      j := LostToAnother(run, actions, k - 1, i);
    } else {
      j := k - 1;
    }
  }

  // In every run a caller is told true exactly when the slot was free at its turn and, when it then asked for a renewal, no
  // token was there.
  lemma {:induction false} CallerTold(run: seq<State>, actions: seq<Action>, k: nat, i: nat) returns (swap: nat, ask: nat)
    requires IsRun(run, actions) && k < |run| && i < |run[k].callers| && run[k].callers[i].Returned?
    ensures swap < ask < k <= |actions| && actions[swap] == CompareAndSwap(i)
    ensures actions[ask] == if run[swap].slot.None? then Send(i) else CloseOwn(i)
    ensures run[k].callers[i].ok <==> run[swap].slot.None? && !run[ask].token
  {
    assert k > 0;
    RunStep(run, actions, k - 1);
    StepCaller(run[k - 1], actions[k - 1], i);
    hide Step, Enabled;
    if i < |run[k - 1].callers| && run[k - 1].callers[i] == run[k].callers[i] {
      swap, ask := CallerTold(run, actions, k - 1, i);
    } else {
      ask := k - 1;
      swap := LostToAnother(run, actions, k - 1, i);
    }
  }
}
