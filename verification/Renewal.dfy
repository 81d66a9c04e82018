/**
 The force-renewal handshake between ForceExpiryAll callers, WaitRenewalDone waiters and the
 scheduler loop of one provider, as a step relation: any process may take the next step.

 Caller i owns done channel i. The slot is the atomic forceRenewalDoneCh, the token is the
 one-element buffer of forceRenewalCh. The loop is live: it is never cancelled.
 */
module Renewal {
  import opened Options

  // Calling: before the compare-and-swap. Stored: swapped its channel in, not yet tried to send.
  // Lost: the slot was taken, about to close its own channel.
  datatype Caller = Calling | Stored | Lost | Returned(ok: bool)

  datatype Waiter = Waiting | WaitOn(ch: nat) | Answered(ok: bool)

  // Closing: swapped channel ch out of the slot, about to close it.
  datatype Scheduler = Idle | Renewing(force: bool) | Closing(ch: nat)

  datatype State = State(slot: Option<nat>, token: bool, sched: Scheduler,
                         callers: seq<Caller>, closes: seq<nat>, waiters: seq<Waiter>)

  const INIT := State(None, false, Idle, [], [], [])

  datatype Action =
    | CallArrives
    | CompareAndSwap(i: nat)
    | Send(i: nat)
    | CloseOwn(i: nat)
    | WaitArrives
    | LoadSlot(w: nat)
    | SeeClosed(w: nat)
    | GiveUp(w: nat)
    | TakeToken
    | TimerFires
    | FinishRenewal
    | CloseDone

  predicate Enabled(s: State, a: Action) {
    match a
    case CallArrives => true
    case CompareAndSwap(i) => i < |s.callers| && s.callers[i].Calling?
    case Send(i) => i < |s.callers| && s.callers[i].Stored?
    case CloseOwn(i) => i < |s.callers| && i < |s.closes| && s.callers[i].Lost?
    case WaitArrives => true
    case LoadSlot(w) => w < |s.waiters| && s.waiters[w].Waiting?
    case SeeClosed(w) =>
      w < |s.waiters| && s.waiters[w].WaitOn? && s.waiters[w].ch < |s.closes| && s.closes[s.waiters[w].ch] > 0
    case GiveUp(w) => w < |s.waiters| && s.waiters[w].WaitOn?
    case TakeToken => s.sched.Idle? && s.token
    case TimerFires => s.sched.Idle?
    case FinishRenewal => s.sched.Renewing?
    case CloseDone => s.sched.Closing? && s.sched.ch < |s.closes|
  }

  function Step(s: State, a: Action): State
    requires Enabled(s, a)
  {
    match a
    case CallArrives => s.(callers := s.callers + [Calling], closes := s.closes + [0])
    case CompareAndSwap(i) =>
      if s.slot.None? then s.(slot := Some(i), callers := s.callers[i := Stored])
      else s.(callers := s.callers[i := Lost])
    case Send(i) => s.(token := true, callers := s.callers[i := Returned(!s.token)])
    case CloseOwn(i) => s.(closes := s.closes[i := s.closes[i] + 1], callers := s.callers[i := Returned(false)])
    case WaitArrives => s.(waiters := s.waiters + [Waiting])
    case LoadSlot(w) =>
      s.(waiters := s.waiters[w := if s.slot.Some? then WaitOn(s.slot.value) else Answered(false)])
    case SeeClosed(w) => s.(waiters := s.waiters[w := Answered(true)])
    case GiveUp(w) => s.(waiters := s.waiters[w := Answered(false)])
    case TakeToken => s.(token := false, sched := Renewing(true))
    case TimerFires => s.(sched := Renewing(false))
    case FinishRenewal =>
      s.(slot := None, sched := if s.slot.Some? then Closing(s.slot.value) else Idle)
    case CloseDone => s.(closes := s.closes[s.sched.ch := s.closes[s.sched.ch] + 1], sched := Idle)
  }

  ghost predicate IsRun(run: seq<State>, actions: seq<Action>) {
    && |run| == |actions| + 1 && run[0] == INIT
    && forall k :: 0 <= k < |actions| ==> Enabled(run[k], actions[k]) && run[k + 1] == Step(run[k], actions[k])
  }

  // Channel ch was swapped in by its caller.
  predicate Entered(s: State, ch: nat) {
    ch < |s.callers| && !s.callers[ch].Calling? && !s.callers[ch].Lost?
  }

  // Somebody is on the way to closing channel ch: it is in the slot or in the scheduler's hands.
  predicate Pending(s: State, ch: nat) {
    s.slot == Some(ch) || s.sched == Closing(ch)
  }

  ghost predicate Inv(s: State) {
    && |s.closes| == |s.callers|
    && (s.slot.Some? ==> Entered(s, s.slot.value) && s.closes[s.slot.value] == 0)
    && (s.sched.Closing? ==> Entered(s, s.sched.ch) && s.closes[s.sched.ch] == 0 && s.slot != Some(s.sched.ch))
    && (forall i :: 0 <= i < |s.callers| ==> s.closes[i] <= 1)
    && (forall i :: 0 <= i < |s.callers| && !Entered(s, i) ==> s.closes[i] == 0)
    && (forall i :: 0 <= i < |s.callers| && Entered(s, i) ==> s.closes[i] == 1 || Pending(s, i))
    && (s.slot.Some? ==> WillRenew(s))
    && (forall w :: 0 <= w < |s.waiters| && s.waiters[w].WaitOn? ==> Entered(s, s.waiters[w].ch))
  }

  // A renewal is under way, or a token asks for one, or a caller is about to leave a token.
  ghost predicate WillRenew(s: State) {
    s.token || s.sched.Renewing? || exists i :: 0 <= i < |s.callers| && s.callers[i].Stored?
  }

  lemma CallerStepKeepsInv(s: State, a: Action)
    requires Inv(s) && Enabled(s, a)
    requires a.CallArrives? || a.CompareAndSwap? || a.Send? || a.CloseOwn?
    ensures Inv(Step(s, a))
  {
    var t := Step(s, a);
    forall i | 0 <= i < |s.callers| ensures a != CompareAndSwap(i) && a != CloseOwn(i) ==> Entered(t, i) == Entered(s, i) {}
    if a.CompareAndSwap? {
      assert Entered(t, a.i) == s.slot.None?;
      if s.slot.None? { assert t.callers[a.i].Stored?; } else { WillRenewKept(s, t, a.i); }
    } else if a.CallArrives? {
      forall i | 0 <= i < |t.callers| ensures i < |s.callers| ==> t.callers[i] == s.callers[i] && t.closes[i] == s.closes[i] {}
      if s.slot.Some? && !s.token && !s.sched.Renewing? {
        var i :| 0 <= i < |s.callers| && s.callers[i].Stored?;
        assert t.callers[i].Stored?;
      }
    } else if a.CloseOwn? {
      WillRenewKept(s, t, a.i);
    }
  }

  lemma WillRenewKept(s: State, t: State, j: nat)
    requires j < |s.callers| && !s.callers[j].Stored? && t.token == s.token && t.sched == s.sched
    requires |t.callers| == |s.callers| && forall i :: 0 <= i < |s.callers| && i != j ==> t.callers[i] == s.callers[i]
    ensures WillRenew(s) ==> WillRenew(t)
  {
    if WillRenew(s) && !s.token && !s.sched.Renewing? {
      var i :| 0 <= i < |s.callers| && s.callers[i].Stored?;
      assert t.callers[i].Stored?;
    }
  }

  lemma OtherStepKeepsInv(s: State, a: Action)
    requires Inv(s) && Enabled(s, a)
    requires !(a.CallArrives? || a.CompareAndSwap? || a.Send? || a.CloseOwn?)
    ensures Inv(Step(s, a))
  {
    var t := Step(s, a);
    assert t.callers == s.callers;
    forall i: nat ensures Entered(t, i) == Entered(s, i) {}
  }

  lemma StepKeepsInv(s: State, a: Action)
    requires Inv(s) && Enabled(s, a)
    ensures Inv(Step(s, a))
  {
    if a.CallArrives? || a.CompareAndSwap? || a.Send? || a.CloseOwn? {
      CallerStepKeepsInv(s, a);
    } else {
      OtherStepKeepsInv(s, a);
    }
  }

  lemma {:induction false} InvAlways(run: seq<State>, actions: seq<Action>, k: nat)
    requires IsRun(run, actions) && k < |run|
    ensures Inv(run[k])
  {
    hide Inv, Step, Enabled;
    if k == 0 {
      InvAtStart();
    } else {
      InvAlways(run, actions, k - 1);
      assert Enabled(run[k - 1], actions[k - 1]) && run[k - 1 + 1] == Step(run[k - 1], actions[k - 1]);
      StepKeepsInv(run[k - 1], actions[k - 1]);
    }
  }

  lemma InvAtStart()
    ensures Inv(INIT)
  {
  }

  // How often the actions of a run close channel ch, by whichever process.
  function Closings(run: seq<State>, actions: seq<Action>, ch: nat): nat
    requires |run| == |actions| + 1
  {
    if actions == [] then 0
    else
      var k := |actions| - 1;
      Closings(run[..k + 1], actions[..k], ch)
      + if actions[k] == CloseOwn(ch) || (actions[k].CloseDone? && run[k].sched == Closing(ch)) then 1 else 0
  }

  lemma {:induction false} ClosingsCounted(run: seq<State>, actions: seq<Action>, ch: nat)
    requires IsRun(run, actions)
    ensures Closings(run, actions, ch) == if ch < |run[|actions|].closes| then run[|actions|].closes[ch] else 0
    decreases |actions|
  {
    if actions != [] {
      var k := |actions| - 1;
      var run', actions' := run[..k + 1], actions[..k];
      PrefixRun(run, actions, k);
      ClosingsCounted(run', actions', ch);
      InvAlways(run, actions, k);
      assert Enabled(run[k], actions[k]) && run[k + 1] == Step(run[k], actions[k]);
      ClosingStep(run[k], actions[k], ch);
    }
  }

  lemma PrefixRun(run: seq<State>, actions: seq<Action>, k: nat)
    requires IsRun(run, actions) && k <= |actions|
    ensures IsRun(run[..k + 1], actions[..k])
  {
    hide Step, Enabled;
    forall j | 0 <= j < k ensures Enabled(run[..k + 1][j], actions[..k][j]) && run[..k + 1][j + 1] == Step(run[..k + 1][j], actions[..k][j]) {
      assert Enabled(run[j], actions[j]) && run[j + 1] == Step(run[j], actions[j]);
    }
  }

  lemma ClosingStep(s: State, a: Action, ch: nat)
    requires Enabled(s, a) && |s.closes| == |s.callers|
    ensures var t := Step(s, a);
            (if ch < |t.closes| then t.closes[ch] else 0)
            == (if ch < |s.closes| then s.closes[ch] else 0)
               + if a == CloseOwn(ch) || (a.CloseDone? && s.sched == Closing(ch)) then 1 else 0
  {
  }

  // In every interleaving no channel is closed twice.
  lemma ClosedAtMostOnce(run: seq<State>, actions: seq<Action>, ch: nat)
    requires IsRun(run, actions)
    ensures Closings(run, actions, ch) <= 1
  {
    hide Closings, Step, Enabled;
    ClosingsCounted(run, actions, ch);
    InvAlways(run, actions, |actions|);
  }

  // In every interleaving a stored channel has a renewal coming, and a waiter's channel is closed or on its way.
  lemma NoWaiterStranded(run: seq<State>, actions: seq<Action>, k: nat)
    requires IsRun(run, actions) && k < |run|
    ensures run[k].slot.Some? ==> WillRenew(run[k])
    ensures forall w :: 0 <= w < |run[k].waiters| && run[k].waiters[w].WaitOn? ==>
              var ch := run[k].waiters[w].ch;
              ch < |run[k].closes| && (run[k].closes[ch] == 1 || Pending(run[k], ch))
  {
    hide IsRun;
    InvAlways(run, actions, k);
  }

  // ----- progress: how far channel ch is from being closed

  function Distance(s: State, ch: nat): nat {
    if s.sched == Closing(ch) then 1
    else if s.slot != Some(ch) then 0
    else if s.sched.Renewing? then 2
    else (if s.token then 3 else 5) + if s.sched.Closing? then 1 else 0
  }

  // The step that brings an entered channel closer: the scheduler's, or a caller's that still has to send.
  predicate Helps(s: State, a: Action, ch: nat) {
    Enabled(s, a) && Pending(s, ch)
    && (a.CloseDone? || a.FinishRenewal? || a.TakeToken? || a.TimerFires? || (a.Send? && !s.token && s.sched.Idle?))
  }

  // No step of any process takes a channel further from being closed; a helping step takes it closer.
  lemma DistanceFalls(s: State, a: Action, ch: nat)
    requires Inv(s) && Enabled(s, a) && Entered(s, ch)
    ensures Entered(Step(s, a), ch)
    ensures Distance(Step(s, a), ch) <= Distance(s, ch)
    ensures Helps(s, a, ch) ==> Distance(Step(s, a), ch) < Distance(s, ch)
  {
  }

  // As long as a channel is not closed, a helping step is enabled, and it need not be the timer.
  lemma HelpIsEnabled(s: State, ch: nat)
    requires Inv(s) && Entered(s, ch) && s.closes[ch] == 0
    ensures exists a :: Helps(s, a, ch) && !a.TimerFires?
  {
    assert Pending(s, ch);
    if s.sched.Closing? {
      assert Helps(s, CloseDone, ch);
    } else if s.sched.Renewing? {
      assert Helps(s, FinishRenewal, ch);
    } else if s.token {
      assert Helps(s, TakeToken, ch);
    } else {
      var i :| 0 <= i < |s.callers| && s.callers[i].Stored?;
      assert Helps(s, Send(i), ch);
    }
  }

  ghost predicate Path(s: State, actions: seq<Action>, t: State)
    decreases |actions|
  {
    if actions == [] then s == t
    else Enabled(s, actions[0]) && Path(Step(s, actions[0]), actions[1..], t)
  }

  function CountHelps(s: State, actions: seq<Action>, ch: nat): nat
    decreases |actions|
  {
    if actions == [] || !Enabled(s, actions[0]) then 0
    else (if Helps(s, actions[0], ch) then 1 else 0) + CountHelps(Step(s, actions[0]), actions[1..], ch)
  }

  // Whatever else happens in between, six helping steps close a channel.
  lemma {:induction false} SixHelpsClose(s: State, actions: seq<Action>, t: State, ch: nat)
    requires Inv(s) && Entered(s, ch) && Path(s, actions, t)
    ensures Inv(t) && Entered(t, ch)
    ensures Distance(t, ch) + CountHelps(s, actions, ch) <= Distance(s, ch) <= 6
    ensures CountHelps(s, actions, ch) >= 6 ==> t.closes[ch] == 1
    decreases |actions|
  {
    if actions != [] {
      hide Inv, Step, Distance, Helps;
      var next := Step(s, actions[0]);
      StepKeepsInv(s, actions[0]);
      DistanceFalls(s, actions[0], ch);
      SixHelpsClose(next, actions[1..], t, ch);
    }
    DistanceBounds(s, ch);
    if Distance(t, ch) == 0 {
      DistanceZero(t, ch);
    }
  }

  lemma DistanceBounds(s: State, ch: nat)
    ensures Distance(s, ch) <= 6
  {
  }

  lemma DistanceZero(t: State, ch: nat)
    requires Inv(t) && Entered(t, ch) && Distance(t, ch) == 0
    ensures t.closes[ch] == 1
  {
  }

  // ----- what the answer of ForceExpiryAll does and does not say

  ghost predicate Reachable(s: State) {
    exists run: seq<State>, actions :: IsRun(run, actions) && run[|actions|] == s
  }

  lemma ReachableAtStart()
    ensures Reachable(INIT)
  {
    var actions: seq<Action> := [];
    assert IsRun([INIT], actions) && [INIT][|actions|] == INIT;
  }

  lemma ReachableStep(s: State, a: Action) returns (t: State)
    requires Reachable(s) && Enabled(s, a)
    ensures t == Step(s, a) && Reachable(t)
  {
    hide Step, Enabled;
    t := Step(s, a);
    var run: seq<State>, actions :| IsRun(run, actions) && run[|actions|] == s;
    var run', actions' := run + [t], actions + [a];
    forall k | 0 <= k < |actions'| ensures Enabled(run'[k], actions'[k]) && run'[k + 1] == Step(run'[k], actions'[k]) {
      if k < |actions| {
        assert Enabled(run[k], actions[k]) && run[k + 1] == Step(run[k], actions[k]);
      }
    }
    assert IsRun(run', actions') && run'[|actions'|] == t;
  }

  // ----- runs

  lemma RunStep(run: seq<State>, actions: seq<Action>, k: nat)
    requires IsRun(run, actions) && k < |actions|
    ensures |run| == |actions| + 1 && Enabled(run[k], actions[k]) && run[k + 1] == Step(run[k], actions[k])
  {
  }

  // A token stays until the scheduler takes it.
  lemma {:induction false} TokenStays(run: seq<State>, actions: seq<Action>, k: nat, j: nat)
    requires IsRun(run, actions) && k <= j < |run| && run[k].token
    ensures run[j].token || exists m :: k <= m < j && actions[m].TakeToken?
    decreases j - k
  {
    if k < j {
      RunStep(run, actions, k);
      if !actions[k].TakeToken? {
        TokenStays(run, actions, k + 1, j);
      }
      hide IsRun;
    }
  }

  // A caller that has entered stays so.
  lemma {:induction false} EnteredStays(run: seq<State>, actions: seq<Action>, k: nat, j: nat, i: nat)
    requires IsRun(run, actions) && k <= j < |run| && Entered(run[k], i)
    ensures Entered(run[j], i)
    decreases j - k
  {
    if k < j {
      RunStep(run, actions, k);
      InvAlways(run, actions, k);
      DistanceFalls(run[k], actions[k], i);
      hide Step, Enabled, Inv;
      EnteredStays(run, actions, k + 1, j, i);
    }
  }

  // A caller that stored its channel has a forced renewal coming after its answer, whether that is true or false: at any
  // later time the token is still there or has been taken since, and its channel is closed or on its way. The answer
  // only tells whether the token is its own.
  lemma AnswerAndRenewal(run: seq<State>, actions: seq<Action>, i: nat, k: nat, j: nat)
    requires IsRun(run, actions) && k < |actions| && actions[k] == Send(i) && k < j < |run|
    ensures i < |run[k + 1].callers| && (run[k + 1].callers[i] == Returned(true) <==> !run[k].token)
    ensures run[j].token || exists m :: k < m < j && actions[m].TakeToken?
    ensures i < |run[j].closes| && (run[j].closes[i] == 1 || Pending(run[j], i))
  {
    RunStep(run, actions, k);
    TokenStays(run, actions, k + 1, j);
    EnteredStays(run, actions, k + 1, j, i);
    InvAlways(run, actions, j);
    hide IsRun;
  }

  // ----- which renewal a channel waits for

  predicate Starts(a: Action) {
    a.TakeToken? || a.TimerFires?
  }

  // The first renewal to start after step k starts at step m.
  ghost predicate FirstStart(actions: seq<Action>, k: int, m: int) {
    && 0 <= k < m < |actions| && Starts(actions[m])
    && forall n :: k < n < m ==> !Starts(actions[n])
  }

  ghost predicate NoFinish(actions: seq<Action>, k: int, f: int) {
    forall n :: 0 <= n < |actions| && k < n < f ==> !actions[n].FinishRenewal?
  }

  // While a renewal runs none starts.
  lemma {:induction false} RenewingStays(run: seq<State>, actions: seq<Action>, k: nat, j: nat)
    requires IsRun(run, actions) && k <= j < |run| && run[k].sched.Renewing? && NoFinish(actions, k - 1, j)
    ensures run[j].sched.Renewing? && forall n :: k <= n < j ==> !Starts(actions[n])
    decreases j - k
  {
    if k < j {
      RunStep(run, actions, k);
      assert !actions[k].FinishRenewal?;
      RenewingStays(run, actions, k + 1, j);
      hide IsRun;
    }
  }

  // Until one starts none runs.
  lemma {:induction false} IdleStays(run: seq<State>, actions: seq<Action>, k: nat, j: nat)
    requires IsRun(run, actions) && k <= j < |run| && !run[k].sched.Renewing? && forall n :: k <= n < j ==> !Starts(actions[n])
    ensures !run[j].sched.Renewing?
    decreases j - k
  {
    if k < j {
      RunStep(run, actions, k);
      assert !Starts(actions[k]);
      IdleStays(run, actions, k + 1, j);
    }
  }

  // A stored channel stays stored until a renewal ends.
  lemma {:induction false} SlotStays(run: seq<State>, actions: seq<Action>, k: nat, j: nat, i: nat)
    requires IsRun(run, actions) && k <= j < |run| && run[k].slot == Some(i) && NoFinish(actions, k - 1, j)
    ensures run[j].slot == Some(i)
    decreases j - k
  {
    if k < j {
      RunStep(run, actions, k);
      assert !actions[k].FinishRenewal?;
      SlotStays(run, actions, k + 1, j, i);
    }
  }

  lemma {:induction false} SomeFirst(actions: seq<Action>, k: nat, n: nat) returns (m: nat)
    requires k < n < |actions| && Starts(actions[n])
    ensures m <= n && FirstStart(actions, k, m)
    decreases n
  {
    if p :| k < p < n && Starts(actions[p]) {
      m := SomeFirst(actions, k, p);
    } else {
      m := n;
    }
  }

  // In every run the channel of caller i, stored at step k, is closed for the renewal that ends next, at step f. That one
  // is forced, after the channel was stored, exactly when none was running at k and the first to start after k is forced.
  lemma ForcedIff(run: seq<State>, actions: seq<Action>, i: nat, k: nat, f: nat)
    requires IsRun(run, actions) && k < f < |actions|
    requires actions[k] == CompareAndSwap(i) && run[k].slot.None?
    requires actions[f].FinishRenewal? && NoFinish(actions, k, f)
    ensures |run| == |actions| + 1 && run[f + 1].sched == Closing(i)
    ensures (exists m :: k < m < f && actions[m].TakeToken?)
            <==> !run[k].sched.Renewing? && exists m :: FirstStart(actions, k, m) && actions[m].TakeToken?
  {
    RunStep(run, actions, k);
    RunStep(run, actions, f);
    assert NoFinish(actions, k + 1 - 1, f);
    SlotStays(run, actions, k + 1, f, i);
    if run[k].sched.Renewing? {
      RenewingStays(run, actions, k + 1, f);
    } else {
      ForcedWhenFirst(run, actions, k, f);
    }
    hide IsRun, NoFinish, FirstStart;
  }

  lemma ForcedWhenFirst(run: seq<State>, actions: seq<Action>, k: nat, f: nat)
    requires IsRun(run, actions) && k < f < |actions| && NoFinish(actions, k, f)
    requires !run[k + 1].sched.Renewing? && run[f].sched.Renewing?
    ensures (exists m :: k < m < f && actions[m].TakeToken?) <==> exists m :: FirstStart(actions, k, m) && actions[m].TakeToken?
  {
    if forall n :: k + 1 <= n < f ==> !Starts(actions[n]) {
      IdleStays(run, actions, k + 1, f);
    }
    var n :| k + 1 <= n < f && Starts(actions[n]);
    var m := SomeFirst(actions, k, n);
    RunStep(run, actions, m);
    assert NoFinish(actions, m + 1 - 1, f);
    RenewingStays(run, actions, m + 1, f);
    forall p ensures FirstStart(actions, k, p) ==> p == m {
      OneFirst(actions, k, p, m);
    }
    hide IsRun, NoFinish;
  }

  lemma OneFirst(actions: seq<Action>, k: int, p: int, m: int)
    requires FirstStart(actions, k, m)
    ensures FirstStart(actions, k, p) ==> p == m
  {
  }

  // Counterexample: a caller answers false, "dropped", while its channel stays stored and a token is pending.
  lemma FalseIsNotDropped() returns (s: State)
    ensures Reachable(s)
    ensures s.callers == [Returned(true), Returned(false)] && s.slot == Some(1) && s.token
  {
    hide Reachable;
    ReachableAtStart();
    s := ReachableStep(INIT, CallArrives);
    s := ReachableStep(s, TimerFires);
    s := ReachableStep(s, CompareAndSwap(0));
    s := ReachableStep(s, FinishRenewal);
    s := ReachableStep(s, CloseDone);
    s := ReachableStep(s, CallArrives);
    s := ReachableStep(s, CompareAndSwap(1));
    s := ReachableStep(s, Send(0));
    s := ReachableStep(s, Send(1));
  }

  // Counterexample: a done channel is closed while the forced renewal it asked for has not begun.
  lemma ClosedBeforeForcedRenewal() returns (s: State)
    ensures Reachable(s)
    ensures s.callers == [Returned(true)] && s.closes == [1] && s.token && s.sched.Idle?
  {
    hide Reachable;
    ReachableAtStart();
    s := ReachableStep(INIT, CallArrives);
    s := ReachableStep(s, TimerFires);
    s := ReachableStep(s, CompareAndSwap(0));
    s := ReachableStep(s, Send(0));
    s := ReachableStep(s, FinishRenewal);
    s := ReachableStep(s, CloseDone);
  }
}
