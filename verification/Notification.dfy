/**
 Waiting for a container to become ready: the channel with its one token, the waiters, and the ticker that drives the
 checks, over all runs of the watch loop.
 */
module Notification {
  import opened WatchLoop

  predicate MakesReady(c: ContainerState, x: Input, timeout: int) {
    Stores(c, x) && x.check == Healthy && !TimedOut(Loaded(c, x.beside), x.time, timeout)
  }

  // The waiters that were told no and are on their way to the channel, those that are blocked there, and the token that the
  // channel holds, of which there is one at most.
  datatype Queue = Queue(asking: nat, blocked: nat, token: bool)

  const EMPTY := Queue(0, 0, false)

  // Nobody is blocked while there is a token.
  predicate Settled(q: Queue) {
    q.blocked > 0 ==> !q.token
  }

  function Unanswered(q: Queue): nat {
    q.asking + q.blocked
  }

  // The token that is sent goes to a blocked waiter, if there is one. Otherwise it stays, unless one is there.
  function Notified(q: Queue): Queue {
    if q.blocked > 0 then q.(blocked := q.blocked - 1) else q.(token := true)
  }

  // A waiter that comes to the channel takes the token or blocks.
  function Entered(q: Queue): Queue {
    if q.asking == 0 then q
    else if q.token then q.(asking := q.asking - 1, token := false)
    else q.(asking := q.asking - 1, blocked := q.blocked + 1)
  }

  function Serve(c: ContainerState, q: Queue, x: Input, timeout: int): Queue {
    match x
    case Ask => if c.ready then q else q.(asking := q.asking + 1)
    case Refused => q.(asking := q.asking + 1)
    case Enter => Entered(q)
    case GiveUp(blocked) =>
      if blocked && q.blocked > 0 then q.(blocked := q.blocked - 1)
      else if !blocked && q.asking > 0 then q.(asking := q.asking - 1)
      else q
    case _ => if MakesReady(c, x, timeout) then Notified(q) else q
  }

  // The channel and its waiters after a run.
  function Line(c: ContainerState, q: Queue, inputs: seq<Input>, timeout: int): Queue
    decreases |inputs|
  {
    if inputs == [] then q
    else
      var init := inputs[..|inputs| - 1];
      Serve(Run(c, init, timeout), Line(c, q, init, timeout), inputs[|inputs| - 1], timeout)
  }

  lemma LineMore(c: ContainerState, q: Queue, p: seq<Input>, x: Input, timeout: int)
    ensures Line(c, q, p + [x], timeout) == Serve(Run(c, p, timeout), Line(c, q, p, timeout), x, timeout)
  {
    assert (p + [x])[..|p|] == p;
  }

  lemma {:induction false} LineSettled(c: ContainerState, q: Queue, inputs: seq<Input>, timeout: int)
    requires Settled(q)
    ensures Settled(Line(c, q, inputs, timeout))
    decreases |inputs|
  {
    if inputs != [] {
      LineSettled(c, q, inputs[..|inputs| - 1], timeout);
      hide Run, MakesReady;
    }
  }

  // The container becomes ready while nobody is blocked.
  predicate Leaves(c: ContainerState, q: Queue, x: Input, timeout: int) {
    MakesReady(c, x, timeout) && q.blocked == 0
  }

  // A waiter comes to the channel, and takes the token if there is one.
  predicate Takes(q: Queue, x: Input) {
    x.Enter? && q.asking > 0
  }

  ghost predicate LeavesAt(c: ContainerState, q: Queue, inputs: seq<Input>, k: int, timeout: int) {
    0 <= k < |inputs| && Leaves(Run(c, inputs[..k], timeout), Line(c, q, inputs[..k], timeout), inputs[k], timeout)
  }

  ghost predicate TakesAt(c: ContainerState, q: Queue, inputs: seq<Input>, k: int, timeout: int) {
    0 <= k < |inputs| && Takes(Line(c, q, inputs[..k], timeout), inputs[k])
  }

  // Something that is switched on and off, seen after n steps.
  ghost function Latch(on: bool, sets: int -> bool, clears: int -> bool, n: nat): bool {
    if n == 0 then on else sets(n - 1) || (!clears(n - 1) && Latch(on, sets, clears, n - 1))
  }

  lemma {:induction false} LatchIff(on: bool, sets: int -> bool, clears: int -> bool, n: nat)
    ensures Latch(on, sets, clears, n)
            <==> (on && forall m :: 0 <= m < n ==> !clears(m)) || exists k :: 0 <= k < n && sets(k) && forall m :: k < m < n ==> !clears(m)
  {
    if n > 0 {
      LatchIff(on, sets, clears, n - 1);
      if sets(n - 1) {
        assert forall m :: n - 1 < m < n ==> !clears(m);
      }
    }
  }

  lemma TokenStep(c: ContainerState, q: Queue, x: Input, timeout: int)
    requires Settled(q)
    ensures Serve(c, q, x, timeout).token <==> Leaves(c, q, x, timeout) || (q.token && !Takes(q, x))
    ensures Leaves(c, q, x, timeout) ==> !Takes(q, x)
  {
    hide TimedOut;
  }

  lemma {:induction false} TokenIsLatch(c: ContainerState, q: Queue, inputs: seq<Input>, n: nat, timeout: int)
    requires Settled(q) && n <= |inputs|
    ensures Line(c, q, inputs[..n], timeout).token
            == Latch(q.token, k => LeavesAt(c, q, inputs, k, timeout), k => TakesAt(c, q, inputs, k, timeout), n)
  {
    if n > 0 {
      var init, x := inputs[..n - 1], inputs[n - 1];
      TokenIsLatch(c, q, inputs, n - 1, timeout);
      assert init + [x] == inputs[..n];
      LineMore(c, q, init, x, timeout);
      LineSettled(c, q, init, timeout);
      TokenStep(Run(c, init, timeout), Line(c, q, init, timeout), x, timeout);
      hide Run, Line, Serve, Leaves, Takes;
    }
  }

  // A token is pending after a run exactly when the container became ready in it while nobody was blocked, or one was there
  // before, and no waiter came to the channel since. The next one that does is told that the container is ready.
  lemma TokenIff(c: ContainerState, q: Queue, inputs: seq<Input>, timeout: int)
    requires Settled(q)
    ensures Line(c, q, inputs, timeout).token
            <==> || (q.token && forall m :: 0 <= m < |inputs| ==> !TakesAt(c, q, inputs, m, timeout))
                 || exists k :: LeavesAt(c, q, inputs, k, timeout)
                                && forall m :: k < m < |inputs| ==> !TakesAt(c, q, inputs, m, timeout)
  {
    var n := |inputs|;
    var sets, clears := k => LeavesAt(c, q, inputs, k, timeout), k => TakesAt(c, q, inputs, k, timeout);
    assert inputs[..n] == inputs;
    TokenIsLatch(c, q, inputs, n, timeout);
    LatchIff(q.token, sets, clears, n);
    assert forall k :: LeavesAt(c, q, inputs, k, timeout) ==> 0 <= k < n;
    hide Line, LeavesAt, TakesAt, Latch;
    assert forall k :: sets(k) == LeavesAt(c, q, inputs, k, timeout);
    assert forall k :: clears(k) == TakesAt(c, q, inputs, k, timeout);
  }

  // ----- who is released

  // The waiters that a run tells no.
  function Refusals(c: ContainerState, inputs: seq<Input>, timeout: int): nat
    decreases |inputs|
  {
    if inputs == [] then 0
    else
      var init, x := inputs[..|inputs| - 1], inputs[|inputs| - 1];
      Refusals(c, init, timeout) + if x.Refused? || (x.Ask? && !Run(c, init, timeout).ready) then 1 else 0
  }

  // The waiters that give up in it.
  function Leavers(c: ContainerState, q: Queue, inputs: seq<Input>, timeout: int): nat
    decreases |inputs|
  {
    if inputs == [] then 0
    else
      var init, x := inputs[..|inputs| - 1], inputs[|inputs| - 1];
      var line := Line(c, q, init, timeout);
      Leavers(c, q, init, timeout) + if x.GiveUp? && (if x.blocked then line.blocked else line.asking) > 0 then 1 else 0
  }

  ghost predicate NoneReady(c: ContainerState, inputs: seq<Input>, timeout: int) {
    forall k :: 0 <= k < |inputs| ==> !MakesReady(Run(c, inputs[..k], timeout), inputs[k], timeout)
  }

  lemma ServeKeeps(c: ContainerState, q: Queue, x: Input, timeout: int)
    requires Settled(q) && !MakesReady(c, x, timeout)
    ensures var r := Serve(c, q, x, timeout);
            && Settled(r) && (!q.token ==> !r.token)
            && Unanswered(r) + (if x.GiveUp? && (if x.blocked then q.blocked else q.asking) > 0 then 1 else 0)
               + (if q.token && !r.token then 1 else 0)
               == Unanswered(q) + if x.Refused? || (x.Ask? && !c.ready) then 1 else 0
  {
    hide MakesReady;
  }

  // While the container does not become ready again no waiter gets away but by giving up, and one by the token that is left.
  lemma {:induction false} WaitersKept(c: ContainerState, q: Queue, inputs: seq<Input>, timeout: int)
    requires Settled(q) && NoneReady(c, inputs, timeout)
    ensures var r := Line(c, q, inputs, timeout);
            && Settled(r) && (!q.token ==> !r.token)
            && Unanswered(r) + Leavers(c, q, inputs, timeout) + (if q.token && !r.token then 1 else 0)
               == Unanswered(q) + Refusals(c, inputs, timeout)
    decreases |inputs|
  {
    if inputs != [] {
      var n := |inputs| - 1;
      hide Run, MakesReady, Serve, Settled, Unanswered;
      assert !MakesReady(Run(c, inputs[..n], timeout), inputs[n], timeout);
      forall k | 0 <= k < n ensures !MakesReady(Run(c, inputs[..n][..k], timeout), inputs[..n][k], timeout) {
        assert inputs[..n][..k] == inputs[..k];
      }
      WaitersKept(c, q, inputs[..n], timeout);
      ServeKeeps(Run(c, inputs[..n], timeout), Line(c, q, inputs[..n], timeout), inputs[n], timeout);
    }
  }

  // Becoming ready answers one waiter. When no one gives up, and all have come to the channel, everyone is released exactly
  // when at most one was waiting or told no since; otherwise all but one stay blocked.
  lemma AllReleasedIff(c: ContainerState, q: Queue, x: Input, after: seq<Input>, timeout: int)
    requires Settled(q) && MakesReady(c, x, timeout)
    requires var d := Step(c, x, timeout); NoneReady(d, after, timeout) && Leavers(d, Serve(c, q, x, timeout), after, timeout) == 0
    requires Line(Step(c, x, timeout), Serve(c, q, x, timeout), after, timeout).asking == 0
    ensures var d, r := Step(c, x, timeout), Line(Step(c, x, timeout), Serve(c, q, x, timeout), after, timeout);
            var all := Unanswered(q) + Refusals(d, after, timeout);
            && r.blocked == (if all <= 1 then 0 else all - 1)
            && (Unanswered(r) == 0 <==> all <= 1)
  {
    var d, s := Step(c, x, timeout), Serve(c, q, x, timeout);
    assert s == Notified(q);
    WaitersKept(d, s, after, timeout);
    hide Line, Run, MakesReady, NoneReady, Leavers, Refusals, Step;
  }

  // ----- the health ticker

  // A check that ends the checking: it passes, fails, or comes too late.
  predicate Ends(c: ContainerState, now: int, check: Check, timeout: int) {
    check != NoHost && (TimedOut(c, now, timeout) || check != Unhealthy)
  }

  // This input stops the ticker.
  predicate StopsTicker(c: ContainerState, x: Input, timeout: int) {
    || (x.Event? && KindOf(x.action) in {Stops, Pauses})
    || (x.Tick? && Guarded(c, x.beside) && Ends(Loaded(c, x.beside), x.time, x.check, timeout))
  }

  predicate StartsTicker(x: Input) {
    x.Event? && KindOf(x.action) == Starts
  }

  // Whether the ticker runs after a run. A reload does not touch it.
  function Ticking(c: ContainerState, on: bool, inputs: seq<Input>, timeout: int): bool
    decreases |inputs|
  {
    if inputs == [] then on
    else
      var init, x := inputs[..|inputs| - 1], inputs[|inputs| - 1];
      StartsTicker(x) || (!StopsTicker(Run(c, init, timeout), x, timeout) && Ticking(c, on, init, timeout))
  }

  // Ticks come only from a ticker that runs.
  ghost predicate Possible(c: ContainerState, on: bool, inputs: seq<Input>, timeout: int) {
    forall k :: 0 <= k < |inputs| && inputs[k].Tick? ==> Ticking(c, on, inputs[..k], timeout)
  }

  ghost predicate NoStart(inputs: seq<Input>) {
    forall k :: 0 <= k < |inputs| ==> !StartsTicker(inputs[k])
  }

  lemma TickingMore(c: ContainerState, on: bool, p: seq<Input>, x: Input, timeout: int)
    ensures Ticking(c, on, p + [x], timeout)
            == (StartsTicker(x) || (!StopsTicker(Run(c, p, timeout), x, timeout) && Ticking(c, on, p, timeout)))
  {
    assert (p + [x])[..|p|] == p;
  }

  // A container that is ready is not checked.
  lemma {:induction false} ReadyIsUnticked(status: Status, inputs: seq<Input>, timeout: int)
    requires Given(inputs)
    ensures Run(Fresh(status), inputs, timeout).ready ==> !Ticking(Fresh(status), true, inputs, timeout)
    decreases |inputs|
  {
    if inputs != [] {
      ReadyIsUnticked(status, inputs[..|inputs| - 1], timeout);
      hide IsStart, IsStop, IsPause;
    }
  }

  ghost predicate StopsAt(c: ContainerState, inputs: seq<Input>, k: int, timeout: int) {
    0 <= k < |inputs| && StopsTicker(Run(c, inputs[..k], timeout), inputs[k], timeout)
  }

  lemma {:induction false} TickingIsLatch(c: ContainerState, on: bool, inputs: seq<Input>, n: nat, timeout: int)
    requires n <= |inputs|
    ensures Ticking(c, on, inputs[..n], timeout)
            == Latch(on, k => 0 <= k < |inputs| && StartsTicker(inputs[k]), k => StopsAt(c, inputs, k, timeout), n)
  {
    if n > 0 {
      var init, x := inputs[..n - 1], inputs[n - 1];
      TickingIsLatch(c, on, inputs, n - 1, timeout);
      assert init + [x] == inputs[..n];
      TickingMore(c, on, init, x, timeout);
      hide Run, Ticking, StartsTicker, StopsTicker;
    }
  }

  // A tick can follow a run exactly when the last thing that touched the ticker was a start event, or nothing did and it ran
  // before. Reloads are not among them.
  lemma TickingIff(c: ContainerState, on: bool, inputs: seq<Input>, timeout: int)
    ensures Ticking(c, on, inputs, timeout)
            <==> || (on && forall m :: 0 <= m < |inputs| ==> !StopsAt(c, inputs, m, timeout))
                 || exists k :: 0 <= k < |inputs| && StartsTicker(inputs[k])
                                && forall m :: k < m < |inputs| ==> !StopsAt(c, inputs, m, timeout)
  {
    var n := |inputs|;
    var sets, clears := k => 0 <= k < |inputs| && StartsTicker(inputs[k]), k => StopsAt(c, inputs, k, timeout);
    assert inputs[..n] == inputs;
    TickingIsLatch(c, on, inputs, n, timeout);
    LatchIff(on, sets, clears, n);
    hide Ticking, StartsTicker, StopsAt, Latch;
    assert forall k :: sets(k) == (0 <= k < n && StartsTicker(inputs[k]));
    assert forall k :: clears(k) == StopsAt(c, inputs, k, timeout);
  }

  // It is stopped while the container is in error by a check, too, and runs while a start is under way.
  lemma {:induction false} TickerFollows(status: Status, inputs: seq<Input>, timeout: int)
    requires Given(inputs)
    ensures var c, on := Run(Fresh(status), inputs, timeout), Ticking(Fresh(status), true, inputs, timeout);
            (c.err.Some? ==> !on) && (c.startedAt.Some? ==> on) && (c.startedAt.Some? ==> UnderWay(c))
    decreases |inputs|
  {
    if inputs != [] {
      TickerFollows(status, inputs[..|inputs| - 1], timeout);
      hide IsStart, IsStop, IsPause;
    }
  }

  // Once the ticker is stopped there is no tick before the next start event.
  lemma {:induction false} NoTickUntilStart(c: ContainerState, inputs: seq<Input>, timeout: int)
    requires Possible(c, false, inputs, timeout) && NoStart(inputs)
    ensures !Ticking(c, false, inputs, timeout) && forall k :: 0 <= k < |inputs| ==> !inputs[k].Tick?
    decreases |inputs|
  {
    if inputs != [] {
      var n := |inputs| - 1;
      forall k | 0 <= k < n && inputs[..n][k].Tick? ensures Ticking(c, false, inputs[..n][..k], timeout) {
        assert inputs[..n][..k] == inputs[..k];
      }
      NoTickUntilStart(c, inputs[..n], timeout);
      hide StartsTicker, StopsTicker, Run;
      assert forall k :: 0 <= k < n ==> inputs[..n][k] == inputs[k];
    }
  }

  // A container that is not ready and whose ticker is stopped does not become ready before the next start event.
  lemma UnreadyUntilStart(c: ContainerState, inputs: seq<Input>, timeout: int)
    requires !c.ready && Given(inputs) && NoStart(inputs) && Possible(c, false, inputs, timeout)
    ensures !Run(c, inputs, timeout).ready
  {
    NoTickUntilStart(c, inputs, timeout);
    NeverReady(c, inputs, timeout);
  }

  lemma {:induction false} NeverReady(c: ContainerState, inputs: seq<Input>, timeout: int)
    requires !c.ready && Given(inputs) && forall k :: 0 <= k < |inputs| ==> !inputs[k].Tick?
    ensures !Run(c, inputs, timeout).ready
    decreases |inputs|
  {
    if inputs != [] {
      NeverReady(c, inputs[..|inputs| - 1], timeout);
      hide KindOf;
    }
  }

  // A reload leaves a ready container without checks: it is not ready again before the next start event, also when the
  // reload found it running.
  lemma ReloadedStaysUnready(status: Status, p: seq<Input>, found: Status, after: seq<Input>, timeout: int)
    requires Given(p) && Run(Fresh(status), p, timeout).ready
    requires Given(after) && NoStart(after)
    requires Possible(Fresh(found), Ticking(Fresh(status), true, p + [Reload(found)], timeout), after, timeout)
    ensures !Run(Fresh(status), p + [Reload(found)] + after, timeout).ready
  {
    ReadyIsUnticked(status, p, timeout);
    TickingMore(Fresh(status), true, p, Reload(found), timeout);
    RunMore(Fresh(status), p, Reload(found), timeout);
    RunSplit(Fresh(status), p + [Reload(found)], after, timeout);
    UnreadyUntilStart(Fresh(found), after, timeout);
    hide Run, Possible, Ticking;
  }

  lemma NoneReadyWithoutTicks(c: ContainerState, inputs: seq<Input>, timeout: int)
    requires forall k :: 0 <= k < |inputs| ==> !inputs[k].Tick?
    ensures NoneReady(c, inputs, timeout)
  {
    hide Run;
  }

  // Of those that wait when the container becomes ready one is released, and no other before the next start event, whatever
  // happens: all of them exactly when at most one waits or is told no since.
  lemma StrandedUntilStart(c: ContainerState, q: Queue, x: Input, after: seq<Input>, timeout: int)
    requires Settled(q) && MakesReady(c, x, timeout)
    requires Possible(Step(c, x, timeout), Ticking(c, true, [x], timeout), after, timeout) && NoStart(after)
    ensures var d, s := Step(c, x, timeout), Serve(c, q, x, timeout);
            var r, all := Line(d, s, after, timeout), Unanswered(q) + Refusals(d, after, timeout);
            && Unanswered(r) + Leavers(d, s, after, timeout) >= all - 1
            && (Leavers(d, s, after, timeout) == 0 && r.asking == 0 ==> (Unanswered(r) == 0 <==> all <= 1))
  {
    var d, s := Step(c, x, timeout), Serve(c, q, x, timeout);
    assert [x][..0] == [] && !Ticking(c, true, [x], timeout);
    NoTickUntilStart(d, after, timeout);
    NoneReadyWithoutTicks(d, after, timeout);
    WaitersKept(d, s, after, timeout);
    assert s == Notified(q) && READY == d;
    if Leavers(d, s, after, timeout) == 0 && Line(d, s, after, timeout).asking == 0 {
      AllReleasedIff(c, q, x, after, timeout);
    }
    hide Line, Run, MakesReady, NoneReady, Leavers, Refusals, Step, Possible, Ticking;
  }

  // ----- instances

  // One more input, with what it makes of the state and the queue.
  lemma Next(c: ContainerState, p: seq<Input>, x: Input, s: seq<Input>, d: ContainerState, q: Queue, timeout: int)
    requires s == p + [x]
    requires Step(Run(c, p, timeout), x, timeout) == d
    requires Serve(Run(c, p, timeout), Line(c, EMPTY, p, timeout), x, timeout) == q
    ensures Run(c, s, timeout) == d && Line(c, EMPTY, s, timeout) == q
  {
    RunMore(c, p, x, timeout);
    LineMore(c, EMPTY, p, x, timeout);
  }

  lemma Started(now: int, timeout: int)
    ensures Run(Fresh(Stopped), [Event(START, now)], timeout) == Starting(now)
    ensures Line(Fresh(Stopped), EMPTY, [Event(START, now)], timeout) == EMPTY
  {
    RunStarted(now, timeout);
    assert [Event(START, now)][..0] == [];
    hide KindOf, Run;
  }

  // Two waiters are blocked when the container becomes ready: one stays blocked.
  lemma SecondStaysBlocked(now: int, timeout: int)
    requires timeout >= 0
    ensures var inputs := [Event(START, now), Ask, Ask, Enter, Enter, Tick(now, ALONE, Healthy)];
            Run(Fresh(Stopped), inputs, timeout) == READY && Line(Fresh(Stopped), EMPTY, inputs, timeout) == Queue(0, 1, false)
  {
    var c, e, t := Fresh(Stopped), Event(START, now), Tick(now, ALONE, Healthy);
    hide Run, Line, KindOf;
    Started(now, timeout);
    Next(c, [e], Ask, [e, Ask], Starting(now), Queue(1, 0, false), timeout);
    Next(c, [e, Ask], Ask, [e, Ask, Ask], Starting(now), Queue(2, 0, false), timeout);
    Next(c, [e, Ask, Ask], Enter, [e, Ask, Ask, Enter], Starting(now), Queue(1, 1, false), timeout);
    Next(c, [e, Ask, Ask, Enter], Enter, [e, Ask, Ask, Enter, Enter], Starting(now), Queue(0, 2, false), timeout);
    Next(c, [e, Ask, Ask, Enter, Enter], t, [e, Ask, Ask, Enter, Enter, t], READY, Queue(0, 1, false), timeout);
  }

  // Nobody waits when the container becomes ready: the token outlives the stop after it, while the container starts again.
  lemma StaleTokenPending(now: int, timeout: int)
    requires timeout >= 0
    ensures var inputs := [Event(START, now), Tick(now, ALONE, Healthy), Event(STOP, now), Event(START, now)];
            && Run(Fresh(Stopped), inputs, timeout) == Starting(now)
            && Line(Fresh(Stopped), EMPTY, inputs, timeout) == Queue(0, 0, true)
  {
    var c, e, t, stop := Fresh(Stopped), Event(START, now), Tick(now, ALONE, Healthy), Event(STOP, now);
    KindsOfActions();
    hide Run, Line, KindOf;
    Started(now, timeout);
    Next(c, [e], t, [e, t], READY, Queue(0, 0, true), timeout);
    Next(c, [e, t], stop, [e, t, stop], Fresh(Stopped), Queue(0, 0, true), timeout);
    Next(c, [e, t, stop], e, [e, t, stop, e], Starting(now), Queue(0, 0, true), timeout);
  }

  // A waiter that is blocked takes it.
  lemma BlockedTakesToken(now: int, timeout: int)
    requires timeout >= 0
    ensures var inputs := [Event(START, now), Ask, Enter, Tick(now, ALONE, Healthy), Event(STOP, now), Event(START, now)];
            Line(Fresh(Stopped), EMPTY, inputs, timeout) == EMPTY
  {
    var c, e, t, stop := Fresh(Stopped), Event(START, now), Tick(now, ALONE, Healthy), Event(STOP, now);
    KindsOfActions();
    hide Run, Line, KindOf;
    Started(now, timeout);
    Next(c, [e], Ask, [e, Ask], Starting(now), Queue(1, 0, false), timeout);
    Next(c, [e, Ask], Enter, [e, Ask, Enter], Starting(now), Queue(0, 1, false), timeout);
    Next(c, [e, Ask, Enter], t, [e, Ask, Enter, t], READY, EMPTY, timeout);
    Next(c, [e, Ask, Enter, t], stop, [e, Ask, Enter, t, stop], Fresh(Stopped), EMPTY, timeout);
    Next(c, [e, Ask, Enter, t, stop], e, [e, Ask, Enter, t, stop, e], Starting(now), EMPTY, timeout);
  }

  // A reload that finds a ready container running: it is not ready, and its ticker is stopped.
  lemma ReloadStopsChecks(now: int, timeout: int)
    requires timeout >= 0
    ensures var inputs := [Event(START, now), Tick(now, ALONE, Healthy), Reload(Running)];
            Run(Fresh(Stopped), inputs, timeout) == Fresh(Running) && !Ticking(Fresh(Stopped), true, inputs, timeout)
  {
    var c, e, t, r := Fresh(Stopped), Event(START, now), Tick(now, ALONE, Healthy), Reload(Running);
    hide Run, Line, KindOf;
    Started(now, timeout);
    Next(c, [e], t, [e, t], READY, Queue(0, 0, true), timeout);
    Next(c, [e, t], r, [e, t, r], Fresh(Running), Queue(0, 0, true), timeout);
    assert [e] + [t] == [e, t] && [e, t] + [r] == [e, t, r];
    TickingMore(c, true, [e], t, timeout);
    TickingMore(c, true, [e, t], r, timeout);
  }
}
