/** The watcher object and its loop: its fields after any inputs are those of the run. */
module IdleWatcher {
  import opened Options
  import opened WatchLoop
  import opened Notification

  class Watcher {
    var state: ContainerState
    // The notification channel, with the waiters that come to it.
    var queue: Queue
    // Whether the health ticker runs.
    var ticking: bool
    const timeout: int

    constructor (status: Status, wakeTimeout: int)
      ensures state == Fresh(status) && queue == EMPTY && ticking && timeout == wakeTimeout
    {
      state, queue, ticking, timeout := Fresh(status), EMPTY, true, wakeTimeout;
    }

    // The token goes to a blocked waiter, or into the channel if that is empty.
    method SetReady()
      modifies this`state, this`queue
      ensures state == READY && queue == Notified(old(queue))
    {
      state := READY;
      if queue.blocked > 0 {
        queue := queue.(blocked := queue.blocked - 1);
      } else if !queue.token {
        queue := queue.(token := true);
      }
    }

    method SetStarting(now: int)
      modifies this`state
      ensures state == Starting(now)
    {
      state := Starting(now);
    }

    method SetNapping(status: Status)
      modifies this`state
      ensures state == Fresh(status)
    {
      state := Fresh(status);
    }

    method SetError(e: Failure)
      modifies this`state
      ensures state == Errored(e)
    {
      state := Errored(e);
    }

    // The state is loaded before the check and stored after it; late and during tell of reloads before the load and after it.
    method CheckUpdateState(now: int, late: Option<Status>, during: Option<Status>, check: Check) returns (ready: bool, err: bool)
      modifies this`state, this`queue
      ensures var loaded := After(old(state), late);
              && state == CheckOf(loaded, during, now, check, timeout)
              && ready == (check == Healthy && !TimedOut(loaded, now, timeout))
              && err == (check != NoHost && (TimedOut(loaded, now, timeout) || check == Fails))
      ensures queue == if ready then Notified(old(queue)) else old(queue)
    {
      ready, err := false, false;
      ReloadIf(late);
      var loaded := state;
      ReloadIf(during);
      if check == NoHost {
        return;
      }
      if loaded.startedAt.Some? {
        if now - loaded.startedAt.value > timeout {
          SetError(StartupTimeout);
          return false, true;
        }
      }
      if check == Fails {
        SetError(CheckFailed);
        return false, true;
      }
      if check == Healthy {
        SetReady();
        return true, false;
      }
      state := ContainerState(loaded.status, false, loaded.err, loaded.startedAt, loaded.healthTries + 1);
    }

    // A reload beside the loop, if there is one.
    method ReloadIf(reload: Option<Status>)
      modifies this`state
      ensures state == After(old(state), reload)
    {
      if reload.Some? {
        state := Fresh(reload.value);
      }
    }

    // Handles the inputs up to a destroy event; reloads and waiters come from other goroutines.
    method WatchUntilDestroy(inputs: seq<Input>) returns (n: nat)
      requires Given(inputs)
      modifies this
      ensures n <= |inputs| && state == Run(old(state), inputs[..n], timeout)
      ensures queue == Line(old(state), old(queue), inputs[..n], timeout)
      ensures ticking == Ticking(old(state), old(ticking), inputs[..n], timeout)
      ensures forall k :: 0 <= k < n ==> !(inputs[k].Event? && inputs[k].action == DESTROY)
      ensures n < |inputs| ==> inputs[n].Event? && inputs[n].action == DESTROY
    {
      n := 0;
      while n < |inputs|
        invariant n <= |inputs| && state == Run(old(state), inputs[..n], timeout)
        invariant queue == Line(old(state), old(queue), inputs[..n], timeout)
        invariant ticking == Ticking(old(state), old(ticking), inputs[..n], timeout)
        invariant forall k :: 0 <= k < n ==> !(inputs[k].Event? && inputs[k].action == DESTROY)
      {
        hide IsStart, IsStop, IsPause, Run, Line, Ticking, Notified, Entered;
        RunMore(old(state), inputs[..n], inputs[n], timeout);
        LineMore(old(state), old(queue), inputs[..n], inputs[n], timeout);
        TickingMore(old(state), old(ticking), inputs[..n], inputs[n], timeout);
        assert inputs[..n] + [inputs[n]] == inputs[..n + 1];
        match inputs[n] {
        case Event(a, now) =>
          if a == DESTROY {
            return;
          }
          if a != FORCE_RELOAD {
            if IsStart(a) {
              SetStarting(now);
              ticking := true;
            } else if IsStop(a) {
              SetNapping(Stopped);
              ticking := false;
            } else if IsPause(a) {
              SetNapping(Paused);
              ticking := false;
            }
          }
        case Tick(now, b, check) =>
          var running := state.status == Running;
          ReloadIf(b.early);
          if running && !state.ready {
            var ready, err := CheckUpdateState(now, b.late, b.during, check);
            if err || ready {
              ticking := false;
            }
          } else {
            ReloadIf(b.late);
            ReloadIf(b.during);
          }
        case Reload(status) =>
          state := Fresh(status);
        case Ask =>
          var ready := AskReady();
        case Refused =>
          queue := queue.(asking := queue.asking + 1);
        case Enter =>
          var answer := EnterChannel();
        case GiveUp(blocked) =>
          GiveUpWaiting(blocked);
        case IdleTick =>
        }
        n := n + 1;
      }
      assert inputs[..n] == inputs;
    }

    // A waiting request asks first.
    method AskReady() returns (ready: bool)
      modifies this`queue
      ensures ready == state.ready
      ensures queue == if ready then old(queue) else old(queue).(asking := old(queue).asking + 1)
    {
      ready := state.ready;
      if !ready {
        queue := queue.(asking := queue.asking + 1);
      }
    }

    // Told no it comes to the channel: it is answered if there is a token, and blocks otherwise.
    method EnterChannel() returns (answer: Option<bool>)
      modifies this`queue
      ensures queue == Entered(old(queue))
      ensures old(queue).asking > 0 ==> answer == if old(queue).token then Some(true) else None
    {
      answer := None;
      if queue.asking == 0 {
        return;
      }
      queue := queue.(asking := queue.asking - 1);
      if queue.token {
        queue := queue.(token := false);
        answer := Some(true);
      } else {
        queue := queue.(blocked := queue.blocked + 1);
      }
    }

    // The request of a waiter is canceled.
    method GiveUpWaiting(blocked: bool)
      modifies this`queue
      ensures queue == Serve(state, old(queue), GiveUp(blocked), timeout)
    {
      if blocked && queue.blocked > 0 {
        queue := queue.(blocked := queue.blocked - 1);
      } else if !blocked && queue.asking > 0 {
        queue := queue.(asking := queue.asking - 1);
      }
    }
  }

  // An instance: a token that nobody took outlives the stop after it, and tells the next waiter of a container that is
  // starting again that it is ready.
  method StaleToken(now: int) returns (w: Watcher, answer: Option<bool>)
    ensures answer == Some(true) && !w.state.ready && w.state == Starting(now)
  {
    w := new Watcher(Stopped, 0);
    w.SetStarting(now);
    var ready, err := w.CheckUpdateState(now, None, None, Healthy);
    w.SetNapping(Stopped);
    w.SetStarting(now);
    ready := w.AskReady();
    answer := w.EnterChannel();
  }
}
