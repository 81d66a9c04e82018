/**
 The calls to the provider: which status makes which call, and one flight for a container at a time.
 */
module WakeCalls {
  import opened Options
  import opened Wake

  // How a task came to lead a flight: it did before, has just entered and found no other, or has just loaded.
  ghost predicate Flies(s: State, a: Action, s': State, u: nat)
    requires u < |s.tasks| && u < |s'.tasks|
  {
    var task, next := s.tasks[u], s'.tasks[u];
    && next.w == task.w
    && (next.phase.Loading? ==> task.phase.Loading? || (a == Enter(u) && !exists l :: Leads(s, l, task.w)))
    && (next.phase.Acting? ==>
          task.phase == next.phase || (a == Load(u) && task.phase.Loading? && next.phase.status == s.containers(task.w).status))
    && (Decided(next.phase) ==> Decided(task.phase) || (a == Decide(u) && !s.containers(task.w).starting))
  }

  // The container itself has to be looked at.
  predicate Decided(phase: Phase) {
    phase.Entering? || phase.Loading? || phase.Acting? || phase.Following?
  }

  lemma StepFlies(config: Config, s: State, a: Action, u: nat)
    requires Enabled(config, s, a) && u < |s.tasks|
    ensures u < |Step(config, s, a).tasks| && Flies(s, a, Step(config, s, a), u)
  {
    if a.Launch? || a.Join? || a.Decide? || a.Enter? {
      EarlyFlies(config, s, a, u);
    } else {
      LateFlies(config, s, a, u);
    }
  }

  lemma EarlyFlies(config: Config, s: State, a: Action, u: nat)
    requires Enabled(config, s, a) && u < |s.tasks| && (a.Launch? || a.Join? || a.Decide? || a.Enter?)
    ensures u < |Step(config, s, a).tasks| && Flies(s, a, Step(config, s, a), u)
  {
    hide Leads;
  }

  lemma LateFlies(config: Config, s: State, a: Action, u: nat)
    requires Enabled(config, s, a) && u < |s.tasks| && !(a.Launch? || a.Join? || a.Decide? || a.Enter?)
    ensures u < |Step(config, s, a).tasks| && Flies(s, a, Step(config, s, a), u)
  {
    hide Leads;
  }

  // ----- one flight

  ghost predicate OneFlight(s: State) {
    forall k: nat, l: nat, w :: Leads(s, k, w) && Leads(s, l, w) ==> k == l
  }

  lemma StepKeepsOneFlight(config: Config, s: State, a: Action)
    requires Enabled(config, s, a) && OneFlight(s)
    ensures OneFlight(Step(config, s, a))
  {
    var s' := Step(config, s, a);
    forall l: nat, w | Leads(s', l, w) ensures Leads(s, l, w) || (a == Enter(l) && !exists k :: Leads(s, k, w)) {
      if l < |s.tasks| {
        StepFlies(config, s, a, l);
      } else {
        StepNew(config, s, a, l);
      }
      hide Enabled, Step;
    }
    hide Enabled, Step, Leads;
    forall k: nat, l: nat, w | Leads(s', k, w) && Leads(s', l, w) ensures k == l {
      assert Leads(s, k, w) || (a == Enter(k) && !exists m :: Leads(s, m, w));
      assert Leads(s, l, w) || (a == Enter(l) && !exists m :: Leads(s, m, w));
    }
  }

  // In every run at most one task at a time leads the flight of a container.
  lemma {:induction false} OneAtATime(config: Config, run: seq<State>, actions: seq<Action>, k: nat)
    requires IsRun(config, run, actions) && k < |run|
    ensures forall l: nat, m: nat, w :: Leads(run[k], l, w) && Leads(run[k], m, w) ==> l == m
  {
    if k > 0 {
      OneAtATime(config, run, actions, k - 1);
      assert Enabled(config, run[k - 1], actions[k - 1]) && run[k - 1 + 1] == Step(config, run[k - 1], actions[k - 1]);
      hide Enabled, Step, Leads;
      StepKeepsOneFlight(config, run[k - 1], actions[k - 1]);
    }
  }

  // ----- which call is made

  // A task that is about to act has loaded what it acts on, at an earlier step.
  lemma {:induction false} LoadedBefore(config: Config, run: seq<State>, actions: seq<Action>, k: nat, t: nat) returns (j: nat)
    requires IsRun(config, run, actions) && k < |run| && t < |run[k].tasks| && run[k].tasks[t].phase.Acting?
    ensures j < k && actions[j] == Load(t) && t < |run[j].tasks| && run[j].tasks[t].w == run[k].tasks[t].w
    ensures run[k].tasks[t].phase.status == run[j].containers(run[j].tasks[t].w).status
  {
    assert k > 0;
    assert Enabled(config, run[k - 1], actions[k - 1]) && run[k - 1 + 1] == Step(config, run[k - 1], actions[k - 1]);
    hide Enabled, Step;
    if t < |run[k - 1].tasks| {
      StepFlies(config, run[k - 1], actions[k - 1], t);
      if run[k - 1].tasks[t].phase.Acting? {
        j := LoadedBefore(config, run, actions, k - 1, t);
      } else {
        j := k - 1;
      }
    } else {
      StepNew(config, run[k - 1], actions[k - 1], t);
    }
  }

  // A task looks at its container only after it found it not starting.
  lemma {:induction false} DecidedBefore(config: Config, run: seq<State>, actions: seq<Action>, k: nat, t: nat) returns (j: nat)
    requires IsRun(config, run, actions) && k < |run| && t < |run[k].tasks| && Decided(run[k].tasks[t].phase)
    ensures j < k && actions[j] == Decide(t) && t < |run[j].tasks| && run[j].tasks[t].w == run[k].tasks[t].w
    ensures !run[j].containers(run[k].tasks[t].w).starting
  {
    assert k > 0;
    assert Enabled(config, run[k - 1], actions[k - 1]) && run[k - 1 + 1] == Step(config, run[k - 1], actions[k - 1]);
    hide Enabled, Step;
    if t < |run[k - 1].tasks| {
      StepFlies(config, run[k - 1], actions[k - 1], t);
      if Decided(run[k - 1].tasks[t].phase) {
        j := DecidedBefore(config, run, actions, k - 1, t);
      } else {
        j := k - 1;
      }
    } else {
      StepNew(config, run[k - 1], actions[k - 1], t);
    }
  }

  // A task that finds its container starting has woken it, without a call; one that does not goes on to look at it.
  lemma StartingIsWoken(config: Config, run: seq<State>, actions: seq<Action>, k: nat, t: nat)
    requires IsRun(config, run, actions) && k < |actions| && actions[k] == Decide(t)
    ensures t < |run[k].tasks| && t < |run[k + 1].tasks|
    ensures var task, next := run[k].tasks[t], run[k + 1].tasks[t].phase;
            if run[k].containers(task.w).starting
            then run[k + 1].trace == run[k].trace + [SawStarting(task.w)] && next == if task.waitHealthy then AwaitHealthy else Finished(true)
            else run[k + 1].trace == run[k].trace && Decided(next)
  {
    assert Enabled(config, run[k], actions[k]) && run[k + 1] == Step(config, run[k], actions[k]);
    hide IsRun, Leads;
  }

  // What the leader of a flight does, by what it loaded: it starts a stopped container, unpauses a paused one and leaves a
  // running one alone; without a provider, or after an error, it makes no call and fails. The followers learn how the call went.
  lemma CallByStatus(config: Config, run: seq<State>, actions: seq<Action>, k: nat, t: nat, hasProvider: bool, ok: bool) returns (j: nat)
    requires IsRun(config, run, actions) && k < |actions| && actions[k] == Act(t, hasProvider, ok)
    ensures j < k && actions[j] == Load(t) && t < |run[j].tasks| && t < |run[k + 1].tasks|
    ensures var w := run[j].tasks[t].w;
            var status := run[j].containers(w).status;
            && run[k + 1].trace == run[k].trace + (
                 if hasProvider && status == Stopped then [Issued(w)] else if hasProvider && status == Paused then [Unpaused(w)] else [])
            && run[k + 1].tasks[t].flown == Some(status == Running || (hasProvider && status != Error && ok))
  {
    assert Enabled(config, run[k], actions[k]) && run[k + 1] == Step(config, run[k], actions[k]);
    j := LoadedBefore(config, run, actions, k, t);
    hide IsRun, Leads;
    assert run[k + 1].trace == run[k].trace + [] || run[k + 1].trace != run[k].trace;
  }

  // The event is logged within the first n steps by one that acts with a provider at hand, after its task loaded the status
  // that asks for it, and before that found it not starting.
  ghost predicate CalledFor(run: seq<State>, actions: seq<Action>, i: nat, j: nat, k: nat, n: nat, e: Event)
    requires e.Issued? || e.Unpaused?
  {
    && i < j < k < n <= |actions| && j < |run| && actions[k].Act? && actions[k].hasProvider
    && actions[i] == Decide(actions[k].t) && !run[i].containers(e.w).starting
    && actions[j] == Load(actions[k].t) && run[j].containers(e.w).status == (if e.Issued? then Stopped else Paused)
    && actions[k].t < |run[j].tasks| && run[j].tasks[actions[k].t].w == e.w
  }

  // In every run every start that was issued was issued after its task found the container not starting and then stopped,
  // and every unpause after it found it not starting and then paused.
  lemma {:induction false} CallsFollowStatus(config: Config, run: seq<State>, actions: seq<Action>, n: nat, e: Event)
    requires IsRun(config, run, actions) && n < |run| && (e.Issued? || e.Unpaused?) && e in run[n].trace
    ensures exists i: nat, j: nat, k: nat :: CalledFor(run, actions, i, j, k, n, e)
  {
    assert n > 0;
    assert Enabled(config, run[n - 1], actions[n - 1]) && run[n - 1 + 1] == Step(config, run[n - 1], actions[n - 1]);
    if e in run[n - 1].trace {
      CallsFollowStatus(config, run, actions, n - 1, e);
      hide IsRun;
      var i: nat, j: nat, k: nat :| CalledFor(run, actions, i, j, k, n - 1, e);
      assert n <= |actions| ==> CalledFor(run, actions, i, j, k, n, e);
    } else {
      OnlyActCalls(config, run[n - 1], actions[n - 1], e);
      hide Enabled, Step;
      var a := actions[n - 1];
      var j := CallByStatus(config, run, actions, n - 1, a.t, a.hasProvider, a.ok);
      LoadingAtLoad(config, run, actions, j, a.t);
      var i := DecidedBefore(config, run, actions, j, a.t);
      hide IsRun;
      assert CalledFor(run, actions, i, j, n - 1, n, e);
    }
  }

  lemma LoadingAtLoad(config: Config, run: seq<State>, actions: seq<Action>, j: nat, t: nat)
    requires IsRun(config, run, actions) && j < |actions| && actions[j] == Load(t)
    ensures t < |run[j].tasks| && run[j].tasks[t].phase.Loading?
  {
    assert Enabled(config, run[j], actions[j]);
  }

  lemma OnlyActCalls(config: Config, s: State, a: Action, e: Event)
    requires Enabled(config, s, a) && e in Step(config, s, a).trace && e !in s.trace && (e.Issued? || e.Unpaused?)
    ensures a.Act?
  {
    hide Leads;
  }

  // ----- what a sighting means

  // At step k task t saw this.
  ghost predicate SightedAt(run: seq<State>, actions: seq<Action>, k: nat, t: nat, e: Event) {
    && k < |actions| && k < |run| && t < |run[k].tasks| && run[k].tasks[t].w == e.w
    && match e
       case SawStarting(w) => actions[k] == Decide(t) && run[k].containers(w).starting
       case SawRunning(w) => actions[k] == Load(t) && run[k].containers(w).status == Running
       case SawHealthy(w) => actions[k] == CheckHealth(t, true)
       case _ => false
  }

  // In every run what was seen was so when it was seen.
  lemma {:induction false} SightingsAreTrue(config: Config, run: seq<State>, actions: seq<Action>, n: nat, e: Event)
    requires IsRun(config, run, actions) && n < |run| && e in run[n].trace && (e.SawStarting? || e.SawRunning? || e.SawHealthy?)
    ensures exists k: nat, t: nat :: k < n && SightedAt(run, actions, k, t, e)
  {
    assert n > 0;
    assert Enabled(config, run[n - 1], actions[n - 1]) && run[n - 1 + 1] == Step(config, run[n - 1], actions[n - 1]);
    if e in run[n - 1].trace {
      SightingsAreTrue(config, run, actions, n - 1, e);
    } else {
      OnlySightsSee(config, run[n - 1], actions[n - 1], e);
      hide Enabled, Step, IsRun;
      assert SightedAt(run, actions, n - 1, actions[n - 1].t, e);
    }
  }

  lemma OnlySightsSee(config: Config, s: State, a: Action, e: Event)
    requires Enabled(config, s, a) && e in Step(config, s, a).trace && e !in s.trace
    ensures match e
            case SawStarting(w) => a.Decide? && s.tasks[a.t].w == w && s.containers(w).starting
            case SawRunning(w) => a.Load? && s.tasks[a.t].w == w && s.containers(w).status == Running
            case SawHealthy(w) => a.CheckHealth? && s.tasks[a.t].w == w && a.ok
            case _ => true
  {
    hide Leads;
  }

  // ----- who follows

  lemma StepFlown(config: Config, s: State, a: Action, u: nat)
    requires Enabled(config, s, a) && u < |Step(config, s, a).tasks|
    ensures var next := Step(config, s, a).tasks[u];
            next.flown.Some? ==> u < |s.tasks| && next.w == s.tasks[u].w && (next.flown == s.tasks[u].flown || (a.Act? && a.t == u))
  {
    hide Leads;
  }

  // The result of a flight is the one it landed with.
  lemma {:induction false} LandedBefore(config: Config, run: seq<State>, actions: seq<Action>, k: nat, l: nat) returns (m: nat)
    requires IsRun(config, run, actions) && k < |run| && l < |run[k].tasks| && run[k].tasks[l].flown.Some?
    ensures m < k <= |actions| && actions[m].Act? && actions[m].t == l && l < |run[m].tasks| && l < |run[m + 1].tasks|
    ensures run[m].tasks[l].w == run[k].tasks[l].w && run[m + 1].tasks[l].flown == run[k].tasks[l].flown
  {
    assert k > 0;
    assert Enabled(config, run[k - 1], actions[k - 1]) && run[k - 1 + 1] == Step(config, run[k - 1], actions[k - 1]);
    hide Enabled, Step;
    StepFlown(config, run[k - 1], actions[k - 1], l);
    if run[k - 1].tasks[l].flown == run[k].tasks[l].flown {
      m := LandedBefore(config, run, actions, k - 1, l);
    } else {
      m := k - 1;
    }
  }

  // A task that found a flight under way ends as some earlier flight of its own container landed.
  lemma FollowerEnds(config: Config, run: seq<State>, actions: seq<Action>, k: nat, t: nat) returns (m: nat)
    requires IsRun(config, run, actions) && k < |actions| && actions[k] == Follow(t)
    ensures m < k && actions[m].Act? && t < |run[k].tasks| && t < |run[k + 1].tasks| && actions[m].t < |run[m + 1].tasks|
    ensures actions[m].t < |run[m].tasks| && run[m].tasks[actions[m].t].w == run[k].tasks[t].w
    ensures var task := run[k].tasks[t];
            run[k + 1].tasks[t].phase ==
            if run[m + 1].tasks[actions[m].t].flown != Some(true) then Finished(false)
            else if task.waitHealthy then AwaitHealthy else Finished(true)
  {
    assert Enabled(config, run[k], actions[k]) && run[k + 1] == Step(config, run[k], actions[k]);
    InvAlways(config, run, actions, k);
    assert TaskOk(config, run[k], t);
    m := LandedBefore(config, run, actions, k, run[k].tasks[t].phase.leader);
    hide IsRun, Leads, Inv, TaskOk;
  }
}
