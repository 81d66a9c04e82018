/**
 Waking a container and what it depends on: every Wake call is a task, every dependency is woken
 by a child task, and any task may take the next step. The containers change under their feet.
 */
module Wake {
  import opened Options

  datatype Status = Running | Paused | Stopped | Error

  // What a watcher has stored about its container; starting means a start time is set.
  datatype Container = Container(status: Status, starting: bool)

  datatype Dep = Dep(w: string, waitHealthy: bool)

  type Config = string -> seq<Dep>

  datatype Phase =
    | Launching(next: nat)          // looking at dependency number next
    | Joining                       // waiting for the children
    | Deciding                      // dependencies woke; is the container itself already starting?
    | Entering                      // about to enter the single flight of this container
    | Loading                       // leads the flight; about to load the state
    | Acting(status: Status)        // has loaded the status
    | Following(leader: nat)        // waits for the flight of another task
    | AwaitHealthy                  // woke; the dependency must also become healthy
    | Finished(ok: bool)

  // flown: the result of the flight this task led.
  datatype Task = Task(w: string, waitHealthy: bool, phase: Phase, children: seq<nat>, flown: Option<bool>)

  // What a run leaves behind, in order. Skipped is a dependency that a watcher passes over as it is starting; Issued and
  // Unpaused are the two calls to the provider.
  datatype Event =
    | Skipped(parent: string, w: string)
    | SawStarting(w: string)
    | SawRunning(w: string)
    | SawHealthy(w: string)
    | Issued(w: string)
    | Unpaused(w: string)

  datatype State = State(containers: string -> Container, tasks: seq<Task>, trace: seq<Event>)

  datatype Action =
    | Call(w: string)
    | Launch(t: nat)
    | Join(t: nat)
    | Decide(t: nat)
    | Enter(t: nat)
    | Load(t: nat)
    | Act(t: nat, hasProvider: bool, ok: bool)
    | Follow(t: nat)
    | CheckHealth(t: nat, ok: bool)
    | Environment(containers: string -> Container)

  // A flight for container w is under way, led by task l.
  predicate Leads(s: State, l: nat, w: string) {
    l < |s.tasks| && s.tasks[l].w == w && (s.tasks[l].phase.Loading? || s.tasks[l].phase.Acting?)
  }

  ghost predicate Enabled(config: Config, s: State, a: Action) {
    match a
    case Call(_) => true
    case Launch(t) => t < |s.tasks| && s.tasks[t].phase.Launching?
    case Join(t) =>
      t < |s.tasks| && s.tasks[t].phase.Joining?
      && forall c :: c in s.tasks[t].children ==> c < |s.tasks| && s.tasks[c].phase.Finished?
    case Decide(t) => t < |s.tasks| && s.tasks[t].phase.Deciding?
    case Enter(t) => t < |s.tasks| && s.tasks[t].phase.Entering?
    case Load(t) => t < |s.tasks| && s.tasks[t].phase.Loading?
    case Act(t, _, _) => t < |s.tasks| && s.tasks[t].phase.Acting?
    case Follow(t) =>
      t < |s.tasks| && s.tasks[t].phase.Following? && s.tasks[t].phase.leader < |s.tasks|
      && s.tasks[s.tasks[t].phase.leader].flown.Some?
    case CheckHealth(t, _) => t < |s.tasks| && s.tasks[t].phase.AwaitHealthy?
    case Environment(_) => true
  }

  function SetPhase(s: State, t: nat, phase: Phase): State
    requires t < |s.tasks|
  {
    s.(tasks := s.tasks[t := s.tasks[t].(phase := phase)])
  }

  function Log(s: State, e: Event): State {
    s.(trace := s.trace + [e])
  }

  // Wake returns without an error.
  function Woke(task: Task): Phase {
    if task.waitHealthy then AwaitHealthy else Finished(true)
  }

  ghost function Step(config: Config, s: State, a: Action): State
    requires Enabled(config, s, a)
  {
    match a
    case Call(w) => s.(tasks := s.tasks + [Task(w, false, Launching(0), [], None)])
    case Launch(t) =>
      var task := s.tasks[t];
      var i := task.phase.next;
      if i >= |config(task.w)| then SetPhase(s, t, Joining)
      else
        var dep := config(task.w)[i];
        if s.containers(dep.w).starting then Log(SetPhase(s, t, Launching(i + 1)), Skipped(task.w, dep.w))
        else
          s.(tasks := s.tasks[t := task.(phase := Launching(i + 1), children := task.children + [|s.tasks|])]
                      + [Task(dep.w, dep.waitHealthy, Launching(0), [], None)])
    case Join(t) =>
      if forall c :: c in s.tasks[t].children ==> s.tasks[c].phase == Finished(true) then SetPhase(s, t, Deciding)
      else SetPhase(s, t, Finished(false))
    case Decide(t) =>
      var task := s.tasks[t];
      if s.containers(task.w).starting then Log(SetPhase(s, t, Woke(task)), SawStarting(task.w))
      else SetPhase(s, t, Entering)
    case Enter(t) =>
      if exists l :: Leads(s, l, s.tasks[t].w) then
        var l: nat :| Leads(s, l, s.tasks[t].w);
        SetPhase(s, t, Following(l))
      else SetPhase(s, t, Loading)
    case Load(t) =>
      var status := s.containers(s.tasks[t].w).status;
      var loaded := SetPhase(s, t, Acting(status));
      if status.Running? then Log(loaded, SawRunning(s.tasks[t].w)) else loaded
    case Act(t, hasProvider, ok) =>
      var task := s.tasks[t];
      if task.phase.status.Running? then Land(s, t, true)
      else if !hasProvider || task.phase.status.Error? then Land(s, t, false)
      else Log(Land(s, t, ok), if task.phase.status.Stopped? then Issued(task.w) else Unpaused(task.w))
    case Follow(t) =>
      var task := s.tasks[t];
      SetPhase(s, t, if s.tasks[task.phase.leader].flown.value then Woke(task) else Finished(false))
    case CheckHealth(t, ok) =>
      var checked := SetPhase(s, t, Finished(ok));
      if ok then Log(checked, SawHealthy(s.tasks[t].w)) else checked
    case Environment(containers) => s.(containers := containers)
  }

  // The flight that task t leads ends.
  function Land(s: State, t: nat, ok: bool): State
    requires t < |s.tasks|
  {
    var task := s.tasks[t];
    s.(tasks := s.tasks[t := task.(phase := if ok then Woke(task) else Finished(false), flown := Some(ok))])
  }

  // ----- safety

  // The trace shows that w was running, was starting, or was itself started or unpaused, after a look at its dependencies.
  ghost predicate Witnessed(trace: seq<Event>, w: string) {
    SawStarting(w) in trace || SawRunning(w) in trace || Issued(w) in trace || Unpaused(w) in trace
  }

  // The dependency is witnessed, and one that must be healthy was seen healthy; unless the watcher itself skipped it.
  ghost predicate Served(trace: seq<Event>, parent: string, d: Dep) {
    Skipped(parent, d.w) in trace || (Witnessed(trace, d.w) && (d.waitHealthy ==> SawHealthy(d.w) in trace))
  }

  // A start or unpause, or a sighting of a container as starting or running by the task that wakes it.
  predicate Up(e: Event) {
    e.Issued? || e.Unpaused? || e.SawRunning? || e.SawStarting?
  }

  // Every start and sighting in the trace comes after each direct dependency was served.
  ghost predicate Ordered(config: Config, trace: seq<Event>) {
    forall k, d :: 0 <= k < |trace| && Up(trace[k]) && d in config(trace[k].w) ==> Served(trace[..k], trace[k].w, d)
  }

  // A task past Joining has witnesses for all its dependencies.
  predicate Past(phase: Phase) {
    phase.Deciding? || phase.Entering? || phase.Loading? || phase.Acting? || phase.Following?
  }

  ghost predicate TaskOk(config: Config, s: State, t: nat)
    requires t < |s.tasks|
  {
    var task := s.tasks[t];
    && (forall c :: c in task.children ==> c < |s.tasks|)
    && (task.phase.Launching? ==> Covered(config, s, t, task.phase.next))
    && (task.phase.Joining? ==> Covered(config, s, t, |config(task.w)|))
    && (Past(task.phase) ==> forall d :: d in config(task.w) ==> Served(s.trace, task.w, d))
    && (task.phase.Acting? && task.phase.status.Running? ==> Witnessed(s.trace, task.w))
    && (task.phase.Following? ==> task.phase.leader < |s.tasks| && s.tasks[task.phase.leader].w == task.w)
    && (task.phase.AwaitHealthy? || task.phase == Finished(true) ==> Witnessed(s.trace, task.w))
    && (task.phase == Finished(true) && task.waitHealthy ==> SawHealthy(task.w) in s.trace)
    && (task.flown == Some(true) ==> Witnessed(s.trace, task.w))
  }

  // Task c wakes dependency d.
  predicate WakesFor(s: State, c: nat, d: Dep) {
    c < |s.tasks| && s.tasks[c].w == d.w && s.tasks[c].waitHealthy == d.waitHealthy
  }

  // Each of the first n dependencies is served or has a child task at work for it.
  ghost predicate Covered(config: Config, s: State, t: nat, n: nat)
    requires t < |s.tasks|
  {
    forall i :: 0 <= i < n && i < |config(s.tasks[t].w)| ==>
      var d := config(s.tasks[t].w)[i];
      Served(s.trace, s.tasks[t].w, d) || exists c :: c in s.tasks[t].children && WakesFor(s, c, d)
  }

  ghost predicate Inv(config: Config, s: State) {
    && (forall t :: 0 <= t < |s.tasks| ==> TaskOk(config, s, t))
    && Ordered(config, s.trace)
  }

  // Task t is as it was, and nothing it relies on went away.
  ghost predicate Kept(s: State, s': State) {
    && |s.tasks| <= |s'.tasks| && s.trace <= s'.trace
    && forall u :: 0 <= u < |s.tasks| ==> s'.tasks[u].w == s.tasks[u].w && s'.tasks[u].waitHealthy == s.tasks[u].waitHealthy
  }

  lemma CoveredKept(config: Config, s: State, s': State, t: nat, n: nat)
    requires Kept(s, s') && t < |s.tasks| && Covered(config, s, t, n)
    requires forall c :: c in s.tasks[t].children ==> c in s'.tasks[t].children
    ensures Covered(config, s', t, n)
  {
    forall i | 0 <= i < n && i < |config(s.tasks[t].w)|
      ensures var d := config(s.tasks[t].w)[i];
              Served(s'.trace, s.tasks[t].w, d) || exists c :: c in s'.tasks[t].children && WakesFor(s', c, d)
    {
      var d := config(s.tasks[t].w)[i];
      if !Served(s.trace, s.tasks[t].w, d) {
        var c :| c in s.tasks[t].children && WakesFor(s, c, d);
        assert WakesFor(s', c, d);
      }
    }
  }

  // A task a step does not touch stays in order.
  lemma TaskKept(config: Config, s: State, s': State, t: nat)
    requires Kept(s, s') && t < |s.tasks| && TaskOk(config, s, t) && s'.tasks[t] == s.tasks[t]
    ensures TaskOk(config, s', t)
  {
    var task := s.tasks[t];
    hide Covered;
    if task.phase.Launching? { CoveredKept(config, s, s', t, task.phase.next); }
    if task.phase.Joining? { CoveredKept(config, s, s', t, |config(task.w)|); }
    forall d ensures Served(s.trace, task.w, d) ==> Served(s'.trace, task.w, d) {}
    hide Served;
  }

  // A start or sighting that is added now has all that it needs behind it.
  lemma OrderedSnoc(config: Config, trace: seq<Event>, e: Event)
    requires Ordered(config, trace)
    requires Up(e) ==> forall d :: d in config(e.w) ==> Served(trace, e.w, d)
    ensures Ordered(config, trace + [e])
  {
    forall k, d | 0 <= k < |trace + [e]| && Up((trace + [e])[k]) && d in config((trace + [e])[k].w)
      ensures Served((trace + [e])[..k], (trace + [e])[k].w, d)
    {
      if k < |trace| {
        assert (trace + [e])[..k] == trace[..k] && (trace + [e])[k] == trace[k];
      } else {
        assert (trace + [e])[..k] == trace;
      }
    }
  }

  // The step touches only task t, keeps its container, and appends at most one event.
  ghost predicate Touches(s: State, s': State, t: nat) {
    && t < |s.tasks| && Kept(s, s')
    && forall u :: 0 <= u < |s.tasks| && u != t ==> s'.tasks[u] == s.tasks[u]
  }

  lemma InvByTask(config: Config, s: State, s': State, t: nat)
    requires Inv(config, s) && Touches(s, s', t)
    requires TaskOk(config, s', t)
    requires forall u :: |s.tasks| <= u < |s'.tasks| ==> TaskOk(config, s', u)
    requires Ordered(config, s'.trace)
    ensures Inv(config, s')
  {
    hide TaskOk, Ordered;
    forall u | 0 <= u < |s.tasks| && u != t ensures TaskOk(config, s', u) {
      TaskKept(config, s, s', u);
    }
  }

  lemma LaunchKeepsInv(config: Config, s: State, t: nat)
    requires Inv(config, s) && Enabled(config, s, Launch(t))
    ensures Inv(config, Step(config, s, Launch(t)))
  {
    var s' := Step(config, s, Launch(t));
    var task := s.tasks[t];
    var i := task.phase.next;
    assert TaskOk(config, s, t);
    assert s.trace <= s'.trace;
    if i >= |config(task.w)| {
      assert Covered(config, s', t, |config(task.w)|) by { CoveredKept(config, s, s', t, i); }
    } else {
      var dep := config(task.w)[i];
      CoveredKept(config, s, s', t, i);
      if s.containers(dep.w).starting {
        OrderedSnoc(config, s.trace, Skipped(task.w, dep.w));
        assert Served(s'.trace, task.w, dep);
      } else {
        assert |s.tasks| in s'.tasks[t].children && WakesFor(s', |s.tasks|, dep);
      }
      CoveredNext(config, s', t, i);
    }
    hide Ordered;
    InvByTask(config, s, s', t);
  }

  lemma CoveredNext(config: Config, s: State, t: nat, i: nat)
    requires t < |s.tasks| && i < |config(s.tasks[t].w)| && Covered(config, s, t, i)
    requires var d := config(s.tasks[t].w)[i];
             Served(s.trace, s.tasks[t].w, d) || exists c :: c in s.tasks[t].children && WakesFor(s, c, d)
    ensures Covered(config, s, t, i + 1)
  {
  }

  lemma JoinKeepsInv(config: Config, s: State, t: nat)
    requires Inv(config, s) && Enabled(config, s, Join(t))
    ensures Inv(config, Step(config, s, Join(t)))
  {
    var s' := Step(config, s, Join(t));
    var task := s.tasks[t];
    assert TaskOk(config, s, t);
    if forall c :: c in task.children ==> s.tasks[c].phase == Finished(true) {
      forall c, d | c in task.children && WakesFor(s, c, d) ensures Served(s.trace, task.w, d) {
        assert TaskOk(config, s, c);
      }
      forall d | d in config(task.w) ensures Served(s.trace, task.w, d) {
        var i :| 0 <= i < |config(task.w)| && config(task.w)[i] == d;
      }
    }
    hide Ordered, Served;
    InvByTask(config, s, s', t);
  }

  lemma EnterKeepsInv(config: Config, s: State, t: nat)
    requires Inv(config, s) && Enabled(config, s, Enter(t))
    ensures Inv(config, Step(config, s, Enter(t)))
  {
    hide Ordered, Witnessed, Served;
    assert TaskOk(config, s, t);
    InvByTask(config, s, Step(config, s, Enter(t)), t);
  }

  lemma DecideKeepsInv(config: Config, s: State, t: nat)
    requires Inv(config, s) && Enabled(config, s, Decide(t))
    ensures Inv(config, Step(config, s, Decide(t)))
  {
    var s' := Step(config, s, Decide(t));
    assert TaskOk(config, s, t);
    OrderedSnoc(config, s.trace, SawStarting(s.tasks[t].w));
    hide Ordered;
    InvByTask(config, s, s', t);
  }

  lemma LoadKeepsInv(config: Config, s: State, t: nat)
    requires Inv(config, s) && Enabled(config, s, Load(t))
    ensures Inv(config, Step(config, s, Load(t)))
  {
    var s' := Step(config, s, Load(t));
    assert TaskOk(config, s, t);
    OrderedSnoc(config, s.trace, SawRunning(s.tasks[t].w));
    hide Ordered;
    InvByTask(config, s, s', t);
  }

  lemma ActKeepsInv(config: Config, s: State, a: Action)
    requires a.Act? && Inv(config, s) && Enabled(config, s, a)
    ensures Inv(config, Step(config, s, a))
  {
    var s' := Step(config, s, a);
    assert TaskOk(config, s, a.t);
    OrderedSnoc(config, s.trace, Issued(s.tasks[a.t].w));
    OrderedSnoc(config, s.trace, Unpaused(s.tasks[a.t].w));
    hide Ordered;
    InvByTask(config, s, s', a.t);
  }

  lemma FollowKeepsInv(config: Config, s: State, t: nat)
    requires Inv(config, s) && Enabled(config, s, Follow(t))
    ensures Inv(config, Step(config, s, Follow(t)))
  {
    hide Ordered, Witnessed, Served;
    assert TaskOk(config, s, t);
    assert TaskOk(config, s, s.tasks[t].phase.leader);
    InvByTask(config, s, Step(config, s, Follow(t)), t);
  }

  lemma RestKeepsInv(config: Config, s: State, a: Action)
    requires Inv(config, s) && Enabled(config, s, a) && (a.Call? || a.CheckHealth? || a.Environment?)
    ensures Inv(config, Step(config, s, a))
  {
    hide Ordered;
    var s' := Step(config, s, a);
    if a.CheckHealth? {
      assert TaskOk(config, s, a.t);
      OrderedSnoc(config, s.trace, SawHealthy(s.tasks[a.t].w));
      InvByTask(config, s, s', a.t);
    } else {
      forall u | 0 <= u < |s.tasks| ensures TaskOk(config, s', u) { TaskKept(config, s, s', u); }
    }
  }

  lemma StepKeepsInv(config: Config, s: State, a: Action)
    requires Inv(config, s) && Enabled(config, s, a)
    ensures Inv(config, Step(config, s, a))
  {
    hide Inv, Enabled, Step;
    match a
    case Launch(t) => LaunchKeepsInv(config, s, t);
    case Join(t) => JoinKeepsInv(config, s, t);
    case Decide(t) => DecideKeepsInv(config, s, t);
    case Enter(t) => EnterKeepsInv(config, s, t);
    case Load(t) => LoadKeepsInv(config, s, t);
    case Act(_, _, _) => ActKeepsInv(config, s, a);
    case Follow(t) => FollowKeepsInv(config, s, t);
    case _ => RestKeepsInv(config, s, a);
  }

  ghost predicate IsRun(config: Config, run: seq<State>, actions: seq<Action>) {
    && |run| == |actions| + 1 && run[0].tasks == [] && run[0].trace == []
    && forall k :: 0 <= k < |actions| ==> Enabled(config, run[k], actions[k]) && run[k + 1] == Step(config, run[k], actions[k])
  }

  lemma {:induction false} InvAlways(config: Config, run: seq<State>, actions: seq<Action>, k: nat)
    requires IsRun(config, run, actions) && k < |run|
    ensures Inv(config, run[k])
  {
    if k == 0 {
    } else {
      hide Inv, Enabled, Step;
      InvAlways(config, run, actions, k - 1);
      assert Enabled(config, run[k - 1], actions[k - 1]) && run[k - 1 + 1] == Step(config, run[k - 1], actions[k - 1]);
      StepKeepsInv(config, run[k - 1], actions[k - 1]);
    }
  }

  // In every run, under any interleaving of calls, children and container changes: a start or unpause is issued, and the
  // container itself is looked at, only after each direct dependency was skipped by this container's own wake, or was seen
  // starting or running or had its own start issued; one that must be healthy was then seen healthy, too.
  lemma DependenciesFirst(config: Config, run: seq<State>, actions: seq<Action>, k: nat)
    requires IsRun(config, run, actions) && k < |run|
    ensures Ordered(config, run[k].trace)
  {
    hide IsRun;
    InvAlways(config, run, actions, k);
  }

  // A Wake call that ended well did wake its container: it was seen starting or running, or a start was issued. And a
  // child that has to wait for health did.
  lemma FinishedMeansWoken(config: Config, run: seq<State>, actions: seq<Action>, k: nat, t: nat)
    requires IsRun(config, run, actions) && k < |run| && t < |run[k].tasks| && run[k].tasks[t].phase == Finished(true)
    ensures Witnessed(run[k].trace, run[k].tasks[t].w)
    ensures run[k].tasks[t].waitHealthy ==> SawHealthy(run[k].tasks[t].w) in run[k].trace
  {
    hide IsRun, Witnessed, Ordered;
    InvAlways(config, run, actions, k);
    assert TaskOk(config, run[k], t);
  }

  // ----- which dependencies a task waited for

  // What one step does to a task.
  ghost predicate Advances(config: Config, s: State, a: Action, s': State, u: nat)
    requires u < |s.tasks| && u < |s'.tasks|
  {
    var task, next := s.tasks[u], s'.tasks[u];
    && next.w == task.w && next.waitHealthy == task.waitHealthy && task.children <= next.children
    && (task.phase.Finished? ==> next.phase == task.phase)
    && (next.phase == Finished(true) && next.waitHealthy && task.phase != next.phase ==> a == CheckHealth(u, true))
    && (!task.phase.Launching? ==> !next.phase.Launching? && next.children == task.children)
    && (task.phase.Launching? && next.phase != task.phase ==>
          a == Launch(u) && next.phase == if task.phase.next < |config(task.w)| then Launching(task.phase.next + 1) else Joining)
    && (Past(next.phase) && !Past(task.phase) ==>
          task.phase.Joining? && forall c :: c in task.children ==> c < |s.tasks| && s.tasks[c].phase == Finished(true))
  }

  lemma StepAdvances(config: Config, s: State, a: Action, u: nat)
    requires Enabled(config, s, a) && u < |s.tasks|
    ensures u < |Step(config, s, a).tasks| && Advances(config, s, a, Step(config, s, a), u)
  {
    hide Advances, Step, Enabled;
    if a.Launch? || a.Join? {
      EarlyAdvances(config, s, a, u);
    } else if a.Act? || a.Follow? || a.CheckHealth? {
      LateAdvances(config, s, a, u);
    } else {
      MiddleAdvances(config, s, a, u);
    }
  }

  lemma EarlyAdvances(config: Config, s: State, a: Action, u: nat)
    requires Enabled(config, s, a) && u < |s.tasks| && (a.Launch? || a.Join?)
    ensures u < |Step(config, s, a).tasks| && Advances(config, s, a, Step(config, s, a), u)
  {
  }

  lemma MiddleAdvances(config: Config, s: State, a: Action, u: nat)
    requires Enabled(config, s, a) && u < |s.tasks| && !(a.Launch? || a.Join? || a.Act? || a.Follow? || a.CheckHealth?)
    ensures u < |Step(config, s, a).tasks| && Advances(config, s, a, Step(config, s, a), u)
  {
    hide Leads;
  }

  lemma LateAdvances(config: Config, s: State, a: Action, u: nat)
    requires Enabled(config, s, a) && u < |s.tasks| && (a.Act? || a.Follow? || a.CheckHealth?)
    ensures u < |Step(config, s, a).tasks| && Advances(config, s, a, Step(config, s, a), u)
  {
  }

  lemma StepNew(config: Config, s: State, a: Action, u: nat)
    requires Enabled(config, s, a) && |s.tasks| <= u < |Step(config, s, a).tasks|
    ensures u == |s.tasks| && Step(config, s, a).tasks[u].phase == Launching(0)
    ensures Step(config, s, a).tasks[u].children == []
  {
  }

  lemma RunAdvances(config: Config, run: seq<State>, actions: seq<Action>, k: nat, u: nat)
    requires IsRun(config, run, actions) && k < |actions| && u < |run[k].tasks|
    ensures u < |run[k + 1].tasks| && Advances(config, run[k], actions[k], run[k + 1], u)
  {
    hide Enabled, Step, Advances;
    assert Enabled(config, run[k], actions[k]) && run[k + 1] == Step(config, run[k], actions[k]);
    StepAdvances(config, run[k], actions[k], u);
  }

  lemma RunNew(config: Config, run: seq<State>, actions: seq<Action>, k: nat, u: nat)
    requires IsRun(config, run, actions) && k < |actions| && |run[k].tasks| <= u < |run[k + 1].tasks|
    ensures u == |run[k].tasks| && run[k + 1].tasks[u].phase == Launching(0) && run[k + 1].tasks[u].children == []
  {
    hide Enabled, Step;
    assert Enabled(config, run[k], actions[k]) && run[k + 1] == Step(config, run[k], actions[k]);
    StepNew(config, run[k], actions[k], u);
  }

  // Where a task comes from: the state before, or it is new.
  lemma CameFrom(config: Config, run: seq<State>, actions: seq<Action>, j: nat, u: nat)
    requires IsRun(config, run, actions) && j < |run| && u < |run[j].tasks|
    ensures 0 < j <= |actions|
    ensures if u < |run[j - 1].tasks| then Advances(config, run[j - 1], actions[j - 1], run[j], u)
            else run[j].tasks[u].phase == Launching(0) && run[j].tasks[u].children == []
  {
    assert j > 0;
    if u < |run[j - 1].tasks| {
      RunAdvances(config, run, actions, j - 1, u);
    } else {
      RunNew(config, run, actions, j - 1, u);
    }
  }

  // The same call, with the children it had.
  predicate SameCall(task: Task, later: Task) {
    later.w == task.w && later.waitHealthy == task.waitHealthy && task.children <= later.children
  }

  lemma AdvancesSame(config: Config, s: State, a: Action, s': State, u: nat)
    requires u < |s.tasks| && u < |s'.tasks| && Advances(config, s, a, s', u)
    ensures SameCall(s.tasks[u], s'.tasks[u])
  {
    hide Past;
  }

  lemma {:induction false} TaskStays(config: Config, run: seq<State>, actions: seq<Action>, k: nat, j: nat, u: nat)
    requires IsRun(config, run, actions) && k <= j < |run| && u < |run[k].tasks|
    ensures u < |run[j].tasks| && SameCall(run[k].tasks[u], run[j].tasks[u])
    decreases j
  {
    assert |run| == |actions| + 1;
    hide IsRun, Advances;
    if k < j {
      TaskStays(config, run, actions, k, j - 1, u);
      RunAdvances(config, run, actions, j - 1, u);
      AdvancesSame(config, run[j - 1], actions[j - 1], run[j], u);
    }
  }

  // Task t meets its i-th dependency at step k.
  ghost predicate Meets(config: Config, run: seq<State>, actions: seq<Action>, k: nat, t: nat, i: nat) {
    k < |actions| && k < |run| && actions[k] == Launch(t)
    && t < |run[k].tasks| && run[k].tasks[t].phase == Launching(i) && i < |config(run[k].tasks[t].w)|
  }

  // The task is past its i-th dependency.
  predicate Beyond(phase: Phase, i: nat) {
    phase.Launching? ==> phase.next > i
  }

  lemma AdvancesBeyond(config: Config, s: State, a: Action, s': State, u: nat, i: nat)
    requires u < |s.tasks| && u < |s'.tasks| && Advances(config, s, a, s', u)
    requires Beyond(s'.tasks[u].phase, i) && i < |config(s'.tasks[u].w)|
    ensures s.tasks[u].w == s'.tasks[u].w
    ensures Beyond(s.tasks[u].phase, i) || (a == Launch(u) && s.tasks[u].phase == Launching(i))
  {
    hide Past;
  }

  lemma {:induction false} MetBefore(config: Config, run: seq<State>, actions: seq<Action>, j: nat, t: nat, i: nat) returns (k: nat)
    requires IsRun(config, run, actions) && j < |run| && t < |run[j].tasks|
    requires i < |config(run[j].tasks[t].w)| && Beyond(run[j].tasks[t].phase, i)
    ensures k < j && Meets(config, run, actions, k, t, i)
  {
    CameFrom(config, run, actions, j, t);
    hide IsRun, Advances;
    if t < |run[j - 1].tasks| {
      AdvancesBeyond(config, run[j - 1], actions[j - 1], run[j], t, i);
    }
    if Beyond(run[j - 1].tasks[t].phase, i) {
      k := MetBefore(config, run, actions, j - 1, t, i);
    } else {
      k := j - 1;
    }
  }

  lemma {:induction false} BeyondStays(config: Config, run: seq<State>, actions: seq<Action>, k: nat, j: nat, t: nat, i: nat)
    requires IsRun(config, run, actions) && k <= j < |run| && t < |run[k].tasks| && Beyond(run[k].tasks[t].phase, i)
    ensures t < |run[j].tasks| && Beyond(run[j].tasks[t].phase, i)
    decreases j
  {
    if k < j {
      BeyondStays(config, run, actions, k, j - 1, t, i);
      RunAdvances(config, run, actions, j - 1, t);
      hide IsRun;
    }
  }

  // It meets each dependency once.
  lemma MeetsOnce(config: Config, run: seq<State>, actions: seq<Action>, k: nat, j: nat, t: nat, i: nat)
    requires IsRun(config, run, actions) && Meets(config, run, actions, k, t, i) && Meets(config, run, actions, j, t, i)
    ensures k == j
  {
    var a, b := if k < j then k else j, if k < j then j else k;
    if a < b {
      MeetingStarts(config, run, actions, a, t, i);
      BeyondStays(config, run, actions, a + 1, b, t, i);
      hide IsRun;
    }
  }

  // At the meeting a child is made for the dependency, or it is skipped as starting.
  lemma MeetingStarts(config: Config, run: seq<State>, actions: seq<Action>, k: nat, t: nat, i: nat)
    requires IsRun(config, run, actions) && Meets(config, run, actions, k, t, i)
    ensures t < |run[k + 1].tasks| && Beyond(run[k + 1].tasks[t].phase, i)
    ensures var dep, c := config(run[k].tasks[t].w)[i], |run[k].tasks|;
            if run[k].containers(dep.w).starting
            then |run[k + 1].tasks| == c && run[k + 1].trace == run[k].trace + [Skipped(run[k].tasks[t].w, dep.w)]
            else |run[k + 1].tasks| == c + 1 && c in run[k + 1].tasks[t].children && WakesFor(run[k + 1], c, dep)
  {
    assert Enabled(config, run[k], actions[k]) && run[k + 1] == Step(config, run[k], actions[k]);
  }

  // The children of a task that is past them all ended well.
  lemma {:induction false} ChildrenEnded(config: Config, run: seq<State>, actions: seq<Action>, j: nat, t: nat, c: nat)
    requires IsRun(config, run, actions) && j < |run| && t < |run[j].tasks|
    requires Past(run[j].tasks[t].phase) && c in run[j].tasks[t].children
    ensures c < |run[j].tasks| && run[j].tasks[c].phase == Finished(true)
    decreases j
  {
    CameFrom(config, run, actions, j, t);
    assert |run| == |actions| + 1;
    hide IsRun;
    if Past(run[j - 1].tasks[t].phase) {
      ChildrenEnded(config, run, actions, j - 1, t, c);
    }
    RunAdvances(config, run, actions, j - 1, c);
  }

  // A child that has to wait for health and ended well had a healthy check, after it was made.
  lemma {:induction false} HealthChecked(config: Config, run: seq<State>, actions: seq<Action>, k: nat, j: nat, c: nat) returns (m: nat)
    requires IsRun(config, run, actions) && k < j < |run| && |run[k].tasks| <= c < |run[j].tasks|
    requires run[j].tasks[c].phase == Finished(true) && run[j].tasks[c].waitHealthy
    ensures k < m < j && actions[m] == CheckHealth(c, true)
    decreases j
  {
    CameFrom(config, run, actions, j, c);
    hide IsRun, Past;
    if run[j - 1].tasks[c].phase == Finished(true) {
      m := HealthChecked(config, run, actions, k, j - 1, c);
    } else {
      m := j - 1;
    }
  }

  // At state j task t has waited for the dependency that it met at step k: a child made there woke it, and where it must be
  // healthy that child found it so.
  ghost predicate WaitedFor(run: seq<State>, actions: seq<Action>, k: nat, j: nat, t: nat, d: Dep)
    requires k < j < |run| == |actions| + 1
  {
    exists c :: |run[k].tasks| <= c < |run[k + 1].tasks| && WakesFor(run[j], c, d) && run[j].tasks[c].phase == Finished(true)
                && t < |run[j].tasks| && c in run[j].tasks[t].children
                && (d.waitHealthy ==> exists m :: k < m < j && actions[m] == CheckHealth(c, true))
  }

  // A task that is past joining met each dependency once, and has waited for exactly those that were not starting then.
  lemma WaitedIff(config: Config, run: seq<State>, actions: seq<Action>, j: nat, t: nat, i: nat) returns (k: nat)
    requires IsRun(config, run, actions) && j < |run| && t < |run[j].tasks| && Past(run[j].tasks[t].phase)
    requires i < |config(run[j].tasks[t].w)|
    ensures k < j < |run| == |actions| + 1 && Meets(config, run, actions, k, t, i)
    ensures forall l :: Meets(config, run, actions, l, t, i) ==> l == k
    ensures var d := config(run[j].tasks[t].w)[i];
            WaitedFor(run, actions, k, j, t, d) <==> !run[k].containers(d.w).starting
  {
    k := MetBefore(config, run, actions, j, t, i);
    forall l | Meets(config, run, actions, l, t, i) ensures l == k { MeetsOnce(config, run, actions, l, k, t, i); }
    TaskStays(config, run, actions, k, j, t);
    MeetingStarts(config, run, actions, k, t, i);
    var d, c := config(run[j].tasks[t].w)[i], |run[k].tasks|;
    if !run[k].containers(d.w).starting {
      TaskStays(config, run, actions, k + 1, j, t);
      TaskStays(config, run, actions, k + 1, j, c);
      ChildrenEnded(config, run, actions, j, t, c);
      if d.waitHealthy {
        var m := HealthChecked(config, run, actions, k, j, c);
      }
      hide IsRun;
      assert WakesFor(run[j], c, d);
    }
  }

  // ----- the exception is real

  ghost predicate Reachable(config: Config, s: State) {
    exists run: seq<State>, actions :: IsRun(config, run, actions) && run[|actions|] == s
  }

  lemma ReachableStep(config: Config, s: State, a: Action) returns (t: State)
    requires Reachable(config, s) && Enabled(config, s, a)
    ensures t == Step(config, s, a) && Reachable(config, t)
  {
    hide Step, Enabled;
    t := Step(config, s, a);
    var run: seq<State>, actions :| IsRun(config, run, actions) && run[|actions|] == s;
    var run', actions' := run + [t], actions + [a];
    forall k | 0 <= k < |actions'| ensures Enabled(config, run'[k], actions'[k]) && run'[k + 1] == Step(config, run'[k], actions'[k]) {
      if k < |actions| {
        assert Enabled(config, run[k], actions[k]) && run[k + 1] == Step(config, run[k], actions[k]);
      }
    }
    assert IsRun(config, run', actions') && run'[|actions'|] == t;
  }

  lemma ReachableAtStart(config: Config, containers: string -> Container)
    ensures Reachable(config, State(containers, [], []))
  {
    var actions: seq<Action> := [];
    var s := State(containers, [], []);
    assert IsRun(config, [s], actions) && [s][|actions|] == s;
  }

  function OneDependency(): Config {
    (w: string) => if w == "app" then [Dep("db", true)] else []
  }

  function DbStarting(): string -> Container {
    (w: string) => if w == "db" then Container(Running, true) else Container(Stopped, false)
  }

  function AppTask(phase: Phase): Task {
    Task("app", false, phase, [], None)
  }

  lemma DependencySkipped() returns (s: State)
    ensures Reachable(OneDependency(), s)
    ensures s == State(DbStarting(), [AppTask(Deciding)], [Skipped("app", "db")])
  {
    var config := OneDependency();
    ReachableAtStart(config, DbStarting());
    hide Reachable;
    s := ReachableStep(config, State(DbStarting(), [], []), Call("app"));
    s := ReachableStep(config, s, Launch(0));
    s := ReachableStep(config, s, Launch(0));
    s := ReachableStep(config, s, Join(0));
  }

  // Counterexample: a dependency that must be healthy but is already starting is not waited for.
  lemma StartingIsNotAwaited() returns (s: State)
    ensures Reachable(OneDependency(), s)
    ensures Dep("db", true) in OneDependency()("app") && s.trace == [Skipped("app", "db"), Issued("app")]
  {
    var config := OneDependency();
    s := DependencySkipped();
    hide Reachable;
    s := ReachableStep(config, s, Decide(0));
    assert !exists l :: Leads(s, l, "app");
    s := ReachableStep(config, s, Enter(0));
    s := ReachableStep(config, s, Load(0));
    s := ReachableStep(config, s, Act(0, true, true));
  }
}
