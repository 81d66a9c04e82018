/**
 Which containers are seen healthy before a container is started: what is required along chains of dependencies, and the
 exact condition on the configuration.
 */
module WakeHealth {
  import opened Options
  import opened Wake

  // Each container on the way depends on the next.
  ghost predicate IsChain(config: Config, p: seq<string>) {
    |p| >= 1 && forall i :: 0 <= i < |p| - 1 ==> DependsOn(config, p[i], p[i + 1])
  }

  ghost predicate DependsOn(config: Config, a: string, b: string) {
    exists d :: d in config(a) && d.w == b
  }

  // None of the dependencies on the way to d was skipped.
  ghost predicate Unskipped(trace: seq<Event>, p: seq<string>, d: string) {
    forall i :: 0 <= i < |p| ==> Skipped(p[i], if i + 1 < |p| then p[i + 1] else d) !in trace
  }

  // What the last container on the way requires is met before a start or a sighting of the first, when none on the way was
  // skipped. It makes no difference which of them had to be started.
  lemma {:induction false} HealthAlong(config: Config, trace: seq<Event>, p: seq<string>, d: string, b: nat)
    requires Ordered(config, trace) && IsChain(config, p) && Dep(d, true) in config(p[|p| - 1])
    requires b < |trace| && Up(trace[b]) && trace[b].w == p[0] && Unskipped(trace[..b], p, d)
    ensures SawHealthy(d) in trace[..b]
    decreases |p|
  {
    if |p| == 1 {
      assert Served(trace[..b], p[0], Dep(d, true));
    } else {
      assert DependsOn(config, p[0], p[0 + 1]);
      var e :| e in config(p[0]) && e.w == p[1];
      assert Served(trace[..b], p[0], e);
      var a :| 0 <= a < b && Up(trace[..b][a]) && trace[..b][a].w == p[1];
      assert forall x :: x in trace[..a] ==> x in trace[..b] by { assert trace[..a] == trace[..b][..a]; }
      forall i | 0 <= i < |p[1..]| - 1 ensures DependsOn(config, p[1..][i], p[1..][i + 1]) {
        assert DependsOn(config, p[i + 1], p[i + 1 + 1]);
      }
      forall i | 0 <= i < |p[1..]| ensures Skipped(p[1..][i], if i + 1 < |p[1..]| then p[1..][i + 1] else d) !in trace[..a] {
        assert Skipped(p[i + 1], if i + 1 + 1 < |p| then p[i + 1 + 1] else d) !in trace[..b];
      }
      HealthAlong(config, trace, p[1..], d, a);
    }
  }

  ghost predicate NoSkips(trace: seq<Event>) {
    forall a, b :: Skipped(a, b) !in trace
  }

  // The call to the provider that brings up a container of this status.
  function Rouse(status: Status, w: string): Event {
    if status.Paused? then Unpaused(w) else Issued(w)
  }

  // In every run in which nothing is skipped a is started or unpaused only after d was seen healthy.
  ghost predicate AlwaysHealthy(config: Config, a: string, d: string) {
    forall s, b :: Reachable(config, s) && NoSkips(s.trace) && 0 <= b < |s.trace| && s.trace[b] in {Issued(a), Unpaused(a)} ==>
      SawHealthy(d) in s.trace[..b]
  }

  // Something at or below a requires d to be healthy.
  ghost predicate NeedsHealthy(config: Config, a: string, d: string) {
    exists p :: IsChain(config, p) && p[0] == a && Dep(d, true) in config(p[|p| - 1])
  }

  // Dependencies go strictly down.
  ghost predicate Falls(config: Config, level: string -> nat) {
    forall w, d :: d in config(w) ==> level(d.w) < level(w)
  }

  // The exact condition on the configuration.
  lemma AlwaysHealthyIff(config: Config, level: string -> nat, a: string, d: string)
    requires Falls(config, level)
    ensures AlwaysHealthy(config, a, d) <==> NeedsHealthy(config, a, d)
  {
    if NeedsHealthy(config, a, d) {
      var p :| IsChain(config, p) && p[0] == a && Dep(d, true) in config(p[|p| - 1]);
      forall s, b | Reachable(config, s) && NoSkips(s.trace) && 0 <= b < |s.trace| && s.trace[b] in {Issued(a), Unpaused(a)}
        ensures SawHealthy(d) in s.trace[..b]
      {
        ReachableOrdered(config, s);
        HealthAlong(config, s.trace, p, d, b);
      }
    } else {
      hide IsChain, Ordered, Reachable;
      var s := StartedUnhealthy(config, level, _ => Container(Stopped, false), a, d);
      var b :| 0 <= b < |s.trace| && s.trace[b] == Issued(a);
      assert SawHealthy(d) !in s.trace[..b];
    }
  }

  lemma ReachableOrdered(config: Config, s: State)
    requires Reachable(config, s)
    ensures Ordered(config, s.trace)
  {
    hide Enabled, Step, Ordered;
    var run: seq<State>, actions :| IsRun(config, run, actions) && run[|actions|] == s;
    DependenciesFirst(config, run, actions, |actions|);
  }

  ghost predicate Asleep(containers: string -> Container) {
    forall w :: !containers(w).starting && (containers(w).status.Stopped? || containers(w).status.Paused?)
  }

  // All containers are stopped or paused, no flight is under way, nothing was skipped and d was not seen healthy.
  ghost predicate Calm(s: State, d: string) {
    && Asleep(s.containers)
    && (forall l, w :: !Leads(s, l, w))
    && NoSkips(s.trace) && SawHealthy(d) !in s.trace
  }

  // The children of task t ended well.
  ghost predicate Grown(s: State, t: nat)
    requires t < |s.tasks|
  {
    forall c :: c in s.tasks[t].children ==> c < |s.tasks| && c != t && s.tasks[c].phase == Finished(true)
  }

  // The other tasks are as they were.
  ghost predicate OthersKept(s: State, s': State, t: nat) {
    && t < |s.tasks| <= |s'.tasks| && s'.tasks[t].w == s.tasks[t].w && s'.tasks[t].waitHealthy == s.tasks[t].waitHealthy
    && forall u :: 0 <= u < |s.tasks| && u != t ==> s'.tasks[u] == s.tasks[u]
  }

  // Task t has made a child for its next dependency.
  ghost predicate Made(s: State, s': State, t: nat, dep: Dep)
    requires t < |s.tasks| && s.tasks[t].phase.Launching?
  {
    var task, c := s.tasks[t], |s.tasks|;
    && s'.tasks == s.tasks[t := task.(phase := Launching(task.phase.next + 1), children := task.children + [c])]
                   + [Task(dep.w, dep.waitHealthy, Launching(0), [], None)]
    && s'.containers == s.containers && s'.trace == s.trace
  }

  lemma MadeIsCalm(s: State, s': State, t: nat, dep: Dep, d: string)
    requires t < |s.tasks| && s.tasks[t].phase.Launching? && Made(s, s', t, dep) && Calm(s, d)
    ensures Calm(s', d)
  {
    forall l, w ensures !Leads(s', l, w) {
      assert !Leads(s, l, w);
    }
  }

  lemma NeedsMore(config: Config, w: string, dep: Dep, d: string)
    requires dep in config(w)
    ensures dep == Dep(d, true) || NeedsHealthy(config, dep.w, d) ==> NeedsHealthy(config, w, d)
  {
    if dep == Dep(d, true) {
      assert IsChain(config, [w]);
    }
    if NeedsHealthy(config, dep.w, d) {
      var p :| IsChain(config, p) && p[0] == dep.w && Dep(d, true) in config(p[|p| - 1]);
      var q := [w] + p;
      forall i | 0 <= i < |q| - 1 ensures DependsOn(config, q[i], q[i + 1]) {
        if i > 0 {
          assert DependsOn(config, p[i - 1], p[i - 1 + 1]);
        }
      }
      assert IsChain(config, q) && q[|q| - 1] == p[|p| - 1];
    }
  }

  // From containers that are all stopped or paused a task can be brought to its end, dependency by dependency, with d never seen
  // healthy.
  lemma {:induction false} BringUp(config: Config, level: string -> nat, s: State, t: nat, d: string) returns (s': State)
    requires Falls(config, level) && Reachable(config, s) && Calm(s, d) && t < |s.tasks| && Grown(s, t)
    requires s.tasks[t].phase.Launching? && s.tasks[t].phase.next <= |config(s.tasks[t].w)|
    requires !NeedsHealthy(config, s.tasks[t].w, d) && !(s.tasks[t].waitHealthy && s.tasks[t].w == d)
    ensures Reachable(config, s') && Calm(s', d) && OthersKept(s, s', t)
    ensures s'.tasks[t].phase == Finished(true) && Rouse(s.containers(s.tasks[t].w).status, s.tasks[t].w) in s'.trace && s'.containers == s.containers
    decreases level(s.tasks[t].w), |config(s.tasks[t].w)| - s.tasks[t].phase.next
  {
    hide Reachable, NeedsHealthy, Leads;
    var w, i, c := s.tasks[t].w, s.tasks[t].phase.next, |s.tasks|;
    if i == |config(w)| {
      s' := StartUp(config, s, t, d);
    } else {
      var dep := config(w)[i];
      NeedsMore(config, w, dep, d);
      var made := ReachableStep(config, s, Launch(t));
      assert Made(s, made, t, dep);
      hide Step, Enabled;
      MadeIsCalm(s, made, t, dep, d);
      hide Calm;
      var grown := BringUp(config, level, made, c, d);
      s' := BringUp(config, level, grown, t, d);
    }
  }

  // A task whose dependencies are up starts its container, and finds it healthy.
  lemma StartUp(config: Config, s: State, t: nat, d: string) returns (s': State)
    requires Reachable(config, s) && Calm(s, d) && t < |s.tasks| && Grown(s, t)
    requires s.tasks[t].phase.Launching? && s.tasks[t].phase.next == |config(s.tasks[t].w)|
    requires !(s.tasks[t].waitHealthy && s.tasks[t].w == d)
    ensures Reachable(config, s') && Calm(s', d) && OthersKept(s, s', t)
    ensures s'.tasks[t].phase == Finished(true) && Rouse(s.containers(s.tasks[t].w).status, s.tasks[t].w) in s'.trace && s'.containers == s.containers
  {
    hide Reachable;
    s' := ReachableStep(config, s, Launch(t));
    s' := ReachableStep(config, s', Join(t));
    s' := ReachableStep(config, s', Decide(t));
    assert AtEntrance(s, s', t);
    s' := Start(config, s, s', t, d);
  }

  // The task is about to start its container; nothing else has changed.
  ghost predicate AtEntrance(s: State, s': State, t: nat)
    requires t < |s.tasks|
  {
    s' == s.(tasks := s.tasks[t := s.tasks[t].(phase := Entering)])
  }

  lemma Start(config: Config, s: State, at: State, t: nat, d: string) returns (s': State)
    requires Reachable(config, at) && Calm(s, d) && t < |s.tasks| && AtEntrance(s, at, t)
    requires !(s.tasks[t].waitHealthy && s.tasks[t].w == d)
    ensures Reachable(config, s') && Calm(s', d) && OthersKept(s, s', t)
    ensures s'.tasks[t].phase == Finished(true) && Rouse(s.containers(s.tasks[t].w).status, s.tasks[t].w) in s'.trace && s'.containers == s.containers
  {
    hide Reachable;
    assert !exists l :: Leads(at, l, at.tasks[t].w) by {
      forall l ensures !Leads(at, l, at.tasks[t].w) { assert !Leads(s, l, at.tasks[t].w); }
    }
    s' := ReachableStep(config, at, Enter(t));
    s' := ReachableStep(config, s', Load(t));
    s' := ReachableStep(config, s', Act(t, true, true));
    assert Flown(s, s', t);
    if s.tasks[t].waitHealthy {
      s' := ReachableStep(config, s', CheckHealth(t, true));
    }
    hide Step, Enabled;
    EndsCalm(s, s', t, d);
  }

  // The start is issued and the flight has ended.
  ghost predicate Flown(s: State, s': State, t: nat)
    requires t < |s.tasks|
  {
    var task := s.tasks[t];
    s' == s.(tasks := s.tasks[t := task.(phase := Woke(task), flown := Some(true))],
             trace := s.trace + [Rouse(s.containers(task.w).status, task.w)])
  }

  lemma EndsCalm(s: State, s': State, t: nat, d: string)
    requires Calm(s, d) && t < |s.tasks| == |s'.tasks| && !(s.tasks[t].waitHealthy && s.tasks[t].w == d)
    requires s'.containers == s.containers && s'.tasks[t].phase.Finished?
    requires forall u :: 0 <= u < |s.tasks| && u != t ==> s'.tasks[u] == s.tasks[u]
    requires var w := s.tasks[t].w;
             var e := Rouse(s.containers(w).status, w);
             s'.trace == s.trace + if s.tasks[t].waitHealthy then [e] + [SawHealthy(w)] else [e]
    ensures Calm(s', d)
  {
    forall l, w ensures !Leads(s', l, w) { assert !Leads(s, l, w); }
  }

  // From containers that are asleep in any way: a run in which a is started, or unpaused, and d is never seen healthy.
  lemma StartedUnhealthy(config: Config, level: string -> nat, containers: string -> Container, a: string, d: string) returns (s: State)
    requires Falls(config, level) && !NeedsHealthy(config, a, d) && Asleep(containers)
    ensures Reachable(config, s) && NoSkips(s.trace) && Rouse(containers(a).status, a) in s.trace && SawHealthy(d) !in s.trace
  {
    hide Reachable, NeedsHealthy;
    ReachableAtStart(config, containers);
    s := ReachableStep(config, State(containers, [], []), Call(a));
    hide Step, Enabled;
    s := BringUp(config, level, s, 0, d);
  }

  // ----- instances

  // app needs a healthy db, and cache; cache needs db.
  function Listed(): Config {
    (w: string) =>
      if w == "app" then [Dep("db", true), Dep("cache", false)] else if w == "cache" then [Dep("db", false)] else []
  }

  // The same without the requirement of app that cache brings in.
  function Reduced(): Config {
    (w: string) => if w == "app" then [Dep("cache", false)] else if w == "cache" then [Dep("db", false)] else []
  }

  // An instance: as it is listed every run without skips sees db healthy before it starts app. After the reduction there is
  // one that starts app, with everything stopped at first, and never sees db healthy.
  lemma LostByReduction() returns (s: State)
    ensures AlwaysHealthy(Listed(), "app", "db")
    ensures Reachable(Reduced(), s) && NoSkips(s.trace) && Issued("app") in s.trace && SawHealthy("db") !in s.trace
  {
    var level := (w: string) => if w == "app" then 2 else if w == "cache" then 1 else 0;
    assert Falls(Listed(), level) && Falls(Reduced(), level);
    assert forall w :: Dep("db", true) !in Reduced()(w);
    assert Listed()("app")[0] == Dep("db", true);
    hide Falls, Listed, Reduced, AlwaysHealthy, Reachable;
    NeedsMore(Listed(), "app", Listed()("app")[0], "db");
    assert !NeedsHealthy(Reduced(), "app", "db");
    hide NeedsHealthy;
    AlwaysHealthyIff(Listed(), level, "app", "db");
    s := StartedUnhealthy(Reduced(), level, _ => Container(Stopped, false), "app", "db");
  }

  // app needs cache, and cache needs a healthy db.
  function Chain(): Config {
    (w: string) => if w == "app" then [Dep("cache", false)] else if w == "cache" then [Dep("db", true)] else []
  }

  function CacheStarting(): string -> Container {
    (w: string) => if w == "cache" then Container(Running, true) else Container(Stopped, false)
  }

  lemma CacheSkipped() returns (s: State)
    ensures Reachable(Chain(), s)
    ensures s == State(CacheStarting(), [AppTask(Deciding)], [Skipped("app", "cache")])
  {
    var config := Chain();
    ReachableAtStart(config, CacheStarting());
    hide Reachable;
    s := ReachableStep(config, State(CacheStarting(), [], []), Call("app"));
    s := ReachableStep(config, s, Launch(0));
    s := ReachableStep(config, s, Launch(0));
    s := ReachableStep(config, s, Join(0));
  }

  // An instance: where the other dependency is skipped, what it requires is not met: db is stopped and nobody looked at it.
  lemma DroppedRequirementLost() returns (s: State)
    ensures Reachable(Chain(), s)
    ensures s.trace == [Skipped("app", "cache"), Issued("app")] && s.containers("db").status == Stopped
  {
    var config := Chain();
    s := CacheSkipped();
    hide Reachable;
    s := ReachableStep(config, s, Decide(0));
    assert !exists l :: Leads(s, l, "app");
    s := ReachableStep(config, s, Enter(0));
    s := ReachableStep(config, s, Load(0));
    s := ReachableStep(config, s, Act(0, true, true));
  }
}
