/**
 The dependency lists of the idle watchers: collecting everything below a watcher, and
 removing dependencies that another dependency brings in anyway.
 */
module Dependencies {
  import opened DepGraph

  class Watcher {
    const key: string
    const containerName: string
    // A level that falls along every dependency: the graph has no cycle.
    ghost const level: nat
    var dependsOn: seq<Dependency>
    // The names written back to the configuration.
    var configDependsOn: seq<string>

    constructor (key: string, containerName: string, ghost level: nat)
      ensures this.key == key && this.containerName == containerName && this.level == level && dependsOn == []
    {
      this.key, this.containerName, this.level := key, containerName, level;
      dependsOn, configDependsOn := [], [];
    }
  }

  datatype Dependency = Dependency(w: Watcher, waitHealthy: bool)

  // ----- the ordered map the code collects into: entries by key, in order of first insertion

  ghost predicate UniqueKeys(m: seq<Dependency>) {
    forall i, j :: 0 <= i < j < |m| ==> m[i].w.key != m[j].w.key
  }

  function Put(m: seq<Dependency>, d: Dependency): seq<Dependency> {
    if m == [] then [d]
    else if m[0].w.key == d.w.key then [d] + m[1..]
    else [m[0]] + Put(m[1..], d)
  }

  function Del(m: seq<Dependency>, k: string): seq<Dependency> {
    if m == [] then []
    else if m[0].w.key == k then m[1..]
    else [m[0]] + Del(m[1..], k)
  }

  ghost function Keys(deps: seq<Dependency>): set<string> {
    set d | d in deps :: d.w.key
  }

  lemma UniqueTail(m: seq<Dependency>)
    requires UniqueKeys(m) && m != []
    ensures UniqueKeys(m[1..]) && Keys(m) == {m[0].w.key} + Keys(m[1..]) && m[0].w.key !in Keys(m[1..])
    ensures forall e :: e in m <==> e == m[0] || e in m[1..]
  {
    forall e | e in m[1..] ensures e.w.key != m[0].w.key {
      var i :| 0 <= i < |m[1..]| && m[1..][i] == e;
      assert m[i + 1] == e;
    }
    assert m == [m[0]] + m[1..];
  }

  lemma UniqueCons(d: Dependency, m: seq<Dependency>)
    requires UniqueKeys(m) && d.w.key !in Keys(m)
    ensures UniqueKeys([d] + m) && Keys([d] + m) == {d.w.key} + Keys(m)
  {
    forall i | 0 <= i < |m| ensures m[i].w.key != d.w.key {
      assert m[i] in m;
    }
  }

  lemma {:induction false} PutEntries(m: seq<Dependency>, d: Dependency)
    requires UniqueKeys(m)
    ensures UniqueKeys(Put(m, d)) && Keys(Put(m, d)) == Keys(m) + {d.w.key}
    ensures forall e :: e in Put(m, d) ==> e == d || (e in m && e.w.key != d.w.key)
  {
    hide UniqueKeys, Keys;
    if m == [] {
      UniqueOne(d);
    } else {
      UniqueTail(m);
      InKeys(m[1..]);
      if m[0].w.key == d.w.key {
        UniqueCons(d, m[1..]);
      } else {
        PutEntries(m[1..], d);
        UniqueCons(m[0], Put(m[1..], d));
      }
    }
  }

  lemma UniqueOne(d: Dependency)
    ensures UniqueKeys([d]) && Keys([d]) == Keys([]) + {d.w.key}
  {
  }

  lemma {:induction false} DelEntries(m: seq<Dependency>, k: string)
    requires UniqueKeys(m)
    ensures UniqueKeys(Del(m, k)) && Keys(Del(m, k)) == Keys(m) - {k}
    ensures forall e :: e in Del(m, k) ==> e in m
  {
    hide UniqueKeys, Keys;
    if m != [] {
      UniqueTail(m);
      if m[0].w.key != k {
        DelEntries(m[1..], k);
        UniqueCons(m[0], Del(m[1..], k));
      }
    } else {
      NoKeys();
    }
  }

  lemma NoKeys()
    ensures Keys([]) == {}
  {
  }

  // The last of the entries for its key, which is the one that Put leaves.
  ghost predicate LastFor(deps: seq<Dependency>, d: Dependency) {
    exists i :: 0 <= i < |deps| && deps[i] == d && forall j :: i < j < |deps| ==> deps[j].w.key != d.w.key
  }

  lemma LastForMore(deps: seq<Dependency>, d: Dependency)
    ensures LastFor(deps + [d], d)
    ensures forall e :: LastFor(deps, e) && e.w.key != d.w.key ==> LastFor(deps + [d], e)
  {
    assert (deps + [d])[|deps|] == d;
    forall e | LastFor(deps, e) && e.w.key != d.w.key ensures LastFor(deps + [d], e) {
      var i :| 0 <= i < |deps| && deps[i] == e && forall j :: i < j < |deps| ==> deps[j].w.key != e.w.key;
      assert (deps + [d])[i] == e;
    }
  }

  lemma LastForIsOne(deps: seq<Dependency>, d: Dependency, e: Dependency)
    requires LastFor(deps, d) && LastFor(deps, e) && d.w.key == e.w.key
    ensures d == e
  {
  }

  // ----- the watchers as a graph

  type Watchers = map<string, Watcher>

  ghost function Graph(ws: Watchers): map<string, set<string>>
    reads ws.Values
  {
    map k | k in ws :: Keys(ws[k].dependsOn)
  }

  ghost function Level(ws: Watchers): Rank<string> {
    k => if k in ws then ws[k].level else 0
  }

  // Every watcher is registered under its key, and dependencies go strictly down.
  ghost predicate Valid(ws: Watchers)
    reads ws.Values
  {
    && (forall k :: k in ws ==> ws[k].key == k)
    && (forall k, d :: k in ws && d in ws[k].dependsOn ==> d.w.key in ws && ws[d.w.key] == d.w && d.w.level < ws[k].level)
  }

  lemma ValidIsAcyclic(ws: Watchers)
    requires Valid(ws)
    ensures Acyclic(Graph(ws), Level(ws))
  {
  }

  ghost function Below(ws: Watchers, k: string): set<string>
    requires Valid(ws) && k in ws
    reads ws.Values
  {
    ValidIsAcyclic(ws);
    Reach(Graph(ws), Level(ws), k)
  }

  // Everything below the watchers of these dependencies.
  ghost function Under(ws: Watchers, deps: seq<Dependency>): set<string>
    requires Valid(ws)
    reads ws.Values
  {
    if deps == [] then {}
    else
      var d := deps[|deps| - 1];
      Under(ws, deps[..|deps| - 1]) + if d.w.key in ws then Below(ws, d.w.key) else {}
  }

  lemma {:induction false} UnderIs(ws: Watchers, deps: seq<Dependency>, k: string)
    requires Valid(ws)
    ensures k in Under(ws, deps) <==> exists d :: d in deps && d.w.key in ws && k in Below(ws, d.w.key)
    decreases |deps|
  {
    hide Below, Valid;
    if deps != [] {
      UnderIs(ws, deps[..|deps| - 1], k);
      assert deps == deps[..|deps| - 1] + [deps[|deps| - 1]];
    }
  }

  // Below a watcher are its dependencies and everything below them.
  lemma BelowIs(ws: Watchers, k: string)
    requires Valid(ws) && k in ws
    ensures Below(ws, k) == Keys(ws[k].dependsOn) + Under(ws, ws[k].dependsOn)
  {
    ValidIsAcyclic(ws);
    hide Valid, Acyclic, Under;
    forall c ensures c in Under(ws, ws[k].dependsOn) <==> exists b :: b in Graph(ws)[k] && b in ws && c in Below(ws, b) {
      UnderIs(ws, ws[k].dependsOn, c);
    }
    DepsRegistered(ws, k);
  }

  lemma DepsRegistered(ws: Watchers, k: string)
    requires Valid(ws) && k in ws
    ensures Keys(ws[k].dependsOn) <= ws.Keys
    ensures forall d :: d in ws[k].dependsOn ==> d.w.key in ws && ws[d.w.key] == d.w && d.w.level < ws[k].level
  {
  }

  // What collecting some dependencies has gathered.
  ghost predicate Gathered(ws: Watchers, done: seq<Dependency>, m: seq<Dependency>)
    requires Valid(ws)
    reads ws.Values
  {
    && UniqueKeys(m)
    && Keys(m) == Keys(done) + Under(ws, done)
    && (forall e :: e in m ==> LastFor(done, e) || e.w.key in Under(ws, done))
  }

  // One more dependency, with all that is below it.
  method PutAll(m: seq<Dependency>, xs: seq<Dependency>) returns (r: seq<Dependency>)
    requires UniqueKeys(m)
    ensures UniqueKeys(r) && Keys(r) == Keys(m) + Keys(xs)
    ensures forall e :: e in r ==> e in m || e in xs
  {
    r := m;
    for j := 0 to |xs|
      invariant UniqueKeys(r) && Keys(r) == Keys(m) + Keys(xs[..j])
      invariant forall e :: e in r ==> e in m || e in xs
    {
      PutEntries(r, xs[j]);
      r := Put(r, xs[j]);
      assert xs[..j + 1] == xs[..j] + [xs[j]];
    }
    assert xs[..|xs|] == xs;
  }

  lemma GatherOne(ws: Watchers, done: seq<Dependency>, d: Dependency)
    requires Valid(ws) && d.w.key in ws
    ensures Keys(done + [d]) == Keys(done) + {d.w.key}
    ensures Under(ws, done + [d]) == Under(ws, done) + Below(ws, d.w.key)
  {
    hide Valid, Below;
    assert (done + [d])[..|done|] == done;
  }

  // Adds a dependency and everything below it.
  method CollectOne(done: seq<Dependency>, dep: Dependency, deps: seq<Dependency>, ghost ws: Watchers) returns (r: seq<Dependency>)
    requires Valid(ws) && dep.w.key in ws && ws[dep.w.key] == dep.w
    requires Gathered(ws, done, deps)
    ensures Gathered(ws, done + [dep], r)
    decreases dep.w.level, 1
  {
    hide Valid, Under, Below, UniqueKeys, Keys, LastFor;
    var depdeps := Collect(dep.w, ws);
    GatherOne(ws, done, dep);
    PutEntries(deps, dep);
    LastForMore(done, dep);
    r := PutAll(Put(deps, dep), depdeps);
    assert forall e :: e in depdeps ==> e.w.key in Below(ws, dep.w.key) by { InKeys(depdeps); }
  }

  lemma InKeys(deps: seq<Dependency>)
    ensures forall e :: e in deps ==> e.w.key in Keys(deps)
  {
  }

  lemma GatherNone(ws: Watchers)
    requires Valid(ws)
    ensures Gathered(ws, [], [])
  {
  }

  // Everything below w, by key, in the order it is first met.
  method Collect(w: Watcher, ghost ws: Watchers) returns (deps: seq<Dependency>)
    requires Valid(ws) && w.key in ws && ws[w.key] == w
    ensures Gathered(ws, w.dependsOn, deps) && Keys(deps) == Below(ws, w.key)
    decreases w.level, 0
  {
    deps := [];
    var all := w.dependsOn;
    GatherNone(ws);
    BelowIs(ws, w.key);
    DepsRegistered(ws, w.key);
    hide *;
    for i := 0 to |all|
      invariant Gathered(ws, all[..i], deps)
    {
      hide *;
      deps := CollectOne(all[..i], all[i], deps, ws);
      TakeMore(all, i);
    }
    assert all[..|all|] == all;
  }

  lemma TakeMore(all: seq<Dependency>, i: nat)
    requires i < |all|
    ensures all[..i + 1] == all[..i] + [all[i]]
  {
  }

  // Removes the keys of xs.
  method DelAll(m: seq<Dependency>, xs: seq<Dependency>) returns (r: seq<Dependency>)
    requires UniqueKeys(m)
    ensures UniqueKeys(r) && Keys(r) == Keys(m) - Keys(xs)
    ensures forall e :: e in r ==> e in m
  {
    r := m;
    for j := 0 to |xs|
      invariant UniqueKeys(r) && Keys(r) == Keys(m) - Keys(xs[..j])
      invariant forall e :: e in r ==> e in m
    {
      DelEntries(r, xs[j].w.key);
      r := Del(r, xs[j].w.key);
      assert xs[..j + 1] == xs[..j] + [xs[j]];
    }
    assert xs[..|xs|] == xs;
  }

  // The dependencies of w that no other dependency of w brings in.
  ghost function DirectOf(ws: Watchers, k: string): set<string>
    requires Valid(ws) && k in ws
    reads ws.Values
  {
    ValidIsAcyclic(ws);
    Direct(Graph(ws), Level(ws), k)
  }

  lemma DirectIs(ws: Watchers, k: string)
    requires Valid(ws) && k in ws
    ensures DirectOf(ws, k) == Keys(ws[k].dependsOn) - Under(ws, ws[k].dependsOn)
  {
    ValidIsAcyclic(ws);
    hide Valid, Acyclic, Under;
    forall c ensures c in Under(ws, ws[k].dependsOn) <==> exists b :: b in Graph(ws)[k] && b in ws && c in Below(ws, b) {
      UnderIs(ws, ws[k].dependsOn, c);
    }
    DepsRegistered(ws, k);
  }

  // What is left of the collected dependencies once everything under some of them is removed.
  ghost predicate Left(ws: Watchers, all: seq<Dependency>, done: seq<Dependency>, deps: seq<Dependency>)
    requires Valid(ws)
    reads ws.Values
  {
    && UniqueKeys(deps)
    && (forall e :: e in deps ==> LastFor(all, e) || e.w.key in Under(ws, all))
    && Keys(deps) == Keys(all) + Under(ws, all) - Under(ws, done)
  }

  method RemoveOne(all: seq<Dependency>, done: seq<Dependency>, dep: Dependency, deps: seq<Dependency>, ghost ws: Watchers)
    returns (r: seq<Dependency>)
    requires Valid(ws) && dep.w.key in ws && ws[dep.w.key] == dep.w && Left(ws, all, done, deps)
    ensures Left(ws, all, done + [dep], r)
  {
    hide Valid, Under, Below, UniqueKeys, Keys;
    var depdeps := Collect(dep.w, ws);
    GatherOne(ws, done, dep);
    r := DelAll(deps, depdeps);
  }

  lemma LeftAtStart(ws: Watchers, all: seq<Dependency>, deps: seq<Dependency>)
    requires Valid(ws) && Gathered(ws, all, deps)
    ensures Left(ws, all, [], deps)
  {
  }

  lemma LeftAtEnd(ws: Watchers, k: string, deps: seq<Dependency>)
    requires Valid(ws) && k in ws && Left(ws, ws[k].dependsOn, ws[k].dependsOn, deps)
    ensures UniqueKeys(deps) && Keys(deps) == DirectOf(ws, k)
    ensures forall e :: e in deps ==> LastFor(ws[k].dependsOn, e)
  {
    DirectIs(ws, k);
    hide Valid, Under, Below, UniqueKeys, LastFor;
    forall e | e in deps ensures LastFor(ws[k].dependsOn, e) {
      assert e.w.key in Keys(deps);
    }
  }

  // The dependencies that remain when those that another one brings in are removed.
  method Remaining(w: Watcher, ghost ws: Watchers) returns (deps: seq<Dependency>)
    requires Valid(ws) && w.key in ws && ws[w.key] == w
    ensures UniqueKeys(deps) && Keys(deps) == DirectOf(ws, w.key)
    ensures forall e :: e in deps ==> LastFor(w.dependsOn, e)
  {
    var all := w.dependsOn;
    deps := Collect(w, ws);
    LeftAtStart(ws, all, deps);
    DepsRegistered(ws, w.key);
    hide *;
    for i := 0 to |all|
      invariant Left(ws, all, all[..i], deps)
    {
      hide *;
      deps := RemoveOne(all, all[..i], all[i], deps, ws);
      TakeMore(all, i);
    }
    assert all[..|all|] == all;
    LeftAtEnd(ws, w.key, deps);
  }

  // The container names written back to the configuration.
  function Names(deps: seq<Dependency>): seq<string> {
    if deps == [] then [] else [deps[0].w.containerName] + Names(deps[1..])
  }

  // Deduplication: w keeps exactly the dependencies no other one brings in, each once and as it was last listed.
  method DedupDependencies(w: Watcher, ghost ws: Watchers)
    requires Valid(ws) && w.key in ws && ws[w.key] == w
    modifies w
    ensures Valid(ws) && UniqueKeys(w.dependsOn)
    ensures Keys(w.dependsOn) == old(DirectOf(ws, w.key))
    ensures forall d :: d in w.dependsOn ==> LastFor(old(w.dependsOn), d)
    ensures Graph(ws) == old(Graph(ws))[w.key := old(DirectOf(ws, w.key))]
    ensures w.configDependsOn == Names(w.dependsOn)
  {
    var deps := Remaining(w, ws);
    KeptAreRegistered(ws, w.key, deps);
    SetDependencies(w, deps, ws);
  }

  // Gives a watcher other dependencies, that are registered and lower.
  method SetDependencies(w: Watcher, deps: seq<Dependency>, ghost ws: Watchers)
    requires Valid(ws) && w.key in ws && ws[w.key] == w
    requires forall d :: d in deps ==> d.w.key in ws && ws[d.w.key] == d.w && d.w.level < w.level
    modifies w
    ensures Valid(ws) && w.dependsOn == deps && w.configDependsOn == Names(deps)
    ensures Graph(ws) == old(Graph(ws))[w.key := Keys(deps)]
  {
    w.configDependsOn := Names(deps);
    w.dependsOn := deps;
    hide Keys, Names;
    assert forall k :: k in ws && k != w.key ==> ws[k] != w && ws[k].dependsOn == old(ws[k].dependsOn);
    assert Valid(ws);
    hide Valid;
  }

  lemma KeptAreRegistered(ws: Watchers, k: string, deps: seq<Dependency>)
    requires Valid(ws) && k in ws && forall e :: e in deps ==> LastFor(ws[k].dependsOn, e)
    ensures forall d :: d in deps ==> d.w.key in ws && ws[d.w.key] == d.w && d.w.level < ws[k].level
  {
    DepsRegistered(ws, k);
    hide Valid;
  }

  // After deduplication every watcher reaches what it reached, and no remaining dependency brings in another.
  method DedupIsReduction(w: Watcher, ghost ws: Watchers)
    requires Valid(ws) && w.key in ws && ws[w.key] == w
    modifies w
    ensures Valid(ws)
    ensures forall u, c :: u in ws ==> (Reaches(Graph(ws), u, c) <==> Reaches(old(Graph(ws)), u, c))
    ensures forall d, e :: d in w.dependsOn && e in w.dependsOn ==> !Reaches(Graph(ws), d.w.key, e.w.key)
  {
    ValidIsAcyclic(ws);
    Reduction(Graph(ws), Level(ws), w.key);
    DedupDependencies(w, ws);
  }

  // The last requirement listed for its watcher, which no other dependency brings in.
  ghost predicate Kept(g: map<string, set<string>>, all: seq<Dependency>, d: Dependency) {
    LastFor(all, d) && !exists e :: e in all && Reaches(g, e.w.key, d.w.key)
  }

  // These requirements are kept as they were, healthy or not, and no others.
  method DedupKeepsExactly(w: Watcher, ghost ws: Watchers)
    requires Valid(ws) && w.key in ws && ws[w.key] == w
    modifies w
    ensures Valid(ws) && UniqueKeys(w.dependsOn)
    ensures forall d :: d in w.dependsOn <==> Kept(old(Graph(ws)), old(w.dependsOn), d)
    ensures forall u, c :: u in ws ==> (Reaches(Graph(ws), u, c) <==> Reaches(old(Graph(ws)), u, c))
  {
    ghost var all := w.dependsOn;
    DirectIs(ws, w.key);
    forall d | d in all ensures d.w.key in Under(ws, all) <==> exists e :: e in all && Reaches(Graph(ws), e.w.key, d.w.key) {
      UnderIsReached(ws, w.key, d.w.key);
    }
    ValidIsAcyclic(ws);
    Reduction(Graph(ws), Level(ws), w.key);
    DedupDependencies(w, ws);
    hide Valid, Under, Graph, Reaches;
    KeptEntries(all, w.dependsOn);
  }

  // An instance: of two requirements for one container the later is kept, and the health required by the earlier is lost.
  method LaterEntryWins() returns (app: Watcher, db: Watcher)
    ensures app.dependsOn == [Dependency(db, false)]
  {
    db := new Watcher("db", "db", 0);
    app := new Watcher("app", "app", 1);
    app.dependsOn := [Dependency(db, true), Dependency(db, false)];
    ReduceDuplicate(app, db, map["app" := app, "db" := db]);
  }

  method ReduceDuplicate(app: Watcher, db: Watcher, ghost ws: Watchers)
    requires Valid(ws) && app.key in ws && ws[app.key] == app && db.key in ws && db.dependsOn == [] && ws[db.key] == db
    requires app.dependsOn == [Dependency(db, true), Dependency(db, false)]
    modifies app
    ensures app.dependsOn == [Dependency(db, false)]
  {
    NothingBelow(ws, db.key);
    hide Valid, Graph, Reaches;
    ghost var all := app.dependsOn;
    assert all[1] == Dependency(db, false) && LastFor(all, all[1]);
    assert forall e :: LastFor(all, e) ==> e == all[1];
    hide LastFor;
    assert forall e :: e in all ==> e.w == db;
    assert forall e :: Kept(Graph(ws), all, e) <==> e == all[1];
    hide Kept, UniqueKeys;
    DedupKeepsExactly(app, ws);
    OnlyEntry(app.dependsOn, all[1]);
  }

  lemma NothingBelow(ws: Watchers, k: string)
    requires Valid(ws) && k in ws && ws[k].dependsOn == []
    ensures forall c :: !Reaches(Graph(ws), k, c)
  {
    forall c ensures !Reaches(Graph(ws), k, c) {
      if p :| IsPath(Graph(ws), p, k, c) {
        assert p[0] in Graph(ws) && p[0 + 1] in Graph(ws)[p[0]];
      }
    }
  }

  lemma OnlyEntry(deps: seq<Dependency>, d: Dependency)
    requires UniqueKeys(deps) && d in deps && forall e :: e in deps ==> e.w.key == d.w.key
    ensures deps == [d]
  {
    assert |deps| > 1 ==> deps[0].w.key != deps[1].w.key;
    assert forall i :: 0 <= i < |deps| ==> deps[i] in deps;
  }

  lemma KeptEntries(all: seq<Dependency>, kept: seq<Dependency>)
    requires forall d :: d in kept ==> LastFor(all, d)
    ensures forall d :: d in kept <==> LastFor(all, d) && d.w.key in Keys(kept)
  {
    hide LastFor;
    forall d | LastFor(all, d) && d.w.key in Keys(kept) ensures d in kept {
      var e :| e in kept && e.w.key == d.w.key;
      LastForIsOne(all, d, e);
    }
  }

  ghost predicate BelowSome(ws: Watchers, deps: seq<Dependency>, c: string)
    requires Valid(ws)
    reads ws.Values
  {
    exists e :: e in deps && e.w.key in ws && c in Below(ws, e.w.key)
  }

  lemma {:induction false} UnderIsBelowSome(ws: Watchers, deps: seq<Dependency>, c: string)
    requires Valid(ws)
    ensures c in Under(ws, deps) <==> BelowSome(ws, deps, c)
    decreases |deps|
  {
    hide Valid, Below;
    if deps != [] {
      var init, d := deps[..|deps| - 1], deps[|deps| - 1];
      UnderIsBelowSome(ws, init, c);
      assert deps == init + [d];
      assert forall e :: e in deps <==> e in init || e == d;
    }
  }

  lemma UnderIsReached(ws: Watchers, k: string, c: string)
    requires Valid(ws) && k in ws
    ensures c in Under(ws, ws[k].dependsOn) <==> exists e :: e in ws[k].dependsOn && Reaches(Graph(ws), e.w.key, c)
  {
    var deps := ws[k].dependsOn;
    ValidIsAcyclic(ws);
    UnderIsBelowSome(ws, deps, c);
    forall e | e in deps ensures e.w.key in ws && (c in Below(ws, e.w.key) <==> Reaches(Graph(ws), e.w.key, c)) {
      BelowIsReached(ws, e.w.key, c);
    }
    hide Reaches, Graph, Under, Below, Valid;
  }

  lemma BelowIsReached(ws: Watchers, k: string, c: string)
    requires Valid(ws) && k in ws
    ensures c in Below(ws, k) <==> Reaches(Graph(ws), k, c)
  {
    ValidIsAcyclic(ws);
    ReachIsReachability(Graph(ws), Level(ws), k, c);
  }
}
