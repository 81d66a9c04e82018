/**
 Deduplication and waking together: which containers are still seen healthy before a start once the dependencies of a
 watcher have been reduced.
 */
module DedupWake {
  import opened DepGraph
  import opened Dependencies
  import Wake
  import opened WakeHealth

  // ----- the watchers as the configuration that waking reads

  function DepsOf(deps: seq<Dependency>): (r: seq<Wake.Dep>)
    ensures |r| == |deps| && forall i :: 0 <= i < |r| ==> r[i] == Wake.Dep(deps[i].w.key, deps[i].waitHealthy)
  {
    if deps == [] then [] else [Wake.Dep(deps[0].w.key, deps[0].waitHealthy)] + DepsOf(deps[1..])
  }

  ghost function Lists(ws: Watchers): map<string, seq<Wake.Dep>>
    reads ws.Values
  {
    map k | k in ws :: DepsOf(ws[k].dependsOn)
  }

  function FromLists(lists: map<string, seq<Wake.Dep>>): Wake.Config {
    (k: string) => if k in lists then lists[k] else []
  }

  ghost function ConfigOf(ws: Watchers): Wake.Config
    reads ws.Values
  {
    FromLists(Lists(ws))
  }

  lemma InDepsOf(deps: seq<Dependency>, d: Wake.Dep)
    ensures d in DepsOf(deps) <==> exists e :: e in deps && e.w.key == d.w && e.waitHealthy == d.waitHealthy
  {
    if d in DepsOf(deps) {
      var i :| 0 <= i < |deps| && DepsOf(deps)[i] == d;
      assert deps[i] in deps;
    }
    if e :| e in deps && e.w.key == d.w && e.waitHealthy == d.waitHealthy {
      var i :| 0 <= i < |deps| && deps[i] == e;
      assert DepsOf(deps)[i] == d;
    }
  }

  lemma ConfigFalls(ws: Watchers)
    requires Valid(ws)
    ensures Falls(ConfigOf(ws), Level(ws))
  {
    var config := ConfigOf(ws);
    forall k, d | d in config(k) ensures Level(ws)(d.w) < Level(ws)(k) {
      InDepsOf(ws[k].dependsOn, d);
    }
  }

  lemma DependsOnIs(ws: Watchers, a: string, b: string)
    ensures DependsOn(ConfigOf(ws), a, b) <==> a in ws && b in Graph(ws)[a]
  {
    var config := ConfigOf(ws);
    if a in ws {
      if DependsOn(config, a, b) {
        var d :| d in config(a) && d.w == b;
        InDepsOf(ws[a].dependsOn, d);
      }
      if b in Graph(ws)[a] {
        var e :| e in ws[a].dependsOn && e.w.key == b;
        InDepsOf(ws[a].dependsOn, Wake.Dep(b, e.waitHealthy));
        assert Wake.Dep(b, e.waitHealthy) in config(a);
      }
    }
  }

  ghost predicate AtOrBelow(g: map<string, set<string>>, a: string, u: string) {
    u == a || Reaches(g, a, u)
  }

  // What is required at or below a, in terms of the graph.
  lemma NeedsIs(ws: Watchers, a: string, d: string)
    requires a in ws
    ensures NeedsHealthy(ConfigOf(ws), a, d) <==> exists u :: AtOrBelow(Graph(ws), a, u) && Wake.Dep(d, true) in ConfigOf(ws)(u)
  {
    var config, g := ConfigOf(ws), Graph(ws);
    hide ConfigOf, Graph;
    if p :| IsChain(config, p) && p[0] == a && Wake.Dep(d, true) in config(p[|p| - 1]) {
      if |p| > 1 {
        forall i | 0 <= i < |p| - 1 ensures p[i] in g && p[i + 1] in g[p[i]] {
          assert DependsOn(config, p[i], p[i + 1]);
          DependsOnIs(ws, p[i], p[i + 1]);
          GraphKeys(ws);
        }
        assert IsPath(g, p, a, p[|p| - 1]);
      }
      assert AtOrBelow(g, a, p[|p| - 1]);
    }
    if u :| AtOrBelow(g, a, u) && Wake.Dep(d, true) in config(u) {
      if u == a {
        assert IsChain(config, [a]);
      } else {
        var p :| IsPath(g, p, a, u);
        forall i | 0 <= i < |p| - 1 ensures DependsOn(config, p[i], p[i + 1]) {
          assert p[i] in g && p[i + 1] in g[p[i]];
          DependsOnIs(ws, p[i], p[i + 1]);
          GraphKeys(ws);
        }
        assert IsChain(config, p);
      }
    }
  }

  lemma GraphKeys(ws: Watchers)
    ensures Graph(ws).Keys == ws.Keys
  {
  }

  // ----- what deduplication leaves of it

  // The last entry for d requires it to be healthy.
  ghost predicate LastIsHealthy(deps: seq<Wake.Dep>, d: string) {
    exists i :: 0 <= i < |deps| && deps[i] == Wake.Dep(d, true) && forall j :: i < j < |deps| ==> deps[j].w != d
  }

  ghost predicate NoneReaches(g: map<string, set<string>>, deps: seq<Wake.Dep>, d: string) {
    forall i :: 0 <= i < |deps| ==> !Reaches(g, deps[i].w, d)
  }

  // The watcher whose dependencies these are keeps its requirement that d is healthy: no later entry replaces it, and no
  // other dependency brings d in.
  ghost predicate KeepsHealthy(g: map<string, set<string>>, deps: seq<Wake.Dep>, d: string) {
    LastIsHealthy(deps, d) && NoneReaches(g, deps, d)
  }

  // Something at or below a requires d to be healthy, and keeps that when the dependencies of k are reduced.
  ghost predicate StillNeeds(g: map<string, set<string>>, config: Wake.Config, k: string, a: string, d: string) {
    exists u :: AtOrBelow(g, a, u) && if u == k then KeepsHealthy(g, config(k), d) else Wake.Dep(d, true) in config(u)
  }

  lemma LastIs(all: seq<Dependency>, d: string)
    ensures LastIsHealthy(DepsOf(all), d) <==> exists e :: LastFor(all, e) && e.w.key == d && e.waitHealthy
  {
    var deps := DepsOf(all);
    hide DepsOf;
    if e :| LastFor(all, e) && e.w.key == d && e.waitHealthy {
      var i :| 0 <= i < |all| && all[i] == e && forall j :: i < j < |all| ==> all[j].w.key != e.w.key;
      assert deps[i] == Wake.Dep(d, true);
    }
    if LastIsHealthy(deps, d) {
      var i :| 0 <= i < |deps| && deps[i] == Wake.Dep(d, true) && forall j :: i < j < |deps| ==> deps[j].w != d;
      forall j | i < j < |all| ensures all[j].w.key != d { assert deps[j].w != d; }
      assert LastFor(all, all[i]);
    }
  }

  lemma NoneIs(g: map<string, set<string>>, all: seq<Dependency>, d: string)
    ensures NoneReaches(g, DepsOf(all), d) <==> !exists f :: f in all && Reaches(g, f.w.key, d)
  {
    var deps := DepsOf(all);
    hide Reaches, DepsOf;
    if NoneReaches(g, deps, d) {
      forall f | f in all ensures !Reaches(g, f.w.key, d) {
        var l :| 0 <= l < |all| && all[l] == f;
        assert deps[l].w == f.w.key;
      }
    } else {
      var l :| 0 <= l < |deps| && Reaches(g, deps[l].w, d);
      assert all[l] in all;
    }
  }

  lemma KeptIs(g: map<string, set<string>>, all: seq<Dependency>, kept: seq<Dependency>, d: string)
    requires forall e :: e in kept <==> Kept(g, all, e)
    ensures Wake.Dep(d, true) in DepsOf(kept) <==> KeepsHealthy(g, DepsOf(all), d)
  {
    InDepsOf(kept, Wake.Dep(d, true));
    LastIs(all, d);
    NoneIs(g, all, d);
    hide Reaches, LastFor, LastIsHealthy, NoneReaches, DepsOf;
  }

  lemma AllKept(g: map<string, set<string>>, all: seq<Dependency>, kept: seq<Dependency>)
    requires forall e :: e in kept <==> Kept(g, all, e)
    ensures forall d :: Wake.Dep(d, true) in DepsOf(kept) <==> KeepsHealthy(g, DepsOf(all), d)
  {
    hide Kept, DepsOf, KeepsHealthy;
    forall d ensures Wake.Dep(d, true) in DepsOf(kept) <==> KeepsHealthy(g, DepsOf(all), d) {
      KeptIs(g, all, kept, d);
    }
  }

  // The configuration after the reduction needs what the one before still needs.
  lemma StillIs(g: map<string, set<string>>, g': map<string, set<string>>, config: Wake.Config, config': Wake.Config, k: string, a: string, d: string)
    requires forall u :: u != k ==> config'(u) == config(u)
    requires forall u :: Reaches(g', a, u) <==> Reaches(g, a, u)
    requires Wake.Dep(d, true) in config'(k) <==> KeepsHealthy(g, config(k), d)
    ensures (exists u :: AtOrBelow(g', a, u) && Wake.Dep(d, true) in config'(u)) <==> StillNeeds(g, config, k, a, d)
  {
    hide Reaches, KeepsHealthy;
    if u :| AtOrBelow(g', a, u) && Wake.Dep(d, true) in config'(u) {
      assert AtOrBelow(g, a, u);
    }
    if u :| AtOrBelow(g, a, u) && if u == k then KeepsHealthy(g, config(k), d) else Wake.Dep(d, true) in config(u) {
      assert AtOrBelow(g', a, u) && Wake.Dep(d, true) in config'(u);
    }
  }

  // Reducing the dependencies of w: afterwards every run without skips sees d healthy before it starts a exactly when what
  // requires that, at or below a, keeps its requirement.
  method DedupThenWake(w: Watcher, ghost ws: Watchers)
    requires Valid(ws) && w.key in ws && ws[w.key] == w
    modifies w
    ensures Valid(ws)
    ensures forall a, d :: a in ws ==>
              (AlwaysHealthy(ConfigOf(ws), a, d) <==> StillNeeds(old(Graph(ws)), old(ConfigOf(ws)), w.key, a, d))
  {
    ghost var g, config, k := Graph(ws), ConfigOf(ws), w.key;
    Reduce(w, ws);
    hide *;
    forall a, d | a in ws ensures AlwaysHealthy(ConfigOf(ws), a, d) <==> StillNeeds(g, config, k, a, d) {
      ConfigFalls(ws);
      AlwaysHealthyIff(ConfigOf(ws), Level(ws), a, d);
      NeedsIs(ws, a, d);
      StillIs(g, Graph(ws), config, ConfigOf(ws), k, a, d);
    }
  }

  // Only the entry of w changes.
  method Reduce(w: Watcher, ghost ws: Watchers)
    requires Valid(ws) && w.key in ws && ws[w.key] == w
    modifies w
    ensures Valid(ws)
    ensures forall u :: u != w.key ==> ConfigOf(ws)(u) == old(ConfigOf(ws))(u)
    ensures forall d :: Wake.Dep(d, true) in ConfigOf(ws)(w.key) <==> KeepsHealthy(old(Graph(ws)), old(ConfigOf(ws))(w.key), d)
    ensures forall a, u :: a in ws ==> (Reaches(Graph(ws), a, u) <==> Reaches(old(Graph(ws)), a, u))
  {
    ghost var g, all, lists := Graph(ws), w.dependsOn, Lists(ws);
    assert lists[w.key] == DepsOf(all);
    ReduceLists(w, ws);
    AllKept(g, all, w.dependsOn);
    hide Valid, Graph, Reaches, KeepsHealthy, DepsOf, Kept, Lists;
    assert FromLists(lists)(w.key) == DepsOf(all);
  }

  method ReduceLists(w: Watcher, ghost ws: Watchers)
    requires Valid(ws) && w.key in ws && ws[w.key] == w
    modifies w
    ensures Valid(ws)
    ensures Lists(ws) == old(Lists(ws))[w.key := DepsOf(w.dependsOn)]
    ensures forall d :: d in w.dependsOn <==> Kept(old(Graph(ws)), old(w.dependsOn), d)
    ensures forall a, u :: a in ws ==> (Reaches(Graph(ws), a, u) <==> Reaches(old(Graph(ws)), a, u))
  {
    ghost var lists := Lists(ws);
    assert lists.Keys == ws.Keys && forall u :: u in ws && u != w.key ==> ws[u] != w && lists[u] == DepsOf(ws[u].dependsOn);
    hide *;
    DedupKeepsExactly(w, ws);
    ListsAre(w, ws, lists);
  }

  lemma ListsAre(w: Watcher, ws: Watchers, lists: map<string, seq<Wake.Dep>>)
    requires w.key in ws && ws[w.key] == w && lists.Keys == ws.Keys
    requires forall u :: u in ws && u != w.key ==> DepsOf(ws[u].dependsOn) == lists[u]
    ensures Lists(ws) == lists[w.key := DepsOf(w.dependsOn)]
  {
    hide DepsOf;
  }

  // An instance: app needs a healthy db, and cache, which needs db. The requirement is there, and is lost with the reduction.
  lemma RequirementLost()
    ensures var g := map["app" := {"db", "cache"}, "cache" := {"db"}, "db" := {}];
            NeedsHealthy(Listed(), "app", "db") && !StillNeeds(g, Listed(), "app", "app", "db")
  {
    var g := map["app" := {"db", "cache"}, "cache" := {"db"}, "db" := {}];
    NeedsMore(Listed(), "app", Listed()("app")[0], "db");
    assert IsPath(g, ["cache", "db"], "cache", "db");
    assert Listed()("app")[1].w == "cache";
    assert !KeepsHealthy(g, Listed()("app"), "db");
    hide Reaches;
  }

  // And these are watchers on the heap: their configuration is the listed one, and the reduction of app makes it the reduced
  // one.
  method ReduceListed() returns (ghost before: Wake.Config, ghost after: Wake.Config)
    ensures forall k :: before(k) == Listed()(k)
    ensures forall k :: after(k) == Reduced()(k)
    ensures AlwaysHealthy(before, "app", "db") && !AlwaysHealthy(after, "app", "db")
  {
    var db := new Watcher("db", "db", 0);
    var cache := new Watcher("cache", "cache", 1);
    var app := new Watcher("app", "app", 2);
    cache.dependsOn := [Dependency(db, false)];
    app.dependsOn := [Dependency(db, true), Dependency(cache, false)];
    ghost var ws := map["app" := app, "cache" := cache, "db" := db];
    before := ConfigOf(ws);
    ListedIs(app, cache, db, ws);
    ReduceApp(app, cache, db, ws);
    after := ConfigOf(ws);
    hide *;
    SameConfigs(before, after);
  }

  lemma ListedIs(app: Watcher, cache: Watcher, db: Watcher, ws: Watchers)
    requires ws == map["app" := app, "cache" := cache, "db" := db]
    requires app.key == "app" && cache.key == "cache" && db.key == "db"
    requires cache.dependsOn == [Dependency(db, false)] && db.dependsOn == []
    ensures app.dependsOn == [Dependency(db, true), Dependency(cache, false)] ==> forall k :: ConfigOf(ws)(k) == Listed()(k)
    ensures app.dependsOn == [Dependency(cache, false)] ==> forall k :: ConfigOf(ws)(k) == Reduced()(k)
  {
    assert DepsOf([Dependency(db, false)]) == [Wake.Dep("db", false)];
    assert DepsOf([Dependency(cache, false)]) == [Wake.Dep("cache", false)];
    assert DepsOf([Dependency(db, true), Dependency(cache, false)]) == [Wake.Dep("db", true), Wake.Dep("cache", false)];
    hide DepsOf;
  }

  lemma SameConfigs(before: Wake.Config, after: Wake.Config)
    requires forall k :: before(k) == Listed()(k)
    requires forall k :: after(k) == Reduced()(k)
    ensures AlwaysHealthy(before, "app", "db") && !AlwaysHealthy(after, "app", "db")
  {
    var level := (w: string) => if w == "app" then 2 else if w == "cache" then 1 else 0;
    assert Falls(before, level) && Falls(after, level);
    assert forall w :: Wake.Dep("db", true) !in after(w);
    assert before("app")[0] == Wake.Dep("db", true);
    hide Falls, Listed, Reduced, AlwaysHealthy;
    NeedsMore(before, "app", before("app")[0], "db");
    assert !NeedsHealthy(after, "app", "db");
    hide NeedsHealthy;
    AlwaysHealthyIff(before, level, "app", "db");
    AlwaysHealthyIff(after, level, "app", "db");
  }

  method ReduceApp(app: Watcher, cache: Watcher, db: Watcher, ghost ws: Watchers)
    requires ws == map["app" := app, "cache" := cache, "db" := db]
    requires app.key == "app" && cache.key == "cache" && db.key == "db"
    requires app.level == 2 && cache.level == 1 && db.level == 0
    requires app.dependsOn == [Dependency(db, true), Dependency(cache, false)]
    requires cache.dependsOn == [Dependency(db, false)] && db.dependsOn == []
    modifies app
    ensures forall k :: ConfigOf(ws)(k) == Reduced()(k)
  {
    assert Valid(ws);
    ghost var all := app.dependsOn;
    GraphListed(app, cache, db, ws);
    OnlyCacheKept(cache, db, Graph(ws), all);
    hide Valid, Graph, Reaches, Kept, UniqueKeys;
    DedupKeepsExactly(app, ws);
    OnlyEntry(app.dependsOn, Dependency(cache, false));
    hide ConfigOf, Listed, Reduced;
    ListedIs(app, cache, db, ws);
  }

  lemma OnlyCacheKept(cache: Watcher, db: Watcher, g: map<string, set<string>>, all: seq<Dependency>)
    requires cache.key == "cache" && db.key == "db" && all == [Dependency(db, true), Dependency(cache, false)]
    requires g == map["app" := {"db", "cache"}, "cache" := {"db"}, "db" := {}]
    ensures forall d :: Kept(g, all, d) <==> d == Dependency(cache, false)
  {
    assert IsPath(g, ["cache", "db"], "cache", "db");
    assert !Reaches(g, "db", "cache") && !Reaches(g, "cache", "cache") by { NoneToCache(g); }
    hide Reaches;
    assert all[1] == Dependency(cache, false) && LastFor(all, all[1]);
    assert all[1] in all && Reaches(g, all[1].w.key, "db");
    assert forall e :: e in all ==> e == all[0] || e == all[1];
  }

  lemma NoneToCache(g: map<string, set<string>>)
    requires g == map["app" := {"db", "cache"}, "cache" := {"db"}, "db" := {}]
    ensures !Reaches(g, "db", "cache") && !Reaches(g, "cache", "cache")
  {
    hide IsPath;
    forall a: string, p ensures IsPath(g, p, a, "cache") ==> a == "app" {
      if IsPath(g, p, a, "cache") {
        OnlyFromApp(g, p, a);
      }
    }
  }

  lemma OnlyFromApp(g: map<string, set<string>>, p: seq<string>, a: string)
    requires g == map["app" := {"db", "cache"}, "cache" := {"db"}, "db" := {}] && IsPath(g, p, a, "cache")
    ensures a == "app"
  {
    var n := |p|;
    assert n > 2 ==> p[n - 3] in g && p[n - 3 + 1] in g[p[n - 3]];
    assert p[n - 2] in g && p[n - 2 + 1] in g[p[n - 2]];
  }

  lemma GraphListed(app: Watcher, cache: Watcher, db: Watcher, ws: Watchers)
    requires ws == map["app" := app, "cache" := cache, "db" := db] && db.key == "db" && cache.key == "cache"
    requires app.dependsOn == [Dependency(db, true), Dependency(cache, false)]
    requires cache.dependsOn == [Dependency(db, false)] && db.dependsOn == []
    ensures Graph(ws) == map["app" := {"db", "cache"}, "cache" := {"db"}, "db" := {}]
  {
    KeysOfTwo(Dependency(db, true), Dependency(cache, false));
    KeysOfOne(Dependency(db, false));
    assert Keys([]) == {};
    hide Keys;
  }

  lemma KeysOfOne(d: Dependency)
    ensures Keys([d]) == {d.w.key}
  {
    assert [d][0] in [d];
  }

  lemma KeysOfTwo(d: Dependency, e: Dependency)
    ensures Keys([d, e]) == {d.w.key, e.w.key}
  {
    assert [d, e][0] in [d, e] && [d, e][1] in [d, e];
  }
}
