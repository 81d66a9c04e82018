/** Reachability in an acyclic graph, and what dropping indirect successors leaves unchanged. */
module DepGraph {

  type Rank<!V> = V -> nat

  // Every edge goes to a node of the graph with a smaller rank.
  ghost predicate Acyclic<V(!new)>(g: map<V, set<V>>, rank: Rank<V>) {
    forall a, b :: a in g && b in g[a] ==> b in g && rank(b) < rank(a)
  }

  // A path of at least one edge.
  ghost predicate IsPath<V(!new)>(g: map<V, set<V>>, p: seq<V>, a: V, b: V) {
    && |p| >= 2 && p[0] == a && p[|p| - 1] == b
    && forall i :: 0 <= i < |p| - 1 ==> p[i] in g && p[i + 1] in g[p[i]]
  }

  ghost predicate Reaches<V(!new)>(g: map<V, set<V>>, a: V, b: V) {
    exists p :: IsPath(g, p, a, b)
  }

  // The nodes below a, computed along the rank.
  ghost function Reach<V(!new)>(g: map<V, set<V>>, rank: Rank<V>, a: V): set<V>
    requires Acyclic(g, rank) && a in g
    decreases rank(a)
  {
    g[a] + set b, c | b in g[a] && c in Reach(g, rank, b) :: c
  }

  lemma {:induction false} ReachInGraph<V(!new)>(g: map<V, set<V>>, rank: Rank<V>, a: V, c: V)
    requires Acyclic(g, rank) && a in g && c in Reach(g, rank, a)
    ensures c in g && rank(c) < rank(a)
    decreases rank(a)
  {
    if c !in g[a] {
      var b :| b in g[a] && c in Reach(g, rank, b);
      ReachInGraph(g, rank, b, c);
    }
  }

  lemma {:induction false} ReachTransitive<V(!new)>(g: map<V, set<V>>, rank: Rank<V>, a: V, b: V, c: V)
    requires Acyclic(g, rank) && a in g && b in Reach(g, rank, a) && b in g && c in Reach(g, rank, b)
    ensures c in Reach(g, rank, a)
    decreases rank(a)
  {
    if b !in g[a] {
      var d :| d in g[a] && b in Reach(g, rank, d);
      ReachTransitive(g, rank, d, b, c);
    }
  }

  lemma {:induction false} ReachHasPath<V(!new)>(g: map<V, set<V>>, rank: Rank<V>, a: V, c: V) returns (p: seq<V>)
    requires Acyclic(g, rank) && a in g && c in Reach(g, rank, a)
    ensures IsPath(g, p, a, c)
    decreases rank(a)
  {
    if c in g[a] {
      p := [a, c];
    } else {
      var b :| b in g[a] && c in Reach(g, rank, b);
      var q := ReachHasPath(g, rank, b, c);
      p := [a] + q;
      forall i | 0 <= i < |p| - 1 ensures p[i] in g && p[i + 1] in g[p[i]] {
        if i > 0 {
          assert q[i - 1] in g && q[i - 1 + 1] in g[q[i - 1]];
        }
      }
    }
  }

  lemma {:induction false} PathInReach<V(!new)>(g: map<V, set<V>>, rank: Rank<V>, p: seq<V>, a: V, c: V)
    requires Acyclic(g, rank) && IsPath(g, p, a, c)
    ensures a in g && c in Reach(g, rank, a)
    decreases |p|
  {
    assert p[0] in g && p[0 + 1] in g[p[0]];
    if |p| > 2 {
      forall i | 0 <= i < |p[1..]| - 1 ensures p[1..][i] in g && p[1..][i + 1] in g[p[1..][i]] {
        assert p[i + 1] in g && p[i + 1 + 1] in g[p[i + 1]];
      }
      PathInReach(g, rank, p[1..], p[1], c);
    }
  }

  // Reach is reachability along edges.
  lemma ReachIsReachability<V(!new)>(g: map<V, set<V>>, rank: Rank<V>, a: V, c: V)
    requires Acyclic(g, rank) && a in g
    ensures c in Reach(g, rank, a) <==> Reaches(g, a, c)
  {
    if c in Reach(g, rank, a) {
      var p := ReachHasPath(g, rank, a, c);
    }
    if Reaches(g, a, c) {
      var p :| IsPath(g, p, a, c);
      PathInReach(g, rank, p, a, c);
    }
  }

  // The successors of v that no other successor reaches.
  ghost function Direct<V(!new)>(g: map<V, set<V>>, rank: Rank<V>, v: V): set<V>
    requires Acyclic(g, rank) && v in g
  {
    set d | d in g[v] && forall e :: e in g[v] ==> d !in Reach(g, rank, e)
  }

  // Every dropped successor is below a kept one.
  lemma {:induction false} DroppedIsBelow<V(!new)>(g: map<V, set<V>>, rank: Rank<V>, v: V, d: V) returns (e: V)
    requires Acyclic(g, rank) && v in g && d in g[v]
    ensures e in Direct(g, rank, v) && (e == d || d in Reach(g, rank, e))
    decreases rank(v) - rank(d)
  {
    if d in Direct(g, rank, v) {
      e := d;
    } else {
      var f :| f in g[v] && d in Reach(g, rank, f);
      ReachInGraph(g, rank, f, d);
      e := DroppedIsBelow(g, rank, v, f);
      if e != f {
        ReachTransitive(g, rank, e, f, d);
      }
    }
  }

  lemma {:induction false} ReducedReach<V(!new)>(g: map<V, set<V>>, rank: Rank<V>, v: V, u: V)
    requires Acyclic(g, rank) && v in g && u in g
    ensures Acyclic(g[v := Direct(g, rank, v)], rank)
    ensures Reach(g[v := Direct(g, rank, v)], rank, u) == Reach(g, rank, u)
    decreases rank(u)
  {
    var g' := g[v := Direct(g, rank, v)];
    assert Acyclic(g', rank);
    forall b | b in g[u] ensures Reach(g', rank, b) == Reach(g, rank, b) {
      ReducedReach(g, rank, v, b);
    }
    if u == v {
      forall c | c in Reach(g, rank, v) ensures c in Reach(g', rank, v) {
        if c in g[v] {
          var e := DroppedIsBelow(g, rank, v, c);
        } else {
          var b :| b in g[v] && c in Reach(g, rank, b);
          var e := DroppedIsBelow(g, rank, v, b);
          if e != b {
            ReachTransitive(g, rank, e, b, c);
          }
        }
      }
    }
  }

  // Dropping the indirect successors of v: everybody reaches what they reached, and the rest is independent.
  lemma Reduction<V(!new)>(g: map<V, set<V>>, rank: Rank<V>, v: V)
    requires Acyclic(g, rank) && v in g
    ensures var g' := g[v := Direct(g, rank, v)];
            && (forall u, c :: u in g ==> (Reaches(g', u, c) <==> Reaches(g, u, c)))
            && (forall d, e :: d in g'[v] && e in g'[v] ==> !Reaches(g', d, e))
  {
    var g' := g[v := Direct(g, rank, v)];
    forall u, c | u in g ensures Reaches(g', u, c) <==> Reaches(g, u, c) {
      ReducedReach(g, rank, v, u);
      ReachIsReachability(g, rank, u, c);
      ReachIsReachability(g', rank, u, c);
    }
    forall d, e | d in g'[v] && e in g'[v] ensures !Reaches(g', d, e) {
      ReachIsReachability(g, rank, d, e);
    }
  }
}
