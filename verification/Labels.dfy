/**
 Docker labels with dotted names, un-flattened into nested maps, and nested maps flattened.

 Go walks its maps in any order; here every loop over a map takes an arbitrary remaining key, so
 what is proved holds for every order.
 */
module Labels {
  import opened Dotted
  import opened Options

  datatype Node = Leaf(value: string) | Sub(entries: map<string, Node>)

  type LabelMap = map<string, Node>

  const NS_PROXY := "proxy"

  // ----- nested maps by their paths

  ghost function Lookup(n: Node, p: seq<string>): Option<string>
    decreases |p|
  {
    if p == [] then (if n.Leaf? then Some(n.value) else None)
    else if n.Sub? && p[0] in n.entries then Lookup(n.entries[p[0]], p[1..])
    else None
  }

  // No submap is empty.
  ghost predicate Full(n: Node) {
    n.Sub? ==> n.entries != map[] && forall k :: k in n.entries ==> Full(n.entries[k])
  }

  ghost predicate FullBelow(m: LabelMap) {
    forall k :: k in m ==> Full(m[k])
  }

  ghost predicate ProperPrefix(p: seq<string>, q: seq<string>) {
    |p| < |q| && q[..|p|] == p
  }

  // A nested map cannot hold values at a path and at a longer one.
  lemma {:induction false} NoValueAboveValue(n: Node, p: seq<string>, q: seq<string>)
    requires Lookup(n, p).Some? && Lookup(n, q).Some?
    ensures !ProperPrefix(p, q)
    decreases |p|
  {
    if p != [] && ProperPrefix(p, q) {
      assert q[0] == q[..|p|][0] == p[0];
      assert q[1..][..|p[1..]|] == q[..|p|][1..] == p[1..];
      NoValueAboveValue(n.entries[p[0]], p[1..], q[1..]);
    }
  }

  lemma {:induction false} FullHasLeaf(n: Node) returns (p: seq<string>)
    requires Full(n)
    ensures Lookup(n, p).Some?
    decreases n
  {
    if n.Leaf? {
      p := [];
    } else {
      assert n.entries != map[];
      var k :| k in n.entries;
      var q := FullHasLeaf(n.entries[k]);
      p := [k] + q;
      assert p[1..] == q;
    }
  }

  lemma LookupUnder(n: Node, k: string, q: seq<string>)
    requires n.Sub? && k in n.entries
    ensures Lookup(n, [k] + q) == Lookup(n.entries[k], q)
  {
    assert ([k] + q)[1..] == q;
  }

  // A nested map without empty submaps is determined by the values at its paths.
  lemma {:induction false} SameLookups(a: Node, b: Node)
    requires (a.Sub? ==> FullBelow(a.entries)) && (b.Sub? ==> FullBelow(b.entries))
    requires forall p :: Lookup(a, p) == Lookup(b, p)
    ensures a == b
    decreases a
  {
    assert Lookup(a, []) == Lookup(b, []);
    if a.Sub? && b.Sub? {
      forall k ensures k in a.entries <==> k in b.entries {
        if k in a.entries {
          var q := FullHasLeaf(a.entries[k]);
          LookupUnder(a, k, q);
          assert Lookup(b, [k] + q).Some?;
        }
        if k in b.entries {
          var q := FullHasLeaf(b.entries[k]);
          LookupUnder(b, k, q);
          assert Lookup(a, [k] + q).Some?;
        }
      }
      forall k | k in a.entries ensures a.entries[k] == b.entries[k] {
        forall p ensures Lookup(a.entries[k], p) == Lookup(b.entries[k], p) {
          LookupUnder(a, k, p);
          LookupUnder(b, k, p);
          assert Lookup(a, [k] + p) == Lookup(b, [k] + p);
        }
        SameLookups(a.entries[k], b.entries[k]);
      }
      assert a.entries == b.entries;
    }
  }

  // ----- inserting one label

  // Walks down the parts, making submaps, and sets the value at the last one. A value in the way is an
  // error, after which the walk goes on in the map it was in; an empty value in the way is replaced.
  function Insert(m: LabelMap, parts: seq<string>, value: string): (LabelMap, nat)
    requires parts != []
    decreases |parts|
  {
    var k := parts[0];
    if |parts| == 1 then (m[k := Leaf(value)], 0)
    else if k !in m || m[k] == Leaf("") then
      var (sub, errs) := Insert(map[], parts[1..], value);
      (m[k := Sub(sub)], errs)
    else if m[k].Sub? then
      var (sub, errs) := Insert(m[k].entries, parts[1..], value);
      (m[k := Sub(sub)], errs)
    else
      var (sub, errs) := Insert(m, parts[1..], value);
      (sub, errs + 1)
  }

  // Nothing is in the way: no value on the way to the path, no submap at it.
  ghost predicate Fits(n: Node, p: seq<string>)
    decreases |p|
  {
    if p == [] then n.Leaf? else n.Sub? && (p[0] in n.entries ==> Fits(n.entries[p[0]], p[1..]))
  }

  lemma {:induction false} InsertLookup(m: LabelMap, p: seq<string>, v: string)
    requires p != [] && Fits(Sub(m), p) && FullBelow(m)
    ensures Insert(m, p, v).1 == 0 && FullBelow(Insert(m, p, v).0) && Insert(m, p, v).0 != map[]
    ensures forall q :: Lookup(Sub(Insert(m, p, v).0), q) == if q == p then Some(v) else Lookup(Sub(m), q)
    decreases |p|
  {
    var k, rest := p[0], p[1..];
    var r := Insert(m, p, v).0;
    if |p| == 1 {
      assert r == m[k := Leaf(v)] && k in r;
      forall j | j in r ensures Full(r[j]) {
        assert j != k ==> r[j] == m[j];
      }
      forall q ensures Lookup(Sub(r), q) == if q == p then Some(v) else Lookup(Sub(m), q) {
        LookupLeafStep(m, k, v, q);
      }
    } else {
      var old' := if k in m then m[k].entries else map[];
      assert k in m ==> m[k].Sub? && Full(m[k]) by { if k in m { assert Fits(m[k], rest); } }
      InsertLookup(old', rest, v);
      var sub := Insert(old', rest, v).0;
      assert r == m[k := Sub(sub)] && k in r;
      forall q ensures Lookup(Sub(r), q) == if q == p then Some(v) else Lookup(Sub(m), q) {
        if q != [] && q[0] == k {
          assert q == [k] + q[1..] && p == [k] + rest;
          assert Lookup(Sub(sub), q[1..]) == if q[1..] == rest then Some(v) else Lookup(Sub(old'), q[1..]);
          if k !in m { NothingInEmpty(q[1..]); }
        }
      }
    }
  }

  lemma NothingInEmpty(q: seq<string>)
    ensures Lookup(Sub(map[]), q).None?
  {
  }

  lemma LookupLeafStep(m: LabelMap, k: string, v: string, q: seq<string>)
    requires k in m ==> m[k].Leaf?
    ensures Lookup(Sub(m[k := Leaf(v)]), q) == if q == [k] then Some(v) else Lookup(Sub(m), q)
  {
    if q != [] && q[0] == k {
      assert q == [k] + q[1..];
    }
  }

  // What is in the way of a path is a value above it or below it.
  lemma {:induction false} MisfitHasRival(n: Node, p: seq<string>) returns (r: seq<string>)
    requires !Fits(n, p) && (n.Sub? ==> FullBelow(n.entries)) && (n.Leaf? ==> p != [])
    requires p == [] ==> n.Sub? && n.entries != map[]
    ensures Lookup(n, r).Some? && (ProperPrefix(r, p) || ProperPrefix(p, r))
    decreases |p|
  {
    if n.Leaf? {
      r := [];
    } else if p == [] {
      r := FullHasLeaf(n);
    } else {
      var k := p[0];
      var q := MisfitHasRival(n.entries[k], p[1..]);
      r := [k] + q;
      LookupUnder(n, k, q);
      assert p == [k] + p[1..];
    }
  }

  // ----- label sets

  ghost predicate DotFree(p: seq<string>) {
    forall i :: 0 <= i < |p| ==> '.' !in p[i]
  }

  // The label names a path below "proxy".
  predicate Routed(lbl: string) {
    Split(lbl)[0] == NS_PROXY && |Split(lbl)| > 1
  }

  function PathOf(lbl: string): seq<string>
    requires Routed(lbl)
  {
    Split(lbl)[1..]
  }

  // What the labels want at a path.
  ghost function Wanted(labels: map<string, string>, p: seq<string>): Option<string> {
    if p != [] && DotFree(p) && Join([NS_PROXY] + p) in labels then Some(labels[Join([NS_PROXY] + p)]) else None
  }

  ghost predicate PrefixFree(labels: map<string, string>) {
    forall a, b :: a in labels && b in labels && Routed(a) && Routed(b) ==> !ProperPrefix(PathOf(a), PathOf(b))
  }

  lemma RoutedJoins(lbl: string)
    requires Routed(lbl)
    ensures DotFree(PathOf(lbl)) && PathOf(lbl) != [] && Join([NS_PROXY] + PathOf(lbl)) == lbl
  {
    SplitLabels(lbl);
    JoinSplit(lbl);
    assert [NS_PROXY] + PathOf(lbl) == Split(lbl);
  }

  lemma PathSplits(p: seq<string>)
    requires p != [] && DotFree(p)
    ensures Routed(Join([NS_PROXY] + p)) && PathOf(Join([NS_PROXY] + p)) == p
  {
    SplitJoin([NS_PROXY] + p);
  }

  // One label more wants one value more.
  lemma WantedGrows(labels: map<string, string>, lbl: string, v: string)
    requires Routed(lbl) && lbl !in labels
    ensures forall q :: Wanted(labels[lbl := v], q) == if q == PathOf(lbl) then Some(v) else Wanted(labels, q)
  {
    RoutedJoins(lbl);
    hide Routed, PathOf, Join;
    forall q ensures Wanted(labels[lbl := v], q) == if q == PathOf(lbl) then Some(v) else Wanted(labels, q) {
      if q != [] && DotFree(q) {
        PathSplits(q);
      }
    }
  }

  lemma WantedUnrouted(labels: map<string, string>, lbl: string, v: string)
    requires !Routed(lbl)
    ensures forall q :: Wanted(labels[lbl := v], q) == Wanted(labels, q)
  {
    hide Routed, Join;
    forall q ensures Wanted(labels[lbl := v], q) == Wanted(labels, q) {
      if q != [] && DotFree(q) {
        PathSplits(q);
      }
    }
  }

  // The nested map holds what the labels want, at every path, and no empty submap.
  ghost predicate Holds(m: LabelMap, labels: map<string, string>) {
    FullBelow(m) && forall p :: Lookup(Sub(m), p) == Wanted(labels, p)
  }

  // Where the nested map holds what a prefix-free label set wants, the next label fits.
  lemma NextFits(m: LabelMap, labels: map<string, string>, all: map<string, string>, lbl: string)
    requires Holds(m, labels)
    requires labels.Keys <= all.Keys && lbl in all && Routed(lbl) && PrefixFree(all)
    ensures Fits(Sub(m), PathOf(lbl))
  {
    RoutedJoins(lbl);
    var p := PathOf(lbl);
    if !Fits(Sub(m), p) {
      var r := MisfitHasRival(Sub(m), p);
      assert Wanted(labels, r).Some?;
      PathSplits(r);
    }
  }

  // ----- parsing in an order

  // One label of the loop, with the map and the errors so far.
  function ParseStep(acc: (LabelMap, nat), lbl: string, value: string): (LabelMap, nat) {
    var parts := Split(lbl);
    if parts[0] != NS_PROXY then acc
    else if |parts| == 1 then (acc.0, acc.1 + 1)
    else
      var (grown, more) := Insert(acc.0, parts[1..], value);
      (grown, acc.1 + more)
  }

  const NOTHING: (LabelMap, nat) := (map[], 0)

  function ParseIn(labels: map<string, string>, order: seq<string>): (LabelMap, nat)
    requires forall l :: l in order ==> l in labels
  {
    if order == [] then NOTHING
    else
      var init, last := order[..|order| - 1], order[|order| - 1];
      ParseStep(ParseIn(labels, init), last, labels[last])
  }

  ghost predicate Distinct(order: seq<string>) {
    forall i, j :: 0 <= i < j < |order| ==> order[i] != order[j]
  }

  // The labels, each once.
  ghost predicate IsOrder(labels: map<string, string>, order: seq<string>) {
    Distinct(order) && forall l :: l in order <==> l in labels
  }

  ghost function Only(labels: map<string, string>, order: seq<string>): map<string, string> {
    map l | l in labels && l in order :: labels[l]
  }

  lemma ParseMore(labels: map<string, string>, order: seq<string>, lbl: string)
    requires lbl in labels && forall l :: l in order ==> l in labels
    ensures (forall l :: l in order + [lbl] ==> l in labels)
            && ParseIn(labels, order + [lbl]) == ParseStep(ParseIn(labels, order), lbl, labels[lbl])
  {
    var all := order + [lbl];
    assert all[..|all| - 1] == order && all[|all| - 1] == lbl;
    hide ParseStep;
  }

  lemma DistinctMore(order: seq<string>, lbl: string)
    requires Distinct(order) && lbl !in order
    ensures Distinct(order + [lbl])
  {
  }

  // What every label so far wanted is held, and one more fits.
  lemma StepHolds(labels: map<string, string>, done: map<string, string>, acc: (LabelMap, nat), lbl: string)
    requires PrefixFree(labels) && lbl in labels && lbl !in done && done.Keys <= labels.Keys
    requires Holds(acc.0, done) && acc.1 == if NS_PROXY in done then 1 else 0
    ensures var next, more := ParseStep(acc, lbl, labels[lbl]), done[lbl := labels[lbl]];
            Holds(next.0, more) && next.1 == if NS_PROXY in more then 1 else 0
  {
    hide Lookup, Wanted, Insert, Fits, Full, Split, PrefixFree;
    ProxyIsBare();
    if Split(lbl)[0] != NS_PROXY {
      WantedUnrouted(done, lbl, labels[lbl]);
    } else if |Split(lbl)| == 1 {
      BareIsProxy(lbl);
      WantedUnrouted(done, lbl, labels[lbl]);
    } else {
      WantedGrows(done, lbl, labels[lbl]);
      NextFits(acc.0, done, labels, lbl);
      InsertLookup(acc.0, PathOf(lbl), labels[lbl]);
      assert Split(lbl)[1..] == PathOf(lbl);
      var next := ParseStep(acc, lbl, labels[lbl]);
      forall p ensures Lookup(Sub(next.0), p) == Wanted(done[lbl := labels[lbl]], p) {
        assert Lookup(Sub(acc.0), p) == Wanted(done, p);
      }
    }
  }

  lemma OnlyMore(labels: map<string, string>, order: seq<string>)
    requires order != [] && Distinct(order) && order[|order| - 1] in labels
    ensures var init, last := order[..|order| - 1], order[|order| - 1];
            last !in Only(labels, init) && Only(labels, order) == Only(labels, init)[last := labels[last]]
  {
    var init, last := order[..|order| - 1], order[|order| - 1];
    assert order == init + [last];
  }

  // Whatever the order, a prefix-free set is held label by label.
  lemma {:induction false} ParseHolds(labels: map<string, string>, order: seq<string>)
    requires PrefixFree(labels) && Distinct(order) && forall l :: l in order ==> l in labels
    ensures Holds(ParseIn(labels, order).0, Only(labels, order))
    ensures ParseIn(labels, order).1 == if NS_PROXY in Only(labels, order) then 1 else 0
    decreases |order|
  {
    hide Holds, PrefixFree, ParseStep;
    if order == [] {
      EmptyWants();
      assert Only(labels, order) == map[];
    } else {
      var init, last := order[..|order| - 1], order[|order| - 1];
      ParseHolds(labels, init);
      OnlyMore(labels, order);
      StepHolds(labels, Only(labels, init), ParseIn(labels, init), last);
    }
  }

  lemma OnlyAll(labels: map<string, string>, order: seq<string>)
    requires IsOrder(labels, order)
    ensures Only(labels, order) == labels
  {
  }

  // The labels, each once, in any order. The result holds them all exactly when no path is above another.
  method ParseExpanded(labels: map<string, string>) returns (nested: LabelMap, errs: nat, ghost order: seq<string>)
    ensures IsOrder(labels, order) && (nested, errs) == ParseIn(labels, order)
    ensures Holds(nested, labels) <==> PrefixFree(labels)
    ensures PrefixFree(labels) ==> errs == if NS_PROXY in labels then 1 else 0
  {
    nested, errs, order := map[], 0, [];
    var todo := labels.Keys;
    hide ParseStep, PrefixFree, Holds;
    while todo != {}
      invariant todo <= labels.Keys && Distinct(order) && forall l :: l in order <==> l in labels && l !in todo
      invariant (nested, errs) == ParseIn(labels, order)
      decreases |todo|
    {
      var lbl :| lbl in todo;
      ParseMore(labels, order, lbl);
      DistinctMore(order, lbl);
      nested, errs := ParseOne(nested, errs, lbl, labels[lbl]);
      order := order + [lbl];
      todo := todo - {lbl};
    }
    OnlyAll(labels, order);
    if PrefixFree(labels) {
      ParseHolds(labels, order);
    }
    if Holds(nested, labels) {
      HeldIsPrefixFree(nested, labels);
    }
  }

  // One label of the loop.
  method ParseOne(m: LabelMap, errs: nat, lbl: string, value: string) returns (m': LabelMap, errs': nat)
    ensures (m', errs') == ParseStep((m, errs), lbl, value)
  {
    m', errs' := m, errs;
    var parts := Split(lbl);
    if parts[0] != NS_PROXY {
      return;
    }
    if |parts| == 1 {
      errs' := errs + 1;
      return;
    }
    var (grown, more) := Insert(m, parts[1..], value);
    m', errs' := grown, errs + more;
  }

  lemma EmptyWants()
    ensures Holds(map[], map[])
  {
  }

  lemma ProxyIsBare()
    ensures Split(NS_PROXY) == [NS_PROXY]
  {
    SplitNoDot(NS_PROXY);
  }

  lemma BareIsProxy(lbl: string)
    requires Split(lbl) == [NS_PROXY]
    ensures lbl == NS_PROXY
  {
    JoinSplit(lbl);
  }

  // A nested map that holds every label at its path exists only for a prefix-free set.
  lemma HeldIsPrefixFree(m: LabelMap, labels: map<string, string>)
    requires Holds(m, labels)
    ensures PrefixFree(labels)
  {
    hide Lookup, Split, Join;
    forall a, b | a in labels && b in labels && Routed(a) && Routed(b) ensures !ProperPrefix(PathOf(a), PathOf(b)) {
      RoutedJoins(a);
      RoutedJoins(b);
      assert Lookup(Sub(m), PathOf(a)).Some? && Lookup(Sub(m), PathOf(b)).Some?;
      NoValueAboveValue(Sub(m), PathOf(a), PathOf(b));
    }
  }

  // ----- when the order matters

  // Two orders of a prefix-free set give the same nested map and errors.
  lemma SameInOrders(labels: map<string, string>, o1: seq<string>, o2: seq<string>)
    requires PrefixFree(labels) && IsOrder(labels, o1) && IsOrder(labels, o2)
    ensures ParseIn(labels, o1) == ParseIn(labels, o2)
  {
    hide PrefixFree, ParseIn, Lookup, Wanted;
    ParseHolds(labels, o1);
    ParseHolds(labels, o2);
    OnlyAll(labels, o1);
    OnlyAll(labels, o2);
    var r1, r2 := ParseIn(labels, o1), ParseIn(labels, o2);
    SameLookups(Sub(r1.0), Sub(r2.0));
    assert r1 == (r1.0, r1.1) && r2 == (r2.0, r2.1);
  }

  // No value above the path that would be in the way.
  ghost predicate Clear(m: LabelMap, p: seq<string>)
    requires p != []
    decreases |p|
  {
    || |p| == 1 || p[0] !in m || m[p[0]] == Leaf("")
    || (m[p[0]].Sub? && Clear(m[p[0]].entries, p[1..]))
  }

  lemma {:induction false} ClearWhen(m: LabelMap, p: seq<string>)
    requires p != [] && forall r :: ProperPrefix(r, p) && Lookup(Sub(m), r).Some? ==> Lookup(Sub(m), r) == Some("")
    ensures Clear(m, p)
    decreases |p|
  {
    if |p| > 1 && p[0] in m {
      var n := m[p[0]];
      forall r | ProperPrefix(r, p[1..]) && Lookup(n, r).Some? ensures Lookup(n, r) == Some("") {
        var q := [p[0]] + r;
        LookupUnder(Sub(m), p[0], r);
        assert q == p[..|q|] by { assert p == [p[0]] + p[1..]; }
        assert ProperPrefix(q, p);
      }
      if n.Sub? {
        ClearWhen(n.entries, p[1..]);
      } else {
        assert ProperPrefix([], p[1..]) && Lookup(n, []) == Some(n.value);
      }
    }
  }

  // Then the value gets there without an error, and no other value comes to be.
  lemma {:induction false} InsertClear(m: LabelMap, p: seq<string>, v: string)
    requires p != [] && Clear(m, p)
    ensures Insert(m, p, v).1 == 0 && Lookup(Sub(Insert(m, p, v).0), p) == Some(v)
    ensures forall q :: q != p && Lookup(Sub(Insert(m, p, v).0), q).Some? ==> Lookup(Sub(m), q) == Lookup(Sub(Insert(m, p, v).0), q)
    decreases |p|
  {
    var k, rest := p[0], p[1..];
    var r := Insert(m, p, v).0;
    var below := if k in m && m[k].Sub? then m[k].entries else map[];
    if |p| == 1 {
      assert r == m[k := Leaf(v)] && p == [k];
    } else {
      InsertClear(below, rest, v);
      assert r == m[k := Sub(Insert(below, rest, v).0)];
    }
    forall q ensures q != p && Lookup(Sub(r), q).Some? ==> Lookup(Sub(m), q) == Lookup(Sub(r), q) {
      if q != [] && q[0] == k {
        assert q == [k] + q[1..] && p == [k] + rest;
        if |p| > 1 && q[1..] != rest {
          assert Lookup(Sub(Insert(below, rest, v).0), q[1..]).Some? ==>
            Lookup(Sub(below), q[1..]) == Lookup(Sub(Insert(below, rest, v).0), q[1..]);
          NothingInEmpty(q[1..]);
        }
      }
    }
  }

  // A value above the path that is not empty is an error.
  lemma {:induction false} InsertBlocked(m: LabelMap, a: seq<string>, p: seq<string>, v: string)
    requires a != [] && ProperPrefix(a, p) && Lookup(Sub(m), a).Some? && Lookup(Sub(m), a) != Some("")
    ensures Insert(m, p, v).1 >= 1
    decreases |a|
  {
    assert a[0] == p[..|a|][0] == p[0];
    if |a| > 1 {
      assert p[1..][..|a| - 1] == p[..|a|][1..] == a[1..];
      InsertBlocked(m[p[0]].entries, a[1..], p[1..], v);
    }
  }

  // Every value that is held is that of a label.
  ghost predicate From(m: LabelMap, labels: map<string, string>) {
    forall q :: Lookup(Sub(m), q).Some? ==> Wanted(labels, q) == Lookup(Sub(m), q)
  }

  // A label with nothing in its way.
  lemma StepClear(labels: map<string, string>, acc: (LabelMap, nat), lbl: string)
    requires lbl in labels && From(acc.0, labels)
    requires Routed(lbl) ==> Clear(acc.0, PathOf(lbl))
    ensures var next := ParseStep(acc, lbl, labels[lbl]);
            && From(next.0, labels) && next.1 == acc.1 + (if lbl == NS_PROXY then 1 else 0)
            && (Routed(lbl) ==> Lookup(Sub(next.0), PathOf(lbl)) == Some(labels[lbl]))
  {
    hide Lookup, Insert, Clear, Split;
    ProxyIsBare();
    if Routed(lbl) {
      RoutedJoins(lbl);
      InsertClear(acc.0, PathOf(lbl), labels[lbl]);
      assert Split(lbl)[1..] == PathOf(lbl);
      assert Wanted(labels, PathOf(lbl)) == Some(labels[lbl]);
    } else if Split(lbl)[0] == NS_PROXY {
      assert Split(lbl) == [NS_PROXY];
      BareIsProxy(lbl);
    }
  }

  lemma FromMore(m: LabelMap, labels: map<string, string>, lbl: string)
    requires From(m, labels - {lbl}) && lbl in labels
    ensures From(m, labels)
  {
    hide Lookup, Join;
    forall q | Lookup(Sub(m), q).Some? ensures Wanted(labels, q) == Lookup(Sub(m), q) {
      assert Wanted(labels - {lbl}, q) == Lookup(Sub(m), q);
    }
  }

  lemma WantedIsLabel(labels: map<string, string>, q: seq<string>) returns (l: string)
    requires Wanted(labels, q).Some?
    ensures l in labels && Routed(l) && PathOf(l) == q && Wanted(labels, q) == Some(labels[l])
  {
    l := Join([NS_PROXY] + q);
    PathSplits(q);
  }

  // How deep a label goes.
  function Depth(lbl: string): nat {
    if Routed(lbl) then |PathOf(lbl)| else 0
  }

  lemma {:induction false} Shallowest(ls: set<string>) returns (l: string)
    requires ls != {}
    ensures l in ls && forall k :: k in ls ==> Depth(l) <= Depth(k)
    decreases |ls|
  {
    l :| l in ls;
    if ls != {l} {
      var other := Shallowest(ls - {l});
      assert forall k :: k in ls ==> k == l || k in ls - {l};
      if Depth(other) < Depth(l) {
        l := other;
      }
    }
  }

  lemma NoneAbove(rest: map<string, string>, l: string, r: seq<string>)
    requires |r| < Depth(l) && forall k :: k in rest ==> Depth(l) <= Depth(k)
    ensures Wanted(rest, r).None?
  {
    hide Routed, Wanted;
    if Wanted(rest, r).Some? {
      var k := WantedIsLabel(rest, r);
    }
  }

  lemma ShallowIsClear(rest: map<string, string>, m: LabelMap, l: string)
    requires Routed(l) && PathOf(l) != [] && From(m, rest) && forall k :: k in rest ==> Depth(l) <= Depth(k)
    ensures Clear(m, PathOf(l))
  {
    forall r | ProperPrefix(r, PathOf(l)) ensures Lookup(Sub(m), r).None? {
      NoneAbove(rest, l, r);
    }
    hide Lookup, Wanted, Routed;
    ClearWhen(m, PathOf(l));
  }

  lemma OrderMore(labels: map<string, string>, lbl: string, order: seq<string>)
    requires lbl in labels && IsOrder(labels - {lbl}, order)
    ensures IsOrder(labels, order + [lbl])
    ensures ParseIn(labels, order + [lbl]) == ParseStep(ParseIn(labels - {lbl}, order), lbl, labels[lbl])
  {
    ParseMore(labels, order, lbl);
    SameLabels(labels, labels - {lbl}, order);
  }

  lemma {:induction false} SameLabels(labels: map<string, string>, some: map<string, string>, order: seq<string>)
    requires forall l :: l in order ==> l in some
    requires forall l :: l in some ==> l in labels && labels[l] == some[l]
    ensures ParseIn(labels, order) == ParseIn(some, order)
    decreases |order|
  {
    if order != [] {
      SameLabels(labels, some, order[..|order| - 1]);
    }
  }

  // The deepest labels first: no value is in the way of another.
  lemma {:induction false} DeepestFirst(labels: map<string, string>) returns (order: seq<string>)
    ensures IsOrder(labels, order) && From(ParseIn(labels, order).0, labels)
    ensures ParseIn(labels, order).1 == if NS_PROXY in labels then 1 else 0
    decreases |labels.Keys|
  {
    if labels.Keys == {} {
      order := [];
      NothingFrom(labels);
    } else {
      var l := Shallowest(labels.Keys);
      var rest := labels - {l};
      assert rest.Keys == labels.Keys - {l};
      hide Routed, From, ParseStep, ParseIn, Distinct;
      order := DeepestFirst(rest);
      var acc := ParseIn(rest, order);
      OrderMore(labels, l, order);
      FromMore(acc.0, labels, l);
      if Routed(l) {
        RoutedJoins(l);
        ShallowIsClear(rest, acc.0, l);
      }
      StepClear(labels, acc, l);
      order := order + [l];
    }
  }

  // A label above another.
  ghost predicate Above(labels: map<string, string>, a: string, b: string) {
    a in labels && b in labels && Routed(a) && Routed(b) && ProperPrefix(PathOf(a), PathOf(b))
  }

  // Where labels above others are all empty, no order meets anything in its way.
  lemma {:induction false} EmptyAbove(labels: map<string, string>, order: seq<string>)
    requires forall a, b :: Above(labels, a, b) ==> labels[a] == ""
    requires forall l :: l in order ==> l in labels
    ensures From(ParseIn(labels, order).0, labels)
    ensures order != [] && Routed(order[|order| - 1]) ==>
              Lookup(Sub(ParseIn(labels, order).0), PathOf(order[|order| - 1])).Some?
    decreases |order|
  {
    hide Lookup, Wanted, ParseStep;
    if order == [] {
      NothingFrom(labels);
    } else {
      var init, l := order[..|order| - 1], order[|order| - 1];
      EmptyAbove(labels, init);
      var acc := ParseIn(labels, init);
      if Routed(l) {
        forall r | ProperPrefix(r, PathOf(l)) && Lookup(Sub(acc.0), r).Some? ensures Lookup(Sub(acc.0), r) == Some("") {
          var k := WantedIsLabel(labels, r);
          assert Above(labels, k, l);
        }
        RoutedJoins(l);
        ClearWhen(acc.0, PathOf(l));
      }
      StepClear(labels, acc, l);
    }
  }

  lemma NothingFrom(labels: map<string, string>)
    ensures From(map[], labels)
  {
    forall q ensures Lookup(Sub(map[]), q).None? { NothingInEmpty(q); }
  }

  lemma StepErrs(acc: (LabelMap, nat), lbl: string, value: string)
    ensures ParseStep(acc, lbl, value).1 >= acc.1 + if lbl == NS_PROXY then 1 else 0
  {
    hide Split, Insert;
    ProxyIsBare();
    var parts := Split(lbl);
    if parts[0] == NS_PROXY && |parts| > 1 {
      var (grown, more) := Insert(acc.0, parts[1..], value);
      assert ParseStep(acc, lbl, value) == (grown, acc.1 + more);
    }
  }

  // Errors add up.
  lemma {:induction false} ErrsGrow(labels: map<string, string>, first: seq<string>, order: seq<string>)
    requires forall l :: l in first + order ==> l in labels
    ensures ParseIn(labels, first + order).1 >= ParseIn(labels, first).1 + if NS_PROXY in order then 1 else 0
    decreases |order|
  {
    if order == [] {
      assert first + order == first;
    } else {
      var init, last := order[..|order| - 1], order[|order| - 1];
      assert first + order == first + init + [last] && order == init + [last];
      ErrsGrow(labels, first, init);
      ParseMore(labels, first + init, last);
      StepErrs(ParseIn(labels, first + init), last, labels[last]);
      hide ParseIn, ParseStep;
    }
  }

  // A label that is not empty, and then one below it: an error.
  lemma BlockedPair(labels: map<string, string>, a: string, b: string)
    requires Above(labels, a, b) && labels[a] != ""
    ensures ParseIn(labels, [a, b]).1 >= 1
  {
    hide Lookup, Clear, Wanted, Split, Insert;
    assert [a, b][..1] == [a] && [a][..0] == [];
    assert ParseIn(labels, [a]) == ParseStep(NOTHING, a, labels[a]);
    var acc := ParseIn(labels, [a]);
    assert ParseIn(labels, [a, b]) == ParseStep(acc, b, labels[b]);
    NothingFrom(labels);
    RoutedJoins(a);
    ClearAtStart(PathOf(a));
    StepClear(labels, NOTHING, a);
    InsertBlocked(acc.0, PathOf(a), PathOf(b), labels[b]);
    assert Split(b)[1..] == PathOf(b);
  }

  lemma ClearAtStart(p: seq<string>)
    requires p != []
    ensures Clear(map[], p)
  {
  }

  lemma PairFirst(labels: map<string, string>, a: string, b: string, rest: seq<string>)
    requires a in labels && b in labels && a != b && IsOrder(labels - {a, b}, rest)
    ensures IsOrder(labels, [a, b] + rest)
  {
    var order := [a, b] + rest;
    forall i, j | 0 <= i < j < |order| ensures order[i] != order[j] {
      assert j >= 2 ==> rest[j - 2] in rest;
    }
    forall l ensures l in order <==> l in labels {
      assert l in order <==> l == a || l == b || l in rest;
    }
  }

  // Two orders of a set in which a path is above another that do not give the same map and errors: if the value above is
  // not empty it can be an error or not, and if it is it is there or not.
  lemma OrdersDiffer(labels: map<string, string>, a: string, b: string) returns (o1: seq<string>, o2: seq<string>)
    requires Above(labels, a, b) && (labels[a] == "" ==> forall k, l :: Above(labels, k, l) ==> labels[k] == "")
    ensures IsOrder(labels, o1) && IsOrder(labels, o2) && ParseIn(labels, o1) != ParseIn(labels, o2)
  {
    hide ParseStep, Lookup, Wanted, Split, ParseIn;
    if labels[a] != "" {
      o1 := DeepestFirst(labels);
      var rest := DeepestFirst(labels - {a, b});
      PairFirst(labels, a, b, rest);
      o2 := [a, b] + rest;
      BlockedPair(labels, a, b);
      ErrsGrow(labels, [a, b], rest);
      ProxyIsBare();
      assert a != NS_PROXY && b != NS_PROXY;
      assert NS_PROXY in rest <==> NS_PROXY in labels;
    } else {
      o1 := DeepestFirst(labels - {a});
      o2 := DeepestFirst(labels - {b});
      OrderMore(labels, a, o1);
      OrderMore(labels, b, o2);
      o1, o2 := o1 + [a], o2 + [b];
      EmptyAbove(labels, o1);
      EmptyAbove(labels, o2);
      var m1, m2 := ParseIn(labels, o1).0, ParseIn(labels, o2).0;
      if m1 == m2 {
        NoValueAboveValue(Sub(m1), PathOf(a), PathOf(b));
      }
    }
  }

  // All orders of the labels give one nested map and one number of errors.
  ghost predicate OneWay(labels: map<string, string>) {
    forall o1, o2 :: IsOrder(labels, o1) && IsOrder(labels, o2) ==> ParseIn(labels, o1) == ParseIn(labels, o2)
  }

  // That is so exactly when no path is above another.
  lemma OrderMattersIff(labels: map<string, string>)
    ensures OneWay(labels) <==> PrefixFree(labels)
  {
    hide ParseIn, ProperPrefix, Routed;
    if PrefixFree(labels) {
      forall o1, o2 | IsOrder(labels, o1) && IsOrder(labels, o2) ensures ParseIn(labels, o1) == ParseIn(labels, o2) {
        SameInOrders(labels, o1, o2);
      }
    } else {
      var a, b :| a in labels && b in labels && Routed(a) && Routed(b) && ProperPrefix(PathOf(a), PathOf(b));
      assert Above(labels, a, b);
      hide PrefixFree, Above, IsOrder;
      if k, l :| Above(labels, k, l) && labels[k] != "" {
        a, b := k, l;
      }
      var o1, o2 := OrdersDiffer(labels, a, b);
    }
  }

  // An instance: the order decides what the map holds and whether there is an error; and after the error the value lands at
  // a path that no label names.
  lemma OrderMatters()
    ensures var labels := map["proxy.a" := "x", "proxy.a.b" := "y"];
            && ParseIn(labels, ["proxy.a", "proxy.a.b"]) == (map["a" := Leaf("x"), "b" := Leaf("y")], 1)
            && ParseIn(labels, ["proxy.a.b", "proxy.a"]) == (map["a" := Leaf("x")], 0)
  {
    var labels := map["proxy.a" := "x", "proxy.a.b" := "y"];
    LiteralSplits();
    hide ParseIn, ParseStep, Insert, Split;
    LiteralInserts();
    assert ["proxy", "a"][1..] == ["a"] && ["proxy", "a", "b"][1..] == ["a", "b"];
    TwoInOrder(labels, "proxy.a", "proxy.a.b");
    TwoInOrder(labels, "proxy.a.b", "proxy.a");
    StepOf(map[], 0, "proxy.a", "x", ["a"]);
    StepOf(map["a" := Leaf("x")], 0, "proxy.a.b", "y", ["a", "b"]);
    StepOf(map[], 0, "proxy.a.b", "y", ["a", "b"]);
    StepOf(map["a" := Sub(map["b" := Leaf("y")])], 0, "proxy.a", "x", ["a"]);
  }

  lemma StepOf(m: LabelMap, errs: nat, lbl: string, value: string, parts: seq<string>)
    requires Split(lbl)[0] == NS_PROXY && Split(lbl)[1..] == parts && parts != []
    ensures ParseStep((m, errs), lbl, value) == (Insert(m, parts, value).0, errs + Insert(m, parts, value).1)
  {
  }

  lemma LiteralSplits()
    ensures Split("proxy.a") == ["proxy", "a"] && Split("proxy.a.b") == ["proxy", "a", "b"]
  {
    hide Split;
    SplitNoDot("a");
    SplitNoDot("b");
    SplitLiteral("a", "b", "a.b");
    SplitLiteral("proxy", "a", "proxy.a");
    SplitLiteral("proxy", "a.b", "proxy.a.b");
  }

  lemma SplitLiteral(head: string, rest: string, whole: string)
    requires '.' !in head && whole == head + "." + rest
    ensures Split(whole) == [head] + Split(rest)
  {
    SplitFirst(head, rest);
  }

  lemma LiteralInserts()
    ensures Insert(map[], ["a"], "x") == (map["a" := Leaf("x")], 0)
    ensures Insert(map["a" := Leaf("x")], ["a", "b"], "y") == (map["a" := Leaf("x"), "b" := Leaf("y")], 1)
    ensures Insert(map[], ["a", "b"], "y") == (map["a" := Sub(map["b" := Leaf("y")])], 0)
    ensures Insert(map["a" := Sub(map["b" := Leaf("y")])], ["a"], "x") == (map["a" := Leaf("x")], 0)
  {
    assert ["a", "b"][1..] == ["b"];
    InsertLast(map[], "a", "x");
    InsertLast(map["a" := Leaf("x")], "b", "y");
    InsertLast(map[], "b", "y");
    InsertLast(map["a" := Sub(map["b" := Leaf("y")])], "a", "x");
    assert map["a" := Leaf("x")]["b" := Leaf("y")] == map["a" := Leaf("x"), "b" := Leaf("y")];
    assert map["a" := Sub(map["b" := Leaf("y")])]["a" := Leaf("x")] == map["a" := Leaf("x")];
  }

  lemma InsertLast(m: LabelMap, k: string, v: string)
    ensures Insert(m, [k], v) == (m[k := Leaf(v)], 0)
  {
  }

  lemma TwoInOrder(labels: map<string, string>, a: string, b: string)
    requires a in labels && b in labels
    ensures ParseIn(labels, [a, b]) == ParseStep(ParseStep(NOTHING, a, labels[a]), b, labels[b])
  {
    hide ParseStep;
    var none: seq<string> := [];
    assert none + [a] == [a] && [a] + [b] == [a, b];
    ParseMore(labels, none, a);
    ParseMore(labels, [a], b);
    assert ParseIn(labels, none) == NOTHING;
    assert ParseIn(labels, [a]) == ParseStep(NOTHING, a, labels[a]);
    assert ParseIn(labels, [a, b]) == ParseStep(ParseIn(labels, [a]), b, labels[b]);
  }

  // ----- flattening

  // Keys that survive being joined with dots.
  ghost predicate PlainKeys(n: Node) {
    n.Sub? ==> forall k :: k in n.entries ==> k != "" && '.' !in k && PlainKeys(n.entries[k])
  }

  lemma {:induction false} PlainPaths(n: Node, p: seq<string>)
    requires PlainKeys(n) && Lookup(n, p).Some?
    ensures DotFree(p) && forall i :: 0 <= i < |p| ==> p[i] != ""
    decreases |p|
  {
    if p != [] {
      PlainPaths(n.entries[p[0]], p[1..]);
      assert p == [p[0]] + p[1..];
    }
  }

  // The flat key of a path.
  function Key(prefix: string, p: seq<string>): string
    requires p != []
  {
    if prefix == "" then Join(p) else prefix + "." + Join(p)
  }

  lemma KeyUnder(prefix: string, k: string, p: seq<string>)
    requires p != [] && k != ""
    ensures Key(prefix, [k] + p) == Key(Key(prefix, [k]), p) && Key(prefix, [k]) != ""
  {
    assert ([k] + p)[1..] == p;
  }

  lemma KeyInjective(prefix: string, p: seq<string>, q: seq<string>)
    requires p != [] && q != [] && DotFree(p) && DotFree(q) && Key(prefix, p) == Key(prefix, q)
    ensures p == q
  {
    SplitJoin(p);
    SplitJoin(q);
    if prefix != "" {
      assert Join(p) == Key(prefix, p)[|prefix| + 1..] == Key(prefix, q)[|prefix| + 1..] == Join(q);
    }
  }

  // dest' is dest with the value of every path of src that starts in `keys` written at its flat key.
  ghost predicate Flattened(prefix: string, src: LabelMap, keys: set<string>, dest: map<string, string>, dest': map<string, string>) {
    && (forall p :: p != [] && p[0] in keys && Lookup(Sub(src), p).Some? ==>
          Key(prefix, p) in dest' && Some(dest'[Key(prefix, p)]) == Lookup(Sub(src), p))
    && (forall f :: f in dest' ==> Wrote(prefix, src, keys, f) || (f in dest && dest'[f] == dest[f]))
    && (forall f :: f in dest ==> f in dest' && (dest'[f] == dest[f] || Wrote(prefix, src, keys, f)))
  }

  ghost predicate Wrote(prefix: string, src: LabelMap, keys: set<string>, f: string) {
    exists p :: p != [] && p[0] in keys && Lookup(Sub(src), p).Some? && Key(prefix, p) == f
  }

  lemma FlattenedAtStart(prefix: string, src: LabelMap, dest: map<string, string>)
    ensures Flattened(prefix, src, {}, dest, dest)
  {
  }

  lemma WroteMore(prefix: string, src: LabelMap, keys: set<string>, k: string, f: string)
    ensures Wrote(prefix, src, keys, f) ==> Wrote(prefix, src, keys + {k}, f)
  {
    if Wrote(prefix, src, keys, f) {
      var p :| p != [] && p[0] in keys && Lookup(Sub(src), p).Some? && Key(prefix, p) == f;
      assert p[0] in keys + {k};
    }
  }

  // The paths that start at k are written and nothing before them is lost.
  lemma FlattenLeaf(prefix: string, src: LabelMap, keys: set<string>, k: string, dest: map<string, string>, now: map<string, string>)
    requires PlainKeys(Sub(src)) && k in src && k !in keys && src[k].Leaf? && Flattened(prefix, src, keys, dest, now)
    ensures Flattened(prefix, src, keys + {k}, dest, now[Key(prefix, [k]) := src[k].value])
  {
    var f0 := Key(prefix, [k]);
    var next := now[f0 := src[k].value];
    forall f ensures Wrote(prefix, src, keys, f) ==> Wrote(prefix, src, keys + {k}, f) { WroteMore(prefix, src, keys, k, f); }
    LookupUnder(Sub(src), k, []);
    assert [k] + [] == [k];
    assert Wrote(prefix, src, keys + {k}, f0);
    forall p | p != [] && p[0] in keys + {k} && Lookup(Sub(src), p).Some?
      ensures Key(prefix, p) in next && Some(next[Key(prefix, p)]) == Lookup(Sub(src), p)
    {
      PlainPaths(Sub(src), p);
      PlainPaths(Sub(src), [k]);
      if p[0] == k {
        assert p == [k] + p[1..];
        LookupUnder(Sub(src), k, p[1..]);
        assert p[1..] == [];
        assert p == [k];
      } else if Key(prefix, p) == f0 {
        KeyInjective(prefix, p, [k]);
      }
    }
  }

  lemma WroteUnder(prefix: string, src: LabelMap, k: string, f: string)
    requires PlainKeys(Sub(src)) && k in src && src[k].Sub?
    requires Wrote(Key(prefix, [k]), src[k].entries, src[k].entries.Keys, f)
    ensures Wrote(prefix, src, {k}, f)
  {
    var sub := src[k].entries;
    var p :| p != [] && p[0] in sub.Keys && Lookup(Sub(sub), p).Some? && Key(Key(prefix, [k]), p) == f;
    LookupUnder(Sub(src), k, p);
    KeyUnder(prefix, k, p);
    var q := [k] + p;
    assert q != [] && q[0] in {k} && Lookup(Sub(src), q).Some? && Key(prefix, q) == f;
  }

  lemma WroteOther(prefix: string, src: LabelMap, keys: set<string>, k: string, f: string)
    requires PlainKeys(Sub(src)) && k !in keys && Wrote(prefix, src, {k}, f)
    ensures !Wrote(prefix, src, keys, f) && Wrote(prefix, src, keys + {k}, f)
  {
    var p :| p != [] && p[0] in {k} && Lookup(Sub(src), p).Some? && Key(prefix, p) == f;
    assert p[0] in keys + {k};
    forall q | q != [] && q[0] in keys && Lookup(Sub(src), q).Some? ensures Key(prefix, q) != f {
      PlainPaths(Sub(src), p);
      PlainPaths(Sub(src), q);
      if Key(prefix, q) == f {
        KeyInjective(prefix, p, q);
      }
    }
  }

  lemma FlattenSub(prefix: string, src: LabelMap, keys: set<string>, k: string,
                   dest: map<string, string>, now: map<string, string>, next: map<string, string>)
    requires PlainKeys(Sub(src)) && k in src && k !in keys && src[k].Sub? && Flattened(prefix, src, keys, dest, now)
    requires Flattened(Key(prefix, [k]), src[k].entries, src[k].entries.Keys, now, next)
    ensures Flattened(prefix, src, keys + {k}, dest, next)
  {
    var sub := src[k].entries;
    forall f ensures Wrote(prefix, src, keys, f) ==> Wrote(prefix, src, keys + {k}, f) { WroteMore(prefix, src, keys, k, f); }
    forall f | Wrote(Key(prefix, [k]), sub, sub.Keys, f)
      ensures !Wrote(prefix, src, keys, f) && Wrote(prefix, src, keys + {k}, f)
    {
      WroteUnder(prefix, src, k, f);
      WroteOther(prefix, src, keys, k, f);
    }
    forall p | p != [] && p[0] in keys + {k} && Lookup(Sub(src), p).Some?
      ensures Key(prefix, p) in next && Some(next[Key(prefix, p)]) == Lookup(Sub(src), p)
    {
      if p[0] == k {
        var q := p[1..];
        assert p == [k] + q;
        LookupUnder(Sub(src), k, q);
        assert q != [];
        KeyUnder(prefix, k, q);
        assert Lookup(Sub(sub), q).Some? && q[0] in sub.Keys;
      } else {
        var f := Key(prefix, p);
        assert Wrote(prefix, src, keys, f);
        assert f in now && Some(now[f]) == Lookup(Sub(src), p);
        assert !Wrote(Key(prefix, [k]), sub, sub.Keys, f);
      }
    }
  }

  // Writes the leaves of src below a prefix into dest, in any order of the keys.
  method FlattenMap(prefix: string, src: LabelMap, dest: map<string, string>) returns (dest': map<string, string>)
    requires PlainKeys(Sub(src))
    ensures Flattened(prefix, src, src.Keys, dest, dest')
    decreases Sub(src), 0
  {
    dest' := dest;
    var todo := src.Keys;
    FlattenedAtStart(prefix, src, dest);
    assert src.Keys - todo == {};
    while todo != {}
      invariant todo <= src.Keys && Flattened(prefix, src, src.Keys - todo, dest, dest')
      decreases |todo|
    {
      var k :| k in todo;
      assert PlainKeys(src[k]) && Sub(src).entries == src;
      ghost var keys := src.Keys - todo;
      dest' := FlattenEntry(prefix, src, k, keys, dest, dest');
      todo := todo - {k};
      assert src.Keys - todo == keys + {k};
    }
    assert src.Keys - todo == src.Keys;
  }

  method FlattenEntry(prefix: string, src: LabelMap, k: string, ghost keys: set<string>, ghost dest: map<string, string>, now: map<string, string>)
    returns (next: map<string, string>)
    requires PlainKeys(Sub(src)) && k in src && k !in keys && Flattened(prefix, src, keys, dest, now)
    ensures Flattened(prefix, src, keys + {k}, dest, next)
    decreases src[k], 1
  {
    var key := if prefix == "" then k else prefix + "." + k;
    assert key == Key(prefix, [k]);
    match src[k]
    case Leaf(v) =>
      next := now[key := v];
      FlattenLeaf(prefix, src, keys, k, dest, now);
    case Sub(entries) =>
      next := FlattenMap(key, entries, now);
      FlattenSub(prefix, src, keys, k, dest, now, next);
  }

  // ----- flattening and parsing back

  function LabelOf(f: string): string {
    NS_PROXY + "." + f
  }

  // The labels that the flat keys stand for.
  function Prefixed(flat: map<string, string>): (labels: map<string, string>)
    ensures forall f :: f in flat <==> LabelOf(f) in labels
    ensures forall f :: f in flat ==> labels[LabelOf(f)] == flat[f]
    ensures NS_PROXY !in labels
  {
    var names := set f | f in flat :: LabelOf(f);
    assert forall f :: LabelOf(f)[|NS_PROXY| + 1..] == f;
    assert forall f :: f in flat ==> LabelOf(f) in names;
    map l | l in names :: flat[l[|NS_PROXY| + 1..]]
  }

  lemma PrefixedKey(p: seq<string>)
    requires p != []
    ensures Join([NS_PROXY] + p) == LabelOf(Key("", p))
  {
    assert ([NS_PROXY] + p)[1..] == p;
  }

  lemma FlatHolds(m: LabelMap, flat: map<string, string>)
    requires PlainKeys(Sub(m)) && FullBelow(m) && Flattened("", m, m.Keys, map[], flat)
    ensures Holds(m, Prefixed(flat))
  {
    hide Prefixed;
    var labels := Prefixed(flat);
    forall p ensures Lookup(Sub(m), p) == Wanted(labels, p) {
      if p != [] {
        PrefixedKey(p);
        if Lookup(Sub(m), p).Some? {
          PlainPaths(Sub(m), p);
          assert Key("", p) in flat;
        } else if Wanted(labels, p).Some? {
          assert Wrote("", m, m.Keys, Key("", p));
          var q :| q != [] && q[0] in m.Keys && Lookup(Sub(m), q).Some? && Key("", q) == Key("", p);
          PlainPaths(Sub(m), q);
          KeyInjective("", p, q);
        }
      }
    }
  }

  // Flattening a nested map and parsing the labels gives the map back, without an error.
  method FlattenAndParse(m: LabelMap) returns (nested: LabelMap, errs: nat)
    requires PlainKeys(Sub(m)) && FullBelow(m)
    ensures nested == m && errs == 0
  {
    var flat := FlattenMap("", m, map[]);
    FlatHolds(m, flat);
    HeldIsPrefixFree(m, Prefixed(flat));
    ghost var order;
    nested, errs, order := ParseExpanded(Prefixed(flat));
    SameLookups(Sub(nested), Sub(m));
  }
}
