/**
 Server-name matching: a map of exact names and a heap tree of wildcard suffixes.

 The specification, LinearMatch, scans the registered names in order and compares strings; it
 knows of no labels and no tree.
 */
module SniMatching {
  import opened Chars
  import opened Dotted
  import opened Options

  // The names of a leaf certificate; a provider without a usable certificate has no leaf.
  datatype Leaf = Leaf(commonName: string, dnsNames: seq<string>)

  datatype Provider = Provider(id: nat, leaf: Option<Leaf>)

  // ----- names

  function LowerChar(c: char): char {
    if 'A' <= c <= 'Z' then c - 'A' + 'a' else c
  }

  function Lower(s: string): string {
    seq(|s|, i requires 0 <= i < |s| => LowerChar(s[i]))
  }

  function Normalize(s: string): string {
    var t := TrimSpace(s);
    Lower(if t != "" && t[|t| - 1] == '.' then t[..|t| - 1] else t)
  }

  // ----- the specification

  datatype Entry = Entry(name: string, provider: Provider)

  // The names a provider registers, in order.
  function Entries(p: Provider): seq<Entry> {
    if p.leaf.None? then []
    else (if p.leaf.value.commonName != "" then [Entry(p.leaf.value.commonName, p)] else [])
         + NameEntries(p.leaf.value.dnsNames, p)
  }

  function NameEntries(names: seq<string>, p: Provider): seq<Entry> {
    if names == [] then [] else NameEntries(names[..|names| - 1], p) + [Entry(names[|names| - 1], p)]
  }

  predicate IsWildcard(name: string) {
    |name| >= 2 && name[0] == '*' && name[1] == '.'
  }

  lemma EntriesOf(p: Provider, before: seq<Entry>)
    requires p.leaf.Some?
    ensures before + Entries(p) ==
            (if p.leaf.value.commonName != "" then before + [Entry(p.leaf.value.commonName, p)] else before)
            + NameEntries(p.leaf.value.dnsNames, p)
  {
  }

  lemma NoNames(before: seq<Entry>, names: seq<string>, p: Provider)
    ensures before + NameEntries(names[..0], p) == before
  {
  }

  lemma MoreNames(before: seq<Entry>, names: seq<string>, i: nat, p: Provider)
    requires i < |names|
    ensures before + NameEntries(names[..i + 1], p) == before + NameEntries(names[..i], p) + [Entry(names[i], p)]
  {
    assert names[..i + 1][..i] == names[..i];
  }

  // The registered name is, after normalization, this very name.
  predicate NamesExactly(e: Entry, name: string) {
    var n := Normalize(e.name);
    n != "" && !IsWildcard(n) && n == name
  }

  // The name is one label in front of the suffix.
  ghost predicate OneLabelBefore(name: string, suffix: string) {
    exists head: string :: '.' !in head && name == head + "." + suffix
  }

  function FirstExact(entries: seq<Entry>, name: string): Option<Provider> {
    if entries == [] then None
    else
      var before := FirstExact(entries[..|entries| - 1], name);
      var e := entries[|entries| - 1];
      if before.None? && NamesExactly(e, name) then Some(e.provider) else before
  }

  // The first entry, in registration order, that is a wildcard over the name.
  ghost function FirstWildcard(entries: seq<Entry>, name: string): Option<Provider> {
    if entries == [] then None
    else
      var n := Normalize(entries[0].name);
      if IsWildcard(n) && n[2..] != "" && OneLabelBefore(name, n[2..]) then Some(entries[0].provider)
      else FirstWildcard(entries[1..], name)
  }

  ghost function LinearMatch(entries: seq<Entry>, serverName: string): Option<Provider> {
    var name := Normalize(serverName);
    if name == "" then None
    else if FirstExact(entries, name).Some? then FirstExact(entries, name)
    else FirstWildcard(entries, name)
  }

  // FirstExact is the first in registration order.
  lemma {:induction false} FirstExactIsFirst(entries: seq<Entry>, name: string)
    ensures match FirstExact(entries, name)
            case Some(p) => exists i :: 0 <= i < |entries| && entries[i].provider == p && NamesExactly(entries[i], name)
                                        && forall j :: 0 <= j < i ==> !NamesExactly(entries[j], name)
            case None => forall j :: 0 <= j < |entries| ==> !NamesExactly(entries[j], name)
  {
    hide NamesExactly;
    if entries != [] {
      var init := entries[..|entries| - 1];
      FirstExactIsFirst(init, name);
      if FirstExact(init, name).Some? {
        var i :| 0 <= i < |init| && init[i].provider == FirstExact(init, name).value && NamesExactly(init[i], name)
                 && forall j :: 0 <= j < i ==> !NamesExactly(init[j], name);
        assert entries[i] == init[i] && forall j :: 0 <= j < i ==> entries[j] == init[j];
      } else {
        assert forall j :: 0 <= j < |init| ==> entries[j] == init[j];
      }
    }
  }

  // Matching on labels is matching on strings.
  lemma OneLabelBeforeIsTail(name: string, suffix: string)
    ensures OneLabelBefore(name, suffix) <==> |Split(name)| > 1 && Split(name)[1..] == Split(suffix)
  {
    var labels := Split(name);
    if OneLabelBefore(name, suffix) {
      var head: string :| '.' !in head && name == head + "." + suffix;
      SplitFirst(head, suffix);
    }
    if |labels| > 1 && labels[1..] == Split(suffix) {
      JoinSplit(name);
      JoinSplit(suffix);
      SplitLabels(name);
      assert name == labels[0] + "." + suffix;
    }
  }

  // ----- label paths, as the tree is walked: from the rightmost label down

  datatype Path = Root | Under(head: string, parent: Path)

  ghost function PathFrom(labels: seq<string>, i: nat): Path
    requires i <= |labels|
    decreases |labels| - i
  {
    if i == |labels| then Root else Under(labels[i], PathFrom(labels, i + 1))
  }

  ghost function PathOf(suffix: string): Path {
    PathFrom(Split(suffix), 0)
  }

  // The registered name is, after normalization, "*." and a suffix with these labels.
  ghost predicate NamesPath(e: Entry, path: Path) {
    var n := Normalize(e.name);
    IsWildcard(n) && n[2..] != "" && PathOf(n[2..]) == path
  }

  ghost function FirstPath(entries: seq<Entry>, path: Path): Option<Provider> {
    if entries == [] then None
    else
      var before := FirstPath(entries[..|entries| - 1], path);
      var e := entries[|entries| - 1];
      if before.None? && NamesPath(e, path) then Some(e.provider) else before
  }

  lemma {:induction false} SamePath(a: seq<string>, i: nat, b: seq<string>, j: nat)
    requires i <= |a| && j <= |b|
    ensures PathFrom(a, i) == PathFrom(b, j) <==> a[i..] == b[j..]
    decreases |a| - i
  {
    if i < |a| && j < |b| {
      SamePath(a, i + 1, b, j + 1);
      assert a[i..] == [a[i]] + a[i + 1..] && b[j..] == [b[j]] + b[j + 1..];
    }
  }

  // A name is one label in front of a suffix exactly when dropping its first label leaves the suffix's path.
  lemma OneLabelBeforeIsPath(name: string, suffix: string)
    ensures OneLabelBefore(name, suffix) <==> |Split(name)| > 1 && PathFrom(Split(name), 1) == PathOf(suffix)
  {
    OneLabelBeforeIsTail(name, suffix);
    SamePath(Split(name), 1, Split(suffix), 0);
    assert Split(suffix)[0..] == Split(suffix);
  }

  // The first wildcard over a name is the first one for the name without its leftmost label.
  lemma {:induction false} FirstWildcardByPath(entries: seq<Entry>, name: string)
    ensures FirstWildcard(entries, name) == if |Split(name)| > 1 then FirstPath(entries, PathFrom(Split(name), 1)) else None
    decreases |entries|
  {
    hide Split, OneLabelBefore, Normalize, PathOf, PathFrom;
    if entries != [] {
      FirstWildcardByPath(entries[1..], name);
      if |Split(name)| > 1 {
        FirstPathHead(entries, PathFrom(Split(name), 1));
      }
      var n := Normalize(entries[0].name);
      if IsWildcard(n) {
        OneLabelBeforeIsPath(name, n[2..]);
      }
    }
  }

  lemma {:induction false} FirstPathHead(entries: seq<Entry>, path: Path)
    requires entries != []
    ensures FirstPath(entries, path) ==
            if NamesPath(entries[0], path) then Some(entries[0].provider) else FirstPath(entries[1..], path)
    decreases |entries|
  {
    hide NamesPath;
    if |entries| > 1 {
      var init := entries[..|entries| - 1];
      FirstPathHead(init, path);
      assert init[1..] == entries[1..][..|entries[1..]| - 1];
    } else {
      assert entries[..0] == [] && entries[1..] == [];
    }
  }

  // ----- the heap tree

  // Where the walk breaks off, no longer path exists.
  lemma {:induction false} NotFound(paths: set<Path>, labels: seq<string>, i: nat, j: nat)
    requires forall p, l :: Under(l, p) in paths ==> p in paths
    requires j < i <= |labels| && PathFrom(labels, i - 1) !in paths
    ensures PathFrom(labels, j) !in paths
    decreases i - j
  {
    if j + 1 < i {
      NotFound(paths, labels, i, j + 1);
    }
  }

  class TreeNode {
    var children: map<string, TreeNode>
    var wildcard: Option<Provider>
    ghost const path: Path

    constructor (ghost path: Path)
      ensures children == map[] && wildcard.None? && this.path == path
    {
      children, wildcard, this.path := map[], None, path;
    }
  }

  class SniMatcher {
    var exact: map<string, Provider>
    const root: TreeNode
    // What was registered so far, and the tree's nodes by their paths.
    ghost var entries: seq<Entry>
    ghost var nodes: map<Path, TreeNode>

    // The nodes form a tree: each path has its own node, and the children of a node are the paths one label longer.
    ghost predicate ValidTree()
      reads this`nodes, nodes.Values`children
    {
      && Root in nodes && nodes[Root] == root
      && (forall p :: p in nodes ==> nodes[p].path == p)
      && (forall p, l :: Linked(p, l))
    }

    // A path one label longer has a node exactly when the node of the path has a child for the label: that node.
    ghost predicate Linked(p: Path, l: string)
      reads this`nodes, nodes.Values`children
    {
      && (Under(l, p) in nodes <==> p in nodes && l in nodes[p].children)
      && (Under(l, p) in nodes ==> nodes[p].children[l] == nodes[Under(l, p)])
    }

    lemma OwnNodes()
      requires ValidTree()
      ensures forall q :: q in nodes ==> nodes[q].path == q
    {
      hide Linked;
    }

    lemma LinkedAt(p: Path, l: string)
      requires ValidTree()
      ensures Linked(p, l)
    {
      hide Linked;
    }

    // Where a path has no node, a longer one has none.
    lemma PathsClosed()
      requires ValidTree()
      ensures forall p, l :: Under(l, p) in nodes ==> p in nodes
    {
      forall p, l ensures Under(l, p) in nodes ==> p in nodes {
        LinkedAt(p, l);
      }
    }

    ghost function Wild(path: Path): Option<Provider>
      reads this`nodes, nodes.Values`wildcard
    {
      if path in nodes then nodes[path].wildcard else None
    }

    ghost predicate Valid()
      reads this, nodes.Values
    {
      && ValidTree()
      && (forall n :: n in exact <==> FirstExact(entries, n).Some?)
      && (forall n :: n in exact ==> FirstExact(entries, n) == Some(exact[n]))
      && (forall path :: Wild(path) == FirstPath(entries, path))
    }

    constructor ()
      ensures Valid() && entries == [] && fresh(nodes.Values)
    {
      exact := map[];
      root := new TreeNode(Root);
      entries := [];
      new;
      nodes := map[Root := root];
    }

    // The first provider registered for a name wins.
    method InsertExact(name: string, p: Provider)
      modifies this`exact
      ensures exact == if name in old(exact) then old(exact) else old(exact)[name := p]
    {
      if name !in exact {
        exact := exact[name := p];
      }
    }

    // Hangs a new node under the node of path.
    method AddChild(n: TreeNode, l: string, ghost path: Path) returns (next: TreeNode)
      requires ValidTree() && path in nodes && nodes[path] == n && l !in n.children
      modifies this`nodes, n`children
      ensures ValidTree() && fresh(next) && nodes == old(nodes)[Under(l, path) := next]
      ensures next.wildcard.None? && Under(l, path) !in old(nodes)
    {
      OwnNodes();
      LinkedAt(path, l);
      next := new TreeNode(Under(l, path));
      n.children := n.children[l := next];
      nodes := nodes[Under(l, path) := next];
      forall q, k ensures Linked(q, k) {
        assert old(Linked(q, k));
      }
    }

    // The child of n for a label, made when it is missing.
    method Descend(n: TreeNode, l: string, ghost path: Path) returns (next: TreeNode)
      requires ValidTree() && path in nodes && nodes[path] == n
      modifies this`nodes, n`children
      ensures ValidTree() && Under(l, path) in nodes && nodes[Under(l, path)] == next
      ensures nodes.Values <= old(nodes.Values) + {next} && (next in old(nodes.Values) || fresh(next))
      ensures forall path :: Wild(path) == old(Wild(path))
    {
      LinkedAt(path, l);
      hide ValidTree;
      if l in n.children {
        next := n.children[l];
      } else {
        next := AddChild(n, l, path);
      }
    }

    // The first provider of a suffix stays.
    method SetWildcard(n: TreeNode, p: Provider, ghost path: Path)
      requires ValidTree() && path in nodes && nodes[path] == n
      modifies n`wildcard
      ensures ValidTree()
      ensures forall q :: Wild(q) == if q == path && old(Wild(q)).None? then Some(p) else old(Wild(q))
    {
      hide ValidTree;
      OwnNodes();
      if n.wildcard.None? {
        n.wildcard := Some(p);
      }
    }

    // Walks to the node of the suffix, making the nodes that are missing.
    method InsertWildcardSuffix(suffix: string, p: Provider)
      requires ValidTree() && suffix != ""
      modifies this`nodes, nodes.Values
      ensures ValidTree() && fresh(nodes.Values - old(nodes.Values))
      ensures forall path :: Wild(path) == if path == PathOf(suffix) && old(Wild(path)).None? then Some(p) else old(Wild(path))
    {
      var n := root;
      var labels := Split(suffix);
      var i := |labels|;
      while i > 0
        invariant ValidTree() && fresh(nodes.Values - old(nodes.Values))
        invariant 0 <= i <= |labels| && PathFrom(labels, i) in nodes && n == nodes[PathFrom(labels, i)]
        invariant forall path :: Wild(path) == old(Wild(path))
      {
        i := i - 1;
        n := Descend(n, labels[i], PathFrom(labels, i + 1));
      }
      SetWildcard(n, p, PathFrom(labels, 0));
    }

    // Registers one name of a provider.
    method AddName(raw: string, p: Provider)
      requires Valid()
      modifies this, nodes.Values
      ensures Valid() && entries == old(entries) + [Entry(raw, p)] && fresh(nodes.Values - old(nodes.Values))
    {
      hide FirstExact, FirstPath, PathOf, Normalize, ValidTree, Wild;
      var name := Normalize(raw);
      ghost var e := Entry(raw, p);
      NewExact(entries, e);
      NewSuffix(entries, e);
      entries := entries + [e];
      if name == "" {
        return;
      }
      if IsWildcard(name) {
        var suffix := name[2..];
        if suffix == "" {
          return;
        }
        InsertWildcardSuffix(suffix, p);
        return;
      }
      InsertExact(name, p);
    }

    // Registers the names of a provider's certificate, if it has one.
    method AddProvider(p: Provider)
      requires Valid()
      modifies this, nodes.Values
      ensures Valid() && entries == old(entries) + Entries(p) && fresh(nodes.Values - old(nodes.Values))
    {
      if p.leaf.None? {
        return;
      }
      hide *;
      var leaf := p.leaf.value;
      if leaf.commonName != "" {
        AddName(leaf.commonName, p);
      }
      AddNames(leaf.dnsNames, p);
      EntriesOf(p, old(entries));
    }

    method AddNames(names: seq<string>, p: Provider)
      requires Valid()
      modifies this, nodes.Values
      ensures Valid() && entries == old(entries) + NameEntries(names, p) && fresh(nodes.Values - old(nodes.Values))
    {
      NoNames(entries, names, p);
      for i := 0 to |names|
        invariant Valid() && fresh(nodes.Values - old(nodes.Values))
        invariant entries == old(entries) + NameEntries(names[..i], p)
      {
        AddName(names[i], p);
        MoreNames(old(entries), names, i, p);
      }
      assert names[..|names|] == names;
    }

    // Walks the tree from the rightmost label; only a node one label short of the name counts.
    method MatchSuffixTree(serverName: string) returns (best: Option<Provider>)
      requires ValidTree()
      ensures best == if |Split(serverName)| > 1 then Wild(PathFrom(Split(serverName), 1)) else None
    {
      var n := root;
      var labels := Split(serverName);
      best := None;
      var i := |labels|;
      PathsClosed();
      while i > 0
        invariant 0 <= i <= |labels| && PathFrom(labels, i) in nodes && n == nodes[PathFrom(labels, i)]
        invariant best == if i <= 1 < |labels| then Wild(PathFrom(labels, 1)) else None
      {
        LinkedAt(PathFrom(labels, i), labels[i - 1]);
        if labels[i - 1] !in n.children {
          if 1 < i { NotFound(nodes.Keys, labels, i, 1); }
          break;
        }
        i := i - 1;
        n := n.children[labels[i]];
        if i == 1 && n.wildcard.Some? {
          best := n.wildcard;
        }
      }
    }

    // The match agrees with the linear scan of everything registered.
    method Match(serverName: string) returns (p: Option<Provider>)
      requires Valid()
      ensures p == LinearMatch(entries, serverName)
    {
      var name := Normalize(serverName);
      if name == "" {
        return None;
      }
      if name in exact {
        return Some(exact[name]);
      }
      p := MatchSuffixTree(name);
      FirstWildcardByPath(entries, name);
    }
  }

  // Registering a plain name fills it, if it was free, and nothing else.
  lemma NewExact(entries: seq<Entry>, e: Entry)
    ensures var name := Normalize(e.name);
            forall n :: FirstExact(entries + [e], n) ==
              if n == name && name != "" && !IsWildcard(name) && FirstExact(entries, n).None? then Some(e.provider)
              else FirstExact(entries, n)
  {
    hide Normalize;
    assert (entries + [e])[..|entries|] == entries;
  }

  // Registering a wildcard fills its suffix, if that was free, and nothing else.
  lemma NewSuffix(entries: seq<Entry>, e: Entry)
    ensures var name := Normalize(e.name);
            forall path :: FirstPath(entries + [e], path) ==
              if IsWildcard(name) && name[2..] != "" && path == PathOf(name[2..]) && FirstPath(entries, path).None? then Some(e.provider)
              else FirstPath(entries, path)
  {
    hide Normalize, PathOf;
    assert (entries + [e])[..|entries|] == entries;
  }

  // Registers the providers in order and looks a name up.
  method MatchAfter(providers: seq<Provider>, serverName: string) returns (p: Option<Provider>)
    ensures p == LinearMatch(AllEntries(providers), serverName)
  {
    hide *;
    var m := new SniMatcher();
    assert AllEntries(providers[..0]) == [] by { NoEntries(); }
    for i := 0 to |providers|
      invariant m.Valid() && fresh(m) && fresh(m.nodes.Values)
      invariant m.entries == AllEntries(providers[..i])
    {
      hide *;
      AllEntriesMore(providers, i);
      m.AddProvider(providers[i]);
    }
    assert providers[..|providers|] == providers;
    p := m.Match(serverName);
  }

  lemma NoEntries()
    ensures AllEntries([]) == []
  {
  }

  lemma AllEntriesMore(providers: seq<Provider>, i: nat)
    requires i < |providers|
    ensures AllEntries(providers[..i + 1]) == AllEntries(providers[..i]) + Entries(providers[i])
  {
    assert providers[..i + 1][..i] == providers[..i];
    hide Entries;
  }

  // All names in registration order: providers in order, and each provider's names in its order.
  function AllEntries(providers: seq<Provider>): seq<Entry> {
    if providers == [] then [] else AllEntries(providers[..|providers| - 1]) + Entries(providers[|providers| - 1])
  }
}
