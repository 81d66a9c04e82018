/**
 Expanding wildcard labels: every alias gets every wildcard value under its "#N" reference, and
 explicit labels move to their reference. All loops over maps take keys in any order.

 The document and the program disagree about who wins: here, as in the program, the wildcard does.
 */
module Wildcard {
  import opened Decimal
  import opened Options

  const PREFIX := "proxy."
  const WILDCARD := "*"
  const MAX_REFS := 100

  // Labels, or suffixes, with their values; and the aliases with their numbers.
  type Flat = map<string, string>
  type Aliases = map<string, nat>

  // ----- the shape of a label

  // Foreign: not under "proxy."; Bare: no dot after the alias.
  datatype Shape = Foreign | Bare(alias: string) | Dots(alias: string, suffix: string)

  function FirstDot(s: string): (k: nat)
    ensures k <= |s| && (k < |s| ==> s[k] == '.') && forall j :: 0 <= j < k ==> s[j] != '.'
  {
    if s == "" || s[0] == '.' then 0 else 1 + FirstDot(s[1..])
  }

  function ShapeOf(lbl: string): Shape {
    if |lbl| < |PREFIX| || lbl[..|PREFIX|] != PREFIX then Foreign
    else
      var rest := lbl[|PREFIX|..];
      var k := FirstDot(rest);
      if k == |rest| then Bare(rest) else Dots(rest[..k], rest[k + 1..])
  }

  function LabelFor(alias: string, suffix: string): string {
    PREFIX + alias + "." + suffix
  }

  lemma ShapeOfLabel(alias: string, suffix: string)
    requires '.' !in alias
    ensures ShapeOf(LabelFor(alias, suffix)) == Dots(alias, suffix)
  {
    var lbl := LabelFor(alias, suffix);
    var rest := lbl[|PREFIX|..];
    assert rest == alias + "." + suffix;
    assert rest[|alias|] == '.';
    assert forall j :: 0 <= j < |alias| ==> rest[j] == alias[j];
    assert FirstDot(rest) == |alias|;
    assert rest[..|alias|] == alias && rest[|alias| + 1..] == suffix;
    assert lbl[..|PREFIX|] == PREFIX;
  }

  lemma LabelOfShape(lbl: string)
    requires ShapeOf(lbl).Dots?
    ensures '.' !in ShapeOf(lbl).alias && lbl == LabelFor(ShapeOf(lbl).alias, ShapeOf(lbl).suffix)
  {
    var rest := lbl[|PREFIX|..];
    assert lbl == PREFIX + rest;
    assert rest == rest[..FirstDot(rest)] + "." + rest[FirstDot(rest) + 1..];
  }

  // ----- references

  // The reference of the alias with index i.
  function Ref(i: nat): string {
    "#" + Itoa(i + 1)
  }

  lemma RefFacts(i: nat, j: nat)
    ensures '.' !in Ref(i) && Ref(i) != "" && Ref(i)[0] == '#'
    ensures Ref(i) == Ref(j) ==> i == j
  {
    ValueOfItoa(i + 1);
    if Ref(i) == Ref(j) {
      assert Itoa(i + 1) == Ref(i)[1..] == Ref(j)[1..] == Itoa(j + 1);
      ItoaInjective(i + 1, j + 1);
    }
  }

  // ----- first pass: wildcards and aliases

  type Yaml = string -> Flat

  function Newlines(s: string): nat {
    if s == "" then 0 else (if s[0] == '\n' then 1 else 0) + Newlines(s[1..])
  }

  predicate IsWildcard(lbl: string) {
    !ShapeOf(lbl).Foreign? && ShapeOf(lbl).alias == WILDCARD
  }

  // What a wildcard label adds: one suffix, or the flat keys of a document. Such a document is what stands
  // without a suffix, or over more than two lines.
  function Contribution(lbl: string, value: string, yaml: Yaml): Flat {
    if !IsWildcard(lbl) then map[]
    else if ShapeOf(lbl).Bare? || ShapeOf(lbl).suffix == "" || Newlines(value) > 1 then yaml(value)
    else map[ShapeOf(lbl).suffix := value]
  }

  // The alias an explicit label makes known.
  function Discovered(lbl: string): Option<string> {
    match ShapeOf(lbl)
    case Dots(alias, suffix) =>
      if alias == WILDCARD || suffix == "" || alias == "" || alias[0] == '#' then None else Some(alias)
    case _ => None
  }

  // Reading the first character of this label's alias goes out of range.
  predicate CrashesFirst(lbl: string) {
    ShapeOf(lbl).Dots? && ShapeOf(lbl).alias == "" && ShapeOf(lbl).suffix != ""
  }

  ghost predicate Distinct(names: seq<string>) {
    forall i, j :: 0 <= i < j < |names| ==> names[i] != names[j]
  }

  ghost predicate Injective(aliasSet: Aliases) {
    forall a, b :: a in aliasSet && b in aliasSet && aliasSet[a] == aliasSet[b] ==> a == b
  }

  // The aliases are numbered 0, 1, ... without gap or repetition.
  ghost predicate Numbers(aliasSet: Aliases) {
    && Injective(aliasSet)
    && (forall a :: a in aliasSet ==> aliasSet[a] < |aliasSet|)
    && (forall v: nat :: v < |aliasSet| ==> HasNumber(aliasSet, v))
  }

  ghost predicate HasNumber(aliasSet: Aliases, v: nat) {
    exists a :: a in aliasSet && aliasSet[a] == v
  }

  ghost function Known(labels: Flat, done: set<string>, aliases: seq<string>): set<string> {
    Elements(aliases) + (set l | l in labels && l in done && Discovered(l).Some? :: Discovered(l).value)
  }

  // What the first pass has collected from the labels in done.
  ghost predicate Collected(labels: Flat, done: set<string>, yaml: Yaml, wild: Flat) {
    && (forall l, s :: l in labels && l in done && s in Contribution(l, labels[l], yaml) ==> s in wild)
    && (forall s :: s in wild ==>
          exists l :: l in labels && l in done && s in Contribution(l, labels[l], yaml) && Contribution(l, labels[l], yaml)[s] == wild[s])
  }

  // No two wildcard labels disagree about a suffix.
  ghost predicate NonConflicting(labels: Flat, yaml: Yaml) {
    forall k, l, s :: k in labels && l in labels && s in Contribution(k, labels[k], yaml) && s in Contribution(l, labels[l], yaml) ==>
      Contribution(k, labels[k], yaml)[s] == Contribution(l, labels[l], yaml)[s]
  }

  // Then what is collected from all labels is every wildcard's contribution, whatever the order.
  lemma CollectedAll(labels: Flat, yaml: Yaml, wild: Flat)
    requires Collected(labels, labels.Keys, yaml, wild) && NonConflicting(labels, yaml)
    ensures forall l, s :: l in labels && s in Contribution(l, labels[l], yaml) ==>
              s in wild && wild[s] == Contribution(l, labels[l], yaml)[s]
  {
    hide Contribution;
    forall l, s | l in labels && s in Contribution(l, labels[l], yaml)
      ensures s in wild && wild[s] == Contribution(l, labels[l], yaml)[s]
    {
      assert s in wild;
    }
  }

  lemma CollectedUnique(labels: Flat, yaml: Yaml, wild: Flat, wild': Flat)
    requires Collected(labels, labels.Keys, yaml, wild) && Collected(labels, labels.Keys, yaml, wild')
    requires NonConflicting(labels, yaml)
    ensures wild == wild'
  {
    forall s ensures s in wild ==> s in wild' && wild'[s] == wild[s] { CollectedWithin(labels, yaml, wild, wild', s); }
    forall s ensures s in wild' ==> s in wild && wild[s] == wild'[s] { CollectedWithin(labels, yaml, wild', wild, s); }
    hide *;
  }

  lemma CollectedWithin(labels: Flat, yaml: Yaml, wild: Flat, wild': Flat, s: string)
    requires Collected(labels, labels.Keys, yaml, wild) && Collected(labels, labels.Keys, yaml, wild')
    requires NonConflicting(labels, yaml)
    ensures s in wild ==> s in wild' && wild'[s] == wild[s]
  {
    CollectedAll(labels, yaml, wild');
    hide Contribution, NonConflicting;
    if s in wild {
      var l :| l in labels && l in labels.Keys && s in Contribution(l, labels[l], yaml) && Contribution(l, labels[l], yaml)[s] == wild[s];
    }
  }

  function InitialSet(aliases: seq<string>): Aliases {
    if aliases == [] then map[] else InitialSet(aliases[..|aliases| - 1])[aliases[|aliases| - 1] := |aliases| - 1]
  }

  function Discover(aliasSet: Aliases, lbl: string): Aliases {
    var d := Discovered(lbl);
    if d.Some? && d.value !in aliasSet then aliasSet[d.value := |aliasSet|] else aliasSet
  }

  ghost function Elements(names: seq<string>): set<string> {
    set a | a in names
  }

  // Each alias that is given has the number of its last place.
  lemma {:induction false} InitialNumbers(aliases: seq<string>)
    ensures var base := InitialSet(aliases);
            && base.Keys == Elements(aliases) && |base| <= |aliases|
            && (forall a :: a in base ==> base[a] < |aliases| && aliases[base[a]] == a)
            && (aliases != [] ==> aliases[|aliases| - 1] in base && base[aliases[|aliases| - 1]] == |aliases| - 1)
  {
    if aliases != [] {
      var init, last := aliases[..|aliases| - 1], aliases[|aliases| - 1];
      InitialNumbers(init);
      assert aliases == init + [last];
      assert Elements(aliases) == Elements(init) + {last};
      assert InitialSet(aliases).Keys == InitialSet(init).Keys + {last};
      AddedSize(InitialSet(init), last, |init|);
    }
  }

  lemma AddedSize(m: Aliases, k: string, v: nat)
    ensures |m[k := v]| == if k in m then |m| else |m| + 1
  {
    var n := m[k := v];
    assert n.Keys == m.Keys + {k};
  }

  // They are as many as the places exactly when no alias is repeated.
  lemma {:induction false} SizeIff(aliases: seq<string>)
    ensures |InitialSet(aliases)| == |aliases| <==> Distinct(aliases)
  {
    if aliases != [] {
      var init, last := aliases[..|aliases| - 1], aliases[|aliases| - 1];
      SizeIff(init);
      InitialNumbers(init);
      AddedSize(InitialSet(init), last, |init|);
      DistinctLast(aliases);
    }
  }

  lemma DistinctLast(aliases: seq<string>)
    requires aliases != []
    ensures var init, last := aliases[..|aliases| - 1], aliases[|aliases| - 1];
            Distinct(aliases) <==> Distinct(init) && last !in Elements(init)
  {
    var init, last := aliases[..|aliases| - 1], aliases[|aliases| - 1];
    assert aliases == init + [last];
  }

  // The aliases that were given, and after them discovered ones with the next numbers.
  ghost predicate Grown(base: Aliases, aliasSet: Aliases) {
    && |base| <= |aliasSet|
    && (forall a :: a in base ==> a in aliasSet && aliasSet[a] == base[a])
    && (forall a :: a in aliasSet && a !in base ==> |base| <= aliasSet[a] < |aliasSet|)
    && (forall a, b :: a in aliasSet && b in aliasSet && a !in base && b !in base && aliasSet[a] == aliasSet[b] ==> a == b)
    && (forall v: nat :: |base| <= v < |aliasSet| ==> HasNew(base, aliasSet, v))
  }

  ghost predicate HasNew(base: Aliases, aliasSet: Aliases, v: nat) {
    exists a :: a in aliasSet && a !in base && aliasSet[a] == v
  }

  lemma GrownMore(base: Aliases, aliasSet: Aliases, a: string)
    requires Grown(base, aliasSet) && a !in aliasSet
    ensures Grown(base, aliasSet[a := |aliasSet|])
  {
    var next := aliasSet[a := |aliasSet|];
    AddedSize(aliasSet, a, |aliasSet|);
    forall v: nat | |base| <= v < |next| ensures HasNew(base, next, v) {
      if v == |aliasSet| {
        assert a in next && next[a] == v;
      } else {
        assert HasNew(base, aliasSet, v);
        var b :| b in aliasSet && b !in base && aliasSet[b] == v;
        assert b in next && next[b] == v;
      }
    }
  }

  lemma GrownStarts(base: Aliases)
    ensures Grown(base, base)
  {
  }

  lemma DiscoverNumbers(base: Aliases, aliasSet: Aliases, lbl: string)
    requires Grown(base, aliasSet)
    ensures Grown(base, Discover(aliasSet, lbl))
  {
    hide Discovered, Grown;
    var d := Discovered(lbl);
    if d.Some? && d.value !in aliasSet {
      GrownMore(base, aliasSet, d.value);
    }
  }

  lemma DiscoverKeys(aliasSet: Aliases, lbl: string)
    ensures Discover(aliasSet, lbl).Keys == aliasSet.Keys + if Discovered(lbl).Some? then {Discovered(lbl).value} else {}
  {
    hide Discovered;
  }

  // The numbers are 0, 1, ... without gap or repetition, also with those that are discovered, exactly when no alias is
  // repeated.
  lemma NumbersIff(aliases: seq<string>, aliasSet: Aliases)
    requires Grown(InitialSet(aliases), aliasSet)
    ensures Numbers(aliasSet) <==> Distinct(aliases)
    ensures Distinct(aliases) ==> forall i :: 0 <= i < |aliases| ==> aliases[i] in aliasSet && aliasSet[aliases[i]] == i
  {
    hide *;
    var base := InitialSet(aliases);
    InitialNumbers(aliases);
    SizeIff(aliases);
    if Distinct(aliases) {
      DistinctPlaces(aliases);
      AreNumbers(aliases, base, aliasSet);
    } else {
      NotNumbers(aliases, base, aliasSet);
    }
  }

  lemma DistinctPlaces(aliases: seq<string>)
    requires Distinct(aliases)
    ensures forall i :: 0 <= i < |aliases| ==> aliases[i] in InitialSet(aliases) && InitialSet(aliases)[aliases[i]] == i
  {
    var base := InitialSet(aliases);
    InitialNumbers(aliases);
    hide InitialSet;
    forall i | 0 <= i < |aliases| ensures aliases[i] in base && base[aliases[i]] == i {
      assert aliases[i] in Elements(aliases);
      assert aliases[base[aliases[i]]] == aliases[i];
    }
  }

  lemma AreNumbers(aliases: seq<string>, base: Aliases, aliasSet: Aliases)
    requires Grown(base, aliasSet) && |base| == |aliases|
    requires forall a :: a in base ==> base[a] < |aliases| && aliases[base[a]] == a
    requires forall i :: 0 <= i < |aliases| ==> aliases[i] in base && base[aliases[i]] == i
    ensures Numbers(aliasSet) && forall i :: 0 <= i < |aliases| ==> aliases[i] in aliasSet && aliasSet[aliases[i]] == i
  {
    forall v: nat | v < |aliasSet| ensures HasNumber(aliasSet, v) {
      if v < |aliases| {
        assert aliasSet[aliases[v]] == v;
      } else {
        assert HasNew(base, aliasSet, v);
      }
    }
  }

  lemma NotNumbers(aliases: seq<string>, base: Aliases, aliasSet: Aliases)
    requires Grown(base, aliasSet) && |base| < |aliases|
    requires aliases[|aliases| - 1] in base && base[aliases[|aliases| - 1]] == |aliases| - 1
    ensures !Numbers(aliasSet)
  {
    var last := aliases[|aliases| - 1];
    if |aliases| - 1 < |aliasSet| {
      assert HasNew(base, aliasSet, |aliases| - 1);
      var a :| a in aliasSet && a !in base && aliasSet[a] == |aliases| - 1;
      assert aliasSet[last] == aliasSet[a];
    }
  }

  // Two aliases share a number exactly when the last place of a given one is beyond their count, and among the numbers
  // of the discovered ones.
  lemma CollidesIff(aliases: seq<string>, aliasSet: Aliases)
    requires Grown(InitialSet(aliases), aliasSet)
    ensures var base := InitialSet(aliases);
            !Injective(aliasSet) <==> exists a :: a in base && |base| <= base[a] < |aliasSet|
  {
    var base := InitialSet(aliases);
    InitialNumbers(aliases);
    hide InitialSet, Elements;
    if a :| a in base && |base| <= base[a] < |aliasSet| {
      assert HasNew(base, aliasSet, base[a]);
      var b :| b in aliasSet && b !in base && aliasSet[b] == base[a];
      assert a in aliasSet && aliasSet[a] == aliasSet[b] && a != b;
    }
    if !Injective(aliasSet) {
      var a, b :| a in aliasSet && b in aliasSet && aliasSet[a] == aliasSet[b] && a != b;
      assert a in base ==> aliases[base[a]] == a;
      assert b in base ==> aliases[base[b]] == b;
      assert (a in base && |base| <= base[a] < |aliasSet|) || (b in base && |base| <= base[b] < |aliasSet|);
    }
  }

  // Some number is beyond the references exactly when there are too many places or too many aliases.
  lemma BeyondIff(aliases: seq<string>, aliasSet: Aliases)
    requires Grown(InitialSet(aliases), aliasSet)
    ensures (exists a :: a in aliasSet && aliasSet[a] >= MAX_REFS) <==> |aliases| > MAX_REFS || |aliasSet.Keys| > MAX_REFS
  {
    var base := InitialSet(aliases);
    InitialNumbers(aliases);
    hide InitialSet, Elements;
    assert |aliasSet.Keys| == |aliasSet|;
    if |aliases| > MAX_REFS {
      assert aliasSet[aliases[|aliases| - 1]] >= MAX_REFS;
    } else if |aliasSet| > MAX_REFS {
      assert HasNew(base, aliasSet, MAX_REFS);
      var a :| a in aliasSet && a !in base && aliasSet[a] == MAX_REFS;
    }
  }

  lemma KnownGrows(labels: Flat, done: set<string>, aliases: seq<string>, l: string)
    requires l in labels
    ensures Known(labels, done + {l}, aliases)
            == Known(labels, done, aliases) + if Discovered(l).Some? then {Discovered(l).value} else {}
  {
    hide Discovered;
  }

  lemma CollectedGrows(labels: Flat, done: set<string>, yaml: Yaml, wild: Flat, l: string)
    requires l in labels && l !in done && Collected(labels, done, yaml, wild)
    ensures Collected(labels, done + {l}, yaml, wild + Contribution(l, labels[l], yaml))
  {
    hide Contribution;
    var c := Contribution(l, labels[l], yaml);
    forall s | s in wild + c
      ensures exists k :: k in labels && k in done + {l} && s in Contribution(k, labels[k], yaml)
                          && Contribution(k, labels[k], yaml)[s] == (wild + c)[s]
    {
      if s in c {
        assert l in done + {l} && c[s] == (wild + c)[s];
      } else {
        var k :| k in labels && k in done && s in Contribution(k, labels[k], yaml) && Contribution(k, labels[k], yaml)[s] == wild[s];
        assert k in done + {l};
      }
    }
  }

  // The labels that are left when the wildcards in done are deleted.
  ghost function Without(labels: Flat, done: set<string>): Flat {
    map l | l in labels && !(l in done && IsWildcard(l)) :: labels[l]
  }

  // Everything the first pass guarantees about the labels in done.
  ghost predicate FirstPass(labels: Flat, done: set<string>, aliases: seq<string>, yaml: Yaml,
                            left: Flat, wild: Flat, aliasSet: Aliases)
  {
    && left == Without(labels, done)
    && Collected(labels, done, yaml, wild)
    && Grown(InitialSet(aliases), aliasSet)
    && aliasSet.Keys == Known(labels, done, aliases)
    && forall l :: l in done && l in labels ==> !CrashesFirst(l)
  }

  lemma FirstPassStarts(labels: Flat, aliases: seq<string>, yaml: Yaml)
    ensures FirstPass(labels, {}, aliases, yaml, labels, map[], InitialSet(aliases))
  {
    InitialNumbers(aliases);
    GrownStarts(InitialSet(aliases));
    hide Contribution, Discovered, InitialSet, Grown;
  }

  lemma WithoutGrows(labels: Flat, done: set<string>, l: string)
    requires l in labels && l !in done
    ensures Without(labels, done + {l}) == if IsWildcard(l) then Without(labels, done) - {l} else Without(labels, done)
  {
    hide IsWildcard;
  }

  lemma FirstPassStep(labels: Flat, done: set<string>, aliases: seq<string>, yaml: Yaml,
                      left: Flat, wild: Flat, aliasSet: Aliases, l: string)
    requires l in labels && l !in done && !CrashesFirst(l)
    requires FirstPass(labels, done, aliases, yaml, left, wild, aliasSet)
    ensures FirstPass(labels, done + {l}, aliases, yaml, if IsWildcard(l) then left - {l} else left,
                      wild + Contribution(l, labels[l], yaml), Discover(aliasSet, l))
  {
    hide Contribution, Discovered, Collected, Grown, Known, IsWildcard, CrashesFirst, Without, Discover, InitialSet;
    WithoutGrows(labels, done, l);
    CollectedGrows(labels, done, yaml, wild, l);
    DiscoverNumbers(InitialSet(aliases), aliasSet, l);
    DiscoverKeys(aliasSet, l);
    KnownGrows(labels, done, aliases, l);
  }

  // One label of the first pass.
  method CollectOne(lbl: string, value: string, yaml: Yaml, left: Flat, wild: Flat, aliasSet: Aliases)
    returns (crash: bool, left': Flat, wild': Flat, aliasSet': Aliases)
    ensures crash == CrashesFirst(lbl)
    ensures !crash ==> left' == if IsWildcard(lbl) then left - {lbl} else left
    ensures !crash ==> wild' == wild + Contribution(lbl, value, yaml)
    ensures !crash ==> aliasSet' == Discover(aliasSet, lbl)
  {
    hide ShapeOf, Newlines;
    crash, left', wild', aliasSet' := false, left, wild, aliasSet;
    var shape := ShapeOf(lbl);
    if shape.Foreign? {
      return;
    }
    var alias, suffix := shape.alias, if shape.Dots? then shape.suffix else "";
    if alias == WILDCARD {
      left' := left - {lbl};
      if suffix == "" || Newlines(value) > 1 {
        wild' := wild + yaml(value);
      } else {
        wild' := wild[suffix := value];
      }
      return;
    }
    if suffix == "" {
      return;
    }
    if alias == "" {
      crash := true;
      return;
    }
    if alias[0] == '#' {
      return;
    }
    if alias !in aliasSet {
      aliasSet' := aliasSet[alias := |aliasSet|];
    }
  }

  // The variables of the first pass.
  datatype Pass = Pass(left: Flat, wild: Flat, aliasSet: Aliases)

  // The first pass over all labels.
  method CollectWildcards(labels: Flat, aliases: seq<string>, yaml: Yaml)
    returns (crash: bool, pass: Pass)
    ensures crash <==> exists l :: l in labels && CrashesFirst(l)
    ensures !crash ==> FirstPass(labels, labels.Keys, aliases, yaml, pass.left, pass.wild, pass.aliasSet)
  {
    hide *;
    crash, pass := false, Pass(labels, map[], InitialSet(aliases));
    var todo := labels.Keys;
    FirstPassStarts(labels, aliases, yaml);
    assert labels.Keys - todo == {};
    while todo != {}
      invariant todo <= labels.Keys
      invariant FirstPass(labels, labels.Keys - todo, aliases, yaml, pass.left, pass.wild, pass.aliasSet)
      decreases |todo|
    {
      hide *;
      var lbl :| lbl in todo;
      crash, pass := CollectStep(labels, todo, lbl, aliases, yaml, pass);
      if crash {
        return;
      }
      todo := todo - {lbl};
    }
    assert labels.Keys - todo == labels.Keys;
    FirstPassNoCrash(labels, aliases, yaml, pass.left, pass.wild, pass.aliasSet);
  }

  // One turn of the loop of the first pass.
  method CollectStep(labels: Flat, todo: set<string>, lbl: string, aliases: seq<string>, yaml: Yaml, pass: Pass)
    returns (crash: bool, pass': Pass)
    requires lbl in todo && todo <= labels.Keys
    requires FirstPass(labels, labels.Keys - todo, aliases, yaml, pass.left, pass.wild, pass.aliasSet)
    ensures crash ==> lbl in labels && CrashesFirst(lbl)
    ensures !crash ==> FirstPass(labels, labels.Keys - (todo - {lbl}), aliases, yaml, pass'.left, pass'.wild, pass'.aliasSet)
  {
    hide *;
    var left, wild, aliasSet;
    crash, left, wild, aliasSet := CollectOne(lbl, labels[lbl], yaml, pass.left, pass.wild, pass.aliasSet);
    pass' := Pass(left, wild, aliasSet);
    if !crash {
      FirstPassStep(labels, labels.Keys - todo, aliases, yaml, pass.left, pass.wild, pass.aliasSet, lbl);
      assert labels.Keys - (todo - {lbl}) == labels.Keys - todo + {lbl};
    }
  }

  lemma FirstPassNoCrash(labels: Flat, aliases: seq<string>, yaml: Yaml,
                         left: Flat, wild: Flat, aliasSet: Aliases)
    requires FirstPass(labels, labels.Keys, aliases, yaml, left, wild, aliasSet)
    ensures !exists l :: l in labels && CrashesFirst(l)
  {
    hide CrashesFirst, Collected, Grown, Known, Without, InitialSet;
  }

  // An instance: with a repeated alias and a discovered one, two aliases get one index.
  lemma RepeatedAliasCollides()
    ensures var s := Discover(InitialSet(["a", "a"]), "proxy.b.x");
            "a" in s && "b" in s && s["a"] == s["b"]
  {
    ShapeOfLabel("b", "x");
    assert LabelFor("b", "x") == "proxy.b.x";
    assert ["a", "a"][..1] == ["a"] && ["a"][..0] == [];
    assert InitialSet(["a", "a"]) == map["a" := 1];
    assert |map["a" := 1 as nat]| == 1;
  }

  // ----- second pass: explicit labels move to their references

  // An explicit label of a known alias.
  predicate Explicit(lbl: string, aliasSet: Aliases) {
    ShapeOf(lbl).Dots? && ShapeOf(lbl).alias != "" && ShapeOf(lbl).alias[0] != '#' && ShapeOf(lbl).alias in aliasSet
  }

  function Target(lbl: string, aliasSet: Aliases): string
    requires Explicit(lbl, aliasSet)
  {
    LabelFor(Ref(aliasSet[ShapeOf(lbl).alias]), ShapeOf(lbl).suffix)
  }

  // An explicit label that no wildcard overrides.
  predicate Moves(lbl: string, aliasSet: Aliases, wild: Flat) {
    Explicit(lbl, aliasSet) && ShapeOf(lbl).suffix !in wild
  }

  predicate HasEmptyAlias(lbl: string) {
    ShapeOf(lbl).Dots? && ShapeOf(lbl).alias == ""
  }

  lemma TargetShape(l: string, aliasSet: Aliases)
    requires Explicit(l, aliasSet)
    ensures ShapeOf(Target(l, aliasSet)) == Dots(Ref(aliasSet[ShapeOf(l).alias]), ShapeOf(l).suffix)
    ensures !Explicit(Target(l, aliasSet), aliasSet) && !IsWildcard(Target(l, aliasSet))
  {
    RefFacts(aliasSet[ShapeOf(l).alias], 0);
    hide ShapeOf, LabelFor, Ref;
    ShapeOfLabel(Ref(aliasSet[ShapeOf(l).alias]), ShapeOf(l).suffix);
  }

  // No two explicit labels move to the same place.
  lemma TargetInjective(k: string, l: string, aliasSet: Aliases)
    requires Explicit(k, aliasSet) && Explicit(l, aliasSet) && Injective(aliasSet)
    requires Target(k, aliasSet) == Target(l, aliasSet)
    ensures k == l
  {
    TargetShape(k, aliasSet);
    TargetShape(l, aliasSet);
    RefFacts(aliasSet[ShapeOf(k).alias], aliasSet[ShapeOf(l).alias]);
    LabelOfShape(k);
    LabelOfShape(l);
  }

  // What the second pass has made of the labels in `left` when those in done have been visited.
  ghost predicate Moved(left: Flat, done: set<string>, wild: Flat, aliasSet: Aliases, out: Flat) {
    && (forall f :: IsTarget(left, done, wild, aliasSet, f) ==> f in out && LandsAt(left, done, wild, aliasSet, f, out[f]))
    && (forall f :: f in out ==> IsTarget(left, done, wild, aliasSet, f) || Stays(left, done, aliasSet, out, f))
    && (forall f :: f in left && !(f in done && Explicit(f, aliasSet)) && !IsTarget(left, done, wild, aliasSet, f) ==>
          f in out && out[f] == left[f])
  }

  ghost predicate IsTarget(left: Flat, done: set<string>, wild: Flat, aliasSet: Aliases, f: string) {
    exists l :: l in left && l in done && Moves(l, aliasSet, wild) && Target(l, aliasSet) == f
  }

  // A label that moves there has the value.
  ghost predicate LandsAt(left: Flat, done: set<string>, wild: Flat, aliasSet: Aliases, f: string, value: string) {
    exists l :: l in left && l in done && Moves(l, aliasSet, wild) && Target(l, aliasSet) == f && left[l] == value
  }

  ghost predicate Stays(left: Flat, done: set<string>, aliasSet: Aliases, out: Flat, f: string) {
    f in out && f in left && !(f in done && Explicit(f, aliasSet)) && out[f] == left[f]
  }

  lemma MovedStarts(left: Flat, wild: Flat, aliasSet: Aliases)
    ensures Moved(left, {}, wild, aliasSet, left)
  {
    hide Explicit, Target;
  }

  lemma TargetGrows(left: Flat, done: set<string>, wild: Flat, aliasSet: Aliases, l: string, f: string)
    requires l in left
    ensures IsTarget(left, done + {l}, wild, aliasSet, f)
            <==> IsTarget(left, done, wild, aliasSet, f) || (Moves(l, aliasSet, wild) && Target(l, aliasSet) == f)
  {
    hide Target, Explicit;
    if Moves(l, aliasSet, wild) && Target(l, aliasSet) == f {
      assert l in done + {l};
    }
    if IsTarget(left, done, wild, aliasSet, f) {
      var k :| k in left && k in done && Moves(k, aliasSet, wild) && Target(k, aliasSet) == f;
      assert k in done + {l};
    }
  }

  // An explicit label not yet visited is still there as it was.
  lemma StillThere(left: Flat, done: set<string>, wild: Flat, aliasSet: Aliases, out: Flat, l: string)
    requires l in left && l !in done && Explicit(l, aliasSet) && Moved(left, done, wild, aliasSet, out)
    ensures l in out && out[l] == left[l] && !IsTarget(left, done, wild, aliasSet, l)
  {
    hide Explicit, Target;
    forall k | k in left && k in done && Moves(k, aliasSet, wild) ensures Target(k, aliasSet) != l {
      TargetShape(k, aliasSet);
    }
  }

  // The effect of visiting one label.
  ghost function Visit(out: Flat, l: string, value: string, wild: Flat, aliasSet: Aliases): Flat {
    if !Explicit(l, aliasSet) then out
    else if Moves(l, aliasSet, wild) then (out - {l})[Target(l, aliasSet) := value]
    else out - {l}
  }

  // The places of moved labels after one more visit.
  lemma VisitMoves(left: Flat, done: set<string>, wild: Flat, aliasSet: Aliases, out: Flat, l: string, f: string)
    requires l in left && l !in done && Moved(left, done, wild, aliasSet, out)
    requires IsTarget(left, done + {l}, wild, aliasSet, f)
    ensures var next := Visit(out, l, left[l], wild, aliasSet);
            f in next && LandsAt(left, done + {l}, wild, aliasSet, f, next[f])
  {
    TargetGrows(left, done, wild, aliasSet, l, f);
    TargetNotExplicit(left, done + {l}, wild, aliasSet, f);
    hide Explicit, Target, IsTarget, Stays, ShapeOf;
    if Moves(l, aliasSet, wild) && Target(l, aliasSet) == f {
      assert l in done + {l};
    } else {
      var k :| k in left && k in done && Moves(k, aliasSet, wild) && Target(k, aliasSet) == f && left[k] == out[f];
      assert k in done + {l};
    }
  }

  lemma TargetNotExplicit(left: Flat, done: set<string>, wild: Flat, aliasSet: Aliases, f: string)
    requires IsTarget(left, done, wild, aliasSet, f)
    ensures !Explicit(f, aliasSet)
  {
    hide Explicit, Target;
    var l :| l in left && l in done && Moves(l, aliasSet, wild) && Target(l, aliasSet) == f;
    TargetShape(l, aliasSet);
  }

  // One other entry after one more visit.
  lemma VisitKeeps(left: Flat, done: set<string>, wild: Flat, aliasSet: Aliases,
                   out: Flat, l: string, f: string)
    requires l in left && l !in done && Moved(left, done, wild, aliasSet, out)
    ensures var next := Visit(out, l, left[l], wild, aliasSet);
            && (f in next ==> IsTarget(left, done + {l}, wild, aliasSet, f) || Stays(left, done + {l}, aliasSet, next, f))
            && (f in left && !(f in done + {l} && Explicit(f, aliasSet)) && !IsTarget(left, done + {l}, wild, aliasSet, f) ==>
                  f in next && next[f] == left[f])
  {
    hide Explicit, Target, IsTarget, ShapeOf;
    TargetGrows(left, done, wild, aliasSet, l, f);
    if Explicit(l, aliasSet) {
      StillThere(left, done, wild, aliasSet, out, l);
    }
  }

  lemma MovedStep(left: Flat, done: set<string>, wild: Flat, aliasSet: Aliases, out: Flat, l: string)
    requires l in left && l !in done && Moved(left, done, wild, aliasSet, out)
    ensures Moved(left, done + {l}, wild, aliasSet, Visit(out, l, left[l], wild, aliasSet))
  {
    hide Explicit, Target, IsTarget, Stays, ShapeOf, Visit, Moves, LandsAt;
    var next := Visit(out, l, left[l], wild, aliasSet);
    forall f | IsTarget(left, done + {l}, wild, aliasSet, f)
      ensures f in next && LandsAt(left, done + {l}, wild, aliasSet, f, next[f])
    {
      VisitMoves(left, done, wild, aliasSet, out, l, f);
    }
    forall f ensures f in next ==> IsTarget(left, done + {l}, wild, aliasSet, f) || Stays(left, done + {l}, aliasSet, next, f) {
      VisitKeeps(left, done, wild, aliasSet, out, l, f);
    }
    forall f | f in left && !(f in done + {l} && Explicit(f, aliasSet)) && !IsTarget(left, done + {l}, wild, aliasSet, f)
      ensures f in next && next[f] == left[f]
    {
      VisitKeeps(left, done, wild, aliasSet, out, l, f);
    }
  }

  lemma MovesExplicit(k: string, aliasSet: Aliases, wild: Flat)
    ensures Moves(k, aliasSet, wild) ==> Explicit(k, aliasSet)
  {
  }

  method VisitOne(lbl: string, out: Flat, wild: Flat, aliasSet: Aliases)
    returns (crash: bool, next: Flat)
    requires Explicit(lbl, aliasSet) ==> lbl in out
    ensures crash <==> HasEmptyAlias(lbl) || (Moves(lbl, aliasSet, wild) && aliasSet[ShapeOf(lbl).alias] >= MAX_REFS)
    ensures !crash ==> next == Visit(out, lbl, if lbl in out then out[lbl] else "", wild, aliasSet)
  {
    crash, next := false, out;
    var shape := ShapeOf(lbl);
    if !shape.Dots? {
      return;
    }
    if shape.alias == "" {
      crash := true;
      return;
    }
    if shape.alias[0] == '#' {
      return;
    }
    if shape.alias !in aliasSet {
      return;
    }
    var value := out[lbl];
    next := out - {lbl};
    if shape.suffix !in wild {
      var idx := aliasSet[shape.alias];
      if idx >= MAX_REFS {
        crash := true;
        return;
      }
      next := next[LabelFor(Ref(idx), shape.suffix) := value];
    }
  }

  // The second pass over the labels the first pass left.
  method MoveExplicit(left: Flat, wild: Flat, aliasSet: Aliases) returns (crash: bool, out: Flat)
    ensures crash ==> (exists l :: l in left && HasEmptyAlias(l)) || exists a :: a in aliasSet && aliasSet[a] >= MAX_REFS
    ensures !crash ==> Moved(left, left.Keys, wild, aliasSet, out) && forall l :: l in left ==> !HasEmptyAlias(l)
  {
    crash, out := false, left;
    var todo := left.Keys;
    MovedStarts(left, wild, aliasSet);
    assert left.Keys - todo == {};
    hide *;
    while todo != {}
      invariant todo <= left.Keys && Moved(left, left.Keys - todo, wild, aliasSet, out)
      invariant forall l :: l in left && l !in todo ==> !HasEmptyAlias(l)
      decreases |todo|
    {
      hide *;
      var lbl :| lbl in todo;
      crash, out := MoveStep(left, todo, lbl, wild, aliasSet, out);
      if crash {
        return;
      }
      todo := todo - {lbl};
    }
    assert left.Keys - todo == left.Keys;
  }

  method MoveStep(left: Flat, todo: set<string>, lbl: string, wild: Flat, aliasSet: Aliases, out: Flat)
    returns (crash: bool, next: Flat)
    requires lbl in todo && todo <= left.Keys && Moved(left, left.Keys - todo, wild, aliasSet, out)
    ensures crash ==> HasEmptyAlias(lbl) || exists a :: a in aliasSet && aliasSet[a] >= MAX_REFS
    ensures !crash ==> Moved(left, left.Keys - (todo - {lbl}), wild, aliasSet, next) && !HasEmptyAlias(lbl)
  {
    hide Moved, Target, ShapeOf, IsTarget;
    if Explicit(lbl, aliasSet) {
      StillThere(left, left.Keys - todo, wild, aliasSet, out, lbl);
    }
    crash, next := VisitOne(lbl, out, wild, aliasSet);
    MovedStep(left, left.Keys - todo, wild, aliasSet, out, lbl);
    assert left.Keys - (todo - {lbl}) == left.Keys - todo + {lbl};
  }

  // ----- the wildcards, for every alias

  // The label is under the reference of some alias.
  ghost predicate IsRef(f: string, aliases: set<string>, aliasSet: Aliases) {
    ShapeOf(f).Dots? && exists a :: a in aliases && a in aliasSet && Ref(aliasSet[a]) == ShapeOf(f).alias
  }

  ghost predicate IsRefWith(f: string, aliases: set<string>, aliasSet: Aliases, suffix: string) {
    IsRef(f, aliases, aliasSet) && ShapeOf(f).suffix == suffix
  }

  // out is base with the wildcard values of the suffixes in `done` under the references of the given aliases.
  ghost predicate Spread(base: Flat, done: set<string>, aliases: set<string>, wild: Flat,
                         aliasSet: Aliases, out: Flat)
  {
    forall f ::
      if IsRef(f, aliases, aliasSet) && ShapeOf(f).suffix in done && ShapeOf(f).suffix in wild
      then f in out && out[f] == wild[ShapeOf(f).suffix]
      else (f in out <==> f in base) && (f in base ==> out[f] == base[f])
  }

  lemma RefGrows(f: string, aliases: set<string>, aliasSet: Aliases, a: string, suffix: string)
    requires a in aliasSet
    ensures IsRefWith(f, aliases + {a}, aliasSet, suffix)
            <==> IsRefWith(f, aliases, aliasSet, suffix) || f == LabelFor(Ref(aliasSet[a]), suffix)
  {
    RefFacts(aliasSet[a], 0);
    ShapeOfLabel(Ref(aliasSet[a]), suffix);
    hide Ref;
    if f == LabelFor(Ref(aliasSet[a]), suffix) {
      assert a in aliases + {a};
    }
    if ShapeOf(f).Dots? {
      LabelOfShape(f);
    }
    hide ShapeOf, LabelFor;
    if IsRef(f, aliases, aliasSet) {
      var b :| b in aliases && b in aliasSet && Ref(aliasSet[b]) == ShapeOf(f).alias;
      assert b in aliases + {a};
    }
  }

  // One suffix under the references of the aliases in `aliases` only.
  ghost predicate SpreadOne(base: Flat, suffix: string, value: string, aliases: set<string>,
                            aliasSet: Aliases, out: Flat)
  {
    forall f ::
      if IsRefWith(f, aliases, aliasSet, suffix) then f in out && out[f] == value
      else (f in out <==> f in base) && (f in base ==> out[f] == base[f])
  }

  lemma SpreadOneStep(base: Flat, suffix: string, value: string, aliases: set<string>,
                      aliasSet: Aliases, out: Flat, a: string)
    requires a in aliasSet && SpreadOne(base, suffix, value, aliases, aliasSet, out)
    ensures SpreadOne(base, suffix, value, aliases + {a}, aliasSet, out[LabelFor(Ref(aliasSet[a]), suffix) := value])
  {
    hide IsRefWith, ShapeOf, LabelFor, Ref;
    forall f ensures IsRefWith(f, aliases + {a}, aliasSet, suffix)
                     <==> IsRefWith(f, aliases, aliasSet, suffix) || f == LabelFor(Ref(aliasSet[a]), suffix) {
      RefGrows(f, aliases, aliasSet, a, suffix);
    }
  }

  lemma SpreadOneStarts(base: Flat, suffix: string, value: string, aliasSet: Aliases)
    ensures SpreadOne(base, suffix, value, {}, aliasSet, base)
  {
    hide ShapeOf, Ref;
  }

  method SpreadSuffix(base: Flat, suffix: string, value: string, aliasSet: Aliases)
    returns (crash: bool, out: Flat)
    ensures crash ==> exists a :: a in aliasSet && aliasSet[a] >= MAX_REFS
    ensures !crash ==> SpreadOne(base, suffix, value, aliasSet.Keys, aliasSet, out)
    ensures !crash ==> forall a :: a in aliasSet ==> aliasSet[a] < MAX_REFS
  {
    crash, out := false, base;
    var todo := aliasSet.Keys;
    SpreadOneStarts(base, suffix, value, aliasSet);
    assert aliasSet.Keys - todo == {};
    hide *;
    while todo != {}
      invariant todo <= aliasSet.Keys && SpreadOne(base, suffix, value, aliasSet.Keys - todo, aliasSet, out)
      invariant forall a :: a in aliasSet && a !in todo ==> aliasSet[a] < MAX_REFS
      decreases |todo|
    {
      hide *;
      var a :| a in todo;
      var idx := aliasSet[a];
      if idx >= MAX_REFS {
        crash := true;
        return;
      }
      SpreadOneStep(base, suffix, value, aliasSet.Keys - todo, aliasSet, out, a);
      out := out[LabelFor(Ref(idx), suffix) := value];
      assert aliasSet.Keys - (todo - {a}) == aliasSet.Keys - todo + {a};
      todo := todo - {a};
    }
    assert aliasSet.Keys - todo == aliasSet.Keys;
  }

  lemma SpreadStarts(base: Flat, wild: Flat, aliasSet: Aliases)
    ensures Spread(base, {}, aliasSet.Keys, wild, aliasSet, base)
  {
    hide ShapeOf, IsRef;
  }

  lemma SpreadStep(base: Flat, done: set<string>, wild: Flat, aliasSet: Aliases,
                   out: Flat, s: string, next: Flat)
    requires s in wild && Spread(base, done, aliasSet.Keys, wild, aliasSet, out)
    requires SpreadOne(out, s, wild[s], aliasSet.Keys, aliasSet, next)
    ensures Spread(base, done + {s}, aliasSet.Keys, wild, aliasSet, next)
  {
    hide ShapeOf, IsRef;
  }

  method SpreadAll(base: Flat, wild: Flat, aliasSet: Aliases)
    returns (crash: bool, out: Flat)
    requires wild != map[]
    ensures crash ==> exists a :: a in aliasSet && aliasSet[a] >= MAX_REFS
    ensures !crash ==> Spread(base, wild.Keys, aliasSet.Keys, wild, aliasSet, out)
    ensures !crash ==> forall a :: a in aliasSet ==> aliasSet[a] < MAX_REFS
  {
    hide *;
    crash, out := false, base;
    var todo := wild.Keys;
    SpreadStarts(base, wild, aliasSet);
    assert wild.Keys - todo == {};
    while todo != {}
      invariant todo <= wild.Keys && Spread(base, wild.Keys - todo, aliasSet.Keys, wild, aliasSet, out)
      invariant todo < wild.Keys ==> forall a :: a in aliasSet ==> aliasSet[a] < MAX_REFS
      decreases |todo|
    {
      hide *;
      var s :| s in todo;
      ghost var before := out;
      crash, out := SpreadSuffix(out, s, wild[s], aliasSet);
      if crash {
        return;
      }
      SpreadStep(base, wild.Keys - todo, wild, aliasSet, before, s, out);
      assert wild.Keys - (todo - {s}) == wild.Keys - todo + {s};
      todo := todo - {s};
    }
    assert wild.Keys - todo == wild.Keys;
    assert todo < wild.Keys;
  }

  // ----- the whole expansion

  // Every alias gets every wildcard value.
  ghost predicate AliasesGetWildcards(wild: Flat, aliasSet: Aliases, out: Flat) {
    forall a, s :: a in aliasSet && s in wild ==>
      LabelFor(Ref(aliasSet[a]), s) in out && out[LabelFor(Ref(aliasSet[a]), s)] == wild[s]
  }

  // Under the reference of every explicit label that is not overridden there is its value, or that of another one that
  // moves to the same place.
  ghost predicate ExplicitLand(labels: Flat, wild: Flat, aliasSet: Aliases, out: Flat) {
    forall l :: l in labels && !IsWildcard(l) && Moves(l, aliasSet, wild) ==>
      Target(l, aliasSet) in out && LandedWith(labels, wild, aliasSet, Target(l, aliasSet), out[Target(l, aliasSet)])
  }

  // Every explicit label that is not overridden survives under its reference.
  ghost predicate ExplicitSurvive(labels: Flat, wild: Flat, aliasSet: Aliases, out: Flat) {
    forall l :: l in labels && !IsWildcard(l) && Moves(l, aliasSet, wild) ==>
      Target(l, aliasSet) in out && out[Target(l, aliasSet)] == labels[l]
  }

  // Explicit labels that move to the same place agree.
  ghost predicate NoClash(labels: Flat, wild: Flat, aliasSet: Aliases) {
    forall k, l :: (&& k in labels && l in labels && !IsWildcard(k) && !IsWildcard(l)
                    && Moves(k, aliasSet, wild) && Moves(l, aliasSet, wild) && Target(k, aliasSet) == Target(l, aliasSet)) ==>
      labels[k] == labels[l]
  }

  // A wildcard value goes here.
  ghost predicate Overridden(wild: Flat, aliasSet: Aliases, f: string) {
    IsRef(f, aliasSet.Keys, aliasSet) && ShapeOf(f).suffix in wild
  }

  ghost predicate OverriddenWith(wild: Flat, aliasSet: Aliases, f: string, value: string) {
    Overridden(wild, aliasSet, f) && value == wild[ShapeOf(f).suffix]
  }

  // The other labels stay, unless a wildcard or an explicit label lands on them.
  ghost predicate OthersStay(labels: Flat, wild: Flat, aliasSet: Aliases, out: Flat) {
    forall f :: f in labels && !IsWildcard(f) && !Explicit(f, aliasSet) && !Overridden(wild, aliasSet, f) && !Landed(labels, wild, aliasSet, f) ==>
      f in out && out[f] == labels[f]
  }

  // And there is nothing else.
  ghost predicate NothingElse(labels: Flat, wild: Flat, aliasSet: Aliases, out: Flat) {
    forall f :: f in out ==>
      || OverriddenWith(wild, aliasSet, f, out[f])
      || LandedWith(labels, wild, aliasSet, f, out[f])
      || (f in labels && !IsWildcard(f) && !Explicit(f, aliasSet) && out[f] == labels[f])
  }

  // What expansion makes of a label set, given its wildcards and its numbered aliases.
  ghost predicate Expanded(labels: Flat, wild: Flat, aliasSet: Aliases, out: Flat) {
    && AliasesGetWildcards(wild, aliasSet, out)
    && ExplicitLand(labels, wild, aliasSet, out)
    && OthersStay(labels, wild, aliasSet, out)
    && NothingElse(labels, wild, aliasSet, out)
  }

  ghost predicate Landed(labels: Flat, wild: Flat, aliasSet: Aliases, f: string) {
    exists l :: l in labels && !IsWildcard(l) && Moves(l, aliasSet, wild) && Target(l, aliasSet) == f
  }

  ghost predicate LandedWith(labels: Flat, wild: Flat, aliasSet: Aliases, f: string, value: string) {
    exists l :: l in labels && !IsWildcard(l) && Moves(l, aliasSet, wild) && Target(l, aliasSet) == f && labels[l] == value
  }

  // All of them survive exactly when none clash; which they do not when the numbers are not shared.
  lemma SurviveIff(labels: Flat, wild: Flat, aliasSet: Aliases, out: Flat)
    requires Expanded(labels, wild, aliasSet, out)
    ensures ExplicitSurvive(labels, wild, aliasSet, out) <==> NoClash(labels, wild, aliasSet)
    ensures Injective(aliasSet) ==> NoClash(labels, wild, aliasSet)
  {
    hide Target, Explicit, IsWildcard, AliasesGetWildcards, OthersStay, NothingElse, Injective;
    if ExplicitSurvive(labels, wild, aliasSet, out) {
      forall k, l | k in labels && l in labels && !IsWildcard(k) && !IsWildcard(l) && Moves(k, aliasSet, wild) && Moves(l, aliasSet, wild)
                    && Target(k, aliasSet) == Target(l, aliasSet)
        ensures labels[k] == labels[l]
      {
        assert out[Target(k, aliasSet)] == labels[k] && out[Target(l, aliasSet)] == labels[l];
      }
    }
    if NoClash(labels, wild, aliasSet) {
      forall l | l in labels && !IsWildcard(l) && Moves(l, aliasSet, wild)
        ensures Target(l, aliasSet) in out && out[Target(l, aliasSet)] == labels[l]
      {
        assert LandedWith(labels, wild, aliasSet, Target(l, aliasSet), out[Target(l, aliasSet)]);
      }
    }
    if Injective(aliasSet) {
      forall k, l | k in labels && l in labels && Moves(k, aliasSet, wild) && Moves(l, aliasSet, wild) && Target(k, aliasSet) == Target(l, aliasSet)
        ensures k == l
      {
        TargetInjective(k, l, aliasSet);
      }
    }
  }

  // The wildcard value replaces the explicit one.
  lemma WildcardWins(labels: Flat, wild: Flat, aliasSet: Aliases, out: Flat, lbl: string)
    requires Expanded(labels, wild, aliasSet, out) && lbl in labels
    requires Explicit(lbl, aliasSet) && ShapeOf(lbl).suffix in wild
    ensures Target(lbl, aliasSet) in out && out[Target(lbl, aliasSet)] == wild[ShapeOf(lbl).suffix]
  {
    hide ShapeOf, LabelFor, Ref, ExplicitLand, OthersStay, NothingElse;
  }

  // An instance.
  lemma ExplicitIsReplaced(out: Flat)
    requires Expanded(map["proxy.*.x" := "wild", "proxy.a.x" := "own"], map["x" := "wild"], map["a" := 0], out)
    ensures "proxy.#1.x" in out && out["proxy.#1.x"] == "wild"
  {
    ShapeOfLabel("a", "x");
    assert LabelFor("a", "x") == "proxy.a.x" && LabelFor("#1", "x") == "proxy.#1.x";
    assert Ref(0) == "#1" by { assert Itoa(1) == "1"; }
    hide ShapeOf, LabelFor, Ref, Expanded;
    WildcardWins(map["proxy.*.x" := "wild", "proxy.a.x" := "own"], map["x" := "wild"], map["a" := 0], out, "proxy.a.x");
  }

  // Where a label goes that is no wildcard.
  function Place(lbl: string, aliasSet: Aliases): string {
    if Explicit(lbl, aliasSet) then Target(lbl, aliasSet) else lbl
  }

  // A label goes there, or a wildcard value.
  ghost predicate Written(labels: Flat, wild: Flat, aliasSet: Aliases, f: string) {
    || (exists l :: l in labels && !IsWildcard(l) && Place(l, aliasSet) == f)
    || (exists a, s :: a in aliasSet && s in wild && LabelFor(Ref(aliasSet[a]), s) == f)
  }

  // The labels there are after the expansion, in terms of those before it.
  lemma KeysIff(labels: Flat, wild: Flat, aliasSet: Aliases, out: Flat, f: string)
    requires Expanded(labels, wild, aliasSet, out)
    ensures f in out <==> Written(labels, wild, aliasSet, f)
  {
    hide Target, Explicit, IsWildcard, LabelFor, Ref, ShapeOf;
    if f in out {
      if OverriddenWith(wild, aliasSet, f, out[f]) {
        var a :| a in aliasSet.Keys && a in aliasSet && ShapeOf(f).Dots? && Ref(aliasSet[a]) == ShapeOf(f).alias;
        LabelOfShape(f);
        assert LabelFor(Ref(aliasSet[a]), ShapeOf(f).suffix) == f;
      } else if LandedWith(labels, wild, aliasSet, f, out[f]) {
        var l :| l in labels && !IsWildcard(l) && Moves(l, aliasSet, wild) && Target(l, aliasSet) == f && labels[l] == out[f];
        assert Place(l, aliasSet) == f;
      } else {
        assert Place(f, aliasSet) == f;
      }
    }
    if l :| l in labels && !IsWildcard(l) && Place(l, aliasSet) == f {
      PlaceKept(labels, wild, aliasSet, out, l);
    }
  }

  lemma PlaceKept(labels: Flat, wild: Flat, aliasSet: Aliases, out: Flat, l: string)
    requires Expanded(labels, wild, aliasSet, out) && l in labels && !IsWildcard(l)
    ensures Place(l, aliasSet) in out
  {
    hide IsWildcard, LabelFor, Ref, ShapeOf, NothingElse;
    if Explicit(l, aliasSet) {
      if !Moves(l, aliasSet, wild) {
        assert LabelFor(Ref(aliasSet[ShapeOf(l).alias]), ShapeOf(l).suffix) in out;
      }
    } else if Overridden(wild, aliasSet, l) {
      var a :| a in aliasSet.Keys && a in aliasSet && ShapeOf(l).Dots? && Ref(aliasSet[a]) == ShapeOf(l).alias;
      LabelOfShape(l);
      assert LabelFor(Ref(aliasSet[a]), ShapeOf(l).suffix) in out;
    } else if Landed(labels, wild, aliasSet, l) {
      var k :| k in labels && !IsWildcard(k) && Moves(k, aliasSet, wild) && Target(k, aliasSet) == l;
      assert Target(k, aliasSet) in out;
    }
  }

  // No wildcard label and no explicit label of a known alias is left.
  lemma NoneLeft(labels: Flat, wild: Flat, aliasSet: Aliases, out: Flat)
    requires Expanded(labels, wild, aliasSet, out)
    ensures forall f :: f in out ==> !IsWildcard(f) && !Explicit(f, aliasSet)
  {
    hide Target, AliasesGetWildcards, ExplicitLand, OthersStay, Explicit, IsWildcard;
    forall f | f in out ensures !IsWildcard(f) && !Explicit(f, aliasSet) {
      if IsRef(f, aliasSet.Keys, aliasSet) {
        RefIsNoAlias(f, aliasSet);
      } else if LandedWith(labels, wild, aliasSet, f, out[f]) {
        var l :| l in labels && !IsWildcard(l) && Moves(l, aliasSet, wild) && Target(l, aliasSet) == f && labels[l] == out[f];
        MovesExplicit(l, aliasSet, wild);
        TargetShape(l, aliasSet);
      }
    }
  }

  lemma RefIsNoAlias(f: string, aliasSet: Aliases)
    requires IsRef(f, aliasSet.Keys, aliasSet)
    ensures !IsWildcard(f) && !Explicit(f, aliasSet)
  {
    var a :| a in aliasSet.Keys && a in aliasSet && Ref(aliasSet[a]) == ShapeOf(f).alias;
    RefFacts(aliasSet[a], 0);
    hide ShapeOf, Ref;
  }

  // What the spread left alone, and what it wrote.
  lemma SpreadEntry(base: Flat, wild: Flat, aliasSet: Aliases, out: Flat, f: string)
    requires Spread(base, wild.Keys, aliasSet.Keys, wild, aliasSet, out)
    ensures if Overridden(wild, aliasSet, f) then f in out && OverriddenWith(wild, aliasSet, f, out[f])
            else (f in out <==> f in base) && (f in base ==> out[f] == base[f])
  {
    hide ShapeOf, IsRef;
  }

  lemma ExplicitFrom(labels: Flat, wild: Flat, aliasSet: Aliases, base: Flat, out: Flat)
    requires Moved(Without(labels, labels.Keys), Without(labels, labels.Keys).Keys, wild, aliasSet, base)
    requires Spread(base, wild.Keys, aliasSet.Keys, wild, aliasSet, out)
    ensures ExplicitLand(labels, wild, aliasSet, out)
  {
    hide Spread, Target, Explicit, ShapeOf, Overridden, IsWildcard;
    var left := Without(labels, labels.Keys);
    forall l | l in labels && !IsWildcard(l) && Moves(l, aliasSet, wild)
      ensures Target(l, aliasSet) in out && LandedWith(labels, wild, aliasSet, Target(l, aliasSet), out[Target(l, aliasSet)])
    {
      assert l in left && l in left.Keys;
      assert IsTarget(left, left.Keys, wild, aliasSet, Target(l, aliasSet));
      TargetNotOverridden(l, wild, aliasSet);
      SpreadEntry(base, wild, aliasSet, out, Target(l, aliasSet));
    }
  }

  lemma TargetNotOverridden(l: string, wild: Flat, aliasSet: Aliases)
    requires Moves(l, aliasSet, wild)
    ensures !Overridden(wild, aliasSet, Target(l, aliasSet))
  {
    TargetShape(l, aliasSet);
    hide Target, IsRef;
  }

  lemma StayFrom(labels: Flat, wild: Flat, aliasSet: Aliases,
                     base: Flat, out: Flat)
    requires Moved(Without(labels, labels.Keys), Without(labels, labels.Keys).Keys, wild, aliasSet, base)
    requires Spread(base, wild.Keys, aliasSet.Keys, wild, aliasSet, out)
    ensures OthersStay(labels, wild, aliasSet, out)
  {
    hide Spread, Target, Explicit, ShapeOf, Overridden, IsWildcard, IsTarget, Landed, Moves;
    var left := Without(labels, labels.Keys);
    forall f | f in labels && !IsWildcard(f) && !Explicit(f, aliasSet) && !Overridden(wild, aliasSet, f) && !Landed(labels, wild, aliasSet, f)
      ensures f in out && out[f] == labels[f]
    {
      SameTargets(labels, wild, aliasSet, f);
      assert f in left && left[f] == labels[f];
      SpreadEntry(base, wild, aliasSet, out, f);
    }
  }

  lemma NothingFrom(labels: Flat, wild: Flat, aliasSet: Aliases,
                     base: Flat, out: Flat)
    requires Moved(Without(labels, labels.Keys), Without(labels, labels.Keys).Keys, wild, aliasSet, base)
    requires Spread(base, wild.Keys, aliasSet.Keys, wild, aliasSet, out)
    ensures NothingElse(labels, wild, aliasSet, out)
  {
    hide Spread, Target, Explicit, ShapeOf, Overridden, IsWildcard, IsTarget, Moves, LandedWith, Moved, OverriddenWith;
    forall f | f in out
      ensures || OverriddenWith(wild, aliasSet, f, out[f])
              || LandedWith(labels, wild, aliasSet, f, out[f])
              || (f in labels && !IsWildcard(f) && !Explicit(f, aliasSet) && out[f] == labels[f])
    {
      SpreadEntry(base, wild, aliasSet, out, f);
      if !Overridden(wild, aliasSet, f) {
        BaseEntry(labels, wild, aliasSet, base, f);
      }
    }
  }

  // Where an entry of the second pass comes from.
  lemma BaseEntry(labels: Flat, wild: Flat, aliasSet: Aliases, base: Flat, f: string)
    requires f in base
    requires Moved(Without(labels, labels.Keys), Without(labels, labels.Keys).Keys, wild, aliasSet, base)
    ensures LandedWith(labels, wild, aliasSet, f, base[f]) || (f in labels && !IsWildcard(f) && !Explicit(f, aliasSet) && base[f] == labels[f])
  {
    hide Target, Explicit, ShapeOf, IsWildcard, IsTarget;
    var left := Without(labels, labels.Keys);
    if IsTarget(left, left.Keys, wild, aliasSet, f) {
      assert LandsAt(left, left.Keys, wild, aliasSet, f, base[f]);
    }
  }

  lemma ExpandedFrom(labels: Flat, wild: Flat, aliasSet: Aliases,
                     base: Flat, out: Flat)
    requires Moved(Without(labels, labels.Keys), Without(labels, labels.Keys).Keys, wild, aliasSet, base)
    requires Spread(base, wild.Keys, aliasSet.Keys, wild, aliasSet, out)
    ensures Expanded(labels, wild, aliasSet, out)
  {
    hide *;
    assert AliasesGetWildcards(wild, aliasSet, out) by { WildcardsFrom(base, wild, aliasSet, out); }
    ExplicitFrom(labels, wild, aliasSet, base, out);
    StayFrom(labels, wild, aliasSet, base, out);
    NothingFrom(labels, wild, aliasSet, base, out);
    AllFour(labels, wild, aliasSet, out);
  }

  lemma AllFour(labels: Flat, wild: Flat, aliasSet: Aliases, out: Flat)
    requires AliasesGetWildcards(wild, aliasSet, out) && ExplicitLand(labels, wild, aliasSet, out)
    requires OthersStay(labels, wild, aliasSet, out) && NothingElse(labels, wild, aliasSet, out)
    ensures Expanded(labels, wild, aliasSet, out)
  {
    hide AliasesGetWildcards, ExplicitLand, OthersStay, NothingElse;
  }

  lemma WildcardsFrom(base: Flat, wild: Flat, aliasSet: Aliases, out: Flat)
    requires Spread(base, wild.Keys, aliasSet.Keys, wild, aliasSet, out)
    ensures AliasesGetWildcards(wild, aliasSet, out)
  {
    hide Spread, LabelFor, Ref;
    forall a, s | a in aliasSet && s in wild
      ensures LabelFor(Ref(aliasSet[a]), s) in out && out[LabelFor(Ref(aliasSet[a]), s)] == wild[s]
    {
      SpreadAt(base, wild, aliasSet, out, a, s);
    }
  }

  lemma SpreadAt(base: Flat, wild: Flat, aliasSet: Aliases, out: Flat, a: string, s: string)
    requires Spread(base, wild.Keys, aliasSet.Keys, wild, aliasSet, out) && a in aliasSet && s in wild
    ensures LabelFor(Ref(aliasSet[a]), s) in out && out[LabelFor(Ref(aliasSet[a]), s)] == wild[s]
  {
    RefFacts(aliasSet[a], 0);
    ShapeOfLabel(Ref(aliasSet[a]), s);
    hide ShapeOf, LabelFor, Ref;
    assert a in aliasSet.Keys && IsRef(LabelFor(Ref(aliasSet[a]), s), aliasSet.Keys, aliasSet);
  }

  lemma SameTargets(labels: Flat, wild: Flat, aliasSet: Aliases, f: string)
    ensures var left := Without(labels, labels.Keys);
            IsTarget(left, left.Keys, wild, aliasSet, f) <==> Landed(labels, wild, aliasSet, f)
  {
    hide Target, Explicit, IsWildcard;
    var left := Without(labels, labels.Keys);
    if Landed(labels, wild, aliasSet, f) {
      var l :| l in labels && !IsWildcard(l) && Moves(l, aliasSet, wild) && Target(l, aliasSet) == f;
      assert l in left.Keys;
    }
  }

  lemma ExpandedGives(labels: Flat, wild: Flat, aliasSet: Aliases, out: Flat)
    requires Expanded(labels, wild, aliasSet, out)
    ensures AliasesGetWildcards(wild, aliasSet, out)
  {
  }

  ghost predicate SomeWild(labels: Flat, yaml: Yaml) {
    exists l :: l in labels && Contribution(l, labels[l], yaml) != map[]
  }

  // The first pass reads the first character of every alias with a suffix. The others only run when there are both
  // aliases and wildcards; they read it without a suffix too, and know a hundred references.
  ghost predicate MustCrash(labels: Flat, aliases: seq<string>, yaml: Yaml) {
    || (exists l :: l in labels && CrashesFirst(l))
    || (&& Known(labels, labels.Keys, aliases) != {} && SomeWild(labels, yaml)
        && ((exists l :: l in labels && HasEmptyAlias(l)) || |aliases| > MAX_REFS || |Known(labels, labels.Keys, aliases)| > MAX_REFS))
  }

  // Expansion crashes exactly on these labels; otherwise it does what it is for. With aliases that are not repeated they
  // are numbered without gap or repetition, and all explicit labels survive.
  method ExpandWildcard(labels: Flat, aliases: seq<string>, yaml: Yaml)
    returns (crash: bool, out: Flat, ghost wild: Flat, ghost aliasSet: Aliases)
    ensures crash <==> MustCrash(labels, aliases, yaml)
    ensures !crash ==>
              && Collected(labels, labels.Keys, yaml, wild)
              && Grown(InitialSet(aliases), aliasSet) && aliasSet.Keys == Known(labels, labels.Keys, aliases)
              && (Distinct(aliases) ==> Numbers(aliasSet))
              && if aliasSet == map[] || wild == map[] then out == Without(labels, labels.Keys)
                 else Expanded(labels, wild, aliasSet, out) && (Distinct(aliases) ==> ExplicitSurvive(labels, wild, aliasSet, out))
  {
    hide *;
    var pass;
    crash, pass := CollectWildcards(labels, aliases, yaml);
    out, wild, aliasSet := labels, pass.wild, pass.aliasSet;
    CrashFirst(labels, aliases, yaml);
    if crash {
      return;
    }
    FirstPassGives(labels, aliases, yaml, pass.left, wild, aliasSet);
    SomeCollected(labels, yaml, wild);
    NumbersIff(aliases, aliasSet);
    BeyondIff(aliases, aliasSet);
    EmptyAliasStays(labels);
    CrashLater(labels, aliases, yaml, aliasSet);
    out := pass.left;
    if pass.aliasSet == map[] || pass.wild == map[] {
      return;
    }
    crash, out := MoveExplicit(out, pass.wild, pass.aliasSet);
    if crash {
      return;
    }
    ghost var base := out;
    crash, out := SpreadAll(out, pass.wild, pass.aliasSet);
    if crash {
      return;
    }
    ExpandedFrom(labels, wild, aliasSet, base, out);
    SurviveIff(labels, wild, aliasSet, out);
    NumbersInjective(aliasSet);
  }

  lemma NumbersInjective(aliasSet: Aliases)
    ensures Numbers(aliasSet) ==> Injective(aliasSet)
  {
  }

  lemma CrashFirst(labels: Flat, aliases: seq<string>, yaml: Yaml)
    ensures (exists l :: l in labels && CrashesFirst(l)) ==> MustCrash(labels, aliases, yaml)
  {
  }

  lemma FirstPassGives(labels: Flat, aliases: seq<string>, yaml: Yaml, left: Flat, wild: Flat, aliasSet: Aliases)
    requires FirstPass(labels, labels.Keys, aliases, yaml, left, wild, aliasSet)
    ensures left == Without(labels, labels.Keys) && Collected(labels, labels.Keys, yaml, wild)
    ensures Grown(InitialSet(aliases), aliasSet) && aliasSet.Keys == Known(labels, labels.Keys, aliases)
  {
    hide Without, Collected, Grown, Known, InitialSet, CrashesFirst;
  }

  // When the first pass does not crash the others decide.
  lemma CrashLater(labels: Flat, aliases: seq<string>, yaml: Yaml, aliasSet: Aliases)
    requires !exists l :: l in labels && CrashesFirst(l)
    requires aliasSet.Keys == Known(labels, labels.Keys, aliases)
    ensures MustCrash(labels, aliases, yaml) <==>
            && aliasSet != map[] && SomeWild(labels, yaml)
            && ((exists l :: l in labels && HasEmptyAlias(l)) || |aliases| > MAX_REFS || |aliasSet.Keys| > MAX_REFS)
  {
    hide CrashesFirst, SomeWild, HasEmptyAlias, Known;
    assert aliasSet == map[] <==> aliasSet.Keys == {};
  }

  lemma SomeCollected(labels: Flat, yaml: Yaml, wild: Flat)
    requires Collected(labels, labels.Keys, yaml, wild)
    ensures wild != map[] <==> SomeWild(labels, yaml)
  {
    hide Contribution;
    if wild != map[] {
      var s :| s in wild;
    }
    if SomeWild(labels, yaml) {
      var l :| l in labels && Contribution(l, labels[l], yaml) != map[];
      var s :| s in Contribution(l, labels[l], yaml);
      assert s in wild;
    }
  }

  lemma EmptyAliasStays(labels: Flat)
    ensures (exists l :: l in Without(labels, labels.Keys) && HasEmptyAlias(l)) <==> (exists l :: l in labels && HasEmptyAlias(l))
  {
    hide ShapeOf;
    if l :| l in labels && HasEmptyAlias(l) {
      assert l in Without(labels, labels.Keys);
    }
  }
}
