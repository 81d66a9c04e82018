/**
 Labels as a container carries them: wildcards expanded, then parsed into nested maps.
 */
module LabelParsing {
  import opened Dotted
  import opened Options
  import Labels
  import Wildcard

  // Where the nested map holds the value of a suffix under a reference.
  function PathUnder(ref: string, suffix: string): seq<string> {
    [ref] + Split(suffix)
  }

  lemma PathOfLabelFor(ref: string, suffix: string)
    requires '.' !in ref
    ensures var lbl := Wildcard.LabelFor(ref, suffix);
            Labels.Routed(lbl) && Labels.PathOf(lbl) == PathUnder(ref, suffix)
  {
    var rest := ref + "." + suffix;
    assert Wildcard.LabelFor(ref, suffix) == "proxy" + "." + rest;
    SplitFirst("proxy", rest);
    SplitFirst(ref, suffix);
    hide Split;
    assert (["proxy"] + Split(rest))[1..] == Split(rest);
  }

  // A label set's value is at its path.
  lemma HeldAt(m: Labels.LabelMap, labels: Wildcard.Flat, lbl: string)
    requires Labels.Holds(m, labels) && lbl in labels && Labels.Routed(lbl)
    ensures Labels.Lookup(Labels.Sub(m), Labels.PathOf(lbl)) == Some(labels[lbl])
  {
    Labels.RoutedJoins(lbl);
    hide Labels.Lookup, Labels.PathOf, Labels.Routed;
  }

  // Every alias has every wildcard value, at the path under its reference.
  ghost predicate AllReadable(m: Labels.LabelMap, wild: Wildcard.Flat, aliasSet: Wildcard.Aliases) {
    forall a, s :: a in aliasSet && s in wild ==>
      Labels.Lookup(Labels.Sub(m), PathUnder(Wildcard.Ref(aliasSet[a]), s)) == Some(wild[s])
  }

  lemma ReadableFrom(m: Labels.LabelMap, labels: Wildcard.Flat, wild: Wildcard.Flat, aliasSet: Wildcard.Aliases)
    requires Labels.Holds(m, labels) && Wildcard.AliasesGetWildcards(wild, aliasSet, labels)
    ensures AllReadable(m, wild, aliasSet)
  {
    hide Labels.Holds, Labels.Lookup, PathUnder, Wildcard.LabelFor, Wildcard.Ref, Labels.Routed;
    forall a, s | a in aliasSet && s in wild
      ensures Labels.Lookup(Labels.Sub(m), PathUnder(Wildcard.Ref(aliasSet[a]), s)) == Some(wild[s])
    {
      Wildcard.RefFacts(aliasSet[a], 0);
      PathOfLabelFor(Wildcard.Ref(aliasSet[a]), s);
      HeldAt(m, labels, Wildcard.LabelFor(Wildcard.Ref(aliasSet[a]), s));
    }
  }

  // ----- when the labels are such that no path is above another after the expansion

  // Every label under "proxy." is a wildcard or names an alias and a suffix.
  ghost predicate Plain(labels: Wildcard.Flat) {
    forall l :: l in labels && Labels.Routed(l) && !Wildcard.IsWildcard(l) ==> Wildcard.Discovered(l).Some?
  }

  // An alias is given a suffix by a label of its own or by a wildcard.
  ghost predicate Given(labels: Wildcard.Flat, yaml: Wildcard.Yaml, a: string, s: string) {
    || (exists l :: l in labels && !Wildcard.IsWildcard(l) && Wildcard.ShapeOf(l) == Wildcard.Dots(a, s))
    || (exists l :: l in labels && s in Wildcard.Contribution(l, labels[l], yaml))
  }

  // No alias is given a suffix above another.
  ghost predicate SuffixFree(labels: Wildcard.Flat, known: set<string>, yaml: Wildcard.Yaml) {
    forall a, s, t :: a in known && Given(labels, yaml, a, s) && Given(labels, yaml, a, t) ==>
      !Labels.ProperPrefix(Split(s), Split(t))
  }

  // The labels under "proxy." are what the aliases are given, under the names that stand for them.
  ghost predicate OnlyGiven(labels: Wildcard.Flat, yaml: Wildcard.Yaml, names: Wildcard.Flat, out: Wildcard.Flat) {
    && (forall a, s :: a in names && Given(labels, yaml, a, s) ==> '.' !in names[a] && Wildcard.LabelFor(names[a], s) in out)
    && (forall f :: f in out && Labels.Routed(f) ==>
          exists a, s :: a in names && Given(labels, yaml, a, s) && f == Wildcard.LabelFor(names[a], s))
  }

  lemma UnderOneName(m: string, n: string, p: seq<string>, q: seq<string>)
    ensures Labels.ProperPrefix([m] + p, [n] + q) <==> m == n && Labels.ProperPrefix(p, q)
  {
    if |p| < |q| {
      assert ([n] + q)[..|p| + 1] == [n] + q[..|p|];
      assert ([m] + p)[1..] == p && ([n] + q[..|p|])[1..] == q[..|p|];
    }
  }

  lemma FreeIff(labels: Wildcard.Flat, yaml: Wildcard.Yaml, names: Wildcard.Flat, out: Wildcard.Flat)
    requires OnlyGiven(labels, yaml, names, out)
    requires forall a, b :: a in names && b in names && names[a] == names[b] ==> a == b
    ensures Labels.PrefixFree(out) <==> SuffixFree(labels, names.Keys, yaml)
  {
    hide Given, Labels.ProperPrefix, Labels.Routed, Labels.PathOf, Split, Wildcard.LabelFor;
    if Labels.PrefixFree(out) {
      forall a, s, t | a in names.Keys && Given(labels, yaml, a, s) && Given(labels, yaml, a, t)
        ensures !Labels.ProperPrefix(Split(s), Split(t))
      {
        PathOfLabelFor(names[a], s);
        PathOfLabelFor(names[a], t);
        UnderOneName(names[a], names[a], Split(s), Split(t));
      }
    }
    if SuffixFree(labels, names.Keys, yaml) {
      forall f, g | f in out && g in out && Labels.Routed(f) && Labels.Routed(g)
        ensures !Labels.ProperPrefix(Labels.PathOf(f), Labels.PathOf(g))
      {
        var a, s :| a in names && Given(labels, yaml, a, s) && f == Wildcard.LabelFor(names[a], s);
        var b, t :| b in names && Given(labels, yaml, b, t) && g == Wildcard.LabelFor(names[b], t);
        PathOfLabelFor(names[a], s);
        PathOfLabelFor(names[b], t);
        UnderOneName(names[a], names[b], Split(s), Split(t));
        assert a in names.Keys;
      }
    }
  }

  // What a label under "proxy." gives in a plain set.
  lemma PlainGives(labels: Wildcard.Flat, aliases: seq<string>, yaml: Wildcard.Yaml, l: string)
    requires Plain(labels) && l in labels && Labels.Routed(l) && !Wildcard.IsWildcard(l)
    ensures var sh := Wildcard.ShapeOf(l);
            && sh.Dots? && sh.alias != "" && sh.alias[0] != '#' && '.' !in sh.alias
            && l == Wildcard.LabelFor(sh.alias, sh.suffix)
            && sh.alias in Wildcard.Known(labels, labels.Keys, aliases) && Given(labels, yaml, sh.alias, sh.suffix)
  {
    hide Labels.Routed, Wildcard.Contribution;
    Wildcard.LabelOfShape(l);
    assert l in labels.Keys && Wildcard.Discovered(l) == Some(Wildcard.ShapeOf(l).alias);
  }

  lemma WildGives(labels: Wildcard.Flat, yaml: Wildcard.Yaml, wild: Wildcard.Flat, s: string)
    requires Wildcard.Collected(labels, labels.Keys, yaml, wild)
    ensures s in wild <==> exists l :: l in labels && s in Wildcard.Contribution(l, labels[l], yaml)
  {
    hide Wildcard.Contribution;
    if l :| l in labels && s in Wildcard.Contribution(l, labels[l], yaml) {
      assert l in labels.Keys;
    }
  }

  // The references of the aliases.
  ghost function Refs(aliasSet: Wildcard.Aliases): Wildcard.Flat {
    map a | a in aliasSet :: Wildcard.Ref(aliasSet[a])
  }

  lemma ExpandedOnlyGiven(labels: Wildcard.Flat, aliases: seq<string>, yaml: Wildcard.Yaml,
                          wild: Wildcard.Flat, aliasSet: Wildcard.Aliases, out: Wildcard.Flat)
    requires Plain(labels) && Wildcard.Collected(labels, labels.Keys, yaml, wild) && Wildcard.Expanded(labels, wild, aliasSet, out)
    requires aliasSet.Keys == Wildcard.Known(labels, labels.Keys, aliases)
    ensures OnlyGiven(labels, yaml, Refs(aliasSet), out)
  {
    hide Given, Labels.Routed, Wildcard.LabelFor, Wildcard.Collected, Wildcard.Expanded, Plain, Wildcard.Known;
    hide Wildcard.Ref, Wildcard.Written;
    var names := Refs(aliasSet);
    forall a, s | a in names && Given(labels, yaml, a, s) ensures '.' !in names[a] && Wildcard.LabelFor(names[a], s) in out {
      Wildcard.RefFacts(aliasSet[a], 0);
      GivenIsWritten(labels, yaml, wild, aliasSet, a, s);
      Wildcard.KeysIff(labels, wild, aliasSet, out, Wildcard.LabelFor(names[a], s));
    }
    forall f | f in out && Labels.Routed(f)
      ensures exists a, s :: a in names && Given(labels, yaml, a, s) && f == Wildcard.LabelFor(names[a], s)
    {
      Wildcard.KeysIff(labels, wild, aliasSet, out, f);
      var a, s := WrittenIsGiven(labels, aliases, yaml, wild, aliasSet, f);
    }
  }

  lemma GivenIsWritten(labels: Wildcard.Flat, yaml: Wildcard.Yaml,
                       wild: Wildcard.Flat, aliasSet: Wildcard.Aliases, a: string, s: string)
    requires Plain(labels) && Wildcard.Collected(labels, labels.Keys, yaml, wild)
    requires a in aliasSet && Given(labels, yaml, a, s)
    ensures Wildcard.Written(labels, wild, aliasSet, Wildcard.LabelFor(Wildcard.Ref(aliasSet[a]), s))
  {
    WildGives(labels, yaml, wild, s);
    hide Labels.Routed, Wildcard.Contribution, Wildcard.LabelFor, Wildcard.Collected, Wildcard.ShapeOf;
    hide Wildcard.Ref, Wildcard.IsWildcard;
    if l :| l in labels && !Wildcard.IsWildcard(l) && Wildcard.ShapeOf(l) == Wildcard.Dots(a, s) {
      Wildcard.LabelOfShape(l);
      PathOfLabelFor(a, s);
      assert Wildcard.Place(l, aliasSet) == Wildcard.LabelFor(Wildcard.Ref(aliasSet[a]), s);
    }
  }

  lemma WrittenIsGiven(labels: Wildcard.Flat, aliases: seq<string>, yaml: Wildcard.Yaml,
                       wild: Wildcard.Flat, aliasSet: Wildcard.Aliases, f: string) returns (a: string, s: string)
    requires Plain(labels) && Wildcard.Collected(labels, labels.Keys, yaml, wild)
    requires aliasSet.Keys == Wildcard.Known(labels, labels.Keys, aliases)
    requires Labels.Routed(f) && Wildcard.Written(labels, wild, aliasSet, f)
    ensures a in aliasSet && Given(labels, yaml, a, s) && f == Wildcard.LabelFor(Wildcard.Ref(aliasSet[a]), s)
  {
    hide Labels.Routed, Wildcard.Contribution, Wildcard.LabelFor, Wildcard.Collected, Wildcard.ShapeOf;
    hide Wildcard.Ref, Wildcard.IsWildcard, Plain, Wildcard.Known;
    if l :| l in labels && !Wildcard.IsWildcard(l) && Wildcard.Place(l, aliasSet) == f {
      if !Wildcard.Explicit(l, aliasSet) {
        PlainGives(labels, aliases, yaml, l);
      }
      a, s := Wildcard.ShapeOf(l).alias, Wildcard.ShapeOf(l).suffix;
    } else {
      a, s :| a in aliasSet && s in wild && Wildcard.LabelFor(Wildcard.Ref(aliasSet[a]), s) == f;
      WildGives(labels, yaml, wild, s);
    }
  }

  lemma KeptOnlyGiven(labels: Wildcard.Flat, aliases: seq<string>, yaml: Wildcard.Yaml, wild: Wildcard.Flat)
    requires Plain(labels) && Wildcard.Collected(labels, labels.Keys, yaml, wild)
    requires wild == map[] || Wildcard.Known(labels, labels.Keys, aliases) == {}
    ensures var known := Wildcard.Known(labels, labels.Keys, aliases);
            OnlyGiven(labels, yaml, map a | a in known :: a, Wildcard.Without(labels, labels.Keys))
  {
    hide Labels.Routed, Wildcard.Contribution, Wildcard.LabelFor, Wildcard.Collected, Wildcard.ShapeOf;
    hide Wildcard.IsWildcard, Plain, Wildcard.Known, Given;
    var out, known := Wildcard.Without(labels, labels.Keys), Wildcard.Known(labels, labels.Keys, aliases);
    forall a, s | a in known && Given(labels, yaml, a, s) ensures '.' !in a && Wildcard.LabelFor(a, s) in out {
      GivenAlone(labels, yaml, wild, a, s);
    }
    forall f | f in out && Labels.Routed(f)
      ensures exists a, s :: a in known && Given(labels, yaml, a, s) && f == Wildcard.LabelFor(a, s)
    {
      PlainGives(labels, aliases, yaml, f);
    }
  }

  lemma GivenAlone(labels: Wildcard.Flat, yaml: Wildcard.Yaml, wild: Wildcard.Flat, a: string, s: string)
    requires Wildcard.Collected(labels, labels.Keys, yaml, wild) && wild == map[] && Given(labels, yaml, a, s)
    ensures '.' !in a && Wildcard.LabelFor(a, s) in labels && !Wildcard.IsWildcard(Wildcard.LabelFor(a, s))
  {
    WildGives(labels, yaml, wild, s);
    hide Wildcard.Contribution, Wildcard.LabelFor, Wildcard.Collected, Wildcard.ShapeOf, Wildcard.IsWildcard;
    var l :| l in labels && !Wildcard.IsWildcard(l) && Wildcard.ShapeOf(l) == Wildcard.Dots(a, s);
    Wildcard.LabelOfShape(l);
  }

  // In a plain set that was expanded no path is above another exactly when no alias was given a suffix above another.
  lemma PrefixFreeIff(labels: Wildcard.Flat, aliases: seq<string>, yaml: Wildcard.Yaml,
                      wild: Wildcard.Flat, aliasSet: Wildcard.Aliases, out: Wildcard.Flat)
    requires Plain(labels) && Wildcard.Collected(labels, labels.Keys, yaml, wild) && Wildcard.Injective(aliasSet)
    requires aliasSet.Keys == Wildcard.Known(labels, labels.Keys, aliases)
    requires if aliasSet == map[] || wild == map[] then out == Wildcard.Without(labels, labels.Keys)
             else Wildcard.Expanded(labels, wild, aliasSet, out)
    ensures Labels.PrefixFree(out) <==> SuffixFree(labels, aliasSet.Keys, yaml)
  {
    hide Labels.PrefixFree, SuffixFree, OnlyGiven, Plain, Wildcard.Collected, Wildcard.Expanded, Wildcard.Known;
    hide Wildcard.Ref, Wildcard.Without;
    if aliasSet == map[] || wild == map[] {
      KeptOnlyGiven(labels, aliases, yaml, wild);
      FreeIff(labels, yaml, map a | a in aliasSet.Keys :: a, out);
    } else {
      ExpandedOnlyGiven(labels, aliases, yaml, wild, aliasSet, out);
      forall a, b | a in aliasSet && b in aliasSet && Refs(aliasSet)[a] == Refs(aliasSet)[b] ensures a == b {
        Wildcard.RefFacts(aliasSet[a], aliasSet[b]);
      }
      FreeIff(labels, yaml, Refs(aliasSet), out);
    }
    assert Refs(aliasSet).Keys == aliasSet.Keys == (map a | a in aliasSet.Keys :: a).Keys;
  }

  // ----- the same for any labels

  // The name a label with a suffix goes under.
  function NameOf(l: string, aliasSet: Wildcard.Aliases): string
    requires Wildcard.ShapeOf(l).Dots?
  {
    if Wildcard.Explicit(l, aliasSet) then Wildcard.Ref(aliasSet[Wildcard.ShapeOf(l).alias]) else Wildcard.ShapeOf(l).alias
  }

  // The suffix comes under the name, from a label that goes there or, if the name is the reference of an alias, a wildcard.
  ghost predicate Under(labels: Wildcard.Flat, yaml: Wildcard.Yaml, aliasSet: Wildcard.Aliases, name: string, s: string) {
    || (exists l :: && l in labels && !Wildcard.IsWildcard(l) && Wildcard.ShapeOf(l).Dots?
                    && NameOf(l, aliasSet) == name && Wildcard.ShapeOf(l).suffix == s)
    || (&& (exists a :: a in aliasSet && Wildcard.Ref(aliasSet[a]) == name)
        && (exists l :: l in labels && s in Wildcard.Contribution(l, labels[l], yaml)))
  }

  // A label without a suffix.
  ghost predicate BareName(labels: Wildcard.Flat, name: string) {
    exists l :: l in labels && !Wildcard.IsWildcard(l) && Wildcard.ShapeOf(l) == Wildcard.Bare(name)
  }

  // Under no name is a suffix above another, or there is a label without a suffix beside one.
  ghost predicate Tidy(labels: Wildcard.Flat, yaml: Wildcard.Yaml, aliasSet: Wildcard.Aliases) {
    && (forall name, s, t :: Under(labels, yaml, aliasSet, name, s) && Under(labels, yaml, aliasSet, name, t) ==>
          !Labels.ProperPrefix(Split(s), Split(t)))
    && (forall name, s :: BareName(labels, name) ==> !Under(labels, yaml, aliasSet, name, s))
  }

  // The aliases by which labels move: none when there are no wildcards.
  ghost function Moving(wild: Wildcard.Flat, aliasSet: Wildcard.Aliases): Wildcard.Aliases {
    if wild == map[] then map[] else aliasSet
  }

  function PathOfShape(sh: Wildcard.Shape): seq<string>
    requires !sh.Foreign?
  {
    if sh.Bare? then [sh.alias] else [sh.alias] + Split(sh.suffix)
  }

  lemma ShapePath(f: string)
    ensures Labels.Routed(f) <==> !Wildcard.ShapeOf(f).Foreign?
    ensures Labels.Routed(f) ==> Labels.PathOf(f) == PathOfShape(Wildcard.ShapeOf(f))
  {
    var sh := Wildcard.ShapeOf(f);
    if sh.Dots? {
      Wildcard.LabelOfShape(f);
      PathOfLabelFor(sh.alias, sh.suffix);
    } else if sh.Bare? {
      assert f == "proxy" + "." + sh.alias by { assert f == f[..6] + f[6..]; }
      assert '.' !in sh.alias;
      SplitFirst("proxy", sh.alias);
      SplitNoDot(sh.alias);
    } else if Labels.Routed(f) {
      RoutedStarts(f);
    }
  }

  lemma RoutedStarts(f: string)
    requires Labels.Routed(f)
    ensures |f| >= 6 && f[..6] == "proxy."
  {
    var p := Labels.PathOf(f);
    Labels.RoutedJoins(f);
    assert (["proxy"] + p)[1..] == p;
    assert f == "proxy" + "." + Join(p);
  }

  lemma PlaceShape(l: string, aliasSet: Wildcard.Aliases)
    ensures var sh := Wildcard.ShapeOf(l);
            Wildcard.ShapeOf(Wildcard.Place(l, aliasSet)) == if sh.Dots? then Wildcard.Dots(NameOf(l, aliasSet), sh.suffix) else sh
  {
    if Wildcard.Explicit(l, aliasSet) {
      Wildcard.TargetShape(l, aliasSet);
    }
    hide Wildcard.Target, Wildcard.Ref;
  }

  lemma WrittenUnder(labels: Wildcard.Flat, yaml: Wildcard.Yaml, wild: Wildcard.Flat, aliasSet: Wildcard.Aliases, f: string)
    requires Wildcard.Collected(labels, labels.Keys, yaml, wild)
    requires Wildcard.Written(labels, wild, aliasSet, f) && Labels.Routed(f)
    ensures var sh := Wildcard.ShapeOf(f);
            if sh.Bare? then BareName(labels, sh.alias) else sh.Dots? && Under(labels, yaml, aliasSet, sh.alias, sh.suffix)
  {
    ShapePath(f);
    hide Labels.Routed, Wildcard.ShapeOf, Wildcard.Contribution, Wildcard.Collected, Wildcard.Place, Wildcard.LabelFor,
      Wildcard.IsWildcard, NameOf;
    if l :| l in labels && !Wildcard.IsWildcard(l) && Wildcard.Place(l, aliasSet) == f {
      PlaceShape(l, aliasSet);
      BarePlace(l, aliasSet);
    } else {
      var a, s :| a in aliasSet && s in wild && Wildcard.LabelFor(Wildcard.Ref(aliasSet[a]), s) == f;
      Wildcard.RefFacts(aliasSet[a], 0);
      Wildcard.ShapeOfLabel(Wildcard.Ref(aliasSet[a]), s);
      WildGives(labels, yaml, wild, s);
    }
  }

  lemma BarePlace(l: string, aliasSet: Wildcard.Aliases)
    ensures !Wildcard.ShapeOf(l).Dots? ==> Wildcard.Place(l, aliasSet) == l
  {
  }

  lemma UnderWritten(labels: Wildcard.Flat, yaml: Wildcard.Yaml, wild: Wildcard.Flat, aliasSet: Wildcard.Aliases, name: string, s: string)
    requires Wildcard.Collected(labels, labels.Keys, yaml, wild) && Under(labels, yaml, aliasSet, name, s)
    ensures '.' !in name && Wildcard.Written(labels, wild, aliasSet, Wildcard.LabelFor(name, s))
  {
    hide Wildcard.ShapeOf, Wildcard.Contribution, Wildcard.Collected, Wildcard.Place, Wildcard.LabelFor, Wildcard.IsWildcard, NameOf;
    if l :| && l in labels && !Wildcard.IsWildcard(l) && Wildcard.ShapeOf(l).Dots?
            && NameOf(l, aliasSet) == name && Wildcard.ShapeOf(l).suffix == s {
      PlaceShape(l, aliasSet);
      Wildcard.LabelOfShape(Wildcard.Place(l, aliasSet));
    } else {
      var a :| a in aliasSet && Wildcard.Ref(aliasSet[a]) == name;
      Wildcard.RefFacts(aliasSet[a], 0);
      WildGives(labels, yaml, wild, s);
    }
  }

  lemma BareWritten(labels: Wildcard.Flat, wild: Wildcard.Flat, aliasSet: Wildcard.Aliases, name: string) returns (f: string)
    requires BareName(labels, name)
    ensures Wildcard.Written(labels, wild, aliasSet, f) && Wildcard.ShapeOf(f) == Wildcard.Bare(name)
  {
    f :| f in labels && !Wildcard.IsWildcard(f) && Wildcard.ShapeOf(f) == Wildcard.Bare(name);
    BarePlace(f, aliasSet);
    hide Wildcard.ShapeOf, Wildcard.Place;
  }

  // What the labels are after the expansion, whether it did anything or not.
  lemma OutKeys(labels: Wildcard.Flat, wild: Wildcard.Flat, aliasSet: Wildcard.Aliases, out: Wildcard.Flat, f: string)
    requires if aliasSet == map[] || wild == map[] then out == Wildcard.Without(labels, labels.Keys)
             else Wildcard.Expanded(labels, wild, aliasSet, out)
    ensures f in out <==> Wildcard.Written(labels, wild, Moving(wild, aliasSet), f)
  {
    hide Wildcard.Expanded, Wildcard.ShapeOf, Wildcard.LabelFor;
    if aliasSet == map[] || wild == map[] {
      assert forall l :: Wildcard.Place(l, map[]) == l;
    } else {
      Wildcard.KeysIff(labels, wild, aliasSet, out, f);
    }
  }

  ghost predicate SameKeys(labels: Wildcard.Flat, wild: Wildcard.Flat, aliasSet: Wildcard.Aliases, out: Wildcard.Flat) {
    forall f :: f in out <==> Wildcard.Written(labels, wild, aliasSet, f)
  }

  lemma TidyIsFree(labels: Wildcard.Flat, yaml: Wildcard.Yaml, wild: Wildcard.Flat, aliasSet: Wildcard.Aliases, out: Wildcard.Flat)
    requires Wildcard.Collected(labels, labels.Keys, yaml, wild) && SameKeys(labels, wild, aliasSet, out)
    requires Tidy(labels, yaml, aliasSet)
    ensures Labels.PrefixFree(out)
  {
    hide Wildcard.Collected, Wildcard.Written, Under, BareName, Labels.Routed, Labels.PathOf, Wildcard.ShapeOf, Labels.ProperPrefix, Split;
    forall f, g | f in out && g in out && Labels.Routed(f) && Labels.Routed(g)
      ensures !Labels.ProperPrefix(Labels.PathOf(f), Labels.PathOf(g))
    {
      WrittenUnder(labels, yaml, wild, aliasSet, f);
      WrittenUnder(labels, yaml, wild, aliasSet, g);
      ShapePath(f);
      ShapePath(g);
      ShapesApart(Wildcard.ShapeOf(f), Wildcard.ShapeOf(g));
    }
  }

  // When the path of one shape is above that of another.
  lemma ShapesApart(f: Wildcard.Shape, g: Wildcard.Shape)
    requires !f.Foreign? && !g.Foreign?
    ensures Labels.ProperPrefix(PathOfShape(f), PathOfShape(g))
            <==> f.alias == g.alias && g.Dots? && (f.Bare? || Labels.ProperPrefix(Split(f.suffix), Split(g.suffix)))
  {
    if f.Dots? && g.Dots? {
      UnderOneName(f.alias, g.alias, Split(f.suffix), Split(g.suffix));
    } else if g.Dots? {
      assert ([g.alias] + Split(g.suffix))[..1] == [g.alias];
    }
    hide Split;
  }

  lemma FreeIsTidy(labels: Wildcard.Flat, yaml: Wildcard.Yaml, wild: Wildcard.Flat, aliasSet: Wildcard.Aliases, out: Wildcard.Flat)
    requires Wildcard.Collected(labels, labels.Keys, yaml, wild) && SameKeys(labels, wild, aliasSet, out)
    requires Labels.PrefixFree(out)
    ensures Tidy(labels, yaml, aliasSet)
  {
    hide Wildcard.Collected, Wildcard.Written, Under, BareName, Labels.Routed, Labels.PathOf, Wildcard.ShapeOf, Wildcard.LabelFor,
      Labels.ProperPrefix, Split;
    forall name, s, t | Under(labels, yaml, aliasSet, name, s) && Under(labels, yaml, aliasSet, name, t)
      ensures !Labels.ProperPrefix(Split(s), Split(t))
    {
      UnderWritten(labels, yaml, wild, aliasSet, name, s);
      UnderWritten(labels, yaml, wild, aliasSet, name, t);
      PathOfLabelFor(name, s);
      PathOfLabelFor(name, t);
      UnderOneName(name, name, Split(s), Split(t));
      assert Wildcard.LabelFor(name, s) in out && Wildcard.LabelFor(name, t) in out;
    }
    forall name, s | BareName(labels, name) ensures !Under(labels, yaml, aliasSet, name, s) {
      if Under(labels, yaml, aliasSet, name, s) {
        var f := BareWritten(labels, wild, aliasSet, name);
        UnderWritten(labels, yaml, wild, aliasSet, name, s);
        ShapePath(f);
        PathOfLabelFor(name, s);
        ShapesApart(Wildcard.Bare(name), Wildcard.Dots(name, s));
      }
    }
  }

  // For any labels and aliases: no path is above another after the expansion exactly when, before it, no suffix is above
  // another under the name that both come to, and no label without a suffix has such a name.
  lemma TidyIff(labels: Wildcard.Flat, yaml: Wildcard.Yaml, wild: Wildcard.Flat, aliasSet: Wildcard.Aliases, out: Wildcard.Flat)
    requires Wildcard.Collected(labels, labels.Keys, yaml, wild)
    requires if aliasSet == map[] || wild == map[] then out == Wildcard.Without(labels, labels.Keys)
             else Wildcard.Expanded(labels, wild, aliasSet, out)
    ensures Labels.PrefixFree(out) <==> Tidy(labels, yaml, Moving(wild, aliasSet))
  {
    hide *;
    hide Wildcard.Expanded, Wildcard.Collected, Wildcard.Written, Labels.PrefixFree, Wildcard.Without;
    assert SameKeys(labels, wild, Moving(wild, aliasSet), out) by {
      KeysAre(labels, wild, aliasSet, out);
    }
    if Tidy(labels, yaml, Moving(wild, aliasSet)) {
      TidyIsFree(labels, yaml, wild, Moving(wild, aliasSet), out);
    }
    if Labels.PrefixFree(out) {
      FreeIsTidy(labels, yaml, wild, Moving(wild, aliasSet), out);
    }
  }

  lemma KeysAre(labels: Wildcard.Flat, wild: Wildcard.Flat, aliasSet: Wildcard.Aliases, out: Wildcard.Flat)
    requires if aliasSet == map[] || wild == map[] then out == Wildcard.Without(labels, labels.Keys)
             else Wildcard.Expanded(labels, wild, aliasSet, out)
    ensures SameKeys(labels, wild, Moving(wild, aliasSet), out)
  {
    hide Wildcard.Expanded, Wildcard.Written, Wildcard.Without;
    forall f ensures f in out <==> Wildcard.Written(labels, wild, Moving(wild, aliasSet), f) {
      OutKeys(labels, wild, aliasSet, out, f);
    }
  }

  // The parser expands, then nests; what is left after the expansion is what has to be free of prefixes.
  method ParseLabels(labels: Wildcard.Flat, aliases: seq<string>, yaml: Wildcard.Yaml)
    returns (crash: bool, nested: Labels.LabelMap, errs: nat, expanded: Wildcard.Flat,
             ghost wild: Wildcard.Flat, ghost aliasSet: Wildcard.Aliases)
    ensures !crash ==> (Labels.Holds(nested, expanded) <==> Labels.PrefixFree(expanded))
    ensures !crash && Labels.PrefixFree(expanded) ==>
              && errs == (if Labels.NS_PROXY in expanded then 1 else 0)
              && (aliasSet != map[] && wild != map[] ==> AllReadable(nested, wild, aliasSet))
    ensures !crash ==> Wildcard.Collected(labels, labels.Keys, yaml, wild)
    ensures !crash ==> (Labels.PrefixFree(expanded) <==> Tidy(labels, yaml, Moving(wild, aliasSet)))
    ensures !crash && Wildcard.Distinct(aliases) && Plain(labels) ==>
              (Labels.PrefixFree(expanded) <==> SuffixFree(labels, Wildcard.Known(labels, labels.Keys, aliases), yaml))
    ensures crash <==> Wildcard.MustCrash(labels, aliases, yaml)
  {
    hide *;
    crash, expanded, wild, aliasSet := Wildcard.ExpandWildcard(labels, aliases, yaml);
    nested, errs := map[], 0;
    if crash {
      return;
    }
    TidyIff(labels, yaml, wild, aliasSet, expanded);
    if Wildcard.Distinct(aliases) && Plain(labels) {
      Wildcard.NumbersInjective(aliasSet);
      PrefixFreeIff(labels, aliases, yaml, wild, aliasSet, expanded);
    }
    ghost var order;
    nested, errs, order := Labels.ParseExpanded(expanded);
    if Labels.PrefixFree(expanded) && aliasSet != map[] && wild != map[] {
      Wildcard.ExpandedGives(labels, wild, aliasSet, expanded);
      ReadableFrom(nested, expanded, wild, aliasSet);
    }
  }
}
