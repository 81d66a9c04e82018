/**
 What the expansion of wildcard labels does, on the texts of labels: which label gives which value to which alias, which
 aliases are known, and when it crashes.
 */
module WildcardText {
  import opened Decimal
  import opened Options
  import opened Wildcard

  lemma DotsIff(lbl: string, a: string, s: string)
    ensures ShapeOf(lbl) == Dots(a, s) <==> '.' !in a && lbl == LabelFor(a, s)
  {
    if ShapeOf(lbl) == Dots(a, s) {
      LabelOfShape(lbl);
    }
    if '.' !in a && lbl == LabelFor(a, s) {
      ShapeOfLabel(a, s);
    }
  }

  lemma BareIff(lbl: string, a: string)
    ensures ShapeOf(lbl) == Bare(a) <==> '.' !in a && lbl == "proxy." + a
  {
    if ShapeOf(lbl) == Bare(a) {
      assert lbl == lbl[..6] + lbl[6..];
    }
    if '.' !in a && lbl == "proxy." + a {
      assert lbl[..6] == "proxy." && lbl[6..] == a;
    }
  }

  // Two line breaks: a value of more than two lines.
  ghost predicate TwoBreaks(v: string) {
    exists i, j :: 0 <= i < j < |v| && v[i] == '\n' && v[j] == '\n'
  }

  lemma {:induction false} BreaksCounted(v: string)
    ensures Newlines(v) > 0 <==> '\n' in v
    ensures Newlines(v) > 1 <==> TwoBreaks(v)
  {
    if v != "" {
      BreaksCounted(v[1..]);
      assert v == [v[0]] + v[1..];
      if TwoBreaks(v) {
        var i, j :| 0 <= i < j < |v| && v[i] == '\n' && v[j] == '\n';
        assert v[1..][j - 1] == '\n';
        assert i > 0 ==> v[1..][i - 1] == '\n';
      }
      if TwoBreaks(v[1..]) {
        var i, j :| 0 <= i < j < |v[1..]| && v[1..][i] == '\n' && v[1..][j] == '\n';
        assert v[i + 1] == '\n' && v[j + 1] == '\n';
      }
      if v[0] == '\n' && '\n' in v[1..] {
        var j :| 0 <= j < |v[1..]| && v[1..][j] == '\n';
        assert v[j + 1] == '\n';
      }
    }
  }

  // The label is "proxy.*" or begins with "proxy.*.".
  ghost predicate WildText(lbl: string) {
    lbl == "proxy.*" || exists s :: lbl == LabelFor("*", s)
  }

  // The label gives the suffix s the value x: a document gives what it holds, and what stands over at most two lines gives
  // itself.
  ghost predicate Gives(lbl: string, value: string, yaml: Yaml, s: string, x: string) {
    || (lbl == "proxy.*" && s in yaml(value) && yaml(value)[s] == x)
    || (exists t :: lbl == LabelFor("*", t) &&
          if t == "" || TwoBreaks(value) then s in yaml(value) && yaml(value)[s] == x else s == t && value == x)
  }

  lemma WildIff(lbl: string)
    ensures IsWildcard(lbl) <==> WildText(lbl)
  {
    BareIff(lbl, "*");
    forall s ensures ShapeOf(lbl) == Dots("*", s) <==> lbl == LabelFor("*", s) { DotsIff(lbl, "*", s); }
    hide ShapeOf, LabelFor;
    match ShapeOf(lbl)
    case Foreign =>
    case Bare(_) =>
    case Dots(a, s) => assert a == "*" ==> ShapeOf(lbl) == Dots("*", s);
  }

  lemma GivesIff(lbl: string, value: string, yaml: Yaml, s: string, x: string)
    ensures Gives(lbl, value, yaml, s, x) <==> s in Contribution(lbl, value, yaml) && Contribution(lbl, value, yaml)[s] == x
  {
    BareIff(lbl, "*");
    BreaksCounted(value);
    forall t ensures ShapeOf(lbl) == Dots("*", t) <==> lbl == LabelFor("*", t) { DotsIff(lbl, "*", t); }
    hide ShapeOf, LabelFor, Newlines, TwoBreaks;
    if Gives(lbl, value, yaml, s, x) && lbl != "proxy.*" {
      var t :| lbl == LabelFor("*", t) &&
        if t == "" || TwoBreaks(value) then s in yaml(value) && yaml(value)[s] == x else s == t && value == x;
      assert ShapeOf(lbl) == Dots("*", t);
    }
    if s in Contribution(lbl, value, yaml) && ShapeOf(lbl).Dots? {
      assert lbl == LabelFor("*", ShapeOf(lbl).suffix);
    }
  }

  // An alias that can be written in a label of its own.
  predicate Named(a: string) {
    '.' !in a && a != "" && a[0] != '#' && a != "*"
  }

  lemma KnownIff(labels: Flat, aliases: seq<string>, a: string)
    ensures a in Known(labels, labels.Keys, aliases)
            <==> a in aliases || (Named(a) && exists s :: s != "" && LabelFor(a, s) in labels)
  {
    forall l ensures Discovered(l) == Some(a) <==> Named(a) && exists s :: s != "" && l == LabelFor(a, s) { DiscoveredIff(l, a); }
    hide Discovered, LabelFor, Named;
    if exists l :: l in labels && l in labels.Keys && Discovered(l) == Some(a) {
      var l :| l in labels && l in labels.Keys && Discovered(l) == Some(a);
      var s :| s != "" && l == LabelFor(a, s);
      assert LabelFor(a, s) in labels;
    }
    if Named(a) && exists s :: s != "" && LabelFor(a, s) in labels {
      var s :| s != "" && LabelFor(a, s) in labels;
      assert Discovered(LabelFor(a, s)) == Some(a) && LabelFor(a, s) in labels.Keys;
    }
  }

  lemma DiscoveredIff(lbl: string, a: string)
    ensures Discovered(lbl) == Some(a) <==> Named(a) && exists s :: s != "" && lbl == LabelFor(a, s)
  {
    forall s ensures ShapeOf(lbl) == Dots(a, s) <==> '.' !in a && lbl == LabelFor(a, s) { DotsIff(lbl, a, s); }
    hide ShapeOf, LabelFor;
    if Discovered(lbl) == Some(a) {
      assert lbl == LabelFor(a, ShapeOf(lbl).suffix);
    }
    if Named(a) && exists s :: s != "" && lbl == LabelFor(a, s) {
      var s :| s != "" && lbl == LabelFor(a, s);
      assert ShapeOf(lbl) == Dots(a, s);
    }
  }

  // The crash, on texts: an alias is empty, or there are more than a hundred.
  lemma MustCrashIff(labels: Flat, aliases: seq<string>, yaml: Yaml)
    ensures MustCrash(labels, aliases, yaml) <==>
            || (exists s :: s != "" && LabelFor("", s) in labels)
            || (&& (exists a :: a in Known(labels, labels.Keys, aliases))
                && (exists l, s, x :: l in labels && Gives(l, labels[l], yaml, s, x))
                && (LabelFor("", "") in labels || |aliases| > 100 || |Known(labels, labels.Keys, aliases)| > 100))
  {
    forall l, s ensures ShapeOf(l) == Dots("", s) <==> l == LabelFor("", s) { DotsIff(l, "", s); }
    forall l, s, x | l in labels ensures Gives(l, labels[l], yaml, s, x) <==>
      s in Contribution(l, labels[l], yaml) && Contribution(l, labels[l], yaml)[s] == x { GivesIff(l, labels[l], yaml, s, x); }
    hide ShapeOf, LabelFor, Contribution, Gives, Known;
    EmptyAliases(labels);
    SomeGives(labels, yaml);
    hide CrashesFirst, HasEmptyAlias, SomeWild;
  }

  lemma EmptyAliases(labels: Flat)
    requires forall l, s :: ShapeOf(l) == Dots("", s) <==> l == LabelFor("", s)
    ensures (exists l :: l in labels && CrashesFirst(l)) <==> exists s :: s != "" && LabelFor("", s) in labels
    ensures (exists l :: l in labels && HasEmptyAlias(l)) <==> exists s :: LabelFor("", s) in labels
  {
    hide ShapeOf, LabelFor;
    forall l | l in labels && HasEmptyAlias(l) ensures l == LabelFor("", ShapeOf(l).suffix) {
      assert ShapeOf(l) == Dots("", ShapeOf(l).suffix);
    }
    forall s ensures ShapeOf(LabelFor("", s)) == Dots("", s) {}
  }

  lemma SomeGives(labels: Flat, yaml: Yaml)
    requires forall l, s, x :: l in labels ==>
               (Gives(l, labels[l], yaml, s, x) <==> s in Contribution(l, labels[l], yaml) && Contribution(l, labels[l], yaml)[s] == x)
    ensures SomeWild(labels, yaml) <==> exists l, s, x :: l in labels && Gives(l, labels[l], yaml, s, x)
  {
    hide Contribution, Gives;
    if SomeWild(labels, yaml) {
      var l :| l in labels && Contribution(l, labels[l], yaml) != map[];
      var s :| s in Contribution(l, labels[l], yaml);
      assert Gives(l, labels[l], yaml, s, Contribution(l, labels[l], yaml)[s]);
    }
  }

  // No two labels give a suffix different values.
  ghost predicate OneValue(labels: Flat, yaml: Yaml) {
    forall k, l, s, x, y :: k in labels && l in labels && Gives(k, labels[k], yaml, s, x) && Gives(l, labels[l], yaml, s, y) ==> x == y
  }

  // What the wildcards hold is what the labels give.
  lemma WildGiven(labels: Flat, yaml: Yaml, wild: Flat)
    requires Collected(labels, labels.Keys, yaml, wild)
    ensures forall s :: s in wild ==> exists l :: l in labels && Gives(l, labels[l], yaml, s, wild[s])
    ensures forall l, s, x :: l in labels && Gives(l, labels[l], yaml, s, x) ==> s in wild && (OneValue(labels, yaml) ==> wild[s] == x)
  {
    forall l, s, x | l in labels ensures Gives(l, labels[l], yaml, s, x) <==>
      s in Contribution(l, labels[l], yaml) && Contribution(l, labels[l], yaml)[s] == x { GivesIff(l, labels[l], yaml, s, x); }
    hide Contribution, Gives;
  }

  // Every alias gets what every wildcard label gives. Nothing else is under a reference but the labels of its aliases of
  // their own, and what was written there before.
  lemma WildcardsSpread(labels: Flat, yaml: Yaml, wild: Flat, aliasSet: Aliases, out: Flat)
    requires Collected(labels, labels.Keys, yaml, wild) && Expanded(labels, wild, aliasSet, out)
    ensures OneValue(labels, yaml) ==> forall a, l, s, x :: a in aliasSet && l in labels && Gives(l, labels[l], yaml, s, x) ==>
              LabelFor(Ref(aliasSet[a]), s) in out && out[LabelFor(Ref(aliasSet[a]), s)] == x
    ensures forall f :: f in out ==>
              || (exists a, l, s :: a in aliasSet && l in labels && Gives(l, labels[l], yaml, s, out[f]) && f == LabelFor(Ref(aliasSet[a]), s))
              || OwnMoved(labels, aliasSet, f, out[f])
              || (f in labels && labels[f] == out[f] && !WildText(f) && !OfKnown(aliasSet, f))
  {
    WildGiven(labels, yaml, wild);
    hide LabelFor, Ref, Gives, OneValue, Contribution, Collected, ShapeOf;
    forall f | f in out ensures
      || (exists a, l, s :: a in aliasSet && l in labels && Gives(l, labels[l], yaml, s, out[f]) && f == LabelFor(Ref(aliasSet[a]), s))
      || OwnMoved(labels, aliasSet, f, out[f])
      || (f in labels && labels[f] == out[f] && !WildText(f) && !OfKnown(aliasSet, f))
    {
      WildIff(f);
      OfKnownIff(aliasSet, f);
      hide IsWildcard, WildText, Explicit, OfKnown, OwnMoved;
      if OverriddenWith(wild, aliasSet, f, out[f]) {
        var a :| a in aliasSet.Keys && a in aliasSet && Ref(aliasSet[a]) == ShapeOf(f).alias;
        LabelOfShape(f);
        var l :| l in labels && Gives(l, labels[l], yaml, ShapeOf(f).suffix, wild[ShapeOf(f).suffix]);
        assert f == LabelFor(Ref(aliasSet[a]), ShapeOf(f).suffix);
      } else if LandedWith(labels, wild, aliasSet, f, out[f]) {
        LandedIsOwn(labels, wild, aliasSet, f, out[f]);
      }
    }
  }

  // The label is one of a known alias.
  ghost predicate OfKnown(aliasSet: Aliases, f: string) {
    exists a, s :: '.' !in a && a != "" && a[0] != '#' && a in aliasSet && f == LabelFor(a, s)
  }

  // It stands under the reference of an alias instead of under its name.
  ghost predicate OwnMoved(labels: Flat, aliasSet: Aliases, f: string, x: string) {
    exists a, s :: && Named(a) && a in aliasSet && LabelFor(a, s) in labels && labels[LabelFor(a, s)] == x
                   && f == LabelFor(Ref(aliasSet[a]), s)
  }

  lemma OfKnownIff(aliasSet: Aliases, f: string)
    ensures Explicit(f, aliasSet) <==> OfKnown(aliasSet, f)
  {
    forall a, s ensures ShapeOf(f) == Dots(a, s) <==> '.' !in a && f == LabelFor(a, s) { DotsIff(f, a, s); }
    hide ShapeOf, LabelFor;
    if Explicit(f, aliasSet) {
      assert ShapeOf(f) == Dots(ShapeOf(f).alias, ShapeOf(f).suffix);
    }
  }

  lemma LandedIsOwn(labels: Flat, wild: Flat, aliasSet: Aliases, f: string, x: string)
    requires LandedWith(labels, wild, aliasSet, f, x)
    ensures OwnMoved(labels, aliasSet, f, x)
  {
    var l :| l in labels && !IsWildcard(l) && Moves(l, aliasSet, wild) && Target(l, aliasSet) == f && labels[l] == x;
    LabelOfShape(l);
    hide ShapeOf, LabelFor, Ref;
    assert l == LabelFor(ShapeOf(l).alias, ShapeOf(l).suffix);
  }

  // A label of an alias's own goes to its reference, with its value, unless a wildcard gives the suffix or another one goes
  // there; and it is no longer where it was.
  lemma OwnMoves(labels: Flat, yaml: Yaml, wild: Flat, aliasSet: Aliases, out: Flat, a: string, s: string)
    requires Collected(labels, labels.Keys, yaml, wild) && Expanded(labels, wild, aliasSet, out)
    requires Named(a) && a in aliasSet && LabelFor(a, s) in labels
    ensures LabelFor(a, s) !in out && LabelFor(Ref(aliasSet[a]), s) in out
    ensures Injective(aliasSet) && (forall l, x :: l in labels ==> !Gives(l, labels[l], yaml, s, x)) ==>
              out[LabelFor(Ref(aliasSet[a]), s)] == labels[LabelFor(a, s)]
  {
    var lbl := LabelFor(a, s);
    ShapeOfLabel(a, s);
    NoneLeft(labels, wild, aliasSet, out);
    WildGiven(labels, yaml, wild);
    SurviveIff(labels, wild, aliasSet, out);
    hide ShapeOf, LabelFor, Ref, Gives, Contribution, Collected, OneValue, Injective, NoClash, Landed, LandedWith, OthersStay, NothingElse;
    assert Explicit(lbl, aliasSet) && !IsWildcard(lbl) && Target(lbl, aliasSet) == LabelFor(Ref(aliasSet[a]), s);
    if s !in wild {
      assert Moves(lbl, aliasSet, wild);
    }
  }

  lemma OverriddenText(wild: Flat, aliasSet: Aliases, f: string)
    requires Overridden(wild, aliasSet, f)
    ensures exists a, s :: a in aliasSet && f == LabelFor(Ref(aliasSet[a]), s)
  {
    LabelOfShape(f);
    hide ShapeOf, LabelFor, Ref;
    var a :| a in aliasSet.Keys && a in aliasSet && Ref(aliasSet[a]) == ShapeOf(f).alias;
    assert f == LabelFor(Ref(aliasSet[a]), ShapeOf(f).suffix);
  }

  lemma LandedText(labels: Flat, wild: Flat, aliasSet: Aliases, f: string)
    requires Landed(labels, wild, aliasSet, f)
    ensures exists a, s :: a in aliasSet && f == LabelFor(Ref(aliasSet[a]), s)
  {
    hide LabelFor, Ref, IsWildcard;
    var l :| l in labels && !IsWildcard(l) && Moves(l, aliasSet, wild) && Target(l, aliasSet) == f;
  }

  // The others stay, where no wildcard and no moved label goes.
  lemma OtherStays(labels: Flat, wild: Flat, aliasSet: Aliases, out: Flat, f: string)
    requires Expanded(labels, wild, aliasSet, out)
    requires f in labels && !WildText(f) && !OfKnown(aliasSet, f)
    requires forall a, s :: a in aliasSet ==> f != LabelFor(Ref(aliasSet[a]), s)
    ensures f in out && out[f] == labels[f]
  {
    WildIff(f);
    OfKnownIff(aliasSet, f);
    hide WildText, OfKnown, IsWildcard, Explicit, LabelFor, Ref, Overridden, Landed, AliasesGetWildcards, ExplicitLand, NothingElse;
    assert Overridden(wild, aliasSet, f) ==> false by {
      if Overridden(wild, aliasSet, f) { OverriddenText(wild, aliasSet, f); }
    }
    assert Landed(labels, wild, aliasSet, f) ==> false by {
      if Landed(labels, wild, aliasSet, f) { LandedText(labels, wild, aliasSet, f); }
    }
  }

  // ----- instances

  // A document for one alias.
  method DocumentInstance(yaml: Yaml) returns (crash: bool, out: Flat)
    requires yaml("scheme: https") == map["scheme" := "https"]
    ensures !crash && out == map["proxy.#1.scheme" := "https"]
  {
    hide *;
    var labels, aliases := map["proxy.*" := "scheme: https"], ["a"];
    ghost var wild, aliasSet;
    crash, out, wild, aliasSet := ExpandWildcard(labels, aliases, yaml);
    OneKnown(labels, aliases, yaml);
    DocumentGives(labels, yaml);
    NoCrash(labels, aliases, yaml);
    assert !crash;
    OneNumber(aliases, aliasSet);
    WildGiven(labels, yaml, wild);
    assert "proxy.*" in labels && Gives("proxy.*", labels["proxy.*"], yaml, "scheme", "https");
    assert aliasSet != map[] && wild != map[];
    OneOut(labels, yaml, wild, aliasSet, out);
  }

  lemma NoCrash(labels: Flat, aliases: seq<string>, yaml: Yaml)
    requires (forall a, s :: LabelFor(a, s) !in labels) && Known(labels, labels.Keys, aliases) == {"a"} && |aliases| == 1
    ensures !MustCrash(labels, aliases, yaml)
  {
    MustCrashIff(labels, aliases, yaml);
    hide *;
  }

  lemma OneNumber(aliases: seq<string>, aliasSet: Aliases)
    requires aliases == ["a"] && Grown(InitialSet(aliases), aliasSet) && aliasSet.Keys == {"a"}
    ensures aliasSet == map["a" := 0]
  {
    NumbersIff(aliases, aliasSet);
    hide Grown, InitialSet, Numbers;
    assert aliases[0] == "a";
  }

  lemma OneKnown(labels: Flat, aliases: seq<string>, yaml: Yaml)
    requires labels == map["proxy.*" := "scheme: https"] && aliases == ["a"]
    ensures Known(labels, labels.Keys, aliases) == {"a"} && forall a, s :: LabelFor(a, s) !in labels
  {
    forall a, s ensures LabelFor(a, s) != "proxy.*" {
      assert |LabelFor(a, s)| == 7 + |a| + |s| && LabelFor(a, s)[6 + |a|] == '.';
    }
    forall a ensures a in Known(labels, labels.Keys, aliases) <==> a == "a" { KnownIff(labels, aliases, a); }
    hide *;
  }

  lemma DocumentGives(labels: Flat, yaml: Yaml)
    requires labels == map["proxy.*" := "scheme: https"] && (forall a, s :: LabelFor(a, s) !in labels)
    requires yaml("scheme: https") == map["scheme" := "https"]
    ensures forall l, s, x :: l in labels ==> (Gives(l, labels[l], yaml, s, x) <==> s == "scheme" && x == "https")
    ensures OneValue(labels, yaml)
  {
    forall l, s, x | l in labels ensures Gives(l, labels[l], yaml, s, x) <==> s == "scheme" && x == "https" {
      assert forall t :: LabelFor("*", t) !in labels;
    }
    hide Gives;
  }

  lemma OneOut(labels: Flat, yaml: Yaml, wild: Flat, aliasSet: Aliases, out: Flat)
    requires labels == map["proxy.*" := "scheme: https"] && (forall a, s :: LabelFor(a, s) !in labels)
    requires aliasSet == map["a" := 0] && OneValue(labels, yaml)
    requires forall l, s, x :: l in labels ==> (Gives(l, labels[l], yaml, s, x) <==> s == "scheme" && x == "https")
    requires Collected(labels, labels.Keys, yaml, wild) && Expanded(labels, wild, aliasSet, out)
    ensures out == map["proxy.#1.scheme" := "https"]
  {
    hide *;
    WildcardsSpread(labels, yaml, wild, aliasSet, out);
    FirstRef("scheme");
    assert "a" in aliasSet && "proxy.*" in labels && Gives("proxy.*", labels["proxy.*"], yaml, "scheme", "https");
    forall f | f in out ensures f == "proxy.#1.scheme" && out[f] == "https" {
      NoOwn(labels, aliasSet, f, out[f]);
      StarIsWild();
    }
  }

  lemma FirstRef(s: string)
    ensures LabelFor(Ref(0), s) == "proxy.#1." + s
  {
    assert Itoa(1) == "1";
    assert Ref(0) == "#1";
    assert "proxy." + "#1" + "." + s == "proxy.#1." + s;
  }

  lemma NoOwn(labels: Flat, aliasSet: Aliases, f: string, x: string)
    requires forall a, s :: LabelFor(a, s) !in labels
    ensures !OwnMoved(labels, aliasSet, f, x)
  {
    hide LabelFor;
  }

  lemma StarIsWild()
    ensures WildText("proxy.*")
  {
  }
}
