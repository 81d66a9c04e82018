/** Which certificate a server name gets: how names are compared, and who comes first. */
module SniLaws {
  import opened Chars
  import opened Options
  import opened SniMatching

  // ----- how names are compared

  // A name without spaces and upper-case letters, that ends in no dot, is compared as it is.
  predicate Clean(s: string) {
    && (forall i :: 0 <= i < |s| ==> !IsSpace(s[i]) && !('A' <= s[i] <= 'Z'))
    && (s != "" ==> s[|s| - 1] != '.')
  }

  lemma LowerClean(s: string)
    requires forall i :: 0 <= i < |s| ==> !('A' <= s[i] <= 'Z')
    ensures Lower(s) == s
  {
  }

  lemma TrimmedIs(s: string)
    requires s != "" ==> !IsSpace(s[0]) && !IsSpace(s[|s| - 1])
    ensures TrimSpace(s) == s
  {
    if s != "" {
      assert TrimLeft(s, IsSpace) == s;
    }
  }

  lemma NormalizeClean(s: string)
    requires Clean(s)
    ensures Normalize(s) == s
  {
    TrimmedIs(s);
    LowerClean(s);
    hide IsSpace, TrimSpace, Lower;
  }

  // The letters of both are the same but for their case.
  predicate SameLetters(s: string, t: string) {
    |s| == |t| && forall i :: 0 <= i < |s| ==> s[i] == t[i] || ('A' <= s[i] <= 'Z' && t[i] == s[i] - 'A' + 'a')
  }

  lemma LowerSame(s: string, t: string)
    requires SameLetters(s, t) && Clean(t)
    ensures Lower(s) == t
  {
  }

  // Spaces around a name, upper case, and one dot at its end make no difference.
  lemma NormalizeIgnores(before: string, s: string, after: string, t: string)
    requires (forall i :: 0 <= i < |before| ==> IsSpace(before[i])) && (forall i :: 0 <= i < |after| ==> IsSpace(after[i]))
    requires s != "" && SameLetters(s, t) && Clean(t)
    ensures Normalize(before + s + after) == t && Normalize(before + (s + ".") + after) == t
  {
    LettersNoSpace(s, t);
    TrimAround(before, s, after);
    TrimAround(before, s + ".", after);
    LowerSame(s, t);
    hide IsSpace, TrimSpace, Lower;
    assert (s + ".")[..|s|] == s;
  }

  lemma LettersNoSpace(s: string, t: string)
    requires s != "" && SameLetters(s, t) && Clean(t)
    ensures !IsSpace(s[0]) && !IsSpace(s[|s| - 1]) && s[|s| - 1] != '.' && !IsSpace('.')
  {
  }

  lemma {:induction false} TrimAround(before: string, s: string, after: string)
    requires (forall i :: 0 <= i < |before| ==> IsSpace(before[i])) && (forall i :: 0 <= i < |after| ==> IsSpace(after[i]))
    requires s != "" && !IsSpace(s[0]) && !IsSpace(s[|s| - 1])
    ensures TrimSpace(before + s + after) == s
  {
    TrimBefore(before, s + after);
    TrimAfter(s, after);
    assert before + s + after == before + (s + after);
    hide IsSpace;
    assert TrimLeft(s + after, IsSpace) == s + after;
  }

  lemma {:induction false} TrimBefore(before: string, s: string)
    requires forall i :: 0 <= i < |before| ==> IsSpace(before[i])
    ensures TrimLeft(before + s, IsSpace) == TrimLeft(s, IsSpace)
  {
    hide IsSpace;
    if before == "" {
      assert before + s == s;
    } else {
      assert (before + s)[0] == before[0] && (before + s)[1..] == before[1..] + s;
      TrimBefore(before[1..], s);
    }
  }

  lemma {:induction false} TrimAfter(s: string, after: string)
    requires forall i :: 0 <= i < |after| ==> IsSpace(after[i])
    requires s != "" && !IsSpace(s[|s| - 1])
    ensures TrimRight(s + after, IsSpace) == s
  {
    hide IsSpace;
    if after == "" {
      assert s + after == s;
    } else {
      var init := after[..|after| - 1];
      assert (s + after)[..|s + after| - 1] == s + init && (s + after)[|s + after| - 1] == after[|after| - 1];
      TrimAfter(s, init);
    }
  }

  // ----- who comes first

  // The registered name is a wildcard, "*." and a suffix, that the name is under by one label.
  ghost predicate WildcardFor(e: Entry, name: string) {
    exists suffix, head :: suffix != "" && Normalize(e.name) == "*." + suffix && '.' !in head && name == head + "." + suffix
  }

  // The registered name is this name and no wildcard.
  ghost predicate NameFor(e: Entry, name: string) {
    Normalize(e.name) == name && !(exists suffix :: name == "*." + suffix)
  }

  lemma WildcardIff(n: string)
    ensures IsWildcard(n) <==> exists suffix :: n == "*." + suffix
  {
    if IsWildcard(n) {
      assert n == "*." + n[2..];
    }
  }

  lemma NameForIff(e: Entry, name: string)
    requires name != ""
    ensures NamesExactly(e, name) <==> NameFor(e, name)
  {
    WildcardIff(Normalize(e.name));
    hide Normalize;
  }

  lemma WildcardForIff(e: Entry, name: string)
    ensures (IsWildcard(Normalize(e.name)) && Normalize(e.name)[2..] != "" && OneLabelBefore(name, Normalize(e.name)[2..]))
            <==> WildcardFor(e, name)
  {
    hide Normalize;
    var n := Normalize(e.name);
    if WildcardFor(e, name) {
      var suffix, head :| suffix != "" && n == "*." + suffix && '.' !in head && name == head + "." + suffix;
      assert n[2..] == suffix;
    }
    if IsWildcard(n) && n[2..] != "" && OneLabelBefore(name, n[2..]) {
      assert n == "*." + n[2..];
    }
  }

  lemma {:induction false} FirstWildcardIsFirst(entries: seq<Entry>, name: string)
    ensures match FirstWildcard(entries, name)
            case Some(p) => exists i :: 0 <= i < |entries| && entries[i].provider == p && WildcardFor(entries[i], name)
                                        && forall j :: 0 <= j < i ==> !WildcardFor(entries[j], name)
            case None => forall j :: 0 <= j < |entries| ==> !WildcardFor(entries[j], name)
  {
    if entries != [] {
      var rest := entries[1..];
      FirstWildcardIsFirst(rest, name);
      WildcardForIff(entries[0], name);
      hide WildcardFor, OneLabelBefore, Normalize, IsWildcard;
      assert forall j :: 1 <= j < |entries| ==> entries[j] == rest[j - 1];
      if !WildcardFor(entries[0], name) && FirstWildcard(rest, name).Some? {
        var i :| 0 <= i < |rest| && rest[i].provider == FirstWildcard(rest, name).value && WildcardFor(rest[i], name)
                 && forall j :: 0 <= j < i ==> !WildcardFor(rest[j], name);
        assert entries[i + 1] == rest[i];
      }
    }
  }

  // The match for a server name: nothing for an empty one; otherwise the first provider that registered the name itself, or
  // else the first that registered a wildcard over it, or else nothing.
  lemma MatchIs(entries: seq<Entry>, serverName: string)
    ensures var name := Normalize(serverName);
            match LinearMatch(entries, serverName)
            case Some(p) =>
              && name != ""
              && ((exists i :: 0 <= i < |entries| && entries[i].provider == p && NameFor(entries[i], name)
                               && forall j :: 0 <= j < i ==> !NameFor(entries[j], name))
                  || ((forall j :: 0 <= j < |entries| ==> !NameFor(entries[j], name))
                      && exists i :: 0 <= i < |entries| && entries[i].provider == p && WildcardFor(entries[i], name)
                                     && forall j :: 0 <= j < i ==> !WildcardFor(entries[j], name)))
            case None =>
              name == "" || forall j :: 0 <= j < |entries| ==> !NameFor(entries[j], name) && !WildcardFor(entries[j], name)
  {
    var name := Normalize(serverName);
    if name != "" {
      FirstExactIsFirst(entries, name);
      FirstWildcardIsFirst(entries, name);
      forall e: Entry ensures NamesExactly(e, name) <==> NameFor(e, name) { NameForIff(e, name); }
      hide Normalize, NamesExactly, NameFor, WildcardFor, FirstExact, FirstWildcard;
    }
  }

  // The common name comes before the others, if there is one.
  lemma EntriesAre(id: nat, common: string, first: string, second: string)
    ensures var p := Provider(id, Some(Leaf(common, [first, second])));
            Entries(p) == if common == "" then [Entry(first, p), Entry(second, p)] else [Entry(common, p), Entry(first, p), Entry(second, p)]
    ensures Entries(Provider(id, None)) == []
  {
    var p := Provider(id, Some(Leaf(common, [first, second])));
    assert [first, second][..1] == [first] && [first][..0] == [];
    assert NameEntries([first], p) == [Entry(first, p)];
    assert NameEntries([first, second], p) == [Entry(first, p)] + [Entry(second, p)];
  }
}
