/**
 What every run of the rule engine keeps: the order of its events, when the upstream is called, which rules are
 checked and which act. The answers of checks and handlers are arbitrary.
 */
module RulePhases {
  import opened RuleCommands
  import opened RuleEngine

  // ----- reading a trace

  predicate WasChecked(t: seq<Event>, i: nat) {
    Checked(i, true) in t || Checked(i, false) in t
  }

  predicate WasHandled(t: seq<Event>, i: nat) {
    Handled(i, Done) in t || Handled(i, Terminated) in t || Handled(i, Failed) in t || Handled(i, Panicked) in t
  }

  // The events of the numbered rules only.
  ghost predicate About(t: seq<Event>, s: seq<nat>) {
    forall a :: 0 <= a < |t| ==> !t[a].Upstream? && t[a].rule in s
  }

  ghost predicate InRuleOrder(t: seq<Event>) {
    && (forall a :: 0 <= a < |t| ==> !t[a].Upstream?)
    && forall a, b :: 0 <= a < b < |t| ==> t[a].rule <= t[b].rule
  }

  // A rule that ends out of order or, before the response, bypasses the rest.
  predicate Stops(rules: seq<Rule>, early: bool, e: Event) {
    || (e.Handled? && e.result != Done)
    || (early && e.Checked? && e.matched && e.rule < |rules| && IsBypass(rules[e.rule].cmds))
  }

  ghost predicate StoppedBefore(rules: seq<Rule>, early: bool, t: seq<Event>, i: nat) {
    exists e :: e in t && !e.Upstream? && e.rule < i && Stops(rules, early, e)
  }

  ghost predicate AllDone(t: seq<Event>) {
    forall e :: e in t && e.Handled? ==> e.result == Done
  }

  ghost predicate SomeMatch(t: seq<Event>) {
    exists i: nat :: Checked(i, true) in t
  }

  // Every check is recorded with the answer it got.
  ghost predicate Faithful(w: World, before: seq<Event>, t: seq<Event>) {
    forall k :: 0 <= k < |t| && t[k].Checked? ==> t[k].matched == w.check(t[k].rule, before + t[..k])
  }

  lemma FaithfulConcat(w: World, before: seq<Event>, a: seq<Event>, b: seq<Event>)
    requires Faithful(w, before, a) && Faithful(w, before + a, b)
    ensures Faithful(w, before, a + b)
  {
    var t := a + b;
    forall k | 0 <= k < |t| && t[k].Checked? ensures t[k].matched == w.check(t[k].rule, before + t[..k]) {
      if k < |a| {
        assert t[..k] == a[..k];
      } else {
        assert t[k] == b[k - |a|];
        assert before + t[..k] == before + a + b[..k - |a|];
      }
    }
  }

  // ----- one rule

  lemma HandledSomehow(t: seq<Event>, i: nat, r: Outcome)
    ensures Handled(i, r) in t ==> WasHandled(t, i)
  {
    match r
    case Done =>
    case Terminated =>
    case Failed =>
    case Panicked =>
  }

  lemma HandleFacts(w: World, i: nat, cmds: seq<Command>, t: seq<Event>)
    ensures var h := Handle(w, i, cmds, t);
            && h.seg != [] && Handled(i, h.result) in h.seg
            && About(h.seg, [i]) && InRuleOrder(h.seg) && Faithful(w, t, h.seg)
            && forall e :: e in h.seg ==> e.Ran? || e == Handled(i, h.result)
  {
    if cmds != [] {
      RunInOrder(w, i, cmds, 0, t);
    }
    var h := Handle(w, i, cmds, t);
    hide Run;
    assert h.seg[|h.seg| - 1] == Handled(i, h.result);
    assert [i][0] == i;
  }

  // ----- the rules of one phase

  // The events of the first rule of a non-empty list, and whether the next is tried.
  function HeadOf(w: World, rules: seq<Rule>, early: bool, i: nat, t: seq<Event>): (seq<Event>, bool)
    requires i < |rules|
  {
    var c := [Checked(i, w.check(i, t))];
    if !w.check(i, t) then (c, true)
    else if early && IsBypass(rules[i].cmds) then (c, false)
    else
      var h := Handle(w, i, rules[i].cmds, t + c);
      (c + h.seg, h.result == Done)
  }

  lemma ScanUnfold(w: World, rules: seq<Rule>, early: bool, s: seq<nat>, t: seq<Event>)
    requires s != [] && InRange(s, |rules|)
    ensures var (head, go) := HeadOf(w, rules, early, s[0], t);
            var whole := Scan(w, rules, early, s, t);
            if go then
              var rest := Scan(w, rules, early, s[1..], t + head);
              whole == ScanStep(head + rest.seg, rest.proceed, w.check(s[0], t) || rest.matched, rest.aborted)
            else whole == ScanStep(head, early && IsBypass(rules[s[0]].cmds), true, whole.aborted)
  {
    hide Handle, IsBypass;
  }

  ghost predicate HeadShape(w: World, i: nat, t: seq<Event>, head: seq<Event>) {
    About(head, [i]) && InRuleOrder(head) && Faithful(w, t, head)
  }

  lemma HeadShapes(w: World, rules: seq<Rule>, early: bool, i: nat, t: seq<Event>)
    requires i < |rules|
    ensures HeadShape(w, i, t, HeadOf(w, rules, early, i, t).0)
  {
    var c := [Checked(i, w.check(i, t))];
    assert [i][0] == i;
    assert Faithful(w, t, c) by {
      assert t + c[..0] == t;
    }
    if w.check(i, t) && !(early && IsBypass(rules[i].cmds)) {
      var h := Handle(w, i, rules[i].cmds, t + c);
      HandleFacts(w, i, rules[i].cmds, t + c);
      FaithfulConcat(w, t, c, h.seg);
      hide Handle, Faithful, IsBypass;
    }
  }

  // What the events of one rule say about it.
  ghost predicate HeadSays(w: World, rules: seq<Rule>, early: bool, i: nat, t: seq<Event>, head: seq<Event>, go: bool)
    requires i < |rules|
  {
    && WasChecked(head, i)
    && (Checked(i, true) in head <==> w.check(i, t))
    && (WasHandled(head, i) <==> Checked(i, true) in head && !(early && IsBypass(rules[i].cmds)))
    && (go <==> forall e :: e in head ==> !Stops(rules, early, e))
    && (AllDone(head) <==> go || (early && IsBypass(rules[i].cmds)))
  }

  lemma HeadSaysSo(w: World, rules: seq<Rule>, early: bool, i: nat, t: seq<Event>)
    requires i < |rules|
    ensures var (head, go) := HeadOf(w, rules, early, i, t); HeadSays(w, rules, early, i, t, head, go)
  {
    var b := w.check(i, t);
    var c := [Checked(i, b)];
    assert c[0] == Checked(i, b);
    if b && !(early && IsBypass(rules[i].cmds)) {
      var h := Handle(w, i, rules[i].cmds, t + c);
      HandleFacts(w, i, rules[i].cmds, t + c);
      hide Handle, Faithful, IsBypass, InRuleOrder, About;
      var head := c + h.seg;
      assert head[0] == Checked(i, b);
      assert Handled(i, h.result) in head;
      HandledSomehow(head, i, h.result);
    }
  }

  lemma {:induction false} ScanShape(w: World, rules: seq<Rule>, early: bool, s: seq<nat>, t: seq<Event>)
    requires InRange(s, |rules|) && Increasing(s)
    ensures var step := Scan(w, rules, early, s, t);
            About(step.seg, s) && InRuleOrder(step.seg) && Faithful(w, t, step.seg)
  {
    if s != [] {
      ScanUnfold(w, rules, early, s, t);
      HeadShapes(w, rules, early, s[0], t);
      var (head, go) := HeadOf(w, rules, early, s[0], t);
      hide Scan, HeadOf, Faithful;
      assert About(head, s) by {
        assert s[0] in s;
      }
      if go {
        var rest := Scan(w, rules, early, s[1..], t + head);
        ScanShape(w, rules, early, s[1..], t + head);
        FaithfulConcat(w, t, head, rest.seg);
      }
    }
  }

  // Nothing in a list of increasing numbers is before its first.
  lemma NoneBeforeFirst(rules: seq<Rule>, early: bool, s: seq<nat>, seg: seq<Event>)
    requires s != [] && Increasing(s) && About(seg, s)
    ensures !StoppedBefore(rules, early, seg, s[0])
  {
    hide Stops;
    forall e | e in seg && !e.Upstream? ensures s[0] <= e.rule {
      assert e.rule in s;
    }
  }

  lemma CheckedConcat(i: nat, j: nat, head: seq<Event>, rest: seq<Event>)
    requires About(head, [i])
    ensures i != j ==> (WasChecked(head + rest, j) <==> WasChecked(rest, j))
    ensures WasChecked(head, i) ==> WasChecked(head + rest, i)
  {
  }

  lemma HeadStops(w: World, rules: seq<Rule>, early: bool, i: nat, t: seq<Event>, head: seq<Event>, go: bool, j: nat)
    requires i < |rules| && i < j && About(head, [i]) && HeadSays(w, rules, early, i, t, head, go)
    ensures StoppedBefore(rules, early, head, j) <==> !go
  {
    hide Stops, AllDone, WasChecked, WasHandled;
    if !go {
      var e :| e in head && Stops(rules, early, e);
      assert e.rule == i;
    }
  }

  lemma FirstOrLater(s: seq<nat>, i: nat)
    requires Increasing(s) && i in s && i != s[0]
    ensures i in s[1..] && s[0] < i
  {
  }

  // A rule is checked unless one before it stopped the scan.
  lemma {:induction false} ScanChecked(w: World, rules: seq<Rule>, early: bool, s: seq<nat>, t: seq<Event>, i: nat)
    requires InRange(s, |rules|) && Increasing(s) && i in s
    ensures var step := Scan(w, rules, early, s, t);
            WasChecked(step.seg, i) <==> !StoppedBefore(rules, early, step.seg, i)
  {
    ScanUnfold(w, rules, early, s, t);
    ScanShape(w, rules, early, s, t);
    HeadShapes(w, rules, early, s[0], t);
    HeadSaysSo(w, rules, early, s[0], t);
    var (head, go) := HeadOf(w, rules, early, s[0], t);
    hide Scan, HeadOf, Faithful, InRuleOrder, Stops, StoppedBefore, About, WasChecked, AllDone, WasHandled, SomeMatch;
    var rest := if go then Scan(w, rules, early, s[1..], t + head).seg else [];
    assert Scan(w, rules, early, s, t).seg == head + rest;
    CheckedConcat(s[0], i, head, rest);
    if i == s[0] {
      NoneBeforeFirst(rules, early, s, head + rest);
    } else {
      FirstOrLater(s, i);
      StoppedConcat(rules, early, head, rest, i);
      HeadStops(w, rules, early, s[0], t, head, go, i);
      if go {
        ScanChecked(w, rules, early, s[1..], t + head, i);
      } else {
        assert !WasChecked([], i) by { NothingChecked(i); }
      }
    }
  }

  lemma NothingChecked(i: nat)
    ensures !WasChecked([], i)
  {
  }

  lemma StoppedConcat(rules: seq<Rule>, early: bool, a: seq<Event>, b: seq<Event>, i: nat)
    ensures StoppedBefore(rules, early, a + b, i) <==> StoppedBefore(rules, early, a, i) || StoppedBefore(rules, early, b, i)
  {
    hide Stops;
    if StoppedBefore(rules, early, a, i) {
      var e :| e in a && !e.Upstream? && e.rule < i && Stops(rules, early, e);
      assert e in a + b;
    }
    if StoppedBefore(rules, early, b, i) {
      var e :| e in b && !e.Upstream? && e.rule < i && Stops(rules, early, e);
      assert e in a + b;
    }
  }

  // A rule acts when it matches, unless it bypasses.
  lemma {:induction false} ScanHandled(w: World, rules: seq<Rule>, early: bool, s: seq<nat>, t: seq<Event>, i: nat)
    requires InRange(s, |rules|) && Increasing(s) && i in s && i < |rules|
    ensures var step := Scan(w, rules, early, s, t);
            WasHandled(step.seg, i) <==> Checked(i, true) in step.seg && !(early && IsBypass(rules[i].cmds))
  {
    ScanUnfold(w, rules, early, s, t);
    HeadShapes(w, rules, early, s[0], t);
    HeadSaysSo(w, rules, early, s[0], t);
    var (head, go) := HeadOf(w, rules, early, s[0], t);
    if go {
      var rest := Scan(w, rules, early, s[1..], t + head);
      ScanShape(w, rules, early, s[1..], t + head);
      if i in s[1..] {
        ScanHandled(w, rules, early, s[1..], t + head, i);
      }
    }
    hide Scan, HeadOf, Faithful, InRuleOrder, Stops, IsBypass;
  }

  lemma {:induction false} ScanVerdict(w: World, rules: seq<Rule>, early: bool, s: seq<nat>, t: seq<Event>)
    requires InRange(s, |rules|)
    ensures var step := Scan(w, rules, early, s, t);
            (step.proceed <==> AllDone(step.seg)) && (step.matched <==> SomeMatch(step.seg))
  {
    if s != [] {
      ScanUnfold(w, rules, early, s, t);
      HeadShapes(w, rules, early, s[0], t);
      HeadSaysSo(w, rules, early, s[0], t);
      var (head, go) := HeadOf(w, rules, early, s[0], t);
      if go {
        ScanVerdict(w, rules, early, s[1..], t + head);
        var rest := Scan(w, rules, early, s[1..], t + head);
        VerdictConcat(head, rest.seg);
      }
      hide Scan, HeadOf, Faithful, InRuleOrder, Stops, IsBypass, AllDone;
    }
  }

  lemma VerdictConcat(a: seq<Event>, b: seq<Event>)
    ensures AllDone(a + b) <==> AllDone(a) && AllDone(b)
    ensures SomeMatch(a + b) <==> SomeMatch(a) || SomeMatch(b)
  {
    if AllDone(a + b) {
      forall e | e in a && e.Handled? ensures e.result == Done { assert e in a + b; }
      forall e | e in b && e.Handled? ensures e.result == Done { assert e in a + b; }
    }
  }

  ghost predicate SomePanic(t: seq<Event>) {
    exists i: nat :: Handled(i, Panicked) in t
  }

  // A scan is cut off exactly by a panic.
  lemma {:induction false} ScanPanics(w: World, rules: seq<Rule>, early: bool, s: seq<nat>, t: seq<Event>)
    requires InRange(s, |rules|)
    ensures Scan(w, rules, early, s, t).aborted <==> SomePanic(Scan(w, rules, early, s, t).seg)
  {
    if s != [] {
      var i := s[0];
      var c := [Checked(i, w.check(i, t))];
      var h := Handle(w, i, rules[i].cmds, t + c);
      HandleFacts(w, i, rules[i].cmds, t + c);
      ScanPanics(w, rules, early, s[1..], t + c);
      ScanPanics(w, rules, early, s[1..], t + (c + h.seg));
      PanicConcat(c, h.seg);
      PanicConcat(c, Scan(w, rules, early, s[1..], t + c).seg);
      PanicConcat(c + h.seg, Scan(w, rules, early, s[1..], t + (c + h.seg)).seg);
      hide Handle, IsBypass, Faithful, About, InRuleOrder, SomePanic;
      assert SomePanic(h.seg) <==> h.result == Panicked by { PanicOf(h, i); }
      assert !SomePanic(c) by { NoPanicCheck(i, w.check(i, t)); }
    }
  }

  lemma NoPanicCheck(i: nat, b: bool)
    ensures !SomePanic([Checked(i, b)])
  {
  }

  lemma PanicOf(h: Step, i: nat)
    requires Handled(i, h.result) in h.seg && forall e :: e in h.seg ==> e.Ran? || e == Handled(i, h.result)
    ensures SomePanic(h.seg) <==> h.result == Panicked
  {
  }

  lemma PanicConcat(a: seq<Event>, b: seq<Event>)
    ensures SomePanic(a + b) <==> SomePanic(a) || SomePanic(b)
  {
  }

  // A rule without commands can only end in a panic.
  lemma {:induction false} ScanEmpty(w: World, rules: seq<Rule>, early: bool, s: seq<nat>, t: seq<Event>, i: nat, r: Outcome)
    requires InRange(s, |rules|) && i < |rules| && rules[i].cmds == [] && Handled(i, r) in Scan(w, rules, early, s, t).seg
    ensures r == Panicked
  {
    if s != [] {
      ScanUnfold(w, rules, early, s, t);
      var (head, go) := HeadOf(w, rules, early, s[0], t);
      HeadResult(w, rules, early, s[0], t, i, r);
      hide Scan, HeadOf;
      if Handled(i, r) !in head && go {
        ScanEmpty(w, rules, early, s[1..], t + head, i, r);
      }
    }
  }

  lemma HeadResult(w: World, rules: seq<Rule>, early: bool, j: nat, t: seq<Event>, i: nat, r: Outcome)
    requires j < |rules| && i < |rules| && rules[i].cmds == []
    ensures Handled(i, r) in HeadOf(w, rules, early, j, t).0 ==> r == Panicked
  {
    var c := [Checked(j, w.check(j, t))];
    HandleFacts(w, j, rules[j].cmds, t + c);
    hide Run, Faithful, About, InRuleOrder, IsBypass;
  }
}
