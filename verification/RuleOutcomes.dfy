/**
 What the answers of the commands decide: how each rule of a run ended, and whether the upstream is called.
 */
module RuleOutcomes {
  import opened Options
  import opened RuleCommands
  import opened RuleEngine
  import opened RulePhases
  import opened RuleRuns

  // ----- every rule ends as its commands answered

  // The event tells how a rule ended whose commands are the last that ran before it.
  ghost predicate TellsAt(w: World, rules: seq<Rule>, u: seq<Event>, e: Event)
    requires e.Handled?
  {
    e.rule < |rules| && exists n: nat :: n <= |u| && Ended(w, rules[e.rule].cmds, u, e, n)
  }

  ghost predicate Ended(w: World, cmds: seq<Command>, u: seq<Event>, e: Event, n: nat)
    requires e.Handled? && n <= |u|
  {
    u[|u| - n..] == Rans(e.rule, n) && EndsWith(w, e.rule, cmds, u[..|u| - n], n, e.result)
  }

  ghost predicate Told(w: World, rules: seq<Rule>, before: seq<Event>, seg: seq<Event>) {
    forall p :: 0 <= p < |seg| && seg[p].Handled? ==> TellsAt(w, rules, before + seg[..p], seg[p])
  }

  lemma ToldConcat(w: World, rules: seq<Rule>, before: seq<Event>, a: seq<Event>, b: seq<Event>)
    requires Told(w, rules, before, a) && Told(w, rules, before + a, b)
    ensures Told(w, rules, before, a + b)
  {
    hide TellsAt;
    var seg := a + b;
    forall p | 0 <= p < |seg| && seg[p].Handled? ensures TellsAt(w, rules, before + seg[..p], seg[p]) {
      if p < |a| {
        assert seg[..p] == a[..p];
      } else {
        assert before + seg[..p] == before + a + b[..p - |a|];
      }
    }
  }

  lemma NothingTold(w: World, rules: seq<Rule>, before: seq<Event>)
    ensures Told(w, rules, before, []) && Told(w, rules, before, [Upstream])
  {
  }

  lemma HandleTold(w: World, rules: seq<Rule>, i: nat, t: seq<Event>)
    requires i < |rules|
    ensures Told(w, rules, t, Handle(w, i, rules[i].cmds, t).seg)
  {
    var h := Handle(w, i, rules[i].cmds, t);
    var n := HandleEnds(w, i, rules[i].cmds, t);
    hide Handle, EndsWith;
    var e := Handled(i, h.result);
    forall p | 0 <= p < |h.seg| && h.seg[p].Handled? ensures TellsAt(w, rules, t + h.seg[..p], h.seg[p]) {
      assert p == n && h.seg[..p] == Rans(i, n);
      var u := t + Rans(i, n);
      assert u[|u| - n..] == Rans(i, n) && u[..|u| - n] == t;
      assert Ended(w, rules[i].cmds, u, e, n);
    }
  }

  lemma HeadTold(w: World, rules: seq<Rule>, early: bool, i: nat, t: seq<Event>)
    requires i < |rules|
    ensures Told(w, rules, t, HeadOf(w, rules, early, i, t).0)
  {
    var c := [Checked(i, w.check(i, t))];
    HandleTold(w, rules, i, t + c);
    assert Told(w, rules, t, c);
    hide Handle, IsBypass, Told;
    ToldConcat(w, rules, t, c, Handle(w, i, rules[i].cmds, t + c).seg);
  }

  lemma {:induction false} ScanTold(w: World, rules: seq<Rule>, early: bool, s: seq<nat>, t: seq<Event>)
    requires InRange(s, |rules|)
    ensures Told(w, rules, t, Scan(w, rules, early, s, t).seg)
  {
    if s != [] {
      ScanUnfold(w, rules, early, s, t);
      HeadTold(w, rules, early, s[0], t);
      var (head, go) := HeadOf(w, rules, early, s[0], t);
      hide Scan, HeadOf, Told;
      if go {
        ScanTold(w, rules, early, s[1..], t + head);
        ToldConcat(w, rules, t, head, Scan(w, rules, early, s[1..], t + head).seg);
      }
    } else {
      NothingTold(w, rules, t);
    }
  }

  lemma DefaultTold(w: World, rules: seq<Rule>, dflt: Option<nat>, now: bool, t: seq<Event>)
    requires dflt.Some? ==> dflt.value < |rules|
    ensures Told(w, rules, t, DefaultStep(w, rules, dflt, now, t).seg)
  {
    NothingTold(w, rules, t);
    if now && dflt.Some? {
      HandleTold(w, rules, dflt.value, t);
    }
    hide Handle, Told;
  }

  lemma GeneralTold(w: World, rules: seq<Rule>, p: Plan)
    requires Fits(rules, p)
    ensures Told(w, rules, [], Concat(Serve(w, rules, p)))
  {
    var parts := Serve(w, rules, p);
    var t1 := parts.first.seg;
    var t2 := t1 + parts.pre.seg;
    var t3 := t2 + parts.before.seg;
    var t4 := t3 + parts.up;
    var t5 := t4 + parts.post.seg;
    hide Told, Scan, DefaultStep, SlotOf, InRange;
    DefaultTold(w, rules, p.dflt, SlotOf(rules, p.dflt) == First, []);
    ScanTold(w, rules, true, p.pre, t1);
    DefaultTold(w, rules, p.dflt, SlotOf(rules, p.dflt) == BeforeUpstream && parts.pre.proceed && !parts.pre.matched, t2);
    ScanTold(w, rules, false, p.post, t4);
    DefaultTold(w, rules, p.dflt, SlotOf(rules, p.dflt) == Last && parts.post.proceed, t5);
    NothingTold(w, rules, t1);
    NothingTold(w, rules, t3);
    NothingTold(w, rules, t4);
    assert [] + t1 == t1 && [] + t2 == t2 && [] + t3 == t3 && [] + t4 == t4 && [] + t5 == t5;
    ToldConcat(w, rules, [], t1, parts.pre.seg);
    ToldConcat(w, rules, [], t2, parts.before.seg);
    ToldConcat(w, rules, [], t3, parts.up);
    ToldConcat(w, rules, [], t4, parts.post.seg);
    ToldConcat(w, rules, [], t5, parts.last.seg);
  }

  // In every run of any handler each rule that acts ends as its commands answered.
  lemma HandlerTold(w: World, rules: seq<Rule>, h: Handler)
    requires Serves(rules, h)
    ensures Told(w, rules, [], ServeWith(w, rules, h))
  {
    NothingTold(w, rules, []);
    hide Handle, Told, Serve, Concat;
    match h
    case JustUpstream =>
    case UpstreamThenDefault(d) =>
      HandleTold(w, rules, d, [Upstream]);
      assert [] + [Upstream] == [Upstream];
      ToldConcat(w, rules, [], [Upstream], Handle(w, d, rules[d].cmds, [Upstream]).seg);
    case DefaultThenUpstream(d) =>
      var seg := Handle(w, d, rules[d].cmds, []).seg;
      HandleTold(w, rules, d, []);
      assert [] + seg == seg;
      NothingTold(w, rules, seg);
      ToldConcat(w, rules, [], seg, if Handle(w, d, rules[d].cmds, []).result == Done then [Upstream] else []);
    case General(p) =>
      GeneralTold(w, rules, p);
  }

  // ----- when a rule ended in order

  // Before place p all commands of the rule that acted there have run, each was answered in order at its own moment, and none
  // bypasses or ends the request.
  ghost predicate AllInOrder(w: World, rules: seq<Rule>, t: seq<Event>, p: nat)
    requires p < |t| && t[p].Handled?
  {
    t[p].rule < |rules| &&
    var i, cmds := t[p].rule, rules[t[p].rule].cmds;
    && 0 < |cmds| <= p
    && forall k :: 0 <= k < |cmds| ==>
         && t[p - |cmds| + k] == Ran(i, k) && (cmds[k].NonTerminating? || cmds[k].OnResponse?)
         && w.outcome(i, k, t[..p - |cmds| + k]) == Done
  }

  lemma DoneIff(w: World, rules: seq<Rule>, t: seq<Event>, p: nat)
    requires Told(w, rules, [], t) && p < |t| && t[p].Handled?
    ensures t[p].result == Done <==> AllInOrder(w, rules, t, p)
  {
    var u, e := t[..p], t[p];
    assert [] + t[..p] == u;
    assert TellsAt(w, rules, u, e);
    hide Told, AllInOrder, Ended;
    var n: nat :| n <= |u| && Ended(w, rules[e.rule].cmds, u, e, n);
    if e.result == Done {
      DoneIsInOrder(w, rules, t, p, n);
    }
    if AllInOrder(w, rules, t, p) {
      InOrderIsDone(w, rules, t, p, n);
    }
  }

  lemma DoneIsInOrder(w: World, rules: seq<Rule>, t: seq<Event>, p: nat, n: nat)
    requires n <= p < |t| && t[p].Handled? && t[p].rule < |rules|
    requires Ended(w, rules[t[p].rule].cmds, t[..p], t[p], n) && t[p].result == Done
    ensures AllInOrder(w, rules, t, p)
  {
    var i, cmds, start := t[p].rule, rules[t[p].rule].cmds, t[..p][..p - n];
    assert n == |cmds|;
    forall k | 0 <= k < n
      ensures t[p - n + k] == Ran(i, k) && (cmds[k].NonTerminating? || cmds[k].OnResponse?)
      ensures w.outcome(i, k, t[..p - n + k]) == Done
    {
      BlockAt(t, p, i, n, k);
      assert k < n - 1 ==> InOrder(w, i, cmds, start, k);
      assert Answer(w, i, start, k) == w.outcome(i, k, t[..p - n + k]);
    }
  }

  lemma InOrderIsDone(w: World, rules: seq<Rule>, t: seq<Event>, p: nat, n: nat)
    requires n <= p < |t| && t[p].Handled? && t[p].rule < |rules|
    requires Ended(w, rules[t[p].rule].cmds, t[..p], t[p], n) && AllInOrder(w, rules, t, p)
    ensures t[p].result == Done
  {
    var i, cmds, start := t[p].rule, rules[t[p].rule].cmds, t[..p][..p - n];
    assert EndsWith(w, i, cmds, start, n, t[p].result) && t[..p][p - n..] == Rans(i, n);
    hide EndsWith, Ended, Rans;
    InOrderShape(w, rules, t, p, n);
    if n > 0 {
      hide AllInOrder;
      BlockAt(t, p, i, n, n - 1);
      assert Answer(w, i, start, n - 1) == w.outcome(i, n - 1, t[..p - n + (n - 1)]);
    }
    hide Answer, AllInOrder;
    EndsDone(w, i, cmds, start, n, t[p].result);
  }

  lemma InOrderShape(w: World, rules: seq<Rule>, t: seq<Event>, p: nat, n: nat)
    requires n <= p < |t| && t[p].Handled? && t[p].rule < |rules| && AllInOrder(w, rules, t, p)
    requires t[..p][p - n..] == Rans(t[p].rule, n) && n <= |rules[t[p].rule].cmds|
    ensures var i, cmds := t[p].rule, rules[t[p].rule].cmds;
            && cmds != [] && Plain(cmds) && (n == 0 || n == |cmds|)
            && (n > 0 ==> w.outcome(i, n - 1, t[..p - n + (n - 1)]) == Done)
  {
    var i, cmds := t[p].rule, rules[t[p].rule].cmds;
    SameBlock(t, p, i, |cmds|, n);
    hide Rans;
  }

  ghost predicate Plain(cmds: seq<Command>) {
    forall k :: 0 <= k < |cmds| ==> cmds[k].NonTerminating? || cmds[k].OnResponse?
  }

  lemma EndsDone(w: World, i: nat, cmds: seq<Command>, t: seq<Event>, n: nat, r: Outcome)
    requires EndsWith(w, i, cmds, t, n, r) && cmds != [] && Plain(cmds) && (n == 0 || n == |cmds|)
    requires n > 0 ==> Answer(w, i, t, n - 1) == Done
    ensures r == Done
  {
    hide Answer, InOrder;
  }

  lemma BlockAt(t: seq<Event>, p: nat, i: nat, n: nat, k: nat)
    requires n <= p < |t| && t[..p][p - n..] == Rans(i, n) && k < n
    ensures t[p - n + k] == Ran(i, k) && t[..p][..p - n] + Rans(i, k) == t[..p - n + k]
  {
    hide Rans;
    var start, ran := t[..p - n], Rans(i, n);
    assert t[..p][..p - n] == start;
    forall j | 0 <= j < n ensures t[p - n + j] == Ran(i, j) {
      assert t[..p][p - n..][j] == t[p - n + j];
      assert ran[j] == Ran(i, j);
    }
    var now := start + Rans(i, k);
    forall j | 0 <= j < |now| ensures now[j] == t[j] {
      if j >= p - n {
        assert t[p - n + (j - (p - n))] == Ran(i, j - (p - n));
      }
    }
  }

  // The block of a rule's commands has one length.
  lemma SameBlock(t: seq<Event>, p: nat, i: nat, m: nat, n: nat)
    requires 0 < m <= p < |t| && n <= m && t[..p][p - n..] == Rans(i, n)
    requires forall k :: 0 <= k < m ==> t[p - m + k] == Ran(i, k)
    ensures n == m || n == 0
  {
    if n > 0 {
      assert t[p - m + (m - 1)] == Ran(i, m - 1);
      assert t[..p][p - n..][n - 1] == t[p - 1];
    }
  }

  // ----- when the upstream is called

  // The rule is not one for the response: it does not check that, and none of its commands waits for it.
  predicate ActsEarly(r: Rule) {
    !r.checksResponse && forall k :: 0 <= k < |r.cmds| ==> !r.cmds[k].OnResponse?
  }

  lemma ActsEarlyIff(r: Rule)
    ensures ActsEarly(r) <==> !IsPost(r)
  {
    if !ActsEarly(r) && !r.checksResponse {
      var k :| 0 <= k < |r.cmds| && r.cmds[k].OnResponse?;
      assert r.cmds[k] in r.cmds;
    }
  }

  // For the handler of any rule list: the upstream is called exactly when every rule that acted before the response had all
  // of its commands answered in order.
  lemma UpstreamByCommands(w: World, rules: seq<Rule>, h: Handler)
    requires HandlerFor(rules, h)
    ensures Serves(rules, h)
    ensures var t := ServeWith(w, rules, h);
            Upstream in t <==> forall p :: 0 <= p < |t| && t[p].Handled? && t[p].rule < |rules| && ActsEarly(rules[t[p].rule]) ==>
                                 AllInOrder(w, rules, t, p)
  {
    EveryHandler(w, rules, h);
    HandlerTold(w, rules, h);
    var t := ServeWith(w, rules, h);
    hide HandlerFor, ServeWith, Told, EarlyEnd, AllInOrder, IsPost, ActsEarly, Serves, AtMostOneUpstream, UpstreamBetween;
    forall p | 0 <= p < |t| && t[p].Handled? ensures t[p].result == Done <==> AllInOrder(w, rules, t, p) {
      DoneIff(w, rules, t, p);
    }
    EarlyEndAt(rules, t);
  }

  lemma EarlyEndAt(rules: seq<Rule>, t: seq<Event>)
    ensures EarlyEnd(rules, t) <==>
            exists p :: 0 <= p < |t| && t[p].Handled? && t[p].rule < |rules| && ActsEarly(rules[t[p].rule]) && t[p].result != Done
  {
    forall r: Rule ensures ActsEarly(r) <==> !IsPost(r) { ActsEarlyIff(r); }
    hide ActsEarly, IsPost;
    if EarlyEnd(rules, t) {
      var e :| e in t && e.Handled? && e.rule < |rules| && !IsPost(rules[e.rule]) && e.result != Done;
      var p :| 0 <= p < |t| && t[p] == e;
    }
  }

  // ----- which rules act, from the rules themselves

  // The last command of the rule is this one.
  predicate EndsIn(r: Rule, c: Command) {
    r.cmds != [] && r.cmds[|r.cmds| - 1] == c
  }

  // A rule other than a default, of the one phase or the other.
  predicate InPhase(rules: seq<Rule>, i: nat, early: bool) {
    i < |rules| && !rules[i].isDefault && ActsEarly(rules[i]) == early
  }

  lemma InPhaseIff(rules: seq<Rule>, p: Plan)
    requires PlanFor(rules, p)
    ensures forall i: nat :: i in p.pre <==> InPhase(rules, i, true)
    ensures forall i: nat :: i in p.post <==> InPhase(rules, i, false)
  {
    forall r: Rule ensures ActsEarly(r) <==> !IsPost(r) { ActsEarlyIff(r); }
    hide ActsEarly, IsPost;
  }

  // Some rule of the phase, numbered below i, did not end in order.
  ghost predicate StoppedIn(rules: seq<Rule>, t: seq<Event>, early: bool, i: nat) {
    exists e :: e in t && e.Handled? && InPhase(rules, e.rule, early) && e.rule < i && e.result != Done
  }

  // Some rule before the response, numbered below i, matched and bypasses the rest.
  ghost predicate BypassedIn(rules: seq<Rule>, t: seq<Event>, i: nat) {
    exists j: nat :: j < i && InPhase(rules, j, true) && EndsIn(rules[j], Bypass) && Checked(j, true) in t
  }

  // The phase after the response does not begin: something panicked before it, or a terminating default rule failed.
  ghost predicate NoLatePhase(rules: seq<Rule>, dflt: Option<nat>, t: seq<Event>) {
    || (exists e :: e in t && e.Handled? && e.rule < |rules| && ActsEarly(rules[e.rule]) && e.result == Panicked)
    || (dflt.Some? && dflt.value < |rules| && ActsEarly(rules[dflt.value]) && EndsIn(rules[dflt.value], Terminating)
        && Handled(dflt.value, Failed) in t)
  }

  // When the default rule acts. One for the response acts unless that phase does not begin or is stopped. One that
  // terminates acts when no rule before the response matched. One that bypasses never acts, and any other always does.
  lemma DefaultActsIff(w: World, rules: seq<Rule>, p: Plan, d: nat)
    requires PlanFor(rules, p) && p.dflt == Some(d)
    ensures Fits(rules, p) && d < |rules|
    ensures var t := Concat(Serve(w, rules, p));
            WasHandled(t, d) <==>
              if !ActsEarly(rules[d]) then !NoLatePhase(rules, p.dflt, t) && !StoppedIn(rules, t, false, |rules|)
              else if EndsIn(rules[d], Terminating) then forall i: nat :: InPhase(rules, i, true) ==> Checked(i, true) !in t
              else !EndsIn(rules[d], Bypass)
  {
    PlanFits(rules, p);
    var t := Concat(Serve(w, rules, p));
    OtherDefaultsIff(w, rules, p);
    InPhaseIff(rules, p);
    ActsEarlyIff(rules[d]);
    if ActsEarly(rules[d]) && EndsIn(rules[d], Terminating) {
      TerminatingDefaultIff(w, rules, p);
      hide Serve, Concat, ActsEarly, InPhase, PlanFor, IsPost, LateCut;
    } else if ActsEarly(rules[d]) && EndsIn(rules[d], Bypass) {
      NeverDefault(w, rules, p);
    } else if ActsEarly(rules[d]) {
      assert SlotOf(rules, p.dflt) == First;
    } else {
      assert SlotOf(rules, p.dflt) == Last;
      hide Serve, Concat, PlanFor;
      CutAt(rules, p, t, |rules|);
    }
  }

  lemma NeverDefault(w: World, rules: seq<Rule>, p: Plan)
    requires PlanFor(rules, p) && Fits(rules, p) && p.dflt.Some? && SlotOf(rules, p.dflt) == Never
    ensures !WasHandled(Concat(Serve(w, rules, p)), p.dflt.value)
  {
    PartsHold(w, rules, p);
    hide Scan, SlotOf, PlanFor;
    DefaultHandled(rules, p, Serve(w, rules, p));
  }

  lemma CutAt(rules: seq<Rule>, p: Plan, t: seq<Event>, i: nat)
    requires PlanFor(rules, p) && Fits(rules, p)
    ensures LateCut(rules, p, t, i) <==> NoLatePhase(rules, p.dflt, t) || StoppedIn(rules, t, false, i)
  {
    InPhaseIff(rules, p);
    forall r: Rule ensures ActsEarly(r) <==> !IsPost(r) { ActsEarlyIff(r); }
    assert SlotOf(rules, p.dflt) == BeforeUpstream
           <==> p.dflt.Some? && ActsEarly(rules[p.dflt.value]) && EndsIn(rules[p.dflt.value], Terminating);
    hide PlanFor, IsPost, ActsEarly, InPhase, SlotOf, EndsIn;
  }

  // When a rule is checked. Before the response: no earlier rule of that phase stopped or bypasses, and no default rule
  // that went first did. After it: the phase begins, and no earlier rule of it stopped.
  lemma CheckedIff(w: World, rules: seq<Rule>, p: Plan, i: nat)
    requires PlanFor(rules, p) && i < |rules| && !rules[i].isDefault
    ensures Fits(rules, p)
    ensures var t := Concat(Serve(w, rules, p));
            (Checked(i, true) in t || Checked(i, false) in t) <==>
              if ActsEarly(rules[i]) then !StoppedIn(rules, t, true, i) && !BypassedIn(rules, t, i) && !StoppedFirst(rules, p.dflt, t)
              else !NoLatePhase(rules, p.dflt, t) && !StoppedIn(rules, t, false, i)
  {
    PlanFits(rules, p);
    InPhaseIff(rules, p);
    var t := Concat(Serve(w, rules, p));
    if ActsEarly(rules[i]) {
      EarlyCheckedIff(w, rules, p, i);
      hide Serve, Concat, PlanFor, IsPost;
      CutBeforeAt(rules, p, t, i);
    } else {
      LateCheckedIff(w, rules, p, i);
      hide Serve, Concat, PlanFor, IsPost;
      CutAt(rules, p, t, i);
    }
  }

  // A default rule that does not terminate the request by its last command acted and did not end in order.
  ghost predicate StoppedFirst(rules: seq<Rule>, dflt: Option<nat>, t: seq<Event>) {
    && dflt.Some? && dflt.value < |rules| && ActsEarly(rules[dflt.value])
    && !EndsIn(rules[dflt.value], Terminating) && !EndsIn(rules[dflt.value], Bypass)
    && exists r :: r != Done && Handled(dflt.value, r) in t
  }

  lemma CutBeforeAt(rules: seq<Rule>, p: Plan, t: seq<Event>, i: nat)
    requires PlanFor(rules, p) && Fits(rules, p)
    ensures CutBefore(rules, p, t, i) <==> StoppedIn(rules, t, true, i) || BypassedIn(rules, t, i) || StoppedFirst(rules, p.dflt, t)
  {
    InPhaseIff(rules, p);
    if p.dflt.Some? {
      ActsEarlyIff(rules[p.dflt.value]);
    }
    assert SlotOf(rules, p.dflt) == First
           <==> p.dflt.Some? && ActsEarly(rules[p.dflt.value])
                && !EndsIn(rules[p.dflt.value], Terminating) && !EndsIn(rules[p.dflt.value], Bypass);
    hide PlanFor, IsPost, ActsEarly, SlotOf;
    StopsAt(rules, p, t, i);
    hide InPhase, StoppedIn, BypassedIn, EndsIn, Stops;
  }

  lemma StopsAt(rules: seq<Rule>, p: Plan, t: seq<Event>, i: nat)
    requires forall j: nat :: j in p.pre <==> InPhase(rules, j, true)
    ensures (exists e :: e in t && !e.Upstream? && e.rule in p.pre && e.rule < i && Stops(rules, true, e))
            <==> StoppedIn(rules, t, true, i) || BypassedIn(rules, t, i)
  {
    hide ActsEarly;
    if BypassedIn(rules, t, i) {
      var j: nat :| j < i && InPhase(rules, j, true) && EndsIn(rules[j], Bypass) && Checked(j, true) in t;
      assert Stops(rules, true, Checked(j, true));
    }
    if StoppedIn(rules, t, true, i) {
      var e :| e in t && e.Handled? && InPhase(rules, e.rule, true) && e.rule < i && e.result != Done;
      assert Stops(rules, true, e);
    }
  }

  // A rule other than a default acts exactly when it was checked and matched, unless it bypasses before the response.
  lemma ActsIff(w: World, rules: seq<Rule>, p: Plan, i: nat)
    requires PlanFor(rules, p) && i < |rules| && !rules[i].isDefault
    ensures Fits(rules, p)
    ensures var t := Concat(Serve(w, rules, p));
            WasHandled(t, i) <==> Checked(i, true) in t && !(ActsEarly(rules[i]) && EndsIn(rules[i], Bypass))
  {
    InPhaseIff(rules, p);
    assert InPhase(rules, i, true) || InPhase(rules, i, false);
    ActsIffMatched(w, rules, p, i);
    PhasesApart(rules, p);
    hide Serve, Concat, PlanFor, IsPost, ActsEarly;
  }

  // An instance: one command that fails, and the upstream is not called.
  lemma FailingCommand()
    ensures var rules := [Rule(false, false, [NonTerminating])];
            var w := World((i, t) => true, (i, k, t) => Failed);
            var p := Plan([0], [], None);
            PlanFor(rules, p) && Fits(rules, p) && Concat(Serve(w, rules, p)) == [Checked(0, true), Ran(0, 0), Handled(0, Failed)]
  {
    var rules := [Rule(false, false, [NonTerminating])];
    var w := World((i, t) => true, (i, k, t) => Failed);
    var p := Plan([0], [], None);
    assert [0][0] == 0;
    assert PlanFor(rules, p);
    assert Handle(w, 0, [NonTerminating], [Checked(0, true)]).seg == [Ran(0, 0), Handled(0, Failed)];
    assert [] + [Checked(0, true)] == [Checked(0, true)];
    assert Scan(w, rules, true, [0], []).seg == [Checked(0, true)] + [Ran(0, 0), Handled(0, Failed)];
    assert !Scan(w, rules, true, [0], []).aborted && !Scan(w, rules, true, [0], []).proceed;
    hide Handle, PlanFor;
    assert Scan(w, rules, false, [], Scan(w, rules, true, [0], []).seg).seg == [];
    hide Scan;
    var parts := Serve(w, rules, p);
    assert parts.first.seg == [] && parts.before.seg == [] && parts.up == [] && parts.last.seg == [];
  }
}
