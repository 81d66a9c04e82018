/**
 What holds of every run of a rule list, whatever its checks and handlers answer.
 */
module RuleRuns {
  import opened Options
  import opened RuleCommands
  import opened RuleEngine
  import opened RulePhases

  // ----- the parts of a run

  // Whose events the parts hold.
  ghost predicate PartsAbout(rules: seq<Rule>, p: Plan, parts: Parts)
    requires Fits(rules, p)
  {
    && DefaultPart(rules, p, parts.first, First) && DefaultPart(rules, p, parts.before, BeforeUpstream) && DefaultPart(rules, p, parts.last, Last)
    && About(parts.pre.seg, p.pre) && InRuleOrder(parts.pre.seg)
    && About(parts.post.seg, p.post) && InRuleOrder(parts.post.seg)
    && (parts.up == [] || parts.up == [Upstream])
  }

  // The default rule runs in its slot only.
  ghost predicate DefaultPart(rules: seq<Rule>, p: Plan, s: Step, slot: Slot)
    requires Fits(rules, p)
  {
    if s.seg == [] then s.result == Done
    else
      && p.dflt.Some? && slot == SlotOf(rules, p.dflt) && Handled(p.dflt.value, s.result) in s.seg
      && forall k :: 0 <= k < |s.seg| ==> (s.seg[k].Ran? || s.seg[k] == Handled(p.dflt.value, s.result)) && s.seg[k].rule == p.dflt.value
  }

  lemma PlanFits(rules: seq<Rule>, p: Plan)
    requires PlanFor(rules, p)
    ensures Fits(rules, p) && Increasing(p.pre) && Increasing(p.post)
  {
    hide IsPost;
  }

  lemma DefaultPartHolds(w: World, rules: seq<Rule>, p: Plan, slot: Slot, now: bool, t: seq<Event>)
    requires Fits(rules, p) && (now ==> slot == SlotOf(rules, p.dflt))
    ensures DefaultPart(rules, p, DefaultStep(w, rules, p.dflt, now, t), slot)
  {
    if now && p.dflt.Some? {
      HandleFacts(w, p.dflt.value, rules[p.dflt.value].cmds, t);
      hide Handle, SlotOf, Faithful, InRuleOrder;
    }
  }

  lemma PartsHold(w: World, rules: seq<Rule>, p: Plan)
    requires PlanFor(rules, p)
    ensures Fits(rules, p) && PartsAbout(rules, p, Serve(w, rules, p))
  {
    PlanFits(rules, p);
    hide Handle, Scan, SlotOf, DefaultStep, PlanFor, Increasing, InRange, DefaultPart, Faithful, InRuleOrder, About;
    var slot := SlotOf(rules, p.dflt);
    var parts := Serve(w, rules, p);
    var t1 := parts.first.seg;
    var t2 := t1 + parts.pre.seg;
    var t4 := t2 + parts.before.seg + parts.up;
    DefaultPartHolds(w, rules, p, First, slot == First, []);
    ScanShape(w, rules, true, p.pre, t1);
    DefaultPartHolds(w, rules, p, BeforeUpstream, slot == BeforeUpstream && parts.pre.proceed && !parts.pre.matched, t2);
    ScanShape(w, rules, false, p.post, t4);
    DefaultPartHolds(w, rules, p, Last, slot == Last && parts.post.proceed, t4 + parts.post.seg);
    Nothing(p.pre);
    Nothing(p.post);
  }

  lemma Nothing(s: seq<nat>)
    ensures About([], s) && InRuleOrder([])
  {
  }

  // ----- order

  // Place in the order: the default rule in its slot, the other rules by phase and number, the upstream between.
  function Rank(rules: seq<Rule>, dflt: Option<nat>, e: Event): nat
    requires dflt.Some? ==> dflt.value < |rules|
  {
    var n := |rules|;
    if e.Upstream? then n + 2
    else if dflt.Some? && e.rule == dflt.value then
      match SlotOf(rules, dflt)
      case Last => 2 * n + 3
      case BeforeUpstream => n + 1
      case _ => 0
    else if e.rule < n && IsPost(rules[e.rule]) then n + 3 + e.rule
    else e.rule + 1
  }

  ghost predicate RankedIn(rules: seq<Rule>, dflt: Option<nat>, t: seq<Event>, lo: nat, hi: nat)
    requires dflt.Some? ==> dflt.value < |rules|
  {
    && (forall a :: 0 <= a < |t| ==> lo <= Rank(rules, dflt, t[a]) <= hi)
    && forall a, b :: 0 <= a < b < |t| ==> Rank(rules, dflt, t[a]) <= Rank(rules, dflt, t[b])
  }

  lemma RankedConcat(rules: seq<Rule>, dflt: Option<nat>, a: seq<Event>, b: seq<Event>, lo: nat, mid: nat, hi: nat)
    requires dflt.Some? ==> dflt.value < |rules|
    requires lo <= mid <= hi && RankedIn(rules, dflt, a, lo, mid) && RankedIn(rules, dflt, b, mid, hi)
    ensures RankedIn(rules, dflt, a + b, lo, hi)
  {
    hide Rank;
  }

  lemma RankedWider(rules: seq<Rule>, dflt: Option<nat>, t: seq<Event>, lo: nat, hi: nat, lo': nat, hi': nat)
    requires dflt.Some? ==> dflt.value < |rules|
    requires lo' <= lo && hi <= hi' && RankedIn(rules, dflt, t, lo, hi)
    ensures RankedIn(rules, dflt, t, lo', hi')
  {
    hide Rank;
  }

  lemma PhaseRanked(rules: seq<Rule>, p: Plan, t: seq<Event>, post: bool)
    requires PlanFor(rules, p) && About(t, if post then p.post else p.pre) && InRuleOrder(t)
    ensures Fits(rules, p)
    ensures if post then RankedIn(rules, p.dflt, t, |rules| + 3, 2 * |rules| + 3) else RankedIn(rules, p.dflt, t, 1, |rules|)
  {
    PlanFits(rules, p);
    var s := if post then p.post else p.pre;
    forall a | 0 <= a < |t|
      ensures t[a].rule < |rules| && Rank(rules, p.dflt, t[a]) == if post then |rules| + 3 + t[a].rule else t[a].rule + 1
    {
      assert t[a].rule in s;
      hide IsPost, SlotOf;
    }
    hide Rank, PlanFor, About;
  }

  lemma DefaultRanked(rules: seq<Rule>, p: Plan, s: Step, slot: Slot, r: nat)
    requires Fits(rules, p) && DefaultPart(rules, p, s, slot)
    requires r == match slot case Last => 2 * |rules| + 3 case BeforeUpstream => |rules| + 1 case _ => 0
    ensures RankedIn(rules, p.dflt, s.seg, r, r)
  {
    hide SlotOf, IsPost;
  }

  // Every run is in order, whatever is answered.
  lemma RunOrdered(w: World, rules: seq<Rule>, p: Plan)
    requires PlanFor(rules, p)
    ensures Fits(rules, p)
    ensures var t := Concat(Serve(w, rules, p));
            && RankedIn(rules, p.dflt, t, 0, 2 * |rules| + 3)
            && forall a, b :: 0 <= a < b < |t| ==> !(t[a].Upstream? && t[b].Upstream?)
  {
    PartsHold(w, rules, p);
    var parts := Serve(w, rules, p);
    var n, d := |rules|, p.dflt;
    PhaseRanked(rules, p, parts.pre.seg, false);
    PhaseRanked(rules, p, parts.post.seg, true);
    OneUpstream(rules, p, parts);
    hide Serve, PlanFor, RankedIn, DefaultPart, About, InRuleOrder;
    DefaultRanked(rules, p, parts.first, First, 0);
    DefaultRanked(rules, p, parts.before, BeforeUpstream, n + 1);
    DefaultRanked(rules, p, parts.last, Last, 2 * n + 3);
    assert RankedIn(rules, d, parts.up, n + 2, n + 2) by { UpRanked(rules, d, parts.up); }
    RankedSix(rules, d, parts);
  }

  lemma UpRanked(rules: seq<Rule>, dflt: Option<nat>, up: seq<Event>)
    requires (dflt.Some? ==> dflt.value < |rules|) && (up == [] || up == [Upstream])
    ensures RankedIn(rules, dflt, up, |rules| + 2, |rules| + 2)
  {
  }

  lemma RankedSix(rules: seq<Rule>, d: Option<nat>, parts: Parts)
    requires d.Some? ==> d.value < |rules|
    requires RankedIn(rules, d, parts.first.seg, 0, 0) && RankedIn(rules, d, parts.pre.seg, 1, |rules|)
    requires RankedIn(rules, d, parts.before.seg, |rules| + 1, |rules| + 1) && RankedIn(rules, d, parts.up, |rules| + 2, |rules| + 2)
    requires RankedIn(rules, d, parts.post.seg, |rules| + 3, 2 * |rules| + 3)
    requires RankedIn(rules, d, parts.last.seg, 2 * |rules| + 3, 2 * |rules| + 3)
    ensures RankedIn(rules, d, Concat(parts), 0, 2 * |rules| + 3)
  {
    hide RankedIn, Rank;
    var n := |rules|;
    var t := parts.first.seg;
    RankedWider(rules, d, parts.pre.seg, 1, n, 0, n + 1);
    RankedConcat(rules, d, t, parts.pre.seg, 0, 0, n + 1);
    t := t + parts.pre.seg;
    RankedConcat(rules, d, t, parts.before.seg, 0, n + 1, n + 1);
    t := t + parts.before.seg;
    RankedWider(rules, d, t, 0, n + 1, 0, n + 2);
    RankedConcat(rules, d, t, parts.up, 0, n + 2, n + 2);
    t := t + parts.up;
    RankedWider(rules, d, t, 0, n + 2, 0, n + 3);
    RankedConcat(rules, d, t, parts.post.seg, 0, n + 3, 2 * n + 3);
    RankedConcat(rules, d, t + parts.post.seg, parts.last.seg, 0, 2 * n + 3, 2 * n + 3);
  }

  // Only one part holds the upstream.
  lemma OneUpstream(rules: seq<Rule>, p: Plan, parts: Parts)
    requires Fits(rules, p) && PartsAbout(rules, p, parts)
    ensures var t := Concat(parts);
            && (Upstream in t <==> parts.up == [Upstream])
            && forall a, b :: 0 <= a < b < |t| ==> !(t[a].Upstream? && t[b].Upstream?)
  {
    hide SlotOf, InRuleOrder;
    var before := parts.first.seg + parts.pre.seg + parts.before.seg;
    var after := parts.post.seg + parts.last.seg;
    assert forall k :: 0 <= k < |before| ==> !before[k].Upstream?;
    assert forall k :: 0 <= k < |after| ==> !after[k].Upstream?;
    hide PartsAbout;
    assert Concat(parts) == before + parts.up + after;
    if parts.up == [Upstream] {
      assert (before + parts.up + after)[|before|] == Upstream;
    }
  }

  // ----- which rules act

  lemma InConcat(parts: Parts, e: Event)
    ensures e in Concat(parts) <==> e in parts.first.seg || e in parts.pre.seg || e in parts.before.seg || e in parts.up
                                    || e in parts.post.seg || e in parts.last.seg
  {
  }

  // The events of a rule that is not a default are those of its phase.
  lemma OnlyInPhase(rules: seq<Rule>, p: Plan, parts: Parts, e: Event)
    requires PlanFor(rules, p) && Fits(rules, p) && PartsAbout(rules, p, parts) && !e.Upstream?
    ensures e.rule in p.pre ==> (e in Concat(parts) <==> e in parts.pre.seg)
    ensures e.rule in p.post ==> (e in Concat(parts) <==> e in parts.post.seg)
    ensures e.rule !in p.pre && e.rule !in p.post ==>
              (e in Concat(parts) <==> e in parts.first.seg || e in parts.before.seg || e in parts.last.seg)
  {
    InConcat(parts, e);
    hide Concat, SlotOf, InRuleOrder, IsPost;
  }

  // The default rule is in neither phase, and no rule is in both.
  lemma PhasesApart(rules: seq<Rule>, p: Plan)
    requires PlanFor(rules, p)
    ensures p.dflt.Some? ==> p.dflt.value !in p.pre && p.dflt.value !in p.post
    ensures forall i :: i in p.pre ==> i !in p.post && i < |rules| && !IsPost(rules[i])
    ensures forall i :: i in p.post ==> i < |rules| && IsPost(rules[i])
  {
    hide IsPost;
  }

  // A rule before the response failed or ended the request.
  ghost predicate EarlyEnd(rules: seq<Rule>, t: seq<Event>) {
    exists e :: e in t && e.Handled? && e.rule < |rules| && !IsPost(rules[e.rule]) && e.result != Done
  }

  // The upstream is called exactly when no rule that acted before the response ended out of order.
  lemma UpstreamIff(w: World, rules: seq<Rule>, p: Plan)
    requires PlanFor(rules, p)
    ensures Fits(rules, p)
    ensures var t := Concat(Serve(w, rules, p)); Upstream in t <==> !EarlyEnd(rules, t)
  {
    PartsHold(w, rules, p);
    var parts := Serve(w, rules, p);
    OneUpstream(rules, p, parts);
    PhasesApart(rules, p);
    ScanVerdict(w, rules, true, p.pre, parts.first.seg);
    UpMeans(w, rules, p);
    hide Serve, Concat, Scan, PlanFor, IsPost, InRuleOrder, RankedIn;
    if EarlyEnd(rules, Concat(parts)) {
      EarlyEndPart(rules, p, parts);
    } else {
      EarlyParts(rules, p, parts);
    }
  }

  // When the parts call the upstream.
  lemma UpMeans(w: World, rules: seq<Rule>, p: Plan)
    requires Fits(rules, p)
    ensures var parts := Serve(w, rules, p);
            && (parts.up == [Upstream] <==> parts.pre.proceed && parts.before.result == Done)
            && (parts.first.result != Done ==>
                  !parts.pre.proceed && parts.pre.seg == [] && parts.pre.aborted == (parts.first.result == Panicked))
            && (parts.first.result == Done ==> parts.pre == Scan(w, rules, true, p.pre, parts.first.seg))
  {
    hide Scan, DefaultStep, SlotOf;
  }

  // An early end is in one of the parts before the upstream.
  lemma EarlyEndPart(rules: seq<Rule>, p: Plan, parts: Parts)
    requires PlanFor(rules, p) && Fits(rules, p) && PartsAbout(rules, p, parts) && EarlyEnd(rules, Concat(parts))
    ensures parts.first.result != Done || parts.before.result != Done || !AllDone(parts.pre.seg)
  {
    var e :| e in Concat(parts) && e.Handled? && e.rule < |rules| && !IsPost(rules[e.rule]) && e.result != Done;
    OnlyInPhase(rules, p, parts, e);
    PhasesApart(rules, p);
    hide Concat, PlanFor, InRuleOrder, About;
  }

  // Without one, all of those parts end in order.
  lemma EarlyParts(rules: seq<Rule>, p: Plan, parts: Parts)
    requires PlanFor(rules, p) && Fits(rules, p) && PartsAbout(rules, p, parts) && !EarlyEnd(rules, Concat(parts))
    ensures parts.first.result == Done && parts.before.result == Done && AllDone(parts.pre.seg)
  {
    PhasesApart(rules, p);
    forall e ensures e in parts.first.seg || e in parts.pre.seg || e in parts.before.seg ==> e in Concat(parts) {
      InConcat(parts, e);
    }
    hide Concat, PlanFor, InRuleOrder;
    assert parts.first.seg != [] ==> Handled(p.dflt.value, parts.first.result) in Concat(parts);
    assert parts.before.seg != [] ==> Handled(p.dflt.value, parts.before.result) in Concat(parts);
    forall e | e in parts.pre.seg && e.Handled? ensures e.result == Done {
      assert e in Concat(parts) && e.rule in p.pre;
    }
  }

  // A rule before the response that matched.
  ghost predicate EarlyMatch(p: Plan, t: seq<Event>) {
    exists i: nat :: i in p.pre && Checked(i, true) in t
  }

  // A terminating default rule acts exactly when no rule before the response matched, not even to bypass.
  lemma TerminatingDefaultIff(w: World, rules: seq<Rule>, p: Plan)
    requires PlanFor(rules, p) && p.dflt.Some? && p.dflt.value < |rules|
    requires !IsPost(rules[p.dflt.value]) && IsTerminating(rules[p.dflt.value].cmds)
    ensures Fits(rules, p)
    ensures var t := Concat(Serve(w, rules, p)); WasHandled(t, p.dflt.value) <==> !EarlyMatch(p, t)
  {
    PartsHold(w, rules, p);
    PhasesApart(rules, p);
    var d := p.dflt.value;
    var parts := Serve(w, rules, p);
    assert parts.first == Step([], Done) && parts.last == Step([], Done);
    assert parts.before == DefaultStep(w, rules, p.dflt, parts.pre.proceed && !parts.pre.matched, parts.first.seg + parts.pre.seg);
    assert parts.pre == Scan(w, rules, true, p.pre, []);
    ScanVerdict(w, rules, true, p.pre, []);
    ScanNoMatch(w, rules, true, p.pre, []);
    HandleFacts(w, d, rules[d].cmds, parts.first.seg + parts.pre.seg);
    hide Serve, Concat, Scan, PlanFor, IsPost, InRuleOrder, Handle, IsTerminating, SlotOf, DefaultPart, AllDone, Faithful;
    DefaultHandled(rules, p, parts);
    MatchInPre(rules, p, parts);
  }

  lemma DefaultHandled(rules: seq<Rule>, p: Plan, parts: Parts)
    requires PlanFor(rules, p) && Fits(rules, p) && PartsAbout(rules, p, parts) && p.dflt.Some?
    ensures WasHandled(Concat(parts), p.dflt.value) <==> parts.first.seg != [] || parts.before.seg != [] || parts.last.seg != []
  {
    PhasesApart(rules, p);
    var d := p.dflt.value;
    OnlyInPhase(rules, p, parts, Handled(d, Done));
    OnlyInPhase(rules, p, parts, Handled(d, Terminated));
    OnlyInPhase(rules, p, parts, Handled(d, Failed));
    OnlyInPhase(rules, p, parts, Handled(d, Panicked));
    hide Concat, PlanFor, InRuleOrder, IsPost, SlotOf, About;
    HandledSomehow(Concat(parts), d, parts.first.result);
    HandledSomehow(Concat(parts), d, parts.before.result);
    HandledSomehow(Concat(parts), d, parts.last.result);
    InConcat(parts, Handled(d, parts.first.result));
    InConcat(parts, Handled(d, parts.before.result));
    InConcat(parts, Handled(d, parts.last.result));
  }

  lemma MatchInPre(rules: seq<Rule>, p: Plan, parts: Parts)
    requires PlanFor(rules, p) && Fits(rules, p) && PartsAbout(rules, p, parts)
    ensures EarlyMatch(p, Concat(parts)) <==> SomeMatch(parts.pre.seg)
  {
    forall i: nat ensures i in p.pre ==> (Checked(i, true) in Concat(parts) <==> Checked(i, true) in parts.pre.seg) {
      OnlyInPhase(rules, p, parts, Checked(i, true));
    }
    hide Concat, PlanFor, InRuleOrder, IsPost, SlotOf, DefaultPart;
    forall i: nat | Checked(i, true) in parts.pre.seg ensures i in p.pre {
      var k :| 0 <= k < |parts.pre.seg| && parts.pre.seg[k] == Checked(i, true);
    }
  }

  // Without a match the request proceeds.
  lemma {:induction false} ScanNoMatch(w: World, rules: seq<Rule>, early: bool, s: seq<nat>, t: seq<Event>)
    requires InRange(s, |rules|)
    ensures !Scan(w, rules, early, s, t).matched ==> Scan(w, rules, early, s, t).proceed
  {
    if s != [] && !w.check(s[0], t) {
      ScanNoMatch(w, rules, early, s[1..], t + [Checked(s[0], false)]);
    }
  }

  // What keeps the rules before the response from being checked: a default rule that went first and did not end in
  // order, or an earlier rule that stopped the scan.
  ghost predicate CutBefore(rules: seq<Rule>, p: Plan, t: seq<Event>, i: nat)
    requires Fits(rules, p)
  {
    || (SlotOf(rules, p.dflt) == First && exists r :: r != Done && Handled(p.dflt.value, r) in t)
    || exists e :: e in t && !e.Upstream? && e.rule in p.pre && e.rule < i && Stops(rules, true, e)
  }

  // Exactly what it takes for a rule before the response to be checked.
  lemma EarlyCheckedIff(w: World, rules: seq<Rule>, p: Plan, i: nat)
    requires PlanFor(rules, p) && i in p.pre
    ensures Fits(rules, p)
    ensures var t := Concat(Serve(w, rules, p)); WasChecked(t, i) <==> !CutBefore(rules, p, t, i)
  {
    PartsHold(w, rules, p);
    PlanFits(rules, p);
    var parts := Serve(w, rules, p);
    UpMeans(w, rules, p);
    ScanChecked(w, rules, true, p.pre, parts.first.seg, i);
    hide Serve, Concat, Scan, PlanFor, IsPost, InRuleOrder, IsTerminating, SlotOf, DefaultPart, AllDone, Faithful, Stops;
    SameChecked(rules, p, parts, i);
    StopsInPre(rules, p, parts, i);
    FirstInTrace(rules, p, parts);
    hide WasChecked, StoppedBefore;
    if parts.first.result != Done {
      assert !WasChecked([], i) by { NothingChecked(i); }
    }
  }

  lemma SameChecked(rules: seq<Rule>, p: Plan, parts: Parts, i: nat)
    requires PlanFor(rules, p) && Fits(rules, p) && PartsAbout(rules, p, parts)
    ensures i in p.pre ==> (WasChecked(Concat(parts), i) <==> WasChecked(parts.pre.seg, i))
    ensures i in p.post ==> (WasChecked(Concat(parts), i) <==> WasChecked(parts.post.seg, i))
  {
    hide Concat, PartsAbout, PlanFor;
    OnlyInPhase(rules, p, parts, Checked(i, true));
    OnlyInPhase(rules, p, parts, Checked(i, false));
  }

  lemma StopsInPre(rules: seq<Rule>, p: Plan, parts: Parts, i: nat)
    requires PlanFor(rules, p) && Fits(rules, p) && PartsAbout(rules, p, parts)
    ensures StoppedBefore(rules, true, parts.pre.seg, i)
            <==> exists e :: e in Concat(parts) && !e.Upstream? && e.rule in p.pre && e.rule < i && Stops(rules, true, e)
  {
    forall e: Event ensures !e.Upstream? && e.rule in p.pre ==> (e in Concat(parts) <==> e in parts.pre.seg) {
      if !e.Upstream? {
        OnlyInPhase(rules, p, parts, e);
      }
    }
    hide Concat, PlanFor, InRuleOrder, DefaultPart, Stops;
    if StoppedBefore(rules, true, parts.pre.seg, i) {
      var e :| e in parts.pre.seg && !e.Upstream? && e.rule < i && Stops(rules, true, e);
      assert e in Concat(parts) && e.rule in p.pre;
    }
  }

  // How the default rule that goes first ended is in the trace.
  lemma FirstInTrace(rules: seq<Rule>, p: Plan, parts: Parts)
    requires PlanFor(rules, p) && Fits(rules, p) && PartsAbout(rules, p, parts)
    ensures parts.first.result != Done
            <==> (SlotOf(rules, p.dflt) == First && exists r :: r != Done && Handled(p.dflt.value, r) in Concat(parts))
  {
    PhasesApart(rules, p);
    if SlotOf(rules, p.dflt) == First {
      forall r ensures Handled(p.dflt.value, r) in Concat(parts) <==> Handled(p.dflt.value, r) in parts.first.seg {
        OnlyInPhase(rules, p, parts, Handled(p.dflt.value, r));
      }
    }
    hide Concat, PlanFor, InRuleOrder, About, SlotOf, IsPost;
  }

  // A rule before the response panicked.
  ghost predicate EarlyPanic(rules: seq<Rule>, t: seq<Event>) {
    exists e :: e in t && e.Handled? && e.rule < |rules| && !IsPost(rules[e.rule]) && e.result == Panicked
  }

  // What keeps a rule after the response from being checked: a panic, a terminating default rule that failed, or an
  // earlier rule of that phase that did not end in order. Any other early end before the response does not.
  ghost predicate LateCut(rules: seq<Rule>, p: Plan, t: seq<Event>, i: nat)
    requires Fits(rules, p)
  {
    || EarlyPanic(rules, t)
    || (SlotOf(rules, p.dflt) == BeforeUpstream && Handled(p.dflt.value, Failed) in t)
    || exists e :: e in t && e.Handled? && e.rule in p.post && e.rule < i && e.result != Done
  }

  lemma LateCheckedIff(w: World, rules: seq<Rule>, p: Plan, i: nat)
    requires PlanFor(rules, p) && i in p.post
    ensures Fits(rules, p)
    ensures var t := Concat(Serve(w, rules, p)); WasChecked(t, i) <==> !LateCut(rules, p, t, i)
  {
    PartsHold(w, rules, p);
    PlanFits(rules, p);
    var parts := Serve(w, rules, p);
    var t4 := parts.first.seg + parts.pre.seg + parts.before.seg + parts.up;
    PostMeans(w, rules, p);
    ScanChecked(w, rules, false, p.post, t4, i);
    hide Serve, Concat, Scan, PlanFor, IsPost, InRuleOrder, IsTerminating, SlotOf, DefaultPart, AllDone, Faithful, Stops, EarlyPanic;
    SameChecked(rules, p, parts, i);
    StopsInPost(rules, p, parts, i);
    FailedInTrace(rules, p, parts);
    PanicInTrace(w, rules, p);
    hide WasChecked, StoppedBefore;
    if Cut(parts) {
      assert !WasChecked([], i) by { NothingChecked(i); }
    }
  }

  // The phase after the response does not begin.
  predicate Cut(parts: Parts) {
    parts.before.result == Failed || parts.before.result == Panicked || parts.pre.aborted
  }

  lemma PostMeans(w: World, rules: seq<Rule>, p: Plan)
    requires Fits(rules, p)
    ensures var parts := Serve(w, rules, p);
            if Cut(parts) then parts.post == ScanStep([], false, false, false)
            else parts.post == Scan(w, rules, false, p.post, parts.first.seg + parts.pre.seg + parts.before.seg + parts.up)
  {
    hide Scan, DefaultStep, SlotOf;
  }

  // A panic before the response is in the trace.
  lemma PanicInTrace(w: World, rules: seq<Rule>, p: Plan)
    requires PlanFor(rules, p)
    ensures Fits(rules, p)
    ensures var parts := Serve(w, rules, p);
            EarlyPanic(rules, Concat(parts)) <==> parts.before.result == Panicked || parts.pre.aborted
  {
    PartsHold(w, rules, p);
    PhasesApart(rules, p);
    var parts := Serve(w, rules, p);
    UpMeans(w, rules, p);
    ScanPanics(w, rules, true, p.pre, parts.first.seg);
    hide Serve, Concat, Scan, PlanFor, InRuleOrder, IsPost;
    if EarlyPanic(rules, Concat(parts)) {
      PanicPart(rules, p, parts);
    } else {
      PanicParts(rules, p, parts);
    }
  }

  lemma PanicPart(rules: seq<Rule>, p: Plan, parts: Parts)
    requires PlanFor(rules, p) && Fits(rules, p) && PartsAbout(rules, p, parts) && EarlyPanic(rules, Concat(parts))
    ensures parts.first.result == Panicked || parts.before.result == Panicked || SomePanic(parts.pre.seg)
  {
    var e :| e in Concat(parts) && e.Handled? && e.rule < |rules| && !IsPost(rules[e.rule]) && e.result == Panicked;
    OnlyInPhase(rules, p, parts, e);
    PhasesApart(rules, p);
    hide Concat, PlanFor, InRuleOrder, About;
  }

  lemma PanicParts(rules: seq<Rule>, p: Plan, parts: Parts)
    requires PlanFor(rules, p) && Fits(rules, p) && PartsAbout(rules, p, parts) && !EarlyPanic(rules, Concat(parts))
    ensures parts.first.result != Panicked && parts.before.result != Panicked && !SomePanic(parts.pre.seg)
  {
    PhasesApart(rules, p);
    forall e ensures e in parts.first.seg || e in parts.pre.seg || e in parts.before.seg ==> e in Concat(parts) {
      InConcat(parts, e);
    }
    hide Concat, PlanFor, InRuleOrder;
    assert parts.first.seg != [] ==> Handled(p.dflt.value, parts.first.result) in Concat(parts);
    assert parts.before.seg != [] ==> Handled(p.dflt.value, parts.before.result) in Concat(parts);
    forall i: nat ensures Handled(i, Panicked) !in parts.pre.seg {
      assert Handled(i, Panicked) in parts.pre.seg ==> Handled(i, Panicked) in Concat(parts) && i in p.pre;
    }
  }

  lemma StopsInPost(rules: seq<Rule>, p: Plan, parts: Parts, i: nat)
    requires PlanFor(rules, p) && Fits(rules, p) && PartsAbout(rules, p, parts)
    ensures StoppedBefore(rules, false, parts.post.seg, i)
            <==> exists e :: e in Concat(parts) && e.Handled? && e.rule in p.post && e.rule < i && e.result != Done
  {
    PhasesApart(rules, p);
    forall e: Event ensures !e.Upstream? && e.rule in p.post ==> (e in Concat(parts) <==> e in parts.post.seg) {
      if !e.Upstream? {
        OnlyInPhase(rules, p, parts, e);
      }
    }
    hide Concat, PlanFor, InRuleOrder, DefaultPart, IsPost;
    if StoppedBefore(rules, false, parts.post.seg, i) {
      var e :| e in parts.post.seg && !e.Upstream? && e.rule < i && Stops(rules, false, e);
      assert e in Concat(parts) && e.rule in p.post;
    }
  }

  lemma FailedInTrace(rules: seq<Rule>, p: Plan, parts: Parts)
    requires PlanFor(rules, p) && Fits(rules, p) && PartsAbout(rules, p, parts)
    ensures parts.before.result == Failed
            <==> (SlotOf(rules, p.dflt) == BeforeUpstream && Handled(p.dflt.value, Failed) in Concat(parts))
  {
    PhasesApart(rules, p);
    if SlotOf(rules, p.dflt) == BeforeUpstream {
      OnlyInPhase(rules, p, parts, Handled(p.dflt.value, Failed));
    }
    hide Concat, PlanFor, InRuleOrder, About, SlotOf, IsPost;
  }

  // A rule acts exactly when it was checked and matched, unless it bypasses before the response.
  lemma ActsIffMatched(w: World, rules: seq<Rule>, p: Plan, i: nat)
    requires PlanFor(rules, p) && i < |rules| && (i in p.pre || i in p.post)
    ensures Fits(rules, p)
    ensures var t := Concat(Serve(w, rules, p));
            WasHandled(t, i) <==> Checked(i, true) in t && !(i in p.pre && IsBypass(rules[i].cmds))
  {
    PartsHold(w, rules, p);
    PlanFits(rules, p);
    PhasesApart(rules, p);
    var parts := Serve(w, rules, p);
    UpMeans(w, rules, p);
    var t4 := parts.first.seg + parts.pre.seg + parts.before.seg + parts.up;
    PostMeans(w, rules, p);
    if i in p.pre {
      ScanHandled(w, rules, true, p.pre, parts.first.seg, i);
    } else {
      ScanHandled(w, rules, false, p.post, t4, i);
    }
    hide Serve, Concat, Scan, PlanFor, IsPost, InRuleOrder, IsTerminating, SlotOf, DefaultPart, AllDone, Faithful, Stops, IsBypass, PartsAbout;
    OnlyInPhase(rules, p, parts, Checked(i, true));
    OnlyInPhase(rules, p, parts, Handled(i, Done));
    OnlyInPhase(rules, p, parts, Handled(i, Terminated));
    OnlyInPhase(rules, p, parts, Handled(i, Failed));
    OnlyInPhase(rules, p, parts, Handled(i, Panicked));
  }

  // A default rule that goes first always acts; one on the response acts unless something cut that phase short.
  lemma OtherDefaultsIff(w: World, rules: seq<Rule>, p: Plan)
    requires PlanFor(rules, p) && p.dflt.Some? && p.dflt.value < |rules|
    ensures Fits(rules, p)
    ensures var t := Concat(Serve(w, rules, p));
            && (SlotOf(rules, p.dflt) == First ==> WasHandled(t, p.dflt.value))
            && (SlotOf(rules, p.dflt) == Last ==> (WasHandled(t, p.dflt.value) <==> !LateCut(rules, p, t, |rules|)))
  {
    PartsHold(w, rules, p);
    PlanFits(rules, p);
    var parts := Serve(w, rules, p);
    DefaultHandled(rules, p, parts);
    DefaultSegs(w, rules, p);
    hide Scan, Concat, PlanFor, IsPost, InRuleOrder, IsTerminating, SlotOf, DefaultPart, Handle, Faithful, Serve, DefaultStep, EarlyPanic;
    if SlotOf(rules, p.dflt) == Last {
      var t4 := parts.first.seg + parts.pre.seg + parts.before.seg + parts.up;
      PostMeans(w, rules, p);
      PanicInTrace(w, rules, p);
      ScanVerdict(w, rules, false, p.post, t4);
      StopsInPost(rules, p, parts, |rules|);
      AllDoneStops(rules, p, parts.post.seg);
    }
  }

  // When the default rule adds anything.
  lemma DefaultSegs(w: World, rules: seq<Rule>, p: Plan)
    requires Fits(rules, p) && p.dflt.Some?
    ensures var parts := Serve(w, rules, p);
            && (SlotOf(rules, p.dflt) == First ==> parts.first.seg != [])
            && (SlotOf(rules, p.dflt) == Last ==>
                  parts.first.seg == [] && parts.before == Step([], Done) && (parts.last.seg != [] <==> parts.post.proceed))
  {
    var parts := Serve(w, rules, p);
    var d := p.dflt.value;
    HandleFacts(w, d, rules[d].cmds, []);
    HandleFacts(w, d, rules[d].cmds, parts.first.seg + parts.pre.seg + parts.before.seg + parts.up + parts.post.seg);
    hide Scan, SlotOf, Handle, Faithful, About, InRuleOrder;
  }

  lemma AllDoneStops(rules: seq<Rule>, p: Plan, t: seq<Event>)
    requires Fits(rules, p) && About(t, p.post)
    ensures AllDone(t) <==> !StoppedBefore(rules, false, t, |rules|)
  {
    forall e | e in t ensures !e.Upstream? && e.rule < |rules| {
      assert e.rule in p.post;
    }
  }

  // Every check is recorded with the answer it got at that moment.
  lemma RunFaithful(w: World, rules: seq<Rule>, p: Plan)
    requires PlanFor(rules, p)
    ensures Fits(rules, p) && Faithful(w, [], Concat(Serve(w, rules, p)))
  {
    PlanFits(rules, p);
    var parts := Serve(w, rules, p);
    var t1 := parts.first.seg;
    var t2 := t1 + parts.pre.seg;
    var t3 := t2 + parts.before.seg;
    var t4 := t3 + parts.up;
    var t5 := t4 + parts.post.seg;
    DefaultFaithful(w, rules, p.dflt, SlotOf(rules, p.dflt) == First, []);
    ScanShape(w, rules, true, p.pre, t1);
    DefaultFaithful(w, rules, p.dflt, SlotOf(rules, p.dflt) == BeforeUpstream && parts.pre.proceed && !parts.pre.matched, t2);
    ScanShape(w, rules, false, p.post, t4);
    DefaultFaithful(w, rules, p.dflt, SlotOf(rules, p.dflt) == Last && parts.post.proceed, t5);
    NothingFaithful(w, t1);
    NothingFaithful(w, t3);
    NothingFaithful(w, t4);
    hide Faithful, Scan, DefaultStep, SlotOf, PlanFor, About, InRuleOrder;
    assert [] + t1 == t1 && [] + t2 == t2 && [] + t3 == t3 && [] + t4 == t4 && [] + t5 == t5;
    FaithfulConcat(w, [], t1, parts.pre.seg);
    FaithfulConcat(w, [], t2, parts.before.seg);
    FaithfulConcat(w, [], t3, parts.up);
    FaithfulConcat(w, [], t4, parts.post.seg);
    FaithfulConcat(w, [], t5, parts.last.seg);
  }

  lemma DefaultFaithful(w: World, rules: seq<Rule>, dflt: Option<nat>, now: bool, t: seq<Event>)
    requires dflt.Some? ==> dflt.value < |rules|
    ensures Faithful(w, t, DefaultStep(w, rules, dflt, now, t).seg)
  {
    if now && dflt.Some? {
      HandleFacts(w, dflt.value, rules[dflt.value].cmds, t);
    }
  }

  lemma NothingFaithful(w: World, t: seq<Event>)
    ensures Faithful(w, t, []) && Faithful(w, t, [Upstream])
  {
  }

  // A rule without commands that matches before the response panics, and takes the upstream and all of the phase after
  // the response with it.
  lemma EmptyRulePanics(w: World, rules: seq<Rule>, p: Plan, i: nat)
    requires PlanFor(rules, p) && i in p.pre && i < |rules| && rules[i].cmds == []
    requires Fits(rules, p) && Checked(i, true) in Concat(Serve(w, rules, p))
    ensures var t := Concat(Serve(w, rules, p));
            Handled(i, Panicked) in t && Upstream !in t && forall j :: j in p.post ==> !WasChecked(t, j)
  {
    PartsHold(w, rules, p);
    PhasesApart(rules, p);
    ActsIffMatched(w, rules, p, i);
    UpstreamIff(w, rules, p);
    UpMeans(w, rules, p);
    var parts := Serve(w, rules, p);
    var t := Concat(parts);
    var r :| Handled(i, r) in t;
    OnlyInPhase(rules, p, parts, Handled(i, r));
    hide Serve, Concat, Scan, PlanFor, IsPost, InRuleOrder, DefaultPart, IsBypass;
    ScanEmpty(w, rules, true, p.pre, parts.first.seg, i, r);
    assert EarlyEnd(rules, t) && EarlyPanic(rules, t);
    hide EarlyEnd, EarlyPanic, WasChecked;
    forall j | j in p.post ensures !WasChecked(t, j) {
      LateCheckedIff(w, rules, p, j);
    }
  }

  // ----- panics

  ghost predicate NoCommandPanics(w: World) {
    forall i, k, t :: w.outcome(i, k, t) != Panicked
  }

  // Exactly the rules without commands end in a panic.
  ghost predicate PanicsRight(rules: seq<Rule>, t: seq<Event>) {
    forall e :: e in t && e.Handled? ==> e.rule < |rules| && (e.result == Panicked <==> rules[e.rule].cmds == [])
  }

  lemma {:induction false} RunNoPanic(w: World, i: nat, cmds: seq<Command>, k: nat, t: seq<Event>)
    requires NoCommandPanics(w) && k <= |cmds|
    ensures Run(w, i, cmds, k, t).result != Panicked
    decreases |cmds| - k
  {
    if k < |cmds| {
      assert w.outcome(i, k, t) != Panicked;
      RunNoPanic(w, i, cmds, k + 1, t + [Ran(i, k)]);
    }
  }

  lemma HandlePanicsRight(w: World, rules: seq<Rule>, i: nat, t: seq<Event>)
    requires NoCommandPanics(w) && i < |rules|
    ensures PanicsRight(rules, Handle(w, i, rules[i].cmds, t).seg)
  {
    RunNoPanic(w, i, rules[i].cmds, 0, t);
    HandleFacts(w, i, rules[i].cmds, t);
    hide Run, About, InRuleOrder, Faithful, NoCommandPanics;
  }

  lemma RightConcat(rules: seq<Rule>, a: seq<Event>, b: seq<Event>)
    requires PanicsRight(rules, a) && PanicsRight(rules, b)
    ensures PanicsRight(rules, a + b)
  {
  }

  lemma {:induction false} ScanPanicsRight(w: World, rules: seq<Rule>, early: bool, s: seq<nat>, t: seq<Event>)
    requires NoCommandPanics(w) && InRange(s, |rules|)
    ensures PanicsRight(rules, Scan(w, rules, early, s, t).seg)
  {
    if s != [] {
      ScanUnfold(w, rules, early, s, t);
      var (head, go) := HeadOf(w, rules, early, s[0], t);
      HeadPanicsRight(w, rules, early, s[0], t);
      hide Scan, HeadOf, PanicsRight, NoCommandPanics;
      if go {
        ScanPanicsRight(w, rules, early, s[1..], t + head);
        RightConcat(rules, head, Scan(w, rules, early, s[1..], t + head).seg);
      }
    }
  }

  lemma HeadPanicsRight(w: World, rules: seq<Rule>, early: bool, i: nat, t: seq<Event>)
    requires NoCommandPanics(w) && i < |rules|
    ensures PanicsRight(rules, HeadOf(w, rules, early, i, t).0)
  {
    var c := [Checked(i, w.check(i, t))];
    HandlePanicsRight(w, rules, i, t + c);
    hide Handle, NoCommandPanics, IsBypass;
  }

  lemma DefaultPanicsRight(w: World, rules: seq<Rule>, dflt: Option<nat>, now: bool, t: seq<Event>)
    requires NoCommandPanics(w) && (dflt.Some? ==> dflt.value < |rules|)
    ensures PanicsRight(rules, DefaultStep(w, rules, dflt, now, t).seg)
  {
    if now && dflt.Some? {
      HandlePanicsRight(w, rules, dflt.value, t);
    }
    hide Handle, NoCommandPanics;
  }

  lemma NothingPanics(rules: seq<Rule>)
    ensures PanicsRight(rules, []) && PanicsRight(rules, [Upstream])
  {
  }

  lemma GeneralPanicsRight(w: World, rules: seq<Rule>, p: Plan)
    requires NoCommandPanics(w) && Fits(rules, p)
    ensures PanicsRight(rules, Concat(Serve(w, rules, p)))
  {
    hide NoCommandPanics, PanicsRight, Scan, DefaultStep, SlotOf, Handle, InRange;
    var parts := Serve(w, rules, p);
    var slot := SlotOf(rules, p.dflt);
    var t1 := parts.first.seg;
    var t2 := t1 + parts.pre.seg;
    var t3 := t2 + parts.before.seg;
    var t4 := t3 + parts.up;
    NothingPanics(rules);
    DefaultPanicsRight(w, rules, p.dflt, slot == First, []);
    ScanPanicsRight(w, rules, true, p.pre, t1);
    DefaultPanicsRight(w, rules, p.dflt, slot == BeforeUpstream && parts.pre.proceed && !parts.pre.matched, t2);
    ScanPanicsRight(w, rules, false, p.post, t4);
    DefaultPanicsRight(w, rules, p.dflt, slot == Last && parts.post.proceed, t4 + parts.post.seg);
    RightConcat(rules, t1, parts.pre.seg);
    RightConcat(rules, t2, parts.before.seg);
    RightConcat(rules, t3, parts.up);
    RightConcat(rules, t4, parts.post.seg);
    RightConcat(rules, t4 + parts.post.seg, parts.last.seg);
  }

  lemma HandlerPanicsRight(w: World, rules: seq<Rule>, h: Handler)
    requires NoCommandPanics(w) && Serves(rules, h)
    ensures PanicsRight(rules, ServeWith(w, rules, h))
  {
    hide NoCommandPanics, PanicsRight, Handle, Serve, Concat;
    NothingPanics(rules);
    match h
    case JustUpstream =>
    case UpstreamThenDefault(d) =>
      HandlePanicsRight(w, rules, d, [Upstream]);
      RightConcat(rules, [Upstream], Handle(w, d, rules[d].cmds, [Upstream]).seg);
    case DefaultThenUpstream(d) =>
      var s := Handle(w, d, rules[d].cmds, []);
      HandlePanicsRight(w, rules, d, []);
      RightConcat(rules, s.seg, if s.result == Done then [Upstream] else []);
    case General(p) =>
      GeneralPanicsRight(w, rules, p);
  }

  // When no command panics itself, a run of any handler holds a panic exactly when it handles a rule without commands,
  // be it a default rule or not, before the response or after it.
  lemma PanicIff(w: World, rules: seq<Rule>, h: Handler)
    requires NoCommandPanics(w) && Serves(rules, h)
    ensures var t := ServeWith(w, rules, h);
            SomePanic(t) <==> exists i: nat :: i < |rules| && rules[i].cmds == [] && WasHandled(t, i)
  {
    HandlerPanicsRight(w, rules, h);
    hide NoCommandPanics, ServeWith;
    var t := ServeWith(w, rules, h);
    if SomePanic(t) {
      var i: nat :| Handled(i, Panicked) in t;
      assert WasHandled(t, i) && rules[i].cmds == [];
    }
    if i: nat :| i < |rules| && rules[i].cmds == [] && WasHandled(t, i) {
      var r :| Handled(i, r) in t;
      assert r == Panicked;
    }
  }

  // The rule takes part in handling requests: it is not a default rule, or the last of those.
  ghost predicate InUse(rules: seq<Rule>, i: nat) {
    i < |rules| && (!rules[i].isDefault || forall j :: i < j < |rules| ==> !rules[j].isDefault)
  }

  // Only the rule i matches, and every command ends in order.
  function OnlyMatch(i: nat): World {
    World((j: nat, t: seq<Event>) => j == i, (j: nat, k: nat, t: seq<Event>) => Done)
  }

  lemma {:induction false} ScanMeets(rules: seq<Rule>, early: bool, s: seq<nat>, t: seq<Event>, i: nat)
    requires InRange(s, |rules|) && (i in s ==> rules[i].cmds == [])
    ensures var r := Scan(OnlyMatch(i), rules, early, s, t);
            if i in s then SomePanic(r.seg) else r.proceed && !r.matched && !r.aborted
  {
    if s != [] {
      var w, c := OnlyMatch(i), [Checked(s[0], s[0] == i)];
      if s[0] == i {
        assert Handle(w, i, [], t + c) == Step([Handled(i, Panicked)], Panicked);
        assert Scan(w, rules, early, s, t).seg == c + [Handled(i, Panicked)];
        assert Handled(i, Panicked) in c + [Handled(i, Panicked)];
      } else {
        assert forall a :: 0 <= a < |s[1..]| ==> s[1..][a] == s[a + 1];
        ScanMeets(rules, early, s[1..], t + c, i);
        PanicConcat(c, Scan(w, rules, early, s[1..], t + c).seg);
      }
    }
  }

  lemma {:induction false} RunsInOrder(i: nat, j: nat, cmds: seq<Command>, k: nat, t: seq<Event>)
    requires k <= |cmds| && forall a :: 0 <= a < |cmds| ==> !cmds[a].Bypass? && !cmds[a].Terminating?
    ensures Run(OnlyMatch(i), j, cmds, k, t).result == Done
    decreases |cmds| - k
  {
    if k < |cmds| {
      RunsInOrder(i, j, cmds, k + 1, t + [Ran(j, k)]);
    }
  }

  // A default rule that goes first ends in order there, or panics.
  lemma FirstGoesOn(rules: seq<Rule>, d: nat, i: nat, t: seq<Event>)
    requires d < |rules| && Accepted(rules[d].cmds) && SlotOf(rules, Some(d)) == First
    ensures var s := Handle(OnlyMatch(i), d, rules[d].cmds, t);
            if rules[d].cmds == [] then SomePanic(s.seg) else s.result == Done
  {
    var cmds := rules[d].cmds;
    if cmds == [] {
      assert Handle(OnlyMatch(i), d, cmds, t).seg == [Handled(d, Panicked)];
    } else {
      var n: nat :| EndsAt(cmds, n) && forall k :: 0 <= k < n - 1 ==> cmds[k].NonTerminating?;
      assert forall k :: 0 <= k < |cmds| ==> cmds[k] in cmds && !cmds[k].OnResponse?;
      assert n == |cmds|;
      RunsInOrder(i, d, cmds, 0, t);
    }
  }

  lemma {:induction false} RunsOn(i: nat, j: nat, cmds: seq<Command>, k: nat, t: seq<Event>)
    requires k <= |cmds|
    ensures Run(OnlyMatch(i), j, cmds, k, t).result in {Done, Terminated}
    decreases |cmds| - k
  {
    if k < |cmds| {
      RunsOn(i, j, cmds, k + 1, t + [Ran(j, k)]);
    }
  }

  lemma PanicInPart(parts: Parts)
    requires SomePanic(parts.first.seg) || SomePanic(parts.pre.seg) || SomePanic(parts.post.seg) || SomePanic(parts.last.seg)
    ensures SomePanic(Concat(parts))
  {
    PanicConcat(parts.first.seg, parts.pre.seg);
    PanicConcat(parts.first.seg + parts.pre.seg, parts.before.seg);
    PanicConcat(parts.first.seg + parts.pre.seg + parts.before.seg, parts.up);
    PanicConcat(parts.first.seg + parts.pre.seg + parts.before.seg + parts.up, parts.post.seg);
    PanicConcat(parts.first.seg + parts.pre.seg + parts.before.seg + parts.up + parts.post.seg, parts.last.seg);
    hide SomePanic;
  }

  // A terminating default rule does not keep the rules after the response from being checked.
  lemma BeforeGoesOn(rules: seq<Rule>, dflt: Option<nat>, i: nat, now: bool, t: seq<Event>)
    requires dflt.Some? ==> dflt.value < |rules|
    requires now ==> SlotOf(rules, dflt) == BeforeUpstream
    ensures DefaultStep(OnlyMatch(i), rules, dflt, now, t).result in {Done, Terminated}
  {
    if now && dflt.Some? {
      RunsOn(i, dflt.value, rules[dflt.value].cmds, 0, t);
    }
  }

  // Every rule in use that has no commands panics in some world.
  lemma GeneralMeets(rules: seq<Rule>, p: Plan, i: nat)
    requires PlanFor(rules, p) && Usable(rules) && InUse(rules, i) && rules[i].cmds == []
    ensures Fits(rules, p) && SomePanic(Concat(Serve(OnlyMatch(i), rules, p)))
  {
    PlanFits(rules, p);
    var w, parts := OnlyMatch(i), Serve(OnlyMatch(i), rules, p);
    var slot := SlotOf(rules, p.dflt);
    var t2 := parts.first.seg + parts.pre.seg;
    assert p.dflt.Some? ==> Accepted(rules[p.dflt.value].cmds);
    assert i in p.pre || i in p.post || p.dflt == Some(i);
    assert p.dflt == Some(i) ==> slot == if IsPost(rules[i]) then Last else First;
    if slot == First {
      FirstGoesOn(rules, p.dflt.value, i, []);
    }
    hide Usable, PlanFor, Accepted, IsPost, InUse;
    assert SomePanic(parts.first.seg) || parts.first.result == Done by { hide Scan, Handle, SomePanic; }
    if !SomePanic(parts.first.seg) {
      ScanMeets(rules, true, p.pre, parts.first.seg, i);
      BeforeGoesOn(rules, p.dflt, i, slot == BeforeUpstream && parts.pre.proceed && !parts.pre.matched, t2);
      ScanMeets(rules, false, p.post, t2 + parts.before.seg + parts.up, i);
      hide Scan, SomePanic, InRange, SlotOf;
      if i !in p.pre && i !in p.post {
        assert parts.last == Handle(w, i, [], t2 + parts.before.seg + parts.up + parts.post.seg);
      }
    }
    LastPanics(w, i, t2 + parts.before.seg + parts.up + parts.post.seg);
    PanicInPart(parts);
  }

  lemma LastPanics(w: World, i: nat, t: seq<Event>)
    ensures SomePanic(Handle(w, i, [], t).seg)
  {
    assert Handle(w, i, [], t).seg == [Handled(i, Panicked)];
  }

  lemma HandlerMeets(rules: seq<Rule>, h: Handler, i: nat)
    requires HandlerFor(rules, h) && Usable(rules) && InUse(rules, i) && rules[i].cmds == []
    ensures Serves(rules, h) && NoCommandPanics(OnlyMatch(i)) && SomePanic(ServeWith(OnlyMatch(i), rules, h))
  {
    var p :| PlanFor(rules, p) && h ==
      if p.pre != [] || p.post != [] || p.dflt.None? then General(p)
      else if p.dflt.value < |rules| then Shortcut(rules[p.dflt.value], p.dflt.value) else JustUpstream;
    var w := OnlyMatch(i);
    if h.General? {
      hide Usable, PlanFor, InUse, Serve, Concat, SomePanic;
      GeneralMeets(rules, h.plan, i);
    } else {
      assert i in p.pre || i in p.post || p.dflt == Some(i);
      hide PlanFor, Usable;
      LastPanics(w, i, []);
      LastPanics(w, i, [Upstream]);
      PanicConcat([Upstream], Handle(w, i, [], [Upstream]).seg);
      PanicConcat(Handle(w, i, [], []).seg, []);
      PanicConcat(Handle(w, i, [], []).seg, [Upstream]);
      hide SomePanic, Handle;
    }
  }

  // Only rules in use are handled.
  lemma HandledInUse(w: World, rules: seq<Rule>, h: Handler, i: nat)
    requires HandlerFor(rules, h)
    ensures Serves(rules, h) && (WasHandled(ServeWith(w, rules, h), i) ==> InUse(rules, i))
  {
    if rules != [] {
      var p :| PlanFor(rules, p) && h ==
        if p.pre != [] || p.post != [] || p.dflt.None? then General(p)
        else if p.dflt.value < |rules| then Shortcut(rules[p.dflt.value], p.dflt.value) else JustUpstream;
      PlanFits(rules, p);
      InPlanInUse(rules, p);
      hide PlanFor, InUse, IsPost, WasHandled;
      if h.General? {
        PartsHold(w, rules, p);
        hide Serve, Concat, PartsAbout;
        if WasHandled(ServeWith(w, rules, h), i) {
          HandledInPlan(rules, p, Serve(w, rules, p), i);
        }
      } else {
        ShortHandled(w, rules, p.dflt.value, i);
        hide Handle;
      }
    }
  }

  lemma ShortHandled(w: World, rules: seq<Rule>, d: nat, i: nat)
    requires d < |rules| && Serves(rules, Shortcut(rules[d], d))
    ensures WasHandled(ServeWith(w, rules, Shortcut(rules[d], d)), i) ==> i == d
  {
    SegHandled(w, d, rules[d].cmds, [], i);
    SegHandled(w, d, rules[d].cmds, [Upstream], i);
    hide Handle, IsPost;
  }

  lemma SegHandled(w: World, d: nat, cmds: seq<Command>, t: seq<Event>, i: nat)
    ensures var seg := Handle(w, d, cmds, t).seg;
            forall r :: Handled(i, r) in seg ==> i == d
  {
    HandleFacts(w, d, cmds, t);
    hide *;
  }

  lemma InPlanInUse(rules: seq<Rule>, p: Plan)
    requires PlanFor(rules, p)
    ensures forall i :: i in p.pre || i in p.post || p.dflt == Some(i) ==> InUse(rules, i)
  {
    hide IsPost;
  }

  lemma HandledInPlan(rules: seq<Rule>, p: Plan, parts: Parts, i: nat)
    requires Fits(rules, p) && PartsAbout(rules, p, parts) && WasHandled(Concat(parts), i)
    ensures i in p.pre || i in p.post || p.dflt == Some(i)
  {
    hide SlotOf, InRuleOrder;
    var r :| Handled(i, r) in Concat(parts);
    var e := Handled(i, r);
    assert e in parts.first.seg || e in parts.pre.seg || e in parts.before.seg || e in parts.up || e in parts.post.seg || e in parts.last.seg;
  }

  // What can be told from the rules alone: in no world without panicking commands does the handler panic, exactly when every
  // rule in use has commands.
  lemma PanicFreeIff(rules: seq<Rule>, h: Handler)
    requires HandlerFor(rules, h) && Usable(rules)
    ensures Serves(rules, h)
    ensures (forall w :: NoCommandPanics(w) ==> !SomePanic(ServeWith(w, rules, h)))
            <==> forall i: nat :: InUse(rules, i) ==> rules[i].cmds != []
  {
    HandledInUse(OnlyMatch(0), rules, h, 0);
    hide HandlerFor, Usable, ServeWith, NoCommandPanics, SomePanic, InUse, WasHandled, Serves;
    forall i: nat | InUse(rules, i) && i < |rules| && rules[i].cmds == []
      ensures NoCommandPanics(OnlyMatch(i)) && SomePanic(ServeWith(OnlyMatch(i), rules, h))
    {
      HandlerMeets(rules, h, i);
    }
    forall w | NoCommandPanics(w) && SomePanic(ServeWith(w, rules, h))
      ensures exists i: nat :: InUse(rules, i) && i < |rules| && rules[i].cmds == []
    {
      PanicIff(w, rules, h);
      var i: nat :| i < |rules| && rules[i].cmds == [] && WasHandled(ServeWith(w, rules, h), i);
      HandledInUse(w, rules, h, i);
    }
    assert forall i: nat :: InUse(rules, i) ==> i < |rules| by { InUseBound(rules); }
  }

  lemma InUseBound(rules: seq<Rule>)
    ensures forall i: nat :: InUse(rules, i) ==> i < |rules|
  {
  }

  // An instance: one rule without commands that matches everything.
  lemma EmptyRuleInstance()
    ensures var rules := [Rule(false, false, [])];
            var w := World((i, t) => true, (i, k, t) => Done);
            var p := Plan([0], [], None);
            PlanFor(rules, p) && Fits(rules, p) && Concat(Serve(w, rules, p)) == [Checked(0, true), Handled(0, Panicked)]
  {
    var rules := [Rule(false, false, [])];
    var w := World((i, t) => true, (i, k, t) => Done);
    var p := Plan([0], [], None);
    assert [0][0] == 0;
    assert PlanFor(rules, p);
    assert Handle(w, 0, [], [Checked(0, true)]) == Step([Handled(0, Panicked)], Panicked);
    assert [] + [Checked(0, true)] == [Checked(0, true)];
    assert Scan(w, rules, true, [0], []).seg == [Checked(0, true)] + [Handled(0, Panicked)];
    assert Scan(w, rules, true, [0], []).aborted;
    hide Scan, Handle, PlanFor;
    var parts := Serve(w, rules, p);
    assert parts.first.seg == [] && parts.before.seg == [] && parts.up == [] && parts.post.seg == [] && parts.last.seg == [];
  }

  // ----- the handlers for default rules alone

  // What a client or an upstream can see.
  function Effects(t: seq<Event>): seq<Event> {
    if t == [] then [] else EffectOf(t[0]) + Effects(t[1..])
  }

  function EffectOf(e: Event): seq<Event> {
    if e.Ran? || e.Upstream? then [e] else []
  }

  lemma {:induction false} EffectsConcat(a: seq<Event>, b: seq<Event>)
    ensures Effects(a + b) == Effects(a) + Effects(b)
  {
    if a == [] {
      assert a + b == b;
    } else {
      assert (a + b)[1..] == a[1..] + b && (a + b)[0] == a[0];
      EffectsConcat(a[1..], b);
      hide EffectOf;
      Assoc(EffectOf(a[0]), Effects(a[1..]), Effects(b));
    }
  }

  lemma GeneralOfDefault(w: World, rules: seq<Rule>, d: nat)
    requires d < |rules|
    ensures var t := Concat(Serve(w, rules, Plan([], [], Some(d))));
            match SlotOf(rules, Some(d))
            case Last => t == [Upstream] + Handle(w, d, rules[d].cmds, [Upstream]).seg
            case Never => t == [Upstream]
            case _ =>
              var s := Handle(w, d, rules[d].cmds, []);
              t == s.seg + if s.result == Done then [Upstream] else []
  {
    hide Handle, SlotOf;
    var parts := Serve(w, rules, Plan([], [], Some(d)));
    assert parts.pre.seg == [] && parts.post.seg == [];
    match SlotOf(rules, Some(d))
    case Last =>
      assert parts.first.seg + parts.pre.seg + parts.before.seg + parts.up + parts.post.seg == [Upstream];
    case BeforeUpstream =>
      assert parts.first.seg + parts.pre.seg + parts.before.seg == parts.before.seg;
    case _ =>
  }

  // For a default rule alone the short form does the same as the general one, unless the rule both checks the response
  // and ends a longer sequence with a bypass: then the commands before the bypass are lost, for every request.
  lemma ShortcutIffGeneral(w: World, rules: seq<Rule>, d: nat)
    requires Usable(rules) && d < |rules|
    ensures Effects(ServeWith(w, rules, Shortcut(rules[d], d))) == Effects(Concat(Serve(w, rules, Plan([], [], Some(d)))))
            <==> !(rules[d].checksResponse && IsBypass(rules[d].cmds) && |rules[d].cmds| > 1)
  {
    GeneralOfDefault(w, rules, d);
    var cmds := rules[d].cmds;
    if IsBypass(cmds) {
      EndExcludesResponse(cmds);
      hide Serve, Concat;
      if IsPost(rules[d]) {
        BypassEffects(w, d, cmds);
        var h := Handle(w, d, cmds, [Upstream]).seg;
        EffectsConcat([Upstream], h);
        assert Effects([Upstream]) == [Upstream];
      }
    } else {
      hide Serve, Concat, Handle;
    }
  }

  // Running a sequence that ends in a bypass shows something exactly when there is a command before the bypass.
  lemma BypassEffects(w: World, d: nat, cmds: seq<Command>)
    requires IsBypass(cmds) && forall k :: 0 <= k < |cmds| - 1 ==> cmds[k].NonTerminating?
    ensures Effects(Handle(w, d, cmds, [Upstream]).seg) == [] <==> |cmds| == 1
  {
    var s := Run(w, d, cmds, 0, [Upstream]);
    EffectsConcat(s.seg, [Handled(d, s.result)]);
    assert Effects([Handled(d, s.result)]) == [];
    if |cmds| > 1 {
      assert s.seg[0] == Ran(d, 0);
    }
  }

  // An instance: of a default rule on a response check with a command and a bypass, the short form loses the command.
  lemma ShortcutInstance(w: World)
    ensures var rules := [Rule(true, true, [NonTerminating, Bypass])];
            && Effects(ServeWith(w, rules, Shortcut(rules[0], 0))) == [Upstream]
            && Effects(Concat(Serve(w, rules, Plan([], [], Some(0))))) == [Upstream, Ran(0, 0)]
  {
    var rules := [Rule(true, true, [NonTerminating, Bypass])];
    var cmds := rules[0].cmds;
    GeneralOfDefault(w, rules, 0);
    var s := Run(w, 0, cmds, 0, [Upstream]);
    assert s.seg == [Ran(0, 0)];
    hide Run, Serve, Concat;
    assert Effects([Upstream]) == [Upstream] && Effects([Ran(0, 0)]) == [Ran(0, 0)] && Effects([Handled(0, s.result)]) == [];
    EffectsConcat([Upstream], s.seg + [Handled(0, s.result)]);
    EffectsConcat(s.seg, [Handled(0, s.result)]);
  }

  // ----- any handler

  ghost predicate AtMostOneUpstream(t: seq<Event>) {
    forall a, b :: 0 <= a < b < |t| ==> !(t[a].Upstream? && t[b].Upstream?)
  }

  // Nothing of the phase before the response follows the upstream, and nothing of the phase after it precedes it.
  ghost predicate UpstreamBetween(rules: seq<Rule>, t: seq<Event>) {
    forall a, b :: 0 <= a < b < |t| ==>
      && (t[a].Upstream? && !t[b].Upstream? && t[b].rule < |rules| ==> IsPost(rules[t[b].rule]))
      && (t[b].Upstream? && !t[a].Upstream? && t[a].rule < |rules| ==> !IsPost(rules[t[a].rule]))
  }

  // For every rule list and every run of the handler built from it.
  lemma EveryHandler(w: World, rules: seq<Rule>, h: Handler)
    requires HandlerFor(rules, h)
    ensures Serves(rules, h)
    ensures var t := ServeWith(w, rules, h);
            && AtMostOneUpstream(t) && UpstreamBetween(rules, t)
            && (Upstream in t <==> !EarlyEnd(rules, t))
  {
    hide ServeWith, PlanFor, EarlyEnd, AtMostOneUpstream, UpstreamBetween, Shortcut;
    if rules == [] {
      ShortRuns(w, rules, h);
    } else {
      var p :| PlanFor(rules, p) && h ==
        if p.pre != [] || p.post != [] || p.dflt.None? then General(p)
        else if p.dflt.value < |rules| then Shortcut(rules[p.dflt.value], p.dflt.value) else JustUpstream;
      PlanFits(rules, p);
      if h.General? {
        GeneralRuns(w, rules, h.plan, p, h);
      } else {
        ShortcutPhase(rules, p);
        ShortRuns(w, rules, h);
      }
    }
  }

  lemma GeneralRuns(w: World, rules: seq<Rule>, q: Plan, p: Plan, h: Handler)
    requires h == General(q) && PlanFor(rules, p)
    requires h == if p.pre != [] || p.post != [] || p.dflt.None? then General(p)
                  else if p.dflt.value < |rules| then Shortcut(rules[p.dflt.value], p.dflt.value) else JustUpstream
    ensures Serves(rules, h)
    ensures var t := ServeWith(w, rules, h);
            && AtMostOneUpstream(t) && UpstreamBetween(rules, t)
            && (Upstream in t <==> !EarlyEnd(rules, t))
  {
    assert q == p;
    RunOrdered(w, rules, p);
    UpstreamIff(w, rules, p);
    hide Serve, Concat, PlanFor, EarlyEnd;
    RankedBetween(rules, p.dflt, Concat(Serve(w, rules, p)));
  }

  lemma RankedBetween(rules: seq<Rule>, dflt: Option<nat>, t: seq<Event>)
    requires (dflt.Some? ==> dflt.value < |rules|) && RankedIn(rules, dflt, t, 0, 2 * |rules| + 3)
    ensures UpstreamBetween(rules, t)
  {
    forall a, b | 0 <= a < b < |t|
      ensures t[a].Upstream? && !t[b].Upstream? && t[b].rule < |rules| ==> IsPost(rules[t[b].rule])
      ensures t[b].Upstream? && !t[a].Upstream? && t[a].rule < |rules| ==> !IsPost(rules[t[a].rule])
    {
      hide IsPost;
      assert Rank(rules, dflt, t[a]) <= Rank(rules, dflt, t[b]);
    }
  }

  // The shorter handlers name a rule of the right phase.
  ghost predicate RightPhase(rules: seq<Rule>, h: Handler) {
    match h
    case JustUpstream => true
    case UpstreamThenDefault(d) => d < |rules| && IsPost(rules[d])
    case DefaultThenUpstream(d) => d < |rules| && !IsPost(rules[d])
    case General(_) => false
  }

  lemma ShortcutPhase(rules: seq<Rule>, p: Plan)
    requires p.dflt.Some? && p.dflt.value < |rules|
    ensures RightPhase(rules, Shortcut(rules[p.dflt.value], p.dflt.value))
  {
  }

  lemma ShortRuns(w: World, rules: seq<Rule>, h: Handler)
    requires RightPhase(rules, h)
    ensures Serves(rules, h)
    ensures var t := ServeWith(w, rules, h);
            && AtMostOneUpstream(t) && UpstreamBetween(rules, t)
            && (Upstream in t <==> !EarlyEnd(rules, t))
  {
    hide Handle, IsPost, Faithful, InRuleOrder;
    match h
    case UpstreamThenDefault(d) =>
      HandleFacts(w, d, rules[d].cmds, [Upstream]);
    case DefaultThenUpstream(d) =>
      var s := Handle(w, d, rules[d].cmds, []);
      HandleFacts(w, d, rules[d].cmds, []);
      assert Handled(d, s.result) in ServeWith(w, rules, h);
      if s.result == Done {
        assert ServeWith(w, rules, h)[|s.seg|] == Upstream;
      }
    case _ =>
  }
}
