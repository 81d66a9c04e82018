/**
 The rule engine: rules before the response, the upstream, then rules that look at or act on the response.

 A run is the sequence of its events. Checks and handlers are arbitrary functions of what has happened.
 */
module RuleEngine {
  import opened Options
  import opened RuleCommands

  datatype Rule = Rule(isDefault: bool, checksResponse: bool, cmds: seq<Command>)

  predicate IsPost(r: Rule) {
    r.checksResponse || HasResponseHandler(r.cmds)
  }

  // Rules come from accepted command sequences, or have no commands.
  ghost predicate Usable(rules: seq<Rule>) {
    forall i :: 0 <= i < |rules| ==> Accepted(rules[i].cmds)
  }

  // ----- building

  datatype Plan = Plan(pre: seq<nat>, post: seq<nat>, dflt: Option<nat>)

  datatype Handler =
    | JustUpstream
    | UpstreamThenDefault(d: nat)
    | DefaultThenUpstream(d: nat)
    | General(plan: Plan)

  ghost predicate Increasing(s: seq<nat>) {
    forall a, b :: 0 <= a < b < |s| ==> s[a] < s[b]
  }

  ghost predicate InRange(s: seq<nat>, n: nat) {
    forall a :: 0 <= a < |s| ==> s[a] < n
  }

  // The numbers below n of the rules of one phase, in order.
  ghost predicate Lists(s: seq<nat>, rules: seq<Rule>, n: nat, post: bool)
    requires n <= |rules|
  {
    && Increasing(s)
    && (forall a :: 0 <= a < |s| ==> s[a] < n && !rules[s[a]].isDefault && IsPost(rules[s[a]]) == post)
    && (forall i: nat :: 0 <= i < n && !rules[i].isDefault && IsPost(rules[i]) == post ==> i in s)
  }

  // The last default rule below n, if there is one.
  ghost predicate LastDefault(d: Option<nat>, rules: seq<Rule>, n: nat)
    requires n <= |rules|
  {
    match d
    case None => forall i :: 0 <= i < n ==> !rules[i].isDefault
    case Some(k) => k < n && rules[k].isDefault && forall i :: k < i < n ==> !rules[i].isDefault
  }

  ghost predicate PlanFor(rules: seq<Rule>, p: Plan) {
    && Lists(p.pre, rules, |rules|, false)
    && Lists(p.post, rules, |rules|, true)
    && LastDefault(p.dflt, rules, |rules|)
  }

  // The handlers for lists without a rule, or with default rules only, are shorter.
  ghost predicate HandlerFor(rules: seq<Rule>, h: Handler) {
    if rules == [] then h == JustUpstream
    else
      exists p :: PlanFor(rules, p) && h ==
        if p.pre != [] || p.post != [] || p.dflt.None? then General(p)
        else if p.dflt.value < |rules| then Shortcut(rules[p.dflt.value], p.dflt.value) else JustUpstream
  }

  function Shortcut(r: Rule, d: nat): Handler {
    if IsBypass(r.cmds) then JustUpstream
    else if IsPost(r) then UpstreamThenDefault(d)
    else DefaultThenUpstream(d)
  }

  lemma ListsGrows(s: seq<nat>, rules: seq<Rule>, n: nat, post: bool)
    requires n < |rules| && Lists(s, rules, n, post)
    ensures Lists(if !rules[n].isDefault && IsPost(rules[n]) == post then s + [n] else s, rules, n + 1, post)
  {
    hide IsPost;
    var s' := if !rules[n].isDefault && IsPost(rules[n]) == post then s + [n] else s;
    forall i: nat | 0 <= i < n + 1 && !rules[i].isDefault && IsPost(rules[i]) == post ensures i in s' {
      if i == n {
        assert s'[|s|] == n;
      }
    }
  }

  method BuildHandler(rules: seq<Rule>) returns (h: Handler)
    ensures HandlerFor(rules, h)
  {
    if rules == [] {
      return JustUpstream;
    }
    var dflt: Option<nat> := None;
    var nonDefault: seq<nat> := [];
    for i := 0 to |rules|
      invariant LastDefault(dflt, rules, i) && Increasing(nonDefault)
      invariant forall a :: 0 <= a < |nonDefault| ==> nonDefault[a] < i && !rules[nonDefault[a]].isDefault
      invariant forall k: nat :: 0 <= k < i && !rules[k].isDefault ==> k in nonDefault
    {
      if rules[i].isDefault {
        dflt := Some(i);
      } else {
        assert (nonDefault + [i])[|nonDefault|] == i;
        nonDefault := nonDefault + [i];
      }
    }
    if nonDefault == [] {
      ghost var p := Plan([], [], dflt);
      assert rules[0].isDefault;
      assert PlanFor(rules, p);
      h := if IsBypass(rules[dflt.value].cmds) then JustUpstream
           else if IsPost(rules[dflt.value]) then UpstreamThenDefault(dflt.value)
           else DefaultThenUpstream(dflt.value);
      return;
    }
    var pre, post := Partition(rules, nonDefault);
    ghost var p := Plan(pre, post, dflt);
    assert nonDefault[0] in pre || nonDefault[0] in post;
    assert PlanFor(rules, p);
    h := General(Plan(pre, post, dflt));
  }

  ghost predicate NonDefault(rules: seq<Rule>, s: seq<nat>) {
    && Increasing(s)
    && (forall a :: 0 <= a < |s| ==> s[a] < |rules| && !rules[s[a]].isDefault)
    && (forall i: nat :: i < |rules| && !rules[i].isDefault ==> i in s)
  }

  // The rules below n are in their lists, which is up to the k-th that is not default.
  ghost predicate Parted(rules: seq<Rule>, nonDefault: seq<nat>, k: nat, n: nat, pre: seq<nat>, post: seq<nat>) {
    && n <= |rules| && Cuts(nonDefault, k, n)
    && Lists(pre, rules, n, false) && Lists(post, rules, n, true)
  }

  // The first k numbers are those below n.
  ghost predicate Cuts(s: seq<nat>, k: nat, n: nat) {
    && k <= |s|
    && (forall a :: 0 <= a < k ==> s[a] < n)
    && (forall a :: k <= a < |s| ==> n <= s[a])
  }

  lemma CutsMore(s: seq<nat>, k: nat, n: nat)
    requires Increasing(s) && Cuts(s, k, n) && k < |s|
    ensures Cuts(s, k, s[k]) && Cuts(s, k + 1, s[k] + 1)
  {
  }

  // Default rules add nothing.
  lemma SkipDefaults(rules: seq<Rule>, nonDefault: seq<nat>, k: nat, n: nat, m: nat, pre: seq<nat>, post: seq<nat>)
    requires NonDefault(rules, nonDefault) && Parted(rules, nonDefault, k, n, pre, post)
    requires n <= m <= |rules| && Cuts(nonDefault, k, m)
    ensures Parted(rules, nonDefault, k, m, pre, post)
  {
    forall i: nat | n <= i < m ensures rules[i].isDefault {
      assert i !in nonDefault;
    }
    hide NonDefault, Cuts, Increasing;
    ListsSkip(pre, rules, n, m, false);
    ListsSkip(post, rules, n, m, true);
  }

  lemma ListsSkip(s: seq<nat>, rules: seq<Rule>, n: nat, m: nat, post: bool)
    requires n <= m <= |rules| && Lists(s, rules, n, post) && forall i :: n <= i < m ==> rules[i].isDefault
    ensures Lists(s, rules, m, post)
  {
    hide IsPost, Increasing;
  }

  lemma PartedStarts(rules: seq<Rule>, nonDefault: seq<nat>)
    ensures Parted(rules, nonDefault, 0, 0, [], [])
  {
    hide IsPost;
  }

  lemma NonDefaultAt(rules: seq<Rule>, nonDefault: seq<nat>, k: nat)
    requires NonDefault(rules, nonDefault) && k < |nonDefault|
    ensures Increasing(nonDefault) && nonDefault[k] < |rules| && !rules[nonDefault[k]].isDefault
  {
  }

  lemma PartedStep(rules: seq<Rule>, nonDefault: seq<nat>, k: nat, n: nat, pre: seq<nat>, post: seq<nat>)
    requires NonDefault(rules, nonDefault) && Parted(rules, nonDefault, k, n, pre, post) && k < |nonDefault|
    ensures var i := nonDefault[k];
            && i < |rules|
            && Parted(rules, nonDefault, k + 1, i + 1, if IsPost(rules[i]) then pre else pre + [i], if IsPost(rules[i]) then post + [i] else post)
  {
    hide IsPost, Lists, NonDefault, Increasing, Cuts;
    var i := nonDefault[k];
    NonDefaultAt(rules, nonDefault, k);
    CutsMore(nonDefault, k, n);
    CutBound(nonDefault, k, n);
    SkipDefaults(rules, nonDefault, k, n, i, pre, post);
    ListsGrows(pre, rules, i, false);
    ListsGrows(post, rules, i, true);
  }

  lemma CutBound(s: seq<nat>, k: nat, n: nat)
    requires Cuts(s, k, n) && k < |s|
    ensures n <= s[k]
  {
  }

  // The rules that are not default, by phase.
  method Partition(rules: seq<Rule>, nonDefault: seq<nat>) returns (pre: seq<nat>, post: seq<nat>)
    requires NonDefault(rules, nonDefault)
    ensures Lists(pre, rules, |rules|, false) && Lists(post, rules, |rules|, true)
  {
    hide *;
    pre, post := [], [];
    var k := 0;
    ghost var n := 0;
    PartedStarts(rules, nonDefault);
    while k < |nonDefault|
      invariant k <= |nonDefault| && Parted(rules, nonDefault, k, n, pre, post)
    {
      hide *;
      PartedStep(rules, nonDefault, k, n, pre, post);
      var i := nonDefault[k];
      if IsPost(rules[i]) {
        post := post + [i];
      } else {
        pre := pre + [i];
      }
      n, k := i + 1, k + 1;
    }
    PartedEnds(rules, nonDefault, n, pre, post);
  }

  lemma PartedEnds(rules: seq<Rule>, nonDefault: seq<nat>, n: nat, pre: seq<nat>, post: seq<nat>)
    requires NonDefault(rules, nonDefault) && Parted(rules, nonDefault, |nonDefault|, n, pre, post)
    ensures Lists(pre, rules, |rules|, false) && Lists(post, rules, |rules|, true)
  {
    assert Cuts(nonDefault, |nonDefault|, |rules|);
    hide IsPost, Lists, NonDefault, Cuts;
    SkipDefaults(rules, nonDefault, |nonDefault|, n, |rules|, pre, post);
  }

  // ----- one request

  datatype ScanStep = ScanStep(seg: seq<Event>, proceed: bool, matched: bool, aborted: bool)

  // The rules of one phase in order, until one does not end in order. Before the response a matching bypass also
  // ends the scan, without running; there it does not keep the request from proceeding.
  function Scan(w: World, rules: seq<Rule>, early: bool, s: seq<nat>, t: seq<Event>): ScanStep
    requires InRange(s, |rules|)
  {
    if s == [] then ScanStep([], true, false, false)
    else
      var i := s[0];
      var c := [Checked(i, w.check(i, t))];
      if !w.check(i, t) then
        var rest := Scan(w, rules, early, s[1..], t + c);
        ScanStep(c + rest.seg, rest.proceed, rest.matched, rest.aborted)
      else if early && IsBypass(rules[i].cmds) then ScanStep(c, true, true, false)
      else
        var h := Handle(w, i, rules[i].cmds, t + c);
        if h.result != Done then ScanStep(c + h.seg, false, true, h.result == Panicked)
        else
          var rest := Scan(w, rules, early, s[1..], t + (c + h.seg));
          ScanStep(c + h.seg + rest.seg, rest.proceed, true, rest.aborted)
  }

  // The rules a plan names exist.
  ghost predicate Fits(rules: seq<Rule>, p: Plan) {
    && InRange(p.pre, |rules|)
    && InRange(p.post, |rules|)
    && (p.dflt.Some? ==> p.dflt.value < |rules|)
  }

  // When the default rule runs, if at all.
  datatype Slot = Never | First | BeforeUpstream | Last

  function SlotOf(rules: seq<Rule>, dflt: Option<nat>): Slot
    requires dflt.Some? ==> dflt.value < |rules|
  {
    if dflt.None? then Never
    else if IsPost(rules[dflt.value]) then Last
    else if IsTerminating(rules[dflt.value].cmds) then BeforeUpstream
    else if IsBypass(rules[dflt.value].cmds) then Never
    else First
  }

  function DefaultStep(w: World, rules: seq<Rule>, dflt: Option<nat>, now: bool, t: seq<Event>): Step
    requires dflt.Some? ==> dflt.value < |rules|
  {
    if now && dflt.Some? then Handle(w, dflt.value, rules[dflt.value].cmds, t) else Step([], Done)
  }

  // The four parts of a run: what precedes the upstream, and what follows it.
  datatype Parts = Parts(first: Step, pre: ScanStep, before: Step, up: seq<Event>, post: ScanStep, last: Step)

  function Concat(p: Parts): seq<Event> {
    p.first.seg + p.pre.seg + p.before.seg + p.up + p.post.seg + p.last.seg
  }

  function Serve(w: World, rules: seq<Rule>, p: Plan): Parts
    requires Fits(rules, p)
  {
    var slot := SlotOf(rules, p.dflt);
    var first := DefaultStep(w, rules, p.dflt, slot == First, []);
    var t1 := first.seg;
    var pre := if first.result == Done then Scan(w, rules, true, p.pre, t1) else ScanStep([], false, false, first.result == Panicked);
    var t2 := t1 + pre.seg;
    var before := DefaultStep(w, rules, p.dflt, slot == BeforeUpstream && pre.proceed && !pre.matched, t2);
    var t3 := t2 + before.seg;
    var up := if pre.proceed && before.result == Done then [Upstream] else [];
    var t4 := t3 + up;
    var post := if before.result == Failed || before.result == Panicked || pre.aborted then ScanStep([], false, false, false) else Scan(w, rules, false, p.post, t4);
    var last := DefaultStep(w, rules, p.dflt, slot == Last && post.proceed, t4 + post.seg);
    Parts(first, pre, before, up, post, last)
  }

  // The rules of the phase before the response.
  method ServePre(w: World, rules: seq<Rule>, pre: seq<nat>, t: seq<Event>)
    returns (trace: seq<Event>, proceed: bool, matched: bool, panicked: bool)
    requires InRange(pre, |rules|)
    ensures var s := Scan(w, rules, true, pre, t); trace == t + s.seg && proceed == s.proceed && matched == s.matched && panicked == s.aborted
  {
    trace, proceed, matched, panicked := t, true, false, false;
    var k := 0;
    ghost var whole := Scan(w, rules, true, pre, t);
    while k < |pre|
      invariant k <= |pre| && proceed && !panicked
      invariant var rest := Scan(w, rules, true, pre[k..], trace);
                t + whole.seg == trace + rest.seg && whole.proceed == rest.proceed && whole.matched == (matched || rest.matched)
                && whole.aborted == rest.aborted
    {
      hide Handle, Run, IsBypass;
      var i := pre[k];
      var m := w.check(i, trace);
      assert pre[k..][1..] == pre[k + 1..];
      ghost var before := trace;
      trace := trace + [Checked(i, m)];
      if m {
        matched := true;
        if IsBypass(rules[i].cmds) {
          return;
        }
        var result;
        ghost var h := Handle(w, i, rules[i].cmds, trace);
        trace, result := RunCommands(w, i, rules[i].cmds, trace);
        Assoc(before, [Checked(i, m)], h.seg);
        if result != Done {
          proceed, panicked := false, result == Panicked;
          return;
        }
        Assoc(before, [Checked(i, m)] + h.seg, Scan(w, rules, true, pre[k + 1..], trace).seg);
      } else {
        Assoc(before, [Checked(i, m)], Scan(w, rules, true, pre[k + 1..], trace).seg);
      }
      k := k + 1;
    }
  }

  // The rules of the phase after it.
  method ServePost(w: World, rules: seq<Rule>, post: seq<nat>, t: seq<Event>) returns (trace: seq<Event>, finished: bool)
    requires InRange(post, |rules|)
    ensures var s := Scan(w, rules, false, post, t); trace == t + s.seg && finished == s.proceed
  {
    trace, finished := t, true;
    var k := 0;
    ghost var whole := Scan(w, rules, false, post, t);
    while k < |post|
      invariant k <= |post| && finished
      invariant var rest := Scan(w, rules, false, post[k..], trace);
                t + whole.seg == trace + rest.seg && whole.proceed == rest.proceed
    {
      hide Handle, Run;
      var i := post[k];
      var m := w.check(i, trace);
      assert post[k..][1..] == post[k + 1..];
      ghost var before := trace;
      trace := trace + [Checked(i, m)];
      if m {
        var result;
        ghost var h := Handle(w, i, rules[i].cmds, trace);
        trace, result := RunCommands(w, i, rules[i].cmds, trace);
        Assoc(before, [Checked(i, m)], h.seg);
        if result != Done {
          finished := false;
          return;
        }
        Assoc(before, [Checked(i, m)] + h.seg, Scan(w, rules, false, post[k + 1..], trace).seg);
      } else {
        Assoc(before, [Checked(i, m)], Scan(w, rules, false, post[k + 1..], trace).seg);
      }
      k := k + 1;
    }
  }

  method ServeGeneral(w: World, rules: seq<Rule>, p: Plan) returns (trace: seq<Event>)
    requires Fits(rules, p)
    ensures trace == Concat(Serve(w, rules, p))
  {
    hide Handle, Run, IsPost;
    trace := [];
    ghost var parts := Serve(w, rules, p);
    var shouldCallUpstream, preMatched, result := true, false, Done;
    var hasDefault := p.dflt.Some?;
    var d := if hasDefault then p.dflt.value else 0;
    var isDefaultPost := hasDefault && IsPost(rules[d]);
    var defaultTerminates := hasDefault && IsTerminating(rules[d].cmds);
    if hasDefault && !isDefaultPost && !defaultTerminates {
      if !IsBypass(rules[d].cmds) {
        trace, result := RunCommands(w, d, rules[d].cmds, trace);
        if result == Panicked {
          NothingElse(parts);
          return;
        }
        if result != Done {
          shouldCallUpstream := false;
        }
      }
    }
    assert trace == parts.first.seg && shouldCallUpstream == (parts.first.result == Done);
    if shouldCallUpstream {
      var panicked;
      trace, shouldCallUpstream, preMatched, panicked := ServePre(w, rules, p.pre, trace);
      if panicked {
        ScanAborted(w, rules, true, p.pre, parts.first.seg);
        NothingElse(parts);
        return;
      }
    }
    assert trace == parts.first.seg + parts.pre.seg && shouldCallUpstream == parts.pre.proceed && preMatched == parts.pre.matched;
    if hasDefault && !isDefaultPost && defaultTerminates && shouldCallUpstream && !preMatched {
      if !IsBypass(rules[d].cmds) {
        trace, result := RunCommands(w, d, rules[d].cmds, trace);
        if result == Failed || result == Panicked {
          NothingElse(parts);
          return;
        }
        if result != Done {
          shouldCallUpstream := false;
        }
      }
    }
    if shouldCallUpstream {
      trace := trace + [Upstream];
    }
    assert trace == parts.first.seg + parts.pre.seg + parts.before.seg + parts.up;
    if p.post == [] && !isDefaultPost {
      assert parts.post.seg == [];
      assert parts.last.seg == [];
      return;
    }
    var finished;
    trace, finished := ServePost(w, rules, p.post, trace);
    if !finished {
      return;
    }
    if isDefaultPost {
      trace, result := RunCommands(w, d, rules[d].cmds, trace);
    }
  }

  lemma NothingElse(p: Parts)
    requires p.up == [] && p.post.seg == [] && p.last.seg == []
    ensures Concat(p) == p.first.seg + p.pre.seg + p.before.seg
    ensures p.before.seg == [] ==> Concat(p) == p.first.seg + p.pre.seg
    ensures p.before.seg == [] && p.pre.seg == [] ==> Concat(p) == p.first.seg
  {
  }

  // A panic ends a scan.
  lemma {:induction false} ScanAborted(w: World, rules: seq<Rule>, early: bool, s: seq<nat>, t: seq<Event>)
    requires InRange(s, |rules|)
    ensures Scan(w, rules, early, s, t).aborted ==> !Scan(w, rules, early, s, t).proceed
  {
    if s != [] {
      hide Handle, IsBypass;
      var c := [Checked(s[0], w.check(s[0], t))];
      ScanAborted(w, rules, early, s[1..], t + c);
      ScanAborted(w, rules, early, s[1..], t + (c + Handle(w, s[0], rules[s[0]].cmds, t + c).seg));
    }
  }

  // The events of a run of any handler.
  function ServeWith(w: World, rules: seq<Rule>, h: Handler): seq<Event>
    requires Serves(rules, h)
  {
    match h
    case JustUpstream => [Upstream]
    case UpstreamThenDefault(d) => [Upstream] + Handle(w, d, rules[d].cmds, [Upstream]).seg
    case DefaultThenUpstream(d) =>
      var s := Handle(w, d, rules[d].cmds, []);
      s.seg + if s.result == Done then [Upstream] else []
    case General(p) => Concat(Serve(w, rules, p))
  }

  // The rules the handler names exist.
  ghost predicate Serves(rules: seq<Rule>, h: Handler) {
    match h
    case JustUpstream => true
    case UpstreamThenDefault(d) => d < |rules|
    case DefaultThenUpstream(d) => d < |rules|
    case General(p) => Fits(rules, p)
  }

  // One request through the handler that was built.
  method ServeRequest(w: World, rules: seq<Rule>, h: Handler) returns (trace: seq<Event>)
    requires Serves(rules, h)
    ensures trace == ServeWith(w, rules, h)
  {
    var result;
    match h
    case JustUpstream =>
      trace := [Upstream];
    case UpstreamThenDefault(d) =>
      trace, result := RunCommands(w, d, rules[d].cmds, [Upstream]);
    case DefaultThenUpstream(d) =>
      trace, result := RunCommands(w, d, rules[d].cmds, []);
      if result == Done {
        trace := trace + [Upstream];
      }
    case General(p) =>
      trace := ServeGeneral(w, rules, p);
  }
}
