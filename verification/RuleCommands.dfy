/**
 The commands of a rule: which sequences are accepted, and what running one does.
 */
module RuleCommands {
  datatype Command = NonTerminating | Terminating | OnResponse | Bypass

  // How a handler ends: in order, by ending the request, with a failure, or in a panic.
  datatype Outcome = Done | Terminated | Failed | Panicked

  datatype Event =
    | Checked(rule: nat, matched: bool)
    | Ran(rule: nat, cmd: nat)
    | Handled(rule: nat, result: Outcome)
    | Upstream

  // What checks and handlers answer, which may depend on everything that has happened.
  datatype World = World(check: (nat, seq<Event>) -> bool, outcome: (nat, nat, seq<Event>) -> Outcome)

  // ----- accepted sequences

  // Exclusive end of the commands that run before the response.
  ghost predicate EndsAt(cmds: seq<Command>, n: nat) {
    && n <= |cmds|
    && (forall k :: 0 <= k < n ==> !cmds[k].OnResponse?)
    && (forall k :: n <= k < |cmds| ==> cmds[k].OnResponse?)
  }

  // Non-terminating commands, then at most one terminating or bypass command, then response handlers.
  ghost predicate Accepted(cmds: seq<Command>) {
    exists n: nat :: EndsAt(cmds, n) && forall k :: 0 <= k < n - 1 ==> cmds[k].NonTerminating?
  }

  // The last command before the response handlers is found by one scan; a second one checks what precedes it.
  method BuildCmd(executors: seq<Command>) returns (ok: bool)
    ensures ok <==> Accepted(executors)
  {
    var lastNonResp: int := -1;
    var seenResp := false;
    for i := 0 to |executors|
      invariant -1 <= lastNonResp < i && (!seenResp <==> lastNonResp == i - 1)
      invariant forall k :: 0 <= k <= lastNonResp ==> !executors[k].OnResponse?
      invariant forall k :: lastNonResp < k < i ==> executors[k].OnResponse?
    {
      if executors[i].OnResponse? {
        seenResp := true;
        continue;
      }
      if seenResp {
        assert executors[i - 1].OnResponse? && !executors[i].OnResponse?;
        return false;
      }
      lastNonResp := i;
    }
    assert EndsAt(executors, lastNonResp + 1);
    for i := 0 to |executors|
      invariant forall k :: 0 <= k < i && k < lastNonResp ==> executors[k].NonTerminating?
    {
      if i > lastNonResp {
        break;
      }
      if (executors[i].Terminating? || executors[i].Bypass?) && i != lastNonResp {
        forall n: nat | EndsAt(executors, n) ensures n == lastNonResp + 1 {
          OneEnd(executors, n, lastNonResp + 1);
        }
        assert !executors[i].NonTerminating?;
        return false;
      }
    }
    ok := true;
  }

  lemma OneEnd(cmds: seq<Command>, m: nat, n: nat)
    requires EndsAt(cmds, m) && EndsAt(cmds, n)
    ensures m == n
  {
    assert n < |cmds| ==> cmds[n].OnResponse?;
    assert m < |cmds| ==> cmds[m].OnResponse?;
  }

  predicate IsBypass(cmds: seq<Command>) {
    cmds != [] && cmds[|cmds| - 1].Bypass?
  }

  predicate IsTerminating(cmds: seq<Command>) {
    cmds != [] && cmds[|cmds| - 1].Terminating?
  }

  predicate HasResponseHandler(cmds: seq<Command>) {
    OnResponse in cmds
  }

  // A bypass or terminating command at the end leaves no room for a response handler.
  lemma EndExcludesResponse(cmds: seq<Command>)
    requires Accepted(cmds) && (IsBypass(cmds) || IsTerminating(cmds))
    ensures !HasResponseHandler(cmds)
    ensures forall k :: 0 <= k < |cmds| - 1 ==> cmds[k].NonTerminating?
  {
    var n: nat :| EndsAt(cmds, n) && forall k :: 0 <= k < n - 1 ==> cmds[k].NonTerminating?;
    assert n == |cmds|;
  }

  // ----- running

  datatype Step = Step(seg: seq<Event>, result: Outcome)

  // The events that running the commands from k on adds after t, up to the first that does not end in order.
  function Run(w: World, i: nat, cmds: seq<Command>, k: nat, t: seq<Event>): Step
    requires k <= |cmds|
    decreases |cmds| - k
  {
    if k == |cmds| then Step([], Done)
    else if cmds[k].Bypass? then Step([], Terminated)
    else
      var r := w.outcome(i, k, t);
      if r != Done then Step([Ran(i, k)], r)
      else if cmds[k].Terminating? then Step([Ran(i, k)], Terminated)
      else
        var rest := Run(w, i, cmds, k + 1, t + [Ran(i, k)]);
        Step([Ran(i, k)] + rest.seg, rest.result)
  }

  // A rule without commands has no handler, and calling it panics.
  function Handle(w: World, i: nat, cmds: seq<Command>, t: seq<Event>): Step {
    var s := if cmds == [] then Step([], Panicked) else Run(w, i, cmds, 0, t);
    Step(s.seg + [Handled(i, s.result)], s.result)
  }

  // Commands run in order from the first, without gap, and only the last to run may end the request.
  lemma {:induction false} RunInOrder(w: World, i: nat, cmds: seq<Command>, k: nat, t: seq<Event>)
    requires k <= |cmds|
    ensures var s := Run(w, i, cmds, k, t);
            && k + |s.seg| <= |cmds|
            && (forall j :: 0 <= j < |s.seg| ==> s.seg[j] == Ran(i, k + j))
            && (forall j :: k <= j < k + |s.seg| - 1 ==> cmds[j].NonTerminating? || cmds[j].OnResponse?)
            && (s.result == Done ==> k + |s.seg| == |cmds|)
    decreases |cmds| - k
  {
    if k < |cmds| && !cmds[k].Bypass? && w.outcome(i, k, t) == Done && !cmds[k].Terminating? {
      RunInOrder(w, i, cmds, k + 1, t + [Ran(i, k)]);
    }
  }

  // The first n commands of rule i, as they ran.
  function Rans(i: nat, n: nat): (r: seq<Event>)
    ensures |r| == n && forall k :: 0 <= k < n ==> r[k] == Ran(i, k)
  {
    if n == 0 then [] else Rans(i, n - 1) + [Ran(i, n - 1)]
  }

  // What the k-th command answered, when they began to run after t.
  function Answer(w: World, i: nat, t: seq<Event>, k: nat): Outcome {
    w.outcome(i, k, t + Rans(i, k))
  }

  // It answered in order and does not end the request.
  predicate InOrder(w: World, i: nat, cmds: seq<Command>, t: seq<Event>, k: nat)
    requires k < |cmds|
  {
    Answer(w, i, t, k) == Done && !cmds[k].Terminating?
  }

  // After t the first n commands ran, none of them a bypass and all but the last in order. They end with r: with the answer
  // of the last one if that is not in order, by that being terminating, or by the next one being a bypass; and in order
  // when all have run and answered so. Without a command there is a panic.
  ghost predicate EndsWith(w: World, i: nat, cmds: seq<Command>, t: seq<Event>, n: nat, r: Outcome) {
    && n <= |cmds|
    && (forall k :: 0 <= k < n ==> !cmds[k].Bypass?)
    && (forall k :: 0 <= k < n - 1 ==> InOrder(w, i, cmds, t, k))
    && (if cmds == [] then r == Panicked
        else if n > 0 && Answer(w, i, t, n - 1) != Done then r == Answer(w, i, t, n - 1)
        else if n > 0 && cmds[n - 1].Terminating? then r == Terminated
        else if n < |cmds| then cmds[n].Bypass? && r == Terminated
        else r == Done)
  }

  // The first k commands ran in order.
  ghost predicate RanInOrder(w: World, i: nat, cmds: seq<Command>, t: seq<Event>, k: nat) {
    k <= |cmds| && forall j :: 0 <= j < k ==> !cmds[j].Bypass? && InOrder(w, i, cmds, t, j)
  }

  lemma RunEndsBefore(w: World, i: nat, cmds: seq<Command>, k: nat, t: seq<Event>)
    requires RanInOrder(w, i, cmds, t, k) && cmds != [] && (k < |cmds| ==> cmds[k].Bypass?)
    ensures var s := Run(w, i, cmds, k, t + Rans(i, k)); s.seg == [] && EndsWith(w, i, cmds, t, k, s.result)
  {
    assert k > 0 ==> InOrder(w, i, cmds, t, k - 1);
    hide Rans;
  }

  lemma RunEndsAt(w: World, i: nat, cmds: seq<Command>, k: nat, t: seq<Event>)
    requires RanInOrder(w, i, cmds, t, k) && k < |cmds| && !cmds[k].Bypass? && !InOrder(w, i, cmds, t, k)
    ensures var s := Run(w, i, cmds, k, t + Rans(i, k)); s.seg == [Ran(i, k)] && EndsWith(w, i, cmds, t, k + 1, s.result)
  {
    hide Rans;
  }

  lemma RunGoesOn(w: World, i: nat, cmds: seq<Command>, k: nat, t: seq<Event>)
    requires k < |cmds| && !cmds[k].Bypass? && InOrder(w, i, cmds, t, k)
    ensures var rest := Run(w, i, cmds, k + 1, t + Rans(i, k + 1));
            Run(w, i, cmds, k, t + Rans(i, k)) == Step([Ran(i, k)] + rest.seg, rest.result)
  {
    assert t + Rans(i, k) + [Ran(i, k)] == t + Rans(i, k + 1);
    hide Rans;
  }

  lemma {:induction false} RunEnds(w: World, i: nat, cmds: seq<Command>, k: nat, t: seq<Event>) returns (n: nat)
    requires RanInOrder(w, i, cmds, t, k) && cmds != []
    ensures k <= n && Rans(i, k) + Run(w, i, cmds, k, t + Rans(i, k)).seg == Rans(i, n)
    ensures EndsWith(w, i, cmds, t, n, Run(w, i, cmds, k, t + Rans(i, k)).result)
    decreases |cmds| - k
  {
    hide Run, EndsWith;
    if k == |cmds| || cmds[k].Bypass? {
      n := k;
      RunEndsBefore(w, i, cmds, k, t);
      assert Rans(i, k) + [] == Rans(i, k);
    } else if InOrder(w, i, cmds, t, k) {
      RunGoesOn(w, i, cmds, k, t);
      hide InOrder;
      n := RunEnds(w, i, cmds, k + 1, t);
      var rest := Run(w, i, cmds, k + 1, t + Rans(i, k + 1));
      assert Rans(i, k) + ([Ran(i, k)] + rest.seg) == Rans(i, k + 1) + rest.seg;
    } else {
      n := k + 1;
      RunEndsAt(w, i, cmds, k, t);
    }
  }

  // What handling a rule adds to the trace, from the answers of its commands alone.
  lemma HandleEnds(w: World, i: nat, cmds: seq<Command>, t: seq<Event>) returns (n: nat)
    ensures var h := Handle(w, i, cmds, t);
            h.seg == Rans(i, n) + [Handled(i, h.result)] && EndsWith(w, i, cmds, t, n, h.result)
  {
    n := 0;
    if cmds != [] {
      n := RunEnds(w, i, cmds, 0, t);
      assert t + Rans(i, 0) == t;
    }
  }

  // Commands that end in a bypass or terminating command never end in order.
  lemma {:induction false} EndedNotDone(w: World, i: nat, cmds: seq<Command>, k: nat, t: seq<Event>)
    requires k < |cmds| && (IsBypass(cmds) || IsTerminating(cmds))
    ensures Run(w, i, cmds, k, t).result != Done
    decreases |cmds| - k
  {
    if k + 1 < |cmds| {
      EndedNotDone(w, i, cmds, k + 1, t + [Ran(i, k)]);
    }
  }

  lemma Assoc(a: seq<Event>, b: seq<Event>, c: seq<Event>)
    ensures a + (b + c) == a + b + c
  {
  }

  method RunCommands(w: World, i: nat, cmds: seq<Command>, t: seq<Event>) returns (trace: seq<Event>, result: Outcome)
    ensures trace == t + Handle(w, i, cmds, t).seg && result == Handle(w, i, cmds, t).result
  {
    trace := t;
    if cmds == [] {
      result := Panicked;
      trace := trace + [Handled(i, result)];
      return;
    }
    ghost var whole := Run(w, i, cmds, 0, t);
    result := Done;
    var k := 0;
    while k < |cmds| && result == Done
      invariant k <= |cmds|
      invariant result == Done ==> t + whole.seg == trace + Run(w, i, cmds, k, trace).seg && whole.result == Run(w, i, cmds, k, trace).result
      invariant result != Done ==> t + whole.seg == trace && whole.result == result
      decreases |cmds| - k, result == Done
    {
      if cmds[k].Bypass? {
        result := Terminated;
        break;
      }
      var before := trace;
      result := w.outcome(i, k, before);
      trace := before + [Ran(i, k)];
      if result == Done {
        if cmds[k].Terminating? {
          result := Terminated;
        } else {
          Assoc(before, [Ran(i, k)], Run(w, i, cmds, k + 1, trace).seg);
        }
      }
      k := k + 1;
    }
    Assoc(t, whole.seg, [Handled(i, result)]);
    trace := trace + [Handled(i, result)];
  }
}
