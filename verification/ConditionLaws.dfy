/** Which conditions are accepted, and which wait for the response. */
module ConditionLaws {
  import opened Conditions
  import opened Options
  import RuleParser

  // The target of a subject: what is behind an exclamation mark, or all of it.
  predicate TargetIs(subject: string, target: string) {
    (subject == "!" + target) || (subject == target && (target == "" || target[0] != '!'))
  }

  // The text is a target that is known, with arguments that suit it, and all variables in it are set.
  ghost predicate Accepts(one: string, t: Table) {
    exists subject, args, target ::
      && RuleParser.ParseText(one, t.env) == RuleParser.Parsed(subject, args, None, [])
      && TargetIs(subject, target) && t.known(target) && t.valid(target, args)
  }

  // Of a target that is read.
  ghost predicate WaitsForResponse(one: string, t: Table) {
    exists subject, args, target ::
      && RuleParser.ParseText(one, t.env) == RuleParser.Parsed(subject, args, None, [])
      && TargetIs(subject, target) && t.onResponse(target)
  }

  lemma OneTarget(subject: string) returns (target: string)
    ensures forall other :: TargetIs(subject, other) <==> other == target
    ensures target == if subject != "" && subject[0] == '!' then subject[1..] else subject
  {
    target := if subject != "" && subject[0] == '!' then subject[1..] else subject;
    forall other ensures TargetIs(subject, other) <==> other == target {
      if subject == "!" + other {
        assert subject[1..] == other;
      }
      assert subject != "" && subject[0] == '!' ==> subject == "!" + subject[1..];
    }
  }

  // A single target is accepted in exactly these cases, and is then that target, negated by an exclamation mark.
  lemma ParseOneIff(one: string, t: Table)
    ensures ParseOne(one, t).Ok? <==> Accepts(one, t)
    ensures ParseOne(one, t).Ok? ==> (ParseOne(one, t).isResp <==> WaitsForResponse(one, t))
    ensures ParseOne(one, t).Crash? <==> RuleParser.ParseText(one, t.env).Crash?
    ensures !ParseOne(one, t).NotAFunc?
  {
    hide RuleParser.ParseText;
    match RuleParser.ParseText(one, t.env)
    case Crash =>
    case Parsed(subject, args, err, missing) =>
      var target := OneTarget(subject);
      hide TargetIs;
      if err.None? && missing == [] {
        assert RuleParser.ParseText(one, t.env) == RuleParser.Parsed(subject, args, None, []);
      }
  }

  lemma {:induction false} AltsIff(ors: seq<string>, t: Table)
    requires NoneSplits(ors)
    ensures ParseAlts(ors, t).Alternatives? <==> forall i :: 0 <= i < |ors| ==> ParseOne(ors[i], t).Ok?
    ensures ParseAlts(ors, t).AltCrash? <==> exists i :: 0 <= i < |ors| && ParseOne(ors[i], t).Crash?
  {
    if ors != [] {
      AltsUnfold(ors, t);
      OneIsFunc(ors[0], t);
      AltsAreFuncs(ors[1..], t);
      AltsIff(ors[1..], t);
      hide ParseOne, ParseAlts, ParseOn, NoneSplits, FuncsFor;
      assert forall i :: 1 <= i < |ors| ==> ors[i] == ors[1..][i - 1];
      forall i | 0 <= i < |ors[1..]| && ParseOne(ors[1..][i], t).Crash? ensures ParseOne(ors[i + 1], t).Crash? {}
    }
  }

  // A line is accepted exactly when every alternative on it is; it is read as a crash exactly when one crashes.
  lemma LineAcceptedIff(line: string, t: Table)
    ensures ParseOn(line, t).Ok? <==> forall i :: 0 <= i < |Written(line)| ==> Accepts(Written(line)[i], t)
    ensures ParseOn(line, t).Crash? <==> exists i :: 0 <= i < |Written(line)| && RuleParser.ParseText(Written(line)[i], t.env).Crash?
    ensures ParseOn(line, t).Ok? ==>
              (ParseOn(line, t).isResp <==> exists i :: 0 <= i < |Written(line)| && WaitsForResponse(Written(line)[i], t))
  {
    var ors := Written(line);
    forall i | 0 <= i < |ors|
      ensures ParseOne(ors[i], t).Ok? <==> Accepts(ors[i], t)
      ensures ParseOne(ors[i], t).Crash? <==> RuleParser.ParseText(ors[i], t.env).Crash?
      ensures ParseOne(ors[i], t).Ok? ==> (ParseOne(ors[i], t).isResp <==> WaitsForResponse(ors[i], t))
    {
      ParseOneIff(ors[i], t);
    }
    SeveralAlternatives(line, t);
    hide ParseOne, Accepts, WaitsForResponse, RuleParser.ParseText;
    LineIff(line, t);
    if ParseOn(line, t).Ok? {
      LineMeans(line, t, (_, _) => true);
    }
  }

  lemma LineIff(line: string, t: Table)
    ensures ParseOn(line, t).Ok? <==> forall i :: 0 <= i < |Written(line)| ==> ParseOne(Written(line)[i], t).Ok?
    ensures ParseOn(line, t).Crash? <==> exists i :: 0 <= i < |Written(line)| && ParseOne(Written(line)[i], t).Crash?
  {
    SeveralAlternatives(line, t);
    hide ParseOne, ParseOn, ParseAlts, NoneSplits;
    if |Written(line)| > 1 {
      AltsIff(Written(line), t);
    } else {
      assert Written(line)[0] == line;
      assert |Written(line)| == 1;
    }
  }

  ghost predicate AllOk(lines: seq<string>, t: Table) {
    forall i :: 0 <= i < |lines| ==> ParseOn(lines[i], t).Ok?
  }

  ghost predicate SomeCrash(lines: seq<string>, t: Table) {
    exists i :: 0 <= i < |lines| && ParseOn(lines[i], t).Crash?
  }

  ghost predicate SomeWaits(lines: seq<string>, t: Table) {
    exists i :: 0 <= i < |lines| && ParseOn(lines[i], t).Ok? && ParseOn(lines[i], t).isResp
  }

  lemma FirstLine(lines: seq<string>, t: Table)
    requires lines != []
    ensures AllOk(lines, t) <==> ParseOn(lines[0], t).Ok? && AllOk(lines[1..], t)
    ensures SomeCrash(lines, t) <==> ParseOn(lines[0], t).Crash? || SomeCrash(lines[1..], t)
    ensures SomeWaits(lines, t) <==> (ParseOn(lines[0], t).Ok? && ParseOn(lines[0], t).isResp) || SomeWaits(lines[1..], t)
  {
    hide ParseOn;
    var rest := lines[1..];
    assert forall i :: 1 <= i < |lines| ==> lines[i] == rest[i - 1];
    assert forall i :: 0 <= i < |rest| ==> rest[i] == lines[i + 1];
  }

  // A condition is accepted exactly when all its lines are, waits for the response exactly when one of them does, and
  // crashes the reader exactly when one does.
  lemma {:induction false} RuleAcceptedIff(lines: seq<string>, t: Table)
    ensures ParseAll(lines, t).Rule? <==> AllOk(lines, t)
    ensures ParseAll(lines, t).RulePanic? <==> SomeCrash(lines, t)
    ensures ParseAll(lines, t).Rule? ==> (ParseAll(lines, t).isResp <==> SomeWaits(lines, t))
  {
    if lines != [] {
      RuleAcceptedIff(lines[1..], t);
      AssertionHolds(lines[0], t);
      FirstLine(lines, t);
      RuleOf(lines, t);
      hide ParseOn, ParseAll, AllOk, SomeCrash, SomeWaits;
    }
  }

  lemma RuleOf(lines: seq<string>, t: Table)
    requires lines != [] && !ParseOn(lines[0], t).NotAFunc?
    ensures var one, rest, all := ParseOn(lines[0], t), ParseAll(lines[1..], t), ParseAll(lines, t);
            && (all.Rule? <==> one.Ok? && rest.Rule?)
            && (all.RulePanic? <==> one.Crash? || rest.RulePanic?)
            && (all.Rule? ==> (all.isResp <==> one.isResp || rest.isResp))
  {
    hide ParseOn;
  }
}
