/**
 The conditions of a rule: lines and ampersands are conjunctions, top-level pipes alternatives.
 */
module Conditions {
  import opened Chars
  import opened Options
  import Pipes
  import RuleParser

  // ----- conjunctions

  predicate IsAnd(c: char) {
    c == '&' || c == '\n'
  }

  predicate IsAsciiSpace(c: char) {
    c == ' ' || '\t' <= c <= '\r'
  }

  function AndAt(s: string): (n: nat)
    ensures n <= |s| && (n < |s| ==> IsAnd(s[n])) && forall k :: 0 <= k < n ==> !IsAnd(s[k])
  {
    if s == "" || IsAnd(s[0]) then 0 else 1 + AndAt(s[1..])
  }

  function Ands(s: string): nat {
    if s == "" then 0 else (if IsAnd(s[0]) then 1 else 0) + Ands(s[1..])
  }

  function Trimmed(s: string): string {
    TrimRight(TrimLeft(s, IsAsciiSpace), IsAsciiSpace)
  }

  function NonEmpty(s: string): seq<string> {
    if s == "" then [] else [s]
  }

  // What is between the separators, trimmed, without what is empty. Quotes do not hide a separator.
  function AndParts(s: string): seq<string>
    decreases |s|
  {
    var n := AndAt(s);
    if n == |s| then NonEmpty(TrimSpace(s)) else NonEmpty(Trimmed(s[..n])) + AndParts(s[n + 1..])
  }

  lemma {:induction false} TrimLeftAt(s: string, beg: nat)
    requires beg <= |s| && (forall k :: 0 <= k < beg ==> IsAsciiSpace(s[k])) && (beg < |s| ==> !IsAsciiSpace(s[beg]))
    ensures TrimLeft(s, IsAsciiSpace) == s[beg..]
  {
    if beg > 0 {
      TrimLeftAt(s[1..], beg - 1);
    }
  }

  lemma {:induction false} TrimRightAt(s: string, end: nat)
    requires end <= |s| && (forall k :: end <= k < |s| ==> IsAsciiSpace(s[k])) && (end > 0 ==> !IsAsciiSpace(s[end - 1]))
    ensures TrimRight(s, IsAsciiSpace) == s[..end]
  {
    if end < |s| {
      TrimRightAt(s[..|s| - 1], end);
      assert s[..|s| - 1][..end] == s[..end];
    }
  }

  // The two scans for spaces around one part.
  method TrimAscii(s: string) returns (t: string)
    ensures t == Trimmed(s)
  {
    var beg, end := 0, |s|;
    while beg < end && IsAsciiSpace(s[beg])
      invariant beg <= end && forall k :: 0 <= k < beg ==> IsAsciiSpace(s[k])
    {
      beg := beg + 1;
    }
    TrimLeftAt(s, beg);
    while end > beg + 1 && IsAsciiSpace(s[end - 1])
      invariant beg <= end <= |s| && forall k :: end <= k < |s| ==> IsAsciiSpace(s[k])
    {
      end := end - 1;
    }
    if end == beg {
      assert s[beg..] == "";
    }
    TrimRightAt(s[beg..], end - beg);
    t := s[beg..end];
    assert s[beg..][..end - beg] == t;
  }

  lemma {:induction false} CountAtAnd(s: string)
    ensures AndAt(s) == |s| <==> Ands(s) == 0
    ensures AndAt(s) < |s| ==> Ands(s[AndAt(s) + 1..]) == Ands(s) - 1
  {
    if s != "" && !IsAnd(s[0]) {
      CountAtAnd(s[1..]);
      hide IsAnd;
      assert AndAt(s) < |s| ==> s[1..][AndAt(s[1..]) + 1..] == s[AndAt(s) + 1..];
    }
  }

  method IndexAnd(s: string) returns (n: int)
    ensures n == if AndAt(s) == |s| then -1 else AndAt(s)
  {
    n := 0;
    while n < |s|
      invariant 0 <= n <= |s| && AndAt(s) >= n
    {
      if IsAnd(s[n]) {
        return;
      }
      n := n + 1;
    }
    n := -1;
  }

  // The parts are those already found, then those of what is left, after so many separators.
  ghost predicate Found(s: string, n: nat, used: nat, parts: seq<string>, rest: string) {
    Ands(rest) + used == n && |parts| <= used && AndParts(s) == parts + AndParts(rest)
  }

  lemma AndUnfold(s: string)
    requires AndAt(s) < |s|
    ensures AndParts(s) == NonEmpty(Trimmed(s[..AndAt(s)])) + AndParts(s[AndAt(s) + 1..])
  {
    hide Trimmed, NonEmpty;
  }

  lemma FoundStep(s: string, n: nat, used: nat, parts: seq<string>, rest: string)
    requires Found(s, n, used, parts, rest) && AndAt(rest) < |rest|
    ensures Found(s, n, used + 1, parts + NonEmpty(Trimmed(rest[..AndAt(rest)])), rest[AndAt(rest) + 1..])
  {
    CountAtAnd(rest);
    AndUnfold(rest);
    hide Trimmed, Ands, AndParts;
    Assoc(parts, NonEmpty(Trimmed(rest[..AndAt(rest)])), AndParts(rest[AndAt(rest) + 1..]));
  }

  lemma FoundAll(s: string, n: nat, used: nat, parts: seq<string>, rest: string)
    requires Found(s, n, used, parts, rest) && (|parts| >= n || AndAt(rest) == |rest|)
    ensures AndParts(s) == parts + NonEmpty(TrimSpace(rest))
  {
    CountAtAnd(rest);
    hide Ands, TrimSpace;
  }

  // The loop stops after as many parts as there are separators, or when no separator is left.
  method SplitAnd(s: string) returns (parts: seq<string>)
    ensures parts == AndParts(s)
  {
    parts := [];
    if s == "" {
      return;
    }
    var n := Ands(s);
    var rest := s;
    ghost var used := 0;
    while |parts| < n
      invariant Found(s, n, used, parts, rest)
      decreases |rest|
    {
      hide Trimmed, Found, IsAnd, AndParts, Ands, TrimLeft, TrimRight;
      var end := IndexAnd(rest);
      if end == -1 {
        break;
      }
      FoundStep(s, n, used, parts, rest);
      var part := TrimAscii(rest[..end]);
      if part != "" {
        parts := parts + [part];
      }
      rest, used := rest[end + 1..], used + 1;
    }
    FoundAll(s, n, used, parts, rest);
    var last := TrimSpace(rest);
    if last != "" {
      parts := parts + [last];
    }
  }

  lemma Assoc(a: seq<string>, b: seq<string>, c: seq<string>)
    ensures a + (b + c) == a + b + c
  {
  }

  // No part is empty or holds a separator.
  lemma {:induction false} AndPartsClean(s: string, i: nat)
    requires i < |AndParts(s)|
    ensures AndParts(s)[i] != "" && '&' !in AndParts(s)[i] && '\n' !in AndParts(s)[i]
    decreases |s|
  {
    var n := AndAt(s);
    if n == |s| {
      TrimKeeps(s, IsSpace);
      assert forall c :: c in TrimSpace(s) ==> c in s && c != '&' && c != '\n';
      hide TrimSpace, IsAnd;
    } else {
      TrimKeeps(s[..n], IsAsciiSpace);
      assert forall c :: c in Trimmed(s[..n]) ==> c in s[..n] && c != '&' && c != '\n';
      hide Trimmed, IsAnd;
      if i >= |NonEmpty(Trimmed(s[..n]))| {
        AndPartsClean(s[n + 1..], i - |NonEmpty(Trimmed(s[..n]))|);
      }
    }
  }

  lemma {:induction false} TrimLeftKeeps(s: string, space: char -> bool)
    ensures |TrimLeft(s, space)| <= |s| && TrimLeft(s, space) == s[|s| - |TrimLeft(s, space)|..]
  {
    if s != "" && space(s[0]) {
      TrimLeftKeeps(s[1..], space);
    }
  }

  lemma TrimKeeps(s: string, space: char -> bool)
    ensures forall c :: c in TrimRight(TrimLeft(s, space), space) ==> c in s
  {
    TrimLeftKeeps(s, space);
    Pipes.TrimRightPrefix(TrimLeft(s, space), space);
  }

  // A piece that a separator or a trim would not touch.
  ghost predicate Clean(s: string) {
    && s != "" && '&' !in s && '\n' !in s
    && !IsSpace(s[0]) && !IsSpace(s[|s| - 1])
  }

  // Blanks that are no separators: spaces, tabs, form feeds and carriage returns.
  ghost predicate Pad(s: string) {
    forall k :: 0 <= k < |s| ==> s[k] == ' ' || s[k] == '\t' || s[k] as int in {11, 12, 13}
  }

  function WriteAnds(pieces: seq<string>, pad: string, sep: char): string {
    if pieces == [] then ""
    else if |pieces| == 1 then pad + (pieces[0] + pad)
    else pad + (pieces[0] + pad) + ([sep] + WriteAnds(pieces[1..], pad, sep))
  }

  lemma {:induction false} TrimLeftPad(pad: string, s: string, space: char -> bool)
    requires (forall k :: 0 <= k < |pad| ==> space(pad[k])) && (s != "" ==> !space(s[0]))
    ensures TrimLeft(pad + s, space) == s
  {
    if pad == "" {
      assert pad + s == s;
    } else {
      assert (pad + s)[1..] == pad[1..] + s;
      TrimLeftPad(pad[1..], s, space);
    }
  }

  lemma {:induction false} TrimRightPad(s: string, pad: string, space: char -> bool)
    requires (forall k :: 0 <= k < |pad| ==> space(pad[k])) && (s != "" ==> !space(s[|s| - 1]))
    ensures TrimRight(s + pad, space) == s
  {
    if pad == "" {
      assert s + pad == s;
    } else {
      assert (s + pad)[..|s + pad| - 1] == s + pad[..|pad| - 1];
      TrimRightPad(s, pad[..|pad| - 1], space);
    }
  }

  lemma TrimPad(s: string, pad: string)
    requires Clean(s) && Pad(pad)
    ensures Trimmed(pad + (s + pad)) == s && TrimSpace(pad + (s + pad)) == s
  {
    assert (s + pad)[0] == s[0];
    TrimLeftPad(pad, s + pad, IsAsciiSpace);
    TrimLeftPad(pad, s + pad, IsSpace);
    TrimRightPad(s, pad, IsAsciiSpace);
    TrimRightPad(s, pad, IsSpace);
  }

  lemma {:induction false} AndAtFirst(s: string, rest: string)
    requires (forall k :: 0 <= k < |s| ==> !IsAnd(s[k])) && (rest != "" ==> IsAnd(rest[0]))
    ensures AndAt(s + rest) == |s|
  {
    if s == "" {
      assert s + rest == rest;
    } else {
      assert (s + rest)[0] == s[0] && (s + rest)[1..] == s[1..] + rest;
      AndAtFirst(s[1..], rest);
    }
  }

  lemma PaddedNoAnd(s: string, pad: string)
    requires Clean(s) && Pad(pad)
    ensures forall k :: 0 <= k < |pad + (s + pad)| ==> !IsAnd((pad + (s + pad))[k])
  {
  }

  lemma AndCut(first: string, sep: char, rest: string)
    requires (forall k :: 0 <= k < |first| ==> !IsAnd(first[k])) && IsAnd(sep)
    ensures AndParts(first + ([sep] + rest)) == NonEmpty(Trimmed(first)) + AndParts(rest)
  {
    var s := first + ([sep] + rest);
    AndAtFirst(first, [sep] + rest);
    AndUnfold(s);
    hide Trimmed, AndParts, AndAt, IsAnd, NonEmpty;
    assert s[..|first|] == first && s[|first| + 1..] == rest;
  }

  lemma AndLast(s: string)
    requires forall k :: 0 <= k < |s| ==> !IsAnd(s[k])
    ensures AndParts(s) == NonEmpty(TrimSpace(s))
  {
    AndAtFirst(s, "");
    assert s + "" == s;
    hide TrimSpace, NonEmpty, IsAnd;
  }

  // Pieces written with a separator and blanks around it come back as they were.
  lemma {:induction false} AndPartsOfWritten(pieces: seq<string>, pad: string, sep: char)
    requires (forall i :: 0 <= i < |pieces| ==> Clean(pieces[i])) && Pad(pad) && (sep == '&' || sep == '\n')
    ensures AndParts(WriteAnds(pieces, pad, sep)) == pieces
    decreases |pieces|
  {
    assert IsAnd(sep);
    hide AndParts, Trimmed, TrimSpace, IsAnd, Clean, Pad;
    if pieces != [] {
      var first := pad + (pieces[0] + pad);
      PaddedNoAnd(pieces[0], pad);
      TrimPad(pieces[0], pad);
      CleanIsSome(pieces[0]);
      if |pieces| > 1 {
        AndPartsOfWritten(pieces[1..], pad, sep);
        AndCut(first, sep, WriteAnds(pieces[1..], pad, sep));
        assert [pieces[0]] + pieces[1..] == pieces;
      } else {
        AndLast(first);
        assert pieces == [pieces[0]];
      }
    } else {
      AndLast("");
      assert TrimSpace("") == "" by { NothingToTrim(); }
    }
  }

  lemma NothingToTrim()
    ensures TrimSpace("") == ""
  {
  }

  lemma CleanIsSome(s: string)
    requires Clean(s)
    ensures NonEmpty(s) == [s]
  {
  }

  // ----- alternatives

  // A target, its arguments and whether it is negated; or any of several.
  datatype Checker = Func(subject: string, args: seq<string>, negate: bool) | Or(alts: seq<Checker>)

  // What parsing gives. NotAFunc is a failed type assertion, Crash an index out of range.
  datatype Parsed = Ok(checker: Checker, isResp: bool) | Errors | NotAFunc | Crash

  // The environment variables and the table of targets.
  datatype Table = Table(env: RuleParser.Env, known: string -> bool, valid: (string, seq<string>) -> bool, onResponse: string -> bool)

  function ParseOne(line: string, t: Table): Parsed {
    match RuleParser.ParseText(line, t.env)
    case Crash => Crash
    case Parsed(subject, args, err, missing) =>
      if err.Some? || missing != [] then Errors
      else
        var negate := subject != "" && subject[0] == '!';
        var target := if negate then subject[1..] else subject;
        if !t.known(target) || !t.valid(target, args) then Errors else Ok(Func(target, args, negate), t.onResponse(target))
  }

  datatype Alternatives = Alternatives(alts: seq<Checker>, isResp: bool) | AltErrors | AltNotAFunc | AltCrash

  ghost predicate NoneSplits(ors: seq<string>) {
    forall i :: 0 <= i < |ors| ==> |Pipes.Parts(ors[i])| <= 1
  }

  lemma PartsNoneSplits(line: string)
    ensures NoneSplits(Pipes.Parts(line))
  {
    forall i | 0 <= i < |Pipes.Parts(line)| ensures |Pipes.Parts(Pipes.Parts(line)[i])| <= 1 {
      Pipes.PartsDoNotSplit(line, i);
    }
  }

  // Parsing a part again ends, because no part splits further.
  function ParseOn(line: string, t: Table): Parsed
    decreases if |Pipes.Parts(line)| > 1 then 2 else 0, 0
  {
    var ors := Pipes.Parts(line);
    if |ors| > 1 then
      PartsNoneSplits(line);
      AsLine(ParseAlts(ors, t))
    else ParseOne(line, t)
  }

  function AsLine(a: Alternatives): Parsed {
    match a
    case Alternatives(alts, isResp) => Ok(Or(alts), isResp)
    case AltErrors => Errors
    case AltNotAFunc => NotAFunc
    case AltCrash => Crash
  }

  function ParseAlts(ors: seq<string>, t: Table): Alternatives
    requires NoneSplits(ors)
    decreases 1, |ors|
  {
    if ors == [] then Alternatives([], false)
    else
      match ParseOn(ors[0], t)
      case Ok(c, isResp) => if c.Func? then Combine(false, [c], isResp, ParseAlts(ors[1..], t)) else AltNotAFunc
      case Errors => Combine(true, [], false, ParseAlts(ors[1..], t))
      case NotAFunc => AltNotAFunc
      case Crash => AltCrash
  }

  function Combine(errs: bool, done: seq<Checker>, isResp: bool, rest: Alternatives): Alternatives {
    match rest
    case Alternatives(alts, r) => if errs then AltErrors else Alternatives(done + alts, isResp || r)
    case _ => rest
  }

  // The result is what was read so far, combined with the rest.
  ghost predicate Read(ors: seq<string>, i: nat, t: Table, errs: bool, alts: seq<Checker>, isResp: bool) {
    && i <= |ors| && NoneSplits(ors) && NoneSplits(ors[i..])
    && ParseAlts(ors, t) == Combine(errs, alts, isResp, ParseAlts(ors[i..], t))
  }

  lemma ReadStarts(ors: seq<string>, t: Table)
    requires NoneSplits(ors)
    ensures Read(ors, 0, t, false, [], false)
  {
    hide NoneSplits, ParseAlts;
    assert ors[0..] == ors;
    CombineNothing(ParseAlts(ors, t));
  }

  lemma ReadStep(ors: seq<string>, i: nat, t: Table, errs: bool, alts: seq<Checker>, isResp: bool)
    requires Read(ors, i, t, errs, alts, isResp) && i < |ors|
    ensures match ParseOn(ors[i], t)
            case Ok(c, resp) =>
              if c.Func? then Read(ors, i + 1, t, errs, alts + [c], isResp || resp) else AsLine(ParseAlts(ors, t)) == NotAFunc
            case Errors => Read(ors, i + 1, t, true, alts, isResp)
            case NotAFunc => AsLine(ParseAlts(ors, t)) == NotAFunc
            case Crash => AsLine(ParseAlts(ors, t)) == Crash
  {
    assert ors[i..][0] == ors[i] && ors[i..][1..] == ors[i + 1..];
    assert NoneSplits(ors[i + 1..]);
    AltsUnfold(ors[i..], t);
    hide NoneSplits, ParseAlts, ParseOn, Combine;
    CombineTwice(errs, alts, isResp, ParseOn(ors[i], t), ParseAlts(ors[i + 1..], t));
  }

  lemma AltsUnfold(ors: seq<string>, t: Table)
    requires NoneSplits(ors) && ors != []
    ensures NoneSplits(ors[1..])
    ensures ParseAlts(ors, t) ==
            match ParseOn(ors[0], t)
            case Ok(c, isResp) => if c.Func? then Combine(false, [c], isResp, ParseAlts(ors[1..], t)) else AltNotAFunc
            case Errors => Combine(true, [], false, ParseAlts(ors[1..], t))
            case NotAFunc => AltNotAFunc
            case Crash => AltCrash
  {
    hide ParseOn, Combine, Pipes.Parts;
  }

  lemma ReadAll(ors: seq<string>, t: Table, errs: bool, alts: seq<Checker>, isResp: bool)
    requires Read(ors, |ors|, t, errs, alts, isResp)
    ensures AsLine(ParseAlts(ors, t)) == if errs then Errors else Ok(Or(alts), isResp)
  {
    hide Pipes.Parts, ParseOn;
    assert ors[|ors|..] == [] && alts + [] == alts;
  }

  lemma SeveralAlternatives(line: string, t: Table)
    ensures NoneSplits(Pipes.Parts(line))
    ensures |Pipes.Parts(line)| <= 1 ==> ParseOn(line, t) == ParseOne(line, t)
    ensures |Pipes.Parts(line)| > 1 ==> ParseOn(line, t) == AsLine(ParseAlts(Pipes.Parts(line), t))
  {
    PartsNoneSplits(line);
    hide Pipes.Parts, ParseOne, NoneSplits;
  }

  lemma OneAtATime(ors: seq<string>, i: nat)
    requires NoneSplits(ors) && i < |ors|
    ensures |Pipes.Parts(ors[i])| <= 1
  {
  }

  method ParseLine(line: string, t: Table) returns (r: Parsed)
    ensures r == ParseOn(line, t)
    decreases if |Pipes.Parts(line)| > 1 then 2 else 0
  {
    hide *;
    SeveralAlternatives(line, t);
    var ors := Pipes.SplitPipe(line);
    if |ors| <= 1 {
      r := ParseOne(line, t);
      return;
    }
    var alts, isResp, errs := [], false, false;
    ReadStarts(ors, t);
    for i := 0 to |ors|
      invariant Read(ors, i, t, errs, alts, isResp)
    {
      hide *;
      OneAtATime(ors, i);
      var one := ParseLine(ors[i], t);
      ReadStep(ors, i, t, errs, alts, isResp);
      match one
      case Errors => errs := true;
      case NotAFunc => return NotAFunc;
      case Crash => return Crash;
      case Ok(c, resp) =>
        if !c.Func? {
          return NotAFunc;
        }
        isResp, alts := isResp || resp, alts + [c];
    }
    ReadAll(ors, t, errs, alts, isResp);
    r := if errs then Errors else Ok(Or(alts), isResp);
  }

  lemma CombineNothing(rest: Alternatives)
    ensures Combine(false, [], false, rest) == rest
  {
    assert rest.Alternatives? ==> [] + rest.alts == rest.alts;
  }

  lemma CombineTwice(errs: bool, done: seq<Checker>, isResp: bool, one: Parsed, rest: Alternatives)
    ensures Combine(errs, done, isResp, Combine(true, [], false, rest)) == Combine(true, done, isResp, rest)
    ensures one.Ok? ==> Combine(errs, done, isResp, Combine(false, [one.checker], one.isResp, rest))
                        == Combine(errs, done + [one.checker], isResp || one.isResp, rest)
    ensures Combine(errs, done, isResp, AltNotAFunc) == AltNotAFunc && Combine(errs, done, isResp, AltCrash) == AltCrash
  {
    assert one.Ok? && rest.Alternatives? ==> done + ([one.checker] + rest.alts) == done + [one.checker] + rest.alts;
  }

  // One target for each alternative, in order.
  ghost predicate FuncsFor(ors: seq<string>, alts: seq<Checker>, t: Table) {
    && |alts| == |ors|
    && forall i :: 0 <= i < |ors| ==> ParseOne(ors[i], t).Ok? && ParseOne(ors[i], t).checker == alts[i] && alts[i].Func?
  }

  lemma FuncsForCons(ors: seq<string>, c: Checker, alts: seq<Checker>, t: Table)
    requires ors != [] && ParseOne(ors[0], t).Ok? && ParseOne(ors[0], t).checker == c && c.Func? && FuncsFor(ors[1..], alts, t)
    ensures FuncsFor(ors, [c] + alts, t)
  {
    hide ParseOne;
    assert forall i :: 1 <= i < |ors| ==> ors[i] == ors[1..][i - 1] && ([c] + alts)[i] == alts[i - 1];
  }

  // The type assertion never fails: each alternative is one target, in the order they are written.
  lemma {:induction false} AltsAreFuncs(ors: seq<string>, t: Table)
    requires NoneSplits(ors)
    ensures var a := ParseAlts(ors, t); !a.AltNotAFunc? && (a.Alternatives? ==> FuncsFor(ors, a.alts, t))
  {
    if ors != [] {
      AltsUnfold(ors, t);
      AltsAreFuncs(ors[1..], t);
      OneIsFunc(ors[0], t);
      hide Pipes.Parts, ParseOne, ParseAlts, ParseOn, NoneSplits, FuncsFor;
      var a, rest := ParseAlts(ors, t), ParseAlts(ors[1..], t);
      if a.Alternatives? {
        FuncsForCons(ors, ParseOne(ors[0], t).checker, rest.alts, t);
      }
    }
  }

  ghost predicate SomeResp(ors: seq<string>, t: Table) {
    exists i :: 0 <= i < |ors| && ParseOne(ors[i], t).Ok? && ParseOne(ors[i], t).isResp
  }

  lemma SomeRespFirst(ors: seq<string>, t: Table)
    requires ors != []
    ensures SomeResp(ors, t) <==> (ParseOne(ors[0], t).Ok? && ParseOne(ors[0], t).isResp) || SomeResp(ors[1..], t)
  {
    hide ParseOne;
    if SomeResp(ors, t) {
      var i :| 0 <= i < |ors| && ParseOne(ors[i], t).Ok? && ParseOne(ors[i], t).isResp;
      assert i > 0 ==> ors[i] == ors[1..][i - 1];
    }
    if SomeResp(ors[1..], t) {
      var i :| 0 <= i < |ors[1..]| && ParseOne(ors[1..][i], t).Ok? && ParseOne(ors[1..][i], t).isResp;
      assert ors[i + 1] == ors[1..][i];
    }
  }

  // The alternatives need the response when one of them does.
  lemma {:induction false} AltsNeedResponse(ors: seq<string>, t: Table)
    requires NoneSplits(ors) && ParseAlts(ors, t).Alternatives?
    ensures ParseAlts(ors, t).isResp <==> SomeResp(ors, t)
  {
    if ors != [] {
      AltsUnfold(ors, t);
      OneIsFunc(ors[0], t);
      SomeRespFirst(ors, t);
      hide Pipes.Parts, ParseOne, ParseAlts, ParseOn, NoneSplits, SomeResp;
      AltsNeedResponse(ors[1..], t);
    }
  }

  lemma OneIsFunc(line: string, t: Table)
    requires |Pipes.Parts(line)| <= 1
    ensures ParseOn(line, t) == ParseOne(line, t) && !ParseOne(line, t).NotAFunc? && (ParseOne(line, t).Ok? ==> ParseOne(line, t).checker.Func?)
  {
  }

  lemma AssertionHolds(line: string, t: Table)
    ensures !ParseOn(line, t).NotAFunc?
  {
    if |Pipes.Parts(line)| > 1 {
      PartsNoneSplits(line);
      AltsAreFuncs(Pipes.Parts(line), t);
      hide ParseAlts, Pipes.Parts, ParseOne;
    } else {
      OneIsFunc(line, t);
    }
  }

  // ----- checking

  type Holds = (string, seq<string>) -> bool

  function Check(c: Checker, h: Holds): bool {
    match c
    case Func(subject, args, negate) => h(subject, args) != negate
    case Or(alts) => exists i :: 0 <= i < |alts| && Check(alts[i], h)
  }

  // What is written on one line between two separators.
  function Written(line: string): seq<string> {
    if |Pipes.Parts(line)| > 1 then Pipes.Parts(line) else [line]
  }

  ghost predicate SomeHolds(line: string, t: Table, h: Holds) {
    exists i :: 0 <= i < |Written(line)| && ParseOne(Written(line)[i], t).Ok? && Check(ParseOne(Written(line)[i], t).checker, h)
  }

  lemma OrMeans(line: string, alts: seq<Checker>, t: Table, h: Holds)
    requires FuncsFor(Written(line), alts, t)
    ensures Check(Or(alts), h) <==> SomeHolds(line, t, h)
  {
    hide ParseOne, Written;
    var ors := Written(line);
    assert forall i :: 0 <= i < |alts| ==> ParseOne(ors[i], t).checker == alts[i];
  }

  lemma LineMeans(line: string, t: Table, h: Holds)
    requires ParseOn(line, t).Ok?
    ensures Check(ParseOn(line, t).checker, h) <==> SomeHolds(line, t, h)
    ensures ParseOn(line, t).isResp <==> SomeResp(Written(line), t)
  {
    var ors := Pipes.Parts(line);
    SeveralAlternatives(line, t);
    if |ors| > 1 {
      AltsAreFuncs(ors, t);
      AltsNeedResponse(ors, t);
      hide ParseAlts, Pipes.Parts, ParseOne, ParseOn, NoneSplits, SomeResp, FuncsFor, SomeHolds, Check;
      assert Written(line) == ors;
      OrMeans(line, ParseAlts(ors, t).alts, t, h);
    } else {
      hide ParseOne, ParseOn, Pipes.Parts, NoneSplits;
      assert Written(line)[0] == line;
    }
  }

  // A target written with its arguments is that target, and with an exclamation mark in front it holds exactly when
  // it does not hold without.
  lemma NegationFlips(target: string, args: seq<RuleParser.Arg>, t: Table, h: Holds)
    requires RuleParser.Plain(target) && target[0] != '!' && forall i :: 0 <= i < |args| ==> RuleParser.Writable(args[i])
    requires RuleParser.Missing(args, t.env) == []
    requires t.known(target) && t.valid(target, RuleParser.Values(args, t.env))
    ensures var plain := ParseOne(target + RuleParser.WriteAll(args), t);
            var negated := ParseOne("!" + target + RuleParser.WriteAll(args), t);
            && plain == Ok(Func(target, RuleParser.Values(args, t.env), false), t.onResponse(target))
            && negated.Ok? && negated.isResp == plain.isResp
            && (Check(negated.checker, h) <==> !Check(plain.checker, h))
  {
    hide RuleParser.ParseText, RuleParser.Values, RuleParser.Missing, RuleParser.WriteAll, RuleParser.Writable;
    var not := "!" + target;
    assert RuleParser.Plain(not) by {
      assert forall i :: 1 <= i < |not| ==> not[i] == target[i - 1];
    }
    hide RuleParser.Plain;
    assert not[1..] == target;
    RuleParser.WritingIsFaithful(target, args, t.env);
    RuleParser.WritingIsFaithful(not, args, t.env);
  }

  // ----- a whole condition

  datatype Rule = Rule(all: seq<Checker>, isResp: bool) | RuleErrors | RulePanic

  function ParseAll(lines: seq<string>, t: Table): Rule {
    if lines == [] then Rule([], false)
    else
      match ParseOn(lines[0], t)
      case Ok(c, isResp) => Join(false, [c], isResp, ParseAll(lines[1..], t))
      case Errors => Join(true, [], false, ParseAll(lines[1..], t))
      case _ => RulePanic
  }

  function Join(errs: bool, done: seq<Checker>, isResp: bool, rest: Rule): Rule {
    match rest
    case Rule(all, r) => if errs then RuleErrors else Rule(done + all, isResp || r)
    case _ => rest
  }

  lemma JoinTwice(errs: bool, done: seq<Checker>, isResp: bool, one: Parsed, rest: Rule)
    ensures Join(errs, done, isResp, Join(true, [], false, rest)) == Join(true, done, isResp, rest)
    ensures one.Ok? ==> Join(errs, done, isResp, Join(false, [one.checker], one.isResp, rest))
                        == Join(errs, done + [one.checker], isResp || one.isResp, rest)
    ensures Join(errs, done, isResp, RulePanic) == RulePanic
    ensures Join(false, [], false, rest) == rest
  {
    assert one.Ok? && rest.Rule? ==> done + ([one.checker] + rest.all) == done + [one.checker] + rest.all;
    assert rest.Rule? ==> [] + rest.all == rest.all;
  }

  ghost predicate ReadRule(lines: seq<string>, i: nat, t: Table, errs: bool, all: seq<Checker>, isResp: bool) {
    i <= |lines| && ParseAll(lines, t) == Join(errs, all, isResp, ParseAll(lines[i..], t))
  }

  lemma ReadRuleStarts(lines: seq<string>, t: Table)
    ensures ReadRule(lines, 0, t, false, [], false)
  {
    hide ParseAll;
    assert lines[0..] == lines;
    JoinTwice(false, [], false, Errors, ParseAll(lines, t));
  }

  lemma ReadRuleStep(lines: seq<string>, i: nat, t: Table, errs: bool, all: seq<Checker>, isResp: bool)
    requires ReadRule(lines, i, t, errs, all, isResp) && i < |lines|
    ensures match ParseOn(lines[i], t)
            case Ok(c, resp) => ReadRule(lines, i + 1, t, errs, all + [c], isResp || resp)
            case Errors => ReadRule(lines, i + 1, t, true, all, isResp)
            case _ => ParseAll(lines, t).RulePanic?
  {
    hide ParseOn, Join;
    assert lines[i..][0] == lines[i] && lines[i..][1..] == lines[i + 1..];
    JoinTwice(errs, all, isResp, ParseOn(lines[i], t), ParseAll(lines[i + 1..], t));
  }

  lemma ReadRuleAll(lines: seq<string>, t: Table, errs: bool, all: seq<Checker>, isResp: bool)
    requires ReadRule(lines, |lines|, t, errs, all, isResp)
    ensures ParseAll(lines, t) == if errs then RuleErrors else Rule(all, isResp)
  {
    hide ParseOn;
    assert lines[|lines|..] == [] && all + [] == all;
  }

  method Parse(v: string, t: Table) returns (r: Rule)
    ensures r == ParseAll(AndParts(v), t)
  {
    hide *;
    var rules := SplitAnd(v);
    var checkAnd, isResp, errs := [], false, false;
    ReadRuleStarts(rules, t);
    for i := 0 to |rules|
      invariant ReadRule(rules, i, t, errs, checkAnd, isResp)
    {
      hide *;
      var one := ParseLine(rules[i], t);
      ReadRuleStep(rules, i, t, errs, checkAnd, isResp);
      match one
      case Errors => errs := true;
      case NotAFunc => return RulePanic;
      case Crash => return RulePanic;
      case Ok(c, resp) => isResp, checkAnd := isResp || resp, checkAnd + [c];
    }
    ReadRuleAll(rules, t, errs, checkAnd, isResp);
    r := if errs then RuleErrors else Rule(checkAnd, isResp);
  }

  ghost predicate AllHold(lines: seq<string>, t: Table, h: Holds) {
    forall i :: 0 <= i < |lines| ==> SomeHolds(lines[i], t, h)
  }

  ghost predicate CheckAll(all: seq<Checker>, h: Holds) {
    forall i :: 0 <= i < |all| ==> Check(all[i], h)
  }

  // An accepted condition holds exactly when on each of its lines one of the written alternatives does.
  lemma {:induction false} RuleMeans(lines: seq<string>, t: Table, h: Holds)
    requires ParseAll(lines, t).Rule?
    ensures CheckAll(ParseAll(lines, t).all, h) <==> AllHold(lines, t, h)
  {
    if lines != [] {
      hide SomeHolds, Check, ParseOn;
      var c, rest := ParseOn(lines[0], t).checker, ParseAll(lines[1..], t);
      RuleMeans(lines[1..], t, h);
      LineMeans(lines[0], t, h);
      assert ([c] + rest.all)[1..] == rest.all;
      CheckFirst([c] + rest.all, h);
      HoldFirst(lines, t, h);
      hide CheckAll, AllHold;
    }
  }

  lemma CheckFirst(all: seq<Checker>, h: Holds)
    requires all != []
    ensures CheckAll(all, h) <==> Check(all[0], h) && CheckAll(all[1..], h)
  {
    hide Check;
    if Check(all[0], h) && CheckAll(all[1..], h) {
      assert forall i :: 1 <= i < |all| ==> all[i] == all[1..][i - 1];
    }
  }

  lemma HoldFirst(lines: seq<string>, t: Table, h: Holds)
    requires lines != []
    ensures AllHold(lines, t, h) <==> SomeHolds(lines[0], t, h) && AllHold(lines[1..], t, h)
  {
    hide SomeHolds;
    if SomeHolds(lines[0], t, h) && AllHold(lines[1..], t, h) {
      assert forall i :: 1 <= i < |lines| ==> lines[i] == lines[1..][i - 1];
    }
  }
}
