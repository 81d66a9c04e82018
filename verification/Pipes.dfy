/**
 Splitting a line of conditions at its top-level pipes. Quotes, parentheses and backslashes hide a pipe.
 */
module Pipes {
  import opened Chars
  import opened Options

  // ----- the scanner

  datatype Mode = Mode(escaped: bool, quote: Option<char>, brackets: nat)

  const INITIAL := Mode(false, None, 0)

  function Next(m: Mode, c: char): Mode {
    if m.escaped then m.(escaped := false)
    else if c == '\\' then m.(escaped := true)
    else if IsQuote(c) then
      if m.quote.None? && m.brackets == 0 then m.(quote := Some(c))
      else if m.quote == Some(c) then m.(quote := None)
      else m
    else if c == '(' then m.(brackets := m.brackets + 1)
    else if c == ')' && m.brackets > 0 then m.(brackets := m.brackets - 1)
    else m
  }

  // The scanner is in its initial state at every split.
  predicate SplitsAt(m: Mode, c: char) {
    c == '|' && m == INITIAL
  }

  // The parts as they stand, which are at least one; from mode m on.
  function Raw(s: string, m: Mode): (parts: seq<string>)
    ensures |parts| >= 1
  {
    if s == "" then [""]
    else
      var rest := Raw(s[1..], Next(m, s[0]));
      if SplitsAt(m, s[0]) then [""] + rest else [[s[0]] + rest[0]] + rest[1..]
  }

  function TrimAll(parts: seq<string>): (r: seq<string>)
    ensures |r| == |parts| && forall i :: 0 <= i < |r| ==> r[i] == TrimSpace(parts[i])
  {
    if parts == [] then [] else [TrimSpace(parts[0])] + TrimAll(parts[1..])
  }

  function DropEmptyLast(parts: seq<string>): seq<string> {
    if parts != [] && parts[|parts| - 1] == "" then parts[..|parts| - 1] else parts
  }

  // What is between the pipes, trimmed; nothing after a last pipe is no part.
  function Parts(s: string): seq<string> {
    TrimAll(DropEmptyLast(Raw(s, INITIAL)))
  }

  // ----- what splitting keeps

  function Join(parts: seq<string>): string
    requires |parts| >= 1
  {
    if |parts| == 1 then parts[0] else parts[0] + "|" + Join(parts[1..])
  }

  // Before trimming nothing but the pipes is lost.
  lemma {:induction false} JoinRaw(s: string, m: Mode)
    ensures Join(Raw(s, m)) == s
  {
    if s != "" {
      hide Next;
      JoinRaw(s[1..], Next(m, s[0]));
      var rest := Raw(s[1..], Next(m, s[0]));
      if SplitsAt(m, s[0]) {
        assert ([""] + rest)[1..] == rest;
        assert s == "" + "|" + s[1..];
      } else {
        assert ([[s[0]] + rest[0]] + rest[1..])[1..] == rest[1..];
        assert s == [s[0]] + s[1..];
      }
    }
  }

  ghost predicate Whole(s: string, m: Mode) {
    |Raw(s, m)| == 1
  }

  // Every part is whole from the initial state on, the first from the state the scan started in.
  lemma {:induction false} RawWhole(s: string, m: Mode)
    ensures Whole(Raw(s, m)[0], m)
    ensures forall i :: 1 <= i < |Raw(s, m)| ==> Whole(Raw(s, m)[i], INITIAL)
  {
    if s != "" {
      hide Next;
      var n := Next(m, s[0]);
      var rest := Raw(s[1..], n);
      RawWhole(s[1..], n);
      if SplitsAt(m, s[0]) {
        assert n == INITIAL by { NextAtSplit(); }
        assert forall i :: 0 <= i < |rest| ==> Raw(s, m)[i + 1] == rest[i];
      } else {
        WholeCons(s[0], rest[0], m);
        assert forall i :: 1 <= i < |rest| ==> Raw(s, m)[i] == rest[i];
      }
    }
  }

  lemma NextAtSplit()
    ensures Next(INITIAL, '|') == INITIAL
  {
  }

  lemma WholeCons(c: char, s: string, m: Mode)
    requires !SplitsAt(m, c)
    ensures Whole([c] + s, m) <==> Whole(s, Next(m, c))
  {
    hide Next;
    assert ([c] + s)[1..] == s;
  }

  // Cutting off the end splits no further.
  lemma {:induction false} RawPrefix(a: string, b: string, m: Mode)
    ensures |Raw(a, m)| <= |Raw(a + b, m)|
  {
    if a != "" {
      hide Next;
      assert (a + b)[0] == a[0] && (a + b)[1..] == a[1..] + b;
      RawPrefix(a[1..], b, Next(m, a[0]));
    }
  }

  lemma {:induction false} TrimRightPrefix(s: string, space: char -> bool)
    ensures TrimRight(s, space) <= s
  {
    if s != "" && space(s[|s| - 1]) {
      TrimRightPrefix(s[..|s| - 1], space);
    }
  }

  lemma {:induction false} TrimLeftWhole(s: string)
    requires Whole(s, INITIAL)
    ensures Whole(TrimLeft(s, IsSpace), INITIAL)
  {
    if s != "" && IsSpace(s[0]) {
      assert s == [s[0]] + s[1..];
      assert Next(INITIAL, s[0]) == INITIAL;
      WholeCons(s[0], s[1..], INITIAL);
      TrimLeftWhole(s[1..]);
    }
  }

  lemma TrimWhole(s: string)
    requires Whole(s, INITIAL)
    ensures Whole(TrimSpace(s), INITIAL)
  {
    TrimLeftWhole(s);
    var left := TrimLeft(s, IsSpace);
    var both := TrimRight(left, IsSpace);
    TrimRightPrefix(left, IsSpace);
    assert left == both + left[|both|..];
    RawPrefix(both, left[|both|..], INITIAL);
  }

  // A part splits no further.
  lemma PartsDoNotSplit(s: string, i: nat)
    requires i < |Parts(s)|
    ensures |Parts(Parts(s)[i])| <= 1
  {
    var raw := Raw(s, INITIAL);
    RawWhole(s, INITIAL);
    assert Whole(raw[i], INITIAL);
    TrimWhole(raw[i]);
    hide Raw, TrimSpace;
    assert Parts(s)[i] == TrimSpace(raw[i]);
  }

  // ----- the splitter

  lemma RawUnfold(s: string, m: Mode, current: string)
    requires s != ""
    ensures Current(current, Raw(s, m))
            == if SplitsAt(m, s[0]) then [current] + Raw(s[1..], INITIAL) else Current(current + [s[0]], Raw(s[1..], Next(m, s[0])))
  {
    if SplitsAt(m, s[0]) {
      NextAtSplit();
      assert current + "" == current;
    } else {
      var rest := Raw(s[1..], Next(m, s[0]));
      hide Next, Raw;
      assert current + ([s[0]] + rest[0]) == current + [s[0]] + rest[0];
      assert ([[s[0]] + rest[0]] + rest[1..])[1..] == rest[1..];
    }
  }

  // What has been read of the current part, in front of the parts that follow.
  function Current(current: string, parts: seq<string>): seq<string>
    requires |parts| >= 1
  {
    [current + parts[0]] + parts[1..]
  }

  lemma PartsOfSplit(current: string, rest: seq<string>)
    requires |rest| >= 1
    ensures TrimAll(DropEmptyLast([current] + rest)) == [TrimSpace(current)] + TrimAll(DropEmptyLast(rest))
  {
    hide TrimSpace;
    var all := [current] + rest;
    assert DropEmptyLast(all) == [current] + DropEmptyLast(rest);
    assert ([current] + DropEmptyLast(rest))[1..] == DropEmptyLast(rest);
  }

  // The parts are those already found, then those from position i on.
  ghost predicate Found(s: string, i: nat, m: Mode, current: string, result: seq<string>)
    requires i <= |s|
  {
    Parts(s) == result + TrimAll(DropEmptyLast(Current(current, Raw(s[i..], m))))
  }

  lemma FoundStarts(s: string)
    ensures INITIAL == Mode(false, None, 0) && Found(s, 0, INITIAL, "", [])
  {
    hide TrimAll, DropEmptyLast, Raw;
    assert s[0..] == s;
    CurrentEmpty(Raw(s, INITIAL));
  }

  lemma FoundStep(s: string, i: nat, m: Mode, current: string, result: seq<string>)
    requires i < |s| && Found(s, i, m, current, result)
    ensures INITIAL == Mode(false, None, 0)
    ensures if SplitsAt(m, s[i]) then Found(s, i + 1, INITIAL, "", result + [TrimSpace(current)])
            else Found(s, i + 1, Next(m, s[i]), current + [s[i]], result)
  {
    assert s[i..][1..] == s[i + 1..];
    RawUnfold(s[i..], m, current);
    hide TrimAll, DropEmptyLast, TrimSpace, Parts, Raw, Current, Next;
    var after := Raw(s[i + 1..], INITIAL);
    PartsOfSplit(current, after);
    CurrentEmpty(after);
    AssocParts(result, [TrimSpace(current)], TrimAll(DropEmptyLast(after)));
  }

  lemma FoundAll(s: string, m: Mode, current: string, result: seq<string>)
    requires Found(s, |s|, m, current, result)
    ensures Parts(s) == if current == "" then result else result + [TrimSpace(current)]
  {
    hide TrimSpace, Parts;
    assert s[|s|..] == "" && current + "" == current && [""][1..] == [];
    assert TrimAll([current])[0] == TrimSpace(current);
  }

  lemma NextIs(m: Mode, c: char)
    ensures m.escaped ==> Next(m, c) == Mode(false, m.quote, m.brackets)
    ensures !m.escaped && c == '\\' ==> Next(m, c) == Mode(true, m.quote, m.brackets)
    ensures !m.escaped && IsQuote(c) ==>
              Next(m, c) == Mode(false, if m.quote.None? && m.brackets == 0 then Some(c) else if m.quote == Some(c) then None else m.quote, m.brackets)
    ensures !m.escaped && c == '(' ==> Next(m, c) == Mode(false, m.quote, m.brackets + 1)
    ensures !m.escaped && c == ')' ==> Next(m, c) == Mode(false, m.quote, if m.brackets > 0 then m.brackets - 1 else 0)
    ensures !m.escaped && c != '\\' && !IsQuote(c) && c != '(' && c != ')' ==> Next(m, c) == m
    ensures IsQuote(c) ==> c != '|'
    ensures SplitsAt(m, c) <==> c == '|' && !m.escaped && m.quote.None? && m.brackets == 0
  {
  }

  method SplitPipe(s: string) returns (result: seq<string>)
    ensures result == Parts(s)
  {
    hide *;
    FoundStarts(s);
    if s == "" {
      FoundAll(s, INITIAL, "", []);
      return [];
    }
    result := [];
    var current, escaped, quote: Option<char>, brackets := "", false, None, 0;
    for i := 0 to |s|
      invariant brackets >= 0 && Found(s, i, Mode(escaped, quote, brackets), current, result)
    {
      hide *;
      var r := s[i];
      ghost var m := Mode(escaped, quote, brackets);
      FoundStep(s, i, m, current, result);
      NextIs(m, r);
      if escaped {
        current, escaped := current + [r], false;
        continue;
      }
      if r == '\\' {
        current, escaped := current + [r], true;
      } else if IsQuote(r) {
        if quote.None? && brackets == 0 {
          quote := Some(r);
        } else if quote == Some(r) {
          quote := None;
        }
        current := current + [r];
      } else if r == '(' {
        brackets := brackets + 1;
        current := current + [r];
      } else if r == ')' {
        if brackets > 0 {
          brackets := brackets - 1;
        }
        current := current + [r];
      } else if r == '|' && quote.None? && brackets == 0 {
        result, current := result + [TrimSpace(current)], "";
      } else {
        current := current + [r];
      }
    }
    FoundAll(s, Mode(escaped, quote, brackets), current, result);
    if current != "" {
      result := result + [TrimSpace(current)];
    }
  }

  lemma AssocParts(a: seq<string>, b: seq<string>, c: seq<string>)
    ensures a + (b + c) == a + b + c
  {
  }

  lemma CurrentEmpty(parts: seq<string>)
    requires |parts| >= 1
    ensures Current("", parts) == parts
  {
    assert "" + parts[0] == parts[0];
    assert [parts[0]] + parts[1..] == parts;
  }

  // ----- what hides a pipe

  // A line as a reader sees it.
  datatype Token = Plain(c: char) | Escaped(c: char) | Quoted(q: char, text: string) | Bracketed(text: string) | Pipe

  // The parentheses that are open after a text in quotes: they count there too, and never go below none. None when the
  // quote would end within the text.
  function QuoteDepth(text: string, q: char, d: nat): Option<nat> {
    if text == "" then Some(d)
    else if text[0] == '\\' then (if |text| == 1 then None else QuoteDepth(text[2..], q, d))
    else if text[0] == q then None
    else if text[0] == '(' then QuoteDepth(text[1..], q, d + 1)
    else QuoteDepth(text[1..], q, if text[0] == ')' && d > 0 then d - 1 else d)
  }

  // The same for a text in parentheses; None when they would be closed within it.
  function BracketDepth(text: string, d: nat): Option<nat> {
    if text == "" then Some(d)
    else if text[0] == '\\' then (if |text| == 1 then None else BracketDepth(text[2..], d))
    else if text[0] == '(' then BracketDepth(text[1..], d + 1)
    else if text[0] == ')' then (if d <= 1 then None else BracketDepth(text[1..], d - 1))
    else BracketDepth(text[1..], d)
  }

  ghost predicate Readable(t: Token) {
    match t
    case Plain(c) => c != '\\' && !IsQuote(c) && c != '(' && c != '|'
    case Escaped(_) => true
    case Quoted(q, text) => IsQuote(q) && q != '\\' && QuoteDepth(text, q, 0).Some?
    case Bracketed(text) => BracketDepth(text, 1) == Some(1)
    case Pipe => true
  }

  // A quoted text that leaves a parenthesis open.
  ghost predicate LeavesOpen(t: Token) {
    t.Quoted? && QuoteDepth(t.text, t.q, 0) != Some(0)
  }

  function TextOf(t: Token): string {
    match t
    case Plain(c) => [c]
    case Escaped(c) => ['\\', c]
    case Quoted(q, text) => [q] + (text + [q])
    case Bracketed(text) => "(" + (text + ")")
    case Pipe => "|"
  }

  function TextOfAll(ts: seq<Token>): string {
    if ts == [] then "" else TextOf(ts[0]) + TextOfAll(ts[1..])
  }

  // The text between the pipes that a reader sees.
  function Groups(ts: seq<Token>): (r: seq<string>)
    ensures |r| >= 1
  {
    if ts == [] then [""]
    else if ts[0].Pipe? then [""] + Groups(ts[1..])
    else Current(TextOf(ts[0]), Groups(ts[1..]))
  }

  function ModeAfter(s: string, m: Mode): Mode {
    if s == "" then m else ModeAfter(s[1..], Next(m, s[0]))
  }

  ghost predicate NoSplit(s: string, m: Mode) {
    s != "" ==> !SplitsAt(m, s[0]) && NoSplit(s[1..], Next(m, s[0]))
  }

  // Text without a split is part of what follows it.
  lemma {:induction false} Glue(s: string, m: Mode, rest: string)
    requires NoSplit(s, m)
    ensures Raw(s + rest, m) == Current(s, Raw(rest, ModeAfter(s, m)))
    decreases |s|
  {
    if s == "" {
      assert s + rest == rest;
      CurrentEmpty(Raw(rest, m));
    } else {
      assert (s + rest)[0] == s[0] && (s + rest)[1..] == s[1..] + rest;
      Glue(s[1..], Next(m, s[0]), rest);
      RawUnfold(s + rest, m, "");
      CurrentEmpty(Raw(s + rest, m));
      hide Raw, Next;
      CurrentTwice([s[0]], s[1..], Raw(rest, ModeAfter(s, m)));
      assert "" + [s[0]] == [s[0]] && [s[0]] + s[1..] == s;
    }
  }

  lemma CurrentTwice(a: string, b: string, parts: seq<string>)
    requires |parts| >= 1
    ensures Current(a, Current(b, parts)) == Current(a + b, parts)
  {
    assert a + (b + parts[0]) == a + b + parts[0];
  }

  // ----- when a line is split as it is seen

  // From mode m on, the pipes that a reader sees split, and nothing else does.
  ghost predicate SeenRight(ts: seq<Token>, m: Mode) {
    ts != [] ==>
      && (if ts[0].Pipe? then SplitsAt(m, '|') else NoSplit(TextOf(ts[0]), m))
      && SeenRight(ts[1..], ModeAfter(TextOf(ts[0]), m))
  }

  lemma CurrentInjective(current: string, a: seq<string>, b: seq<string>)
    requires |a| >= 1 && |b| >= 1
    ensures Current(current, a) == Current(current, b) <==> a == b
  {
    if Current(current, a) == Current(current, b) {
      assert (current + a[0])[|current|..] == a[0] && (current + b[0])[|current|..] == b[0];
      assert Current(current, a)[1..] == a[1..] && Current(current, b)[1..] == b[1..];
      assert a == [a[0]] + a[1..] && b == [b[0]] + b[1..];
    }
  }

  // A split within a text cuts the first part short.
  lemma {:induction false} SplitIsShort(s: string, m: Mode, rest: string)
    requires !NoSplit(s, m)
    ensures |Raw(s + rest, m)[0]| < |s|
    decreases |s|
  {
    assert (s + rest)[0] == s[0] && (s + rest)[1..] == s[1..] + rest;
    if !SplitsAt(m, s[0]) {
      SplitIsShort(s[1..], Next(m, s[0]), rest);
    }
  }

  // For any tokens at all: the split is the one that is seen exactly when each token is met in a mode that is right for it.
  lemma {:induction false} SplitsRightIff(ts: seq<Token>, m: Mode)
    ensures Raw(TextOfAll(ts), m) == Groups(ts) <==> SeenRight(ts, m)
    decreases |ts|
  {
    if ts != [] {
      var rest := TextOfAll(ts[1..]);
      var after := ModeAfter(TextOf(ts[0]), m);
      SplitsRightIff(ts[1..], after);
      if ts[0].Pipe? {
        PipeFirst(rest, m, Groups(ts[1..]));
      } else if NoSplit(TextOf(ts[0]), m) {
        Glue(TextOf(ts[0]), m, rest);
        CurrentInjective(TextOf(ts[0]), Raw(rest, after), Groups(ts[1..]));
      } else {
        SplitIsShort(TextOf(ts[0]), m, rest);
      }
    }
  }

  lemma PipeFirst(rest: string, m: Mode, groups: seq<string>)
    ensures var after := ModeAfter("|", m);
            Raw("|" + rest, m) == [""] + groups <==> SplitsAt(m, '|') && Raw(rest, after) == groups
  {
    assert ("|" + rest)[1..] == rest && "|"[1..] == "";
    assert ModeAfter("|", m) == Next(m, '|');
    if Raw("|" + rest, m) == [""] + groups {
      assert ([""] + Raw(rest, Next(m, '|')))[1..] == Raw(rest, Next(m, '|'));
      assert ([""] + groups)[1..] == groups;
    }
  }

  // ----- what the tokens leave open

  // An escaped pair splits nothing and leaves the mode as it was.
  lemma PairHides(s: string, m: Mode)
    requires |s| >= 2 && s[0] == '\\' && !m.escaped
    ensures NoSplit(s, m) <==> NoSplit(s[2..], m)
    ensures ModeAfter(s, m) == ModeAfter(s[2..], m)
  {
    assert s[1..][1..] == s[2..];
    var e := m.(escaped := true);
    assert Next(m, s[0]) == e && Next(e, s[1]) == m && s[1..][0] == s[1];
  }

  // Within quotes nothing splits, and parentheses count.
  lemma {:induction false} QuotedHides(text: string, q: char, d: nat, last: char)
    requires IsQuote(q) && QuoteDepth(text, q, d).Some?
    ensures var m := Mode(false, Some(q), d);
            && NoSplit(text + [last], m)
            && ModeAfter(text + [last], m) == Next(Mode(false, Some(q), QuoteDepth(text, q, d).value), last)
    decreases |text|
  {
    var m, s := Mode(false, Some(q), d), text + [last];
    if text == "" {
      assert s[1..] == "" && s[0] == last;
    } else if text[0] == '\\' {
      assert s[2..] == text[2..] + [last];
      QuotedHides(text[2..], q, d, last);
      PairHides(s, m);
    } else {
      assert s[0] == text[0] && s[1..] == text[1..] + [last];
      QuotedHides(text[1..], q, if text[0] == '(' then d + 1 else if text[0] == ')' && d > 0 then d - 1 else d, last);
    }
  }

  // Within parentheses nothing splits, and quotes count as any text.
  lemma {:induction false} BracketHides(text: string, d: nat, last: char)
    requires d >= 1 && BracketDepth(text, d).Some? && last != '|'
    ensures BracketDepth(text, d).value >= 1
    ensures var m := Mode(false, None, d);
            NoSplit(text + [last], m) && ModeAfter(text + [last], m) == Next(Mode(false, None, BracketDepth(text, d).value), last)
    decreases |text|
  {
    var m, s := Mode(false, None, d), text + [last];
    if text == "" {
      assert s[1..] == "" && s[0] == last;
    } else if text[0] == '\\' {
      assert s[2..] == text[2..] + [last];
      BracketHides(text[2..], d, last);
      PairHides(s, m);
    } else {
      assert s[0] == text[0] && s[1..] == text[1..] + [last];
      BracketHides(text[1..], if text[0] == '(' then d + 1 else if text[0] == ')' then d - 1 else d, last);
    }
  }

  // A text in parentheses may stand in others.
  lemma {:induction false} BracketDeeper(text: string, d: nat, e: nat)
    requires BracketDepth(text, d).Some?
    ensures BracketDepth(text, d + e) == Some(BracketDepth(text, d).value + e)
    decreases |text|
  {
    if text == "" {
    } else if text[0] == '\\' {
      BracketDeeper(text[2..], d, e);
    } else {
      BracketDeeper(text[1..], if text[0] == '(' then d + 1 else if text[0] == ')' then d - 1 else d, e);
    }
  }

  // What follows the parenthesis that closes the last of d open ones.
  function Tail(text: string, d: nat): Option<string> {
    if text == "" then None
    else if text[0] == '\\' then (if |text| == 1 then None else Tail(text[2..], d))
    else if text[0] == '(' then Tail(text[1..], d + 1)
    else if text[0] == ')' then (if d <= 1 then Some(text[1..]) else Tail(text[1..], d - 1))
    else Tail(text[1..], d)
  }

  // No character that opens or escapes anything.
  predicate Simple(s: string) {
    forall i :: 0 <= i < |s| ==> s[i] != '\\' && !IsQuote(s[i]) && s[i] != '('
  }

  // How a line goes on after a token: outside quotes with some parentheses open, or inside a quote that the closing mark of
  // a quoted text has opened.
  datatype Reading = Outside(d: nat) | Inside(q: char, d: nat)

  function ModeOf(r: Reading): Mode {
    if r.Outside? then Mode(false, None, r.d) else Mode(false, Some(r.q), r.d)
  }

  // The part of a quoted text that is read as if it stood outside, when its opening mark opens nothing.
  function Exposed(text: string, d: nat): string {
    if d == 0 then text else if Tail(text, d).Some? then Tail(text, d).value else ""
  }

  // How the line goes on after it: the closing mark opens a quote where no parenthesis is open any more. None where what is
  // exposed opens or escapes something itself.
  function AfterExposed(text: string, q: char, d: nat): Option<Reading> {
    if d == 0 || Tail(text, d).Some? then (if Simple(Exposed(text, d)) then Some(Inside(q, 0)) else None)
    else if BracketDepth(text, d).Some? then Some(Outside(BracketDepth(text, d).value))
    else None
  }

  function Within(q: char, d: Option<nat>): Option<Reading> {
    if d.Some? then Some(Inside(q, d.value)) else None
  }

  function OneClosed(d: nat): nat {
    if d > 0 then d - 1 else 0
  }

  // How the line goes on after a token, and None where that is not described.
  function After(t: Token, r: Reading): Option<Reading> {
    match t
    case Plain(c) => Some(if c == ')' then r.(d := OneClosed(r.d)) else r)
    case Escaped(_) => Some(r)
    case Pipe => Some(r)
    case Bracketed(text) =>
      if r.Outside? then Some(r)
      else if QuoteDepth("(" + text, r.q, r.d).Some? then Some(r.(d := OneClosed(QuoteDepth("(" + text, r.q, r.d).value)))
      else None
    case Quoted(q, text) =>
      if r == Outside(0) then (if QuoteDepth(text, q, 0).Some? then Some(Outside(QuoteDepth(text, q, 0).value)) else None)
      else if r.Inside? && r.q != q then Within(r.q, QuoteDepth(text, r.q, r.d))
      else AfterExposed(text, q, r.d)
  }

  // The token is split: a pipe of a quoted text is exposed.
  predicate Breaks(t: Token, r: Reading) {
    t.Quoted? && r != Outside(0) && !(r.Inside? && r.q != t.q) && '|' in Exposed(t.text, r.d)
  }

  lemma {:induction false} SimpleReads(s: string, q: char)
    requires Simple(s) && IsQuote(q)
    ensures ModeAfter(s + [q], INITIAL) == Mode(false, Some(q), 0)
    ensures NoSplit(s + [q], INITIAL) <==> '|' !in s
    decreases |s|
  {
    var t := s + [q];
    if s == "" {
      assert t[1..] == "" && t[0] == q;
    } else {
      assert t[0] == s[0] && t[1..] == s[1..] + [q] && s == [s[0]] + s[1..];
      SimpleReads(s[1..], q);
    }
  }

  lemma {:induction false} TailReads(text: string, d: nat, q: char)
    requires d >= 1 && Tail(text, d).Some? && Simple(Tail(text, d).value) && IsQuote(q)
    ensures ModeAfter(text + [q], Mode(false, None, d)) == Mode(false, Some(q), 0)
    ensures NoSplit(text + [q], Mode(false, None, d)) <==> '|' !in Tail(text, d).value
    decreases |text|
  {
    var m, s := Mode(false, None, d), text + [q];
    if text[0] == '\\' {
      assert s[2..] == text[2..] + [q];
      TailReads(text[2..], d, q);
      PairHides(s, m);
    } else {
      assert s[0] == text[0] && s[1..] == text[1..] + [q];
      if text[0] == ')' && d == 1 {
        SimpleReads(text[1..], q);
      } else {
        TailReads(text[1..], if text[0] == '(' then d + 1 else if text[0] == ')' then d - 1 else d, q);
      }
    }
  }

  lemma ExposedReads(text: string, q: char, d: nat)
    requires IsQuote(q) && AfterExposed(text, q, d).Some?
    ensures ModeAfter(text + [q], Mode(false, None, d)) == ModeOf(AfterExposed(text, q, d).value)
    ensures NoSplit(text + [q], Mode(false, None, d)) <==> '|' !in Exposed(text, d)
  {
    if d == 0 {
      SimpleReads(text, q);
    } else if Tail(text, d).Some? {
      TailReads(text, d, q);
    } else {
      BracketHides(text, d, q);
    }
  }

  // What a token does to the scanner.
  lemma TokenReads(t: Token, r: Reading)
    requires Readable(t) && !t.Pipe? && After(t, r).Some? && (r.Inside? ==> IsQuote(r.q))
    ensures ModeAfter(TextOf(t), ModeOf(r)) == ModeOf(After(t, r).value)
    ensures After(t, r).value.Inside? ==> IsQuote(After(t, r).value.q)
    ensures NoSplit(TextOf(t), ModeOf(r)) <==> !Breaks(t, r)
  {
    var m := ModeOf(r);
    match t
    case Plain(c) =>
      assert [c][1..] == "";
    case Escaped(c) =>
      assert ['\\', c][2..] == "";
      PairHides(['\\', c], m);
    case Bracketed(text) => BracketedReads(text, r);
    case Quoted(q, text) =>
      assert ([q] + (text + [q]))[1..] == text + [q];
      if r == Outside(0) {
        QuotedHides(text, q, 0, q);
      } else if r.Inside? && r.q != q {
        QuotedHides(text, r.q, r.d, q);
      } else {
        ExposedReads(text, q, r.d);
      }
  }

  lemma BracketedReads(text: string, r: Reading)
    requires Readable(Bracketed(text)) && After(Bracketed(text), r).Some? && (r.Inside? ==> IsQuote(r.q))
    ensures ModeAfter("(" + (text + ")"), ModeOf(r)) == ModeOf(After(Bracketed(text), r).value)
    ensures NoSplit("(" + (text + ")"), ModeOf(r))
  {
    if r.Outside? {
      BracketDeeper(text, 1, r.d);
      BracketHides(text, r.d + 1, ')');
      assert ("(" + (text + ")"))[1..] == text + ")";
    } else {
      QuotedHides("(" + text, r.q, r.d, ')');
      assert "(" + (text + ")") == "(" + text + [')'];
    }
  }

  // Each token is described where it is met.
  ghost predicate Steady(ts: seq<Token>, r: Reading) {
    ts != [] ==> After(ts[0], r).Some? && Steady(ts[1..], After(ts[0], r).value)
  }

  // Some pipe is met while a parenthesis or a quote is open, or is exposed in a quoted text.
  ghost predicate Misread(ts: seq<Token>, r: Reading)
    requires Steady(ts, r)
  {
    ts != [] && ((ts[0].Pipe? && r != Outside(0)) || Breaks(ts[0], r) || Misread(ts[1..], After(ts[0], r).value))
  }

  lemma {:induction false} SteadyRight(ts: seq<Token>, r: Reading)
    requires Steady(ts, r) && (r.Inside? ==> IsQuote(r.q)) && forall i :: 0 <= i < |ts| ==> Readable(ts[i])
    ensures SeenRight(ts, ModeOf(r)) <==> !Misread(ts, r)
    decreases |ts|
  {
    if ts != [] {
      var t := ts[0];
      assert forall i :: 0 <= i < |ts[1..]| ==> ts[1..][i] == ts[i + 1];
      if t.Pipe? {
        assert "|"[1..] == "" && ModeAfter("|", ModeOf(r)) == ModeOf(r);
        SteadyRight(ts[1..], r);
      } else {
        TokenReads(t, r);
        hide ModeOf, TextOf, NoSplit, ModeAfter, After, Breaks;
        if NoSplit(TextOf(t), ModeOf(r)) {
          SteadyRight(ts[1..], After(t, r).value);
        }
      }
    }
  }

  // Parentheses count in quoted texts, too: what one leaves open another closes, and where that happens within a quoted text
  // the rest of it stands outside and its closing mark opens a quote. A line is split as it is seen exactly when no pipe is
  // met while something is open, and none is exposed.
  lemma OpenParenthesisIff(ts: seq<Token>)
    requires Steady(ts, Outside(0)) && forall i :: 0 <= i < |ts| ==> Readable(ts[i])
    ensures Raw(TextOfAll(ts), INITIAL) == Groups(ts) <==> !Misread(ts, Outside(0))
  {
    hide *;
    SteadyRight(ts, Outside(0));
    SplitsRightIff(ts, INITIAL);
    InitialMode();
  }

  lemma InitialMode()
    ensures INITIAL == ModeOf(Outside(0))
  {
  }

  // In particular, a line whose quoted texts each close what they open is split exactly at the pipes that a reader sees.
  lemma {:induction false} ClosedIsSteady(ts: seq<Token>)
    requires forall i :: 0 <= i < |ts| ==> Readable(ts[i]) && !LeavesOpen(ts[i])
    ensures Steady(ts, Outside(0)) && !Misread(ts, Outside(0))
    decreases |ts|
  {
    if ts != [] {
      assert Readable(ts[0]) && !LeavesOpen(ts[0]);
      assert forall i :: 0 <= i < |ts[1..]| ==> ts[1..][i] == ts[i + 1];
      ClosedIsSteady(ts[1..]);
    }
  }

  lemma SplitsAtVisiblePipes(ts: seq<Token>)
    requires forall i :: 0 <= i < |ts| ==> Readable(ts[i]) && !LeavesOpen(ts[i])
    ensures Raw(TextOfAll(ts), INITIAL) == Groups(ts)
  {
    ClosedIsSteady(ts);
    hide Readable, LeavesOpen, Raw, Groups, Steady, Misread;
    assert forall i :: 0 <= i < |ts| ==> Readable(ts[i]);
    OpenParenthesisIff(ts);
  }

  // What is made of it: each part trimmed, and without the last when nothing stands after the last pipe.
  lemma PartsOfVisible(ts: seq<Token>)
    requires forall i :: 0 <= i < |ts| ==> Readable(ts[i]) && !LeavesOpen(ts[i])
    ensures var groups, parts := Groups(ts), Parts(TextOfAll(ts));
            && |parts| == (if groups[|groups| - 1] == "" then |groups| - 1 else |groups|)
            && forall i :: 0 <= i < |parts| ==> parts[i] == TrimSpace(groups[i])
  {
    SplitsAtVisiblePipes(ts);
    hide Readable, LeavesOpen, Raw, Groups, TrimSpace;
  }

  // ----- instances

  lemma RawNone(m: Mode)
    ensures Raw("", m) == [""]
  {
  }

  // The parts of a text from those of the text without its first character.
  lemma RawCons(t: string, s: string, m: Mode, parts: seq<string>)
    requires t != "" && t[1..] == s
    requires parts != []
    requires var rest := Raw(s, Next(m, t[0]));
             if SplitsAt(m, t[0]) then parts[0] == "" && parts[1..] == rest
             else parts[0] == [t[0]] + rest[0] && parts[1..] == rest[1..]
    ensures Raw(t, m) == parts
  {
  }

  // A pipe after an open parenthesis in quotes is hidden.
  lemma QuotedParenthesisHides()
    ensures Raw("\"(\"|b", INITIAL) == ["\"(\"|b"]
  {
    hide Raw;
    RawNone(Mode(false, None, 1));
    RawCons("b", "", Mode(false, None, 1), ["b"]);
    RawCons("|b", "b", Mode(false, None, 1), ["|b"]);
    RawCons("\"|b", "|b", Mode(false, Some('"'), 1), ["\"|b"]);
    RawCons("(\"|b", "\"|b", Mode(false, Some('"'), 0), ["(\"|b"]);
    RawCons("\"(\"|b", "(\"|b", INITIAL, ["\"(\"|b"]);
  }

  // Where it is closed within the quotes it is not.
  lemma ClosedParenthesisShows()
    ensures Raw("\"()\"|b", INITIAL) == ["\"()\"", "b"]
  {
    hide Raw;
    RawNone(INITIAL);
    RawCons("b", "", INITIAL, ["b"]);
    RawCons("|b", "b", INITIAL, ["", "b"]);
    RawCons("\"|b", "|b", Mode(false, Some('"'), 0), ["\"", "b"]);
    RawCons(")\"|b", "\"|b", Mode(false, Some('"'), 1), [")\"", "b"]);
    RawCons("()\"|b", ")\"|b", Mode(false, Some('"'), 0), ["()\"", "b"]);
    RawCons("\"()\"|b", "()\"|b", INITIAL, ["\"()\"", "b"]);
  }

  // Where it is closed within another quoted text, a pipe in that text splits.
  lemma QuotedPipeSplits()
    ensures Raw("\"(\"\")|x\"", INITIAL) == ["\"(\"\")", "x\""]
  {
    hide Raw;
    RawNone(Mode(false, Some('"'), 0));
    RawCons("\"", "", INITIAL, ["\""]);
    RawCons("x\"", "\"", INITIAL, ["x\""]);
    RawCons("|x\"", "x\"", INITIAL, ["", "x\""]);
    RawCons(")|x\"", "|x\"", Mode(false, None, 1), [")", "x\""]);
    RawCons("\")|x\"", ")|x\"", Mode(false, None, 1), ["\")", "x\""]);
    RawCons("\"\")|x\"", "\")|x\"", Mode(false, Some('"'), 1), ["\"\")", "x\""]);
    RawCons("(\"\")|x\"", "\"\")|x\"", Mode(false, Some('"'), 0), ["(\"\")", "x\""]);
    RawCons("\"(\"\")|x\"", "(\"\")|x\"", INITIAL, ["\"(\"\")", "x\""]);
  }
}
