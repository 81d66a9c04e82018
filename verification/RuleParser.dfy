/**
 The directive parser of the rule language: one pass over the characters with escape, quote,
 bracket and environment-variable states.

 Step and Run are the parser as a state machine over values; the method Parse is the loop, proved
 equal to it. The main theorem is that what is written from words, quoted texts and variables is read back.
 */
module RuleParser {
  import opened Chars
  import opened Options

  datatype SyntaxError = UnterminatedQuotes | UnterminatedBrackets | UnterminatedEnvVar

  // Crash: a character of 256 or more indexes the quote table out of range.
  datatype ParseResult =
    | Parsed(subject: string, args: seq<string>, err: Option<SyntaxError>, missing: seq<string>)
    | Crash

  datatype State = State(buf: string, escaped: bool, quote: char, brackets: nat,
                         envVar: string, inEnvVar: bool, expectingBrace: bool,
                         missing: seq<string>, subject: string, args: seq<string>)

  datatype Outcome = Running(st: State) | Stopped(result: ParseResult)

  type Env = string -> Option<string>

  const NO_QUOTE: char := '\0'
  const QUOTE: char := '\"'

  const START := State("", false, NO_QUOTE, 0, "", false, false, [], "", [])

  function Unescaped(c: char): (s: string) {
    if c == 'n' then "\n"
    else if c == 't' then "\t"
    else if c == 'r' then "\r"
    else if c == '\'' || c == '\"' || c == '\\' || c == ' ' then [c]
    else ['\\', c]
  }

  // Ends the current token. A blank unquoted token is no token, and stays in the buffer.
  function Flush(st: State, quoted: bool): State {
    var part := if quoted then st.buf else TrimLeft(st.buf, IsSpace);
    if !quoted && part == "" then st
    else if st.subject == "" then st.(subject := part, buf := "")
    else st.(args := st.args + [part], buf := "")
  }

  function Write(st: State, s: string): State {
    st.(buf := st.buf + s)
  }

  function Step(st0: State, r: char, env: Env): Outcome {
    if st0.escaped then
      Running(Write(st0, Unescaped(r)).(escaped := false))
    else
      var st := if st0.expectingBrace && r != '{' && r != '$' then Write(st0, "$").(expectingBrace := false) else st0;
      if r as int >= 256 then
        Stopped(Crash)
      else if IsQuote(r) then
        if st.quote == NO_QUOTE && st.brackets == 0 then Running(Flush(st, false).(quote := r))
        else if r == st.quote then Running(Flush(st, true).(quote := NO_QUOTE))
        else Running(Write(st, [r]))
      else if r == '\\' then
        Running(st.(escaped := true))
      else if r == '$' then
        if st.expectingBrace then Running(Write(st, "$").(expectingBrace := false))
        else Running(st.(expectingBrace := true))
      else if r == '{' then
        if st.expectingBrace then Running(st.(inEnvVar := true, expectingBrace := false, envVar := ""))
        else Running(Write(st, "{"))
      else if r == '}' then
        if st.inEnvVar then
          match env(st.envVar)
          case Some(value) => Running(Write(st, value).(inEnvVar := false))
          case None => Running(st.(missing := st.missing + [st.envVar], inEnvVar := false))
        else Running(Write(st, "}"))
      else if r == '(' then
        Running(Write(st, "(").(brackets := st.brackets + 1))
      else if r == ')' then
        if st.brackets == 0 then Stopped(Parsed(st.subject, st.args, Some(UnterminatedBrackets), []))
        else Running(Write(st, ")").(brackets := st.brackets - 1))
      else if r == ' ' then
        if st.quote == NO_QUOTE then Running(Flush(st, false)) else Running(Write(st, " "))
      else if st.inEnvVar then
        Running(st.(envVar := st.envVar + [r]))
      else
        Running(Write(st, [r]))
  }

  function Finish(st0: State): ParseResult {
    var st := if st0.expectingBrace then Write(st0, "$") else st0;
    if st.quote != NO_QUOTE then Parsed(st.subject, st.args, Some(UnterminatedQuotes), st.missing)
    else if st.brackets != 0 then Parsed(st.subject, st.args, Some(UnterminatedBrackets), st.missing)
    else if st.inEnvVar then Parsed(st.subject, st.args, Some(UnterminatedEnvVar), st.missing)
    else
      var done := Flush(st, false);
      Parsed(done.subject, done.args, None, done.missing)
  }

  function Run(st: State, v: string, env: Env): Outcome
    decreases |v|
  {
    if v == "" then Running(st)
    else
      match Step(st, v[0], env)
      case Running(next) => Run(next, v[1..], env)
      case Stopped(r) => Stopped(r)
  }

  function ParseText(v: string, env: Env): ParseResult {
    match Run(START, v, env)
    case Running(st) => Finish(st)
    case Stopped(r) => r
  }

  lemma {:induction false} RunAppend(st: State, a: string, b: string, env: Env)
    ensures Run(st, a + b, env) ==
            match Run(st, a, env)
            case Running(next) => Run(next, b, env)
            case Stopped(r) => Stopped(r)
    decreases |a|
  {
    hide Step;
    if a == "" {
      assert a + b == b;
    } else {
      assert (a + b)[1..] == a[1..] + b;
      match Step(st, a[0], env)
      case Running(next) => RunAppend(next, a[1..], b, env);
      case Stopped(r) =>
    }
  }

  lemma RunOne(st: State, c: char, env: Env)
    ensures Run(st, [c], env) == Step(st, c, env)
  {
    hide Step;
    match Step(st, c, env)
    case Running(next) => assert [c][1..] == "";
    case Stopped(r) =>
  }

  lemma RunTake(v: string, i: nat, env: Env)
    requires i < |v|
    ensures Run(START, v[..i + 1], env) ==
            match Run(START, v[..i], env)
            case Running(st) => Step(st, v[i], env)
            case Stopped(r) => Stopped(r)
  {
    hide Step;
    assert v[..i + 1] == v[..i] + [v[i]];
    RunAppend(START, v[..i], [v[i]], env);
    match Run(START, v[..i], env)
    case Running(st) => RunOne(st, v[i], env);
    case Stopped(r) =>
  }

  lemma RunStopped(v: string, i: nat, env: Env)
    requires i <= |v| && Run(START, v[..i], env).Stopped?
    ensures Run(START, v, env) == Run(START, v[..i], env)
  {
    hide Step;
    RunAppend(START, v[..i], v[i..], env);
    assert v == v[..i] + v[i..];
  }

  // The parser as the loop over its local variables.
  method Parse(v: string, env: Env) returns (result: ParseResult)
    ensures result == ParseText(v, env)
  {
    var buf, escaped, quote, brackets := "", false, NO_QUOTE, 0;
    var envVar, inEnvVar, expectingBrace := "", false, false;
    var missing: seq<string>, subject, args: seq<string> := [], "", [];
    for i := 0 to |v|
      invariant brackets >= 0
      invariant Run(START, v[..i], env) ==
                Running(State(buf, escaped, quote, brackets, envVar, inEnvVar, expectingBrace, missing, subject, args))
    {
      var r := v[i];
      RunTake(v, i, env);
      if escaped {
        buf, escaped := buf + Unescaped(r), false;
        continue;
      }
      if expectingBrace && r != '{' && r != '$' {
        buf, expectingBrace := buf + "$", false;
      }
      if r as int >= 256 {
        RunStopped(v, i + 1, env);
        return Crash;
      }
      if IsQuote(r) {
        if quote == NO_QUOTE && brackets == 0 {
          quote := r;
          buf, subject, args := FlushToken(buf, subject, args, false);
        } else if r == quote {
          quote := NO_QUOTE;
          buf, subject, args := FlushToken(buf, subject, args, true);
        } else {
          buf := buf + [r];
        }
        continue;
      }
      match r
      case '\\' =>
        escaped := true;
      case '$' =>
        if expectingBrace {
          buf, expectingBrace := buf + "$", false;
        } else {
          expectingBrace := true;
        }
      case '{' =>
        if expectingBrace {
          inEnvVar, expectingBrace, envVar := true, false, "";
        } else {
          buf := buf + [r];
        }
      case '}' =>
        if inEnvVar {
          var envValue := env(envVar);
          if envValue.None? {
            missing := missing + [envVar];
          } else {
            buf := buf + envValue.value;
          }
          inEnvVar := false;
        } else {
          buf := buf + [r];
        }
      case '(' =>
        brackets, buf := brackets + 1, buf + [r];
      case ')' =>
        if brackets == 0 {
          RunStopped(v, i + 1, env);
          return Parsed(subject, args, Some(UnterminatedBrackets), []);
        }
        brackets, buf := brackets - 1, buf + [r];
      case ' ' =>
        if quote == NO_QUOTE {
          buf, subject, args := FlushToken(buf, subject, args, false);
        } else {
          buf := buf + [r];
        }
      case _ =>
        if inEnvVar {
          envVar := envVar + [r];
        } else {
          buf := buf + [r];
        }
    }
    assert v[..|v|] == v;
    if expectingBrace {
      buf := buf + "$";
    }
    var err := None;
    if quote != NO_QUOTE {
      err := Some(UnterminatedQuotes);
    } else if brackets != 0 {
      err := Some(UnterminatedBrackets);
    } else if inEnvVar {
      err := Some(UnterminatedEnvVar);
    } else {
      buf, subject, args := FlushToken(buf, subject, args, false);
    }
    return Parsed(subject, args, err, missing);
  }

  // Ends the current token, looping over its leading spaces.
  method FlushToken(buf: string, subject: string, args: seq<string>, quoted: bool)
    returns (buf': string, subject': string, args': seq<string>)
    ensures forall st: State :: st.buf == buf && st.subject == subject && st.args == args ==>
              Flush(st, quoted) == st.(buf := buf', subject := subject', args := args')
  {
    buf', subject', args' := buf, subject, args;
    var part := buf;
    if !quoted {
      var beg := 0;
      while beg < |part| && IsSpace(part[beg])
        invariant 0 <= beg <= |part|
        invariant TrimLeft(part, IsSpace) == TrimLeft(part[beg..], IsSpace)
      {
        beg := beg + 1;
      }
      assert TrimLeft(part, IsSpace) == part[beg..];
      if beg == |part| {
        return;
      }
      part := part[beg..];
    }
    if subject == "" {
      subject' := part;
    } else {
      args' := args + [part];
    }
    buf' := "";
  }

  // ----- quoting is faithful

  // How an argument is written between double quotes.
  function Escape(arg: string): (s: string) {
    if arg == "" then ""
    else EscapeChar(arg[0]) + Escape(arg[1..])
  }

  function EscapeChar(c: char): string {
    if c == '\\' then "\\\\" else if c == QUOTE then "\\\"" else if c == '$' then "$$" else [c]
  }

  function Quoted(arg: string): (s: string) {
    " \"" + Escape(arg) + "\""
  }

  function QuotedAll(args: seq<string>): (s: string) {
    if args == [] then "" else Quoted(args[0]) + QuotedAll(args[1..])
  }

  // A word with no character the parser gives a meaning to, and that does not start a blank.
  ghost predicate Plain(s: string) {
    s != "" && forall i :: 0 <= i < |s| ==> PlainChar(s[i])
  }

  predicate PlainChar(c: char) {
    c as int < 256 && !IsQuote(c) && !IsSpace(c) && c !in {'\\', '$', '(', ')', '{', '}'}
  }

  ghost predicate Latin(s: string) {
    forall i :: 0 <= i < |s| ==> s[i] as int < 256
  }

  // The bracket depth after s, starting from depth; None when a closing bracket comes too early.
  function Depth(s: string, depth: nat): Option<nat> {
    if s == "" then Some(depth)
    else if s[0] == '(' then Depth(s[1..], depth + 1)
    else if s[0] == ')' then (if depth == 0 then None else Depth(s[1..], depth - 1))
    else Depth(s[1..], depth)
  }

  predicate Balanced(s: string) {
    Depth(s, 0) == Some(0)
  }

  // Inside double quotes, with no other state pending.
  ghost predicate InQuotes(st: State) {
    !st.escaped && st.quote == QUOTE && !st.inEnvVar && !st.expectingBrace
  }

  lemma RunTwo(st: State, a: char, b: char, mid: State, env: Env)
    requires Step(st, a, env) == Running(mid)
    ensures Run(st, [a, b], env) == Step(mid, b, env)
  {
    hide Step;
    assert [a, b] == [a] + [b];
    RunAppend(st, [a], [b], env);
    RunOne(st, a, env);
    RunOne(mid, b, env);
  }

  // What one character of an argument does inside double quotes, once its escape is undone.
  function InQuotesStep(st: State, c: char): Outcome {
    if c == '(' then Running(Write(st, [c]).(brackets := st.brackets + 1))
    else if c == ')' && st.brackets == 0 then Stopped(Parsed(st.subject, st.args, Some(UnterminatedBrackets), []))
    else if c == ')' then Running(Write(st, [c]).(brackets := st.brackets - 1))
    else Running(Write(st, [c]))
  }

  lemma StepRaw(st: State, c: char, env: Env)
    requires InQuotes(st) && c as int < 256 && c != '\\' && c != QUOTE && c != '$'
    ensures Step(st, c, env) == InQuotesStep(st, c)
  {
  }

  lemma StepEscaped(st: State, c: char, env: Env)
    requires InQuotes(st) && (c == '\\' || c == QUOTE)
    ensures Step(st, '\\', env) == Running(st.(escaped := true))
    ensures Step(st.(escaped := true), c, env) == Running(Write(st, [c]))
  {
  }

  lemma StepDollar(st: State, env: Env)
    requires InQuotes(st)
    ensures Step(st, '$', env) == Running(st.(expectingBrace := true))
    ensures Step(st.(expectingBrace := true), '$', env) == Running(Write(st, "$"))
  {
  }

  lemma RunEscapeChar(st: State, c: char, env: Env)
    requires InQuotes(st) && c as int < 256
    ensures Run(st, EscapeChar(c), env) == InQuotesStep(st, c)
  {
    hide Run, Step, Write;
    if c == '\\' || c == QUOTE {
      StepEscaped(st, c, env);
      RunTwo(st, '\\', c, st.(escaped := true), env);
    } else if c == '$' {
      StepDollar(st, env);
      RunTwo(st, '$', '$', st.(expectingBrace := true), env);
    } else {
      StepRaw(st, c, env);
      RunOne(st, c, env);
    }
  }

  lemma EscapeFirst(arg: string)
    requires arg != "" && Latin(arg)
    ensures arg[0] as int < 256 && Latin(arg[1..])
    ensures Escape(arg) == EscapeChar(arg[0]) + Escape(arg[1..])
  {
  }

  lemma DepthUnfold(arg: string, d: nat)
    requires arg != ""
    ensures Depth(arg, d) ==
            if arg[0] == '(' then Depth(arg[1..], d + 1)
            else if arg[0] == ')' then (if d == 0 then None else Depth(arg[1..], d - 1))
            else Depth(arg[1..], d)
  {
  }

  lemma DepthFirst(st: State, arg: string)
    requires arg != "" && InQuotes(st)
    ensures match InQuotesStep(st, arg[0])
            case Running(next) => InQuotes(next) && Depth(arg, st.brackets) == Depth(arg[1..], next.brackets)
            case Stopped(r) =>
              Depth(arg, st.brackets).None? && r == Parsed(st.subject, st.args, Some(UnterminatedBrackets), [])
  {
    hide Depth;
    DepthUnfold(arg, st.brackets);
  }

  lemma WriteFirst(st: State, arg: string, d: nat)
    requires arg != ""
    ensures match InQuotesStep(st, arg[0])
            case Running(next) =>
              && next.subject == st.subject && next.args == st.args
              && Write(next, arg[1..]).(brackets := d) == Write(st, arg).(brackets := d)
            case Stopped(r) => true
  {
    hide Depth;
    assert [arg[0]] + arg[1..] == arg;
    assert st.buf + [arg[0]] + arg[1..] == st.buf + arg;
  }

  // Scanning a written argument appends the argument itself, and follows its brackets.
  lemma {:induction false} RunEscape(st: State, arg: string, env: Env)
    requires InQuotes(st) && Latin(arg)
    ensures match Depth(arg, st.brackets)
            case Some(d) => Run(st, Escape(arg), env) == Running(Write(st, arg).(brackets := d))
            case None =>
              Run(st, Escape(arg), env) == Stopped(Parsed(st.subject, st.args, Some(UnterminatedBrackets), []))
    decreases |arg|
  {
    if arg == "" {
      assert Write(st, "") == st;
    } else {
      hide *;
      var c, rest := arg[0], arg[1..];
      EscapeFirst(arg);
      DepthFirst(st, arg);
      match Depth(arg, st.brackets) { case Some(d) => WriteFirst(st, arg, d); case None => WriteFirst(st, arg, 0); }
      RunAppend(st, EscapeChar(c), Escape(rest), env);
      RunEscapeChar(st, c, env);
      match InQuotesStep(st, c)
      case Running(next) =>
        RunEscape(next, rest, env);
      case Stopped(r) =>
    }
  }

  // ----- between arguments

  // Outside quotes with nothing pending but, perhaps, a plain word not yet ended.
  ghost predicate Settled(st: State) {
    && !st.escaped && st.quote == NO_QUOTE && !st.inEnvVar && !st.expectingBrace && st.brackets == 0
    && (st.buf == "" || Plain(st.buf))
    && (st.subject != "" || st.buf != "")
  }

  // The same with the word ended: it becomes the subject, or an argument when there is a subject.
  function Ended(st: State): State {
    if st.buf == "" then st
    else if st.subject == "" then st.(subject := st.buf, buf := "")
    else st.(args := st.args + [st.buf], buf := "")
  }

  lemma FlushSettled(st: State)
    requires Settled(st)
    ensures Flush(st, false) == Ended(st) && Settled(Ended(st)) && Ended(st).buf == "" && Ended(st).subject != ""
  {
    if st.buf != "" {
      assert PlainChar(st.buf[0]);
    }
  }

  lemma StepSpace(st: State, env: Env)
    requires Settled(st)
    ensures Step(st, ' ', env) == Running(Ended(st))
  {
    FlushSettled(st);
    hide Flush, Plain, Ended;
  }

  lemma FinishSettled(st: State)
    requires Settled(st)
    ensures Finish(st) == Parsed(Ended(st).subject, Ended(st).args, None, st.missing)
  {
    FlushSettled(st);
    hide Flush, Plain;
  }

  lemma {:induction false} RunPlain(st: State, s: string, env: Env)
    requires !st.escaped && st.quote == NO_QUOTE && !st.inEnvVar && !st.expectingBrace
    requires forall i :: 0 <= i < |s| ==> PlainChar(s[i])
    ensures Run(st, s, env) == Running(st.(buf := st.buf + s))
    decreases |s|
  {
    if s == "" {
      assert st.buf + s == st.buf;
    } else {
      assert PlainChar(s[0]);
      assert Step(st, s[0], env) == Running(st.(buf := st.buf + [s[0]]));
      RunPlain(st.(buf := st.buf + [s[0]]), s[1..], env);
      assert st.buf + [s[0]] + s[1..] == st.buf + s;
    }
  }

  lemma RunSubject(subject: string, env: Env)
    requires Plain(subject)
    ensures Run(START, subject, env) == Running(START.(buf := subject)) && Settled(START.(buf := subject))
    ensures Ended(START.(buf := subject)) == START.(subject := subject)
  {
    RunPlain(START, subject, env);
    assert "" + subject == subject;
    assert START.(buf := "") == START;
  }

  // ----- one argument

  lemma RunOpen(st: State, env: Env)
    requires Settled(st)
    ensures var inside := Ended(st).(quote := QUOTE); Run(st, " \"", env) == Running(inside) && InQuotes(inside)
  {
    FlushSettled(st);
    StepSpace(st, env);
    OpenQuote(Ended(st), env);
    hide Step, Run, Plain, Ended;
    RunTwo(st, ' ', QUOTE, Ended(st), env);
    assert " \"" == [' ', QUOTE];
  }

  lemma OpenQuote(st: State, env: Env)
    requires Settled(st) && st.buf == ""
    ensures Step(st, QUOTE, env) == Running(st.(quote := QUOTE))
  {
  }

  lemma RunClose(st: State, env: Env)
    requires InQuotes(st) && st.subject != ""
    ensures Run(st, "\"", env) == Running(st.(args := st.args + [st.buf], buf := "", quote := NO_QUOTE))
  {
    RunOne(st, QUOTE, env);
  }

  lemma RunQuoted(st: State, arg: string, env: Env)
    requires Settled(st) && Latin(arg)
    ensures var e := Ended(st);
            match Depth(arg, 0)
            case Some(d) => Run(st, Quoted(arg), env) == Running(e.(args := e.args + [arg], brackets := d))
            case None => Run(st, Quoted(arg), env) == Stopped(Parsed(e.subject, e.args, Some(UnterminatedBrackets), []))
  {
    FlushSettled(st);
    hide Step, Run, Escape, Flush, Ended;
    RunAppend(st, " \"" + Escape(arg), "\"", env);
    RunAppend(st, " \"", Escape(arg), env);
    RunOpen(st, env);
    var inside := Ended(st).(quote := QUOTE);
    RunEscape(inside, arg, env);
    if Depth(arg, 0).Some? {
      assert inside.buf + arg == arg;
      RunClose(Write(inside, arg).(brackets := Depth(arg, 0).value), env);
    }
  }

  lemma RunWord(st: State, word: string, env: Env)
    requires Settled(st) && Plain(word)
    ensures var next := Ended(st).(buf := word);
            Run(st, " " + word, env) == Running(next) && Settled(next) && Ended(next) == Ended(st).(args := Ended(st).args + [word])
  {
    FlushSettled(st);
    StepSpace(st, env);
    RunPlain(Ended(st), word, env);
    assert "" + word == word && (" " + word)[1..] == word;
    hide Step, Plain, Flush;
  }

  lemma {:induction false} RunName(st: State, name: string, env: Env)
    requires st.inEnvVar && !st.escaped && !st.expectingBrace && forall i :: 0 <= i < |name| ==> PlainChar(name[i])
    ensures Run(st, name, env) == Running(st.(envVar := st.envVar + name))
    decreases |name|
  {
    if name == "" {
      assert st.envVar + name == st.envVar;
    } else {
      assert PlainChar(name[0]);
      assert Step(st, name[0], env) == Running(st.(envVar := st.envVar + [name[0]]));
      RunName(st.(envVar := st.envVar + [name[0]]), name[1..], env);
      assert st.envVar + [name[0]] + name[1..] == st.envVar + name;
    }
  }

  // The state after a variable inside quotes.
  function Substituted(st: State, name: string, env: Env): State {
    match env(name)
    case Some(value) => Write(st, value).(envVar := name)
    case None => st.(missing := st.missing + [name], envVar := name)
  }

  lemma RunVariable(st: State, name: string, env: Env)
    requires InQuotes(st) && forall i :: 0 <= i < |name| ==> PlainChar(name[i])
    ensures Run(st, "${" + name + "}", env) == Running(Substituted(st, name, env)) && InQuotes(Substituted(st, name, env))
  {
    var reading := st.(inEnvVar := true, expectingBrace := false, envVar := "");
    assert Step(st, '$', env) == Running(st.(expectingBrace := true));
    assert Step(st.(expectingBrace := true), '{', env) == Running(reading);
    RunTwo(st, '$', '{', st.(expectingBrace := true), env);
    assert "${" == ['$', '{'];
    RunName(reading, name, env);
    assert "" + name == name;
    RunOne(reading.(envVar := name), '}', env);
    assert reading.(envVar := name).(inEnvVar := false) == st.(envVar := name);
    RunAppend(st, "${" + name, "}", env);
    RunAppend(st, "${", name, env);
    hide Run;
  }

  // ----- writing a directive

  // A plain word, a text in quotes, or a text in quotes with the value of a variable in it.
  datatype Arg = Word(word: string) | Text(text: string) | Var(before: string, name: string, after: string)

  ghost predicate Writable(a: Arg) {
    match a
    case Word(word) => Plain(word)
    case Text(text) => Latin(text) && Balanced(text)
    case Var(before, name, after) =>
      && Latin(before) && Balanced(before) && Latin(after) && Balanced(after)
      && forall i :: 0 <= i < |name| ==> PlainChar(name[i])
  }

  function WriteArg(a: Arg): string {
    match a
    case Word(word) => " " + word
    case Text(text) => Quoted(text)
    case Var(before, name, after) => " \"" + (Escape(before) + ("${" + name + "}" + (Escape(after) + "\"")))
  }

  function WriteAll(args: seq<Arg>): string {
    if args == [] then "" else WriteArg(args[0]) + WriteAll(args[1..])
  }

  // A variable that is not set stands for nothing, and is reported.
  function ValueOf(a: Arg, env: Env): string {
    match a
    case Word(word) => word
    case Text(text) => text
    case Var(before, name, after) => before + (if env(name).Some? then env(name).value else "") + after
  }

  function Values(args: seq<Arg>, env: Env): seq<string> {
    if args == [] then [] else [ValueOf(args[0], env)] + Values(args[1..], env)
  }

  function MissingIn(a: Arg, env: Env): seq<string> {
    if a.Var? && env(a.name).None? then [a.name] else []
  }

  function Missing(args: seq<Arg>, env: Env): seq<string> {
    if args == [] then [] else MissingIn(args[0], env) + Missing(args[1..], env)
  }

  lemma RunVar(st: State, before: string, name: string, after: string, env: Env)
    requires Settled(st) && Writable(Var(before, name, after))
    ensures var a := Var(before, name, after);
            var e := Ended(st);
            Run(st, WriteArg(a), env)
            == Running(e.(args := e.args + [ValueOf(a, env)], missing := e.missing + MissingIn(a, env), envVar := name))
  {
    FlushSettled(st);
    var inside := Ended(st).(quote := QUOTE);
    RunOpen(st, env);
    hide Step, Flush, Run, Ended, Plain, Latin, Escape;
    RunAppend(st, " \"", Escape(before) + ("${" + name + "}" + (Escape(after) + "\"")), env);
    RunEscape(inside, before, env);
    RunAppend(inside, Escape(before), "${" + name + "}" + (Escape(after) + "\""), env);
    var one := Write(inside, before).(brackets := 0);
    RunVariable(one, name, env);
    RunAppend(one, "${" + name + "}", Escape(after) + "\"", env);
    var two := Substituted(one, name, env);
    RunEscape(two, after, env);
    RunAppend(two, Escape(after), "\"", env);
    RunClose(Write(two, after).(brackets := 0), env);
    hide Depth;
    assert Ended(st).buf + before == before;
    assert env(name).None? ==> before + "" == before;
    assert MissingIn(Var(before, name, after), env) == [] ==> Ended(st).missing + [] == Ended(st).missing;
  }

  // One argument more.
  lemma RunArg(st: State, a: Arg, env: Env) returns (next: State)
    requires Settled(st) && Writable(a)
    ensures Run(st, WriteArg(a), env) == Running(next) && Settled(next)
    ensures Ended(next).subject == Ended(st).subject && Ended(next).args == Ended(st).args + [ValueOf(a, env)]
    ensures next.missing == st.missing + MissingIn(a, env)
  {
    FlushSettled(st);
    assert st.missing + [] == st.missing;
    match a
    case Word(word) =>
      next := Ended(st).(buf := word);
      RunWord(st, word, env);
    case Text(text) =>
      next := Ended(st).(args := Ended(st).args + [text]);
      RunQuoted(st, text, env);
    case Var(before, name, after) =>
      next := Ended(st).(args := Ended(st).args + [ValueOf(a, env)], missing := Ended(st).missing + MissingIn(a, env), envVar := name);
      RunVar(st, before, name, after, env);
  }

  lemma {:induction false} RunArgs(st: State, args: seq<Arg>, env: Env) returns (last: State)
    requires Settled(st) && forall i :: 0 <= i < |args| ==> Writable(args[i])
    ensures Run(st, WriteAll(args), env) == Running(last) && Settled(last)
    ensures Ended(last).subject == Ended(st).subject && Ended(last).args == Ended(st).args + Values(args, env)
    ensures last.missing == st.missing + Missing(args, env)
    decreases |args|
  {
    last := st;
    hide Step, Settled, Ended, WriteArg, Writable, ValueOf, MissingIn;
    if args != [] {
      var next := RunArg(st, args[0], env);
      RunAppend(st, WriteArg(args[0]), WriteAll(args[1..]), env);
      hide Run;
      last := RunArgs(next, args[1..], env);
      assert Ended(st).args + ([ValueOf(args[0], env)] + Values(args[1..], env)) == Ended(st).args + [ValueOf(args[0], env)] + Values(args[1..], env);
      assert st.missing + (MissingIn(args[0], env) + Missing(args[1..], env)) == st.missing + MissingIn(args[0], env) + Missing(args[1..], env);
    }
  }

  // Writing a directive from words, quoted texts and variables and parsing it gives all of them back, in order, with
  // the variables' values, and reports exactly the variables that are not set.
  lemma WritingIsFaithful(subject: string, args: seq<Arg>, env: Env)
    requires Plain(subject) && forall i :: 0 <= i < |args| ==> Writable(args[i])
    ensures ParseText(subject + WriteAll(args), env) == Parsed(subject, Values(args, env), None, Missing(args, env))
  {
    hide Step, Run, WriteAll, Plain, Settled, Ended, Writable, Values, Missing;
    RunAppend(START, subject, WriteAll(args), env);
    RunSubject(subject, env);
    var last := RunArgs(START.(buf := subject), args, env);
    FinishSettled(last);
    assert [] + Values(args, env) == Values(args, env) && [] + Missing(args, env) == Missing(args, env);
  }

  function Texts(args: seq<string>): (r: seq<Arg>)
    ensures |r| == |args| && forall i :: 0 <= i < |r| ==> r[i] == Text(args[i])
  {
    if args == [] then [] else [Text(args[0])] + Texts(args[1..])
  }

  lemma {:induction false} TextsAre(args: seq<string>, env: Env)
    ensures WriteAll(Texts(args)) == QuotedAll(args) && Values(Texts(args), env) == args && Missing(Texts(args), env) == []
    decreases |args|
  {
    if args != [] {
      TextsAre(args[1..], env);
      assert Texts(args)[1..] == Texts(args[1..]);
    }
  }

  // ----- what is read from quoted arguments, balanced or not

  // No escape, dollar sign or variable is pending.
  ghost predicate Quiet(st: State) {
    !st.escaped && !st.expectingBrace && !st.inEnvVar
  }

  // No quote and no bracket is open.
  ghost predicate Closed(st: State) {
    st.quote == NO_QUOTE && st.brackets == 0
  }

  ghost predicate Failed(r: ParseResult) {
    r.Crash? || r.err.Some?
  }

  lemma FlushKeepsRest(st: State, quoted: bool)
    ensures var f := Flush(st, quoted); f == st.(buf := f.buf, subject := f.subject, args := f.args)
  {
    hide TrimLeft;
  }

  // What such a character does to quotes and brackets: a quotation mark opens where nothing is open, and closes its own kind.
  lemma QuietStep(st: State, c: char, env: Env)
    requires Quiet(st) && c != '\\' && c != '$'
    ensures match Step(st, c, env)
            case Running(next) =>
              && Quiet(next) && c as int < 256
              && next.quote == (if !IsQuote(c) then st.quote else if Closed(st) then c else if c == st.quote then NO_QUOTE else st.quote)
              && (c != '(' && c != ')' ==> next.brackets == st.brackets)
            case Stopped(r) => Failed(r)
  {
    FlushKeepsRest(st, false);
    FlushKeepsRest(st, true);
    hide Flush;
  }

  lemma EscapeCharQuiet(st: State, c: char, env: Env)
    requires Quiet(st)
    ensures match Run(st, EscapeChar(c), env)
            case Running(next) => Quiet(next) && c as int < 256 && (next.quote == QUOTE ==> st.quote == QUOTE)
            case Stopped(r) => Failed(r)
  {
    if c == '\\' || c == QUOTE {
      assert Step(st, '\\', env) == Running(st.(escaped := true));
      assert Step(st.(escaped := true), c, env) == Running(Write(st, [c]));
      RunTwo(st, '\\', c, st.(escaped := true), env);
    } else if c == '$' {
      assert Step(st, '$', env) == Running(st.(expectingBrace := true));
      assert Step(st.(expectingBrace := true), '$', env) == Running(Write(st, "$"));
      RunTwo(st, '$', '$', st.(expectingBrace := true), env);
    } else {
      QuietStep(st, c, env);
      RunOne(st, c, env);
    }
  }

  // An escaped argument holds no quotation mark of its own, in whatever state it is read.
  lemma {:induction false} EscapeQuiet(st: State, arg: string, env: Env)
    requires Quiet(st)
    ensures match Run(st, Escape(arg), env)
            case Running(next) => Quiet(next) && Latin(arg) && (next.quote == QUOTE ==> st.quote == QUOTE)
            case Stopped(r) => Failed(r)
    decreases |arg|
  {
    if arg != "" {
      hide Step, EscapeChar, Quiet, Failed;
      EscapeCharQuiet(st, arg[0], env);
      RunAppend(st, EscapeChar(arg[0]), Escape(arg[1..]), env);
      assert [arg[0]] + arg[1..] == arg;
      match Run(st, EscapeChar(arg[0]), env)
      case Running(next) => EscapeQuiet(next, arg[1..], env);
      case Stopped(_) =>
    }
  }

  // An argument after which nothing is open was read from a state in which nothing was, and is balanced: its last mark
  // closes a quote that its first one has opened.
  lemma QuotedCloses(st: State, arg: string, env: Env)
    requires Quiet(st)
    ensures match Run(st, Quoted(arg), env)
            case Running(next) => Quiet(next) && (Closed(next) ==> Closed(st) && Kept(arg))
            case Stopped(r) => Failed(r)
  {
    RunAppend(st, " \"" + Escape(arg), "\"", env);
    RunAppend(st, " \"", Escape(arg), env);
    RunAppend(st, " ", "\"", env);
    RunOne(st, ' ', env);
    QuietStep(st, ' ', env);
    assert " \"" == " " + "\"" && " " == [' '] && "\"" == [QUOTE];
    hide Step, Run, Escape, Failed, Depth;
    match Run(st, " ", env)
    case Stopped(_) =>
    case Running(one) =>
      RunOne(one, QUOTE, env);
      QuietStep(one, QUOTE, env);
      match Run(one, "\"", env) {
      case Stopped(_) =>
      case Running(two) =>
        EscapeQuiet(two, arg, env);
        match Run(two, Escape(arg), env) {
        case Stopped(_) =>
        case Running(three) =>
          RunOne(three, QUOTE, env);
          QuietStep(three, QUOTE, env);
          if two.quote == QUOTE {
            RunEscape(two, arg, env);
          }
        }
      }
  }

  // The argument is read back from quotes.
  ghost predicate Kept(arg: string) {
    Latin(arg) && Balanced(arg)
  }

  // So a list after which nothing is open was read from such a state, and every argument of it is balanced: from its end on
  // each must have left nothing open for the next.
  lemma {:induction false} ListCloses(st: State, args: seq<string>, env: Env)
    requires Quiet(st)
    ensures match Run(st, QuotedAll(args), env)
            case Running(last) => Quiet(last) && (Closed(last) ==> Closed(st) && forall i :: 0 <= i < |args| ==> Kept(args[i]))
            case Stopped(r) => Failed(r)
    decreases |args|
  {
    if args != [] {
      hide Step, Quoted, Quiet, Closed, Kept, Failed;
      QuotedCloses(st, args[0], env);
      RunAppend(st, Quoted(args[0]), QuotedAll(args[1..]), env);
      match Run(st, Quoted(args[0]), env)
      case Stopped(_) =>
      case Running(next) =>
        ListCloses(next, args[1..], env);
        assert forall i :: 1 <= i < |args| ==> args[i] == args[1..][i - 1];
    }
  }

  lemma FinishClosed(st: State)
    requires Quiet(st)
    ensures Failed(Finish(st)) <==> !Closed(st)
  {
    hide Flush;
  }

  // Quoted arguments come back as they were, without an error, exactly when each of them keeps its brackets balanced; in
  // all other cases there is an error. Brackets left open in one argument are never made good by a later one.
  lemma QuotingIsFaithful(subject: string, args: seq<string>, env: Env)
    requires Plain(subject)
    ensures var r := ParseText(subject + QuotedAll(args), env);
            && (r == Parsed(subject, args, None, []) <==> forall i :: 0 <= i < |args| ==> Kept(args[i]))
            && (Failed(r) <==> exists i :: 0 <= i < |args| && !Kept(args[i]))
  {
    if forall i :: 0 <= i < |args| ==> Kept(args[i]) {
      AllKept(args);
      hide ParseText, Plain, Writable, QuotedAll, WriteAll, Values, Missing;
      TextsAre(args, env);
      WritingIsFaithful(subject, Texts(args), env);
    } else {
      hide ParseText, Plain, Kept, QuotedAll;
      BadListFails(subject, args, env);
    }
  }

  lemma AllKept(args: seq<string>)
    requires forall i :: 0 <= i < |args| ==> Kept(args[i])
    ensures forall i :: 0 <= i < |Texts(args)| ==> Writable(Texts(args)[i])
  {
    hide Latin, Balanced;
    assert forall i :: 0 <= i < |args| ==> Kept(args[i]) && Texts(args)[i] == Text(args[i]);
  }

  lemma BadListFails(subject: string, args: seq<string>, env: Env)
    requires Plain(subject) && exists i :: 0 <= i < |args| && !Kept(args[i])
    ensures Failed(ParseText(subject + QuotedAll(args), env))
  {
    RunSubject(subject, env);
    hide Step, Run, QuotedAll, Plain, Kept, Closed, Failed, Finish;
    RunAppend(START, subject, QuotedAll(args), env);
    var ready := START.(buf := subject);
    ListCloses(ready, args, env);
    match Run(ready, QuotedAll(args), env)
    case Stopped(_) =>
    case Running(last) => FinishClosed(last);
  }

  // One quoted argument comes back, without an error, exactly when its brackets balance.
  lemma QuotingOneExactly(subject: string, arg: string, env: Env)
    requires Plain(subject) && Latin(arg)
    ensures ParseText(subject + Quoted(arg), env) == Parsed(subject, [arg], None, []) <==> Balanced(arg)
    ensures var r := ParseText(subject + Quoted(arg), env); r.Parsed? && (r.err.None? || r.err == Some(UnterminatedBrackets))
  {
    hide Step, Run, Plain, Settled, Ended;
    RunAppend(START, subject, Quoted(arg), env);
    RunSubject(subject, env);
    RunQuoted(START.(buf := subject), arg, env);
    assert START.args + [arg] == [arg];
    if Depth(arg, 0) == Some(0) {
      var st := START.(subject := subject, args := [arg]);
      assert Settled(st) && Ended(st) == st by { SettledDone(st); }
      FinishSettled(st);
    }
  }

  lemma SettledDone(st: State)
    requires st.buf == "" && st.subject != "" && st == START.(subject := st.subject, args := st.args)
    ensures Settled(st) && Ended(st) == st
  {
  }

  // Instances: an argument that opens a parenthesis, or closes one too many, is refused in quotes too; and one that
  // opens it is not made good by a next one that closes it.
  lemma UnbalancedIsRefused(env: Env)
    ensures Failed(ParseText("error" + QuotedAll(["("]), env))
    ensures Failed(ParseText("error" + QuotedAll([")"]), env))
    ensures Failed(ParseText("error" + QuotedAll(["(", ")"]), env))
  {
    assert Plain("error");
    assert Depth("(", 0) == Some(1) by { assert "("[1..] == ""; }
    assert !Balanced(["("][0]) && !Balanced([")"][0]) && !Balanced(["(", ")"][0]);
    hide ParseText, Depth, Balanced, Failed;
    QuotingIsFaithful("error", ["("], env);
    QuotingIsFaithful("error", [")"], env);
    QuotingIsFaithful("error", ["(", ")"], env);
  }
}
