/** What the parser of directives makes of escapes, of each kind of quotes, and of what is left open. */
module RuleParserLaws {
  import opened Chars
  import opened Options
  import opened RuleParser

  // ----- escapes

  // What a backslash and a character stand for: a line break, a tab, a carriage return, a quote, a backslash or a blank; or
  // themselves.
  function Meant(c: char): string {
    match c
    case 'n' => "\n"
    case 't' => "\t"
    case 'r' => "\r"
    case '\'' => "'"
    case '"' => "\""
    case '\\' => "\\"
    case ' ' => " "
    case _ => ['\\', c]
  }

  // So in any state, in quotes or not; a dollar sign before it stands for itself.
  lemma EscapeMeans(st: State, c: char, env: Env)
    requires !st.escaped
    ensures Run(st, ['\\', c], env)
            == Running(st.(buf := st.buf + (if st.expectingBrace then "$" else "") + Meant(c), expectingBrace := false))
  {
    var one := if st.expectingBrace then Write(st, "$").(expectingBrace := false) else st;
    assert Step(st, '\\', env) == Running(one.(escaped := true));
    RunTwo(st, '\\', c, one.(escaped := true), env);
    assert st.buf + "" == st.buf;
  }

  // A dollar sign that is followed by neither another one nor a brace stands for itself, and two for one.
  lemma DollarMeans(st: State, c: char, env: Env)
    requires !st.escaped && !st.expectingBrace && !st.inEnvVar
    ensures Run(st, "$$", env) == Running(st.(buf := st.buf + "$"))
    ensures PlainChar(c) ==> Run(st, ['$', c], env) == Running(st.(buf := st.buf + "$" + [c]))
  {
    var open := st.(expectingBrace := true);
    assert Step(st, '$', env) == Running(open);
    RunTwo(st, '$', '$', open, env);
    assert "$$" == ['$', '$'];
    RunTwo(st, '$', c, open, env);
  }

  // Braces by themselves stand for themselves.
  lemma BraceMeans(st: State, env: Env)
    requires !st.escaped && !st.expectingBrace && !st.inEnvVar
    ensures Step(st, '{', env) == Running(st.(buf := st.buf + "{")) && Step(st, '}', env) == Running(st.(buf := st.buf + "}"))
  {
  }

  // ----- the three kinds of quotes

  // A character that stands for itself within the quotes q: a blank and the other quotes do, too.
  predicate QuotedChar(q: char, c: char) {
    c as int < 256 && c != q && c !in {'\\', '$', '(', ')', '{', '}'}
  }

  lemma {:induction false} RunQuotedChars(st: State, text: string, env: Env)
    requires !st.escaped && st.quote in {'"', '\'', '`'} && !st.inEnvVar && !st.expectingBrace
    requires forall i :: 0 <= i < |text| ==> QuotedChar(st.quote, text[i])
    ensures Run(st, text, env) == Running(st.(buf := st.buf + text))
    decreases |text|
  {
    if text == "" {
      assert st.buf + text == st.buf;
    } else {
      assert QuotedChar(st.quote, text[0]);
      assert Step(st, text[0], env) == Running(st.(buf := st.buf + [text[0]]));
      RunQuotedChars(st.(buf := st.buf + [text[0]]), text[1..], env);
      assert st.buf + [text[0]] + text[1..] == st.buf + text;
    }
  }

  // After a subject, a text in quotes of any kind is one argument, as it stands.
  lemma QuotesMean(subject: string, q: char, text: string, env: Env)
    requires Plain(subject) && q in {'"', '\'', '`'} && forall i :: 0 <= i < |text| ==> QuotedChar(q, text[i])
    ensures ParseText(subject + (" " + ([q] + (text + [q]))), env) == Parsed(subject, [text], None, [])
    ensures ParseText(subject + (" " + ([q] + text)), env) == Parsed(subject, [], Some(UnterminatedQuotes), [])
  {
    var ready := START.(buf := subject);
    var named := START.(subject := subject);
    var inside := named.(quote := q);
    RunSubject(subject, env);
    FlushSettled(ready);
    hide Plain;
    assert Step(ready, ' ', env) == Running(named);
    assert Step(named, q, env) == Running(inside) by { assert Flush(named, false) == named; }
    RunAppend(START, subject, " " + ([q] + (text + [q])), env);
    RunAppend(START, subject, " " + ([q] + text), env);
    hide Flush, Step;
    RunFirst(ready, ' ', [q] + (text + [q]), named, env);
    RunFirst(ready, ' ', [q] + text, named, env);
    RunFirst(named, q, text + [q], inside, env);
    RunFirst(named, q, text, inside, env);
    RunQuotedChars(inside, text, env);
    RunAppend(inside, text, [q], env);
    CloseQuote(subject, q, text, env);
    hide Run;
  }

  lemma RunFirst(st: State, c: char, rest: string, next: State, env: Env)
    requires Step(st, c, env) == Running(next)
    ensures Run(st, [c] + rest, env) == Run(next, rest, env)
  {
    assert ([c] + rest)[1..] == rest;
    hide Step;
  }

  lemma CloseQuote(subject: string, q: char, text: string, env: Env)
    requires subject != "" && q in {'"', '\'', '`'}
    ensures var st := START.(subject := subject, quote := q, buf := "" + text);
            && Run(st, [q], env) == Running(START.(subject := subject, args := [text]))
            && Finish(st) == Parsed(subject, [], Some(UnterminatedQuotes), [])
    ensures Finish(START.(subject := subject, args := [text])) == Parsed(subject, [text], None, [])
  {
    var st := START.(subject := subject, quote := q, buf := "" + text);
    RunOne(st, q, env);
    assert "" + text == text && [] + [text] == [text];
  }

  // ----- what is left open

  // A bracket that is not closed, one that was not opened, and a variable that is not ended are errors.
  lemma OpenEnds(subject: string, text: string, env: Env)
    requires Plain(subject) && forall i :: 0 <= i < |text| ==> PlainChar(text[i])
    ensures ParseText(subject + ("(" + text), env) == Parsed("", [], Some(UnterminatedBrackets), [])
    ensures ParseText(subject + (")" + text), env) == Parsed("", [], Some(UnterminatedBrackets), [])
    ensures ParseText(subject + ("$" + ("{" + text)), env) == Parsed("", [], Some(UnterminatedEnvVar), [])
  {
    var ready := START.(buf := subject);
    RunSubject(subject, env);
    hide Plain;
    RunAppend(START, subject, "(" + text, env);
    RunAppend(START, subject, ")" + text, env);
    RunAppend(START, subject, "$" + ("{" + text), env);
    var open := ready.(buf := subject + "(", brackets := 1);
    assert Step(ready, '(', env) == Running(open);
    assert Step(ready, ')', env) == Stopped(Parsed("", [], Some(UnterminatedBrackets), []));
    assert Step(ready, '$', env) == Running(ready.(expectingBrace := true));
    var inVar := ready.(inEnvVar := true, envVar := "");
    assert Step(ready.(expectingBrace := true), '{', env) == Running(inVar);
    hide Step;
    RunFirst(ready, '(', text, open, env);
    RunFirst(ready, '$', "{" + text, ready.(expectingBrace := true), env);
    RunFirst(ready.(expectingBrace := true), '{', text, inVar, env);
    assert Run(ready, ")" + text, env) == Stopped(Parsed("", [], Some(UnterminatedBrackets), []));
    RunPlain(open, text, env);
    RunName(inVar, text, env);
    hide Run, Flush;
  }
}
