/**
 What follows a dollar sign in a template: which names there are, and every way to write one wrong.
 */
module VarsNames {
  import opened Chars
  import opened Decimal
  import opened Options
  import opened Vars
  import opened VarsArguments

  // The variables without arguments: eleven of the request, three of the client, six of the upstream and three of the
  // response.
  const PLAIN: seq<string> := [
    "req_method", "req_scheme", "req_host", "req_port", "req_path", "req_addr", "req_query", "req_url", "req_uri",
    "req_content_type", "req_content_length", "remote_host", "remote_port", "remote_addr",
    "upstream_name", "upstream_scheme", "upstream_host", "upstream_port", "upstream_addr", "upstream_url",
    "resp_content_type", "resp_content_length", "status_code"
  ]

  lemma PlainIff(name: string)
    ensures name in PLAIN <==> IsStatic(name)
  {
  }

  ghost predicate Letters(s: string) {
    forall i :: 0 <= i < |s| ==> 'a' <= s[i] <= 'z' || 'A' <= s[i] <= 'Z' || s[i] == '_'
  }

  // A name is read as far as its letters and underscores go. A plain variable stands for itself, a function has to have
  // arguments, and any other name is a mistake.
  lemma NameRead(name: string, rest: string)
    requires name != "" && Letters(name) && (rest != "" ==> !Letters(rest[..1]))
    ensures var t := Compile("$" + (name + rest));
            if name in {"header", "resp_header", "arg", "form", "postform"} then
              '(' !in rest ==> t == Template([], Some(UnterminatedParenthesis))
            else t == if name in PLAIN then Cons(Static(name), Compile(rest)) else Template([], Some(UnexpectedVar))
  {
    hide *;
    PlainIff(name);
    NameCut(name, rest);
    var s := "$" + (name + rest);
    Dollar(name, rest);
    CompileAtVar(s);
    if name !in {"header", "resp_header", "arg", "form", "postform"} {
      PlainName(name, rest);
    } else if '(' !in rest {
      NoArguments(name, rest);
    }
  }

  // The name ends where it should.
  lemma NameCut(name: string, rest: string)
    requires name != "" && Letters(name) && (rest != "" ==> !Letters(rest[..1]))
    ensures NameLength(name + rest) == |name| && (name + rest)[..|name|] == name && (name + rest)[|name|..] == rest
    ensures '(' !in name && IsNameChar(name[0])
  {
    LettersAre(name);
    if rest != "" {
      LettersAre(rest[..1]);
      assert rest[..1][0] == rest[0];
    }
    NameBefore(name, rest);
  }

  lemma PlainName(name: string, rest: string)
    requires name != "" && NameLength(name + rest) == |name| && (name + rest)[..|name|] == name && (name + rest)[|name|..] == rest
    requires name !in {"header", "resp_header", "arg", "form", "postform"}
    ensures CompileVar(name + rest) == if IsStatic(name) then Cons(Static(name), Compile(rest)) else Template([], Some(UnexpectedVar))
  {
    hide IsStatic, Compile, NameLength, ExtractArgs, GetKeyAndIndex;
  }

  lemma NoArguments(name: string, rest: string)
    requires name != "" && NameLength(name + rest) == |name| && (name + rest)[..|name|] == name
    requires name in {"header", "resp_header", "arg", "form", "postform"} && '(' !in name && '(' !in rest
    ensures CompileVar(name + rest) == Template([], Some(UnterminatedParenthesis))
  {
    assert '(' !in name + rest;
    hide IsStatic, Compile, NameLength, GetKeyAndIndex, ScanArgs, ParenAt;
  }

  lemma LettersAre(s: string)
    ensures Letters(s) <==> AllName(s)
  {
  }

  // A dollar sign that is doubled or before a brace is text; one at the end or before anything else is a mistake.
  lemma DollarRead(rest: string)
    ensures Compile("$") == Template([], Some(UnterminatedVar))
    ensures Compile("$$" + rest) == Cons(Lit("$"), Compile(rest))
    ensures Compile("${" + rest) == Cons(Lit("${"), Compile(rest))
    ensures rest != "" && !Letters(rest[..1]) && rest[0] != '$' && rest[0] != '{' ==>
              Compile("$" + rest) == Template([], Some(UnterminatedVar))
  {
    var a, b, c := "$$" + rest, "${" + rest, "$" + rest;
    assert a[0] == '$' && a[1] == '$' && a[2..] == rest;
    assert b[0] == '$' && b[1] == '{' && b[2..] == rest;
    assert c[0] == '$' && c[1..] == rest;
    if rest != "" {
      LettersAre(rest[..1]);
      assert rest[..1][0] == rest[0] == c[1];
    }
  }

  // Any other character stands for itself.
  lemma TextRead(c: char, rest: string)
    requires c != '$'
    ensures Compile([c] + rest) == Cons(Lit([c]), Compile(rest))
  {
    var s := [c] + rest;
    assert s[0] == c && s[1..] == rest;
  }

  // Arguments that are not closed: within a quoted text, or outside.
  lemma OpenArguments(name: string, q: char, text: string)
    requires name in {"header", "resp_header", "arg", "form", "postform"} && q in {'"', '\'', '`'}
    ensures q !in text ==> Compile("$" + (name + ("(" + ([q] + text)))) == Template([], Some(UnterminatedQuotes))
    ensures (forall c :: c in text ==> c !in {'"', '\'', '`', ')'}) ==>
              Compile("$" + (name + ("(" + text))) == Template([], Some(UnterminatedParenthesis))
  {
    assert IsDynamic(name);
    hide *;
    if q !in text {
      QuoteOpens(q, text);
      OpenAt(name, [q] + text, UnterminatedQuotes);
    }
    if forall c :: c in text ==> c !in {'"', '\'', '`', ')'} {
      NeverClosed(text, "", []);
      OpenAt(name, text, UnterminatedParenthesis);
    }
  }

  lemma OpenAt(name: string, inner: string, e: Error)
    requires IsDynamic(name) && ScanArgs(inner, None, "", []) == BadArgs(e)
    ensures Compile("$" + (name + ("(" + inner))) == Template([], Some(e))
  {
    hide *;
    var s := "$" + (name + ("(" + inner));
    DynamicNames(name);
    NameStarts(name);
    Dollar(name, "(" + inner);
    ParenNoName(inner);
    NameBefore(name, "(" + inner);
    NoParenInName(name, inner);
    assert name + ("(" + inner) == name + "(" + inner;
    ExtractAt(name, inner);
    CompileAtVar(s);
    OpenVar(s[1..], name, e);
  }

  lemma OpenVar(s: string, name: string, e: Error)
    requires name != "" && IsDynamic(name) && NameLength(s) == |name| && s[..|name|] == name && ExtractArgs(s) == BadArgs(e)
    ensures CompileVar(s) == Template([], Some(e))
  {
    hide IsDynamic, IsStatic, Atoi, ExtractArgs, NameLength, Compile, GetKeyAndIndex;
  }

  lemma QuoteOpens(q: char, text: string)
    requires q in {'"', '\'', '`'} && q !in text
    ensures ScanArgs([q] + text, None, "", []) == BadArgs(UnterminatedQuotes)
  {
    var s := [q] + text;
    assert s[0] == q && s[1..] == text;
    QuoteStays(q, text, "", []);
  }

  lemma {:induction false} QuoteStays(q: char, text: string, arg: string, args: seq<string>)
    requires q !in text
    ensures ScanArgs(text, Some(q), arg, args) == BadArgs(UnterminatedQuotes)
    decreases |text|
  {
    if text != "" {
      QuoteStays(q, text[1..], arg + [text[0]], args);
    }
  }

  lemma {:induction false} NeverClosed(text: string, arg: string, args: seq<string>)
    requires forall c :: c in text ==> c !in {'"', '\'', '`', ')'}
    ensures ScanArgs(text, None, arg, args) == BadArgs(UnterminatedParenthesis)
    decreases |text|
  {
    if text != "" {
      assert text[0] in text && forall c :: c in text[1..] ==> c in text;
      hide WithArg;
      NeverClosed(text[1..], "", WithArg(args, arg));
      NeverClosed(text[1..], arg, args);
      NeverClosed(text[1..], arg + [text[0]], args);
    }
  }
}
