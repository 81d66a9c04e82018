/**
 The arguments of a variable in a template, as they can be written: bare or in any quotes, and how many there are.
 */
module VarsArguments {
  import opened Chars
  import opened Decimal
  import opened Options
  import opened Vars

  // An argument as it stands: without quotes, or between two of the same kind.
  datatype Written = Bare(word: string) | InQuotes(q: char, text: string)

  // Nothing that ends an argument, opens a quote or is skipped.
  predicate BareChar(c: char) {
    c !in {'"', '\'', '`', ')', ',', ' ', '\t', '\n', '\r'}
  }

  ghost predicate WritableArg(a: Written) {
    match a
    case Bare(word) => word != "" && forall i :: 0 <= i < |word| ==> BareChar(word[i])
    case InQuotes(q, text) => q in {'"', '\'', '`'} && q !in text
  }

  function ArgText(a: Written): string {
    match a
    case Bare(word) => word
    case InQuotes(q, text) => [q] + (text + [q])
  }

  function ArgValue(a: Written): string {
    match a
    case Bare(word) => word
    case InQuotes(_, text) => text
  }

  // With a comma, and a blank if wanted, between them.
  function ListText(args: seq<Written>, gap: string): string {
    if args == [] then "" else if |args| == 1 then ArgText(args[0]) else ArgText(args[0]) + ("," + (gap + ListText(args[1..], gap)))
  }

  function ListValues(args: seq<Written>): (r: seq<string>)
    ensures |r| == |args| && forall i :: 0 <= i < |r| ==> r[i] == ArgValue(args[i])
  {
    if args == [] then [] else [ArgValue(args[0])] + ListValues(args[1..])
  }

  ghost predicate BlankText(s: string) {
    forall i :: 0 <= i < |s| ==> s[i] in {' ', '\t', '\n', '\r'}
  }

  lemma {:induction false} BlanksSkipped(s: string, rest: string, args: seq<string>)
    requires BlankText(s)
    ensures ScanArgs(s + rest, None, "", args) == ScanArgs(rest, None, "", args)
  {
    if s == "" {
      assert s + rest == rest;
    } else {
      assert (s + rest)[0] == s[0] && (s + rest)[1..] == s[1..] + rest;
      BlanksSkipped(s[1..], rest, args);
    }
  }

  lemma {:induction false} BareRead(word: string, rest: string, arg: string, args: seq<string>)
    requires forall i :: 0 <= i < |word| ==> BareChar(word[i])
    ensures ScanArgs(word + rest, None, arg, args) == ScanArgs(rest, None, arg + word, args)
    decreases |word|
  {
    if word == "" {
      assert word + rest == rest && arg + word == arg;
    } else {
      assert (word + rest)[0] == word[0] && (word + rest)[1..] == word[1..] + rest;
      BareRead(word[1..], rest, arg + [word[0]], args);
      assert arg + [word[0]] + word[1..] == arg + word;
    }
  }

  lemma {:induction false} QuotedRead(q: char, text: string, rest: string, arg: string, args: seq<string>)
    requires q !in text
    ensures ScanArgs(text + ([q] + rest), Some(q), arg, args) == ScanArgs(rest, None, "", args + [arg + text])
    decreases |text|
  {
    var s := text + ([q] + rest);
    if text == "" {
      assert s[0] == q && s[1..] == rest && arg + text == arg;
    } else {
      assert s[0] == text[0] && s[1..] == text[1..] + ([q] + rest);
      QuotedRead(q, text[1..], rest, arg + [text[0]], args);
      assert arg + [text[0]] + text[1..] == arg + text;
    }
  }

  // Where an argument ends: at a comma, or at the closing parenthesis.
  lemma ArgRead(a: Written, c: char, rest: string, args: seq<string>)
    requires WritableArg(a) && (c == ',' || c == ')')
    ensures ScanArgs(ArgText(a) + ([c] + rest), None, "", args)
            == if c == ',' then ScanArgs(rest, None, "", args + [ArgValue(a)]) else Scanned(args + [ArgValue(a)], rest)
  {
    var after := [c] + rest;
    assert after[0] == c && after[1..] == rest;
    match a
    case Bare(word) =>
      BareRead(word, after, "", args);
      assert "" + word == word;
    case InQuotes(q, text) =>
      var s := [q] + (text + [q]) + after;
      assert s[0] == q && s[1..] == text + ([q] + after);
      QuotedRead(q, text, after, "", args);
      assert "" + text == text;
  }

  lemma ListEnds(rest: string, done: seq<string>)
    ensures ScanArgs(")" + rest, None, "", done) == Scanned(done, rest)
  {
    assert (")" + rest)[0] == ')' && (")" + rest)[1..] == rest;
  }

  lemma ListMore(args: seq<Written>, gap: string, after: string)
    requires |args| > 1
    ensures ListText(args, gap) + after == ArgText(args[0]) + ([','] + (gap + (ListText(args[1..], gap) + after)))
  {
    var a, b := ArgText(args[0]), ListText(args[1..], gap);
    hide ListText;
    assert a + ("," + (gap + b)) + after == a + ([','] + (gap + (b + after)));
  }

  lemma ValuesMore(args: seq<Written>, done: seq<string>)
    requires args != []
    ensures done + ListValues(args) == done + [ArgValue(args[0])] + ListValues(args[1..])
  {
    hide ArgValue;
  }

  lemma {:induction false} ListRead(args: seq<Written>, gap: string, rest: string, done: seq<string>)
    requires BlankText(gap) && forall i :: 0 <= i < |args| ==> WritableArg(args[i])
    ensures ScanArgs(ListText(args, gap) + (")" + rest), None, "", done) == Scanned(done + ListValues(args), rest)
    decreases |args|
  {
    var after := ")" + rest;
    hide ScanArgs, ArgText, ArgValue, WritableArg;
    if args == [] {
      ListEnds(rest, done);
      assert ListText(args, gap) + after == after && done + ListValues(args) == done;
    } else if |args| == 1 {
      assert after == [')'] + rest;
      ArgRead(args[0], ')', rest, done);
      assert ListValues(args) == [ArgValue(args[0])];
    } else {
      var tail := ListText(args[1..], gap) + after;
      ListMore(args, gap, after);
      ValuesMore(args, done);
      hide ListText, ListValues;
      ArgRead(args[0], ',', gap + tail, done);
      BlanksSkipped(gap, tail, done + [ArgValue(args[0])]);
      ListRead(args[1..], gap, rest, done + [ArgValue(args[0])]);
    }
  }

  // A variable with its arguments and what follows it.
  function VariableText(name: string, args: seq<Written>, gap: string, rest: string): string {
    "$" + (name + ("(" + (ListText(args, gap) + (")" + rest))))
  }

  lemma ArgumentsRead(name: string, args: seq<Written>, gap: string, rest: string)
    requires IsDynamic(name) && BlankText(gap) && forall i :: 0 <= i < |args| ==> WritableArg(args[i])
    ensures var s := VariableText(name, args, gap, rest);
            |s| > 1 && s[0] == '$' && IsNameChar(s[1]) && NameLength(s[1..]) == |name| && s[1..][..|name|] == name
            && ExtractArgs(s[1..]) == Scanned(ListValues(args), rest)
  {
    hide *;
    var inner := ListText(args, gap) + (")" + rest);
    DynamicNames(name);
    NameStarts(name);
    VariableIs(name, args, gap, rest);
    Dollar(name, "(" + inner);
    ParenNoName(inner);
    NameBefore(name, "(" + inner);
    NoParenInName(name, inner);
    assert name + ("(" + inner) == name + "(" + inner;
    ListRead(args, gap, rest, []);
    assert [] + ListValues(args) == ListValues(args);
    ExtractAt(name, inner);
  }

  lemma VariableIs(name: string, args: seq<Written>, gap: string, rest: string)
    ensures VariableText(name, args, gap, rest) == "$" + (name + ("(" + (ListText(args, gap) + (")" + rest))))
  {
  }

  lemma ParenNoName(inner: string)
    ensures "(" + inner != "" && !IsNameChar(("(" + inner)[0])
  {
  }

  lemma ExtractAt(name: string, inner: string)
    requires ParenAt(name + ("(" + inner)) == |name|
    ensures ExtractArgs(name + ("(" + inner)) == ScanArgs(inner, None, "", [])
  {
    assert (name + ("(" + inner))[|name| + 1..] == inner;
    hide ParenAt, ScanArgs;
  }

  // With one argument a variable stands for the first value of that key, with two for the one at the index; no argument, more
  // than two, and an index that is no number are errors, each of its own.
  lemma VariableRead(name: string, args: seq<Written>, gap: string, rest: string)
    requires IsDynamic(name) && BlankText(gap) && forall i :: 0 <= i < |args| ==> WritableArg(args[i])
    ensures var t := Compile(VariableText(name, args, gap, rest));
            && (|args| == 0 ==> t == Template([], Some(NoArgument)))
            && (|args| == 1 ==> t == Cons(Dynamic(name, ArgValue(args[0]), 0), Compile(rest)))
            && (|args| == 2 ==> t == match Atoi(ArgValue(args[1]))
                                     case Some(n) => Cons(Dynamic(name, ArgValue(args[0]), n), Compile(rest))
                                     case None => Template([], Some(InvalidIndex)))
            && (|args| > 2 ==> t == Template([], Some(TooManyArguments)))
  {
    var s := VariableText(name, args, gap, rest);
    ArgumentsRead(name, args, gap, rest);
    CompileAtVar(s);
    assert name != "" by { DynamicNames(name); }
    hide IsDynamic, IsStatic, Atoi, ExtractArgs, NameLength, ListText, VariableText, IsNameChar;
    CompileWith(s[1..], name, ListValues(args), rest);
  }

  lemma CompileWith(s: string, name: string, args: seq<string>, rest: string)
    requires name != "" && IsDynamic(name) && NameLength(s) == |name| && s[..|name|] == name && ExtractArgs(s) == Scanned(args, rest)
    ensures CompileVar(s) == match GetKeyAndIndex(args)
                             case BadKey(e) => Template([], Some(e))
                             case KeyIndex(key, index) => Cons(Dynamic(name, key, index), Compile(rest))
  {
    hide IsDynamic, IsStatic, Atoi, ExtractArgs, NameLength, Compile, GetKeyAndIndex;
  }

  // What a variable with a key and an index stands for: the value at that place up to a number sign, nothing when there are
  // not so many.
  lemma ValueAt(name: string, key: string, index: nat, req: Request)
    requires name in {"header", "resp_header", "arg"} || req.formOk
    ensures var v := Meaning(Dynamic(name, key, index), req);
            var values := if key in req.values(name) then req.values(name)[key] else [];
            && v.Text?
            && (index >= |values| ==> v.text == "")
            && (index < |values| ==> v.text <= values[index] && '#' !in v.text
                                     && (|v.text| < |values[index]| ==> values[index][|v.text|] == '#'))
  {
  }

  // The variables that read the form fail when it cannot be parsed.
  lemma FormFails(name: string, key: string, index: int, req: Request)
    requires name in {"form", "postform"} && !req.formOk
    ensures Meaning(Dynamic(name, key, index), req) == Fails(BadForm)
  {
  }

  // An instance: one bare argument.
  lemma FirstValue(value: string)
    requires '#' !in value
    ensures var t := Compile("$header(X)");
            && t == Template([Dynamic("header", "X", 0)], None)
            && Evaluate(t, Request(_ => "", _ => map["X" := [value]], true)) == Expansion(value, Finished)
  {
    HeaderText();
    HeaderIs(value);
    hide Compile, VariableText, Evaluate;
    VariableRead("header", [Bare("X")], "", "");
    NothingRead();
    assert [Dynamic("header", "X", 0)] + [] == [Dynamic("header", "X", 0)];
  }

  lemma NothingRead()
    ensures Compile("") == Template([], None)
  {
  }

  lemma HeaderText()
    ensures VariableText("header", [Bare("X")], "", "") == "$header(X)" && WritableArg(Bare("X")) && BlankText("")
  {
    assert ListText([Bare("X")], "") == "X";
    hide ListText;
    assert "(" + ("X" + (")" + "")) == "(X)";
    assert "$" + ("header" + "(X)") == "$header(X)";
  }

  lemma HeaderIs(value: string)
    requires '#' !in value
    ensures Evaluate(Template([Dynamic("header", "X", 0)], None), Request(_ => "", _ => map["X" := [value]], true))
            == Expansion(value, Finished)
  {
    var t := Template([Dynamic("header", "X", 0)], None);
    var req := Request(_ => "", _ => map["X" := [value]], true);
    ValueAt("header", "X", 0, req);
    hide Meaning;
    assert t.pieces[1..] == [];
    assert Evaluate(Template([], None), req) == Expansion("", Finished);
    assert value + "" == value;
  }
}
