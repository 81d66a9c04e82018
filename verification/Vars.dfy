/**
 Templates with variables.

 What a template means is read off its text once, as pieces; expanding it for a request is the left-to-right
 concatenation of what the pieces stand for.
 */
module Vars {
  import opened Chars
  import opened Decimal
  import opened Options

  datatype Error =
    | UnterminatedVar
    | UnterminatedParenthesis
    | UnterminatedQuotes
    | UnexpectedVar
    | NoArgument
    | InvalidIndex
    | TooManyArguments
    | BadForm

  // ----- characters and names

  predicate IsNameChar(c: char) {
    'a' <= c <= 'z' || 'A' <= c <= 'Z' || c == '_'
  }

  predicate IsBlank(c: char) {
    c == ' ' || c == '\t' || c == '\n' || c == '\r'
  }

  predicate IsDynamic(name: string) {
    name in {"header", "resp_header", "arg", "form", "postform"}
  }

  predicate NeedsForm(name: string) {
    name in {"form", "postform"}
  }

  predicate IsStatic(name: string) {
    IsRequestVar(name) || IsRemoteVar(name) || IsUpstreamVar(name) || IsResponseVar(name)
  }

  predicate IsRequestVar(name: string) {
    name in {"req_method", "req_scheme", "req_host", "req_port", "req_path", "req_addr", "req_query", "req_url",
             "req_uri", "req_content_type", "req_content_length"}
  }

  predicate IsRemoteVar(name: string) {
    name in {"remote_host", "remote_port", "remote_addr"}
  }

  predicate IsUpstreamVar(name: string) {
    name in {"upstream_name", "upstream_scheme", "upstream_host", "upstream_port", "upstream_addr", "upstream_url"}
  }

  predicate IsResponseVar(name: string) {
    name in {"resp_content_type", "resp_content_length", "status_code"}
  }

  function NameLength(s: string): (n: nat)
    ensures n <= |s| && (forall k :: 0 <= k < n ==> IsNameChar(s[k])) && (n < |s| ==> !IsNameChar(s[n]))
  {
    if s == "" || !IsNameChar(s[0]) then 0 else 1 + NameLength(s[1..])
  }

  // ----- arguments

  // The arguments and what follows their closing parenthesis.
  datatype Scanned = Scanned(args: seq<string>, rest: string) | BadArgs(error: Error)

  function WithArg(args: seq<string>, arg: string): seq<string> {
    if arg == "" then args else args + [arg]
  }

  // From within the parentheses: the quote that is open, the argument so far and those before it.
  function ScanArgs(s: string, quote: Option<char>, arg: string, args: seq<string>): (r: Scanned)
    ensures r.Scanned? ==> |r.rest| < |s|
  {
    if s == "" then BadArgs(if quote.Some? then UnterminatedQuotes else UnterminatedParenthesis)
    else if quote.Some? then
      if s[0] == quote.value then ScanArgs(s[1..], None, "", args + [arg])
      else ScanArgs(s[1..], quote, arg + [s[0]], args)
    else if IsQuote(s[0]) then ScanArgs(s[1..], Some(s[0]), arg, args)
    else if s[0] == ')' then Scanned(WithArg(args, arg), s[1..])
    else if s[0] == ',' then ScanArgs(s[1..], None, "", WithArg(args, arg))
    else if IsBlank(s[0]) then ScanArgs(s[1..], None, arg, args)
    else ScanArgs(s[1..], None, arg + [s[0]], args)
  }

  // Where the first opening parenthesis is, which need not follow the name: text between them is dropped.
  function ParenAt(s: string): (n: nat)
    ensures n <= |s| && (n < |s| ==> s[n] == '(') && forall k :: 0 <= k < n ==> s[k] != '('
  {
    if s == "" || s[0] == '(' then 0 else 1 + ParenAt(s[1..])
  }

  function ExtractArgs(s: string): (r: Scanned)
    ensures r.Scanned? ==> |r.rest| < |s|
  {
    if ParenAt(s) == |s| then BadArgs(UnterminatedParenthesis) else ScanArgs(s[ParenAt(s) + 1..], None, "", [])
  }

  datatype KeyIndex = KeyIndex(key: string, index: int) | BadKey(error: Error)

  function GetKeyAndIndex(args: seq<string>): KeyIndex {
    if |args| == 0 then BadKey(NoArgument)
    else if |args| == 1 then KeyIndex(args[0], 0)
    else if |args| == 2 then
      match Atoi(args[1])
      case None => BadKey(InvalidIndex)
      case Some(n) => KeyIndex(args[0], n)
    else BadKey(TooManyArguments)
  }

  // ----- what a template says

  datatype Piece = Lit(text: string) | Static(name: string) | Dynamic(name: string, key: string, index: int)

  // The pieces up to the end or up to the first mistake.
  datatype Template = Template(pieces: seq<Piece>, error: Option<Error>)

  function Cons(p: Piece, t: Template): Template {
    Template([p] + t.pieces, t.error)
  }

  function Compile(s: string): Template
    decreases |s|
  {
    if s == "" then Template([], None)
    else if s[0] != '$' then Cons(Lit([s[0]]), Compile(s[1..]))
    else if |s| == 1 then Template([], Some(UnterminatedVar))
    else if s[1] == '$' then Cons(Lit("$"), Compile(s[2..]))
    else if s[1] == '{' then Cons(Lit("${"), Compile(s[2..]))
    else CompileVar(s[1..])
  }

  // After the dollar sign.
  function CompileVar(s: string): Template
    decreases |s|
  {
    var n := NameLength(s);
    if n == 0 then Template([], Some(UnterminatedVar))
    else if IsDynamic(s[..n]) then
      match ExtractArgs(s)
      case BadArgs(e) => Template([], Some(e))
      case Scanned(args, rest) =>
        match GetKeyAndIndex(args)
        case BadKey(e) => Template([], Some(e))
        case KeyIndex(key, index) => Cons(Dynamic(s[..n], key, index), Compile(rest))
    else if IsStatic(s[..n]) then Cons(Static(s[..n]), Compile(s[n..]))
    else Template([], Some(UnexpectedVar))
  }

  // ----- a request

  // What the getters answer; formOk is false when the form of the request cannot be parsed.
  datatype Request = Request(plain: string -> string, values: string -> map<string, seq<string>>, formOk: bool)

  // The request and response that validation uses: nothing is set.
  const DUMMY := Request(_ => "", _ => map[], true)

  // What a piece stands for: text, a failed getter, or an index out of range.
  datatype Value = Text(text: string) | Fails(error: Error) | Crashes

  function StripFragment(s: string): (r: string)
    ensures r <= s && '#' !in r && (|r| < |s| ==> s[|r|] == '#')
  {
    if s == "" || s[0] == '#' then "" else [s[0]] + StripFragment(s[1..])
  }

  function GetValue(values: map<string, seq<string>>, key: string, index: int): Value {
    if key in values && index < |values[key]| then
      if index < 0 then Crashes else Text(StripFragment(values[key][index]))
    else Text("")
  }

  function Meaning(p: Piece, req: Request): Value {
    match p
    case Lit(v) => Text(v)
    case Static(name) => Text(req.plain(name))
    case Dynamic(name, key, index) =>
      if NeedsForm(name) && !req.formOk then Fails(BadForm) else GetValue(req.values(name), key, index)
  }

  // What has been written and how the expansion ended.
  datatype Ending = Finished | Failed(error: Error) | Crashed
  datatype Expansion = Expansion(out: string, ending: Ending)

  function Prepend(text: string, e: Expansion): Expansion {
    Expansion(text + e.out, e.ending)
  }

  // Only text lets the expansion go on.
  function Then(v: Value, rest: Expansion): Expansion {
    if v.Text? then Prepend(v.text, rest) else Expansion("", if v.Fails? then Failed(v.error) else Crashed)
  }

  function Evaluate(t: Template, req: Request): Expansion
    decreases |t.pieces|
  {
    if t.pieces == [] then Expansion("", if t.error.None? then Finished else Failed(t.error.value))
    else Then(Meaning(t.pieces[0], req), Evaluate(Template(t.pieces[1..], t.error), req))
  }

  // ----- the expander

  method FindParen(src: string, i: nat) returns (next: nat)
    requires i <= |src|
    ensures i <= next <= |src| && next - i == ParenAt(src[i..])
  {
    next := i;
    while next < |src| && src[next] != '('
      invariant i <= next <= |src| && ParenAt(src[i..]) == next - i + ParenAt(src[next..])
    {
      assert src[next..][1..] == src[next + 1..];
      next := next + 1;
    }
  }

  // One character between the parentheses, when it does not close them.
  function ScanChar(c: char, quote: Option<char>, arg: string, args: seq<string>): (Option<char>, string, seq<string>) {
    if quote.Some? then
      if c == quote.value then (None, "", args + [arg]) else (quote, arg + [c], args)
    else if IsQuote(c) then (Some(c), arg, args)
    else if c == ',' then (None, "", WithArg(args, arg))
    else if IsBlank(c) then (None, arg, args)
    else (None, arg + [c], args)
  }

  method ScanWithin(src: string, start: nat) returns (r: Scanned, next: nat)
    requires start <= |src|
    ensures r == ScanArgs(src[start..], None, "", [])
    ensures r.Scanned? ==> start <= next < |src| && r.rest == src[next + 1..]
  {
    next := start;
    var quote: Option<char>, arg, args := None, "", [];
    ghost var whole := ScanArgs(src[start..], None, "", []);
    while next < |src|
      invariant start <= next <= |src| && whole == ScanArgs(src[next..], quote, arg, args)
    {
      hide IsQuote, IsBlank, WithArg;
      var ch := src[next];
      ScanUnfold(src[next..], src[next + 1..], quote, arg, args);
      hide ScanArgs;
      if quote.Some? {
        if ch == quote.value {
          args, arg, quote := args + [arg], "", None;
        } else {
          arg := arg + [ch];
        }
      } else if IsQuote(ch) {
        quote := Some(ch);
      } else if ch == ')' {
        return Scanned(WithArg(args, arg), src[next + 1..]), next;
      } else if ch == ',' {
        args, arg := WithArg(args, arg), "";
      } else if !IsBlank(ch) {
        arg := arg + [ch];
      }
      next := next + 1;
    }
    r := BadArgs(if quote.Some? then UnterminatedQuotes else UnterminatedParenthesis);
  }

  lemma ScanUnfold(s: string, rest: string, quote: Option<char>, arg: string, args: seq<string>)
    requires s != "" && rest == s[1..]
    ensures ScanArgs(s, quote, arg, args) ==
            if quote.None? && !IsQuote(s[0]) && s[0] == ')' then Scanned(WithArg(args, arg), rest)
            else
              var (q, a, as') := ScanChar(s[0], quote, arg, args);
              ScanArgs(rest, q, a, as')
  {
    hide IsQuote, IsBlank, WithArg;
  }

  method ScanArguments(src: string, i: nat) returns (r: Scanned, next: nat)
    requires i <= |src|
    ensures r == ExtractArgs(src[i..])
    ensures r.Scanned? ==> i < next < |src| && r.rest == src[next + 1..]
  {
    hide ScanArgs, ParenAt;
    next := FindParen(src, i);
    if next == |src| {
      return BadArgs(UnterminatedParenthesis), 0;
    }
    assert src[i..][next - i + 1..] == src[next + 1..];
    r, next := ScanWithin(src, next + 1);
  }

  lemma PrependTwice(a: string, b: string, e: Expansion)
    ensures Prepend(a, Prepend(b, e)) == Prepend(a + b, e)
  {
    assert a + (b + e.out) == a + b + e.out;
  }

  lemma EvaluateCons(p: Piece, t: Template, req: Request)
    ensures Evaluate(Cons(p, t), req) == Then(Meaning(p, req), Evaluate(t, req))
  {
    assert Cons(p, t).pieces[1..] == t.pieces;
    assert Template(t.pieces, t.error) == t;
  }

  // One turn of the loop: what is written from position i on, and where to go on when nothing ended the expansion.
  method ExpandOne(src: string, i: nat, req: Request) returns (text: string, ending: Ending, next: nat)
    requires i < |src|
    ensures ending == Finished ==> i < next <= |src|
    ensures Evaluate(Compile(src[i..]), req)
            == if ending == Finished then Prepend(text, Evaluate(Compile(src[next..]), req)) else Expansion(text, ending)
  {
    hide IsStatic, IsDynamic, ExtractArgs, GetKeyAndIndex, GetValue, IsNameChar, NeedsForm, Evaluate, Cons;
    ghost var s := src[i..];
    var ch := src[i];
    if ch != '$' {
      EvaluateCons(Lit([ch]), Compile(src[i + 1..]), req);
      assert s[1..] == src[i + 1..];
      return [ch], Finished, i + 1;
    }
    if i + 1 >= |src| {
      EvaluateMistake(UnterminatedVar, req);
      return "", Failed(UnterminatedVar), 0;
    }
    assert s[1..] == src[i + 1..] && s[2..] == src[i + 2..];
    if src[i + 1] == '$' {
      EvaluateCons(Lit("$"), Compile(src[i + 2..]), req);
      return "$", Finished, i + 2;
    }
    if src[i + 1] == '{' {
      EvaluateCons(Lit("${"), Compile(src[i + 2..]), req);
      return "${", Finished, i + 2;
    }
    text, ending, next := ExpandVar(src, i + 1, req);
  }

  lemma EvaluateMistake(e: Error, req: Request)
    ensures Evaluate(Template([], Some(e)), req) == Expansion("", Failed(e))
  {
  }

  // A variable with arguments.
  method ExpandDynamic(src: string, j: nat, name: string, req: Request) returns (text: string, ending: Ending, next: nat)
    requires j < |src| && name != "" && IsDynamic(name) && NameLength(src[j..]) == |name| && src[j..][..|name|] == name
    ensures ending == Finished ==> j < next <= |src|
    ensures Evaluate(CompileVar(src[j..]), req)
            == if ending == Finished then Prepend(text, Evaluate(Compile(src[next..]), req)) else Expansion(text, ending)
  {
    hide IsStatic, IsDynamic, ExtractArgs, GetKeyAndIndex, GetValue, IsNameChar, NeedsForm, Evaluate, Cons, Compile;
    text, next := "", 0;
    var scanned, close := ScanArguments(src, j);
    if scanned.BadArgs? {
      EvaluateMistake(scanned.error, req);
      ending := Failed(scanned.error);
      return;
    }
    var ki := GetKeyAndIndex(scanned.args);
    if ki.BadKey? {
      EvaluateMistake(ki.error, req);
      ending := Failed(ki.error);
      return;
    }
    EvaluateCons(Dynamic(name, ki.key, ki.index), Compile(src[close + 1..]), req);
    match Meaning(Dynamic(name, ki.key, ki.index), req)
    case Fails(e) => ending := Failed(e);
    case Crashes => ending := Crashed;
    case Text(v) => text, ending, next := v, Finished, close + 1;
  }

  // The variable whose name starts at position j.
  method ExpandVar(src: string, j: nat, req: Request) returns (text: string, ending: Ending, next: nat)
    requires 0 < j < |src|
    ensures ending == Finished ==> j < next <= |src|
    ensures Evaluate(CompileVar(src[j..]), req)
            == if ending == Finished then Prepend(text, Evaluate(Compile(src[next..]), req)) else Expansion(text, ending)
  {
    hide IsStatic, IsDynamic, ExtractArgs, GetKeyAndIndex, GetValue, IsNameChar, NeedsForm, Evaluate, Cons, Compile;
    ghost var s := src[j..];
    var k := j;
    while k < |src| && IsNameChar(src[k])
      invariant j <= k <= |src| && forall m :: j <= m < k ==> IsNameChar(src[m])
    {
      k := k + 1;
    }
    NameLengthIs(s, k - j);
    text, next := "", 0;
    if k == j {
      EvaluateMistake(UnterminatedVar, req);
      return "", Failed(UnterminatedVar), 0;
    }
    var name := src[j..k];
    assert name == s[..k - j] && s[k - j..] == src[k..];
    if IsDynamic(name) {
      text, ending, next := ExpandDynamic(src, j, name, req);
      return;
    }
    if IsStatic(name) {
      EvaluateCons(Static(name), Compile(src[k..]), req);
      return req.plain(name), Finished, k;
    }
    EvaluateMistake(UnexpectedVar, req);
    ending := Failed(UnexpectedVar);
  }

  lemma {:induction false} NameLengthIs(s: string, n: nat)
    requires n <= |s| && (forall k :: 0 <= k < n ==> IsNameChar(s[k])) && (n < |s| ==> !IsNameChar(s[n]))
    ensures NameLength(s) == n
  {
    if n > 0 {
      NameLengthIs(s[1..], n - 1);
    }
  }

  // Which getters are called is decided by the text alone; a request only decides what they answer.
  method ExpandVars(src: string, req: Request) returns (e: Expansion)
    ensures e == Evaluate(Compile(src), req)
  {
    var out, i := "", 0;
    ghost var whole := Evaluate(Compile(src), req);
    assert src[0..] == src;
    while i < |src|
      invariant i <= |src| && whole == Prepend(out, Evaluate(Compile(src[i..]), req))
    {
      hide Compile, Evaluate;
      var text, ending, next := ExpandOne(src, i, req);
      if ending != Finished {
        return Expansion(out + text, ending);
      }
      PrependTwice(out, text, Evaluate(Compile(src[next..]), req));
      out, i := out + text, next;
    }
    e := Expansion(out, Finished);
  }

  // ----- validation

  method ValidateVars(src: string) returns (error: Option<Error>)
    ensures error == Compile(src).error
  {
    var e := ExpandVars(src, DUMMY);
    DummyAnswers(Compile(src));
    error := if e.ending.Failed? then Some(e.ending.error) else None;
  }

  // With nothing set, no getter fails or crashes.
  lemma {:induction false} DummyAnswers(t: Template)
    ensures Evaluate(t, DUMMY).ending == if t.error.None? then Finished else Failed(t.error.value)
    decreases |t.pieces|
  {
    if t.pieces != [] {
      DummyAnswers(Template(t.pieces[1..], t.error));
    }
  }

  ghost predicate NonNegative(t: Template) {
    forall k :: 0 <= k < |t.pieces| && t.pieces[k].Dynamic? ==> t.pieces[k].index >= 0
  }

  predicate UsesForm(t: Template) {
    exists k :: 0 <= k < |t.pieces| && t.pieces[k].Dynamic? && NeedsForm(t.pieces[k].name)
  }

  function TextOf(p: Piece, req: Request): string {
    if Meaning(p, req).Text? then Meaning(p, req).text else ""
  }

  function Texts(pieces: seq<Piece>, req: Request): string {
    if pieces == [] then "" else TextOf(pieces[0], req) + Texts(pieces[1..], req)
  }

  // An accepted template never fails for a request, and says the same pieces in the same order for all of them.
  lemma {:induction false} AcceptedExpands(t: Template, req: Request)
    requires t.error.None? && NonNegative(t) && (req.formOk || !UsesForm(t))
    ensures Evaluate(t, req) == Expansion(Texts(t.pieces, req), Finished)
    decreases |t.pieces|
  {
    if t.pieces != [] {
      var rest := Template(t.pieces[1..], t.error);
      assert !req.formOk ==> forall k :: 0 <= k < |rest.pieces| ==> rest.pieces[k] == t.pieces[k + 1];
      AcceptedExpands(rest, req);
      hide NeedsForm, StripFragment;
      assert Meaning(t.pieces[0], req).Text?;
    }
  }

  // The form is the only thing about a request that fails an accepted template.
  lemma {:induction false} FormIsAllThatFails(t: Template, req: Request)
    requires t.error.None? && NonNegative(t)
    ensures Evaluate(t, req).ending == if !req.formOk && UsesForm(t) then Failed(BadForm) else Finished
    decreases |t.pieces|
  {
    if t.pieces != [] {
      var rest := Template(t.pieces[1..], t.error);
      assert forall k :: 0 <= k < |rest.pieces| ==> rest.pieces[k] == t.pieces[k + 1];
      FormIsAllThatFails(rest, req);
      UsesFormFirst(t);
      hide NeedsForm, StripFragment, UsesForm, NonNegative;
    }
  }

  lemma UsesFormFirst(t: Template)
    requires t.pieces != []
    ensures UsesForm(t) <==> (t.pieces[0].Dynamic? && NeedsForm(t.pieces[0].name)) || UsesForm(Template(t.pieces[1..], t.error))
  {
    hide NeedsForm;
    var rest := Template(t.pieces[1..], t.error);
    if UsesForm(t) {
      var k :| 0 <= k < |t.pieces| && t.pieces[k].Dynamic? && NeedsForm(t.pieces[k].name);
      assert k > 0 ==> rest.pieces[k - 1] == t.pieces[k];
    }
    if UsesForm(rest) {
      var k :| 0 <= k < |rest.pieces| && rest.pieces[k].Dynamic? && NeedsForm(rest.pieces[k].name);
      assert t.pieces[k + 1] == rest.pieces[k];
    }
  }

  // A request where every header, query and form has one value for the key.
  function Filled(key: string): Request {
    Request(_ => "", _ => map[key := ["x"]], true)
  }

  // Validation accepts a negative index; a request with a value for its key then crashes.
  lemma {:induction false} NegativeCrashes(t: Template, k: nat)
    requires k < |t.pieces| && t.pieces[k].Dynamic? && t.pieces[k].index < 0
    ensures Evaluate(t, Filled(t.pieces[k].key)).ending == Crashed
    decreases |t.pieces|
  {
    var key := t.pieces[k].key;
    if k > 0 {
      NegativeCrashes(Template(t.pieces[1..], t.error), k - 1);
    }
    hide NeedsForm, StripFragment;
    assert Filled(key).values(t.pieces[k].name) == map[key := ["x"]];
    assert !Meaning(t.pieces[0], Filled(key)).Fails?;
  }

  // So an accepted template is safe for every request exactly when its indices are not negative.
  lemma SafeIffNonNegative(t: Template)
    requires t.error.None?
    ensures (forall req :: Evaluate(t, req).ending != Crashed) <==> NonNegative(t)
  {
    hide Evaluate;
    if NonNegative(t) {
      forall req ensures Evaluate(t, req).ending != Crashed {
        FormIsAllThatFails(t, req);
      }
    } else {
      var k :| 0 <= k < |t.pieces| && t.pieces[k].Dynamic? && t.pieces[k].index < 0;
      NegativeCrashes(t, k);
    }
  }

  // ----- writing a template

  ghost predicate WritablePiece(p: Piece) {
    match p
    case Lit(v) => v == "${" || |v| == 1
    case Static(name) => IsStatic(name) && !IsDynamic(name)
    case Dynamic(name, key, index) => IsDynamic(name) && '"' !in key && MIN_INT <= index <= MAX_INT
  }

  // A name must not run into what follows it.
  ghost predicate Writable(pieces: seq<Piece>) {
    pieces != [] ==>
      && WritablePiece(pieces[0]) && Writable(pieces[1..])
      && (pieces[0].Static? && |pieces| > 1 && pieces[1].Lit? ==> !IsNameChar(pieces[1].text[0]))
  }

  function Quoted(s: string): string {
    "\"" + s + "\""
  }

  // What a written variable has after its name.
  function AfterName(key: string, num: string, rest: string): string {
    "(" + (Quoted(key) + "," + Quoted(num) + ")" + rest)
  }

  // A piece in front of the rest of a template.
  function WritePiece(p: Piece, rest: string): string {
    match p
    case Lit(v) => (if v == "$" then "$$" else v) + rest
    case Static(name) => "$" + (name + rest)
    case Dynamic(name, key, index) => "$" + (name + AfterName(key, FormatInt(index), rest))
  }

  function Write(pieces: seq<Piece>): string {
    if pieces == [] then "" else WritePiece(pieces[0], Write(pieces[1..]))
  }

  ghost predicate AllName(s: string) {
    forall k :: 0 <= k < |s| ==> IsNameChar(s[k])
  }

  lemma RequestNames(name: string)
    requires IsRequestVar(name)
    ensures name != "" && AllName(name)
  {
    assert AllName("req_method");
    assert AllName("req_scheme");
    assert AllName("req_host");
    assert AllName("req_port");
    assert AllName("req_path");
    assert AllName("req_addr");
    assert AllName("req_query");
    assert AllName("req_url");
    assert AllName("req_uri");
    assert AllName("req_content_type");
    assert AllName("req_content_length");
    hide AllName, IsNameChar;
  }

  lemma RemoteNames(name: string)
    requires IsRemoteVar(name)
    ensures name != "" && AllName(name)
  {
    assert AllName("remote_host");
    assert AllName("remote_port");
    assert AllName("remote_addr");
    hide AllName, IsNameChar;
  }

  lemma UpstreamNames(name: string)
    requires IsUpstreamVar(name)
    ensures name != "" && AllName(name)
  {
    assert AllName("upstream_name");
    assert AllName("upstream_scheme");
    assert AllName("upstream_host");
    assert AllName("upstream_port");
    assert AllName("upstream_addr");
    assert AllName("upstream_url");
    hide AllName, IsNameChar;
  }

  lemma ResponseNames(name: string)
    requires IsResponseVar(name)
    ensures name != "" && AllName(name)
  {
    assert AllName("resp_content_type");
    assert AllName("resp_content_length");
    assert AllName("status_code");
    hide AllName, IsNameChar;
  }

  lemma DynamicNames(name: string)
    requires IsDynamic(name)
    ensures name != "" && AllName(name)
  {
    assert AllName("header");
    assert AllName("resp_header");
    assert AllName("arg");
    assert AllName("form");
    assert AllName("postform");
    hide AllName, IsNameChar;
  }

  // Every variable has a name that is read whole.
  lemma NamesAreNames(name: string)
    requires IsStatic(name) || IsDynamic(name)
    ensures name != "" && AllName(name)
  {
    hide AllName, IsRequestVar, IsRemoteVar, IsUpstreamVar, IsResponseVar, IsDynamic;
    if IsDynamic(name) {
      DynamicNames(name);
    } else if IsRequestVar(name) {
      RequestNames(name);
    } else if IsRemoteVar(name) {
      RemoteNames(name);
    } else if IsUpstreamVar(name) {
      UpstreamNames(name);
    } else {
      ResponseNames(name);
    }
  }

  lemma NameBefore(name: string, rest: string)
    requires AllName(name) && (rest != "" ==> !IsNameChar(rest[0]))
    ensures NameLength(name + rest) == |name| && (name + rest)[..|name|] == name && (name + rest)[|name|..] == rest
  {
    hide IsNameChar;
    NameLengthIs(name + rest, |name|);
  }

  lemma {:induction false} QuotedArg(text: string, rest: string, arg: string, args: seq<string>)
    requires '"' !in text
    ensures ScanArgs(text + "\"" + rest, Some('"'), arg, args) == ScanArgs(rest, None, "", args + [arg + text])
  {
    if text == "" {
      assert text + "\"" + rest == "\"" + rest && arg + text == arg;
      ScanUnfold("\"" + rest, rest, Some('"'), arg, args);
    } else {
      var s := text + "\"" + rest;
      assert s[1..] == text[1..] + "\"" + rest;
      assert arg + text == arg + [text[0]] + text[1..];
      ScanUnfold(s, s[1..], Some('"'), arg, args);
      hide ScanArgs, IsQuote, IsBlank;
      QuotedArg(text[1..], rest, arg + [text[0]], args);
    }
  }

  // A quoted argument is read up to its closing quotation mark.
  lemma QuotedStep(text: string, rest: string, args: seq<string>)
    requires '"' !in text
    ensures ScanArgs(Quoted(text) + rest, None, "", args) == ScanArgs(rest, None, "", args + [text])
  {
    var s := Quoted(text) + rest;
    assert s[1..] == text + "\"" + rest && "" + text == text;
    ScanUnfold(s, s[1..], None, "", args);
    hide ScanArgs, IsBlank;
    QuotedArg(text, rest, "", args);
  }

  lemma TwoQuoted(key: string, num: string, rest: string)
    requires '"' !in key && '"' !in num
    ensures ScanArgs(Quoted(key) + "," + Quoted(num) + ")" + rest, None, "", []) == Scanned([key, num], rest)
  {
    hide Quoted, ScanArgs;
    var r1 := "," + Quoted(num) + ")" + rest;
    var r2 := Quoted(num) + ")" + rest;
    var r3 := ")" + rest;
    assert Quoted(key) + "," + Quoted(num) + ")" + rest == Quoted(key) + r1;
    QuotedStep(key, r1, []);
    assert r1[1..] == r2;
    ScanUnfold(r1, r2, None, "", [key]);
    assert r2 == Quoted(num) + r3;
    QuotedStep(num, r3, [key]);
    assert r3[1..] == rest;
    ScanUnfold(r3, rest, None, "", [key] + [num]);
    assert [] + [key] == [key] && [key] + [num] == [key, num];
  }

  lemma {:induction false} NoParenInName(name: string, rest: string)
    requires AllName(name)
    ensures ParenAt(name + "(" + rest) == |name|
  {
    var s := name + "(" + rest;
    if name != "" {
      assert s[1..] == name[1..] + "(" + rest;
      assert s[0] == name[0];
      NoParenInName(name[1..], rest);
    }
  }

  lemma ExtractWritten(name: string, key: string, num: string, rest: string)
    requires AllName(name) && '"' !in key && '"' !in num
    ensures ExtractArgs(name + AfterName(key, num, rest)) == Scanned([key, num], rest)
  {
    var inner := Quoted(key) + "," + Quoted(num) + ")" + rest;
    NoParenInName(name, inner);
    TwoQuoted(key, num, rest);
    hide ScanArgs, Quoted, ParenAt, AllName;
    assert name + AfterName(key, num, rest) == name + "(" + inner;
    assert (name + "(" + inner)[|name| + 1..] == inner;
  }

  lemma GetWritten(key: string, index: int)
    requires MIN_INT <= index <= MAX_INT
    ensures GetKeyAndIndex([key, FormatInt(index)]) == KeyIndex(key, index)
  {
    AtoiOfFormat(index);
    hide Atoi, FormatInt;
  }

  lemma Dollar(name: string, after: string)
    requires name != ""
    ensures var s := "$" + (name + after); |s| > 1 && s[0] == '$' && s[1] == name[0] && s[1..] == name + after
  {
    assert ("$" + (name + after))[1..] == name + after;
  }

  lemma DynamicText(name: string, key: string, index: int, rest: string)
    ensures WritePiece(Dynamic(name, key, index), rest) == "$" + (name + AfterName(key, FormatInt(index), rest))
  {
  }

  lemma WriteDynamic(name: string, key: string, index: int, rest: string)
    requires WritablePiece(Dynamic(name, key, index))
    ensures var s := WritePiece(Dynamic(name, key, index), rest);
            |s| > 1 && s[0] == '$' && IsNameChar(s[1]) && CompileVar(s[1..]) == Cons(Dynamic(name, key, index), Compile(rest))
  {
    hide *;
    var num := FormatInt(index);
    WritableDynamic(name, key, index);
    NamesAreNames(name);
    NoQuoteInNumber(index);
    DynamicText(name, key, index, rest);
    Dollar(name, AfterName(key, num, rest));
    NameStarts(name);
    AfterNameStarts(key, num, rest);
    NameBefore(name, AfterName(key, num, rest));
    ExtractWritten(name, key, num, rest);
    GetWritten(key, index);
    CompileDynamic(name, AfterName(key, num, rest), [key, num], key, index, rest);
  }

  lemma WritableDynamic(name: string, key: string, index: int)
    requires WritablePiece(Dynamic(name, key, index))
    ensures IsDynamic(name) && '"' !in key && MIN_INT <= index <= MAX_INT
  {
    hide IsDynamic;
  }

  lemma AfterNameStarts(key: string, num: string, rest: string)
    ensures AfterName(key, num, rest) != "" && !IsNameChar(AfterName(key, num, rest)[0])
  {
    hide Quoted;
  }

  lemma NameStarts(name: string)
    requires name != "" && AllName(name)
    ensures IsNameChar(name[0])
  {
  }

  lemma CompileDynamic(name: string, after: string, args: seq<string>, key: string, index: int, rest: string)
    requires name != "" && IsDynamic(name) && NameLength(name + after) == |name| && (name + after)[..|name|] == name
    requires ExtractArgs(name + after) == Scanned(args, rest) && GetKeyAndIndex(args) == KeyIndex(key, index)
    ensures CompileVar(name + after) == Cons(Dynamic(name, key, index), Compile(rest))
  {
    hide IsStatic, IsDynamic, Compile, ExtractArgs, GetKeyAndIndex, IsNameChar;
  }

  lemma NoQuoteInNumber(n: int)
    ensures '"' !in FormatInt(n)
  {
    FormatPlain(n);
  }

  lemma CompileStatic(name: string, rest: string)
    requires name != "" && IsStatic(name) && !IsDynamic(name) && NameLength(name + rest) == |name|
    requires (name + rest)[..|name|] == name && (name + rest)[|name|..] == rest
    ensures CompileVar(name + rest) == Cons(Static(name), Compile(rest))
  {
    hide IsStatic, IsDynamic, Compile, IsNameChar;
  }

  lemma WriteStatic(name: string, rest: string)
    requires WritablePiece(Static(name)) && (rest != "" ==> !IsNameChar(rest[0]))
    ensures var s := WritePiece(Static(name), rest);
            |s| > 1 && s[0] == '$' && IsNameChar(s[1]) && CompileVar(s[1..]) == Cons(Static(name), Compile(rest))
  {
    hide IsStatic, IsDynamic, Compile, CompileVar, IsNameChar, AllName;
    NamesAreNames(name);
    NameStarts(name);
    NameBefore(name, rest);
    CompileStatic(name, rest);
    Dollar(name, rest);
  }

  lemma WriteLit(text: string, rest: string)
    requires WritablePiece(Lit(text))
    ensures Compile(WritePiece(Lit(text), rest)) == Cons(Lit(text), Compile(rest))
  {
    var s := WritePiece(Lit(text), rest);
    hide CompileVar;
    if text == "$" || text == "${" {
      assert s[2..] == rest;
    } else {
      assert s[1..] == rest;
      assert text == [s[0]];
    }
  }

  lemma CompileAtVar(s: string)
    requires |s| > 1 && s[0] == '$' && IsNameChar(s[1])
    ensures Compile(s) == CompileVar(s[1..])
  {
  }

  // A written piece starts no name, unless it is text that does.
  lemma WriteStarts(pieces: seq<Piece>)
    requires Writable(pieces) && (pieces != [] && pieces[0].Lit? ==> !IsNameChar(pieces[0].text[0]))
    ensures Write(pieces) != "" ==> !IsNameChar(Write(pieces)[0])
  {
    hide IsStatic, IsDynamic, FormatInt, AfterName;
  }

  // Reading back what was written gives the pieces that were written.
  lemma {:induction false} CompileOfWrite(pieces: seq<Piece>)
    requires Writable(pieces)
    ensures Compile(Write(pieces)) == Template(pieces, None)
  {
    if pieces != [] {
      var p, rest := pieces[0], Write(pieces[1..]);
      CompileOfWrite(pieces[1..]);
      assert [p] + pieces[1..] == pieces;
      hide Compile, CompileVar, IsStatic, IsDynamic, IsNameChar;
      match p
      case Lit(v) =>
        WriteLit(v, rest);
      case Static(name) =>
        WriteStarts(pieces[1..]);
        WriteStatic(name, rest);
        CompileAtVar(WritePiece(p, rest));
      case Dynamic(name, key, index) =>
        WriteDynamic(name, key, index, rest);
        CompileAtVar(WritePiece(p, rest));
    }
  }

  // An instance: a template that is accepted, and a request for which it goes out of range.
  lemma NegativeInstance()
    ensures var t := Compile("$header(\"X\",\"-1\")");
            t == Template([Dynamic("header", "X", -1)], None) && Evaluate(t, Filled("X")).ending == Crashed
  {
    hide Compile, Evaluate, Write, Writable;
    NegativeWritten();
    CompileOfWrite([Dynamic("header", "X", -1)]);
    NegativeCrashes(Template([Dynamic("header", "X", -1)], None), 0);
  }

  lemma NegativeWritten()
    ensures var pieces := [Dynamic("header", "X", -1)];
            Writable(pieces) && Write(pieces) == "$header(\"X\",\"-1\")"
  {
    var pieces := [Dynamic("header", "X", -1)];
    assert pieces[1..] == [];
    MinusOne();
    hide FormatInt;
    assert Quoted("X") == "\"X\"" && Quoted("-1") == "\"-1\"";
    hide Quoted;
    assert AfterName("X", "-1", "") == "(\"X\",\"-1\")";
    hide AfterName;
    assert WritePiece(pieces[0], "") == "$header(\"X\",\"-1\")";
  }

  lemma MinusOne()
    ensures FormatInt(-1) == "-1"
  {
    assert Itoa(1) == "1";
    assert "-" + "1" == "-1";
  }
}
