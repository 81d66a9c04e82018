/** Characters and trimming, as in Go's unicode and strings packages. */
module Chars {
  predicate IsSpace(c: char) {
    || c == ' ' || '\t' <= c <= '\r' || c as int in {0x85, 0xA0, 0x1680, 0x2028, 0x2029, 0x202F, 0x205F, 0x3000}
    || 0x2000 <= c as int <= 0x200A
  }

  predicate IsQuote(c: char) {
    c == '"' || c == '\'' || c == '`'
  }

  function TrimLeft(s: string, space: char -> bool): string {
    if s != "" && space(s[0]) then TrimLeft(s[1..], space) else s
  }

  function TrimRight(s: string, space: char -> bool): string {
    if s != "" && space(s[|s| - 1]) then TrimRight(s[..|s| - 1], space) else s
  }

  function TrimSpace(s: string): string {
    TrimRight(TrimLeft(s, IsSpace), IsSpace)
  }

  ghost predicate All(s: string, p: char -> bool) {
    forall i :: 0 <= i < |s| ==> p(s[i])
  }

  lemma {:induction false} TrimLeftIs(s: string, space: char -> bool) returns (pad: string)
    ensures s == pad + TrimLeft(s, space) && All(pad, space)
    ensures TrimLeft(s, space) != "" ==> !space(TrimLeft(s, space)[0])
  {
    pad := "";
    if s != "" && space(s[0]) {
      pad := TrimLeftIs(s[1..], space);
      pad := [s[0]] + pad;
    }
  }

  lemma {:induction false} TrimRightIs(s: string, space: char -> bool) returns (pad: string)
    ensures s == TrimRight(s, space) + pad && All(pad, space)
    ensures var t := TrimRight(s, space); t != "" ==> !space(t[|t| - 1])
  {
    pad := "";
    if s != "" && space(s[|s| - 1]) {
      pad := TrimRightIs(s[..|s| - 1], space);
      pad := pad + [s[|s| - 1]];
    }
  }

  // Trimming takes all white space off both ends, and nothing else.
  lemma TrimIs(s: string) returns (a: string, b: string)
    ensures var t := TrimSpace(s);
            s == a + t + b && All(a, IsSpace) && All(b, IsSpace) && (t != "" ==> !IsSpace(t[0]) && !IsSpace(t[|t| - 1]))
  {
    a := TrimLeftIs(s, IsSpace);
    b := TrimRightIs(TrimLeft(s, IsSpace), IsSpace);
  }

  // The white space of Unicode, by its numbers; and the three quotes.
  lemma SpacesAndQuotes(c: char)
    ensures IsSpace(c) <==> || c as int in {9, 10, 11, 12, 13, 32, 133, 160, 5760, 8192, 8193, 8194, 8195, 8196, 8197, 8198}
                            || c as int in {8199, 8200, 8201, 8202, 8232, 8233, 8239, 8287, 12288}
    ensures IsQuote(c) <==> c as int in {34, 39, 96}
  {
  }
}
