/**
 Lines of a log file, as text. One char stands for one byte.

 Lines is the forward reading of a file: cut at newlines, drop the blank pieces.
 Everything the backward scanner and the rotation promise is stated against it.
 */
module LogLines {

  const NEWLINE: char := '\n'

  // Index of the first newline at or after i, or |s| when there is none.
  function FirstNewline(s: string, i: nat): (k: nat)
    requires i <= |s|
    ensures i <= k <= |s|
    ensures forall j :: i <= j < k ==> s[j] != NEWLINE
    ensures k < |s| ==> s[k] == NEWLINE
    decreases |s| - i
  {
    if i == |s| || s[i] == NEWLINE then i else FirstNewline(s, i + 1)
  }

  // Index of the last newline, or -1 (bytes.LastIndexByte).
  function LastNewline(s: string): (k: int)
    ensures -1 <= k < |s|
    ensures k >= 0 ==> s[k] == NEWLINE
    ensures forall j :: k < j < |s| ==> s[j] != NEWLINE
  {
    if s == "" then -1
    else if s[|s| - 1] == NEWLINE then |s| - 1
    else LastNewline(s[..|s| - 1])
  }

  // A line is never empty and holds no newline.
  ghost predicate IsLine(l: string) {
    l != "" && forall j :: 0 <= j < |l| ==> l[j] != NEWLINE
  }

  ghost predicate AllLines(ls: seq<string>) {
    forall i :: 0 <= i < |ls| ==> IsLine(ls[i])
  }

  // The non-empty lines of a text, first to last.
  function Lines(s: string): (ls: seq<string>)
    decreases |s|
  {
    if s == "" then []
    else
      var k := FirstNewline(s, 0);
      var rest := if k < |s| then Lines(s[k + 1..]) else [];
      if k == 0 then rest else [s[..k]] + rest
  }

  // The text that holds exactly the given lines, each ended by a newline.
  function Unlines(ls: seq<string>): (s: string)
  {
    if ls == [] then "" else ls[0] + [NEWLINE] + Unlines(ls[1..])
  }

  // Every line is ended by a newline and none is blank, as the logger writes them.
  ghost predicate WellFormed(s: string) {
    s == "" || (s[|s| - 1] == NEWLINE && s[0] != NEWLINE
                && forall j :: 0 < j < |s| && s[j] == NEWLINE ==> s[j - 1] != NEWLINE)
  }

  lemma LinesOfPiece(l: string)
    requires forall j :: 0 <= j < |l| ==> l[j] != NEWLINE
    ensures Lines(l) == if l == "" then [] else [l]
  {
    if l != "" {
      assert FirstNewline(l, 0) == |l|;
      assert l[..|l|] == l;
    }
  }

  // Reading one line off the front.
  lemma LinesOfFirst(l: string, t: string)
    requires forall j :: 0 <= j < |l| ==> l[j] != NEWLINE
    ensures Lines(l + [NEWLINE] + t) == Lines(l) + Lines(t)
  {
    var s := l + [NEWLINE] + t;
    assert s[|l|] == NEWLINE;
    FirstNewlineUnique(s, |l|) by {
      forall j | 0 <= j < |l| ensures s[j] != NEWLINE { assert s[j] == l[j]; }
    }
    assert s[..|l|] == l && s[|l| + 1..] == t;
    LinesOfPiece(l);
  }

  // Cut a text at its first newline.
  lemma CutAtNewline(s: string) returns (l: string, t: string)
    requires NEWLINE in s
    ensures s == l + [NEWLINE] + t
    ensures forall j :: 0 <= j < |l| ==> l[j] != NEWLINE
  {
    var k := FirstNewline(s, 0);
    l, t := s[..k], s[k + 1..];
  }

  // A newline separates: reading across it is reading both sides.
  lemma {:induction false} LinesAcrossNewline(a: string, b: string)
    ensures Lines(a + [NEWLINE] + b) == Lines(a) + Lines(b)
    decreases |a|
  {
    if NEWLINE in a {
      var l, t := CutAtNewline(a);
      calc {
        Lines(a + [NEWLINE] + b);
        { assert a + [NEWLINE] + b == l + [NEWLINE] + (t + [NEWLINE] + b); }
        Lines(l + [NEWLINE] + (t + [NEWLINE] + b));
        { LinesOfFirst(l, t + [NEWLINE] + b); }
        Lines(l) + Lines(t + [NEWLINE] + b);
        { LinesAcrossNewline(t, b); }
        Lines(l) + (Lines(t) + Lines(b));
        (Lines(l) + Lines(t)) + Lines(b);
        { LinesOfFirst(l, t); }
        Lines(a) + Lines(b);
      }
    } else {
      LinesOfFirst(a, b);
    }
  }

  lemma FirstNewlineUnique(s: string, k: nat)
    requires k < |s| && s[k] == NEWLINE && forall j :: 0 <= j < k ==> s[j] != NEWLINE
    ensures FirstNewline(s, 0) == k
  {
  }

  lemma {:induction false} UnlinesAppend(a: seq<string>, b: seq<string>)
    ensures Unlines(a + b) == Unlines(a) + Unlines(b)
    decreases |a|
  {
    if a == [] {
      assert a + b == b;
    } else {
      assert (a + b)[1..] == a[1..] + b;
      UnlinesAppend(a[1..], b);
    }
  }

  lemma {:induction false} LinesAreLines(s: string)
    ensures AllLines(Lines(s))
    decreases |s|
  {
    if NEWLINE in s {
      var l, t := CutAtNewline(s);
      LinesOfFirst(l, t);
      LinesOfPiece(l);
      LinesAreLines(t);
    } else {
      LinesOfPiece(s);
    }
  }

  // Writing lines out and reading them back gives the same lines.
  lemma {:induction false} LinesOfUnlines(ls: seq<string>)
    requires AllLines(ls)
    ensures Lines(Unlines(ls)) == ls
    decreases |ls|
  {
    if ls != [] {
      hide Lines;
      assert IsLine(ls[0]);
      LinesOfFirst(ls[0], Unlines(ls[1..]));
      LinesOfPiece(ls[0]);
      LinesOfUnlines(ls[1..]);
      assert ls == [ls[0]] + ls[1..];
    }
  }

  lemma WellFormedTail(l: string, t: string)
    requires WellFormed(l + [NEWLINE] + t)
    ensures l != "" && WellFormed(t)
  {
    var s := l + [NEWLINE] + t;
    assert s[|l|] == NEWLINE;
    if t != "" {
      assert t[|t| - 1] == s[|s| - 1];
      assert t[0] == s[|l| + 1];
      forall j | 0 < j < |t| && t[j] == NEWLINE ensures t[j - 1] != NEWLINE {
        assert t[j] == s[|l| + 1 + j] && t[j - 1] == s[|l| + j];
      }
    }
  }

  // The files on which position arithmetic is right are exactly the written-out line lists.
  lemma {:induction false} UnlinesOfLines(s: string)
    requires WellFormed(s)
    ensures Unlines(Lines(s)) == s
    decreases |s|
  {
    if s != "" {
      assert s[|s| - 1] == NEWLINE;
      var l, t := CutAtNewline(s);
      WellFormedTail(l, t);
      UnlinesOfLines(t);
      LinesOfFirst(l, t);
      LinesOfPiece(l);
    }
  }

  lemma {:induction false} UnlinesWellFormed(ls: seq<string>)
    requires AllLines(ls)
    ensures WellFormed(Unlines(ls))
    decreases |ls|
  {
    if ls != [] {
      UnlinesWellFormed(ls[1..]);
      var s, l, t := Unlines(ls), ls[0], Unlines(ls[1..]);
      assert IsLine(l);
      assert s[|l|] == NEWLINE;
      assert s[0] == l[0];
      if t != "" { assert s[|s| - 1] == t[|t| - 1]; }
      forall j | 0 < j < |s| && s[j] == NEWLINE ensures s[j - 1] != NEWLINE {
        if j <= |l| {
          assert s[j - 1] == l[j - 1];
        } else {
          assert s[j] == t[j - |l| - 1];
          if j - |l| - 1 > 0 { assert s[j - 1] == t[j - |l| - 2]; }
        }
      }
    }
  }
}
