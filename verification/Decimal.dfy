/**
 Decimal numbers as strconv writes and reads them.
 */
module Decimal {
  import opened Options

  function Digit(d: nat): char
    requires d < 10
  {
    '0' + d as char
  }

  predicate IsDigit(c: char) {
    '0' <= c <= '9'
  }

  function Itoa(n: nat): string {
    if n < 10 then [Digit(n)] else Itoa(n / 10) + [Digit(n % 10)]
  }

  predicate AllDigits(s: string) {
    forall i :: 0 <= i < |s| ==> IsDigit(s[i])
  }

  function Value(s: string): nat
    requires AllDigits(s)
  {
    if s == "" then 0 else Value(s[..|s| - 1]) * 10 + (s[|s| - 1] - '0') as nat
  }

  lemma {:induction false} ValueOfItoa(n: nat)
    ensures Itoa(n) != "" && AllDigits(Itoa(n)) && Value(Itoa(n)) == n
  {
    if n >= 10 {
      ValueOfItoa(n / 10);
      assert Itoa(n)[..|Itoa(n)| - 1] == Itoa(n / 10);
    } else {
      assert Itoa(n)[..0] == "";
    }
  }

  lemma ItoaInjective(m: nat, n: nat)
    requires Itoa(m) == Itoa(n)
    ensures m == n
  {
    ValueOfItoa(m);
    ValueOfItoa(n);
  }

  // ----- signed numbers of 64 bits

  const MIN_INT: int := -0x8000_0000_0000_0000
  const MAX_INT: int := 0x7fff_ffff_ffff_ffff

  predicate IsSign(c: char) {
    c == '+' || c == '-'
  }

  function Atoi(s: string): Option<int> {
    var digits := if s != "" && IsSign(s[0]) then s[1..] else s;
    if digits == "" || !AllDigits(digits) then None
    else
      var v: int := Value(digits);
      var n := if s[0] == '-' then -v else v;
      if MIN_INT <= n <= MAX_INT then Some(n) else None
  }

  function FormatInt(n: int): string {
    if n < 0 then "-" + Itoa(-n) else Itoa(n)
  }

  lemma AtoiOfFormat(n: int)
    requires MIN_INT <= n <= MAX_INT
    ensures Atoi(FormatInt(n)) == Some(n)
  {
    var s := FormatInt(n);
    var digits := Itoa(if n < 0 then -n else n);
    ValueOfItoa(if n < 0 then -n else n);
    hide Itoa, Value;
    assert n < 0 ==> s[1..] == digits;
    assert n >= 0 ==> IsDigit(s[0]);
    assert digits == if IsSign(s[0]) then s[1..] else s;
    hide AllDigits;
  }

  // No written number holds a quotation mark or a dot.
  lemma FormatPlain(n: int)
    ensures forall i :: 0 <= i < |FormatInt(n)| ==> IsDigit(FormatInt(n)[i]) || FormatInt(n)[i] == '-'
  {
    ValueOfItoa(if n < 0 then -n else n);
  }

  // The text is digits, with a sign in front or without, that stand for n.
  ghost predicate Stands(s: string, sign: string, digits: string, n: int) {
    && s == sign + digits && sign in {"", "+", "-"} && digits != "" && AllDigits(digits)
    && var v: int := Value(digits); n == if sign == "-" then -v else v
  }

  // Exactly these texts are read as numbers, when they are of 64 bits.
  lemma AtoiIff(s: string, n: int)
    ensures Atoi(s) == Some(n)
            <==> -9_223_372_036_854_775_808 <= n <= 9_223_372_036_854_775_807 && exists sign, digits :: Stands(s, sign, digits, n)
  {
    hide Value;
    if Atoi(s) == Some(n) {
      var sign := if IsSign(s[0]) then s[..1] else "";
      var digits := if IsSign(s[0]) then s[1..] else s;
      assert s == sign + digits;
      assert IsSign(s[0]) ==> sign == if s[0] == '-' then "-" else "+";
      assert !IsSign(s[0]) ==> s[0] != '-';
      assert Stands(s, sign, digits, n);
    }
    forall sign, digits | Stands(s, sign, digits, n)
      ensures s != "" && digits == (if IsSign(s[0]) then s[1..] else s) && (s[0] == '-' <==> sign == "-")
    {
      assert sign == "" ==> s == digits && IsDigit(s[0]);
      assert sign != "" ==> s[1..] == digits;
    }
  }

  // Digits have their places.
  lemma Places(s: string, d: nat)
    requires AllDigits(s) && d < 10
    ensures Digit(d) in "0123456789" && "0123456789"[d] == Digit(d)
    ensures AllDigits(s + [Digit(d)]) && Value(s + [Digit(d)]) == 10 * Value(s) + d
  {
    assert (s + [Digit(d)])[..|s|] == s;
  }
}
