/** Printing integers in decimal, and the C library's ways of reading them back. */
module Decimal {

  predicate IsDigit(c: char) {
    '0' <= c <= '9'
  }

  function DigitChar(d: nat): (c: char)
    requires d < 10
    ensures IsDigit(c)
  {
    '0' + d as char
  }

  function DigitValue(c: char): nat
    requires IsDigit(c)
  {
    (c - '0') as nat
  }

  /** `%u`, and `<<` on a stream, for a number that is not negative. */
  function Digits(n: nat): (s: string)
    ensures s != [] && forall c | c in s :: IsDigit(c)
  {
    if n < 10 then [DigitChar(n)] else Digits(n / 10) + [DigitChar(n % 10)]
  }

  /** `<<` on a stream of an int. */
  function IntText(n: int): string {
    if n < 0 then "-" + Digits(-n) else Digits(n)
  }

  /** Value of a run of digits; the empty run is 0. */
  function Value(s: string): nat
    requires forall c | c in s :: IsDigit(c)
  {
    if s == [] then 0 else 10 * Value(s[..|s| - 1]) + DigitValue(s[|s| - 1])
  }

  lemma {:induction false} ValueOfDigits(n: nat)
    ensures Value(Digits(n)) == n
  {
    var s := Digits(n);
    if n >= 10 {
      ValueOfDigits(n / 10);
      assert s[..|s| - 1] == Digits(n / 10);
    } else {
      assert s[..0] == [];
    }
  }

  /** Decimal notation: no leading zero, and a sign for negative numbers only. */
  lemma {:induction false} Canonical(n: nat)
    ensures n > 0 ==> Digits(n)[0] != '0'
    ensures Digits(0) == "0" && IntText(n) == Digits(n)
    ensures var m: int := -(n as int); n > 0 ==> IntText(m) == "-" + Digits(n)
  {
    if n >= 10 {
      Canonical(n / 10);
    }
  }

  /** The longest run of digits from position p. */
  function RunEnd(s: string, p: nat): (e: nat)
    requires p <= |s|
    ensures p <= e <= |s|
    ensures forall i | p <= i < e :: IsDigit(s[i])
    ensures e < |s| ==> !IsDigit(s[e])
    decreases |s| - p
  {
    if p < |s| && IsDigit(s[p]) then RunEnd(s, p + 1) else p
  }

  /** `isspace` in the C locale. */
  predicate IsSpace(c: char) {
    c == ' ' || '\t' <= c <= '\r'
  }

  function SkipSpace(s: string, p: nat): (e: nat)
    requires p <= |s|
    ensures p <= e <= |s|
    decreases |s| - p
  {
    if p < |s| && IsSpace(s[p]) then SkipSpace(s, p + 1) else p
  }

  /** `atoi`, for values an int can hold. */
  function Atoi(s: string): int {
    var p := SkipSpace(s, 0);
    var signed := p < |s| && (s[p] == '-' || s[p] == '+');
    var q := if signed then p + 1 else p;
    var v: int := Value(s[q..RunEnd(s, q)]);
    if signed && s[p] == '-' then -v else v
  }

  lemma {:induction false} RunEndAll(s: string, p: nat)
    requires p <= |s| && forall i | p <= i < |s| :: IsDigit(s[i])
    ensures RunEnd(s, p) == |s|
    decreases |s| - p
  {
    if p < |s| {
      RunEndAll(s, p + 1);
    }
  }

  lemma AtoiOfDigits(n: nat)
    ensures Atoi(Digits(n)) == n
  {
    var s := Digits(n);
    assert s[0] in s;
    RunEndAll(s, 0);
    assert s[0..|s|] == s;
    ValueOfDigits(n);
  }

  // ---------- atoi on any text ----------

  lemma CharactersListed(c: char)
    ensures IsDigit(c) <==> c in "0123456789"
    ensures IsSpace(c) <==> c in " \t\n\r" || c == 11 as char || c == 12 as char
  {
    if IsDigit(c) {
      assert c == "0123456789"[c as int - '0' as int];
    }
  }

  lemma {:induction false} SkipsTo(s: string, i: nat, p: nat)
    requires i <= p <= |s| && (forall k | i <= k < p :: IsSpace(s[k])) && (p < |s| ==> !IsSpace(s[p]))
    ensures SkipSpace(s, i) == p
    decreases p - i
  {
    if i < p {
      SkipsTo(s, i + 1, p);
    }
  }

  lemma {:induction false} RunsTo(s: string, i: nat, e: nat)
    requires i <= e <= |s| && (forall k | i <= k < e :: IsDigit(s[k])) && (e < |s| ==> !IsDigit(s[e]))
    ensures RunEnd(s, i) == e
    decreases e - i
  {
    if i < e {
      RunsTo(s, i + 1, e);
    }
  }

  predicate IsSign(c: char) {
    c == '-' || c == '+'
  }

  /** By positions: white space up to p, a sign up to q, digits up to e. */
  lemma AtoiAt(s: string, p: nat, q: nat, e: nat)
    requires p <= q <= p + 1 && q <= e <= |s|
    requires (forall k | 0 <= k < p :: IsSpace(s[k])) && (p < |s| ==> !IsSpace(s[p]))
    requires if q == p then p < |s| ==> !IsSign(s[p]) else IsSign(s[p])
    requires (forall k | q <= k < e :: IsDigit(s[k])) && (e < |s| ==> !IsDigit(s[e]))
    ensures forall c | c in s[q..e] :: IsDigit(c)
    ensures var v: int := Value(s[q..e]); Atoi(s) == if q > p && s[p] == '-' then -v else v
  {
    hide Value, IsDigit, IsSpace;
    SkipsTo(s, 0, p);
    RunsTo(s, q, e);
  }

  lemma Joined(a: string, b: string)
    ensures forall k | 0 <= k < |a| :: (a + b)[k] == a[k]
    ensures forall k | |a| <= k < |a + b| :: (a + b)[k] == b[k - |a|]
  {
  }

  /** White space, at most one sign, and digits: their value, whatever follows them. */
  lemma AtoiReads(space: string, sign: string, digits: string, rest: string)
    requires forall c | c in space :: c in " \t\n\r" || c == 11 as char || c == 12 as char
    requires sign == "" || sign == "-" || sign == "+"
    requires digits != "" && (forall c | c in digits :: c in "0123456789") && (rest != "" ==> rest[0] !in "0123456789")
    ensures forall c | c in digits :: IsDigit(c)
    ensures var v: int := Value(digits); Atoi(space + (sign + (digits + rest))) == if sign == "-" then -v else v
  {
    hide Value, IsDigit, IsSpace, Atoi;
    var s, p := space + (sign + (digits + rest)), |space|;
    var q := p + |sign|;
    var e := q + |digits|;
    Joined(space, sign + (digits + rest));
    Joined(sign, digits + rest);
    Joined(digits, rest);
    forall k | 0 <= k < p
      ensures IsSpace(s[k])
    {
      CharactersListed(s[k]);
      assert s[k] in space;
    }
    forall k | q <= k < e
      ensures IsDigit(s[k])
    {
      CharactersListed(s[k]);
      assert s[k] == digits[k - q] && digits[k - q] in digits;
    }
    CharactersListed(s[p]);
    CharactersListed(s[q]);
    if e < |s| {
      CharactersListed(s[e]);
    }
    assert digits[0] in digits;
    AtoiAt(s, p, q, e);
    SliceIs(s, q, e, digits);
  }

  lemma SliceIs(s: string, q: nat, e: nat, digits: string)
    requires q <= e <= |s| && e - q == |digits| && forall k | q <= k < e :: s[k] == digits[k - q]
    ensures s[q..e] == digits
  {
  }

  /** Without a digit behind white space and a sign it is 0. */
  lemma AtoiOfNothing(space: string, sign: string)
    requires forall c | c in space :: c in " \t\n\r" || c == 11 as char || c == 12 as char
    requires sign == "" || sign == "-" || sign == "+"
    ensures Atoi(space + sign) == 0
  {
    hide IsSpace;
    forall c: char
      ensures IsSpace(c) <==> c in " \t\n\r" || c == 11 as char || c == 12 as char
    {
      CharactersListed(c);
    }
    var s, p := space + sign, |space|;
    assert forall k | 0 <= k < p :: s[k] == space[k];
    assert forall k | p <= k < |s| :: s[k] == sign[k - p];
    SkipsTo(s, 0, p);
    RunsTo(s, |s|, |s|);
    assert s[|s|..|s|] == "";
  }
}
