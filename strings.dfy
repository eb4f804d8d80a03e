/** The string formatting the library relies on: `'%d' % n`, prefixes and `str.lower`. */
module Strings {

  predicate IsDigit(c: char) { '0' <= c <= '9' }

  predicate AllDigits(s: string) { forall i :: 0 <= i < |s| ==> IsDigit(s[i]) }

  function DigitChar(d: nat): (c: char)
    requires d < 10
    ensures IsDigit(c)
  {
    ['0', '1', '2', '3', '4', '5', '6', '7', '8', '9'][d]
  }

  function DigitValue(c: char): nat
    requires IsDigit(c)
  {
    (c as int - '0' as int) as nat
  }

  /** `'%d' % n` for a natural number: its decimal digits, without leading zeros. */
  function NatStr(n: nat): (s: string)
    ensures |s| > 0 && AllDigits(s)
    decreases n
  {
    if n < 10 then [DigitChar(n)] else NatStr(n / 10) + [DigitChar(n % 10)]
  }

  /** `int(s)` for a string of decimal digits. */
  function ParseNat(s: string): nat
    requires AllDigits(s)
  {
    if s == [] then 0 else ParseNat(s[..|s| - 1]) * 10 + DigitValue(s[|s| - 1])
  }

  lemma DigitRoundTrip(d: nat)
    requires d < 10
    ensures DigitValue(DigitChar(d)) == d
  {
  }

  /** Parsing the decimal rendering of `n` gives `n` back. */
  lemma {:induction false} ParseNatStr(n: nat)
    ensures ParseNat(NatStr(n)) == n
    decreases n
  {
    DigitRoundTrip(n % 10);
    if n >= 10 {
      var s := NatStr(n / 10) + [DigitChar(n % 10)];
      assert s[..|s| - 1] == NatStr(n / 10);
      ParseNatStr(n / 10);
    }
  }

  /** Distinct numbers are rendered as distinct strings. */
  lemma NatStrInjective(m: nat, n: nat)
    requires m != n
    ensures NatStr(m) != NatStr(n)
  {
    ParseNatStr(m);
    ParseNatStr(n);
  }

  predicate StartsWith(s: string, prefix: string) {
    |prefix| <= |s| && s[..|prefix|] == prefix
  }

  /** `prefix + NatStr(n)` strings with distinct numbers or distinct digit-free prefixes differ. */
  lemma TaggedNumbersDiffer(p: string, m: nat, q: string, n: nat)
    requires (p == q && m != n) || (p != q && forall i :: 0 <= i < |p| ==> !IsDigit(p[i]))
    requires forall i :: 0 <= i < |q| ==> !IsDigit(q[i])
    ensures p + NatStr(m) != q + NatStr(n)
  {
    var s, t := p + NatStr(m), q + NatStr(n);
    if p == q {
      NatStrInjective(m, n);
      assert s[|p|..] == NatStr(m) && t[|q|..] == NatStr(n);
    } else if |p| < |q| {
      assert IsDigit(s[|p|]) && t[|p|] == q[|p|];
    } else if |q| < |p| {
      assert IsDigit(t[|q|]) && s[|q|] == p[|q|];
    } else {
      assert s[..|p|] == p && t[..|q|] == q;
    }
  }

  /** `str.lower()` on the ASCII letters; other characters are left as they are. */
  function LowerAscii(s: string): (r: string)
    ensures |r| == |s|
    ensures forall i :: 0 <= i < |s| ==> r[i] == (if 'A' <= s[i] <= 'Z' then (s[i] as int + 32) as char else s[i])
  {
    if s == [] then []
    else [if 'A' <= s[0] <= 'Z' then (s[0] as int + 32) as char else s[0]] + LowerAscii(s[1..])
  }

  /** `sep.join(parts)`. */
  function JoinWith(sep: string, parts: seq<string>): string {
    if parts == [] then ""
    else if |parts| == 1 then parts[0]
    else parts[0] + sep + JoinWith(sep, parts[1..])
  }
}
