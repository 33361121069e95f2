/** Decimal printing of node numbers, as in Python's str(int), and why numbered paths never clash. */
module Decimal {

  function Digit(d: nat): char
    requires d < 10
  {
    "0123456789"[d]
  }

  function Str(n: nat): (s: string)
    ensures s != []
  {
    if n < 10 then [Digit(n)] else Str(n / 10) + [Digit(n % 10)]
  }

  // The inverse: reading a decimal numeral.
  function DigitValue(c: char): int { c as int - '0' as int }

  function Value(s: string): int {
    if s == [] then 0 else 10 * Value(s[..|s| - 1]) + DigitValue(s[|s| - 1])
  }

  lemma {:induction false} StrRoundTrip(n: nat)
    ensures Value(Str(n)) == n
  {
    if n < 10 {
      assert Str(n)[..0] == [];
    } else {
      StrRoundTrip(n / 10);
      assert Str(n)[..|Str(n)| - 1] == Str(n / 10);
    }
  }

  // A numeral: digits without a leading zero.
  predicate Numeral(s: string) {
    s != [] && (|s| > 1 ==> s[0] != '0') && forall c <- s :: '0' <= c <= '9'
  }

  // Printing is canonical: every numeral is the printed form of its value.
  lemma {:induction false} StrOfValue(s: string)
    requires Numeral(s)
    ensures Value(s) >= 0 && (s[0] != '0' ==> Value(s) > 0) && Str(Value(s)) == s
    decreases |s|
  {
    var n := |s| - 1;
    assert s == s[..n] + [s[n]] && s[n] in s;
    LastDigit(s[n]);
    if n == 0 {
      assert s[..0] == [];
    } else {
      assert s[..n][0] == s[0];
      forall c | c in s[..n] ensures c in s {}
      StrOfValue(s[..n]);
      assert Value(s) / 10 == Value(s[..n]) && Value(s) % 10 == DigitValue(s[n]);
    }
  }

  lemma LastDigit(c: char)
    requires '0' <= c <= '9'
    ensures 0 <= DigitValue(c) < 10 && Digit(DigitValue(c)) == c && (c != '0' ==> DigitValue(c) > 0)
  {
  }

  lemma StrInjective(m: nat, n: nat)
    requires Str(m) == Str(n)
    ensures m == n
  {
    StrRoundTrip(m);
    StrRoundTrip(n);
  }

  lemma {:induction false} StrHasNoUnderscore(n: nat)
    ensures '_' !in Str(n)
  {
    if n < 10 {
    } else {
      StrHasNoUnderscore(n / 10);
    }
  }

  lemma NumberedInjective(base: string, m: nat, n: nat)
    requires base + Str(m) == base + Str(n)
    ensures m == n
  {
    assert Str(m) == (base + Str(m))[|base|..];
    assert Str(n) == (base + Str(n))[|base|..];
    StrInjective(m, n);
  }

  function Underscored(x: string, a: nat): string { x + "_" + Str(a) }

  lemma NoUnderscoreAfter(x: string, a: nat)
    ensures var s := Underscored(x, a);
            s[|x|] == '_' && s[|x| + 1..] == Str(a) && s[..|x|] == x
            && forall j :: |x| < j < |s| ==> s[j] != '_'
  {
  }

  // The last underscore splits x + "_" + numeral in only one way.
  lemma {:induction false} LastUnderscore(x: string, a: nat, y: string, b: nat)
    requires Underscored(x, a) == Underscored(y, b)
    ensures x == y && a == b
  {
    NoUnderscoreAfter(x, a);
    NoUnderscoreAfter(y, b);
    assert |x| == |y|;
    StrInjective(a, b);
  }

  function DoublyNumbered(base: string, k: nat, state: string): string {
    base + Str(k) + state + Str(k)
  }

  lemma DoublyNumberedInjective(base: string, k: nat, j: nat, state: string)
    requires DoublyNumbered(base, k, state) == DoublyNumbered(base, j, state)
    ensures k == j
  {
    assert |Str(k)| == |Str(j)|;
    assert DoublyNumbered(base, k, state)[|base|..|base| + |Str(k)|] == Str(k);
    assert DoublyNumbered(base, j, state)[|base|..|base| + |Str(j)|] == Str(j);
    StrInjective(k, j);
  }

  // base + k + state + k + "_" + step determines both numbers.
  lemma StepPathInjective(base: string, state: string, k: nat, a: nat, j: nat, b: nat)
    requires Underscored(DoublyNumbered(base, k, state), a) == Underscored(DoublyNumbered(base, j, state), b)
    ensures k == j && a == b
  {
    LastUnderscore(DoublyNumbered(base, k, state), a, DoublyNumbered(base, j, state), b);
    DoublyNumberedInjective(base, k, j, state);
  }
}
