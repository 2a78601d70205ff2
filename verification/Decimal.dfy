/** Decimal text of natural numbers. */
module Decimal {

  predicate IsDigit(c: char) {
    '0' <= c <= '9'
  }

  predicate AllDigits(s: string) {
    forall c | c in s :: IsDigit(c)
  }

  function Digit(d: nat): char
    requires d < 10
  {
    ('0' as int + d) as char
  }

  function DigitValue(c: char): nat
    requires IsDigit(c)
  {
    c as int - '0' as int
  }

  /** The shortest decimal text of `n`, as `format!("{n}")` and `BigInt.toString` print it. */
  function NatText(n: nat): string {
    if n < 10 then [Digit(n)] else NatText(n / 10) + [Digit(n % 10)]
  }

  /** The number a digit string denotes; leading zeros are allowed. */
  function NatValue(s: string): nat
    requires AllDigits(s)
  {
    if s == [] then 0 else NatValue(s[..|s| - 1]) * 10 + DigitValue(s[|s| - 1])
  }

  function Pow10(n: nat): (p: nat)
    ensures p > 0
  {
    if n == 0 then 1 else 10 * Pow10(n - 1)
  }

  predicate Canonical(s: string) {
    s != [] && AllDigits(s) && (s[0] == '0' ==> |s| == 1)
  }

  lemma {:induction false} NatTextCanonical(n: nat)
    ensures Canonical(NatText(n))
    ensures NatText(n)[0] == '0' <==> n == 0
    ensures NatValue(NatText(n)) == n
  {
    if n >= 10 {
      NatTextCanonical(n / 10);
      var s := NatText(n);
      assert s[..|s| - 1] == NatText(n / 10);
    } else {
      assert NatText(n)[..0] == [];
    }
  }

  lemma NatTextStep(v: nat, d: nat)
    requires 0 < v && d < 10
    ensures NatText(v * 10 + d) == NatText(v) + [Digit(d)]
  {
    assert (v * 10 + d) / 10 == v && (v * 10 + d) % 10 == d;
  }

  lemma OneDigit(s: string)
    requires |s| == 1 && IsDigit(s[0])
    ensures NatValue(s) == DigitValue(s[0]) && NatText(DigitValue(s[0])) == s
  {
    assert s[..0] == [];
    assert Digit(DigitValue(s[0])) == s[0];
  }

  lemma CanonicalInit(s: string)
    requires Canonical(s) && |s| > 1
    ensures Canonical(s[..|s| - 1]) && s[0] != '0' && s[..|s| - 1][0] == s[0]
  {
  }

  /** A canonical digit string is the text of its value. */
  lemma {:induction false} CanonicalIsNatText(s: string)
    requires Canonical(s)
    ensures NatText(NatValue(s)) == s
    ensures s[0] != '0' ==> NatValue(s) > 0
  {
    if |s| == 1 {
      OneDigit(s);
    } else {
      CanonicalInit(s);
      var init, last := s[..|s| - 1], s[|s| - 1];
      CanonicalIsNatText(init);
      assert IsDigit(last) && Digit(DigitValue(last)) == last;
      NatTextStep(NatValue(init), DigitValue(last));
      assert init + [last] == s;
    }
  }

  lemma ScaleUp(x: nat, p: nat, y: nat, d: nat)
    ensures (x * p + y) * 10 + d == x * (10 * p) + (y * 10 + d)
  {
  }

  lemma {:induction false} NatValueConcat(a: string, b: string)
    requires AllDigits(a) && AllDigits(b)
    ensures AllDigits(a + b) && NatValue(a + b) == NatValue(a) * Pow10(|b|) + NatValue(b)
  {
    if b == [] {
      assert a + b == a;
    } else {
      var init := b[..|b| - 1];
      NatValueConcat(a, init);
      assert (a + b)[..|a + b| - 1] == a + init;
      ScaleUp(NatValue(a), Pow10(|init|), NatValue(init), DigitValue(b[|b| - 1]));
    }
  }

  lemma {:induction false} NatValueBound(s: string)
    requires AllDigits(s)
    ensures NatValue(s) < Pow10(|s|)
  {
    if s != [] {
      var init := s[..|s| - 1];
      NatValueBound(init);
      assert NatValue(s) == NatValue(init) * 10 + DigitValue(s[|s| - 1]);
      assert NatValue(init) * 10 + 10 <= 10 * Pow10(|init|) == Pow10(|s|);
    }
  }

  /** The value of the digits after a decimal point. */
  function FractionValue(s: string): real
    requires AllDigits(s)
  {
    if s == [] then 0.0 else (DigitValue(s[0]) as real + FractionValue(s[1..])) / 10.0
  }

  /** Moving the decimal point behind the next digit multiplies the number by ten. */
  lemma PointMoves(whole: string, fraction: string)
    requires AllDigits(whole) && AllDigits(fraction) && fraction != []
    ensures AllDigits(whole + [fraction[0]])
    ensures (NatValue(whole) as real + FractionValue(fraction)) * 10.0 ==
            NatValue(whole + [fraction[0]]) as real + FractionValue(fraction[1..])
  {
    assert fraction[0] in fraction;
    var longer := whole + [fraction[0]];
    assert longer[..|whole|] == whole;
  }
}
