/** Exact decimal gigabytes: `storageFormat.ts`. */
module StorageFormat {
  import opened Wrappers
  import opened Basics
  import opened Decimal

  const BYTES_PER_GB: nat := 1_000_000_000

  /** The characters that JavaScript's `trim` removes. */
  predicate IsSpace(c: char) {
    var code := c as int;
    || 9 <= code <= 13 || 0x2000 <= code <= 0x200A
    || code in {32, 160, 0x1680, 0x2028, 0x2029, 0x202F, 0x205F, 0x3000, 0xFEFF}
  }

  function Trim(s: string): string {
    TrimEnd(TrimStart(s, IsSpace), IsSpace)
  }

  function Zeros(n: nat): string {
    seq(n, _ => '0')
  }

  function PadStart(s: string, width: nat): string {
    if |s| < width then Zeros(width - |s|) + s else s
  }

  function PadEnd(s: string, width: nat): string {
    if |s| < width then s + Zeros(width - |s|) else s
  }

  function StripZeros(s: string): string {
    if s != [] && s[|s| - 1] == '0' then StripZeros(s[..|s| - 1]) else s
  }

  /** A non-empty digit string as a number. */
  function Bytes(value: Option<string>): Option<nat> {
    if value.Some? && value.value != [] && AllDigits(value.value) then Some(NatValue(value.value)) else None
  }

  function Spelled(whole: string, fraction: string): string {
    if fraction != [] then whole + "." + fraction else whole
  }

  function GbText(amount: nat): string {
    Spelled(NatText(amount / BYTES_PER_GB), StripZeros(PadStart(NatText(amount % BYTES_PER_GB), 9)))
  }

  function BytesToGbInput(value: Option<string>): string {
    var amount := Bytes(value);
    if amount.None? then "" else GbText(amount.value)
  }

  function Dot(s: string): (d: nat)
    ensures d <= |s| && (d < |s| ==> s[d] == '.') && '.' !in s[..d]
  {
    if s == [] then 0 else if s[0] == '.' then 0 else 1 + Dot(s[1..])
  }

  /** The two groups of the pattern: digits, and up to nine digits after a dot. */
  function Parts(s: string): (p: Option<(string, string)>)
    ensures p.Some? ==> AllDigits(p.value.0) && AllDigits(p.value.1) && |p.value.1| <= 9
  {
    var d := Dot(s);
    var whole, fraction := s[..d], if d < |s| then s[d + 1..] else "";
    if whole == [] || !AllDigits(whole) then None
    else if d == |s| then Some((whole, ""))
    else if AllDigits(fraction) && 1 <= |fraction| <= 9 then Some((whole, fraction))
    else None
  }

  lemma PadEndDigits(s: string, width: nat)
    requires AllDigits(s)
    ensures AllDigits(PadEnd(s, width))
  {
  }

  function Amount(whole: string, fraction: string): nat
    requires AllDigits(whole) && AllDigits(fraction)
  {
    PadEndDigits(fraction, 9);
    NatValue(whole) * BYTES_PER_GB + NatValue(PadEnd(fraction, 9))
  }

  function GbToBytes(value: string): Option<string> {
    var parts := Parts(Trim(value));
    if parts.None? then None
    else
      var result := Amount(parts.value.0, parts.value.1);
      if result > 0 then Some(NatText(result)) else None
  }

  // ----- Digit strings -----

  lemma LastDigit(x: nat, d: nat, y: nat, e: nat)
    requires d < 10 && e < 10 && x * 10 + d == y * 10 + e
    ensures x == y && d == e
  {
  }

  lemma {:induction false} SameValueSameText(a: string, b: string)
    requires AllDigits(a) && AllDigits(b) && |a| == |b| && NatValue(a) == NatValue(b)
    ensures a == b
  {
    if a != [] {
      var i, j := a[..|a| - 1], b[..|b| - 1];
      assert IsDigit(a[|a| - 1]) && IsDigit(b[|b| - 1]);
      LastDigit(NatValue(i), DigitValue(a[|a| - 1]), NatValue(j), DigitValue(b[|b| - 1]));
      SameValueSameText(i, j);
      assert a == i + [a[|a| - 1]] && b == j + [b[|b| - 1]];
    }
  }

  lemma {:induction false} ZerosAreZero(n: nat)
    ensures AllDigits(Zeros(n)) && NatValue(Zeros(n)) == 0
  {
    if n > 0 {
      ZerosAreZero(n - 1);
      assert Zeros(n)[..n - 1] == Zeros(n - 1);
    }
  }

  lemma {:induction false} NatTextLength(n: nat, width: nat)
    requires n < Pow10(width) && width > 0
    ensures |NatText(n)| <= width
  {
    if n >= 10 {
      assert width > 1;
      NatTextLength(n / 10, width - 1);
    }
  }

  lemma Pow10Of9()
    ensures Pow10(9) == BYTES_PER_GB
  {
    assert Pow10(3) == 1000;
    assert Pow10(6) == 1000000;
  }

  /** Nine digits are the zero-padded text of their value. */
  lemma PaddedText(p: string)
    requires AllDigits(p) && |p| == 9
    ensures NatValue(p) < BYTES_PER_GB && PadStart(NatText(NatValue(p)), 9) == p
  {
    NatValueBound(p);
    Pow10Of9();
    PaddedValue(NatValue(p));
    SameValueSameText(PadStart(NatText(NatValue(p)), 9), p);
  }

  lemma PaddedValue(v: nat)
    requires v < BYTES_PER_GB
    ensures var p := PadStart(NatText(v), 9); |p| == 9 && AllDigits(p) && NatValue(p) == v
  {
    Pow10Of9();
    NatTextCanonical(v);
    NatTextLength(v, 9);
    var t := NatText(v);
    ZerosInFront(9 - |t|, t);
    if |t| == 9 {
      assert Zeros(0) + t == t;
    }
  }

  lemma ZerosInFront(n: nat, t: string)
    requires AllDigits(t)
    ensures AllDigits(Zeros(n) + t) && NatValue(Zeros(n) + t) == NatValue(t)
  {
    ZerosAreZero(n);
    NatValueConcat(Zeros(n), t);
  }

  lemma {:induction false} StripThenPad(s: string)
    requires AllDigits(s)
    ensures AllDigits(StripZeros(s)) && |StripZeros(s)| <= |s| && PadEnd(StripZeros(s), |s|) == s
  {
    if s != [] && s[|s| - 1] == '0' {
      var init := s[..|s| - 1];
      StripThenPad(init);
      assert s == init + ['0'];
      var t := StripZeros(init);
      assert Zeros(|s| - |t|) == Zeros(|init| - |t|) + ['0'];
      if |t| == |init| {
        assert t == init;
      }
    }
  }

  /** Padding with zeros is undone by stripping them, unless the text already ended in one. */
  lemma {:induction false} PadThenStrip(s: string, width: nat)
    requires |s| <= width
    ensures StripZeros(PadEnd(s, width)) == s <==> s == [] || s[|s| - 1] != '0'
  {
    StripPadded(s, width - |s|);
    assert PadEnd(s, width) == s + Zeros(width - |s|);
    StripShorter(s);
  }

  lemma {:induction false} StripPadded(s: string, n: nat)
    ensures StripZeros(s + Zeros(n)) == StripZeros(s)
  {
    if n == 0 {
      assert s + Zeros(0) == s;
    } else {
      assert (s + Zeros(n))[..|s| + n - 1] == s + Zeros(n - 1);
      StripPadded(s, n - 1);
    }
  }

  lemma {:induction false} StripShorter(s: string)
    ensures |StripZeros(s)| <= |s|
    ensures StripZeros(s) == s <==> s == [] || s[|s| - 1] != '0'
  {
    if s != [] && s[|s| - 1] == '0' {
      StripShorter(s[..|s| - 1]);
    }
  }

  // ----- Spaces and dots -----

  lemma {:induction false} NothingToTrim(s: string)
    requires forall c | c in s :: !IsSpace(c)
    ensures Trim(s) == s
  {
    if s != [] {
      assert s[0] in s && s[|s| - 1] in s;
    }
  }

  lemma {:induction false} DotAt(a: string, b: string)
    requires '.' !in a && (b == [] || b[0] == '.')
    ensures Dot(a + b) == |a|
  {
    if a == [] {
      assert a + b == b;
    } else {
      assert a[0] in a;
      assert (a + b)[1..] == a[1..] + b;
      DotAt(a[1..], b);
    }
  }

  lemma DigitsAreNoDots(s: string)
    requires AllDigits(s)
    ensures '.' !in s && forall c | c in s :: !IsSpace(c)
  {
  }

  lemma PartsOf(whole: string, fraction: string)
    requires whole != [] && AllDigits(whole) && AllDigits(fraction) && |fraction| <= 9
    ensures var s := Spelled(whole, fraction); Trim(s) == s && Parts(s) == Some((whole, fraction))
  {
    DigitsAreNoDots(whole);
    DigitsAreNoDots(fraction);
    var s := Spelled(whole, fraction);
    NothingToTrim(s);
    var b := if fraction != [] then "." + fraction else "";
    assert s == whole + b;
    DotAt(whole, b);
    assert s[..|whole|] == whole;
    if fraction != [] {
      assert s[|whole| + 1..] == fraction;
    }
  }

  lemma PartsSpell(s: string)
    requires Parts(s).Some?
    ensures s == Spelled(Parts(s).value.0, Parts(s).value.1)
  {
    var d := Dot(s);
    if d < |s| {
      assert s == s[..d] + "." + s[d + 1..];
    } else {
      assert s[..d] == s;
    }
  }

  /** One or more digits, and after a dot one to nine digits. */
  predicate GbSpelling(s: string, whole: string, fraction: string) {
    whole != [] && AllDigits(whole) && AllDigits(fraction) && |fraction| <= 9 && s == Spelled(whole, fraction)
  }

  /** A text has these two parts if and only if it spells them. */
  lemma PartsExactly(s: string, whole: string, fraction: string)
    ensures Parts(s) == Some((whole, fraction)) <==> GbSpelling(s, whole, fraction)
  {
    if Parts(s) == Some((whole, fraction)) {
      PartsSpell(s);
    } else if GbSpelling(s, whole, fraction) {
      PartsOf(whole, fraction);
    }
  }

  /** The number of bytes: the dot moved nine places to the right. */
  lemma AmountMoves(whole: string, fraction: string)
    requires AllDigits(whole) && AllDigits(fraction) && |fraction| <= 9
    ensures AllDigits(whole + fraction + Zeros(9 - |fraction|))
    ensures Amount(whole, fraction) == NatValue(whole + fraction + Zeros(9 - |fraction|))
  {
    var padded := PadEnd(fraction, 9);
    PadEndDigits(fraction, 9);
    NatValueConcat(whole, padded);
    Pow10Of9();
    assert whole + fraction + Zeros(9 - |fraction|) == whole + padded;
  }

  /** A trimmed text that spells a positive amount gives that amount, and no other text gives anything. */
  lemma GbMeans(text: string, whole: string, fraction: string)
    requires GbSpelling(Trim(text), whole, fraction)
    ensures var digits := whole + fraction + Zeros(9 - |fraction|);
      AllDigits(digits) && GbToBytes(text) == if NatValue(digits) > 0 then Some(NatText(NatValue(digits))) else None
  {
    PartsExactly(Trim(text), whole, fraction);
    AmountMoves(whole, fraction);
  }

  lemma GbNeedsSpelling(text: string)
    requires forall whole, fraction :: !GbSpelling(Trim(text), whole, fraction)
    ensures GbToBytes(text).None?
  {
    var parts := Parts(Trim(text));
    if parts.Some? {
      PartsExactly(Trim(text), parts.value.0, parts.value.1);
    }
  }

  /** Trimming cuts white space off both ends, and all of it. */
  lemma TrimExactly(s: string) returns (a: string, b: string)
    ensures s == a + Trim(s) + b && forall c | c in a + b :: IsSpace(c)
    ensures Trim(s) == [] || (!IsSpace(Trim(s)[0]) && !IsSpace(Trim(s)[|Trim(s)| - 1]))
  {
    var t := TrimStart(s, IsSpace);
    a := TrimStartCuts(s, IsSpace);
    b := TrimEndCuts(t, IsSpace);
    assert t != [] && Trim(s) != [] ==> Trim(s)[0] == t[0];
  }

  // ----- Round trips -----

  lemma DivideAmount(whole: nat, rest: nat)
    requires rest < BYTES_PER_GB
    ensures (whole * BYTES_PER_GB + rest) / BYTES_PER_GB == whole
    ensures (whole * BYTES_PER_GB + rest) % BYTES_PER_GB == rest
  {
  }

  /** A printed amount parses to that amount. */
  lemma GbTextReadsBack(amount: nat)
    ensures var parts := Parts(GbText(amount));
      Trim(GbText(amount)) == GbText(amount) && parts.Some? && Amount(parts.value.0, parts.value.1) == amount
  {
    var w, r := amount / BYTES_PER_GB, amount % BYTES_PER_GB;
    var padded := PadStart(NatText(r), 9);
    PaddedValue(r);
    StripThenPad(padded);
    NatTextCanonical(w);
    PartsOf(NatText(w), StripZeros(padded));
  }

  /** Only a non-empty digit string is printed. */
  lemma PrintsDigitsOnly(value: Option<string>)
    ensures BytesToGbInput(value) != "" <==> value.Some? && value.value != "" && AllDigits(value.value)
  {
    if value.Some? && value.value != "" && AllDigits(value.value) {
      GbTextReadsBack(NatValue(value.value));
    }
  }

  /** Printing then parsing gives the canonical text of any positive amount, and nothing for anything else. */
  lemma PrintThenParse(value: Option<string>)
    ensures GbToBytes(BytesToGbInput(value)) ==
            if Bytes(value).Some? && Bytes(value).value > 0 then Some(NatText(Bytes(value).value)) else None
  {
    if Bytes(value).Some? {
      GbTextReadsBack(Bytes(value).value);
    } else {
      assert Parts(Trim("")) == None;
    }
  }

  /** What was parsed, printed and parsed again, is the same number of bytes. */
  lemma ParseThenPrint(text: string)
    requires GbToBytes(text).Some?
    ensures GbToBytes(BytesToGbInput(GbToBytes(text))) == GbToBytes(text)
  {
    var parts := Parts(Trim(text));
    NatTextCanonical(Amount(parts.value.0, parts.value.1));
    PrintThenParse(GbToBytes(text));
  }

  /** No space around it, no needless zero on either side of the dot. */
  predicate Tidy(text: string) {
    var parts := Parts(text);
    && Trim(text) == text
    && parts.Some?
    && Canonical(parts.value.0)
    && (parts.value.1 == [] || parts.value.1[|parts.value.1| - 1] != '0')
  }

  lemma GbTextAt(amount: nat, whole: nat, rest: nat)
    requires rest < BYTES_PER_GB && amount == whole * BYTES_PER_GB + rest
    ensures GbText(amount) == Spelled(NatText(whole), StripZeros(PadStart(NatText(rest), 9)))
  {
    DivideAmount(whole, rest);
  }

  lemma GbTextOf(whole: string, fraction: string)
    requires AllDigits(whole) && AllDigits(fraction) && |fraction| <= 9
    ensures GbText(Amount(whole, fraction)) == Spelled(NatText(NatValue(whole)), StripZeros(PadEnd(fraction, 9)))
  {
    var padded := PadEnd(fraction, 9);
    PadEndDigits(fraction, 9);
    PaddedText(padded);
    GbTextAt(Amount(whole, fraction), NatValue(whole), NatValue(padded));
  }

  lemma {:induction false} StrippedEnd(s: string)
    ensures StripZeros(s) == [] || StripZeros(s)[|StripZeros(s)| - 1] != '0'
  {
    if s != [] && s[|s| - 1] == '0' {
      StrippedEnd(s[..|s| - 1]);
    }
  }

  /** Everything printed is tidy. */
  lemma PrintedIsTidy(amount: nat)
    ensures Tidy(GbText(amount))
  {
    var w, padded := amount / BYTES_PER_GB, PadStart(NatText(amount % BYTES_PER_GB), 9);
    PaddedValue(amount % BYTES_PER_GB);
    StripThenPad(padded);
    StrippedEnd(padded);
    NatTextCanonical(w);
    PartsOf(NatText(w), StripZeros(padded));
  }

  /** Everything tidy is printed. */
  lemma TidyIsPrinted(text: string)
    requires Tidy(text)
    ensures GbText(Amount(Parts(text).value.0, Parts(text).value.1)) == text
  {
    var (whole, fraction) := Parts(text).value;
    GbTextOf(whole, fraction);
    CanonicalIsNatText(whole);
    PadThenStrip(fraction, 9);
    PartsSpell(text);
  }

  /** Printing gives back the accepted text itself if and only if that text is tidy. */
  lemma PrintedIffTidy(text: string)
    requires GbToBytes(text).Some?
    ensures BytesToGbInput(GbToBytes(text)) == text <==> Tidy(text)
  {
    var parts := Parts(Trim(text)).value;
    var amount := Amount(parts.0, parts.1);
    NatTextCanonical(amount);
    assert BytesToGbInput(GbToBytes(text)) == GbText(amount);
    PrintedIsTidy(amount);
    if Tidy(text) {
      TidyIsPrinted(text);
    }
  }
}
