/** How JSON values read as text: numbers, flags and keys. */
module JsonTexts {
  import opened Wrappers
  import opened Basics
  import opened Decimal
  import opened HexText
  import opened Json
  import opened AggregatePlan

  // ----- Numbers -----

  datatype Sign = Bare | Plus | Minus {
    function Text(): string {
      match this
      case Bare => ""
      case Plus => "+"
      case Minus => "-"
    }
  }

  /** A plain decimal: a sign, digits, and digits after a dot, with at least one digit. */
  datatype Numeral = Numeral(sign: Sign, whole: string, fraction: string, dotted: bool) {
    predicate Valid() {
      && AllDigits(whole) && AllDigits(fraction)
      && (whole != [] || fraction != []) && (fraction != [] ==> dotted)
    }

    function Body(): string {
      whole + if dotted then "." + fraction else ""
    }

    function Text(): string {
      sign.Text() + Body()
    }

    function Size(): real
      requires Valid()
    {
      NatValue(whole) as real + FractionValue(fraction)
    }

    function Value(): real
      requires Valid()
    {
      if sign.Minus? then -Size() else Size()
    }
  }

  lemma {:induction false} DotBehind(whole: string, rest: string)
    requires AllDigits(whole) && (rest == [] || rest[0] == '.')
    ensures DotIndex(whole + rest) == |whole|
  {
    if whole == [] {
      assert whole + rest == rest;
    } else {
      assert whole[0] in whole;
      DotBehind(whole[1..], rest);
      assert (whole + rest)[1..] == whole[1..] + rest;
    }
  }

  lemma MagnitudeIs(n: Numeral)
    requires n.Valid()
    ensures Magnitude(n.Body()) == Some(n.Size())
  {
    var rest := if n.dotted then "." + n.fraction else "";
    DotBehind(n.whole, rest);
    assert n.Body()[..|n.whole|] == n.whole;
    if n.dotted {
      assert n.Body()[|n.whole| + 1..] == n.fraction;
    }
  }

  /** Every plain decimal text reads as its value. */
  lemma NumeralReads(n: Numeral)
    requires n.Valid()
    ensures ParseDecimal(n.Text()) == Some(n.Value())
  {
    MagnitudeIs(n);
    var body, text := n.Body(), n.Text();
    assert body != [] && (IsDigit(body[0]) || body[0] == '.') by {
      assert n.whole != [] ==> n.whole[0] in n.whole && body[0] == n.whole[0];
    }
    if n.sign.Bare? {
      assert text == body;
    } else {
      assert text[0] == n.sign.Text()[0] && text[1..] == body;
    }
  }

  lemma MagnitudeShape(s: string, sign: Sign) returns (n: Numeral)
    requires Magnitude(s).Some?
    ensures n.Valid() && n.Body() == s && n.sign == sign
  {
    var d := DotIndex(s);
    var dotted := d < |s|;
    n := Numeral(sign, s[..d], if dotted then s[d + 1..] else "", dotted);
    DotThere(s);
    if dotted {
      assert s == s[..d] + ("." + s[d + 1..]);
    } else {
      assert s == s[..d] + "";
    }
  }

  lemma {:induction false} DotThere(s: string)
    ensures DotIndex(s) < |s| ==> s[DotIndex(s)] == '.'
  {
    if s != [] && s[0] != '.' {
      DotThere(s[1..]);
    }
  }

  /** And no other text reads as a number. */
  lemma NumberIsNumeral(s: string) returns (n: Numeral)
    requires ParseDecimal(s).Some?
    ensures n.Valid() && n.Text() == s && ParseDecimal(s) == Some(n.Value())
  {
    if s != [] && (s[0] == '-' || s[0] == '+') {
      n := MagnitudeShape(s[1..], if s[0] == '-' then Minus else Plus);
      assert s == [s[0]] + s[1..];
    } else {
      n := MagnitudeShape(s, Bare);
      assert s == "" + s;
    }
    NumeralReads(n);
  }

  lemma NoFraction(n: Numeral)
    requires n.Valid() && n.fraction == [] && !n.dotted
    ensures n.Text() == n.sign.Text() + n.whole && n.Size() == NatValue(n.whole) as real
  {
    assert n.Body() == n.whole;
    assert FractionValue([]) == 0.0;
  }

  lemma WholeNumeral(v: Value) returns (n: Numeral)
    requires IsWhole(v)
    ensures n.Valid() && n.Text() == ValueText(v) && n.Value() == v.num
  {
    var t := ValueText(v);
    WholeText(v);
    WholeIsCanonical(v);
    n := if t[0] == '-' then Numeral(Minus, t[1..], "", false) else Numeral(Bare, t, "", false);
    NoFraction(n);
    if t[0] == '-' {
      assert t == "-" + t[1..];
    } else {
      assert t == "" + t;
    }
  }

  /** A whole number and its text are the same number to the gateway. */
  lemma WholeReadsBack(v: Value)
    requires IsWhole(v)
    ensures JsonNum(Text(ValueText(v))) == JsonNum(v) == Some(v.num)
  {
    var n := WholeNumeral(v);
    NumeralReads(n);
  }

  lemma WholeIsCanonical(v: Value)
    requires IsWhole(v)
    ensures var t := ValueText(v); t != [] && (t[0] == '-' ==> |t| > 1)
  {
    var n := v.num.Floor;
    NatTextCanonical(if n < 0 then -n else n);
  }

  // ----- Flags -----

  /** The ways in which a boolean is printed: by Postgres, as JSON, as a number. */
  function Printed(b: bool): set<string> {
    {Flag(b).text, ValueText(Bool(b)), ValueText(Number(if b then 1.0 else 0.0))}
  }

  /** A text reads as a flag exactly when it is that flag printed; a number is true unless it is zero. */
  lemma FlagReads(b: bool, t: string, r: real)
    ensures AsBool(Bool(b)) == Some(b)
    ensures AsBool(Text(t)) == Some(b) <==> t in Printed(b)
    ensures AsBool(Number(r)) == Some(b) <==> b == (r != 0.0)
  {
    assert NatText(1) == "1" && NatText(0) == "0";
  }

  // ----- Keys -----

  lemma {:induction false} ArrayTextExactly(items: seq<Value>)
    ensures ArrayText(items).None? <==> exists v :: v in items && AsU64(v).None?
  {
    if items != [] {
      assert items == [items[0]] + items[1..];
      ArrayTextExactly(items[1..]);
    }
  }

  /** Every scalar has a key text, and no two numbers, two flags or two unmarked texts have the same. */
  lemma KeyTextExactly(a: Value, b: Value)
    ensures KeyText(a).None? <==> a == Null || (a.Array? && exists v :: v in a.items && AsU64(v).None?)
    ensures KeyText(a) == KeyText(b) && SameSort(a, b) ==> a == b
  {
    if a.Array? {
      ArrayTextExactly(a.items);
    }
    if IsWhole(a) && IsWhole(b) {
      WholeReadsBack(a);
      WholeReadsBack(b);
    }
  }

  predicate SameSort(a: Value, b: Value) {
    || (IsWhole(a) && IsWhole(b)) || (a.Bool? && b.Bool?)
    || (a.Text? && b.Text? && !HasByteMarker(a.text) && !HasByteMarker(b.text))
  }

  /** A key that is sent as a number or as its text is the same key. */
  lemma NumberKeyIsTextKey(v: Value)
    requires IsWhole(v)
    ensures KeyText(v) == KeyText(Text(ValueText(v)))
  {
    WholeText(v);
  }

  /** A marked text is the key without its marker. */
  lemma MarkerIsDropped(t: string)
    ensures KeyText(Text("\\x" + t)) == Some(t)
  {
    var marked := "\\x" + t;
    assert marked[2..] == t;
  }

  function Numbers(bytes: seq<Byte>): seq<Value> {
    seq(|bytes|, i requires 0 <= i < |bytes| => Number(bytes[i] as real))
  }

  lemma {:induction false} NumbersText(bytes: seq<Byte>)
    ensures ArrayText(Numbers(bytes)) == Some(Hex(bytes))
  {
    if bytes != [] {
      NumbersText(bytes[1..]);
      PairOfByte(bytes[0]);
      assert Numbers(bytes)[1..] == Numbers(bytes[1..]);
    }
  }

  /** Bytes have the same key as marked hex text and as an array of numbers, and other bytes have another. */
  lemma BytesKeyExactly(a: seq<Byte>, b: seq<Byte>)
    ensures KeyText(Array(Numbers(a))) == KeyText(Text("\\x" + Hex(a))) == Some(Hex(a))
    ensures KeyText(Array(Numbers(a))) == KeyText(Array(Numbers(b))) <==> a == b
  {
    NumbersText(a);
    NumbersText(b);
    MarkerIsDropped(Hex(a));
    HexReadsBack(a);
    HexReadsBack(b);
  }
}
