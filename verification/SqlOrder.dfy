/** The order in which Postgres puts the values of a column, and where the gateway's own order differs. */
module SqlOrder {
  import opened Wrappers
  import opened Ordering
  import opened Json

  /** How a column is compared. Dates and bytes are sent as text that sorts like the values. */
  datatype SqlType = Numbers | Texts | Booleans

  function CompareReals(a: real, b: real): int {
    if a < b then -1 else if a > b then 1 else 0
  }

  function CompareTexts(a: string, b: string): int {
    if a == b then 0 else if StrLe(a, b) then -1 else 1
  }

  function CompareFlags(a: bool, b: bool): int {
    if a == b then 0 else if b then -1 else 1
  }

  function TextOf(v: Value): string {
    if v.Text? then v.text else ""
  }

  /** Below, equal or above, as a sign. NULL is above everything else: last ascending, first descending. */
  function SqlCompareValues(t: SqlType, a: Value, b: Value): int {
    if a == Null || b == Null then CompareFlags(a == Null, b == Null)
    else
      match t
      case Numbers => CompareReals(JsonNum(a).GetOr(0.0), JsonNum(b).GetOr(0.0))
      case Texts => CompareTexts(TextOf(a), TextOf(b))
      case Booleans => CompareFlags(AsBool(a) == Some(true), AsBool(b) == Some(true))
  }

  predicate SqlLe(t: SqlType, a: Value, b: Value) {
    SqlCompareValues(t, a, b) <= 0
  }

  /** A value that a column of this type can hold; a boolean may have been printed. */
  predicate Typed(t: SqlType, v: Value) {
    v == Null ||
    match t
    case Numbers => JsonNum(v).Some?
    case Texts => v.Text?
    case Booleans => v.Bool? || v == Text("t") || v == Text("f")
  }

  lemma CompareTextsMirror(a: string, b: string)
    ensures CompareTexts(a, b) == -CompareTexts(b, a)
  {
    if a != b {
      StrLeTotal(a, b);
      if StrLe(a, b) && StrLe(b, a) {
        StrLeAntisymmetric(a, b);
      }
    }
  }

  lemma CompareTextsTransitive(a: string, b: string, c: string)
    requires CompareTexts(a, b) <= 0 && CompareTexts(b, c) <= 0
    ensures CompareTexts(a, c) <= 0 && (CompareTexts(a, c) == 0 ==> CompareTexts(a, b) == CompareTexts(b, c) == 0)
  {
    if a != b && b != c {
      StrLeTransitive(a, b, c);
      if a == c {
        StrLeAntisymmetric(a, b);
      }
    }
  }

  lemma SqlMirror(t: SqlType, a: Value, b: Value)
    ensures SqlCompareValues(t, a, b) == -SqlCompareValues(t, b, a)
  {
    CompareTextsMirror(TextOf(a), TextOf(b));
  }

  lemma SqlReflexive(t: SqlType, a: Value)
    ensures SqlLe(t, a, a)
  {
  }

  /** SQL's order is total and transitive, and strict where one of two steps is. */
  lemma SqlTransitive(t: SqlType, a: Value, b: Value, c: Value)
    requires SqlLe(t, a, b) && SqlLe(t, b, c)
    ensures SqlLe(t, a, c)
    ensures SqlCompareValues(t, a, c) == 0 ==> SqlCompareValues(t, a, b) == SqlCompareValues(t, b, c) == 0
  {
    if a != Null && b != Null && c != Null && t.Texts? {
      CompareTextsTransitive(TextOf(a), TextOf(b), TextOf(c));
    }
  }

  // ----- `json_le` against SQL's order -----

  /** What the gateway takes for the smaller of two of these values is no larger in SQL's order. */
  ghost predicate Agrees(t: SqlType, vals: seq<Value>) {
    forall a, b | a in vals && b in vals && JsonLe(a, b) :: SqlLe(t, a, b)
  }

  /** Texts that read as numbers stand in the same order as numbers and as texts. */
  ghost predicate ReadAlike(vals: set<Value>) {
    forall a, b | a in vals && b in vals && BelowAsNumbers(a, b) :: StrLe(TextOf(a), TextOf(b))
  }

  predicate BelowAsNumbers(a: Value, b: Value) {
    JsonNum(a).Some? && JsonNum(b).Some? && JsonNum(a).value <= JsonNum(b).value
  }

  lemma TextsLe(a: string, b: string)
    ensures CompareTexts(a, b) <= 0 <==> StrLe(a, b)
  {
    if a == b {
      StrLeTotal(a, b);
    }
  }

  lemma PrintedFlags()
    ensures JsonNum(Text("t")).None? && JsonNum(Text("f")).None?
    ensures StrLe("f", "t") && !StrLe("t", "f")
  {
    assert "t"[0] in "t" && "f"[0] in "f";
    assert DotIndex("t") == 1 && DotIndex("f") == 1;
    assert "t"[..1] == "t" && "f"[..1] == "f";
  }

  lemma BooleanText(v: Value)
    requires Typed(Booleans, v) && v != Null
    ensures JsonNum(v).None? && ValueText(v) != []
    ensures ValueText(v)[0] == if AsBool(v) == Some(true) then 't' else 'f'
  {
    PrintedFlags();
  }

  lemma BooleansAgree(a: Value, b: Value)
    requires Typed(Booleans, a) && Typed(Booleans, b) && a != Null && b != Null && JsonLe(a, b)
    ensures SqlLe(Booleans, a, b)
  {
    BooleanText(a);
    BooleanText(b);
  }

  lemma TextsAgree(a: Value, b: Value)
    requires a.Text? && b.Text?
    ensures JsonLe(a, b) ==> SqlLe(Texts, a, b) || BelowAsNumbers(a, b)
    ensures BelowAsNumbers(a, b) ==> JsonLe(a, b)
    ensures SqlLe(Texts, a, b) <==> StrLe(TextOf(a), TextOf(b))
  {
    TextsLe(a.text, b.text);
  }

  /**
   * The gateway's order of a typed column agrees with SQL's if and only if it is no text column, or
   * its texts that read as numbers are ordered alike as numbers and as texts.
   */
  lemma AgreesExactly(t: SqlType, vals: seq<Value>)
    requires forall v | v in vals :: Typed(t, v) && v != Null
    ensures Agrees(t, vals) <==> (t.Texts? ==> ReadAlike(set v | v in vals))
  {
    if t.Texts? {
      forall a, b | a in vals && b in vals
        ensures JsonLe(a, b) ==> SqlLe(t, a, b) || BelowAsNumbers(a, b)
        ensures BelowAsNumbers(a, b) ==> JsonLe(a, b)
        ensures SqlLe(t, a, b) <==> StrLe(TextOf(a), TextOf(b))
      {
        TextsAgree(a, b);
      }
    } else if t.Booleans? {
      forall a, b | a in vals && b in vals && JsonLe(a, b) ensures SqlLe(t, a, b) {
        BooleansAgree(a, b);
      }
    }
  }

  /** 9 is below 10, but not in a column of texts. */
  lemma DigitTexts()
    ensures JsonLe(Text("9"), Text("10")) && !SqlLe(Texts, Text("9"), Text("10"))
    ensures !Agrees(Texts, [Text("9"), Text("10")])
  {
    SampleNumbers();
    assert !StrLe("9", "10");
    var vals := [Text("9"), Text("10")];
    assert vals[0] in vals && vals[1] in vals;
  }
}
