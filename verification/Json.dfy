/** JSON values and the JSON objects that carry table rows. */
module Json {
  import opened Wrappers
  import opened Decimal
  import opened HexText
  import opened Ordering

  datatype Value =
    | Null
    | Bool(flag: bool)
    | Number(num: real)
    | Text(text: string)
    | Array(items: seq<Value>)

  type Row = map<string, Value>

  /** `to_string` of a JSON scalar, a string standing for itself. Only whole numbers have a text here. */
  function ValueText(v: Value): string {
    match v
    case Null => "null"
    case Bool(flag) => if flag then "true" else "false"
    case Number(r) =>
      if r != r.Floor as real then ""
      else if r.Floor < 0 then "-" + NatText(-r.Floor) else NatText(r.Floor)
    case Text(t) => t
    case Array(_) => ""
  }

  predicate IsWhole(v: Value) {
    v.Number? && v.num == v.num.Floor as real
  }

  /** The text of a whole number reads back as that number. */
  lemma WholeText(v: Value)
    requires IsWhole(v)
    ensures var t := ValueText(v); t != [] && (IsDigit(t[0]) || t[0] == '-')
    ensures var t := ValueText(v);
      if t[0] == '-' then AllDigits(t[1..]) && v.num == -(NatValue(t[1..]) as real)
      else AllDigits(t) && v.num == NatValue(t) as real
  {
    var n := v.num.Floor;
    var digits := NatText(if n < 0 then -n else n);
    NatTextCanonical(if n < 0 then -n else n);
    assert digits[0] in digits;
    assert ("-" + digits)[1..] == digits;
  }

  const TWO_64: nat := 0x1_0000_0000_0000_0000

  /** `as_u64`. */
  function AsU64(v: Value): Option<nat> {
    if IsWhole(v) && 0 <= v.num.Floor < TWO_64 then Some(v.num.Floor) else None
  }

  /** The older form of bytes, an array of numbers. */
  function ArrayText(items: seq<Value>): Option<string> {
    if items == [] then Some("")
    else
      var n, rest := AsU64(items[0]), ArrayText(items[1..]);
      if n.Some? && rest.Some? then Some(HexPair(n.value) + rest.value) else None
  }

  /** `value_as_string`: the text of a primary-key cell, without pg-agent's bytea marker. */
  function KeyText(v: Value): Option<string> {
    match v
    case Null => None
    case Array(items) => ArrayText(items)
    case Text(t) => Some(if HasByteMarker(t) then t[2..] else t)
    case Bool(_) => Some(ValueText(v))
    case Number(_) => Some(ValueText(v))
  }

  predicate HasByteMarker(t: string) {
    |t| >= 2 && t[0] == '\\' && t[1] == 'x'
  }

  /** The text of the key column of a row, when it has one. */
  function RowKey(row: Row, pk: string): Option<string> {
    if pk in row then KeyText(row[pk]) else None
  }

  function DotIndex(s: string): (d: nat)
    ensures d <= |s|
  {
    if s == [] || s[0] == '.' then 0 else 1 + DotIndex(s[1..])
  }

  function Magnitude(s: string): Option<real> {
    var d := DotIndex(s);
    var whole, fraction := s[..d], if d < |s| then s[d + 1..] else "";
    if AllDigits(whole) && AllDigits(fraction) && whole + fraction != []
    then Some(NatValue(whole) as real + FractionValue(fraction))
    else None
  }

  /** `parse::<f64>()` on plain decimal text: a sign, digits, and digits after a dot. */
  function ParseDecimal(s: string): Option<real> {
    if s != [] && s[0] == '-' then
      var m := Magnitude(s[1..]);
      if m.Some? then Some(-m.value) else None
    else
      Magnitude(if s != [] && s[0] == '+' then s[1..] else s)
  }

  /** `json_num`: the number a cell carries, as a JSON number or as text. */
  function JsonNum(v: Value): Option<real> {
    match v
    case Number(r) => Some(r)
    case Text(t) => ParseDecimal(t)
    case _ => None
  }

  /** `as_bool`. */
  function AsBool(v: Value): Option<bool> {
    match v
    case Bool(flag) => Some(flag)
    case Text(t) =>
      if t in ["t", "true", "1"] then Some(true) else if t in ["f", "false", "0"] then Some(false) else None
    case Number(r) => Some(r != 0.0)
    case _ => None
  }

  /** `json_le`; `json_ge` is the same test with its arguments exchanged. */
  predicate JsonLe(a: Value, b: Value) {
    if JsonNum(a).Some? && JsonNum(b).Some?
    then JsonNum(a).value <= JsonNum(b).value
    else StrLe(ValueText(a), ValueText(b))
  }

  lemma JsonLeTotal(a: Value, b: Value)
    ensures JsonLe(a, b) || JsonLe(b, a)
  {
    StrLeTotal(ValueText(a), ValueText(b));
  }

  lemma SampleNumbers()
    ensures ParseDecimal("9") == Some(9.0) && ParseDecimal("10") == Some(10.0)
  {
    NatDigits("9");
    NatDigits("10");
    assert "10"[..1] == "1" && "1"[..0] == "" && "9"[..0] == "";
  }

  lemma {:induction false} NatDigits(s: string)
    requires s != [] && AllDigits(s)
    ensures ParseDecimal(s) == Some(NatValue(s) as real)
  {
    NoDot(s);
    assert s[0] in s && s[..|s|] == s && s + "" == s;
  }

  lemma {:induction false} NoDot(s: string)
    requires AllDigits(s)
    ensures DotIndex(s) == |s|
  {
    if s != [] {
      assert s[0] in s;
      NoDot(s[1..]);
    }
  }

  /** Inserts the named values one after the other. */
  function Assign(row: Row, names: seq<string>, values: seq<Value>): Row {
    if names == [] then row
    else
      var i := |names| - 1;
      var rest := Assign(row, names[..i], values);
      if i < |values| then rest[names[i] := values[i]] else rest
  }

  lemma {:induction false} AssignNames(row: Row, names: seq<string>, values: seq<Value>)
    requires |names| <= |values|
    ensures Assign(row, names, values).Keys == row.Keys + set x | x in names
  {
    if names != [] {
      var n := |names| - 1;
      AssignNames(row, names[..n], values);
      assert names == names[..n] + [names[n]];
    }
  }

  lemma {:induction false} AssignShows(row: Row, names: seq<string>, values: seq<Value>, i: nat)
    requires i < |names| <= |values|
    requires forall j | i < j < |names| :: names[i] != names[j]
    ensures names[i] in Assign(row, names, values) && Assign(row, names, values)[names[i]] == values[i]
  {
    var n := |names| - 1;
    if i < n {
      assert names[..n][i] == names[i];
      AssignShows(row, names[..n], values, i);
    }
  }

  lemma {:induction false} AssignKeeps(row: Row, names: seq<string>, values: seq<Value>, x: string)
    requires |names| <= |values| && x in row && x !in names
    ensures x in Assign(row, names, values) && Assign(row, names, values)[x] == row[x]
  {
    if names != [] {
      var n := |names| - 1;
      AssignKeeps(row, names[..n], values, x);
    }
  }
}
