/** What inlined literals denote: a reader of SQL literals gives back exactly the bound values. */
module ParamLiterals {
  import opened Wrappers
  import opened Basics
  import opened HexText
  import opened Params
  import opened ParamLimits

  // ----- A reader of literals -----

  /** A reader of quoted literals, after the opening quote: the text, and what follows the closing quote. */
  function ReadQuoted(s: string): Option<(string, string)> {
    if s == [] then None
    else if s[0] != '\'' then
      var r := ReadQuoted(s[1..]);
      if r.Some? then Some(([s[0]] + r.value.0, r.value.1)) else None
    else if |s| > 1 && s[1] == '\'' then
      var r := ReadQuoted(s[2..]);
      if r.Some? then Some((['\''] + r.value.0, r.value.1)) else None
    else Some(([], s[1..]))
  }

  /** Whatever is bound, the literal reads back as that text and ends where it should. */
  lemma {:induction false} QuotedReadsBack(text: string, rest: string)
    requires rest == [] || rest[0] != '\''
    ensures ReadQuoted(Doubled(text) + "'" + rest) == Some((text, rest))
  {
    if text == [] {
      assert Doubled(text) + "'" + rest == ['\''] + rest;
    } else {
      QuotedReadsBack(text[1..], rest);
      var tail := Doubled(text[1..]) + "'" + rest;
      var head := if text[0] == '\'' then "''" else [text[0]];
      assert Doubled(text) + "'" + rest == head + tail;
      assert (head + tail)[|head|..] == tail;
      assert text == [text[0]] + text[1..];
    }
  }

  const DECODE := "decode('"
  const AS_BYTES := ",'hex')::bytea"

  function ReadText(s: string): Option<(Param, string)> {
    var r := ReadQuoted(s);
    if r.Some? then Some((Utf8(r.value.0), r.value.1)) else None
  }

  function ReadBytes(s: string): Option<(Param, string)> {
    var r := ReadQuoted(s);
    if r.Some? && AS_BYTES <= r.value.1 && UnHex(r.value.0).Some?
    then Some((Raw(UnHex(r.value.0).value), r.value.1[|AS_BYTES|..]))
    else None
  }

  /** Reads one literal: the value it denotes, and what follows it. */
  function ReadLiteral(s: string): Option<(Param, string)> {
    if "NULL" <= s then Some((Absent, s[4..]))
    else if "'" <= s then ReadText(s[1..])
    else if DECODE <= s then ReadBytes(s[|DECODE|..])
    else None
  }

  lemma ReadsText(tail: string)
    ensures ReadLiteral("'" + tail) == ReadText(tail)
  {
    var s := "'" + tail;
    assert s[0] == '\'' && s[1..] == tail;
  }

  lemma ReadsBytes(tail: string)
    ensures ReadLiteral(DECODE + tail) == ReadBytes(tail)
  {
    var s := DECODE + tail;
    assert s[0] == 'd' && s[|DECODE|..] == tail;
  }

  lemma {:induction false} NothingDoubled(text: string)
    requires '\'' !in text
    ensures Doubled(text) == text
  {
    if text != [] {
      assert text[0] in text;
      NothingDoubled(text[1..]);
    }
  }

  /** A quote right behind a literal would be read as part of its text. */
  predicate Runs(p: Param, rest: string) {
    p.Utf8? && rest != [] && rest[0] == '\''
  }

  lemma TextSplits(text: string, rest: string)
    ensures Literal(Utf8(text)) + rest == "'" + (Doubled(text) + "'" + rest)
  {
  }

  lemma BytesSplit(bytes: seq<Byte>, rest: string)
    ensures Literal(Raw(bytes)) + rest == DECODE + (Hex(bytes) + "'" + (AS_BYTES + rest))
  {
    assert "','hex')::bytea" == "'" + AS_BYTES;
    Regroup(DECODE, Hex(bytes), "'", AS_BYTES, rest);
  }

  lemma Regroup(a: string, b: string, c: string, d: string, e: string)
    ensures a + b + (c + d) + e == a + (b + c + (d + e))
  {
  }

  lemma BytesReadBack(bytes: seq<Byte>, rest: string)
    ensures ReadBytes(Hex(bytes) + "'" + (AS_BYTES + rest)) == Some((Raw(bytes), rest))
  {
    HexReadsBack(bytes);
    NothingDoubled(Hex(bytes));
    assert (AS_BYTES + rest)[|AS_BYTES|..] == rest && (AS_BYTES + rest)[0] == ',';
    QuotedReadsBack(Hex(bytes), AS_BYTES + rest);
  }

  /** Every literal reads back as the bound value, and ends where it should, unless a quote follows a text. */
  lemma LiteralReadsBack(p: Param, rest: string)
    requires !Runs(p, rest)
    ensures ReadLiteral(Literal(p) + rest) == Some((p, rest))
  {
    match p
    case Absent => assert (Literal(p) + rest)[4..] == rest;
    case Utf8(text) =>
      TextSplits(text, rest);
      ReadsText(Doubled(text) + "'" + rest);
      QuotedReadsBack(text, rest);
    case Raw(bytes) =>
      BytesSplit(bytes, rest);
      ReadsBytes(Hex(bytes) + "'" + (AS_BYTES + rest));
      BytesReadBack(bytes, rest);
  }

  lemma {:induction false} QuotedRunsOn(text: string, rest: string)
    requires rest != [] && rest[0] == '\''
    ensures var r := ReadQuoted(Doubled(text) + "'" + rest); r.Some? ==> |r.value.0| > |text|
  {
    var s := Doubled(text) + "'" + rest;
    if text == [] {
      assert s == ['\''] + rest;
    } else {
      QuotedRunsOn(text[1..], rest);
      var tail := Doubled(text[1..]) + "'" + rest;
      var head := if text[0] == '\'' then "''" else [text[0]];
      assert s == head + tail && (head + tail)[|head|..] == tail;
    }
  }

  lemma LiteralRunsOn(p: Param, rest: string)
    requires Runs(p, rest)
    ensures var r := ReadLiteral(Literal(p) + rest); r.Some? ==> r.value.0 != p
  {
    TextSplits(p.text, rest);
    ReadsText(Doubled(p.text) + "'" + rest);
    QuotedRunsOn(p.text, rest);
  }

  // ----- A whole statement -----

  /** The values that a statement is bound to, one for each of its tokens from left to right. */
  function Bound(sql: string, params: seq<Param>): seq<Param> {
    if sql == [] then []
    else if sql[0] == '$' && Index(Digits(sql[1..]), |params|).Some? then
      [params[Index(Digits(sql[1..]), |params|).value - 1]] + Bound(sql[1 + |Digits(sql[1..])|..], params)
    else Bound(sql[1..], params)
  }

  /** Reads a statement without placeholders against one with: the values that stand for the tokens. */
  function ReadStatement(sql: string, text: string, n: nat): Option<seq<Param>> {
    if sql == [] then if text == [] then Some([]) else None
    else if sql[0] == '$' && Index(Digits(sql[1..]), n).Some? then
      var r := ReadLiteral(text);
      if r.None? then None
      else
        var more := ReadStatement(sql[1 + |Digits(sql[1..])|..], r.value.1, n);
        if more.Some? then Some([r.value.0] + more.value) else None
    else if text != [] && text[0] == sql[0] then ReadStatement(sql[1..], text[1..], n)
    else None
  }

  /** The substituted statement starts with a quote: its own, or that of a bound text. */
  predicate StartsQuoted(sql: string, params: seq<Param>) {
    sql != [] &&
    (sql[0] == '\'' ||
     (sql[0] == '$' && Index(Digits(sql[1..]), |params|).Some? &&
      params[Index(Digits(sql[1..]), |params|).value - 1].Utf8?))
  }

  /** No token bound to a text stands right before a quote or before another such token. */
  predicate Apart(sql: string, params: seq<Param>) {
    if sql == [] then true
    else if sql[0] == '$' && Index(Digits(sql[1..]), |params|).Some? then
      var rest := sql[1 + |Digits(sql[1..])|..];
      && !(params[Index(Digits(sql[1..]), |params|).value - 1].Utf8? && StartsQuoted(rest, params))
      && Apart(rest, params)
    else Apart(sql[1..], params)
  }

  lemma LiteralStart(p: Param)
    ensures Literal(p) != [] && (Literal(p)[0] == '\'' <==> p.Utf8?)
  {
  }

  lemma SubstitutedStart(sql: string, params: seq<Param>)
    ensures var t := Simultaneous(sql, Literals(params)); t != [] && t[0] == '\'' <==> StartsQuoted(sql, params)
  {
    if sql != [] && sql[0] == '$' && Index(Digits(sql[1..]), |params|).Some? {
      LiteralStart(params[Index(Digits(sql[1..]), |params|).value - 1]);
    }
  }

  lemma TokenReadsBack(p: Param, rest: string, text: string, params: seq<Param>)
    requires text == Simultaneous(rest, Literals(params))
    ensures var r := ReadLiteral(Literal(p) + text);
      if p.Utf8? && StartsQuoted(rest, params) then r.None? || r.value.0 != p else r == Some((p, text))
  {
    SubstitutedStart(rest, params);
    if Runs(p, text) {
      LiteralRunsOn(p, text);
    } else {
      LiteralReadsBack(p, text);
    }
  }

  /** `values` are read where the substituted statement has its tokens. */
  ghost predicate ReadsBack(sql: string, params: seq<Param>) {
    ReadStatement(sql, Simultaneous(sql, Literals(params)), |params|) == Some(Bound(sql, params))
  }

  function Prepend(p: Param, more: Option<seq<Param>>): Option<seq<Param>> {
    if more.Some? then Some([p] + more.value) else None
  }

  lemma PrependedIs(p: Param, q: Param, more: Option<seq<Param>>, values: seq<Param>)
    ensures Prepend(p, more) == Some([q] + values) <==> p == q && more == Some(values)
  {
    if more.Some? {
      assert ([p] + more.value)[0] == p && ([p] + more.value)[1..] == more.value;
      assert ([q] + values)[0] == q && ([q] + values)[1..] == values;
    }
  }

  predicate IsToken(sql: string, n: nat) {
    sql != [] && sql[0] == '$' && Index(Digits(sql[1..]), n).Some?
  }

  lemma ReadToken(sql: string, text: string, n: nat)
    requires IsToken(sql, n)
    ensures var r := ReadLiteral(text);
      ReadStatement(sql, text, n) ==
      if r.None? then None else Prepend(r.value.0, ReadStatement(sql[1 + |Digits(sql[1..])|..], r.value.1, n))
  {
  }

  lemma TokenStep(sql: string, params: seq<Param>, p: Param, rest: string)
    requires IsToken(sql, |params|)
    requires p == params[Index(Digits(sql[1..]), |params|).value - 1] && rest == sql[1 + |Digits(sql[1..])|..]
    ensures ReadsBack(sql, params) <==> !(p.Utf8? && StartsQuoted(rest, params)) && ReadsBack(rest, params)
  {
    var n, text := |params|, Simultaneous(rest, Literals(params));
    assert Simultaneous(sql, Literals(params)) == Literal(p) + text && Bound(sql, params) == [p] + Bound(rest, params);
    ReadToken(sql, Literal(p) + text, n);
    TokenReadsBack(p, rest, text, params);
    var r := ReadLiteral(Literal(p) + text);
    if r.Some? {
      PrependedIs(r.value.0, p, ReadStatement(rest, r.value.1, n), Bound(rest, params));
    }
  }

  lemma OtherStep(sql: string, params: seq<Param>)
    requires sql != [] && !(sql[0] == '$' && Index(Digits(sql[1..]), |params|).Some?)
    ensures ReadsBack(sql, params) <==> ReadsBack(sql[1..], params)
  {
    assert Simultaneous(sql, Literals(params))[1..] == Simultaneous(sql[1..], Literals(params));
  }

  /**
   * A statement with the literals in place of its tokens denotes exactly the bound values, each in its
   * place, if and only if no token bound to a text stands right before a quote or another such token.
   */
  lemma {:induction false} StatementReadsBack(sql: string, params: seq<Param>)
    ensures ReadsBack(sql, params) <==> Apart(sql, params)
  {
    if sql != [] {
      var index := Index(Digits(sql[1..]), |params|);
      if sql[0] == '$' && index.Some? {
        var rest := sql[1 + |Digits(sql[1..])|..];
        TokenStep(sql, params, params[index.value - 1], rest);
        StatementReadsBack(rest, params);
      } else {
        OtherStep(sql, params);
        StatementReadsBack(sql[1..], params);
      }
    }
  }

  /** The statement as it is executed, after both passes. */
  lemma ExecutedReadsBack(sql: string, params: seq<Param>)
    requires Quiet(params) && Covered(sql, |params|)
    ensures ReadStatement(sql, Twice(sql, Literals(params)), |params|) == Some(Bound(sql, params)) <==>
            Apart(sql, params)
  {
    QuietInlinesTwice(sql, params);
    StatementReadsBack(sql, params);
  }
}
