/** Where inlining bound values goes wrong, and exactly when. */
module ParamLimits {
  import opened Decimal
  import opened Params

  // ----- A statement that is one token -----

  lemma TokenDigits(v: nat)
    ensures var s := Placeholder(v); s[0] == '$' && s[1..] == NatText(v) && Digits(s[1..]) == NatText(v)
  {
    NatTextCanonical(v);
    var d := NatText(v);
    assert Placeholder(v)[1..] == d && d[..|d|] == d;
    DigitsAre(d, |d|);
  }

  lemma {:induction false} DigitsAreCovered(d: string, n: nat)
    requires AllDigits(d)
    ensures Covered(d, n)
  {
    CoveredSkips(d, d, n);
    assert d[|d|..] == [];
  }

  /** The first digit of a number. */
  function Leading(v: nat): (d: nat)
    ensures d <= v && (v >= 1 ==> d >= 1)
    ensures NatText(v) != [] && IsDigit(NatText(v)[0]) && d == DigitValue(NatText(v)[0])
  {
    LeadingDigit(v);
    DigitValue(NatText(v)[0])
  }

  lemma LeadingDigit(v: nat)
    ensures NatText(v) != [] && IsDigit(NatText(v)[0]) && DigitValue(NatText(v)[0]) <= v
    ensures v >= 1 ==> DigitValue(NatText(v)[0]) >= 1
  {
    var d := NatText(v);
    NatTextCanonical(v);
    assert d[0] in d && d[..1] == [d[0]];
    PrefixValue(d[..1], d);
    OneDigitValue(d[0]);
  }

  /** A token is covered if and only if it is bound, or begins with a digit that is not. */
  lemma TokenCovered(v: nat, n: nat)
    requires v >= 1
    ensures Covered(Placeholder(v), n) <==> v <= n || Leading(v) > n
  {
    TokenDigits(v);
    NatTextCanonical(v);
    DigitsAreCovered(NatText(v), n);
  }

  lemma TokenIsReplaced(v: nat, literals: seq<string>)
    requires 1 <= v <= |literals|
    ensures Simultaneous(Placeholder(v), literals) == literals[v - 1]
  {
    var s := Placeholder(v);
    TokenDigits(v);
    NatTextCanonical(v);
    assert s[1 + |NatText(v)|..] == [];
  }

  // ----- Passes over a bound value -----

  lemma {:induction false} ReplaceNone(s: string, p: string, value: string)
    requires p != [] && !Has(s, p)
    ensures ReplaceAll(s, p, value) == s
  {
    if s != [] {
      HasTail(s, p);
      ReplaceNone(s[1..], p, value);
    }
  }

  /** A token does not hold the token of a higher index. */
  lemma NoHigher(v: nat, n: nat)
    requires v < n
    ensures !Has(Placeholder(v), Placeholder(n))
  {
    var s, p := Placeholder(v), Placeholder(n);
    TokenDigits(v);
    TokenDigits(n);
    NatTextCanonical(v);
    NatTextCanonical(n);
    HasTail(s, p);
    assert '$' !in NatText(v);
    NoDollar(NatText(v), p);
    PrefixTail(p, s);
    if NatText(n) <= NatText(v) {
      PrefixValue(NatText(n), NatText(v));
    }
  }

  lemma {:induction false} HigherPasses(v: nat, literals: seq<string>, n: nat)
    requires 1 <= v <= n <= |literals|
    ensures Descending(Placeholder(v), literals, n) == Descending(literals[v - 1], literals, v - 1)
  {
    var s := Placeholder(v);
    if v == n {
      assert s[|s|..] == [];
      assert ReplaceAll(s, s, literals[v - 1]) == literals[v - 1];
    } else {
      NoHigher(v, n);
      ReplaceNone(s, Placeholder(n), literals[n - 1]);
      HigherPasses(v, literals, n - 1);
    }
  }

  function Count(s: string, c: char): nat {
    if s == [] then 0 else (if s[0] == c then 1 else 0) + Count(s[1..], c)
  }

  lemma {:induction false} CountConcat(a: string, b: string, c: char)
    ensures Count(a + b, c) == Count(a, c) + Count(b, c)
  {
    if a == [] {
      assert a + b == b;
    } else {
      CountConcat(a[1..], b, c);
      assert (a + b)[1..] == a[1..] + b;
    }
  }

  lemma {:induction false} CountIsZero(s: string, c: char)
    ensures Count(s, c) == 0 <==> c !in s
  {
    if s != [] {
      CountIsZero(s[1..], c);
      assert s == [s[0]] + s[1..];
    }
  }

  /** More quotes, or as many and fewer dollar signs. */
  predicate Beyond(t: string, s: string) {
    Count(t, '\'') > Count(s, '\'') || (Count(t, '\'') == Count(s, '\'') && Count(t, '$') < Count(s, '$'))
  }

  predicate NotBehind(t: string, s: string) {
    Beyond(t, s) || (Count(t, '\'') == Count(s, '\'') && Count(t, '$') == Count(s, '$'))
  }

  /** A literal brings quotes with it, or at least no dollar sign. */
  predicate Weighty(literal: string) {
    '\'' in literal || '$' !in literal
  }

  lemma LiteralIsWeighty(p: Param)
    ensures Weighty(Literal(p))
  {
    if p.Utf8? {
      assert Literal(p)[0] == '\'';
    } else if p.Raw? {
      HexHasNone(p.bytes);
    }
  }

  lemma LiteralsAreWeighty(params: seq<Param>)
    ensures AllWeighty(Literals(params))
  {
    forall p: Param ensures Weighty(Literal(p)) {
      LiteralIsWeighty(p);
    }
  }

  lemma TokenCounts(n: nat)
    ensures Count(Placeholder(n), '\'') == 0 && Count(Placeholder(n), '$') == 1
  {
    PlaceholderChars(n);
    var p := Placeholder(n);
    CountIsZero(p, '\'');
    CountIsZero(p[1..], '$');
  }

  lemma BehindHead(head: string, t: string, s: string)
    requires NotBehind(t, s)
    ensures NotBehind(head + t, head + s) && (Beyond(t, s) ==> Beyond(head + t, head + s))
  {
    CountConcat(head, t, '\'');
    CountConcat(head, s, '\'');
    CountConcat(head, t, '$');
    CountConcat(head, s, '$');
  }

  lemma BehindLiteral(n: nat, literal: string, t: string, s: string)
    requires NotBehind(t, s) && Weighty(literal)
    ensures Beyond(literal + t, Placeholder(n) + s)
  {
    TokenCounts(n);
    CountIsZero(literal, '\'');
    CountIsZero(literal, '$');
    CountConcat(literal, t, '\'');
    CountConcat(literal, t, '$');
    CountConcat(Placeholder(n), s, '\'');
    CountConcat(Placeholder(n), s, '$');
  }

  /** A pass moves a text on if it finds its token there, and never back. */
  lemma {:induction false} PassMoves(s: string, n: nat, literal: string)
    requires Weighty(literal)
    ensures var t := ReplaceAll(s, Placeholder(n), literal);
      NotBehind(t, s) && (Has(s, Placeholder(n)) ==> Beyond(t, s))
  {
    var token := Placeholder(n);
    if s != [] {
      HasTail(s, token);
      if token <= s {
        var rest := s[|token|..];
        PassMoves(rest, n, literal);
        assert s == token + rest;
        BehindLiteral(n, literal, ReplaceAll(rest, token, literal), rest);
      } else {
        PassMoves(s[1..], n, literal);
        assert s == [s[0]] + s[1..];
        BehindHead([s[0]], ReplaceAll(s[1..], token, literal), s[1..]);
      }
    }
  }

  predicate AllWeighty(literals: seq<string>) {
    forall i | 0 <= i < |literals| :: Weighty(literals[i])
  }

  lemma {:induction false} PassesMove(s: string, literals: seq<string>, n: nat)
    requires n <= |literals| && AllWeighty(literals)
    ensures NotBehind(Descending(s, literals, n), s)
    decreases n
  {
    if n > 0 {
      var t := ReplaceAll(s, Placeholder(n), literals[n - 1]);
      PassMoves(s, n, literals[n - 1]);
      PassesMove(t, literals, n - 1);
    }
  }

  lemma BeyondStays(u: string, t: string, s: string)
    requires NotBehind(u, t) && Beyond(t, s)
    ensures Beyond(u, s) && u != s
  {
  }

  /** Passes that find none of their tokens leave a text alone, and others move it on. */
  lemma {:induction false} PassesKeepOrMove(s: string, literals: seq<string>, n: nat)
    requires n <= |literals| && AllWeighty(literals)
    ensures if HasNone(s, n) then Descending(s, literals, n) == s else Beyond(Descending(s, literals, n), s)
    decreases n
  {
    if n > 0 {
      var t := ReplaceAll(s, Placeholder(n), literals[n - 1]);
      if Has(s, Placeholder(n)) {
        PassMoves(s, n, literals[n - 1]);
        PassesMove(t, literals, n - 1);
        BeyondStays(Descending(t, literals, n - 1), t, s);
      } else {
        ReplaceNone(s, Placeholder(n), literals[n - 1]);
        PassesKeepOrMove(s, literals, n - 1);
        assert HasNone(s, n) <==> HasNone(s, n - 1);
      }
    }
  }

  /** Inlining puts these literals in as simultaneous substitution does. */
  ghost predicate Inlines(sql: string, literals: seq<string>) {
    Descending(sql, literals, |literals|) == Simultaneous(sql, literals)
  }

  /** It does so in every covered statement. */
  ghost predicate AlwaysInlines(literals: seq<string>) {
    forall sql | Covered(sql, |literals|) :: Inlines(sql, literals)
  }

  lemma TokenChanges(literals: seq<string>, v: nat)
    requires 1 <= v <= |literals| && AllWeighty(literals) && !HasNone(literals[v - 1], v - 1)
    ensures !Inlines(Placeholder(v), literals)
  {
    var literal := literals[v - 1];
    assert Simultaneous(Placeholder(v), literals) == literal by {
      TokenIsReplaced(v, literals);
    }
    assert Descending(Placeholder(v), literals, |literals|) == Descending(literal, literals, v - 1) by {
      HigherPasses(v, literals, |literals|);
    }
    PassesKeepOrMove(literal, literals, v - 1);
    BeyondStays(Descending(literal, literals, v - 1), Descending(literal, literals, v - 1), literal);
  }

  lemma NotAlways(sql: string, literals: seq<string>)
    requires Covered(sql, |literals|) && !Inlines(sql, literals)
    ensures !AlwaysInlines(literals)
  {
  }

  /** A statement that names a literal shows whether a lower pass rewrites it. */
  lemma RewrittenLiteral(literals: seq<string>, i: nat)
    requires i < |literals| && AllWeighty(literals) && !HasNone(literals[i], i)
    ensures !AlwaysInlines(literals)
  {
    TokenCovered(i + 1, |literals|);
    TokenChanges(literals, i + 1);
    NotAlways(Placeholder(i + 1), literals);
  }

  /** A bound text that holds the placeholder of a lower index is rewritten in some statement. */
  lemma DollarInValue(params: seq<Param>, i: nat)
    requires i < |params| && params[i].Utf8? && !HasNone(params[i].text, i)
    ensures !AlwaysInlines(Literals(params))
  {
    LiteralsAreWeighty(params);
    LiteralHasNone(params[i], i);
    RewrittenLiteral(Literals(params), i);
  }

  /**
   * Values are inlined into every covered statement as simultaneous substitution would do it, if and
   * only if no bound text holds the placeholder of a lower index than its own.
   */
  lemma InlineExactly(params: seq<Param>)
    ensures AlwaysInlines(Literals(params)) <==> Harmless(params)
  {
    if Harmless(params) {
      forall sql | Covered(sql, |params|) ensures Inlines(sql, Literals(params)) {
        InlineIsSimultaneous(sql, params);
      }
    } else {
      var i :| 0 <= i < |params| && params[i].Utf8? && !HasNone(params[i].text, i);
      DollarInValue(params, i);
    }
  }

  // ----- Both passes -----

  /** What the second pass puts in: NULL for every index. */
  function Nulls(n: nat): seq<string> {
    seq(n, _ => "NULL")
  }

  /** A bound statement as it is executed: inlined, and inlined again with as many NULLs. */
  function Twice(sql: string, literals: seq<string>): string {
    Descending(Descending(sql, literals, |literals|), Nulls(|literals|), |literals|)
  }

  ghost predicate InlinesTwice(sql: string, literals: seq<string>) {
    Twice(sql, literals) == Simultaneous(sql, literals)
  }

  ghost predicate AlwaysInlinesTwice(literals: seq<string>) {
    forall sql | Covered(sql, |literals|) :: InlinesTwice(sql, literals)
  }

  lemma NullsAreLiterals(n: nat)
    ensures Nulls(n) == Literals(seq(n, _ => Absent))
    ensures AllWeighty(Nulls(n))
  {
    assert forall i | 0 <= i < n :: Nulls(n)[i] == Literal(Absent);
    LiteralIsWeighty(Absent);
  }

  /** A literal that holds any bound placeholder does not survive its own lower passes and all NULL passes. */
  lemma BothPassesMove(literal: string, literals: seq<string>, i: nat)
    requires i < |literals| && AllWeighty(literals) && !HasNone(literal, |literals|)
    ensures Beyond(Descending(Descending(literal, literals, i), Nulls(|literals|), |literals|), literal)
  {
    var n, once := |literals|, Descending(literal, literals, i);
    NullsAreLiterals(n);
    PassesKeepOrMove(literal, literals, i);
    if HasNone(literal, i) {
      PassesKeepOrMove(literal, Nulls(n), n);
    } else {
      PassesMove(once, Nulls(n), n);
      BeyondStays(Descending(once, Nulls(n), n), once, literal);
    }
  }

  lemma TokenChangesTwice(literals: seq<string>, v: nat)
    requires 1 <= v <= |literals| && AllWeighty(literals) && !HasNone(literals[v - 1], |literals|)
    ensures !InlinesTwice(Placeholder(v), literals)
  {
    var literal := literals[v - 1];
    assert Simultaneous(Placeholder(v), literals) == literal by {
      TokenIsReplaced(v, literals);
    }
    assert Descending(Placeholder(v), literals, |literals|) == Descending(literal, literals, v - 1) by {
      HigherPasses(v, literals, |literals|);
    }
    BothPassesMove(literal, literals, v - 1);
  }

  lemma NotAlwaysTwice(sql: string, literals: seq<string>)
    requires Covered(sql, |literals|) && !InlinesTwice(sql, literals)
    ensures !AlwaysInlinesTwice(literals)
  {
  }

  /** A bound text that holds any bound placeholder, its own included, is rewritten in some statement. */
  lemma PlaceholderInValue(params: seq<Param>, i: nat)
    requires i < |params| && params[i].Utf8? && !HasNone(params[i].text, |params|)
    ensures !AlwaysInlinesTwice(Literals(params))
  {
    var literals := Literals(params);
    assert AllWeighty(literals) by {
      LiteralsAreWeighty(params);
    }
    LiteralHasNone(params[i], |params|);
    TokenCovered(i + 1, |literals|);
    TokenChangesTwice(literals, i + 1);
    NotAlwaysTwice(Placeholder(i + 1), literals);
  }

  lemma QuietInlinesTwice(sql: string, params: seq<Param>)
    requires Quiet(params) && Covered(sql, |params|)
    ensures InlinesTwice(sql, Literals(params))
  {
    QuietIsHarmless(params);
    InlineIsSimultaneous(sql, params);
    NullsAreLiterals(|params|);
    SecondPassIsIdentity(sql, params, seq(|params|, _ => Absent));
  }

  /**
   * After both passes every covered statement is what simultaneous substitution would make of it, if
   * and only if no bound text holds the placeholder of any bound index.
   */
  lemma TwiceExactly(params: seq<Param>)
    ensures AlwaysInlinesTwice(Literals(params)) <==> Quiet(params)
  {
    if Quiet(params) {
      forall sql | Covered(sql, |params|) ensures InlinesTwice(sql, Literals(params)) {
        QuietInlinesTwice(sql, params);
      }
    } else {
      var i :| 0 <= i < |params| && params[i].Utf8? && !HasNone(params[i].text, |params|);
      PlaceholderInValue(params, i);
    }
  }

  /** The text $1 bound as $1 passes the first pass and becomes NULL in the second. */
  lemma OwnPlaceholder()
    ensures Harmless([Utf8("$1")])
    ensures Descending("$1", Literals([Utf8("$1")]), 1) == "'$1'"
    ensures Twice("$1", Literals([Utf8("$1")])) == "'NULL'"
  {
    var literals := Literals([Utf8("$1")]);
    assert Placeholder(1) == "$1";
    assert Doubled("$1") == "$1" by {
      assert "$1"[1..] == "1" && "1"[1..] == "";
    }
    assert literals[0] == "'$1'" && Nulls(1)[0] == "NULL";
    assert "$1"[2..] == "" && "'$1'"[1..] == "$1'" && "$1'"[2..] == "'" && "'"[1..] == "";
    assert ReplaceAll("$1", "$1", "'$1'") == "'$1'";
    assert ReplaceAll("$1'", "$1", "NULL") == "NULL'";
    assert ReplaceAll("'$1'", "$1", "NULL") == "'NULL'";
    assert Descending("'NULL'", Nulls(1), 0) == "'NULL'";
  }
}
