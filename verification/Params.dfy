/** `$N` placeholders: inlining bound values, and counting the placeholders. */
module Params {
  import opened Wrappers
  import opened Basics
  import opened Decimal
  import opened HexText

  /** A bound value: absent, valid UTF-8, or other bytes. */
  datatype Param = Absent | Utf8(text: string) | Raw(bytes: seq<Byte>)

  function Doubled(text: string): string {
    if text == [] then [] else (if text[0] == '\'' then "''" else [text[0]]) + Doubled(text[1..])
  }

  function Literal(param: Param): string {
    match param
    case Absent => "NULL"
    case Utf8(text) => "'" + Doubled(text) + "'"
    case Raw(bytes) => "decode('" + Hex(bytes) + "','hex')::bytea"
  }

  function Placeholder(n: nat): string {
    "$" + NatText(n)
  }

  /** `str::replace`. */
  function ReplaceAll(s: string, pattern: string, literal: string): string
    requires pattern != []
  {
    if s == [] then []
    else if pattern <= s then literal + ReplaceAll(s[|pattern|..], pattern, literal)
    else [s[0]] + ReplaceAll(s[1..], pattern, literal)
  }

  /** The passes of `inline_params`, for index `n` and then every lower one. */
  function Descending(s: string, literals: seq<string>, n: nat): string
    requires n <= |literals|
    decreases n
  {
    if n == 0 then s else Descending(ReplaceAll(s, Placeholder(n), literals[n - 1]), literals, n - 1)
  }

  method InlineParams(sql: string, params: seq<Param>) returns (result: string)
    ensures result == Descending(sql, Literals(params), |params|)
    ensures Harmless(params) ==> (result == Simultaneous(sql, Literals(params)) <==> Covered(sql, |params|))
  {
    result := sql;
    ghost var literals := Literals(params);
    var index := |params|;
    while index > 0
      invariant 0 <= index <= |params|
      invariant Descending(result, literals, index) == Descending(sql, literals, |params|)
    {
      result := ReplaceAll(result, Placeholder(index), Literal(params[index - 1]));
      index := index - 1;
    }
    if Harmless(params) {
      InlineIsSimultaneous(sql, params);
    }
  }

  function Literals(params: seq<Param>): seq<string> {
    seq(|params|, i requires 0 <= i < |params| => Literal(params[i]))
  }

  predicate OccursAt(s: string, p: string, i: nat) {
    i <= |s| && p <= s[i..]
  }

  /** The text `p` occurs in `s`. */
  predicate Has(s: string, p: string) {
    exists i | 0 <= i <= |s| :: OccursAt(s, p, i)
  }

  /** The text holds none of the placeholders `$1` to `$n`. */
  predicate HasNone(s: string, n: nat) {
    forall m | 1 <= m <= n :: !Has(s, Placeholder(m))
  }

  /** No bound text holds the placeholder of a lower index than its own. */
  predicate Harmless(params: seq<Param>) {
    forall i | 0 <= i < |params| :: params[i].Utf8? ==> HasNone(params[i].text, i)
  }

  // ----- Literals -----

  predicate IsTokenChar(c: char) {
    c == '$' || IsDigit(c)
  }

  /** Text around it cannot make a placeholder together with it. */
  predicate Framed(literal: string) {
    literal != [] && !IsTokenChar(literal[0]) && !IsTokenChar(literal[|literal| - 1])
  }

  predicate AllFramed(literals: seq<string>) {
    forall i | 0 <= i < |literals| :: Framed(literals[i])
  }

  /** No pass rewrites a literal that an earlier pass has put in. */
  predicate Inert(literals: seq<string>) {
    AllFramed(literals) && forall i | 0 <= i < |literals| :: HasNone(literals[i], i)
  }

  lemma LiteralsAreFramed(params: seq<Param>)
    ensures AllFramed(Literals(params))
  {
    forall p: Param ensures Framed(Literal(p)) {
    }
  }

  lemma PlaceholderChars(n: nat)
    ensures var p := Placeholder(n); |p| > 1 && p[0] == '$' && AllDigits(p[1..]) && p[1..] == NatText(n)
    ensures forall i | 0 <= i < |Placeholder(n)| :: IsTokenChar(Placeholder(n)[i])
  {
    NatTextCanonical(n);
    var p := Placeholder(n);
    assert p[1..] == NatText(n);
    forall i | 0 < i < |p| ensures IsDigit(p[i]) {
      assert NatText(n)[i - 1] in NatText(n);
    }
  }

  lemma HasTail(s: string, p: string)
    requires s != []
    ensures Has(s, p) <==> p <= s || Has(s[1..], p)
  {
    assert OccursAt(s, p, 0) <==> p <= s by {
      assert s[0..] == s;
    }
    forall i | 0 < i <= |s| ensures OccursAt(s, p, i) <==> OccursAt(s[1..], p, i - 1) {
      assert s[i..] == s[1..][i - 1..];
    }
    if Has(s[1..], p) {
      var i :| 0 <= i <= |s| - 1 && OccursAt(s[1..], p, i);
      assert OccursAt(s, p, i + 1);
    }
  }

  /** Doubling the quotes neither makes nor breaks a text without quotes. */
  lemma {:induction false} DoubledPrefix(text: string, p: string)
    requires '\'' !in p
    ensures p <= Doubled(text) <==> p <= text
  {
    if p != [] && text != [] {
      assert p[0] in p;
      var d := Doubled(text);
      if text[0] == p[0] {
        assert d[0] == p[0] && d[1..] == Doubled(text[1..]);
        DoubledPrefix(text[1..], p[1..]);
        PrefixTail(p, text);
        PrefixTail(p, d);
      }
    }
  }

  lemma {:induction false} DoubledHas(text: string, p: string)
    requires p != [] && '\'' !in p
    ensures Has(Doubled(text), p) <==> Has(text, p)
  {
    var d := Doubled(text);
    if text != [] {
      DoubledHas(text[1..], p);
      DoubledPrefix(text, p);
      HasTail(text, p);
      HasTail(d, p);
      assert p[0] in p;
      if text[0] == '\'' {
        assert d[1..] == ['\''] + Doubled(text[1..]);
        HasTail(d[1..], p);
        assert d[1..][1..] == Doubled(text[1..]);
      } else {
        assert d[1..] == Doubled(text[1..]);
      }
    }
  }

  lemma {:induction false} HasBehind(head: string, s: string, p: string)
    requires p != [] && p[0] !in head
    ensures Has(head + s, p) <==> Has(s, p)
  {
    if head == [] {
      assert head + s == s;
    } else {
      assert head[0] in head && (head + s)[1..] == head[1..] + s;
      HasTail(head + s, p);
      HasBehind(head[1..], s, p);
    }
  }

  /** A placeholder is not completed by text that follows and holds no token character. */
  lemma {:induction false} HasBefore(s: string, c: char, n: nat)
    requires !IsTokenChar(c)
    ensures Has(s + [c], Placeholder(n)) <==> Has(s, Placeholder(n))
  {
    var p := Placeholder(n);
    PlaceholderChars(n);
    PrefixBefore(s, c, n);
    if s == [] {
      assert s + [c] == [c];
      HasTail([c], p);
      assert [c][1..] == [];
    } else {
      HasBefore(s[1..], c, n);
      HasTail(s, p);
      HasTail(s + [c], p);
      assert (s + [c])[1..] == s[1..] + [c];
    }
  }

  lemma PrefixBefore(s: string, c: char, n: nat)
    requires !IsTokenChar(c)
    ensures Placeholder(n) <= s + [c] <==> Placeholder(n) <= s
  {
    var p := Placeholder(n);
    PlaceholderChars(n);
    assert (s + [c])[|s|] == c;
    assert |p| > |s| ==> IsTokenChar(p[|s|]);
  }

  lemma LiteralHas(p: Param, m: nat)
    ensures Has(Literal(p), Placeholder(m)) <==> p.Utf8? && Has(p.text, Placeholder(m))
  {
    var token := Placeholder(m);
    PlaceholderChars(m);
    assert '\'' !in token;
    match p
    case Absent => NoDollar("NULL", token);
    case Utf8(text) =>
      DoubledHas(text, token);
      HasBefore(Doubled(text), '\'', m);
      HasBehind("'", Doubled(text) + "'", token);
      assert Literal(p) == "'" + (Doubled(text) + "'");
    case Raw(bytes) =>
      HexHasNone(bytes);
      NoDollar(Literal(p), token);
  }

  lemma NoDollar(s: string, p: string)
    requires '$' !in s && p != [] && p[0] == '$'
    ensures !Has(s, p)
  {
    forall i | 0 <= i <= |s| ensures !OccursAt(s, p, i) {
      assert i < |s| ==> s[i..][0] == s[i] && s[i] in s;
    }
  }

  lemma LiteralHasNone(p: Param, n: nat)
    ensures HasNone(Literal(p), n) <==> (p.Utf8? ==> HasNone(p.text, n))
  {
    forall m ensures Has(Literal(p), Placeholder(m)) <==> p.Utf8? && Has(p.text, Placeholder(m)) {
      LiteralHas(p, m);
    }
  }

  /** Whether the passes leave the literals alone can be seen from the bound values. */
  lemma InertIffHarmless(params: seq<Param>)
    ensures Inert(Literals(params)) <==> Harmless(params)
  {
    LiteralsAreFramed(params);
    forall i | 0 <= i < |params|
      ensures HasNone(Literals(params)[i], i) <==> (params[i].Utf8? ==> HasNone(params[i].text, i))
    {
      LiteralHasNone(params[i], i);
    }
  }

  lemma {:induction false} HexHasNone(bytes: seq<Byte>)
    ensures '$' !in Hex(bytes)
  {
    if bytes != [] {
      HexHasNone(bytes[1..]);
    }
  }

  /** No bound text holds a placeholder at all, of any of the bound indices. */
  predicate Quiet(params: seq<Param>) {
    forall i | 0 <= i < |params| :: params[i].Utf8? ==> HasNone(params[i].text, |params|)
  }

  lemma QuietIsHarmless(params: seq<Param>)
    requires Quiet(params)
    ensures Harmless(params)
  {
    forall i | 0 <= i < |params| && params[i].Utf8? ensures HasNone(params[i].text, i) {
      assert HasNone(params[i].text, |params|);
    }
  }

  predicate AllQuiet(literals: seq<string>) {
    AllFramed(literals) && forall i | 0 <= i < |literals| :: HasNone(literals[i], |literals|)
  }

  lemma LiteralsAreQuiet(params: seq<Param>)
    requires Quiet(params)
    ensures AllQuiet(Literals(params))
  {
    LiteralsAreFramed(params);
    forall i | 0 <= i < |params| ensures HasNone(Literals(params)[i], |params|) {
      LiteralHasNone(params[i], |params|);
    }
  }

  // ----- What replacing from the highest index down amounts to -----

  /** The highest index from `hi` down to `lo` whose digits begin `s`. */
  function Match(s: string, lo: nat, hi: nat): (r: Option<nat>)
    ensures r.Some? ==> lo <= r.value <= hi && NatText(r.value) <= s
  {
    if hi < lo then None
    else if NatText(hi) <= s then Some(hi)
    else if hi == 0 then None else Match(s, lo, hi - 1)
  }

  /** Replaces, at each dollar sign, the longest index between `lo` and the number of literals. */
  function Greedy(s: string, literals: seq<string>, lo: nat): string
    requires lo > 0
  {
    if s == [] then []
    else if s[0] == '$' && Match(s[1..], lo, |literals|).Some? then
      var m := Match(s[1..], lo, |literals|).value;
      literals[m - 1] + Greedy(s[1 + |NatText(m)|..], literals, lo)
    else [s[0]] + Greedy(s[1..], literals, lo)
  }

  lemma {:induction false} GreedyNone(s: string, literals: seq<string>, lo: nat)
    requires lo > |literals|
    ensures Greedy(s, literals, lo) == s
  {
    if s != [] {
      GreedyNone(s[1..], literals, lo);
    }
  }

  lemma {:induction false} MatchStep(s: string, lo: nat, hi: nat)
    requires lo <= hi
    ensures Match(s, lo, hi) ==
            if Match(s, lo + 1, hi).Some? then Match(s, lo + 1, hi) else if NatText(lo) <= s then Some(lo) else None
  {
    if lo < hi && !(NatText(hi) <= s) {
      MatchStep(s, lo, hi - 1);
    }
  }

  lemma NotCompleted(literal: string, s: string, n: nat)
    requires literal != [] && !IsTokenChar(literal[|literal| - 1])
    ensures Placeholder(n) <= literal + s <==> Placeholder(n) <= literal
  {
    var token := Placeholder(n);
    PlaceholderChars(n);
    assert (literal + s)[|literal| - 1] == literal[|literal| - 1];
    assert |token| > |literal| ==> IsTokenChar(token[|literal| - 1]);
  }

  /** A pass leaves alone a text that does not hold the token and cannot begin one. */
  lemma {:induction false} ReplacePasses(literal: string, s: string, n: nat, value: string)
    requires !Has(literal, Placeholder(n)) && (literal != [] ==> !IsTokenChar(literal[|literal| - 1]))
    ensures ReplaceAll(literal + s, Placeholder(n), value) == literal + ReplaceAll(s, Placeholder(n), value)
  {
    if literal == [] {
      assert literal + s == s;
    } else {
      var token := Placeholder(n);
      PlaceholderChars(n);
      HasTail(literal, token);
      NotCompleted(literal, s, n);
      assert (literal + s)[1..] == literal[1..] + s;
      ReplacePasses(literal[1..], s, n, value);
      assert literal == [literal[0]] + literal[1..];
    }
  }

  /** Digits at the front are copied, and none appear that were not there. */
  lemma {:induction false} GreedyDigits(d: string, s: string, literals: seq<string>, lo: nat)
    requires lo > 0 && AllFramed(literals) && AllDigits(d)
    ensures d <= Greedy(s, literals, lo) <==> d <= s
    ensures d <= s ==> Greedy(s, literals, lo)[|d|..] == Greedy(s[|d|..], literals, lo)
  {
    var g := Greedy(s, literals, lo);
    if d == [] {
      assert d <= s && d <= g && g[0..] == g && s[0..] == s;
    } else if s != [] {
      assert d[0] in d && IsDigit(d[0]);
      if s[0] == d[0] {
        GreedyDigits(d[1..], s[1..], literals, lo);
        var g' := Greedy(s[1..], literals, lo);
        assert g == [s[0]] + g' && g[1..] == g';
        PrefixTail(d, s);
        PrefixTail(d, g);
        if d <= s {
          assert g[|d|..] == g'[|d| - 1..] && s[|d|..] == s[1..][|d| - 1..];
        }
      } else {
        GreedyHead(s, literals, lo);
      }
    }
  }

  lemma GreedyHead(s: string, literals: seq<string>, lo: nat)
    requires lo > 0 && AllFramed(literals) && s != []
    ensures var g := Greedy(s, literals, lo);
      g != [] && (g[0] == s[0] || (s[0] == '$' && !IsTokenChar(g[0])))
  {
    if s[0] == '$' && Match(s[1..], lo, |literals|).Some? {
      var m := Match(s[1..], lo, |literals|).value;
      assert Framed(literals[m - 1]);
    }
  }

  lemma PrefixTail(d: string, s: string)
    requires d != [] && s != [] && d[0] == s[0]
    ensures d <= s <==> d[1..] <= s[1..]
  {
    if d[1..] <= s[1..] {
      forall i | 0 <= i < |d| ensures d[i] == s[i] {
        if i > 0 {
          assert d[1..][i - 1] == s[1..][i - 1];
        }
      }
    }
  }

  /** A pass goes over the literal of a higher index, and on behind it. */
  lemma PassOver(literals: seq<string>, m: nat, n: nat, s: string)
    requires 0 < n < m <= |literals| && Inert(literals)
    ensures ReplaceAll(literals[m - 1] + s, Placeholder(n), literals[n - 1]) ==
            literals[m - 1] + ReplaceAll(s, Placeholder(n), literals[n - 1])
  {
    assert Framed(literals[m - 1]) && HasNone(literals[m - 1], m - 1);
    ReplacePasses(literals[m - 1], s, n, literals[n - 1]);
  }

  lemma PassOverChar(c: char, s: string, n: nat, value: string)
    requires c != '$'
    ensures ReplaceAll([c] + s, Placeholder(n), value) == [c] + ReplaceAll(s, Placeholder(n), value)
  {
    assert Placeholder(n)[0] == '$' && ([c] + s)[1..] == s;
  }

  /** One pass of the loop lowers the bound by one. */
  lemma {:induction false} GreedyStep(s: string, literals: seq<string>, n: nat)
    requires 0 < n <= |literals| && Inert(literals)
    ensures ReplaceAll(Greedy(s, literals, n + 1), Placeholder(n), literals[n - 1]) == Greedy(s, literals, n)
    decreases |s|, 1
  {
    if s == [] {
    } else if s[0] != '$' {
      GreedyStep(s[1..], literals, n);
      PassOverChar(s[0], Greedy(s[1..], literals, n + 1), n, literals[n - 1]);
    } else {
      MatchStep(s[1..], n, |literals|);
      var above := Match(s[1..], n + 1, |literals|);
      if above.Some? {
        var rest := s[1 + |NatText(above.value)|..];
        GreedyStep(rest, literals, n);
        PassOver(literals, above.value, n, Greedy(rest, literals, n + 1));
      } else {
        GreedyStepHere(s, literals, n);
      }
    }
  }

  /** Behind a dollar sign the token stands in the substituted text if and only if it stood in the text. */
  lemma TokenKept(t: string, literals: seq<string>, n: nat)
    requires 0 < n <= |literals| && AllFramed(literals)
    ensures var g := Greedy(t, literals, n + 1); Placeholder(n) <= ['$'] + g <==> NatText(n) <= t
    ensures NatText(n) <= t ==>
      (['$'] + Greedy(t, literals, n + 1))[|Placeholder(n)|..] == Greedy(t[|NatText(n)|..], literals, n + 1)
  {
    var d, g := NatText(n), Greedy(t, literals, n + 1);
    NatTextCanonical(n);
    GreedyDigits(d, t, literals, n + 1);
    PrefixTail(Placeholder(n), ['$'] + g);
    assert Placeholder(n)[1..] == d && (['$'] + g)[1..] == g;
    assert d <= t ==> (['$'] + g)[|Placeholder(n)|..] == g[|d|..];
  }

  lemma {:induction false} GreedyStepHere(s: string, literals: seq<string>, n: nat)
    requires 0 < n <= |literals| && Inert(literals)
    requires s != [] && s[0] == '$' && Match(s[1..], n + 1, |literals|).None?
    ensures ReplaceAll(Greedy(s, literals, n + 1), Placeholder(n), literals[n - 1]) == Greedy(s, literals, n)
    decreases |s|, 0
  {
    var t := s[1..];
    var d, g := NatText(n), Greedy(t, literals, n + 1);
    MatchStep(t, n, |literals|);
    TokenKept(t, literals, n);
    assert Greedy(s, literals, n + 1) == ['$'] + g && (['$'] + g)[1..] == g;
    if d <= t {
      GreedyStep(t[|d|..], literals, n);
      assert s[1 + |d|..] == t[|d|..];
    } else {
      GreedyStep(t, literals, n);
    }
  }

  lemma {:induction false} DescendingIsGreedy(s: string, literals: seq<string>, n: nat)
    requires n <= |literals| && Inert(literals)
    ensures Descending(Greedy(s, literals, n + 1), literals, n) == Greedy(s, literals, 1)
  {
    if n > 0 {
      GreedyStep(s, literals, n);
      DescendingIsGreedy(s, literals, n - 1);
    }
  }

  // ----- Simultaneous substitution -----

  /** The digits at the front of `s`. */
  function Digits(s: string): (d: string)
    ensures d <= s && AllDigits(d) && (|d| < |s| ==> !IsDigit(s[|d|]))
  {
    if s == [] || !IsDigit(s[0]) then [] else [s[0]] + Digits(s[1..])
  }

  /** The placeholder index that the digits denote, if it is the canonical text of a bound one. */
  function Index(digits: string, n: nat): Option<nat>
    requires AllDigits(digits)
  {
    if Canonical(digits) && 1 <= NatValue(digits) <= n then Some(NatValue(digits)) else None
  }

  /** Replaces every whole `$N` token at once and leaves the rest alone. */
  function Simultaneous(s: string, literals: seq<string>): string {
    if s == [] then []
    else if s[0] == '$' && Index(Digits(s[1..]), |literals|).Some? then
      literals[Index(Digits(s[1..]), |literals|).value - 1] +
      Simultaneous(s[1 + |Digits(s[1..])|..], literals)
    else [s[0]] + Simultaneous(s[1..], literals)
  }

  /** A token that begins like a bound index is one. */
  predicate CoveredHere(digits: string, n: nat)
    requires AllDigits(digits)
  {
    digits != [] && 1 <= DigitValue(digits[0]) <= n ==> NatValue(digits) <= n
  }

  predicate Covered(s: string, n: nat) {
    s == [] || ((s[0] == '$' ==> CoveredHere(Digits(s[1..]), n)) && Covered(s[1..], n))
  }

  lemma {:induction false} PrefixOfDigits(d: string, s: string)
    requires AllDigits(d)
    ensures d <= s <==> d <= Digits(s)
  {
    if d != [] && s != [] {
      assert d[0] in d;
      if d[0] == s[0] {
        PrefixOfDigits(d[1..], s[1..]);
        PrefixTail(d, s);
        var t := Digits(s);
        assert t[0] == s[0] && t[1..] == Digits(s[1..]);
        PrefixTail(d, t);
      }
    }
  }

  lemma {:induction false} PrefixValue(d: string, e: string)
    requires AllDigits(e) && d <= e
    ensures AllDigits(d) && NatValue(d) <= NatValue(e)
  {
    forall c | c in d ensures IsDigit(c) {
      assert c in e;
    }
    if |d| < |e| {
      var init := e[..|e| - 1];
      assert d <= init && AllDigits(init);
      PrefixValue(d, init);
    } else {
      assert d == e;
    }
  }

  lemma {:induction false} MatchIs(s: string, m: nat, lo: nat, hi: nat)
    requires lo <= m <= hi && NatText(m) <= s && forall k | m < k <= hi :: !(NatText(k) <= s)
    ensures Match(s, lo, hi) == Some(m)
  {
    if m < hi {
      MatchIs(s, m, lo, hi - 1);
    }
  }

  lemma {:induction false} NoMatch(s: string, lo: nat, hi: nat)
    requires forall k | lo <= k <= hi :: !(NatText(k) <= s)
    ensures Match(s, lo, hi).None?
  {
    if lo <= hi && hi > 0 {
      NoMatch(s, lo, hi - 1);
    }
  }

  /** A digit run that starts with a non-zero digit is the text of its value. */
  lemma RunIsText(run: string)
    requires run != [] && AllDigits(run) && run[0] != '0'
    ensures Canonical(run) && NatText(NatValue(run)) == run && NatValue(run) >= 1
  {
    CanonicalIsNatText(run);
    NatTextCanonical(NatValue(run));
  }

  lemma MatchOfBound(s: string, n: nat)
    requires Index(Digits(s), n).Some?
    ensures Match(s, 1, n) == Index(Digits(s), n)
  {
    var run := Digits(s);
    var v := NatValue(run);
    CanonicalIsNatText(run);
    forall k | v < k <= n ensures !(NatText(k) <= s) {
      NatTextCanonical(k);
      PrefixOfDigits(NatText(k), s);
      if NatText(k) <= run {
        PrefixValue(NatText(k), run);
      }
    }
    MatchIs(s, v, 1, n);
  }

  /** Without a bound first digit nothing matches. */
  lemma MatchOfNone(s: string, n: nat)
    requires var run := Digits(s); run == [] || !(1 <= DigitValue(run[0]) <= n)
    ensures Match(s, 1, n).None?
  {
    var run := Digits(s);
    forall k | 1 <= k <= n ensures !(NatText(k) <= s) {
      var d := NatText(k);
      NatTextCanonical(k);
      PrefixOfDigits(d, s);
      if d <= run {
        assert d[..1] <= d && d[0] == run[0];
        PrefixValue(d[..1], d);
        OneDigitValue(d[0]);
      }
    }
    NoMatch(s, 1, n);
  }

  lemma OneDigitValue(c: char)
    requires IsDigit(c)
    ensures NatValue([c]) == DigitValue(c)
  {
    assert [c][..0] == [];
  }

  /** With a bound first digit something matches. */
  lemma MatchOfSome(s: string, n: nat)
    requires var run := Digits(s); run != [] && 1 <= DigitValue(run[0]) <= n
    ensures Match(s, 1, n).Some?
  {
    var v := DigitValue(Digits(s)[0]);
    assert NatText(v) == [Digits(s)[0]] && NatText(v) <= s;
    MatchFound(s, v, 1, n);
  }

  lemma {:induction false} MatchFound(s: string, m: nat, lo: nat, hi: nat)
    requires lo <= m <= hi && NatText(m) <= s
    ensures Match(s, lo, hi).Some?
  {
    if m < hi {
      MatchFound(s, m, lo, hi - 1);
    }
  }

  /** At one dollar sign, greedy and simultaneous substitution agree exactly on covered tokens. */
  lemma TokenAgrees(s: string, n: nat)
    ensures Match(s, 1, n) == Index(Digits(s), n) <==> CoveredHere(Digits(s), n)
    ensures Match(s, 1, n) != Index(Digits(s), n) ==> Match(s, 1, n).Some? && Index(Digits(s), n).None?
  {
    var run := Digits(s);
    if Index(run, n).Some? {
      MatchOfBound(s, n);
    } else if run == [] || !(1 <= DigitValue(run[0]) <= n) {
      MatchOfNone(s, n);
    } else {
      RunIsText(run);
      MatchOfSome(s, n);
    }
  }

  lemma {:induction false} CoveredSkips(d: string, s: string, n: nat)
    requires AllDigits(d) && d <= s
    ensures Covered(s, n) <==> Covered(s[|d|..], n)
  {
    if d != [] {
      assert d[0] in d && s[0] == d[0];
      PrefixTail(d, s);
      CoveredSkips(d[1..], s[1..], n);
      assert s[1..][|d| - 1..] == s[|d|..];
    }
  }

  /** Both replace a bound token and go on behind it. */
  lemma BoundToken(s: string, literals: seq<string>, v: nat, rest: string)
    requires s != [] && s[0] == '$' && Index(Digits(s[1..]), |literals|) == Some(v)
    requires rest == s[1 + |Digits(s[1..])|..]
    ensures Greedy(s, literals, 1) == literals[v - 1] + Greedy(rest, literals, 1)
    ensures Simultaneous(s, literals) == literals[v - 1] + Simultaneous(rest, literals)
    ensures Covered(s, |literals|) <==> Covered(rest, |literals|)
  {
    var t, run := s[1..], Digits(s[1..]);
    TokenAgrees(t, |literals|);
    CanonicalIsNatText(run);
    CoveredSkips(run, t, |literals|);
    assert rest == t[|run|..];
  }

  /** Greedy and simultaneous substitution agree if and only if every token is covered. */
  lemma {:induction false} GreedyIsSimultaneous(s: string, literals: seq<string>)
    requires AllFramed(literals)
    ensures Greedy(s, literals, 1) == Simultaneous(s, literals) <==> Covered(s, |literals|)
  {
    if s != [] {
      var t, n := s[1..], |literals|;
      var index := Index(Digits(t), n);
      TokenAgrees(t, n);
      if s[0] == '$' && index.Some? {
        var rest := s[1 + |Digits(t)|..];
        BoundToken(s, literals, index.value, rest);
        GreedyIsSimultaneous(rest, literals);
        SameTail(literals[index.value - 1], Greedy(rest, literals, 1), Simultaneous(rest, literals));
      } else if s[0] == '$' && Match(t, 1, n).Some? {
        GreedyHead(s, literals, 1);
      } else {
        GreedyIsSimultaneous(t, literals);
        SameTail([s[0]], Greedy(t, literals, 1), Simultaneous(t, literals));
      }
    }
  }

  lemma SameTail(head: string, a: string, b: string)
    ensures head + a == head + b <==> a == b
  {
    assert (head + a)[|head|..] == a && (head + b)[|head|..] == b;
  }

  /** Inlining is simultaneous substitution if and only if every token of the statement is covered. */
  lemma InlineIsSimultaneous(sql: string, params: seq<Param>)
    requires Harmless(params)
    ensures Descending(sql, Literals(params), |params|) == Simultaneous(sql, Literals(params)) <==>
            Covered(sql, |params|)
  {
    var literals := Literals(params);
    InertIffHarmless(params);
    GreedyNone(sql, literals, |params| + 1);
    DescendingIsGreedy(sql, literals, |params|);
    GreedyIsSimultaneous(sql, literals);
  }

  // ----- The second pass -----

  /** No dollar sign is followed by the first digit of a bound index. */
  predicate Spent(s: string, n: nat) {
    forall i | 0 <= i < |s| - 1 :: s[i] == '$' && IsDigit(s[i + 1]) ==> !(1 <= DigitValue(s[i + 1]) <= n)
  }

  lemma {:induction false} GreedySpends(s: string, literals: seq<string>)
    requires AllQuiet(literals)
    ensures Spent(Greedy(s, literals, 1), |literals|)
  {
    if s != [] {
      var t, n := s[1..], |literals|;
      if s[0] == '$' && Match(t, 1, n).Some? {
        var m := Match(t, 1, n).value;
        GreedySpends(s[1 + |NatText(m)|..], literals);
        QuietIsSpent(literals[m - 1], n);
        SpentAfter(literals[m - 1], Greedy(s[1 + |NatText(m)|..], literals, 1), n);
      } else {
        GreedySpends(t, literals);
        var g := Greedy(t, literals, 1);
        if s[0] == '$' && t != [] {
          GreedyHead(t, literals, 1);
          if IsDigit(t[0]) && 1 <= DigitValue(t[0]) <= n {
            MatchOfSome(t, n);
          }
        }
        assert Greedy(s, literals, 1) == [s[0]] + g;
      }
    }
  }

  lemma QuietIsSpent(s: string, n: nat)
    requires HasNone(s, n)
    ensures Spent(s, n)
  {
    forall i | 0 <= i < |s| - 1 && s[i] == '$' && IsDigit(s[i + 1]) ensures !(1 <= DigitValue(s[i + 1]) <= n) {
      TokenAt(s, i);
    }
  }

  lemma TokenAt(s: string, i: nat)
    requires i < |s| - 1 && s[i] == '$' && IsDigit(s[i + 1])
    ensures Has(s, Placeholder(DigitValue(s[i + 1])))
  {
    var p := Placeholder(DigitValue(s[i + 1]));
    assert p == [s[i], s[i + 1]];
    assert OccursAt(s, p, i);
  }

  lemma SpentAfter(literal: string, s: string, n: nat)
    requires Framed(literal) && Spent(literal, n) && Spent(s, n)
    ensures Spent(literal + s, n)
  {
    var w := literal + s;
    assert w[|literal| - 1] == literal[|literal| - 1];
    forall i | 0 <= i < |w| - 1 && w[i] == '$' && IsDigit(w[i + 1]) ensures !(1 <= DigitValue(w[i + 1]) <= n) {
      if i < |literal| - 1 {
        assert literal[i] == '$' && literal[i + 1] == w[i + 1];
      } else {
        assert i != |literal| - 1;
        assert s[i - |literal|] == '$' && s[i - |literal| + 1] == w[i + 1];
      }
    }
  }

  lemma PlaceholderStart(k: nat, n: nat)
    requires 1 <= k <= n
    ensures var p := Placeholder(k); |p| > 1 && p[0] == '$' && IsDigit(p[1]) && 1 <= DigitValue(p[1]) <= n
  {
    var d := NatText(k);
    NatTextCanonical(k);
    assert d[0] in d && d[..1] == [d[0]];
    PrefixValue(d[..1], d);
    OneDigitValue(d[0]);
  }

  lemma {:induction false} ReplaceInSpent(s: string, k: nat, n: nat, literal: string)
    requires Spent(s, n) && 1 <= k <= n
    ensures ReplaceAll(s, Placeholder(k), literal) == s
  {
    if s != [] {
      assert Spent(s[1..], n) by {
        forall i | 0 <= i < |s[1..]| - 1 && s[1..][i] == '$' && IsDigit(s[1..][i + 1])
          ensures !(1 <= DigitValue(s[1..][i + 1]) <= n)
        {
          assert s[i + 1] == '$';
        }
      }
      ReplaceInSpent(s[1..], k, n, literal);
      PlaceholderStart(k, n);
      assert |s| > 1 ==> s[0] != '$' || s[1] != Placeholder(k)[1];
    }
  }

  lemma {:induction false} DescendingInSpent(s: string, literals: seq<string>, n: nat)
    requires n <= |literals| && Spent(s, |literals|)
    ensures Descending(s, literals, n) == s
  {
    if n > 0 {
      ReplaceInSpent(s, n, |literals|, literals[n - 1]);
      DescendingInSpent(s, literals, n - 1);
    }
  }

  /** Inlining again, with as many values of any kind, changes nothing when no bound text holds a placeholder. */
  lemma SecondPassIsIdentity(sql: string, params: seq<Param>, again: seq<Param>)
    requires Quiet(params) && |again| == |params|
    ensures var once := Descending(sql, Literals(params), |params|); Descending(once, Literals(again), |again|) == once
  {
    var literals := Literals(params);
    QuietIsHarmless(params);
    InertIffHarmless(params);
    LiteralsAreQuiet(params);
    GreedyNone(sql, literals, |params| + 1);
    DescendingIsGreedy(sql, literals, |params|);
    GreedySpends(sql, literals);
    DescendingInSpent(Greedy(sql, literals, 1), Literals(again), |again|);
  }

  // ----- Counting placeholders -----

  /** The highest index of any `$N` in the statement. */
  function MaxIndex(s: string): nat {
    if s == [] then 0
    else Max(if s[0] == '$' then NatValue(Digits(s[1..])) else 0, MaxIndex(s[1..]))
  }

  /** The number behind the character at position `i`, zero when no digit follows. */
  function NumberAt(s: string, i: nat): nat
    requires i < |s|
  {
    NatValue(Digits(s[i + 1..]))
  }

  /** That index bounds the number behind every dollar sign, and is one of them. */
  lemma {:induction false} MaxIndexBounds(s: string)
    ensures forall i | 0 <= i < |s| && s[i] == '$' :: NumberAt(s, i) <= MaxIndex(s)
    ensures MaxIndex(s) > 0 ==> exists i | 0 <= i < |s| && s[i] == '$' :: NumberAt(s, i) == MaxIndex(s)
  {
    if s != [] {
      var rest := s[1..];
      MaxIndexBounds(rest);
      forall i | 0 < i < |s| ensures NumberAt(s, i) == NumberAt(rest, i - 1) && s[i] == rest[i - 1] {
        assert s[i + 1..] == rest[i..];
      }
      if MaxIndex(s) > 0 {
        if s[0] == '$' && NumberAt(s, 0) == MaxIndex(s) {
        } else {
          var i :| 0 <= i < |rest| && rest[i] == '$' && NumberAt(rest, i) == MaxIndex(s);
          assert NumberAt(s, i + 1) == MaxIndex(s);
        }
      }
    }
  }

  lemma {:induction false} MaxIndexSkips(d: string, s: string)
    requires AllDigits(d) && d <= s
    ensures MaxIndex(s) == MaxIndex(s[|d|..])
  {
    if d != [] {
      assert d[0] in d && s[0] == d[0];
      PrefixTail(d, s);
      MaxIndexSkips(d[1..], s[1..]);
      assert s[1..][|d| - 1..] == s[|d|..];
    }
  }

  /** Reads the digits from position `start` on. */
  method ReadNumber(s: string, start: nat) returns (num: nat, end: nat)
    requires start <= |s|
    ensures end == start + |Digits(s[start..])| && num == NatValue(Digits(s[start..]))
  {
    num, end := 0, start;
    while end < |s| && IsDigit(s[end])
      invariant start <= end <= |s|
      invariant AllDigits(s[start..end]) && num == NatValue(s[start..end])
    {
      num := num * 10 + DigitValue(s[end]);
      end := end + 1;
      assert s[start..end][..end - 1 - start] == s[start..end - 1];
    }
    DigitsAre(s[start..], end - start);
    assert s[start..][..end - start] == s[start..end];
  }

  lemma {:induction false} DigitsAre(s: string, k: nat)
    requires k <= |s| && AllDigits(s[..k]) && (k < |s| ==> !IsDigit(s[k]))
    ensures Digits(s) == s[..k]
  {
    if k > 0 {
      assert s[..k][0] in s[..k];
      assert s[1..][..k - 1] == s[..k][1..];
      DigitsAre(s[1..], k - 1);
    }
  }

  method MaxParamIndex(sql: string) returns (max: nat)
    ensures max == MaxIndex(sql)
    ensures forall i | 0 <= i < |sql| && sql[i] == '$' :: NumberAt(sql, i) <= max
    ensures max > 0 ==> exists i | 0 <= i < |sql| && sql[i] == '$' :: NumberAt(sql, i) == max
  {
    max := 0;
    var i := 0;
    while i < |sql|
      invariant 0 <= i <= |sql|
      invariant Max(max, MaxIndex(sql[i..])) == MaxIndex(sql)
    {
      assert sql[i..][1..] == sql[i + 1..];
      if sql[i] == '$' {
        var num, j := ReadNumber(sql, i + 1);
        MaxIndexSkips(Digits(sql[i + 1..]), sql[i + 1..]);
        assert sql[i + 1..][j - i - 1..] == sql[j..];
        if num > max {
          max := num;
        }
        i := j;
      } else {
        i := i + 1;
      }
    }
    MaxIndexBounds(sql);
  }

  /** With as many values as the statement's highest index, every token is covered. */
  lemma {:induction false} CountCovers(sql: string, n: nat)
    requires MaxIndex(sql) <= n
    ensures Covered(sql, n)
  {
    if sql != [] {
      CountCovers(sql[1..], n);
    }
  }
}
