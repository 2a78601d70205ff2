/** The byte order of text and the sorting that `select_owner` and the merge rely on. */
module Ordering {

  /** `a <= b` in the order of Rust's `str`. UTF-8 keeps code point order, so characters compare directly. */
  predicate StrLe(a: string, b: string) {
    a == [] || (b != [] && (a[0] < b[0] || (a[0] == b[0] && StrLe(a[1..], b[1..]))))
  }

  lemma {:induction false} StrLeTotal(a: string, b: string)
    ensures StrLe(a, b) || StrLe(b, a)
  {
    if a != [] && b != [] {
      StrLeTotal(a[1..], b[1..]);
    }
  }

  lemma {:induction false} StrLeAntisymmetric(a: string, b: string)
    requires StrLe(a, b) && StrLe(b, a)
    ensures a == b
  {
    if a != [] {
      StrLeAntisymmetric(a[1..], b[1..]);
      assert a == [a[0]] + a[1..] && b == [b[0]] + b[1..];
    }
  }

  lemma {:induction false} StrLeTransitive(a: string, b: string, c: string)
    requires StrLe(a, b) && StrLe(b, c)
    ensures StrLe(a, c)
  {
    if a != [] && a[0] == b[0] == c[0] {
      StrLeTransitive(a[1..], b[1..], c[1..]);
    }
  }

  ghost predicate Ascending(s: seq<string>) {
    forall i, j | 0 <= i < j < |s| :: StrLe(s[i], s[j])
  }

  function Insert(x: string, s: seq<string>): seq<string> {
    if s == [] || StrLe(x, s[0]) then [x] + s else [s[0]] + Insert(x, s[1..])
  }

  /** `sort_unstable` on a vector of names. */
  function Sort(s: seq<string>): seq<string> {
    if s == [] then [] else Insert(s[0], Sort(s[1..]))
  }

  lemma {:induction false} InsertContents(x: string, s: seq<string>)
    ensures multiset(Insert(x, s)) == multiset(s) + multiset{x}
  {
    if s != [] {
      assert s == [s[0]] + s[1..];
      InsertContents(x, s[1..]);
    }
  }

  lemma {:induction false} InsertSorts(x: string, s: seq<string>)
    requires Ascending(s)
    ensures Ascending(Insert(x, s))
  {
    if s == [] {
    } else if StrLe(x, s[0]) {
      forall j | 0 < j < |s| ensures StrLe(x, s[j]) {
        StrLeTransitive(x, s[0], s[j]);
      }
    } else {
      StrLeTotal(x, s[0]);
      InsertSorts(x, s[1..]);
      InsertContents(x, s[1..]);
      var rest := Insert(x, s[1..]);
      forall j | 0 <= j < |rest| ensures StrLe(s[0], rest[j]) {
        assert rest[j] in multiset(rest);
      }
    }
  }

  /** Sorting returns the same names in ascending order. */
  lemma {:induction false} SortSorts(s: seq<string>)
    ensures Ascending(Sort(s)) && multiset(Sort(s)) == multiset(s) && |Sort(s)| == |s|
  {
    if s != [] {
      SortSorts(s[1..]);
      InsertSorts(s[0], Sort(s[1..]));
      InsertContents(s[0], Sort(s[1..]));
      assert s == [s[0]] + s[1..];
    }
    assert |multiset(Sort(s))| == |multiset(s)|;
  }

  function Below(s: seq<string>, x: string): set<string> {
    set p | p in s && p != x && StrLe(p, x)
  }

  /** Among different names in ascending order, position `i` has `i` names below it. */
  lemma {:induction false} Rank(s: seq<string>, i: nat)
    requires Ascending(s) && i < |s| && forall x :: multiset(s)[x] <= 1
    ensures |Below(s, s[i])| == i
    decreases i
  {
    Apart(s);
    if i == 0 {
      forall p | p in s ensures p !in Below(s, s[0]) {
        var j :| 0 <= j < |s| && s[j] == p;
        BelowExactly(s, 0, j);
      }
      assert Below(s, s[0]) == {};
    } else {
      Rank(s, i - 1);
      forall p | p in s ensures p in Below(s, s[i]) <==> p in Below(s, s[i - 1]) + {s[i - 1]} {
        var j :| 0 <= j < |s| && s[j] == p;
        BelowExactly(s, i, j);
        BelowExactly(s, i - 1, j);
      }
      assert Below(s, s[i]) == Below(s, s[i - 1]) + {s[i - 1]};
    }
  }

  lemma Apart(s: seq<string>)
    requires forall x :: multiset(s)[x] <= 1
    ensures forall i, j | 0 <= i < j < |s| :: s[i] != s[j]
  {
    forall i, j | 0 <= i < j < |s| ensures s[i] != s[j] {
      var a, b := s[..j], s[j..];
      assert s == a + b && s[i] in a && s[j] in b;
      assert s[i] in multiset(a) && s[j] in multiset(b);
      assert multiset(s)[s[j]] <= 1;
    }
  }

  lemma BelowExactly(s: seq<string>, i: nat, j: nat)
    requires Ascending(s) && i < |s| && j < |s| && forall k, m | 0 <= k < m < |s| :: s[k] != s[m]
    ensures s[j] in Below(s, s[i]) <==> j < i
  {
    if i < j && StrLe(s[j], s[i]) {
      StrLeAntisymmetric(s[i], s[j]);
    }
  }

  lemma AscendingHeads(s: seq<string>, t: seq<string>)
    requires Ascending(s) && Ascending(t) && s != [] && t != []
    requires s[0] in t && t[0] in s
    ensures s[0] == t[0]
  {
    var i :| 0 <= i < |t| && t[i] == s[0];
    var j :| 0 <= j < |s| && s[j] == t[0];
    if i > 0 && j > 0 {
      StrLeAntisymmetric(s[0], t[0]);
    }
  }

  lemma SameTails<T>(s: seq<T>, t: seq<T>)
    requires s != [] && t != [] && s[0] == t[0] && multiset(s) == multiset(t)
    ensures multiset(s[1..]) == multiset(t[1..])
  {
    assert s == [s[0]] + s[1..] && t == [t[0]] + t[1..];
    assert multiset(s[1..]) == multiset(s) - multiset{s[0]};
  }

  /** An ascending sequence is determined by its contents. */
  lemma {:induction false} AscendingUnique(s: seq<string>, t: seq<string>)
    requires Ascending(s) && Ascending(t) && multiset(s) == multiset(t)
    ensures s == t
  {
    if s == [] || t == [] {
      assert |multiset(s)| == |multiset(t)|;
    } else {
      assert s[0] in multiset(s) && t[0] in multiset(t);
      AscendingHeads(s, t);
      SameTails(s, t);
      AscendingUnique(s[1..], t[1..]);
    }
  }

  lemma SortOrderFree(s: seq<string>, t: seq<string>)
    requires multiset(s) == multiset(t)
    ensures Sort(s) == Sort(t)
  {
    SortSorts(s);
    SortSorts(t);
    AscendingUnique(Sort(s), Sort(t));
  }
}
