/** Lists and text: the library calls that several parts of the program share. */
module Basics {

  type Byte = b: nat | b < 256

  function Max(a: nat, b: nat): nat {
    if a < b then b else a
  }

  /** All elements of all lists, in order. */
  function Flatten<T>(lists: seq<seq<T>>): seq<T> {
    if lists == [] then [] else Flatten(lists[..|lists| - 1]) + lists[|lists| - 1]
  }

  /** The elements that pass, in order. */
  function Keep<T>(pass: T -> bool, list: seq<T>): seq<T> {
    if list == [] then []
    else
      var kept := Keep(pass, list[..|list| - 1]);
      if pass(list[|list| - 1]) then kept + [list[|list| - 1]] else kept
  }

  lemma {:induction false} KeepConcat<T>(pass: T -> bool, a: seq<T>, b: seq<T>)
    ensures Keep(pass, a + b) == Keep(pass, a) + Keep(pass, b)
  {
    if b == [] {
      assert a + b == a;
    } else {
      assert (a + b)[..|a + b| - 1] == a + b[..|b| - 1];
      KeepConcat(pass, a, b[..|b| - 1]);
    }
  }

  lemma {:induction false} KeepMembers<T>(pass: T -> bool, list: seq<T>)
    ensures forall x :: x in Keep(pass, list) <==> x in list && pass(x)
  {
    if list != [] {
      var init := list[..|list| - 1];
      assert list == init + [list[|list| - 1]];
      KeepMembers(pass, init);
    }
  }

  ghost predicate NoRepeats<T>(s: seq<T>) {
    forall i, j | 0 <= i < j < |s| :: s[i] != s[j]
  }

  function TrimStart(s: string, space: char -> bool): (t: string)
    ensures |t| <= |s|
  {
    if s != [] && space(s[0]) then TrimStart(s[1..], space) else s
  }

  function TrimEnd(s: string, space: char -> bool): string {
    if s != [] && space(s[|s| - 1]) then TrimEnd(s[..|s| - 1], space) else s
  }

  /** Trimming removes white space, and all of it. */
  lemma {:induction false} TrimStartCuts(s: string, space: char -> bool) returns (cut: string)
    ensures s == cut + TrimStart(s, space) && forall c | c in cut :: space(c)
    ensures TrimStart(s, space) == [] || !space(TrimStart(s, space)[0])
    ensures s != [] && space(s[0]) ==> cut != []
  {
    if s != [] && space(s[0]) {
      var rest := TrimStartCuts(s[1..], space);
      cut := [s[0]] + rest;
    } else {
      cut := [];
    }
  }

  lemma {:induction false} TrimEndCuts(s: string, space: char -> bool) returns (cut: string)
    ensures s == TrimEnd(s, space) + cut && forall c | c in cut :: space(c)
    ensures TrimEnd(s, space) == [] || !space(TrimEnd(s, space)[|TrimEnd(s, space)| - 1])
  {
    if s != [] && space(s[|s| - 1]) {
      var rest := TrimEndCuts(s[..|s| - 1], space);
      cut := rest + [s[|s| - 1]];
      assert s == s[..|s| - 1] + [s[|s| - 1]];
    } else {
      cut := [];
    }
  }
}
