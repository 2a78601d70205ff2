/** Cutting the predicate out of `ON CONFLICT (...) WHERE ... DO`, and putting it back. */
module Conflict {
  import opened Wrappers
  import opened Basics

  // ----- Text -----

  /** Rust's `char::is_whitespace`. */
  predicate IsSpace(c: char) {
    var code := c as int;
    || 9 <= code <= 13 || 0x2000 <= code <= 0x200A
    || code in {32, 0x85, 0xA0, 0x1680, 0x2028, 0x2029, 0x202F, 0x205F, 0x3000}
  }

  predicate AllSpace(s: string) {
    forall c | c in s :: IsSpace(c)
  }

  function UpperChar(c: char): char {
    if 'a' <= c <= 'z' then (c as int - 32) as char else c
  }

  /** The upper-case text `p` occurs at position `i`, in either case. */
  predicate At(s: string, p: string, i: nat) {
    i + |p| <= |s| && forall k | 0 <= k < |p| :: UpperChar(s[i + k]) == p[k]
  }

  /** The first occurrence from position `i` on. */
  function Find(s: string, p: string, i: nat): (r: Option<nat>)
    ensures r.Some? ==> i <= r.value && At(s, p, r.value) && forall j | i <= j < r.value :: !At(s, p, j)
    ensures r.None? ==> forall j | i <= j :: !At(s, p, j)
    decreases |s| - i
  {
    if i + |p| > |s| then None
    else if At(s, p, i) then Some(i)
    else if i == |s| then None
    else Find(s, p, i + 1)
  }

  lemma {:induction false} FindIs(s: string, p: string, i: nat, at: nat)
    requires i <= at && At(s, p, at) && forall j | i <= j < at :: !At(s, p, j)
    ensures Find(s, p, i) == Some(at)
  {
  }

  /** An occurrence depends only on the text up to its end. */
  lemma FindInPrefix(s: string, t: string, p: string, i: nat, at: nat, k: nat)
    requires Find(s, p, i) == Some(at) && at + |p| <= k <= |s| && k <= |t| && s[..k] == t[..k]
    ensures Find(t, p, i) == Some(at)
  {
    assert forall m | 0 <= m < k :: s[m] == s[..k][m] == t[..k][m] == t[m];
    forall j | i <= j <= at ensures At(t, p, j) <==> At(s, p, j) {
    }
    FindIs(t, p, i, at);
  }

  // ----- The parenthesis scan -----

  datatype Scan = Scan(depth: int, quoted: bool)

  function Next(scan: Scan, c: char): Scan {
    if c == '\'' then scan.(quoted := !scan.quoted)
    else if c == '(' && !scan.quoted then scan.(depth := scan.depth + 1)
    else if c == ')' && !scan.quoted then scan.(depth := scan.depth - 1)
    else scan
  }

  /** Parenthesis depth and quoting after a text. */
  function Scanned(s: string): Scan {
    if s == [] then Scan(0, false) else Next(Scanned(s[..|s| - 1]), s[|s| - 1])
  }

  /** A text that opens a parenthesis with its first character and closes it with its last. */
  ghost predicate Closes(s: string) {
    && s != [] && s[|s| - 1] == ')' && Scanned(s) == Scan(0, false)
    && forall k | 0 < k < |s| :: Scanned(s[..k]).depth > 0
  }

  /** The scan from `i` on, with the given depth and quoting: the position after the closing parenthesis. */
  function Close(s: string, i: nat, scan: Scan): Option<nat>
    requires i <= |s|
    decreases |s| - i
  {
    if i == |s| then None
    else
      var next := Next(scan, s[i]);
      if s[i] == ')' && !scan.quoted && next.depth == 0 then Some(i + 1) else Close(s, i + 1, next)
  }

  method FindClose(s: string, open: nat) returns (end: Option<nat>)
    requires open < |s| && s[open] == '('
    ensures end == Close(s, open, Scan(0, false))
    ensures end.Some? ==> open < end.value <= |s| && Closes(s[open..end.value])
    ensures end.None? ==> forall e | open < e <= |s| :: !Closes(s[open..e])
  {
    CloseIsMatching(s, open);
    var depth, quoted := 0, false;
    var i := open;
    end := None;
    while i < |s|
      invariant open <= i <= |s|
      invariant Close(s, i, Scan(depth, quoted)) == Close(s, open, Scan(0, false))
      decreases |s| - i
    {
      if s[i] == '\'' {
        quoted := !quoted;
      } else if s[i] == '(' && !quoted {
        depth := depth + 1;
      } else if s[i] == ')' && !quoted {
        depth := depth - 1;
        if depth == 0 {
          end := Some(i + 1);
          return;
        }
      }
      i := i + 1;
    }
  }

  /** Below position `i` the parenthesis opened at `open` has not been closed. */
  ghost predicate StillOpen(s: string, open: nat, i: nat)
    requires i <= |s|
  {
    forall k | open < k <= i :: Scanned(s[open..k]).depth > 0
  }

  lemma ScannedStep(s: string, open: nat, i: nat)
    requires open <= i < |s|
    ensures Scanned(s[open..i + 1]) == Next(Scanned(s[open..i]), s[i])
  {
    var t := s[open..i + 1];
    assert t[..|t| - 1] == s[open..i];
  }

  lemma ClosesHere(s: string, open: nat, i: nat)
    requires open < i < |s| && StillOpen(s, open, i)
    ensures Closes(s[open..i + 1]) <==>
            s[i] == ')' && !Scanned(s[open..i]).quoted && Next(Scanned(s[open..i]), s[i]).depth == 0
  {
    ScannedStep(s, open, i);
    var t := s[open..i + 1];
    forall k | 0 < k < |t| ensures Scanned(t[..k]).depth > 0 {
      assert t[..k] == s[open..open + k];
    }
  }

  lemma {:induction false} CloseFinds(s: string, open: nat, i: nat)
    requires open < i <= |s| && StillOpen(s, open, i)
    ensures var end := Close(s, i, Scanned(s[open..i]));
      && (end.Some? ==> i < end.value <= |s| && Closes(s[open..end.value]))
      && (end.None? ==> forall e | i < e <= |s| :: !Closes(s[open..e]))
    decreases |s| - i
  {
    if i < |s| {
      ClosesHere(s, open, i);
      ScannedStep(s, open, i);
      if !Closes(s[open..i + 1]) {
        NotClosedStaysOpen(s, open, i);
        CloseFinds(s, open, i + 1);
      }
    }
  }

  lemma NotClosedStaysOpen(s: string, open: nat, i: nat)
    requires open < i < |s| && StillOpen(s, open, i) && !Closes(s[open..i + 1])
    ensures StillOpen(s, open, i + 1)
  {
    ClosesHere(s, open, i);
    ScannedStep(s, open, i);
  }

  /** The scan ends at the matching close parenthesis if there is one. */
  lemma CloseIsMatching(s: string, open: nat)
    requires open < |s| && s[open] == '('
    ensures var end := Close(s, open, Scan(0, false));
      && (end.Some? ==> open < end.value <= |s| && Closes(s[open..end.value]))
      && (end.None? ==> forall e | open < e <= |s| :: !Closes(s[open..e]))
  {
    assert s[open..open] == [];
    ScannedStep(s, open, open);
    assert Scanned(s[open..open + 1]) == Scan(1, false);
    CloseFinds(s, open, open + 1);
  }

  lemma {:induction false} CloseInPrefix(s: string, t: string, i: nat, scan: Scan, e: nat)
    requires i <= |s| && Close(s, i, scan) == Some(e) && e <= |t| && e <= |s| && s[..e] == t[..e]
    ensures i < e && Close(t, i, scan) == Some(e)
    decreases |s| - i
  {
    CloseBeyond(s, i, scan);
    assert s[..e][i] == t[..e][i];
    if Close(s, i + 1, Next(scan, s[i])) == Some(e) && !(s[i] == ')' && !scan.quoted && Next(scan, s[i]).depth == 0) {
      CloseInPrefix(s, t, i + 1, Next(scan, s[i]), e);
    }
  }

  lemma {:induction false} CloseBeyond(s: string, i: nat, scan: Scan)
    requires i <= |s|
    ensures Close(s, i, scan).Some? ==> i < Close(s, i, scan).value <= |s|
    decreases |s| - i
  {
    if i < |s| {
      CloseBeyond(s, i + 1, Next(scan, s[i]));
    }
  }

  // ----- Cutting and splicing -----

  const ON_CONFLICT := "ON CONFLICT"

  /** The end of the conflict target's column list. */
  function TargetEnd(sql: string): (end: Option<nat>)
    ensures end.Some? ==> end.value <= |sql|
  {
    var on := Find(sql, ON_CONFLICT, 0);
    if on.None? then None
    else
      var open := Find(sql, "(", on.value);
      if open.None? then None
      else
        CloseBeyond(sql, open.value, Scan(0, false));
        Close(sql, open.value, Scan(0, false))
  }

  datatype Repaired = Repaired(stripped: string, clause: string)

  /** `strip_conflict_predicate`. */
  function Strip(sql: string): Option<Repaired> {
    var end := TargetEnd(sql);
    if end.None? then None else Cut(sql[..end.value], TrimStart(sql[end.value..], IsSpace))
  }

  function Cut(head: string, after: string): Option<Repaired> {
    var stop := Find(after, " DO ", 0);
    if !At(after, "WHERE", 0) || stop.None? then None
    else Some(Repaired(head + " " + TrimStart(after[stop.value..], IsSpace), TrimEnd(after[..stop.value], IsSpace)))
  }

  /** The splice of `insert_capture_sql`: the clause goes back behind the column list. */
  function Splice(rendered: string, clause: string): Option<string> {
    var end := TargetEnd(rendered);
    if end.None? then None
    else Some(rendered[..end.value] + " " + clause + " " + TrimStart(rendered[end.value..], IsSpace))
  }

  /** The parenthesis comes after the keywords, which contain none. */
  lemma OpenBehind(sql: string, on: nat, open: nat)
    requires At(sql, ON_CONFLICT, on) && At(sql, "(", open) && on <= open
    ensures on + |ON_CONFLICT| <= open
  {
    assert UpperChar(sql[open + 0]) == "("[0];
    assert ON_CONFLICT == ['O', 'N', ' ', 'C', 'O', 'N', 'F', 'L', 'I', 'C', 'T'];
    forall m | on <= m < on + |ON_CONFLICT| ensures sql[m] != '(' {
      assert UpperChar(sql[on + (m - on)]) == ON_CONFLICT[m - on];
    }
  }

  /** The column list ends in the same place in every text that agrees with `sql` up to there. */
  lemma TargetEndInPrefix(sql: string, t: string, e: nat)
    requires TargetEnd(sql) == Some(e) && e <= |t| && sql[..e] == t[..e]
    ensures TargetEnd(t) == Some(e)
  {
    var on := Find(sql, ON_CONFLICT, 0).value;
    var open := Find(sql, "(", on).value;
    CloseBeyond(sql, open, Scan(0, false));
    OpenBehind(sql, on, open);
    FindInPrefix(sql, t, ON_CONFLICT, 0, on, e);
    FindInPrefix(sql, t, "(", on, open, e);
    CloseInPrefix(sql, t, open, Scan(0, false), e);
  }

  /** `text` is `head`, the clause and the tail, with white space at the two joints. */
  ghost predicate Joined(text: string, head: string, clause: string, tail: string) {
    exists a, b :: JoinedBy(text, head, a, clause, b, tail)
  }

  ghost predicate JoinedBy(text: string, head: string, a: string, clause: string, b: string, tail: string) {
    AllSpace(a) && AllSpace(b) && b != [] && text == head + a + clause + b + tail
  }

  lemma BlankThere(after: string, stop: nat)
    requires At(after, " DO ", stop)
    ensures IsSpace(after[stop..][0])
  {
    assert UpperChar(after[stop + 0]) == " DO "[0];
  }

  lemma JoinsUp(head: string, a: string, clause: string, b1: string, b2: string, tail: string)
    ensures head + a + ((clause + b1) + (b2 + tail)) == head + a + clause + (b1 + b2) + tail
  {
    var x := head + a;
    assert (clause + b1) + (b2 + tail) == clause + (b1 + b2) + tail;
    assert x + (clause + (b1 + b2) + tail) == x + clause + (b1 + b2) + tail;
  }

  lemma CutJoins(head: string, a: string, after: string, r: Repaired) returns (tail: string)
    requires AllSpace(a) && Cut(head, after) == Some(r)
    ensures Joined(head + a + after, head, r.clause, tail)
    ensures r.stripped == head + " " + tail && TrimStart(tail, IsSpace) == tail
  {
    var stop := Find(after, " DO ", 0).value;
    tail := TrimStart(after[stop..], IsSpace);
    BlankThere(after, stop);
    var b1 := TrimEndCuts(after[..stop], IsSpace);
    var b2 := TrimStartCuts(after[stop..], IsSpace);
    assert after == after[..stop] + after[stop..];
    JoinsUp(head, a, r.clause, b1, b2, tail);
    assert JoinedBy(head + a + after, head, a, r.clause, b1 + b2, tail);
  }

  lemma StripJoins(sql: string, r: Repaired) returns (tail: string)
    requires Strip(sql) == Some(r)
    ensures var head := sql[..TargetEnd(sql).value];
      Joined(sql, head, r.clause, tail) && r.stripped == head + " " + tail && TrimStart(tail, IsSpace) == tail
  {
    var end := TargetEnd(sql).value;
    var head, behind := sql[..end], sql[end..];
    var a := TrimStartCuts(behind, IsSpace);
    tail := CutJoins(head, a, TrimStart(behind, IsSpace), r);
    Regroup(head, a, TrimStart(behind, IsSpace));
    assert sql == head + behind;
  }

  lemma Regroup(a: string, b: string, c: string)
    ensures a + b + c == a + (b + c)
  {
  }

  /**
   * Splicing the clause back into the stripped statement finds the same place, and gives the
   * original text up to white space at the two joints.
   */
  lemma SpliceRestores(sql: string, r: Repaired) returns (tail: string)
    requires Strip(sql) == Some(r)
    ensures TargetEnd(r.stripped) == TargetEnd(sql)
    ensures var head := sql[..TargetEnd(sql).value];
      Joined(sql, head, r.clause, tail) && Splice(r.stripped, r.clause) == Some(head + " " + r.clause + " " + tail)
  {
    var end := TargetEnd(sql).value;
    tail := StripJoins(sql, r);
    var head := sql[..end];
    assert r.stripped[..end] == head;
    TargetEndInPrefix(sql, r.stripped, end);
    SpaceThen(head, tail);
  }

  lemma SpaceThen(head: string, tail: string)
    requires TrimStart(tail, IsSpace) == tail
    ensures TrimStart((head + " " + tail)[|head|..], IsSpace) == tail
  {
    assert (head + " " + tail)[|head|..] == [' '] + tail;
    assert ([' '] + tail)[1..] == tail && IsSpace(' ');
  }

  // ----- Which statements are cut, and where -----

  /** The first occurrence of `p` at or behind position `i`. */
  ghost predicate First(s: string, p: string, i: nat, at: nat) {
    i <= at && At(s, p, at) && forall j | i <= j < at :: !At(s, p, j)
  }

  /** The first parenthesis behind the first ON CONFLICT opens a list that ends at `e`. */
  ghost predicate ListEnds(sql: string, on: nat, open: nat, e: nat) {
    && First(sql, "ON CONFLICT", 0, on) && First(sql, "(", on, open)
    && open < e <= |sql| && Closes(sql[open..e])
  }

  lemma ClosesOnce(s: string, open: nat, e: nat, f: nat)
    requires open < e < f <= |s| && Closes(s[open..e])
    ensures !Closes(s[open..f])
  {
    assert s[open..f][..e - open] == s[open..e];
  }

  lemma OpensThere(s: string, open: nat)
    requires At(s, "(", open)
    ensures open < |s| && s[open] == '('
  {
    assert UpperChar(s[open + 0]) == "("[0];
  }

  /** The column list ends where its parenthesis is closed. */
  lemma TargetExactly(sql: string, e: nat)
    ensures TargetEnd(sql) == Some(e) <==> exists on, open :: ListEnds(sql, on, open, e)
  {
    var on := Find(sql, ON_CONFLICT, 0);
    var open := if on.Some? then Find(sql, "(", on.value) else None;
    if open.Some? {
      OpensThere(sql, open.value);
      CloseIsMatching(sql, open.value);
      if TargetEnd(sql) == Some(e) {
        assert ListEnds(sql, on.value, open.value, e);
      }
      forall o, p | ListEnds(sql, o, p, e) ensures TargetEnd(sql) == Some(e) {
        FirstIsFound(sql, ON_CONFLICT, 0, o);
        FirstIsFound(sql, "(", o, p);
        var end := TargetEnd(sql).value;
        if end < e {
          ClosesOnce(sql, p, end, e);
        } else if e < end {
          ClosesOnce(sql, p, e, end);
        }
      }
    } else {
      forall o, p | ListEnds(sql, o, p, e) ensures false {
        FirstIsFound(sql, ON_CONFLICT, 0, o);
        FirstIsFound(sql, "(", o, p);
      }
    }
  }

  lemma FirstIsFound(s: string, p: string, i: nat, at: nat)
    requires First(s, p, i, at)
    ensures Find(s, p, i) == Some(at)
  {
    FindIs(s, p, i, at);
  }

  /** Behind the list, only white space before a WHERE at `k`, and from there the first " DO " at `stop`. */
  ghost predicate ClauseAt(sql: string, e: nat, k: nat, stop: nat) {
    e <= k <= |sql| && AllSpace(sql[e..k]) && At(sql, "WHERE", k) && First(sql, " DO ", k, stop)
  }

  lemma AtShift(s: string, p: string, k: nat, i: nat)
    requires k <= |s|
    ensures At(s[k..], p, i) <==> At(s, p, k + i)
  {
  }

  lemma FirstShift(s: string, p: string, k: nat, i: nat)
    requires k <= |s|
    ensures First(s[k..], p, 0, i) <==> First(s, p, k, k + i)
  {
    forall j: nat | j <= i ensures At(s[k..], p, j) <==> At(s, p, k + j) {
      AtShift(s, p, k, j);
    }
    if First(s[k..], p, 0, i) {
      forall j | k <= j < k + i ensures !At(s, p, j) {
        AtShift(s, p, k, j - k);
      }
    }
  }

  lemma {:induction false} TrimsTo(s: string, e: nat, k: nat)
    requires e <= k <= |s| && AllSpace(s[e..k]) && (k == |s| || !IsSpace(s[k]))
    ensures TrimStart(s[e..], IsSpace) == s[k..]
    decreases k - e
  {
    if e < k {
      assert s[e..k][0] in s[e..k];
      assert s[e..][1..] == s[e + 1..];
      assert forall c | c in s[e + 1..k] :: c in s[e..k];
      TrimsTo(s, e + 1, k);
    }
  }

  lemma TrimsFrom(s: string, e: nat) returns (k: nat)
    requires e <= |s|
    ensures e <= k <= |s| && AllSpace(s[e..k]) && TrimStart(s[e..], IsSpace) == s[k..]
  {
    var cut := TrimStartCuts(s[e..], IsSpace);
    k := e + |cut|;
    assert s[e..k] == s[e..][..|cut|] == cut;
    assert s[k..] == s[e..][|cut|..];
  }

  lemma CutThere(head: string, after: string, i: nat)
    requires At(after, "WHERE", 0) && First(after, " DO ", 0, i)
    ensures Cut(head, after).Some? && Cut(head, after).value.clause == TrimEnd(after[..i], IsSpace)
  {
    FirstIsFound(after, " DO ", 0, i);
  }

  lemma NoSpaceThere(sql: string, k: nat)
    requires At(sql, "WHERE", k)
    ensures !IsSpace(sql[k])
  {
    assert UpperChar(sql[k + 0]) == "WHERE"[0];
  }

  lemma ClauseAhead(sql: string, e: nat, k: nat, stop: nat)
    requires ClauseAt(sql, e, k, stop)
    ensures TrimStart(sql[e..], IsSpace) == sql[k..]
    ensures At(sql[k..], "WHERE", 0) && First(sql[k..], " DO ", 0, stop - k)
    ensures stop <= |sql| && sql[k..][..stop - k] == sql[k..stop]
  {
    NoSpaceThere(sql, k);
    TrimsTo(sql, e, k);
    AtShift(sql, "WHERE", k, 0);
    FirstShift(sql, " DO ", k, stop - k);
  }

  /** Such a statement is cut there: the predicate runs from the WHERE to the " DO ". */
  lemma StripsThere(sql: string, e: nat, k: nat, stop: nat)
    requires TargetEnd(sql) == Some(e) && ClauseAt(sql, e, k, stop)
    ensures Strip(sql).Some? && Strip(sql).value.clause == TrimEnd(sql[k..stop], IsSpace)
  {
    ClauseAhead(sql, e, k, stop);
    CutThere(sql[..e], sql[k..], stop - k);
  }

  /** And only such a statement is cut. */
  lemma StripsOnly(sql: string) returns (e: nat, k: nat, stop: nat)
    requires Strip(sql).Some?
    ensures TargetEnd(sql) == Some(e) && ClauseAt(sql, e, k, stop)
  {
    e := TargetEnd(sql).value;
    k := TrimsFrom(sql, e);
    AtShift(sql, "WHERE", k, 0);
    var at := Find(sql[k..], " DO ", 0).value;
    stop := k + at;
    FirstShift(sql, " DO ", k, at);
  }

  // ----- Where the clause ends -----

  /** Outside quotes and parentheses. */
  predicate Outside(s: string, k: nat)
    requires k <= |s|
  {
    Scanned(s[..k]) == Scan(0, false)
  }

  /** The end that the scan is documented to look for: the first " DO " outside quotes and parentheses. */
  ghost predicate EndsAt(after: string, k: nat) {
    At(after, " DO ", k) && Outside(after, k) && forall j | 0 <= j < k :: At(after, " DO ", j) ==> !Outside(after, j)
  }

  lemma {:induction false} TrimEndKeeps(s: string, i: nat)
    requires i < |s| && !IsSpace(s[i])
    ensures |TrimEnd(s, IsSpace)| > i
  {
    if IsSpace(s[|s| - 1]) {
      TrimEndKeeps(s[..|s| - 1], i);
    }
  }

  lemma {:induction false} TrimEndShorter(s: string)
    ensures |TrimEnd(s, IsSpace)| <= |s|
  {
    if s != [] && IsSpace(s[|s| - 1]) {
      TrimEndShorter(s[..|s| - 1]);
    }
  }

  /** A clause cut at a later " DO " is longer. */
  lemma LaterIsLonger(after: string, stop: nat, k: nat)
    requires At(after, " DO ", stop) && At(after, " DO ", k) && stop < k
    ensures TrimEnd(after[..k], IsSpace) != TrimEnd(after[..stop], IsSpace)
  {
    assert UpperChar(after[stop + 1]) == " DO "[1] && UpperChar(after[k + 0]) == " DO "[0];
    TrimEndKeeps(after[..k], stop + 1);
    TrimEndShorter(after[..stop]);
  }

  /** The clause is cut at that end if and only if the very first " DO " lies outside quotes and parentheses. */
  lemma CutExactly(head: string, after: string, r: Repaired)
    requires Cut(head, after) == Some(r)
    ensures (exists k: nat :: EndsAt(after, k) && r.clause == TrimEnd(after[..k], IsSpace)) <==>
            Outside(after, Find(after, " DO ", 0).value)
  {
    var stop := Find(after, " DO ", 0).value;
    if Outside(after, stop) {
      assert EndsAt(after, stop);
    }
    forall k: nat | EndsAt(after, k) && k != stop ensures r.clause != TrimEnd(after[..k], IsSpace) {
      LaterIsLonger(after, stop, k);
    }
  }

  /** What the scan for the end of the clause works on: the statement behind the column list. */
  function Behind(sql: string): string
    requires TargetEnd(sql).Some?
  {
    TrimStart(sql[TargetEnd(sql).value..], IsSpace)
  }

  /** The whole statement: its clause ends where documented if and only if the first " DO " is not quoted or nested. */
  lemma StripExactly(sql: string, r: Repaired)
    requires Strip(sql) == Some(r)
    ensures (exists k: nat :: EndsAt(Behind(sql), k) && r.clause == TrimEnd(Behind(sql)[..k], IsSpace)) <==>
            Outside(Behind(sql), Find(Behind(sql), " DO ", 0).value)
  {
    CutExactly(sql[..TargetEnd(sql).value], Behind(sql), r);
  }

  lemma QuotedDo(rest: string)
    ensures var after := "WHERE ' DO " + rest;
      At(after, "WHERE", 0) && Find(after, " DO ", 0) == Some(7) && after[..7] == "WHERE '"
  {
    var start := "WHERE ' DO ";
    var after := start + rest;
    assert forall k | 0 <= k < |start| :: after[k] == start[k] == UpperChar(after[k]);
    forall j | 0 <= j < 7 ensures !At(after, " DO ", j) {
      assert after[j + 1] == start[j + 1] && after[j + 0] == start[j];
      assert UpperChar(after[j + 0]) != " DO "[0] || UpperChar(after[j + 1]) != " DO "[1];
    }
    assert At(after, " DO ", 7) && At(after, "WHERE", 0);
    FindIs(after, " DO ", 0, 7);
    assert after[..7] == "WHERE '";
  }

  lemma {:induction false} TrimStartSkips(space: string, s: string)
    requires AllSpace(space) && s != [] && !IsSpace(s[0])
    ensures TrimStart(space + s, IsSpace) == s
  {
    if space == [] {
      assert space + s == s;
    } else {
      assert space[0] in space && (space + s)[1..] == space[1..] + s;
      TrimStartSkips(space[1..], s);
    }
  }

  /** A literal holding " DO " is cut in two, in every statement whose conflict clause starts with one. */
  lemma LiteralIsCut(head: string, space: string, rest: string)
    requires TargetEnd(head) == Some(|head|) && AllSpace(space)
    ensures var r := Strip(head + space + "WHERE ' DO " + rest); r.Some? && r.value.clause == "WHERE '"
  {
    var after := "WHERE ' DO " + rest;
    var sql := head + (space + after);
    assert head + space + "WHERE ' DO " + rest == sql;
    assert head[..|head|] == sql[..|head|] == head && sql[|head|..] == space + after;
    TargetEndInPrefix(head, sql, |head|);
    TrimStartSkips(space, after);
    QuotedDo(rest);
  }
}
