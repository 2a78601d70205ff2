/** Fan-out reads (pg-gateway/src/readengine.rs): merge the providers' answers by primary key,
    then lay the buffered rows over them. */
module ReadEngine {
  import opened Wrappers
  import opened Basics
  import opened Json

  datatype ReadResult = ReadResult(rows: seq<Row>, partial: bool)

  datatype ReadError = NoProviders

  /** A provider's answer to a read, `None` when it failed or was too late. */
  type Answer = Option<seq<Row>>

  function Answered(answers: seq<Answer>): seq<Row> {
    if answers == [] then []
    else Answered(answers[..|answers| - 1]) + answers[|answers| - 1].GetOr([])
  }

  function AnswerCount(answers: seq<Answer>): nat {
    if answers == [] then 0
    else AnswerCount(answers[..|answers| - 1]) + (if answers[|answers| - 1].Some? then 1 else 0)
  }

  /** A list of rows seen by key: the first row of each key, the rows whose projection lost the key
      column, and whether no key occurs twice. */
  datatype Keyed = Keyed(index: map<string, Row>, extra: seq<Row>, unique: bool)

  function Absorb(seen: Keyed, row: Row, pk: string): Keyed {
    match RowKey(row, pk)
    case None => seen.(extra := seen.extra + [row])
    case Some(k) => if k in seen.index then seen.(unique := false) else seen.(index := seen.index[k := row])
  }

  function ByKey(rows: seq<Row>, pk: string): Keyed {
    if rows == [] then Keyed(map[], [], true)
    else Absorb(ByKey(rows[..|rows| - 1], pk), rows[|rows| - 1], pk)
  }

  lemma ByKeySnoc(rows: seq<Row>, row: Row, pk: string)
    ensures ByKey(rows + [row], pk) == Absorb(ByKey(rows, pk), row, pk)
  {
    assert (rows + [row])[..|rows|] == rows;
  }

  /** What `ByKey` says about the rows themselves. */
  lemma {:induction false} ByKeyContents(rows: seq<Row>, pk: string)
    ensures forall k | k in ByKey(rows, pk).index ::
              ByKey(rows, pk).index[k] in rows && RowKey(ByKey(rows, pk).index[k], pk) == Some(k)
    ensures forall row | row in rows && RowKey(row, pk).Some? :: RowKey(row, pk).value in ByKey(rows, pk).index
    ensures forall row :: row in ByKey(rows, pk).extra <==> row in rows && RowKey(row, pk).None?
  {
    if rows != [] {
      var init, last := rows[..|rows| - 1], rows[|rows| - 1];
      assert rows == init + [last];
      ByKeyContents(init, pk);
    }
  }

  function KeyIs(pk: string, rowId: string): Row -> bool {
    row => RowKey(row, pk) == Some(rowId)
  }

  function Keyless(pk: string): Row -> bool {
    row => RowKey(row, pk).None?
  }

  /** The rows of one key: the index holds the first of them. The keyless rows are kept in their order. */
  lemma {:induction false} FirstWins(rows: seq<Row>, rowId: string, pk: string)
    ensures ByKey(rows, pk).extra == Keep(Keyless(pk), rows)
    ensures var found := Keep(KeyIs(pk, rowId), rows);
      && (rowId in ByKey(rows, pk).index <==> found != [])
      && (found != [] ==> ByKey(rows, pk).index[rowId] == found[0])
      && (ByKey(rows, pk).unique ==> |found| <= 1)
  {
    if rows != [] {
      FirstWins(rows[..|rows| - 1], rowId, pk);
    }
  }

  ghost predicate KeysDiffer(rows: seq<Row>, pk: string) {
    forall i, j | 0 <= i < j < |rows| && RowKey(rows[j], pk).Some? :: RowKey(rows[i], pk) != RowKey(rows[j], pk)
  }

  lemma KeyIsNew(rows: seq<Row>, row: Row, pk: string)
    requires RowKey(row, pk).Some?
    ensures RowKey(row, pk).value !in ByKey(rows, pk).index <==>
              forall i | 0 <= i < |rows| :: RowKey(rows[i], pk) != RowKey(row, pk)
  {
    ByKeyContents(rows, pk);
    if RowKey(row, pk).value in ByKey(rows, pk).index {
      var first := ByKey(rows, pk).index[RowKey(row, pk).value];
      var i :| 0 <= i < |rows| && rows[i] == first;
      assert RowKey(rows[i], pk) == RowKey(row, pk);
    } else {
      forall i | 0 <= i < |rows| ensures RowKey(rows[i], pk) != RowKey(row, pk) {
        assert rows[i] in rows;
      }
    }
  }

  /** `unique` means that no two positions carry the same key. */
  lemma {:induction false} UniqueKeys(rows: seq<Row>, pk: string)
    ensures ByKey(rows, pk).unique <==> KeysDiffer(rows, pk)
  {
    if rows != [] {
      var init, last := rows[..|rows| - 1], rows[|rows| - 1];
      UniqueKeys(init, pk);
      if RowKey(last, pk).Some? {
        KeyIsNew(init, last, pk);
      }
      ghost var lastDiffers :=
        RowKey(last, pk).Some? ==> forall i | 0 <= i < |init| :: RowKey(init[i], pk) != RowKey(last, pk);
      assert KeysDiffer(rows, pk) <==> KeysDiffer(init, pk) && lastDiffers by {
        assert forall i | 0 <= i < |init| :: rows[i] == init[i];
      }
    }
  }

  /** Among unique keys the index finds each row. */
  lemma {:induction false} UniqueLookup(rows: seq<Row>, row: Row, pk: string)
    requires ByKey(rows, pk).unique && row in rows && RowKey(row, pk).Some?
    ensures RowKey(row, pk).value in ByKey(rows, pk).index && ByKey(rows, pk).index[RowKey(row, pk).value] == row
  {
    var init, last := rows[..|rows| - 1], rows[|rows| - 1];
    assert rows == init + [last];
    if row in init {
      UniqueLookup(init, row, pk);
    }
  }

  /** The loop over the answers: the first row of each key wins, rows without a key are kept as they are.
      The keyed rows come out in no particular order. */
  method MergeAnswers(answers: seq<Answer>, pk: string) returns (rows: seq<Row>, answered: nat)
    ensures answered == AnswerCount(answers)
    ensures ByKey(rows, pk) == ByKey(Answered(answers), pk).(unique := true)
  {
    var merged: map<string, Row> := map[];
    var extra: seq<Row> := [];
    answered := 0;
    for i := 0 to |answers|
      invariant answered == AnswerCount(answers[..i])
      invariant merged == ByKey(Answered(answers[..i]), pk).index
      invariant extra == ByKey(Answered(answers[..i]), pk).extra
    {
      assert answers[..i + 1][..i] == answers[..i];
      match answers[i]
      case None =>
        assert Answered(answers[..i]) + [] == Answered(answers[..i]);
      case Some(got) =>
        answered := answered + 1;
        merged, extra := MergeRows(merged, extra, Answered(answers[..i]), got, pk);
    }
    assert answers[..|answers|] == answers;
    ByKeyContents(Answered(answers), pk);
    rows := IntoValues(merged, pk);
    AppendExtra(rows, extra, pk);
    rows := rows + extra;
  }

  /** The inner loop: one provider's rows. */
  method MergeRows(index: map<string, Row>, keyless: seq<Row>, ghost before: seq<Row>, got: seq<Row>, pk: string)
    returns (merged: map<string, Row>, extra: seq<Row>)
    requires index == ByKey(before, pk).index && keyless == ByKey(before, pk).extra
    ensures merged == ByKey(before + got, pk).index && extra == ByKey(before + got, pk).extra
  {
    merged, extra := index, keyless;
    assert before + got[..0] == before;
    for j := 0 to |got|
      invariant merged == ByKey(before + got[..j], pk).index && extra == ByKey(before + got[..j], pk).extra
    {
      var row := got[j];
      assert before + got[..j + 1] == before + got[..j] + [row];
      assert ByKey(before + got[..j + 1], pk) == Absorb(ByKey(before + got[..j], pk), row, pk) by {
        ByKeySnoc(before + got[..j], row, pk);
      }
      match RowKey(row, pk)
      case Some(k) =>
        if k !in merged {
          merged := merged[k := row];
        }
      case None =>
        extra := extra + [row];
    }
    assert got[..|got|] == got;
  }

  lemma {:induction false} AppendExtra(rows: seq<Row>, extra: seq<Row>, pk: string)
    requires forall row | row in extra :: RowKey(row, pk).None?
    ensures ByKey(rows + extra, pk) == ByKey(rows, pk).(extra := ByKey(rows, pk).extra + extra)
  {
    if extra == [] {
      assert rows + extra == rows;
    } else {
      var init, last := extra[..|extra| - 1], extra[|extra| - 1];
      AppendExtra(rows, init, pk);
      assert rows + extra == rows + init + [last] && init + [last] == extra;
      assert last in extra;
      ByKeySnoc(rows + init, last, pk);
    }
  }

  lemma PutBack<K, V>(m: map<K, V>, left: set<K>, k: K)
    requires k in left && left <= m.Keys
    ensures (m - left)[k := m[k]] == m - (left - {k})
  {
  }

  lemma DropPut<K, V>(m: map<K, V>, k: K, v: V, dropped: K)
    ensures m[k := v] - {dropped} == if k == dropped then m - {dropped} else (m - {dropped})[k := v]
  {
  }

  lemma Shadow<K, V>(m: map<K, V>, over: map<K, V>, left: set<K>, k: K)
    requires k in left && left <= over.Keys
    ensures ((m + (over - left)) - {k})[k := over[k]] == m + (over - (left - {k}))
  {
  }

  /** `into_values` of a map whose keys are the rows' own keys. */
  method IntoValues(m: map<string, Row>, pk: string) returns (rows: seq<Row>)
    requires forall k | k in m :: RowKey(m[k], pk) == Some(k)
    ensures ByKey(rows, pk) == Keyed(m, [], true)
  {
    rows := [];
    var left := m.Keys;
    while left != {}
      invariant left <= m.Keys
      invariant ByKey(rows, pk) == Keyed(m - left, [], true)
    {
      var k :| k in left;
      ByKeySnoc(rows, m[k], pk);
      PutBack(m, left, k);
      rows := rows + [m[k]];
      left := left - {k};
    }
    assert m - {} == m;
  }

  function Retain(rows: seq<Row>, rowId: string, pk: string): seq<Row> {
    if rows == [] then []
    else
      var row := rows[|rows| - 1];
      var kept := Retain(rows[..|rows| - 1], rowId, pk);
      if RowKey(row, pk) == Some(rowId) then kept else kept + [row]
  }

  lemma {:induction false} RetainRemoves(rows: seq<Row>, rowId: string, pk: string)
    requires ByKey(rows, pk).unique
    ensures ByKey(Retain(rows, rowId, pk), pk) == ByKey(rows, pk).(index := ByKey(rows, pk).index - {rowId})
  {
    if rows != [] {
      var init, last := rows[..|rows| - 1], rows[|rows| - 1];
      RetainRemoves(init, rowId, pk);
      ByKeySnoc(Retain(init, rowId, pk), last, pk);
      ByKeySnoc(init, last, pk);
      assert rows == init + [last];
      var index := ByKey(init, pk).index;
      match RowKey(last, pk)
      case None =>
      case Some(k) =>
        DropPut(index, k, last, rowId);
    }
  }

  /** The overlay loop: each buffered row replaces the provider's copy. */
  method Overlay(rows: seq<Row>, pending: map<string, Row>, pk: string) returns (r: seq<Row>)
    requires ByKey(rows, pk).unique && forall k | k in pending :: RowKey(pending[k], pk) == Some(k)
    ensures ByKey(r, pk) == ByKey(rows, pk).(index := ByKey(rows, pk).index + pending)
  {
    r := rows;
    ghost var index := ByKey(rows, pk).index;
    var left := pending.Keys;
    assert index + (pending - left) == index;
    while left != {}
      invariant left <= pending.Keys
      invariant ByKey(r, pk) == ByKey(rows, pk).(index := index + (pending - left))
    {
      var k :| k in left;
      RetainRemoves(r, k, pk);
      r := Retain(r, k, pk);
      ByKeySnoc(r, pending[k], pk);
      Shadow(index, pending, left, k);
      r := r + [pending[k]];
      left := left - {k};
    }
    assert pending - {} == pending;
  }

  /** `fanout_read`. `pending` is present when the statement is a plain unfiltered scan.
      It fails when no provider answered and is partial when some did not. */
  method FanoutRead(answers: seq<Answer>, pk: string, pending: Option<map<string, Row>>)
    returns (r: Result<ReadResult, ReadError>)
    requires pending.Some? ==> forall k | k in pending.value :: RowKey(pending.value[k], pk) == Some(k)
    ensures r.Failure? <==> forall a | a in answers :: a == None
    ensures r.Success? ==> (r.value.partial <==> None in answers)
    ensures r.Success? ==>
              var all := ByKey(Answered(answers), pk);
              ByKey(r.value.rows, pk) == Keyed(all.index + pending.GetOr(map[]), all.extra, true)
  {
    var rows, answered := MergeAnswers(answers, pk);
    AnswerCounts(answers);
    if answered == 0 {
      return Failure(NoProviders);
    }
    if pending.Some? {
      rows := Overlay(rows, pending.value, pk);
    } else {
      assert ByKey(rows, pk).index + map[] == ByKey(rows, pk).index;
    }
    r := Success(ReadResult(rows, answered < |answers|));
  }

  /**
   * The fallback of `point_read` for a row without a placement: the rows of a fan-out whose key is
   * `rowId`. That is the first such row in the answers, in their order, or nothing.
   */
  method FanoutPoint(answers: seq<Answer>, pk: string, rowId: string) returns (r: Result<ReadResult, ReadError>)
    ensures r.Failure? <==> forall a | a in answers :: a == None
    ensures r.Success? ==> (r.value.partial <==> None in answers)
    ensures r.Success? ==>
              var found := Keep(KeyIs(pk, rowId), Answered(answers));
              r.value.rows == if found == [] then [] else [found[0]]
  {
    r := FanoutRead(answers, pk, None);
    if r.Success? {
      FirstWins(Answered(answers), rowId, pk);
      FirstWins(r.value.rows, rowId, pk);
      r := Success(r.value.(rows := Keep(KeyIs(pk, rowId), r.value.rows)));
    }
  }

  lemma {:induction false} AnswerCounts(answers: seq<Answer>)
    ensures AnswerCount(answers) <= |answers|
    ensures AnswerCount(answers) == 0 <==> forall a | a in answers :: a == None
    ensures AnswerCount(answers) < |answers| <==> None in answers
  {
    if answers != [] {
      var init, last := answers[..|answers| - 1], answers[|answers| - 1];
      AnswerCounts(init);
      InSnoc(answers, init, last);
      assert last in answers && (None in answers <==> None in init || last == None);
    }
  }

  lemma InSnoc(answers: seq<Answer>, init: seq<Answer>, last: Answer)
    requires answers != [] && init == answers[..|answers| - 1] && last == answers[|answers| - 1]
    ensures forall a :: a in answers <==> a in init || a == last
  {
    assert answers == init + [last];
  }
}
