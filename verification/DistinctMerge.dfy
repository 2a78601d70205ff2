/** `merge_distinct`: SELECT DISTINCT over all slices. */
module DistinctMerge {
  import opened Wrappers
  import opened Basics
  import opened Json
  import opened AggregatePlan
  import opened RowOrder

  // ----- The gateway -----

  function DistinctKey(items: seq<Projection>, row: Row): seq<Value> {
    seq(|items|, i requires 0 <= i < |items| =>
      if items[i].alias in row then row[items[i].alias] else if items[i].expr in row then row[items[i].expr] else Null)
  }

  /** The tuples of some rows, each at its first occurrence. */
  function FirstTuples(items: seq<Projection>, rows: seq<Row>): seq<seq<Value>> {
    if rows == [] then []
    else
      var before, key := FirstTuples(items, rows[..|rows| - 1]), DistinctKey(items, rows[|rows| - 1]);
      if key in before then before else before + [key]
  }

  function Objects(items: seq<Projection>, tuples: seq<seq<Value>>): seq<Row> {
    seq(|tuples|, i requires 0 <= i < |tuples| => Assign(map[], Aliases(items), tuples[i]))
  }

  ghost predicate DistinctBy(plan: Plan, items: seq<Projection>, partials: seq<seq<Row>>, out: seq<Row>) {
    var rows := Objects(items, FirstTuples(items, Flatten(partials)));
    out == Window(SortRows(plan.orderBy, rows), plan.offset, plan.limit)
  }

  method Object(items: seq<Projection>, key: seq<Value>) returns (result: Row)
    requires |key| == |items|
    ensures result == Assign(map[], Aliases(items), key)
  {
    result := map[];
    ghost var names := Aliases(items);
    for i := 0 to |items|
      invariant result == Assign(map[], names[..i], key)
    {
      result := result[items[i].alias := key[i]];
      assert names[..i + 1][..i] == names[..i];
    }
    assert names[..|names|] == names;
  }

  /** Adds the rows of one answer that have not been seen yet. */
  method AddUnseen(items: seq<Projection>, ghost before: seq<Row>, rows: seq<Row>,
                   seen0: set<seq<Value>>, out0: seq<Row>)
    returns (seen: set<seq<Value>>, out: seq<Row>)
    requires seen0 == set k | k in FirstTuples(items, before)
    requires out0 == Objects(items, FirstTuples(items, before))
    ensures seen == set k | k in FirstTuples(items, before + rows)
    ensures out == Objects(items, FirstTuples(items, before + rows))
  {
    seen, out := seen0, out0;
    assert before + rows[..0] == before;
    for j := 0 to |rows|
      invariant seen == set k | k in FirstTuples(items, before + rows[..j])
      invariant out == Objects(items, FirstTuples(items, before + rows[..j]))
    {
      var key := DistinctKey(items, rows[j]);
      assert (before + rows[..j + 1])[..|before| + j] == before + rows[..j];
      assert (before + rows[..j + 1])[|before| + j] == rows[j];
      ghost var known := FirstTuples(items, before + rows[..j]);
      if key !in seen {
        seen := seen + {key};
        var result := Object(items, key);
        out := out + [result];
        assert out == Objects(items, known + [key]);
      }
    }
    assert rows[..|rows|] == rows;
  }

  method MergeDistinct(plan: Plan, items: seq<Projection>, partials: seq<seq<Row>>) returns (out: seq<Row>)
    ensures DistinctBy(plan, items, partials, out)
  {
    var seen: set<seq<Value>> := {};
    out := [];
    for i := 0 to |partials|
      invariant seen == set k | k in FirstTuples(items, Flatten(partials[..i]))
      invariant out == Objects(items, FirstTuples(items, Flatten(partials[..i])))
    {
      seen, out := AddUnseen(items, Flatten(partials[..i]), partials[i], seen, out);
      assert partials[..i + 1][..i] == partials[..i];
    }
    assert partials[..|partials|] == partials;
    out := SortRows(plan.orderBy, out);
    if plan.offset.Some? {
      out := if |out| > plan.offset.value then out[plan.offset.value..] else [];
    }
    if plan.limit.Some? && plan.limit.value < |out| {
      out := out[..plan.limit.value];
    }
  }

  // ----- SQL -----

  function TupleOf(eval: Eval, items: seq<Projection>, row: Row): seq<Value> {
    seq(|items|, i requires 0 <= i < |items| => eval.value(row, items[i].expr))
  }

  function TuplesOf(eval: Eval, items: seq<Projection>, rows: seq<Row>): set<seq<Value>> {
    set row | row in rows :: TupleOf(eval, items, row)
  }

  ghost predicate ShowsTuple(items: seq<Projection>, tuple: seq<Value>, row: Row) {
    && |tuple| == |items|
    && row.Keys == (set x | x in Aliases(items))
    && forall i | 0 <= i < |items| :: items[i].alias in row && row[items[i].alias] == tuple[i]
  }

  /** One row per distinct tuple, in some order. */
  ghost predicate ListsTuples(items: seq<Projection>, tuples: set<seq<Value>>, list: seq<seq<Value>>,
                              results: seq<Row>)
  {
    && Arranges(list, tuples)
    && |results| == |list|
    && forall i | 0 <= i < |list| :: ShowsTuple(items, list[i], results[i])
  }

  /** A provider's answer to SELECT DISTINCT over its slice. */
  ghost predicate DistinctAnswer(plan: Plan, eval: Eval, items: seq<Projection>, slice: seq<Row>, answer: seq<Row>) {
    exists list :: ListsTuples(items, TuplesOf(eval, items, Where(plan, slice)), list, answer)
  }

  function ShownColumns(eval: Eval, items: seq<Projection>): seq<Column> {
    seq(|items|, i requires 0 <= i < |items| => Column(items[i].alias, items[i].expr, eval.kind(items[i].expr)))
  }

  /** The gateway's ORDER BY comparison says nothing against SQL's, on the rows that show these tuples. */
  ghost predicate DistinctSortable(plan: Plan, eval: Eval, items: seq<Projection>, tuples: set<seq<Value>>) {
    forall a, b | ShowsSome(items, tuples, a) && ShowsSome(items, tuples, b) && Compare(plan.orderBy, a, b) <= 0 ::
      SqlCompare(ShownColumns(eval, items), plan.orderBy, a, b) <= 0
  }

  ghost predicate ShowsSome(items: seq<Projection>, tuples: set<seq<Value>>, r: Row) {
    exists t :: t in tuples && ShowsTuple(items, t, r)
  }

  /** What one database holding rows with these tuples may answer. */
  ghost predicate IsDistinctAnswer(plan: Plan, eval: Eval, items: seq<Projection>, tuples: set<seq<Value>>,
                                   out: seq<Row>)
  {
    exists list, results, sorted ::
      && ListsTuples(items, tuples, list, results)
      && multiset(sorted) == multiset(results)
      && SortedBy(ShownColumns(eval, items), plan.orderBy, sorted)
      && IsCut(sorted, plan.offset, plan.limit, out)
  }

  // ----- The merge is exact -----

  function SentTuples(items: seq<Projection>, rows: seq<Row>): set<seq<Value>> {
    set row | row in rows :: DistinctKey(items, row)
  }

  lemma SentConcat(items: seq<Projection>, a: seq<Row>, b: seq<Row>)
    ensures SentTuples(items, a + b) == SentTuples(items, a) + SentTuples(items, b)
  {
    forall t | t in SentTuples(items, a) + SentTuples(items, b) ensures t in SentTuples(items, a + b) {
      var row :| (row in a || row in b) && DistinctKey(items, row) == t;
      assert row in a + b;
    }
  }

  lemma TuplesConcat(eval: Eval, items: seq<Projection>, a: seq<Row>, b: seq<Row>)
    ensures TuplesOf(eval, items, a + b) == TuplesOf(eval, items, a) + TuplesOf(eval, items, b)
  {
    forall t | t in TuplesOf(eval, items, a) + TuplesOf(eval, items, b) ensures t in TuplesOf(eval, items, a + b) {
      var row :| (row in a || row in b) && TupleOf(eval, items, row) == t;
      assert row in a + b;
    }
  }

  lemma {:induction false} FirstTuplesAre(items: seq<Projection>, rows: seq<Row>)
    ensures Arranges(FirstTuples(items, rows), SentTuples(items, rows))
  {
    if rows != [] {
      var init, last := rows[..|rows| - 1], rows[|rows| - 1];
      FirstTuplesAre(items, init);
      assert rows == init + [last];
      var before, key := FirstTuples(items, init), DistinctKey(items, last);
      var seen := SentTuples(items, init);
      assert SentTuples(items, rows) == seen + {key};
      if key !in before {
        forall k ensures k in before + [key] <==> k in seen + {key} {
          assert k in before + [key] <==> k in before || k == key;
        }
      }
    }
  }

  lemma AnswerTuples(plan: Plan, eval: Eval, items: seq<Projection>, slice: seq<Row>, answer: seq<Row>)
    requires DistinctAnswer(plan, eval, items, slice, answer)
    ensures SentTuples(items, answer) == TuplesOf(eval, items, Where(plan, slice))
  {
    var tuples := TuplesOf(eval, items, Where(plan, slice));
    var list :| ListsTuples(items, tuples, list, answer);
    forall i | 0 <= i < |list| ensures DistinctKey(items, answer[i]) == list[i] {
      assert ShowsTuple(items, list[i], answer[i]);
    }
    forall t | t in tuples ensures exists row | row in answer :: DistinctKey(items, row) == t {
      assert t in list;
      var i :| 0 <= i < |list| && list[i] == t;
      assert answer[i] in answer;
    }
    forall row | row in answer ensures DistinctKey(items, row) in tuples {
      var i :| 0 <= i < |answer| && answer[i] == row;
      assert list[i] in list;
    }
  }

  /** The tuples sent for the slices are the tuples of all rows, however the slices overlap. */
  lemma {:induction false} AllTuplesSent(plan: Plan, eval: Eval, items: seq<Projection>, slices: seq<seq<Row>>,
                                         answers: seq<seq<Row>>)
    requires |answers| == |slices|
    requires forall i | 0 <= i < |slices| :: DistinctAnswer(plan, eval, items, slices[i], answers[i])
    ensures SentTuples(items, Flatten(answers)) == TuplesOf(eval, items, Where(plan, Flatten(slices)))
  {
    if slices != [] {
      var n := |slices| - 1;
      AllTuplesSent(plan, eval, items, slices[..n], answers[..n]);
      AnswerTuples(plan, eval, items, slices[n], answers[n]);
      SentConcat(items, Flatten(answers[..n]), answers[n]);
      KeepConcat(plan.filter, Flatten(slices[..n]), slices[n]);
      TuplesConcat(eval, items, Where(plan, Flatten(slices[..n])), Where(plan, slices[n]));
    }
  }

  lemma ObjectShows(items: seq<Projection>, tuple: seq<Value>)
    requires |tuple| == |items|
    requires forall i, j | 0 <= i < j < |items| :: items[i].alias != items[j].alias
    ensures ShowsTuple(items, tuple, Assign(map[], Aliases(items), tuple))
  {
    var names := Aliases(items);
    AssignNames(map[], names, tuple);
    var row := Assign(map[], names, tuple);
    forall i | 0 <= i < |items| ensures items[i].alias in row && row[items[i].alias] == tuple[i] {
      AssignShows(map[], names, tuple, i);
    }
  }

  lemma ShownRespect(plan: Plan, eval: Eval, items: seq<Projection>, tuples: set<seq<Value>>, list: seq<seq<Value>>,
                     results: seq<Row>)
    requires ListsTuples(items, tuples, list, results) && DistinctSortable(plan, eval, items, tuples)
    ensures Respects(ShownColumns(eval, items), plan.orderBy, set r | r in results)
  {
    forall r | r in results ensures ShowsSome(items, tuples, r) {
      var i :| 0 <= i < |results| && results[i] == r;
      assert list[i] in list;
    }
  }

  /** SELECT DISTINCT returns each tuple of all slices together once and nothing else, then sorts and cuts. */
  lemma DistinctIsExact(plan: Plan, eval: Eval, items: seq<Projection>, slices: seq<seq<Row>>,
                        answers: seq<seq<Row>>, out: seq<Row>)
    requires |answers| == |slices|
    requires forall i | 0 <= i < |slices| :: DistinctAnswer(plan, eval, items, slices[i], answers[i])
    requires forall i, j | 0 <= i < j < |items| :: items[i].alias != items[j].alias
    requires DistinctSortable(plan, eval, items, TuplesOf(eval, items, Where(plan, Flatten(slices))))
    requires DistinctBy(plan, items, answers, out)
    ensures IsDistinctAnswer(plan, eval, items, TuplesOf(eval, items, Where(plan, Flatten(slices))), out)
  {
    var tuples := TuplesOf(eval, items, Where(plan, Flatten(slices)));
    var list := FirstTuples(items, Flatten(answers));
    var results := Objects(items, list);
    AllTuplesSent(plan, eval, items, slices, answers);
    FirstTuplesAre(items, Flatten(answers));
    forall i | 0 <= i < |list| ensures ShowsTuple(items, list[i], results[i]) {
      assert list[i] in list;
      ObjectShows(items, list[i]);
    }
    ShownRespect(plan, eval, items, tuples, list, results);
    SortRowsContents(plan.orderBy, results);
    SortRowsSorts(ShownColumns(eval, items), plan.orderBy, results, set r | r in results);
    assert ListsTuples(items, tuples, list, results);
  }
}
