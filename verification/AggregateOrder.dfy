/** How the rows are ordered and spread over the slices makes no difference to an aggregate. */
module AggregateOrder {
  import opened Basics
  import opened Json
  import opened SqlOrder
  import opened AggregatePlan
  import opened AggregateMerge
  import opened AggregateExact
  import opened RowOrder
  import opened Moments

  // ----- Permutations -----

  /** Every element replaced by some elements. */
  function FlatMap<T, U>(s: seq<T>, f: T -> seq<U>): seq<U> {
    if s == [] then [] else FlatMap(s[..|s| - 1], f) + f(s[|s| - 1])
  }

  lemma {:induction false} FlatConcat<T, U>(a: seq<T>, b: seq<T>, f: T -> seq<U>)
    ensures FlatMap(a + b, f) == FlatMap(a, f) + FlatMap(b, f)
  {
    if b == [] {
      assert a + b == a;
    } else {
      assert (a + b)[..|a + b| - 1] == a + b[..|b| - 1];
      FlatConcat(a, b[..|b| - 1], f);
    }
  }

  /** Takes the last element of `a` out of a permutation of `a`. */
  lemma TakeOut<T>(a: seq<T>, b: seq<T>) returns (left: seq<T>, right: seq<T>)
    requires a != [] && multiset(a) == multiset(b)
    ensures b == left + [a[|a| - 1]] + right && multiset(a[..|a| - 1]) == multiset(left + right)
  {
    var init, x := a[..|a| - 1], a[|a| - 1];
    assert a == init + [x];
    var j := Occurs(b, x);
    left, right := b[..j], b[j + 1..];
    assert b == left + [x] + right;
    SameRest(init, x, left, right);
  }

  lemma Occurs<T>(s: seq<T>, x: T) returns (j: nat)
    requires x in multiset(s)
    ensures j < |s| && s[j] == x
  {
    j :| 0 <= j < |s| && s[j] == x;
  }

  lemma SameRest<T>(init: seq<T>, x: T, left: seq<T>, right: seq<T>)
    requires multiset(init + [x]) == multiset(left + [x] + right)
    ensures multiset(init) == multiset(left + right)
  {
    RemoveMiddle(left, x, right);
    assert multiset(init) == multiset(init + [x]) - multiset{x};
  }

  lemma RemoveMiddle<T>(left: seq<T>, x: T, right: seq<T>)
    ensures multiset(left + right) == multiset(left + [x] + right) - multiset{x}
  {
    assert multiset(left + [x] + right) == multiset(left) + multiset([x]) + multiset(right);
    assert multiset(left + right) == multiset(left) + multiset(right);
  }

  lemma {:induction false} FlatPermutes<T, U>(a: seq<T>, b: seq<T>, f: T -> seq<U>)
    requires multiset(a) == multiset(b)
    ensures multiset(FlatMap(a, f)) == multiset(FlatMap(b, f))
  {
    if a == [] {
      assert |multiset(b)| == |multiset(a)|;
    } else {
      var left, right := TakeOut(a, b);
      FlatPermutes(a[..|a| - 1], left + right, f);
      FlatConcat(left, right, f);
      FlatConcat(left + [a[|a| - 1]], right, f);
      FlatSnoc(left, a[|a| - 1], f);
    }
  }

  lemma FlatSnoc<T, U>(s: seq<T>, x: T, f: T -> seq<U>)
    ensures FlatMap(s + [x], f) == FlatMap(s, f) + f(x)
  {
    assert (s + [x])[..|s|] == s;
  }

  lemma {:induction false} SummedPermutes(a: seq<real>, b: seq<real>, f: real -> real)
    requires multiset(a) == multiset(b)
    ensures Summed(a, f) == Summed(b, f)
  {
    if a == [] {
      assert |multiset(b)| == |multiset(a)|;
    } else {
      var left, right := TakeOut(a, b);
      var x := a[|a| - 1];
      SummedPermutes(a[..|a| - 1], left + right, f);
      SumConcat(left, right, f);
      SumConcat(left + [x], right, f);
      assert (left + [x])[..|left|] == left;
    }
  }

  // ----- Columns -----

  function Kept(plan: Plan): Row -> seq<Row> {
    row => if plan.filter(row) then [row] else []
  }

  lemma {:induction false} WhereIsFlat(plan: Plan, rows: seq<Row>)
    ensures Where(plan, rows) == FlatMap(rows, Kept(plan))
  {
    if rows != [] {
      WhereIsFlat(plan, rows[..|rows| - 1]);
    }
  }

  /** A row's contribution to the cells of one aggregate in one group. */
  function Contribution(plan: Plan, eval: Eval, k: seq<Value>, arg: string): Row -> seq<Value> {
    row =>
      var cell := if arg == "*" then Bool(true) else eval.value(row, arg);
      if KeyOf(plan, eval, row) == k && cell != Null then [cell] else []
  }

  lemma CellsSnoc(eval: Eval, rows: seq<Row>, row: Row, arg: string)
    ensures Cells(eval, rows + [row], arg) ==
            Cells(eval, rows, arg) + [if arg == "*" then Bool(true) else eval.value(row, arg)]
  {
  }

  lemma {:induction false} PresentIsFlat(plan: Plan, eval: Eval, rows: seq<Row>, k: seq<Value>, arg: string)
    ensures NonNull(Cells(eval, GroupRows(plan, eval, rows, k), arg)) == FlatMap(rows, Contribution(plan, eval, k, arg))
  {
    if rows == [] {
      assert Cells(eval, [], arg) == [];
    } else {
      var init, last := rows[..|rows| - 1], rows[|rows| - 1];
      PresentIsFlat(plan, eval, init, k, arg);
      if KeyOf(plan, eval, last) == k {
        var cells := Cells(eval, GroupRows(plan, eval, init, k), arg);
        var cell := if arg == "*" then Bool(true) else eval.value(last, arg);
        CellsSnoc(eval, GroupRows(plan, eval, init, k), last, arg);
        NonNullSnoc(cells, cell);
      } else {
        assert GroupRows(plan, eval, rows, k) == GroupRows(plan, eval, init, k);
      }
      FlatSnoc(init, last, Contribution(plan, eval, k, arg));
      assert rows == init + [last];
    }
  }

  lemma NonNullSnoc(vals: seq<Value>, v: Value)
    ensures NonNull(vals + [v]) == NonNull(vals) + if v == Null then [] else [v]
  {
    assert (vals + [v])[..|vals|] == vals;
  }

  const AS_NUMBER: Value -> seq<real> := v => [Num(v)]

  lemma {:induction false} NumsIsFlat(vals: seq<Value>)
    ensures Nums(vals) == FlatMap(vals, AS_NUMBER)
  {
    if vals != [] {
      NumsIsFlat(vals[..|vals| - 1]);
      assert Nums(vals) == Nums(vals[..|vals| - 1]) + [Num(vals[|vals| - 1])];
    }
  }

  // ----- Results -----

  lemma NumsPermute(a: seq<Value>, b: seq<Value>)
    requires multiset(a) == multiset(b)
    ensures multiset(Nums(a)) == multiset(Nums(b)) && |a| == |b|
  {
    NumsIsFlat(a);
    NumsIsFlat(b);
    FlatPermutes(a, b, AS_NUMBER);
    assert |multiset(a)| == |multiset(b)|;
  }

  lemma SumPermutes(a: seq<Value>, b: seq<Value>)
    requires multiset(a) == multiset(b)
    ensures |a| == |b| && SqlSum(a) == SqlSum(b)
    ensures a != [] ==> Mean(Nums(a)) == Mean(Nums(b))
  {
    NumsPermute(a, b);
    SummedPermutes(Nums(a), Nums(b), ITSELF);
  }

  lemma VariancePermutes(a: seq<Value>, b: seq<Value>, sample: bool)
    requires multiset(a) == multiset(b)
    ensures SqlVariance(Nums(a), sample) == SqlVariance(Nums(b), sample)
  {
    NumsPermute(a, b);
    if a != [] {
      SumPermutes(a, b);
      SummedPermutes(Nums(a), Nums(b), DistanceFrom(Mean(Nums(a))));
    }
  }

  lemma MembersPermute(a: seq<Value>, b: seq<Value>)
    requires multiset(a) == multiset(b)
    ensures forall v :: v in a <==> v in b
    ensures Contents(a) == Contents(b) && |a| == |b|
  {
    forall v ensures v in a <==> v in b {
      assert v in a <==> v in multiset(a);
      assert v in b <==> v in multiset(b);
    }
    assert |multiset(a)| == |multiset(b)|;
  }

  lemma FlagsPermute(a: seq<Value>, b: seq<Value>)
    requires forall v :: v in a <==> v in b
    ensures Everything(a) == Everything(b) && Something(a) == Something(b)
  {
  }

  /** An aggregate does not depend on the order of the values. */
  lemma ResultPermutes(t: SqlType, kind: Kind, a: seq<Value>, b: seq<Value>, v: Value)
    requires multiset(NonNull(a)) == multiset(NonNull(b)) && ResultOk(t, kind, a, v)
    ensures ResultOk(t, kind, b, v)
  {
    MembersPermute(NonNull(a), NonNull(b));
    if kind.Sum? || kind.Avg? {
      SumPermutes(NonNull(a), NonNull(b));
    } else if kind.Variance? {
      VariancePermutes(NonNull(a), NonNull(b), kind.sample);
    } else if kind.BoolAnd? || kind.BoolOr? {
      FlagsPermute(NonNull(a), NonNull(b));
    }
  }

  lemma ResultRowPermutes(plan: Plan, eval: Eval, rows: seq<Row>, other: seq<Row>, k: seq<Value>, result: Row)
    requires multiset(rows) == multiset(other)
    requires ResultRow(plan, eval, GroupRows(plan, eval, rows, k), k, result)
    ensures ResultRow(plan, eval, GroupRows(plan, eval, other, k), k, result)
  {
    forall spec | spec in plan.aggregates
      ensures spec.output in result
      ensures ResultOk(eval.kind(spec.arg), spec.kind, Cells(eval, GroupRows(plan, eval, other, k), spec.arg),
                       result[spec.output])
    {
      PresentIsFlat(plan, eval, rows, k, spec.arg);
      PresentIsFlat(plan, eval, other, k, spec.arg);
      FlatPermutes(rows, other, Contribution(plan, eval, k, spec.arg));
      ResultPermutes(eval.kind(spec.arg), spec.kind, Cells(eval, GroupRows(plan, eval, rows, k), spec.arg),
                     Cells(eval, GroupRows(plan, eval, other, k), spec.arg), result[spec.output]);
    }
  }

  lemma TuplesPermute(plan: Plan, eval: Eval, rows: seq<Row>, other: seq<Row>)
    requires multiset(rows) == multiset(other)
    ensures GroupTuples(plan, eval, rows) == GroupTuples(plan, eval, other)
  {
    forall row ensures row in rows <==> row in other {
      assert row in rows <==> row in multiset(rows);
      assert row in other <==> row in multiset(other);
    }
  }

  /** What may be answered does not depend on the order of the rows. */
  lemma AnswerPermutes(plan: Plan, eval: Eval, rows: seq<Row>, other: seq<Row>, out: seq<Row>)
    requires multiset(rows) == multiset(other) && IsAnswer(plan, eval, rows, out)
    ensures IsAnswer(plan, eval, other, out)
  {
    var keys, results, sorted :|
      && Tabulates(plan, eval, rows, keys, results)
      && multiset(sorted) == multiset(Keep(plan.having, results))
      && SortedBy(ResultColumns(plan, eval), plan.orderBy, sorted)
      && IsCut(sorted, plan.offset, plan.limit, out);
    TuplesPermute(plan, eval, rows, other);
    forall i | 0 <= i < |keys|
      ensures ResultRow(plan, eval, GroupRows(plan, eval, other, keys[i]), keys[i], results[i])
    {
      ResultRowPermutes(plan, eval, rows, other, keys[i], results[i]);
    }
    assert Tabulates(plan, eval, other, keys, results);
  }

  /**
   * However a table is cut into slices, and in whatever order they answer, the merge is an answer
   * to the query over the table.
   */
  lemma AnyPartition(plan: Plan, eval: Eval, table: seq<Row>, slices: seq<seq<Row>>, answers: seq<seq<Row>>,
                     out: seq<Row>)
    requires multiset(table) == multiset(Flatten(slices))
    requires Aligned(plan) && WellNamed(plan)
    requires AllAnswer(plan, eval, slices, answers) && (plan.groupKeys == [] ==> slices != [])
    requires Fits(plan, eval, Where(plan, Flatten(slices))) && Sortable(plan, eval, Where(plan, Flatten(slices)))
    requires MergedBy(plan, answers, out)
    ensures IsAnswer(plan, eval, Where(plan, table), out)
  {
    MergeIsExact(plan, eval, slices, answers, out);
    WhereIsFlat(plan, table);
    WhereIsFlat(plan, Flatten(slices));
    FlatPermutes(table, Flatten(slices), Kept(plan));
    AnswerPermutes(plan, eval, Where(plan, Flatten(slices)), Where(plan, table), out);
  }
}
