/** Merging the partial answers of all slices gives the answer over the whole table. */
module AggregateExact {
  import opened Basics
  import opened Json
  import opened SqlOrder
  import opened AggregatePlan
  import opened AggregateCells
  import opened AggregateMerge
  import opened RowOrder

  // ----- Which plans -----

  /** The accumulator entries an aggregate uses. */
  function Slots(spec: Spec): set<string> {
    {spec.output} + if spec.kind.Variance? then {Helper("__sum_", spec), Helper("__q_", spec)} else {}
  }

  /** Result columns and accumulator entries have names of their own. */
  ghost predicate WellNamed(plan: Plan) {
    && (forall i, j | 0 <= i < j < |KeyColumns(plan)| :: KeyColumns(plan)[i].alias != KeyColumns(plan)[j].alias)
    && (forall p, spec | p in KeyColumns(plan) && spec in plan.aggregates :: p.alias != spec.output)
    && (forall i, j | 0 <= i < j < |plan.aggregates| :: Slots(plan.aggregates[i]) !! Slots(plan.aggregates[j]))
  }

  /** Group key `key` is read back from the column `alias` that carries it. */
  predicate ReadsBack(plan: Plan, key: string, alias: string) {
    alias == key || (alias == LastSegment(key) && key !in PartialNames(plan))
  }

  /** The projected columns are an un-aliased prefix of the grouping keys, in order. */
  predicate Aligned(plan: Plan) {
    && |plan.plain| <= |plan.groupKeys|
    && (forall i | 0 <= i < |plan.plain| ::
      plan.plain[i].expr == plan.groupKeys[i] && ReadsBack(plan, plan.groupKeys[i], plan.plain[i].alias))
    && (forall j | |plan.plain| <= j < |plan.groupKeys| :: !Projects(plan.plain, plan.groupKeys[j]))
  }

  lemma {:induction false} BareKeysAre(keys: seq<string>, plain: seq<Projection>, m: nat)
    requires |plain| <= |keys| && m <= |keys|
    requires forall i | 0 <= i < |plain| :: plain[i].expr == keys[i]
    requires forall j | |plain| <= j < |keys| :: !Projects(plain, keys[j])
    ensures BareKeys(keys[..m], plain) == if m <= |plain| then [] else keys[|plain|..m]
  {
    if m > 0 {
      BareKeysAre(keys, plain, m - 1);
      assert keys[..m][..m - 1] == keys[..m - 1];
      if m <= |plain| {
        assert SameName(plain[m - 1].expr, keys[m - 1]);
      } else {
        assert keys[|plain|..m] == keys[|plain|..m - 1] + [keys[m - 1]];
      }
    }
  }

  lemma BareKeysAreRest(plan: Plan)
    requires Aligned(plan)
    ensures BareKeys(plan.groupKeys, plan.plain) == plan.groupKeys[|plan.plain|..]
  {
    BareKeysAre(plan.groupKeys, plan.plain, |plan.groupKeys|);
    assert plan.groupKeys[..|plan.groupKeys|] == plan.groupKeys;
  }

  lemma KeyColumnAt(plan: Plan, j: nat)
    requires Aligned(plan) && j < |plan.groupKeys|
    ensures |KeyColumns(plan)| == |plan.groupKeys|
    ensures var p := KeyColumns(plan)[j]; p.expr == plan.groupKeys[j] && ReadsBack(plan, p.expr, p.alias)
  {
    BareKeysAreRest(plan);
    var p := KeyColumns(plan)[j];
    if j < |plan.plain| {
      assert p == plan.plain[j];
    } else {
      assert p == Projection(plan.groupKeys[j], plan.groupKeys[j]);
    }
  }

  /** In an aligned plan the i-th key column carries the i-th grouping key. */
  lemma KeyColumnsAre(plan: Plan)
    requires Aligned(plan)
    ensures |KeyColumns(plan)| == |plan.groupKeys|
    ensures forall j | 0 <= j < |plan.groupKeys| ::
              && KeyColumns(plan)[j].expr == plan.groupKeys[j]
              && ReadsBack(plan, plan.groupKeys[j], KeyColumns(plan)[j].alias)
  {
    BareKeysAreRest(plan);
    forall j | 0 <= j < |plan.groupKeys|
      ensures KeyColumns(plan)[j].expr == plan.groupKeys[j]
      ensures ReadsBack(plan, plan.groupKeys[j], KeyColumns(plan)[j].alias)
    {
      KeyColumnAt(plan, j);
    }
  }

  /** The key under which the gateway files a group. */
  function FullKey(plan: Plan, k: seq<Value>): seq<Value>
    requires Aligned(plan) && |k| == |plan.groupKeys|
  {
    k + k[..|plan.plain|]
  }

  lemma KeyIsRead(plan: Plan, k: seq<Value>, row: Row, j: nat)
    requires Aligned(plan) && ShowsKey(plan, k, row) && row.Keys == PartialNames(plan) && j < |k|
    ensures KeyValue(row, plan.groupKeys[j]) == k[j]
  {
    KeyColumnsAre(plan);
    var p := KeyColumns(plan)[j];
    assert p in KeyColumns(plan) && p.alias in row && row[p.alias] == k[j];
  }

  /** The name under which position `i` of a merge key is looked up. */
  function NameAt(plan: Plan, i: nat): string
    requires i < |plan.groupKeys| + |plan.plain|
  {
    if i < |plan.groupKeys| then plan.groupKeys[i] else plan.plain[i - |plan.groupKeys|].expr
  }

  lemma MergeKeyReads(plan: Plan, row: Row, i: nat)
    requires i < |plan.groupKeys| + |plan.plain|
    ensures |MergeKey(plan, row)| == |plan.groupKeys| + |plan.plain|
    ensures MergeKey(plan, row)[i] == KeyValue(row, NameAt(plan, i))
  {
  }

  /** Both halves of a merge key look up the same grouping keys. */
  lemma FullKeyAt(plan: Plan, k: seq<Value>, i: nat) returns (j: nat)
    requires Aligned(plan) && |k| == |plan.groupKeys| && i < |k| + |plan.plain|
    ensures j < |k| && NameAt(plan, i) == plan.groupKeys[j] && FullKey(plan, k)[i] == k[j]
  {
    j := if i < |k| then i else i - |k|;
  }

  lemma MergeKeyAt(plan: Plan, k: seq<Value>, row: Row, i: nat)
    requires Aligned(plan) && ShowsKey(plan, k, row) && row.Keys == PartialNames(plan) && i < |FullKey(plan, k)|
    ensures |MergeKey(plan, row)| == |FullKey(plan, k)| && MergeKey(plan, row)[i] == FullKey(plan, k)[i]
  {
    var j := FullKeyAt(plan, k, i);
    assert KeyValue(row, plan.groupKeys[j]) == k[j] by {
      KeyIsRead(plan, k, row, j);
    }
    MergeKeyReads(plan, row, i);
  }

  /** The gateway recovers the group of a partial row. */
  lemma MergeKeyIs(plan: Plan, k: seq<Value>, row: Row)
    requires Aligned(plan) && ShowsKey(plan, k, row) && row.Keys == PartialNames(plan)
    ensures MergeKey(plan, row) == FullKey(plan, k)
  {
    var read, full := MergeKey(plan, row), FullKey(plan, k);
    forall i | 0 <= i < |full| ensures |read| == |full| && read[i] == full[i] {
      MergeKeyAt(plan, k, row, i);
    }
    assert |read| == |full|;
  }

  // ----- One row into one group -----

  /** Two accumulators agree on the entries called `x`. */
  ghost predicate SameAt(a: Acc, b: Acc, x: string) {
    && Get(a.counts, x) == Get(b.counts, x)
    && Get(a.sums, x) == Get(b.sums, x)
    && Get(a.mins, x) == Get(b.mins, x)
    && Get(a.maxes, x) == Get(b.maxes, x)
    && Get(a.boolsAnd, x) == Get(b.boolsAnd, x)
    && Get(a.boolsOr, x) == Get(b.boolsOr, x)
    && Get(a.distinct, x) == Get(b.distinct, x)
  }

  ghost predicate SameSlots(spec: Spec, a: Acc, b: Acc) {
    forall x | x in Slots(spec) :: SameAt(a, b, x)
  }

  ghost predicate TouchesOnly(slots: set<string>, a: Acc, b: Acc) {
    a.key == b.key && forall x | x !in slots :: SameAt(a, b, x)
  }

  lemma AddElsewhere(m: map<string, real>, name: string, n: real, x: string)
    requires x != name
    ensures Get(Add(m, name, n), x) == Get(m, x)
  {
  }

  lemma AddFromElsewhere(m: map<string, real>, name: string, row: Row, column: string, x: string)
    requires x != name
    ensures Get(AddFrom(m, name, row, column), x) == Get(m, x)
  {
  }

  lemma NumbersElsewhere(spec: Spec, acc: Acc, row: Row, x: string)
    requires (spec.kind.Count? || spec.kind.Sum? || spec.kind.Avg?) && x != spec.output
    ensures SameAt(acc, Take(spec, acc, row), x)
  {
    var o := spec.output;
    AddFromElsewhere(acc.counts, o, row, if spec.kind.Avg? then Helper("__c_", spec) else o, x);
    AddFromElsewhere(acc.sums, o, row, if spec.kind.Avg? then Helper("__s_", spec) else o, x);
  }

  lemma TouchesNumbers(spec: Spec, acc: Acc, row: Row)
    requires spec.kind.Count? || spec.kind.Sum? || spec.kind.Avg?
    ensures TouchesOnly(Slots(spec), acc, Take(spec, acc, row))
  {
    forall x | x !in Slots(spec) ensures SameAt(acc, Take(spec, acc, row), x) {
      NumbersElsewhere(spec, acc, row, x);
    }
  }

  lemma MomentsElsewhere(spec: Spec, acc: Acc, row: Row, x: string)
    requires spec.kind.Variance?
    requires x != spec.output && x != Helper("__sum_", spec) && x != Helper("__q_", spec)
    ensures SameAt(acc, Take(spec, acc, row), x)
  {
    var n := NumberIn(row, Helper("__n_", spec)).GetOr(0.0);
    var mean := NumberIn(row, Helper("__m_", spec));
    var squares := NumberIn(row, Helper("__q_", spec)).GetOr(0.0);
    if n > 0.0 && mean.Some? {
      var sum := Helper("__sum_", spec);
      AddElsewhere(acc.sums, sum, mean.value * n, x);
      AddElsewhere(Add(acc.sums, sum, mean.value * n), Helper("__q_", spec), squares, x);
      AddElsewhere(acc.counts, spec.output, n, x);
    }
  }

  lemma TouchesMoments(spec: Spec, acc: Acc, row: Row)
    requires spec.kind.Variance?
    ensures TouchesOnly(Slots(spec), acc, Take(spec, acc, row))
  {
    forall x | x !in Slots(spec) ensures SameAt(acc, Take(spec, acc, row), x) {
      MomentsElsewhere(spec, acc, row, x);
    }
  }

  lemma TouchesValues(spec: Spec, acc: Acc, row: Row)
    requires spec.kind.CountDistinct? || spec.kind.Min? || spec.kind.Max?
    ensures TouchesOnly(Slots(spec), acc, Take(spec, acc, row))
  {
    assert spec.output in Slots(spec);
  }

  lemma TouchesFlags(spec: Spec, acc: Acc, row: Row)
    requires spec.kind.BoolAnd? || spec.kind.BoolOr?
    ensures TouchesOnly(Slots(spec), acc, Take(spec, acc, row))
  {
    assert spec.output in Slots(spec);
  }

  /** An aggregate changes its own slots only. */
  lemma TakeTouches(spec: Spec, acc: Acc, row: Row)
    ensures TouchesOnly(Slots(spec), acc, Take(spec, acc, row))
  {
    if spec.kind.Variance? {
      TouchesMoments(spec, acc, row);
    } else if spec.kind.BoolAnd? || spec.kind.BoolOr? {
      TouchesFlags(spec, acc, row);
    } else if spec.kind.Count? || spec.kind.Sum? || spec.kind.Avg? {
      TouchesNumbers(spec, acc, row);
    } else {
      TouchesValues(spec, acc, row);
    }
  }

  lemma TakeElsewhere(spec: Spec, other: Spec, acc: Acc, row: Row)
    requires Slots(spec) !! Slots(other)
    ensures SameSlots(spec, acc, Take(other, acc, row))
  {
    TakeTouches(other, acc, row);
  }

  lemma {:induction false} TakeAllElsewhere(specs: seq<Spec>, spec: Spec, acc: Acc, row: Row)
    requires forall other | other in specs :: Slots(spec) !! Slots(other)
    ensures SameSlots(spec, acc, TakeAll(specs, acc, row))
  {
    if specs != [] {
      var init, last := specs[..|specs| - 1], specs[|specs| - 1];
      TakeAllElsewhere(init, spec, acc, row);
      assert last in specs;
      TakeElsewhere(spec, last, TakeAll(init, acc, row), row);
    }
  }

  lemma SameSlotsSameCell(t: SqlType, spec: Spec, vals: seq<Value>, a: Acc, b: Acc)
    requires SameSlots(spec, a, b) && CellOk(t, spec, vals, a)
    ensures CellOk(t, spec, vals, b)
  {
    assert spec.output in Slots(spec);
  }

  ghost predicate Compares(t: SqlType, spec: Spec, vals: seq<Value>) {
    spec.kind.Min? || spec.kind.Max? ==> Agrees(t, NonNull(vals))
  }

  /** Folding a row in for every aggregate extends each aggregate, and none disturbs another. */
  lemma {:induction false} TakeAllExtends(t: SqlType, specs: seq<Spec>, i: nat, vals: seq<Value>,
                                          more: seq<Value>, acc: Acc, row: Row)
    requires i < |specs| && forall a, b | 0 <= a < b < |specs| :: Slots(specs[a]) !! Slots(specs[b])
    requires CellOk(t, specs[i], vals, acc) && SpecAnswered(t, specs[i], more, row)
    requires Compares(t, specs[i], vals + more)
    ensures CellOk(t, specs[i], vals + more, TakeAll(specs, acc, row))
  {
    var n := |specs| - 1;
    var init, spec := specs[..n], specs[i];
    if i == n {
      TakeAllElsewhere(init, spec, acc, row);
      SameSlotsSameCell(t, spec, vals, acc, TakeAll(init, acc, row));
      TakeExtends(t, spec, vals, more, TakeAll(init, acc, row), row);
    } else {
      assert init[i] == spec;
      TakeAllExtends(t, init, i, vals, more, acc, row);
      TakeElsewhere(spec, specs[n], TakeAll(init, acc, row), row);
      SameSlotsSameCell(t, spec, vals + more, TakeAll(init, acc, row), TakeAll(specs, acc, row));
    }
  }

  lemma {:induction false} TakeAllKeepsKey(specs: seq<Spec>, acc: Acc, row: Row)
    ensures TakeAll(specs, acc, row).key == acc.key
  {
    if specs != [] {
      TakeAllKeepsKey(specs[..|specs| - 1], acc, row);
      TakeTouches(specs[|specs| - 1], TakeAll(specs[..|specs| - 1], acc, row), row);
    }
  }

  lemma {:induction false} ItemsIncluded(specs: seq<Spec>, i: nat, p: Projected)
    requires i < |specs| && p in SpecItems(specs[i])
    ensures p in AggregateItems(specs)
  {
    if i < |specs| - 1 {
      ItemsIncluded(specs[..|specs| - 1], i, p);
    }
  }

  lemma ItemArgument(spec: Spec, p: Projected)
    requires p in SpecItems(spec)
    ensures p.item.arg == spec.arg
  {
  }

  lemma RowAnswers(plan: Plan, eval: Eval, rows: seq<Row>, k: seq<Value>, row: Row, i: nat)
    requires i < |plan.aggregates| && PartialRow(plan, eval, rows, k, row)
    ensures var spec := plan.aggregates[i];
      SpecAnswered(eval.kind(spec.arg), spec, Cells(eval, rows, spec.arg), row)
  {
    var spec := plan.aggregates[i];
    forall p | p in SpecItems(spec)
      ensures p.name in row && ItemOk(eval.kind(spec.arg), p.item, Cells(eval, rows, spec.arg), row[p.name])
    {
      ItemsIncluded(plan.aggregates, i, p);
      ItemArgument(spec, p);
    }
  }

  // ----- One answer into all groups -----

  lemma AbsorbOther(plan: Plan, groups: Groups, row: Row, key: seq<Value>)
    requires MergeKey(plan, row) != key
    ensures At(AbsorbRow(plan, groups, row), key) == At(groups, key)
  {
  }

  lemma AbsorbOwn(plan: Plan, groups: Groups, row: Row, key: seq<Value>)
    requires MergeKey(plan, row) == key
    ensures At(AbsorbRow(plan, groups, row), key) == TakeAll(plan.aggregates, At(groups, key), row)
  {
  }

  lemma {:induction false} AbsorbMiss(plan: Plan, groups: Groups, rows: seq<Row>, key: seq<Value>)
    requires forall j | 0 <= j < |rows| :: MergeKey(plan, rows[j]) != key
    ensures At(AbsorbRows(plan, groups, rows), key) == At(groups, key)
  {
    if rows != [] {
      var n := |rows| - 1;
      AbsorbMiss(plan, groups, rows[..n], key);
      AbsorbOther(plan, AbsorbRows(plan, groups, rows[..n]), rows[n], key);
    }
  }

  lemma {:induction false} AbsorbConcat(plan: Plan, groups: Groups, a: seq<Row>, b: seq<Row>)
    ensures AbsorbRows(plan, groups, a + b) == AbsorbRows(plan, AbsorbRows(plan, groups, a), b)
  {
    if b == [] {
      assert a + b == a;
    } else {
      assert (a + b)[..|a + b| - 1] == a + b[..|b| - 1];
      AbsorbConcat(plan, groups, a, b[..|b| - 1]);
    }
  }

  lemma AbsorbHit(plan: Plan, groups: Groups, rows: seq<Row>, i: nat, key: seq<Value>)
    requires i < |rows| && key == MergeKey(plan, rows[i])
    requires forall j | 0 <= j < |rows| && j != i :: MergeKey(plan, rows[j]) != key
    ensures At(AbsorbRows(plan, groups, rows), key) == TakeAll(plan.aggregates, At(groups, key), rows[i])
  {
    var left, row, right := rows[..i], rows[i], rows[i + 1..];
    var before := AbsorbRows(plan, groups, left);
    var after := AbsorbRow(plan, before, row);
    assert rows == left + [row] + right && (left + [row])[..i] == left;
    assert AbsorbRows(plan, groups, left + [row]) == after;
    AbsorbConcat(plan, groups, left + [row], right);
    AbsorbMiss(plan, groups, left, key);
    AbsorbOwn(plan, before, row, key);
    AbsorbMiss(plan, after, right, key);
  }

  lemma {:induction false} AbsorbKeys(plan: Plan, groups: Groups, rows: seq<Row>, key: seq<Value>)
    ensures key in AbsorbRows(plan, groups, rows) <==>
            key in groups || exists j | 0 <= j < |rows| :: MergeKey(plan, rows[j]) == key
  {
    if rows != [] {
      var init := rows[..|rows| - 1];
      AbsorbKeys(plan, groups, init, key);
      assert forall j | 0 <= j < |init| :: rows[j] == init[j];
    }
  }

  lemma {:induction false} AbsorbFiles(plan: Plan, groups: Groups, rows: seq<Row>)
    requires forall key | key in groups :: groups[key].key == key
    ensures forall key | key in AbsorbRows(plan, groups, rows) :: AbsorbRows(plan, groups, rows)[key].key == key
  {
    if rows != [] {
      var init, last := rows[..|rows| - 1], rows[|rows| - 1];
      AbsorbFiles(plan, groups, init);
      TakeAllKeepsKey(plan.aggregates, At(AbsorbRows(plan, groups, init), MergeKey(plan, last)), last);
    }
  }

  // ----- The rows of all slices -----

  lemma {:induction false} GroupConcat(plan: Plan, eval: Eval, a: seq<Row>, b: seq<Row>, k: seq<Value>)
    ensures GroupRows(plan, eval, a + b, k) == GroupRows(plan, eval, a, k) + GroupRows(plan, eval, b, k)
  {
    if b == [] {
      assert a + b == a;
    } else {
      assert (a + b)[..|a + b| - 1] == a + b[..|b| - 1];
      GroupConcat(plan, eval, a, b[..|b| - 1], k);
    }
  }

  lemma CellsConcat(plan: Plan, eval: Eval, a: seq<Row>, b: seq<Row>, k: seq<Value>, arg: string)
    ensures Cells(eval, GroupRows(plan, eval, a + b, k), arg) ==
            Cells(eval, GroupRows(plan, eval, a, k), arg) + Cells(eval, GroupRows(plan, eval, b, k), arg)
  {
    GroupConcat(plan, eval, a, b, k);
  }

  lemma {:induction false} NoSuchGroup(plan: Plan, eval: Eval, rows: seq<Row>, k: seq<Value>)
    requires |k| == |plan.groupKeys| && k !in GroupTuples(plan, eval, rows)
    ensures GroupRows(plan, eval, rows, k) == []
  {
    if rows != [] {
      var init, last := rows[..|rows| - 1], rows[|rows| - 1];
      assert plan.groupKeys != [];
      assert last in rows && KeyOf(plan, eval, last) in GroupTuples(plan, eval, rows);
      NoSuchGroup(plan, eval, init, k);
    }
  }

  // ----- All answers into all groups -----

  /** Every slice has been answered. */
  ghost predicate AllAnswer(plan: Plan, eval: Eval, slices: seq<seq<Row>>, answers: seq<seq<Row>>) {
    |answers| == |slices| && forall i | 0 <= i < |slices| :: Answers(plan, eval, slices[i], answers[i])
  }

  /** An answer without a row for the group with key `k`. */
  lemma AnswerMisses(plan: Plan, eval: Eval, rows: seq<Row>, keys: seq<seq<Value>>, answer: seq<Row>, groups: Groups,
                     k: seq<Value>)
    requires Aligned(plan) && |k| == |plan.groupKeys| && k !in keys
    requires AnswersInOrder(plan, eval, rows, keys, answer)
    ensures At(AbsorbRows(plan, groups, answer), FullKey(plan, k)) == At(groups, FullKey(plan, k))
  {
    AnswerKeys(plan, eval, rows, keys, answer);
    forall j | 0 <= j < |answer| ensures MergeKey(plan, answer[j]) != FullKey(plan, k) {
      assert keys[j] in keys;
      FullKeyInjective(plan, keys[j], k);
    }
    AbsorbMiss(plan, groups, answer, FullKey(plan, k));
  }

  /** An answer whose j-th row is for the group with key `k`. */
  lemma AnswerHits(plan: Plan, eval: Eval, rows: seq<Row>, keys: seq<seq<Value>>, answer: seq<Row>, groups: Groups,
                   j: nat, k: seq<Value>)
    requires Aligned(plan) && j < |keys| && keys[j] == k
    requires forall a, b | 0 <= a < b < |keys| :: keys[a] != keys[b]
    requires AnswersInOrder(plan, eval, rows, keys, answer)
    ensures |k| == |plan.groupKeys|
    ensures At(AbsorbRows(plan, groups, answer), FullKey(plan, k)) ==
            TakeAll(plan.aggregates, At(groups, FullKey(plan, k)), answer[j])
  {
    AnswerKeys(plan, eval, rows, keys, answer);
    forall j' | 0 <= j' < |answer| && j' != j ensures MergeKey(plan, answer[j']) != FullKey(plan, k) {
      FullKeyInjective(plan, keys[j'], k);
    }
    AbsorbHit(plan, groups, answer, j, FullKey(plan, k));
  }

  /** What one answer adds to the group with key `k`. */
  lemma AnswerAdds(plan: Plan, eval: Eval, slice: seq<Row>, answer: seq<Row>, groups: Groups, k: seq<Value>,
                   i: nat, vals: seq<Value>)
    requires Aligned(plan) && WellNamed(plan) && Answers(plan, eval, slice, answer)
    requires |k| == |plan.groupKeys| && i < |plan.aggregates|
    requires CellOk(eval.kind(plan.aggregates[i].arg), plan.aggregates[i], vals, At(groups, FullKey(plan, k)))
    requires var spec := plan.aggregates[i];
      Compares(eval.kind(spec.arg), spec, vals + Cells(eval, GroupRows(plan, eval, Where(plan, slice), k), spec.arg))
    ensures var spec := plan.aggregates[i];
      CellOk(eval.kind(spec.arg), spec, vals + Cells(eval, GroupRows(plan, eval, Where(plan, slice), k), spec.arg),
             At(AbsorbRows(plan, groups, answer), FullKey(plan, k)))
  {
    var rows := Where(plan, slice);
    var keys :| Arranges(keys, GroupTuples(plan, eval, rows)) && AnswersInOrder(plan, eval, rows, keys, answer);
    var more := Cells(eval, GroupRows(plan, eval, rows, k), plan.aggregates[i].arg);
    if k in keys {
      var j :| 0 <= j < |keys| && keys[j] == k;
      AnswerHits(plan, eval, rows, keys, answer, groups, j, k);
      RowAnswers(plan, eval, GroupRows(plan, eval, rows, k), k, answer[j], i);
      TakeAllExtends(eval.kind(plan.aggregates[i].arg), plan.aggregates, i, vals, more,
                     At(groups, FullKey(plan, k)), answer[j]);
    } else {
      AnswerMisses(plan, eval, rows, keys, answer, groups, k);
      NoSuchGroup(plan, eval, rows, k);
      assert vals + more == vals;
    }
  }

  lemma FullKeyInjective(plan: Plan, a: seq<Value>, b: seq<Value>)
    requires Aligned(plan) && |a| == |plan.groupKeys| && |b| == |plan.groupKeys|
    ensures FullKey(plan, a) == FullKey(plan, b) <==> a == b
  {
    assert FullKey(plan, a)[..|a|] == a && FullKey(plan, b)[..|b|] == b;
  }

  lemma AnswerKeys(plan: Plan, eval: Eval, rows: seq<Row>, keys: seq<seq<Value>>, answer: seq<Row>)
    requires Aligned(plan) && AnswersInOrder(plan, eval, rows, keys, answer)
    ensures forall j | 0 <= j < |keys| :: |keys[j]| == |plan.groupKeys| &&
              MergeKey(plan, answer[j]) == FullKey(plan, keys[j])
  {
    forall j | 0 <= j < |keys|
      ensures |keys[j]| == |plan.groupKeys| && MergeKey(plan, answer[j]) == FullKey(plan, keys[j])
    {
      assert PartialRow(plan, eval, GroupRows(plan, eval, rows, keys[j]), keys[j], answer[j]);
      MergeKeyIs(plan, keys[j], answer[j]);
    }
  }

  lemma ComparesPrefix(t: SqlType, spec: Spec, vals: seq<Value>, more: seq<Value>)
    requires Compares(t, spec, vals + more)
    ensures Compares(t, spec, vals)
  {
    NonNullConcat(vals, more);
  }

  /** After all answers, the accumulator of every group summarises that group's rows in all slices. */
  lemma {:induction false} GroupTracked(plan: Plan, eval: Eval, slices: seq<seq<Row>>, answers: seq<seq<Row>>,
                                        k: seq<Value>, i: nat)
    requires Aligned(plan) && WellNamed(plan) && AllAnswer(plan, eval, slices, answers)
    requires |k| == |plan.groupKeys| && i < |plan.aggregates|
    requires var spec := plan.aggregates[i];
      Compares(eval.kind(spec.arg), spec, Cells(eval, GroupRows(plan, eval, Where(plan, Flatten(slices)), k), spec.arg))
    ensures var spec := plan.aggregates[i];
      CellOk(eval.kind(spec.arg), spec, Cells(eval, GroupRows(plan, eval, Where(plan, Flatten(slices)), k), spec.arg),
             At(MergeGroups(plan, answers), FullKey(plan, k)))
  {
    var spec := plan.aggregates[i];
    if slices == [] {
      EmptyCell(eval.kind(spec.arg), spec, FullKey(plan, k));
      assert Cells(eval, [], spec.arg) == [];
    } else {
      var n := |slices| - 1;
      var before, last := Flatten(slices[..n]), slices[n];
      KeepConcat(plan.filter, before, last);
      CellsConcat(plan, eval, Where(plan, before), Where(plan, last), k, spec.arg);
      var vals := Cells(eval, GroupRows(plan, eval, Where(plan, before), k), spec.arg);
      ComparesPrefix(eval.kind(spec.arg), spec, vals,
                     Cells(eval, GroupRows(plan, eval, Where(plan, last), k), spec.arg));
      GroupTracked(plan, eval, slices[..n], answers[..n], k, i);
      AnswerAdds(plan, eval, last, answers[n], MergeGroups(plan, answers[..n]), k, i, vals);
    }
  }

  // ----- Which groups there are -----

  /** The groups found in at least one slice. */
  function SliceTuples(plan: Plan, eval: Eval, slices: seq<seq<Row>>): set<seq<Value>> {
    if slices == [] then {}
    else
      var n := |slices| - 1;
      SliceTuples(plan, eval, slices[..n]) + GroupTuples(plan, eval, Where(plan, slices[n]))
  }

  lemma TuplesConcat(plan: Plan, eval: Eval, a: seq<Row>, b: seq<Row>)
    ensures GroupTuples(plan, eval, a + b) == GroupTuples(plan, eval, a) + GroupTuples(plan, eval, b)
  {
    if plan.groupKeys != [] {
      forall k | k in GroupTuples(plan, eval, a + b)
        ensures k in GroupTuples(plan, eval, a) + GroupTuples(plan, eval, b)
      {
        var row :| row in a + b && KeyOf(plan, eval, row) == k;
      }
      forall k | k in GroupTuples(plan, eval, a) + GroupTuples(plan, eval, b)
        ensures k in GroupTuples(plan, eval, a + b)
      {
        var row :| (row in a || row in b) && KeyOf(plan, eval, row) == k;
        assert row in a + b;
      }
    }
  }

  /** They are the groups of the whole table, given one slice at least when there is no GROUP BY. */
  lemma {:induction false} SliceTuplesAre(plan: Plan, eval: Eval, slices: seq<seq<Row>>)
    requires plan.groupKeys == [] ==> slices != []
    ensures SliceTuples(plan, eval, slices) == GroupTuples(plan, eval, Where(plan, Flatten(slices)))
  {
    if slices != [] {
      var n := |slices| - 1;
      KeepConcat(plan.filter, Flatten(slices[..n]), slices[n]);
      TuplesConcat(plan, eval, Where(plan, Flatten(slices[..n])), Where(plan, slices[n]));
      if plan.groupKeys == [] && n == 0 {
        assert SliceTuples(plan, eval, slices[..n]) == {};
      } else {
        SliceTuplesAre(plan, eval, slices[..n]);
      }
    }
  }

  lemma TupleWidth(plan: Plan, eval: Eval, rows: seq<Row>, k: seq<Value>)
    requires k in GroupTuples(plan, eval, rows)
    ensures |k| == |plan.groupKeys|
  {
  }

  /** The gateway files one of these groups under `key`. */
  ghost predicate Files(plan: Plan, tuples: set<seq<Value>>, key: seq<Value>)
    requires Aligned(plan)
  {
    exists k :: k in tuples && |k| == |plan.groupKeys| && FullKey(plan, k) == key
  }

  lemma FilesUnion(plan: Plan, a: set<seq<Value>>, b: set<seq<Value>>, key: seq<Value>)
    requires Aligned(plan)
    ensures Files(plan, a + b, key) <==> Files(plan, a, key) || Files(plan, b, key)
  {
  }

  lemma LastSlice(plan: Plan, eval: Eval, slices: seq<seq<Row>>, answers: seq<seq<Row>>)
    requires slices != [] && AllAnswer(plan, eval, slices, answers)
    ensures var n := |slices| - 1;
      && |answers| == n + 1 && AllAnswer(plan, eval, slices[..n], answers[..n])
      && Answers(plan, eval, slices[n], answers[n])
      && MergeGroups(plan, answers) == AbsorbRows(plan, MergeGroups(plan, answers[..n]), answers[n])
      && SliceTuples(plan, eval, slices) ==
         SliceTuples(plan, eval, slices[..n]) + GroupTuples(plan, eval, Where(plan, slices[n]))
  {
  }

  /** The merged groups are exactly those found in the slices. */
  lemma {:induction false} GroupsFound(plan: Plan, eval: Eval, slices: seq<seq<Row>>, answers: seq<seq<Row>>,
                                       key: seq<Value>)
    requires Aligned(plan) && AllAnswer(plan, eval, slices, answers)
    ensures key in MergeGroups(plan, answers) <==> Files(plan, SliceTuples(plan, eval, slices), key)
  {
    if slices != [] {
      var n := |slices| - 1;
      LastSlice(plan, eval, slices, answers);
      GroupsFound(plan, eval, slices[..n], answers[..n], key);
      AnswerFinds(plan, eval, slices[n], answers[n], MergeGroups(plan, answers[..n]), key);
      FilesUnion(plan, SliceTuples(plan, eval, slices[..n]), GroupTuples(plan, eval, Where(plan, slices[n])), key);
    }
  }

  lemma AnswerFinds(plan: Plan, eval: Eval, slice: seq<Row>, answer: seq<Row>, groups: Groups, key: seq<Value>)
    requires Aligned(plan) && Answers(plan, eval, slice, answer)
    ensures key in AbsorbRows(plan, groups, answer) <==>
            key in groups || Files(plan, GroupTuples(plan, eval, Where(plan, slice)), key)
  {
    var rows := Where(plan, slice);
    var keys :| Arranges(keys, GroupTuples(plan, eval, rows)) && AnswersInOrder(plan, eval, rows, keys, answer);
    AnswerKeys(plan, eval, rows, keys, answer);
    AbsorbKeys(plan, groups, answer, key);
    if j :| 0 <= j < |answer| && MergeKey(plan, answer[j]) == key {
      assert keys[j] in keys && FullKey(plan, keys[j]) == key;
    }
    if k :| k in GroupTuples(plan, eval, rows) && |k| == |plan.groupKeys| && FullKey(plan, k) == key {
      assert k in keys;
      var j :| 0 <= j < |keys| && keys[j] == k;
      assert MergeKey(plan, answer[j]) == key;
    }
  }

  lemma {:induction false} GroupsFiled(plan: Plan, answers: seq<seq<Row>>)
    ensures forall key | key in MergeGroups(plan, answers) :: MergeGroups(plan, answers)[key].key == key
  {
    if answers != [] {
      var n := |answers| - 1;
      GroupsFiled(plan, answers[..n]);
      AbsorbFiles(plan, MergeGroups(plan, answers[..n]), answers[n]);
    }
  }

  // ----- Emitting a group -----

  lemma KeysDiffer(plan: Plan, i: nat, j: nat)
    requires Aligned(plan) && WellNamed(plan) && i < |plan.groupKeys| && j < |plan.groupKeys|
    requires plan.groupKeys[i] == plan.groupKeys[j]
    ensures i == j
  {
    KeyColumnsAre(plan);
    var a, b := KeyColumns(plan)[i], KeyColumns(plan)[j];
    assert a in KeyColumns(plan) && b in KeyColumns(plan);
    assert a.alias in KeyNames(plan) && b.alias in KeyNames(plan);
  }

  /** Two rounds of assignments under names of their own. */
  lemma AssignTwice(names: seq<string>, key: seq<Value>, outputs: seq<string>, values: seq<Value>)
    requires |names| <= |key| && |outputs| <= |values|
    requires forall i, j | 0 <= i < j < |names| :: names[i] != names[j]
    requires forall i, j | 0 <= i < j < |outputs| :: outputs[i] != outputs[j]
    requires forall m | 0 <= m < |names| :: names[m] !in outputs
    ensures var row := Assign(Assign(map[], names, key), outputs, values);
      && (forall m | 0 <= m < |names| :: names[m] in row && row[names[m]] == key[m])
      && (forall i | 0 <= i < |outputs| :: outputs[i] in row && row[outputs[i]] == values[i])
      && row.Keys == (set x | x in names) + (set x | x in outputs)
  {
    var keyed := Assign(map[], names, key);
    AssignNames(map[], names, key);
    AssignNames(keyed, outputs, values);
    var row := Assign(keyed, outputs, values);
    forall m | 0 <= m < |names| ensures names[m] in row && row[names[m]] == key[m] {
      AssignShows(map[], names, key, m);
      AssignKeeps(keyed, outputs, values, names[m]);
    }
    forall i | 0 <= i < |outputs| ensures outputs[i] in row && row[outputs[i]] == values[i] {
      AssignShows(keyed, outputs, values, i);
    }
  }

  lemma NamesDiffer(plan: Plan)
    requires WellNamed(plan)
    ensures forall i, j | 0 <= i < j < |plan.aggregates| :: plan.aggregates[i].output != plan.aggregates[j].output
    ensures forall m | 0 <= m < |KeyColumns(plan)| :: KeyColumns(plan)[m].alias !in Outputs(plan.aggregates)
  {
    var specs := plan.aggregates;
    forall i, j | 0 <= i < j < |specs| ensures specs[i].output != specs[j].output {
      assert specs[i].output in Slots(specs[i]) && specs[j].output in Slots(specs[j]);
    }
    forall m | 0 <= m < |KeyColumns(plan)| ensures KeyColumns(plan)[m].alias !in Outputs(specs) {
      assert KeyColumns(plan)[m] in KeyColumns(plan);
    }
  }

  /** What the emitted row shows under the key columns, the outputs, and nowhere else. */
  lemma EmitShows(plan: Plan, acc: Acc)
    requires WellNamed(plan) && |KeyColumns(plan)| <= |acc.key|
    ensures forall m | 0 <= m < |KeyColumns(plan)| ::
              var alias := KeyColumns(plan)[m].alias;
              alias in EmitRow(plan, acc) && EmitRow(plan, acc)[alias] == acc.key[m]
    ensures forall i | 0 <= i < |plan.aggregates| ::
              var spec := plan.aggregates[i];
              spec.output in EmitRow(plan, acc) && EmitRow(plan, acc)[spec.output] == Reduced(plan.aggregates, acc)[i]
    ensures EmitRow(plan, acc).Keys == ResultNames(plan)
  {
    var names, outputs := Aliases(KeyColumns(plan)), Outputs(plan.aggregates);
    NamesDiffer(plan);
    AssignTwice(names, acc.key, outputs, Reduced(plan.aggregates, acc));
    assert forall m | 0 <= m < |names| :: names[m] == KeyColumns(plan)[m].alias;
    assert forall i | 0 <= i < |outputs| :: outputs[i] == plan.aggregates[i].output;
    NamesOfAliases(KeyColumns(plan));
    NamesOfOutputs(plan.aggregates);
  }

  lemma NamesOfAliases(columns: seq<Projection>)
    ensures (set x | x in Aliases(columns)) == set p | p in columns :: p.alias
  {
    forall p | p in columns ensures p.alias in Aliases(columns) {
      var i :| 0 <= i < |columns| && columns[i] == p;
      assert Aliases(columns)[i] == p.alias;
    }
  }

  lemma NamesOfOutputs(specs: seq<Spec>)
    ensures (set x | x in Outputs(specs)) == set spec | spec in specs :: spec.output
  {
    forall spec | spec in specs ensures spec.output in Outputs(specs) {
      var i :| 0 <= i < |specs| && specs[i] == spec;
      assert Outputs(specs)[i] == spec.output;
    }
  }

  lemma EmitShowsKey(plan: Plan, k: seq<Value>, acc: Acc)
    requires Aligned(plan) && WellNamed(plan) && |k| == |plan.groupKeys| && acc.key == FullKey(plan, k)
    ensures ShowsKey(plan, k, EmitRow(plan, acc))
  {
    KeyColumnsAre(plan);
    EmitShows(plan, acc);
    var columns := KeyColumns(plan);
    forall p, j | p in columns && 0 <= j < |k| && plan.groupKeys[j] == p.expr
      ensures p.alias in EmitRow(plan, acc) && EmitRow(plan, acc)[p.alias] == k[j]
    {
      var m :| 0 <= m < |columns| && columns[m] == p;
      KeysDiffer(plan, j, m);
    }
  }

  /** A faithful accumulator is emitted as the result row of its group. */
  lemma EmitIsResult(plan: Plan, eval: Eval, rows: seq<Row>, k: seq<Value>, acc: Acc)
    requires Aligned(plan) && WellNamed(plan) && |k| == |plan.groupKeys| && acc.key == FullKey(plan, k)
    requires forall i | 0 <= i < |plan.aggregates| ::
               var spec := plan.aggregates[i];
               ResultOk(eval.kind(spec.arg), spec.kind, Cells(eval, rows, spec.arg), Reduced(plan.aggregates, acc)[i])
    ensures ResultRow(plan, eval, rows, k, EmitRow(plan, acc))
  {
    KeyColumnsAre(plan);
    EmitShowsKey(plan, k, acc);
    EmitShows(plan, acc);
    forall spec | spec in plan.aggregates
      ensures spec.output in EmitRow(plan, acc)
      ensures ResultOk(eval.kind(spec.arg), spec.kind, Cells(eval, rows, spec.arg), EmitRow(plan, acc)[spec.output])
    {
      var i :| 0 <= i < |plan.aggregates| && plan.aggregates[i] == spec;
    }
  }

  // ----- The whole answer -----

  /** Every column fits its aggregates, in every group. */
  ghost predicate Fits(plan: Plan, eval: Eval, rows: seq<Row>) {
    forall k, i | k in GroupTuples(plan, eval, rows) && 0 <= i < |plan.aggregates| ::
      var spec := plan.aggregates[i];
      Suits(eval.kind(spec.arg), spec.kind, Cells(eval, GroupRows(plan, eval, rows, k), spec.arg))
  }

  /** A row that the query may return before it is cut: the result row of some group, passed by HAVING. */
  ghost predicate MayReturn(plan: Plan, eval: Eval, rows: seq<Row>, r: Row) {
    plan.having(r) && exists k :: k in GroupTuples(plan, eval, rows) && ResultOf(plan, eval, rows, k, r)
  }

  ghost predicate ResultOf(plan: Plan, eval: Eval, rows: seq<Row>, k: seq<Value>, r: Row) {
    ResultRow(plan, eval, GroupRows(plan, eval, rows, k), k, r)
  }

  /** The type of an aggregate's result, given that of its argument. */
  function ResultType(kind: Kind, t: SqlType): SqlType {
    match kind
    case Min => t
    case Max => t
    case BoolAnd => Booleans
    case BoolOr => Booleans
    case _ => Numbers
  }

  /** The columns of the result, which ORDER BY may name. */
  function ResultColumns(plan: Plan, eval: Eval): seq<Column> {
    var keys, specs := KeyColumns(plan), plan.aggregates;
    seq(|keys|, i requires 0 <= i < |keys| => Column(keys[i].alias, keys[i].expr, eval.kind(keys[i].expr))) +
    seq(|specs|, i requires 0 <= i < |specs| =>
      Column(specs[i].output, specs[i].output, ResultType(specs[i].kind, eval.kind(specs[i].arg))))
  }

  /** The gateway's ORDER BY comparison says nothing against SQL's, on the rows that the query may return. */
  ghost predicate Sortable(plan: Plan, eval: Eval, rows: seq<Row>) {
    forall a, b
      | MayReturn(plan, eval, rows, a) && MayReturn(plan, eval, rows, b) && Compare(plan.orderBy, a, b) <= 0 ::
      SqlCompare(ResultColumns(plan, eval), plan.orderBy, a, b) <= 0
  }

  /** What one database holding all of `rows` may answer: ties and equal minima leave it a choice. */
  ghost predicate IsAnswer(plan: Plan, eval: Eval, rows: seq<Row>, out: seq<Row>) {
    exists keys, results, sorted ::
      && Tabulates(plan, eval, rows, keys, results)
      && multiset(sorted) == multiset(Keep(plan.having, results))
      && SortedBy(ResultColumns(plan, eval), plan.orderBy, sorted)
      && IsCut(sorted, plan.offset, plan.limit, out)
  }

  /** One merged group is the result row over all its rows in all slices. */
  lemma GroupIsExact(plan: Plan, eval: Eval, slices: seq<seq<Row>>, answers: seq<seq<Row>>, k: seq<Value>)
    requires Aligned(plan) && WellNamed(plan) && AllAnswer(plan, eval, slices, answers)
    requires var rows := Where(plan, Flatten(slices)); k in GroupTuples(plan, eval, rows) && Fits(plan, eval, rows)
    requires |k| == |plan.groupKeys| && FullKey(plan, k) in MergeGroups(plan, answers)
    ensures var rows := Where(plan, Flatten(slices));
      ResultRow(plan, eval, GroupRows(plan, eval, rows, k), k,
                EmitRow(plan, MergeGroups(plan, answers)[FullKey(plan, k)]))
  {
    var rows := Where(plan, Flatten(slices));
    var acc := MergeGroups(plan, answers)[FullKey(plan, k)];
    GroupsFiled(plan, answers);
    var group := GroupRows(plan, eval, rows, k);
    forall i | 0 <= i < |plan.aggregates|
      ensures var spec := plan.aggregates[i];
        ResultOk(eval.kind(spec.arg), spec.kind, Cells(eval, group, spec.arg), Reduced(plan.aggregates, acc)[i])
    {
      var spec := plan.aggregates[i];
      SuitsCompares(eval.kind(spec.arg), spec, Cells(eval, group, spec.arg));
      GroupTracked(plan, eval, slices, answers, k, i);
      ReduceIsExact(eval.kind(spec.arg), spec, Cells(eval, group, spec.arg), acc);
    }
    EmitIsResult(plan, eval, group, k, acc);
  }

  lemma SuitsCompares(t: SqlType, spec: Spec, vals: seq<Value>)
    requires Suits(t, spec.kind, vals)
    ensures Compares(t, spec, vals)
  {
  }

  /** The key tuples of the groups filed under `order`. */
  function Tuples(plan: Plan, order: seq<seq<Value>>): seq<seq<Value>>
    requires forall key | key in order :: |key| >= |plan.groupKeys|
  {
    seq(|order|, i requires 0 <= i < |order| => order[i][..|plan.groupKeys|])
  }

  lemma FiledKey(plan: Plan, tuples: set<seq<Value>>, key: seq<Value>)
    requires Aligned(plan) && Files(plan, tuples, key)
    ensures |key| >= |plan.groupKeys| && key[..|plan.groupKeys|] in tuples
    ensures FullKey(plan, key[..|plan.groupKeys|]) == key
  {
    var k :| k in tuples && |k| == |plan.groupKeys| && FullKey(plan, k) == key;
    assert key[..|plan.groupKeys|] == k;
  }

  /** The filed groups, in any order, are the groups of the table. */
  lemma KeysArrange(plan: Plan, tuples: set<seq<Value>>, order: seq<seq<Value>>, filed: set<seq<Value>>)
    requires Aligned(plan) && Arranges(order, filed)
    requires forall key :: key in filed <==> Files(plan, tuples, key)
    requires forall k | k in tuples :: |k| == |plan.groupKeys|
    ensures forall key | key in order :: |key| >= |plan.groupKeys| && FullKey(plan, key[..|plan.groupKeys|]) == key
    ensures Arranges(Tuples(plan, order), tuples)
  {
    forall key | key in order
      ensures |key| >= |plan.groupKeys| && key[..|plan.groupKeys|] in tuples
      ensures FullKey(plan, key[..|plan.groupKeys|]) == key
    {
      FiledKey(plan, tuples, key);
    }
    var keys := Tuples(plan, order);
    forall k | k in tuples ensures k in keys {
      assert Files(plan, tuples, FullKey(plan, k));
      assert FullKey(plan, k) in order;
      var i :| 0 <= i < |order| && order[i] == FullKey(plan, k);
      assert keys[i] == k;
    }
    forall i, j | 0 <= i < j < |keys| ensures keys[i] != keys[j] {
      assert order[i] != order[j];
    }
  }

  /** One merged row per group of the whole table. */
  lemma MergeTabulates(plan: Plan, eval: Eval, slices: seq<seq<Row>>, answers: seq<seq<Row>>, order: seq<seq<Value>>)
    returns (keys: seq<seq<Value>>)
    requires Aligned(plan) && WellNamed(plan) && AllAnswer(plan, eval, slices, answers)
    requires plan.groupKeys == [] ==> slices != []
    requires Fits(plan, eval, Where(plan, Flatten(slices)))
    requires Arranges(order, MergeGroups(plan, answers).Keys)
    ensures Tabulates(plan, eval, Where(plan, Flatten(slices)), keys, EmitAll(plan, MergeGroups(plan, answers), order))
  {
    var rows, groups := Where(plan, Flatten(slices)), MergeGroups(plan, answers);
    var tuples := GroupTuples(plan, eval, rows);
    SliceTuplesAre(plan, eval, slices);
    forall key ensures key in groups.Keys <==> Files(plan, tuples, key) {
      GroupsFound(plan, eval, slices, answers, key);
    }
    forall k | k in tuples ensures |k| == |plan.groupKeys| {
      TupleWidth(plan, eval, rows, k);
    }
    KeysArrange(plan, tuples, order, groups.Keys);
    keys := Tuples(plan, order);
    forall i | 0 <= i < |keys|
      ensures ResultRow(plan, eval, GroupRows(plan, eval, rows, keys[i]), keys[i], EmitAll(plan, groups, order)[i])
    {
      assert order[i] in order && keys[i] in keys;
      GroupIsExact(plan, eval, slices, answers, keys[i]);
    }
  }

  lemma ResultsRespect(plan: Plan, eval: Eval, rows: seq<Row>, keys: seq<seq<Value>>, results: seq<Row>)
    requires Tabulates(plan, eval, rows, keys, results) && Sortable(plan, eval, rows)
    ensures Respects(ResultColumns(plan, eval), plan.orderBy, set r | r in Keep(plan.having, results))
  {
    KeepMembers(plan.having, results);
    forall r | r in Keep(plan.having, results) ensures MayReturn(plan, eval, rows, r) {
      var i :| 0 <= i < |results| && results[i] == r;
      assert keys[i] in keys && ResultOf(plan, eval, rows, keys[i], r);
    }
  }

  /**
   * For any number of slices, the merge of their answers to the partial query is what one database
   * holding all their rows answers to the original query.
   */
  lemma MergeIsExact(plan: Plan, eval: Eval, slices: seq<seq<Row>>, answers: seq<seq<Row>>, out: seq<Row>)
    requires Aligned(plan) && WellNamed(plan)
    requires AllAnswer(plan, eval, slices, answers) && (plan.groupKeys == [] ==> slices != [])
    requires Fits(plan, eval, Where(plan, Flatten(slices))) && Sortable(plan, eval, Where(plan, Flatten(slices)))
    requires MergedBy(plan, answers, out)
    ensures IsAnswer(plan, eval, Where(plan, Flatten(slices)), out)
  {
    var rows, groups := Where(plan, Flatten(slices)), MergeGroups(plan, answers);
    var order :| Arranges(order, groups.Keys) && out == Finish(plan, EmitAll(plan, groups, order));
    var keys := MergeTabulates(plan, eval, slices, answers, order);
    var results := EmitAll(plan, groups, order);
    var kept := Keep(plan.having, results);
    ResultsRespect(plan, eval, rows, keys, results);
    SortRowsContents(plan.orderBy, kept);
    SortRowsSorts(ResultColumns(plan, eval), plan.orderBy, kept, set r | r in kept);
    assert Tabulates(plan, eval, rows, keys, results);
  }

  /** The reduce phase on whatever the slices answered. */
  method ReduceAnswers(plan: Plan, ghost eval: Eval, ghost slices: seq<seq<Row>>, answers: seq<seq<Row>>)
    returns (out: seq<Row>)
    requires plan.distinctOnly.None? && Aligned(plan) && WellNamed(plan)
    requires AllAnswer(plan, eval, slices, answers) && (plan.groupKeys == [] ==> slices != [])
    requires Fits(plan, eval, Where(plan, Flatten(slices))) && Sortable(plan, eval, Where(plan, Flatten(slices)))
    ensures IsAnswer(plan, eval, Where(plan, Flatten(slices)), out)
  {
    out := MergePartials(plan, answers);
    MergeIsExact(plan, eval, slices, answers, out);
  }
}
