/** `merge_partials`: the reduce phase of a distributed aggregate. */
module AggregateMerge {
  import opened Wrappers
  import opened Basics
  import opened Json
  import opened AggregatePlan
  import opened AggregateCells
  import opened RowOrder
  import opened DistinctMerge

  // ----- What the loops compute -----

  /** The part after the last dot, or the whole name. */
  function LastSegment(name: string): string {
    if name == [] || name[|name| - 1] == '.' then [] else LastSegment(name[..|name| - 1]) + [name[|name| - 1]]
  }

  /** It is the longest ending of the name without a dot. */
  lemma {:induction false} LastSegmentIs(name: string)
    ensures var t := LastSegment(name);
      && '.' !in t && |t| <= |name| && name[|name| - |t|..] == t
      && (|t| < |name| ==> name[|name| - |t| - 1] == '.')
  {
    if name != [] && name[|name| - 1] != '.' {
      var init, c := name[..|name| - 1], name[|name| - 1];
      LastSegmentIs(init);
      var k := |init| - |LastSegment(init)|;
      assert name[k..] == init[k..] + [c];
    }
  }

  function KeyValue(row: Row, name: string): Value {
    if name in row then row[name] else if LastSegment(name) in row then row[LastSegment(name)] else Null
  }

  function MergeKey(plan: Plan, row: Row): seq<Value> {
    seq(|plan.groupKeys|, j requires 0 <= j < |plan.groupKeys| => KeyValue(row, plan.groupKeys[j])) +
    seq(|plan.plain|, i requires 0 <= i < |plan.plain| => KeyValue(row, plan.plain[i].expr))
  }

  function TakeAll(specs: seq<Spec>, acc: Acc, row: Row): Acc {
    if specs == [] then acc else Take(specs[|specs| - 1], TakeAll(specs[..|specs| - 1], acc, row), row)
  }

  type Groups = map<seq<Value>, Acc>

  function At(groups: Groups, key: seq<Value>): Acc {
    if key in groups then groups[key] else EmptyAcc(key)
  }

  function AbsorbRow(plan: Plan, groups: Groups, row: Row): Groups {
    var key := MergeKey(plan, row);
    groups[key := TakeAll(plan.aggregates, At(groups, key), row)]
  }

  function AbsorbRows(plan: Plan, groups: Groups, rows: seq<Row>): Groups {
    if rows == [] then groups
    else AbsorbRow(plan, AbsorbRows(plan, groups, rows[..|rows| - 1]), rows[|rows| - 1])
  }

  function MergeGroups(plan: Plan, partials: seq<seq<Row>>): Groups {
    if partials == [] then map[]
    else AbsorbRows(plan, MergeGroups(plan, partials[..|partials| - 1]), partials[|partials| - 1])
  }

  function Outputs(specs: seq<Spec>): seq<string> {
    seq(|specs|, i requires 0 <= i < |specs| => specs[i].output)
  }

  function Reduced(specs: seq<Spec>, acc: Acc): seq<Value> {
    seq(|specs|, i requires 0 <= i < |specs| => ReduceOne(specs[i], acc))
  }

  function EmitRow(plan: Plan, acc: Acc): Row {
    Assign(Assign(map[], Aliases(KeyColumns(plan)), acc.key), Outputs(plan.aggregates), Reduced(plan.aggregates, acc))
  }

  function EmitAll(plan: Plan, groups: Groups, order: seq<seq<Value>>): seq<Row>
    requires forall k | k in order :: k in groups
  {
    seq(|order|, i requires 0 <= i < |order| => EmitRow(plan, groups[order[i]]))
  }

  /** HAVING, ORDER BY, OFFSET and LIMIT on the merged rows. */
  function Finish(plan: Plan, rows: seq<Row>): seq<Row> {
    Window(SortRows(plan.orderBy, Keep(plan.having, rows)), plan.offset, plan.limit)
  }

  /** `out` is the merge of `partials`, with the groups taken in some order. */
  ghost predicate MergedBy(plan: Plan, partials: seq<seq<Row>>, out: seq<Row>) {
    var groups := MergeGroups(plan, partials);
    exists order :: Arranges(order, groups.Keys) && out == Finish(plan, EmitAll(plan, groups, order))
  }

  // ----- The loops -----

  method TakeRow(plan: Plan, acc0: Acc, row: Row) returns (acc: Acc)
    ensures acc == TakeAll(plan.aggregates, acc0, row)
  {
    acc := acc0;
    for s := 0 to |plan.aggregates|
      invariant acc == TakeAll(plan.aggregates[..s], acc0, row)
    {
      acc := Take(plan.aggregates[s], acc, row);
      assert plan.aggregates[..s + 1][..s] == plan.aggregates[..s];
    }
    assert plan.aggregates[..|plan.aggregates|] == plan.aggregates;
  }

  method Emit(plan: Plan, acc: Acc) returns (result: Row)
    ensures result == EmitRow(plan, acc)
  {
    var names := Aliases(KeyColumns(plan));
    result := map[];
    for i := 0 to |names|
      invariant result == Assign(map[], names[..i], acc.key)
    {
      if i < |acc.key| {
        result := result[names[i] := acc.key[i]];
      }
      assert names[..i + 1][..i] == names[..i];
    }
    assert names[..|names|] == names;
    ghost var keyed, outputs, values := result, Outputs(plan.aggregates), Reduced(plan.aggregates, acc);
    for i := 0 to |plan.aggregates|
      invariant result == Assign(keyed, outputs[..i], values)
    {
      result := result[plan.aggregates[i].output := ReduceOne(plan.aggregates[i], acc)];
      assert outputs[..i + 1][..i] == outputs[..i];
    }
    assert outputs[..|outputs|] == outputs;
  }

  method Collect(plan: Plan, partials: seq<seq<Row>>) returns (groups: Groups)
    ensures groups == MergeGroups(plan, partials)
  {
    groups := map[];
    for i := 0 to |partials|
      invariant groups == MergeGroups(plan, partials[..i])
    {
      var rows := partials[i];
      ghost var before := groups;
      for j := 0 to |rows|
        invariant groups == AbsorbRows(plan, before, rows[..j])
      {
        var key := MergeKey(plan, rows[j]);
        var acc := TakeRow(plan, At(groups, key), rows[j]);
        groups := groups[key := acc];
        assert rows[..j + 1][..j] == rows[..j];
      }
      assert rows[..|rows|] == rows;
      assert partials[..i + 1][..i] == partials[..i];
    }
    assert partials[..|partials|] == partials;
  }

  /** Emits the groups in whatever order the hash map yields them. */
  method EmitGroups(plan: Plan, groups: Groups) returns (out: seq<Row>, ghost order: seq<seq<Value>>)
    ensures Arranges(order, groups.Keys) && out == EmitAll(plan, groups, order)
  {
    var left := groups.Keys;
    order, out := [], [];
    while left != {}
      invariant left <= groups.Keys
      invariant Arranges(order, groups.Keys - left)
      invariant out == EmitAll(plan, groups, order)
      decreases left
    {
      var k :| k in left;
      var result := Emit(plan, groups[k]);
      ArrangesSnoc(order, groups.Keys - left, k);
      left := left - {k};
      assert groups.Keys - left == groups.Keys - (left + {k}) + {k};
      out, order := out + [result], order + [k];
    }
    assert groups.Keys - {} == groups.Keys;
  }

  lemma ArrangesSnoc<T(!new)>(list: seq<T>, elements: set<T>, x: T)
    requires Arranges(list, elements) && x !in elements
    ensures Arranges(list + [x], elements + {x})
  {
    forall y ensures y in list + [x] <==> y in elements + {x} {
      assert y in list + [x] <==> y in list || y == x;
    }
  }

  method MergePartials(plan: Plan, partials: seq<seq<Row>>) returns (out: seq<Row>)
    ensures plan.distinctOnly.None? ==> MergedBy(plan, partials, out)
    ensures plan.distinctOnly.Some? ==> DistinctBy(plan, plan.distinctOnly.value, partials, out)
  {
    if plan.distinctOnly.Some? {
      out := MergeDistinct(plan, plan.distinctOnly.value, partials);
      return;
    }
    var groups := Collect(plan, partials);
    ghost var order;
    out, order := EmitGroups(plan, groups);
    out := Retained(plan.having, out);
    out := SortRows(plan.orderBy, out);
    if plan.offset.Some? {
      out := if |out| > plan.offset.value then out[plan.offset.value..] else [];
    }
    if plan.limit.Some? && plan.limit.value < |out| {
      out := out[..plan.limit.value];
    }
    assert out == Finish(plan, EmitAll(plan, groups, order));
  }

  method Retained(pass: Row -> bool, rows: seq<Row>) returns (kept: seq<Row>)
    ensures kept == Keep(pass, rows)
  {
    kept := [];
    for i := 0 to |rows|
      invariant kept == Keep(pass, rows[..i])
    {
      if pass(rows[i]) {
        kept := kept + [rows[i]];
      }
      assert rows[..i + 1][..i] == rows[..i];
    }
    assert rows[..|rows|] == rows;
  }
}
