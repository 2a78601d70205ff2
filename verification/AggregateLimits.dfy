/** Where the merge of aggregates goes wrong, and exactly when. */
module AggregateLimits {
  import opened Wrappers
  import opened Json
  import opened AggregatePlan
  import opened AggregateCells
  import opened AggregateMerge
  import opened AggregateExact
  import opened Moments

  /** Grouping keys and the columns that carry them have names of their own. */
  ghost predicate DistinctKeys(plan: Plan) {
    && (forall i, j | 0 <= i < j < |plan.groupKeys| :: plan.groupKeys[i] != plan.groupKeys[j])
    && (forall i, j | 0 <= i < j < |KeyColumns(plan)| :: KeyColumns(plan)[i].alias != KeyColumns(plan)[j].alias)
  }

  /** The column of a partial row in which the gateway looks for `key`. */
  function LookedUp(plan: Plan, key: string): Option<string> {
    if key in PartialNames(plan) then Some(key)
    else if LastSegment(key) in PartialNames(plan) then Some(LastSegment(key))
    else None
  }

  predicate Carries(plan: Plan, name: string, key: string) {
    exists p | p in KeyColumns(plan) :: p.alias == name && p.expr == key
  }

  predicate LooksRight(plan: Plan, key: string) {
    LookedUp(plan, key).Some? && Carries(plan, LookedUp(plan, key).value, key)
  }

  /** The gateway reads the j-th grouping key off every partial row there can be. */
  ghost predicate AlwaysRead(plan: Plan, j: nat)
    requires j < |plan.groupKeys|
  {
    forall k, row | ShowsKey(plan, k, row) && row.Keys == PartialNames(plan) ::
      KeyValue(row, plan.groupKeys[j]) == k[j]
  }

  /** A row and key tuple that tell the j-th grouping key from everything else. */
  function Telling(plan: Plan, j: nat): Row
    requires j < |plan.groupKeys|
  {
    map x | x in PartialNames(plan) :: Text(if Carries(plan, x, plan.groupKeys[j]) then "this" else "other")
  }

  function TellingKey(plan: Plan, j: nat): seq<Value> {
    seq(|plan.groupKeys|, i => Text(if i == j then "this" else "other"))
  }

  lemma TellingShows(plan: Plan, j: nat)
    requires j < |plan.groupKeys| && DistinctKeys(plan)
    ensures ShowsKey(plan, TellingKey(plan, j), Telling(plan, j))
  {
    var k, row, key := TellingKey(plan, j), Telling(plan, j), plan.groupKeys[j];
    forall p, i | p in KeyColumns(plan) && 0 <= i < |k| && plan.groupKeys[i] == p.expr
      ensures p.alias in row && row[p.alias] == k[i]
    {
      assert p.alias in KeyNames(plan);
      if Carries(plan, p.alias, key) {
        var q :| q in KeyColumns(plan) && q.alias == p.alias && q.expr == key;
        assert q == p;
        assert i == j;
      } else {
        assert i != j;
      }
    }
  }

  /** Each grouping key is read back if and only if the first column tried is one that carries it. */
  lemma KeyReadExactly(plan: Plan, j: nat)
    requires j < |plan.groupKeys| && DistinctKeys(plan)
    ensures AlwaysRead(plan, j) <==> LooksRight(plan, plan.groupKeys[j])
  {
    var key := plan.groupKeys[j];
    if LooksRight(plan, key) {
      var p :| p in KeyColumns(plan) && p.alias == LookedUp(plan, key).value && p.expr == key;
    } else {
      TellingShows(plan, j);
      assert KeyValue(Telling(plan, j), key) != TellingKey(plan, j)[j];
    }
  }

  /** The emitted row shows every key tuple there can be. */
  ghost predicate AlwaysShown(plan: Plan) {
    forall k, acc: Acc | |k| == |plan.groupKeys| <= |acc.key| && acc.key[..|k|] == k ::
      ShowsKey(plan, k, EmitRow(plan, acc))
  }

  /**
   * Once every key is read, the result shows each under its own name if and only if the columns
   * stand in the order of the GROUP BY.
   */
  lemma KeyShownExactly(plan: Plan)
    requires WellNamed(plan) && DistinctKeys(plan) && |KeyColumns(plan)| == |plan.groupKeys|
    requires forall p | p in KeyColumns(plan) :: p.expr in plan.groupKeys
    ensures AlwaysShown(plan) <==>
            forall m | 0 <= m < |plan.groupKeys| :: KeyColumns(plan)[m].expr == plan.groupKeys[m]
  {
    if AlwaysShown(plan) {
      var k := Numbered(|plan.groupKeys|);
      var acc := EmptyAcc(k);
      assert acc.key[..|k|] == k;
      EmitShows(plan, acc);
      forall m | 0 <= m < |plan.groupKeys| ensures KeyColumns(plan)[m].expr == plan.groupKeys[m] {
        assert KeyColumns(plan)[m] in KeyColumns(plan);
        ShownIsOrdered(plan, k, EmitRow(plan, acc), m);
      }
    }
    if forall m | 0 <= m < |plan.groupKeys| :: KeyColumns(plan)[m].expr == plan.groupKeys[m] {
      forall k, acc: Acc | |k| == |plan.groupKeys| <= |acc.key| && acc.key[..|k|] == k
        ensures ShowsKey(plan, k, EmitRow(plan, acc))
      {
        OrderedIsShown(plan, k, acc);
      }
    }
  }

  /** A key tuple whose values all differ. */
  function Numbered(n: nat): seq<Value> {
    seq(n, i => Number(i as real))
  }

  lemma ShownIsOrdered(plan: Plan, k: seq<Value>, row: Row, m: nat)
    requires m < |KeyColumns(plan)| && |KeyColumns(plan)| == |plan.groupKeys| && ShowsKey(plan, k, row)
    requires forall i, j | 0 <= i < j < |k| :: k[i] != k[j]
    requires var p := KeyColumns(plan)[m]; p.expr in plan.groupKeys && p.alias in row && row[p.alias] == k[m]
    ensures KeyColumns(plan)[m].expr == plan.groupKeys[m]
  {
    var p := KeyColumns(plan)[m];
    assert p in KeyColumns(plan);
    var j :| 0 <= j < |plan.groupKeys| && plan.groupKeys[j] == p.expr;
    assert row[p.alias] == k[j];
  }

  lemma OrderedIsShown(plan: Plan, k: seq<Value>, acc: Acc)
    requires WellNamed(plan) && DistinctKeys(plan) && |KeyColumns(plan)| == |plan.groupKeys|
    requires forall m | 0 <= m < |plan.groupKeys| :: KeyColumns(plan)[m].expr == plan.groupKeys[m]
    requires |k| == |plan.groupKeys| <= |acc.key| && acc.key[..|k|] == k
    ensures ShowsKey(plan, k, EmitRow(plan, acc))
  {
    EmitShows(plan, acc);
    forall p, j | p in KeyColumns(plan) && 0 <= j < |k| && plan.groupKeys[j] == p.expr
      ensures p.alias in EmitRow(plan, acc) && EmitRow(plan, acc)[p.alias] == k[j]
    {
      var m :| 0 <= m < |plan.groupKeys| && KeyColumns(plan)[m] == p;
      assert m == j && acc.key[..|k|][m] == acc.key[m];
    }
  }

  /** A key whose own name and last segment are no column of the partial query is read as NULL off every row. */
  lemma AliasLosesKey(plan: Plan, j: nat, row: Row)
    requires j < |plan.groupKeys| && LookedUp(plan, plan.groupKeys[j]).None? && row.Keys == PartialNames(plan)
    ensures MergeKey(plan, row)[j] == Null
  {
  }

  /** When it is the only grouping key, all groups are merged into one. */
  lemma AliasMergesGroups(plan: Plan, alias: string, a: Row, b: Row)
    requires |plan.groupKeys| == 1 && plan.plain == [Projection(plan.groupKeys[0], alias)]
    requires LookedUp(plan, plan.groupKeys[0]).None? && a.Keys == PartialNames(plan) && b.Keys == PartialNames(plan)
    ensures MergeKey(plan, a) == MergeKey(plan, b) == [Null, Null]
  {
  }

  /** Such a plan: the key is aliased and no aggregate is named like it. */
  lemma AliasIsNotLookedUp(plan: Plan, alias: string)
    requires |plan.groupKeys| == 1 && plan.plain == [Projection(plan.groupKeys[0], alias)]
    requires var key := plan.groupKeys[0];
      && alias != key && alias != LastSegment(key)
      && forall p | p in AggregateItems(plan.aggregates) :: p.name != key && p.name != LastSegment(key)
    ensures LookedUp(plan, plan.groupKeys[0]).None?
  {
    var key := plan.groupKeys[0];
    assert SameName(plan.plain[0].expr, key) && Projects(plan.plain, key);
    assert BareKeys(plan.groupKeys[..0], plan.plain) == [];
    assert BareKeys(plan.groupKeys, plan.plain) == [];
    assert KeyColumns(plan) == plan.plain;
  }

  /** So a single grouping key that is aliased merges all groups into one, whatever is aggregated. */
  lemma AliasedKeyIsLost(plan: Plan, alias: string, a: Row, b: Row)
    requires |plan.groupKeys| == 1 && plan.plain == [Projection(plan.groupKeys[0], alias)]
    requires var key := plan.groupKeys[0];
      && alias != key && alias != LastSegment(key)
      && forall p | p in AggregateItems(plan.aggregates) :: p.name != key && p.name != LastSegment(key)
    requires a.Keys == PartialNames(plan) && b.Keys == PartialNames(plan)
    ensures MergeKey(plan, a) == MergeKey(plan, b) == [Null, Null]
  {
    AliasIsNotLookedUp(plan, alias);
    AliasMergesGroups(plan, alias, a, b);
  }

  // ----- Shared output names -----

  /** What an aggregate adds to the count called `o`. */
  function CountGain(spec: Spec, o: string, row: Row): real {
    if spec.output != o then 0.0
    else if spec.kind.Count? then NumberIn(row, o).GetOr(0.0)
    else if spec.kind.Avg? then NumberIn(row, Helper("__c_", spec)).GetOr(0.0)
    else if spec.kind.Variance? then
      var n := NumberIn(row, Helper("__n_", spec)).GetOr(0.0);
      if n > 0.0 && NumberIn(row, Helper("__m_", spec)).Some? then n else 0.0
    else 0.0
  }

  /** What an aggregate adds to the sum called `o`; a variance keeps two sums of its own. */
  function SumGain(spec: Spec, o: string, row: Row): real {
    if spec.kind.Variance? then
      var n := NumberIn(row, Helper("__n_", spec)).GetOr(0.0);
      var mean := NumberIn(row, Helper("__m_", spec));
      if n <= 0.0 || mean.None? then 0.0
      else if o == Helper("__sum_", spec) then mean.value * n
      else if o == Helper("__q_", spec) then NumberIn(row, o).GetOr(0.0)
      else 0.0
    else if spec.output != o then 0.0
    else if spec.kind.Sum? then NumberIn(row, o).GetOr(0.0)
    else if spec.kind.Avg? then NumberIn(row, Helper("__s_", spec)).GetOr(0.0)
    else 0.0
  }

  function CountGains(specs: seq<Spec>, o: string, row: Row): real {
    if specs == [] then 0.0
    else CountGains(specs[..|specs| - 1], o, row) + CountGain(specs[|specs| - 1], o, row)
  }

  function SumGains(specs: seq<Spec>, o: string, row: Row): real {
    if specs == [] then 0.0 else SumGains(specs[..|specs| - 1], o, row) + SumGain(specs[|specs| - 1], o, row)
  }

  function CountAt(acc: Acc, o: string): real {
    Get(acc.counts, o).GetOr(0.0)
  }

  function SumAt(acc: Acc, o: string): real {
    Get(acc.sums, o).GetOr(0.0)
  }

  ghost predicate Gains(spec: Spec, acc: Acc, row: Row, o: string) {
    && CountAt(Take(spec, acc, row), o) == CountAt(acc, o) + CountGain(spec, o, row)
    && SumAt(Take(spec, acc, row), o) == SumAt(acc, o) + SumGain(spec, o, row)
  }

  lemma TakeGainsNumbers(spec: Spec, acc: Acc, row: Row, o: string)
    requires spec.kind.Count? || spec.kind.Sum? || spec.kind.Avg?
    ensures Gains(spec, acc, row, o)
  {
  }

  lemma TwoAdds(m: map<string, real>, a: string, x: real, b: string, y: real, o: string)
    requires a != b
    ensures Get(Add(Add(m, a, x), b, y), o).GetOr(0.0) ==
            Get(m, o).GetOr(0.0) + if o == a then x else if o == b then y else 0.0
  {
  }

  lemma TakeGainsMoments(spec: Spec, acc: Acc, row: Row, o: string)
    requires spec.kind.Variance?
    ensures Gains(spec, acc, row, o)
  {
    HelpersDiffer(spec);
    var n := NumberIn(row, Helper("__n_", spec)).GetOr(0.0);
    var mean := NumberIn(row, Helper("__m_", spec));
    if n > 0.0 && mean.Some? {
      TwoAdds(acc.sums, Helper("__sum_", spec), mean.value * n,
              Helper("__q_", spec), NumberIn(row, Helper("__q_", spec)).GetOr(0.0), o);
    }
  }

  lemma TakeGainsValues(spec: Spec, acc: Acc, row: Row, o: string)
    requires spec.kind.CountDistinct? || spec.kind.Min? || spec.kind.Max?
    ensures Gains(spec, acc, row, o)
  {
  }

  lemma TakeGainsFlags(spec: Spec, acc: Acc, row: Row, o: string)
    requires spec.kind.BoolAnd? || spec.kind.BoolOr?
    ensures Gains(spec, acc, row, o)
  {
  }

  lemma TakeGains(spec: Spec, acc: Acc, row: Row, o: string)
    ensures Gains(spec, acc, row, o)
  {
    if spec.kind.Variance? {
      TakeGainsMoments(spec, acc, row, o);
    } else if spec.kind.Count? || spec.kind.Sum? || spec.kind.Avg? {
      TakeGainsNumbers(spec, acc, row, o);
    } else if spec.kind.BoolAnd? || spec.kind.BoolOr? {
      TakeGainsFlags(spec, acc, row, o);
    } else {
      TakeGainsValues(spec, acc, row, o);
    }
  }

  /** A partial row adds to a count and to a sum what each aggregate in turn reads off it, whatever their names. */
  lemma {:induction false} TakeAllGains(specs: seq<Spec>, acc: Acc, row: Row, o: string)
    ensures CountAt(TakeAll(specs, acc, row), o) == CountAt(acc, o) + CountGains(specs, o, row)
    ensures SumAt(TakeAll(specs, acc, row), o) == SumAt(acc, o) + SumGains(specs, o, row)
  {
    if specs != [] {
      var init, last := specs[..|specs| - 1], specs[|specs| - 1];
      TakeAllGains(init, acc, row, o);
      TakeGains(last, TakeAll(init, acc, row), row, o);
    }
  }

  /** How many aggregates of one kind have the output name `o`. */
  function Named(specs: seq<Spec>, kind: Kind, o: string): nat {
    if specs == [] then 0
    else
      var last := specs[|specs| - 1];
      Named(specs[..|specs| - 1], kind, o) + if last.output == o && last.kind == kind then 1 else 0
  }

  /** No average or variance adds to a count or sum called `o`. */
  ghost predicate NoMeans(specs: seq<Spec>, o: string) {
    forall spec | spec in specs :: o in Slots(spec) ==> !spec.kind.Avg? && !spec.kind.Variance?
  }

  /** `n` added `m` times. */
  function Times(m: nat, n: real): real {
    if m == 0 then 0.0 else Times(m - 1, n) + n
  }

  lemma {:induction false} TimesIsProduct(m: nat, n: real)
    ensures Times(m, n) == m as real * n
  {
    if m > 0 {
      TimesIsProduct(m - 1, n);
      OneMore((m - 1) as real, n);
    }
  }

  lemma {:induction false} TimesSign(m: nat, n: real)
    ensures n == 0.0 ==> Times(m, n) == 0.0
    ensures n > 0.0 && m > 0 ==> Times(m, n) > 0.0
    ensures n < 0.0 && m > 0 ==> Times(m, n) < 0.0
  {
    if m > 0 {
      TimesSign(m - 1, n);
    }
  }

  lemma {:induction false} SharedCounts(specs: seq<Spec>, o: string, row: Row, n: real)
    requires NumberIn(row, o) == Some(n) && NoMeans(specs, o)
    ensures CountGains(specs, o, row) == Times(Named(specs, Count, o), n)
  {
    if specs != [] {
      assert specs[|specs| - 1] in specs;
      SharedCounts(specs[..|specs| - 1], o, row, n);
    }
  }

  lemma {:induction false} SharedSums(specs: seq<Spec>, o: string, row: Row, n: real)
    requires NumberIn(row, o) == Some(n) && NoMeans(specs, o)
    ensures SumGains(specs, o, row) == Times(Named(specs, Sum, o), n)
  {
    if specs != [] {
      assert specs[|specs| - 1] in specs;
      SharedSums(specs[..|specs| - 1], o, row, n);
    }
  }

  /** Adding `n` once for each of `m` aggregates is adding it once if and only if there is one, or `n` is zero. */
  lemma AddedExactly(m: nat, n: real)
    requires m >= 1
    ensures Times(m, n) == m as real * n
    ensures Times(m, n) == n <==> m == 1 || n == 0.0
  {
    TimesIsProduct(m, n);
    TimesSign(m - 1, n);
  }

  /**
   * Counts under one output name each add the partial count that stands there: the count grows by
   * that number if and only if it is the only one of that name, or the number is zero.
   */
  lemma SharedCountExactly(specs: seq<Spec>, o: string, row: Row, n: real)
    requires NumberIn(row, o) == Some(n) && NoMeans(specs, o) && Named(specs, Count, o) >= 1
    ensures CountGains(specs, o, row) == Named(specs, Count, o) as real * n
    ensures CountGains(specs, o, row) == n <==> Named(specs, Count, o) == 1 || n == 0.0
  {
    SharedCounts(specs, o, row, n);
    AddedExactly(Named(specs, Count, o), n);
  }

  /** The same for sums. */
  lemma SharedSumExactly(specs: seq<Spec>, o: string, row: Row, n: real)
    requires NumberIn(row, o) == Some(n) && NoMeans(specs, o) && Named(specs, Sum, o) >= 1
    ensures SumGains(specs, o, row) == Named(specs, Sum, o) as real * n
    ensures SumGains(specs, o, row) == n <==> Named(specs, Sum, o) == 1 || n == 0.0
  {
    SharedSums(specs, o, row, n);
    AddedExactly(Named(specs, Sum, o), n);
  }
}
