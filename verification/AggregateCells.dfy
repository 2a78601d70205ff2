/** The accumulator of one group, and why folding partial aggregates into it loses nothing. */
module AggregateCells {
  import opened Wrappers
  import opened Json
  import opened SqlOrder
  import opened AggregatePlan
  import opened Moments

  /** `Acc`: the running state of one group during the reduce phase. */
  datatype Acc = Acc(
    key: seq<Value>,
    counts: map<string, real>,
    sums: map<string, real>,
    mins: map<string, Value>,
    maxes: map<string, Value>,
    boolsAnd: map<string, bool>,
    boolsOr: map<string, bool>,
    distinct: map<string, seq<Value>>)

  function EmptyAcc(key: seq<Value>): Acc {
    Acc(key, map[], map[], map[], map[], map[], map[], map[])
  }

  function Get<T>(m: map<string, T>, name: string): Option<T> {
    if name in m then Some(m[name]) else None
  }

  function Add(m: map<string, real>, name: string, n: real): map<string, real> {
    m[name := Get(m, name).GetOr(0.0) + n]
  }

  function NumberIn(row: Row, name: string): Option<real> {
    if name in row then JsonNum(row[name]) else None
  }

  function AddFrom(m: map<string, real>, name: string, row: Row, column: string): map<string, real> {
    var n := NumberIn(row, column);
    if n.Some? then Add(m, name, n.value) else m
  }

  /** Folds one partial row into the accumulator for one aggregate. */
  function Take(spec: Spec, acc: Acc, row: Row): Acc {
    var o := spec.output;
    match spec.kind
    case Count => acc.(counts := AddFrom(acc.counts, o, row, o))
    case Sum => acc.(sums := AddFrom(acc.sums, o, row, o))
    case Avg =>
      acc.(counts := AddFrom(acc.counts, o, row, Helper("__c_", spec)),
           sums := AddFrom(acc.sums, o, row, Helper("__s_", spec)))
    case Variance(_) =>
      var n := NumberIn(row, Helper("__n_", spec)).GetOr(0.0);
      var mean := NumberIn(row, Helper("__m_", spec));
      var squares := NumberIn(row, Helper("__q_", spec)).GetOr(0.0);
      if n > 0.0 && mean.Some? then
        acc.(sums := Add(Add(acc.sums, Helper("__sum_", spec), mean.value * n), Helper("__q_", spec), squares),
             counts := Add(acc.counts, o, n))
      else acc
    case CountDistinct =>
      if o in row && row[o].Array?
      then acc.(distinct := acc.distinct[o := Get(acc.distinct, o).GetOr([]) + row[o].items])
      else acc
    case Min => acc.(mins := KeepLeast(acc.mins, o, row))
    case Max => acc.(maxes := KeepGreatest(acc.maxes, o, row))
    case BoolAnd => acc.(boolsAnd := FoldFlag(acc.boolsAnd, o, row, true))
    case BoolOr => acc.(boolsOr := FoldFlag(acc.boolsOr, o, row, false))
  }

  function KeepLeast(mins: map<string, Value>, o: string, row: Row): map<string, Value> {
    if o !in row || row[o] == Null || (o in mins && JsonLe(mins[o], row[o])) then mins else mins[o := row[o]]
  }

  function KeepGreatest(maxes: map<string, Value>, o: string, row: Row): map<string, Value> {
    if o !in row || row[o] == Null || (o in maxes && JsonLe(row[o], maxes[o])) then maxes else maxes[o := row[o]]
  }

  /** Folds a partial boolean in: by `and` starting from true, or by `or` starting from false. */
  function FoldFlag(flags: map<string, bool>, o: string, row: Row, unit: bool): map<string, bool> {
    var flag := if o in row then AsBool(row[o]) else None;
    if flag.None? then flags
    else if o !in flags then flags[o := flag.value]
    else flags[o := if unit then flags[o] && flag.value else flags[o] || flag.value]
  }

  function Texts(vals: seq<Value>): set<string> {
    set v | v in vals :: ValueText(v)
  }

  /** `reduce_one`: the final value of one aggregate. */
  function ReduceOne(spec: Spec, acc: Acc): Value {
    var o := spec.output;
    match spec.kind
    case Count => Number(Get(acc.counts, o).GetOr(0.0).Floor as real)
    case Sum => if o in acc.sums then Number(acc.sums[o]) else Null
    case Avg =>
      var count := Get(acc.counts, o).GetOr(0.0);
      if count > 0.0 then Number(Get(acc.sums, o).GetOr(0.0) / count) else Null
    case Min => Get(acc.mins, o).GetOr(Null)
    case Max => Get(acc.maxes, o).GetOr(Null)
    case BoolAnd => if o in acc.boolsAnd then Flag(acc.boolsAnd[o]) else Null
    case BoolOr => if o in acc.boolsOr then Flag(acc.boolsOr[o]) else Null
    case CountDistinct => Number(|Texts(Get(acc.distinct, o).GetOr([]))| as real)
    case Variance(sample) =>
      NumberOrNull(VarianceOf(Get(acc.counts, o).GetOr(0.0), Get(acc.sums, Helper("__sum_", spec)).GetOr(0.0),
                              Get(acc.sums, Helper("__q_", spec)).GetOr(0.0), sample))
  }

  // ----- What the accumulator holds -----

  /** The accumulator summarises a group whose argument cells are `vals`. */
  ghost predicate CellOk(t: SqlType, spec: Spec, vals: seq<Value>, acc: Acc) {
    var present, o := NonNull(vals), spec.output;
    match spec.kind
    case Count => Get(acc.counts, o).GetOr(0.0) == |present| as real
    case Sum => Get(acc.sums, o) == SqlSum(present)
    case Avg => Get(acc.counts, o).GetOr(0.0) == |present| as real && Get(acc.sums, o).GetOr(0.0) == Total(present)
    case Variance(_) => MomentsHeld(spec, acc, present)
    case CountDistinct => Contents(Get(acc.distinct, o).GetOr([])) == Contents(vals)
    case Min => (o in acc.mins <==> present != []) && LeastOk(t, Get(acc.mins, o).GetOr(Null), present)
    case Max => (o in acc.maxes <==> present != []) && GreatestOk(t, Get(acc.maxes, o).GetOr(Null), present)
    case BoolAnd => FlagOk(Get(acc.boolsAnd, o), present, true)
    case BoolOr => FlagOk(Get(acc.boolsOr, o), present, false)
  }

  /** The partial row carries what a provider computes for `spec` over cells `vals`. */
  ghost predicate SpecAnswered(t: SqlType, spec: Spec, vals: seq<Value>, row: Row) {
    forall p | p in SpecItems(spec) :: p.name in row && ItemOk(t, p.item, vals, row[p.name])
  }

  lemma EmptyCell(t: SqlType, spec: Spec, key: seq<Value>)
    ensures CellOk(t, spec, [], EmptyAcc(key))
  {
  }

  lemma {:induction false} NonNullConcat(a: seq<Value>, b: seq<Value>)
    ensures NonNull(a + b) == NonNull(a) + NonNull(b)
  {
    if b == [] {
      assert a + b == a;
    } else {
      assert (a + b)[..|a + b| - 1] == a + b[..|b| - 1];
      NonNullConcat(a, b[..|b| - 1]);
    }
  }

  lemma {:induction false} NonNullMembers(vals: seq<Value>)
    ensures forall v :: v in NonNull(vals) <==> v in vals && v != Null
  {
    if vals != [] {
      NonNullMembers(vals[..|vals| - 1]);
      assert vals == vals[..|vals| - 1] + [vals[|vals| - 1]];
    }
  }

  lemma SumsConcat(a: seq<Value>, b: seq<Value>)
    ensures Total(a + b) == Total(a) + Total(b)
    ensures Squares(a + b) == Squares(a) + Squares(b)
  {
    assert Nums(a + b) == Nums(a) + Nums(b);
    SumConcat(Nums(a), Nums(b), ITSELF);
    SumConcat(Nums(a), Nums(b), SQUARED);
  }

  lemma HelpersDiffer(spec: Spec)
    ensures Helper("__sum_", spec) != Helper("__q_", spec)
  {
    assert |Helper("__sum_", spec)| != |Helper("__q_", spec)|;
  }

  lemma TakeCounts(t: SqlType, spec: Spec, vals: seq<Value>, more: seq<Value>, acc: Acc, row: Row)
    requires spec.kind.Count?
    requires CellOk(t, spec, vals, acc) && SpecAnswered(t, spec, more, row)
    ensures CellOk(t, spec, vals + more, Take(spec, acc, row))
  {
    OwnAnswer(t, spec, more, row);
    NonNullConcat(vals, more);
  }

  lemma TakeSums(t: SqlType, spec: Spec, vals: seq<Value>, more: seq<Value>, acc: Acc, row: Row)
    requires spec.kind.Sum?
    requires CellOk(t, spec, vals, acc) && SpecAnswered(t, spec, more, row)
    ensures CellOk(t, spec, vals + more, Take(spec, acc, row))
  {
    OwnAnswer(t, spec, more, row);
    NonNullConcat(vals, more);
    SqlSumConcat(NonNull(vals), NonNull(more));
    AddFromGives(acc.sums, spec.output, row, spec.output);
  }

  lemma SqlSumConcat(a: seq<Value>, b: seq<Value>)
    ensures SqlSum(a + b) == if SqlSum(b).None? then SqlSum(a) else Some(SqlSum(a).GetOr(0.0) + SqlSum(b).value)
  {
    SumsConcat(a, b);
    if b == [] {
      assert a + b == a;
    }
  }

  lemma AddFromGives(m: map<string, real>, name: string, row: Row, column: string)
    ensures var n := NumberIn(row, column);
      Get(AddFrom(m, name, row, column), name) ==
        if n.None? then Get(m, name) else Some(Get(m, name).GetOr(0.0) + n.value)
  {
  }

  /** What `Take` reads for an average. */
  lemma AverageAnswer(t: SqlType, spec: Spec, vals: seq<Value>, row: Row)
    requires spec.kind.Avg? && SpecAnswered(t, spec, vals, row)
    ensures NumberIn(row, Helper("__c_", spec)) == Some(|NonNull(vals)| as real)
    ensures NumberIn(row, Helper("__s_", spec)).GetOr(0.0) == Total(NonNull(vals))
  {
    var items := SpecItems(spec);
    assert items[0] in items && items[1] in items;
  }

  lemma TakeAverages(t: SqlType, spec: Spec, vals: seq<Value>, more: seq<Value>, acc: Acc, row: Row)
    requires spec.kind.Avg?
    requires CellOk(t, spec, vals, acc) && SpecAnswered(t, spec, more, row)
    ensures CellOk(t, spec, vals + more, Take(spec, acc, row))
  {
    AverageAnswer(t, spec, more, row);
    NonNullConcat(vals, more);
    SumsConcat(NonNull(vals), NonNull(more));
  }

  /** What `Take` reads for a variance: `mean` is the total divided by the count. */
  ghost predicate MomentsSent(spec: Spec, row: Row, mean: real, present: seq<Value>) {
    && NumberIn(row, Helper("__n_", spec)) == Some(|present| as real)
    && NumberIn(row, Helper("__m_", spec)) == Some(mean)
    && NumberIn(row, Helper("__q_", spec)) == Some(Squares(present))
  }

  lemma VarianceAnswer(t: SqlType, spec: Spec, vals: seq<Value>, row: Row)
    requires spec.kind.Variance? && SpecAnswered(t, spec, vals, row) && NonNull(vals) != []
    ensures MomentsSent(spec, row, Mean(Nums(NonNull(vals))), NonNull(vals))
  {
    var items := SpecItems(spec);
    assert items[0] in items && items[1] in items && items[2] in items;
  }

  /** A mean times its count is the total. */
  lemma MeanOfValues(present: seq<Value>)
    requires present != []
    ensures Mean(Nums(present)) * |present| as real == Total(present)
  {
    MeanTimesCount(Nums(present));
  }

  lemma NoVarianceAnswer(t: SqlType, spec: Spec, vals: seq<Value>, acc: Acc, row: Row)
    requires spec.kind.Variance? && SpecAnswered(t, spec, vals, row) && NonNull(vals) == []
    ensures Take(spec, acc, row) == acc
  {
    var items := SpecItems(spec);
    assert items[0] in items;
  }

  /** The running moments of a group. */
  ghost predicate MomentsOk(spec: Spec, acc: Acc, n: real, sum: real, squares: real) {
    && Get(acc.counts, spec.output).GetOr(0.0) == n
    && Get(acc.sums, Helper("__sum_", spec)).GetOr(0.0) == sum
    && Get(acc.sums, Helper("__q_", spec)).GetOr(0.0) == squares
  }

  ghost predicate MomentsHeld(spec: Spec, acc: Acc, present: seq<Value>) {
    MomentsOk(spec, acc, |present| as real, Total(present), Squares(present))
  }

  lemma TakeMoments(spec: Spec, acc: Acc, row: Row, mean: real, n: real, sum: real, squares: real,
                    n0: real, sum0: real, squares0: real)
    requires spec.kind.Variance? && n > 0.0 && mean * n == sum && MomentsOk(spec, acc, n0, sum0, squares0)
    requires NumberIn(row, Helper("__n_", spec)) == Some(n) && NumberIn(row, Helper("__m_", spec)) == Some(mean)
    requires NumberIn(row, Helper("__q_", spec)) == Some(squares)
    ensures MomentsOk(spec, Take(spec, acc, row), n0 + n, sum0 + sum, squares0 + squares)
  {
    HelpersDiffer(spec);
  }

  /** The moments of two groups add up to those of both together. */
  lemma MomentsOfBoth(spec: Spec, acc: Acc, held: seq<Value>, present: seq<Value>)
    requires MomentsOk(spec, acc, |held| as real + |present| as real, Total(held) + Total(present),
                       Squares(held) + Squares(present))
    ensures MomentsHeld(spec, acc, held + present)
  {
    SumsConcat(held, present);
  }

  lemma ExtendMoments(spec: Spec, acc: Acc, row: Row, mean: real, held: seq<Value>, present: seq<Value>)
    requires spec.kind.Variance? && present != [] && mean * |present| as real == Total(present)
    requires MomentsHeld(spec, acc, held) && MomentsSent(spec, row, mean, present)
    ensures MomentsHeld(spec, Take(spec, acc, row), held + present)
  {
    TakeMoments(spec, acc, row, mean, |present| as real, Total(present), Squares(present),
                |held| as real, Total(held), Squares(held));
    MomentsOfBoth(spec, Take(spec, acc, row), held, present);
  }

  lemma ExtendSent(spec: Spec, acc: Acc, row: Row, held: seq<Value>, present: seq<Value>)
    requires spec.kind.Variance? && present != []
    requires MomentsHeld(spec, acc, held) && MomentsSent(spec, row, Mean(Nums(present)), present)
    ensures MomentsHeld(spec, Take(spec, acc, row), held + present)
  {
    MeanOfValues(present);
    ExtendMoments(spec, acc, row, Mean(Nums(present)), held, present);
  }

  lemma MomentsCell(t: SqlType, spec: Spec, vals: seq<Value>, more: seq<Value>, acc: Acc)
    requires spec.kind.Variance? && MomentsHeld(spec, acc, NonNull(vals) + NonNull(more))
    ensures CellOk(t, spec, vals + more, acc)
  {
    NonNullConcat(vals, more);
  }

  lemma TakeVariance(t: SqlType, spec: Spec, vals: seq<Value>, more: seq<Value>, acc: Acc, row: Row)
    requires spec.kind.Variance?
    requires CellOk(t, spec, vals, acc) && SpecAnswered(t, spec, more, row)
    ensures CellOk(t, spec, vals + more, Take(spec, acc, row))
  {
    if NonNull(more) == [] {
      NoVarianceAnswer(t, spec, more, acc, row);
      assert NonNull(vals) + NonNull(more) == NonNull(vals);
    } else {
      VarianceAnswer(t, spec, more, row);
      ExtendSent(spec, acc, row, NonNull(vals), NonNull(more));
    }
    MomentsCell(t, spec, vals, more, Take(spec, acc, row));
  }

  lemma TakeDistinct(t: SqlType, spec: Spec, vals: seq<Value>, more: seq<Value>, acc: Acc, row: Row)
    requires spec.kind.CountDistinct?
    requires CellOk(t, spec, vals, acc) && SpecAnswered(t, spec, more, row)
    ensures CellOk(t, spec, vals + more, Take(spec, acc, row))
  {
    var items := SpecItems(spec);
    assert items[0] in items;
    assert Contents(vals + more) == Contents(vals) + Contents(more);
    if more != [] {
      var held, sent := Get(acc.distinct, spec.output).GetOr([]), row[spec.output].items;
      assert Contents(held + sent) == Contents(held) + Contents(sent);
    }
  }

  /** The smaller of two least values, as the gateway sees it, is the least of both sequences. */
  lemma LeastOfBoth(t: SqlType, a: seq<Value>, b: seq<Value>, x: Value, y: Value)
    requires Agrees(t, a + b) && IsLeast(t, x, a) && IsLeast(t, y, b)
    ensures IsLeast(t, if JsonLe(x, y) then x else y, a + b)
  {
    JsonLeTotal(x, y);
    var z := if JsonLe(x, y) then x else y;
    assert x in a + b && y in a + b && SqlLe(t, z, x) && SqlLe(t, z, y) by {
      SqlReflexive(t, z);
    }
    forall w | w in a + b ensures SqlLe(t, z, w) {
      SqlTransitive(t, z, if w in a then x else y, w);
    }
  }

  lemma GreatestOfBoth(t: SqlType, a: seq<Value>, b: seq<Value>, x: Value, y: Value)
    requires Agrees(t, a + b) && IsGreatest(t, x, a) && IsGreatest(t, y, b)
    ensures IsGreatest(t, if JsonLe(y, x) then x else y, a + b)
  {
    JsonLeTotal(x, y);
    var z := if JsonLe(y, x) then x else y;
    assert x in a + b && y in a + b && SqlLe(t, x, z) && SqlLe(t, y, z) by {
      SqlReflexive(t, z);
    }
    forall w | w in a + b ensures SqlLe(t, w, z) {
      SqlTransitive(t, w, if w in a then x else y, z);
    }
  }

  lemma KeepLeastExtends(t: SqlType, mins: map<string, Value>, o: string, row: Row, a: seq<Value>, b: seq<Value>)
    requires Agrees(t, a + b) && Null !in a + b && o in row && (o in mins <==> a != [])
    requires LeastOk(t, Get(mins, o).GetOr(Null), a) && LeastOk(t, row[o], b)
    ensures o in KeepLeast(mins, o, row) <==> a + b != []
    ensures LeastOk(t, Get(KeepLeast(mins, o, row), o).GetOr(Null), a + b)
  {
    if a != [] && b != [] {
      assert mins[o] in a + b && row[o] in a + b;
      LeastOfBoth(t, a, b, mins[o], row[o]);
    } else {
      assert a + b == if a == [] then b else a;
    }
  }

  lemma KeepGreatestExtends(t: SqlType, maxes: map<string, Value>, o: string, row: Row, a: seq<Value>, b: seq<Value>)
    requires Agrees(t, a + b) && Null !in a + b && o in row && (o in maxes <==> a != [])
    requires GreatestOk(t, Get(maxes, o).GetOr(Null), a) && GreatestOk(t, row[o], b)
    ensures o in KeepGreatest(maxes, o, row) <==> a + b != []
    ensures GreatestOk(t, Get(KeepGreatest(maxes, o, row), o).GetOr(Null), a + b)
  {
    if a != [] && b != [] {
      assert maxes[o] in a + b && row[o] in a + b;
      GreatestOfBoth(t, a, b, maxes[o], row[o]);
    } else {
      assert a + b == if a == [] then b else a;
    }
  }

  /** What `Take` reads for an aggregate that rides on its own output column. */
  lemma OwnAnswer(t: SqlType, spec: Spec, vals: seq<Value>, row: Row)
    requires !spec.kind.Avg? && !spec.kind.Variance? && SpecAnswered(t, spec, vals, row)
    ensures spec.output in row && ItemOk(t, SpecItems(spec)[0].item, vals, row[spec.output])
  {
    var items := SpecItems(spec);
    assert items[0] in items;
  }

  lemma TakeLeast(t: SqlType, spec: Spec, vals: seq<Value>, more: seq<Value>, acc: Acc, row: Row)
    requires spec.kind.Min? && Agrees(t, NonNull(vals + more))
    requires CellOk(t, spec, vals, acc) && SpecAnswered(t, spec, more, row)
    ensures CellOk(t, spec, vals + more, Take(spec, acc, row))
  {
    OwnAnswer(t, spec, more, row);
    NonNullConcat(vals, more);
    NonNullMembers(vals + more);
    KeepLeastExtends(t, acc.mins, spec.output, row, NonNull(vals), NonNull(more));
  }

  lemma TakeGreatest(t: SqlType, spec: Spec, vals: seq<Value>, more: seq<Value>, acc: Acc, row: Row)
    requires spec.kind.Max? && Agrees(t, NonNull(vals + more))
    requires CellOk(t, spec, vals, acc) && SpecAnswered(t, spec, more, row)
    ensures CellOk(t, spec, vals + more, Take(spec, acc, row))
  {
    OwnAnswer(t, spec, more, row);
    NonNullConcat(vals, more);
    NonNullMembers(vals + more);
    KeepGreatestExtends(t, acc.maxes, spec.output, row, NonNull(vals), NonNull(more));
  }

  /** The running flag of a boolean aggregate whose present cells are `present`. */
  ghost predicate FlagOk(flag: Option<bool>, present: seq<Value>, unit: bool) {
    flag == if present == [] then None else Some(if unit then Everything(present) else Something(present))
  }

  lemma FoldFlagExtends(flags: map<string, bool>, o: string, row: Row, unit: bool, a: seq<Value>, b: seq<Value>)
    requires o in row && FlagOk(Get(flags, o), a, unit) && FlagOk(AsBool(row[o]), b, unit)
    ensures FlagOk(Get(FoldFlag(flags, o, row, unit), o), a + b, unit)
  {
    FlagsConcat(a, b);
  }

  lemma FlagsConcat(a: seq<Value>, b: seq<Value>)
    ensures Everything(a + b) == (Everything(a) && Everything(b))
    ensures Something(a + b) == (Something(a) || Something(b))
  {
  }

  lemma TakeFlags(t: SqlType, spec: Spec, vals: seq<Value>, more: seq<Value>, acc: Acc, row: Row)
    requires spec.kind.BoolAnd? || spec.kind.BoolOr?
    requires CellOk(t, spec, vals, acc) && SpecAnswered(t, spec, more, row)
    ensures CellOk(t, spec, vals + more, Take(spec, acc, row))
  {
    OwnAnswer(t, spec, more, row);
    NonNullConcat(vals, more);
    if spec.kind.BoolAnd? {
      FoldFlagExtends(acc.boolsAnd, spec.output, row, true, NonNull(vals), NonNull(more));
    } else {
      FoldFlagExtends(acc.boolsOr, spec.output, row, false, NonNull(vals), NonNull(more));
    }
  }

  /** Folding in a provider's partial row extends the summarised rows by that provider's rows. */
  lemma TakeExtends(t: SqlType, spec: Spec, vals: seq<Value>, more: seq<Value>, acc: Acc, row: Row)
    requires spec.kind.Min? || spec.kind.Max? ==> Agrees(t, NonNull(vals + more))
    requires CellOk(t, spec, vals, acc) && SpecAnswered(t, spec, more, row)
    ensures CellOk(t, spec, vals + more, Take(spec, acc, row))
  {
    match spec.kind
    case Count => TakeCounts(t, spec, vals, more, acc, row);
    case Sum => TakeSums(t, spec, vals, more, acc, row);
    case Avg => TakeAverages(t, spec, vals, more, acc, row);
    case Variance(_) => TakeVariance(t, spec, vals, more, acc, row);
    case CountDistinct => TakeDistinct(t, spec, vals, more, acc, row);
    case Min => TakeLeast(t, spec, vals, more, acc, row);
    case Max => TakeGreatest(t, spec, vals, more, acc, row);
    case BoolAnd => TakeFlags(t, spec, vals, more, acc, row);
    case BoolOr => TakeFlags(t, spec, vals, more, acc, row);
  }

  lemma NonNullOne(v: Value)
    requires v != Null
    ensures NonNull([v]) == [v]
  {
    assert [v][..0] == [];
  }

  function Holding(spec: Spec, v: Value): Acc {
    EmptyAcc([]).(mins := map[spec.output := v], maxes := map[spec.output := v])
  }

  /** A single value is its own least and greatest. */
  lemma SingleAnswer(t: SqlType, spec: Spec, v: Value)
    requires (spec.kind.Min? || spec.kind.Max?) && v != Null
    ensures SpecAnswered(t, spec, [v], map[spec.output := v])
    ensures CellOk(t, spec, [v], Holding(spec, v))
  {
    NonNullOne(v);
    SqlReflexive(t, v);
  }

  /** Whatever values the slices hold, the running least or greatest is SQL's. */
  ghost predicate AlwaysKeeps(t: SqlType, spec: Spec, all: set<Value>) {
    forall vals: seq<Value>, more: seq<Value>, acc, row
      | && (forall v | v in vals + more :: v in all)
        && CellOk(t, spec, vals, acc) && SpecAnswered(t, spec, more, row) ::
      CellOk(t, spec, vals + more, Take(spec, acc, row))
  }

  ghost predicate AgreesOn(t: SqlType, all: set<Value>) {
    forall a, b | a in all && b in all && JsonLe(a, b) :: SqlLe(t, a, b)
  }

  lemma TwoKept(t: SqlType, spec: Spec, x: Value, y: Value, acc: Acc)
    requires x != Null && y != Null && CellOk(t, spec, [x] + [y], acc)
    requires spec.kind.Min? || spec.kind.Max?
    ensures spec.kind.Min? && Get(acc.mins, spec.output) == Some(x) ==> SqlLe(t, x, y)
    ensures spec.kind.Max? && Get(acc.maxes, spec.output) == Some(x) ==> SqlLe(t, y, x)
  {
    NonNullConcat([x], [y]);
    NonNullOne(x);
    NonNullOne(y);
    assert ([x] + [y])[1] == y;
  }

  lemma SmallerIsKept(spec: Spec, x: Value, y: Value)
    requires y != Null && ((spec.kind.Min? && JsonLe(x, y)) || (spec.kind.Max? && JsonLe(y, x)))
    ensures Take(spec, Holding(spec, x), map[spec.output := y]) == Holding(spec, x)
  {
  }

  lemma TwoValues(t: SqlType, spec: Spec, a: Value, b: Value, all: set<Value>)
    requires (spec.kind.Min? || spec.kind.Max?) && AlwaysKeeps(t, spec, all)
    requires a in all && b in all && a != Null && b != Null && JsonLe(a, b)
    ensures SqlLe(t, a, b)
  {
    var x, y := if spec.kind.Min? then a else b, if spec.kind.Min? then b else a;
    SingleAnswer(t, spec, x);
    SingleAnswer(t, spec, y);
    assert forall v | v in [x] + [y] :: v in all;
    assert CellOk(t, spec, [x] + [y], Take(spec, Holding(spec, x), map[spec.output := y]));
    SmallerIsKept(spec, x, y);
    TwoKept(t, spec, x, y, Holding(spec, x));
  }

  /**
   * `min` and `max` are merged exactly, however the values are spread over the slices, if and only if
   * the gateway's comparison agrees with SQL's on them.
   */
  lemma ExtremesExactly(t: SqlType, spec: Spec, all: set<Value>)
    requires (spec.kind.Min? || spec.kind.Max?) && Null !in all
    ensures AlwaysKeeps(t, spec, all) <==> AgreesOn(t, all)
  {
    if AgreesOn(t, all) {
      forall vals: seq<Value>, more: seq<Value>, acc, row
        | && (forall v | v in vals + more :: v in all)
          && CellOk(t, spec, vals, acc) && SpecAnswered(t, spec, more, row)
        ensures CellOk(t, spec, vals + more, Take(spec, acc, row))
      {
        NonNullMembers(vals + more);
        TakeExtends(t, spec, vals, more, acc, row);
      }
    }
    if AlwaysKeeps(t, spec, all) {
      forall a, b | a in all && b in all && JsonLe(a, b) ensures SqlLe(t, a, b) {
        TwoValues(t, spec, a, b, all);
      }
    }
  }

  /** So a column of digit texts is not: the gateway takes 9 for smaller than 10. */
  lemma DigitExtremes(spec: Spec)
    requires spec.kind.Min? || spec.kind.Max?
    ensures !AlwaysKeeps(SqlType.Texts, spec, {Text("9"), Text("10")})
  {
    DigitTexts();
    ExtremesExactly(SqlType.Texts, spec, {Text("9"), Text("10")});
  }

  // ----- Distinct counts -----

  /** Columns of texts, booleans or whole numbers: only a text can read like NULL. */
  lemma UniformIsInjective(vals: seq<Value>)
    requires UniformColumn(vals)
    ensures Injective(Contents(NonNull(vals)))
    ensures ReadsNull(vals) <==> Text("null") in vals
  {
    NonNullMembers(vals);
    forall v | v in vals && IsWhole(v) {
      WholeText(v);
    }
    assert ValueText(Text("null")) == "null";
  }

  lemma {:induction false} AsManyTexts(vals: set<Value>, texts: set<string>)
    requires Injective(vals) && texts == set v | v in vals :: ValueText(v)
    ensures |texts| == |vals|
  {
    if vals != {} {
      var v :| v in vals;
      var rest := set w | w in vals - {v} :: ValueText(w);
      AsManyTexts(vals - {v}, rest);
      assert texts == rest + {ValueText(v)};
    } else {
      assert texts == {};
    }
  }

  lemma TextsSplit(vals: seq<Value>, solid: set<Value>)
    requires forall v :: v in solid <==> v in vals && v != Null
    ensures Texts(vals) == (set v | v in solid :: ValueText(v)) + if Null in vals then {"null"} else {}
  {
    assert ValueText(Null) == "null";
  }

  /** The texts of a column: one per value, and one for NULL unless a value reads the same. */
  lemma TextsCounted(vals: seq<Value>)
    requires Injective(Contents(NonNull(vals)))
    ensures |Texts(vals)| == |Contents(NonNull(vals))| + if Null in vals && !ReadsNull(vals) then 1 else 0
  {
    NonNullMembers(vals);
    var solid := Contents(NonNull(vals));
    var texts := set v | v in solid :: ValueText(v);
    AsManyTexts(solid, texts);
    TextsSplit(vals, solid);
    assert "null" in texts <==> ReadsNull(vals);
    if Null in vals && ReadsNull(vals) {
      assert texts + {"null"} == texts;
    }
  }

  lemma SameTexts(a: seq<Value>, b: seq<Value>)
    requires Contents(a) == Contents(b)
    ensures Texts(a) == Texts(b)
  {
    forall v ensures v in a <==> v in b {
      assert v in a <==> v in Contents(a);
      assert v in b <==> v in Contents(b);
    }
  }

  /**
   * The merged `count(distinct)` of a column whose values differ as texts is exact if and only if NULL
   * does not add a value of its own.
   */
  lemma DistinctIsExact(t: SqlType, spec: Spec, vals: seq<Value>, acc: Acc)
    requires spec.kind.CountDistinct? && CellOk(t, spec, vals, acc) && Injective(Contents(NonNull(vals)))
    ensures ResultOk(t, spec.kind, vals, ReduceOne(spec, acc)) <==> (Null in vals ==> ReadsNull(vals))
  {
    SameTexts(Get(acc.distinct, spec.output).GetOr([]), vals);
    TextsCounted(vals);
  }

  /** In a column of numbers or booleans, if and only if there is no NULL. */
  lemma DistinctOfOneKind(t: SqlType, spec: Spec, vals: seq<Value>, acc: Acc)
    requires spec.kind.CountDistinct? && CellOk(t, spec, vals, acc) && UniformColumn(vals)
    ensures ResultOk(t, spec.kind, vals, ReduceOne(spec, acc)) <==> (Null in vals ==> Text("null") in vals)
    ensures (forall v | v in vals :: !v.Text?) ==>
              (ResultOk(t, spec.kind, vals, ReduceOne(spec, acc)) <==> Null !in vals)
  {
    UniformIsInjective(vals);
    DistinctIsExact(t, spec, vals, acc);
  }

  /** What is reduced from a faithful accumulator is the value over all rows at once. */
  lemma ReduceIsExact(t: SqlType, spec: Spec, vals: seq<Value>, acc: Acc)
    requires CellOk(t, spec, vals, acc) && Suits(t, spec.kind, vals)
    ensures ResultOk(t, spec.kind, vals, ReduceOne(spec, acc))
  {
    if spec.kind.Variance? {
      VarianceIsExact(Nums(NonNull(vals)), spec.kind.sample);
    } else if spec.kind.CountDistinct? {
      DistinctIsExact(t, spec, vals, acc);
    }
  }
}
