/** Aggregate plans, the partial query they send to each provider, and SQL's meaning of both. */
module AggregatePlan {
  import opened Wrappers
  import opened Basics
  import opened Json
  import opened SqlOrder
  import opened Moments

  datatype Kind =
    | Count
    | CountDistinct
    | Sum
    | Avg
    | Min
    | Max
    | BoolAnd
    | BoolOr
    | Variance(sample: bool)

  datatype Spec = Spec(kind: Kind, arg: string, output: string)

  datatype Projection = Projection(expr: string, alias: string)

  datatype Plan = Plan(
    filter: Row -> bool,
    groupKeys: seq<string>,
    aggregates: seq<Spec>,
    plain: seq<Projection>,
    distinctOnly: Option<seq<Projection>>,
    having: Row -> bool,
    orderBy: seq<OrderItem>,
    limit: Option<nat>,
    offset: Option<nat>)

  datatype OrderItem = OrderItem(name: string, desc: bool)

  /** How the databases evaluate an expression on one stored row, and the type they give it. */
  datatype Eval = Eval(value: (Row, string) -> Value, kind: string -> SqlType)

  // ----- The partial query -----

  /** One aggregate of the partial query. */
  datatype Item =
    | CountOf(arg: string)
    | SumOf(arg: string)
    | MeanOf(arg: string)
    | SquaresOf(arg: string)
    | LeastOf(arg: string)
    | GreatestOf(arg: string)
    | AllOf(arg: string)
    | AnyOf(arg: string)
    | ValuesOf(arg: string)

  datatype Projected = Projected(name: string, item: Item)

  function LowerChar(c: char): char {
    if 'A' <= c <= 'Z' then (c as int + 32) as char else c
  }

  /** `eq_ignore_ascii_case`. */
  predicate SameName(a: string, b: string) {
    |a| == |b| && forall i | 0 <= i < |a| :: LowerChar(a[i]) == LowerChar(b[i])
  }

  /** The same character, or one ASCII letter in its two cases. */
  predicate SameLetter(c: char, d: char) {
    c == d || ('A' <= c <= 'Z' && d as int == c as int + 32) || ('A' <= d <= 'Z' && c as int == d as int + 32)
  }

  /** Two names are the same if they differ at most in the case of ASCII letters. */
  lemma NamesIgnoreCase(a: string, b: string)
    ensures SameName(a, b) <==> |a| == |b| && forall i | 0 <= i < |a| :: SameLetter(a[i], b[i])
  {
    forall c, d ensures LowerChar(c) == LowerChar(d) <==> SameLetter(c, d) {
      LettersIgnoreCase(c, d);
    }
  }

  lemma LettersIgnoreCase(c: char, d: char)
    ensures LowerChar(c) == LowerChar(d) <==> SameLetter(c, d)
  {
    assert LowerChar(c) as int == if 'A' <= c <= 'Z' then c as int + 32 else c as int;
    assert LowerChar(d) as int == if 'A' <= d <= 'Z' then d as int + 32 else d as int;
  }

  predicate Projects(plain: seq<Projection>, key: string) {
    exists i | 0 <= i < |plain| :: SameName(plain[i].expr, key)
  }

  /** The grouping keys that the query does not project itself. */
  function BareKeys(keys: seq<string>, plain: seq<Projection>): seq<string> {
    if keys == [] then []
    else
      var init, last := keys[..|keys| - 1], keys[|keys| - 1];
      BareKeys(init, plain) + if Projects(plain, last) then [] else [last]
  }

  function Helper(tag: string, spec: Spec): string {
    tag + spec.output + "_" + spec.arg
  }

  function SpecItems(spec: Spec): seq<Projected> {
    match spec.kind
    case Avg => [Projected(Helper("__c_", spec), CountOf(spec.arg)), Projected(Helper("__s_", spec), SumOf(spec.arg))]
    case Variance(_) =>
      [Projected(Helper("__n_", spec), CountOf(spec.arg)),
       Projected(Helper("__m_", spec), MeanOf(spec.arg)),
       Projected(Helper("__q_", spec), SquaresOf(spec.arg))]
    case Count => [Projected(spec.output, CountOf(spec.arg))]
    case CountDistinct => [Projected(spec.output, ValuesOf(spec.arg))]
    case Sum => [Projected(spec.output, SumOf(spec.arg))]
    case Min => [Projected(spec.output, LeastOf(spec.arg))]
    case Max => [Projected(spec.output, GreatestOf(spec.arg))]
    case BoolAnd => [Projected(spec.output, AllOf(spec.arg))]
    case BoolOr => [Projected(spec.output, AnyOf(spec.arg))]
  }

  /** The grouping keys a partial row carries: the projected ones, then the others under their own name. */
  function KeyColumns(plan: Plan): seq<Projection> {
    var bare := BareKeys(plan.groupKeys, plan.plain);
    plan.plain + seq(|bare|, i requires 0 <= i < |bare| => Projection(bare[i], bare[i]))
  }

  function AggregateItems(specs: seq<Spec>): seq<Projected> {
    if specs == [] then [] else AggregateItems(specs[..|specs| - 1]) + SpecItems(specs[|specs| - 1])
  }

  /** The column names of the partial query. */
  function PartialNames(plan: Plan): set<string> {
    KeyNames(plan) + set p | p in AggregateItems(plan.aggregates) :: p.name
  }

  function KeyNames(plan: Plan): set<string> {
    set p | p in KeyColumns(plan) :: p.alias
  }

  function Aliases(columns: seq<Projection>): seq<string> {
    seq(|columns|, i requires 0 <= i < |columns| => columns[i].alias)
  }

  // ----- SQL on one group of rows -----

  /** The argument of an aggregate on every row of a group; `*` is never NULL. */
  function Cells(eval: Eval, rows: seq<Row>, arg: string): seq<Value> {
    seq(|rows|, i requires 0 <= i < |rows| => if arg == "*" then Bool(true) else eval.value(rows[i], arg))
  }

  function NonNull(vals: seq<Value>): seq<Value> {
    if vals == [] then []
    else
      var init, last := vals[..|vals| - 1], vals[|vals| - 1];
      NonNull(init) + if last == Null then [] else [last]
  }

  function Num(v: Value): real {
    JsonNum(v).GetOr(0.0)
  }

  function Nums(vals: seq<Value>): seq<real> {
    seq(|vals|, i requires 0 <= i < |vals| => Num(vals[i]))
  }

  function Total(vals: seq<Value>): real {
    Summed(Nums(vals), ITSELF)
  }

  /** SQL's sum: none when there is no value. */
  function SqlSum(present: seq<Value>): Option<real> {
    if present == [] then None else Some(Total(present))
  }

  function Squares(vals: seq<Value>): real {
    Summed(Nums(vals), SQUARED)
  }

  ghost predicate IsLeast(t: SqlType, v: Value, vals: seq<Value>) {
    v in vals && forall w | w in vals :: SqlLe(t, v, w)
  }

  ghost predicate IsGreatest(t: SqlType, v: Value, vals: seq<Value>) {
    v in vals && forall w | w in vals :: SqlLe(t, w, v)
  }

  ghost predicate LeastOk(t: SqlType, v: Value, present: seq<Value>) {
    if present == [] then v == Null else IsLeast(t, v, present)
  }

  ghost predicate GreatestOk(t: SqlType, v: Value, present: seq<Value>) {
    if present == [] then v == Null else IsGreatest(t, v, present)
  }

  ghost predicate Everything(vals: seq<Value>) {
    forall v | v in vals :: AsBool(v) != Some(false)
  }

  ghost predicate Something(vals: seq<Value>) {
    exists v | v in vals :: AsBool(v) == Some(true)
  }

  function Contents(vals: seq<Value>): set<Value> {
    set v | v in vals
  }

  /** `v` is what a database answers for `item` on rows whose argument cells are `vals`, of type `t`. */
  ghost predicate ItemOk(t: SqlType, item: Item, vals: seq<Value>, v: Value) {
    var present := NonNull(vals);
    match item
    case CountOf(_) => JsonNum(v) == Some(|present| as real)
    case SumOf(_) => JsonNum(v) == SqlSum(present)
    case MeanOf(_) => if present == [] then v == Null else JsonNum(v) == Some(Mean(Nums(present)))
    case SquaresOf(_) => if present == [] then v == Null else JsonNum(v) == Some(Squares(present))
    case LeastOf(_) => LeastOk(t, v, present)
    case GreatestOf(_) => GreatestOk(t, v, present)
    case AllOf(_) => if present == [] then v == Null else AsBool(v) == Some(Everything(present))
    case AnyOf(_) => if present == [] then v == Null else AsBool(v) == Some(Something(present))
    case ValuesOf(_) => if vals == [] then v == Null else v.Array? && Contents(v.items) == Contents(vals)
  }

  /** `v` is the value SQL gives an aggregate over all rows of a group at once. */
  ghost predicate ResultOk(t: SqlType, kind: Kind, vals: seq<Value>, v: Value) {
    var present := NonNull(vals);
    match kind
    case Count => v == Number(|present| as real)
    case CountDistinct => v == Number(|Contents(present)| as real)
    case Sum => v == NumberOrNull(SqlSum(present))
    case Avg => v == if present == [] then Null else Number(Mean(Nums(present)))
    case Min => LeastOk(t, v, present)
    case Max => GreatestOk(t, v, present)
    case BoolAnd => v == if present == [] then Null else Flag(Everything(present))
    case BoolOr => v == if present == [] then Null else Flag(Something(present))
    case Variance(sample) => v == NumberOrNull(SqlVariance(Nums(present), sample))
  }

  function NumberOrNull(n: Option<real>): Value {
    if n.Some? then Number(n.value) else Null
  }

  /** How Postgres prints a boolean. */
  function Flag(b: bool): Value {
    Text(if b then "t" else "f")
  }

  /** What the values of an aggregate's column must be like for the merge to be exact. */
  ghost predicate Suits(t: SqlType, kind: Kind, vals: seq<Value>) {
    match kind
    case Min => Agrees(t, NonNull(vals))
    case Max => Agrees(t, NonNull(vals))
    case CountDistinct => Injective(Contents(NonNull(vals))) && (Null in vals ==> ReadsNull(vals))
    case _ => true
  }

  /** Different values have different texts. */
  ghost predicate Injective(vals: set<Value>) {
    forall a, b | a in vals && b in vals && ValueText(a) == ValueText(b) :: a == b
  }

  /** Some value other than NULL has the text of NULL. */
  ghost predicate ReadsNull(vals: seq<Value>) {
    exists v | v in vals :: v != Null && ValueText(v) == "null"
  }

  /**
   * The values of a column have one JSON kind. Providers pass numbers and booleans through and send
   * large integers, dates and bytes as text.
   */
  ghost predicate UniformColumn(vals: seq<Value>) {
    || (forall v | v in vals :: v == Null || v.Text?)
    || (forall v | v in vals :: v == Null || v.Bool?)
    || (forall v | v in vals :: v == Null || IsWhole(v))
  }

  // ----- SQL on a table -----

  function Where(plan: Plan, rows: seq<Row>): seq<Row> {
    Keep(plan.filter, rows)
  }

  function KeyOf(plan: Plan, eval: Eval, row: Row): seq<Value> {
    seq(|plan.groupKeys|, j requires 0 <= j < |plan.groupKeys| => eval.value(row, plan.groupKeys[j]))
  }

  /** The grouping-key tuples of a table; without GROUP BY the whole table is one group, even when empty. */
  function GroupTuples(plan: Plan, eval: Eval, rows: seq<Row>): set<seq<Value>> {
    if plan.groupKeys == [] then {[]} else set row | row in rows :: KeyOf(plan, eval, row)
  }

  function GroupRows(plan: Plan, eval: Eval, rows: seq<Row>, k: seq<Value>): seq<Row> {
    if rows == [] then []
    else
      var init, last := rows[..|rows| - 1], rows[|rows| - 1];
      GroupRows(plan, eval, init, k) + if KeyOf(plan, eval, last) == k then [last] else []
  }

  ghost predicate Arranges<T(!new)>(list: seq<T>, elements: set<T>) {
    && (forall i, j | 0 <= i < j < |list| :: list[i] != list[j])
    && (forall x :: x in list <==> x in elements)
  }

  /** The key columns of `row` show the key tuple `k`. */
  ghost predicate ShowsKey(plan: Plan, k: seq<Value>, row: Row) {
    && |k| == |plan.groupKeys|
    && forall p, j | p in KeyColumns(plan) && 0 <= j < |k| && plan.groupKeys[j] == p.expr ::
      p.alias in row && row[p.alias] == k[j]
  }

  /** One answered row of the partial query: its group has key `k` and consists of `rows`. */
  ghost predicate PartialRow(plan: Plan, eval: Eval, rows: seq<Row>, k: seq<Value>, answer: Row) {
    && ShowsKey(plan, k, answer)
    && answer.Keys == PartialNames(plan)
    && forall p | p in AggregateItems(plan.aggregates) ::
      p.name in answer && ItemOk(eval.kind(p.item.arg), p.item, Cells(eval, rows, p.item.arg), answer[p.name])
  }

  /** A provider's answer to the partial query over its slice: one row per group, in any order. */
  ghost predicate Answers(plan: Plan, eval: Eval, slice: seq<Row>, answer: seq<Row>) {
    var rows := Where(plan, slice);
    exists keys :: Arranges(keys, GroupTuples(plan, eval, rows)) && AnswersInOrder(plan, eval, rows, keys, answer)
  }

  ghost predicate AnswersInOrder(plan: Plan, eval: Eval, rows: seq<Row>, keys: seq<seq<Value>>, answer: seq<Row>) {
    && |answer| == |keys|
    && forall i | 0 <= i < |keys| :: PartialRow(plan, eval, GroupRows(plan, eval, rows, keys[i]), keys[i], answer[i])
  }

  /** The row that the query returns for the group with key `k`, consisting of `rows`. */
  ghost predicate ResultRow(plan: Plan, eval: Eval, rows: seq<Row>, k: seq<Value>, result: Row) {
    && ShowsKey(plan, k, result)
    && result.Keys == ResultNames(plan)
    && forall spec | spec in plan.aggregates ::
      && spec.output in result
      && ResultOk(eval.kind(spec.arg), spec.kind, Cells(eval, rows, spec.arg), result[spec.output])
  }

  function ResultNames(plan: Plan): set<string> {
    KeyNames(plan) + set spec | spec in plan.aggregates :: spec.output
  }

  /** One result row per group of the table. */
  ghost predicate Tabulates(plan: Plan, eval: Eval, rows: seq<Row>, keys: seq<seq<Value>>, results: seq<Row>) {
    && Arranges(keys, GroupTuples(plan, eval, rows))
    && |results| == |keys|
    && forall i | 0 <= i < |keys| :: ResultRow(plan, eval, GroupRows(plan, eval, rows, keys[i]), keys[i], results[i])
  }
}
