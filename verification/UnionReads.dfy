/** UNION pushdown (pg-gateway/src/sqlanalyze.rs): every provider evaluates the whole statement over
    its own slice and the gateway merges by primary key. */
module UnionReads {
  import opened Wrappers
  import opened Basics
  import opened Json
  import opened ReadEngine

  datatype SetOperator = Union | Except | Intersect

  /** The body of a read of whole rows. A leaf is `select * from t where <predicate>`. */
  datatype SetExpr =
    | Select(accepts: Row -> bool)
    | Query(body: SetExpr)
    | SetOperation(op: SetOperator, all: bool, left: SetExpr, right: SetExpr)
    | Values(rows: seq<Row>)

  datatype Unsupported = NonUnion | NotASelect

  // ----- What is accepted -----

  /** `collect_union_selects`. */
  function CollectUnionSelects(e: SetExpr): Result<seq<Row -> bool>, Unsupported> {
    match e
    case Select(p) => Success([p])
    case Query(body) => CollectUnionSelects(body)
    case SetOperation(op, _, left, right) =>
      if op != Union then Failure(NonUnion)
      else
        (match CollectUnionSelects(left)
         case Failure(error) => Failure(error)
         case Success(ls) =>
           match CollectUnionSelects(right)
           case Failure(error) => Failure(error)
           case Success(rs) => Success(ls + rs))
    case Values(_) => Failure(NotASelect)
  }

  /** Every set operation is UNION, and every leaf is a SELECT. */
  predicate UnionTree(e: SetExpr) {
    match e
    case Select(_) => true
    case Query(body) => UnionTree(body)
    case SetOperation(op, _, left, right) => op == Union && UnionTree(left) && UnionTree(right)
    case Values(_) => false
  }

  /** The SELECTs of a tree, from left to right. */
  function Leaves(e: SetExpr): seq<Row -> bool> {
    match e
    case Select(p) => [p]
    case Query(body) => Leaves(body)
    case SetOperation(_, _, left, right) => Leaves(left) + Leaves(right)
    case Values(_) => []
  }

  /** What is wrong with a tree, each operation before its operands. */
  function Obstacles(e: SetExpr): seq<Unsupported> {
    match e
    case Select(_) => []
    case Query(body) => Obstacles(body)
    case SetOperation(op, _, left, right) =>
      (if op == Union then [] else [NonUnion]) + Obstacles(left) + Obstacles(right)
    case Values(_) => [NotASelect]
  }

  /** A statement is accepted if and only if it is a tree of UNIONs of SELECTs; otherwise the first
      obstacle is reported. */
  lemma {:induction false} CollectsExactly(e: SetExpr)
    ensures CollectUnionSelects(e).Success? <==> UnionTree(e)
    ensures UnionTree(e) <==> Obstacles(e) == []
    ensures CollectUnionSelects(e) == if UnionTree(e) then Success(Leaves(e)) else Failure(Obstacles(e)[0])
  {
    match e
    case Select(_) =>
    case Query(body) => CollectsExactly(body);
    case SetOperation(_, _, left, right) =>
      CollectsExactly(left);
      CollectsExactly(right);
    case Values(_) =>
  }

  // ----- What one database answers -----

  function Once(rows: multiset<Row>): multiset<Row> {
    multiset(set row | row in rows)
  }

  /** SQL's set operations: with ALL copies are counted, without it each row is taken once. */
  function Combine(op: SetOperator, all: bool, a: multiset<Row>, b: multiset<Row>): multiset<Row> {
    var x, y := if all then a else Once(a), if all then b else Once(b);
    match op
    case Union => if all then x + y else Once(x + y)
    case Except => x - y
    case Intersect => x * y
  }

  function Eval(e: SetExpr, data: seq<Row>): multiset<Row> {
    match e
    case Select(p) => multiset(Keep(p, data))
    case Query(body) => Eval(body, data)
    case SetOperation(op, all, left, right) => Combine(op, all, Eval(left, data), Eval(right, data))
    case Values(rows) => multiset(rows)
  }

  ghost predicate MatchesSome(leaves: seq<Row -> bool>, row: Row) {
    exists i :: 0 <= i < |leaves| && leaves[i](row)
  }

  lemma {:induction false} KeepCounts(p: Row -> bool, rows: seq<Row>, row: Row)
    ensures multiset(Keep(p, rows))[row] == if p(row) then multiset(rows)[row] else 0
  {
    if rows != [] {
      var init := rows[..|rows| - 1];
      assert rows == init + [rows[|rows| - 1]];
      KeepCounts(p, init, row);
    }
  }

  lemma MatchesConcat(ls: seq<Row -> bool>, rs: seq<Row -> bool>, row: Row)
    ensures MatchesSome(ls + rs, row) <==> MatchesSome(ls, row) || MatchesSome(rs, row)
  {
    if MatchesSome(ls, row) {
      var i :| 0 <= i < |ls| && ls[i](row);
      assert (ls + rs)[i](row);
    }
    if MatchesSome(rs, row) {
      var i :| 0 <= i < |rs| && rs[i](row);
      assert (ls + rs)[|ls| + i](row);
    }
  }

  /** A row is in the answer to a tree of UNIONs exactly when it is in the data and some leaf accepts it. */
  lemma {:induction false} EvalMembers(e: SetExpr, data: seq<Row>, row: Row)
    requires CollectUnionSelects(e).Success?
    ensures row in Eval(e, data) <==> row in data && MatchesSome(CollectUnionSelects(e).value, row)
  {
    match e
    case Select(p) =>
      KeepCounts(p, data, row);
      assert row in data <==> row in multiset(data);
      assert [p][0](row) == p(row);
    case Query(body) => EvalMembers(body, data, row);
    case SetOperation(_, _, left, right) =>
      EvalMembers(left, data, row);
      EvalMembers(right, data, row);
      MatchesConcat(CollectUnionSelects(left).value, CollectUnionSelects(right).value, row);
  }

  // ----- Counting copies on the tree -----

  /** Every leaf is a SELECT; the set operations may be any. */
  predicate SelectLeaves(e: SetExpr) {
    match e
    case Select(_) => true
    case Query(body) => SelectLeaves(body)
    case SetOperation(_, _, left, right) => SelectLeaves(left) && SelectLeaves(right)
    case Values(_) => false
  }

  lemma {:induction false} AcceptedHasSelectLeaves(e: SetExpr)
    requires CollectUnionSelects(e).Success?
    ensures SelectLeaves(e)
  {
    match e
    case Select(_) =>
    case Query(body) => AcceptedHasSelectLeaves(body);
    case SetOperation(_, _, left, right) =>
      AcceptedHasSelectLeaves(left);
      AcceptedHasSelectLeaves(right);
  }

  function AtMostOne(n: nat): nat {
    if n == 0 then 0 else 1
  }

  /** How often a set operation returns a row that its operands return `m` and `n` times. */
  function CombineCounts(op: SetOperator, all: bool, m: nat, n: nat): nat {
    match op
    case Union => if all then m + n else AtMostOne(m + n)
    case Except =>
      if all then if m > n then m - n else 0
      else if n == 0 then AtMostOne(m) else 0
    case Intersect => if all then if m < n then m else n else if n == 0 then 0 else AtMostOne(m)
  }

  lemma CombineCounted(op: SetOperator, all: bool, a: multiset<Row>, b: multiset<Row>, row: Row)
    ensures Combine(op, all, a, b)[row] == CombineCounts(op, all, a[row], b[row])
  {
  }

  /** How often a statement returns a row that the data holds once. */
  function Copies(e: SetExpr, row: Row): nat
    requires SelectLeaves(e)
  {
    match e
    case Select(p) => if p(row) then 1 else 0
    case Query(body) => Copies(body, row)
    case SetOperation(op, all, left, right) => CombineCounts(op, all, Copies(left, row), Copies(right, row))
  }

  /** How often a row is returned depends on that row alone. */
  lemma {:induction false} EvalCounts(e: SetExpr, data: seq<Row>, row: Row)
    requires SelectLeaves(e) && multiset(data)[row] <= 1
    ensures Eval(e, data)[row] == if row in data then Copies(e, row) else 0
  {
    assert row in data <==> row in multiset(data);
    match e
    case Select(p) => KeepCounts(p, data, row);
    case Query(body) => EvalCounts(body, data, row);
    case SetOperation(op, all, left, right) =>
      EvalCounts(left, data, row);
      EvalCounts(right, data, row);
      CombineCounted(op, all, Eval(left, data), Eval(right, data), row);
  }

  lemma {:induction false} NoRepeatsCount<T>(s: seq<T>)
    ensures NoRepeats(s) <==> forall x | x in s :: multiset(s)[x] == 1
  {
    if s != [] {
      var init, last := s[..|s| - 1], s[|s| - 1];
      assert s == init + [last];
      NoRepeatsCount(init);
      if NoRepeats(s) {
        assert last !in init;
      } else if NoRepeats(init) {
        assert last in init && multiset(s)[last] == 2;
      } else {
        var x :| x in init && multiset(init)[x] != 1;
        assert multiset(s)[x] >= multiset(init)[x] > 1;
      }
    }
  }

  // ----- The fan-out -----

  /** Each provider answered, with the statement's result on its slice in some order. */
  ghost predicate AnswersOf(e: SetExpr, slices: seq<seq<Row>>, answers: seq<Answer>) {
    |answers| == |slices| &&
    forall i | 0 <= i < |slices| :: answers[i].Some? && multiset(answers[i].value) == Eval(e, slices[i])
  }

  /** Rows live on one provider each: every row has a key and no key occurs twice anywhere. */
  ghost predicate ExclusiveSlices(slices: seq<seq<Row>>, pk: string) {
    KeysDiffer(Flatten(slices), pk) && forall row | row in Flatten(slices) :: RowKey(row, pk).Some?
  }

  lemma SameKeySameRow(rows: seq<Row>, pk: string, a: Row, b: Row)
    requires KeysDiffer(rows, pk) && a in rows && b in rows && RowKey(a, pk).Some? && RowKey(a, pk) == RowKey(b, pk)
    ensures a == b
  {
    var i :| 0 <= i < |rows| && rows[i] == a;
    var j :| 0 <= j < |rows| && rows[j] == b;
  }

  lemma KeyedOnce(data: seq<Row>, pk: string, row: Row)
    requires KeysDiffer(data, pk) && row in data && forall r | r in data :: RowKey(r, pk).Some?
    ensures multiset(data)[row] == 1
  {
    forall i, j | 0 <= i < j < |data| ensures data[i] != data[j] {
      assert data[j] in data;
    }
    NoRepeatsCount(data);
  }

  lemma FlattenOne(slice: seq<Row>)
    ensures Flatten([slice]) == slice
  {
    var one: seq<seq<Row>> := [slice];
    assert one[..0] == [];
  }

  lemma SliceIsExclusive(slices: seq<seq<Row>>, pk: string)
    requires slices != [] && ExclusiveSlices(slices, pk)
    ensures ExclusiveSlices(slices[..|slices| - 1], pk) && ExclusiveSlices([slices[|slices| - 1]], pk)
  {
    var init, last := slices[..|slices| - 1], slices[|slices| - 1];
    var data := Flatten(slices);
    assert data == Flatten(init) + last;
    FlattenOne(last);
    assert forall i | 0 <= i < |Flatten(init)| :: Flatten(init)[i] == data[i];
    assert forall i | 0 <= i < |last| :: last[i] == data[|Flatten(init)| + i];
  }

  lemma AtMostOnce(slices: seq<seq<Row>>, pk: string, row: Row)
    requires ExclusiveSlices(slices, pk)
    ensures multiset(Flatten(slices))[row] <= 1
  {
    if row in Flatten(slices) {
      KeyedOnce(Flatten(slices), pk, row);
    }
  }

  lemma OneAnswer(e: SetExpr, slice: seq<Row>, answer: seq<Row>, pk: string, row: Row)
    requires SelectLeaves(e) && multiset(answer) == Eval(e, slice) && ExclusiveSlices([slice], pk)
    ensures row in answer <==> row in slice && Copies(e, row) > 0
  {
    AtMostOnce([slice], pk, row);
    FlattenOne(slice);
    EvalCounts(e, slice, row);
    assert row in answer <==> row in multiset(answer);
  }

  lemma LastAnswer(slices: seq<seq<Row>>, answers: seq<Answer>, row: Row)
    requires slices != [] && |answers| == |slices| && answers[|slices| - 1].Some?
    ensures var n := |slices| - 1;
      && (row in Answered(answers) <==> row in Answered(answers[..n]) || row in answers[n].value)
      && (row in Flatten(slices) <==> row in Flatten(slices[..n]) || row in slices[n])
  {
  }

  lemma {:induction false} AnsweredMembers(e: SetExpr, slices: seq<seq<Row>>, answers: seq<Answer>, pk: string,
                                           row: Row)
    requires SelectLeaves(e) && AnswersOf(e, slices, answers) && ExclusiveSlices(slices, pk)
    ensures row in Answered(answers) <==> row in Flatten(slices) && Copies(e, row) > 0
  {
    if slices != [] {
      var n := |slices| - 1;
      SliceIsExclusive(slices, pk);
      AnsweredMembers(e, slices[..n], answers[..n], pk, row);
      OneAnswer(e, slices[n], answers[n].value, pk, row);
      LastAnswer(slices, answers, row);
    }
  }

  /** What the gateway may return for a statement over these slices. */
  ghost predicate Fanout(e: SetExpr, slices: seq<seq<Row>>, answers: seq<Answer>, rows: seq<Row>, pk: string) {
    && AnswersOf(e, slices, answers) && ExclusiveSlices(slices, pk)
    && ByKey(rows, pk) == ByKey(Answered(answers), pk).(unique := true)
  }

  lemma MergedMembers(e: SetExpr, slices: seq<seq<Row>>, answers: seq<Answer>, rows: seq<Row>, pk: string, row: Row)
    requires SelectLeaves(e) && Fanout(e, slices, answers, rows, pk)
    ensures row in rows <==> row in Answered(answers)
  {
    var all := Answered(answers);
    ByKeyContents(all, pk);
    ByKeyContents(rows, pk);
    AnsweredMembers(e, slices, answers, pk, row);
    if row in rows && RowKey(row, pk).Some? {
      UniqueLookup(rows, row, pk);
    }
    if row in rows && RowKey(row, pk).None? {
      assert row in ByKey(all, pk).extra;
    }
    if row in all {
      var k := RowKey(row, pk).value;
      var first := ByKey(all, pk).index[k];
      AnsweredMembers(e, slices, answers, pk, first);
      SameKeySameRow(Flatten(slices), pk, row, first);
      assert ByKey(rows, pk).index[k] in rows;
    }
  }

  /** The merge returns each matching row once. */
  lemma FanoutMembers(e: SetExpr, slices: seq<seq<Row>>, answers: seq<Answer>, rows: seq<Row>, pk: string)
    requires SelectLeaves(e) && Fanout(e, slices, answers, rows, pk)
    ensures KeysDiffer(rows, pk) && NoRepeats(rows)
    ensures forall row :: row in rows <==> row in Eval(e, Flatten(slices))
  {
    UniqueKeys(rows, pk);
    forall row ensures row in rows <==> row in Flatten(slices) && Copies(e, row) > 0 {
      MergedMembers(e, slices, answers, rows, pk, row);
      AnsweredMembers(e, slices, answers, pk, row);
    }
    forall row ensures row in rows <==> row in Eval(e, Flatten(slices)) {
      AtMostOnce(slices, pk, row);
      EvalCounts(e, Flatten(slices), row);
    }
    forall i | 0 <= i < |rows| ensures RowKey(rows[i], pk).Some? {
      assert rows[i] in rows;
    }
  }

  /** A list without repeats equals a bag with the same members exactly when that counts each once. */
  lemma SameContents(a: seq<Row>, b: multiset<Row>)
    requires NoRepeats(a) && forall x :: x in a <==> x in b
    ensures multiset(a) == b <==> forall x | x in b :: b[x] <= 1
  {
    NoRepeatsCount(a);
    forall x ensures x in a <==> x in multiset(a) {
    }
    if forall x | x in b :: b[x] <= 1 {
      forall x ensures multiset(a)[x] == b[x] {
        assert x in a <==> x in multiset(a);
      }
    }
  }

  /**
   * That is the answer of one database holding all slices if and only if the statement returns no
   * stored row twice.
   */
  lemma FanoutExactIffNoCopies(e: SetExpr, slices: seq<seq<Row>>, answers: seq<Answer>, rows: seq<Row>, pk: string)
    requires SelectLeaves(e) && Fanout(e, slices, answers, rows, pk)
    ensures KeysDiffer(rows, pk) && NoRepeats(rows)
    ensures forall row :: row in rows <==> row in Eval(e, Flatten(slices))
    ensures multiset(rows) == Eval(e, Flatten(slices)) <==> forall row | row in Flatten(slices) :: Copies(e, row) <= 1
  {
    var data := Flatten(slices);
    FanoutMembers(e, slices, answers, rows, pk);
    SameContents(rows, Eval(e, data));
    forall row ensures Eval(e, data)[row] == if row in data then Copies(e, row) else 0 {
      AtMostOnce(slices, pk, row);
      EvalCounts(e, data, row);
    }
    if forall x | x in Eval(e, data) :: Eval(e, data)[x] <= 1 {
      forall row | row in data ensures Copies(e, row) <= 1 {
        assert Eval(e, data)[row] == Copies(e, row);
      }
    }
  }

  /** Whatever the slices hold, the fan-out answers like one database. */
  ghost predicate AlwaysExact(e: SetExpr, pk: string) {
    forall slices, answers, rows | Fanout(e, slices, answers, rows, pk) :: multiset(rows) == Eval(e, Flatten(slices))
  }

  /** A statement is answered exactly on all data if and only if it returns no row twice. */
  lemma AlwaysExactIff(e: SetExpr, pk: string)
    requires SelectLeaves(e)
    ensures AlwaysExact(e, pk) <==> forall row | RowKey(row, pk).Some? :: Copies(e, row) <= 1
  {
    if AlwaysExact(e, pk) {
      forall row | RowKey(row, pk).Some? ensures Copies(e, row) <= 1 {
        ExactOnOneRow(e, row, pk);
      }
    } else {
      var slices, answers, rows :| Fanout(e, slices, answers, rows, pk) && multiset(rows) != Eval(e, Flatten(slices));
      FanoutExactIffNoCopies(e, slices, answers, rows, pk);
      var row :| row in Flatten(slices) && Copies(e, row) > 1;
      assert RowKey(row, pk).Some?;
    }
  }

  lemma ExactOnOneRow(e: SetExpr, row: Row, pk: string)
    requires SelectLeaves(e) && AlwaysExact(e, pk) && RowKey(row, pk).Some?
    ensures Copies(e, row) <= 1
  {
    if Copies(e, row) > 0 {
      var answers, rows := OneRow(e, row, pk);
      assert multiset(rows) == Eval(e, Flatten([[row]]));
      EvalCounts(e, [row], row);
      assert multiset([row])[row] == 1;
    }
  }

  lemma {:induction false} Repeated(row: Row, n: nat) returns (rows: seq<Row>)
    ensures |rows| == n && multiset(rows)[row] == n && forall r | r in rows :: r == row
  {
    if n == 0 {
      rows := [];
    } else {
      var fewer := Repeated(row, n - 1);
      rows := fewer + [row];
    }
  }

  lemma RepeatedIsAnswer(e: SetExpr, row: Row, got: seq<Row>)
    requires SelectLeaves(e) && multiset(got)[row] == Copies(e, row) && forall r | r in got :: r == row
    ensures multiset(got) == Eval(e, [row])
  {
    forall r ensures multiset(got)[r] == Eval(e, [row])[r] {
      assert multiset([row])[r] <= 1;
      EvalCounts(e, [row], r);
      assert r in got <==> r in multiset(got);
    }
  }

  lemma SingleSlice(row: Row, pk: string)
    requires RowKey(row, pk).Some?
    ensures Flatten([[row]]) == [row] && ExclusiveSlices([[row]], pk)
  {
    FlattenOne([row]);
  }

  lemma SingleAnswer(got: seq<Row>)
    ensures Answered([Some(got)]) == got
  {
    var one: seq<Answer> := [Some(got)];
    assert one[..0] == [];
  }

  /** A slice of one row, and what the gateway returns for it. */
  lemma OneRow(e: SetExpr, row: Row, pk: string) returns (answers: seq<Answer>, rows: seq<Row>)
    requires SelectLeaves(e) && RowKey(row, pk).Some? && Copies(e, row) > 0
    ensures Fanout(e, [[row]], answers, rows, pk) && Flatten([[row]]) == [row] && rows == [row]
  {
    var got := Repeated(row, Copies(e, row));
    answers, rows := [Some(got)], [row];
    SingleSlice(row, pk);
    SingleAnswer(got);
    RepeatedIsAnswer(e, row, got);
    SameRowByKey(got, row, pk);
    SameRowByKey(rows, row, pk);
    UniqueKeys(rows, pk);
  }

  lemma {:induction false} SameRowByKey(rows: seq<Row>, row: Row, pk: string)
    requires RowKey(row, pk).Some? && forall r | r in rows :: r == row
    ensures ByKey(rows, pk).extra == []
    ensures ByKey(rows, pk).index == if rows == [] then map[] else map[RowKey(row, pk).value := row]
  {
    if rows != [] {
      var init := rows[..|rows| - 1];
      assert rows[|rows| - 1] in rows && rows == init + [row];
      forall r | r in init ensures r == row {
        assert r in rows;
      }
      SameRowByKey(init, row, pk);
      ByKeySnoc(init, row, pk);
    }
  }

  /** A statement that is one SELECT, or whose outermost operation is without ALL. */
  predicate DistinctRoot(e: SetExpr) {
    match e
    case Select(_) => true
    case Query(body) => DistinctRoot(body)
    case SetOperation(_, all, _, _) => !all
    case Values(_) => false
  }

  lemma {:induction false} DistinctRootNeverRepeats(e: SetExpr, row: Row)
    requires SelectLeaves(e) && DistinctRoot(e)
    ensures Copies(e, row) <= 1
  {
    if e.Query? {
      DistinctRootNeverRepeats(e.body, row);
    }
  }

  /** For these the fan-out is exact whatever the data. */
  lemma DistinctRootIsExact(e: SetExpr, pk: string)
    requires SelectLeaves(e) && DistinctRoot(e)
    ensures AlwaysExact(e, pk)
  {
    forall row ensures Copies(e, row) <= 1 {
      DistinctRootNeverRepeats(e, row);
    }
    AlwaysExactIff(e, pk);
  }

  /** EXCEPT and INTERSECT are refused, although on whole rows of one table they would be exact too. */
  lemma RefusedAlthoughExact(op: SetOperator, left: SetExpr, right: SetExpr, pk: string)
    requires op != Union && SelectLeaves(left) && SelectLeaves(right)
    ensures CollectUnionSelects(SetOperation(op, false, left, right)) == Failure(NonUnion)
    ensures AlwaysExact(SetOperation(op, false, left, right), pk)
  {
    DistinctRootIsExact(SetOperation(op, false, left, right), pk);
  }

  const EVERY_ROW: Row -> bool := (row: Row) => true

  /** `select * from t union all select * from t` */
  const TWICE: SetExpr := SetOperation(Union, true, Select(EVERY_ROW), Select(EVERY_ROW))

  /** For UNION ALL of overlapping branches the gateway returns a row once where one database returns it twice. */
  lemma UnionAllCollapses(row: Row, pk: string) returns (answers: seq<Answer>, rows: seq<Row>)
    requires RowKey(row, pk).Some?
    ensures CollectUnionSelects(TWICE).Success? && Fanout(TWICE, [[row]], answers, rows, pk)
    ensures multiset(rows) != Eval(TWICE, Flatten([[row]]))
  {
    answers, rows := OneRow(TWICE, row, pk);
    assert row in Flatten([[row]]) && Copies(TWICE, row) == 2;
    FanoutExactIffNoCopies(TWICE, [[row]], answers, rows, pk);
  }
}
