/** ORDER BY, OFFSET and LIMIT after the merge. */
module RowOrder {
  import opened Wrappers
  import opened Basics
  import opened Ordering
  import opened Json
  import opened SqlOrder
  import opened AggregatePlan

  function Cell(row: Row, name: string): Value {
    if name in row then row[name] else Null
  }

  /** Below, equal or above, as a sign: numbers by value, other text by bytes, anything else ties. */
  function CompareValues(a: Value, b: Value): int {
    if JsonNum(a).Some? && JsonNum(b).Some? then CompareReals(JsonNum(a).value, JsonNum(b).value)
    else if a.Text? && b.Text? then CompareTexts(a.text, b.text)
    else 0
  }

  /** The comparison of `sort_rows`: the first item that does not tie decides. */
  function Compare(order: seq<OrderItem>, a: Row, b: Row): int {
    if order == [] then 0
    else
      var c := CompareValues(Cell(a, order[0].name), Cell(b, order[0].name));
      if c == 0 then Compare(order[1..], a, b) else if order[0].desc then -c else c
  }

  function InsertRow(order: seq<OrderItem>, x: Row, rows: seq<Row>): seq<Row> {
    if rows == [] || Compare(order, x, rows[0]) <= 0 then [x] + rows
    else [rows[0]] + InsertRow(order, x, rows[1..])
  }

  /** A stable sort. */
  function SortRows(order: seq<OrderItem>, rows: seq<Row>): seq<Row> {
    if rows == [] then [] else InsertRow(order, rows[0], SortRows(order, rows[1..]))
  }

  // ----- SQL's ORDER BY -----

  /** A result column: its name, the expression it shows, and its type. */
  datatype Column = Column(name: string, expr: string, kind: SqlType)

  function FirstNamed(columns: seq<Column>, name: string): Option<Column> {
    if columns == [] then None
    else if SameName(columns[0].name, name) then Some(columns[0])
    else FirstNamed(columns[1..], name)
  }

  function FirstShowing(columns: seq<Column>, name: string): Option<Column> {
    if columns == [] then None
    else if SameName(columns[0].expr, name) then Some(columns[0])
    else FirstShowing(columns[1..], name)
  }

  /** The column that SQL means: a result column of that name, else one that shows that expression. */
  function Meant(columns: seq<Column>, name: string): Option<Column> {
    var named := FirstNamed(columns, name);
    if named.Some? then named else FirstShowing(columns, name)
  }

  function SqlCompareItem(columns: seq<Column>, item: OrderItem, a: Row, b: Row): int {
    var column := Meant(columns, item.name);
    if column.None? then 0
    else
      var c := SqlCompareValues(column.value.kind, Cell(a, column.value.name), Cell(b, column.value.name));
      if item.desc then -c else c
  }

  function SqlCompare(columns: seq<Column>, order: seq<OrderItem>, a: Row, b: Row): int {
    if order == [] then 0
    else
      var c := SqlCompareItem(columns, order[0], a, b);
      if c == 0 then SqlCompare(columns, order[1..], a, b) else c
  }

  ghost predicate SortedBy(columns: seq<Column>, order: seq<OrderItem>, rows: seq<Row>) {
    forall i, j | 0 <= i < j < |rows| :: SqlCompare(columns, order, rows[i], rows[j]) <= 0
  }

  /** The gateway's comparison says nothing against SQL's on these rows. */
  ghost predicate Respects(columns: seq<Column>, order: seq<OrderItem>, rows: set<Row>) {
    forall a, b | a in rows && b in rows && Compare(order, a, b) <= 0 :: SqlCompare(columns, order, a, b) <= 0
  }

  lemma CompareValuesMirror(a: Value, b: Value)
    ensures CompareValues(a, b) == -CompareValues(b, a)
  {
    CompareTextsMirror(TextOf(a), TextOf(b));
  }

  lemma {:induction false} CompareMirror(order: seq<OrderItem>, a: Row, b: Row)
    ensures Compare(order, a, b) == -Compare(order, b, a)
  {
    if order != [] {
      CompareValuesMirror(Cell(a, order[0].name), Cell(b, order[0].name));
      CompareMirror(order[1..], a, b);
    }
  }

  lemma SqlItemTransitive(columns: seq<Column>, item: OrderItem, a: Row, b: Row, c: Row)
    requires SqlCompareItem(columns, item, a, b) <= 0 && SqlCompareItem(columns, item, b, c) <= 0
    ensures SqlCompareItem(columns, item, a, c) <= 0
    ensures SqlCompareItem(columns, item, a, c) == 0 ==>
              SqlCompareItem(columns, item, a, b) == SqlCompareItem(columns, item, b, c) == 0
  {
    var column := Meant(columns, item.name);
    if column.Some? {
      var t, name := column.value.kind, column.value.name;
      var x, y, z := Cell(a, name), Cell(b, name), Cell(c, name);
      if item.desc {
        SqlMirror(t, x, y);
        SqlMirror(t, y, z);
        SqlMirror(t, x, z);
        SqlTransitive(t, z, y, x);
      } else {
        SqlTransitive(t, x, y, z);
      }
    }
  }

  lemma {:induction false} SqlCompareTransitive(columns: seq<Column>, order: seq<OrderItem>, a: Row, b: Row, c: Row)
    requires SqlCompare(columns, order, a, b) <= 0 && SqlCompare(columns, order, b, c) <= 0
    ensures SqlCompare(columns, order, a, c) <= 0
  {
    if order != [] {
      SqlItemTransitive(columns, order[0], a, b, c);
      if SqlCompareItem(columns, order[0], a, c) == 0 {
        SqlCompareTransitive(columns, order[1..], a, b, c);
      }
    }
  }

  lemma {:induction false} InsertRowContents(order: seq<OrderItem>, x: Row, rows: seq<Row>)
    ensures multiset(InsertRow(order, x, rows)) == multiset(rows) + multiset{x}
  {
    if rows != [] {
      assert rows == [rows[0]] + rows[1..];
      InsertRowContents(order, x, rows[1..]);
    }
  }

  lemma {:induction false} SortRowsContents(order: seq<OrderItem>, rows: seq<Row>)
    ensures multiset(SortRows(order, rows)) == multiset(rows)
  {
    if rows != [] {
      SortRowsContents(order, rows[1..]);
      InsertRowContents(order, rows[0], SortRows(order, rows[1..]));
      assert rows == [rows[0]] + rows[1..];
    }
  }

  /** These rows tie with one another. */
  ghost predicate Ties(order: seq<OrderItem>, pass: Row -> bool, rows: seq<Row>) {
    forall a, b | a in rows && b in rows && pass(a) && pass(b) :: Compare(order, a, b) == 0
  }

  lemma KeepPrepend(pass: Row -> bool, x: Row, rows: seq<Row>)
    ensures Keep(pass, [x] + rows) == (if pass(x) then [x] else []) + Keep(pass, rows)
  {
    KeepConcat(pass, [x], rows);
    assert [x][..0] == Keep(pass, [x][..0]);
  }

  lemma {:induction false} InsertIsStable(order: seq<OrderItem>, pass: Row -> bool, x: Row, rows: seq<Row>)
    requires Ties(order, pass, [x] + rows)
    ensures Keep(pass, InsertRow(order, x, rows)) == Keep(pass, [x] + rows)
  {
    if rows != [] && Compare(order, x, rows[0]) > 0 {
      var rest := rows[1..];
      assert rows == [rows[0]] + rest;
      assert rows[0] in [x] + rows && x in [x] + rows;
      assert forall r | r in [x] + rest :: r in [x] + rows;
      InsertIsStable(order, pass, x, rest);
      KeepPrepend(pass, rows[0], InsertRow(order, x, rest));
      KeepPrepend(pass, x, rest);
      KeepPrepend(pass, x, rows);
      KeepPrepend(pass, rows[0], rest);
    }
  }

  /** The sort is stable: rows that tie with one another stay in the order in which they came. */
  lemma {:induction false} SortIsStable(order: seq<OrderItem>, pass: Row -> bool, rows: seq<Row>)
    requires Ties(order, pass, rows)
    ensures Keep(pass, SortRows(order, rows)) == Keep(pass, rows)
  {
    if rows != [] {
      var x, rest := rows[0], rows[1..];
      assert rows == [x] + rest;
      SortIsStable(order, pass, rest);
      SameRows(order, rest);
      InsertIsStable(order, pass, x, SortRows(order, rest));
      KeepPrepend(pass, x, SortRows(order, rest));
      KeepPrepend(pass, x, rest);
    }
  }

  lemma SameRows(order: seq<OrderItem>, rows: seq<Row>)
    ensures forall r :: r in SortRows(order, rows) <==> r in rows
  {
    SortRowsContents(order, rows);
    assert forall r :: r in SortRows(order, rows) <==> r in multiset(SortRows(order, rows));
  }

  // ----- When the sort is SQL's -----

  ghost predicate AllAbove(columns: seq<Column>, order: seq<OrderItem>, head: Row, rows: seq<Row>) {
    forall r | r in rows :: SqlCompare(columns, order, head, r) <= 0
  }

  lemma PrependSorts(columns: seq<Column>, order: seq<OrderItem>, head: Row, rows: seq<Row>)
    requires AllAbove(columns, order, head, rows) && SortedBy(columns, order, rows)
    ensures SortedBy(columns, order, [head] + rows)
  {
    var all := [head] + rows;
    forall i, j | 0 <= i < j < |all| ensures SqlCompare(columns, order, all[i], all[j]) <= 0 {
      assert all[j] == rows[j - 1] && rows[j - 1] in rows;
    }
  }

  lemma SortedAbove(columns: seq<Column>, order: seq<OrderItem>, rows: seq<Row>)
    requires SortedBy(columns, order, rows) && rows != []
    ensures AllAbove(columns, order, rows[0], rows[1..]) && SortedBy(columns, order, rows[1..])
  {
  }

  lemma AboveAll(columns: seq<Column>, order: seq<OrderItem>, x: Row, rows: seq<Row>)
    requires rows != [] && AllAbove(columns, order, rows[0], rows[1..]) && SqlCompare(columns, order, x, rows[0]) <= 0
    ensures AllAbove(columns, order, x, rows)
  {
    forall r | r in rows ensures SqlCompare(columns, order, x, r) <= 0 {
      if r != rows[0] {
        assert r in rows[1..];
        SqlCompareTransitive(columns, order, x, rows[0], r);
      }
    }
  }

  lemma AboveInserted(columns: seq<Column>, order: seq<OrderItem>, head: Row, x: Row, rows: seq<Row>)
    requires AllAbove(columns, order, head, rows) && SqlCompare(columns, order, head, x) <= 0
    ensures AllAbove(columns, order, head, InsertRow(order, x, rows))
  {
    InsertRowContents(order, x, rows);
    forall r | r in InsertRow(order, x, rows) ensures SqlCompare(columns, order, head, r) <= 0 {
      assert r in multiset(InsertRow(order, x, rows));
      assert r in multiset(rows) || r == x;
    }
  }

  lemma {:induction false} InsertRowSorts(columns: seq<Column>, order: seq<OrderItem>, x: Row, rows: seq<Row>,
                                          all: set<Row>)
    requires Respects(columns, order, all) && x in all && forall r | r in rows :: r in all
    requires SortedBy(columns, order, rows)
    ensures SortedBy(columns, order, InsertRow(order, x, rows))
  {
    if rows != [] {
      SortedAbove(columns, order, rows);
      assert rows[0] in rows;
      if Compare(order, x, rows[0]) <= 0 {
        AboveAll(columns, order, x, rows);
        PrependSorts(columns, order, x, rows);
      } else {
        CompareMirror(order, x, rows[0]);
        InsertRowSorts(columns, order, x, rows[1..], all);
        AboveInserted(columns, order, rows[0], x, rows[1..]);
        PrependSorts(columns, order, rows[0], InsertRow(order, x, rows[1..]));
      }
    }
  }

  lemma {:induction false} SortRowsSorts(columns: seq<Column>, order: seq<OrderItem>, rows: seq<Row>, all: set<Row>)
    requires Respects(columns, order, all) && forall r | r in rows :: r in all
    ensures SortedBy(columns, order, SortRows(order, rows))
  {
    if rows != [] {
      SortRowsSorts(columns, order, rows[1..], all);
      SortRowsContents(order, rows[1..]);
      var rest := SortRows(order, rows[1..]);
      forall r | r in rest ensures r in all {
        assert r in multiset(rest);
        assert r in rows[1..];
      }
      InsertRowSorts(columns, order, rows[0], rest, all);
    }
  }

  /** Every list of these rows comes out in SQL's order. */
  ghost predicate AlwaysSorts(columns: seq<Column>, order: seq<OrderItem>, all: set<Row>) {
    forall rows: seq<Row> | (forall r | r in rows :: r in all) :: SortedBy(columns, order, SortRows(order, rows))
  }

  lemma PairIsKept(order: seq<OrderItem>, a: Row, b: Row)
    requires Compare(order, a, b) <= 0
    ensures SortRows(order, [a, b]) == [a, b]
  {
    assert [a, b][1..] == [b] && [b][1..] == [];
    assert SortRows(order, [b]) == [b];
  }

  /** The sort gives SQL's order on every list of some rows if and only if its comparison respects that order. */
  lemma SortsExactly(columns: seq<Column>, order: seq<OrderItem>, all: set<Row>)
    ensures AlwaysSorts(columns, order, all) <==> Respects(columns, order, all)
  {
    if Respects(columns, order, all) {
      forall rows: seq<Row> | forall r | r in rows :: r in all ensures SortedBy(columns, order, SortRows(order, rows)) {
        SortRowsSorts(columns, order, rows, all);
      }
    } else {
      var a, b :| a in all && b in all && Compare(order, a, b) <= 0 && SqlCompare(columns, order, a, b) > 0;
      var rows := [a, b];
      PairIsKept(order, a, b);
      assert SqlCompare(columns, order, rows[0], rows[1]) > 0;
      assert !SortedBy(columns, order, SortRows(order, rows));
    }
  }

  // ----- Which columns the comparison respects -----

  /** Booleans that differ are both printed; as JSON booleans the gateway does not tell them apart. */
  ghost predicate FlagsPrinted(cells: set<Value>) {
    forall a, b | a in cells && b in cells && AsBool(a) != AsBool(b) :: a.Text? && b.Text?
  }

  /** A column that the gateway orders like SQL. */
  ghost predicate OrderedAlike(t: SqlType, cells: set<Value>) {
    && (Null in cells ==> cells == {Null})
    && (t.Texts? ==> ReadAlike(cells))
    && (t.Booleans? ==> FlagsPrinted(cells))
  }

  ghost predicate AllTyped(t: SqlType, cells: set<Value>) {
    forall v | v in cells :: Typed(t, v)
  }

  predicate SameWay(t: SqlType, a: Value, b: Value) {
    CompareValues(a, b) <= 0 ==> SqlLe(t, a, b)
  }

  ghost predicate SameOrder(t: SqlType, cells: set<Value>) {
    forall a, b | a in cells && b in cells :: SameWay(t, a, b)
  }

  lemma NullAlone(t: SqlType, cells: set<Value>)
    requires SameOrder(t, cells)
    ensures Null in cells ==> cells == {Null}
  {
    forall v | v in cells && Null in cells ensures v == Null {
      assert CompareValues(Null, v) == 0;
    }
  }

  lemma TextPair(a: Value, b: Value)
    requires a.Text? && b.Text?
    ensures BelowAsNumbers(a, b) ==> CompareValues(a, b) <= 0
    ensures CompareValues(a, b) <= 0 ==> BelowAsNumbers(a, b) || StrLe(TextOf(a), TextOf(b))
    ensures SqlLe(Texts, a, b) <==> StrLe(TextOf(a), TextOf(b))
  {
    TextsLe(a.text, b.text);
  }

  lemma TextColumnExactly(cells: set<Value>)
    requires AllTyped(Texts, cells) && Null !in cells
    ensures SameOrder(Texts, cells) <==> ReadAlike(cells)
  {
    forall a, b | a in cells && b in cells
      ensures BelowAsNumbers(a, b) ==> CompareValues(a, b) <= 0
      ensures CompareValues(a, b) <= 0 ==> BelowAsNumbers(a, b) || StrLe(TextOf(a), TextOf(b))
      ensures SqlLe(Texts, a, b) <==> StrLe(TextOf(a), TextOf(b))
    {
      TextPair(a, b);
    }
  }

  lemma FlagPair(a: Value, b: Value)
    requires Typed(Booleans, a) && Typed(Booleans, b) && a != Null && b != Null
    ensures (SameWay(Booleans, a, b) && SameWay(Booleans, b, a)) <==> (AsBool(a) != AsBool(b) ==> a.Text? && b.Text?)
  {
    PrintedFlags();
  }

  lemma FlagColumnExactly(cells: set<Value>)
    requires AllTyped(Booleans, cells) && Null !in cells
    ensures SameOrder(Booleans, cells) <==> FlagsPrinted(cells)
  {
    forall a, b | a in cells && b in cells
      ensures (SameWay(Booleans, a, b) && SameWay(Booleans, b, a)) <==> (AsBool(a) != AsBool(b) ==> a.Text? && b.Text?)
    {
      FlagPair(a, b);
    }
  }

  /** A typed column is ordered like SQL if and only if NULL, booleans and digit texts are out of the way. */
  lemma ColumnExactly(t: SqlType, cells: set<Value>)
    requires AllTyped(t, cells)
    ensures SameOrder(t, cells) <==> OrderedAlike(t, cells)
  {
    if Null in cells {
      if SameOrder(t, cells) {
        NullAlone(t, cells);
      }
      assert cells == {Null} ==> forall a | a in cells :: a == Null;
    } else {
      match t
      case Numbers =>
      case Texts => TextColumnExactly(cells);
      case Booleans => FlagColumnExactly(cells);
    }
  }

  function CellsOf(rows: set<Row>, name: string): set<Value> {
    set row | row in rows :: Cell(row, name)
  }

  /** The item is the name of the column that SQL means, letter by letter, and the column is typed. */
  ghost predicate Named(columns: seq<Column>, item: OrderItem, rows: set<Row>) {
    var column := Meant(columns, item.name);
    column.Some? && column.value.name == item.name && AllTyped(column.value.kind, CellsOf(rows, item.name))
  }

  lemma OneItem(columns: seq<Column>, item: OrderItem, rows: set<Row>, a: Row, b: Row)
    requires Named(columns, item, rows)
    ensures var t, x, y := Meant(columns, item.name).value.kind, Cell(a, item.name), Cell(b, item.name);
      && Compare([item], a, b) == (if item.desc then CompareValues(y, x) else CompareValues(x, y))
      && SqlCompare(columns, [item], a, b) ==
         (if item.desc then SqlCompareValues(t, y, x) else SqlCompareValues(t, x, y))
  {
    var t, x, y := Meant(columns, item.name).value.kind, Cell(a, item.name), Cell(b, item.name);
    CompareValuesMirror(x, y);
    SqlMirror(t, x, y);
    assert [item][1..] == [];
  }

  lemma OneItemSameWay(columns: seq<Column>, item: OrderItem, rows: set<Row>, a: Row, b: Row)
    requires Named(columns, item, rows)
    ensures var t, x, y := Meant(columns, item.name).value.kind, Cell(a, item.name), Cell(b, item.name);
      (Compare([item], a, b) <= 0 ==> SqlCompare(columns, [item], a, b) <= 0) <==>
      (if item.desc then SameWay(t, y, x) else SameWay(t, x, y))
  {
    OneItem(columns, item, rows, a, b);
  }

  lemma RespectsOneItem(columns: seq<Column>, item: OrderItem, rows: set<Row>)
    requires Named(columns, item, rows) && Respects(columns, [item], rows)
    ensures SameOrder(Meant(columns, item.name).value.kind, CellsOf(rows, item.name))
  {
    var t := Meant(columns, item.name).value.kind;
    forall x, y | x in CellsOf(rows, item.name) && y in CellsOf(rows, item.name) ensures SameWay(t, x, y) {
      var a :| a in rows && Cell(a, item.name) == x;
      var b :| b in rows && Cell(b, item.name) == y;
      OneItemSameWay(columns, item, rows, a, b);
      OneItemSameWay(columns, item, rows, b, a);
    }
  }

  lemma SameOrderRespects(columns: seq<Column>, item: OrderItem, rows: set<Row>)
    requires Named(columns, item, rows)
    requires SameOrder(Meant(columns, item.name).value.kind, CellsOf(rows, item.name))
    ensures Respects(columns, [item], rows)
  {
    forall a, b | a in rows && b in rows && Compare([item], a, b) <= 0
      ensures SqlCompare(columns, [item], a, b) <= 0
    {
      OneItemSameWay(columns, item, rows, a, b);
    }
  }

  /**
   * With one ORDER BY item, every list comes out in SQL's order if and only if the column has no NULL
   * beside other values, no JSON booleans that differ, and no texts that order otherwise as numbers.
   */
  lemma OneItemExactly(columns: seq<Column>, item: OrderItem, rows: set<Row>)
    requires Named(columns, item, rows)
    ensures AlwaysSorts(columns, [item], rows) <==>
            OrderedAlike(Meant(columns, item.name).value.kind, CellsOf(rows, item.name))
  {
    var t, cells := Meant(columns, item.name).value.kind, CellsOf(rows, item.name);
    SortsExactly(columns, [item], rows);
    ColumnExactly(t, cells);
    if Respects(columns, [item], rows) {
      RespectsOneItem(columns, item, rows);
    } else if SameOrder(t, cells) {
      SameOrderRespects(columns, item, rows);
    }
  }

  lemma TiesTie(t: SqlType, a: Value, b: Value)
    requires Typed(t, a) && Typed(t, b) && a != Null && b != Null && SqlCompareValues(t, a, b) == 0
    ensures CompareValues(a, b) == 0
  {
    PrintedFlags();
  }

  lemma SameSign(t: SqlType, cells: set<Value>, a: Value, b: Value)
    requires AllTyped(t, cells) && OrderedAlike(t, cells) && a in cells && b in cells
    ensures CompareValues(a, b) == SqlCompareValues(t, a, b)
  {
    ColumnExactly(t, cells);
    assert SameWay(t, a, b) && SameWay(t, b, a);
    CompareValuesMirror(a, b);
    SqlMirror(t, a, b);
    if a != Null && b != Null && SqlCompareValues(t, a, b) == 0 {
      TiesTie(t, a, b);
    }
  }

  /** Several items: it is enough that each column is ordered like SQL. */
  lemma {:induction false} ColumnsSuffice(columns: seq<Column>, order: seq<OrderItem>, rows: set<Row>, a: Row, b: Row)
    requires a in rows && b in rows
    requires forall item | item in order :: Named(columns, item, rows) &&
               OrderedAlike(Meant(columns, item.name).value.kind, CellsOf(rows, item.name))
    ensures Compare(order, a, b) == SqlCompare(columns, order, a, b)
  {
    if order != [] {
      var item := order[0];
      assert item in order;
      SameSign(Meant(columns, item.name).value.kind, CellsOf(rows, item.name), Cell(a, item.name), Cell(b, item.name));
      ColumnsSuffice(columns, order[1..], rows, a, b);
    }
  }

  // ----- Rows that come out in another order -----

  lemma KeptOutOfOrder(columns: seq<Column>, order: seq<OrderItem>, a: Row, b: Row)
    requires Compare(order, a, b) <= 0 && SqlCompare(columns, order, a, b) > 0
    ensures SortRows(order, [a, b]) == [a, b] && !SortedBy(columns, order, [a, b])
  {
    PairIsKept(order, a, b);
    var rows := [a, b];
    assert SqlCompare(columns, order, rows[0], rows[1]) > 0;
  }

  /** A true before a false stays there. */
  lemma BooleansUnsorted(columns: seq<Column>, item: OrderItem, a: Row, b: Row)
    requires Meant(columns, item.name) == Some(Column(item.name, item.name, Booleans))
    requires Cell(a, item.name) == Bool(!item.desc) && Cell(b, item.name) == Bool(item.desc)
    ensures SortRows([item], [a, b]) == [a, b] && !SortedBy(columns, [item], [a, b])
  {
    OneItem(columns, item, {a, b}, a, b);
    KeptOutOfOrder(columns, [item], a, b);
  }

  /** A NULL is left where it stands: before the others ascending, behind them descending. */
  lemma NullsUnsorted(columns: seq<Column>, item: OrderItem, none: Row, other: Row)
    requires Named(columns, item, {none, other})
    requires Cell(none, item.name) == Null && Cell(other, item.name) != Null
    ensures var rows := if item.desc then [other, none] else [none, other];
      SortRows([item], rows) == rows && !SortedBy(columns, [item], rows)
  {
    var a, b := if item.desc then other else none, if item.desc then none else other;
    OneItem(columns, item, {none, other}, a, b);
    KeptOutOfOrder(columns, [item], a, b);
  }

  /** Texts of digits are sorted as numbers. */
  lemma DigitsUnsorted(columns: seq<Column>, item: OrderItem, nine: Row, ten: Row)
    requires Meant(columns, item.name) == Some(Column(item.name, item.name, Texts)) && !item.desc
    requires Cell(nine, item.name) == Text("9") && Cell(ten, item.name) == Text("10")
    ensures SortRows([item], [nine, ten]) == [nine, ten] && !SortedBy(columns, [item], [nine, ten])
  {
    DigitTexts();
    OneItem(columns, item, {nine, ten}, nine, ten);
    KeptOutOfOrder(columns, [item], nine, ten);
  }

  /** An item that names its column in other letters sorts nothing: fine only where SQL sees ties. */
  lemma OtherLettersExactly(columns: seq<Column>, item: OrderItem, rows: set<Row>)
    requires forall row | row in rows :: item.name !in row
    ensures AlwaysSorts(columns, [item], rows) <==>
            forall a, b | a in rows && b in rows :: SqlCompareItem(columns, item, a, b) <= 0
  {
    SortsExactly(columns, [item], rows);
    forall a, b | a in rows && b in rows
      ensures Compare([item], a, b) == 0 && SqlCompare(columns, [item], a, b) == SqlCompareItem(columns, item, a, b)
    {
      assert [item][1..] == [];
    }
  }

  /**
   * What OFFSET and LIMIT leave of an ordered answer: the rows from position `k` on, in their order,
   * as many as there are but no more than the limit.
   */
  ghost predicate IsCut(sorted: seq<Row>, offset: Option<nat>, limit: Option<nat>, out: seq<Row>) {
    var k := offset.GetOr(0);
    var left := if |sorted| > k then |sorted| - k else 0;
    && |out| == (if limit.Some? && limit.value < left then limit.value else left)
    && forall i | 0 <= i < |out| :: k + i < |sorted| && out[i] == sorted[k + i]
  }

  /** There is one such answer. */
  lemma CutIsUnique(sorted: seq<Row>, offset: Option<nat>, limit: Option<nat>, a: seq<Row>, b: seq<Row>)
    requires IsCut(sorted, offset, limit, a) && IsCut(sorted, offset, limit, b)
    ensures a == b
  {
  }

  /** The gateway drops the offset and then truncates. */
  function Window(rows: seq<Row>, offset: Option<nat>, limit: Option<nat>): (out: seq<Row>)
    ensures IsCut(rows, offset, limit, out)
  {
    var start := if offset.Some? then if |rows| > offset.value then offset.value else |rows| else 0;
    var rest := rows[start..];
    if limit.Some? && limit.value < |rest| then rest[..limit.value] else rest
  }
}
