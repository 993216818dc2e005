/**
  The list query every resource shares (`list_query.rs`): a column whitelist, a
  filter, and an `ORDER BY` that ends with the unique key. SQL may return the
  rows in any sequence its `ORDER BY` allows; here that sequence is unique.
 */
module ListQuery {
  import opened Text

  /** A row: its unique `id`, and its text columns; an absent column is NULL. */
  datatype Row = Row(id: nat, cells: map<string, string>)

  datatype Datum = Num(n: int) | Str(s: string)

  datatype Direction = Asc | Desc

  datatype Sort = Sort(field: string, direction: Direction)

  datatype Entry = Entry(column: string, direction: Direction)

  /** A condition on one field; the operators are not modelled beyond being a test of that column's value. */
  datatype Filter = Filter(field: string, test: Option<Datum> -> bool)

  datatype UniqueKey = ConventionalId | Field(field: string) | Disabled

  /** Wire field name to column name, and which column is the unique key. */
  datatype ColumnMap = ColumnMap(columns: map<string, string>, uniqueKey: UniqueKey)

  datatype Page = Page(limit: nat, offset: nat)

  function Cell(row: Row, column: string): Option<Datum> {
    if column == "id" then Some(Num(row.id))
    else if column in row.cells then Some(Str(row.cells[column]))
    else None
  }

  function Resolve(cm: ColumnMap, field: string): Option<string> {
    if field in cm.columns then Some(cm.columns[field]) else None
  }

  function UniqueKeyColumn(cm: ColumnMap): Option<string> {
    match cm.uniqueKey
    case ConventionalId => Resolve(cm, "id")
    case Field(field) => Resolve(cm, field)
    case Disabled => None
  }

  /** The known sort keys, in order; unknown fields are skipped. */
  function Resolved(cm: ColumnMap, sort: seq<Sort>): seq<Entry> {
    if sort == [] then []
    else
      (match Resolve(cm, sort[0].field)
       case None => []
       case Some(column) => [Entry(column, sort[0].direction)]) + Resolved(cm, sort[1..])
  }

  predicate Names(entries: seq<Entry>, column: string) {
    exists i :: 0 <= i < |entries| && entries[i].column == column
  }

  /** `order_by_entries`: the unique key comes last, in the direction of the last key, unless it is there. */
  function OrderByEntries(cm: ColumnMap, sort: seq<Sort>): seq<Entry> {
    var entries := Resolved(cm, sort);
    match UniqueKeyColumn(cm)
    case None => entries
    case Some(key) =>
      if Names(entries, key) then entries
      else entries + [Entry(key, if entries == [] then Asc else entries[|entries| - 1].direction)]
  }

  /** The rows a `WHERE` keeps; an unknown filter field refuses the request. */
  predicate Passes(cm: ColumnMap, filters: seq<Filter>, row: Row) {
    forall i :: 0 <= i < |filters| && Resolve(cm, filters[i].field).Some? ==>
      filters[i].test(Cell(row, Resolve(cm, filters[i].field).value))
  }

  predicate KnownFilters(cm: ColumnMap, filters: seq<Filter>) {
    forall i :: 0 <= i < |filters| ==> Resolve(cm, filters[i].field).Some?
  }

  /** `LIMIT .. OFFSET ..`; no pagination is the whole sequence. */
  function Slice<T>(full: seq<T>, page: Option<Page>): seq<T> {
    match page
    case None => full
    case Some(p) =>
      var from := if p.offset <= |full| then p.offset else |full|;
      full[from..if from + p.limit <= |full| then from + p.limit else |full|]
  }

  // ---- the order -------------------------------------------------------------

  predicate ValueLess(a: Datum, b: Datum) {
    match (a, b)
    case (Num(x), Num(y)) => x < y
    case (Str(x), Str(y)) => Less(x, y)
    case (Num(_), Str(_)) => true
    case (Str(_), Num(_)) => false
  }

  /** `ASC NULLS LAST` and `DESC NULLS LAST`. */
  predicate CellBefore(a: Option<Datum>, b: Option<Datum>, d: Direction) {
    a.Some? && (b.None? || (if d == Asc then ValueLess(a.value, b.value) else ValueLess(b.value, a.value)))
  }

  /** Whether `a` comes strictly before `b` in the `ORDER BY`. */
  predicate Before(entries: seq<Entry>, a: Row, b: Row) {
    entries != [] &&
    var x, y := Cell(a, entries[0].column), Cell(b, entries[0].column);
    CellBefore(x, y, entries[0].direction) || (x == y && Before(entries[1..], a, b))
  }

  lemma CellBeforeOrder(a: Option<Datum>, b: Option<Datum>, c: Option<Datum>, d: Direction)
    ensures !CellBefore(a, a, d)
    ensures CellBefore(a, b, d) && CellBefore(b, c, d) ==> CellBefore(a, c, d)
    ensures a == b || CellBefore(a, b, d) || CellBefore(b, a, d)
  {
    if a.Some? && a.value.Str? { LessIrreflexive(a.value.s); }
    if a.Some? && b.Some? && a.value.Str? && b.value.Str? {
      LessTotal(a.value.s, b.value.s);
      if c.Some? && c.value.Str? {
        if Less(a.value.s, b.value.s) && Less(b.value.s, c.value.s) { LessTransitive(a.value.s, b.value.s, c.value.s); }
        if Less(c.value.s, b.value.s) && Less(b.value.s, a.value.s) { LessTransitive(c.value.s, b.value.s, a.value.s); }
      }
    }
  }

  lemma {:induction false} BeforeIrreflexive(entries: seq<Entry>, a: Row)
    ensures !Before(entries, a, a)
  {
    if entries != [] {
      var x := Cell(a, entries[0].column);
      CellBeforeOrder(x, x, x, entries[0].direction);
      BeforeIrreflexive(entries[1..], a);
    }
  }

  lemma {:induction false} BeforeTransitive(entries: seq<Entry>, a: Row, b: Row, c: Row)
    requires Before(entries, a, b) && Before(entries, b, c)
    ensures Before(entries, a, c)
  {
    hide CellBefore, Cell;
    var x, y, z := Cell(a, entries[0].column), Cell(b, entries[0].column), Cell(c, entries[0].column);
    CellBeforeOrder(x, y, z, entries[0].direction);
    if x == y == z { BeforeTransitive(entries[1..], a, b, c); }
  }

  /** Whatever the requested keys, two rows the order does not separate are one row. */
  lemma {:induction false} BeforeTotal(entries: seq<Entry>, a: Row, b: Row)
    requires Names(entries, "id") && a.id != b.id
    ensures Before(entries, a, b) || Before(entries, b, a)
  {
    var x, y := Cell(a, entries[0].column), Cell(b, entries[0].column);
    CellBeforeOrder(x, y, x, entries[0].direction);
    if x == y {
      var i :| 0 <= i < |entries| && entries[i].column == "id";
      assert i != 0;
      assert entries[1..][i - 1] == entries[i];
      BeforeTotal(entries[1..], a, b);
    }
  }

  /** The first key on which two rows differ decides, NULLs last in both directions. */
  lemma {:induction false} FirstDifferenceDecides(entries: seq<Entry>, i: nat, a: Row, b: Row)
    requires i < |entries| && forall j :: 0 <= j < i ==> Cell(a, entries[j].column) == Cell(b, entries[j].column)
    requires Cell(a, entries[i].column) != Cell(b, entries[i].column)
    ensures Before(entries, a, b)
            <==> CellBefore(Cell(a, entries[i].column), Cell(b, entries[i].column), entries[i].direction)
    decreases i
  {
    hide CellBefore, Cell;
    var x, y := Cell(a, entries[0].column), Cell(b, entries[0].column);
    CellBeforeOrder(x, y, x, entries[0].direction);
    if i > 0 {
      var rest := entries[1..];
      assert forall j :: 0 <= j < i - 1 ==> rest[j] == entries[j + 1];
      assert rest[i - 1] == entries[i];
      FirstDifferenceDecides(rest, i - 1, a, b);
    }
  }

  /** Rows the requested keys do not tell apart come in id order, in the direction of the last known key. */
  lemma TiesComeInIdOrder(cm: ColumnMap, sort: seq<Sort>, a: Row, b: Row)
    requires UniqueKeyColumn(cm) == Some("id") && !Names(Resolved(cm, sort), "id") && a.id != b.id
    requires forall i :: 0 <= i < |Resolved(cm, sort)| ==>
               Cell(a, Resolved(cm, sort)[i].column) == Cell(b, Resolved(cm, sort)[i].column)
    ensures var known := Resolved(cm, sort);
            Before(OrderByEntries(cm, sort), a, b)
            <==> if known != [] && known[|known| - 1].direction == Desc then a.id > b.id else a.id < b.id
  {
    var entries := OrderByEntries(cm, sort);
    FirstDifferenceDecides(entries, |entries| - 1, a, b);
  }

  // ---- the sequence of an answer ---------------------------------------------

  ghost predicate DistinctIds(rows: set<Row>) {
    forall a, b :: a in rows && b in rows && a.id == b.id ==> a == b
  }

  /** `s` is a sequence SQL may return for these rows: each once, none before an earlier one. */
  ghost predicate Returns(s: seq<Row>, rows: set<Row>, entries: seq<Entry>) {
    && (forall r :: r in s <==> r in rows)
    && (forall i, j :: 0 <= i < j < |s| ==> s[i] != s[j] && !Before(entries, s[j], s[i]))
  }

  lemma UniqueKeyIsNamed(cm: ColumnMap, sort: seq<Sort>)
    requires UniqueKeyColumn(cm) == Some("id")
    ensures Names(OrderByEntries(cm, sort), "id")
  {
    var entries := Resolved(cm, sort);
    if !Names(entries, "id") {
      assert OrderByEntries(cm, sort)[|entries|].column == "id";
    }
  }

  lemma DropFirst(s: seq<Row>, rows: set<Row>, entries: seq<Entry>)
    requires Returns(s, rows, entries) && s != []
    ensures s[0] in rows && Returns(s[1..], rows - {s[0]}, entries)
  {
    forall r ensures r in s[1..] <==> r in rows - {s[0]} {
      if r in s && r != s[0] {
        var i :| 0 <= i < |s| && s[i] == r;
        assert s[1..][i - 1] == r;
      }
    }
  }

  /** A sequence that names each row once is as long as the set. */
  lemma {:induction false} ReturnsLength(s: seq<Row>, rows: set<Row>, entries: seq<Entry>)
    requires Returns(s, rows, entries)
    ensures |s| == |rows|
  {
    if s == [] {
      assert rows == {};
    } else {
      DropFirst(s, rows, entries);
      ReturnsLength(s[1..], rows - {s[0]}, entries);
    }
  }

  lemma NoneBeforeTheFirst(s: seq<Row>, rows: set<Row>, entries: seq<Entry>, r: Row)
    requires Returns(s, rows, entries) && r in rows
    ensures s != [] && (r == s[0] || !Before(entries, r, s[0]))
  {
    var i :| 0 <= i < |s| && s[i] == r;
  }

  /** For any sort, the `ORDER BY` leaves SQL one sequence only. */
  lemma {:induction false} OneSequence(s: seq<Row>, t: seq<Row>, rows: set<Row>, entries: seq<Entry>)
    requires DistinctIds(rows) && Names(entries, "id")
    requires Returns(s, rows, entries) && Returns(t, rows, entries)
    ensures s == t
  {
    ReturnsLength(s, rows, entries);
    ReturnsLength(t, rows, entries);
    if s != [] {
      assert s[0] in rows && t[0] in rows;
      NoneBeforeTheFirst(s, rows, entries, t[0]);
      NoneBeforeTheFirst(t, rows, entries, s[0]);
      if s[0] != t[0] { BeforeTotal(entries, s[0], t[0]); }
      DropFirst(s, rows, entries);
      DropFirst(t, rows, entries);
      OneSequence(s[1..], t[1..], rows - {s[0]}, entries);
    }
  }

  lemma {:induction false} InsertRow(s: seq<Row>, rows: set<Row>, entries: seq<Entry>, x: Row) returns (t: seq<Row>)
    requires Returns(s, rows, entries) && x !in rows && Names(entries, "id") && DistinctIds(rows + {x})
    ensures Returns(t, rows + {x}, entries)
    decreases |s|
  {
    if s == [] {
      t := [x];
    } else if Before(entries, x, s[0]) {
      t := [x] + s;
      forall j | 0 < j < |t| ensures x != t[j] && !Before(entries, t[j], x) {
        if Before(entries, t[j], x) {
          BeforeTransitive(entries, t[j], x, s[0]);
          if j == 1 { BeforeIrreflexive(entries, s[0]); }
        }
      }
    } else {
      DropFirst(s, rows, entries);
      var rest := InsertRow(s[1..], rows - {s[0]}, entries, x);
      t := [s[0]] + rest;
      assert forall j :: 0 < j < |t| ==> t[j] == rest[j - 1];
      forall j | 0 < j < |t| ensures s[0] != t[j] && !Before(entries, t[j], s[0]) {
        assert t[j] in rest;
        if t[j] != x {
          var k :| 0 <= k < |s| && s[k] == t[j];
        }
      }
    }
  }

  /** ... and there always is one. */
  lemma {:induction false} SomeSequence(rows: set<Row>, entries: seq<Entry>) returns (s: seq<Row>)
    requires DistinctIds(rows) && Names(entries, "id")
    ensures Returns(s, rows, entries)
    decreases |rows|
  {
    if rows == {} {
      s := [];
    } else {
      var x :| x in rows;
      var rest := SomeSequence(rows - {x}, entries);
      assert rows - {x} + {x} == rows;
      s := InsertRow(rest, rows - {x}, entries, x);
    }
  }
}
