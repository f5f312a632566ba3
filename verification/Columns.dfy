/** Declaration cells (adapter/erjet/column.go) and the tables they form
    (adapter/erjet/table.go). */
module Columns {
  import opened Numbers
  import opened Values
  import opened Ordering
  import opened SideTables

  /** One parse: the stored value and its echo in the wire shape of a read. */
  datatype Parsed = Parsed(stored: Sql, echo: Json)

  /** What the server makes of a value written to a column: the image it stores, after
      the cast of the statement and the column's own type, or its refusal. */
  type Admit = Sql -> Result<Sql>

  /** One column and value of a SET or of an INSERT, as the statement sends it. */
  datatype Assign = Assign(col: string, value: Sql, admit: Admit)

  /** The image a sent value leaves. */
  function Stored(a: Assign): Sql {
    match a.admit(a.value)
    case Ok(image) => image
    case Err(_) => SqlNull
  }

  /** The columns a statement writes; the first value the server refuses fails it. */
  function Evaluate(assigns: seq<Assign>): Result<Row> {
    if assigns == [] then Ok(map[])
    else
      var a := assigns[|assigns| - 1];
      match Evaluate(assigns[..|assigns| - 1])
      case Err(e) => Err(e)
      case Ok(row) =>
        match a.admit(a.value)
        case Err(e) => Err(e)
        case Ok(image) => Ok(row[a.col := image])
  }

  /** The server's cast of a text to the type of an identifier column, as the text that
      a read of the image gives; None when the server rejects it. */
  type Cast = cast: string -> Option<string> |
    (forall s :: cast(s).Some? ==> cast(cast(s).value) == cast(s)) && (forall s :: s != "" && cast(s).Some? ==> cast(s).value != "")
    ghost witness (s: string) => Some(s)

  /** A relations table and the type its targets are cast to. */
  datatype RelsTable = RelsTable(name: string, cast: Cast)

  /** ID, Parent and Order are always declared; Key only when partitioned. */
  datatype ChildTable = ChildTable(name: string, partitioned: bool, hasNewID: bool, collation: IdOrder)

  datatype Column =
    | ReadOnly(col: string, decode: Sql -> Json)
    | Scalar(col: string, parse: Json -> Option<Parsed>, admit: Admit, decode: Sql -> Json)
    | Deferred(col: string, resolve: (string, Json) -> Result<Json>, admit: Admit)
    | KeyedStrings(side: KeyedTable, col: string, clear: Clear)
    | Child(ct: ChildTable, shape: Shape)
    | Rels(rels: RelsTable, path: string, target: string)
    | DeferredList(list: Column, resolve: (string, Json) -> Result<Json>)
  {
    /** A satellite has no projection in its own table. */
    predicate IsSatellite() { !(ReadOnly? || Scalar? || Deferred?) }

    /** Whether the cell has a save closure, the second write phase. */
    predicate Saves() { IsSatellite() || Deferred? }

    predicate Writable() { !ReadOnly? }
  }

  /** What an element of a child list is: an object with its own declaration
      (ChildRows, KeyedChildRows) or one column's value (ChildValues, KeyedChildValues).
      The keyed constructors are the ones over a partitioned table. */
  datatype Shape = Rows(inner: Table) | Values(elem: Column)

  datatype Named = Named(name: string, column: Column)

  /** The primary key column and the declared fields, in declared order. */
  datatype Table = Table(id: string, cols: seq<Named>)

  /** The column of its own table a cell projects. */
  function ColumnOf(c: Column): Option<string> {
    match c
    case ReadOnly(col, _) => Some(col)
    case Scalar(col, _, _, _) => Some(col)
    case Deferred(col, _, _) => Some(col)
    case _ => None
  }

  /** Where the value of a cell lives. */
  datatype Storage = InColumn(col: string) | InSide(table: string, col: string) | InChild(table: string) | InRels(table: string, path: string)

  function StorageOf(c: Column): Storage {
    match c
    case ReadOnly(col, _) => InColumn(col)
    case Scalar(col, _, _, _) => InColumn(col)
    case Deferred(col, _, _) => InColumn(col)
    case KeyedStrings(side, col, _) => InSide(side.name, col)
    case Child(ct, _) => InChild(ct.name)
    case Rels(rels, path, _) => InRels(rels.name, path)
    case DeferredList(list, _) => StorageOf(list)
  }

  /** No two fields share storage; several cells over one side table are told apart
      by column. */
  ghost predicate DistinctStorage(cols: seq<Named>) {
    forall i, j :: 0 <= i < j < |cols| ==> StorageOf(cols[i].column) != StorageOf(cols[j].column)
  }

  /** The storage a save of a cell may change for its row: its own, and all of the side
      table where it clears by deleting the row. */
  predicate Touches(c: Column, st: Storage) {
    StorageOf(c) == st || (c.KeyedStrings? && c.clear == DeleteRow && st.InSide? && st.table == c.side.name)
  }

  /** No cell touches the storage of another: a cell that clears by deleting rows has its
      side table to itself. */
  ghost predicate Separate(cols: seq<Named>) {
    forall i, j :: 0 <= i < |cols| && 0 <= j < |cols| && i != j ==> !Touches(cols[i].column, StorageOf(cols[j].column))
  }

  /** What a cell clears reads as empty. */
  predicate ClearsEmpty(c: Column) { c.KeyedStrings? ==> ClearedText(c.clear) == "" }

  /** Clear policies used as they are meant: erasing leaves nothing, and nothing of a
      neighbour goes with it. */
  ghost predicate ClearsFit(cols: seq<Named>) {
    Separate(cols) && forall i :: 0 <= i < |cols| ==> ClearsEmpty(cols[i].column)
  }

  lemma SeparateDistinct(cols: seq<Named>)
    ensures Separate(cols) ==> DistinctStorage(cols)
  {}

  lemma SeparateSnoc(cols: seq<Named>)
    requires Separate(cols) && cols != []
    ensures Separate(cols[..|cols| - 1])
    ensures forall nc :: nc in cols[..|cols| - 1] ==>
      !Touches(nc.column, StorageOf(cols[|cols| - 1].column)) && !Touches(cols[|cols| - 1].column, StorageOf(nc.column))
  {}

  /** pgx value to wire shape for the columns without a decoder of their own. */
  function Normalize(v: Sql): Json {
    match v
    case SqlNull => Null
    case SqlText(t) => Str(t)
    case SqlBool(b) => Bool(b)
    case SqlInt(n) => Num(ToFloat(n))
    case SqlNumeric(r) => Num(Finite(r))
    case SqlJson(doc) => doc
  }

  /** The server refuses what the cell parsed out of a value. */
  predicate Refuses(c: Column, v: Json, e: Failure) {
    c.Scalar? && c.parse(v).Some? && c.admit(c.parse(v).value.stored) == Err(e)
  }

  /** The server takes a value, if the cell parses it at all. */
  predicate Admits(c: Column, v: Json) {
    c.Scalar? && c.parse(v).Some? ==> c.admit(c.parse(v).value.stored).Ok?
  }

  /** What a sent value is in the column. */
  function Image(c: Column, v: Json): Sql
    requires c.Scalar? && c.parse(v).Some?
  {
    var r := c.admit(c.parse(v).value.stored);
    if r.Ok? then r.value else SqlNull
  }

  /** What a sent value reads as once it is stored. */
  function ReadAs(c: Column, v: Json): Json
    requires c.Scalar? && c.parse(v).Some?
  {
    c.decode(Image(c, v))
  }

  /** That is the server's image of what the cell parsed, decoded. */
  lemma ReadsImage(c: Column, v: Json)
    requires c.Scalar? && c.parse(v).Some? && Admits(c, v)
    ensures exists x :: c.admit(c.parse(v).value.stored) == Ok(x) && ReadAs(c, v) == c.decode(x)
  {
    assert c.admit(c.parse(v).value.stored) == Ok(Image(c, v));
  }

  /** The echo of this value is what a read gives after it was stored. */
  predicate Echoed(c: Column, v: Json) {
    c.Scalar? && c.parse(v).Some? ==> c.parse(v).value.echo == ReadAs(c, v)
  }

  /** Sending this value to the cell, if it parses, echoes it and reads as sent. */
  predicate Reparses(c: Column, v: Json) {
    c.Scalar? && c.parse(v).Some? ==> c.parse(v).value.echo == v && ReadAs(c, v) == v
  }

  function Names(cols: seq<Named>): set<string> {
    set i | 0 <= i < |cols| :: cols[i].name
  }

  ghost predicate DistinctNames(cols: seq<Named>) {
    forall i, j :: 0 <= i < j < |cols| ==> cols[i].name != cols[j].name
  }

  /** Table.Column: the first declared cell of that name. */
  function Lookup(cols: seq<Named>, name: string): (c: Option<Column>)
    ensures c.Some? <==> name in Names(cols)
    ensures c.Some? ==> Named(name, c.value) in cols
  {
    if cols == [] then None
    else if cols[0].name == name then assert cols[0] == Named(name, cols[0].column); Some(cols[0].column)
    else
      assert forall nc :: nc in cols <==> nc == cols[0] || nc in cols[1..];
      Lookup(cols[1..], name)
  }

  lemma LookupDeclared(cols: seq<Named>, nc: Named)
    requires DistinctNames(cols)
    requires nc in cols
    ensures Lookup(cols, nc.name) == Some(nc.column)
  {}
}
