/** A child table of adapter/erjet/child.go: its rows, the nested side tables of its
    elements, the statements run on them, and the reconciliation of writeRows. */
module ChildTables {
  import opened Values
  import opened Ordering
  import opened SideTables
  import opened Columns

  /** key is "" for a NULL partition; order may be NULL in legacy rows. */
  datatype ChildRow = ChildRow(parent: string, key: string, order: Option<int>, cols: Row)

  /** The rows by primary key, and the side tables keyed by it ON DELETE CASCADE. */
  datatype ChildDb = ChildDb(rows: map<string, ChildRow>, nested: map<string, Side>)

  /** A generator of identifiers: never empty, never repeated. */
  type IdSource = gen: nat -> string |
    (forall a :: gen(a) != "") && (forall a, b :: gen(a) == gen(b) ==> a == b)
    ghost witness Unary

  function Unary(n: nat): (s: string)
    ensures |s| == n + 1
  {
    seq(n + 1, i => 'x')
  }

  /** No identifier still to be generated is taken. */
  ghost predicate Unissued(gen: IdSource, next: nat, rows: map<string, ChildRow>) {
    forall k: nat :: next <= k ==> gen(k) !in rows
  }

  // --- statements ------------------------------------------------------------------

  /** ChildTable.scope: the rows of a parent, or of one partition of it. */
  predicate InScope(ct: ChildTable, row: ChildRow, parent: string, key: string) {
    row.parent == parent && (ct.partitioned && key != "" ==> row.key == key)
  }

  function Scope(ct: ChildTable, rows: map<string, ChildRow>, parent: string, key: string): set<string> {
    set id | id in rows && InScope(ct, rows[id], parent, key)
  }

  /** ORDER BY order, id: NULL positions come last. */
  datatype Slot = Slot(order: Option<int>, id: string)

  predicate SlotLess(less: IdOrder, a: Slot, b: Slot) {
    if a.order == b.order then less(a.id, b.id)
    else a.order.Some? && (b.order.Some? ==> a.order.value < b.order.value)
  }

  function SlotOrder(less: IdOrder): (r: (Slot, Slot) -> bool)
    ensures StrictTotal(r)
  {
    (a, b) => SlotLess(less, a, b)
  }

  function Slots(ct: ChildTable, rows: map<string, ChildRow>, parent: string, key: string): set<Slot> {
    set id | id in rows && InScope(ct, rows[id], parent, key) :: Slot(rows[id].order, id)
  }

  function Select(ct: ChildTable, rows: map<string, ChildRow>, parent: string, key: string): (q: seq<Slot>)
    ensures Elems(q) == Slots(ct, rows, parent, key)
  {
    Sort(Slots(ct, rows, parent, key), SlotOrder(ct.collation))
  }

  /** Elements are read by position, those without one last, and equal positions by id as
      the database collates it. */
  lemma SelectOrdered(ct: ChildTable, rows: map<string, ChildRow>, parent: string, key: string, i: nat, j: nat)
    requires i < j < |Select(ct, rows, parent, key)|
    ensures var a, b := Select(ct, rows, parent, key)[i], Select(ct, rows, parent, key)[j];
      && (b.order.Some? ==> a.order.Some? && a.order.value <= b.order.value)
      && (a.order == b.order ==> ct.collation(a.id, b.id))
      && a.id in rows && b.id in rows && rows[a.id].order == a.order && rows[b.id].order == b.order
  {
    var q := Select(ct, rows, parent, key);
    assert Ascending(q, SlotOrder(ct.collation));
    assert q[i] in Elems(q) && q[j] in Elems(q);
  }

  function NestedOf(db: ChildDb, table: string): Side {
    if table in db.nested then db.nested[table] else map[]
  }

  /** Every nested row hangs on an existing element. */
  ghost predicate NestedKeys(db: ChildDb) {
    forall t, pk :: pk in NestedOf(db, t) ==> pk.0 in db.rows
  }

  /** DELETE of the scope except the kept ids; nested rows go by cascade. */
  function DeleteExcept(ct: ChildTable, db: ChildDb, parent: string, key: string, keep: set<string>): ChildDb {
    var dropped := Scope(ct, db.rows, parent, key) - keep;
    ChildDb(db.rows - dropped, map t | t in db.nested :: Orphans(db.nested[t], dropped))
  }

  function Orphans(side: Side, dropped: set<string>): Side {
    map pk | pk in side && pk.0 !in dropped :: side[pk]
  }

  lemma DeleteKeepsKeys(ct: ChildTable, db: ChildDb, parent: string, key: string, keep: set<string>)
    requires NestedKeys(db)
    ensures NestedKeys(DeleteExcept(ct, db, parent, key, keep))
  {
    var d := DeleteExcept(ct, db, parent, key, keep);
    forall t, pk | pk in NestedOf(d, t) ensures pk.0 in d.rows {
      assert pk in NestedOf(db, t);
    }
  }

  /** writeOrder: positions count from one. */
  function WriteOrder(pos: nat): int { pos + 1 }

  /** The row an upsert leaves: ON CONFLICT (id) updates position and sent columns
      only, whoever owns the row. */
  function UpsertedRow(rows: map<string, ChildRow>, id: string, parent: string, key: string, pos: nat, vals: Row): ChildRow {
    if id in rows then rows[id].(order := Some(WriteOrder(pos)), cols := rows[id].cols + vals)
    else ChildRow(parent, key, Some(WriteOrder(pos)), vals)
  }

  // --- the element declaration -----------------------------------------------------

  /** Table.idField: the first field that projects the primary key. */
  function IdField(cols: seq<Named>, id: string): (f: Option<string>)
    ensures f.Some? ==> f.value in Names(cols)
  {
    if cols == [] then None
    else if ColumnOf(cols[0].column) == Some(id) then Some(cols[0].name)
    else
      assert forall i :: 0 <= i < |cols[1..]| ==> cols[1..][i] == cols[i + 1];
      IdField(cols[1..], id)
  }

  /** The gates of childElement, with nested satellites limited to KeyedStrings. */
  ghost predicate ElementOk(ct: ChildTable, inner: Table) {
    && IdField(inner.cols, inner.id).Some?
    && (forall nc :: nc in inner.cols ==>
          && (nc.column.ReadOnly? || nc.column.Scalar? || nc.column.KeyedStrings?)
          && (nc.column.Scalar? ==> nc.column.col != inner.id)
          && (nc.column.KeyedStrings? ==> ct.hasNewID))
    && DistinctNames(inner.cols)
    && DistinctStorage(inner.cols)
  }

  /** What the upsert of one element writes: the columns sent and parsed. */
  function SentAssigns(cols: seq<Named>, item: map<string, Json>): seq<Assign> {
    if cols == [] then []
    else
      var nc, rest := cols[|cols| - 1], SentAssigns(cols[..|cols| - 1], item);
      if nc.column.Scalar? && nc.name in item && nc.column.parse(item[nc.name]).Some?
      then rest + [Assign(nc.column.col, nc.column.parse(item[nc.name]).value.stored, nc.column.admit)]
      else rest
  }

  /** The columns it leaves, when the server takes every value. */
  function SentValues(cols: seq<Named>, item: map<string, Json>): Row {
    var r := Evaluate(SentAssigns(cols, item));
    if r.Ok? then r.value else map[]
  }

  /** The server takes every value an element sends. */
  predicate Admitted(cols: seq<Named>, item: map<string, Json>) {
    Evaluate(SentAssigns(cols, item)).Ok?
  }

  // --- writeRows --------------------------------------------------------------------

  function Owned(ct: ChildTable, rows: map<string, ChildRow>, parent: string, key: string): set<string> {
    set id | id in Scope(ct, rows, parent, key) && id != ""
  }

  datatype Resolved = Resolved(ids: seq<string>, used: set<string>, next: nat)

  /** Whether an element names an own row not named before. */
  predicate KeepsId(idField: string, owned: set<string>, used: set<string>, item: Json) {
    item.Obj? && StringAt(item.fields, idField) != ""
    && StringAt(item.fields, idField) in owned && StringAt(item.fields, idField) !in used
  }

  /** The id of one element in resolveIDs: an own id not seen yet stays, anything else
      is a new element; what is not an object is no element and gets no id. */
  function ResolvedId(ct: ChildTable, idField: string, owned: set<string>, p: Resolved, item: Json, gen: IdSource): string {
    if KeepsId(idField, owned, p.used, item) then StringAt(item.fields, idField)
    else if item.Obj? && ct.hasNewID then gen(p.next)
    else ""
  }

  function ResolveNext(ct: ChildTable, idField: string, owned: set<string>, p: Resolved, item: Json, gen: IdSource): Resolved {
    var id := ResolvedId(ct, idField, owned, p, item, gen);
    if KeepsId(idField, owned, p.used, item) then Resolved(p.ids + [id], p.used + {id}, p.next)
    else Resolved(p.ids + [id], p.used, if id != "" then p.next + 1 else p.next)
  }

  function Resolve(ct: ChildTable, idField: string, owned: set<string>, list: seq<Json>, gen: IdSource, next: nat): (r: Resolved)
    ensures |r.ids| == |list|
  {
    if list == [] then Resolved([], {}, next)
    else ResolveNext(ct, idField, owned, Resolve(ct, idField, owned, list[..|list| - 1], gen, next), list[|list| - 1], gen)
  }

  /** The save of one nested satellite on its own (no grouping here). */
  function NestedSave(db: ChildDb, id: string, c: Column, v: Json): Result<ChildDb> {
    if c.KeyedStrings? && v.Obj? then
      match WriteMany(c.side, db.rows.Keys, NestedOf(db, c.side.name), id, [Write(c.col, c.clear, v.fields)])
      case Err(e) => Err(e)
      case Ok(side) => Ok(db.(nested := db.nested[c.side.name := side]))
    else Ok(db)
  }

  /** Every sent satellite of one element, in declared order. */
  function NestedSaves(db: ChildDb, id: string, cols: seq<Named>, item: map<string, Json>): Result<ChildDb> {
    if cols == [] then Ok(db)
    else
      var nc := cols[|cols| - 1];
      match NestedSaves(db, id, cols[..|cols| - 1], item)
      case Err(e) => Err(e)
      case Ok(d) => if nc.name in item then NestedSave(d, id, nc.column, item[nc.name]) else Ok(d)
  }

  /** The state of the write loop; landed lists the row of each written element. */
  datatype Progress = Progress(db: ChildDb, next: nat, landed: seq<string>)

  /** One element: upsert, then its nested satellites. Without an id of ours the
      server draws one and there is nothing to conflict on. */
  function WriteRow(inner: Table, p: Progress, parent: string, key: string, item: map<string, Json>, rid: string, gen: IdSource): Result<Progress> {
    var pos := |p.landed|;
    var id := if rid != "" then rid else gen(p.next);
    var next := if rid != "" then p.next else p.next + 1;
    match Evaluate(SentAssigns(inner.cols, item))
    case Err(e) => Err(e)
    case Ok(vals) =>
      if rid == "" && id in p.db.rows then Err(UniqueViolation)
      else
        var row := UpsertedRow(p.db.rows, id, parent, key, pos, vals);
        match NestedSaves(p.db.(rows := p.db.rows[id := row]), id, inner.cols, item)
        case Err(e) => Err(e)
        case Ok(d) => Ok(Progress(d, next, p.landed + [id]))
  }

  function WriteNext(inner: Table, before: Result<Progress>, parent: string, key: string, item: Json, rid: string, gen: IdSource): Result<Progress> {
    if before.Ok? && item.Obj? then WriteRow(inner, before.value, parent, key, item.fields, rid, gen) else before
  }

  function WriteLoop(inner: Table, start: Progress, parent: string, key: string, list: seq<Json>, ids: seq<string>, gen: IdSource): Result<Progress>
    requires |ids| == |list|
  {
    if list == [] then Ok(start)
    else
      var n := |list| - 1;
      WriteNext(inner, WriteLoop(inner, start, parent, key, list[..n], ids[..n], gen), parent, key, list[n], ids[n], gen)
  }

  function KeepList(ids: seq<string>): set<string> {
    set i | 0 <= i < |ids| && ids[i] != "" :: ids[i]
  }

  /** ChildTable.writeRows: owned ids, resolved ids, delete, then upserts. */
  function WriteRows(ct: ChildTable, inner: Table, db: ChildDb, parent: string, key: string, list: seq<Json>, gen: IdSource, next: nat): Result<Progress>
    requires IdField(inner.cols, inner.id).Some?
  {
    var r := Resolve(ct, IdField(inner.cols, inner.id).value, Owned(ct, db.rows, parent, key), list, gen, next);
    WriteLoop(inner, Progress(DeleteExcept(ct, db, parent, key, KeepList(r.ids)), r.next, []), parent, key, list, r.ids, gen)
  }

  // --- reading -----------------------------------------------------------------------

  /** One field of one element. */
  function FieldOf(inner: Table, db: ChildDb, id: string, c: Column): Json {
    if ColumnOf(c) == Some(inner.id) then Str(id)
    else
      var cols: Row := if id in db.rows then db.rows[id].cols else map[];
      match c
      case ReadOnly(col, decode) => decode(Cell(cols, col))
      case Scalar(col, _, _, decode) => decode(Cell(cols, col))
      case KeyedStrings(side, col, _) => Texts(Read(NestedOf(db, side.name), id, col))
      case _ => Null
  }

  /** ChildTable.rowItem. */
  function RowItem(inner: Table, db: ChildDb, id: string): Json {
    Obj(map n | n in Names(inner.cols) :: FieldOf(inner, db, id, Lookup(inner.cols, n).value))
  }

  /** ChildTable.readRows. */
  function ReadRows(ct: ChildTable, inner: Table, db: ChildDb, parent: string, key: string): seq<Json> {
    var q := Select(ct, db.rows, parent, key);
    seq(|q|, i requires 0 <= i < |q| => RowItem(inner, db, q[i].id))
  }
}
