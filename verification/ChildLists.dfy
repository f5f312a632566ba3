/** The two shapes of a child list, one partition at a time and keyed by partition
    (adapter/erjet/child.go). */
module ChildLists {
  import opened Values
  import opened Ordering
  import opened Columns
  import opened ChildTables

  /** The table and the generator between two writes. */
  datatype ChildState = ChildState(db: ChildDb, next: nat)

  // --- a list of scalars ------------------------------------------------------------------

  /** One INSERT of replaceValues; a value its cell does not parse is skipped. */
  function InsertNext(elem: Column, before: Result<Progress>, parent: string, key: string, v: Json, gen: IdSource): Result<Progress>
    requires elem.Scalar?
  {
    if before.Err? || elem.parse(v).None? then before
    else
      var p, id := before.value, gen(before.value.next);
      match elem.admit(elem.parse(v).value.stored)
      case Err(e) => Err(e)
      case Ok(image) =>
        if id in p.db.rows then Err(UniqueViolation)
        else
          var row := ChildRow(parent, key, Some(WriteOrder(|p.landed|)), map[elem.col := image]);
          Ok(Progress(p.db.(rows := p.db.rows[id := row]), p.next + 1, p.landed + [id]))
  }

  function InsertLoop(elem: Column, start: Progress, parent: string, key: string, list: seq<Json>, gen: IdSource): Result<Progress>
    requires elem.Scalar?
  {
    if list == [] then Ok(start)
    else InsertNext(elem, InsertLoop(elem, start, parent, key, list[..|list| - 1], gen), parent, key, list[|list| - 1], gen)
  }

  /** ChildTable.replaceValues. */
  function ReplaceValues(ct: ChildTable, elem: Column, db: ChildDb, parent: string, key: string, list: seq<Json>, gen: IdSource, next: nat): Result<Progress>
    requires elem.Scalar?
  {
    InsertLoop(elem, Progress(DeleteExcept(ct, db, parent, key, {}), next, []), parent, key, list, gen)
  }

  function ValueOf(elem: Column, db: ChildDb, id: string): Json
    requires elem.Scalar?
  {
    elem.decode(Cell(if id in db.rows then db.rows[id].cols else map[], elem.col))
  }

  /** ChildTable.readValues. */
  function ReadValues(ct: ChildTable, elem: Column, db: ChildDb, parent: string, key: string): seq<Json>
    requires elem.Scalar?
  {
    var q := Select(ct, db.rows, parent, key);
    seq(|q|, i requires 0 <= i < |q| => ValueOf(elem, db, q[i].id))
  }

  // --- one partition ------------------------------------------------------------------------

  /** The declaration gates of the four constructors. */
  ghost predicate ShapeOk(ct: ChildTable, shape: Shape) {
    match shape
    case Rows(inner) => ElementOk(ct, inner)
    case Values(elem) => elem.Scalar?
  }

  function Advance(r: Result<Progress>): Result<ChildState> {
    match r
    case Err(e) => Err(e)
    case Ok(p) => Ok(ChildState(p.db, p.next))
  }

  function WritePartition(ct: ChildTable, shape: Shape, st: ChildState, parent: string, key: string, list: seq<Json>, gen: IdSource): Result<ChildState>
    requires ShapeOk(ct, shape)
  {
    match shape
    case Rows(inner) => Advance(WriteRows(ct, inner, st.db, parent, key, list, gen, st.next))
    case Values(elem) => Advance(ReplaceValues(ct, elem, st.db, parent, key, list, gen, st.next))
  }

  function ReadPartition(ct: ChildTable, shape: Shape, db: ChildDb, parent: string, key: string): seq<Json>
    requires ShapeOk(ct, shape)
  {
    match shape
    case Rows(inner) => ReadRows(ct, inner, db, parent, key)
    case Values(elem) => ReadValues(ct, elem, db, parent, key)
  }

  // --- all partitions -------------------------------------------------------------------------

  /** A payload entry that names a partition and carries a list; anything else is
      left alone. */
  predicate Patches(patch: map<string, Json>, key: string) {
    key in patch && key != "" && patch[key].Arr?
  }

  function WritePart(ct: ChildTable, shape: Shape, before: Result<ChildState>, parent: string, patch: map<string, Json>, key: string, gen: IdSource): Result<ChildState>
    requires ShapeOk(ct, shape)
  {
    if before.Ok? && Patches(patch, key) then WritePartition(ct, shape, before.value, parent, key, patch[key].items, gen) else before
  }

  function WriteParts(ct: ChildTable, shape: Shape, st: ChildState, parent: string, patch: map<string, Json>, keys: seq<string>, gen: IdSource): Result<ChildState>
    requires ShapeOk(ct, shape)
  {
    if keys == [] then Ok(st)
    else WritePart(ct, shape, WriteParts(ct, shape, st, parent, patch, keys[..|keys| - 1], gen), parent, patch, keys[|keys| - 1], gen)
  }

  function PartitionKeys(rows: map<string, ChildRow>, parent: string): set<string> {
    set id | id in rows && rows[id].parent == parent && rows[id].key != "" :: rows[id].key
  }

  /** The save closure: None when the value does not parse and nothing is written. */
  function SaveList(ct: ChildTable, shape: Shape, st: ChildState, parent: string, v: Json, gen: IdSource): Result<Option<ChildState>>
    requires ShapeOk(ct, shape)
  {
    if if ct.partitioned then !v.Obj? else !v.Arr? then Ok(None)
    else
      var r := if ct.partitioned then WriteParts(ct, shape, st, parent, v.fields, SortedKeys(v.fields.Keys), gen)
               else WritePartition(ct, shape, st, parent, "", v.items, gen);
      if r.Ok? then Ok(Some(r.value)) else Err(r.error)
  }

  function LoadParts(ct: ChildTable, shape: Shape, db: ChildDb, parent: string, keys: set<string>): (m: map<string, Json>)
    requires ShapeOk(ct, shape)
    ensures m.Keys == keys
    ensures forall k :: k in keys ==> m[k] == Arr(ReadPartition(ct, shape, db, parent, k))
  {
    map k | k in keys :: Arr(ReadPartition(ct, shape, db, parent, k))
  }

  /** The load closure: one list, or one per partition that has rows. */
  function LoadList(ct: ChildTable, shape: Shape, db: ChildDb, parent: string): Json
    requires ShapeOk(ct, shape)
  {
    if ct.partitioned then Obj(LoadParts(ct, shape, db, parent, PartitionKeys(db.rows, parent)))
    else Arr(ReadPartition(ct, shape, db, parent, ""))
  }
}
