/** All tables of one entity, and what the load and save closures of its cells mean. */
module Database {
  import opened Values
  import opened SideTables
  import opened Columns
  import opened ChildTables
  import opened ChildLists
  import opened RelsTables

  datatype Db = Db(
    main: map<string, Row>,
    sides: map<string, Side>,
    childs: map<string, ChildDb>,
    rels: map<string, RelsDb>)

  function SideOf(db: Db, table: string): Side {
    if table in db.sides then db.sides[table] else map[]
  }

  function ChildOf(db: Db, table: string): ChildDb {
    if table in db.childs then db.childs[table] else ChildDb(map[], map[])
  }

  function RelsOf(db: Db, table: string): RelsDb {
    if table in db.rels then db.rels[table] else RelsDb(map[], 0, map[])
  }

  // --- cells ---------------------------------------------------------------------------

  /** One field of one row, as Table.Row reads it. */
  function FieldValue(t: Table, db: Db, id: string, c: Column): Json
    requires CellOk(c)
  {
    var row := if id in db.main then db.main[id] else map[];
    if ColumnOf(c) == Some(t.id) then Str(id)
    else
      match c
      case ReadOnly(col, decode) => decode(Cell(row, col))
      case Scalar(col, _, _, decode) => decode(Cell(row, col))
      case Deferred(col, _, _) => Normalize(Cell(row, col))
      case _ => CellLoad(db, c, id)
  }

  /** The load closure of a satellite. */
  function CellLoad(db: Db, c: Column, parent: string): Json
    requires CellOk(c)
  {
    match c
    case KeyedStrings(side, col, _) => Texts(Read(SideOf(db, side.name), parent, col))
    case Child(ct, shape) => LoadList(ct, shape, ChildOf(db, ct.name), parent)
    case Rels(rels, path, target) => Arr(Strings(ReadRels(RelsOf(db, rels.name), parent, path, target)))
    case DeferredList(list, _) => CellLoad(db, list, parent)
    case _ => Null
  }

  /** The declaration gates of the constructors. */
  ghost predicate CellOk(c: Column) {
    match c
    case Child(ct, shape) => ShapeOk(ct, shape)
    case DeferredList(list, _) => CellOk(list) && IsList(list)
    case _ => true
  }

  /** Wire kind list: ChildValues and Rels, wrapped or not. */
  predicate IsList(c: Column) {
    match c
    case Child(ct, shape) => shape.Values? && !ct.partitioned
    case Rels(_, _, _) => true
    case DeferredList(_, _) => true
    case _ => false
  }

  /** What a save closure leaves: the tables, the generator, and the echo, which is
      nil when the value did not parse and nothing was written. */
  datatype Saved = Saved(db: Db, next: nat, echo: Json)

  /** DeferredList: every element resolved, nil results skipped. */
  function ResolveAll(resolve: (string, Json) -> Result<Json>, parent: string, list: seq<Json>): Result<seq<Json>> {
    if list == [] then Ok([])
    else
      match ResolveAll(resolve, parent, list[..|list| - 1])
      case Err(e) => Err(e)
      case Ok(done) =>
        match resolve(parent, list[|list| - 1])
        case Err(e) => Err(e)
        case Ok(v) => Ok(if v == Null then done else done + [v])
  }

  function SaveKeyed(db: Db, next: nat, side: KeyedTable, col: string, clear: Clear, parent: string, v: Json): Result<Saved> {
    if !v.Obj? then Ok(Saved(db, next, Null))
    else
      match WriteMany(side, db.main.Keys, SideOf(db, side.name), parent, [Write(col, clear, v.fields)])
      case Err(e) => Err(e)
      case Ok(s) => Ok(Saved(db.(sides := db.sides[side.name := s]), next, Texts(Read(s, parent, col))))
  }

  function SaveChild(db: Db, next: nat, ct: ChildTable, shape: Shape, parent: string, v: Json, gen: IdSource): Result<Saved>
    requires ShapeOk(ct, shape)
  {
    match SaveList(ct, shape, ChildState(ChildOf(db, ct.name), next), parent, v, gen)
    case Err(e) => Err(e)
    case Ok(None) => Ok(Saved(db, next, Null))
    case Ok(Some(st)) => Ok(Saved(db.(childs := db.childs[ct.name := st.db]), st.next, LoadList(ct, shape, st.db, parent)))
  }

  function SaveRels(db: Db, next: nat, rels: RelsTable, path: string, target: string, parent: string, v: Json): Result<Saved> {
    if !v.Arr? then Ok(Saved(db, next, Null))
    else
      var ids := IdSlice(v.items);
      match ReplaceRels(rels.cast, RelsOf(db, rels.name), parent, path, target, ids)
      case Err(e) => Err(e)
      case Ok(d) => Ok(Saved(db.(rels := db.rels[rels.name := d]), next, Arr(Strings(ids))))
  }

  /** The save closure of a cell. */
  function CellSave(db: Db, next: nat, c: Column, parent: string, v: Json, gen: IdSource): Result<Saved>
    requires CellOk(c)
    decreases c
  {
    match c
    case KeyedStrings(side, col, clear) => SaveKeyed(db, next, side, col, clear, parent, v)
    case Child(ct, shape) => SaveChild(db, next, ct, shape, parent, v, gen)
    case Rels(rels, path, target) => SaveRels(db, next, rels, path, target, parent, v)
    case DeferredList(list, resolve) =>
      if !v.Arr? then CellSave(db, next, list, parent, v, gen)
      else
        (match ResolveAll(resolve, parent, v.items)
         case Err(e) => Err(e)
         case Ok(items) => CellSave(db, next, list, parent, Arr(items), gen))
    case Deferred(col, resolve, _) =>
      (match resolve(parent, v)
       case Err(e) => Err(e)
       case Ok(r) => Ok(Saved(db, next, r)))
    case _ => Ok(Saved(db, next, Null))
  }

  // --- invariants -----------------------------------------------------------------------

  /** What every statement of the store keeps: untaken generated ids, nested foreign
      keys, sequences ahead of their keys. */
  ghost predicate Sound(db: Db, gen: IdSource, next: nat) {
    && (forall n :: n in db.childs ==> Unissued(gen, next, db.childs[n].rows) && NestedKeys(db.childs[n]))
    && (forall n :: n in db.rels ==> SerialAhead(db.rels[n]))
  }
}
