/** One save of adapter/erjet/store.go as a function of the database: the two write
    phases and the reported diff. */
module StoreSpec {
  import opened Values
  import opened SideTables
  import opened Columns
  import opened ChildTables
  import opened Database

  /** One field of a record diff, both sides in wire form. */
  datatype Change = Change(field: string, was: Json, now: Json)

  /** Table.Assignments: what SET writes, which fields, and their wire values. */
  datatype Plan = Plan(assigns: seq<Assign>, changed: seq<string>, newVals: map<string, Json>)

  // --- splitting the payload ---------------------------------------------------------------

  /** The second phase: cells with a save closure, an explicit null only of satellites. */
  predicate InSecond(nc: Named, input: map<string, Json>) {
    nc.column.Saves() && nc.name in input && (input[nc.name] != Null || nc.column.IsSatellite())
  }

  /** The first phase: the other writable cells that were sent. */
  predicate InFirst(nc: Named, input: map<string, Json>) {
    nc.column.Writable() && !nc.column.IsSatellite() && nc.name in input && !(nc.column.Saves() && input[nc.name] != Null)
  }

  /** The assign closure: of Deferred only an explicit null. */
  function AssignParse(c: Column, v: Json): Option<Parsed> {
    match c
    case Scalar(_, parse, _, _) => parse(v)
    case Deferred(_, _, _) => if v == Null then Some(Parsed(SqlNull, Null)) else None
    case _ => None
  }

  function ColumnName(c: Column): string {
    if ColumnOf(c).Some? then ColumnOf(c).value else ""
  }

  /** The server's side of the column a cell assigns; a deferred column casts to uuid. */
  function AdmitOf(c: Column): Admit {
    match c
    case Scalar(_, _, admit, _) => admit
    case Deferred(_, _, admit) => admit
    case _ => v => Ok(v)
  }

  function AssignNext(p: Plan, nc: Named, input: map<string, Json>): Plan {
    if InFirst(nc, input) && AssignParse(nc.column, input[nc.name]).Some? then
      var x := AssignParse(nc.column, input[nc.name]).value;
      Plan(p.assigns + [Assign(ColumnName(nc.column), x.stored, AdmitOf(nc.column))], p.changed + [nc.name], p.newVals[nc.name := x.echo])
    else p
  }

  function Assignments(cols: seq<Named>, input: map<string, Json>): Plan {
    if cols == [] then Plan([], [], map[])
    else AssignNext(Assignments(cols[..|cols| - 1], input), cols[|cols| - 1], input)
  }

  function DeferredCells(cols: seq<Named>, input: map<string, Json>): seq<Named> {
    if cols == [] then []
    else
      var nc := cols[|cols| - 1];
      DeferredCells(cols[..|cols| - 1], input) + (if InSecond(nc, input) then [nc] else [])
  }

  function NamesOf(cells: seq<Named>): seq<string> {
    seq(|cells|, i requires 0 <= i < |cells| => cells[i].name)
  }

  // --- statements -------------------------------------------------------------------------

  /** Row bookkeeping set on every UPDATE: the touch column and the server's now(). */
  datatype Clock = Clock(touch: Option<string>, now: Sql)

  function Touched(row: Row, clock: Clock): Row {
    if clock.touch.Some? then row[clock.touch.value := clock.now] else row
  }

  /** UPDATE ... SET of one row. The server evaluates the values whether or not a row is
      found. */
  function Update(db: Db, id: string, assigns: seq<Assign>, clock: Clock): Result<Db> {
    match Evaluate(assigns)
    case Err(e) => Err(e)
    case Ok(vals) =>
      if id in db.main then Ok(db.(main := db.main[id := Touched(db.main[id] + vals, clock)]))
      else Ok(db)
  }

  /** UPDATE only when there is something to set. */
  function UpdateIfAny(db: Db, id: string, assigns: seq<Assign>, clock: Clock): Result<Db> {
    if assigns == [] then Ok(db) else Update(db, id, assigns, clock)
  }

  // --- grouped side tables -------------------------------------------------------------------

  /** A KeyedStrings cell whose payload is a map is written by its group. */
  predicate Handled(nc: Named, input: map<string, Json>) {
    nc.column.KeyedStrings? && nc.name in input && input[nc.name].Obj?
  }

  /** The side tables to write, in order of first appearance. */
  function GroupTables(cells: seq<Named>, input: map<string, Json>): seq<KeyedTable> {
    if cells == [] then []
    else
      var nc, done := cells[|cells| - 1], GroupTables(cells[..|cells| - 1], input);
      if Handled(nc, input) && (forall i :: 0 <= i < |done| ==> done[i].name != nc.column.side.name) then done + [nc.column.side] else done
  }

  function GroupWrites(cells: seq<Named>, input: map<string, Json>, table: string): seq<Write> {
    if cells == [] then []
    else
      var nc, done := cells[|cells| - 1], GroupWrites(cells[..|cells| - 1], input, table);
      if Handled(nc, input) && nc.column.side.name == table
      then done + [Write(nc.column.col, nc.column.clear, input[nc.name].fields)] else done
  }

  function WriteGroup(before: Result<Db>, id: string, cells: seq<Named>, input: map<string, Json>, kt: KeyedTable): Result<Db> {
    if before.Err? then before
    else
      match WriteMany(kt, before.value.main.Keys, SideOf(before.value, kt.name), id, GroupWrites(cells, input, kt.name))
      case Err(e) => Err(e)
      case Ok(s) => Ok(before.value.(sides := before.value.sides[kt.name := s]))
  }

  function WriteGroups(db: Db, id: string, cells: seq<Named>, input: map<string, Json>, tables: seq<KeyedTable>): Result<Db> {
    if tables == [] then Ok(db)
    else WriteGroup(WriteGroups(db, id, cells, input, tables[..|tables| - 1]), id, cells, input, tables[|tables| - 1])
  }

  // --- the second phase ------------------------------------------------------------------------

  datatype Second = Second(db: Db, next: nat, changed: seq<string>, newVals: map<string, Json>, back: seq<Assign>)

  ghost predicate CellsOk(cols: seq<Named>) {
    forall nc :: nc in cols ==> CellOk(nc.column)
  }

  /** assignOf: the deferred column takes the resolved value, cast to uuid. */
  function AssignOf(c: Column, v: Json): Assign {
    Assign(ColumnName(c), SqlText(StringOf(v)), AdmitOf(c))
  }

  /** One cell: read back what its group wrote, or run its save closure. */
  function SecondSave(s: Second, id: string, nc: Named, input: map<string, Json>, gen: IdSource): Result<Saved>
    requires CellOk(nc.column)
  {
    if Handled(nc, input) then Ok(Saved(s.db, s.next, CellLoad(s.db, nc.column, id)))
    else CellSave(s.db, s.next, nc.column, id, if nc.name in input then input[nc.name] else Null, gen)
  }

  function Record(s: Second, nc: Named, out: Saved): Second {
    if out.echo == Null then s.(db := out.db, next := out.next)
    else Second(out.db, out.next, s.changed + [nc.name], s.newVals[nc.name := out.echo],
                if nc.column.IsSatellite() then s.back else s.back + [AssignOf(nc.column, out.echo)])
  }

  function SecondNext(before: Result<Second>, id: string, nc: Named, input: map<string, Json>, gen: IdSource): Result<Second>
    requires CellOk(nc.column)
  {
    if before.Err? then before
    else
      match SecondSave(before.value, id, nc, input, gen)
      case Err(e) => Err(e)
      case Ok(out) => Ok(Record(before.value, nc, out))
  }

  function SecondPhase(start: Second, id: string, cells: seq<Named>, input: map<string, Json>, gen: IdSource): Result<Second>
    requires CellsOk(cells)
  {
    if cells == [] then Ok(start)
    else
      assert cells[|cells| - 1] in cells;
      SecondNext(SecondPhase(start, id, cells[..|cells| - 1], input, gen), id, cells[|cells| - 1], input, gen)
  }

  /** Everything after the first UPDATE or the INSERT, up to the commit. */
  function Finish(start: Second, id: string, cells: seq<Named>, input: map<string, Json>, clock: Clock, gen: IdSource): Result<Second>
    requires CellsOk(cells)
  {
    match WriteGroups(start.db, id, cells, input, GroupTables(cells, input))
    case Err(e) => Err(e)
    case Ok(db) =>
      match SecondPhase(start.(db := db), id, cells, input, gen)
      case Err(e) => Err(e)
      case Ok(s) =>
        match UpdateIfAny(s.db, id, s.back, clock)
        case Err(e) => Err(e)
        case Ok(d) => Ok(s.(db := d))
  }

  // --- saves -------------------------------------------------------------------------------

  /** fmt.Sprint: not injective, so equal renderings hide a change. */
  type Render = Json -> string

  function At0(m: map<string, Json>, k: string): Json {
    if k in m then m[k] else Null
  }

  function Diff(render: Render, keys: seq<string>, before: map<string, Json>, after: map<string, Json>): seq<Change> {
    if keys == [] then []
    else
      var k := keys[|keys| - 1];
      Diff(render, keys[..|keys| - 1], before, after)
      + (if render(At0(before, k)) == render(At0(after, k)) then [] else [Change(k, At0(before, k), At0(after, k))])
  }

  /** Table.Row over the listed fields of an existing row. */
  function RowOf(t: Table, db: Db, id: string, keys: seq<string>): map<string, Json>
    requires CellsOk(t.cols)
  {
    map k | k in keys && k in Names(t.cols) :: FieldValue(t, db, id, Lookup(t.cols, k).value)
  }

  /** Store.Load: every declared field, or no row. */
  function Load(t: Table, db: Db, id: string): Option<map<string, Json>>
    requires CellsOk(t.cols)
  {
    if id in db.main then Some(map k | k in Names(t.cols) :: FieldValue(t, db, id, Lookup(t.cols, k).value)) else None
  }

  /** The state after a commit, the row, and what the listener is told, if anything. */
  datatype Outcome = Outcome(db: Db, next: nat, id: string, report: Option<seq<Change>>)

  lemma {:induction false} DeferredOk(cols: seq<Named>, input: map<string, Json>)
    requires CellsOk(cols)
    ensures CellsOk(DeferredCells(cols, input))
    ensures forall nc :: nc in DeferredCells(cols, input) <==> nc in cols && InSecond(nc, input)
  {
    if cols != [] {
      DeferredOk(cols[..|cols| - 1], input);
      assert cols == cols[..|cols| - 1] + [cols[|cols| - 1]];
    }
  }

  /** Store.Save with an id. */
  function SaveUpdate(t: Table, clock: Clock, render: Render, db: Db, next: nat, id: string, input: map<string, Json>, gen: IdSource): Result<Outcome>
    requires CellsOk(t.cols)
  {
    DeferredOk(t.cols, input);
    var plan, cells := Assignments(t.cols, input), DeferredCells(t.cols, input);
    if id !in db.main then Err(NotFound)
    else if plan.assigns == [] && cells == [] then Ok(Outcome(db, next, id, None))
    else
      var before := RowOf(t, db, id, plan.changed + NamesOf(cells));
      match UpdateIfAny(db, id, plan.assigns, clock)
      case Err(e) => Err(e)
      case Ok(db1) =>
        match Finish(Second(db1, next, plan.changed, plan.newVals, []), id, cells, input, clock, gen)
        case Err(e) => Err(e)
        case Ok(s) => Ok(Outcome(s.db, s.next, id, Some(Diff(render, s.changed, before, s.newVals))))
  }

  /** The Create hook: it inserts one row of its own choosing and reports a diff, or fails. */
  datatype Hook = Inserts(id: string, row: Row, changes: seq<Change>) | Fails

  /** mergeHookChanges: a field reported by Assignments is not reported again. */
  function MergeHook(changes: seq<Change>, p: Plan): Plan {
    if changes == [] then p
    else
      var q, c := MergeHook(changes[..|changes| - 1], p), changes[|changes| - 1];
      if c.field in q.newVals then q else q.(changed := q.changed + [c.field], newVals := q.newVals[c.field := c.now])
  }

  function Created(changed: seq<string>, newVals: map<string, Json>): seq<Change> {
    seq(|changed|, i requires 0 <= i < |changed| => Change(changed[i], Null, At0(newVals, changed[i])))
  }

  /** Store.Save without an id. */
  function SaveCreate(t: Table, clock: Clock, hook: Hook, db: Db, next: nat, input: map<string, Json>, gen: IdSource): Result<Outcome>
    requires CellsOk(t.cols)
  {
    DeferredOk(t.cols, input);
    match hook
    case Fails => Err(HookFailure)
    case Inserts(id, row, changes) =>
      if id in db.main then Err(UniqueViolation)
      else
        var plan := MergeHook(changes, Assignments(t.cols, input));
        var start := Second(db.(main := db.main[id := row]), next, plan.changed, plan.newVals, plan.assigns);
        match Finish(start, id, DeferredCells(t.cols, input), input, clock, gen)
        case Err(e) => Err(e)
        case Ok(s) => Ok(Outcome(s.db, s.next, id, Some(Created(s.changed, s.newVals))))
  }

  // --- deleting a row -----------------------------------------------------------------------

  function DropParent(d: ChildDb, parent: string): ChildDb {
    var dropped := set id | id in d.rows && d.rows[id].parent == parent;
    ChildDb(d.rows - dropped, map t | t in d.nested :: Orphans(d.nested[t], dropped))
  }

  /** Rows that still refer to the row from a table whose foreign key restricts. */
  predicate Referenced(db: Db, id: string, restrict: set<string>) {
    || (exists t, pk :: t in restrict && pk in SideOf(db, t) && pk.0 == id)
    || (exists t, c :: t in restrict && c in ChildOf(db, t).rows && ChildOf(db, t).rows[c].parent == id)
    || (exists t, r :: t in restrict && r in RelsOf(db, t).rows && RelsOf(db, t).rows[r].parent == id)
  }

  /** DELETE of one row: other tables cascade unless they restrict. */
  function DeleteMain(db: Db, id: string, restrict: set<string>): Result<Db> {
    if id !in db.main then Ok(db)
    else if Referenced(db, id, restrict) then Err(ForeignKeyViolation)
    else Ok(Db(
      db.main - {id},
      map t | t in db.sides :: Orphans(db.sides[t], {id}),
      map t | t in db.childs :: DropParent(db.childs[t], id),
      map t | t in db.rels :: db.rels[t].(rows := db.rels[t].rows - (set r | r in db.rels[t].rows && db.rels[t].rows[r].parent == id))))
  }

  /** conflictErr: constraint codes become the store's own sentinel. */
  function ConflictErr(e: Failure): Failure {
    if e == ForeignKeyViolation || e == NotNullViolation then ConstraintConflict else e
  }

  /** Store.Delete. */
  function DeleteSave(db: Db, id: string, restrict: set<string>): Result<Db> {
    match DeleteMain(db, id, restrict)
    case Err(e) => Err(ConflictErr(e))
    case Ok(d) => Ok(d)
  }
}
