/** One open transaction: the statements the store sends, each of which may fail. */
module Transaction {
  import opened Values
  import opened SideTables
  import opened Columns
  import opened ChildTables
  import opened RelsTables
  import opened Database
  import opened StoreSpec

  /** A side table of the entity, or one nested under the elements of a child table. */
  datatype Place = OfEntity(table: string) | OfElement(child: string, table: string)

  predicate HasPlace(db: Db, place: Place) {
    match place
    case OfEntity(table) => table in db.sides
    case OfElement(child, table) => child in db.childs && table in db.childs[child].nested
  }

  function SideAt(db: Db, place: Place): Side {
    match place
    case OfEntity(table) => SideOf(db, table)
    case OfElement(child, table) => NestedOf(ChildOf(db, child), table)
  }

  function PutSide(db: Db, place: Place, side: Side): Db {
    match place
    case OfEntity(table) => db.(sides := db.sides[table := side])
    case OfElement(child, table) => PutChild(db, child, ChildOf(db, child).(nested := ChildOf(db, child).nested[table := side]))
  }

  /** The rows a side table refers to. */
  function Parents(db: Db, place: Place): set<string> {
    match place
    case OfEntity(_) => db.main.Keys
    case OfElement(child, _) => ChildOf(db, child).rows.Keys
  }

  function PutChild(db: Db, table: string, d: ChildDb): Db {
    db.(childs := db.childs[table := d])
  }

  lemma PutSame(db: Db, place: Place)
    requires HasPlace(db, place)
    ensures PutSide(db, place, SideAt(db, place)) == db
  {
    match place
    case OfEntity(t) => assert db.sides[t := db.sides[t]] == db.sides;
    case OfElement(c, t) =>
      var d := db.childs[c];
      assert d.nested[t := d.nested[t]] == d.nested;
      assert db.childs[c := d] == db.childs;
  }

  lemma PutAgain(db: Db, place: Place, a: Side, b: Side)
    ensures PutSide(PutSide(db, place, a), place, b) == PutSide(db, place, b)
    ensures SideAt(PutSide(db, place, a), place) == a
    ensures HasPlace(PutSide(db, place, a), place)
    ensures Parents(PutSide(db, place, a), place) == Parents(db, place)
  {
    match place
    case OfEntity(t) => assert db.sides[t := a][t := b] == db.sides[t := b];
    case OfElement(c, t) =>
      var n := ChildOf(db, c).nested;
      assert n[t := a][t := b] == n[t := b];
      var d, e := ChildOf(db, c).(nested := n[t := a]), ChildOf(db, c).(nested := n[t := b]);
      assert db.childs[c := d][c := e] == db.childs[c := e];
  }

  /** Every nested row hangs on an element that exists. */
  ghost predicate NestedSafe(db: Db) {
    forall n :: n in db.childs ==> NestedKeys(db.childs[n])
  }

  lemma ChildSafe(db: Db, table: string, d: ChildDb)
    requires NestedSafe(db) && NestedKeys(d)
    ensures NestedSafe(PutChild(db, table, d))
  {}

  lemma ChildrenSafe(db: Db, table: string)
    requires NestedSafe(db)
    ensures NestedKeys(ChildOf(db, table))
  {}

  lemma MoreRowsSafe(d: ChildDb, id: string, row: ChildRow)
    requires NestedKeys(d)
    ensures NestedKeys(d.(rows := d.rows[id := row]))
  {
    var e := d.(rows := d.rows[id := row]);
    forall t, pk | pk in NestedOf(e, t) ensures pk.0 in e.rows { assert pk in NestedOf(d, t); }
  }

  /** Changing one row of a side table keeps the foreign keys if that row had or has a
      parent. */
  lemma SideSafe(db: Db, place: Place, parent: string, key: string, row: Option<Row>)
    requires NestedSafe(db)
    requires row.Some? ==> parent in Parents(db, place) || At(SideAt(db, place), parent, key).Some?
    ensures NestedSafe(PutSide(db, place, Put(SideAt(db, place), parent, key, row)))
  {
    if place.OfElement? {
      var d := ChildOf(db, place.child);
      ChildrenSafe(db, place.child);
      var side := Put(NestedOf(d, place.table), parent, key, row);
      var e := d.(nested := d.nested[place.table := side]);
      forall t, pk | pk in NestedOf(e, t) ensures pk.0 in e.rows {
        if t == place.table && pk == (parent, key) {
          assert row.Some?;
        } else {
          assert pk in NestedOf(d, t);
        }
      }
      ChildSafe(db, place.child, e);
    }
  }

  lemma DropSafe(db: Db, id: string, restrict: set<string>)
    requires NestedSafe(db) && DeleteMain(db, id, restrict).Ok?
    ensures NestedSafe(DeleteMain(db, id, restrict).value)
  {
    var out := DeleteMain(db, id, restrict).value;
    forall n | n in out.childs ensures NestedKeys(out.childs[n]) {
      if id in db.main {
        var d, e := db.childs[n], out.childs[n];
        forall t, pk | pk in NestedOf(e, t) ensures pk.0 in e.rows { assert pk in NestedOf(d, t); }
      }
    }
  }

  /** An open transaction. No code changes its tables but the statements below, and
      every one of them keeps the foreign keys of nested rows. */
  class Tx {
    var db: Db
    /** How many identifiers the generators have drawn. */
    var next: nat
    /** How many statements were sent. */
    var steps: nat
    const gen: IdSource
    /** Which statements the driver fails. */
    const faults: nat -> bool

    constructor (db: Db, next: nat, gen: IdSource, faults: nat -> bool)
      ensures this.db == db && this.next == next && this.gen == gen && this.faults == faults && steps == 0
    {
      this.db, this.next, this.steps, this.gen, this.faults := db, next, 0, gen, faults;
    }

    /** Some statement since then was failed by the driver. */
    ghost predicate Faulted(since: nat)
      reads this
    {
      exists k :: since <= k < steps && faults(k)
    }

    method Send() returns (ok: bool)
      modifies this`steps
      ensures steps == old(steps) + 1
      ensures ok <==> !faults(old(steps))
    {
      ok := !faults(steps);
      steps := steps + 1;
    }

    method NewID() returns (id: string)
      modifies this`next
      ensures id == gen(old(next)) && next == old(next) + 1
    {
      id := gen(next);
      next := next + 1;
    }

    // --- side tables ---------------------------------------------------------------------

    method ClearCell(kt: KeyedTable, place: Place, parent: string, key: string, col: string, clear: Clear) returns (s: Status)
      requires HasPlace(db, place)
      modifies this`db, this`steps
      ensures steps == old(steps) + 1
      ensures match s
        case Ok(_) =>
          var r := ClearRow(kt, At(SideAt(old(db), place), parent, key), col, clear);
          r.Ok? && db == PutSide(old(db), place, Put(SideAt(old(db), place), parent, key, r.value))
        case Err(e) => (e == Unavailable && faults(old(steps))) || ClearRow(kt, At(SideAt(old(db), place), parent, key), col, clear) == Err(e)
      ensures NestedSafe(old(db)) ==> NestedSafe(db)
    {
      var ok := Send();
      if !ok { return Err(Unavailable); }
      var side := SideAt(db, place);
      match ClearRow(kt, At(side, parent, key), col, clear) {
        case Err(e) => return Err(e);
        case Ok(r) =>
          if NestedSafe(db) { SideSafe(db, place, parent, key, r); }
          db := PutSide(db, place, Put(side, parent, key, r)); return Ok(());
      }
    }

    method UpsertCells(kt: KeyedTable, place: Place, parent: string, key: string, vals: Row) returns (s: Status)
      requires HasPlace(db, place)
      modifies this`db, this`steps
      ensures steps == old(steps) + 1
      ensures match s
        case Ok(_) =>
          var r := UpsertRow(kt, parent in Parents(old(db), place), At(SideAt(old(db), place), parent, key), vals);
          r.Ok? && db == PutSide(old(db), place, Put(SideAt(old(db), place), parent, key, r.value))
        case Err(e) =>
          (e == Unavailable && faults(old(steps))) || UpsertRow(kt, parent in Parents(old(db), place), At(SideAt(old(db), place), parent, key), vals) == Err(e)
      ensures NestedSafe(old(db)) ==> NestedSafe(db)
    {
      var ok := Send();
      if !ok { return Err(Unavailable); }
      var side := SideAt(db, place);
      match UpsertRow(kt, parent in Parents(db, place), At(side, parent, key), vals) {
        case Err(e) => return Err(e);
        case Ok(r) =>
          if NestedSafe(db) { SideSafe(db, place, parent, key, r); }
          db := PutSide(db, place, Put(side, parent, key, r)); return Ok(());
      }
    }

    // --- child tables -----------------------------------------------------------------------

    method SelectIds(ct: ChildTable, parent: string, key: string) returns (r: Result<seq<Slot>>)
      modifies this`steps
      ensures steps == old(steps) + 1
      ensures match r
        case Ok(q) => q == Select(ct, ChildOf(db, ct.name).rows, parent, key)
        case Err(e) => e == Unavailable && faults(old(steps))
    {
      var ok := Send();
      if !ok { return Err(Unavailable); }
      return Ok(Select(ct, ChildOf(db, ct.name).rows, parent, key));
    }

    method DeleteChildren(ct: ChildTable, parent: string, key: string, keep: set<string>) returns (s: Status)
      modifies this`db, this`steps
      ensures steps == old(steps) + 1
      ensures match s
        case Ok(_) => db == PutChild(old(db), ct.name, DeleteExcept(ct, ChildOf(old(db), ct.name), parent, key, keep))
        case Err(e) => e == Unavailable && faults(old(steps))
      ensures NestedSafe(old(db)) ==> NestedSafe(db)
    {
      var ok := Send();
      if !ok { return Err(Unavailable); }
      if NestedSafe(db) {
        DeleteKeepsKeys(ct, ChildOf(db, ct.name), parent, key, keep);
        ChildSafe(db, ct.name, DeleteExcept(ct, ChildOf(db, ct.name), parent, key, keep));
      }
      db := PutChild(db, ct.name, DeleteExcept(ct, ChildOf(db, ct.name), parent, key, keep));
      return Ok(());
    }

    /** INSERT ... ON CONFLICT (id) DO UPDATE. */
    method UpsertChild(ct: ChildTable, id: string, parent: string, key: string, pos: nat, assigns: seq<Assign>) returns (s: Status)
      modifies this`db, this`steps
      ensures steps == old(steps) + 1
      ensures match s
        case Ok(_) =>
          var d, vals := ChildOf(old(db), ct.name), Evaluate(assigns);
          vals.Ok? && db == PutChild(old(db), ct.name, d.(rows := d.rows[id := UpsertedRow(d.rows, id, parent, key, pos, vals.value)]))
        case Err(e) => (e == Unavailable && faults(old(steps))) || Evaluate(assigns) == Err(e)
      ensures NestedSafe(old(db)) ==> NestedSafe(db)
    {
      var ok := Send();
      if !ok { return Err(Unavailable); }
      var d, vals := ChildOf(db, ct.name), Evaluate(assigns);
      if vals.Err? { return Err(vals.error); }
      var row := UpsertedRow(d.rows, id, parent, key, pos, vals.value);
      if NestedSafe(db) { MoreRowsSafe(d, id, row); ChildSafe(db, ct.name, d.(rows := d.rows[id := row])); }
      db := PutChild(db, ct.name, d.(rows := d.rows[id := row]));
      return Ok(());
    }

    /** INSERT of a row under this id; a taken one violates the primary key. */
    method InsertChild(ct: ChildTable, id: string, parent: string, key: string, pos: nat, assigns: seq<Assign>) returns (s: Status)
      modifies this`db, this`steps
      ensures steps == old(steps) + 1
      ensures match s
        case Ok(_) =>
          var d, vals := ChildOf(old(db), ct.name), Evaluate(assigns);
          && vals.Ok? && id !in d.rows
          && db == PutChild(old(db), ct.name, d.(rows := d.rows[id := ChildRow(parent, key, Some(WriteOrder(pos)), vals.value)]))
        case Err(e) =>
          || (e == Unavailable && faults(old(steps)))
          || Evaluate(assigns) == Err(e)
          || (e == UniqueViolation && Evaluate(assigns).Ok? && id in ChildOf(old(db), ct.name).rows)
      ensures NestedSafe(old(db)) ==> NestedSafe(db)
    {
      var ok := Send();
      if !ok { return Err(Unavailable); }
      var d, vals := ChildOf(db, ct.name), Evaluate(assigns);
      if vals.Err? { return Err(vals.error); }
      if id in d.rows { return Err(UniqueViolation); }
      var row := ChildRow(parent, key, Some(WriteOrder(pos)), vals.value);
      if NestedSafe(db) { MoreRowsSafe(d, id, row); ChildSafe(db, ct.name, d.(rows := d.rows[id := row])); }
      db := PutChild(db, ct.name, d.(rows := d.rows[id := row]));
      return Ok(());
    }

    // --- relations --------------------------------------------------------------------------

    method DeleteRels(table: string, parent: string, path: string) returns (s: Status)
      modifies this`db, this`steps
      ensures steps == old(steps) + 1
      ensures match s
        case Ok(_) => db == old(db).(rels := old(db).rels[table := DeletePath(RelsOf(old(db), table), parent, path)])
        case Err(e) => e == Unavailable && faults(old(steps))
      ensures NestedSafe(old(db)) ==> NestedSafe(db)
    {
      var ok := Send();
      if !ok { return Err(Unavailable); }
      db := db.(rels := db.rels[table := DeletePath(RelsOf(db, table), parent, path)]);
      return Ok(());
    }

    /** INSERT of one relation: the cast of its target, then its foreign key. */
    method InsertRelation(rels: RelsTable, parent: string, path: string, order: nat, column: string, id: string) returns (s: Status)
      modifies this`db, this`steps
      ensures steps == old(steps) + 1
      ensures match s
        case Ok(_) =>
          var r := InsertRel(rels.cast, RelsOf(old(db), rels.name), parent, path, order, column, id);
          r.Ok? && db == old(db).(rels := old(db).rels[rels.name := r.value])
        case Err(e) => (e == Unavailable && faults(old(steps))) || InsertRel(rels.cast, RelsOf(old(db), rels.name), parent, path, order, column, id) == Err(e)
      ensures NestedSafe(old(db)) ==> NestedSafe(db)
    {
      var ok := Send();
      if !ok { return Err(Unavailable); }
      match InsertRel(rels.cast, RelsOf(db, rels.name), parent, path, order, column, id) {
        case Err(e) => return Err(e);
        case Ok(d) => db := db.(rels := db.rels[rels.name := d]); return Ok(());
      }
    }

    // --- the main table -----------------------------------------------------------------------

    /** Table.UpdateSQL: an empty SET is the caller's error. */
    method UpdateRow(id: string, assigns: seq<Assign>, clock: Clock) returns (s: Status)
      requires assigns != []
      modifies this`db, this`steps
      ensures steps == old(steps) + 1
      ensures match s
        case Ok(_) => Update(old(db), id, assigns, clock) == Ok(db)
        case Err(e) => (e == Unavailable && faults(old(steps))) || Update(old(db), id, assigns, clock) == Err(e)
      ensures NestedSafe(old(db)) ==> NestedSafe(db)
    {
      var ok := Send();
      if !ok { return Err(Unavailable); }
      match Update(db, id, assigns, clock) {
        case Err(e) => return Err(e);
        case Ok(d) => db := d; return Ok(());
      }
    }

    method InsertRow(id: string, row: Row) returns (s: Status)
      modifies this`db, this`steps
      ensures steps == old(steps) + 1
      ensures match s
        case Ok(_) => id !in old(db).main && db == old(db).(main := old(db).main[id := row])
        case Err(e) => (e == Unavailable && faults(old(steps))) || (e == UniqueViolation && id in old(db).main)
      ensures NestedSafe(old(db)) ==> NestedSafe(db)
    {
      var ok := Send();
      if !ok { return Err(Unavailable); }
      if id in db.main { return Err(UniqueViolation); }
      db := db.(main := db.main[id := row]);
      return Ok(());
    }

    method DeleteEntity(id: string, restrict: set<string>) returns (s: Status)
      modifies this`db, this`steps
      ensures steps == old(steps) + 1
      ensures match s
        case Ok(_) => DeleteMain(old(db), id, restrict) == Ok(db)
        case Err(e) => (e == Unavailable && faults(old(steps))) || DeleteMain(old(db), id, restrict) == Err(e)
      ensures NestedSafe(old(db)) ==> NestedSafe(db)
    {
      var ok := Send();
      if !ok { return Err(Unavailable); }
      match DeleteMain(db, id, restrict) {
        case Err(e) => return Err(e);
        case Ok(d) =>
          if NestedSafe(db) { DropSafe(db, id, restrict); }
          db := d; return Ok(());
      }
    }
  }
}
