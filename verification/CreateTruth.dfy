/** What a create leaves in its row and what the listener is told of it. */
module CreateTruth {
  import opened Values
  import opened SideTables
  import opened Columns
  import opened ChildTables
  import opened ChildTheorems
  import opened ChildLists
  import opened RelsTables
  import opened Database
  import opened CellLaws
  import opened StoreSpec
  import opened PlanLaws
  import opened GroupLaws
  import opened StoreLaws
  import opened UpdateTruth
  import opened CreateReport
  import opened DeleteLaws
  import opened Refusals
  import opened SaveEffects
  import opened RowEffects

  // --- the report is carried along ---------------------------------------------------------------

  /** The same state with more recorded before it. */
  function Onto(s: Second, changed: seq<string>, newVals: map<string, Json>): Second {
    Second(s.db, s.next, changed + s.changed, newVals + s.newVals, s.back)
  }

  function AllOnto(r: Result<Second>, changed: seq<string>, newVals: map<string, Json>): Result<Second> {
    match r
    case Err(e) => Err(e)
    case Ok(s) => Ok(Onto(s, changed, newVals))
  }

  lemma RecordOnto(s: Second, nc: Named, out: Saved, changed: seq<string>, newVals: map<string, Json>)
    ensures Record(Onto(s, changed, newVals), nc, out) == Onto(Record(s, nc, out), changed, newVals)
  {
    if out.echo != Null {
      assert (changed + s.changed) + [nc.name] == changed + (s.changed + [nc.name]);
      assert (newVals + s.newVals)[nc.name := out.echo] == newVals + s.newVals[nc.name := out.echo];
    }
  }

  lemma {:induction false} PhaseOnto(start: Second, id: string, cells: seq<Named>, input: map<string, Json>, gen: IdSource, changed: seq<string>, newVals: map<string, Json>)
    requires CellsOk(cells)
    ensures SecondPhase(Onto(start, changed, newVals), id, cells, input, gen) == AllOnto(SecondPhase(start, id, cells, input, gen), changed, newVals)
  {
    if cells != [] {
      var init, nc := cells[..|cells| - 1], cells[|cells| - 1];
      assert nc in cells && forall d :: d in init ==> d in cells;
      PhaseOnto(start, id, init, input, gen, changed, newVals);
      var before := SecondPhase(start, id, init, input, gen);
      if before.Ok? {
        var out := SecondSave(before.value, id, nc, input, gen);
        if out.Ok? { RecordOnto(before.value, nc, out.value, changed, newVals); }
      }
    }
  }

  lemma FinishOnto(start: Second, id: string, cells: seq<Named>, input: map<string, Json>, clock: Clock, gen: IdSource, changed: seq<string>, newVals: map<string, Json>)
    requires CellsOk(cells)
    ensures Finish(Onto(start, changed, newVals), id, cells, input, clock, gen) == AllOnto(Finish(start, id, cells, input, clock, gen), changed, newVals)
  {
    var grouped := WriteGroups(start.db, id, cells, input, GroupTables(cells, input));
    if grouped.Ok? { PhaseOnto(start.(db := grouped.value), id, cells, input, gen, changed, newVals); }
  }

  // --- the steps of a create -----------------------------------------------------------------------

  /** The database once the hook has inserted its row. */
  function Inserted(db: Db, hook: Hook): Db
    requires hook.Inserts?
  {
    db.(main := db.main[hook.id := hook.row])
  }

  function CreateStart(t: Table, hook: Hook, db: Db, next: nat, input: map<string, Json>): Second
    requires hook.Inserts?
  {
    Second(Inserted(db, hook), next, [], map[], Assignments(t.cols, input).assigns)
  }

  /** The phases of a create, its report aside. */
  ghost predicate CreatedBy(t: Table, clock: Clock, hook: Hook, db: Db, next: nat, input: map<string, Json>, gen: IdSource, grouped: Db, s: Second, f: Second)
    requires Bookkept(t, clock) && hook.Inserts?
  {
    DeferredOk(t.cols, input);
    var start, cells := CreateStart(t, hook, db, next, input), DeferredCells(t.cols, input);
    && StartOk(start, cells, input, gen)
    && Finish(start, hook.id, cells, input, clock, gen) == Ok(f)
    && Finished(start, hook.id, cells, input, clock, gen, grouped, s, f)
  }

  lemma CreateStartOk(t: Table, clock: Clock, hook: Hook, db: Db, next: nat, input: map<string, Json>, gen: IdSource)
    requires Bookkept(t, clock) && hook.Inserts? && Sound(db, gen, next)
    ensures CellsOk(DeferredCells(t.cols, input))
    ensures StartOk(CreateStart(t, hook, db, next, input), DeferredCells(t.cols, input), input, gen)
  {
    DeferredOk(t.cols, input);
    DeferredDistinct(t.cols, input);
  }

  lemma CreateSteps(t: Table, clock: Clock, hook: Hook, db: Db, next: nat, input: map<string, Json>, gen: IdSource) returns (grouped: Db, s: Second, f: Second)
    requires Bookkept(t, clock) && Sound(db, gen, next) && hook.Inserts?
    requires SaveCreate(t, clock, hook, db, next, input, gen).Ok?
    ensures CreatedBy(t, clock, hook, db, next, input, gen, grouped, s, f)
    ensures var out, merged := SaveCreate(t, clock, hook, db, next, input, gen).value, MergeHook(hook.changes, Assignments(t.cols, input));
      && hook.id !in db.main && out.db == f.db && out.id == hook.id
      && out.report == Some(Created(merged.changed + f.changed, merged.newVals + f.newVals))
  {
    CreateStartOk(t, clock, hook, db, next, input, gen);
    var start, cells, merged := CreateStart(t, hook, db, next, input), DeferredCells(t.cols, input), MergeHook(hook.changes, Assignments(t.cols, input));
    MergeKeepsAssigns(hook.changes, Assignments(t.cols, input));
    assert Onto(start, merged.changed, merged.newVals) == Second(Inserted(db, hook), next, merged.changed, merged.newVals, merged.assigns);
    FinishOnto(start, hook.id, cells, input, clock, gen, merged.changed, merged.newVals);
    f := Finish(start, hook.id, cells, input, clock, gen).value;
    grouped, s := FinishSound(start, hook.id, cells, input, clock, gen);
  }

  lemma {:induction false} MergeKeepsAssigns(changes: seq<Change>, p: Plan)
    ensures MergeHook(changes, p).assigns == p.assigns
  {
    if changes != [] { MergeKeepsAssigns(changes[..|changes| - 1], p); }
  }

  // --- the row ---------------------------------------------------------------------------------------

  /** The one UPDATE of a create. */
  lemma CreatedRow(t: Table, clock: Clock, hook: Hook, db: Db, next: nat, input: map<string, Json>, gen: IdSource, grouped: Db, s: Second, f: Second, col: string)
    requires Bookkept(t, clock) && hook.Inserts? && CreatedBy(t, clock, hook, db, next, input, gen, grouped, s, f)
    ensures hook.id in f.db.main && Evaluate(s.back).Ok?
    ensures clock.touch != Some(col) ==> Cell(f.db.main[hook.id], col) == CellAfter(s.back, col, Cell(hook.row, col))
    ensures clock.touch == Some(col) ==> Cell(f.db.main[hook.id], col) == if s.back == [] then Cell(hook.row, col) else clock.now
    ensures f.db.main.Keys == db.main.Keys + {hook.id}
    ensures forall p :: p in db.main && p != hook.id ==> f.db.main[p] == db.main[p]
  {
    UpdateRow(s.db, hook.id, s.back, clock);
    if clock.touch == Some(col) { TouchAfter(hook.row, s.back, clock, col); } else { RowAfterAt(hook.row, s.back, clock, col); }
  }

  lemma CreateDecides(t: Table, clock: Clock, hook: Hook, db: Db, next: nat, input: map<string, Json>, gen: IdSource, grouped: Db, s: Second, f: Second, nc: Named)
    requires TableOk(t, clock) && hook.Inserts? && CreatedBy(t, clock, hook, db, next, input, gen, grouped, s, f)
    requires nc in t.cols && !nc.column.IsSatellite() && clock.touch != ColumnOf(nc.column)
    ensures hook.id in f.db.main && Decided(hook.row, hook.id, input, nc, Cell(f.db.main[hook.id], ColumnName(nc.column)))
    ensures nc.column.Deferred? && nc.name in input && input[nc.name] != Null ==> nc.column.resolve(hook.id, input[nc.name]).Ok?
  {
    var col := ColumnName(nc.column);
    CreatedRow(t, clock, hook, db, next, input, gen, grouped, s, f, col);
    CreatedSet(t, clock, hook, db, next, input, gen, grouped, s, f, nc);
    if SetOf(s.back, col).Some? { AssignedImage(s.back, col); }
  }

  lemma CreatedSet(t: Table, clock: Clock, hook: Hook, db: Db, next: nat, input: map<string, Json>, gen: IdSource, grouped: Db, s: Second, f: Second, nc: Named)
    requires TableOk(t, clock) && hook.Inserts? && CreatedBy(t, clock, hook, db, next, input, gen, grouped, s, f)
    requires nc in t.cols && !nc.column.IsSatellite()
    ensures SetOf(s.back, ColumnName(nc.column)) == Decides(nc, hook.id, input)
    ensures nc.column.Deferred? && nc.name in input && input[nc.name] != Null ==> nc.column.resolve(hook.id, input[nc.name]).Ok?
  {
    DeferredOk(t.cols, input);
    DeferredDistinct(t.cols, input);
    PlanAt(t.cols, input, nc);
    var cells, start := DeferredCells(t.cols, input), CreateStart(t, hook, db, next, input);
    if InSecond(nc, input) {
      assert nc in cells && Processed(start.(db := grouped), hook.id, nc, input, s);
    } else {
      forall d | d in cells ensures !Touches(d.column, StorageOf(nc.column)) { SeparatePair(t.cols, d, nc); }
      assert Untouched(cells, InColumn(ColumnName(nc.column)));
    }
  }

  lemma {:induction false} BackGrows(start: Second, id: string, cells: seq<Named>, input: map<string, Json>, gen: IdSource)
    requires CellsOk(cells) && SecondPhase(start, id, cells, input, gen).Ok?
    ensures |start.back| <= |SecondPhase(start, id, cells, input, gen).value.back|
  {
    if cells != [] { BackGrows(start, id, cells[..|cells| - 1], input, gen); }
  }

  lemma CreateWrites(t: Table, clock: Clock, hook: Hook, db: Db, next: nat, input: map<string, Json>, gen: IdSource, grouped: Db, s: Second, f: Second)
    requires TableOk(t, clock) && hook.Inserts? && CreatedBy(t, clock, hook, db, next, input, gen, grouped, s, f)
    ensures s.back != [] <==> Wrote(t, hook.id, input)
  {
    DeferredOk(t.cols, input);
    DeferredDistinct(t.cols, input);
    var cells, start := DeferredCells(t.cols, input), CreateStart(t, hook, db, next, input);
    PlanWrites(t, hook.id, input);
    WroteEither(t, hook.id, input);
    GroupedStart(start, hook.id, cells, input, gen, grouped);
    if start.back == [] {
      BackWrites(start.(db := grouped), hook.id, cells, input, gen, s);
    } else {
      BackGrows(start.(db := grouped), hook.id, cells, input, gen);
    }
  }

  lemma CreatedSatellite(t: Table, clock: Clock, hook: Hook, db: Db, next: nat, input: map<string, Json>, gen: IdSource, grouped: Db, s: Second, f: Second, nc: Named)
    requires TableOk(t, clock) && AllFit(t) && hook.Inserts? && CreatedBy(t, clock, hook, db, next, input, gen, grouped, s, f)
    requires nc in t.cols && nc.column.IsSatellite()
    ensures FieldBecomes(t, clock, Inserted(db, hook), hook.row, hook.id, input, gen, next, nc, FieldValue(t, f.db, hook.id, nc.column))
  {
    DeferredOk(t.cols, input);
    DeferredDistinct(t.cols, input);
    var cells, start := DeferredCells(t.cols, input), CreateStart(t, hook, db, next, input);
    if nc in cells {
      SatelliteBecomes(start, hook.id, cells, input, clock, gen, f, nc);
    } else {
      forall d | d in cells ensures !Touches(d.column, StorageOf(nc.column)) { SeparatePair(t.cols, d, nc); }
      UntouchedLoad(start, hook.id, cells, input, clock, gen, grouped, s, f, nc.column, hook.id);
    }
  }

  lemma CreatedField(t: Table, clock: Clock, hook: Hook, db: Db, next: nat, input: map<string, Json>, gen: IdSource, grouped: Db, s: Second, f: Second, nc: Named)
    requires TableOk(t, clock) && AllFit(t) && hook.Inserts? && CreatedBy(t, clock, hook, db, next, input, gen, grouped, s, f)
    requires nc in t.cols
    ensures FieldBecomes(t, clock, Inserted(db, hook), hook.row, hook.id, input, gen, next, nc, FieldValue(t, f.db, hook.id, nc.column))
  {
    CreatedRow(t, clock, hook, db, next, input, gen, grouped, s, f, ColumnName(nc.column));
    if nc.column.IsSatellite() {
      CreatedSatellite(t, clock, hook, db, next, input, gen, grouped, s, f, nc);
    } else if clock.touch == ColumnOf(nc.column) {
      CreateWrites(t, clock, hook, db, next, input, gen, grouped, s, f);
    } else {
      CreateDecides(t, clock, hook, db, next, input, gen, grouped, s, f, nc);
      DecidedField(t, clock, Inserted(db, hook), hook.row, hook.id, input, gen, next, nc, f.db);
    }
  }

  /** Of every accepted create the row is a new one, and each field of it reads as told from
      the row the hook inserted and from what was sent. */
  lemma CreateBecomes(t: Table, clock: Clock, hook: Hook, db: Db, next: nat, input: map<string, Json>, gen: IdSource, nc: Named)
    requires TableOk(t, clock) && AllFit(t) && Sound(db, gen, next) && hook.Inserts? && nc in t.cols
    requires SaveCreate(t, clock, hook, db, next, input, gen).Ok?
    ensures hook.id !in db.main && SaveCreate(t, clock, hook, db, next, input, gen).value.id == hook.id
    ensures var after := Load(t, SaveCreate(t, clock, hook, db, next, input, gen).value.db, hook.id);
      after.Some? && nc.name in after.value
      && FieldBecomes(t, clock, Inserted(db, hook), hook.row, hook.id, input, gen, next, nc, after.value[nc.name])
  {
    var grouped, s, f := CreateSteps(t, clock, hook, db, next, input, gen);
    CreatedField(t, clock, hook, db, next, input, gen, grouped, s, f, nc);
    CreatedRow(t, clock, hook, db, next, input, gen, grouped, s, f, "");
    LoadAtField(t, clock, f.db, hook.id, nc);
  }

  // --- empty storage ---------------------------------------------------------------------------------

  /** What a satellite without rows reads as. */
  function Empty(c: Column): Json
    requires CellOk(c)
  {
    match c
    case KeyedStrings(_, _, _) => Obj(map[])
    case Child(ct, _) => if ct.partitioned then Obj(map[]) else Arr([])
    case Rels(_, _, _) => Arr([])
    case DeferredList(list, _) => Empty(list)
    case _ => Null
  }

  lemma EmptyMap(side: Side, id: string, col: string)
    requires forall pk :: pk in side ==> pk.0 != id
    ensures Texts(Read(side, id, col)) == Obj(map[])
  {
    assert KeysOf(side, id) == {};
    assert Read(side, id, col) == map[];
  }

  lemma EmptyList(ct: ChildTable, shape: Shape, d: ChildDb, id: string)
    requires ShapeOk(ct, shape) && forall c :: c in d.rows ==> d.rows[c].parent != id
    ensures LoadList(ct, shape, d, id) == if ct.partitioned then Obj(map[]) else Arr([])
  {
    if ct.partitioned {
      assert PartitionKeys(d.rows, id) == {};
      assert LoadParts(ct, shape, d, id, {}) == map[];
    } else {
      assert Slots(ct, d.rows, id, "") == {};
      assert Select(ct, d.rows, id, "") == [];
    }
  }

  lemma EmptyRels(d: RelsDb, id: string, path: string, target: string)
    requires forall r :: r in d.rows ==> d.rows[r].parent != id
    ensures ReadRels(d, id, path, target) == []
  {
    assert RelSlots(d, id, path, target) == {};
    assert SelectRels(d, id, path, target) == [];
  }

  /** A row nothing hangs on yet reads as empty in every satellite: what is sent for one is
      all it then holds. */
  lemma {:induction false} EmptyStorage(db: Db, c: Column, id: string)
    requires CellOk(c) && c.IsSatellite() && NothingOf(db, id)
    ensures CellLoad(db, c, id) == Empty(c)
    ensures c.KeyedStrings? ==> forall k :: At(SideOf(db, c.side.name), id, k) == None
    ensures c.Child? ==> forall key :: Owned(c.ct, ChildOf(db, c.ct.name).rows, id, key) == {}
  {
    match c
    case KeyedStrings(side, col, _) => EmptyMap(SideOf(db, side.name), id, col);
    case Child(ct, shape) => EmptyList(ct, shape, ChildOf(db, ct.name), id);
    case Rels(rels, path, target) => EmptyRels(RelsOf(db, rels.name), id, path, target);
    case DeferredList(list, _) =>
      SatelliteList(list);
      EmptyStorage(db, list, id);
    case _ =>
  }

  lemma SatelliteList(c: Column)
    requires IsList(c)
    ensures c.IsSatellite()
  {}

  /** So it is of a new row, where rows of satellites have parents. */
  lemma NewRowIsEmpty(db: Db, hook: Hook, c: Column)
    requires CellOk(c) && c.IsSatellite() && Anchored(db) && hook.Inserts? && hook.id !in db.main
    ensures CellLoad(Inserted(db, hook), c, hook.id) == Empty(c)
  {
    var ins := Inserted(db, hook);
    AnchoredNothing(db, hook.id);
    assert NothingOf(ins, hook.id) by {
      forall t ensures SideOf(ins, t) == SideOf(db, t) && ChildOf(ins, t) == ChildOf(db, t) && RelsOf(ins, t) == RelsOf(db, t) {}
    }
    EmptyStorage(ins, c, hook.id);
  }

  /** And every object a list of it was sent is a new element holding what was sent and
      nothing else. */
  lemma NewElements(ct: ChildTable, inner: Table, d: ChildDb, parent: string, key: string, objs: seq<Json>, gen: IdSource, next: nat, ids: seq<string>, list: seq<Json>, i: nat)
    requires Owned(ct, d.rows, parent, key) == {} && Unissued(gen, next, d.rows) && NestedKeys(d)
    requires Rowed(ct, inner, d, parent, key, objs, gen, next, ids) && RowsBecome(inner, d, objs, ids, list) && i < |objs|
    ensures ids[i] !in d.rows && list[i] == NewItem(inner, ids[i], objs[i].fields)
  {
    var k: nat :| next <= k && ids[i] == gen(k);
    NewRowsStartEmpty(inner, d, ids[i], objs[i].fields);
  }

  // --- other rows ------------------------------------------------------------------------------------

  lemma OtherSatellite(t: Table, clock: Clock, hook: Hook, db: Db, next: nat, input: map<string, Json>, gen: IdSource, grouped: Db, s: Second, f: Second, nc: Named, p: string)
    requires Bookkept(t, clock) && hook.Inserts? && CreatedBy(t, clock, hook, db, next, input, gen, grouped, s, f)
    requires nc in t.cols && nc.column.IsSatellite() && p != hook.id
    ensures CellLoad(f.db, nc.column, p) == CellLoad(db, nc.column, p)
  {
    DeferredOk(t.cols, input);
    var cells, start := DeferredCells(t.cols, input), CreateStart(t, hook, db, next, input);
    MainOnly(db, start.db, nc.column, p);
    if nc in cells {
      GroupsIsolated(start.db, hook.id, cells, input, grouped, StorageOf(nc.column), p);
      SameLoad(start.db, grouped, nc.column, p);
      assert CellLoad(s.db, nc.column, p) == CellLoad(grouped, nc.column, p);
      MainOnly(s.db, f.db, nc.column, p);
    } else {
      if StorageOf(nc.column).InChild? { ApartChild(t.cols, cells, nc); }
      UntouchedLoad(start, hook.id, cells, input, clock, gen, grouped, s, f, nc.column, p);
    }
  }

  lemma OtherField(t: Table, clock: Clock, hook: Hook, db: Db, next: nat, input: map<string, Json>, gen: IdSource, grouped: Db, s: Second, f: Second, nc: Named, p: string)
    requires Bookkept(t, clock) && hook.Inserts? && CreatedBy(t, clock, hook, db, next, input, gen, grouped, s, f)
    requires nc in t.cols && p in db.main && p != hook.id && p in f.db.main && f.db.main[p] == db.main[p]
    ensures FieldValue(t, f.db, p, nc.column) == FieldValue(t, db, p, nc.column)
  {
    if nc.column.IsSatellite() { OtherSatellite(t, clock, hook, db, next, input, gen, grouped, s, f, nc, p); }
  }

  /** A create leaves every other row as it was. */
  lemma CreateLeavesOthers(t: Table, clock: Clock, hook: Hook, db: Db, next: nat, input: map<string, Json>, gen: IdSource, p: string)
    requires Bookkept(t, clock) && Sound(db, gen, next) && hook.Inserts? && p != hook.id
    requires SaveCreate(t, clock, hook, db, next, input, gen).Ok?
    ensures Load(t, SaveCreate(t, clock, hook, db, next, input, gen).value.db, p) == Load(t, db, p)
  {
    var grouped, s, f := CreateSteps(t, clock, hook, db, next, input, gen);
    CreatedRow(t, clock, hook, db, next, input, gen, grouped, s, f, "");
    forall nc | nc in t.cols && p in db.main ensures FieldValue(t, f.db, p, nc.column) == FieldValue(t, db, p, nc.column) {
      OtherField(t, clock, hook, db, next, input, gen, grouped, s, f, nc, p);
    }
    SameLoads(t, db, f.db, p);
  }

  // --- the report ------------------------------------------------------------------------------------

  /** The hook's first word on a field. */
  ghost predicate SaysFirst(changes: seq<Change>, n: string, i: int) {
    0 <= i < |changes| && changes[i].field == n && forall j :: 0 <= j < i ==> changes[j].field != n
  }

  lemma {:induction false} MergedValue(changes: seq<Change>, p: Plan, n: string)
    ensures n in p.newVals ==> n in MergeHook(changes, p).newVals && MergeHook(changes, p).newVals[n] == p.newVals[n]
    ensures n !in p.newVals && n in MergeHook(changes, p).newVals ==>
      exists i :: SaysFirst(changes, n, i) && MergeHook(changes, p).newVals[n] == changes[i].now
    ensures n !in p.newVals && n !in MergeHook(changes, p).newVals ==> forall j :: 0 <= j < |changes| ==> changes[j].field != n
  {
    if changes != [] {
      var init, last := changes[..|changes| - 1], changes[|changes| - 1];
      MergedValue(init, p, n);
      assert forall j :: 0 <= j < |init| ==> changes[j] == init[j];
      if n !in p.newVals && n in MergeHook(init, p).newVals {
        var i :| SaysFirst(init, n, i) && MergeHook(init, p).newVals[n] == init[i].now;
        assert SaysFirst(changes, n, i);
      } else if n !in p.newVals && last.field == n {
        assert SaysFirst(changes, n, |init|);
      }
    }
  }

  /** The payload gives a field something to report. */
  ghost predicate Gives(nc: Named, id: string, input: map<string, Json>) {
    Planned(nc, input) || (InSecond(nc, input) && ToRecord(nc, id, input))
  }

  ghost predicate Given(t: Table, id: string, input: map<string, Json>, n: string) {
    exists nc :: nc in t.cols && nc.name == n && Gives(nc, id, input)
  }

  ghost predicate HookSays(changes: seq<Change>, n: string) {
    exists i :: 0 <= i < |changes| && changes[i].field == n
  }

  /** What the listener is told of a create: of each field the payload gives and each the
      hook reports, that it was nothing; of one the payload gives, what Load gives of it
      exactly when the sent value is honest; of one only the hook reports, the hook's first
      word. */
  ghost predicate CreateTold(t: Table, hook: Hook, input: map<string, Json>, after: map<string, Json>, report: seq<Change>)
    requires hook.Inserts?
  {
    && (forall c :: c in report ==> c.was == Null)
    && (forall n :: Reported(report, n) <==> Given(t, hook.id, input, n) || HookSays(hook.changes, n))
    && (forall c, nc :: c in report && nc in t.cols && nc.name == c.field && Gives(nc, hook.id, input) ==>
          c.field in after && c.field in input && (c.now == after[c.field] <==> HonestField(nc.column, hook.id, input[c.field])))
    && (forall c :: c in report && !Given(t, hook.id, input, c.field) ==>
          exists i :: SaysFirst(hook.changes, c.field, i) && c.now == hook.changes[i].now)
  }

  /** The fields the phases record are those with something to report. */
  lemma RecordedGives(t: Table, clock: Clock, hook: Hook, db: Db, next: nat, input: map<string, Json>, gen: IdSource, grouped: Db, s: Second, f: Second, n: string)
    requires Bookkept(t, clock) && hook.Inserts? && CreatedBy(t, clock, hook, db, next, input, gen, grouped, s, f)
    ensures n in f.changed <==> n in f.newVals
    ensures n in f.newVals <==> exists nc :: nc in t.cols && InSecond(nc, input) && nc.name == n && ToRecord(nc, hook.id, input)
  {
    DeferredOk(t.cols, input);
    DeferredDistinct(t.cols, input);
    var cells, start := DeferredCells(t.cols, input), CreateStart(t, hook, db, next, input);
    ChangedIs(start.(db := grouped), hook.id, cells, input, gen);
    RecordedMembers(hook.id, cells, input, n);
    assert [] + Recorded(hook.id, cells, input) == Recorded(hook.id, cells, input);
  }

  /** A recorded field reads as recorded exactly when what was sent is honest. */
  lemma RecordedHonest(t: Table, clock: Clock, hook: Hook, db: Db, next: nat, input: map<string, Json>, gen: IdSource, grouped: Db, s: Second, f: Second, nc: Named)
    requires TableOk(t, clock) && hook.Inserts? && CreatedBy(t, clock, hook, db, next, input, gen, grouped, s, f)
    requires nc in t.cols && InSecond(nc, input) && nc.name in f.newVals
    ensures FieldValue(t, f.db, hook.id, nc.column) == f.newVals[nc.name] <==> HonestField(nc.column, hook.id, input[nc.name])
  {
    RecordedProcessed(t, clock, hook, db, next, input, gen, grouped, s, f, nc);
    if nc.column.IsSatellite() {
      MainOnly(s.db, f.db, nc.column, hook.id);
    } else {
      RecordedColumn(t, clock, hook, db, next, input, gen, grouped, s, f, nc);
    }
  }

  lemma RecordedProcessed(t: Table, clock: Clock, hook: Hook, db: Db, next: nat, input: map<string, Json>, gen: IdSource, grouped: Db, s: Second, f: Second, nc: Named)
    requires TableOk(t, clock) && hook.Inserts? && CreatedBy(t, clock, hook, db, next, input, gen, grouped, s, f)
    requires nc in t.cols && InSecond(nc, input)
    ensures Processed(CreateStart(t, hook, db, next, input).(db := grouped), hook.id, nc, input, s)
    ensures f.db == s.db.(main := f.db.main) && f.newVals == s.newVals
  {
    DeferredOk(t.cols, input);
    DeferredDistinct(t.cols, input);
    assert nc in DeferredCells(t.cols, input);
  }

  lemma RecordedColumn(t: Table, clock: Clock, hook: Hook, db: Db, next: nat, input: map<string, Json>, gen: IdSource, grouped: Db, s: Second, f: Second, nc: Named)
    requires Bookkept(t, clock) && hook.Inserts? && CreatedBy(t, clock, hook, db, next, input, gen, grouped, s, f)
    requires nc in t.cols && InSecond(nc, input) && nc.column.Deferred? && nc.name in f.newVals
    requires Processed(CreateStart(t, hook, db, next, input).(db := grouped), hook.id, nc, input, s)
    ensures FieldValue(t, f.db, hook.id, nc.column) == f.newVals[nc.name] <==> HonestField(nc.column, hook.id, input[nc.name])
  {
    CreatedRow(t, clock, hook, db, next, input, gen, grouped, s, f, ColumnName(nc.column));
  }

  lemma PlannedHonest(t: Table, clock: Clock, hook: Hook, db: Db, next: nat, input: map<string, Json>, gen: IdSource, grouped: Db, s: Second, f: Second, nc: Named)
    requires TableOk(t, clock) && hook.Inserts? && CreatedBy(t, clock, hook, db, next, input, gen, grouped, s, f)
    requires nc in t.cols && Planned(nc, input)
    ensures FieldValue(t, f.db, hook.id, nc.column) == AssignParse(nc.column, input[nc.name]).value.echo <==> HonestField(nc.column, hook.id, input[nc.name])
  {
    CreatedRow(t, clock, hook, db, next, input, gen, grouped, s, f, ColumnName(nc.column));
    CreatedSet(t, clock, hook, db, next, input, gen, grouped, s, f, nc);
  }

  /** One reported value. */
  lemma ToldValue(t: Table, clock: Clock, hook: Hook, db: Db, next: nat, input: map<string, Json>, gen: IdSource, grouped: Db, s: Second, f: Second, nc: Named)
    requires TableOk(t, clock) && hook.Inserts? && CreatedBy(t, clock, hook, db, next, input, gen, grouped, s, f)
    requires nc in t.cols && Gives(nc, hook.id, input)
    ensures var told := MergeHook(hook.changes, Assignments(t.cols, input)).newVals + f.newVals;
      && nc.name in told && nc.name in input
      && (FieldValue(t, f.db, hook.id, nc.column) == told[nc.name] <==> HonestField(nc.column, hook.id, input[nc.name]))
  {
    RecordedGives(t, clock, hook, db, next, input, gen, grouped, s, f, nc.name);
    if Planned(nc, input) {
      PlannedTold(t, clock, hook, db, next, input, gen, grouped, s, f, nc);
    } else {
      RecordedHonest(t, clock, hook, db, next, input, gen, grouped, s, f, nc);
    }
  }

  lemma PlannedTold(t: Table, clock: Clock, hook: Hook, db: Db, next: nat, input: map<string, Json>, gen: IdSource, grouped: Db, s: Second, f: Second, nc: Named)
    requires TableOk(t, clock) && hook.Inserts? && CreatedBy(t, clock, hook, db, next, input, gen, grouped, s, f)
    requires nc in t.cols && Planned(nc, input)
    ensures var told := MergeHook(hook.changes, Assignments(t.cols, input)).newVals + f.newVals;
      && nc.name in told
      && (FieldValue(t, f.db, hook.id, nc.column) == told[nc.name] <==> HonestField(nc.column, hook.id, input[nc.name]))
  {
    RecordedGives(t, clock, hook, db, next, input, gen, grouped, s, f, nc.name);
    forall d | d in t.cols && d.name == nc.name ensures d == nc { DistinctCells(t.cols, d, nc); }
    PlanAt(t.cols, input, nc);
    MergedValue(hook.changes, Assignments(t.cols, input), nc.name);
    PlannedHonest(t, clock, hook, db, next, input, gen, grouped, s, f, nc);
  }

  /** Which fields the merged report names. */
  lemma ToldNames(t: Table, clock: Clock, hook: Hook, db: Db, next: nat, input: map<string, Json>, gen: IdSource, grouped: Db, s: Second, f: Second, n: string)
    requires Bookkept(t, clock) && hook.Inserts? && CreatedBy(t, clock, hook, db, next, input, gen, grouped, s, f)
    ensures var merged := MergeHook(hook.changes, Assignments(t.cols, input));
      && (n in merged.changed + f.changed <==> Given(t, hook.id, input, n) || HookSays(hook.changes, n))
      && (n in merged.changed + f.changed ==> n in merged.newVals + f.newVals)
      && (n in merged.changed + f.changed && !Given(t, hook.id, input, n) ==>
            exists i :: SaysFirst(hook.changes, n, i) && (merged.newVals + f.newVals)[n] == hook.changes[i].now)
  {
    var plan := Assignments(t.cols, input);
    forall k ensures k in plan.changed <==> k in plan.newVals { PlanNames(t.cols, input, k); }
    PlanNames(t.cols, input, n);
    MergedNames(hook.changes, plan, n);
    MergedValue(hook.changes, plan, n);
    RecordedGives(t, clock, hook, db, next, input, gen, grouped, s, f, n);
    HookNames(hook.changes, n);
  }

  lemma HookNames(changes: seq<Change>, n: string)
    ensures HookSays(changes, n) <==> exists c :: c in changes && c.field == n
  {
    if c :| c in changes && c.field == n {
      var i :| 0 <= i < |changes| && changes[i] == c;
    }
  }

  lemma CreatedSays(changed: seq<string>, newVals: map<string, Json>)
    ensures forall c :: c in Created(changed, newVals) ==> c.field in changed && c.was == Null && c.now == At0(newVals, c.field)
    ensures forall n :: Reported(Created(changed, newVals), n) <==> n in changed
  {
    var report := Created(changed, newVals);
    forall n | n in changed ensures Reported(report, n) {
      var i :| 0 <= i < |changed| && changed[i] == n;
      assert report[i] in report;
    }
  }

  /** Of every accepted create the listener is told just that. */
  lemma CreateTellsTruth(t: Table, clock: Clock, hook: Hook, db: Db, next: nat, input: map<string, Json>, gen: IdSource)
    requires TableOk(t, clock) && Sound(db, gen, next) && hook.Inserts?
    requires SaveCreate(t, clock, hook, db, next, input, gen).Ok?
    ensures var out := SaveCreate(t, clock, hook, db, next, input, gen).value;
      && out.report.Some? && Load(t, out.db, hook.id).Some?
      && CreateTold(t, hook, input, Load(t, out.db, hook.id).value, out.report.value)
  {
    var grouped, s, f := CreateSteps(t, clock, hook, db, next, input, gen);
    var merged := MergeHook(hook.changes, Assignments(t.cols, input));
    CreatedRow(t, clock, hook, db, next, input, gen, grouped, s, f, "");
    CreatedSays(merged.changed + f.changed, merged.newVals + f.newVals);
    ToldTruly(t, clock, hook, db, next, input, gen, grouped, s, f, Created(merged.changed + f.changed, merged.newVals + f.newVals));
  }

  lemma ToldTruly(t: Table, clock: Clock, hook: Hook, db: Db, next: nat, input: map<string, Json>, gen: IdSource, grouped: Db, s: Second, f: Second, report: seq<Change>)
    requires TableOk(t, clock) && hook.Inserts? && CreatedBy(t, clock, hook, db, next, input, gen, grouped, s, f) && hook.id in f.db.main
    requires var merged := MergeHook(hook.changes, Assignments(t.cols, input));
      && (forall c :: c in report ==> c.field in merged.changed + f.changed && c.was == Null && c.now == At0(merged.newVals + f.newVals, c.field))
      && (forall n :: Reported(report, n) <==> n in merged.changed + f.changed)
    ensures CreateTold(t, hook, input, Load(t, f.db, hook.id).value, report)
  {
    forall n ensures Reported(report, n) <==> Given(t, hook.id, input, n) || HookSays(hook.changes, n) {
      ToldNames(t, clock, hook, db, next, input, gen, grouped, s, f, n);
    }
    var after := Load(t, f.db, hook.id).value;
    forall c, nc | c in report && nc in t.cols && nc.name == c.field && Gives(nc, hook.id, input)
      ensures c.field in after && c.field in input && (c.now == after[c.field] <==> HonestField(nc.column, hook.id, input[c.field]))
    {
      ToldValue(t, clock, hook, db, next, input, gen, grouped, s, f, nc);
      LoadAtField(t, clock, f.db, hook.id, nc);
    }
    forall c | c in report && !Given(t, hook.id, input, c.field)
      ensures exists i :: SaysFirst(hook.changes, c.field, i) && c.now == hook.changes[i].now
    {
      ToldNames(t, clock, hook, db, next, input, gen, grouped, s, f, c.field);
    }
  }

  // --- refusals --------------------------------------------------------------------------------------

  /** A create is refused for the hook's own failure, for an id that is taken, or for what
      some sent field carries, and for nothing else. */
  lemma CreateRefusal(t: Table, clock: Clock, hook: Hook, db: Db, next: nat, input: map<string, Json>, gen: IdSource)
    requires Bookkept(t, clock) && Sound(db, gen, next)
    ensures hook.Fails? ==> SaveCreate(t, clock, hook, db, next, input, gen) == Err(HookFailure)
    ensures hook.Inserts? && hook.id in db.main ==> SaveCreate(t, clock, hook, db, next, input, gen) == Err(UniqueViolation)
    ensures hook.Inserts? && hook.id !in db.main && SaveCreate(t, clock, hook, db, next, input, gen).Err? ==>
      exists nc :: nc in t.cols && FieldRefuses(db, nc, hook.id, input, SaveCreate(t, clock, hook, db, next, input, gen).error)
  {
    if hook.Inserts? && hook.id !in db.main && SaveCreate(t, clock, hook, db, next, input, gen).Err? {
      CreateStartOk(t, clock, hook, db, next, input, gen);
      DeferredOk(t.cols, input);
      var start, cells, merged := CreateStart(t, hook, db, next, input), DeferredCells(t.cols, input), MergeHook(hook.changes, Assignments(t.cols, input));
      MergeKeepsAssigns(hook.changes, Assignments(t.cols, input));
      assert Onto(start, merged.changed, merged.newVals) == Second(Inserted(db, hook), next, merged.changed, merged.newVals, merged.assigns);
      FinishOnto(start, hook.id, cells, input, clock, gen, merged.changed, merged.newVals);
      CreatePhaseRefusal(t, clock, hook, db, next, input, gen, start, cells);
    }
  }

  lemma CreatePhaseRefusal(t: Table, clock: Clock, hook: Hook, db: Db, next: nat, input: map<string, Json>, gen: IdSource, start: Second, cells: seq<Named>)
    requires Bookkept(t, clock) && hook.Inserts? && CellsOk(t.cols) && CellsOk(cells)
    requires start == CreateStart(t, hook, db, next, input) && cells == DeferredCells(t.cols, input) && StartOk(start, cells, input, gen)
    requires Finish(start, hook.id, cells, input, clock, gen).Err?
    ensures exists nc :: nc in t.cols && FieldRefuses(db, nc, hook.id, input, Finish(start, hook.id, cells, input, clock, gen).error)
  {
    DeferredOk(t.cols, input);
    GroupTablesDistinct(cells, input);
    var e, grouped := Finish(start, hook.id, cells, input, clock, gen).error, WriteGroups(start.db, hook.id, cells, input, GroupTables(cells, input));
    if grouped.Err? {
      GroupsRefusal(start, hook.id, cells, input);
      FieldIsReason(t, db, start.db, hook.id, cells, input, e);
    } else {
      WriteGroupsSound(start.db, hook.id, cells, input, GroupTables(cells, input));
      CreateLoopRefusal(t, clock, hook, db, next, input, gen, start, cells, grouped.value);
    }
  }

  lemma CreateLoopRefusal(t: Table, clock: Clock, hook: Hook, db: Db, next: nat, input: map<string, Json>, gen: IdSource, start: Second, cells: seq<Named>, grouped: Db)
    requires Bookkept(t, clock) && hook.Inserts? && CellsOk(t.cols) && CellsOk(cells)
    requires start == CreateStart(t, hook, db, next, input) && cells == DeferredCells(t.cols, input) && StartOk(start, cells, input, gen)
    requires WriteGroups(start.db, hook.id, cells, input, GroupTables(cells, input)) == Ok(grouped)
    requires GroupsWritten(start.db, hook.id, cells, input, GroupTables(cells, input), grouped)
    requires Finish(start, hook.id, cells, input, clock, gen).Err?
    ensures exists nc :: nc in t.cols && FieldRefuses(db, nc, hook.id, input, Finish(start, hook.id, cells, input, clock, gen).error)
  {
    DeferredOk(t.cols, input);
    var e := Finish(start, hook.id, cells, input, clock, gen).error;
    GroupedStart(start, hook.id, cells, input, gen, grouped);
    GroupedTargets(start, hook.id, cells, input, grouped);
    PhaseRefusal(start.(db := grouped), hook.id, cells, input, gen);
    var s := SecondPhase(start.(db := grouped), hook.id, cells, input, gen);
    if s.Err? {
      var nc :| nc in cells && CellRefuses(grouped, nc.column, hook.id, At0(input, nc.name), e);
      RefusesSame(start.db, grouped, nc.column, hook.id, At0(input, nc.name), e);
      FieldIsReason(t, db, start.db, hook.id, cells, input, e);
    } else {
      BackRefusal(t, hook, db, next, input, gen, start.(db := grouped), cells, s.value, e);
    }
  }

  /** The one UPDATE of a create is refused for a planned or a resolved value. */
  lemma BackRefusal(t: Table, hook: Hook, db: Db, next: nat, input: map<string, Json>, gen: IdSource, start: Second, cells: seq<Named>, s: Second, e: Failure)
    requires hook.Inserts? && CellsOk(cells) && (forall nc :: nc in cells ==> nc in t.cols && InSecond(nc, input) && nc.column.Saves())
    requires start.back == Assignments(t.cols, input).assigns && SecondPhase(start, hook.id, cells, input, gen) == Ok(s)
    requires Evaluate(s.back) == Err(e)
    ensures exists nc :: nc in t.cols && FieldRefuses(db, nc, hook.id, input, e)
  {
    EvaluateRefused(s.back);
    var i :| 0 <= i < |s.back| && s.back[i].admit(s.back[i].value) == Err(e);
    var nc := BackComes(t, hook.id, start, cells, input, gen, i);
    assert FieldRefuses(db, nc, hook.id, input, e);
  }

  /** Each assignment of that UPDATE is that of a planned field or of a resolved one. */
  lemma {:induction false} BackComes(t: Table, id: string, start: Second, cells: seq<Named>, input: map<string, Json>, gen: IdSource, i: nat) returns (nc: Named)
    requires CellsOk(cells) && (forall d :: d in cells ==> d in t.cols && InSecond(d, input) && d.column.Saves())
    requires start.back == Assignments(t.cols, input).assigns && SecondPhase(start, id, cells, input, gen).Ok?
    requires i < |SecondPhase(start, id, cells, input, gen).value.back|
    ensures nc in t.cols
    ensures var a := SecondPhase(start, id, cells, input, gen).value.back[i]; PlansTo(nc, input, a) || (nc in cells && WritesBack(nc, id, input, a))
  {
    if cells == [] {
      nc := PlanIs(t.cols, input, i);
    } else {
      var init, last := cells[..|cells| - 1], cells[|cells| - 1];
      assert last in cells && forall d :: d in init ==> d in cells;
      var before := SecondPhase(start, id, init, input, gen).value;
      LastBack(before, id, last, input, gen);
      if i < |before.back| { nc := BackComes(t, id, start, init, input, gen, i); } else { nc := last; }
    }
  }
}
