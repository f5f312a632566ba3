/** What Load gives of a row after an update or a create, field by field. */
module RowEffects {
  import opened Values
  import opened SideTables
  import opened Columns
  import opened ChildTables
  import opened Database
  import opened CellLaws
  import opened StoreSpec
  import opened PlanLaws
  import opened GroupLaws
  import opened StoreLaws
  import opened UpdateTruth
  import opened Refusals
  import opened SaveEffects

  // --- one field -------------------------------------------------------------------------------

  /** What the column of a cell holds after the save of a row that held base: the server's
      image of a sent and parsed scalar, of an explicit null, or of what the resolver gave;
      otherwise what it held. */
  ghost predicate ColumnBecomes(base: Row, id: string, input: map<string, Json>, nc: Named, x: Sql) {
    match nc.column
    case Scalar(col, parse, admit, _) =>
      if nc.name in input && parse(input[nc.name]).Some? then admit(parse(input[nc.name]).value.stored) == Ok(x) else x == Cell(base, col)
    case Deferred(col, resolve, admit) =>
      if nc.name !in input then x == Cell(base, col)
      else if input[nc.name] == Null then admit(SqlNull) == Ok(x)
      else
        (match resolve(id, input[nc.name])
         case Err(_) => false
         case Ok(r) => if r == Null then x == Cell(base, col) else admit(SqlText(StringOf(r))) == Ok(x))
    case _ => true
  }

  /** Whether a save sends the row a statement that sets a column. */
  ghost predicate Writes(nc: Named, id: string, input: map<string, Json>) {
    || Planned(nc, input)
    || (InSecond(nc, input) && nc.column.Deferred? && nc.column.resolve(id, input[nc.name]).Ok? && nc.column.resolve(id, input[nc.name]).value != Null)
  }

  ghost predicate Wrote(t: Table, id: string, input: map<string, Json>) {
    exists nc :: nc in t.cols && Writes(nc, id, input)
  }

  /** What a field reads as after the save of a row that held base in this state. */
  ghost predicate FieldBecomes(t: Table, clock: Clock, before: Db, base: Row, id: string, input: map<string, Json>, gen: IdSource, next: nat, nc: Named, w: Json)
    requires CellOk(nc.column)
  {
    if ColumnOf(nc.column) == Some(t.id) then w == Str(id)
    else
      match nc.column
      case ReadOnly(col, decode) => w == decode(if Wrote(t, id, input) && clock.touch == Some(col) then clock.now else Cell(base, col))
      case Scalar(_, _, _, decode) => exists x :: ColumnBecomes(base, id, input, nc, x) && w == decode(x)
      case Deferred(_, _, _) => exists x :: ColumnBecomes(base, id, input, nc, x) && w == Normalize(x)
      case _ => if nc.name in input then Becomes(before, nc.column, id, input[nc.name], gen, next, w) else w == CellLoad(before, nc.column, id)
  }

  // --- satellites ------------------------------------------------------------------------------

  lemma GroupedBecomes(start: Second, id: string, cells: seq<Named>, input: map<string, Json>, gen: IdSource, grouped: Db, nc: Named)
    requires StartOk(start, cells, input, gen) && Separate(cells) && nc in cells && Handled(nc, input)
    requires GroupsWritten(start.db, id, cells, input, GroupTables(cells, input), grouped)
    ensures Becomes(start.db, nc.column, id, input[nc.name], gen, start.next, CellLoad(grouped, nc.column, id))
  {
    var w, tables := Write(nc.column.col, nc.column.clear, input[nc.name].fields), GroupTables(cells, input);
    GroupTablesSound(cells, input, nc);
    var i :| 0 <= i < |tables| && tables[i].name == nc.column.side.name;
    assert TableWritten(start.db, id, cells, input, tables[i], SideOf(grouped, tables[i].name));
    GroupFits(cells, input, nc);
    GroupedMapBecomes(tables[i], start.db.main.Keys, SideOf(start.db, tables[i].name), id, GroupWrites(cells, input, tables[i].name), w);
  }

  /** A sent satellite after the groups, the second phase and the second UPDATE. */
  lemma SatelliteBecomes(start: Second, id: string, cells: seq<Named>, input: map<string, Json>, clock: Clock, gen: IdSource, f: Second, nc: Named)
    requires StartOk(start, cells, input, gen) && Separate(cells)
    requires Finish(start, id, cells, input, clock, gen) == Ok(f)
    requires nc in cells && nc.column.IsSatellite() && ElementsFit(nc.column)
    ensures Becomes(start.db, nc.column, id, input[nc.name], gen, start.next, CellLoad(f.db, nc.column, id))
  {
    GroupTablesDistinct(cells, input);
    WriteGroupsSound(start.db, id, cells, input, GroupTables(cells, input));
    var grouped := WriteGroups(start.db, id, cells, input, GroupTables(cells, input)).value;
    var s := SecondPhase(start.(db := grouped), id, cells, input, gen).value;
    SavedBecomes(start, id, cells, input, gen, grouped, s, nc);
    MainOnly(s.db, f.db, nc.column, id);
  }

  lemma SavedBecomes(start: Second, id: string, cells: seq<Named>, input: map<string, Json>, gen: IdSource, grouped: Db, s: Second, nc: Named)
    requires StartOk(start, cells, input, gen) && Separate(cells)
    requires GroupsWritten(start.db, id, cells, input, GroupTables(cells, input), grouped)
    requires SecondPhase(start.(db := grouped), id, cells, input, gen) == Ok(s)
    requires nc in cells && nc.column.IsSatellite() && ElementsFit(nc.column)
    ensures Becomes(start.db, nc.column, id, input[nc.name], gen, start.next, CellLoad(s.db, nc.column, id))
  {
    GroupedStart(start, id, cells, input, gen, grouped);
    var x := SecondPhaseSaves(start.(db := grouped), id, cells, input, gen, nc);
    SameLoad(grouped, x.db, nc.column, id);
    if Handled(nc, input) {
      GroupedBecomes(start, id, cells, input, gen, grouped, nc);
    } else {
      OwnBecomes(start, id, cells, input, gen, grouped, x, nc);
    }
  }

  lemma OwnBecomes(start: Second, id: string, cells: seq<Named>, input: map<string, Json>, gen: IdSource, grouped: Db, x: Second, nc: Named)
    requires StartOk(start, cells, input, gen) && Separate(cells) && nc in cells && !Handled(nc, input)
    requires GroupsWritten(start.db, id, cells, input, GroupTables(cells, input), grouped)
    requires nc.column.IsSatellite() && ElementsFit(nc.column)
    requires SameStorage(grouped, x.db, StorageOf(nc.column), id) && Sound(x.db, gen, x.next) && start.next <= x.next
    requires SecondSave(x, id, nc, input, gen).Ok?
    ensures Becomes(start.db, nc.column, id, input[nc.name], gen, start.next, CellLoad(SecondSave(x, id, nc, input, gen).value.db, nc.column, id))
  {
    forall d | d in cells && Handled(d, input) ensures !Touches(d.column, StorageOf(nc.column)) { SeparatePair(cells, d, nc); }
    GroupsIsolated(start.db, id, cells, input, grouped, StorageOf(nc.column), id);
    SameStorageTransitive(start.db, grouped, x.db, StorageOf(nc.column), id);
    SameLoad(start.db, x.db, nc.column, id);
    CellBecomes(x.db, x.next, nc.column, id, input[nc.name], gen);
    if !nc.column.KeyedStrings? {
      CellBecomesEarlier(start.db, start.next, x.db, x.next, nc.column, id, input[nc.name], gen,
        CellLoad(SecondSave(x, id, nc, input, gen).value.db, nc.column, id));
    }
  }

  // --- columns ---------------------------------------------------------------------------------

  lemma {:induction false} SetOfIn(assigns: seq<Assign>, col: string) returns (i: nat)
    requires SetOf(assigns, col).Some?
    ensures i < |assigns| && assigns[i] == SetOf(assigns, col).value
  {
    i := |assigns| - 1;
    if assigns[i].col != col { i := SetOfIn(assigns[..i], col); }
  }

  /** An assignment that went through left the server's image. */
  lemma AssignedImage(assigns: seq<Assign>, col: string)
    requires Evaluate(assigns).Ok? && SetOf(assigns, col).Some?
    ensures var a := SetOf(assigns, col).value; a.admit(a.value) == Ok(Stored(a))
  {
    EvaluateRefused(assigns);
    var i := SetOfIn(assigns, col);
    assert assigns[i].admit(assigns[i].value).Ok?;
  }

  /** The assignment that decides the column of a cell, if a save sends one. */
  function Decides(nc: Named, id: string, input: map<string, Json>): Option<Assign> {
    if Planned(nc, input) then Some(PlannedAssign(nc, input))
    else if InSecond(nc, input) && nc.column.Deferred? && nc.column.resolve(id, input[nc.name]).Ok? && nc.column.resolve(id, input[nc.name]).value != Null
    then Some(AssignOf(nc.column, nc.column.resolve(id, input[nc.name]).value))
    else None
  }

  /** The column as that assignment leaves it. */
  ghost predicate Decided(base: Row, id: string, input: map<string, Json>, nc: Named, x: Sql) {
    match Decides(nc, id, input)
    case None => x == Cell(base, ColumnName(nc.column))
    case Some(a) => a.admit(a.value) == Ok(x)
  }

  lemma DecidedBecomes(base: Row, id: string, input: map<string, Json>, nc: Named, x: Sql)
    requires !nc.column.IsSatellite() && Decided(base, id, input, nc, x)
    requires nc.column.Deferred? && nc.name in input && input[nc.name] != Null ==> nc.column.resolve(id, input[nc.name]).Ok?
    ensures ColumnBecomes(base, id, input, nc, x)
  {}

  /** What the column reads as. */
  lemma ColumnReadsAs(t: Table, clock: Clock, before: Db, base: Row, id: string, input: map<string, Json>, gen: IdSource, next: nat, nc: Named, after: Db)
    requires CellOk(nc.column) && !nc.column.IsSatellite() && !nc.column.ReadOnly? && id in after.main
    requires ColumnBecomes(base, id, input, nc, Cell(after.main[id], ColumnName(nc.column)))
    ensures FieldBecomes(t, clock, before, base, id, input, gen, next, nc, FieldValue(t, after, id, nc.column))
  {}

  lemma DecidedField(t: Table, clock: Clock, before: Db, base: Row, id: string, input: map<string, Json>, gen: IdSource, next: nat, nc: Named, after: Db)
    requires CellOk(nc.column) && !nc.column.IsSatellite() && id in after.main && clock.touch != ColumnOf(nc.column)
    requires Decided(base, id, input, nc, Cell(after.main[id], ColumnName(nc.column)))
    requires nc.column.Deferred? && nc.name in input && input[nc.name] != Null ==> nc.column.resolve(id, input[nc.name]).Ok?
    ensures FieldBecomes(t, clock, before, base, id, input, gen, next, nc, FieldValue(t, after, id, nc.column))
  {
    DecidedBecomes(base, id, input, nc, Cell(after.main[id], ColumnName(nc.column)));
    if !nc.column.ReadOnly? { ColumnReadsAs(t, clock, before, base, id, input, gen, next, nc, after); }
  }

  // --- the touch column ------------------------------------------------------------------------

  lemma TouchAfter(row: Row, assigns: seq<Assign>, clock: Clock, col: string)
    requires clock.touch == Some(col) && Evaluate(assigns).Ok?
    ensures Cell(RowAfter(row, assigns, clock), col) == if assigns == [] then Cell(row, col) else clock.now
  {}

  lemma PlanWrites(t: Table, id: string, input: map<string, Json>)
    requires WellDeclared(t)
    ensures Assignments(t.cols, input).assigns != [] <==> exists nc :: nc in t.cols && Planned(nc, input)
  {
    if Assignments(t.cols, input).assigns != [] {
      var nc := PlanIs(t.cols, input, 0);
    }
    if nc :| nc in t.cols && Planned(nc, input) {
      PlanAt(t.cols, input, nc);
      PlanNames(t.cols, input, nc.name);
    }
  }

  /** A deferred column of the phase that resolved is set. */
  lemma ResolvedIsSet(start: Second, id: string, cells: seq<Named>, input: map<string, Json>, gen: IdSource, s: Second, nc: Named)
    requires CellsOk(cells) && Separate(cells) && InPhase(start, id, cells, input, gen, s)
    requires nc in cells && nc.column.Deferred? && nc.column.resolve(id, At0(input, nc.name)).Ok? && nc.column.resolve(id, At0(input, nc.name)).value != Null
    ensures s.back != []
  {
    assert Processed(start, id, nc, input, s);
    assert SetOf(s.back, ColumnName(nc.column)).Some?;
  }

  /** The second UPDATE has something to set exactly when there was something before or a
      deferred column resolved. */
  lemma BackWrites(start: Second, id: string, cells: seq<Named>, input: map<string, Json>, gen: IdSource, s: Second)
    requires StartOk(start, cells, input, gen) && Separate(cells) && start.back == []
    requires SecondPhase(start, id, cells, input, gen) == Ok(s)
    ensures s.back != [] <==> exists nc ::
      nc in cells && nc.column.Deferred? && nc.column.resolve(id, At0(input, nc.name)).Ok? && nc.column.resolve(id, At0(input, nc.name)).value != Null
  {
    SecondPhaseSound(start, id, cells, input, gen);
    if s.back != [] {
      var nc := BackIs(start, id, cells, input, gen, 0);
    }
    if nc :| nc in cells && nc.column.Deferred? && nc.column.resolve(id, At0(input, nc.name)).Ok? && nc.column.resolve(id, At0(input, nc.name)).value != Null {
      ResolvedIsSet(start, id, cells, input, gen, s, nc);
    }
  }

  // --- an update -------------------------------------------------------------------------------

  /** The two statements of an update went through. */
  lemma UpdateEvaluates(t: Table, clock: Clock, db: Db, next: nat, id: string, input: map<string, Json>, gen: IdSource, grouped: Db, s: Second, f: Second)
    requires Bookkept(t, clock) && Updated(t, clock, db, next, id, input, gen, grouped, s, f)
    ensures Evaluate(Assignments(t.cols, input).assigns).Ok? && Evaluate(s.back).Ok? && id in f.db.main
  {
    DeferredOk(t.cols, input);
    UpdateRow(db, id, Assignments(t.cols, input).assigns, clock);
    UpdateRow(s.db, id, s.back, clock);
  }

  lemma UpdateDecides(t: Table, clock: Clock, db: Db, next: nat, id: string, input: map<string, Json>, gen: IdSource, grouped: Db, s: Second, f: Second, nc: Named)
    requires TableOk(t, clock) && Updated(t, clock, db, next, id, input, gen, grouped, s, f)
    requires nc in t.cols && !nc.column.IsSatellite() && clock.touch != ColumnOf(nc.column)
    ensures id in f.db.main && Decided(db.main[id], id, input, nc, Cell(f.db.main[id], ColumnName(nc.column)))
    ensures nc.column.Deferred? && nc.name in input && input[nc.name] != Null ==> nc.column.resolve(id, input[nc.name]).Ok?
  {
    UpdateEvaluates(t, clock, db, next, id, input, gen, grouped, s, f);
    if InSecond(nc, input) {
      DeferredAfter(t, clock, db, next, id, input, gen, grouped, s, f, nc);
      DeferredDecides(t, clock, db, next, id, input, gen, grouped, s, f, nc);
    } else {
      ColumnAfter(t, clock, db, next, id, input, gen, grouped, s, f, nc);
      if Planned(nc, input) {
        PlanAt(t.cols, input, nc);
        AssignedImage(Assignments(t.cols, input).assigns, ColumnName(nc.column));
      }
    }
  }

  lemma DeferredDecides(t: Table, clock: Clock, db: Db, next: nat, id: string, input: map<string, Json>, gen: IdSource, grouped: Db, s: Second, f: Second, nc: Named)
    requires TableOk(t, clock) && Updated(t, clock, db, next, id, input, gen, grouped, s, f)
    requires nc in t.cols && !nc.column.IsSatellite() && InSecond(nc, input) && Evaluate(s.back).Ok?
    ensures nc.name in f.newVals ==> SetOf(s.back, ColumnName(nc.column)) == Some(AssignOf(nc.column, f.newVals[nc.name]))
    ensures nc.name in f.newVals ==> var a := AssignOf(nc.column, f.newVals[nc.name]); a.admit(a.value) == Ok(Stored(a))
  {
    DeferredOk(t.cols, input);
    DeferredDistinct(t.cols, input);
    assert nc in DeferredCells(t.cols, input) && Processed(UpdateStart(t, clock, UpdateIfAny(db, id, Assignments(t.cols, input).assigns, clock).value, next, input).(db := grouped), id, nc, input, s);
    PlanAt(t.cols, input, nc);
    if nc.name in f.newVals { AssignedImage(s.back, ColumnName(nc.column)); }
  }

  lemma UpdateTouches(t: Table, clock: Clock, db: Db, next: nat, id: string, input: map<string, Json>, gen: IdSource, grouped: Db, s: Second, f: Second, col: string)
    requires TableOk(t, clock) && Updated(t, clock, db, next, id, input, gen, grouped, s, f) && clock.touch == Some(col)
    ensures id in f.db.main && Cell(f.db.main[id], col) == if Wrote(t, id, input) then clock.now else Cell(db.main[id], col)
  {
    DeferredOk(t.cols, input);
    DeferredDistinct(t.cols, input);
    var plan, cells := Assignments(t.cols, input), DeferredCells(t.cols, input);
    var start := UpdateStart(t, clock, UpdateIfAny(db, id, plan.assigns, clock).value, next, input);
    UpdateRow(db, id, plan.assigns, clock);
    UpdateRow(s.db, id, s.back, clock);
    TouchAfter(db.main[id], plan.assigns, clock, col);
    TouchAfter(s.db.main[id], s.back, clock, col);
    PlanWrites(t, id, input);
    GroupedStart(start, id, cells, input, gen, grouped);
    BackWrites(start.(db := grouped), id, cells, input, gen, s);
    WroteEither(t, id, input);
  }

  /** A save writes a column in one phase or the other. */
  lemma WroteEither(t: Table, id: string, input: map<string, Json>)
    requires CellsOk(t.cols)
    ensures Wrote(t, id, input) <==>
      || (exists nc :: nc in t.cols && Planned(nc, input))
      || (exists nc :: nc in DeferredCells(t.cols, input) && nc.column.Deferred? && nc.column.resolve(id, At0(input, nc.name)).Ok? && nc.column.resolve(id, At0(input, nc.name)).value != Null)
  {
    DeferredOk(t.cols, input);
    if nc :| nc in t.cols && Planned(nc, input) { assert Writes(nc, id, input); }
    if nc :| nc in DeferredCells(t.cols, input) && nc.column.Deferred? && nc.column.resolve(id, At0(input, nc.name)).Ok? && nc.column.resolve(id, At0(input, nc.name)).value != Null {
      assert Writes(nc, id, input);
    }
  }

  ghost predicate AllFit(t: Table) {
    forall nc :: nc in t.cols ==> ElementsFit(nc.column)
  }

  lemma UpdatedField(t: Table, clock: Clock, db: Db, next: nat, id: string, input: map<string, Json>, gen: IdSource, grouped: Db, s: Second, f: Second, nc: Named)
    requires TableOk(t, clock) && AllFit(t) && Sound(db, gen, next) && Updated(t, clock, db, next, id, input, gen, grouped, s, f)
    requires FinishedAs(t, clock, db, next, id, input, gen, f) && nc in t.cols
    ensures id in f.db.main && FieldBecomes(t, clock, db, db.main[id], id, input, gen, next, nc, FieldValue(t, f.db, id, nc.column))
  {
    UpdateEvaluates(t, clock, db, next, id, input, gen, grouped, s, f);
    if nc.column.IsSatellite() {
      UpdatedSatellite(t, clock, db, next, id, input, gen, grouped, s, f, nc);
    } else if clock.touch == ColumnOf(nc.column) {
      UpdateTouches(t, clock, db, next, id, input, gen, grouped, s, f, ColumnName(nc.column));
    } else {
      UpdateDecides(t, clock, db, next, id, input, gen, grouped, s, f, nc);
      DecidedField(t, clock, db, db.main[id], id, input, gen, next, nc, f.db);
    }
  }

  lemma UpdatedSatellite(t: Table, clock: Clock, db: Db, next: nat, id: string, input: map<string, Json>, gen: IdSource, grouped: Db, s: Second, f: Second, nc: Named)
    requires TableOk(t, clock) && AllFit(t) && Sound(db, gen, next) && Updated(t, clock, db, next, id, input, gen, grouped, s, f)
    requires FinishedAs(t, clock, db, next, id, input, gen, f) && nc in t.cols && nc.column.IsSatellite()
    ensures FieldBecomes(t, clock, db, db.main[id], id, input, gen, next, nc, FieldValue(t, f.db, id, nc.column))
  {
    DeferredOk(t.cols, input);
    DeferredDistinct(t.cols, input);
    var cells, db1 := DeferredCells(t.cols, input), UpdateIfAny(db, id, Assignments(t.cols, input).assigns, clock).value;
    UpdateRow(db, id, Assignments(t.cols, input).assigns, clock);
    UpdateStartOk(t, clock, db1, next, input, gen);
    MainOnly(db, db1, nc.column, id);
    if nc in cells {
      SatelliteBecomes(UpdateStart(t, clock, db1, next, input), id, cells, input, clock, gen, f, nc);
      BecomesMain(db, db1, nc.column, id, input[nc.name], gen, next, CellLoad(f.db, nc.column, id));
    } else {
      forall d | d in cells ensures !Touches(d.column, StorageOf(nc.column)) { SeparatePair(t.cols, d, nc); }
      UntouchedLoad(UpdateStart(t, clock, db1, next, input), id, cells, input, clock, gen, grouped, s, f, nc.column, id);
    }
  }

  /** The main table is of no account to what a satellite becomes. */
  lemma BecomesMain(a: Db, b: Db, c: Column, id: string, v: Json, gen: IdSource, next: nat, w: Json)
    requires CellOk(c) && b == a.(main := b.main) && Becomes(b, c, id, v, gen, next, w)
    ensures Becomes(a, c, id, v, gen, next, w)
  {
    MainOnly(a, b, c, id);
  }

  /** Of every accepted update, each field reads as told from the row before and from what
      was sent. */
  lemma UpdateBecomes(t: Table, clock: Clock, render: Render, db: Db, next: nat, id: string, input: map<string, Json>, gen: IdSource, nc: Named)
    requires TableOk(t, clock) && AllFit(t) && Sound(db, gen, next) && nc in t.cols
    requires SaveUpdate(t, clock, render, db, next, id, input, gen).Ok?
    ensures id in db.main
    ensures var after := Load(t, SaveUpdate(t, clock, render, db, next, id, input, gen).value.db, id);
      after.Some? && nc.name in after.value && FieldBecomes(t, clock, db, db.main[id], id, input, gen, next, nc, after.value[nc.name])
  {
    if SaveUpdate(t, clock, render, db, next, id, input, gen).value.report.Some? {
      var grouped, s, f := UpdateSteps(t, clock, render, db, next, id, input, gen);
      UpdatedField(t, clock, db, next, id, input, gen, grouped, s, f, nc);
      LoadAtField(t, clock, f.db, id, nc);
    } else {
      IdleField(t, clock, db, next, id, input, gen, nc);
      LoadAtField(t, clock, db, id, nc);
    }
  }

  /** With nothing to write every field reads as before. */
  lemma IdleField(t: Table, clock: Clock, db: Db, next: nat, id: string, input: map<string, Json>, gen: IdSource, nc: Named)
    requires TableOk(t, clock) && id in db.main && nc in t.cols
    requires Assignments(t.cols, input).assigns == [] && DeferredCells(t.cols, input) == []
    ensures FieldBecomes(t, clock, db, db.main[id], id, input, gen, next, nc, FieldValue(t, db, id, nc.column))
  {
    DeferredOk(t.cols, input);
    PlanWrites(t, id, input);
    WroteEither(t, id, input);
    assert nc !in DeferredCells(t.cols, input);
    assert !Planned(nc, input);
    if !nc.column.IsSatellite() && clock.touch != ColumnOf(nc.column) { DecidedField(t, clock, db, db.main[id], id, input, gen, next, nc, db); }
  }
}
