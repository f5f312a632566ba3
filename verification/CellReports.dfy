/** What a save reports of one scalar field, and what the next read gives. */
module CellReports {
  import opened Numbers
  import opened Values
  import opened Columns
  import opened ChildTables
  import opened Database
  import opened StoreSpec
  import opened PlanLaws
  import opened StoreLaws
  import opened UpdateTruth
  import opened Cells

  lemma ScalarSteps(t: Table, clock: Clock, render: Render, db: Db, next: nat, id: string, input: map<string, Json>, gen: IdSource, grouped: Db, s: Second, f: Second, nc: Named)
    requires TableOk(t, clock)
    requires Updated(t, clock, db, next, id, input, gen, grouped, s, f)
    requires nc in t.cols && nc.column.Scalar? && !IsTouch(clock, nc)
    requires nc.name in input && nc.column.parse(input[nc.name]).Some?
    ensures id in f.db.main && FieldValue(t, f.db, id, nc.column) == ReadAs(nc.column, input[nc.name])
    ensures nc.name in f.changed && f.newVals[nc.name] == nc.column.parse(input[nc.name]).value.echo
    ensures nc.name in Assignments(t.cols, input).changed
  {
    ColumnAfter(t, clock, db, next, id, input, gen, grouped, s, f, nc);
    ColumnReads(t, clock, db, f.db, id, input, nc);
    PlanAt(t.cols, input, nc);
    PlanNames(t.cols, input, nc.name);
  }

  /** A scalar field that was sent and parsed reads as the server's image of it, and is
      reported with its echo exactly when that renders differently from what was there. */
  lemma ScalarReported(t: Table, clock: Clock, render: Render, db: Db, next: nat, id: string, input: map<string, Json>, gen: IdSource, nc: Named)
    requires TableOk(t, clock) && Sound(db, gen, next)
    requires SaveUpdate(t, clock, render, db, next, id, input, gen).Ok?
    requires nc in t.cols && nc.column.Scalar? && !IsTouch(clock, nc)
    requires nc.name in input && nc.column.parse(input[nc.name]).Some?
    ensures var out, echo := SaveUpdate(t, clock, render, db, next, id, input, gen).value, nc.column.parse(input[nc.name]).value.echo;
      && out.report.Some? && Load(t, db, id).Some? && nc.name in Load(t, db, id).value
      && Load(t, out.db, id).Some? && nc.name in Load(t, out.db, id).value
      && Load(t, out.db, id).value[nc.name] == ReadAs(nc.column, input[nc.name])
      && var was := Load(t, db, id).value[nc.name];
        && (render(was) != render(echo) ==> Change(nc.name, was, echo) in out.report.value)
        && (render(was) == render(echo) ==> !Reported(out.report.value, nc.name))
  {
    SomethingPlanned(t, clock, input, nc);
    var grouped, s, f := UpdateSteps(t, clock, render, db, next, id, input, gen);
    ScalarSteps(t, clock, render, db, next, id, input, gen, grouped, s, f, nc);
    var keys := Assignments(t.cols, input).changed + NamesOf(DeferredCells(t.cols, input));
    DiffSound(render, f.changed, RowOf(t, db, id, keys), f.newVals);
    RowAtField(t, clock, db, id, keys, nc);
    LoadAtField(t, clock, db, id, nc);
    LoadAtField(t, clock, f.db, id, nc);
  }

  lemma SomethingPlanned(t: Table, clock: Clock, input: map<string, Json>, nc: Named)
    requires TableOk(t, clock) && nc in t.cols && Planned(nc, input)
    ensures Assignments(t.cols, input).assigns != []
  {
    PlanAt(t.cols, input, nc);
  }

  lemma NegativeZeroCell(c: Column, col: string)
    requires c == NumCell(col, PLAIN)
    ensures c.Scalar? && c.parse(Num(NegativeZero)).Some? && c.parse(Num(NegativeZero)).value.echo == Num(NegativeZero)
    ensures ReadAs(c, Num(NegativeZero)) == Num(Finite(0.0))
  {}

  /** So every save of a negative zero over a zero reports a change from zero, if the two
      render differently, and leaves the zero it found. */
  lemma NegativeZeroReported(t: Table, clock: Clock, render: Render, db: Db, next: nat, id: string, input: map<string, Json>, gen: IdSource, nc: Named, col: string)
    requires TableOk(t, clock) && Sound(db, gen, next)
    requires SaveUpdate(t, clock, render, db, next, id, input, gen).Ok?
    requires nc in t.cols && nc.column == NumCell(col, PLAIN) && !IsTouch(clock, nc)
    requires nc.name in input && input[nc.name] == Num(NegativeZero)
    requires id in db.main && FieldValue(t, db, id, nc.column) == Num(Finite(0.0))
    requires render(Num(Finite(0.0))) != render(Num(NegativeZero))
    ensures var out := SaveUpdate(t, clock, render, db, next, id, input, gen).value;
      && out.report.Some? && Change(nc.name, Num(Finite(0.0)), Num(NegativeZero)) in out.report.value
      && Load(t, out.db, id).Some? && nc.name in Load(t, out.db, id).value
      && Load(t, out.db, id).value[nc.name] == Num(Finite(0.0))
  {
    NegativeZeroCell(nc.column, col);
    LoadAtField(t, clock, db, id, nc);
    ScalarReported(t, clock, render, db, next, id, input, gen, nc);
  }
}
