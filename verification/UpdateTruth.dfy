/** The diff of an update is the truth about the row. */
module UpdateTruth {
  import opened Values
  import opened Columns
  import opened ChildTables
  import opened Database
  import opened CellLaws
  import opened StoreSpec
  import opened PlanLaws
  import opened GroupLaws
  import opened StoreLaws

  /** The steps of Finish: groups, second phase, second UPDATE. */
  ghost predicate Finished(start: Second, id: string, cells: seq<Named>, input: map<string, Json>, clock: Clock, gen: IdSource, grouped: Db, s: Second, f: Second)
    requires CellsOk(cells)
  {
    && GroupsWritten(start.db, id, cells, input, GroupTables(cells, input), grouped)
    && SecondPhase(start.(db := grouped), id, cells, input, gen) == Ok(s)
    && InPhase(start.(db := grouped), id, cells, input, gen, s)
    && UpdateIfAny(s.db, id, s.back, clock).Ok?
    && f == s.(db := UpdateIfAny(s.db, id, s.back, clock).value)
  }

  lemma FinishSound(start: Second, id: string, cells: seq<Named>, input: map<string, Json>, clock: Clock, gen: IdSource) returns (grouped: Db, s: Second)
    requires StartOk(start, cells, input, gen)
    requires Finish(start, id, cells, input, clock, gen).Ok?
    ensures Finished(start, id, cells, input, clock, gen, grouped, s, Finish(start, id, cells, input, clock, gen).value)
  {
    GroupTablesDistinct(cells, input);
    WriteGroupsSound(start.db, id, cells, input, GroupTables(cells, input));
    grouped := WriteGroups(start.db, id, cells, input, GroupTables(cells, input)).value;
    GroupedStart(start, id, cells, input, gen, grouped);
    SecondPhaseSound(start.(db := grouped), id, cells, input, gen);
    s := SecondPhase(start.(db := grouped), id, cells, input, gen).value;
  }

  // --- satellites ---------------------------------------------------------------------------

  lemma {:induction false} MainOnly(a: Db, b: Db, c: Column, p: string)
    requires CellOk(c) && b == a.(main := b.main)
    ensures CellLoad(b, c, p) == CellLoad(a, c, p)
  {
    SameLoad(a, b, c, p);
  }

  /** A satellite no cell of the payload stores in reads as before. */
  lemma UntouchedLoad(start: Second, id: string, cells: seq<Named>, input: map<string, Json>, clock: Clock, gen: IdSource, grouped: Db, s: Second, f: Second, c: Column, p: string)
    requires SecondCells(cells, input, start)
    requires Finished(start, id, cells, input, clock, gen, grouped, s, f)
    requires CellOk(c) && (Untouched(cells, StorageOf(c)) || (p != id && !StorageOf(c).InChild?))
    ensures CellLoad(f.db, c, p) == CellLoad(start.db, c, p)
  {
    GroupsIsolated(start.db, id, cells, input, grouped, StorageOf(c), p);
    SameLoad(start.db, grouped, c, p);
    assert SameStorage(grouped, s.db, StorageOf(c), p);
    SameLoad(grouped, s.db, c, p);
    MainOnly(s.db, f.db, c, p);
  }

  /** A sent satellite is reported, with what a read gives exactly when the sent value is
      honest, or reads as before. */
  lemma {:induction false} SentLoad(start: Second, id: string, cells: seq<Named>, input: map<string, Json>, clock: Clock, gen: IdSource, grouped: Db, s: Second, f: Second, nc: Named)
    requires SecondCells(cells, input, start) && Separate(cells)
    requires Finished(start, id, cells, input, clock, gen, grouped, s, f)
    requires nc in cells && nc.column.IsSatellite()
    ensures nc.name in f.newVals ==> (f.newVals[nc.name] == CellLoad(f.db, nc.column, id) <==> HonestCell(nc.column, id, At0(input, nc.name)))
    ensures nc.name !in f.newVals ==> CellLoad(f.db, nc.column, id) == CellLoad(start.db, nc.column, id)
  {
    assert Processed(start.(db := grouped), id, nc, input, s);
    MainOnly(s.db, f.db, nc.column, id);
    if nc.name !in s.newVals {
      forall d | d in cells && Handled(d, input) ensures !Touches(d.column, StorageOf(nc.column)) {
        SeparatePair(cells, d, nc);
      }
      GroupsIsolated(start.db, id, cells, input, grouped, StorageOf(nc.column), id);
      SameLoad(start.db, grouped, nc.column, id);
    }
  }

  lemma DistinctCells(cells: seq<Named>, c: Named, d: Named)
    requires DistinctStorage(cells) && DistinctNames(cells)
    requires c in cells && d in cells
    ensures StorageOf(c.column) == StorageOf(d.column) ==> c == d
    ensures c.name == d.name ==> c == d
  {}

  // --- columns -------------------------------------------------------------------------------

  /** The columns an UPDATE leaves, once the server has taken its values. */
  function RowAfter(row: Row, assigns: seq<Assign>, clock: Clock): Row {
    var vals := Evaluate(assigns);
    if assigns == [] || vals.Err? then row else Touched(row + vals.value, clock)
  }

  /** What the assignments leave in a column. */
  function CellAfter(assigns: seq<Assign>, col: string, was: Sql): Sql {
    var a := SetOf(assigns, col);
    if a.Some? then Stored(a.value) else was
  }

  lemma RowAfterAt(row: Row, assigns: seq<Assign>, clock: Clock, col: string)
    requires clock.touch != Some(col) && Evaluate(assigns).Ok?
    ensures Cell(RowAfter(row, assigns, clock), col) == CellAfter(assigns, col, Cell(row, col))
  {
    EvaluateAt(assigns, col);
  }

  lemma UpdateRow(db: Db, id: string, assigns: seq<Assign>, clock: Clock)
    requires id in db.main && UpdateIfAny(db, id, assigns, clock).Ok?
    ensures var out := UpdateIfAny(db, id, assigns, clock).value;
      && out == db.(main := out.main)
      && id in out.main && out.main[id] == RowAfter(db.main[id], assigns, clock)
      && out.main.Keys == db.main.Keys
      && (forall p :: p in db.main && p != id ==> out.main[p] == db.main[p])
      && Evaluate(assigns).Ok?
  {}

  // --- one update ------------------------------------------------------------------------------

  lemma OneMoreField(cells: seq<Named>, last: Named)
    requires DistinctNames(cells) && DistinctStorage(cells)
    requires forall i :: 0 <= i < |cells| ==> cells[i].name != last.name && StorageOf(cells[i].column) != StorageOf(last.column)
    ensures DistinctNames(cells + [last]) && DistinctStorage(cells + [last])
  {}

  lemma OneMoreApart(cells: seq<Named>, last: Named)
    requires Separate(cells)
    requires forall i :: 0 <= i < |cells| ==> !Touches(cells[i].column, StorageOf(last.column)) && !Touches(last.column, StorageOf(cells[i].column))
    ensures Separate(cells + [last])
  {}

  lemma {:induction false} DeferredDistinct(cols: seq<Named>, input: map<string, Json>)
    requires CellsOk(cols) && DistinctNames(cols) && DistinctStorage(cols)
    ensures DistinctNames(DeferredCells(cols, input)) && DistinctStorage(DeferredCells(cols, input))
    ensures Separate(cols) ==> Separate(DeferredCells(cols, input))
  {
    if cols != [] {
      var init, last := cols[..|cols| - 1], cols[|cols| - 1];
      PrefixOk(cols);
      assert CellsOk(init);
      DeferredDistinct(init, input);
      DeferredOk(init, input);
      var cells := DeferredCells(init, input);
      forall i | 0 <= i < |cells| ensures cells[i].name != last.name && StorageOf(cells[i].column) != StorageOf(last.column) {
        assert cells[i] in cells && cells[i] in init;
      }
      OneMoreField(cells, last);
      if Separate(cols) {
        SeparateSnoc(cols);
        assert forall i :: 0 <= i < |cells| ==> cells[i] in cells && cells[i] in init;
        OneMoreApart(cells, last);
      }
    }
  }

  /** The state the second phase of an update starts from. */
  function UpdateStart(t: Table, clock: Clock, db1: Db, next: nat, input: map<string, Json>): Second {
    var plan := Assignments(t.cols, input);
    Second(db1, next, plan.changed, plan.newVals, [])
  }

  lemma UpdateStartOk(t: Table, clock: Clock, db1: Db, next: nat, input: map<string, Json>, gen: IdSource)
    requires Bookkept(t, clock) && Sound(db1, gen, next)
    ensures CellsOk(DeferredCells(t.cols, input))
    ensures StartOk(UpdateStart(t, clock, db1, next, input), DeferredCells(t.cols, input), input, gen)
  {
    DeferredOk(t.cols, input);
    DeferredDistinct(t.cols, input);
    forall n ensures n in Assignments(t.cols, input).changed <==> n in Assignments(t.cols, input).newVals {
      PlanNames(t.cols, input, n);
    }
    PlanNames(t.cols, input, "");
    forall nc | nc in DeferredCells(t.cols, input) ensures nc.name !in Assignments(t.cols, input).newVals {
      PlanAt(t.cols, input, nc);
    }
  }

  /** The whole update, step by step. */
  ghost predicate Updated(t: Table, clock: Clock, db: Db, next: nat, id: string, input: map<string, Json>, gen: IdSource, grouped: Db, s: Second, f: Second)
    requires Bookkept(t, clock)
  {
    DeferredOk(t.cols, input);
    var plan := Assignments(t.cols, input);
    && id in db.main && UpdateIfAny(db, id, plan.assigns, clock).Ok?
    && var start := UpdateStart(t, clock, UpdateIfAny(db, id, plan.assigns, clock).value, next, input);
    && StartOk(start, DeferredCells(t.cols, input), input, gen)
    && Finished(start, id, DeferredCells(t.cols, input), input, clock, gen, grouped, s, f)
  }

  /** What can be told of a sent value before the save: whether what will be reported of
      it is what a read will give. The server's image of a scalar has to decode to its
      echo, that of a resolved text to the resolved value. */
  ghost predicate HonestField(c: Column, id: string, v: Json) {
    match c
    case ReadOnly(_, _) => true
    case Scalar(_, _, _, _) => Echoed(c, v)
    case Deferred(col, resolve, admit) =>
      if v == Null then Normalize(Stored(Assign(col, SqlNull, admit))) == Null
      else resolve(id, v).Ok? && resolve(id, v).value != Null ==> Normalize(Stored(AssignOf(c, resolve(id, v).value))) == resolve(id, v).value
    case _ => HonestCell(c, id, v)
  }

  /** A reported field reads as reported exactly when the sent value is honest; an
      unreported one reads as before. */
  ghost predicate FieldTruth(t: Table, db: Db, id: string, input: map<string, Json>, f: Second, nc: Named)
    requires CellOk(nc.column)
  {
    if nc.name in f.newVals
    then FieldValue(t, f.db, id, nc.column) == f.newVals[nc.name] <==> HonestField(nc.column, id, At0(input, nc.name))
    else FieldValue(t, f.db, id, nc.column) == FieldValue(t, db, id, nc.column)
  }

  lemma {:induction false} SatelliteTruth(t: Table, clock: Clock, db: Db, next: nat, id: string, input: map<string, Json>, gen: IdSource, grouped: Db, s: Second, f: Second, nc: Named)
    requires TableOk(t, clock)
    requires Updated(t, clock, db, next, id, input, gen, grouped, s, f)
    requires nc in t.cols && nc.column.IsSatellite()
    ensures FieldTruth(t, db, id, input, f, nc)
  {
    DeferredOk(t.cols, input);
    DeferredDistinct(t.cols, input);
    var cells, db1 := DeferredCells(t.cols, input), UpdateIfAny(db, id, Assignments(t.cols, input).assigns, clock).value;
    var start := UpdateStart(t, clock, db1, next, input);
    UpdateRow(db, id, Assignments(t.cols, input).assigns, clock);
    MainOnly(db, db1, nc.column, id);
    if nc in cells {
      SentLoad(start, id, cells, input, clock, gen, grouped, s, f, nc);
    } else {
      forall d | d in cells ensures !Touches(d.column, StorageOf(nc.column)) && d.name != nc.name {
        DistinctCells(t.cols, d, nc);
        SeparatePair(t.cols, d, nc);
      }
      UntouchedLoad(start, id, cells, input, clock, gen, grouped, s, f, nc.column, id);
      PlanAt(t.cols, input, nc);
    }
  }

  /** The columns of the row after both UPDATEs. */
  lemma RowTwice(t: Table, clock: Clock, db: Db, next: nat, id: string, input: map<string, Json>, gen: IdSource, grouped: Db, s: Second, f: Second, col: string)
    requires Bookkept(t, clock)
    requires Updated(t, clock, db, next, id, input, gen, grouped, s, f)
    requires clock.touch != Some(col)
    ensures id in f.db.main
    ensures var plan := Assignments(t.cols, input);
      Cell(f.db.main[id], col) == CellAfter(s.back, col, CellAfter(plan.assigns, col, Cell(db.main[id], col)))
  {
    DeferredOk(t.cols, input);
    var plan := Assignments(t.cols, input);
    UpdateRow(db, id, plan.assigns, clock);
    UpdateRow(s.db, id, s.back, clock);
    RowAfterAt(db.main[id], plan.assigns, clock, col);
    RowAfterAt(s.db.main[id], s.back, clock, col);
  }

  /** A column no cell of the second phase owns keeps what the first phase left. */
  lemma ColumnAfter(t: Table, clock: Clock, db: Db, next: nat, id: string, input: map<string, Json>, gen: IdSource, grouped: Db, s: Second, f: Second, nc: Named)
    requires TableOk(t, clock)
    requires Updated(t, clock, db, next, id, input, gen, grouped, s, f)
    requires nc in t.cols && !nc.column.IsSatellite() && !InSecond(nc, input)
    requires clock.touch != ColumnOf(nc.column)
    ensures id in f.db.main
    ensures Cell(f.db.main[id], ColumnName(nc.column))
         == if Planned(nc, input) then Stored(PlannedAssign(nc, input)) else Cell(db.main[id], ColumnName(nc.column))
    ensures nc.name in f.newVals <==> Planned(nc, input)
    ensures Planned(nc, input) ==> f.newVals[nc.name] == AssignParse(nc.column, input[nc.name]).value.echo
  {
    DeferredOk(t.cols, input);
    var cells, col := DeferredCells(t.cols, input), ColumnName(nc.column);
    PlanAt(t.cols, input, nc);
    forall d | d in cells ensures StorageOf(d.column) != StorageOf(nc.column) && d.name != nc.name {
      DistinctCells(t.cols, d, nc);
    }
    assert Untouched(cells, InColumn(col));
    RowTwice(t, clock, db, next, id, input, gen, grouped, s, f, col);
  }

  lemma ColumnTruth(t: Table, clock: Clock, db: Db, next: nat, id: string, input: map<string, Json>, gen: IdSource, grouped: Db, s: Second, f: Second, nc: Named)
    requires TableOk(t, clock)
    requires Updated(t, clock, db, next, id, input, gen, grouped, s, f)
    requires nc in t.cols && !nc.column.IsSatellite() && !InSecond(nc, input)
    requires clock.touch != ColumnOf(nc.column)
    ensures FieldTruth(t, db, id, input, f, nc)
  {
    ColumnAfter(t, clock, db, next, id, input, gen, grouped, s, f, nc);
    ColumnReads(t, clock, db, f.db, id, input, nc);
  }

  /** What such a column reads as. */
  lemma ColumnReads(t: Table, clock: Clock, db: Db, after: Db, id: string, input: map<string, Json>, nc: Named)
    requires TableOk(t, clock) && nc in t.cols && !nc.column.IsSatellite() && !InSecond(nc, input)
    requires id in db.main && id in after.main
    requires Cell(after.main[id], ColumnName(nc.column))
          == if Planned(nc, input) then Stored(PlannedAssign(nc, input)) else Cell(db.main[id], ColumnName(nc.column))
    ensures Planned(nc, input) ==>
      (FieldValue(t, after, id, nc.column) == AssignParse(nc.column, input[nc.name]).value.echo <==> HonestField(nc.column, id, At0(input, nc.name)))
    ensures Planned(nc, input) && nc.column.Scalar? ==> FieldValue(t, after, id, nc.column) == ReadAs(nc.column, input[nc.name])
    ensures !Planned(nc, input) ==> FieldValue(t, after, id, nc.column) == FieldValue(t, db, id, nc.column)
  {
    assert nc.column.Writable() ==> ColumnOf(nc.column) != Some(t.id);
  }

  /** A deferred column holds the server's image of what was resolved. */
  lemma {:induction false} DeferredAfter(t: Table, clock: Clock, db: Db, next: nat, id: string, input: map<string, Json>, gen: IdSource, grouped: Db, s: Second, f: Second, nc: Named)
    requires TableOk(t, clock)
    requires Updated(t, clock, db, next, id, input, gen, grouped, s, f)
    requires nc in t.cols && !nc.column.IsSatellite() && InSecond(nc, input)
    ensures id in f.db.main
    ensures if nc.name in f.newVals
      then f.newVals[nc.name] != Null && ResolvesTo(nc.column, id, At0(input, nc.name), f.newVals[nc.name])
        && Cell(f.db.main[id], ColumnName(nc.column)) == Stored(AssignOf(nc.column, f.newVals[nc.name]))
      else ResolvesTo(nc.column, id, At0(input, nc.name), Null) && Cell(f.db.main[id], ColumnName(nc.column)) == Cell(db.main[id], ColumnName(nc.column))
  {
    DeferredOk(t.cols, input);
    DeferredDistinct(t.cols, input);
    var cells, col := DeferredCells(t.cols, input), ColumnName(nc.column);
    PlanAt(t.cols, input, nc);
    assert nc in cells && Processed(UpdateStart(t, clock, UpdateIfAny(db, id, Assignments(t.cols, input).assigns, clock).value, next, input).(db := grouped), id, nc, input, s);
    RowTwice(t, clock, db, next, id, input, gen, grouped, s, f, col);
  }

  /** It reads as the value that is reported if and only if the image of the resolved
      text decodes to that value: a text the server stores in another form is reported
      as it was resolved. */
  lemma {:induction false} DeferredTruth(t: Table, clock: Clock, db: Db, next: nat, id: string, input: map<string, Json>, gen: IdSource, grouped: Db, s: Second, f: Second, nc: Named)
    requires TableOk(t, clock)
    requires Updated(t, clock, db, next, id, input, gen, grouped, s, f)
    requires nc in t.cols && !nc.column.IsSatellite() && InSecond(nc, input)
    ensures FieldTruth(t, db, id, input, f, nc)
  {
    DeferredAfter(t, clock, db, next, id, input, gen, grouped, s, f, nc);
    DeferredReads(t, clock, db, id, input, f, nc);
  }

  lemma DeferredReads(t: Table, clock: Clock, db: Db, id: string, input: map<string, Json>, f: Second, nc: Named)
    requires TableOk(t, clock) && nc in t.cols && nc.column.Deferred? && At0(input, nc.name) != Null
    requires id in db.main && id in f.db.main
    requires if nc.name in f.newVals
      then f.newVals[nc.name] != Null && ResolvesTo(nc.column, id, At0(input, nc.name), f.newVals[nc.name])
        && Cell(f.db.main[id], ColumnName(nc.column)) == Stored(AssignOf(nc.column, f.newVals[nc.name]))
      else Cell(f.db.main[id], ColumnName(nc.column)) == Cell(db.main[id], ColumnName(nc.column))
    ensures FieldTruth(t, db, id, input, f, nc)
  {
    assert ColumnOf(nc.column) != Some(t.id);
  }

  lemma {:induction false} DiffMembers(render: Render, keys: seq<string>, before: map<string, Json>, after: map<string, Json>)
    ensures forall c :: c in Diff(render, keys, before, after) ==>
      c.field in keys && c.was == At0(before, c.field) && c.now == At0(after, c.field) && render(c.was) != render(c.now)
    ensures forall k :: k in keys && render(At0(before, k)) != render(At0(after, k)) ==>
      Change(k, At0(before, k), At0(after, k)) in Diff(render, keys, before, after)
  {
    if keys != [] {
      assert keys == keys[..|keys| - 1] + [keys[|keys| - 1]];
      DiffMembers(render, keys[..|keys| - 1], before, after);
    }
  }

  lemma {:induction false} DiffOnce(render: Render, keys: seq<string>, before: map<string, Json>, after: map<string, Json>)
    requires NoRepeats(keys)
    ensures forall i, j :: 0 <= i < j < |Diff(render, keys, before, after)| ==> Diff(render, keys, before, after)[i].field != Diff(render, keys, before, after)[j].field
  {
    if keys != [] {
      var init, k := keys[..|keys| - 1], keys[|keys| - 1];
      DiffOnce(render, init, before, after);
      DiffMembers(render, init, before, after);
      var d := Diff(render, init, before, after);
      assert k !in init && forall i :: 0 <= i < |d| ==> d[i] in d;
    }
  }

  lemma DiffSound(render: Render, keys: seq<string>, before: map<string, Json>, after: map<string, Json>)
    ensures forall c :: c in Diff(render, keys, before, after) ==>
      c.field in keys && c.was == At0(before, c.field) && c.now == At0(after, c.field) && render(c.was) != render(c.now)
    ensures forall k :: k in keys && render(At0(before, k)) != render(At0(after, k)) ==>
      Change(k, At0(before, k), At0(after, k)) in Diff(render, keys, before, after)
    ensures NoRepeats(keys) ==>
      forall i, j :: 0 <= i < j < |Diff(render, keys, before, after)| ==> Diff(render, keys, before, after)[i].field != Diff(render, keys, before, after)[j].field
  {
    DiffMembers(render, keys, before, after);
    if NoRepeats(keys) { DiffOnce(render, keys, before, after); }
  }

  /** What the listener is told of an update: of sent fields only, and only of those that
      render differently, what each was, and what it reads as now exactly when the sent
      value is honest. */
  ghost predicate Truthful(t: Table, clock: Clock, render: Render, id: string, input: map<string, Json>, before: map<string, Json>, after: map<string, Json>, report: seq<Change>) {
    && (forall c :: c in report ==> c.field in before && c.field in after && c.was == before[c.field])
    && (forall c :: c in report ==> c.field in input && render(c.was) != render(c.now))
    && (forall c, nc :: c in report && nc in t.cols && nc.name == c.field ==> (c.now == after[c.field] <==> HonestField(nc.column, id, At0(input, c.field))))
    && (forall i, j :: 0 <= i < j < |report| ==> report[i].field != report[j].field)
    && (forall nc :: nc in t.cols && !IsTouch(clock, nc) && !Reported(report, nc.name) ==> nc.name in before && nc.name in after)
    && (forall nc :: nc in t.cols && !IsTouch(clock, nc) && !Reported(report, nc.name) && Honestly(nc, id, input) ==> render(before[nc.name]) == render(after[nc.name]))
  }

  /** The field was not sent, or its value is honest. */
  ghost predicate Honestly(nc: Named, id: string, input: map<string, Json>) {
    nc.name in input ==> HonestField(nc.column, id, input[nc.name])
  }

  predicate IsTouch(clock: Clock, nc: Named) {
    clock.touch.Some? && StorageOf(nc.column) == InColumn(clock.touch.value)
  }

  ghost predicate Reported(report: seq<Change>, name: string) {
    exists c :: c in report && c.field == name
  }

  lemma {:induction false} AllTruth(t: Table, clock: Clock, db: Db, next: nat, id: string, input: map<string, Json>, gen: IdSource, grouped: Db, s: Second, f: Second, nc: Named)
    requires TableOk(t, clock)
    requires Updated(t, clock, db, next, id, input, gen, grouped, s, f)
    requires nc in t.cols && !IsTouch(clock, nc)
    ensures FieldTruth(t, db, id, input, f, nc)
  {
    if nc.column.IsSatellite() {
      SatelliteTruth(t, clock, db, next, id, input, gen, grouped, s, f, nc);
    } else if InSecond(nc, input) {
      DeferredTruth(t, clock, db, next, id, input, gen, grouped, s, f, nc);
    } else {
      ColumnTruth(t, clock, db, next, id, input, gen, grouped, s, f, nc);
    }
  }

  /** Only declared, writable, sent fields are recorded. */
  lemma {:induction false} RecordedField(t: Table, clock: Clock, db: Db, next: nat, id: string, input: map<string, Json>, gen: IdSource, grouped: Db, s: Second, f: Second, n: string) returns (nc: Named)
    requires Bookkept(t, clock)
    requires Updated(t, clock, db, next, id, input, gen, grouped, s, f)
    requires n in f.newVals
    ensures nc in t.cols && nc.name == n && n in input && nc.column.Writable() && !IsTouch(clock, nc)
    ensures n in Assignments(t.cols, input).changed + NamesOf(DeferredCells(t.cols, input))
  {
    DeferredOk(t.cols, input);
    var cells := DeferredCells(t.cols, input);
    if n in Assignments(t.cols, input).newVals {
      PlanNames(t.cols, input, n);
      nc :| nc in t.cols && nc.name == n && Planned(nc, input);
    } else {
      nc :| nc in cells && nc.name == n;
      var i :| 0 <= i < |cells| && cells[i] == nc;
      assert NamesOf(cells)[i] == n;
    }
  }

  lemma RowAtField(t: Table, clock: Clock, db: Db, id: string, keys: seq<string>, nc: Named)
    requires Bookkept(t, clock) && nc in t.cols && nc.name in keys
    ensures nc.name in RowOf(t, db, id, keys) && RowOf(t, db, id, keys)[nc.name] == FieldValue(t, db, id, nc.column)
  {
    LookupDeclared(t.cols, nc);
  }

  lemma LoadAtField(t: Table, clock: Clock, db: Db, id: string, nc: Named)
    requires Bookkept(t, clock) && nc in t.cols && id in db.main
    ensures nc.name in Load(t, db, id).value && Load(t, db, id).value[nc.name] == FieldValue(t, db, id, nc.column)
  {
    LookupDeclared(t.cols, nc);
  }

  /** A recorded field: what it was, and whether it reads as recorded. */
  lemma RecordedTruth(t: Table, clock: Clock, db: Db, next: nat, id: string, input: map<string, Json>, gen: IdSource, grouped: Db, s: Second, f: Second, n: string)
    requires TableOk(t, clock)
    requires Updated(t, clock, db, next, id, input, gen, grouped, s, f)
    requires id in f.db.main && n in f.newVals
    ensures var before, after, was := Load(t, db, id).value, Load(t, f.db, id).value, RowOf(t, db, id, Assignments(t.cols, input).changed + NamesOf(DeferredCells(t.cols, input)));
      && n in before && n in after && At0(was, n) == before[n] && n in input
      && (forall nc :: nc in t.cols && nc.name == n ==> (f.newVals[n] == after[n] <==> HonestField(nc.column, id, input[n])))
  {
    var nc := RecordedField(t, clock, db, next, id, input, gen, grouped, s, f, n);
    AllTruth(t, clock, db, next, id, input, gen, grouped, s, f, nc);
    RowAtField(t, clock, db, id, Assignments(t.cols, input).changed + NamesOf(DeferredCells(t.cols, input)), nc);
    LoadAtField(t, clock, db, id, nc);
    LoadAtField(t, clock, f.db, id, nc);
    forall d | d in t.cols && d.name == n ensures d == nc { DistinctCells(t.cols, d, nc); }
  }

  /** An unreported field renders as before, if it was not sent or its value is honest. */
  lemma SilentTruth(t: Table, clock: Clock, render: Render, db: Db, next: nat, id: string, input: map<string, Json>, gen: IdSource, grouped: Db, s: Second, f: Second, nc: Named)
    requires TableOk(t, clock)
    requires Updated(t, clock, db, next, id, input, gen, grouped, s, f)
    requires id in f.db.main && nc in t.cols && !IsTouch(clock, nc)
    requires nc.name in f.newVals ==> render(Load(t, db, id).value[nc.name]) == render(f.newVals[nc.name])
    ensures var before, after := Load(t, db, id).value, Load(t, f.db, id).value;
      && nc.name in before && nc.name in after
      && (Honestly(nc, id, input) ==> render(before[nc.name]) == render(after[nc.name]))
  {
    AllTruth(t, clock, db, next, id, input, gen, grouped, s, f, nc);
    LoadAtField(t, clock, db, id, nc);
    LoadAtField(t, clock, f.db, id, nc);
    if nc.name in f.newVals {
      RecordedTruth(t, clock, db, next, id, input, gen, grouped, s, f, nc.name);
    }
  }

  lemma ReportTruth(t: Table, clock: Clock, render: Render, db: Db, next: nat, id: string, input: map<string, Json>, gen: IdSource, grouped: Db, s: Second, f: Second)
    requires TableOk(t, clock)
    requires Updated(t, clock, db, next, id, input, gen, grouped, s, f)
    requires id in f.db.main
    ensures var keys := Assignments(t.cols, input).changed + NamesOf(DeferredCells(t.cols, input));
      Truthful(t, clock, render, id, input, Load(t, db, id).value, Load(t, f.db, id).value, Diff(render, f.changed, RowOf(t, db, id, keys), f.newVals))
  {
    var keys := Assignments(t.cols, input).changed + NamesOf(DeferredCells(t.cols, input));
    var before, after, was := Load(t, db, id).value, Load(t, f.db, id).value, RowOf(t, db, id, keys);
    var report := Diff(render, f.changed, was, f.newVals);
    DiffSound(render, f.changed, was, f.newVals);
    forall n | n in f.newVals
      ensures n in before && n in after && At0(was, n) == before[n] && At0(f.newVals, n) == f.newVals[n] && n in input
      ensures forall nc :: nc in t.cols && nc.name == n ==> (f.newVals[n] == after[n] <==> HonestField(nc.column, id, At0(input, n)))
    {
      RecordedTruth(t, clock, db, next, id, input, gen, grouped, s, f, n);
    }
    forall nc | nc in t.cols && !IsTouch(clock, nc) && !Reported(report, nc.name)
      ensures nc.name in before && nc.name in after && (Honestly(nc, id, input) ==> render(before[nc.name]) == render(after[nc.name]))
    {
      assert Change(nc.name, At0(was, nc.name), At0(f.newVals, nc.name)) !in report;
      SilentTruth(t, clock, render, db, next, id, input, gen, grouped, s, f, nc);
    }
  }

  /** No sent field has a value the store writes. */
  ghost predicate Idle(t: Table, input: map<string, Json>) {
    forall nc :: nc in t.cols && nc.name in input ==> nc.column.ReadOnly? || (nc.column.Scalar? && nc.column.parse(input[nc.name]).None?)
  }

  lemma IdleExactly(t: Table, input: map<string, Json>)
    requires WellDeclared(t)
    ensures Idle(t, input) <==> Assignments(t.cols, input).assigns == [] && DeferredCells(t.cols, input) == []
  {
    DeferredOk(t.cols, input);
    forall nc | nc in t.cols ensures Planned(nc, input) ==> Assignments(t.cols, input).assigns != [] {
      PlanAt(t.cols, input, nc);
      PlanNames(t.cols, input, nc.name);
    }
    PlanNames(t.cols, input, "");
    if Assignments(t.cols, input).assigns != [] {
      var n := Assignments(t.cols, input).changed[0];
      PlanNames(t.cols, input, n);
    }
    if DeferredCells(t.cols, input) != [] {
      assert DeferredCells(t.cols, input)[0] in t.cols;
    }
  }

  /** A successful update reports each change with what Load gave before, no field twice,
      and with what Load gives after if and only if the sent value is honest; every honest
      field it does not report renders the same (the touch column aside); an update with
      nothing to write reports nothing and changes nothing, any other is reported, if with
      an empty list. */
  lemma {:induction false} UpdateTellsTruth(t: Table, clock: Clock, render: Render, db: Db, next: nat, id: string, input: map<string, Json>, gen: IdSource)
    requires TableOk(t, clock) && Sound(db, gen, next)
    requires SaveUpdate(t, clock, render, db, next, id, input, gen).Ok?
    ensures var out := SaveUpdate(t, clock, render, db, next, id, input, gen).value;
      && out.id == id && Load(t, db, id).Some? && Load(t, out.db, id).Some?
      && (out.report.None? <==> Idle(t, input))
      && (out.report.None? ==> out.db == db)
      && (out.report.Some? ==> Truthful(t, clock, render, id, input, Load(t, db, id).value, Load(t, out.db, id).value, out.report.value))
  {
    var out := SaveUpdate(t, clock, render, db, next, id, input, gen).value;
    IdleExactly(t, input);
    if out.report.Some? {
      var grouped, s, f := UpdateSteps(t, clock, render, db, next, id, input, gen);
      RowTwiceExists(t, clock, db, next, id, input, gen, grouped, s, f);
      ReportTruth(t, clock, render, db, next, id, input, gen, grouped, s, f);
    }
  }

  lemma RowTwiceExists(t: Table, clock: Clock, db: Db, next: nat, id: string, input: map<string, Json>, gen: IdSource, grouped: Db, s: Second, f: Second)
    requires Bookkept(t, clock)
    requires Updated(t, clock, db, next, id, input, gen, grouped, s, f)
    ensures id in f.db.main && f.db.main.Keys == db.main.Keys
    ensures forall p :: p in db.main && p != id ==> f.db.main[p] == db.main[p]
  {
    DeferredOk(t.cols, input);
    UpdateRow(db, id, Assignments(t.cols, input).assigns, clock);
    UpdateRow(s.db, id, s.back, clock);
  }

  /** An update of this payload ends its phases in f. */
  ghost predicate FinishedAs(t: Table, clock: Clock, db: Db, next: nat, id: string, input: map<string, Json>, gen: IdSource, f: Second)
    requires CellsOk(t.cols)
  {
    DeferredOk(t.cols, input);
    && UpdateIfAny(db, id, Assignments(t.cols, input).assigns, clock).Ok?
    && Finish(UpdateStart(t, clock, UpdateIfAny(db, id, Assignments(t.cols, input).assigns, clock).value, next, input), id, DeferredCells(t.cols, input), input, clock, gen) == Ok(f)
  }

  lemma UpdateSteps(t: Table, clock: Clock, render: Render, db: Db, next: nat, id: string, input: map<string, Json>, gen: IdSource) returns (grouped: Db, s: Second, f: Second)
    requires Bookkept(t, clock) && Sound(db, gen, next)
    requires SaveUpdate(t, clock, render, db, next, id, input, gen).Ok?
    requires SaveUpdate(t, clock, render, db, next, id, input, gen).value.report.Some?
    ensures Updated(t, clock, db, next, id, input, gen, grouped, s, f)
    ensures FinishedAs(t, clock, db, next, id, input, gen, f)
    ensures var out := SaveUpdate(t, clock, render, db, next, id, input, gen).value;
      && out.db == f.db && out.next == f.next
      && out.report == Some(Diff(render, f.changed, RowOf(t, db, id, Assignments(t.cols, input).changed + NamesOf(DeferredCells(t.cols, input))), f.newVals))
  {
    DeferredOk(t.cols, input);
    var plan, cells := Assignments(t.cols, input), DeferredCells(t.cols, input);
    var db1 := UpdateIfAny(db, id, plan.assigns, clock).value;
    UpdateRow(db, id, plan.assigns, clock);
    UpdateStartOk(t, clock, db1, next, input, gen);
    f := Finish(UpdateStart(t, clock, db1, next, input), id, cells, input, clock, gen).value;
    grouped, s := FinishSound(UpdateStart(t, clock, db1, next, input), id, cells, input, clock, gen);
  }

  // --- other rows ---------------------------------------------------------------------------

  lemma OtherField(t: Table, clock: Clock, db: Db, next: nat, id: string, input: map<string, Json>, gen: IdSource, grouped: Db, s: Second, f: Second, nc: Named, p: string)
    requires Bookkept(t, clock)
    requires Updated(t, clock, db, next, id, input, gen, grouped, s, f)
    requires nc in t.cols && p != id && p in db.main
    ensures FieldValue(t, f.db, p, nc.column) == FieldValue(t, db, p, nc.column)
  {
    DeferredOk(t.cols, input);
    RowTwiceExists(t, clock, db, next, id, input, gen, grouped, s, f);
    if nc.column.IsSatellite() {
      var cells, db1 := DeferredCells(t.cols, input), UpdateIfAny(db, id, Assignments(t.cols, input).assigns, clock).value;
      var start := UpdateStart(t, clock, db1, next, input);
      UpdateRow(db, id, Assignments(t.cols, input).assigns, clock);
      MainOnly(db, db1, nc.column, p);
      if nc in cells {
        GroupsIsolated(db1, id, cells, input, grouped, StorageOf(nc.column), p);
        SameLoad(db1, grouped, nc.column, p);
        assert CellLoad(s.db, nc.column, p) == CellLoad(grouped, nc.column, p);
        MainOnly(s.db, f.db, nc.column, p);
      } else {
        if StorageOf(nc.column).InChild? { ApartChild(t.cols, cells, nc); }
        UntouchedLoad(start, id, cells, input, clock, gen, grouped, s, f, nc.column, p);
      }
    }
  }

  /** A child table is touched by the cell over it alone. */
  lemma ApartChild(cols: seq<Named>, cells: seq<Named>, nc: Named)
    requires DistinctStorage(cols) && DistinctNames(cols) && nc in cols && StorageOf(nc.column).InChild?
    requires nc !in cells && forall d :: d in cells ==> d in cols
    ensures Untouched(cells, StorageOf(nc.column))
  {
    forall d | d in cells ensures !Touches(d.column, StorageOf(nc.column)) { DistinctCells(cols, d, nc); }
  }

  lemma SameLoads(t: Table, a: Db, b: Db, p: string)
    requires CellsOk(t.cols)
    requires p in a.main <==> p in b.main
    requires p in a.main ==> forall nc :: nc in t.cols ==> FieldValue(t, b, p, nc.column) == FieldValue(t, a, p, nc.column)
    ensures Load(t, b, p) == Load(t, a, p)
  {
    forall n | n in Names(t.cols) && p in a.main
      ensures FieldValue(t, b, p, Lookup(t.cols, n).value) == FieldValue(t, a, p, Lookup(t.cols, n).value)
    {
      var nc := Named(n, Lookup(t.cols, n).value);
      assert nc in t.cols;
      assert FieldValue(t, b, p, nc.column) == FieldValue(t, a, p, nc.column);
    }
    if p in a.main {
      assert Load(t, b, p).value == Load(t, a, p).value;
    }
  }

  /** Updating one row leaves every field of every other row exactly as it was. */
  lemma OtherRowsStay(t: Table, clock: Clock, render: Render, db: Db, next: nat, id: string, input: map<string, Json>, gen: IdSource, p: string)
    requires Bookkept(t, clock) && Sound(db, gen, next)
    requires SaveUpdate(t, clock, render, db, next, id, input, gen).Ok?
    requires p != id
    ensures Load(t, SaveUpdate(t, clock, render, db, next, id, input, gen).value.db, p) == Load(t, db, p)
  {
    var out := SaveUpdate(t, clock, render, db, next, id, input, gen).value;
    if out.report.Some? {
      var grouped, s, f := UpdateSteps(t, clock, render, db, next, id, input, gen);
      RowTwiceExists(t, clock, db, next, id, input, gen, grouped, s, f);
      forall nc | nc in t.cols && p in db.main ensures FieldValue(t, f.db, p, nc.column) == FieldValue(t, db, p, nc.column) {
        OtherField(t, clock, db, next, id, input, gen, grouped, s, f, nc, p);
      }
      SameLoads(t, db, f.db, p);
    }
  }
}
