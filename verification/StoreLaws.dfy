/** A successful save tells the truth: every reported change is what a read gives before
    and after, and what is not reported reads the same. */
module StoreLaws {
  import opened Values
  import opened Columns
  import opened ChildTables
  import opened Database
  import opened CellLaws
  import opened StoreSpec
  import opened PlanLaws
  import opened GroupLaws

  /** A declaration the constructors allow: no name and no storage twice. */
  ghost predicate WellDeclared(t: Table) {
    CellsOk(t.cols) && DistinctNames(t.cols) && DistinctStorage(t.cols)
  }

  /** One whose bookkeeping columns, the primary key and the touch column, are not
      written. */
  ghost predicate Bookkept(t: Table, clock: Clock) {
    && WellDeclared(t)
    && (forall nc :: nc in t.cols && nc.column.Writable() ==> StorageOf(nc.column) != InColumn(t.id))
    && (clock.touch.Some? ==> forall nc :: nc in t.cols && nc.column.Writable() ==> StorageOf(nc.column) != InColumn(clock.touch.value))
  }

  /** And whose cells do not take values of each other away: one that clears by deleting
      rows has its side table to itself. */
  ghost predicate TableOk(t: Table, clock: Clock) {
    Bookkept(t, clock) && Separate(t.cols)
  }

  // --- the second phase ---------------------------------------------------------------------

  ghost predicate Untouched(cells: seq<Named>, st: Storage) {
    forall nc :: nc in cells ==> !Touches(nc.column, st)
  }

  ghost predicate ResolvesTo(c: Column, id: string, v: Json, r: Json) {
    c.Deferred? && c.resolve(id, v) == Ok(r)
  }

  /** What one processed cell has become: reported, with what a read gives exactly when
      the sent value is honest, or skipped with nothing written; a deferred column is
      reported with what it resolved to and waits for the second UPDATE. */
  ghost predicate Processed(start: Second, id: string, nc: Named, input: map<string, Json>, s: Second)
    requires CellOk(nc.column)
  {
    if nc.name in s.newVals then
      if nc.column.IsSatellite() then s.newVals[nc.name] == CellLoad(s.db, nc.column, id) <==> HonestCell(nc.column, id, At0(input, nc.name))
      else
        && s.newVals[nc.name] != Null && ResolvesTo(nc.column, id, At0(input, nc.name), s.newVals[nc.name])
        && SetOf(s.back, ColumnName(nc.column)) == Some(AssignOf(nc.column, s.newVals[nc.name]))
    else
      if nc.column.IsSatellite() then !Handled(nc, input) && CellLoad(s.db, nc.column, id) == CellLoad(start.db, nc.column, id)
      else
        && ResolvesTo(nc.column, id, At0(input, nc.name), Null)
        && SetOf(s.back, ColumnName(nc.column)) == SetOf(start.back, ColumnName(nc.column))
  }

  /** The state after the cells processed so far. */
  ghost predicate InPhase(start: Second, id: string, cells: seq<Named>, input: map<string, Json>, gen: IdSource, s: Second)
    requires CellsOk(cells)
  {
    && s.db.main == start.db.main
    && start.next <= s.next && Sound(s.db, gen, s.next)
    && (forall st, p :: Untouched(cells, st) || (p != id && !st.InChild?) ==> SameStorage(start.db, s.db, st, p))
    && (forall nc, p :: nc in cells && p != id ==> CellLoad(s.db, nc.column, p) == CellLoad(start.db, nc.column, p))
    && (forall col :: Untouched(cells, InColumn(col)) ==> SetOf(s.back, col) == SetOf(start.back, col))
    && (Separate(cells) ==> forall nc :: nc in cells ==> Processed(start, id, nc, input, s))
    && (forall n :: n in s.changed <==> n in s.newVals)
    && NoRepeats(s.changed)
    && (forall n :: n in start.newVals ==> n in s.newVals && s.newVals[n] == start.newVals[n])
    && (forall n :: n in s.newVals && n !in start.newVals ==> exists nc :: nc in cells && nc.name == n)
  }

  ghost predicate SecondCells(cells: seq<Named>, input: map<string, Json>, start: Second) {
    && CellsOk(cells) && DistinctNames(cells) && DistinctStorage(cells)
    && (forall nc :: nc in cells ==> nc.column.Saves() && nc.name in input && nc.name !in start.newVals)
  }

  /** What one turn of the deferred loop does, whether the cell was grouped or saves
      itself: nobody else's storage changes, a nil echo means nothing was written, a
      satellite's echo is the read exactly when the sent value is honest, and a deferred
      column echoes what it resolved to. */
  ghost predicate GoodSave(s: Second, id: string, nc: Named, input: map<string, Json>, gen: IdSource, out: Saved)
    requires CellOk(nc.column)
  {
    && out.db.main == s.db.main && s.next <= out.next && Sound(out.db, gen, out.next)
    && (forall st, p :: Leaves(nc.column, id, st, p) ==> SameStorage(s.db, out.db, st, p))
    && (forall p :: p != id ==> CellLoad(out.db, nc.column, p) == CellLoad(s.db, nc.column, p))
    && (out.echo == Null ==> out.db == s.db && !Handled(nc, input))
    && (nc.column.IsSatellite() ==> Truth(nc.column, id, At0(input, nc.name), out))
    && (!nc.column.IsSatellite() ==> ResolvesTo(nc.column, id, At0(input, nc.name), out.echo))
  }

  lemma SecondSaveLaw(s: Second, id: string, nc: Named, input: map<string, Json>, gen: IdSource)
    requires CellOk(nc.column) && nc.column.Saves()
    requires Sound(s.db, gen, s.next)
    requires SecondSave(s, id, nc, input, gen).Ok?
    ensures GoodSave(s, id, nc, input, gen, SecondSave(s, id, nc, input, gen).value)
  {
    if Handled(nc, input) {
      SameIsIsolated(s.db, nc.column, id);
    } else if nc.column.IsSatellite() {
      CellSaveLaw(s.db, s.next, nc.column, id, At0(input, nc.name), gen);
    } else {
      assert nc.column.Deferred?;
    }
  }

  lemma SameStorageTransitive(a: Db, b: Db, c: Db, st: Storage, p: string)
    requires SameStorage(a, b, st, p) && SameStorage(b, c, st, p)
    ensures SameStorage(a, c, st, p)
  {}

  lemma {:induction false} StepStorage(start: Second, id: string, cells: seq<Named>, input: map<string, Json>, gen: IdSource, s: Second, nc: Named, out: Saved, st: Storage, p: string)
    requires CellsOk(cells) && CellOk(nc.column)
    requires InPhase(start, id, cells, input, gen, s) && GoodSave(s, id, nc, input, gen, out)
    requires Untouched(cells + [nc], st) || (p != id && !st.InChild?)
    ensures SameStorage(start.db, Record(s, nc, out).db, st, p)
  {
    assert nc in cells + [nc];
    assert forall d :: d in cells ==> d in cells + [nc];
    assert Untouched(cells + [nc], st) ==> Untouched(cells, st) && !Touches(nc.column, st);
    SameStorageTransitive(start.db, s.db, out.db, st, p);
  }

  lemma StepSets(s: Second, nc: Named, out: Saved, col: string)
    ensures SetOf(Record(s, nc, out).back, col) ==
      if out.echo != Null && !nc.column.IsSatellite() && ColumnName(nc.column) == col then Some(AssignOf(nc.column, out.echo)) else SetOf(s.back, col)
  {}

  lemma {:induction false} StepOthers(start: Second, id: string, cells: seq<Named>, input: map<string, Json>, gen: IdSource, s: Second, nc: Named, out: Saved, d: Named, p: string)
    requires CellsOk(cells) && CellOk(nc.column)
    requires InPhase(start, id, cells, input, gen, s) && GoodSave(s, id, nc, input, gen, out)
    requires p != id && (d == nc ==> forall e :: e in cells ==> StorageOf(e.column) != StorageOf(nc.column))
    requires d == nc || (d in cells && StorageOf(d.column) != StorageOf(nc.column))
    ensures CellOk(d.column) && CellLoad(out.db, d.column, p) == CellLoad(start.db, d.column, p)
  {
    if d == nc {
      assert StorageOf(nc.column).InChild? ==> Untouched(cells, StorageOf(nc.column));
      SameLoad(start.db, s.db, d.column, p);
    } else {
      SameLoad(s.db, out.db, d.column, p);
    }
  }

  /** An earlier cell stays processed. */
  lemma StepOld(start: Second, id: string, cells: seq<Named>, input: map<string, Json>, gen: IdSource, s: Second, nc: Named, out: Saved, d: Named)
    requires CellsOk(cells) && CellOk(nc.column)
    requires InPhase(start, id, cells, input, gen, s) && GoodSave(s, id, nc, input, gen, out)
    requires Separate(cells) && d in cells && d.name != nc.name && d.column.Saves() && nc.column.Saves()
    requires StorageOf(d.column) != StorageOf(nc.column) && !Touches(nc.column, StorageOf(d.column))
    ensures Processed(start, id, d, input, Record(s, nc, out))
  {
    var r := Record(s, nc, out);
    assert Processed(start, id, d, input, s);
    SameLoad(s.db, out.db, d.column, id);
    StepSets(s, nc, out, ColumnName(d.column));
  }

  /** The new cell becomes processed. */
  lemma StepNew(start: Second, id: string, cells: seq<Named>, input: map<string, Json>, gen: IdSource, s: Second, nc: Named, out: Saved)
    requires CellsOk(cells) && CellOk(nc.column)
    requires InPhase(start, id, cells, input, gen, s) && GoodSave(s, id, nc, input, gen, out)
    requires nc.name !in s.newVals && Untouched(cells, StorageOf(nc.column)) && nc.column.Saves()
    ensures Processed(start, id, nc, input, Record(s, nc, out))
  {
    StepSets(s, nc, out, ColumnName(nc.column));
    if out.echo == Null && nc.column.IsSatellite() {
      SameLoad(start.db, s.db, nc.column, id);
    }
    if nc.column.Deferred? {
      assert Untouched(cells, InColumn(ColumnName(nc.column)));
    }
  }

  lemma StepNames(start: Second, id: string, cells: seq<Named>, input: map<string, Json>, gen: IdSource, s: Second, nc: Named, out: Saved)
    requires CellsOk(cells)
    requires InPhase(start, id, cells, input, gen, s)
    requires nc.name !in s.newVals && nc.name !in start.newVals
    ensures var r := Record(s, nc, out);
      && (forall n :: n in r.changed <==> n in r.newVals)
      && NoRepeats(r.changed)
      && (forall n :: n in start.newVals ==> n in r.newVals && r.newVals[n] == start.newVals[n])
      && (forall n :: n in r.newVals && n !in start.newVals ==> exists d :: d in cells + [nc] && d.name == n)
  {
    var r := Record(s, nc, out);
    assert nc.name !in s.changed;
    forall n | n in r.newVals && n !in start.newVals ensures exists d :: d in cells + [nc] && d.name == n {
      if n == nc.name {
        assert nc in cells + [nc];
      } else {
        var d :| d in cells && d.name == n;
        assert d in cells + [nc];
      }
    }
  }

  lemma StepPhase(start: Second, id: string, cells: seq<Named>, input: map<string, Json>, gen: IdSource, s: Second, nc: Named, out: Saved)
    requires SecondCells(cells + [nc], input, start) && CellsOk(cells) && CellOk(nc.column)
    requires InPhase(start, id, cells, input, gen, s) && GoodSave(s, id, nc, input, gen, out)
    requires nc.name !in s.newVals
    requires forall d :: d in cells ==> d.name != nc.name && StorageOf(d.column) != StorageOf(nc.column)
    ensures InPhase(start, id, cells + [nc], input, gen, Record(s, nc, out))
  {
    var all, r := cells + [nc], Record(s, nc, out);
    assert forall d :: d in all <==> d in cells || d == nc;
    StepNames(start, id, cells, input, gen, s, nc, out);
    forall st, p | Untouched(all, st) || (p != id && !st.InChild?) ensures SameStorage(start.db, r.db, st, p) {
      StepStorage(start, id, cells, input, gen, s, nc, out, st, p);
    }
    forall col | Untouched(all, InColumn(col)) ensures SetOf(r.back, col) == SetOf(start.back, col) {
      StepSets(s, nc, out, col);
      assert Untouched(cells, InColumn(col));
    }
    forall d, p | d in all && p != id ensures CellLoad(r.db, d.column, p) == CellLoad(start.db, d.column, p) {
      StepOthers(start, id, cells, input, gen, s, nc, out, d, p);
    }
    if Separate(all) { StepProcessed(start, id, cells, input, gen, s, nc, out); }
  }

  lemma StepProcessed(start: Second, id: string, cells: seq<Named>, input: map<string, Json>, gen: IdSource, s: Second, nc: Named, out: Saved)
    requires SecondCells(cells + [nc], input, start) && CellsOk(cells) && CellOk(nc.column) && Separate(cells + [nc])
    requires InPhase(start, id, cells, input, gen, s) && GoodSave(s, id, nc, input, gen, out)
    requires nc.name !in s.newVals
    requires forall d :: d in cells ==> d.name != nc.name && StorageOf(d.column) != StorageOf(nc.column)
    ensures forall d :: d in cells + [nc] ==> Processed(start, id, d, input, Record(s, nc, out))
  {
    SeparateSnoc(cells + [nc]);
    assert (cells + [nc])[..|cells|] == cells;
    forall d | d in cells + [nc] ensures Processed(start, id, d, input, Record(s, nc, out)) {
      if d in cells { StepOld(start, id, cells, input, gen, s, nc, out, d); }
      else { StepNew(start, id, cells, input, gen, s, nc, out); }
    }
  }

  /** What a second phase starts from. */
  ghost predicate StartOk(start: Second, cells: seq<Named>, input: map<string, Json>, gen: IdSource) {
    && SecondCells(cells, input, start)
    && Sound(start.db, gen, start.next)
    && NoRepeats(start.changed) && (forall n :: n in start.changed <==> n in start.newVals)
  }

  /** The groups leave a state the phase may start from. */
  lemma GroupedStart(start: Second, id: string, cells: seq<Named>, input: map<string, Json>, gen: IdSource, grouped: Db)
    requires StartOk(start, cells, input, gen) && GroupsWritten(start.db, id, cells, input, GroupTables(cells, input), grouped)
    ensures StartOk(start.(db := grouped), cells, input, gen)
  {}

  lemma PrefixCells(cells: seq<Named>, input: map<string, Json>, start: Second)
    requires SecondCells(cells, input, start) && cells != []
    ensures SecondCells(cells[..|cells| - 1], input, start)
    ensures CellOk(cells[|cells| - 1].column) && (Separate(cells) ==> Separate(cells[..|cells| - 1]))
    ensures forall d :: d in cells[..|cells| - 1] ==> d.name != cells[|cells| - 1].name && StorageOf(d.column) != StorageOf(cells[|cells| - 1].column)
    ensures cells[|cells| - 1].name !in start.newVals && cells[|cells| - 1].column.Saves()
  {}

  lemma PhaseStarts(start: Second, id: string, input: map<string, Json>, gen: IdSource)
    requires StartOk(start, [], input, gen)
    ensures InPhase(start, id, [], input, gen, start)
  {}

  /** One more cell. */
  lemma PhaseTurn(start: Second, id: string, init: seq<Named>, input: map<string, Json>, gen: IdSource, s: Second, nc: Named)
    requires SecondCells(init + [nc], input, start) && CellsOk(init) && InPhase(start, id, init, input, gen, s)
    requires CellOk(nc.column) && nc.column.Saves() && nc.name !in start.newVals
    requires forall d :: d in init ==> d.name != nc.name && StorageOf(d.column) != StorageOf(nc.column)
    requires SecondSave(s, id, nc, input, gen).Ok?
    ensures InPhase(start, id, init + [nc], input, gen, Record(s, nc, SecondSave(s, id, nc, input, gen).value))
  {
    SecondSaveLaw(s, id, nc, input, gen);
    assert nc.name !in s.newVals;
    StepPhase(start, id, init, input, gen, s, nc, SecondSave(s, id, nc, input, gen).value);
  }

  lemma {:induction false} SecondPhaseSound(start: Second, id: string, cells: seq<Named>, input: map<string, Json>, gen: IdSource)
    requires StartOk(start, cells, input, gen)
    requires SecondPhase(start, id, cells, input, gen).Ok?
    ensures InPhase(start, id, cells, input, gen, SecondPhase(start, id, cells, input, gen).value)
  {
    if cells == [] {
      PhaseStarts(start, id, input, gen);
    } else {
      var init, nc := cells[..|cells| - 1], cells[|cells| - 1];
      assert cells == init + [nc];
      PrefixCells(cells, input, start);
      SecondPhaseSound(start, id, init, input, gen);
      PhaseTurn(start, id, init, input, gen, SecondPhase(start, id, init, input, gen).value, nc);
    }
  }

  /** Each satellite of the phase is saved once, from a state in which its own storage
      is still what it was; it keeps what that save gave it and is recorded with the echo
      of that save. */
  lemma {:induction false} SecondPhaseSaves(start: Second, id: string, cells: seq<Named>, input: map<string, Json>, gen: IdSource, d: Named) returns (x: Second)
    requires StartOk(start, cells, input, gen) && Separate(cells)
    requires SecondPhase(start, id, cells, input, gen).Ok?
    requires d in cells && d.column.IsSatellite()
    ensures SameStorage(start.db, x.db, StorageOf(d.column), id) && Sound(x.db, gen, x.next) && start.next <= x.next
    ensures SecondSave(x, id, d, input, gen).Ok?
    ensures SavedAs(SecondPhase(start, id, cells, input, gen).value, id, d, SecondSave(x, id, d, input, gen).value)
  {
    var init, nc := cells[..|cells| - 1], cells[|cells| - 1];
    PrefixCells(cells, input, start);
    SeparateSnoc(cells);
    SecondPhaseSound(start, id, init, input, gen);
    var s := SecondPhase(start, id, init, input, gen).value;
    if d in init {
      x := SecondPhaseSaves(start, id, init, input, gen, d);
      SecondSaveLaw(s, id, nc, input, gen);
      SavedStays(s, id, nc, input, gen, SecondSave(s, id, nc, input, gen).value, d, SecondSave(x, id, d, input, gen).value);
    } else {
      assert cells == init + [nc];
      x := s;
      FirstSaved(start, id, init, input, gen, s, nc);
    }
  }

  /** The cell whose turn it is finds its own storage as it was. */
  lemma FirstSaved(start: Second, id: string, init: seq<Named>, input: map<string, Json>, gen: IdSource, s: Second, nc: Named)
    requires CellsOk(init) && CellOk(nc.column) && nc.column.IsSatellite() && SecondSave(s, id, nc, input, gen).Ok?
    requires InPhase(start, id, init, input, gen, s) && nc.name !in start.newVals
    requires forall d :: d in init ==> d.name != nc.name && !Touches(d.column, StorageOf(nc.column))
    ensures SameStorage(start.db, s.db, StorageOf(nc.column), id) && Sound(s.db, gen, s.next)
    ensures SavedAs(Record(s, nc, SecondSave(s, id, nc, input, gen).value), id, nc, SecondSave(s, id, nc, input, gen).value)
  {
    assert Untouched(init, StorageOf(nc.column));
    assert nc.name !in s.newVals;
  }

  /** A cell that reads as one save left it and is recorded with its echo, if any. */
  ghost predicate SavedAs(s: Second, id: string, d: Named, out: Saved)
    requires CellOk(d.column)
  {
    && CellLoad(s.db, d.column, id) == CellLoad(out.db, d.column, id)
    && (d.name in s.newVals <==> out.echo != Null)
    && (out.echo != Null ==> s.newVals[d.name] == out.echo)
  }

  lemma SavedStays(s: Second, id: string, nc: Named, input: map<string, Json>, gen: IdSource, now: Saved, d: Named, out: Saved)
    requires CellOk(nc.column) && CellOk(d.column) && d.name != nc.name && !Touches(nc.column, StorageOf(d.column))
    requires GoodSave(s, id, nc, input, gen, now)
    requires SavedAs(s, id, d, out)
    ensures SavedAs(Record(s, nc, now), id, d, out)
  {
    SameLoad(s.db, now.db, d.column, id);
  }
}
