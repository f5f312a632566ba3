/** Saving back exactly what Load returned. */
module SaveBack {
  import opened Values
  import opened Ordering
  import opened SideTables
  import opened KeyedLaws
  import opened Columns
  import opened ChildTables
  import opened ChildLists
  import opened ListLaws
  import opened RelsTables
  import opened Database
  import opened CellLaws
  import opened StoreSpec
  import opened PlanLaws
  import opened GroupLaws
  import opened StoreLaws
  import opened UpdateTruth

  /** Cells for which sending a loaded value stores and reports that value, in this
      state. A relation list must not hold an id twice, and what it holds is what the
      server shows of it. */
  ghost predicate Restorable(t: Table, db: Db, c: Column, id: string)
    requires CellOk(c)
  {
    match c
    case ReadOnly(_, _) => true
    case Scalar(_, _, _, _) => Reparses(c, FieldValue(t, db, id, c))
    case Deferred(_, resolve, _) =>
      var v := FieldValue(t, db, id, c);
      (v == Null || resolve(id, v) == Ok(v)) && HonestField(c, id, v)
    case KeyedStrings(_, _, _) => true
    case Child(ct, shape) =>
      if ct.partitioned then forall k :: k in PartitionKeys(ChildOf(db, ct.name).rows, id) ==> Repeatable(ct, shape, ChildOf(db, ct.name), id, k)
      else Repeatable(ct, shape, ChildOf(db, ct.name), id, "")
    case Rels(rels, path, target) =>
      var ids := ReadRels(RelsOf(db, rels.name), id, path, target);
      NoRepeat(ids) && OwnImages(rels.cast, ids)
    case DeferredList(list, resolve) =>
      && Restorable(t, db, list, id)
      && CellLoad(db, list, id).Arr?
      && var items := CellLoad(db, list, id).items;
        forall i :: 0 <= i < |items| ==> items[i] != Null && resolve(id, items[i]) == Ok(items[i])
  }

  lemma RestorableSame(t: Table, a: Db, b: Db, c: Column, id: string)
    requires CellOk(c) && c.IsSatellite() && SameStorage(a, b, StorageOf(c), id)
    requires Restorable(t, a, c, id)
    ensures Restorable(t, b, c, id)
  {
    if c.DeferredList? {
      RestorableSame(t, a, b, c.list, id);
      SameLoad(a, b, c.list, id);
    }
  }

  // --- child lists ----------------------------------------------------------------------

  lemma ReadSize(ct: ChildTable, shape: Shape, d: ChildDb, parent: string, key: string)
    requires ShapeOk(ct, shape)
    ensures |ReadPartition(ct, shape, d, parent, key)| == |Select(ct, d.rows, parent, key)|
  {}

  lemma SameReadsSameKeys(ct: ChildTable, shape: Shape, d: ChildDb, e: ChildDb, parent: string)
    requires ShapeOk(ct, shape) && ct.partitioned
    requires forall k :: k != "" ==> ReadPartition(ct, shape, e, parent, k) == ReadPartition(ct, shape, d, parent, k)
    ensures PartitionKeys(e.rows, parent) == PartitionKeys(d.rows, parent)
  {
    forall k | k != "" ensures k in PartitionKeys(e.rows, parent) <==> k in PartitionKeys(d.rows, parent) {
      PartitionSelected(ct, e.rows, parent, k);
      PartitionSelected(ct, d.rows, parent, k);
      ReadSize(ct, shape, e, parent, k);
      ReadSize(ct, shape, d, parent, k);
    }
    assert "" !in PartitionKeys(e.rows, parent) && "" !in PartitionKeys(d.rows, parent);
  }

  lemma KeyedBack(ct: ChildTable, shape: Shape, st: ChildState, parent: string, gen: IdSource)
    requires ShapeOk(ct, shape) && ct.partitioned
    requires Unissued(gen, st.next, st.db.rows) && NestedKeys(st.db)
    requires forall k :: k in PartitionKeys(st.db.rows, parent) ==> Repeatable(ct, shape, st.db, parent, k)
    requires var patch := LoadParts(ct, shape, st.db, parent, PartitionKeys(st.db.rows, parent));
      WriteParts(ct, shape, st, parent, patch, SortedKeys(patch.Keys), gen).Ok?
    ensures var patch := LoadParts(ct, shape, st.db, parent, PartitionKeys(st.db.rows, parent));
      LoadList(ct, shape, WriteParts(ct, shape, st, parent, patch, SortedKeys(patch.Keys), gen).value.db, parent) == LoadList(ct, shape, st.db, parent)
  {
    var patch := LoadParts(ct, shape, st.db, parent, PartitionKeys(st.db.rows, parent));
    var keys := SortedKeys(patch.Keys);
    var out := WriteParts(ct, shape, st, parent, patch, keys, gen).value;
    forall k | k != "" ensures ReadPartition(ct, shape, out.db, parent, k) == ReadPartition(ct, shape, st.db, parent, k) {
      SaveBackParts(ct, shape, gen, st, parent, patch, keys, k);
    }
    SameReadsSameKeys(ct, shape, st.db, out.db, parent);
    SameKeyedLoad(ct, shape, st.db, out.db, parent);
  }

  lemma ChildBack(ct: ChildTable, shape: Shape, st: ChildState, parent: string, gen: IdSource)
    requires ShapeOk(ct, shape)
    requires Unissued(gen, st.next, st.db.rows) && NestedKeys(st.db)
    requires if ct.partitioned then forall k :: k in PartitionKeys(st.db.rows, parent) ==> Repeatable(ct, shape, st.db, parent, k)
             else Repeatable(ct, shape, st.db, parent, "")
    requires SaveList(ct, shape, st, parent, LoadList(ct, shape, st.db, parent), gen).Ok?
    ensures var out := SaveList(ct, shape, st, parent, LoadList(ct, shape, st.db, parent), gen).value;
      out.Some? && LoadList(ct, shape, out.value.db, parent) == LoadList(ct, shape, st.db, parent)
  {
    if ct.partitioned {
      KeyedBack(ct, shape, st, parent, gen);
    } else {
      SaveBackPartition(ct, shape, st, parent, "", gen);
    }
  }

  // --- every satellite ----------------------------------------------------------------------

  lemma {:induction false} ResolvedAsIs(resolve: (string, Json) -> Result<Json>, parent: string, list: seq<Json>)
    requires forall i :: 0 <= i < |list| ==> list[i] != Null && resolve(parent, list[i]) == Ok(list[i])
    ensures ResolveAll(resolve, parent, list) == Ok(list)
  {
    if list != [] {
      assert list == list[..|list| - 1] + [list[|list| - 1]];
      ResolvedAsIs(resolve, parent, list[..|list| - 1]);
    }
  }

  lemma KeyedCellBack(db: Db, next: nat, c: Column, parent: string)
    requires c.KeyedStrings?
    requires SaveKeyed(db, next, c.side, c.col, c.clear, parent, CellLoad(db, c, parent)).Ok?
    ensures CellLoad(SaveKeyed(db, next, c.side, c.col, c.clear, parent, CellLoad(db, c, parent)).value.db, c, parent) == CellLoad(db, c, parent)
  {
    var w := Write(c.col, c.clear, CellLoad(db, c, parent).fields);
    OneWrite(w);
    SaveBackGroup(c.side, db.main.Keys, SideOf(db, c.side.name), parent, [w]);
  }

  lemma ReadNoneEmpty(d: RelsDb, parent: string, path: string, target: string)
    ensures NoneEmpty(ReadRels(d, parent, path, target))
  {
    var q := SelectRels(d, parent, path, target);
    forall i | 0 <= i < |q| ensures q[i].id in d.rows && d.rows[q[i].id].target != "" {
      assert q[i] in Elems(q);
      InRelSlots(d, parent, path, target, q[i]);
    }
  }

  lemma {:induction false} IdSliceIn(ids: seq<string>)
    ensures forall x :: x in IdSlice(Strings(ids)) ==> x in ids
  {
    if ids != [] {
      var n := |ids| - 1;
      IdSliceIn(ids[..n]);
      assert Strings(ids)[..n] == Strings(ids[..n]);
      assert ids == ids[..n] + [ids[n]];
    }
  }

  /** What is kept of ids that are their own images is their own images. */
  lemma KeptOwnImages(cast: Cast, ids: seq<string>)
    requires OwnImages(cast, ids)
    ensures OwnImages(cast, IdSlice(Strings(ids))) && Images(cast, IdSlice(Strings(ids))) == IdSlice(Strings(ids))
  {
    var kept := IdSlice(Strings(ids));
    IdSliceIn(ids);
    forall i | 0 <= i < |kept| ensures cast(kept[i]) == Some(kept[i]) {
      assert kept[i] in ids;
      var j :| 0 <= j < |ids| && ids[j] == kept[i];
    }
  }

  /** A relation list sent back as it was read reads the same if and only if it held no
      id twice. */
  lemma RelsCellBack(db: Db, next: nat, c: Column, parent: string, gen: IdSource)
    requires c.Rels? && Sound(db, gen, next)
    requires OwnImages(c.rels.cast, ReadRels(RelsOf(db, c.rels.name), parent, c.path, c.target))
    requires SaveRels(db, next, c.rels, c.path, c.target, parent, CellLoad(db, c, parent)).Ok?
    ensures CellLoad(SaveRels(db, next, c.rels, c.path, c.target, parent, CellLoad(db, c, parent)).value.db, c, parent) == CellLoad(db, c, parent)
       <==> NoRepeat(ReadRels(RelsOf(db, c.rels.name), parent, c.path, c.target))
  {
    var ids := ReadRels(RelsOf(db, c.rels.name), parent, c.path, c.target);
    ReadNoneEmpty(RelsOf(db, c.rels.name), parent, c.path, c.target);
    IdSliceOrdered(Strings(ids));
    RelsTruth(db, next, c, parent, CellLoad(db, c, parent));
    KeptOwnImages(c.rels.cast, ids);
    if NoRepeat(ids) { IdSliceStrings(ids); }
    if Strings(IdSlice(Strings(ids))) == Strings(ids) { StringsDiffer(IdSlice(Strings(ids)), ids); }
  }

  /** What is sent back of a restorable satellite is honest. */
  lemma {:induction false} RestorableHonest(t: Table, db: Db, c: Column, parent: string)
    requires CellOk(c) && c.IsSatellite() && Restorable(t, db, c, parent)
    ensures HonestCell(c, parent, CellLoad(db, c, parent))
    decreases c
  {
    match c
    case Rels(rels, path, target) => KeptOwnImages(rels.cast, ReadRels(RelsOf(db, rels.name), parent, path, target));
    case DeferredList(list, resolve) =>
      ResolvedAsIs(resolve, parent, CellLoad(db, list, parent).items);
      ListSatellite(list);
      RestorableHonest(t, db, list, parent);
    case _ =>
  }

  lemma ListSatellite(c: Column)
    requires IsList(c)
    ensures c.IsSatellite()
  {}

  /** A satellite sent back as it was read reads the same. */
  lemma CellBack(t: Table, db: Db, next: nat, c: Column, parent: string, gen: IdSource)
    requires CellOk(c) && c.IsSatellite() && Sound(db, gen, next)
    requires Restorable(t, db, c, parent)
    requires CellSave(db, next, c, parent, CellLoad(db, c, parent), gen).Ok?
    ensures CellLoad(CellSave(db, next, c, parent, CellLoad(db, c, parent), gen).value.db, c, parent) == CellLoad(db, c, parent)
    decreases c
  {
    match c
    case KeyedStrings(_, _, _) => KeyedCellBack(db, next, c, parent);
    case Rels(_, _, _) => RelsCellBack(db, next, c, parent, gen);
    case Child(ct, shape) =>
      ChildSound(db, gen, next, ct.name);
      ChildBack(ct, shape, ChildState(ChildOf(db, ct.name), next), parent, gen);
    case DeferredList(list, resolve) =>
      ResolvedAsIs(resolve, parent, CellLoad(db, list, parent).items);
      CellBack(t, db, next, list, parent, gen);
  }

  // --- the second phase --------------------------------------------------------------------

  ghost predicate SentBack(t: Table, db: Db, id: string, cells: seq<Named>, input: map<string, Json>)
    requires CellsOk(cells)
  {
    forall nc :: nc in cells && nc.column.IsSatellite() ==>
      nc.name in input && input[nc.name] == CellLoad(db, nc.column, id) && Restorable(t, db, nc.column, id)
  }

  lemma SecondPhaseBack(t: Table, start: Second, id: string, cells: seq<Named>, input: map<string, Json>, gen: IdSource, d: Named)
    requires StartOk(start, cells, input, gen) && Separate(cells)
    requires SecondPhase(start, id, cells, input, gen).Ok?
    requires SentBack(t, start.db, id, cells, input)
    requires d in cells && d.column.IsSatellite()
    ensures CellLoad(SecondPhase(start, id, cells, input, gen).value.db, d.column, id) == CellLoad(start.db, d.column, id)
  {
    var x := SecondPhaseSaves(start, id, cells, input, gen, d);
    SameLoad(start.db, x.db, d.column, id);
    if !Handled(d, input) {
      RestorableSame(t, start.db, x.db, d.column, id);
      CellBack(t, x.db, x.next, d.column, id, gen);
    }
  }

  // --- the whole row ------------------------------------------------------------------------

  /** What the database gives for every satellite that is sent back. */
  ghost predicate FromDb(t: Table, db: Db, id: string, cells: seq<Named>, input: map<string, Json>)
    requires CellsOk(cells)
  {
    forall nc :: nc in cells && nc.column.IsSatellite() ==>
      nc.name in input && input[nc.name] == CellLoad(db, nc.column, id) && Restorable(t, db, nc.column, id)
  }

  lemma OverlayOfItself(side: Side, parent: string, col: string, patch: map<string, Json>)
    requires Obj(patch) == Texts(Read(side, parent, col))
    ensures Overlay(Read(side, parent, col), patch) == Read(side, parent, col)
  {}

  /** What was read clears nothing. */
  lemma LoadedErases(db: Db, c: Column, id: string)
    requires c.KeyedStrings?
    ensures Erases(Write(c.col, c.clear, CellLoad(db, c, id).fields))
  {}

  /** The groups of a payload read from the database change no satellite. */
  lemma {:induction false} GroupsBack(t: Table, db: Db, id: string, cells: seq<Named>, input: map<string, Json>, grouped: Db)
    requires CellsOk(cells) && DistinctNames(cells) && Separate(cells)
    requires FromDb(t, db, id, cells, input)
    requires GroupsWritten(db, id, cells, input, GroupTables(cells, input), grouped)
    ensures SentBack(t, grouped, id, cells, input)
  {
    forall nc | nc in cells && nc.column.IsSatellite()
      ensures input[nc.name] == CellLoad(grouped, nc.column, id) && Restorable(t, grouped, nc.column, id)
    {
      SeparateDistinct(cells);
      if Handled(nc, input) {
        LoadedErases(db, nc.column, id);
        GroupsOverlay(db, id, cells, input, grouped, nc);
        OverlayOfItself(SideOf(db, nc.column.side.name), id, nc.column.col, input[nc.name].fields);
      } else {
        forall d | d in cells && Handled(d, input) ensures !Touches(d.column, StorageOf(nc.column)) {
          SeparatePair(cells, d, nc);
        }
        GroupsIsolated(db, id, cells, input, grouped, StorageOf(nc.column), id);
        SameLoad(db, grouped, nc.column, id);
        RestorableSame(t, db, grouped, nc.column, id);
      }
    }
  }

  ghost predicate AllRestorable(t: Table, db: Db, id: string)
    requires CellsOk(t.cols)
  {
    forall nc :: nc in t.cols ==> Restorable(t, db, nc.column, id)
  }

  lemma LoadedFromDb(t: Table, clock: Clock, db: Db, id: string, db1: Db, d: Named)
    requires TableOk(t, clock) && id in db.main
    requires d in t.cols && d.column.IsSatellite() && Restorable(t, db, d.column, id)
    requires db1 == db.(main := db1.main)
    ensures d.name in Load(t, db, id).value && Load(t, db, id).value[d.name] == CellLoad(db1, d.column, id)
    ensures Restorable(t, db1, d.column, id)
  {
    LoadAtField(t, clock, db, id, d);
    RestorableMain(t, db, db1, d.column, id);
  }

  /** The main table is of no account to a satellite. */
  lemma RestorableMain(t: Table, db: Db, db1: Db, c: Column, id: string)
    requires CellOk(c) && c.IsSatellite() && Restorable(t, db, c, id) && db1 == db.(main := db1.main)
    ensures Restorable(t, db1, c, id) && CellLoad(db1, c, id) == CellLoad(db, c, id)
  {
    MainOnly(db, db1, c, id);
    RestorableSame(t, db, db1, c, id);
  }

  lemma StartFromDb(t: Table, clock: Clock, db: Db, id: string, db1: Db, cells: seq<Named>)
    requires TableOk(t, clock) && id in db.main && AllRestorable(t, db, id)
    requires db1 == db.(main := db1.main)
    requires CellsOk(cells) && forall nc :: nc in cells ==> nc in t.cols
    ensures FromDb(t, db1, id, cells, Load(t, db, id).value)
  {
    var input := Load(t, db, id).value;
    forall d | d in cells && d.column.IsSatellite()
      ensures d.name in input && input[d.name] == CellLoad(db1, d.column, id) && Restorable(t, db1, d.column, id)
    {
      LoadedFromDb(t, clock, db, id, db1, d);
    }
  }

  /** Groups, second phase, second UPDATE: no satellite changes. */
  lemma {:induction false} FinishBack(t: Table, start: Second, id: string, cells: seq<Named>, input: map<string, Json>, clock: Clock, gen: IdSource, f: Second, nc: Named)
    requires StartOk(start, cells, input, gen) && Separate(cells) && FromDb(t, start.db, id, cells, input)
    requires Finish(start, id, cells, input, clock, gen) == Ok(f)
    requires nc in cells && nc.column.IsSatellite()
    ensures CellLoad(f.db, nc.column, id) == CellLoad(start.db, nc.column, id)
  {
    GroupTablesDistinct(cells, input);
    WriteGroupsSound(start.db, id, cells, input, GroupTables(cells, input));
    var grouped := WriteGroups(start.db, id, cells, input, GroupTables(cells, input)).value;
    GroupedStart(start, id, cells, input, gen, grouped);
    GroupsBack(t, start.db, id, cells, input, grouped);
    SecondPhaseBack(t, start.(db := grouped), id, cells, input, gen, nc);
    MainOnly(SecondPhase(start.(db := grouped), id, cells, input, gen).value.db, f.db, nc.column, id);
  }

  lemma SatelliteBack(t: Table, clock: Clock, db: Db, next: nat, id: string, gen: IdSource, f: Second, nc: Named)
    requires TableOk(t, clock) && Sound(db, gen, next) && id in db.main && AllRestorable(t, db, id)
    requires FinishedAs(t, clock, db, next, id, Load(t, db, id).value, gen, f)
    requires nc in t.cols && nc.column.IsSatellite()
    ensures CellLoad(f.db, nc.column, id) == CellLoad(db, nc.column, id)
  {
    var input := Load(t, db, id).value;
    DeferredOk(t.cols, input);
    DeferredDistinct(t.cols, input);
    var cells, db1 := DeferredCells(t.cols, input), UpdateIfAny(db, id, Assignments(t.cols, input).assigns, clock).value;
    UpdateRow(db, id, Assignments(t.cols, input).assigns, clock);
    UpdateStartOk(t, clock, db1, next, input, gen);
    StartFromDb(t, clock, db, id, db1, cells);
    LoadAtField(t, clock, db, id, nc);
    FinishBack(t, UpdateStart(t, clock, db1, next, input), id, cells, input, clock, gen, f, nc);
    MainOnly(db, db1, nc.column, id);
  }

  /** What the first phase records of a column that is sent back is what it held. */
  lemma FirstBack(t: Table, db: Db, id: string, c: Column, v: Json)
    requires CellOk(c) && !c.IsSatellite() && v == FieldValue(t, db, id, c) && Restorable(t, db, c, id)
    requires AssignParse(c, v).Some?
    ensures AssignParse(c, v).value.echo == v && HonestField(c, id, v)
  {}

  /** A column that is sent back reads as before and is recorded, if at all, with that. */
  lemma ColumnBack(t: Table, clock: Clock, db: Db, next: nat, id: string, input: map<string, Json>, gen: IdSource, grouped: Db, s: Second, f: Second, nc: Named)
    requires TableOk(t, clock) && id in db.main
    requires Updated(t, clock, db, next, id, input, gen, grouped, s, f)
    requires nc in t.cols && !nc.column.IsSatellite() && !IsTouch(clock, nc) && Restorable(t, db, nc.column, id)
    requires nc.name in input && input[nc.name] == FieldValue(t, db, id, nc.column)
    ensures FieldValue(t, f.db, id, nc.column) == FieldValue(t, db, id, nc.column)
    ensures nc.name in f.newVals ==> f.newVals[nc.name] == FieldValue(t, db, id, nc.column)
  {
    AllTruth(t, clock, db, next, id, input, gen, grouped, s, f, nc);
    if InSecond(nc, input) {
      DeferredAfter(t, clock, db, next, id, input, gen, grouped, s, f, nc);
    } else {
      ColumnAfter(t, clock, db, next, id, input, gen, grouped, s, f, nc);
      if Planned(nc, input) { FirstBack(t, db, id, nc.column, input[nc.name]); }
    }
  }

  /** The fields of a row, the touch column aside, read the same in two states. */
  ghost predicate SameFields(t: Table, clock: Clock, a: Db, b: Db, id: string)
    requires CellsOk(t.cols)
  {
    forall nc :: nc in t.cols && !IsTouch(clock, nc) ==> FieldValue(t, b, id, nc.column) == FieldValue(t, a, id, nc.column)
  }

  lemma {:induction false} FieldBack(t: Table, clock: Clock, db: Db, next: nat, id: string, gen: IdSource, grouped: Db, s: Second, f: Second, nc: Named)
    requires TableOk(t, clock) && Sound(db, gen, next) && id in db.main && AllRestorable(t, db, id)
    requires Updated(t, clock, db, next, id, Load(t, db, id).value, gen, grouped, s, f)
    requires FinishedAs(t, clock, db, next, id, Load(t, db, id).value, gen, f)
    requires nc in t.cols && !IsTouch(clock, nc)
    ensures FieldValue(t, f.db, id, nc.column) == FieldValue(t, db, id, nc.column)
    ensures nc.name in f.newVals ==> f.newVals[nc.name] == FieldValue(t, db, id, nc.column)
  {
    var input := Load(t, db, id).value;
    LoadAtField(t, clock, db, id, nc);
    if nc.column.IsSatellite() {
      SatelliteBack(t, clock, db, next, id, gen, f, nc);
      AllTruth(t, clock, db, next, id, input, gen, grouped, s, f, nc);
      RestorableHonest(t, db, nc.column, id);
    } else {
      ColumnBack(t, clock, db, next, id, input, gen, grouped, s, f, nc);
    }
  }

  lemma NothingReported(t: Table, clock: Clock, render: Render, db: Db, next: nat, id: string, input: map<string, Json>, gen: IdSource, grouped: Db, s: Second, f: Second)
    requires TableOk(t, clock)
    requires Updated(t, clock, db, next, id, input, gen, grouped, s, f)
    requires forall nc :: nc in t.cols && nc.column.Writable() && nc.name in f.newVals ==> f.newVals[nc.name] == FieldValue(t, db, id, nc.column)
    ensures Diff(render, f.changed, RowOf(t, db, id, Assignments(t.cols, input).changed + NamesOf(DeferredCells(t.cols, input))), f.newVals) == []
  {
    var keys := Assignments(t.cols, input).changed + NamesOf(DeferredCells(t.cols, input));
    var was := RowOf(t, db, id, keys);
    forall n | n in f.newVals ensures At0(was, n) == At0(f.newVals, n) {
      var nc := RecordedField(t, clock, db, next, id, input, gen, grouped, s, f, n);
      RowAtField(t, clock, db, id, keys, nc);
    }
    NoDiff(render, f.changed, was, f.newVals);
  }

  /** Saving back exactly what Load returned changes nothing Load can see (the touch
      column aside), child ids included, and reports no change. */
  lemma SaveBackChangesNothing(t: Table, clock: Clock, render: Render, db: Db, next: nat, id: string, gen: IdSource)
    requires TableOk(t, clock) && Sound(db, gen, next) && id in db.main && AllRestorable(t, db, id)
    requires SaveUpdate(t, clock, render, db, next, id, Load(t, db, id).value, gen).Ok?
    ensures var out := SaveUpdate(t, clock, render, db, next, id, Load(t, db, id).value, gen).value;
      && SameFields(t, clock, db, out.db, id)
      && (out.report == None || out.report == Some([]))
  {
    var input := Load(t, db, id).value;
    if SaveUpdate(t, clock, render, db, next, id, input, gen).value.report.Some? {
      var grouped, s, f := UpdateSteps(t, clock, render, db, next, id, input, gen);
      forall nc | nc in t.cols && !IsTouch(clock, nc)
        ensures FieldValue(t, f.db, id, nc.column) == FieldValue(t, db, id, nc.column)
        ensures nc.name in f.newVals ==> f.newVals[nc.name] == FieldValue(t, db, id, nc.column)
      {
        FieldBack(t, clock, db, next, id, gen, grouped, s, f, nc);
      }
      NothingReported(t, clock, render, db, next, id, input, gen, grouped, s, f);
    }
  }

  lemma {:induction false} NoDiff(render: Render, keys: seq<string>, before: map<string, Json>, after: map<string, Json>)
    requires forall k :: k in keys ==> At0(before, k) == At0(after, k)
    ensures Diff(render, keys, before, after) == []
  {
    if keys != [] {
      assert forall k :: k in keys[..|keys| - 1] ==> k in keys;
      NoDiff(render, keys[..|keys| - 1], before, after);
    }
  }
}
