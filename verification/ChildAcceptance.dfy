/** When a list of child elements is accepted, exactly: told from the payload and the
    nested rows it finds. */
module ChildAcceptance {
  import opened Values
  import opened SideTables
  import opened KeyedLaws
  import opened Columns
  import opened ChildTables
  import opened ChildLaws
  import opened ChildTheorems

  // --- one satellite of one element ----------------------------------------------------------

  /** Saved on its own, a cell can set keys only where its column is the one NOT NULL
      column of the table, if there is any. */
  ghost predicate SetsAlone(c: Column, v: Json) {
    c.KeyedStrings? && v.Obj? ==> forall k :: k in v.fields && NewText(v.fields[k]) != "" ==> c.side.notNull <= {c.col}
  }

  /** It cannot null a NOT NULL column of a row that is there. */
  ghost predicate ClearsFree(nested: ChildDb, id: string, c: Column, v: Json) {
    c.KeyedStrings? && v.Obj? && c.clear == SetNull && c.col in c.side.notNull ==>
      forall k :: k in v.fields && NewText(v.fields[k]) == "" ==> At(NestedOf(nested, c.side.name), id, k) == None
  }

  ghost predicate CellFits(nested: ChildDb, id: string, c: Column, v: Json) {
    SetsAlone(c, v) && ClearsFree(nested, id, c, v)
  }

  lemma NestedSaveAccepted(db: ChildDb, id: string, c: Column, v: Json)
    requires id in db.rows
    ensures NestedSave(db, id, c, v).Ok? <==> CellFits(db, id, c, v)
  {
    if c.KeyedStrings? && v.Obj? {
      var w, side := Write(c.col, c.clear, v.fields), NestedOf(db, c.side.name);
      WriteManyLocal(c.side, db.rows.Keys, side, id, [w]);
      forall k ensures KeyRow(c.side, true, At(side, id, k), [w], k).Ok? <==> KeyFits(c, side, id, w, k) {
        OneKeyAccepted(c, side, id, w, k);
      }
      KeysFit(db, id, c, v, w, side);
    }
  }

  ghost predicate KeyFits(c: Column, side: Side, id: string, w: Write, k: string)
    requires c.KeyedStrings?
  {
    && (Sets(w, k) ==> c.side.notNull <= {c.col})
    && (Clears(w, k) && c.clear == SetNull && c.col in c.side.notNull ==> At(side, id, k) == None)
  }

  lemma OneKeyAccepted(c: Column, side: Side, id: string, w: Write, k: string)
    requires c.KeyedStrings? && w.col == c.col && w.clear == c.clear
    ensures KeyRow(c.side, true, At(side, id, k), [w], k).Ok? <==> KeyFits(c, side, id, w, k)
  {
    if Clears(w, k) && w.clear == DeleteRow {
      KeyRowOne(c.side, true, At(side, id, k), w, k);
    } else {
      assert Keeps([w], k);
      GroupedAccepted(c.side, true, At(side, id, k), [w], k);
      assert [w][0] == w;
    }
  }

  lemma KeysFit(db: ChildDb, id: string, c: Column, v: Json, w: Write, side: Side)
    requires c.KeyedStrings? && v.Obj? && w == Write(c.col, c.clear, v.fields) && side == NestedOf(db, c.side.name)
    ensures (forall k :: KeyFits(c, side, id, w, k)) <==> CellFits(db, id, c, v)
  {
    if forall k :: KeyFits(c, side, id, w, k) {
      forall k | k in v.fields ensures KeyFits(c, side, id, w, k) {}
    }
  }

  // --- all satellites of one element -----------------------------------------------------------

  /** Whatever is sent fits, told from the rows the element found. */
  ghost predicate ItemFits(nested: ChildDb, id: string, cols: seq<Named>, item: map<string, Json>) {
    forall nc :: nc in cols && nc.name in item ==> CellFits(nested, id, nc.column, item[nc.name])
  }

  /** A cell that fits makes no row another cell could trip over: if it makes one its
      column is the only NOT NULL one. */
  lemma FitsAfter(db: ChildDb, id: string, c: Column, v: Json, d: Column, u: Json)
    requires id in db.rows && !Touches(c, StorageOf(d)) && SameTable(c, d)
    requires NestedSave(db, id, c, v).Ok?
    ensures CellFits(NestedSave(db, id, c, v).value, id, d, u) <==> CellFits(db, id, d, u)
  {
    NestedSaveAccepted(db, id, c, v);
    if c.KeyedStrings? && v.Obj? && d.KeyedStrings? && c.side.name == d.side.name && d.col in d.side.notNull {
      forall k ensures At(NestedOf(NestedSave(db, id, c, v).value, d.side.name), id, k) == None <==> At(NestedOf(db, d.side.name), id, k) == None {
        RowStillAbsent(db, id, c, v, k);
      }
    }
  }

  lemma RowStillAbsent(db: ChildDb, id: string, c: Column, v: Json, k: string)
    requires id in db.rows && c.KeyedStrings? && c.clear != DeleteRow && v.Obj?
    requires NestedSave(db, id, c, v).Ok?
    requires exists n :: n in c.side.notNull && n != c.col
    ensures At(NestedOf(NestedSave(db, id, c, v).value, c.side.name), id, k) == None <==> At(NestedOf(db, c.side.name), id, k) == None
  {
    var w, side := Write(c.col, c.clear, v.fields), NestedOf(db, c.side.name);
    WriteManyLocal(c.side, db.rows.Keys, side, id, [w]);
    OneStep(c.side, true, At(side, id, k), w, k, KeyRow(c.side, true, At(side, id, k), [w], k).value, "");
  }

  ghost predicate SameTable(c: Column, d: Column) {
    c.KeyedStrings? && d.KeyedStrings? && c.side.name == d.side.name ==> c.side == d.side
  }

  /** Cells over one side table declare the same table. */
  ghost predicate SameTables(cols: seq<Named>) {
    forall i, j :: 0 <= i < j < |cols| ==> SameTable(cols[i].column, cols[j].column)
  }

  lemma {:induction false} NestedSavesFit(db: ChildDb, id: string, cols: seq<Named>, item: map<string, Json>, d: Named, u: Json)
    requires id in db.rows && NestedSaves(db, id, cols, item).Ok?
    requires forall i :: 0 <= i < |cols| ==> !Touches(cols[i].column, StorageOf(d.column)) && SameTable(cols[i].column, d.column)
    ensures CellFits(NestedSaves(db, id, cols, item).value, id, d.column, u) <==> CellFits(db, id, d.column, u)
  {
    if cols != [] {
      var init, nc := cols[..|cols| - 1], cols[|cols| - 1];
      NestedSavesFit(db, id, init, item, d, u);
      NestedKeepsRows(db, id, init, item);
      if nc.name in item {
        FitsAfter(NestedSaves(db, id, init, item).value, id, nc.column, item[nc.name], d.column, u);
      }
    }
  }

  /** The satellites of one element go through exactly when each of them fits; their order
      is of no account. */
  lemma {:induction false} NestedSavesAccepted(db: ChildDb, id: string, cols: seq<Named>, item: map<string, Json>)
    requires id in db.rows && Separate(cols) && SameTables(cols)
    ensures NestedSaves(db, id, cols, item).Ok? <==> ItemFits(db, id, cols, item)
  {
    if cols != [] {
      var init, nc := cols[..|cols| - 1], cols[|cols| - 1];
      assert cols == init + [nc];
      SeparateSnoc(cols);
      NestedSavesAccepted(db, id, init, item);
      if NestedSaves(db, id, init, item).Ok? && nc.name in item {
        NestedKeepsRows(db, id, init, item);
        NestedSaveAccepted(NestedSaves(db, id, init, item).value, id, nc.column, item[nc.name]);
        NestedSavesFit(db, id, init, item, nc, item[nc.name]);
      }
    }
  }

  /** A save that goes through sets nothing it may not set on its own. */
  lemma {:induction false} SetsEach(db: ChildDb, id: string, cols: seq<Named>, item: map<string, Json>, nc: Named)
    requires id in db.rows && NestedSaves(db, id, cols, item).Ok? && nc in cols && nc.name in item
    ensures SetsAlone(nc.column, item[nc.name])
  {
    var init, last := cols[..|cols| - 1], cols[|cols| - 1];
    if nc in init {
      SetsEach(db, id, init, item, nc);
    } else {
      NestedKeepsRows(db, id, init, item);
      NestedSaveAccepted(NestedSaves(db, id, init, item).value, id, nc.column, item[nc.name]);
    }
  }

  /** So an element that sets a nested column next to another NOT NULL column of that side
      table is refused, whatever else it sends and however the cells clear. */
  lemma NestedNeighbourRefuses(db: ChildDb, id: string, cols: seq<Named>, item: map<string, Json>, nc: Named, k: string, n: string)
    requires NestedKeys(db) && id in db.rows
    requires nc in cols && nc.column.KeyedStrings? && nc.name in item && item[nc.name].Obj?
    requires k in item[nc.name].fields && NewText(item[nc.name].fields[k]) != ""
    requires n in nc.column.side.notNull && n != nc.column.col
    ensures NestedSaves(db, id, cols, item) == Err(NotNullViolation)
  {
    NestedSavesKeys(db, id, cols, item);
    if NestedSaves(db, id, cols, item).Ok? { SetsEach(db, id, cols, item, nc); }
  }

  // --- the write loop ---------------------------------------------------------------------------

  /** An element the loop writes to the row rid, or to a new one the server names. */
  ghost predicate TurnFits(nested: ChildDb, rid: string, cols: seq<Named>, item: map<string, Json>) {
    && Admitted(cols, item)
    && (forall nc :: nc in cols && nc.name in item ==> SetsAlone(nc.column, item[nc.name]))
    && (rid != "" ==> forall nc :: nc in cols && nc.name in item ==> ClearsFree(nested, rid, nc.column, item[nc.name]))
  }

  /** Nothing hangs on an element that does not exist, so nothing is in the way of a
      clear. */
  lemma NewIsFree(db: ChildDb, id: string, c: Column, v: Json)
    requires NestedKeys(db) && id !in db.rows
    ensures ClearsFree(db, id, c, v)
  {}

  lemma SameNestedFree(d: ChildDb, e: ChildDb, id: string, c: Column, v: Json)
    requires SameNested(d, e, id)
    ensures ClearsFree(d, id, c, v) <==> ClearsFree(e, id, c, v)
  {}

  /** What fits in one state fits in any with the same nested rows of that element. */
  lemma SameNestedFits(d: ChildDb, e: ChildDb, id: string, cols: seq<Named>, item: map<string, Json>)
    requires SameNested(d, e, id)
    ensures ItemFits(d, id, cols, item) <==> ItemFits(e, id, cols, item)
  {
    forall nc | nc in cols && nc.name in item ensures CellFits(d, id, nc.column, item[nc.name]) <==> CellFits(e, id, nc.column, item[nc.name]) {
      SameNestedFree(d, e, id, nc.column, item[nc.name]);
    }
  }

  ghost predicate Declared(inner: Table) {
    Separate(inner.cols) && SameTables(inner.cols)
  }

  lemma TurnAccepted(inner: Table, start: ChildDb, p: Progress, parent: string, key: string, item: map<string, Json>, rid: string, gen: IdSource)
    requires Declared(inner) && NestedKeys(start) && Unissued(gen, p.next, p.db.rows)
    requires var id := if rid != "" then rid else gen(p.next); SameNested(p.db, start, id) && (rid == "" ==> id !in start.rows)
    ensures WriteRow(inner, p, parent, key, item, rid, gen).Ok? <==> TurnFits(start, rid, inner.cols, item)
  {
    if Admitted(inner.cols, item) {
      var id := if rid != "" then rid else gen(p.next);
      var mid := p.db.(rows := p.db.rows[id := UpsertedRow(p.db.rows, id, parent, key, |p.landed|, SentValues(inner.cols, item))]);
      NestedSavesAccepted(mid, id, inner.cols, item);
      assert forall t :: NestedOf(mid, t) == NestedOf(p.db, t);
      SameNestedFits(mid, start, id, inner.cols, item);
      if rid == "" {
        forall nc | nc in inner.cols && nc.name in item ensures ClearsFree(start, id, nc.column, item[nc.name]) {
          NewIsFree(start, id, nc.column, item[nc.name]);
        }
      }
    }
  }

  ghost predicate AllFit(start: ChildDb, inner: Table, list: seq<Json>, ids: seq<string>)
    requires |ids| == |list| && AllObjects(list)
  {
    forall i :: 0 <= i < |list| ==> TurnFits(start, ids[i], inner.cols, list[i].fields)
  }

  lemma AllFitSnoc(start: ChildDb, inner: Table, list: seq<Json>, ids: seq<string>)
    requires |ids| == |list| > 0 && AllObjects(list)
    ensures var n := |list| - 1;
      AllFit(start, inner, list, ids) <==> AllFit(start, inner, list[..n], ids[..n]) && TurnFits(start, ids[n], inner.cols, list[n].fields)
  {
    var n := |list| - 1;
    assert forall i :: 0 <= i < n ==> list[..n][i] == list[i] && ids[..n][i] == ids[i];
  }

  ghost predicate GoesThrough(inner: Table, start: Progress, parent: string, key: string, list: seq<Json>, ids: seq<string>, gen: IdSource)
    requires |ids| == |list|
  {
    WriteLoop(inner, start, parent, key, list, ids, gen).Ok?
  }

  /** The loop goes through when it did before the last element and that goes through. */
  lemma GoesThroughSnoc(inner: Table, start: Progress, parent: string, key: string, list: seq<Json>, ids: seq<string>, gen: IdSource)
    requires |ids| == |list| > 0 && AllObjects(list)
    ensures var n := |list| - 1;
      GoesThrough(inner, start, parent, key, list, ids, gen) <==>
        && GoesThrough(inner, start, parent, key, list[..n], ids[..n], gen)
        && WriteRow(inner, WriteLoop(inner, start, parent, key, list[..n], ids[..n], gen).value, parent, key, list[n].fields, ids[n], gen).Ok?
  {}

  lemma {:induction false} LoopAccepted(inner: Table, start: Progress, parent: string, key: string, list: seq<Json>, ids: seq<string>, gen: IdSource)
    requires |ids| == |list| && AllObjects(list) && start.landed == []
    requires Declared(inner) && GoodIds(ids, gen, start.next)
    requires Unissued(gen, start.next, start.db.rows) && NestedKeys(start.db)
    ensures GoesThrough(inner, start, parent, key, list, ids, gen) <==> AllFit(start.db, inner, list, ids)
  {
    if list != [] {
      var n := |list| - 1;
      PrefixIds(ids, n, gen, start.next);
      LoopAccepted(inner, start, parent, key, list[..n], ids[..n], gen);
      GoesThroughSnoc(inner, start, parent, key, list, ids, gen);
      AllFitSnoc(start.db, inner, list, ids);
      if GoesThrough(inner, start, parent, key, list[..n], ids[..n], gen) {
        LastAccepted(inner, start, parent, key, list, ids, gen);
      }
    }
  }

  lemma LastAccepted(inner: Table, start: Progress, parent: string, key: string, list: seq<Json>, ids: seq<string>, gen: IdSource)
    requires |ids| == |list| > 0 && AllObjects(list) && start.landed == []
    requires Declared(inner) && GoodIds(ids, gen, start.next)
    requires Unissued(gen, start.next, start.db.rows) && NestedKeys(start.db)
    requires GoesThrough(inner, start, parent, key, list[..|list| - 1], ids[..|list| - 1], gen)
    ensures var n := |list| - 1;
      WriteRow(inner, WriteLoop(inner, start, parent, key, list[..n], ids[..n], gen).value, parent, key, list[n].fields, ids[n], gen).Ok?
      <==> TurnFits(start.db, ids[n], inner.cols, list[n].fields)
  {
    var n := |list| - 1;
    PrefixIds(ids, n, gen, start.next);
    assert ids == ids[..n] + [ids[n]];
    NextAccepted(inner, start, parent, key, list[..n], ids[..n], gen, WriteLoop(inner, start, parent, key, list[..n], ids[..n], gen).value, list[n], ids[n]);
  }

  lemma NextAccepted(inner: Table, start: Progress, parent: string, key: string, init: seq<Json>, before: seq<string>, gen: IdSource, p: Progress, item: Json, rid: string)
    requires |before| == |init| && AllObjects(init) && start.landed == [] && item.Obj?
    requires Declared(inner) && GoodIds(before, gen, start.next) && GoodIds(before + [rid], gen, start.next)
    requires Unissued(gen, start.next, start.db.rows) && NestedKeys(start.db)
    requires WriteLoop(inner, start, parent, key, init, before, gen) == Ok(p)
    ensures WriteRow(inner, p, parent, key, item.fields, rid, gen).Ok? <==> TurnFits(start.db, rid, inner.cols, item.fields)
  {
    LoopLands(inner, start, parent, key, init, before, gen);
    LoopOthers(inner, start, parent, key, init, before, gen);
    LoopUnissued(inner, start, parent, key, init, before, gen, p);
    var id := if rid != "" then rid else gen(p.next);
    FreshLanding(start, init, before, gen, p, rid, id);
    assert SameNested(p.db, start.db, id);
    TurnAccepted(inner, start.db, p, parent, key, item.fields, rid, gen);
  }

  // --- writeRows ---------------------------------------------------------------------------------

  /** What can be told of one element before the save: the server takes the values it
      sends; a nested cell that sets a key has the one NOT NULL column of its side table;
      and an element that keeps its row nulls no NOT NULL column of a nested row that is
      there. */
  ghost predicate ElementFits(ct: ChildTable, inner: Table, db: ChildDb, parent: string, key: string, items: seq<Json>, i: nat)
    requires i < |items| && items[i].Obj?
  {
    var item := items[i].fields;
    && Admitted(inner.cols, item)
    && (forall nc :: nc in inner.cols && nc.name in item ==> SetsAlone(nc.column, item[nc.name]))
    && (FirstOwn(IdFieldOf(inner), Owned(ct, db.rows, parent, key), items, i) ==>
          forall nc :: nc in inner.cols && nc.name in item ==> ClearsFree(db, SubmittedId(IdFieldOf(inner), items[i]), nc.column, item[nc.name]))
  }

  lemma ResolvedFits(ct: ChildTable, inner: Table, db: ChildDb, parent: string, key: string, items: seq<Json>, gen: IdSource, next: nat, r: Resolved, i: nat)
    requires AllObjects(items) && i < |items| && NestedKeys(db) && Unissued(gen, next, db.rows)
    requires WellResolved(ct, IdFieldOf(inner), Owned(ct, db.rows, parent, key), items, gen, next, r)
    ensures TurnFits(DeleteExcept(ct, db, parent, key, KeepList(r.ids)), r.ids[i], inner.cols, items[i].fields)
       <==> ElementFits(ct, inner, db, parent, key, items, i)
  {
    var start, id, item := DeleteExcept(ct, db, parent, key, KeepList(r.ids)), r.ids[i], items[i].fields;
    DeleteKeepsKeys(ct, db, parent, key, KeepList(r.ids));
    DeletedNested(ct, db, parent, key, KeepList(r.ids), id);
    forall nc | nc in inner.cols && nc.name in item && id != ""
      ensures ClearsFree(start, id, nc.column, item[nc.name])
         <==> !FirstOwn(IdFieldOf(inner), Owned(ct, db.rows, parent, key), items, i) || ClearsFree(db, id, nc.column, item[nc.name])
    {
      if FirstOwn(IdFieldOf(inner), Owned(ct, db.rows, parent, key), items, i) {
        LandedIsKept(r.ids, i);
        SameNestedFree(start, db, id, nc.column, item[nc.name]);
      } else {
        NewIsFree(start, id, nc.column, item[nc.name]);
      }
    }
  }

  /** A list of child elements is accepted if and only if each of its objects fits. The
      ids it carries enter in one way only: they decide which elements keep their rows. */
  lemma WriteRowsAccepted(ct: ChildTable, inner: Table, db: ChildDb, parent: string, key: string, list: seq<Json>, gen: IdSource, next: nat)
    requires ElementOk(ct, inner) && Declared(inner)
    requires Unissued(gen, next, db.rows) && NestedKeys(db)
    ensures AllObjects(Objects(list))
    ensures WriteRows(ct, inner, db, parent, key, list, gen, next).Ok?
       <==> forall i :: 0 <= i < |Objects(list)| ==> ElementFits(ct, inner, db, parent, key, Objects(list), i)
  {
    var items := Objects(list);
    ObjectsAreObjects(list);
    GarbageIsInvisible(ct, inner, db, parent, key, list, gen, next);
    ResolveSound(ct, IdFieldOf(inner), Owned(ct, db.rows, parent, key), items, gen, next);
    var r := ResolvedIds(ct, inner, db, parent, key, items, gen, next);
    ResolvedGood(ct, IdFieldOf(inner), Owned(ct, db.rows, parent, key), items, gen, next, r);
    DeleteKeepsKeys(ct, db, parent, key, KeepList(r.ids));
    LoopAccepted(inner, Start(ct, inner, db, parent, key, items, gen, next), parent, key, items, r.ids, gen);
    forall i | 0 <= i < |items|
      ensures TurnFits(DeleteExcept(ct, db, parent, key, KeepList(r.ids)), r.ids[i], inner.cols, items[i].fields)
         <==> ElementFits(ct, inner, db, parent, key, items, i)
    {
      ResolvedFits(ct, inner, db, parent, key, items, gen, next, r, i);
    }
  }
}
