/** Saving back what was loaded, in every state a run of the store reaches. */
module Reachable {
  import opened Values
  import opened Columns
  import opened ChildTables
  import opened ChildTheorems
  import opened ChildLists
  import opened ListLaws
  import opened RelsTables
  import opened Database
  import opened CellLaws
  import opened StoreSpec
  import opened StoreLaws
  import opened UpdateTruth
  import opened Runs
  import opened SaveBack

  // --- what relation lists hold -------------------------------------------------------------

  /** The relation list behind a cell, if any, holds ids as the server shows them, and,
      where that is asked, none twice. */
  ghost predicate CleanAt(db: Db, c: Column, parent: string, once: bool) {
    match c
    case Rels(rels, path, target) =>
      var ids := ReadRels(RelsOf(db, rels.name), parent, path, target);
      OwnImages(rels.cast, ids) && (once ==> NoRepeat(ids))
    case DeferredList(list, _) => CleanAt(db, list, parent, once)
    case _ => true
  }

  ghost predicate Clean(db: Db, c: Column, once: bool) {
    forall p :: CleanAt(db, c, p, once)
  }

  /** No two ids that a payload keeps are the same value of the target type. */
  ghost predicate NoCollision(c: Column, parent: string, v: Json) {
    match c
    case Rels(rels, _, _) => v.Arr? ==> ImagesDiffer(rels.cast, IdSlice(v.items))
    case DeferredList(list, resolve) =>
      v.Arr? ==> var r := ResolveAll(resolve, parent, v.items); r.Ok? ==> NoCollision(list, parent, Arr(r.value))
    case _ => true
  }

  lemma {:induction false} SameLoadClean(a: Db, b: Db, c: Column, p: string, once: bool)
    requires CellOk(c) && CellLoad(b, c, p) == CellLoad(a, c, p) && CleanAt(a, c, p, once)
    ensures CleanAt(b, c, p, once)
    decreases c
  {
    match c
    case Rels(rels, path, target) =>
      StringsDiffer(ReadRels(RelsOf(b, rels.name), p, path, target), ReadRels(RelsOf(a, rels.name), p, path, target));
    case DeferredList(list, _) => SameLoadClean(a, b, list, p, once);
    case _ =>
  }

  lemma {:induction false} SameRelsClean(a: Db, b: Db, c: Column, once: bool)
    requires b.rels == a.rels && Clean(a, c, once)
    ensures Clean(b, c, once)
  {
    forall p ensures CleanAt(b, c, p, once) {
      assert CleanAt(a, c, p, once);
      SameRelsCleanAt(a, b, c, p, once);
    }
  }

  lemma {:induction false} SameRelsCleanAt(a: Db, b: Db, c: Column, p: string, once: bool)
    requires b.rels == a.rels && CleanAt(a, c, p, once)
    ensures CleanAt(b, c, p, once)
  {
    if c.DeferredList? { SameRelsCleanAt(a, b, c.list, p, once); }
  }

  lemma RelsSaveClean(db: Db, next: nat, c: Column, parent: string, v: Json, gen: IdSource)
    requires c.Rels? && v.Arr? && Sound(db, gen, next)
    requires SaveRels(db, next, c.rels, c.path, c.target, parent, v).Ok?
    ensures var out := SaveRels(db, next, c.rels, c.path, c.target, parent, v).value;
      CleanAt(out.db, c, parent, false) && (CleanAt(out.db, c, parent, true) <==> NoCollision(c, parent, v))
  {
    var ids, before := IdSlice(v.items), RelsOf(db, c.rels.name);
    IdSliceOrdered(v.items);
    var after := RelsOf(SaveRels(db, next, c.rels, c.path, c.target, parent, v).value.db, c.rels.name);
    ReplaceRelsReadsBack(c.rels.cast, before, parent, c.path, c.target, ids, after);
    ReplaceRelsAccepted(c.rels.cast, before, parent, c.path, c.target, ids);
    ImagesAre(c.rels.cast, before, c.target, ids);
    ImagesStay(c.rels.cast, before, c.target, ids);
  }

  lemma ImagesStay(cast: Cast, db: RelsDb, column: string, ids: seq<string>)
    requires Insertable(cast, db, column, ids)
    ensures OwnImages(cast, Images(cast, ids))
  {}

  /** Whatever is sent, the list a save leaves holds ids as the server shows them; it
      holds one twice if and only if two of the kept ids are the same value. */
  lemma {:induction false} CellSaveClean(db: Db, next: nat, c: Column, parent: string, v: Json, gen: IdSource, once: bool)
    requires CellOk(c) && Sound(db, gen, next)
    requires CellSave(db, next, c, parent, v, gen).Ok?
    ensures var out := CellSave(db, next, c, parent, v, gen).value.db;
      && (v.Arr? ==> CleanAt(out, c, parent, false) && (CleanAt(out, c, parent, true) <==> NoCollision(c, parent, v)))
      && (!v.Arr? && CleanAt(db, c, parent, once) ==> CleanAt(out, c, parent, once))
    decreases c
  {
    match c
    case Rels(rels, path, target) =>
      if v.Arr? { RelsSaveClean(db, next, c, parent, v, gen); }
    case DeferredList(list, resolve) =>
      CellSaveClean(db, next, list, parent, if v.Arr? then Arr(ResolveAll(resolve, parent, v.items).value) else v, gen, once);
    case _ =>
  }

  /** What is sent for a cell, if anything, does not collide where that is asked. */
  ghost predicate Asked(c: Named, id: string, input: map<string, Json>, once: bool) {
    once && c.name in input ==> NoCollision(c.column, id, input[c.name])
  }

  lemma OwnSaveClean(s: Second, id: string, input: map<string, Json>, gen: IdSource, c: Named, once: bool)
    requires CellOk(c.column) && Sound(s.db, gen, s.next) && CleanAt(s.db, c.column, id, once) && Asked(c, id, input, once)
    requires CellSave(s.db, s.next, c.column, id, At0(input, c.name), gen).Ok?
    ensures CleanAt(CellSave(s.db, s.next, c.column, id, At0(input, c.name), gen).value.db, c.column, id, once)
  {
    CellSaveClean(s.db, s.next, c.column, id, At0(input, c.name), gen, once);
  }

  /** Nothing is asked of a side table. */
  lemma {:induction false} SideClean(db: Db, c: Column, p: string, once: bool)
    requires CellOk(c) && StorageOf(c).InSide?
    ensures CleanAt(db, c, p, once)
  {
    if c.DeferredList? { SideClean(db, c.list, p, once); }
  }

  lemma SecondSaveClean(s: Second, id: string, nc: Named, input: map<string, Json>, gen: IdSource, c: Named, once: bool)
    requires CellOk(nc.column) && nc.column.Saves() && CellOk(c.column)
    requires nc == c || StorageOf(nc.column) != StorageOf(c.column)
    requires Sound(s.db, gen, s.next) && Clean(s.db, c.column, once) && Asked(c, id, input, once)
    requires SecondSave(s, id, nc, input, gen).Ok?
    ensures var out := SecondSave(s, id, nc, input, gen).value; Sound(out.db, gen, out.next) && Clean(out.db, c.column, once)
  {
    SecondSaveLaw(s, id, nc, input, gen);
    var out := SecondSave(s, id, nc, input, gen).value;
    forall p ensures CleanAt(out.db, c.column, p, once) {
      assert CleanAt(s.db, c.column, p, once);
      if StorageOf(c.column).InSide? {
        SideClean(out.db, c.column, p, once);
      } else if nc != c {
        SameLoad(s.db, out.db, c.column, p);
        SameLoadClean(s.db, out.db, c.column, p, once);
      } else if p != id || Handled(nc, input) {
        SameLoadClean(s.db, out.db, c.column, p, once);
      } else {
        OwnSaveClean(s, id, input, gen, c, once);
      }
    }
  }

  lemma {:induction false} SecondPhaseClean(start: Second, id: string, cells: seq<Named>, input: map<string, Json>, gen: IdSource, c: Named, once: bool)
    requires CellsOk(cells) && CellOk(c.column) && ApartFrom(cells, c)
    requires Sound(start.db, gen, start.next) && Clean(start.db, c.column, once) && Asked(c, id, input, once)
    requires SecondPhase(start, id, cells, input, gen).Ok?
    ensures var s := SecondPhase(start, id, cells, input, gen).value; Sound(s.db, gen, s.next) && Clean(s.db, c.column, once)
  {
    if cells != [] {
      var init, nc := cells[..|cells| - 1], cells[|cells| - 1];
      assert nc in cells && forall d :: d in init ==> d in cells;
      SecondPhaseClean(start, id, init, input, gen, c, once);
      SecondSaveClean(SecondPhase(start, id, init, input, gen).value, id, nc, input, gen, c, once);
    }
  }

  lemma FinishClean(t: Table, clock: Clock, start: Second, id: string, input: map<string, Json>, gen: IdSource, c: Named, once: bool)
    requires Bookkept(t, clock) && c in t.cols && CellsOk(DeferredCells(t.cols, input))
    requires Sound(start.db, gen, start.next) && Clean(start.db, c.column, once) && Asked(c, id, input, once)
    requires Finish(start, id, DeferredCells(t.cols, input), input, clock, gen).Ok?
    ensures Clean(Finish(start, id, DeferredCells(t.cols, input), input, clock, gen).value.db, c.column, once)
  {
    DeferredOk(t.cols, input);
    var cells := DeferredCells(t.cols, input);
    GroupsKeepChildren(start.db, id, cells, input, GroupTables(cells, input));
    var grouped := WriteGroups(start.db, id, cells, input, GroupTables(cells, input)).value;
    SameRelsClean(start.db, grouped, c.column, once);
    CellsApart(t, clock, cells, input, c);
    PhasesClean(start.(db := grouped), id, cells, input, clock, gen, c, once);
  }

  ghost predicate ApartFrom(cells: seq<Named>, c: Named) {
    forall nc :: nc in cells ==> nc.column.Saves() && (nc == c || StorageOf(nc.column) != StorageOf(c.column))
  }

  lemma CellsApart(t: Table, clock: Clock, cells: seq<Named>, input: map<string, Json>, c: Named)
    requires Bookkept(t, clock) && c in t.cols && forall nc :: nc in cells ==> nc in t.cols && InSecond(nc, input)
    ensures ApartFrom(cells, c)
  {
    forall nc | nc in cells
      ensures nc.column.Saves() && (nc == c || StorageOf(nc.column) != StorageOf(c.column))
    {
      DistinctCells(t.cols, nc, c);
    }
  }

  lemma PhasesClean(start: Second, id: string, cells: seq<Named>, input: map<string, Json>, clock: Clock, gen: IdSource, c: Named, once: bool)
    requires CellsOk(cells) && CellOk(c.column) && ApartFrom(cells, c)
    requires Sound(start.db, gen, start.next) && Clean(start.db, c.column, once) && Asked(c, id, input, once)
    requires SecondPhase(start, id, cells, input, gen).Ok?
    requires var s := SecondPhase(start, id, cells, input, gen).value; UpdateIfAny(s.db, id, s.back, clock).Ok?
    ensures var s := SecondPhase(start, id, cells, input, gen).value; Clean(UpdateIfAny(s.db, id, s.back, clock).value, c.column, once)
  {
    SecondPhaseClean(start, id, cells, input, gen, c, once);
    var s := SecondPhase(start, id, cells, input, gen).value;
    SameRelsClean(s.db, UpdateIfAny(s.db, id, s.back, clock).value, c.column, once);
  }

  // --- deleting -------------------------------------------------------------------------------

  lemma DroppedRels(d: RelsDb, id: string, p: string, path: string, target: string)
    ensures var e := d.(rows := d.rows - (set r | r in d.rows && d.rows[r].parent == id));
      ReadRels(e, p, path, target) == if p == id then [] else ReadRels(d, p, path, target)
  {
    var e := d.(rows := d.rows - (set r | r in d.rows && d.rows[r].parent == id));
    forall s: RelSlot ensures s in RelSlots(e, p, path, target) <==> p != id && s in RelSlots(d, p, path, target) {
      InRelSlots(e, p, path, target, s);
      InRelSlots(d, p, path, target, s);
    }
    if p == id {
      assert RelSlots(e, p, path, target) == {};
    } else {
      assert RelSlots(e, p, path, target) == RelSlots(d, p, path, target);
      SameRelsRead(d, e, p, path, target);
    }
  }

  lemma {:induction false} DeleteCleanAt(db: Db, id: string, restrict: set<string>, c: Column, p: string, once: bool)
    requires DeleteSave(db, id, restrict).Ok? && CleanAt(db, c, p, once)
    ensures CleanAt(DeleteSave(db, id, restrict).value, c, p, once)
  {
    match c
    case Rels(rels, path, target) =>
      if id in db.main && rels.name in db.rels { DroppedRels(db.rels[rels.name], id, p, path, target); }
    case DeferredList(list, _) => DeleteCleanAt(db, id, restrict, list, p, once);
    case _ =>
  }

  // --- runs ------------------------------------------------------------------------------------

  /** Where that is asked, a step sends no ids for the cell that are the same value. */
  ghost predicate StepAsked(c: Named, op: Op, once: bool) {
    match op
    case Update(id, input) => Asked(c, id, input, once)
    case Create(hook, input) => hook.Inserts? ==> Asked(c, hook.id, input, once)
    case _ => true
  }

  lemma UpdateClean(t: Table, clock: Clock, render: Render, gen: IdSource, w: World, id: string, input: map<string, Json>, c: Named, once: bool)
    requires Bookkept(t, clock) && c in t.cols && Sound(w.db, gen, w.next) && Clean(w.db, c.column, once)
    requires Asked(c, id, input, once)
    requires SaveUpdate(t, clock, render, w.db, w.next, id, input, gen).Ok?
    ensures Clean(SaveUpdate(t, clock, render, w.db, w.next, id, input, gen).value.db, c.column, once)
  {
    DeferredOk(t.cols, input);
    var plan := Assignments(t.cols, input);
    if !(plan.assigns == [] && DeferredCells(t.cols, input) == []) {
      var db1 := UpdateIfAny(w.db, id, plan.assigns, clock).value;
      SameRelsClean(w.db, db1, c.column, once);
      FinishClean(t, clock, Second(db1, w.next, plan.changed, plan.newVals, []), id, input, gen, c, once);
    }
  }

  lemma CreateClean(t: Table, clock: Clock, gen: IdSource, w: World, hook: Hook, input: map<string, Json>, c: Named, once: bool)
    requires Bookkept(t, clock) && c in t.cols && Sound(w.db, gen, w.next) && Clean(w.db, c.column, once)
    requires hook.Inserts? && Asked(c, hook.id, input, once)
    requires SaveCreate(t, clock, hook, w.db, w.next, input, gen).Ok?
    ensures Clean(SaveCreate(t, clock, hook, w.db, w.next, input, gen).value.db, c.column, once)
  {
    DeferredOk(t.cols, input);
    var plan := MergeHook(hook.changes, Assignments(t.cols, input));
    var db1 := w.db.(main := w.db.main[hook.id := hook.row]);
    SameRelsClean(w.db, db1, c.column, once);
    FinishClean(t, clock, Second(db1, w.next, plan.changed, plan.newVals, plan.assigns), hook.id, input, gen, c, once);
  }

  lemma StepClean(t: Table, clock: Clock, render: Render, restrict: set<string>, gen: IdSource, w: World, op: Op, c: Named, once: bool)
    requires Bookkept(t, clock) && c in t.cols && Sound(w.db, gen, w.next) && Clean(w.db, c.column, once)
    requires StepAsked(c, op, once)
    ensures Clean(Step(t, clock, render, restrict, gen, w, op).db, c.column, once)
  {
    match op
    case Update(id, input) =>
      if SaveUpdate(t, clock, render, w.db, w.next, id, input, gen).Ok? { UpdateClean(t, clock, render, gen, w, id, input, c, once); }
    case Create(hook, input) =>
      if SaveCreate(t, clock, hook, w.db, w.next, input, gen).Ok? { CreateClean(t, clock, gen, w, hook, input, c, once); }
    case Remove(id) =>
      if DeleteSave(w.db, id, restrict).Ok? {
        forall p ensures CleanAt(DeleteSave(w.db, id, restrict).value, c.column, p, once) {
          assert CleanAt(w.db, c.column, p, once);
          DeleteCleanAt(w.db, id, restrict, c.column, p, once);
        }
      }
    case Refused(_) =>
  }

  lemma {:induction false} TableOfStorage(c: Column)
    ensures StorageOf(c).InChild? <==> ListTable(c).Some?
    ensures ListTable(c).Some? ==> StorageOf(c) == InChild(ListTable(c).value.name)
  {
    if c.DeferredList? { TableOfStorage(c.list); }
  }

  /** The table behind a list cell is declared the same way by every cell over it. */
  lemma OwnTable(t: Table, clock: Clock, nc: Named)
    requires Bookkept(t, clock) && nc in t.cols && ListTable(nc.column).Some?
    ensures Declares(t, ListTable(nc.column).value)
  {
    var ct := ListTable(nc.column).value;
    forall d | d in t.cols ensures OneTable(ct, d.column) {
      TableOfStorage(nc.column);
      DistinctCells(t.cols, d, nc);
    }
  }

  /** Over every run a relation list holds ids as the server shows them. If moreover no
      payload of the run sends two ids that are the same value of the target type, no
      list ever comes to hold an id twice. */
  lemma {:induction false} RunClean(t: Table, clock: Clock, render: Render, restrict: set<string>, gen: IdSource, w: World, ops: seq<Op>, c: Named, once: bool)
    requires Bookkept(t, clock) && c in t.cols && Sound(w.db, gen, w.next) && Clean(w.db, c.column, once)
    requires forall i :: 0 <= i < |ops| ==> StepAsked(c, ops[i], once)
    ensures Clean(Run(t, clock, render, restrict, gen, w, ops).db, c.column, once)
  {
    if ops != [] {
      var init := ops[..|ops| - 1];
      assert forall i :: 0 <= i < |init| ==> init[i] == ops[i];
      RunSound(t, clock, render, restrict, gen, w, init);
      RunClean(t, clock, render, restrict, gen, w, init, c, once);
      StepClean(t, clock, render, restrict, gen, Run(t, clock, render, restrict, gen, w, init), ops[|ops| - 1], c, once);
    }
  }

  /** A store before its first save: no child rows, no relations. */
  ghost predicate Fresh(db: Db) {
    && (forall n :: n in db.childs ==> db.childs[n].rows == map[])
    && (forall n :: n in db.rels ==> db.rels[n].rows == map[])
  }

  lemma {:induction false} FreshClean(db: Db, c: Column, p: string)
    requires Fresh(db)
    ensures CleanAt(db, c, p, true) && CleanAt(db, c, p, false)
  {
    match c
    case Rels(rels, path, target) =>
      assert RelsOf(db, rels.name).rows == map[];
      assert RelSlots(RelsOf(db, rels.name), p, path, target) == {};
      assert SelectRels(RelsOf(db, rels.name), p, path, target) == [];
    case DeferredList(list, _) => FreshClean(db, list, p);
    case _ =>
  }

  /** No reachable child row has the empty id. */
  lemma NoEmptyId(t: Table, clock: Clock, render: Render, restrict: set<string>, gen: IdSource, w: World, ops: seq<Op>, nc: Named)
    requires Bookkept(t, clock) && nc in t.cols && ListTable(nc.column).Some? && Sound(w.db, gen, w.next) && Fresh(w.db)
    ensures "" !in ChildOf(Run(t, clock, render, restrict, gen, w, ops).db, ListTable(nc.column).value.name).rows
  {
    var ct := ListTable(nc.column).value;
    OwnTable(t, clock, nc);
    RunKept(t, clock, render, restrict, gen, ct, w, ops);
    assert ChildOf(w.db, ct.name).rows == map[];
  }

  /** Cells that take back what they gave: a law of the cells and the resolvers, not of
      the tables. Of a relation list it asks that it shows no id twice. */
  ghost predicate TakesBack(t: Table, db: Db, c: Column, id: string)
    requires CellOk(c)
  {
    match c
    case ReadOnly(_, _) => true
    case Scalar(_, _, _, _) => Reparses(c, FieldValue(t, db, id, c))
    case Deferred(_, resolve, _) =>
      var v := FieldValue(t, db, id, c);
      (v == Null || resolve(id, v) == Ok(v)) && HonestField(c, id, v)
    case KeyedStrings(_, _, _) => true
    case Child(ct, shape) =>
      if ct.partitioned then forall k :: k in PartitionKeys(ChildOf(db, ct.name).rows, id) ==> ItemsTakeBack(ct, shape, ChildOf(db, ct.name), id, k)
      else ItemsTakeBack(ct, shape, ChildOf(db, ct.name), id, "")
    case Rels(rels, path, target) => NoRepeat(ReadRels(RelsOf(db, rels.name), id, path, target))
    case DeferredList(list, resolve) =>
      && TakesBack(t, db, list, id)
      && CellLoad(db, list, id).Arr?
      && var items := CellLoad(db, list, id).items;
        forall i :: 0 <= i < |items| ==> items[i] != Null && resolve(id, items[i]) == Ok(items[i])
  }

  ghost predicate ItemsTakeBack(ct: ChildTable, shape: Shape, d: ChildDb, parent: string, key: string)
    requires ShapeOk(ct, shape)
  {
    var list := ReadPartition(ct, shape, d, parent, key);
    match shape
    case Rows(inner) => ClearsFit(inner.cols) && AllReparse(inner, list)
    case Values(elem) => AsIs(elem, list)
  }

  lemma {:induction false} BackAgain(t: Table, db: Db, c: Column, id: string)
    requires CellOk(c) && TakesBack(t, db, c, id) && CleanAt(db, c, id, false)
    requires ListTable(c).Some? ==> "" !in ChildOf(db, ListTable(c).value.name).rows
    ensures Restorable(t, db, c, id)
  {
    if c.DeferredList? { BackAgain(t, db, c.list, id); }
  }

  lemma ReachableRestorable(t: Table, clock: Clock, render: Render, restrict: set<string>, gen: IdSource, w: World, ops: seq<Op>, id: string, nc: Named)
    requires Bookkept(t, clock) && Sound(w.db, gen, w.next) && Fresh(w.db) && nc in t.cols
    requires TakesBack(t, Run(t, clock, render, restrict, gen, w, ops).db, nc.column, id)
    ensures Restorable(t, Run(t, clock, render, restrict, gen, w, ops).db, nc.column, id)
  {
    forall p ensures CleanAt(w.db, nc.column, p, false) { FreshClean(w.db, nc.column, p); }
    RunClean(t, clock, render, restrict, gen, w, ops, nc, false);
    if ListTable(nc.column).Some? { NoEmptyId(t, clock, render, restrict, gen, w, ops, nc); }
    BackAgain(t, Run(t, clock, render, restrict, gen, w, ops).db, nc.column, id);
  }

  /** In every state a run reaches from a fresh store, saving back what Load returned
      changes nothing Load can see and reports no change. */
  lemma ReachableSaveBack(t: Table, clock: Clock, render: Render, restrict: set<string>, gen: IdSource, w: World, ops: seq<Op>, id: string)
    requires TableOk(t, clock) && Sound(w.db, gen, w.next) && Fresh(w.db)
    requires var v := Run(t, clock, render, restrict, gen, w, ops);
      && id in v.db.main
      && (forall nc :: nc in t.cols ==> TakesBack(t, v.db, nc.column, id))
      && SaveUpdate(t, clock, render, v.db, v.next, id, Load(t, v.db, id).value, gen).Ok?
    ensures var v := Run(t, clock, render, restrict, gen, w, ops);
      var out := SaveUpdate(t, clock, render, v.db, v.next, id, Load(t, v.db, id).value, gen).value;
      && SameFields(t, clock, v.db, out.db, id)
      && (out.report == None || out.report == Some([]))
  {
    var v := Run(t, clock, render, restrict, gen, w, ops);
    RunSound(t, clock, render, restrict, gen, w, ops);
    forall nc | nc in t.cols ensures Restorable(t, v.db, nc.column, id) {
      ReachableRestorable(t, clock, render, restrict, gen, w, ops, id, nc);
    }
    SaveBackChangesNothing(t, clock, render, v.db, v.next, id, gen);
  }
}
