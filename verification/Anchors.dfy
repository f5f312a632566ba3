/** Over every run, each row of a side, child or relation table has a parent that exists. */
module Anchors {
  import opened Values
  import opened Ordering
  import opened SideTables
  import opened KeyedLaws
  import opened Columns
  import opened ChildTables
  import opened ChildLaws
  import opened ChildLists
  import opened ListLaws
  import opened RelsTables
  import opened Database
  import opened CellLaws
  import opened StoreSpec
  import opened GroupLaws
  import opened StoreLaws
  import opened DeleteLaws
  import opened Runs

  // --- rows added by a save --------------------------------------------------------------------

  ghost predicate SideAdds(a: Side, b: Side, id: string) {
    forall pk :: pk in b ==> pk.0 == id || pk in a
  }

  ghost predicate ListAdds(a: ChildDb, b: ChildDb, id: string) {
    forall c :: c in b.rows ==> b.rows[c].parent == id || (c in a.rows && a.rows[c].parent == b.rows[c].parent)
  }

  ghost predicate RelsAdd(a: RelsDb, b: RelsDb, id: string) {
    forall r :: r in b.rows ==> b.rows[r].parent == id || (r in a.rows && a.rows[r].parent == b.rows[r].parent)
  }

  /** From one state to a later one only the row with this id got rows of its own. */
  ghost predicate OnlyAdds(a: Db, b: Db, id: string) {
    && a.main.Keys <= b.main.Keys
    && (forall t :: SideAdds(SideOf(a, t), SideOf(b, t), id))
    && (forall t :: ListAdds(ChildOf(a, t), ChildOf(b, t), id))
    && (forall t :: RelsAdd(RelsOf(a, t), RelsOf(b, t), id))
  }

  lemma AddsSame(a: Db, b: Db, id: string)
    requires a.main.Keys <= b.main.Keys && a.sides == b.sides && a.childs == b.childs && a.rels == b.rels
    ensures OnlyAdds(a, b, id)
  {
    forall t ensures SideOf(a, t) == SideOf(b, t) && ChildOf(a, t) == ChildOf(b, t) && RelsOf(a, t) == RelsOf(b, t) {}
  }

  lemma AddsTransitive(a: Db, b: Db, c: Db, id: string)
    requires OnlyAdds(a, b, id) && OnlyAdds(b, c, id)
    ensures OnlyAdds(a, c, id)
  {
    forall t ensures SideAdds(SideOf(a, t), SideOf(c, t), id) && ListAdds(ChildOf(a, t), ChildOf(c, t), id) && RelsAdd(RelsOf(a, t), RelsOf(c, t), id) {
      assert SideAdds(SideOf(a, t), SideOf(b, t), id) && ListAdds(ChildOf(a, t), ChildOf(b, t), id) && RelsAdd(RelsOf(a, t), RelsOf(b, t), id);
    }
  }

  lemma AddsAnchored(a: Db, b: Db, id: string)
    requires Anchored(a) && OnlyAdds(a, b, id) && id in b.main
    ensures Anchored(b)
  {
    forall t, pk | pk in SideOf(b, t) ensures pk.0 in b.main {
      assert SideAdds(SideOf(a, t), SideOf(b, t), id);
    }
    forall t, c | c in ChildOf(b, t).rows ensures ChildOf(b, t).rows[c].parent in b.main {
      assert ListAdds(ChildOf(a, t), ChildOf(b, t), id);
    }
    forall t, r | r in RelsOf(b, t).rows ensures RelsOf(b, t).rows[r].parent in b.main {
      assert RelsAdd(RelsOf(a, t), RelsOf(b, t), id);
    }
  }

  // --- each save ---------------------------------------------------------------------------------

  lemma ManyAdds(kt: KeyedTable, parents: set<string>, side: Side, id: string, writes: seq<Write>)
    requires WriteMany(kt, parents, side, id, writes).Ok?
    ensures SideAdds(side, WriteMany(kt, parents, side, id, writes).value, id)
  {
    var out := WriteMany(kt, parents, side, id, writes).value;
    WriteManyLocal(kt, parents, side, id, writes);
    forall pk | pk in out && pk.0 != id ensures pk in side {
      assert At(out, pk.0, pk.1) == At(side, pk.0, pk.1);
    }
  }

  lemma PutSide(db: Db, table: string, side: Side, id: string)
    requires SideAdds(SideOf(db, table), side, id)
    ensures OnlyAdds(db, db.(sides := db.sides[table := side]), id)
  {}

  lemma PutList(db: Db, table: string, d: ChildDb, id: string)
    requires ListAdds(ChildOf(db, table), d, id)
    ensures OnlyAdds(db, db.(childs := db.childs[table := d]), id)
  {}

  lemma PutRels(db: Db, table: string, d: RelsDb, id: string)
    requires RelsAdd(RelsOf(db, table), d, id)
    ensures OnlyAdds(db, db.(rels := db.rels[table := d]), id)
  {}

  lemma {:induction false} PartsAdd(ct: ChildTable, shape: Shape, gen: IdSource, st: ChildState, id: string, patch: map<string, Json>, keys: seq<string>)
    requires ShapeOk(ct, shape) && ct.partitioned && Distinct(keys)
    requires Unissued(gen, st.next, st.db.rows) && NestedKeys(st.db)
    requires WriteParts(ct, shape, st, id, patch, keys, gen).Ok?
    ensures ListAdds(st.db, WriteParts(ct, shape, st, id, patch, keys, gen).value.db, id)
  {
    if keys != [] {
      var init, key := keys[..|keys| - 1], keys[|keys| - 1];
      LastKey(keys);
      PartsAdd(ct, shape, gen, st, id, patch, init);
      WritePartsLaw(ct, shape, gen, st, id, patch, init);
      var mid := WriteParts(ct, shape, st, id, patch, init, gen).value;
      if Patches(patch, key) { PartitionAdds(ct, shape, gen, mid, id, key, patch[key].items); }
    }
  }

  lemma PartitionAdds(ct: ChildTable, shape: Shape, gen: IdSource, st: ChildState, id: string, key: string, items: seq<Json>)
    requires ShapeOk(ct, shape) && RightKey(ct, key)
    requires Unissued(gen, st.next, st.db.rows) && NestedKeys(st.db)
    requires WritePartition(ct, shape, st, id, key, items, gen).Ok?
    ensures ListAdds(st.db, WritePartition(ct, shape, st, id, key, items, gen).value.db, id)
  {
    WritePartitionLaw(ct, shape, st, id, key, items, gen);
  }

  lemma SaveChildAdds(db: Db, next: nat, c: Column, id: string, v: Json, gen: IdSource)
    requires c.Child? && CellOk(c) && Sound(db, gen, next)
    requires SaveChild(db, next, c.ct, c.shape, id, v, gen).Ok?
    ensures OnlyAdds(db, SaveChild(db, next, c.ct, c.shape, id, v, gen).value.db, id)
  {
    var st := ChildState(ChildOf(db, c.ct.name), next);
    ChildSound(db, gen, next, c.ct.name);
    var out := SaveList(c.ct, c.shape, st, id, v, gen).value;
    if out.None? {
      AddsSame(db, db, id);
    } else {
      if c.ct.partitioned {
        PartsAdd(c.ct, c.shape, gen, st, id, v.fields, SortedKeys(v.fields.Keys));
      } else {
        PartitionAdds(c.ct, c.shape, gen, st, id, "", v.items);
      }
      PutList(db, c.ct.name, out.value.db, id);
    }
  }

  lemma SaveRelsAdds(db: Db, next: nat, c: Column, id: string, v: Json, gen: IdSource)
    requires c.Rels? && Sound(db, gen, next)
    requires SaveRels(db, next, c.rels, c.path, c.target, id, v).Ok?
    ensures OnlyAdds(db, SaveRels(db, next, c.rels, c.path, c.target, id, v).value.db, id)
  {
    if v.Arr? {
      var d := ReplaceRels(c.rels.cast, RelsOf(db, c.rels.name), id, c.path, c.target, IdSlice(v.items)).value;
      RelsSound(db, gen, next, c.rels.name);
      ReplaceRelsFramed(c.rels.cast, RelsOf(db, c.rels.name), id, c.path, c.target, IdSlice(v.items), d);
      PutRels(db, c.rels.name, d, id);
    } else {
      AddsSame(db, db, id);
    }
  }

  lemma RelsSound(db: Db, gen: IdSource, next: nat, table: string)
    requires Sound(db, gen, next)
    ensures SerialAhead(RelsOf(db, table))
  {}

  lemma {:induction false} CellSaveAdds(db: Db, next: nat, c: Column, id: string, v: Json, gen: IdSource)
    requires CellOk(c) && Sound(db, gen, next)
    requires CellSave(db, next, c, id, v, gen).Ok?
    ensures OnlyAdds(db, CellSave(db, next, c, id, v, gen).value.db, id)
  {
    match c
    case KeyedStrings(side, col, clear) =>
      if v.Obj? {
        var writes := [Write(col, clear, v.fields)];
        ManyAdds(side, db.main.Keys, SideOf(db, side.name), id, writes);
        PutSide(db, side.name, WriteMany(side, db.main.Keys, SideOf(db, side.name), id, writes).value, id);
      } else {
        AddsSame(db, db, id);
      }
    case Child(_, _) => SaveChildAdds(db, next, c, id, v, gen);
    case Rels(_, _, _) => SaveRelsAdds(db, next, c, id, v, gen);
    case DeferredList(list, resolve) =>
      CellSaveAdds(db, next, list, id, if v.Arr? then Arr(ResolveAll(resolve, id, v.items).value) else v, gen);
    case _ => AddsSame(db, db, id);
  }

  // --- the phases -----------------------------------------------------------------------------------

  lemma {:induction false} GroupsAdd(db: Db, id: string, cells: seq<Named>, input: map<string, Json>, tables: seq<KeyedTable>)
    requires WriteGroups(db, id, cells, input, tables).Ok?
    ensures OnlyAdds(db, WriteGroups(db, id, cells, input, tables).value, id)
  {
    if tables == [] {
      AddsSame(db, db, id);
    } else {
      var init, kt := tables[..|tables| - 1], tables[|tables| - 1];
      GroupsAdd(db, id, cells, input, init);
      var mid := WriteGroups(db, id, cells, input, init).value;
      var writes := GroupWrites(cells, input, kt.name);
      ManyAdds(kt, mid.main.Keys, SideOf(mid, kt.name), id, writes);
      PutSide(mid, kt.name, WriteMany(kt, mid.main.Keys, SideOf(mid, kt.name), id, writes).value, id);
      AddsTransitive(db, mid, WriteGroups(db, id, cells, input, tables).value, id);
    }
  }

  lemma {:induction false} PhaseAdds(start: Second, id: string, cells: seq<Named>, input: map<string, Json>, gen: IdSource)
    requires CellsOk(cells) && Sound(start.db, gen, start.next) && (forall nc :: nc in cells ==> nc.column.Saves())
    requires SecondPhase(start, id, cells, input, gen).Ok?
    ensures var s := SecondPhase(start, id, cells, input, gen).value;
      OnlyAdds(start.db, s.db, id) && Sound(s.db, gen, s.next) && start.next <= s.next
  {
    if cells == [] {
      AddsSame(start.db, start.db, id);
    } else {
      var init, nc := cells[..|cells| - 1], cells[|cells| - 1];
      assert forall d :: d in init ==> d in cells;
      PhaseAdds(start, id, init, input, gen);
      var mid := SecondPhase(start, id, init, input, gen).value;
      TurnAdds(mid, id, nc, input, gen);
      AddsTransitive(start.db, mid.db, SecondPhase(start, id, cells, input, gen).value.db, id);
    }
  }

  lemma TurnAdds(s: Second, id: string, nc: Named, input: map<string, Json>, gen: IdSource)
    requires CellOk(nc.column) && nc.column.Saves() && Sound(s.db, gen, s.next)
    requires SecondSave(s, id, nc, input, gen).Ok?
    ensures var out := SecondSave(s, id, nc, input, gen).value;
      OnlyAdds(s.db, out.db, id) && Sound(out.db, gen, out.next) && s.next <= out.next
  {
    SecondSaveLaw(s, id, nc, input, gen);
    if Handled(nc, input) { AddsSame(s.db, s.db, id); } else { CellSaveAdds(s.db, s.next, nc.column, id, At0(input, nc.name), gen); }
  }

  lemma FinishAdds(start: Second, id: string, cells: seq<Named>, input: map<string, Json>, clock: Clock, gen: IdSource)
    requires CellsOk(cells) && Sound(start.db, gen, start.next) && (forall nc :: nc in cells ==> nc.column.Saves())
    requires Finish(start, id, cells, input, clock, gen).Ok?
    ensures OnlyAdds(start.db, Finish(start, id, cells, input, clock, gen).value.db, id)
  {
    var tables := GroupTables(cells, input);
    GroupsAdd(start.db, id, cells, input, tables);
    GroupTablesDistinct(cells, input);
    WriteGroupsSound(start.db, id, cells, input, tables);
    var grouped := WriteGroups(start.db, id, cells, input, tables).value;
    var begun := start.(db := grouped);
    PhaseAdds(begun, id, cells, input, gen);
    var s := SecondPhase(begun, id, cells, input, gen).value;
    AddsTransitive(start.db, grouped, s.db, id);
    var out := UpdateIfAny(s.db, id, s.back, clock).value;
    RowAdds(s.db, id, s.back, clock, out);
    AddsTransitive(start.db, s.db, out, id);
  }

  lemma RowAdds(db: Db, id: string, assigns: seq<Assign>, clock: Clock, out: Db)
    requires UpdateIfAny(db, id, assigns, clock) == Ok(out)
    ensures OnlyAdds(db, out, id) && out.main.Keys == db.main.Keys
    ensures out.sides == db.sides && out.childs == db.childs && out.rels == db.rels
  {
    AddsSame(db, out, id);
  }

  // --- the operations -----------------------------------------------------------------------------------

  lemma DeferredSave(cols: seq<Named>, input: map<string, Json>)
    requires CellsOk(cols)
    ensures CellsOk(DeferredCells(cols, input)) && forall nc :: nc in DeferredCells(cols, input) ==> nc.column.Saves()
  {
    DeferredOk(cols, input);
  }

  lemma UpdateAnchored(t: Table, clock: Clock, render: Render, db: Db, next: nat, id: string, input: map<string, Json>, gen: IdSource)
    requires CellsOk(t.cols) && Sound(db, gen, next) && Anchored(db)
    requires SaveUpdate(t, clock, render, db, next, id, input, gen).Ok?
    ensures Anchored(SaveUpdate(t, clock, render, db, next, id, input, gen).value.db)
  {
    DeferredSave(t.cols, input);
    var plan, cells := Assignments(t.cols, input), DeferredCells(t.cols, input);
    if plan.assigns != [] || cells != [] {
      var db1 := UpdateIfAny(db, id, plan.assigns, clock).value;
      RowAdds(db, id, plan.assigns, clock, db1);
      var start := Second(db1, next, plan.changed, plan.newVals, []);
      FinishAdds(start, id, cells, input, clock, gen);
      var out := Finish(start, id, cells, input, clock, gen).value.db;
      AddsTransitive(db, db1, out, id);
      AddsAnchored(db, out, id);
    }
  }

  lemma CreateAnchored(t: Table, clock: Clock, hook: Hook, db: Db, next: nat, input: map<string, Json>, gen: IdSource)
    requires CellsOk(t.cols) && Sound(db, gen, next) && Anchored(db)
    requires SaveCreate(t, clock, hook, db, next, input, gen).Ok?
    ensures Anchored(SaveCreate(t, clock, hook, db, next, input, gen).value.db)
  {
    DeferredSave(t.cols, input);
    var plan := MergeHook(hook.changes, Assignments(t.cols, input));
    var ins := db.(main := db.main[hook.id := hook.row]);
    AddsSame(db, ins, hook.id);
    var start := Second(ins, next, plan.changed, plan.newVals, plan.assigns);
    FinishAdds(start, hook.id, DeferredCells(t.cols, input), input, clock, gen);
    var out := Finish(start, hook.id, DeferredCells(t.cols, input), input, clock, gen).value.db;
    AddsTransitive(db, ins, out, hook.id);
    AddsAnchored(db, out, hook.id);
  }

  lemma DeleteAnchored(db: Db, gen: IdSource, next: nat, id: string, restrict: set<string>)
    requires Sound(db, gen, next) && Anchored(db) && DeleteSave(db, id, restrict).Ok?
    ensures Anchored(DeleteSave(db, id, restrict).value)
  {
    if id in db.main {
      var out := DeleteSave(db, id, restrict).value;
      DeleteRemovesRows(db, id, restrict);
      forall t, pk | pk in SideOf(out, t) ensures pk.0 in out.main {
        assert At(SideOf(out, t), pk.0, pk.1).Some?;
        assert At(SideOf(db, t), pk.0, pk.1).Some?;
      }
      forall t, c | c in ChildOf(out, t).rows ensures ChildOf(out, t).rows[c].parent in out.main {
        ChildSound(db, gen, next, t);
        DroppedChildren(ChildOf(db, t), id, c);
      }
    }
  }

  lemma StepAnchored(t: Table, clock: Clock, render: Render, restrict: set<string>, gen: IdSource, w: World, op: Op)
    requires CellsOk(t.cols) && Sound(w.db, gen, w.next) && Anchored(w.db)
    ensures Anchored(Step(t, clock, render, restrict, gen, w, op).db)
  {
    match op
    case Update(id, input) =>
      if SaveUpdate(t, clock, render, w.db, w.next, id, input, gen).Ok? { UpdateAnchored(t, clock, render, w.db, w.next, id, input, gen); }
    case Create(hook, input) =>
      if SaveCreate(t, clock, hook, w.db, w.next, input, gen).Ok? { CreateAnchored(t, clock, hook, w.db, w.next, input, gen); }
    case Remove(id) =>
      if DeleteSave(w.db, id, restrict).Ok? { DeleteAnchored(w.db, gen, w.next, id, restrict); }
    case Refused(_) =>
  }

  /** Over every run of saves and deletes, whatever the payloads, no row is left or made
      without its parent. */
  lemma {:induction false} RunAnchored(t: Table, clock: Clock, render: Render, restrict: set<string>, gen: IdSource, w: World, ops: seq<Op>)
    requires CellsOk(t.cols) && Sound(w.db, gen, w.next) && Anchored(w.db)
    ensures Anchored(Run(t, clock, render, restrict, gen, w, ops).db)
  {
    if ops != [] {
      RunAnchored(t, clock, render, restrict, gen, w, ops[..|ops| - 1]);
      RunSound(t, clock, render, restrict, gen, w, ops[..|ops| - 1]);
      StepAnchored(t, clock, render, restrict, gen, Run(t, clock, render, restrict, gen, w, ops[..|ops| - 1]), ops[|ops| - 1]);
    }
  }
}
