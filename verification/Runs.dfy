/** Whole runs of saves and deletes with arbitrary payloads. */
module Runs {
  import opened Values
  import opened Ordering
  import opened SideTables
  import opened Columns
  import opened ChildTables
  import opened ChildLaws
  import opened ChildTheorems
  import opened ChildLists
  import opened ListLaws
  import opened Database
  import opened CellLaws
  import opened StoreSpec

  datatype Op =
    | Update(id: string, input: map<string, Json>)
    | Create(hook: Hook, input: map<string, Json>)
    | Remove(id: string)
    | Refused(drawn: nat)  // a call that failed after drawing identifiers

  datatype World = World(db: Db, next: nat)

  /** The store between calls: a refused call changes nothing. */
  function Step(t: Table, clock: Clock, render: Render, restrict: set<string>, gen: IdSource, w: World, op: Op): World
    requires CellsOk(t.cols)
  {
    match op
    case Update(id, input) =>
      (match SaveUpdate(t, clock, render, w.db, w.next, id, input, gen)
       case Err(_) => w
       case Ok(o) => World(o.db, o.next))
    case Create(hook, input) =>
      (match SaveCreate(t, clock, hook, w.db, w.next, input, gen)
       case Err(_) => w
       case Ok(o) => World(o.db, o.next))
    case Remove(id) =>
      (match DeleteSave(w.db, id, restrict)
       case Err(_) => w
       case Ok(d) => World(d, w.next))
    case Refused(drawn) => World(w.db, w.next + drawn)
  }

  function Run(t: Table, clock: Clock, render: Render, restrict: set<string>, gen: IdSource, w: World, ops: seq<Op>): World
    requires CellsOk(t.cols)
  {
    if ops == [] then w else Step(t, clock, render, restrict, gen, Run(t, clock, render, restrict, gen, w, ops[..|ops| - 1]), ops[|ops| - 1])
  }

  lemma RunSnoc(t: Table, clock: Clock, render: Render, restrict: set<string>, gen: IdSource, w: World, ops: seq<Op>, op: Op)
    requires CellsOk(t.cols)
    ensures Run(t, clock, render, restrict, gen, w, ops + [op]) == Step(t, clock, render, restrict, gen, Run(t, clock, render, restrict, gen, w, ops), op)
  {
    assert (ops + [op])[..|ops|] == ops;
  }

  // --- one child table along a run ---------------------------------------------------------

  /** From one state of a child table to a later one: ids keep their owners and are never
      reused, nested keys hold, numbered partitions stay numbered. */
  ghost predicate Kept(ct: ChildTable, gen: IdSource, d: ChildDb, n: nat, e: ChildDb, m: nat) {
    && Evolves(gen, d, n, e, m)
    && NestedKeys(e)
    && (forall p, k :: RightKey(ct, k) && GapFree(ct, d.rows, p, k) ==> GapFree(ct, e.rows, p, k))
  }

  lemma KeptStill(ct: ChildTable, gen: IdSource, d: ChildDb, n: nat, m: nat)
    requires n <= m && Unissued(gen, n, d.rows) && NestedKeys(d)
    ensures Kept(ct, gen, d, n, d, m)
  {}

  lemma KeptTransitive(ct: ChildTable, gen: IdSource, d: ChildDb, n: nat, e: ChildDb, m: nat, f: ChildDb, o: nat)
    requires Unissued(gen, n, d.rows)
    requires Kept(ct, gen, d, n, e, m) && Kept(ct, gen, e, m, f, o)
    ensures Kept(ct, gen, d, n, f, o)
  {}

  /** The child table behind a list cell. */
  function ListTable(c: Column): Option<ChildTable> {
    match c
    case Child(ct, _) => Some(ct)
    case DeferredList(list, _) => ListTable(list)
    case _ => None
  }

  /** Every cell over this table name declares the same table. */
  ghost predicate OneTable(ct: ChildTable, c: Column) {
    StorageOf(c) == InChild(ct.name) ==> ListTable(c) == Some(ct)
  }

  /** What a save closure keeps of one child table. */
  ghost predicate SaveKept(ct: ChildTable, db: Db, next: nat, gen: IdSource, s: Saved) {
    && next <= s.next && Sound(s.db, gen, s.next)
    && Kept(ct, gen, ChildOf(db, ct.name), next, ChildOf(s.db, ct.name), s.next)
  }

  lemma SameChildKept(ct: ChildTable, db: Db, next: nat, gen: IdSource, s: Saved)
    requires Sound(db, gen, next) && Sound(s.db, gen, s.next) && next <= s.next
    requires ChildOf(s.db, ct.name) == ChildOf(db, ct.name)
    ensures SaveKept(ct, db, next, gen, s)
  {
    ChildSound(db, gen, next, ct.name);
    KeptStill(ct, gen, ChildOf(db, ct.name), next, s.next);
  }

  lemma RelsKept(ct: ChildTable, db: Db, next: nat, c: Column, parent: string, v: Json, gen: IdSource)
    requires c.Rels? && Sound(db, gen, next)
    requires SaveRels(db, next, c.rels, c.path, c.target, parent, v).Ok?
    ensures SaveKept(ct, db, next, gen, SaveRels(db, next, c.rels, c.path, c.target, parent, v).value)
  {
    SaveRelsLaw(db, next, c, parent, v, gen);
    SameChildKept(ct, db, next, gen, SaveRels(db, next, c.rels, c.path, c.target, parent, v).value);
  }

  lemma ListKept(ct: ChildTable, db: Db, next: nat, c: Column, parent: string, v: Json, gen: IdSource)
    requires c.Child? && CellOk(c) && Sound(db, gen, next) && OneTable(ct, c)
    requires SaveChild(db, next, c.ct, c.shape, parent, v, gen).Ok?
    ensures SaveKept(ct, db, next, gen, SaveChild(db, next, c.ct, c.shape, parent, v, gen).value)
  {
    var s := SaveChild(db, next, c.ct, c.shape, parent, v, gen).value;
    SaveChildLaw(db, next, c, parent, v, gen);
    if c.ct.name == ct.name {
      ListTableKept(db, next, c, parent, v, gen, s);
    } else {
      SameChildKept(ct, db, next, gen, s);
    }
  }

  lemma ListTableKept(db: Db, next: nat, c: Column, parent: string, v: Json, gen: IdSource, s: Saved)
    requires c.Child? && CellOk(c) && Sound(db, gen, next)
    requires SaveChild(db, next, c.ct, c.shape, parent, v, gen) == Ok(s)
    requires SoundSave(db, next, gen, s)
    ensures SaveKept(c.ct, db, next, gen, s)
  {
    var st := ChildState(ChildOf(db, c.ct.name), next);
    ChildSound(db, gen, next, c.ct.name);
    SaveListLaw(c.ct, c.shape, gen, st, parent, v);
    if SaveList(c.ct, c.shape, st, parent, v, gen).value.None? {
      SameChildKept(c.ct, db, next, gen, s);
    }
  }

  lemma {:induction false} CellSaveKept(ct: ChildTable, db: Db, next: nat, c: Column, parent: string, v: Json, gen: IdSource)
    requires CellOk(c) && Sound(db, gen, next) && OneTable(ct, c)
    requires CellSave(db, next, c, parent, v, gen).Ok?
    ensures SaveKept(ct, db, next, gen, CellSave(db, next, c, parent, v, gen).value)
    decreases c
  {
    match c
    case DeferredList(list, resolve) =>
      CellSaveKept(ct, db, next, list, parent, if v.Arr? then Arr(ResolveAll(resolve, parent, v.items).value) else v, gen);
    case Rels(_, _, _) => RelsKept(ct, db, next, c, parent, v, gen);
    case Child(_, _) => ListKept(ct, db, next, c, parent, v, gen);
    case _ => SameChildKept(ct, db, next, gen, CellSave(db, next, c, parent, v, gen).value);
  }

  ghost predicate RunCells(ct: ChildTable, cells: seq<Named>) {
    CellsOk(cells) && forall nc :: nc in cells ==> OneTable(ct, nc.column)
  }

  lemma SecondSaveKept(ct: ChildTable, s: Second, id: string, nc: Named, input: map<string, Json>, gen: IdSource)
    requires CellOk(nc.column) && OneTable(ct, nc.column)
    requires Sound(s.db, gen, s.next)
    requires SecondSave(s, id, nc, input, gen).Ok?
    ensures SaveKept(ct, s.db, s.next, gen, SecondSave(s, id, nc, input, gen).value)
  {
    if Handled(nc, input) {
      SameChildKept(ct, s.db, s.next, gen, SecondSave(s, id, nc, input, gen).value);
    } else {
      CellSaveKept(ct, s.db, s.next, nc.column, id, if nc.name in input then input[nc.name] else Null, gen);
    }
  }

  lemma {:induction false} SecondPhaseKept(ct: ChildTable, start: Second, id: string, cells: seq<Named>, input: map<string, Json>, gen: IdSource)
    requires RunCells(ct, cells) && Sound(start.db, gen, start.next)
    requires SecondPhase(start, id, cells, input, gen).Ok?
    ensures var s := SecondPhase(start, id, cells, input, gen).value;
      && start.next <= s.next && Sound(s.db, gen, s.next)
      && Kept(ct, gen, ChildOf(start.db, ct.name), start.next, ChildOf(s.db, ct.name), s.next)
  {
    ChildSound(start.db, gen, start.next, ct.name);
    if cells == [] {
      KeptStill(ct, gen, ChildOf(start.db, ct.name), start.next, start.next);
    } else {
      var init, nc := cells[..|cells| - 1], cells[|cells| - 1];
      assert nc in cells && forall d :: d in init ==> d in cells;
      SecondPhaseKept(ct, start, id, init, input, gen);
      var s := SecondPhase(start, id, init, input, gen).value;
      SecondSaveKept(ct, s, id, nc, input, gen);
      var out := SecondSave(s, id, nc, input, gen).value;
      KeptTransitive(ct, gen, ChildOf(start.db, ct.name), start.next, ChildOf(s.db, ct.name), s.next, ChildOf(out.db, ct.name), out.next);
    }
  }

  lemma {:induction false} GroupsKeepChildren(db: Db, id: string, cells: seq<Named>, input: map<string, Json>, tables: seq<KeyedTable>)
    requires WriteGroups(db, id, cells, input, tables).Ok?
    ensures var out := WriteGroups(db, id, cells, input, tables).value; out.childs == db.childs && out.rels == db.rels && out.main == db.main
  {
    if tables != [] { GroupsKeepChildren(db, id, cells, input, tables[..|tables| - 1]); }
  }

  lemma FinishKept(ct: ChildTable, start: Second, id: string, cells: seq<Named>, input: map<string, Json>, clock: Clock, gen: IdSource)
    requires RunCells(ct, cells) && Sound(start.db, gen, start.next)
    requires Finish(start, id, cells, input, clock, gen).Ok?
    ensures var f := Finish(start, id, cells, input, clock, gen).value;
      && start.next <= f.next && Sound(f.db, gen, f.next)
      && Kept(ct, gen, ChildOf(start.db, ct.name), start.next, ChildOf(f.db, ct.name), f.next)
  {
    GroupsKeepChildren(start.db, id, cells, input, GroupTables(cells, input));
    var grouped := WriteGroups(start.db, id, cells, input, GroupTables(cells, input)).value;
    SecondPhaseKept(ct, start.(db := grouped), id, cells, input, gen);
  }

  // --- deleting -------------------------------------------------------------------------------

  lemma {:induction false} DropParentKept(ct: ChildTable, gen: IdSource, d: ChildDb, n: nat, parent: string)
    requires Unissued(gen, n, d.rows) && NestedKeys(d)
    ensures Kept(ct, gen, d, n, DropParent(d, parent), n)
  {
    var e := DropParent(d, parent);
    forall t, pk | pk in NestedOf(e, t) ensures pk.0 in e.rows { assert pk in NestedOf(d, t); }
    forall p, k | RightKey(ct, k) && GapFree(ct, d.rows, p, k) ensures GapFree(ct, e.rows, p, k) {
      forall s: Slot ensures s in Slots(ct, e.rows, p, k) <==> p != parent && s in Slots(ct, d.rows, p, k) {
        InSlots(ct, e.rows, p, k, s);
        InSlots(ct, d.rows, p, k, s);
      }
      if p == parent {
        assert Slots(ct, e.rows, p, k) == {};
      } else {
        assert Slots(ct, e.rows, p, k) == Slots(ct, d.rows, p, k);
      }
    }
  }

  lemma DeleteKept(ct: ChildTable, gen: IdSource, db: Db, next: nat, id: string, restrict: set<string>)
    requires Sound(db, gen, next)
    requires DeleteSave(db, id, restrict).Ok?
    ensures var out := DeleteSave(db, id, restrict).value;
      Sound(out, gen, next) && Kept(ct, gen, ChildOf(db, ct.name), next, ChildOf(out, ct.name), next)
  {
    var out := DeleteSave(db, id, restrict).value;
    ChildSound(db, gen, next, ct.name);
    if id in db.main {
      forall n | n in out.childs ensures Unissued(gen, next, out.childs[n].rows) && NestedKeys(out.childs[n]) {
        DropParentKept(ct, gen, db.childs[n], next, id);
      }
      DropParentKept(ct, gen, ChildOf(db, ct.name), next, id);
      if ct.name !in db.childs { KeptStill(ct, gen, ChildOf(db, ct.name), next, next); }
    } else {
      KeptStill(ct, gen, ChildOf(db, ct.name), next, next);
    }
  }

  // --- runs --------------------------------------------------------------------------------------

  ghost predicate Declares(t: Table, ct: ChildTable) {
    CellsOk(t.cols) && forall nc :: nc in t.cols ==> OneTable(ct, nc.column)
  }

  lemma DeferredRunCells(t: Table, ct: ChildTable, input: map<string, Json>)
    requires Declares(t, ct)
    ensures CellsOk(DeferredCells(t.cols, input)) && RunCells(ct, DeferredCells(t.cols, input))
  {
    DeferredOk(t.cols, input);
  }

  lemma StepKept(t: Table, clock: Clock, render: Render, restrict: set<string>, gen: IdSource, ct: ChildTable, w: World, op: Op)
    requires Declares(t, ct) && Sound(w.db, gen, w.next)
    ensures var v := Step(t, clock, render, restrict, gen, w, op);
      && w.next <= v.next && Sound(v.db, gen, v.next)
      && Kept(ct, gen, ChildOf(w.db, ct.name), w.next, ChildOf(v.db, ct.name), v.next)
  {
    ChildSound(w.db, gen, w.next, ct.name);
    KeptStill(ct, gen, ChildOf(w.db, ct.name), w.next, w.next);
    match op
    case Update(id, input) =>
      if SaveUpdate(t, clock, render, w.db, w.next, id, input, gen).Ok? { UpdateKept(t, clock, render, gen, ct, w, id, input); }
    case Create(hook, input) =>
      if SaveCreate(t, clock, hook, w.db, w.next, input, gen).Ok? { CreateKept(t, clock, gen, ct, w, hook, input); }
    case Remove(id) =>
      if DeleteSave(w.db, id, restrict).Ok? { DeleteKept(ct, gen, w.db, w.next, id, restrict); }
    case Refused(drawn) =>
      KeptStill(ct, gen, ChildOf(w.db, ct.name), w.next, w.next + drawn);
  }

  lemma UpdateKept(t: Table, clock: Clock, render: Render, gen: IdSource, ct: ChildTable, w: World, id: string, input: map<string, Json>)
    requires Declares(t, ct) && Sound(w.db, gen, w.next)
    requires SaveUpdate(t, clock, render, w.db, w.next, id, input, gen).Ok?
    ensures var o := SaveUpdate(t, clock, render, w.db, w.next, id, input, gen).value;
      && w.next <= o.next && Sound(o.db, gen, o.next)
      && Kept(ct, gen, ChildOf(w.db, ct.name), w.next, ChildOf(o.db, ct.name), o.next)
  {
    ChildSound(w.db, gen, w.next, ct.name);
    KeptStill(ct, gen, ChildOf(w.db, ct.name), w.next, w.next);
    DeferredRunCells(t, ct, input);
    var plan, cells := Assignments(t.cols, input), DeferredCells(t.cols, input);
    if plan.assigns != [] || cells != [] {
      var db1 := UpdateIfAny(w.db, id, plan.assigns, clock).value;
      FinishKept(ct, Second(db1, w.next, plan.changed, plan.newVals, []), id, cells, input, clock, gen);
    }
  }

  lemma CreateKept(t: Table, clock: Clock, gen: IdSource, ct: ChildTable, w: World, hook: Hook, input: map<string, Json>)
    requires Declares(t, ct) && Sound(w.db, gen, w.next)
    requires SaveCreate(t, clock, hook, w.db, w.next, input, gen).Ok?
    ensures var o := SaveCreate(t, clock, hook, w.db, w.next, input, gen).value;
      && w.next <= o.next && Sound(o.db, gen, o.next)
      && Kept(ct, gen, ChildOf(w.db, ct.name), w.next, ChildOf(o.db, ct.name), o.next)
  {
    DeferredRunCells(t, ct, input);
    var plan := MergeHook(hook.changes, Assignments(t.cols, input));
    FinishKept(ct, Second(w.db.(main := w.db.main[hook.id := hook.row]), w.next, plan.changed, plan.newVals, plan.assigns),
      hook.id, DeferredCells(t.cols, input), input, clock, gen);
  }

  /** Over every run of saves and deletes, whatever the payloads: a child id keeps its
      parent and partition for as long as it is seen (and is never reused), partitions
      numbered 1..n stay so, and nested foreign keys hold. */
  lemma {:induction false} RunKept(t: Table, clock: Clock, render: Render, restrict: set<string>, gen: IdSource, ct: ChildTable, w: World, ops: seq<Op>)
    requires Declares(t, ct) && Sound(w.db, gen, w.next)
    ensures var v := Run(t, clock, render, restrict, gen, w, ops);
      && Sound(v.db, gen, v.next)
      && Kept(ct, gen, ChildOf(w.db, ct.name), w.next, ChildOf(v.db, ct.name), v.next)
  {
    ChildSound(w.db, gen, w.next, ct.name);
    if ops == [] {
      KeptStill(ct, gen, ChildOf(w.db, ct.name), w.next, w.next);
    } else {
      RunKept(t, clock, render, restrict, gen, ct, w, ops[..|ops| - 1]);
      var mid := Run(t, clock, render, restrict, gen, w, ops[..|ops| - 1]);
      StepKept(t, clock, render, restrict, gen, ct, mid, ops[|ops| - 1]);
      var v := Run(t, clock, render, restrict, gen, w, ops);
      KeptTransitive(ct, gen, ChildOf(w.db, ct.name), w.next, ChildOf(mid.db, ct.name), mid.next, ChildOf(v.db, ct.name), v.next);
    }
  }

  /** A name longer than that of every child table of the declaration. */
  ghost function LongName(cols: seq<Named>): (s: string)
    ensures forall i :: 0 <= i < |cols| && StorageOf(cols[i].column).InChild? ==> |StorageOf(cols[i].column).table| < |s|
  {
    if cols == [] then "x"
    else
      var st := StorageOf(cols[|cols| - 1].column);
      LongName(cols[..|cols| - 1]) + "x" + (if st.InChild? then st.table else "")
  }

  /** A run keeps what every statement keeps, whatever the declaration. */
  lemma RunSound(t: Table, clock: Clock, render: Render, restrict: set<string>, gen: IdSource, w: World, ops: seq<Op>)
    requires CellsOk(t.cols) && Sound(w.db, gen, w.next)
    ensures var v := Run(t, clock, render, restrict, gen, w, ops); w.next <= v.next && Sound(v.db, gen, v.next)
  {
    var less: IdOrder :| true;
    var ct := ChildTable(LongName(t.cols), false, false, less);
    RunKept(t, clock, render, restrict, gen, ct, w, ops);
  }

  /** From empty child tables, every partition of every reachable state is numbered
      exactly 1..n, with distinct ids. */
  lemma ReachableNumbered(t: Table, clock: Clock, render: Render, restrict: set<string>, gen: IdSource, ct: ChildTable, w: World, ops: seq<Op>, p: string, k: string)
    requires Declares(t, ct) && Sound(w.db, gen, w.next)
    requires ChildOf(w.db, ct.name).rows == map[] && RightKey(ct, k)
    ensures var d := ChildOf(Run(t, clock, render, restrict, gen, w, ops).db, ct.name);
      GapFree(ct, d.rows, p, k) && Distinct(Ids(ct, d, p, k))
  {
    RunKept(t, clock, render, restrict, gen, ct, w, ops);
    var d := ChildOf(Run(t, clock, render, restrict, gen, w, ops).db, ct.name);
    assert Slots(ct, ChildOf(w.db, ct.name).rows, p, k) == {};
    forall i | 0 <= i < |Select(ct, d.rows, p, k)| {
      SelectedOnce(ct, d.rows, p, k, i);
    }
  }
}
