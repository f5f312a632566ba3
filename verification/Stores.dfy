/** Store of adapter/erjet/store.go: Load, Save and Delete of one declared table. */
module Stores {
  import opened Values
  import opened SideTables
  import opened Columns
  import opened ChildTables
  import opened Database
  import opened StoreSpec
  import opened StoreLaws
  import opened UpdateTruth
  import opened Transaction
  import opened KeyedSave
  import opened CellStore
  import opened RowReads

  /** Every table the declaration names exists. */
  ghost predicate AllDeclared(db: Db, cols: seq<Named>) {
    forall nc :: nc in cols ==> Declared(db, nc.column)
  }

  lemma SubsetDeclared(db: Db, cols: seq<Named>, some: seq<Named>)
    requires AllDeclared(db, cols) && forall nc :: nc in some ==> nc in cols
    ensures AllDeclared(db, some)
  {}

  // --- writeKeyedGroups --------------------------------------------------------------------

  function WritesFor(groups: map<string, seq<Write>>, table: string): seq<Write> {
    if table in groups then groups[table] else []
  }

  ghost predicate Grouped(cells: seq<Named>, input: map<string, Json>, order: seq<KeyedTable>, groups: map<string, seq<Write>>, handled: set<string>) {
    && order == GroupTables(cells, input)
    && (forall n :: WritesFor(groups, n) == GroupWrites(cells, input, n))
    && (forall n :: n in groups <==> exists i :: 0 <= i < |order| && order[i].name == n)
    && (forall n :: n in handled <==> HandledName(cells, input, n))
  }

  ghost predicate HandledName(cells: seq<Named>, input: map<string, Json>, n: string) {
    exists i :: 0 <= i < |cells| && cells[i].name == n && Handled(cells[i], input)
  }

  lemma HandledSnoc(cells: seq<Named>, nc: Named, input: map<string, Json>, n: string)
    ensures HandledName(cells + [nc], input, n) <==> HandledName(cells, input, n) || (Handled(nc, input) && nc.name == n)
  {
    var all := cells + [nc];
    assert all[|cells|] == nc;
    if HandledName(cells, input, n) {
      var i :| 0 <= i < |cells| && cells[i].name == n && Handled(cells[i], input);
      assert all[i] == cells[i];
    }
    if HandledName(all, input, n) {
      var i :| 0 <= i < |all| && all[i].name == n && Handled(all[i], input);
      if i < |cells| { assert cells[i] == all[i]; }
    }
  }

  lemma GroupSnoc(cells: seq<Named>, nc: Named, input: map<string, Json>, n: string)
    ensures GroupWrites(cells + [nc], input, n) ==
      if Handled(nc, input) && nc.column.side.name == n
      then GroupWrites(cells, input, n) + [Write(nc.column.col, nc.column.clear, input[nc.name].fields)] else GroupWrites(cells, input, n)
    ensures GroupTables(cells + [nc], input) ==
      if Handled(nc, input) && forall i :: 0 <= i < |GroupTables(cells, input)| ==> GroupTables(cells, input)[i].name != nc.column.side.name
      then GroupTables(cells, input) + [nc.column.side] else GroupTables(cells, input)
  {}

  /** One handled cell joins its group, opening it when it is the first. */
  lemma GroupedStep(cells: seq<Named>, nc: Named, input: map<string, Json>, order: seq<KeyedTable>, groups: map<string, seq<Write>>, handled: set<string>)
    requires Grouped(cells, input, order, groups, handled)
    requires Handled(nc, input)
    ensures var name, w := nc.column.side.name, Write(nc.column.col, nc.column.clear, input[nc.name].fields);
      Grouped(cells + [nc], input, if name in groups then order else order + [nc.column.side],
        groups[name := WritesFor(groups, name) + [w]], handled + {nc.name})
  {
    var name, w := nc.column.side.name, Write(nc.column.col, nc.column.clear, input[nc.name].fields);
    var order', groups' := if name in groups then order else order + [nc.column.side], groups[name := WritesFor(groups, name) + [w]];
    forall n ensures WritesFor(groups', n) == GroupWrites(cells + [nc], input, n) {
      GroupSnoc(cells, nc, input, n);
    }
    GroupSnoc(cells, nc, input, name);
    forall n ensures n in groups' <==> exists i :: 0 <= i < |order'| && order'[i].name == n {
      if name !in groups { assert order'[|order|].name == name; }
      if n in groups {
        var i :| 0 <= i < |order| && order[i].name == n;
        assert order'[i].name == n;
      }
    }
    forall n ensures n in handled + {nc.name} <==> HandledName(cells + [nc], input, n) {
      HandledSnoc(cells, nc, input, n);
    }
  }

  lemma GroupedSkip(cells: seq<Named>, nc: Named, input: map<string, Json>, order: seq<KeyedTable>, groups: map<string, seq<Write>>, handled: set<string>)
    requires Grouped(cells, input, order, groups, handled)
    requires !Handled(nc, input)
    ensures Grouped(cells + [nc], input, order, groups, handled)
  {
    forall n ensures WritesFor(groups, n) == GroupWrites(cells + [nc], input, n) && (n in handled <==> HandledName(cells + [nc], input, n)) {
      GroupSnoc(cells, nc, input, n);
      HandledSnoc(cells, nc, input, n);
    }
    GroupSnoc(cells, nc, input, "");
  }

  /** The first loop of writeKeyedGroups: which cells are written together. */
  method GroupCells(cells: seq<Named>, input: map<string, Json>) returns (order: seq<KeyedTable>, groups: map<string, seq<Write>>, handled: set<string>)
    ensures Grouped(cells, input, order, groups, handled)
  {
    order, groups, handled := [], map[], {};
    for i := 0 to |cells|
      invariant Grouped(cells[..i], input, order, groups, handled)
    {
      var nc := cells[i];
      assert cells[..i + 1] == cells[..i] + [nc];
      if nc.column.KeyedStrings? && nc.name in input && input[nc.name].Obj? {
        GroupedStep(cells[..i], nc, input, order, groups, handled);
        var name, w := nc.column.side.name, Write(nc.column.col, nc.column.clear, input[nc.name].fields);
        if name !in groups { order := order + [nc.column.side]; }
        groups := groups[name := WritesFor(groups, name) + [w]];
        handled := handled + {nc.name};
      } else {
        GroupedSkip(cells[..i], nc, input, order, groups, handled);
      }
    }
    assert cells[..|cells|] == cells;
  }

  lemma {:induction false} WriteGroupsFails(db: Db, id: string, cells: seq<Named>, input: map<string, Json>, tables: seq<KeyedTable>, i: nat)
    requires i <= |tables| && WriteGroups(db, id, cells, input, tables[..i]).Err?
    ensures WriteGroups(db, id, cells, input, tables) == WriteGroups(db, id, cells, input, tables[..i])
    decreases |tables|
  {
    if i < |tables| {
      assert tables[..|tables| - 1][..i] == tables[..i];
      WriteGroupsFails(db, id, cells, input, tables[..|tables| - 1], i);
    } else {
      assert tables[..i] == tables;
    }
  }

  lemma WriteGroupsNext(db: Db, id: string, cells: seq<Named>, input: map<string, Json>, tables: seq<KeyedTable>, i: nat)
    requires i < |tables|
    ensures var next := WriteGroup(WriteGroups(db, id, cells, input, tables[..i]), id, cells, input, tables[i]);
      && WriteGroups(db, id, cells, input, tables[..i + 1]) == next
      && (next.Err? ==> WriteGroups(db, id, cells, input, tables) == next)
  {
    assert tables[..i + 1][..i] == tables[..i];
    if WriteGroups(db, id, cells, input, tables[..i + 1]).Err? { WriteGroupsFails(db, id, cells, input, tables, i + 1); }
  }

  /** Side tables change, nothing else, and none goes missing. */
  ghost predicate SidesOnly(db: Db, out: Db) {
    out == db.(sides := out.sides) && db.sides.Keys <= out.sides.Keys
  }

  lemma {:induction false} TablesDeclared(db: Db, cells: seq<Named>, input: map<string, Json>)
    requires AllDeclared(db, cells)
    ensures forall i :: 0 <= i < |GroupTables(cells, input)| ==> GroupTables(cells, input)[i].name in db.sides
  {
    if cells != [] {
      var init, last := cells[..|cells| - 1], cells[|cells| - 1];
      assert forall nc :: nc in init ==> nc in cells;
      assert last in cells && Declared(db, last.column);
      TablesDeclared(db, init, input);
    }
  }

  /** writeKeyedGroups: one grouped upsert per side table. */
  method SaveGroups(tx: Tx, id: string, cells: seq<Named>, input: map<string, Json>) returns (r: Result<set<string>>)
    requires AllDeclared(tx.db, cells)
    modifies tx
    ensures tx.next == old(tx.next) && old(tx.steps) <= tx.steps
    ensures match r
      case Ok(handled) =>
        && WriteGroups(old(tx.db), id, cells, input, GroupTables(cells, input)) == Ok(tx.db) && SidesOnly(old(tx.db), tx.db)
        && (forall n :: n in handled <==> HandledName(cells, input, n))
      case Err(e) => (e == Unavailable && tx.Faulted(old(tx.steps))) || WriteGroups(old(tx.db), id, cells, input, GroupTables(cells, input)) == Err(e)
  {
    ghost var db0 := tx.db;
    var order, groups, handled := GroupCells(cells, input);
    TablesDeclared(db0, cells, input);
    for i := 0 to |order|
      invariant tx.next == old(tx.next) && old(tx.steps) <= tx.steps
      invariant WriteGroups(db0, id, cells, input, order[..i]) == Ok(tx.db)
      invariant SidesOnly(db0, tx.db)
    {
      WriteGroupsNext(db0, id, cells, input, order, i);
      assert WritesFor(groups, order[i].name) == GroupWrites(cells, input, order[i].name);
      var s := SaveMany(tx, order[i], OfEntity(order[i].name), id, WritesFor(groups, order[i].name));
      if s.Err? { return Err(s.error); }
    }
    assert order[..|order|] == order;
    return Ok(handled);
  }

  // --- the second phase -------------------------------------------------------------------------

  lemma {:induction false} SecondPhaseFails(start: Second, id: string, cells: seq<Named>, input: map<string, Json>, gen: IdSource, i: nat)
    requires i <= |cells| && CellsOk(cells) && CellsOk(cells[..i])
    requires SecondPhase(start, id, cells[..i], input, gen).Err?
    ensures SecondPhase(start, id, cells, input, gen) == SecondPhase(start, id, cells[..i], input, gen)
    decreases |cells|
  {
    if i < |cells| {
      assert cells[..|cells| - 1][..i] == cells[..i];
      SecondPhaseFails(start, id, cells[..|cells| - 1], input, gen, i);
    } else {
      assert cells[..i] == cells;
    }
  }

  lemma SecondPhaseNext(start: Second, id: string, cells: seq<Named>, input: map<string, Json>, gen: IdSource, i: nat, s: Second)
    requires CellsOk(cells) && i < |cells|
    requires SecondPhase(start, id, cells[..i], input, gen) == Ok(s)
    ensures cells[i] in cells
    ensures var next := SecondNext(Ok(s), id, cells[i], input, gen);
      && SecondPhase(start, id, cells[..i + 1], input, gen) == next
      && (next.Err? ==> SecondPhase(start, id, cells, input, gen) == next)
  {
    assert cells[..i + 1][..i] == cells[..i];
    if SecondPhase(start, id, cells[..i + 1], input, gen).Err? { SecondPhaseFails(start, id, cells, input, gen, i + 1); }
  }

  /** A save touches only the tables its own storage is in. */
  lemma {:induction false} SaveDeclares(db: Db, next: nat, c: Column, parent: string, v: Json, gen: IdSource, d: Column)
    requires CellOk(c) && CellSave(db, next, c, parent, v, gen).Ok?
    requires Declared(db, d) && StorageOf(d) != StorageOf(c)
    ensures Declared(CellSave(db, next, c, parent, v, gen).value.db, d)
    decreases c, d
  {
    if d.DeferredList? {
      SaveDeclares(db, next, c, parent, v, gen, d.list);
    } else if c.DeferredList? {
      SaveDeclares(db, next, c.list, parent, if v.Arr? then Arr(ResolveAll(c.resolve, parent, v.items).value) else v, gen, d);
    }
  }

  ghost predicate Running(tx: Tx, s: Second)
    reads tx
  {
    tx.db == s.db && tx.next == s.next
  }

  /** One cell of the loop: a cell its group wrote is read back, any other runs its own
      save; a nil result leaves no trace. */
  method SaveSecond(tx: Tx, id: string, nc: Named, input: map<string, Json>, handled: bool, ghost s: Second) returns (r: Result<Json>, ghost after: Second)
    requires CellOk(nc.column) && Declared(tx.db, nc.column) && Running(tx, s)
    requires nc.name in input && (handled <==> Handled(nc, input))
    modifies tx
    ensures old(tx.steps) <= tx.steps
    ensures match r
      case Ok(v) =>
        && SecondNext(Ok(s), id, nc, input, tx.gen) == Ok(after) && Running(tx, after) && Declared(tx.db, nc.column)
        && after == Record(s, nc, Saved(tx.db, tx.next, v))
        && (forall d: Column :: Declared(old(tx.db), d) && StorageOf(d) != StorageOf(nc.column) ==> Declared(tx.db, d))
      case Err(e) => (e == Unavailable && tx.Faulted(old(tx.steps))) || SecondNext(Ok(s), id, nc, input, tx.gen) == Err(e)
  {
    after := s;
    if handled {
      r := LoadCell(tx, nc.column, id);
    } else {
      ghost var db0, next0 := tx.db, tx.next;
      r := SaveCell(tx, nc.column, id, input[nc.name]);
      if r.Ok? {
        forall d: Column | Declared(db0, d) && StorageOf(d) != StorageOf(nc.column) ensures Declared(tx.db, d) {
          SaveDeclares(db0, next0, nc.column, id, input[nc.name], tx.gen, d);
        }
      }
    }
    if r.Ok? { after := Record(s, nc, Saved(tx.db, tx.next, r.value)); }
  }

  /** The loop over deferred cells in Store.Save. */
  method SaveDeferred(tx: Tx, id: string, cells: seq<Named>, input: map<string, Json>, handled: set<string>, start: Plan, startBack: seq<Assign>, ghost all: seq<Named>) returns (r: Result<Plan>)
    requires CellsOk(cells) && AllDeclared(tx.db, all) && DistinctStorage(all) && DistinctNames(all) && DistinctNames(cells)
    requires forall nc :: nc in cells ==> nc in all
    requires forall nc :: nc in cells ==> nc.name in input
    requires forall n :: n in handled <==> HandledName(cells, input, n)
    modifies tx
    ensures old(tx.steps) <= tx.steps
    ensures r.Ok? ==> AllDeclared(tx.db, all)
    ensures var spec := SecondPhase(Second(old(tx.db), old(tx.next), start.changed, start.newVals, startBack), id, cells, input, tx.gen);
      match r
      case Ok(p) => spec == Ok(Second(tx.db, tx.next, p.changed, p.newVals, p.assigns))
      case Err(e) => (e == Unavailable && tx.Faulted(old(tx.steps))) || spec == Err(e)
  {
    var changed, newVals, back := start.changed, start.newVals, startBack;
    ghost var begin := Second(tx.db, tx.next, changed, newVals, back);
    for i := 0 to |cells|
      invariant old(tx.steps) <= tx.steps
      invariant SecondPhase(begin, id, cells[..i], input, tx.gen) == Ok(Second(tx.db, tx.next, changed, newVals, back))
      invariant AllDeclared(tx.db, all)
    {
      var nc := cells[i];
      assert nc in all;
      ghost var s := Second(tx.db, tx.next, changed, newVals, back);
      SecondPhaseNext(begin, id, cells, input, tx.gen, i, s);
      HandledIs(cells, input, i);
      ghost var after;
      var v;
      v, after := SaveSecond(tx, id, nc, input, nc.name in handled, s);
      if v.Err? { return Err(v.error); }
      forall d | d in all ensures Declared(tx.db, d.column) {
        DistinctCells(all, d, nc);
      }
      if v.value != Null {
        changed := changed + [nc.name];
        newVals := newVals[nc.name := v.value];
        if !nc.column.IsSatellite() { back := back + [AssignOf(nc.column, v.value)]; }
      }
    }
    assert cells[..|cells|] == cells;
    return Ok(Plan(back, changed, newVals));
  }

  lemma HandledIs(cells: seq<Named>, input: map<string, Json>, i: nat)
    requires i < |cells| && DistinctNames(cells)
    ensures HandledName(cells, input, cells[i].name) <==> Handled(cells[i], input)
  {}

  lemma {:induction false} GroupsDeclare(db: Db, out: Db, c: Column)
    requires SidesOnly(db, out) && Declared(db, c)
    ensures Declared(out, c)
  {
    if c.DeferredList? { GroupsDeclare(db, out, c.list); }
  }

  lemma {:induction false} MainDeclares(db: Db, out: Db, c: Column)
    requires out == db.(main := out.main) && Declared(db, c)
    ensures Declared(out, c)
  {
    if c.DeferredList? { MainDeclares(db, out, c.list); }
  }

  lemma AllGroupsDeclare(db: Db, out: Db, all: seq<Named>)
    requires SidesOnly(db, out) && AllDeclared(db, all)
    ensures AllDeclared(out, all)
  {
    forall nc | nc in all ensures Declared(out, nc.column) { GroupsDeclare(db, out, nc.column); }
  }

  lemma AllMainDeclares(db: Db, out: Db, all: seq<Named>)
    requires out == db.(main := out.main) && AllDeclared(db, all)
    ensures AllDeclared(out, all)
  {
    forall nc | nc in all ensures Declared(out, nc.column) { MainDeclares(db, out, nc.column); }
  }

  method SetIfAny(tx: Tx, id: string, assigns: seq<Assign>, clock: Clock, ghost all: seq<Named>) returns (s: Status)
    requires AllDeclared(tx.db, all)
    modifies tx
    ensures tx.next == old(tx.next) && old(tx.steps) <= tx.steps
    ensures s.Ok? ==> AllDeclared(tx.db, all)
    ensures match s
      case Ok(_) => UpdateIfAny(old(tx.db), id, assigns, clock) == Ok(tx.db)
      case Err(e) => (e == Unavailable && tx.Faulted(old(tx.steps))) || UpdateIfAny(old(tx.db), id, assigns, clock) == Err(e)
  {
    if assigns == [] { return Ok(()); }
    ghost var db := tx.db;
    s := tx.UpdateRow(id, assigns, clock);
    if s.Ok? { AllMainDeclares(db, tx.db, all); }
  }

  lemma DeferredReady(db: Db, t: Table, input: map<string, Json>)
    requires WellDeclared(t) && AllDeclared(db, t.cols)
    ensures var cells := DeferredCells(t.cols, input);
      && AllDeclared(db, cells) && DistinctNames(cells) && DistinctStorage(cells)
      && forall nc :: nc in cells ==> nc in t.cols && nc.name in input
  {
    DeferredOk(t.cols, input);
    DeferredDistinct(t.cols, input);
    SubsetDeclared(db, t.cols, DeferredCells(t.cols, input));
  }

  /** Everything after the first UPDATE or the INSERT, up to the commit. */
  method FinishSave(tx: Tx, t: Table, clock: Clock, id: string, cells: seq<Named>, input: map<string, Json>, plan: Plan, back: seq<Assign>) returns (r: Result<Plan>)
    requires WellDeclared(t) && AllDeclared(tx.db, t.cols)
    requires CellsOk(cells) && cells == DeferredCells(t.cols, input)
    modifies tx
    ensures old(tx.steps) <= tx.steps
    ensures r.Ok? ==> AllDeclared(tx.db, t.cols)
    ensures var spec := Finish(Second(old(tx.db), old(tx.next), plan.changed, plan.newVals, back), id, cells, input, clock, tx.gen);
      match r
      case Ok(p) => spec == Ok(Second(tx.db, tx.next, p.changed, p.newVals, p.assigns))
      case Err(e) => (e == Unavailable && tx.Faulted(old(tx.steps))) || spec == Err(e)
  {
    ghost var db0 := tx.db;
    DeferredReady(db0, t, input);
    var handled := SaveGroups(tx, id, cells, input);
    if handled.Err? { return Err(handled.error); }
    AllGroupsDeclare(db0, tx.db, t.cols);
    r := SaveDeferred(tx, id, cells, input, handled.value, plan, back, t.cols);
    if r.Err? { return; }
    var s := SetIfAny(tx, id, r.value.assigns, clock, t.cols);
    if s.Err? { return Err(s.error); }
  }
}
