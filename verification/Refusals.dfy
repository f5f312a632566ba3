/** Why an update may be refused: for a value some field was sent, never for the id of a
    child element. */
module Refusals {
  import opened Values
  import opened SideTables
  import opened KeyedLaws
  import opened Columns
  import opened ChildTables
  import opened ChildLists
  import opened ListLaws
  import opened RelsTables
  import opened Database
  import opened CellLaws
  import opened StoreSpec
  import opened PlanLaws
  import opened GroupLaws
  import opened StoreLaws
  import opened UpdateTruth

  /** Why the save of one cell may fail with e: a NOT NULL column of a side table, the
      server's refusal of a value sent for a column of a child table, a relation id that
      is not of the target type or has no row, or the application's own resolver. No id
      an element names is among the reasons. */
  ghost predicate CellRefuses(db: Db, c: Column, parent: string, v: Json, e: Failure) {
    match c
    case KeyedStrings(_, _, _) => e == NotNullViolation
    case Child(ct, shape) => e == NotNullViolation || PayloadRefuses(ct, shape, v, e)
    case Rels(rels, _, target) => v.Arr? && TargetRefused(rels.cast, RelsOf(db, rels.name), target, IdSlice(v.items), e)
    case DeferredList(list, resolve) =>
      if !v.Arr? then CellRefuses(db, list, parent, v, e)
      else
        (match ResolveAll(resolve, parent, v.items)
         case Err(f) => e == f && exists i :: 0 <= i < |v.items| && resolve(parent, v.items[i]) == Err(e)
         case Ok(items) => CellRefuses(db, list, parent, Arr(items), e))
    case Deferred(_, resolve, _) => resolve(parent, v) == Err(e)
    case _ => false
  }

  lemma {:induction false} ResolveAllFails(resolve: (string, Json) -> Result<Json>, parent: string, list: seq<Json>)
    requires ResolveAll(resolve, parent, list).Err?
    ensures exists i :: 0 <= i < |list| && resolve(parent, list[i]) == Err(ResolveAll(resolve, parent, list).error)
  {
    var init := list[..|list| - 1];
    if ResolveAll(resolve, parent, init).Err? {
      ResolveAllFails(resolve, parent, init);
      var i :| 0 <= i < |init| && resolve(parent, init[i]) == Err(ResolveAll(resolve, parent, list).error);
      assert list[i] == init[i];
    } else {
      assert resolve(parent, list[|list| - 1]).Err?;
    }
  }

  lemma {:induction false} CellRefusal(db: Db, next: nat, c: Column, parent: string, v: Json, gen: IdSource)
    requires CellOk(c) && Sound(db, gen, next) && parent in db.main
    requires CellSave(db, next, c, parent, v, gen).Err?
    ensures CellRefuses(db, c, parent, v, CellSave(db, next, c, parent, v, gen).error)
    decreases c
  {
    match c
    case KeyedStrings(side, col, clear) =>
      WriteManyErrors(side, db.main.Keys, SideOf(db, side.name), parent, [Write(col, clear, v.fields)]);
    case Child(ct, shape) =>
      ChildSound(db, gen, next, ct.name);
      SaveListLaw(ct, shape, gen, ChildState(ChildOf(db, ct.name), next), parent, v);
    case Rels(rels, path, target) =>
      ReplaceRelsAccepted(rels.cast, RelsOf(db, rels.name), parent, path, target, IdSlice(v.items));
    case DeferredList(list, resolve) =>
      if v.Arr? && ResolveAll(resolve, parent, v.items).Err? {
        ResolveAllFails(resolve, parent, v.items);
      } else {
        CellRefusal(db, next, list, parent, if v.Arr? then Arr(ResolveAll(resolve, parent, v.items).value) else v, gen);
      }
    case _ =>
  }

  // --- what relations refer to stays ----------------------------------------------------------

  ghost predicate SameTargets(a: Db, b: Db) {
    forall n :: RelsOf(b, n).targets == RelsOf(a, n).targets
  }

  lemma RelsTargets(db: Db, next: nat, c: Column, parent: string, v: Json, gen: IdSource)
    requires c.Rels? && Sound(db, gen, next) && SaveRels(db, next, c.rels, c.path, c.target, parent, v).Ok?
    ensures SameTargets(db, SaveRels(db, next, c.rels, c.path, c.target, parent, v).value.db)
  {
    if v.Arr? {
      var out := SaveRels(db, next, c.rels, c.path, c.target, parent, v).value.db;
      ReplaceRelsFramed(c.rels.cast, RelsOf(db, c.rels.name), parent, c.path, c.target, IdSlice(v.items), RelsOf(out, c.rels.name));
    }
  }

  lemma {:induction false} SaveTargets(db: Db, next: nat, c: Column, parent: string, v: Json, gen: IdSource)
    requires CellOk(c) && Sound(db, gen, next) && CellSave(db, next, c, parent, v, gen).Ok?
    ensures SameTargets(db, CellSave(db, next, c, parent, v, gen).value.db)
    decreases c
  {
    match c
    case Rels(_, _, _) => RelsTargets(db, next, c, parent, v, gen);
    case DeferredList(list, resolve) =>
      SaveTargets(db, next, list, parent, if v.Arr? then Arr(ResolveAll(resolve, parent, v.items).value) else v, gen);
    case _ => assert CellSave(db, next, c, parent, v, gen).value.db.rels == db.rels;
  }

  lemma {:induction false} RefusesSame(a: Db, b: Db, c: Column, parent: string, v: Json, e: Failure)
    requires SameTargets(a, b) && CellRefuses(b, c, parent, v, e)
    ensures CellRefuses(a, c, parent, v, e)
    decreases c
  {
    match c
    case DeferredList(list, resolve) =>
      if !v.Arr? { RefusesSame(a, b, list, parent, v, e); }
      else if ResolveAll(resolve, parent, v.items).Ok? { RefusesSame(a, b, list, parent, Arr(ResolveAll(resolve, parent, v.items).value), e); }
    case Rels(rels, _, target) => assert RelsOf(a, rels.name).targets == RelsOf(b, rels.name).targets;
    case _ =>
  }

  // --- the second phase --------------------------------------------------------------------------

  /** The value one sent field carries is refused by its cell. */
  ghost predicate Declines(db: Db, cells: seq<Named>, id: string, input: map<string, Json>, e: Failure) {
    exists nc :: nc in cells && CellRefuses(db, nc.column, id, At0(input, nc.name), e)
  }

  lemma {:induction false} PhaseRefusal(start: Second, id: string, cells: seq<Named>, input: map<string, Json>, gen: IdSource)
    requires StartOk(start, cells, input, gen) && id in start.db.main
    ensures var s := SecondPhase(start, id, cells, input, gen);
      && (s.Ok? ==> SameTargets(start.db, s.value.db))
      && (s.Err? ==> Declines(start.db, cells, id, input, s.error))
  {
    if cells != [] {
      var init, nc := cells[..|cells| - 1], cells[|cells| - 1];
      assert cells == init + [nc] && nc in cells;
      PrefixCells(cells, input, start);
      PhaseRefusal(start, id, init, input, gen);
      var before := SecondPhase(start, id, init, input, gen);
      if before.Err? {
        var d :| d in init && CellRefuses(start.db, d.column, id, At0(input, d.name), before.error);
        assert d in cells;
      } else {
        SecondPhaseSound(start, id, init, input, gen);
        TurnRefusal(start, before.value, id, nc, input, gen);
      }
    }
  }

  lemma TurnRefusal(start: Second, s: Second, id: string, nc: Named, input: map<string, Json>, gen: IdSource)
    requires CellOk(nc.column) && Sound(s.db, gen, s.next) && id in s.db.main && SameTargets(start.db, s.db)
    ensures var out := SecondSave(s, id, nc, input, gen);
      && (out.Ok? ==> SameTargets(start.db, Record(s, nc, out.value).db))
      && (out.Err? ==> CellRefuses(start.db, nc.column, id, At0(input, nc.name), out.error))
  {
    if !Handled(nc, input) {
      OwnRefusal(start.db, s, id, nc.column, At0(input, nc.name), gen);
    }
  }

  lemma OwnRefusal(db: Db, s: Second, id: string, c: Column, v: Json, gen: IdSource)
    requires CellOk(c) && Sound(s.db, gen, s.next) && id in s.db.main && SameTargets(db, s.db)
    ensures var out := CellSave(s.db, s.next, c, id, v, gen);
      && (out.Ok? ==> SameTargets(db, out.value.db))
      && (out.Err? ==> CellRefuses(db, c, id, v, out.error))
  {
    var out := CellSave(s.db, s.next, c, id, v, gen);
    if out.Ok? {
      SaveTargets(s.db, s.next, c, id, v, gen);
    } else {
      CellRefusal(s.db, s.next, c, id, v, gen);
      RefusesSame(db, s.db, c, id, v, out.error);
    }
  }

  /** What a deferred column writes back: its resolved value. */
  ghost predicate WritesBack(nc: Named, id: string, input: map<string, Json>, a: Assign) {
    nc.column.Deferred? && nc.column.resolve(id, At0(input, nc.name)).Ok?
    && nc.column.resolve(id, At0(input, nc.name)).value != Null
    && a == AssignOf(nc.column, nc.column.resolve(id, At0(input, nc.name)).value)
  }

  lemma {:induction false} BackIs(start: Second, id: string, cells: seq<Named>, input: map<string, Json>, gen: IdSource, i: nat) returns (nc: Named)
    requires CellsOk(cells) && (forall d :: d in cells ==> d.column.Saves()) && start.back == []
    requires SecondPhase(start, id, cells, input, gen).Ok?
    requires i < |SecondPhase(start, id, cells, input, gen).value.back|
    ensures nc in cells && WritesBack(nc, id, input, SecondPhase(start, id, cells, input, gen).value.back[i])
  {
    var init, last := cells[..|cells| - 1], cells[|cells| - 1];
    assert last in cells && forall d :: d in init ==> d in cells;
    if i < |SecondPhase(start, id, init, input, gen).value.back| {
      nc := BackIs(start, id, init, input, gen, i);
    } else {
      nc := last;
      LastBack(SecondPhase(start, id, init, input, gen).value, id, nc, input, gen);
    }
  }

  lemma LastBack(s: Second, id: string, nc: Named, input: map<string, Json>, gen: IdSource)
    requires CellOk(nc.column) && nc.column.Saves() && SecondSave(s, id, nc, input, gen).Ok?
    ensures var r := Record(s, nc, SecondSave(s, id, nc, input, gen).value);
      && s.back <= r.back && |r.back| <= |s.back| + 1
      && (|r.back| > |s.back| ==> WritesBack(nc, id, input, r.back[|s.back|]))
  {}

  // --- grouped side tables -----------------------------------------------------------------------

  lemma {:induction false} GroupRefusal(db: Db, id: string, cells: seq<Named>, input: map<string, Json>, tables: seq<KeyedTable>)
    requires id in db.main && DistinctTables(tables)
    requires WriteGroups(db, id, cells, input, tables).Err?
    ensures WriteGroups(db, id, cells, input, tables).error == NotNullViolation && tables != []
  {
    var init, kt := tables[..|tables| - 1], tables[|tables| - 1];
    var before := WriteGroups(db, id, cells, input, init);
    if before.Err? {
      GroupRefusal(db, id, cells, input, init);
    } else {
      WriteGroupsSound(db, id, cells, input, init);
      WriteManyErrors(kt, before.value.main.Keys, SideOf(before.value, kt.name), id, GroupWrites(cells, input, kt.name));
    }
  }

  lemma {:induction false} GroupedCell(cells: seq<Named>, input: map<string, Json>)
    requires GroupTables(cells, input) != []
    ensures exists nc :: nc in cells && Handled(nc, input)
  {
    var init, last := cells[..|cells| - 1], cells[|cells| - 1];
    assert cells == init + [last];
    if Handled(last, input) {
      assert last in cells;
    } else {
      GroupedCell(init, input);
      var nc :| nc in init && Handled(nc, input);
      assert nc in cells;
    }
  }

  // --- one update ----------------------------------------------------------------------------------

  /** One sent field is the reason: the server refuses what its column is assigned, or
      what its resolver gave, or its cell declines the value. */
  ghost predicate FieldRefuses(db: Db, nc: Named, id: string, input: map<string, Json>, e: Failure) {
    || (Planned(nc, input) && AdmitOf(nc.column)(AssignParse(nc.column, input[nc.name]).value.stored) == Err(e))
    || (InSecond(nc, input) && CellRefuses(db, nc.column, id, At0(input, nc.name), e))
    || (InSecond(nc, input) && nc.column.Deferred? && nc.column.resolve(id, input[nc.name]).Ok? && nc.column.resolve(id, input[nc.name]).value != Null
        && AdmitOf(nc.column)(SqlText(StringOf(nc.column.resolve(id, input[nc.name]).value))) == Err(e))
  }

  /** The server refuses what some deferred column writes back. */
  ghost predicate BackRefused(cells: seq<Named>, id: string, input: map<string, Json>, e: Failure) {
    exists nc, a: Assign :: nc in cells && WritesBack(nc, id, input, a) && a.admit(a.value) == Err(e)
  }

  lemma GroupsRefusal(start: Second, id: string, cells: seq<Named>, input: map<string, Json>)
    requires id in start.db.main && DistinctTables(GroupTables(cells, input))
    requires WriteGroups(start.db, id, cells, input, GroupTables(cells, input)).Err?
    ensures Declines(start.db, cells, id, input, WriteGroups(start.db, id, cells, input, GroupTables(cells, input)).error)
  {
    GroupRefusal(start.db, id, cells, input, GroupTables(cells, input));
    GroupedCell(cells, input);
  }

  /** Where a save stopped. */
  ghost predicate StoppedAt(start: Second, id: string, cells: seq<Named>, input: map<string, Json>, clock: Clock, gen: IdSource, e: Failure)
    requires CellsOk(cells)
  {
    var s := SecondPhase(start, id, cells, input, gen);
    if s.Err? then e == s.error else UpdateIfAny(s.value.db, id, s.value.back, clock) == Err(e)
  }

  lemma FinishStops(start: Second, id: string, cells: seq<Named>, input: map<string, Json>, clock: Clock, gen: IdSource, grouped: Db)
    requires CellsOk(cells) && WriteGroups(start.db, id, cells, input, GroupTables(cells, input)) == Ok(grouped)
    requires Finish(start, id, cells, input, clock, gen).Err?
    ensures StoppedAt(start.(db := grouped), id, cells, input, clock, gen, Finish(start, id, cells, input, clock, gen).error)
  {}

  lemma GroupedTargets(start: Second, id: string, cells: seq<Named>, input: map<string, Json>, grouped: Db)
    requires GroupsWritten(start.db, id, cells, input, GroupTables(cells, input), grouped)
    ensures SameTargets(start.db, grouped) && grouped.main == start.db.main
  {}

  lemma FinishRefusal(start: Second, id: string, cells: seq<Named>, input: map<string, Json>, clock: Clock, gen: IdSource)
    requires StartOk(start, cells, input, gen) && id in start.db.main && start.back == []
    requires Finish(start, id, cells, input, clock, gen).Err?
    ensures var e := Finish(start, id, cells, input, clock, gen).error; Declines(start.db, cells, id, input, e) || BackRefused(cells, id, input, e)
  {
    GroupTablesDistinct(cells, input);
    var grouped := WriteGroups(start.db, id, cells, input, GroupTables(cells, input));
    if grouped.Err? {
      GroupsRefusal(start, id, cells, input);
    } else {
      WriteGroupsSound(start.db, id, cells, input, GroupTables(cells, input));
      GroupedStart(start, id, cells, input, gen, grouped.value);
      GroupedTargets(start, id, cells, input, grouped.value);
      FinishStops(start, id, cells, input, clock, gen, grouped.value);
      PhasesRefusal(start.(db := grouped.value), start.db, id, cells, input, clock, gen, Finish(start, id, cells, input, clock, gen).error);
    }
  }

  lemma PhasesRefusal(start: Second, db: Db, id: string, cells: seq<Named>, input: map<string, Json>, clock: Clock, gen: IdSource, e: Failure)
    requires StartOk(start, cells, input, gen) && id in start.db.main && start.back == [] && SameTargets(db, start.db)
    requires StoppedAt(start, id, cells, input, clock, gen, e)
    ensures Declines(db, cells, id, input, e) || BackRefused(cells, id, input, e)
  {
    PhaseRefusal(start, id, cells, input, gen);
    var s := SecondPhase(start, id, cells, input, gen);
    if s.Err? {
      var nc :| nc in cells && CellRefuses(start.db, nc.column, id, At0(input, nc.name), e);
      RefusesSame(db, start.db, nc.column, id, At0(input, nc.name), e);
    } else {
      EvaluateRefused(s.value.back);
      var i :| 0 <= i < |s.value.back| && s.value.back[i].admit(s.value.back[i].value) == Err(e);
      var nc := BackIs(start, id, cells, input, gen, i);
    }
  }

  ghost predicate PlansTo(nc: Named, input: map<string, Json>, a: Assign) {
    Planned(nc, input) && a == PlannedAssign(nc, input)
  }

  lemma {:induction false} PlanIs(cols: seq<Named>, input: map<string, Json>, i: nat) returns (nc: Named)
    requires i < |Assignments(cols, input).assigns|
    ensures nc in cols && PlansTo(nc, input, Assignments(cols, input).assigns[i])
  {
    var init, before := cols[..|cols| - 1], Assignments(cols[..|cols| - 1], input).assigns;
    if i < |before| {
      nc := PlanIs(init, input, i);
    } else {
      nc := cols[|cols| - 1];
    }
  }

  lemma PlanRefusal(t: Table, db: Db, id: string, input: map<string, Json>, clock: Clock)
    requires UpdateIfAny(db, id, Assignments(t.cols, input).assigns, clock).Err?
    ensures exists nc :: nc in t.cols && FieldRefuses(db, nc, id, input, UpdateIfAny(db, id, Assignments(t.cols, input).assigns, clock).error)
  {
    var assigns := Assignments(t.cols, input).assigns;
    EvaluateRefused(assigns);
    var i :| 0 <= i < |assigns| && assigns[i].admit(assigns[i].value) == Err(Evaluate(assigns).error);
    var nc := PlanIs(t.cols, input, i);
  }

  /** An update of a missing row is refused as not found. Any other is refused for the
      value of some sent field: for a NOT NULL column of a side table, for a value the
      server does not take, sent or resolved, for a relation id of another type or
      without a row, or by the application's own resolver; a child element's id is never
      the reason. */
  lemma UpdateRefusal(t: Table, clock: Clock, render: Render, db: Db, next: nat, id: string, input: map<string, Json>, gen: IdSource)
    requires Bookkept(t, clock) && Sound(db, gen, next)
    requires SaveUpdate(t, clock, render, db, next, id, input, gen).Err?
    ensures var e := SaveUpdate(t, clock, render, db, next, id, input, gen).error;
      if id !in db.main then e == NotFound else exists nc :: nc in t.cols && FieldRefuses(db, nc, id, input, e)
  {
    if id in db.main {
      DeferredOk(t.cols, input);
      var plan, cells := Assignments(t.cols, input), DeferredCells(t.cols, input);
      if UpdateIfAny(db, id, plan.assigns, clock).Err? {
        PlanRefusal(t, db, id, input, clock);
      } else {
        var db1 := UpdateIfAny(db, id, plan.assigns, clock).value;
        UpdateRow(db, id, plan.assigns, clock);
        UpdateStartOk(t, clock, db1, next, input, gen);
        var start := UpdateStart(t, clock, db1, next, input);
        FinishRefusal(start, id, cells, input, clock, gen);
        FieldIsReason(t, db, db1, id, cells, input, Finish(start, id, cells, input, clock, gen).error);
      }
    }
  }

  lemma FieldIsReason(t: Table, db: Db, db1: Db, id: string, cells: seq<Named>, input: map<string, Json>, e: Failure)
    requires forall nc :: nc in cells ==> nc in t.cols && InSecond(nc, input)
    requires db1.rels == db.rels
    requires Declines(db1, cells, id, input, e) || BackRefused(cells, id, input, e)
    ensures exists nc :: nc in t.cols && FieldRefuses(db, nc, id, input, e)
  {
    if nc :| nc in cells && CellRefuses(db1, nc.column, id, At0(input, nc.name), e) {
      RefusesSame(db, db1, nc.column, id, At0(input, nc.name), e);
      assert FieldRefuses(db, nc, id, input, e);
    } else {
      var nc, a: Assign :| nc in cells && WritesBack(nc, id, input, a) && a.admit(a.value) == Err(e);
      assert FieldRefuses(db, nc, id, input, e);
    }
  }
}
