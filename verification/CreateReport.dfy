/** What the listener is told of a create: when a field is listed twice. */
module CreateReport {
  import opened Values
  import opened Columns
  import opened ChildTables
  import opened RelsTables
  import opened Database
  import opened StoreSpec
  import opened PlanLaws
  import opened StoreLaws
  import opened UpdateTruth

  /** Whether the save of a cell has something to report. */
  predicate WillRecord(c: Column, id: string, v: Json) {
    match c
    case KeyedStrings(_, _, _) => v.Obj?
    case Child(ct, _) => if ct.partitioned then v.Obj? else v.Arr?
    case Rels(_, _, _) => v.Arr?
    case DeferredList(_, _) => v.Arr?
    case Deferred(_, resolve, _) => resolve(id, v).Ok? && resolve(id, v).value != Null
    case _ => false
  }

  lemma {:induction false} EchoIsRecorded(db: Db, next: nat, c: Column, id: string, v: Json, gen: IdSource)
    requires CellOk(c) && CellSave(db, next, c, id, v, gen).Ok?
    ensures CellSave(db, next, c, id, v, gen).value.echo != Null <==> WillRecord(c, id, v)
    decreases c
  {
    if c.DeferredList? {
      ListRecords(c.list, id, v);
      if v.Arr? {
        ListRecords(c.list, id, Arr(ResolveAll(c.resolve, id, v.items).value));
        EchoIsRecorded(db, next, c.list, id, Arr(ResolveAll(c.resolve, id, v.items).value), gen);
      } else {
        EchoIsRecorded(db, next, c.list, id, v, gen);
      }
    }
  }

  lemma ListRecords(c: Column, id: string, v: Json)
    requires IsList(c)
    ensures WillRecord(c, id, v) <==> v.Arr?
  {}

  ghost predicate ToRecord(nc: Named, id: string, input: map<string, Json>) {
    nc.name in input && WillRecord(nc.column, id, input[nc.name])
  }

  /** The names the second phase reports, in order. */
  ghost function Recorded(id: string, cells: seq<Named>, input: map<string, Json>): seq<string> {
    if cells == [] then []
    else Recorded(id, cells[..|cells| - 1], input) + (if ToRecord(cells[|cells| - 1], id, input) then [cells[|cells| - 1].name] else [])
  }

  lemma {:induction false} RecordedMembers(id: string, cells: seq<Named>, input: map<string, Json>, n: string)
    requires DistinctNames(cells)
    ensures n in Recorded(id, cells, input) <==> exists nc :: nc in cells && nc.name == n && ToRecord(nc, id, input)
    ensures NoRepeats(Recorded(id, cells, input))
  {
    if cells != [] {
      var init, last := cells[..|cells| - 1], cells[|cells| - 1];
      assert cells == init + [last];
      RecordedMembers(id, init, input, n);
      RecordedMembers(id, init, input, last.name);
      assert last.name !in Recorded(id, init, input);
      assert forall nc :: nc in cells <==> nc in init || nc == last;
    }
  }

  lemma {:induction false} ChangedIs(start: Second, id: string, cells: seq<Named>, input: map<string, Json>, gen: IdSource)
    requires CellsOk(cells) && forall nc :: nc in cells ==> nc.name in input
    requires SecondPhase(start, id, cells, input, gen).Ok?
    ensures SecondPhase(start, id, cells, input, gen).value.changed == start.changed + Recorded(id, cells, input)
  {
    if cells != [] {
      var init, nc := cells[..|cells| - 1], cells[|cells| - 1];
      assert nc in cells;
      ChangedIs(start, id, init, input, gen);
      var s := SecondPhase(start, id, init, input, gen).value;
      if !Handled(nc, input) { EchoIsRecorded(s.db, s.next, nc.column, id, input[nc.name], gen); }
    }
  }

  lemma {:induction false} MergedNames(changes: seq<Change>, p: Plan, n: string)
    requires NoRepeats(p.changed) && forall k :: k in p.changed <==> k in p.newVals
    ensures n in MergeHook(changes, p).newVals <==> n in p.newVals || exists c :: c in changes && c.field == n
    ensures NoRepeats(MergeHook(changes, p).changed)
    ensures forall k :: k in MergeHook(changes, p).changed <==> k in MergeHook(changes, p).newVals
  {
    if changes != [] {
      var init, last := changes[..|changes| - 1], changes[|changes| - 1];
      assert changes == init + [last];
      MergedNames(init, p, n);
      assert forall c :: c in changes <==> c in init || c == last;
    }
  }

  lemma Appended(a: seq<string>, b: seq<string>)
    requires NoRepeats(a) && NoRepeats(b)
    ensures NoRepeats(a + b) <==> forall n :: n in b ==> n !in a
  {
    var c := a + b;
    if NoRepeats(c) {
      forall n | n in b ensures n !in a {
        var j :| 0 <= j < |b| && b[j] == n;
        forall i | 0 <= i < |a| ensures a[i] != n { assert c[i] != c[|a| + j]; }
      }
    } else {
      var i, j :| 0 <= i < j < |c| && c[i] == c[j];
      assert i < |a| <= j;
      assert b[j - |a|] in b && a[i] in a;
    }
  }

  /** The hook reports a field whose save has something to report too. */
  ghost predicate Collides(t: Table, hook: Hook, input: map<string, Json>, c: Change, nc: Named)
    requires hook.Inserts?
  {
    c in hook.changes && nc in t.cols && InSecond(nc, input) && nc.name == c.field && ToRecord(nc, hook.id, input)
  }

  /** A create lists a field twice exactly when its hook reports a field that the
      payload's second phase reports as well. */
  lemma CreateReportsOnce(t: Table, clock: Clock, hook: Hook, db: Db, next: nat, input: map<string, Json>, gen: IdSource)
    requires WellDeclared(t) && hook.Inserts?
    requires SaveCreate(t, clock, hook, db, next, input, gen).Ok?
    ensures var out := SaveCreate(t, clock, hook, db, next, input, gen).value;
      && out.report.Some?
      && ((forall i, j :: 0 <= i < j < |out.report.value| ==> out.report.value[i].field != out.report.value[j].field)
          <==> !exists c, nc :: Collides(t, hook, input, c, nc))
  {
    DeferredOk(t.cols, input);
    DeferredDistinct(t.cols, input);
    var plan, recorded := Assignments(t.cols, input), Recorded(hook.id, DeferredCells(t.cols, input), input);
    forall k ensures k in plan.changed <==> k in plan.newVals { PlanNames(t.cols, input, k); }
    PlanNames(t.cols, input, "");
    MergedNames(hook.changes, plan, "");
    RecordedMembers(hook.id, DeferredCells(t.cols, input), input, "");
    Appended(MergeHook(hook.changes, plan).changed, recorded);
    CollisionIs(t, hook, input, recorded);
    CreateLists(t, clock, hook, db, next, input, gen);
  }

  /** The fields a create lists: those of the merged report, then those of the second
      phase. */
  lemma CreateLists(t: Table, clock: Clock, hook: Hook, db: Db, next: nat, input: map<string, Json>, gen: IdSource)
    requires WellDeclared(t) && hook.Inserts?
    requires SaveCreate(t, clock, hook, db, next, input, gen).Ok?
    ensures SaveCreate(t, clock, hook, db, next, input, gen).value.report.Some?
    ensures var report := SaveCreate(t, clock, hook, db, next, input, gen).value.report.value;
      NoRepeats(MergeHook(hook.changes, Assignments(t.cols, input)).changed + Recorded(hook.id, DeferredCells(t.cols, input), input))
      <==> forall i, j :: 0 <= i < j < |report| ==> report[i].field != report[j].field
  {
    DeferredOk(t.cols, input);
    var cells, merged := DeferredCells(t.cols, input), MergeHook(hook.changes, Assignments(t.cols, input));
    var start := Second(db.(main := db.main[hook.id := hook.row]), next, merged.changed, merged.newVals, merged.assigns);
    var grouped := WriteGroups(start.db, hook.id, cells, input, GroupTables(cells, input)).value;
    ChangedIs(start.(db := grouped), hook.id, cells, input, gen);
    ReportedFields(merged.changed + Recorded(hook.id, cells, input), SaveCreate(t, clock, hook, db, next, input, gen).value.report.value);
  }

  lemma ReportedFields(changed: seq<string>, report: seq<Change>)
    requires |report| == |changed| && forall i :: 0 <= i < |changed| ==> report[i].field == changed[i]
    ensures NoRepeats(changed) <==> forall i, j :: 0 <= i < j < |report| ==> report[i].field != report[j].field
  {}

  lemma CollisionIs(t: Table, hook: Hook, input: map<string, Json>, recorded: seq<string>)
    requires WellDeclared(t) && hook.Inserts?
    requires recorded == Recorded(hook.id, DeferredCells(t.cols, input), input)
    ensures (forall n :: n in recorded ==> n !in MergeHook(hook.changes, Assignments(t.cols, input)).changed)
       <==> !exists c, nc :: Collides(t, hook, input, c, nc)
  {
    DeferredOk(t.cols, input);
    DeferredDistinct(t.cols, input);
    var plan := Assignments(t.cols, input);
    forall k ensures k in plan.changed <==> k in plan.newVals { PlanNames(t.cols, input, k); }
    PlanNames(t.cols, input, "");
    forall n ensures n in recorded <==> exists nc :: nc in t.cols && InSecond(nc, input) && nc.name == n && ToRecord(nc, hook.id, input) {
      RecordedMembers(hook.id, DeferredCells(t.cols, input), input, n);
    }
    forall n | n in recorded
      ensures n in MergeHook(hook.changes, plan).changed <==> exists c :: c in hook.changes && c.field == n
    {
      MergedNames(hook.changes, plan, n);
      var nc :| nc in t.cols && InSecond(nc, input) && nc.name == n && ToRecord(nc, hook.id, input);
      PlanAt(t.cols, input, nc);
    }
    if c, nc :| Collides(t, hook, input, c, nc) {
      assert c.field in recorded;
    }
    if n :| n in recorded && n in MergeHook(hook.changes, plan).changed {
      var c :| c in hook.changes && c.field == n;
      var nc :| nc in t.cols && InSecond(nc, input) && nc.name == n && ToRecord(nc, hook.id, input);
      assert Collides(t, hook, input, c, nc);
    }
  }

  /** It does happen: a hook that reports the relation field it was sent, over a table
      with just that field. */
  lemma HookReportsTwice(clock: Clock, name: string, c: Column, id: string, row: Row, now: Json, db: Db, next: nat, gen: IdSource)
    requires c.Rels? && id !in db.main
    ensures var t, hook, input := Table("id", [Named(name, c)]), Inserts(id, row, [Change(name, Null, now)]), map[name := Arr([])];
      && CellsOk(t.cols)
      && var out := SaveCreate(t, clock, hook, db, next, input, gen);
        && out.Ok? && out.value.report.Some?
        && exists i, j :: 0 <= i < j < |out.value.report.value| && out.value.report.value[i].field == out.value.report.value[j].field
  {
    var nc, change := Named(name, c), Change(name, Null, now);
    var t, hook, input := Table("id", [nc]), Inserts(id, row, [change]), map[name := Arr([])];
    DeferredOk(t.cols, input);
    assert t.cols[..0] == [] && hook.changes[..0] == [];
    assert Assignments(t.cols, input) == Plan([], [], map[]);
    assert DeferredCells(t.cols, input) == [nc];
    var start := Second(db.(main := db.main[id := row]), next, [name], map[name := now], []);
    assert MergeHook(hook.changes, Plan([], [], map[])) == Plan([], [name], map[name := now]);
    OneRelsCell(start, id, nc, input, clock, gen);
    assert Collides(t, hook, input, change, nc);
    CreateReportsOnce(t, clock, hook, db, next, input, gen);
  }

  lemma OneRelsCell(start: Second, id: string, nc: Named, input: map<string, Json>, clock: Clock, gen: IdSource)
    requires nc.column.Rels? && input == map[nc.name := Arr([])] && start.back == []
    ensures CellsOk([nc]) && Finish(start, id, [nc], input, clock, gen).Ok?
  {
    assert [nc][..0] == [];
    assert GroupTables([nc], input) == [];
    assert IdSlice([]) == [];
    var x := SecondSave(start, id, nc, input, gen);
    assert x.Ok?;
    assert SecondPhase(start, id, [], input, gen) == Ok(start);
    assert SecondPhase(start, id, [nc], input, gen) == Ok(Record(start, nc, x.value));
  }
}
