/** The store itself: one transaction per save, committed or rolled back. */
module Store {
  import opened Values
  import opened Columns
  import opened ChildTables
  import opened ChildLaws
  import opened ChildTheorems
  import opened ListLaws
  import opened Database
  import opened StoreSpec
  import opened PlanLaws
  import opened StoreLaws
  import opened Transaction
  import opened CellStore
  import opened RowReads
  import opened Stores
  import opened Runs
  import opened DeleteLaws

  /** What OnWrite is told after a commit. */
  datatype Report = Report(id: string, changes: seq<Change>, created: bool)

  /** Identifiers once drawn are never returned, even by a rollback. */
  function Later(a: nat, b: nat): nat {
    if a <= b then b else a
  }

  /** mergeHookChanges. */
  method MergeInto(changes: seq<Change>, plan: Plan) returns (merged: Plan)
    ensures merged == MergeHook(changes, plan)
  {
    var changed, newVals := plan.changed, plan.newVals;
    for i := 0 to |changes|
      invariant plan.(changed := changed, newVals := newVals) == MergeHook(changes[..i], plan)
    {
      assert changes[..i + 1][..i] == changes[..i];
      var c := changes[i];
      if c.field !in newVals {
        changed := changed + [c.field];
        newVals := newVals[c.field := c.now];
      }
    }
    assert changes[..|changes|] == changes;
    merged := plan.(changed := changed, newVals := newVals);
  }

  /** What a save must come to: an update with an id, a create without. */
  ghost function Expected(t: Table, clock: Clock, render: Render, db: Db, next: nat, id: Option<string>, hook: Hook, input: map<string, Json>, gen: IdSource): Result<Outcome>
    requires CellsOk(t.cols)
  {
    match id
    case Some(i) => SaveUpdate(t, clock, render, db, next, i, input, gen)
    case None => SaveCreate(t, clock, hook, db, next, input, gen)
  }

  /** A call of Save as a step of a run. */
  function CallOf(id: Option<string>, hook: Hook, input: map<string, Json>): Op {
    match id
    case Some(i) => Update(i, input)
    case None => Create(hook, input)
  }

  lemma CallStep(t: Table, clock: Clock, render: Render, restrict: set<string>, gen: IdSource, w: World, id: Option<string>, hook: Hook, input: map<string, Json>, o: Outcome)
    requires CellsOk(t.cols)
    requires Expected(t, clock, render, w.db, w.next, id, hook, input, gen) == Ok(o)
    ensures Step(t, clock, render, restrict, gen, w, CallOf(id, hook, input)) == World(o.db, o.next)
  {}

  /** Without a report nothing was written, and the commit is not reached. */
  lemma NothingWritten(t: Table, clock: Clock, render: Render, db: Db, next: nat, id: Option<string>, hook: Hook, input: map<string, Json>, gen: IdSource, o: Outcome)
    requires CellsOk(t.cols)
    requires Expected(t, clock, render, db, next, id, hook, input, gen) == Ok(o)
    ensures o.report.None? ==> o.db == db && o.next == next
  {}

  lemma AllNames(cols: seq<Named>)
    ensures |NamesOf(cols)| == |cols|
    ensures forall k :: k in NamesOf(cols) <==> k in Names(cols)
  {
    var keys := NamesOf(cols);
    forall k | k in Names(cols) ensures k in keys {
      var i :| 0 <= i < |cols| && cols[i].name == k;
      assert keys[i] == k;
    }
  }

  lemma LoadIsRow(t: Table, db: Db, id: string, keys: seq<string>)
    requires CellsOk(t.cols) && id in db.main
    requires forall k :: k in keys <==> k in Names(t.cols)
    ensures Load(t, db, id) == Some(RowOf(t, db, id, keys))
  {
    assert Load(t, db, id).value == RowOf(t, db, id, keys);
  }

  class Store {
    const t: Table
    const clock: Clock
    const render: Render
    const gen: IdSource
    /** The side, child and relation tables whose foreign key restricts a delete. */
    const restrict: set<string>
    var db: Db
    var next: nat
    var reports: seq<Report>
    /** Where this store began, and the calls since. */
    ghost const begin: World
    ghost var history: seq<Op>

    constructor (t: Table, clock: Clock, render: Render, gen: IdSource, restrict: set<string>, db: Db, next: nat)
      requires WellDeclared(t) && AllDeclared(db, t.cols) && Sound(db, gen, next)
      ensures Valid()
      ensures this.t == t && this.clock == clock && this.render == render && this.gen == gen && this.restrict == restrict
      ensures this.db == db && this.next == next && reports == []
      ensures begin == World(db, next) && history == []
    {
      this.t, this.clock, this.render, this.gen, this.restrict := t, clock, render, gen, restrict;
      this.db, this.next, this.reports := db, next, [];
      this.begin, this.history := World(db, next), [];
    }

    /** The declaration is one the constructors allow, and its tables exist. */
    ghost predicate Ready()
      reads this
    {
      WellDeclared(t) && AllDeclared(db, t.cols)
    }

    /** Moreover the state is what a run of the calls so far leaves. */
    ghost predicate Valid()
      reads this
    {
      && Ready()
      && Sound(begin.db, gen, begin.next)
      && World(db, next) == Run(t, clock, render, restrict, gen, begin, history)
    }

    /** So it keeps what every statement keeps. */
    lemma StaysSound()
      requires Valid()
      ensures Sound(db, gen, next)
    {
      RunSound(t, clock, render, restrict, gen, begin, history);
    }

    /** One more step. */
    ghost method Recall(op: Op)
      requires Ready() && Sound(begin.db, gen, begin.next)
      requires World(db, next) == Step(t, clock, render, restrict, gen, Run(t, clock, render, restrict, gen, begin, history), op)
      modifies this`history
      ensures Valid() && history == old(history) + [op]
    {
      RunSnoc(t, clock, render, restrict, gen, begin, history, op);
      history := history + [op];
    }

    /** A call that failed: only the identifiers it drew are gone. */
    method Abandon(drawn: nat)
      requires Valid()
      modifies this`next, this`history
      ensures Valid()
      ensures next == Later(old(next), drawn) && history == old(history) + [Refused(next - old(next))]
    {
      ghost var next0 := next;
      next := Later(next, drawn);
      Recall(Refused(next - next0));
    }

    /** A call that went through. */
    method Settle(committed: Db, drawn: nat, ghost id: Option<string>, ghost hook: Hook, ghost input: map<string, Json>, ghost o: Outcome)
      requires Valid() && AllDeclared(committed, t.cols)
      requires Expected(t, clock, render, db, next, id, hook, input, gen) == Ok(o) && o.db == committed && o.next == drawn
      modifies this`db, this`next, this`history
      ensures Valid() && db == committed && next == drawn
      ensures history == old(history) + [CallOf(id, hook, input)]
    {
      CallStep(t, clock, render, restrict, gen, World(db, next), id, hook, input, o);
      db, next := committed, drawn;
      Recall(CallOf(id, hook, input));
    }

    /** Store.Load: every declared field, or no row. */
    method LoadRow(id: string, faults: nat -> bool) returns (r: Result<Option<map<string, Json>>>)
      requires Ready() && t.cols != []
      ensures match r
        case Ok(m) => m == Load(t, db, id)
        case Err(e) => e == Unavailable && exists k :: faults(k)
    {
      var tx := new Tx(db, next, gen, faults);
      var keys := NamesOf(t.cols);
      AllNames(t.cols);
      r := ReadRow(tx, t, keys, id);
      if r.Ok? && r.value.Some? { LoadIsRow(t, db, id, keys); }
    }

    /** The steps of an update on the open transaction. */
    method Updating(tx: Tx, id: string, input: map<string, Json>) returns (r: Result<Option<seq<Change>>>)
      requires Ready() && tx.db == db && tx.next == next && tx.gen == gen
      modifies tx
      ensures old(tx.steps) <= tx.steps
      ensures r.Ok? ==> AllDeclared(tx.db, t.cols)
      ensures match r
        case Ok(report) => SaveUpdate(t, clock, render, db, next, id, input, gen) == Ok(Outcome(tx.db, tx.next, id, report))
        case Err(e) => (e == Unavailable && tx.Faulted(old(tx.steps))) || SaveUpdate(t, clock, render, db, next, id, input, gen) == Err(e)
    {
      var cells := DeferredFor(t.cols, input);
      var plan := PlanFor(t.cols, input);
      DeferredOk(t.cols, input);
      if plan.assigns == [] && cells == [] {
        var found := Exists(tx, id);
        if found.Err? { return Err(found.error); }
        return if found.value then Ok(None) else Err(NotFound);
      }
      var keys := plan.changed + NamesOf(cells);
      KeysDeclared(input, plan, cells);
      var row := ReadRow(tx, t, keys, id);
      if row.Err? { return Err(row.error); }
      if row.value.None? { return Err(NotFound); }
      var done := WriteRow(tx, id, input, plan, cells);
      if done.Err? { return Err(done.error); }
      return Ok(Some(Diff(render, done.value.changed, row.value.value, done.value.newVals)));
    }

    /** Both phases of an update. */
    method WriteRow(tx: Tx, id: string, input: map<string, Json>, plan: Plan, cells: seq<Named>) returns (r: Result<Plan>)
      requires Ready() && tx.db == db && tx.next == next && tx.gen == gen
      requires plan == Assignments(t.cols, input) && cells == DeferredCells(t.cols, input) && CellsOk(cells)
      modifies tx
      ensures old(tx.steps) <= tx.steps
      ensures r.Ok? ==> AllDeclared(tx.db, t.cols)
      ensures var first := UpdateIfAny(db, id, plan.assigns, clock);
        match r
        case Ok(p) =>
          && first.Ok?
          && Finish(Second(first.value, next, plan.changed, plan.newVals, []), id, cells, input, clock, gen) == Ok(Second(tx.db, tx.next, p.changed, p.newVals, p.assigns))
        case Err(e) =>
          || (e == Unavailable && tx.Faulted(old(tx.steps)))
          || first == Err(e)
          || (first.Ok? && Finish(Second(first.value, next, plan.changed, plan.newVals, []), id, cells, input, clock, gen) == Err(e))
    {
      var s := SetIfAny(tx, id, plan.assigns, clock, t.cols);
      if s.Err? { return Err(s.error); }
      r := FinishSave(tx, t, clock, id, cells, input, plan, []);
    }

    /** The fields read before an update are declared, and there is at least one. */
    lemma KeysDeclared(input: map<string, Json>, plan: Plan, cells: seq<Named>)
      requires WellDeclared(t)
      requires plan == Assignments(t.cols, input) && cells == DeferredCells(t.cols, input)
      requires plan.assigns != [] || cells != []
      ensures plan.changed + NamesOf(cells) != []
      ensures forall k :: k in plan.changed + NamesOf(cells) ==> k in Names(t.cols)
    {
      DeferredOk(t.cols, input);
      PlanNames(t.cols, input, "");
      forall k | k in plan.changed ensures k in Names(t.cols) {
        PlanNames(t.cols, input, k);
      }
      forall k | k in NamesOf(cells) ensures k in Names(t.cols) {
        var i :| 0 <= i < |cells| && cells[i].name == k;
        assert cells[i] in t.cols;
      }
    }

    /** The steps of a create on the open transaction. */
    method Creating(tx: Tx, hook: Hook, input: map<string, Json>) returns (r: Result<(string, seq<Change>)>)
      requires Ready() && tx.db == db && tx.next == next && tx.gen == gen
      modifies tx
      ensures old(tx.steps) <= tx.steps
      ensures r.Ok? ==> AllDeclared(tx.db, t.cols)
      ensures match r
        case Ok(out) => SaveCreate(t, clock, hook, db, next, input, gen) == Ok(Outcome(tx.db, tx.next, out.0, Some(out.1)))
        case Err(e) => (e == Unavailable && tx.Faulted(old(tx.steps))) || SaveCreate(t, clock, hook, db, next, input, gen) == Err(e)
    {
      var cells := DeferredFor(t.cols, input);
      DeferredOk(t.cols, input);
      if hook.Fails? { return Err(HookFailure); }
      var s := tx.InsertRow(hook.id, hook.row);
      if s.Err? { return Err(s.error); }
      AllMainDeclares(db, tx.db, t.cols);
      var plan := PlanFor(t.cols, input);
      var merged := MergeInto(hook.changes, plan);
      var done := FinishSave(tx, t, clock, hook.id, cells, input, merged, merged.assigns);
      if done.Err? { return Err(done.error); }
      return Ok((hook.id, Created(done.value.changed, done.value.newVals)));
    }

    /** Everything between BEGIN and COMMIT. */
    method Attempt(tx: Tx, id: Option<string>, hook: Hook, input: map<string, Json>) returns (r: Result<(string, Option<seq<Change>>)>)
      requires Ready() && tx.db == db && tx.next == next && tx.gen == gen
      modifies tx
      ensures old(tx.steps) <= tx.steps
      ensures r.Ok? ==> AllDeclared(tx.db, t.cols)
      ensures match r
        case Ok(out) => Expected(t, clock, render, db, next, id, hook, input, gen) == Ok(Outcome(tx.db, tx.next, out.0, out.1))
        case Err(e) => (e == Unavailable && tx.Faulted(old(tx.steps))) || Expected(t, clock, render, db, next, id, hook, input, gen) == Err(e)
    {
      match id {
        case Some(i) =>
          var u := Updating(tx, i, input);
          if u.Err? { return Err(u.error); }
          return Ok((i, u.value));
        case None =>
          var c := Creating(tx, hook, input);
          if c.Err? { return Err(c.error); }
          return Ok((c.value.0, Some(c.value.1)));
      }
    }

    /** BEGIN to COMMIT on a transaction of its own; without a report there is nothing to
        commit. */
    method Transact(id: Option<string>, hook: Hook, input: map<string, Json>, faults: nat -> bool) returns (r: Result<(string, Option<seq<Change>>)>, after: Db, drawn: nat)
      requires Valid()
      ensures match r
        case Ok(out) => AllDeclared(after, t.cols) && Expected(t, clock, render, db, next, id, hook, input, gen) == Ok(Outcome(after, drawn, out.0, out.1))
        case Err(e) => Expected(t, clock, render, db, next, id, hook, input, gen) == Err(e) || (e == Unavailable && exists k :: faults(k))
    {
      after, drawn := db, next;
      var tx := new Tx(db, next, gen, faults);
      var begun := tx.Send();
      if !begun { r := Err(Unavailable); return; }
      r := Attempt(tx, id, hook, input);
      drawn := tx.next;
      if r.Err? { return; }
      if r.value.1.None? {
        NothingWritten(t, clock, render, db, next, id, hook, input, gen, Outcome(tx.db, tx.next, r.value.0, r.value.1));
        return;
      }
      var committed := tx.Send();
      if !committed { r := Err(Unavailable); return; }
      after := tx.db;
    }

    /** Store.Save: all of it is committed and then reported, or nothing is. Either way
        the run goes on by one step. */
    method Save(id: Option<string>, hook: Hook, input: map<string, Json>, faults: nat -> bool) returns (r: Result<string>)
      requires Valid()
      modifies this
      ensures Valid()
      ensures r.Err? ==> old(next) <= next && history == old(history) + [Refused(next - old(next))]
      ensures r.Ok? ==> history == old(history) + [CallOf(id, hook, input)]
      ensures var expected := Expected(t, clock, render, old(db), old(next), id, hook, input, gen);
        match r
        case Ok(out) =>
          && expected.Ok?
          && var o := expected.value;
          && out == o.id && db == o.db && next == o.next
          && reports == old(reports) + (if o.report.Some? then [Report(out, o.report.value, id.None?)] else [])
        case Err(e) =>
          && db == old(db) && reports == old(reports)
          && (expected == Err(e) || (e == Unavailable && exists k :: faults(k)))
    {
      var a, after, drawn := Transact(id, hook, input, faults);
      if a.Err? { Abandon(drawn); return Err(a.error); }
      Settle(after, drawn, id, hook, input, Outcome(after, drawn, a.value.0, a.value.1));
      if a.value.1.Some? { reports := reports + [Report(a.value.0, a.value.1.value, id.None?)]; }
      return Ok(a.value.0);
    }

    /** Store.Delete: constraint failures become the store's own error. */
    method Delete(id: string, faults: nat -> bool) returns (s: Status)
      requires Valid()
      modifies this`db, this`history
      ensures Valid()
      ensures history == old(history) + [if s.Ok? then Remove(id) else Refused(0)]
      ensures match s
        case Ok(_) => DeleteSave(old(db), id, restrict) == Ok(db) && Gone(t, old(db), id, db) && !Restricted(old(db), id, restrict)
        case Err(e) => db == old(db) && ((e == ConstraintConflict && Restricted(db, id, restrict)) || (e == Unavailable && exists k :: faults(k)))
    {
      StaysSound();
      DeleteOutcome(t, db, gen, next, id, restrict);
      var tx := new Tx(db, next, gen, faults);
      var begun := tx.Send();
      if !begun { Recall(Refused(0)); return Err(Unavailable); }
      s := tx.DeleteEntity(id, restrict);
      if s.Err? { Recall(Refused(0)); return Err(ConflictErr(s.error)); }
      var committed := tx.Send();
      if !committed { Recall(Refused(0)); return Err(Unavailable); }
      DeleteDeclares(db, id, restrict, t.cols);
      db := tx.db;
      Recall(Remove(id));
    }
  }

  lemma {:induction false} CellDeleteDeclares(db: Db, id: string, restrict: set<string>, c: Column)
    requires DeleteSave(db, id, restrict).Ok? && Declared(db, c)
    ensures Declared(DeleteSave(db, id, restrict).value, c)
  {
    if c.DeferredList? { CellDeleteDeclares(db, id, restrict, c.list); }
  }

  lemma DeleteDeclares(db: Db, id: string, restrict: set<string>, cols: seq<Named>)
    requires DeleteSave(db, id, restrict).Ok? && AllDeclared(db, cols)
    ensures AllDeclared(DeleteSave(db, id, restrict).value, cols)
  {
    forall nc | nc in cols ensures Declared(DeleteSave(db, id, restrict).value, nc.column) {
      CellDeleteDeclares(db, id, restrict, nc.column);
    }
  }

  /** Whatever calls a store has taken since it began over empty child tables, every
      partition is numbered 1..n, with distinct ids. */
  lemma StoreNumbered(s: Store, ct: ChildTable, p: string, k: string)
    requires s.Valid() && Declares(s.t, ct)
    requires ChildOf(s.begin.db, ct.name).rows == map[] && RightKey(ct, k)
    ensures GapFree(ct, ChildOf(s.db, ct.name).rows, p, k) && Distinct(Ids(ct, ChildOf(s.db, ct.name), p, k))
  {
    ReachableNumbered(s.t, s.clock, s.render, s.restrict, s.gen, ct, s.begin, s.history, p, k);
  }
}
