/** The statements of adapter/erjet/child.go, object elements: reconcile one partition. */
module ChildSave {
  import opened Values
  import opened Ordering
  import opened SideTables
  import opened Columns
  import opened ChildTables
  import opened Database
  import opened Transaction
  import opened KeyedSave

  /** The nested side tables of an element exist. */
  ghost predicate NestedDeclared(db: Db, ct: ChildTable, inner: Table) {
    && ct.name in db.childs
    && (forall nc :: nc in inner.cols && nc.column.KeyedStrings? ==> nc.column.side.name in db.childs[ct.name].nested)
  }

  lemma PutChildSame(db: Db, table: string)
    requires table in db.childs
    ensures PutChild(db, table, ChildOf(db, table)) == db
  {}

  lemma PutChildAgain(db: Db, table: string, d: ChildDb, e: ChildDb)
    ensures PutChild(PutChild(db, table, d), table, e) == PutChild(db, table, e)
    ensures ChildOf(PutChild(db, table, d), table) == d
  {}

  /** ownedIDs: the ids of the selected rows. */
  method OwnedIds(tx: Tx, ct: ChildTable, parent: string, key: string) returns (r: Result<set<string>>)
    modifies tx`steps
    ensures old(tx.steps) <= tx.steps
    ensures match r
      case Ok(ids) => ids == Owned(ct, ChildOf(tx.db, ct.name).rows, parent, key)
      case Err(e) => e == Unavailable && tx.Faulted(old(tx.steps))
  {
    var q := tx.SelectIds(ct, parent, key);
    if q.Err? { return Err(q.error); }
    var slots, ids: set<string> := q.value, {};
    for i := 0 to |slots|
      invariant forall id :: id in ids <==> id != "" && exists j :: 0 <= j < i && slots[j].id == id
    {
      if slots[i].id != "" { ids := ids + {slots[i].id}; }
    }
    SelectedAreOwned(ct, ChildOf(tx.db, ct.name).rows, parent, key, slots, ids);
    return Ok(ids);
  }

  lemma SelectedAreOwned(ct: ChildTable, rows: map<string, ChildRow>, parent: string, key: string, slots: seq<Slot>, ids: set<string>)
    requires slots == Select(ct, rows, parent, key)
    requires forall id :: id in ids <==> id != "" && exists j :: 0 <= j < |slots| && slots[j].id == id
    ensures ids == Owned(ct, rows, parent, key)
  {
    forall id ensures id in ids <==> id in Owned(ct, rows, parent, key) {
      if id in Owned(ct, rows, parent, key) {
        assert Slot(rows[id].order, id) in Elems(slots);
        var j :| 0 <= j < |slots| && slots[j] == Slot(rows[id].order, id);
        assert slots[j].id == id;
      }
      if id in ids {
        var j :| 0 <= j < |slots| && slots[j].id == id;
        assert slots[j] in Elems(slots);
      }
    }
  }

  /** resolveIDs. */
  method ResolveIds(tx: Tx, ct: ChildTable, idField: string, owned: set<string>, list: seq<Json>) returns (ids: seq<string>)
    modifies tx`next
    ensures var r := Resolve(ct, idField, owned, list, tx.gen, old(tx.next)); ids == r.ids && tx.next == r.next
  {
    ids := [];
    var used: set<string> := {};
    for i := 0 to |list|
      invariant Resolve(ct, idField, owned, list[..i], tx.gen, old(tx.next)) == Resolved(ids, used, tx.next)
    {
      assert list[..i + 1][..i] == list[..i];
      var id := "";
      if list[i].Obj? {
        id := StringAt(list[i].fields, idField);
        if id != "" && id in owned && id !in used {
          used := used + {id};
        } else if ct.hasNewID {
          id := tx.NewID();
        } else {
          id := "";
        }
      }
      ids := ids + [id];
    }
    assert list[..|list|] == list;
  }

  /** The columns of upsertRowSQL: one pass feeds INSERT and DO UPDATE. */
  method ValuesToWrite(cols: seq<Named>, item: map<string, Json>) returns (assigns: seq<Assign>)
    ensures assigns == SentAssigns(cols, item)
  {
    assigns := [];
    for i := 0 to |cols|
      invariant assigns == SentAssigns(cols[..i], item)
    {
      assert cols[..i + 1][..i] == cols[..i];
      var nc := cols[i];
      if nc.column.Scalar? && nc.name in item {
        var p := nc.column.parse(item[nc.name]);
        if p.Some? { assigns := assigns + [Assign(nc.column.col, p.value.stored, nc.column.admit)]; }
      }
    }
    assert cols[..|cols|] == cols;
  }

  lemma {:induction false} NestedSavesFails(db: ChildDb, id: string, cols: seq<Named>, item: map<string, Json>, i: nat)
    requires i <= |cols| && NestedSaves(db, id, cols[..i], item).Err?
    ensures NestedSaves(db, id, cols, item) == NestedSaves(db, id, cols[..i], item)
    decreases |cols|
  {
    if i < |cols| {
      assert cols[..|cols| - 1][..i] == cols[..i];
      NestedSavesFails(db, id, cols[..|cols| - 1], item, i);
    } else {
      assert cols[..i] == cols;
    }
  }

  lemma NestedSavesNext(db: ChildDb, id: string, cols: seq<Named>, item: map<string, Json>, i: nat)
    requires i < |cols| && NestedSaves(db, id, cols[..i], item).Ok?
    ensures NestedSaves(db, id, cols[..i + 1], item) ==
      var d := NestedSaves(db, id, cols[..i], item).value;
      if cols[i].name in item then NestedSave(d, id, cols[i].column, item[cols[i].name]) else Ok(d)
  {
    assert cols[..i + 1][..i] == cols[..i];
  }

  /** The save of one nested satellite. */
  method SaveNested(tx: Tx, ct: ChildTable, c: Column, id: string, v: Json) returns (s: Status)
    requires ct.name in tx.db.childs && (c.KeyedStrings? ==> c.side.name in tx.db.childs[ct.name].nested)
    modifies tx
    ensures tx.next == old(tx.next) && old(tx.steps) <= tx.steps
    ensures match s
      case Ok(_) =>
        var r := NestedSave(ChildOf(old(tx.db), ct.name), id, c, v);
        r.Ok? && tx.db == PutChild(old(tx.db), ct.name, r.value)
      case Err(e) => (e == Unavailable && tx.Faulted(old(tx.steps))) || NestedSave(ChildOf(old(tx.db), ct.name), id, c, v) == Err(e)
  {
    PutChildSame(tx.db, ct.name);
    if c.KeyedStrings? && v.Obj? {
      s := SaveMany(tx, c.side, OfElement(ct.name, c.side.name), id, [Write(c.col, c.clear, v.fields)]);
    } else {
      s := Ok(());
    }
  }

  lemma NestedSaveDeclared(db: ChildDb, id: string, c: Column, v: Json)
    requires NestedSave(db, id, c, v).Ok?
    ensures db.nested.Keys <= NestedSave(db, id, c, v).value.nested.Keys
  {}

  /** The second phase of one element: its satellites, in declared order. */
  method SaveSatellites(tx: Tx, ct: ChildTable, inner: Table, id: string, item: map<string, Json>) returns (s: Status)
    requires NestedDeclared(tx.db, ct, inner)
    modifies tx
    ensures tx.next == old(tx.next) && old(tx.steps) <= tx.steps
    ensures s.Ok? ==> NestedDeclared(tx.db, ct, inner)
    ensures match s
      case Ok(_) =>
        var r := NestedSaves(ChildOf(old(tx.db), ct.name), id, inner.cols, item);
        r.Ok? && tx.db == PutChild(old(tx.db), ct.name, r.value)
      case Err(e) =>
        (e == Unavailable && tx.Faulted(old(tx.steps))) || NestedSaves(ChildOf(old(tx.db), ct.name), id, inner.cols, item) == Err(e)
  {
    ghost var db0, d0 := tx.db, ChildOf(tx.db, ct.name);
    PutChildSame(db0, ct.name);
    var cols := inner.cols;
    for i := 0 to |cols|
      invariant tx.next == old(tx.next) && old(tx.steps) <= tx.steps
      invariant NestedDeclared(tx.db, ct, inner)
      invariant NestedSaves(d0, id, cols[..i], item).Ok?
      invariant tx.db == PutChild(db0, ct.name, NestedSaves(d0, id, cols[..i], item).value)
    {
      NestedSavesNext(d0, id, cols, item, i);
      if cols[i].name in item {
        ghost var d := NestedSaves(d0, id, cols[..i], item).value;
        assert cols[i] in inner.cols;
        s := SaveNested(tx, ct, cols[i].column, id, item[cols[i].name]);
        if s.Err? {
          if NestedSaves(d0, id, cols[..i + 1], item).Err? { NestedSavesFails(d0, id, cols, item, i + 1); }
          return;
        }
        NestedSaveDeclared(d, id, cols[i].column, item[cols[i].name]);
        PutChildAgain(db0, ct.name, d, NestedSaves(d0, id, cols[..i + 1], item).value);
      }
    }
    assert cols[..|cols|] == cols;
    return Ok(());
  }

  /** The progress of the write loop, seen as the state of the transaction. */
  ghost predicate Reached(tx: Tx, db0: Db, ct: ChildTable, p: Progress)
    reads tx
  {
    tx.db == PutChild(db0, ct.name, p.db) && tx.next == p.next
  }

  /** One element: its upsert, then its satellites. */
  method SaveElement(tx: Tx, ct: ChildTable, inner: Table, parent: string, key: string, pos: nat, item: map<string, Json>, rid: string, ghost before: Progress) returns (s: Status, ghost after: Progress)
    requires NestedDeclared(tx.db, ct, inner)
    requires before == Progress(ChildOf(tx.db, ct.name), tx.next, before.landed) && pos == |before.landed|
    modifies tx
    ensures old(tx.steps) <= tx.steps
    ensures s.Ok? ==> NestedDeclared(tx.db, ct, inner)
    ensures match s
      case Ok(_) => WriteRow(inner, before, parent, key, item, rid, tx.gen) == Ok(after) && Reached(tx, old(tx.db), ct, after)
      case Err(e) => (e == Unavailable && tx.Faulted(old(tx.steps))) || WriteRow(inner, before, parent, key, item, rid, tx.gen) == Err(e)
  {
    after := before;
    ghost var db0, d0 := tx.db, ChildOf(tx.db, ct.name);
    var assigns := ValuesToWrite(inner.cols, item);
    var id := rid;
    if rid != "" {
      s := tx.UpsertChild(ct, id, parent, key, pos, assigns);
    } else {
      id := tx.NewID(); // the server's default: the id column takes no part in the INSERT
      s := tx.InsertChild(ct, id, parent, key, pos, assigns);
    }
    if s.Err? { return; }
    ghost var d1 := d0.(rows := d0.rows[id := UpsertedRow(d0.rows, id, parent, key, pos, Evaluate(assigns).value)]);
    PutChildAgain(db0, ct.name, d1, d1);
    s := SaveSatellites(tx, ct, inner, id, item);
    if s.Ok? {
      after := Progress(NestedSaves(d1, id, inner.cols, item).value, tx.next, before.landed + [id]);
      PutChildAgain(db0, ct.name, d1, after.db);
    }
  }

  lemma {:induction false} WriteLoopFails(inner: Table, start: Progress, parent: string, key: string, list: seq<Json>, ids: seq<string>, gen: IdSource, i: nat)
    requires |ids| == |list| && i <= |list| && WriteLoop(inner, start, parent, key, list[..i], ids[..i], gen).Err?
    ensures WriteLoop(inner, start, parent, key, list, ids, gen) == WriteLoop(inner, start, parent, key, list[..i], ids[..i], gen)
    decreases |list|
  {
    var n := |list|;
    if i < n {
      assert list[..n - 1][..i] == list[..i] && ids[..n - 1][..i] == ids[..i];
      WriteLoopFails(inner, start, parent, key, list[..n - 1], ids[..n - 1], gen, i);
    } else {
      assert list[..i] == list && ids[..i] == ids;
    }
  }

  lemma WriteLoopNext(inner: Table, start: Progress, parent: string, key: string, list: seq<Json>, ids: seq<string>, gen: IdSource, i: nat, done: Progress)
    requires |ids| == |list| && i < |list|
    requires WriteLoop(inner, start, parent, key, list[..i], ids[..i], gen) == Ok(done)
    ensures var next := WriteNext(inner, Ok(done), parent, key, list[i], ids[i], gen);
      && WriteLoop(inner, start, parent, key, list[..i + 1], ids[..i + 1], gen) == next
      && (next.Err? ==> WriteLoop(inner, start, parent, key, list, ids, gen) == next)
  {
    assert list[..i + 1][..i] == list[..i] && ids[..i + 1][..i] == ids[..i];
    if WriteLoop(inner, start, parent, key, list[..i + 1], ids[..i + 1], gen).Err? {
      WriteLoopFails(inner, start, parent, key, list, ids, gen, i + 1);
    }
  }

  /** The next element of the write loop. */
  method NextElement(tx: Tx, ct: ChildTable, inner: Table, parent: string, key: string, pos: nat, item: map<string, Json>, rid: string, ghost db0: Db, ghost done: Progress) returns (s: Status, ghost after: Progress)
    requires NestedDeclared(tx.db, ct, inner)
    requires Reached(tx, db0, ct, done) && pos == |done.landed|
    modifies tx
    ensures old(tx.steps) <= tx.steps
    ensures s.Ok? ==> NestedDeclared(tx.db, ct, inner)
    ensures match s
      case Ok(_) => WriteRow(inner, done, parent, key, item, rid, tx.gen) == Ok(after) && Reached(tx, db0, ct, after) && |after.landed| == pos + 1
      case Err(e) => (e == Unavailable && tx.Faulted(old(tx.steps))) || WriteRow(inner, done, parent, key, item, rid, tx.gen) == Err(e)
  {
    PutChildAgain(db0, ct.name, done.db, done.db);
    s, after := SaveElement(tx, ct, inner, parent, key, pos, item, rid, done);
    if s.Ok? { PutChildAgain(db0, ct.name, done.db, after.db); }
  }

  /** The write loop of writeRows; pos counts written elements, not payload ones. */
  method SaveElements(tx: Tx, ct: ChildTable, inner: Table, parent: string, key: string, list: seq<Json>, ids: seq<string>) returns (s: Status, ghost done: Progress)
    requires NestedDeclared(tx.db, ct, inner) && |ids| == |list|
    modifies tx
    ensures old(tx.steps) <= tx.steps
    ensures s.Ok? ==> NestedDeclared(tx.db, ct, inner)
    ensures var start := Progress(ChildOf(old(tx.db), ct.name), old(tx.next), []);
      match s
      case Ok(_) => WriteLoop(inner, start, parent, key, list, ids, tx.gen) == Ok(done) && Reached(tx, old(tx.db), ct, done)
      case Err(e) => (e == Unavailable && tx.Faulted(old(tx.steps))) || WriteLoop(inner, start, parent, key, list, ids, tx.gen) == Err(e)
  {
    ghost var db0, start := tx.db, Progress(ChildOf(tx.db, ct.name), tx.next, []);
    PutChildSame(db0, ct.name);
    done := start;
    var pos := 0;
    for i := 0 to |list|
      invariant old(tx.steps) <= tx.steps
      invariant NestedDeclared(tx.db, ct, inner)
      invariant WriteLoop(inner, start, parent, key, list[..i], ids[..i], tx.gen) == Ok(done)
      invariant Reached(tx, db0, ct, done) && pos == |done.landed|
    {
      WriteLoopNext(inner, start, parent, key, list, ids, tx.gen, i, done);
      if list[i].Obj? {
        ghost var after;
        s, after := NextElement(tx, ct, inner, parent, key, pos, list[i].fields, ids[i], db0, done);
        if s.Err? { return; }
        done := after;
        pos := pos + 1;
      }
    }
    assert list[..|list|] == list && ids[..|ids|] == ids;
    s := Ok(());
  }

  method KeepOf(ids: seq<string>) returns (keep: set<string>)
    ensures keep == KeepList(ids)
  {
    keep := {};
    for i := 0 to |ids|
      invariant keep == set j | 0 <= j < i && ids[j] != "" :: ids[j]
    {
      if ids[i] != "" { keep := keep + {ids[i]}; }
    }
  }

  /** ChildTable.writeRows: the order of its steps is the order of the statements. */
  method SaveRows(tx: Tx, ct: ChildTable, inner: Table, parent: string, key: string, list: seq<Json>) returns (s: Status)
    requires ElementOk(ct, inner) && NestedDeclared(tx.db, ct, inner)
    modifies tx
    ensures old(tx.steps) <= tx.steps
    ensures s.Ok? ==> NestedDeclared(tx.db, ct, inner)
    ensures var r := WriteRows(ct, inner, ChildOf(old(tx.db), ct.name), parent, key, list, tx.gen, old(tx.next));
      match s
      case Ok(_) => r.Ok? && Reached(tx, old(tx.db), ct, r.value)
      case Err(e) => (e == Unavailable && tx.Faulted(old(tx.steps))) || r == Err(e)
  {
    ghost var db0, d0 := tx.db, ChildOf(tx.db, ct.name);
    var owned := OwnedIds(tx, ct, parent, key);
    if owned.Err? { return Err(owned.error); }
    var ids := ResolveIds(tx, ct, IdField(inner.cols, inner.id).value, owned.value, list);
    var keep := KeepOf(ids);
    s := tx.DeleteChildren(ct, parent, key, keep);
    if s.Err? { return; }
    ghost var d1 := DeleteExcept(ct, d0, parent, key, keep);
    PutChildAgain(db0, ct.name, d1, d1);
    ghost var done;
    s, done := SaveElements(tx, ct, inner, parent, key, list, ids);
    if s.Ok? { PutChildAgain(db0, ct.name, d1, done.db); }
  }
}
