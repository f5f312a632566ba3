/** The save closures of the cells as they run on an open transaction. */
module CellStore {
  import opened Values
  import opened SideTables
  import opened Columns
  import opened ChildTables
  import opened ChildLists
  import opened RelsTables
  import opened Selections
  import opened Database
  import opened Transaction
  import opened KeyedSave
  import opened ListSave

  /** The tables a cell reads and writes exist. */
  ghost predicate Declared(db: Db, c: Column) {
    match c
    case KeyedStrings(side, _, _) => side.name in db.sides
    case Child(ct, shape) => ListDeclared(db, ct, shape)
    case Rels(rels, _, _) => rels.name in db.rels
    case DeferredList(list, _) => Declared(db, list)
    case _ => true
  }

  // --- adapter/erjet/rels.go -------------------------------------------------------------

  /** idSlice. */
  method ParseIds(list: seq<Json>) returns (ids: seq<string>)
    ensures ids == IdSlice(list)
  {
    ids := [];
    var seen: set<string> := {};
    for i := 0 to |list|
      invariant ids == IdSlice(list[..i])
      invariant forall s :: s in seen <==> s in ids
    {
      assert list[..i + 1][..i] == list[..i];
      var s := StringOf(list[i]);
      if s != "" && s !in seen {
        seen := seen + {s};
        ids := ids + [s];
      }
    }
    assert list[..|list|] == list;
  }

  function PutRels(db: Db, table: string, d: RelsDb): Db {
    db.(rels := db.rels[table := d])
  }

  lemma PutRelsAgain(db: Db, table: string, d: RelsDb, e: RelsDb)
    ensures PutRels(PutRels(db, table, d), table, e) == PutRels(db, table, e)
    ensures RelsOf(PutRels(db, table, d), table) == d
  {}

  lemma {:induction false} InsertRelsFails(cast: Cast, db: RelsDb, parent: string, path: string, target: string, ids: seq<string>, i: nat)
    requires i <= |ids| && InsertRels(cast, db, parent, path, target, ids[..i]).Err?
    ensures InsertRels(cast, db, parent, path, target, ids) == InsertRels(cast, db, parent, path, target, ids[..i])
    decreases |ids|
  {
    if i < |ids| {
      assert ids[..|ids| - 1][..i] == ids[..i];
      InsertRelsFails(cast, db, parent, path, target, ids[..|ids| - 1], i);
    } else {
      assert ids[..i] == ids;
    }
  }

  lemma InsertRelsNext(cast: Cast, db: RelsDb, parent: string, path: string, target: string, ids: seq<string>, i: nat, d: RelsDb)
    requires i < |ids| && InsertRels(cast, db, parent, path, target, ids[..i]) == Ok(d)
    ensures var next := InsertRel(cast, d, parent, path, i, target, ids[i]);
      && InsertRels(cast, db, parent, path, target, ids[..i + 1]) == next
      && (next.Err? ==> InsertRels(cast, db, parent, path, target, ids) == next)
  {
    assert ids[..i + 1][..i] == ids[..i];
    if InsertRels(cast, db, parent, path, target, ids[..i + 1]).Err? { InsertRelsFails(cast, db, parent, path, target, ids, i + 1); }
  }

  /** RelsTable.replace: one DELETE, one INSERT per id at its list index. */
  method ReplaceIds(tx: Tx, rels: RelsTable, path: string, target: string, parent: string, ids: seq<string>) returns (s: Status)
    modifies tx
    ensures tx.next == old(tx.next) && old(tx.steps) <= tx.steps
    ensures var r := ReplaceRels(rels.cast, RelsOf(old(tx.db), rels.name), parent, path, target, ids);
      match s
      case Ok(_) => r.Ok? && tx.db == PutRels(old(tx.db), rels.name, r.value)
      case Err(e) => (e == Unavailable && tx.Faulted(old(tx.steps))) || r == Err(e)
  {
    ghost var db0, start := tx.db, DeletePath(RelsOf(tx.db, rels.name), parent, path);
    s := tx.DeleteRels(rels.name, parent, path);
    if s.Err? { return; }
    ghost var done := start;
    for i := 0 to |ids|
      invariant tx.next == old(tx.next) && old(tx.steps) <= tx.steps
      invariant InsertRels(rels.cast, start, parent, path, target, ids[..i]) == Ok(done)
      invariant tx.db == PutRels(db0, rels.name, done)
    {
      InsertRelsNext(rels.cast, start, parent, path, target, ids, i, done);
      PutRelsAgain(db0, rels.name, done, done);
      s := tx.InsertRelation(rels, parent, path, i, target, ids[i]);
      if s.Err? { return; }
      ghost var after := InsertRel(rels.cast, done, parent, path, i, target, ids[i]).value;
      PutRelsAgain(db0, rels.name, done, after);
      done := after;
    }
    assert ids[..|ids|] == ids;
    return Ok(());
  }

  // --- loading -------------------------------------------------------------------------------

  function Lists(m: map<string, seq<Json>>): (r: map<string, Json>)
    ensures r.Keys == m.Keys
    ensures forall k :: k in m ==> r[k] == Arr(m[k])
  {
    map k | k in m :: Arr(m[k])
  }

  lemma ListsLoaded(ct: ChildTable, shape: Shape, d: ChildDb, parent: string, m: map<string, seq<Json>>)
    requires ShapeOk(ct, shape) && ct.partitioned
    requires m.Keys == PartitionKeys(d.rows, parent)
    requires forall k :: k in m ==> m[k] == ReadPartition(ct, shape, d, parent, k)
    ensures Obj(Lists(m)) == LoadList(ct, shape, d, parent)
  {
    SameLists(m, LoadParts(ct, shape, d, parent, m.Keys));
  }

  lemma SameLists(m: map<string, seq<Json>>, p: map<string, Json>)
    requires p.Keys == m.Keys && forall k :: k in m ==> p[k] == Arr(m[k])
    ensures Lists(m) == p
  {}

  /** The load closure of a child list. */
  method LoadChild(tx: Tx, ct: ChildTable, shape: Shape, parent: string) returns (r: Result<Json>)
    requires ShapeOk(ct, shape)
    modifies tx`steps
    ensures old(tx.steps) <= tx.steps
    ensures match r
      case Ok(v) => v == LoadList(ct, shape, ChildOf(tx.db, ct.name), parent)
      case Err(e) => e == Unavailable && tx.Faulted(old(tx.steps))
  {
    if ct.partitioned {
      var parts := LoadKeyed(tx, ct, shape, parent);
      if parts.Err? { return Err(parts.error); }
      ListsLoaded(ct, shape, ChildOf(tx.db, ct.name), parent, parts.value);
      return Ok(Obj(Lists(parts.value)));
    } else {
      var list := LoadPartition(tx, ct, shape, parent, "");
      if list.Err? { return Err(list.error); }
      return Ok(Arr(list.value));
    }
  }

  // --- adapter/erjet/deferred_list.go -----------------------------------------------------------

  lemma {:induction false} ResolveAllFails(resolve: (string, Json) -> Result<Json>, parent: string, list: seq<Json>, i: nat)
    requires i <= |list| && ResolveAll(resolve, parent, list[..i]).Err?
    ensures ResolveAll(resolve, parent, list) == ResolveAll(resolve, parent, list[..i])
    decreases |list|
  {
    if i < |list| {
      assert list[..|list| - 1][..i] == list[..i];
      ResolveAllFails(resolve, parent, list[..|list| - 1], i);
    } else {
      assert list[..i] == list;
    }
  }

  /** The loop of DeferredList: each element resolved, nil skipped. */
  method ResolveEach(resolve: (string, Json) -> Result<Json>, parent: string, list: seq<Json>) returns (r: Result<seq<Json>>)
    ensures Resolves(resolve, parent, list, r)
    ensures r == ResolveAll(resolve, parent, list)
  {
    ResolveAllResolves(resolve, parent, list);
    var next := [];
    for i := 0 to |list|
      invariant ResolveAll(resolve, parent, list[..i]) == Ok(next)
    {
      assert list[..i + 1][..i] == list[..i];
      var v := resolve(parent, list[i]);
      if v.Err? {
        ResolveAllFails(resolve, parent, list, i + 1);
        return Err(v.error);
      }
      if v.value != Null { next := next + [v.value]; }
    }
    assert list[..|list|] == list;
    return Ok(next);
  }

  // --- save closures ------------------------------------------------------------------------------

  method SaveKeyedCell(tx: Tx, c: Column, parent: string, v: Json) returns (r: Result<Json>)
    requires c.KeyedStrings? && Declared(tx.db, c)
    modifies tx
    ensures old(tx.steps) <= tx.steps
    ensures match r
      case Ok(echo) => Declared(tx.db, c) && SaveKeyed(old(tx.db), old(tx.next), c.side, c.col, c.clear, parent, v) == Ok(Saved(tx.db, tx.next, echo))
      case Err(e) =>
        (e == Unavailable && tx.Faulted(old(tx.steps))) || SaveKeyed(old(tx.db), old(tx.next), c.side, c.col, c.clear, parent, v) == Err(e)
  {
    if !v.Obj? { return Ok(Null); }
    var s := SaveMany(tx, c.side, OfEntity(c.side.name), parent, [Write(c.col, c.clear, v.fields)]);
    if s.Err? { return Err(s.error); }
    return Ok(Texts(Read(SideOf(tx.db, c.side.name), parent, c.col)));
  }

  method SaveRelsCell(tx: Tx, c: Column, parent: string, v: Json) returns (r: Result<Json>)
    requires c.Rels? && Declared(tx.db, c)
    modifies tx
    ensures old(tx.steps) <= tx.steps
    ensures match r
      case Ok(echo) => Declared(tx.db, c) && SaveRels(old(tx.db), old(tx.next), c.rels, c.path, c.target, parent, v) == Ok(Saved(tx.db, tx.next, echo))
      case Err(e) =>
        (e == Unavailable && tx.Faulted(old(tx.steps))) || SaveRels(old(tx.db), old(tx.next), c.rels, c.path, c.target, parent, v) == Err(e)
  {
    if !v.Arr? { return Ok(Null); }
    var ids := ParseIds(v.items);
    var s := ReplaceIds(tx, c.rels, c.path, c.target, parent, ids);
    if s.Err? { return Err(s.error); }
    return Ok(Arr(Strings(ids)));
  }

  method SaveChildCell(tx: Tx, c: Column, parent: string, v: Json) returns (r: Result<Json>)
    requires c.Child? && CellOk(c) && Declared(tx.db, c)
    modifies tx
    ensures old(tx.steps) <= tx.steps
    ensures match r
      case Ok(echo) => Declared(tx.db, c) && SaveChild(old(tx.db), old(tx.next), c.ct, c.shape, parent, v, tx.gen) == Ok(Saved(tx.db, tx.next, echo))
      case Err(e) => (e == Unavailable && tx.Faulted(old(tx.steps))) || SaveChild(old(tx.db), old(tx.next), c.ct, c.shape, parent, v, tx.gen) == Err(e)
  {
    var s: Status;
    if c.ct.partitioned {
      if !v.Obj? { return Ok(Null); }
      s := SaveParts(tx, c.ct, c.shape, parent, v.fields);
    } else {
      if !v.Arr? { return Ok(Null); }
      s := SavePartition(tx, c.ct, c.shape, parent, "", v.items);
    }
    if s.Err? { return Err(s.error); }
    r := LoadChild(tx, c.ct, c.shape, parent);
  }

  /** Column.save of any cell. */
  method SaveCell(tx: Tx, c: Column, parent: string, v: Json) returns (r: Result<Json>)
    requires CellOk(c) && Declared(tx.db, c)
    modifies tx
    ensures old(tx.steps) <= tx.steps
    ensures match r
      case Ok(echo) => Declared(tx.db, c) && CellSave(old(tx.db), old(tx.next), c, parent, v, tx.gen) == Ok(Saved(tx.db, tx.next, echo))
      case Err(e) => (e == Unavailable && tx.Faulted(old(tx.steps))) || CellSave(old(tx.db), old(tx.next), c, parent, v, tx.gen) == Err(e)
    decreases c
  {
    match c
    case KeyedStrings(_, _, _) => r := SaveKeyedCell(tx, c, parent, v);
    case Child(_, _) => r := SaveChildCell(tx, c, parent, v);
    case Rels(_, _, _) => r := SaveRelsCell(tx, c, parent, v);
    case DeferredList(list, resolve) =>
      if v.Arr? {
        var items := ResolveEach(resolve, parent, v.items);
        if items.Err? { return Err(items.error); }
        r := SaveCell(tx, list, parent, Arr(items.value));
      } else {
        r := SaveCell(tx, list, parent, v);
      }
    case Deferred(_, resolve, _) => r := resolve(parent, v);
    case ReadOnly(_, _) => r := Ok(Null);
    case Scalar(_, _, _, _) => r := Ok(Null);
  }
}
