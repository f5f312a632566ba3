/** When a save is accepted, exactly: told from the payload and the tables before it. */
module Acceptance {
  import opened Values
  import opened Ordering
  import opened SideTables
  import opened KeyedLaws
  import opened Columns
  import opened ChildTables
  import opened ChildLaws
  import opened ChildTheorems
  import opened ChildLists
  import opened ListLaws
  import opened RelsTables
  import opened Selections
  import opened Database
  import opened CellLaws
  import opened StoreSpec
  import opened PlanLaws
  import opened GroupLaws
  import opened StoreLaws
  import opened UpdateTruth
  import opened Refusals
  import opened SaveEffects
  import opened CreateTruth
  import Child = ChildAcceptance

  // --- child lists -------------------------------------------------------------------------------

  ghost predicate RowsFit(ct: ChildTable, inner: Table, d: ChildDb, parent: string, key: string, objs: seq<Json>) {
    forall i :: 0 <= i < |objs| ==> objs[i].Obj? && Child.ElementFits(ct, inner, d, parent, key, objs, i)
  }

  /** A list one partition takes: each of its objects fits the row it goes to, or the
      server takes each element its cell parses. */
  ghost predicate PartFits(ct: ChildTable, shape: Shape, d: ChildDb, parent: string, key: string, items: seq<Json>)
    requires ShapeOk(ct, shape)
  {
    match shape
    case Rows(inner) => RowsFit(ct, inner, d, parent, key, Objects(items))
    case Values(elem) => AllAdmitted(elem, items)
  }

  ghost predicate ShapeDeclared(shape: Shape) {
    shape.Rows? ==> Child.Declared(shape.inner)
  }

  lemma RowsAccepted(ct: ChildTable, inner: Table, d: ChildDb, parent: string, key: string, items: seq<Json>, gen: IdSource, next: nat)
    requires ElementOk(ct, inner) && Child.Declared(inner) && Unissued(gen, next, d.rows) && NestedKeys(d)
    ensures WriteRows(ct, inner, d, parent, key, items, gen, next).Ok? <==> RowsFit(ct, inner, d, parent, key, Objects(items))
  {
    Child.WriteRowsAccepted(ct, inner, d, parent, key, items, gen, next);
    FitsEach(ct, inner, d, parent, key, Objects(items));
  }

  lemma FitsEach(ct: ChildTable, inner: Table, d: ChildDb, parent: string, key: string, objs: seq<Json>)
    requires AllObjects(objs)
    ensures RowsFit(ct, inner, d, parent, key, objs) <==> forall i :: 0 <= i < |objs| ==> Child.ElementFits(ct, inner, d, parent, key, objs, i)
  {}

  lemma PartAccepted(ct: ChildTable, shape: Shape, gen: IdSource, st: ChildState, parent: string, key: string, items: seq<Json>)
    requires ShapeOk(ct, shape) && ShapeDeclared(shape) && RightKey(ct, key)
    requires Unissued(gen, st.next, st.db.rows) && NestedKeys(st.db)
    ensures WritePartition(ct, shape, st, parent, key, items, gen).Ok? <==> PartFits(ct, shape, st.db, parent, key, items)
  {
    match shape
    case Rows(inner) => RowsAccepted(ct, inner, st.db, parent, key, items, gen, st.next);
    case Values(elem) => ReplaceReadsBack(ct, elem, st.db, parent, key, items, gen, st.next);
  }

  /** Whether a list fits is told by the rows of its own partition. */
  lemma PartFitsSame(ct: ChildTable, shape: Shape, d: ChildDb, e: ChildDb, parent: string, key: string, items: seq<Json>)
    requires ShapeOk(ct, shape) && SameScope(ct, d, e, parent, key)
    ensures PartFits(ct, shape, d, parent, key, items) <==> PartFits(ct, shape, e, parent, key, items)
  {
    if shape.Rows? {
      var inner, objs := shape.inner, Objects(items);
      ObjectsAreObjects(items);
      forall i | 0 <= i < |objs| ensures Child.ElementFits(ct, inner, d, parent, key, objs, i) <==> Child.ElementFits(ct, inner, e, parent, key, objs, i) {
        ElementFitsSame(ct, inner, d, e, parent, key, objs, i);
      }
    }
  }

  lemma ElementFitsSame(ct: ChildTable, inner: Table, d: ChildDb, e: ChildDb, parent: string, key: string, objs: seq<Json>, i: nat)
    requires i < |objs| && objs[i].Obj? && SameScope(ct, d, e, parent, key)
    ensures Child.ElementFits(ct, inner, d, parent, key, objs, i) <==> Child.ElementFits(ct, inner, e, parent, key, objs, i)
  {
    SameOwned(ct, d, e, parent, key);
    var idField := IdFieldOf(inner);
    if FirstOwn(idField, Owned(ct, d.rows, parent, key), objs, i) {
      var id := SubmittedId(idField, objs[i]);
      assert id in Scope(ct, d.rows, parent, key);
      forall nc | nc in inner.cols && nc.name in objs[i].fields
        ensures Child.ClearsFree(e, id, nc.column, objs[i].fields[nc.name]) <==> Child.ClearsFree(d, id, nc.column, objs[i].fields[nc.name])
      {
        Child.SameNestedFree(e, d, id, nc.column, objs[i].fields[nc.name]);
      }
    }
  }

  lemma {:induction false} PartsAccepted(ct: ChildTable, shape: Shape, gen: IdSource, st: ChildState, parent: string, patch: map<string, Json>, keys: seq<string>)
    requires ShapeOk(ct, shape) && ShapeDeclared(shape) && ct.partitioned
    requires Unissued(gen, st.next, st.db.rows) && NestedKeys(st.db)
    requires forall i, j :: 0 <= i < j < |keys| ==> keys[i] != keys[j]
    ensures WriteParts(ct, shape, st, parent, patch, keys, gen).Ok? <==>
      forall k :: k in keys && Patches(patch, k) ==> PartFits(ct, shape, st.db, parent, k, patch[k].items)
  {
    if keys != [] {
      var init, key := keys[..|keys| - 1], keys[|keys| - 1];
      LastKey(keys);
      PartsAccepted(ct, shape, gen, st, parent, patch, init);
      var before := WriteParts(ct, shape, st, parent, patch, init, gen);
      if before.Ok? && Patches(patch, key) {
        WritePartsLaw(ct, shape, gen, st, parent, patch, init);
        UnnamedScope(ct, shape, gen, st, parent, patch, init, key);
        PartAccepted(ct, shape, gen, before.value, parent, key, patch[key].items);
        PartFitsSame(ct, shape, st.db, before.value.db, parent, key, patch[key].items);
      }
    }
  }

  /** A value a child list takes; one of another kind is left alone. */
  ghost predicate ListFits(ct: ChildTable, shape: Shape, d: ChildDb, parent: string, v: Json)
    requires ShapeOk(ct, shape)
  {
    if ct.partitioned then v.Obj? ==> forall k :: k in v.fields && k != "" && v.fields[k].Arr? ==> PartFits(ct, shape, d, parent, k, v.fields[k].items)
    else v.Arr? ==> PartFits(ct, shape, d, parent, "", v.items)
  }

  lemma ListAccepted(ct: ChildTable, shape: Shape, gen: IdSource, st: ChildState, parent: string, v: Json)
    requires ShapeOk(ct, shape) && ShapeDeclared(shape)
    requires Unissued(gen, st.next, st.db.rows) && NestedKeys(st.db)
    ensures SaveList(ct, shape, st, parent, v, gen).Ok? <==> ListFits(ct, shape, st.db, parent, v)
  {
    if ct.partitioned {
      if v.Obj? {
        var keys := SortedKeys(v.fields.Keys);
        PartsAccepted(ct, shape, gen, st, parent, v.fields, keys);
        forall k ensures k in keys <==> k in v.fields { assert k in keys <==> k in Elems(keys); }
      }
    } else if v.Arr? {
      PartAccepted(ct, shape, gen, st, parent, "", v.items);
    }
  }

  // --- cells that save themselves ---------------------------------------------------------------------

  /** An id of the target's type whose row exists, where a foreign key asks for one. */
  ghost predicate IdFits(rels: RelsTable, d: RelsDb, target: string, id: string) {
    rels.cast(id).Some? && HasTarget(d, target, rels.cast(id).value)
  }

  /** A value the cell takes: a list that fits, ids of the type whose rows exist, or
      elements its resolver takes and the cell behind it takes of them. */
  ghost predicate CellTakes(db: Db, c: Column, parent: string, v: Json)
    requires CellOk(c)
    decreases c
  {
    match c
    case Child(ct, shape) => ListFits(ct, shape, ChildOf(db, ct.name), parent, v)
    case Rels(rels, _, target) => v.Arr? ==> forall i :: 0 <= i < |v.items| && v.items[i].Str? && v.items[i].s != "" ==> IdFits(rels, RelsOf(db, rels.name), target, v.items[i].s)
    case DeferredList(list, resolve) =>
      if !v.Arr? then CellTakes(db, list, parent, v)
      else exists pos: seq<nat>, mid :: ResolvedTo(resolve, parent, v.items, pos, mid) && CellTakes(db, list, parent, Arr(mid))
    case Deferred(_, resolve, _) => resolve(parent, v).Ok?
    case _ => true
  }

  ghost predicate CellDeclared(c: Column) {
    match c
    case Child(_, shape) => ShapeDeclared(shape)
    case DeferredList(list, _) => CellDeclared(list)
    case _ => true
  }

  lemma InsertableEach(rels: RelsTable, d: RelsDb, target: string, items: seq<Json>)
    ensures Insertable(rels.cast, d, target, IdSlice(items)) <==>
      forall i :: 0 <= i < |items| && items[i].Str? && items[i].s != "" ==> IdFits(rels, d, target, items[i].s)
  {
    var ids := IdSlice(items);
    forall i | 0 <= i < |items| && items[i].Str? && items[i].s != "" ensures items[i].s in ids {
      IdSliceMembers(items, items[i].s);
    }
    forall j | 0 <= j < |ids| ensures exists i :: 0 <= i < |items| && items[i].Str? && items[i].s != "" && items[i].s == ids[j] {
      IdSliceMembers(items, ids[j]);
    }
    assert Insertable(rels.cast, d, target, ids) <==> forall j :: 0 <= j < |ids| ==> IdFits(rels, d, target, ids[j]);
  }

  lemma RelsAccepted(db: Db, next: nat, c: Column, parent: string, v: Json, gen: IdSource)
    requires c.Rels? && Sound(db, gen, next)
    ensures CellSave(db, next, c, parent, v, gen).Ok? <==> CellTakes(db, c, parent, v)
  {
    if v.Arr? {
      ReplaceRelsAccepted(c.rels.cast, RelsOf(db, c.rels.name), parent, c.path, c.target, IdSlice(v.items));
      InsertableEach(c.rels, RelsOf(db, c.rels.name), c.target, v.items);
    }
  }

  /** A save closure goes through exactly for a value its cell takes; a keyed map is the
      business of its group. */
  lemma {:induction false} CellAccepted(db: Db, next: nat, c: Column, parent: string, v: Json, gen: IdSource)
    requires CellOk(c) && CellDeclared(c) && Sound(db, gen, next) && !(c.KeyedStrings? && v.Obj?)
    ensures CellSave(db, next, c, parent, v, gen).Ok? <==> CellTakes(db, c, parent, v)
    decreases c, 0
  {
    match c
    case Child(ct, shape) =>
      ChildSound(db, gen, next, ct.name);
      ListAccepted(ct, shape, gen, ChildState(ChildOf(db, ct.name), next), parent, v);
    case Rels(_, _, _) => RelsAccepted(db, next, c, parent, v, gen);
    case DeferredList(list, resolve) =>
      if !v.Arr? {
        CellAccepted(db, next, list, parent, v, gen);
      } else {
        ResolvedAccepted(db, next, list, resolve, parent, v, gen);
      }
    case _ =>
  }

  lemma {:induction false} ResolvedAccepted(db: Db, next: nat, list: Column, resolve: (string, Json) -> Result<Json>, parent: string, v: Json, gen: IdSource)
    requires CellOk(list) && IsList(list) && CellDeclared(list) && Sound(db, gen, next) && v.Arr?
    ensures CellSave(db, next, DeferredList(list, resolve), parent, v, gen).Ok? <==> CellTakes(db, DeferredList(list, resolve), parent, v)
    decreases list, 1
  {
    ResolveAllResolves(resolve, parent, v.items);
    var r := ResolveAll(resolve, parent, v.items);
    if r.Ok? {
      var pos: seq<nat> :| ResolvedTo(resolve, parent, v.items, pos, r.value);
      TakesResolved(db, list, resolve, parent, v, pos, r.value);
      CellAccepted(db, next, list, parent, Arr(r.value), gen);
      SavesResolved(db, next, list, resolve, parent, v, gen, r.value);
    } else {
      var i :| FailsFirst(resolve, parent, v.items, i, r.error);
      TakesNone(db, list, resolve, parent, v, i, r.error);
    }
  }

  lemma SavesResolved(db: Db, next: nat, list: Column, resolve: (string, Json) -> Result<Json>, parent: string, v: Json, gen: IdSource, mid: seq<Json>)
    requires CellOk(list) && IsList(list) && v.Arr? && ResolveAll(resolve, parent, v.items) == Ok(mid)
    ensures CellSave(db, next, DeferredList(list, resolve), parent, v, gen) == CellSave(db, next, list, parent, Arr(mid), gen)
  {}

  lemma {:induction false} TakesResolved(db: Db, list: Column, resolve: (string, Json) -> Result<Json>, parent: string, v: Json, pos: seq<nat>, mid: seq<Json>)
    requires CellOk(list) && IsList(list) && v.Arr? && ResolvedTo(resolve, parent, v.items, pos, mid)
    ensures CellTakes(db, DeferredList(list, resolve), parent, v) <==> CellTakes(db, list, parent, Arr(mid))
  {
    forall p: seq<nat>, m | ResolvedTo(resolve, parent, v.items, p, m) ensures m == mid {
      ResolvedOnce(resolve, parent, v.items, p, m, pos, mid);
    }
  }

  lemma {:induction false} TakesNone(db: Db, list: Column, resolve: (string, Json) -> Result<Json>, parent: string, v: Json, i: int, e: Failure)
    requires CellOk(list) && IsList(list) && v.Arr? && FailsFirst(resolve, parent, v.items, i, e)
    ensures !CellTakes(db, DeferredList(list, resolve), parent, v)
  {
    assert resolve(parent, v.items[i]).Err?;
  }

  /** Rising positions are told by which they are. */
  lemma {:induction false} RisingOnce(p: seq<nat>, q: seq<nat>, n: nat)
    requires Rising(p, n) && Rising(q, n) && forall i :: i in p <==> i in q
    ensures p == q
  {
    assert p != [] ==> p[0] in p;
    assert q != [] ==> q[0] in q;
    if p != [] && q != [] {
      var a, b := p[|p| - 1], q[|q| - 1];
      assert a in q && b in p;
      assert a == b;
      var p', q' := p[..|p| - 1], q[..|q| - 1];
      forall i ensures i in p' <==> i in q' {
        assert i in p' <==> i in p && i != a;
        assert i in q' <==> i in q && i != b;
      }
      RisingOnce(p', q', n);
      assert p == p' + [a] && q == q' + [b];
    }
  }

  lemma ResolvedOnce(resolve: (string, Json) -> Result<Json>, parent: string, list: seq<Json>, p: seq<nat>, a: seq<Json>, q: seq<nat>, b: seq<Json>)
    requires ResolvedTo(resolve, parent, list, p, a) && ResolvedTo(resolve, parent, list, q, b)
    ensures a == b
  {
    forall i ensures i in p <==> i in q {
      if 0 <= i < |list| { assert i in p <==> i in q; }
    }
    RisingOnce(p, q, |list|);
  }

  /** What a cell takes is told by its own child table and by what relations refer to. */
  lemma {:induction false} TakesSame(a: Db, b: Db, c: Column, parent: string, v: Json)
    requires CellOk(c) && SameTargets(a, b) && SameStorage(a, b, StorageOf(c), parent)
    ensures CellTakes(a, c, parent, v) <==> CellTakes(b, c, parent, v)
    decreases c
  {
    match c
    case Child(ct, _) => assert ChildOf(a, ct.name) == ChildOf(b, ct.name);
    case Rels(rels, _, _) => assert RelsOf(b, rels.name).targets == RelsOf(a, rels.name).targets;
    case DeferredList(list, resolve) =>
      if !v.Arr? {
        TakesSame(a, b, list, parent, v);
      } else {
        forall mid: seq<Json> ensures CellTakes(a, list, parent, Arr(mid)) <==> CellTakes(b, list, parent, Arr(mid)) {
          TakesSame(a, b, list, parent, Arr(mid));
        }
      }
    case _ =>
  }

  lemma {:induction false} TakesKept(a: Db, b: Db, c: Column, parent: string, v: Json)
    requires CellOk(c) && a.childs == b.childs && a.rels == b.rels
    ensures CellTakes(a, c, parent, v) <==> CellTakes(b, c, parent, v)
    decreases c
  {
    match c
    case Child(ct, _) => assert ChildOf(a, ct.name) == ChildOf(b, ct.name);
    case Rels(rels, _, _) => assert RelsOf(b, rels.name) == RelsOf(a, rels.name);
    case DeferredList(list, resolve) =>
      if !v.Arr? {
        TakesKept(a, b, list, parent, v);
      } else {
        forall mid: seq<Json> ensures CellTakes(a, list, parent, Arr(mid)) <==> CellTakes(b, list, parent, Arr(mid)) {
          TakesKept(a, b, list, parent, Arr(mid));
        }
      }
    case _ =>
  }

  // --- keyed maps, side table by side table -----------------------------------------------------------

  /** The cell was sent an entry for this key of the side table. */
  ghost predicate SentKey(cols: seq<Named>, input: map<string, Json>, table: string, k: string, nc: Named) {
    && nc in cols && nc.column.KeyedStrings? && nc.column.side.name == table
    && nc.name in input && input[nc.name].Obj? && k in input[nc.name].fields
  }

  ghost predicate Fills(cols: seq<Named>, input: map<string, Json>, table: string, k: string, nc: Named) {
    SentKey(cols, input, table, k, nc) && input[nc.name].fields[k].Str? && input[nc.name].fields[k].s != ""
  }

  ghost predicate Empties(cols: seq<Named>, input: map<string, Json>, table: string, k: string, nc: Named) {
    SentKey(cols, input, table, k, nc) && !Fills(cols, input, table, k, nc)
  }

  ghost predicate FillsColumn(cols: seq<Named>, input: map<string, Json>, table: string, k: string, n: string) {
    exists nc :: Fills(cols, input, table, k, nc) && nc.column.col == n
  }

  /** No cell nulls its NOT NULL column for this key in a row that is there. */
  ghost predicate NullsNone(row: Option<Row>, cells: seq<Named>, input: map<string, Json>, kt: KeyedTable, k: string) {
    forall nc :: Empties(cells, input, kt.name, k, nc) && nc.column.clear == SetNull && nc.column.col in kt.notNull ==> row == None
  }

  /** A key of a side table the save may write: if some cell fills it the cells together
      fill every NOT NULL column, and none nulls a NOT NULL column of a row that is there. */
  ghost predicate KeyTaken(db: Db, cols: seq<Named>, id: string, input: map<string, Json>, kt: KeyedTable, k: string) {
    && ((exists nc :: Fills(cols, input, kt.name, k, nc)) ==> forall n :: n in kt.notNull ==> FillsColumn(cols, input, kt.name, k, n))
    && NullsNone(At(SideOf(db, kt.name), id, k), cols, input, kt, k)
  }

  ghost predicate GroupsTaken(db: Db, cols: seq<Named>, id: string, input: map<string, Json>) {
    forall nc, k :: nc in cols && nc.column.KeyedStrings? && SentKey(cols, input, nc.column.side.name, k, nc) ==> KeyTaken(db, cols, id, input, nc.column.side, k)
  }

  ghost predicate SentAs(cells: seq<Named>, input: map<string, Json>, table: string, k: string, nc: Named, w: Write) {
    SentKey(cells, input, table, k, nc) && w == Write(nc.column.col, nc.column.clear, input[nc.name].fields)
  }

  /** The entries sent for a key are those of the group's writes. */
  lemma SentIsWrite(cells: seq<Named>, input: map<string, Json>, table: string, writes: seq<Write>, k: string)
    requires GroupSound(cells, input, table, writes)
    ensures forall nc :: SentKey(cells, input, table, k, nc) ==> exists w :: w in writes && SentAs(cells, input, table, k, nc, w)
    ensures forall w :: w in writes && k in w.patch ==> exists nc :: SentAs(cells, input, table, k, nc, w)
  {
    forall nc | SentKey(cells, input, table, k, nc) ensures exists w :: w in writes && SentAs(cells, input, table, k, nc, w) {
      var w := Write(nc.column.col, nc.column.clear, input[nc.name].fields);
      assert Handled(nc, input) && w in writes && SentAs(cells, input, table, k, nc, w);
    }
    forall w | w in writes && k in w.patch ensures exists nc :: SentAs(cells, input, table, k, nc, w) {
      var nc :| HandledBy(cells, input, nc, w) && nc.column.side.name == table;
      assert SentAs(cells, input, table, k, nc, w);
    }
  }

  lemma FillsIsSet(cells: seq<Named>, input: map<string, Json>, table: string, writes: seq<Write>, k: string, n: string)
    requires GroupSound(cells, input, table, writes)
    ensures FillsColumn(cells, input, table, k, n) <==> exists w :: w in writes && Sets(w, k) && w.col == n
  {
    SentIsWrite(cells, input, table, writes, k);
    if nc :| Fills(cells, input, table, k, nc) && nc.column.col == n {
      var w :| w in writes && SentAs(cells, input, table, k, nc, w);
      assert Sets(w, k) && w.col == n;
    }
    if w :| w in writes && Sets(w, k) && w.col == n {
      var nc :| SentAs(cells, input, table, k, nc, w);
      assert Fills(cells, input, table, k, nc) && nc.column.col == n;
    }
  }

  lemma GroupedSets(cells: seq<Named>, input: map<string, Json>, kt: KeyedTable, k: string, writes: seq<Write>)
    requires GroupSound(cells, input, kt.name, writes)
    ensures ((exists nc :: Fills(cells, input, kt.name, k, nc)) ==> forall n :: n in kt.notNull ==> FillsColumn(cells, input, kt.name, k, n))
       <==> ((exists w :: w in writes && Sets(w, k)) ==> forall c :: c in kt.notNull ==> exists w :: w in writes && Sets(w, k) && w.col == c)
  {
    forall n ensures FillsColumn(cells, input, kt.name, k, n) <==> exists w :: w in writes && Sets(w, k) && w.col == n {
      FillsIsSet(cells, input, kt.name, writes, k, n);
    }
    if nc :| Fills(cells, input, kt.name, k, nc) { assert FillsColumn(cells, input, kt.name, k, nc.column.col); }
    if w :| w in writes && Sets(w, k) { assert FillsColumn(cells, input, kt.name, k, w.col); }
  }

  ghost predicate ClearsNone(row: Option<Row>, writes: seq<Write>, kt: KeyedTable, k: string) {
    forall w :: w in writes && Clears(w, k) && w.clear == SetNull && w.col in kt.notNull ==> row.None?
  }

  lemma CellsClearNone(row: Option<Row>, cells: seq<Named>, input: map<string, Json>, kt: KeyedTable, k: string, writes: seq<Write>)
    requires GroupSound(cells, input, kt.name, writes) && ClearsNone(row, writes, kt, k)
    ensures NullsNone(row, cells, input, kt, k)
  {
    SentIsWrite(cells, input, kt.name, writes, k);
    forall nc | Empties(cells, input, kt.name, k, nc) && nc.column.clear == SetNull && nc.column.col in kt.notNull ensures row == None {
      var w :| w in writes && SentAs(cells, input, kt.name, k, nc, w);
      assert Clears(w, k);
    }
  }

  lemma WritesClearNone(row: Option<Row>, cells: seq<Named>, input: map<string, Json>, kt: KeyedTable, k: string, writes: seq<Write>)
    requires GroupSound(cells, input, kt.name, writes) && NullsNone(row, cells, input, kt, k)
    ensures ClearsNone(row, writes, kt, k)
  {
    SentIsWrite(cells, input, kt.name, writes, k);
    forall w | w in writes && Clears(w, k) && w.clear == SetNull && w.col in kt.notNull ensures row.None? {
      var nc :| SentAs(cells, input, kt.name, k, nc, w);
      assert Empties(cells, input, kt.name, k, nc);
    }
  }

  lemma GroupedKey(db: Db, cells: seq<Named>, id: string, input: map<string, Json>, kt: KeyedTable, k: string, writes: seq<Write>)
    requires GroupSound(cells, input, kt.name, writes)
    ensures KeyTaken(db, cells, id, input, kt, k) <==> Acceptable(kt, true, At(SideOf(db, kt.name), id, k), writes, k)
  {
    GroupedSets(cells, input, kt, k, writes);
    var row := At(SideOf(db, kt.name), id, k);
    if NullsNone(row, cells, input, kt, k) { WritesClearNone(row, cells, input, kt, k, writes); }
    if ClearsNone(row, writes, kt, k) { CellsClearNone(row, cells, input, kt, k, writes); }
  }

  lemma KeyAccepted(kt: KeyedTable, row: Option<Row>, writes: seq<Write>, k: string)
    requires DistinctCols(writes) && (NoDelete(writes) || |writes| == 1)
    ensures KeyRow(kt, true, row, writes, k).Ok? <==> Acceptable(kt, true, row, writes, k)
  {
    if Keeps(writes, k) {
      GroupedAccepted(kt, true, row, writes, k);
    } else {
      var w := writes[0];
      assert writes == [w];
      KeyRowOne(kt, true, row, w, k);
    }
  }

  lemma TableAccepted(db: Db, cells: seq<Named>, id: string, input: map<string, Json>, kt: KeyedTable)
    requires Separate(cells) && DistinctNames(cells) && id in db.main
    requires OfCell(cells, input, kt)
    ensures WriteMany(kt, db.main.Keys, SideOf(db, kt.name), id, GroupWrites(cells, input, kt.name)).Ok? <==> TableTaken(db, cells, id, input, kt)
  {
    var nc :| nc in cells && Handled(nc, input) && nc.column.side.name == kt.name;
    GroupFits(cells, input, nc);
    var writes, side := GroupWrites(cells, input, kt.name), SideOf(db, kt.name);
    GroupWritesSound(cells, input, kt.name);
    WriteManyLocal(kt, db.main.Keys, side, id, writes);
    forall k ensures KeyRow(kt, id in db.main.Keys, At(side, id, k), writes, k).Ok? <==> KeyTaken(db, cells, id, input, kt, k) {
      KeyAccepted(kt, At(side, id, k), writes, k);
      GroupedKey(db, cells, id, input, kt, k, writes);
    }
  }

  /** Every table to write is that of a cell. */
  ghost predicate OfCells(cells: seq<Named>, input: map<string, Json>, tables: seq<KeyedTable>) {
    forall kt :: kt in tables ==> OfCell(cells, input, kt)
  }

  ghost predicate OfCell(cells: seq<Named>, input: map<string, Json>, kt: KeyedTable) {
    exists nc :: nc in cells && Handled(nc, input) && nc.column.side == kt
  }

  lemma {:induction false} TablesOfCells(cells: seq<Named>, input: map<string, Json>)
    ensures OfCells(cells, input, GroupTables(cells, input))
  {
    if cells != [] {
      var init, last := cells[..|cells| - 1], cells[|cells| - 1];
      TablesOfCells(init, input);
      assert last in cells;
      forall kt | kt in GroupTables(cells, input) ensures OfCell(cells, input, kt) {
        if kt in GroupTables(init, input) {
          var nc :| nc in init && Handled(nc, input) && nc.column.side == kt;
          assert nc in cells;
        }
      }
    }
  }

  ghost predicate TableTaken(db: Db, cells: seq<Named>, id: string, input: map<string, Json>, kt: KeyedTable) {
    forall k :: KeyTaken(db, cells, id, input, kt, k)
  }

  ghost predicate TablesTaken(db: Db, cells: seq<Named>, id: string, input: map<string, Json>, tables: seq<KeyedTable>) {
    forall kt :: kt in tables ==> TableTaken(db, cells, id, input, kt)
  }

  lemma GroupAccepted(db: Db, cells: seq<Named>, id: string, input: map<string, Json>, init: seq<KeyedTable>, kt: KeyedTable, mid: Db)
    requires Separate(cells) && DistinctNames(cells) && id in db.main
    requires OfCell(cells, input, kt) && !HasTable(init, kt.name) && GroupsWritten(db, id, cells, input, init, mid)
    ensures WriteGroup(Ok(mid), id, cells, input, kt).Ok? <==> TableTaken(db, cells, id, input, kt)
  {
    TableAccepted(db, cells, id, input, kt);
    assert SideOf(mid, kt.name) == SideOf(db, kt.name);
  }

  lemma TakenSnoc(db: Db, cells: seq<Named>, id: string, input: map<string, Json>, init: seq<KeyedTable>, kt: KeyedTable)
    ensures TablesTaken(db, cells, id, input, init + [kt]) <==> TablesTaken(db, cells, id, input, init) && TableTaken(db, cells, id, input, kt)
  {
    assert forall x :: x in init + [kt] <==> x in init || x == kt;
  }

  lemma {:induction false} TablesAccepted(db: Db, cells: seq<Named>, id: string, input: map<string, Json>, tables: seq<KeyedTable>)
    requires Separate(cells) && DistinctNames(cells) && id in db.main
    requires OfCells(cells, input, tables) && DistinctTables(tables)
    ensures WriteGroups(db, id, cells, input, tables).Ok? <==> TablesTaken(db, cells, id, input, tables)
  {
    if tables != [] {
      var init, kt := tables[..|tables| - 1], tables[|tables| - 1];
      LastTable(tables);
      assert kt in tables && forall x :: x in init ==> x in tables;
      TablesAccepted(db, cells, id, input, init);
      TakenSnoc(db, cells, id, input, init, kt);
      var before := WriteGroups(db, id, cells, input, init);
      if before.Ok? {
        WriteGroupsSound(db, id, cells, input, init);
        GroupAccepted(db, cells, id, input, init, kt, before.value);
      }
    }
  }

  /** The groups go through exactly when every key of every side table may be written. */
  lemma GroupsAccepted(db: Db, cells: seq<Named>, id: string, input: map<string, Json>)
    requires Separate(cells) && DistinctNames(cells) && Child.SameTables(cells) && id in db.main
    ensures WriteGroups(db, id, cells, input, GroupTables(cells, input)).Ok? <==> GroupsTaken(db, cells, id, input)
  {
    var tables := GroupTables(cells, input);
    TablesOfCells(cells, input);
    GroupTablesDistinct(cells, input);
    TablesAccepted(db, cells, id, input, tables);
    if TablesTaken(db, cells, id, input, tables) {
      forall nc, k | nc in cells && nc.column.KeyedStrings? && SentKey(cells, input, nc.column.side.name, k, nc)
        ensures KeyTaken(db, cells, id, input, nc.column.side, k)
      {
        SideListed(cells, input, nc, tables);
        assert TableTaken(db, cells, id, input, nc.column.side);
      }
    }
    if GroupsTaken(db, cells, id, input) {
      forall kt, k | kt in tables ensures KeyTaken(db, cells, id, input, kt, k) {
        ListedTaken(db, cells, id, input, tables, kt, k);
      }
    }
  }

  lemma SameSide(cells: seq<Named>, a: Named, b: Named)
    requires Child.SameTables(cells) && a in cells && b in cells
    ensures Child.SameTable(a.column, b.column)
  {
    var i :| 0 <= i < |cells| && cells[i] == a;
    var j :| 0 <= j < |cells| && cells[j] == b;
    assert i < j ==> Child.SameTable(cells[i].column, cells[j].column);
    assert j < i ==> Child.SameTable(cells[j].column, cells[i].column);
  }

  lemma SideListed(cells: seq<Named>, input: map<string, Json>, nc: Named, tables: seq<KeyedTable>)
    requires Child.SameTables(cells) && nc in cells && Handled(nc, input)
    requires tables == GroupTables(cells, input) && OfCells(cells, input, tables)
    ensures nc.column.side in tables
  {
    GroupTablesSound(cells, input, nc);
    var i :| 0 <= i < |tables| && tables[i].name == nc.column.side.name;
    assert tables[i] in tables;
    var d :| d in cells && Handled(d, input) && d.column.side == tables[i];
    SameSide(cells, nc, d);
  }

  lemma ListedTaken(db: Db, cells: seq<Named>, id: string, input: map<string, Json>, tables: seq<KeyedTable>, kt: KeyedTable, k: string)
    requires Child.SameTables(cells) && OfCells(cells, input, tables) && kt in tables && GroupsTaken(db, cells, id, input)
    ensures KeyTaken(db, cells, id, input, kt, k)
  {
    if nc :| SentKey(cells, input, kt.name, k, nc) {
      var d :| d in cells && Handled(d, input) && d.column.side == kt;
      SameSide(cells, nc, d);
      assert KeyTaken(db, cells, id, input, nc.column.side, k);
    }
  }

  // --- the deferred loop -------------------------------------------------------------------------------

  ghost predicate AllDeclared(cells: seq<Named>) {
    forall nc :: nc in cells ==> CellDeclared(nc.column)
  }

  /** A cell of the second phase that is written by its group, or takes its value. */
  ghost predicate TurnTaken(db: Db, nc: Named, id: string, input: map<string, Json>)
    requires CellOk(nc.column)
  {
    !Handled(nc, input) ==> CellTakes(db, nc.column, id, At0(input, nc.name))
  }

  lemma TurnAccepted(start: Second, id: string, init: seq<Named>, input: map<string, Json>, gen: IdSource, s: Second, nc: Named)
    requires CellsOk(init) && CellOk(nc.column) && CellDeclared(nc.column)
    requires InPhase(start, id, init, input, gen, s) && SameTargets(start.db, s.db) && nc.name in input
    requires forall d :: d in init ==> !Touches(d.column, StorageOf(nc.column))
    ensures SecondSave(s, id, nc, input, gen).Ok? <==> TurnTaken(start.db, nc, id, input)
  {
    if !Handled(nc, input) {
      assert Untouched(init, StorageOf(nc.column));
      CellAccepted(s.db, s.next, nc.column, id, input[nc.name], gen);
      TakesSame(start.db, s.db, nc.column, id, input[nc.name]);
    }
  }

  /** The deferred loop goes through exactly when every cell takes its value, told from the
      state it starts from. */
  lemma {:induction false} PhaseAccepted(start: Second, id: string, cells: seq<Named>, input: map<string, Json>, gen: IdSource)
    requires StartOk(start, cells, input, gen) && Separate(cells) && AllDeclared(cells) && id in start.db.main
    ensures SecondPhase(start, id, cells, input, gen).Ok? <==> forall nc :: nc in cells ==> TurnTaken(start.db, nc, id, input)
  {
    if cells != [] {
      var init, nc := cells[..|cells| - 1], cells[|cells| - 1];
      assert cells == init + [nc];
      PrefixCells(cells, input, start);
      SeparateSnoc(cells);
      PhaseAccepted(start, id, init, input, gen);
      var before := SecondPhase(start, id, init, input, gen);
      if before.Ok? {
        SecondPhaseSound(start, id, init, input, gen);
        PhaseRefusal(start, id, init, input, gen);
        TurnAccepted(start, id, init, input, gen, before.value, nc);
      }
    }
  }

  // --- the two UPDATEs ----------------------------------------------------------------------------------

  ghost predicate AllTaken(assigns: seq<Assign>) {
    forall a :: a in assigns ==> a.admit(a.value).Ok?
  }

  lemma UpdateTaken(db: Db, id: string, assigns: seq<Assign>, clock: Clock)
    ensures UpdateIfAny(db, id, assigns, clock).Ok? <==> AllTaken(assigns)
  {
    EvaluateRefused(assigns);
  }

  ghost predicate PlanTaken(nc: Named, input: map<string, Json>) {
    Planned(nc, input) ==> AdmitOf(nc.column)(AssignParse(nc.column, input[nc.name]).value.stored).Ok?
  }

  lemma {:induction false} PlanAccepted(cols: seq<Named>, input: map<string, Json>)
    ensures AllTaken(Assignments(cols, input).assigns) <==> forall nc :: nc in cols ==> PlanTaken(nc, input)
  {
    if cols != [] {
      var init, last := cols[..|cols| - 1], cols[|cols| - 1];
      assert cols == init + [last];
      PlanAccepted(init, input);
      PlanLast(init, last, input);
    }
  }

  lemma PlanLast(init: seq<Named>, last: Named, input: map<string, Json>)
    ensures AllTaken(Assignments(init + [last], input).assigns) <==> AllTaken(Assignments(init, input).assigns) && PlanTaken(last, input)
  {
    var cols := init + [last];
    assert cols[..|cols| - 1] == init && cols[|cols| - 1] == last;
    var before := Assignments(init, input).assigns;
    if Planned(last, input) {
      assert Assignments(cols, input).assigns == before + [PlannedAssign(last, input)];
      assert forall a :: a in before + [PlannedAssign(last, input)] <==> a in before || a == PlannedAssign(last, input);
    } else {
      assert Assignments(cols, input).assigns == before;
    }
  }

  /** What a resolved column writes back is taken. */
  ghost predicate BackTaken(nc: Named, id: string, input: map<string, Json>) {
    forall a: Assign :: WritesBack(nc, id, input, a) ==> a.admit(a.value).Ok?
  }

  lemma {:induction false} BackAccepted(start: Second, id: string, cells: seq<Named>, input: map<string, Json>, gen: IdSource)
    requires CellsOk(cells) && (forall d :: d in cells ==> d.column.Saves())
    requires SecondPhase(start, id, cells, input, gen).Ok?
    ensures AllTaken(SecondPhase(start, id, cells, input, gen).value.back) <==> AllTaken(start.back) && forall nc :: nc in cells ==> BackTaken(nc, id, input)
  {
    if cells != [] {
      var init, nc := cells[..|cells| - 1], cells[|cells| - 1];
      assert cells == init + [nc];
      BackAccepted(start, id, init, input, gen);
      BackLast(SecondPhase(start, id, init, input, gen).value, id, nc, input, gen);
    }
  }

  lemma BackLast(s: Second, id: string, nc: Named, input: map<string, Json>, gen: IdSource)
    requires CellOk(nc.column) && nc.column.Saves() && SecondSave(s, id, nc, input, gen).Ok?
    ensures AllTaken(Record(s, nc, SecondSave(s, id, nc, input, gen).value).back) <==> AllTaken(s.back) && BackTaken(nc, id, input)
  {
    var r := Record(s, nc, SecondSave(s, id, nc, input, gen).value).back;
    if nc.column.Deferred? && nc.column.resolve(id, At0(input, nc.name)).value != Null {
      var a := AssignOf(nc.column, nc.column.resolve(id, At0(input, nc.name)).value);
      assert r == s.back + [a] && WritesBack(nc, id, input, a);
      assert forall x :: x in r <==> x in s.back || x == a;
    } else {
      assert r == s.back;
    }
  }

  // --- a save -------------------------------------------------------------------------------------------

  /** A value of one field the save may write. */
  ghost predicate FieldTaken(db: Db, nc: Named, id: string, v: Json)
    requires CellOk(nc.column)
  {
    match nc.column
    case ReadOnly(_, _) => true
    case Scalar(_, parse, admit, _) => parse(v).Some? ==> admit(parse(v).value.stored).Ok?
    case Deferred(_, resolve, admit) =>
      if v == Null then admit(SqlNull).Ok?
      else resolve(id, v).Ok? && (resolve(id, v).value != Null ==> admit(SqlText(StringOf(resolve(id, v).value))).Ok?)
    case KeyedStrings(_, _, _) => true
    case _ => CellTakes(db, nc.column, id, v)
  }

  /** A payload the save may write: every field, and every key of every side table. */
  ghost predicate PayloadTaken(t: Table, db: Db, id: string, input: map<string, Json>)
    requires CellsOk(t.cols)
  {
    && (forall nc :: nc in t.cols && nc.name in input ==> FieldTaken(db, nc, id, input[nc.name]))
    && GroupsTaken(db, t.cols, id, input)
  }

  /** The cells of a declaration whose elements and side tables are declared once. */
  ghost predicate Accountable(t: Table) {
    AllDeclared(t.cols) && Child.SameTables(t.cols)
  }

  lemma FieldParts(db: Db, nc: Named, id: string, input: map<string, Json>)
    requires CellOk(nc.column) && nc.name in input
    ensures FieldTaken(db, nc, id, input[nc.name]) <==>
      PlanTaken(nc, input) && (InSecond(nc, input) ==> TurnTaken(db, nc, id, input) && BackTaken(nc, id, input))
  {
    if nc.column.Deferred? && input[nc.name] != Null && nc.column.resolve(id, input[nc.name]).Ok? && nc.column.resolve(id, input[nc.name]).value != Null {
      assert WritesBack(nc, id, input, AssignOf(nc.column, nc.column.resolve(id, input[nc.name]).value));
    }
  }

  lemma GroupsOfTable(db: Db, cols: seq<Named>, cells: seq<Named>, id: string, input: map<string, Json>)
    requires forall nc :: nc in cells <==> nc in cols && InSecond(nc, input)
    ensures GroupsTaken(db, cells, id, input) <==> GroupsTaken(db, cols, id, input)
  {
    forall table, k, nc ensures SentKey(cells, input, table, k, nc) <==> SentKey(cols, input, table, k, nc) {}
    forall kt, k ensures KeyTaken(db, cells, id, input, kt, k) <==> KeyTaken(db, cols, id, input, kt, k) {
      KeyOfTable(db, cols, cells, id, input, kt, k);
    }
  }

  lemma KeyOfTable(db: Db, cols: seq<Named>, cells: seq<Named>, id: string, input: map<string, Json>, kt: KeyedTable, k: string)
    requires forall nc :: SentKey(cells, input, kt.name, k, nc) <==> SentKey(cols, input, kt.name, k, nc)
    ensures KeyTaken(db, cells, id, input, kt, k) <==> KeyTaken(db, cols, id, input, kt, k)
  {
    forall nc ensures Fills(cells, input, kt.name, k, nc) <==> Fills(cols, input, kt.name, k, nc) {}
    forall nc ensures Empties(cells, input, kt.name, k, nc) <==> Empties(cols, input, kt.name, k, nc) {}
    forall n ensures FillsColumn(cells, input, kt.name, k, n) <==> FillsColumn(cols, input, kt.name, k, n) {}
  }

  /** What the second phase and the second UPDATE ask of the cells. */
  ghost predicate CellsTaken(db: Db, cells: seq<Named>, id: string, input: map<string, Json>)
    requires CellsOk(cells)
  {
    forall nc :: nc in cells ==> TurnTaken(db, nc, id, input) && BackTaken(nc, id, input)
  }

  lemma CellsTakenKept(a: Db, b: Db, cells: seq<Named>, id: string, input: map<string, Json>)
    requires CellsOk(cells) && a.childs == b.childs && a.rels == b.rels
    ensures CellsTaken(a, cells, id, input) <==> CellsTaken(b, cells, id, input)
  {
    forall nc | nc in cells ensures TurnTaken(a, nc, id, input) <==> TurnTaken(b, nc, id, input) {
      TakesKept(a, b, nc.column, id, At0(input, nc.name));
    }
  }

  lemma GroupsTakenKept(a: Db, b: Db, cols: seq<Named>, id: string, input: map<string, Json>)
    requires a.sides == b.sides
    ensures GroupsTaken(a, cols, id, input) <==> GroupsTaken(b, cols, id, input)
  {
    forall kt, k ensures KeyTaken(a, cols, id, input, kt, k) <==> KeyTaken(b, cols, id, input, kt, k) {
      assert SideOf(a, kt.name) == SideOf(b, kt.name);
    }
  }

  /** The phases after the groups. */
  lemma PhasesAccepted(start: Second, id: string, cells: seq<Named>, input: map<string, Json>, clock: Clock, gen: IdSource)
    requires StartOk(start, cells, input, gen) && Separate(cells) && AllDeclared(cells) && id in start.db.main
    ensures (SecondPhase(start, id, cells, input, gen).Ok? && AllTaken(SecondPhase(start, id, cells, input, gen).value.back))
       <==> CellsTaken(start.db, cells, id, input) && AllTaken(start.back)
  {
    PhaseAccepted(start, id, cells, input, gen);
    if SecondPhase(start, id, cells, input, gen).Ok? { BackAccepted(start, id, cells, input, gen); }
  }

  lemma FinishAccepted(start: Second, id: string, cells: seq<Named>, input: map<string, Json>, clock: Clock, gen: IdSource)
    requires StartOk(start, cells, input, gen) && Separate(cells) && AllDeclared(cells) && Child.SameTables(cells) && id in start.db.main
    ensures Finish(start, id, cells, input, clock, gen).Ok? <==>
      GroupsTaken(start.db, cells, id, input) && CellsTaken(start.db, cells, id, input) && AllTaken(start.back)
  {
    GroupsAccepted(start.db, cells, id, input);
    var grouped := WriteGroups(start.db, id, cells, input, GroupTables(cells, input));
    if grouped.Ok? {
      GroupTablesDistinct(cells, input);
      WriteGroupsSound(start.db, id, cells, input, GroupTables(cells, input));
      GroupedStart(start, id, cells, input, gen, grouped.value);
      CellsTakenKept(start.db, grouped.value, cells, id, input);
      PhasesAccepted(start.(db := grouped.value), id, cells, input, clock, gen);
      FinishEnds(start, id, cells, input, clock, gen, grouped.value);
    }
  }

  lemma FinishEnds(start: Second, id: string, cells: seq<Named>, input: map<string, Json>, clock: Clock, gen: IdSource, grouped: Db)
    requires CellsOk(cells) && WriteGroups(start.db, id, cells, input, GroupTables(cells, input)) == Ok(grouped)
    ensures Finish(start, id, cells, input, clock, gen).Ok? <==>
      var s := SecondPhase(start.(db := grouped), id, cells, input, gen); s.Ok? && AllTaken(s.value.back)
  {
    var s := SecondPhase(start.(db := grouped), id, cells, input, gen);
    if s.Ok? { UpdateTaken(s.value.db, id, s.value.back, clock); }
  }

  lemma TableCells(t: Table, input: map<string, Json>)
    requires WellDeclared(t) && Separate(t.cols) && Accountable(t)
    ensures var cells := DeferredCells(t.cols, input);
      CellsOk(cells) && Separate(cells) && AllDeclared(cells) && Child.SameTables(cells)
  {
    DeferredOk(t.cols, input);
    DeferredDistinct(t.cols, input);
    var cells := DeferredCells(t.cols, input);
    forall i, j | 0 <= i < j < |cells| ensures Child.SameTable(cells[i].column, cells[j].column) {
      assert cells[i] in cells && cells[j] in cells;
      SameSide(t.cols, cells[i], cells[j]);
    }
  }

  /** The parts of a save together are what the payload asks for. */
  lemma PayloadParts(t: Table, db: Db, id: string, input: map<string, Json>)
    requires CellsOk(t.cols)
    ensures CellsOk(DeferredCells(t.cols, input))
    ensures PayloadTaken(t, db, id, input) <==>
      AllTaken(Assignments(t.cols, input).assigns) && GroupsTaken(db, DeferredCells(t.cols, input), id, input) && CellsTaken(db, DeferredCells(t.cols, input), id, input)
  {
    DeferredOk(t.cols, input);
    var cells := DeferredCells(t.cols, input);
    PlanAccepted(t.cols, input);
    GroupsOfTable(db, t.cols, cells, id, input);
    forall nc | nc in t.cols && nc.name in input
      ensures FieldTaken(db, nc, id, input[nc.name]) <==> PlanTaken(nc, input) && (nc in cells ==> TurnTaken(db, nc, id, input) && BackTaken(nc, id, input))
    {
      FieldParts(db, nc, id, input);
    }
  }

  /** An update is accepted if and only if the row is there and every field the payload
      names, and every key of every side table it writes, may be written as it is. */
  lemma UpdateAccepted(t: Table, clock: Clock, render: Render, db: Db, next: nat, id: string, input: map<string, Json>, gen: IdSource)
    requires TableOk(t, clock) && Accountable(t) && Sound(db, gen, next)
    ensures SaveUpdate(t, clock, render, db, next, id, input, gen).Ok? <==> id in db.main && PayloadTaken(t, db, id, input)
  {
    TableCells(t, input);
    PayloadParts(t, db, id, input);
    var plan, cells := Assignments(t.cols, input), DeferredCells(t.cols, input);
    UpdateTaken(db, id, plan.assigns, clock);
    if id in db.main && AllTaken(plan.assigns) {
      var db1 := UpdateIfAny(db, id, plan.assigns, clock).value;
      UpdateFinishes(t, clock, db, next, id, input, gen, db1, cells);
    }
  }

  lemma UpdateFinishes(t: Table, clock: Clock, db: Db, next: nat, id: string, input: map<string, Json>, gen: IdSource, db1: Db, cells: seq<Named>)
    requires Bookkept(t, clock) && Sound(db, gen, next) && id in db.main && cells == DeferredCells(t.cols, input)
    requires Separate(cells) && AllDeclared(cells) && Child.SameTables(cells) && CellsOk(cells)
    requires UpdateIfAny(db, id, Assignments(t.cols, input).assigns, clock) == Ok(db1)
    ensures Finish(UpdateStart(t, clock, db1, next, input), id, cells, input, clock, gen).Ok? <==> GroupsTaken(db, cells, id, input) && CellsTaken(db, cells, id, input)
  {
    UpdateRow(db, id, Assignments(t.cols, input).assigns, clock);
    UpdateStartOk(t, clock, db1, next, input, gen);
    FinishAccepted(UpdateStart(t, clock, db1, next, input), id, cells, input, clock, gen);
    GroupsTakenKept(db, db1, cells, id, input);
    CellsTakenKept(db, db1, cells, id, input);
  }

  /** A create is accepted if and only if its hook inserts a row under a new id and the
      payload may be written as it is. */
  lemma CreateAccepted(t: Table, clock: Clock, hook: Hook, db: Db, next: nat, input: map<string, Json>, gen: IdSource)
    requires TableOk(t, clock) && Accountable(t) && Sound(db, gen, next)
    ensures SaveCreate(t, clock, hook, db, next, input, gen).Ok? <==>
      hook.Inserts? && hook.id !in db.main && PayloadTaken(t, db, hook.id, input)
  {
    if hook.Inserts? && hook.id !in db.main {
      TableCells(t, input);
      PayloadParts(t, db, hook.id, input);
      CreateStartOk(t, clock, hook, db, next, input, gen);
      CreateFinishes(t, clock, hook, db, next, input, gen, DeferredCells(t.cols, input));
      MergedFinishes(t, clock, hook, db, next, input, gen);
    }
  }

  lemma MergedFinishes(t: Table, clock: Clock, hook: Hook, db: Db, next: nat, input: map<string, Json>, gen: IdSource)
    requires CellsOk(t.cols) && hook.Inserts? && hook.id !in db.main
    ensures CellsOk(DeferredCells(t.cols, input))
    ensures SaveCreate(t, clock, hook, db, next, input, gen).Ok? <==>
      Finish(CreateStart(t, hook, db, next, input), hook.id, DeferredCells(t.cols, input), input, clock, gen).Ok?
  {
    DeferredOk(t.cols, input);
    var start, merged := CreateStart(t, hook, db, next, input), MergeHook(hook.changes, Assignments(t.cols, input));
    MergeKeepsAssigns(hook.changes, Assignments(t.cols, input));
    assert Onto(start, merged.changed, merged.newVals) == Second(CreateTruth.Inserted(db, hook), next, merged.changed, merged.newVals, merged.assigns);
    FinishOnto(start, hook.id, DeferredCells(t.cols, input), input, clock, gen, merged.changed, merged.newVals);
  }

  lemma CreateFinishes(t: Table, clock: Clock, hook: Hook, db: Db, next: nat, input: map<string, Json>, gen: IdSource, cells: seq<Named>)
    requires hook.Inserts? && CellsOk(cells) && Separate(cells) && AllDeclared(cells) && Child.SameTables(cells)
    requires StartOk(CreateStart(t, hook, db, next, input), cells, input, gen)
    ensures Finish(CreateStart(t, hook, db, next, input), hook.id, cells, input, clock, gen).Ok? <==>
      GroupsTaken(db, cells, hook.id, input) && CellsTaken(db, cells, hook.id, input) && AllTaken(Assignments(t.cols, input).assigns)
  {
    FinishAccepted(CreateStart(t, hook, db, next, input), hook.id, cells, input, clock, gen);
    GroupsTakenKept(db, CreateTruth.Inserted(db, hook), cells, hook.id, input);
    CellsTakenKept(db, CreateTruth.Inserted(db, hook), cells, hook.id, input);
  }
}
