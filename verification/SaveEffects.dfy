/** What every field of a row reads as after a save, told from the row before and from
    what was sent. */
module SaveEffects {
  import opened Values
  import opened Ordering
  import opened SideTables
  import opened KeyedLaws
  import opened Columns
  import opened ChildTables
  import opened ChildLaws
  import opened ChildTheorems
  import opened ChildLists
  import opened ListLaws
  import opened Selections
  import opened Database
  import opened CellLaws
  import opened Replacement

  // --- keyed maps ------------------------------------------------------------------------------

  /** A map after its cell was sent a patch: a non-empty text is held as sent; any other
      value clears, which leaves the text of the policy in a row that is there and nothing
      otherwise; what was not sent stays, and keys that hold nothing are left out. */
  ghost predicate MapBecomes(side: Side, parent: string, w: Write, m: map<string, string>) {
    forall k :: KeyBecomes(side, parent, w, m, k)
  }

  ghost predicate KeyBecomes(side: Side, parent: string, w: Write, m: map<string, string>, k: string) {
    var before := Read(side, parent, w.col);
    if k !in w.patch then (k in m <==> k in before) && (k in m ==> m[k] == before[k])
    else if w.patch[k].Str? && w.patch[k].s != "" then (k in m <==> k != "") && (k in m ==> m[k] == w.patch[k].s)
    else
      && (k in m <==> k != "" && At(side, parent, k).Some? && w.clear.SetText? && w.clear.text != "")
      && (k in m ==> m[k] == w.clear.text)
  }

  lemma KeyTextIs(kt: KeyedTable, parentExists: bool, row: Option<Row>, writes: seq<Write>, w: Write, key: string)
    requires DistinctCols(writes) && w in writes && (NoDelete(writes) || writes == [w])
    requires KeyRow(kt, parentExists, row, writes, key).Ok?
    ensures Text(KeyRow(kt, parentExists, row, writes, key).value, w.col) == CellText(row, w, key, row.Some?)
  {
    if Keeps(writes, key) {
      GroupedText(kt, parentExists, row, writes, key, w);
    } else {
      KeyRowOne(kt, parentExists, row, w, key);
    }
  }

  /** So it is for every cell of a group, if none deletes rows of the others. */
  lemma GroupedMapBecomes(kt: KeyedTable, parents: set<string>, side: Side, parent: string, writes: seq<Write>, w: Write)
    requires DistinctCols(writes) && w in writes && (NoDelete(writes) || writes == [w])
    requires WriteMany(kt, parents, side, parent, writes).Ok?
    ensures MapBecomes(side, parent, w, Read(WriteMany(kt, parents, side, parent, writes).value, parent, w.col))
  {
    var out := WriteMany(kt, parents, side, parent, writes).value;
    WriteManyLocal(kt, parents, side, parent, writes);
    forall k ensures Text(At(out, parent, k), w.col) == CellText(At(side, parent, k), w, k, At(side, parent, k).Some?) {
      KeyTextIs(kt, parent in parents, At(side, parent, k), writes, w, k);
    }
    TextsBecome(side, out, parent, w);
  }

  lemma TextsBecome(side: Side, out: Side, parent: string, w: Write)
    requires forall k :: Text(At(out, parent, k), w.col) == CellText(At(side, parent, k), w, k, At(side, parent, k).Some?)
    ensures MapBecomes(side, parent, w, Read(out, parent, w.col))
  {
    forall k ensures KeyBecomes(side, parent, w, Read(out, parent, w.col), k) {
      ReadAt(out, parent, w.col, k);
      ReadAt(side, parent, w.col, k);
    }
  }

  // --- lists of objects ------------------------------------------------------------------------

  /** Which row each element of a list is: the first to name an own row is that row, and
      every other one a row that was never there. */
  ghost predicate Rowed(ct: ChildTable, inner: Table, d: ChildDb, parent: string, key: string, objs: seq<Json>, gen: IdSource, next: nat, ids: seq<string>) {
    var idField, owned := IdFieldOf(inner), Owned(ct, d.rows, parent, key);
    && |ids| == |objs| && Distinct(ids)
    && forall i :: 0 <= i < |objs| ==>
         if FirstOwn(idField, owned, objs, i) then ids[i] == SubmittedId(idField, objs[i]) else exists k: nat :: next <= k && ids[i] == gen(k)
  }

  /** Each element reads as the row it is, with what was sent over it. */
  ghost predicate RowsBecome(inner: Table, d: ChildDb, objs: seq<Json>, ids: seq<string>, list: seq<Json>) {
    && |list| == |objs| == |ids| && AllObjects(objs)
    && forall i :: 0 <= i < |objs| ==> list[i] == ExpectedItem(inner, d, ids[i], objs[i].fields)
  }

  /** One partition after it was sent a list. */
  ghost predicate PartitionBecomes(ct: ChildTable, shape: Shape, d: ChildDb, parent: string, key: string, items: seq<Json>, gen: IdSource, next: nat, list: seq<Json>)
    requires ShapeOk(ct, shape)
  {
    match shape
    case Rows(inner) =>
      exists pos: seq<nat>, objs: seq<Json>, ids: seq<string> ::
        ObjectsOf(items, pos, objs) && Rowed(ct, inner, d, parent, key, objs, gen, next, ids) && RowsBecome(inner, d, objs, ids, list)
    case Values(elem) => exists pos: seq<nat> :: ParsedTo(elem, items, pos, list)
  }

  lemma PartitionReads(ct: ChildTable, shape: Shape, st: ChildState, parent: string, key: string, items: seq<Json>, gen: IdSource)
    requires ShapeOk(ct, shape) && RightKey(ct, key) && (shape.Rows? ==> ClearsFit(shape.inner.cols))
    requires Unissued(gen, st.next, st.db.rows)
    requires WritePartition(ct, shape, st, parent, key, items, gen).Ok?
    ensures PartitionBecomes(ct, shape, st.db, parent, key, items, gen, st.next,
      ReadPartition(ct, shape, WritePartition(ct, shape, st, parent, key, items, gen).value.db, parent, key))
  {
    match shape
    case Rows(inner) =>
      SaveReadsBack(ct, inner, st.db, parent, key, items, gen, st.next);
      var pos := ObjectsSelected(items);
      var out := WriteRows(ct, inner, st.db, parent, key, items, gen, st.next).value;
      RowsRead(ct, inner, st.db, parent, key, Objects(items), gen, st.next, out);
    case Values(elem) =>
      ReplaceReadsBack(ct, elem, st.db, parent, key, items, gen, st.next);
      var pos := ReadsParsed(elem, items);
  }

  lemma RowsRead(ct: ChildTable, inner: Table, d: ChildDb, parent: string, key: string, objs: seq<Json>, gen: IdSource, next: nat, out: Progress)
    requires Identified(ct, inner, d, parent, key, objs, gen, next, out) && ReadsBack(ct, inner, d, parent, key, objs, out)
    ensures Rowed(ct, inner, d, parent, key, objs, gen, next, out.landed)
    ensures RowsBecome(inner, d, objs, out.landed, ReadRows(ct, inner, out.db, parent, key))
  {}

  // --- keyed lists -------------------------------------------------------------------------------

  /** Writing one partition leaves the rows of another alone. */
  lemma OtherScopeStays(ct: ChildTable, gen: IdSource, st: ChildState, parent: string, key: string, out: ChildState, k: string)
    requires ct.partitioned && key != "" && k != "" && k != key
    requires PartitionWritten(ct, gen, st, parent, key, out)
    ensures SameScope(ct, st.db, out.db, parent, k)
  {}

  lemma SameScopeTransitive(ct: ChildTable, a: ChildDb, b: ChildDb, c: ChildDb, parent: string, k: string)
    requires SameScope(ct, a, b, parent, k) && SameScope(ct, b, c, parent, k)
    ensures SameScope(ct, a, c, parent, k)
  {}

  lemma {:induction false} UnnamedScope(ct: ChildTable, shape: Shape, gen: IdSource, st: ChildState, parent: string, patch: map<string, Json>, keys: seq<string>, k: string)
    requires ShapeOk(ct, shape) && ct.partitioned
    requires Unissued(gen, st.next, st.db.rows) && NestedKeys(st.db)
    requires forall i, j :: 0 <= i < j < |keys| ==> keys[i] != keys[j]
    requires k != "" && (k !in keys || !Patches(patch, k)) && WriteParts(ct, shape, st, parent, patch, keys, gen).Ok?
    ensures SameScope(ct, st.db, WriteParts(ct, shape, st, parent, patch, keys, gen).value.db, parent, k)
  {
    if keys != [] {
      var init, key := keys[..|keys| - 1], keys[|keys| - 1];
      LastKey(keys);
      UnnamedScope(ct, shape, gen, st, parent, patch, init, k);
      WritePartsLaw(ct, shape, gen, st, parent, patch, init);
      var mid := WriteParts(ct, shape, st, parent, patch, init, gen).value;
      if Patches(patch, key) {
        WritePartitionLaw(ct, shape, mid, parent, key, patch[key].items, gen);
        var out := WriteParts(ct, shape, st, parent, patch, keys, gen).value;
        OtherScopeStays(ct, gen, mid, parent, key, out, k);
        SameScopeTransitive(ct, st.db, mid.db, out.db, parent, k);
      }
    }
  }

  lemma SameOwned(ct: ChildTable, d: ChildDb, e: ChildDb, parent: string, key: string)
    requires SameScope(ct, d, e, parent, key)
    ensures Owned(ct, e.rows, parent, key) == Owned(ct, d.rows, parent, key)
  {}

  lemma SameFieldExpected(inner: Table, d: ChildDb, e: ChildDb, id: string, item: map<string, Json>, n: string, c: Column)
    requires id in d.rows && id in e.rows && e.rows[id] == d.rows[id] && SameNested(e, d, id)
    ensures ExpectedField(inner, e, id, item, n, c) == ExpectedField(inner, d, id, item, n, c)
  {
    if c.KeyedStrings? { SameNestedReads(e, d, id, c.side.name, c.col); }
  }

  lemma SameRowExpected(inner: Table, d: ChildDb, e: ChildDb, id: string, item: map<string, Json>)
    requires id in d.rows && id in e.rows && e.rows[id] == d.rows[id] && SameNested(e, d, id)
    ensures ExpectedItem(inner, e, id, item) == ExpectedItem(inner, d, id, item)
  {
    forall n | n in Names(inner.cols)
      ensures ExpectedField(inner, e, id, item, n, Lookup(inner.cols, n).value) == ExpectedField(inner, d, id, item, n, Lookup(inner.cols, n).value)
    {
      SameFieldExpected(inner, d, e, id, item, n, Lookup(inner.cols, n).value);
    }
  }

  /** What a partition becomes is told from an earlier state with the same partition. */
  lemma BecomesEarlier(ct: ChildTable, shape: Shape, d: ChildDb, n: nat, e: ChildDb, m: nat, parent: string, key: string, items: seq<Json>, gen: IdSource, list: seq<Json>)
    requires ShapeOk(ct, shape) && SameScope(ct, d, e, parent, key) && n <= m
    requires Unissued(gen, n, d.rows) && NestedKeys(d) && Unissued(gen, m, e.rows) && NestedKeys(e)
    requires PartitionBecomes(ct, shape, e, parent, key, items, gen, m, list)
    ensures PartitionBecomes(ct, shape, d, parent, key, items, gen, n, list)
  {
    if shape.Rows? {
      var inner := shape.inner;
      var pos: seq<nat>, objs: seq<Json>, ids: seq<string> :|
        ObjectsOf(items, pos, objs) && Rowed(ct, inner, e, parent, key, objs, gen, m, ids) && RowsBecome(inner, e, objs, ids, list);
      RowedEarlier(ct, inner, d, n, e, m, parent, key, objs, gen, ids, list);
    }
  }

  lemma RowedEarlier(ct: ChildTable, inner: Table, d: ChildDb, n: nat, e: ChildDb, m: nat, parent: string, key: string, objs: seq<Json>, gen: IdSource, ids: seq<string>, list: seq<Json>)
    requires SameScope(ct, d, e, parent, key) && n <= m
    requires Unissued(gen, n, d.rows) && NestedKeys(d) && Unissued(gen, m, e.rows) && NestedKeys(e)
    requires Rowed(ct, inner, e, parent, key, objs, gen, m, ids) && RowsBecome(inner, e, objs, ids, list)
    ensures Rowed(ct, inner, d, parent, key, objs, gen, n, ids) && RowsBecome(inner, d, objs, ids, list)
  {
    SameOwned(ct, d, e, parent, key);
    forall i | 0 <= i < |objs| ensures ExpectedItem(inner, d, ids[i], objs[i].fields) == ExpectedItem(inner, e, ids[i], objs[i].fields) {
      ItemEarlier(ct, inner, d, n, e, m, parent, key, objs, gen, ids, i);
    }
  }

  lemma ItemEarlier(ct: ChildTable, inner: Table, d: ChildDb, n: nat, e: ChildDb, m: nat, parent: string, key: string, objs: seq<Json>, gen: IdSource, ids: seq<string>, i: nat)
    requires SameScope(ct, d, e, parent, key) && n <= m && AllObjects(objs) && i < |objs|
    requires Unissued(gen, n, d.rows) && NestedKeys(d) && Unissued(gen, m, e.rows) && NestedKeys(e)
    requires Rowed(ct, inner, e, parent, key, objs, gen, m, ids)
    ensures ExpectedItem(inner, d, ids[i], objs[i].fields) == ExpectedItem(inner, e, ids[i], objs[i].fields)
  {
    if FirstOwn(IdFieldOf(inner), Owned(ct, e.rows, parent, key), objs, i) {
      assert ids[i] in Scope(ct, e.rows, parent, key);
      SameRowExpected(inner, d, e, ids[i], objs[i].fields);
    } else {
      var k: nat :| m <= k && ids[i] == gen(k);
      NewRowsStartEmpty(inner, d, ids[i], objs[i].fields);
      NewRowsStartEmpty(inner, e, ids[i], objs[i].fields);
    }
  }

  /** A partition a keyed payload names becomes what its own list says. */
  lemma {:induction false} PartBecomes(ct: ChildTable, shape: Shape, gen: IdSource, st: ChildState, parent: string, patch: map<string, Json>, keys: seq<string>, k: string)
    requires ShapeOk(ct, shape) && ct.partitioned && (shape.Rows? ==> ClearsFit(shape.inner.cols))
    requires Unissued(gen, st.next, st.db.rows) && NestedKeys(st.db)
    requires forall i, j :: 0 <= i < j < |keys| ==> keys[i] != keys[j]
    requires k in keys && Patches(patch, k) && WriteParts(ct, shape, st, parent, patch, keys, gen).Ok?
    ensures PartitionBecomes(ct, shape, st.db, parent, k, patch[k].items, gen, st.next,
      ReadPartition(ct, shape, WriteParts(ct, shape, st, parent, patch, keys, gen).value.db, parent, k))
  {
    var init, key := keys[..|keys| - 1], keys[|keys| - 1];
    LastKey(keys);
    WritePartsLaw(ct, shape, gen, st, parent, patch, init);
    var mid := WriteParts(ct, shape, st, parent, patch, init, gen).value;
    if k == key {
      UnnamedScope(ct, shape, gen, st, parent, patch, init, k);
      PartitionReads(ct, shape, mid, parent, k, patch[k].items, gen);
      BecomesEarlier(ct, shape, st.db, st.next, mid.db, mid.next, parent, k, patch[k].items, gen,
        ReadPartition(ct, shape, WriteParts(ct, shape, st, parent, patch, keys, gen).value.db, parent, k));
    } else {
      PartBecomes(ct, shape, gen, st, parent, patch, init, k);
      if Patches(patch, key) {
        WritePartitionLaw(ct, shape, mid, parent, key, patch[key].items, gen);
        ApartReads(ct, shape, gen, mid, parent, key, WriteParts(ct, shape, st, parent, patch, keys, gen).value, parent, k);
      }
    }
  }

  // --- any child list ------------------------------------------------------------------------------

  /** The list of one partition in what a keyed cell reads. */
  function PartOf(w: Json, k: string): seq<Json> {
    if w.Obj? && k in w.fields && w.fields[k].Arr? then w.fields[k].items else []
  }

  /** A keyed read lists the non-empty partitions with a key. */
  ghost predicate KeyedRead(w: Json) {
    w.Obj? && forall k :: k in w.fields ==> k != "" && w.fields[k].Arr? && w.fields[k] != Arr([])
  }

  /** What a child list reads as after it was sent a value. */
  ghost predicate ListBecomes(ct: ChildTable, shape: Shape, d: ChildDb, parent: string, v: Json, gen: IdSource, next: nat, w: Json)
    requires ShapeOk(ct, shape)
  {
    if ct.partitioned then
      if !v.Obj? then w == LoadList(ct, shape, d, parent)
      else
        && KeyedRead(w)
        && forall k :: k != "" ==>
             if k in v.fields && v.fields[k].Arr? then PartitionBecomes(ct, shape, d, parent, k, v.fields[k].items, gen, next, PartOf(w, k))
             else PartOf(w, k) == ReadPartition(ct, shape, d, parent, k)
    else
      if !v.Arr? then w == LoadList(ct, shape, d, parent)
      else w.Arr? && PartitionBecomes(ct, shape, d, parent, "", v.items, gen, next, w.items)
  }

  lemma LoadedParts(ct: ChildTable, shape: Shape, d: ChildDb, parent: string)
    requires ShapeOk(ct, shape) && ct.partitioned
    ensures KeyedRead(LoadList(ct, shape, d, parent))
    ensures forall k :: k != "" ==> PartOf(LoadList(ct, shape, d, parent), k) == ReadPartition(ct, shape, d, parent, k)
  {
    forall k | k != ""
      ensures k in PartitionKeys(d.rows, parent) <==> ReadPartition(ct, shape, d, parent, k) != []
    {
      PartitionSelected(ct, d.rows, parent, k);
      ReadLength(ct, shape, d, parent, k);
    }
  }

  lemma ReadLength(ct: ChildTable, shape: Shape, d: ChildDb, parent: string, k: string)
    requires ShapeOk(ct, shape)
    ensures |ReadPartition(ct, shape, d, parent, k)| == |Select(ct, d.rows, parent, k)|
  {}

  lemma ListReads(ct: ChildTable, shape: Shape, gen: IdSource, st: ChildState, parent: string, v: Json)
    requires ShapeOk(ct, shape) && (shape.Rows? ==> ClearsFit(shape.inner.cols))
    requires Unissued(gen, st.next, st.db.rows) && NestedKeys(st.db)
    requires SaveList(ct, shape, st, parent, v, gen).Ok?
    ensures var r := SaveList(ct, shape, st, parent, v, gen).value;
      ListBecomes(ct, shape, st.db, parent, v, gen, st.next, LoadList(ct, shape, if r.Some? then r.value.db else st.db, parent))
  {
    if ct.partitioned {
      if v.Obj? { KeyedReads(ct, shape, gen, st, parent, v.fields); }
    } else if v.Arr? {
      PartitionReads(ct, shape, st, parent, "", v.items, gen);
    }
  }

  lemma KeyedReads(ct: ChildTable, shape: Shape, gen: IdSource, st: ChildState, parent: string, patch: map<string, Json>)
    requires ShapeOk(ct, shape) && ct.partitioned && (shape.Rows? ==> ClearsFit(shape.inner.cols))
    requires Unissued(gen, st.next, st.db.rows) && NestedKeys(st.db)
    requires WriteParts(ct, shape, st, parent, patch, SortedKeys(patch.Keys), gen).Ok?
    ensures var out := WriteParts(ct, shape, st, parent, patch, SortedKeys(patch.Keys), gen).value;
      ListBecomes(ct, shape, st.db, parent, Obj(patch), gen, st.next, LoadList(ct, shape, out.db, parent))
  {
    var keys := SortedKeys(patch.Keys);
    var out := WriteParts(ct, shape, st, parent, patch, keys, gen).value;
    LoadedParts(ct, shape, out.db, parent);
    WritePartsLaw(ct, shape, gen, st, parent, patch, keys);
    forall k | k != ""
      ensures if Patches(patch, k) then PartitionBecomes(ct, shape, st.db, parent, k, patch[k].items, gen, st.next, ReadPartition(ct, shape, out.db, parent, k))
        else ReadPartition(ct, shape, out.db, parent, k) == ReadPartition(ct, shape, st.db, parent, k)
    {
      if Patches(patch, k) {
        assert k in Elems(keys);
        PartBecomes(ct, shape, gen, st, parent, patch, keys, k);
      }
    }
  }

  // --- any satellite -----------------------------------------------------------------------------

  /** The clear policies of the elements of a child list fit. */
  ghost predicate ElementsFit(c: Column) {
    match c
    case Child(_, Rows(inner)) => ClearsFit(inner.cols)
    case DeferredList(list, _) => ElementsFit(list)
    case _ => true
  }

  /** What a satellite reads as after it was sent a value. */
  ghost predicate Becomes(db: Db, c: Column, parent: string, v: Json, gen: IdSource, next: nat, w: Json)
    requires CellOk(c)
  {
    match c
    case KeyedStrings(side, col, clear) =>
      if !v.Obj? then w == CellLoad(db, c, parent)
      else exists m: map<string, string> :: w == Texts(m) && MapBecomes(SideOf(db, side.name), parent, Write(col, clear, v.fields), m)
    case Child(ct, shape) => ListBecomes(ct, shape, ChildOf(db, ct.name), parent, v, gen, next, w)
    case _ =>
      if !IsList(c) || !v.Arr? then w == CellLoad(db, c, parent)
      else w.Arr? && Replaces(c, parent, v.items, w.items)
  }

  lemma {:induction false} NothingSaved(db: Db, next: nat, c: Column, parent: string, v: Json, gen: IdSource)
    requires CellOk(c) && IsList(c) && !v.Arr? && CellSave(db, next, c, parent, v, gen).Ok?
    ensures CellSave(db, next, c, parent, v, gen).value.db == db
  {
    if c.DeferredList? { NothingSaved(db, next, c.list, parent, v, gen); }
  }

  /** Every save closure leaves its cell reading as that. */
  lemma CellBecomes(db: Db, next: nat, c: Column, parent: string, v: Json, gen: IdSource)
    requires CellOk(c) && c.IsSatellite() && ElementsFit(c) && Sound(db, gen, next)
    requires CellSave(db, next, c, parent, v, gen).Ok?
    ensures Becomes(db, c, parent, v, gen, next, CellLoad(CellSave(db, next, c, parent, v, gen).value.db, c, parent))
  {
    match c
    case KeyedStrings(_, _, _) => MapCellBecomes(db, next, c, parent, v, gen);
    case Child(ct, shape) =>
      ChildSound(db, gen, next, ct.name);
      ListReads(ct, shape, gen, ChildState(ChildOf(db, ct.name), next), parent, v);
    case Rels(_, _, _) => ListCellBecomes(db, next, c, parent, v, gen);
    case DeferredList(_, _) => ListCellBecomes(db, next, c, parent, v, gen);
    case _ =>
  }

  lemma MapCellBecomes(db: Db, next: nat, c: Column, parent: string, v: Json, gen: IdSource)
    requires c.KeyedStrings? && CellSave(db, next, c, parent, v, gen).Ok?
    ensures Becomes(db, c, parent, v, gen, next, CellLoad(CellSave(db, next, c, parent, v, gen).value.db, c, parent))
  {
    if v.Obj? {
      var w := Write(c.col, c.clear, v.fields);
      OneWrite(w);
      GroupedMapBecomes(c.side, db.main.Keys, SideOf(db, c.side.name), parent, [w], w);
    }
  }

  lemma ListCellBecomes(db: Db, next: nat, c: Column, parent: string, v: Json, gen: IdSource)
    requires CellOk(c) && IsList(c) && !c.Child? && Sound(db, gen, next)
    requires CellSave(db, next, c, parent, v, gen).Ok?
    ensures Becomes(db, c, parent, v, gen, next, CellLoad(CellSave(db, next, c, parent, v, gen).value.db, c, parent))
  {
    if v.Arr? { ListReadsBack(db, next, c, parent, v.items, gen); } else { NothingSaved(db, next, c, parent, v, gen); }
  }

  /** What a cell becomes is told from any earlier state in which its storage is the same. */
  lemma CellBecomesEarlier(a: Db, n: nat, b: Db, m: nat, c: Column, parent: string, v: Json, gen: IdSource, w: Json)
    requires CellOk(c) && c.IsSatellite() && n <= m && !c.KeyedStrings?
    requires Sound(a, gen, n) && Sound(b, gen, m) && SameStorage(a, b, StorageOf(c), parent)
    requires Becomes(b, c, parent, v, gen, m, w)
    ensures Becomes(a, c, parent, v, gen, n, w)
  {
    SameLoad(a, b, c, parent);
    if c.Child? {
      ChildSound(a, gen, n, c.ct.name);
      ChildSound(b, gen, m, c.ct.name);
      ListBecomesEarlier(c.ct, c.shape, ChildOf(a, c.ct.name), n, m, parent, v, gen, w);
    }
  }

  lemma ListBecomesEarlier(ct: ChildTable, shape: Shape, d: ChildDb, n: nat, m: nat, parent: string, v: Json, gen: IdSource, w: Json)
    requires ShapeOk(ct, shape) && n <= m && Unissued(gen, n, d.rows) && NestedKeys(d)
    requires ListBecomes(ct, shape, d, parent, v, gen, m, w)
    ensures ListBecomes(ct, shape, d, parent, v, gen, n, w)
  {
    if ct.partitioned && v.Obj? {
      forall k | k != "" && Patches(v.fields, k) ensures PartitionBecomes(ct, shape, d, parent, k, v.fields[k].items, gen, n, PartOf(w, k)) {
        BecomesEarlier(ct, shape, d, n, d, m, parent, k, v.fields[k].items, gen, PartOf(w, k));
      }
    } else if !ct.partitioned && v.Arr? {
      BecomesEarlier(ct, shape, d, n, d, m, parent, "", v.items, gen, w.items);
    }
  }
}
