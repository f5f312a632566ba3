/** The save and load closures of the four child list constructors. */
module ListSave {
  import opened Values
  import opened Ordering
  import opened Columns
  import opened ChildTables
  import opened ChildLists
  import opened ListLaws
  import opened Database
  import opened Transaction
  import opened ChildSave

  ghost predicate ListDeclared(db: Db, ct: ChildTable, shape: Shape) {
    ct.name in db.childs && (shape.Rows? ==> NestedDeclared(db, ct, shape.inner))
  }

  lemma {:induction false} InsertLoopFails(elem: Column, start: Progress, parent: string, key: string, list: seq<Json>, gen: IdSource, i: nat)
    requires elem.Scalar? && i <= |list| && InsertLoop(elem, start, parent, key, list[..i], gen).Err?
    ensures InsertLoop(elem, start, parent, key, list, gen) == InsertLoop(elem, start, parent, key, list[..i], gen)
    decreases |list|
  {
    if i < |list| {
      assert list[..|list| - 1][..i] == list[..i];
      InsertLoopFails(elem, start, parent, key, list[..|list| - 1], gen, i);
    } else {
      assert list[..i] == list;
    }
  }

  lemma InsertLoopNext(elem: Column, start: Progress, parent: string, key: string, list: seq<Json>, gen: IdSource, i: nat)
    requires elem.Scalar? && i < |list|
    ensures InsertLoop(elem, start, parent, key, list[..i + 1], gen) == InsertNext(elem, InsertLoop(elem, start, parent, key, list[..i], gen), parent, key, list[i], gen)
  {
    assert list[..i + 1][..i] == list[..i];
  }

  lemma OneAssign(a: Assign)
    ensures Evaluate([a]) == match a.admit(a.value)
      case Err(e) => Err(e)
      case Ok(image) => Ok(map[a.col := image])
  {
    assert [a][..0] == [];
  }

  /** One INSERT of a parsed element. */
  method InsertValue(tx: Tx, ct: ChildTable, elem: Column, parent: string, key: string, pos: nat, v: Json, ghost db0: Db, ghost done: Progress) returns (s: Status, ghost after: Progress)
    requires elem.Scalar? && elem.parse(v).Some? && ct.name in db0.childs
    requires Reached(tx, db0, ct, done) && pos == |done.landed|
    modifies tx
    ensures old(tx.steps) <= tx.steps
    ensures var r := InsertNext(elem, Ok(done), parent, key, v, tx.gen);
      match s
      case Ok(_) => r == Ok(after) && Reached(tx, db0, ct, after) && |after.landed| == |done.landed| + 1
      case Err(e) => (e == Unavailable && tx.Faulted(old(tx.steps))) || r == Err(e)
  {
    after := done;
    PutChildAgain(db0, ct.name, done.db, done.db);
    var id := tx.NewID();
    var assign := Assign(elem.col, elem.parse(v).value.stored, elem.admit);
    OneAssign(assign);
    s := tx.InsertChild(ct, id, parent, key, pos, [assign]);
    if s.Err? { return; }
    ghost var row := ChildRow(parent, key, Some(WriteOrder(pos)), map[elem.col := Stored(assign)]);
    after := Progress(done.db.(rows := done.db.rows[id := row]), tx.next, done.landed + [id]);
    PutChildAgain(db0, ct.name, done.db, after.db);
  }

  /** ChildTable.replaceValues: DELETE, then one INSERT per parsed element. */
  method ReplaceList(tx: Tx, ct: ChildTable, elem: Column, parent: string, key: string, list: seq<Json>) returns (s: Status)
    requires elem.Scalar? && ct.name in tx.db.childs
    modifies tx
    ensures old(tx.steps) <= tx.steps
    ensures var r := ReplaceValues(ct, elem, ChildOf(old(tx.db), ct.name), parent, key, list, tx.gen, old(tx.next));
      match s
      case Ok(_) => r.Ok? && Reached(tx, old(tx.db), ct, r.value)
      case Err(e) => (e == Unavailable && tx.Faulted(old(tx.steps))) || r == Err(e)
  {
    ghost var db0 := tx.db;
    ghost var start := Progress(DeleteExcept(ct, ChildOf(db0, ct.name), parent, key, {}), tx.next, []);
    s := tx.DeleteChildren(ct, parent, key, {});
    if s.Err? { return; }
    ghost var done := start;
    var pos := 0;
    for i := 0 to |list|
      invariant old(tx.steps) <= tx.steps
      invariant InsertLoop(elem, start, parent, key, list[..i], tx.gen) == Ok(done)
      invariant Reached(tx, db0, ct, done) && pos == |done.landed|
    {
      InsertLoopNext(elem, start, parent, key, list, tx.gen, i);
      var v := elem.parse(list[i]);
      if v.Some? {
        ghost var after;
        s, after := InsertValue(tx, ct, elem, parent, key, pos, list[i], db0, done);
        if s.Err? {
          if InsertLoop(elem, start, parent, key, list[..i + 1], tx.gen).Err? { InsertLoopFails(elem, start, parent, key, list, tx.gen, i + 1); }
          return;
        }
        done := after;
        pos := pos + 1;
      }
    }
    assert list[..|list|] == list;
    s := Ok(());
  }

  method SavePartition(tx: Tx, ct: ChildTable, shape: Shape, parent: string, key: string, list: seq<Json>) returns (s: Status)
    requires ShapeOk(ct, shape) && ListDeclared(tx.db, ct, shape)
    modifies tx
    ensures old(tx.steps) <= tx.steps
    ensures s.Ok? ==> ListDeclared(tx.db, ct, shape)
    ensures var r := WritePartition(ct, shape, ChildState(ChildOf(old(tx.db), ct.name), old(tx.next)), parent, key, list, tx.gen);
      match s
      case Ok(_) => r.Ok? && tx.db == PutChild(old(tx.db), ct.name, r.value.db) && tx.next == r.value.next
      case Err(e) => (e == Unavailable && tx.Faulted(old(tx.steps))) || r == Err(e)
  {
    match shape
    case Rows(inner) => s := SaveRows(tx, ct, inner, parent, key, list);
    case Values(elem) => s := ReplaceList(tx, ct, elem, parent, key, list);
  }

  lemma {:induction false} WritePartsFails(ct: ChildTable, shape: Shape, st: ChildState, parent: string, patch: map<string, Json>, keys: seq<string>, gen: IdSource, i: nat)
    requires ShapeOk(ct, shape) && i <= |keys| && WriteParts(ct, shape, st, parent, patch, keys[..i], gen).Err?
    ensures WriteParts(ct, shape, st, parent, patch, keys, gen) == WriteParts(ct, shape, st, parent, patch, keys[..i], gen)
    decreases |keys|
  {
    if i < |keys| {
      assert keys[..|keys| - 1][..i] == keys[..i];
      WritePartsFails(ct, shape, st, parent, patch, keys[..|keys| - 1], gen, i);
    } else {
      assert keys[..i] == keys;
    }
  }

  lemma {:induction false} WritePartsNext(ct: ChildTable, shape: Shape, st: ChildState, parent: string, patch: map<string, Json>, keys: seq<string>, gen: IdSource, i: nat, done: ChildState)
    requires ShapeOk(ct, shape) && i < |keys|
    requires WriteParts(ct, shape, st, parent, patch, keys[..i], gen) == Ok(done)
    ensures var next := WritePart(ct, shape, Ok(done), parent, patch, keys[i], gen);
      && WriteParts(ct, shape, st, parent, patch, keys[..i + 1], gen) == next
      && (next.Err? ==> WriteParts(ct, shape, st, parent, patch, keys, gen) == next)
      && (i + 1 == |keys| ==> WriteParts(ct, shape, st, parent, patch, keys, gen) == next)
  {
    assert keys[..i + 1][..i] == keys[..i];
    if WriteParts(ct, shape, st, parent, patch, keys[..i + 1], gen).Err? {
      WritePartsFails(ct, shape, st, parent, patch, keys, gen, i + 1);
    }
    if i + 1 == |keys| { assert keys[..i + 1] == keys; }
  }

  /** The state of the transaction is this state of the child table. */
  ghost predicate Holds(tx: Tx, db0: Db, ct: ChildTable, st: ChildState)
    reads tx
  {
    tx.db == PutChild(db0, ct.name, st.db) && tx.next == st.next
  }

  /** One partition of a keyed save: the empty key and what is not a list are left
      alone. */
  method SavePart(tx: Tx, ct: ChildTable, shape: Shape, parent: string, patch: map<string, Json>, key: string, ghost db0: Db, ghost st: ChildState) returns (s: Status, ghost after: ChildState)
    requires ShapeOk(ct, shape) && ListDeclared(tx.db, ct, shape)
    requires key in patch && Holds(tx, db0, ct, st)
    modifies tx
    ensures old(tx.steps) <= tx.steps
    ensures s.Ok? ==> ListDeclared(tx.db, ct, shape)
    ensures match s
      case Ok(_) => WritePart(ct, shape, Ok(st), parent, patch, key, tx.gen) == Ok(after) && Holds(tx, db0, ct, after)
      case Err(e) => (e == Unavailable && tx.Faulted(old(tx.steps))) || WritePart(ct, shape, Ok(st), parent, patch, key, tx.gen) == Err(e)
  {
    after := st;
    s := Ok(());
    if key != "" && patch[key].Arr? {
      PutChildAgain(db0, ct.name, st.db, st.db);
      s := SavePartition(tx, ct, shape, parent, key, patch[key].items);
      if s.Ok? {
        after := WritePartition(ct, shape, st, parent, key, patch[key].items, tx.gen).value;
        PutChildAgain(db0, ct.name, st.db, after.db);
      }
    }
  }

  /** The keyed save: partitions in sorted order. */
  method SaveParts(tx: Tx, ct: ChildTable, shape: Shape, parent: string, patch: map<string, Json>) returns (s: Status)
    requires ShapeOk(ct, shape) && ListDeclared(tx.db, ct, shape)
    modifies tx
    ensures old(tx.steps) <= tx.steps
    ensures s.Ok? ==> ListDeclared(tx.db, ct, shape)
    ensures var r := WriteParts(ct, shape, ChildState(ChildOf(old(tx.db), ct.name), old(tx.next)), parent, patch, SortedKeys(patch.Keys), tx.gen);
      match s
      case Ok(_) => r.Ok? && Holds(tx, old(tx.db), ct, r.value)
      case Err(e) => (e == Unavailable && tx.Faulted(old(tx.steps))) || r == Err(e)
  {
    ghost var db0, st := tx.db, ChildState(ChildOf(tx.db, ct.name), tx.next);
    PutChildSame(db0, ct.name);
    var keys := SortedKeys(patch.Keys);
    ghost var done := st;
    for i := 0 to |keys|
      invariant old(tx.steps) <= tx.steps
      invariant ListDeclared(tx.db, ct, shape)
      invariant WriteParts(ct, shape, st, parent, patch, keys[..i], tx.gen) == Ok(done)
      invariant Holds(tx, db0, ct, done)
    {
      WritePartsNext(ct, shape, st, parent, patch, keys, tx.gen, i, done);
      assert keys[i] in Elems(keys);
      s, done := SavePart(tx, ct, shape, parent, patch, keys[i], db0, done);
      if s.Err? { return; }
    }
    assert keys[..|keys|] == keys;
    s := Ok(());
  }

  // --- reading ---------------------------------------------------------------------------

  function ElementAt(shape: Shape, db: ChildDb, id: string): Json
    requires shape.Values? ==> shape.elem.Scalar?
  {
    match shape
    case Rows(inner) => RowItem(inner, db, id)
    case Values(elem) => ValueOf(elem, db, id)
  }

  function Elements(shape: Shape, db: ChildDb, q: seq<Slot>): (r: seq<Json>)
    requires shape.Values? ==> shape.elem.Scalar?
    ensures |r| == |q|
  {
    seq(|q|, i requires 0 <= i < |q| => ElementAt(shape, db, q[i].id))
  }

  lemma ElementsSnoc(shape: Shape, d: ChildDb, part: seq<Slot>, s: Slot)
    requires shape.Values? ==> shape.elem.Scalar?
    ensures Elements(shape, d, part + [s]) == Elements(shape, d, part) + [ElementAt(shape, d, s.id)]
  {}

  /** The loop of readRows and readValues. */
  method ListElements(shape: Shape, d: ChildDb, slots: seq<Slot>) returns (list: seq<Json>)
    requires shape.Values? ==> shape.elem.Scalar?
    ensures list == Elements(shape, d, slots)
  {
    list := [];
    for i := 0 to |slots|
      invariant list == Elements(shape, d, slots[..i])
    {
      ElementsSnoc(shape, d, slots[..i], slots[i]);
      assert slots[..i + 1] == slots[..i] + [slots[i]];
      list := list + [ElementAt(shape, d, slots[i].id)];
    }
    assert slots[..|slots|] == slots;
  }

  method LoadPartition(tx: Tx, ct: ChildTable, shape: Shape, parent: string, key: string) returns (r: Result<seq<Json>>)
    requires ShapeOk(ct, shape)
    modifies tx`steps
    ensures old(tx.steps) <= tx.steps
    ensures match r
      case Ok(list) => list == ReadPartition(ct, shape, ChildOf(tx.db, ct.name), parent, key)
      case Err(e) => e == Unavailable && tx.Faulted(old(tx.steps))
  {
    var q := tx.SelectIds(ct, parent, key);
    if q.Err? { return Err(q.error); }
    var d := ChildOf(tx.db, ct.name);
    var list := ListElements(shape, d, q.value);
    SameElements(ct, shape, d, parent, key);
    return Ok(list);
  }

  /** The list of one partition, if it has any rows so far. */
  ghost predicate SplitAt(shape: Shape, d: ChildDb, part: seq<Slot>, out: map<string, seq<Json>>, k: string)
    requires shape.Values? ==> shape.elem.Scalar?
  {
    if k in out then k != "" && part != [] && out[k] == Elements(shape, d, part) else k == "" || part == []
  }

  ghost predicate SplitSoFar(shape: Shape, d: ChildDb, q: seq<Slot>, out: map<string, seq<Json>>)
    requires shape.Values? ==> shape.elem.Scalar?
  {
    forall k :: SplitAt(shape, d, Part(d.rows, q, k), out, k)
  }

  lemma SplitStep(shape: Shape, d: ChildDb, q: seq<Slot>, s: Slot, out: map<string, seq<Json>>, next: map<string, seq<Json>>)
    requires shape.Values? ==> shape.elem.Scalar?
    requires SplitSoFar(shape, d, q, out)
    requires var key := if s.id in d.rows then d.rows[s.id].key else "";
      next == if key == "" then out else out[key := (if key in out then out[key] else []) + [ElementAt(shape, d, s.id)]]
    ensures SplitSoFar(shape, d, q + [s], next)
  {}

  lemma SplitDone(ct: ChildTable, shape: Shape, d: ChildDb, parent: string, out: map<string, seq<Json>>)
    requires ShapeOk(ct, shape) && ct.partitioned
    requires SplitSoFar(shape, d, Select(ct, d.rows, parent, ""), out)
    ensures out.Keys == PartitionKeys(d.rows, parent)
    ensures forall k :: k in out ==> out[k] == ReadPartition(ct, shape, d, parent, k)
  {
    forall k
      ensures k in out <==> k in PartitionKeys(d.rows, parent)
      ensures k in out ==> out[k] == ReadPartition(ct, shape, d, parent, k)
    {
      assert SplitAt(shape, d, Part(d.rows, Select(ct, d.rows, parent, ""), k), out, k);
      SplitKey(ct, shape, d, parent, out, k);
    }
  }

  lemma SplitKey(ct: ChildTable, shape: Shape, d: ChildDb, parent: string, out: map<string, seq<Json>>, k: string)
    requires ShapeOk(ct, shape) && ct.partitioned
    requires SplitAt(shape, d, Part(d.rows, Select(ct, d.rows, parent, ""), k), out, k)
    ensures k in out <==> k in PartitionKeys(d.rows, parent)
    ensures k in out ==> out[k] == ReadPartition(ct, shape, d, parent, k)
  {
    if k != "" {
      SplitAgrees(ct, d.rows, parent, k);
      PartitionSelected(ct, d.rows, parent, k);
      SameElements(ct, shape, d, parent, k);
    }
  }

  lemma SameElements(ct: ChildTable, shape: Shape, d: ChildDb, parent: string, key: string)
    requires ShapeOk(ct, shape)
    ensures Elements(shape, d, Select(ct, d.rows, parent, key)) == ReadPartition(ct, shape, d, parent, key)
  {}

  /** The loop of readKeyedRows and readKeyedValues: each row goes to the list of the
      partition its own key names; rows without a key are skipped. */
  method SplitByKey(shape: Shape, d: ChildDb, slots: seq<Slot>) returns (out: map<string, seq<Json>>)
    requires shape.Values? ==> shape.elem.Scalar?
    ensures SplitSoFar(shape, d, slots, out)
  {
    out := map[];
    assert slots[..0] == [];
    for i := 0 to |slots|
      invariant SplitSoFar(shape, d, slots[..i], out)
    {
      var id := slots[i].id;
      var key := if id in d.rows then d.rows[id].key else "";
      ghost var before := out;
      if key != "" {
        out := out[key := (if key in out then out[key] else []) + [ElementAt(shape, d, id)]];
      }
      assert slots[..i + 1] == slots[..i] + [slots[i]];
      SplitStep(shape, d, slots[..i], slots[i], before, out);
    }
    assert slots[..|slots|] == slots;
  }

  /** readKeyedRows and readKeyedValues: one query over every partition of the parent. */
  method LoadKeyed(tx: Tx, ct: ChildTable, shape: Shape, parent: string) returns (r: Result<map<string, seq<Json>>>)
    requires ShapeOk(ct, shape) && ct.partitioned
    modifies tx`steps
    ensures old(tx.steps) <= tx.steps
    ensures match r
      case Ok(out) =>
        var d := ChildOf(tx.db, ct.name);
        out.Keys == PartitionKeys(d.rows, parent) && forall k :: k in out ==> out[k] == ReadPartition(ct, shape, d, parent, k)
      case Err(e) => e == Unavailable && tx.Faulted(old(tx.steps))
  {
    var q := tx.SelectIds(ct, parent, "");
    if q.Err? { return Err(q.error); }
    var d := ChildOf(tx.db, ct.name);
    var out := SplitByKey(shape, d, q.value);
    SplitDone(ct, shape, d, parent, out);
    return Ok(out);
  }
}
