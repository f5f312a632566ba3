/** What both shapes of a child list promise, partition by partition and keyed. */
module ListLaws {
  import opened Values
  import opened Ordering
  import opened Columns
  import opened ChildTables
  import opened ChildLaws
  import opened ChildTheorems
  import opened ChildLists

  // --- a list of scalars --------------------------------------------------------------

  /** What the elements the cell parses are in the column, in order, duplicates kept. */
  function Accepted(elem: Column, list: seq<Json>): seq<Sql>
    requires elem.Scalar?
  {
    if list == [] then []
    else
      var v := list[|list| - 1];
      Accepted(elem, list[..|list| - 1]) + (if elem.parse(v).Some? then [Image(elem, v)] else [])
  }

  /** What they read as. */
  function Reads(elem: Column, list: seq<Json>): seq<Json>
    requires elem.Scalar?
  {
    var a := Accepted(elem, list);
    seq(|a|, i requires 0 <= i < |a| => elem.decode(a[i]))
  }

  /** The server takes every element the cell parses. */
  ghost predicate AllAdmitted(elem: Column, list: seq<Json>) {
    forall i :: 0 <= i < |list| ==> Admits(elem, list[i])
  }

  /** The server refuses an element. */
  ghost predicate ValueRefuses(elem: Column, list: seq<Json>, e: Failure) {
    exists i :: 0 <= i < |list| && Refuses(elem, list[i], e)
  }

  /** The rows inserted for accepted values: fresh ids, positions 1..n, one value each;
      every earlier row stays. */
  ghost predicate Inserted(start: Progress, parent: string, key: string, col: string, a: seq<Sql>, gen: IdSource, p: Progress) {
    && |p.landed| == |a| && p.next == start.next + |a|
    && p.db.nested == start.db.nested
    && (forall i :: 0 <= i < |a| ==> p.landed[i] == gen(start.next + i))
    && p.db.rows.Keys == start.db.rows.Keys + Elems(p.landed)
    && (forall i :: 0 <= i < |a| ==> p.landed[i] in p.db.rows)
    && (forall i :: 0 <= i < |a| ==> p.db.rows[p.landed[i]] == ChildRow(parent, key, Some(WriteOrder(i)), map[col := a[i]]))
    && (forall id :: id in start.db.rows ==> id in p.db.rows && p.db.rows[id] == start.db.rows[id])
  }

  lemma InsertedStep(start: Progress, parent: string, key: string, col: string, a: seq<Sql>, x: Sql, gen: IdSource, p: Progress, q: Progress)
    requires Unissued(gen, start.next, start.db.rows)
    requires Inserted(start, parent, key, col, a, gen, p)
    requires q.db == p.db.(rows := p.db.rows[gen(p.next) := ChildRow(parent, key, Some(WriteOrder(|p.landed|)), map[col := x])])
    requires q.next == p.next + 1 && q.landed == p.landed + [gen(p.next)]
    ensures gen(p.next) !in p.db.rows
    ensures Inserted(start, parent, key, col, a + [x], gen, q)
  {
    NotYetInserted(start, a, gen, p);
    InsertedKeys(start, p, gen(p.next), q);
    forall i | 0 <= i < |a + [x]|
      ensures q.landed[i] == gen(start.next + i) && q.landed[i] in q.db.rows
      ensures q.db.rows[q.landed[i]] == ChildRow(parent, key, Some(WriteOrder(i)), map[col := (a + [x])[i]])
    {
      InsertedAt(start, parent, key, col, a, x, gen, p, q, i);
    }
  }

  lemma InsertedAt(start: Progress, parent: string, key: string, col: string, a: seq<Sql>, x: Sql, gen: IdSource, p: Progress, q: Progress, i: nat)
    requires Inserted(start, parent, key, col, a, gen, p) && gen(p.next) !in p.landed
    requires q.db == p.db.(rows := p.db.rows[gen(p.next) := ChildRow(parent, key, Some(WriteOrder(|p.landed|)), map[col := x])])
    requires q.landed == p.landed + [gen(p.next)] && i < |q.landed|
    ensures q.landed[i] == gen(start.next + i) && q.landed[i] in q.db.rows
    ensures q.db.rows[q.landed[i]] == ChildRow(parent, key, Some(WriteOrder(i)), map[col := (a + [x])[i]])
  {
    if i < |a| {
      assert q.landed[i] == p.landed[i] && p.landed[i] in p.landed && (a + [x])[i] == a[i];
    } else {
      assert start.next + i == p.next;
    }
  }

  lemma InsertedKeys(start: Progress, p: Progress, id: string, q: Progress)
    requires p.db.rows.Keys == start.db.rows.Keys + Elems(p.landed)
    requires q.db.rows.Keys == p.db.rows.Keys + {id} && q.landed == p.landed + [id]
    ensures q.db.rows.Keys == start.db.rows.Keys + Elems(q.landed)
  {}

  lemma NotYetInserted(start: Progress, a: seq<Sql>, gen: IdSource, p: Progress)
    requires Unissued(gen, start.next, start.db.rows)
    requires |p.landed| == |a| && p.next == start.next + |a|
    requires forall i :: 0 <= i < |a| ==> p.landed[i] == gen(start.next + i)
    ensures gen(p.next) !in start.db.rows && gen(p.next) !in p.landed
  {}

  /** The loop goes through exactly when the server takes every element. */
  lemma {:induction false} InsertLoopSound(elem: Column, start: Progress, parent: string, key: string, list: seq<Json>, gen: IdSource)
    requires elem.Scalar? && start.landed == []
    requires Unissued(gen, start.next, start.db.rows)
    ensures var out := InsertLoop(elem, start, parent, key, list, gen);
      && (out.Ok? <==> AllAdmitted(elem, list))
      && (out.Err? ==> ValueRefuses(elem, list, out.error))
      && (out.Ok? ==> Inserted(start, parent, key, elem.col, Accepted(elem, list), gen, out.value))
  {
    if list != [] {
      var init, v := list[..|list| - 1], list[|list| - 1];
      InsertLoopSound(elem, start, parent, key, init, gen);
      AdmittedSnoc(elem, list);
      var before := InsertLoop(elem, start, parent, key, init, gen);
      if before.Ok? {
        assert list == init + [v];
        InsertTurn(elem, start, parent, key, init, v, gen, before.value);
      }
    }
  }

  lemma AdmittedSnoc(elem: Column, list: seq<Json>)
    requires list != []
    ensures var init, v := list[..|list| - 1], list[|list| - 1];
      && (AllAdmitted(elem, list) <==> AllAdmitted(elem, init) && Admits(elem, v))
      && (forall e :: ValueRefuses(elem, init, e) || Refuses(elem, v, e) ==> ValueRefuses(elem, list, e))
  {
    var init, v := list[..|list| - 1], list[|list| - 1];
    assert forall i :: 0 <= i < |init| ==> list[i] == init[i];
    forall e | ValueRefuses(elem, init, e) || Refuses(elem, v, e) ensures ValueRefuses(elem, list, e) {
      if i :| 0 <= i < |init| && Refuses(elem, init[i], e) { assert Refuses(elem, list[i], e); }
    }
  }

  lemma InsertTurn(elem: Column, start: Progress, parent: string, key: string, init: seq<Json>, v: Json, gen: IdSource, p: Progress)
    requires elem.Scalar? && Unissued(gen, start.next, start.db.rows)
    requires Inserted(start, parent, key, elem.col, Accepted(elem, init), gen, p)
    ensures var out := InsertNext(elem, Ok(p), parent, key, v, gen);
      && (out.Ok? <==> Admits(elem, v))
      && (out.Err? ==> Refuses(elem, v, out.error))
      && (out.Ok? ==> Inserted(start, parent, key, elem.col, Accepted(elem, init + [v]), gen, out.value))
  {
    assert (init + [v])[..|init|] == init;
    if elem.parse(v).Some? && Admits(elem, v) {
      var x, id := Image(elem, v), gen(p.next);
      var row := ChildRow(parent, key, Some(WriteOrder(|p.landed|)), map[elem.col := x]);
      InsertedStep(start, parent, key, elem.col, Accepted(elem, init), x, gen, p,
        Progress(p.db.(rows := p.db.rows[id := row]), p.next + 1, p.landed + [id]));
    }
  }

  /** Inserted rows are fresh, in the partition, and the only ones in it. */
  lemma InsertedScope(ct: ChildTable, db: ChildDb, parent: string, key: string, col: string, a: seq<Sql>, gen: IdSource, next: nat, out: Progress)
    requires Unissued(gen, next, db.rows)
    requires Inserted(Progress(DeleteExcept(ct, db, parent, key, {}), next, []), parent, key, col, a, gen, out)
    ensures forall id :: id in out.landed ==> id !in db.rows && id in out.db.rows && out.db.rows[id].parent == parent && out.db.rows[id].key == key
    ensures forall id :: id in Scope(ct, out.db.rows, parent, key) ==> id in out.landed
  {}

  lemma {:induction false} InsertedReadsBack(ct: ChildTable, elem: Column, db: ChildDb, parent: string, key: string, a: seq<Sql>, gen: IdSource, next: nat, out: Progress)
    requires elem.Scalar? && RightKey(ct, key)
    requires Unissued(gen, next, db.rows)
    requires Inserted(Progress(DeleteExcept(ct, db, parent, key, {}), next, []), parent, key, elem.col, a, gen, out)
    ensures |ReadValues(ct, elem, out.db, parent, key)| == |a|
    ensures forall i :: 0 <= i < |a| ==> ReadValues(ct, elem, out.db, parent, key)[i] == elem.decode(a[i])
    ensures GapFree(ct, out.db.rows, parent, key)
  {
    InsertedScope(ct, db, parent, key, elem.col, a, gen, next, out);
    assert Scope(ct, out.db.rows, parent, key) == Elems(out.landed);
    SelectNumbered(ct, out.db.rows, parent, key, out.landed);
    forall i | 0 <= i < |a| ensures ValueOf(elem, out.db, out.landed[i]) == elem.decode(a[i]) {
      assert Cell(out.db.rows[out.landed[i]].cols, elem.col) == a[i];
    }
  }

  /** Replacing a list fails exactly when the server refuses one of its elements;
      otherwise it reads back as the elements the cell parsed, in order, duplicates
      kept, at positions 1..n. */
  lemma ReplaceReadsBack(ct: ChildTable, elem: Column, db: ChildDb, parent: string, key: string, list: seq<Json>, gen: IdSource, next: nat)
    requires elem.Scalar?
    requires RightKey(ct, key) && Unissued(gen, next, db.rows)
    ensures var out := ReplaceValues(ct, elem, db, parent, key, list, gen, next);
      && (out.Ok? <==> AllAdmitted(elem, list))
      && (out.Err? ==> ValueRefuses(elem, list, out.error))
      && (out.Ok? ==> ReadValues(ct, elem, out.value.db, parent, key) == Reads(elem, list) && GapFree(ct, out.value.db.rows, parent, key))
  {
    InsertLoopSound(elem, Progress(DeleteExcept(ct, db, parent, key, {}), next, []), parent, key, list, gen);
    if AllAdmitted(elem, list) {
      InsertedReadsBack(ct, elem, db, parent, key, Accepted(elem, list), gen, next, ReplaceValues(ct, elem, db, parent, key, list, gen, next).value);
    }
  }

  /** Replacing one partition touches no other row and keeps every law of the table. */
  lemma ReplaceFramed(ct: ChildTable, elem: Column, db: ChildDb, parent: string, key: string, list: seq<Json>, gen: IdSource, next: nat)
    requires elem.Scalar? && Unissued(gen, next, db.rows)
    requires ReplaceValues(ct, elem, db, parent, key, list, gen, next).Ok?
    ensures Framed(ct, db, parent, key, ReplaceValues(ct, elem, db, parent, key, list, gen, next).value)
    ensures var out := ReplaceValues(ct, elem, db, parent, key, list, gen, next).value;
      Evolves(gen, db, next, out.db, out.next) && (NestedKeys(db) ==> NestedKeys(out.db))
  {
    var start := Progress(DeleteExcept(ct, db, parent, key, {}), next, []);
    InsertLoopSound(elem, start, parent, key, list, gen);
    var a, out := Accepted(elem, list), ReplaceValues(ct, elem, db, parent, key, list, gen, next).value;
    InsertedScope(ct, db, parent, key, elem.col, a, gen, next, out);
    InsertedFramed(ct, db, parent, key, elem.col, a, gen, next, out);
    InsertedEvolves(ct, db, parent, key, elem.col, a, gen, next, out);
  }

  lemma InsertedFramed(ct: ChildTable, db: ChildDb, parent: string, key: string, col: string, a: seq<Sql>, gen: IdSource, next: nat, out: Progress)
    requires Unissued(gen, next, db.rows)
    requires Inserted(Progress(DeleteExcept(ct, db, parent, key, {}), next, []), parent, key, col, a, gen, out)
    ensures Framed(ct, db, parent, key, out)
    ensures NestedKeys(db) ==> NestedKeys(out.db)
  {
    var start := DeleteExcept(ct, db, parent, key, {});
    assert forall t :: NestedOf(out.db, t) == NestedOf(start, t);
    forall id ensures if id in Scope(ct, db.rows, parent, key) then NoNested(out.db, id) else SameNested(out.db, db, id) {
      DeletedNested(ct, db, parent, key, {}, id);
    }
    if NestedKeys(db) {
      DeleteKeepsKeys(ct, db, parent, key, {});
    }
  }

  lemma InsertedEvolves(ct: ChildTable, db: ChildDb, parent: string, key: string, col: string, a: seq<Sql>, gen: IdSource, next: nat, out: Progress)
    requires Unissued(gen, next, db.rows)
    requires Inserted(Progress(DeleteExcept(ct, db, parent, key, {}), next, []), parent, key, col, a, gen, out)
    ensures Evolves(gen, db, next, out.db, out.next)
  {
    forall id | id in out.db.rows && id !in db.rows ensures exists k :: next <= k < out.next && id == gen(k) {
      assert id in out.landed;
      var i :| 0 <= i < |a| && out.landed[i] == id;
      assert id == gen(next + i);
    }
    OnlyGenerated(gen, db.rows, next, out.db.rows, out.next);
    InsertedScope(ct, db, parent, key, col, a, gen, next, out);
  }

  // --- one partition -------------------------------------------------------------------

  /** What writing one partition does to the table: the partition is numbered 1..n,
      every other row stays, with its nested rows, and no other row appears. */
  ghost predicate PartitionWritten(ct: ChildTable, gen: IdSource, st: ChildState, parent: string, key: string, out: ChildState) {
    && Evolves(gen, st.db, st.next, out.db, out.next)
    && NestedKeys(out.db)
    && GapFree(ct, out.db.rows, parent, key)
    && (forall id :: id in st.db.rows && !InScope(ct, st.db.rows[id], parent, key) ==>
          id in out.db.rows && out.db.rows[id] == st.db.rows[id] && SameNested(out.db, st.db, id))
    && (forall id :: id in out.db.rows && !InScope(ct, out.db.rows[id], parent, key) ==> id in st.db.rows)
  }

  lemma RowsWritten(ct: ChildTable, inner: Table, st: ChildState, parent: string, key: string, list: seq<Json>, gen: IdSource)
    requires ElementOk(ct, inner) && RightKey(ct, key)
    requires Unissued(gen, st.next, st.db.rows) && NestedKeys(st.db)
    requires WriteRows(ct, inner, st.db, parent, key, list, gen, st.next).Ok?
    ensures var out := WriteRows(ct, inner, st.db, parent, key, list, gen, st.next).value;
      PartitionWritten(ct, gen, st, parent, key, ChildState(out.db, out.next))
  {
    var out := WriteRows(ct, inner, st.db, parent, key, list, gen, st.next).value;
    WriteRowsEvolves(ct, inner, st.db, parent, key, list, gen, st.next);
    WriteRowsKeepsKeys(ct, inner, st.db, parent, key, list, gen, st.next);
    RowsGapFree(ct, inner, st.db, parent, key, list, gen, st.next);
    forall id | id in st.db.rows && !InScope(ct, st.db.rows[id], parent, key)
      ensures id in out.db.rows && out.db.rows[id] == st.db.rows[id] && SameNested(out.db, st.db, id)
    {
      OthersUntouched(ct, inner, st.db, parent, key, list, gen, st.next, id);
    }
    forall id | id in out.db.rows && !InScope(ct, out.db.rows[id], parent, key) ensures id in st.db.rows {
      DroppedAreGone(ct, inner, st.db, parent, key, list, gen, st.next, id);
    }
  }

  lemma RowsGapFree(ct: ChildTable, inner: Table, db: ChildDb, parent: string, key: string, list: seq<Json>, gen: IdSource, next: nat)
    requires ElementOk(ct, inner) && RightKey(ct, key)
    requires Unissued(gen, next, db.rows)
    requires WriteRows(ct, inner, db, parent, key, list, gen, next).Ok?
    ensures GapFree(ct, WriteRows(ct, inner, db, parent, key, list, gen, next).value.db.rows, parent, key)
  {
    ObjectsAreObjects(list);
    GarbageIsInvisible(ct, inner, db, parent, key, list, gen, next);
    WriteRowsRewritten(ct, inner, db, parent, key, Objects(list), gen, next);
    RewrittenGapFree(ct, inner, db, parent, key, Objects(list), WriteRows(ct, inner, db, parent, key, list, gen, next).value);
  }

  lemma RewrittenGapFree(ct: ChildTable, inner: Table, db: ChildDb, parent: string, key: string, items: seq<Json>, out: Progress)
    requires AllObjects(items) && |out.landed| == |items|
    requires Rewritten(ct, inner, db, parent, key, items, out)
    ensures GapFree(ct, out.db.rows, parent, key)
  {
    SelectNumbered(ct, out.db.rows, parent, key, out.landed);
  }

  lemma ValuesGapFree(ct: ChildTable, elem: Column, db: ChildDb, parent: string, key: string, list: seq<Json>, gen: IdSource, next: nat)
    requires elem.Scalar? && RightKey(ct, key) && Unissued(gen, next, db.rows)
    requires ReplaceValues(ct, elem, db, parent, key, list, gen, next).Ok?
    ensures GapFree(ct, ReplaceValues(ct, elem, db, parent, key, list, gen, next).value.db.rows, parent, key)
  {
    InsertLoopSound(elem, Progress(DeleteExcept(ct, db, parent, key, {}), next, []), parent, key, list, gen);
    var out := ReplaceValues(ct, elem, db, parent, key, list, gen, next).value;
    InsertedScope(ct, db, parent, key, elem.col, Accepted(elem, list), gen, next, out);
    assert Scope(ct, out.db.rows, parent, key) == Elems(out.landed);
    SelectNumbered(ct, out.db.rows, parent, key, out.landed);
  }

  lemma ValuesWritten(ct: ChildTable, elem: Column, st: ChildState, parent: string, key: string, list: seq<Json>, gen: IdSource)
    requires elem.Scalar? && RightKey(ct, key)
    requires Unissued(gen, st.next, st.db.rows) && NestedKeys(st.db)
    requires ReplaceValues(ct, elem, st.db, parent, key, list, gen, st.next).Ok?
    ensures var out := ReplaceValues(ct, elem, st.db, parent, key, list, gen, st.next).value;
      PartitionWritten(ct, gen, st, parent, key, ChildState(out.db, out.next))
  {
    ReplaceFramed(ct, elem, st.db, parent, key, list, gen, st.next);
    ValuesGapFree(ct, elem, st.db, parent, key, list, gen, st.next);
    InsertLoopSound(elem, Progress(DeleteExcept(ct, st.db, parent, key, {}), st.next, []), parent, key, list, gen);
    var out := ReplaceValues(ct, elem, st.db, parent, key, list, gen, st.next).value;
    InsertedScope(ct, st.db, parent, key, elem.col, Accepted(elem, list), gen, st.next, out);
  }

  /** The server refuses a value of a list. */
  ghost predicate ShapeRefuses(shape: Shape, list: seq<Json>, e: Failure) {
    match shape
    case Rows(inner) => ListRefuses(inner, Objects(list), e)
    case Values(elem) => ValueRefuses(elem, list, e)
  }

  lemma WritePartitionLaw(ct: ChildTable, shape: Shape, st: ChildState, parent: string, key: string, list: seq<Json>, gen: IdSource)
    requires ShapeOk(ct, shape) && RightKey(ct, key)
    requires Unissued(gen, st.next, st.db.rows) && NestedKeys(st.db)
    ensures var out := WritePartition(ct, shape, st, parent, key, list, gen);
      if out.Ok? then PartitionWritten(ct, gen, st, parent, key, out.value)
      else out.error == NotNullViolation || ShapeRefuses(shape, list, out.error)
  {
    match shape
    case Rows(inner) =>
      WriteRowsKeepsKeys(ct, inner, st.db, parent, key, list, gen, st.next);
      if WriteRows(ct, inner, st.db, parent, key, list, gen, st.next).Ok? {
        RowsWritten(ct, inner, st, parent, key, list, gen);
      }
    case Values(elem) =>
      ReplaceReadsBack(ct, elem, st.db, parent, key, list, gen, st.next);
      if ReplaceValues(ct, elem, st.db, parent, key, list, gen, st.next).Ok? {
        ValuesWritten(ct, elem, st, parent, key, list, gen);
      }
  }

  /** Every partition apart from the written one selects and reads as before. */
  lemma ApartReads(ct: ChildTable, shape: Shape, gen: IdSource, st: ChildState, parent: string, key: string, out: ChildState, otherParent: string, otherKey: string)
    requires ShapeOk(ct, shape)
    requires PartitionWritten(ct, gen, st, parent, key, out)
    requires Apart(ct, parent, key, otherParent, otherKey)
    ensures Select(ct, out.db.rows, otherParent, otherKey) == Select(ct, st.db.rows, otherParent, otherKey)
    ensures ReadPartition(ct, shape, out.db, otherParent, otherKey) == ReadPartition(ct, shape, st.db, otherParent, otherKey)
  {
    SameScopeSelect(ct, st.db, out.db, otherParent, otherKey);
    match shape
    case Rows(inner) => SameScopeReads(ct, inner, st.db, out.db, otherParent, otherKey);
    case Values(elem) => SameValues(ct, elem, st.db, out.db, otherParent, otherKey);
  }

  lemma {:induction false} SameValues(ct: ChildTable, elem: Column, d: ChildDb, e: ChildDb, parent: string, key: string)
    requires elem.Scalar? && SameScope(ct, d, e, parent, key)
    ensures ReadValues(ct, elem, e, parent, key) == ReadValues(ct, elem, d, parent, key)
  {
    SameScopeSelect(ct, d, e, parent, key);
  }

  // --- keyed by partition ---------------------------------------------------------------

  /** What saving a keyed patch does so far: numbered partitions stay numbered, patched
      ones become so, other parents' rows and unpatched partitions stay. */
  ghost predicate KeysWritten(ct: ChildTable, shape: Shape, gen: IdSource, st: ChildState, parent: string, patch: map<string, Json>, keys: seq<string>, out: ChildState)
    requires ShapeOk(ct, shape)
  {
    && Evolves(gen, st.db, st.next, out.db, out.next)
    && NestedKeys(out.db)
    && (forall k :: k in keys && Patches(patch, k) ==> GapFree(ct, out.db.rows, parent, k))
    && (forall p, k :: k != "" && (p != parent || k !in keys || !Patches(patch, k)) ==>
          Select(ct, out.db.rows, p, k) == Select(ct, st.db.rows, p, k)
          && ReadPartition(ct, shape, out.db, p, k) == ReadPartition(ct, shape, st.db, p, k))
    && (forall id :: id in st.db.rows && st.db.rows[id].parent != parent ==>
          id in out.db.rows && out.db.rows[id] == st.db.rows[id] && SameNested(out.db, st.db, id))
  }

  lemma KeysWrittenStep(ct: ChildTable, shape: Shape, gen: IdSource, st: ChildState, parent: string, patch: map<string, Json>, keys: seq<string>, mid: ChildState, key: string, out: ChildState)
    requires ShapeOk(ct, shape) && ct.partitioned
    requires Unissued(gen, st.next, st.db.rows)
    requires KeysWritten(ct, shape, gen, st, parent, patch, keys, mid)
    requires Patches(patch, key) && key !in keys
    requires PartitionWritten(ct, gen, mid, parent, key, out)
    ensures KeysWritten(ct, shape, gen, st, parent, patch, keys + [key], out)
  {
    EvolvesTransitive(gen, st.db, st.next, mid.db, mid.next, out.db, out.next);
    forall p, k | k != "" && (p != parent || k != key)
      ensures Select(ct, out.db.rows, p, k) == Select(ct, mid.db.rows, p, k)
      ensures ReadPartition(ct, shape, out.db, p, k) == ReadPartition(ct, shape, mid.db, p, k)
    {
      ApartReads(ct, shape, gen, mid, parent, key, out, p, k);
    }
    forall k | k in keys + [key] && Patches(patch, k) ensures GapFree(ct, out.db.rows, parent, k) {
      if k != key { StillGapFree(ct, mid, out, parent, k); }
    }
    forall id | id in st.db.rows && st.db.rows[id].parent != parent
      ensures id in out.db.rows && out.db.rows[id] == st.db.rows[id] && SameNested(out.db, st.db, id)
    {
      OthersStay(ct, gen, st, parent, mid, key, out, id);
    }
  }

  lemma StillGapFree(ct: ChildTable, mid: ChildState, out: ChildState, parent: string, k: string)
    requires Select(ct, out.db.rows, parent, k) == Select(ct, mid.db.rows, parent, k)
    requires GapFree(ct, mid.db.rows, parent, k)
    ensures GapFree(ct, out.db.rows, parent, k)
  {}

  lemma OthersStay(ct: ChildTable, gen: IdSource, st: ChildState, parent: string, mid: ChildState, key: string, out: ChildState, id: string)
    requires id in st.db.rows && st.db.rows[id].parent != parent
    requires id in mid.db.rows && mid.db.rows[id] == st.db.rows[id] && SameNested(mid.db, st.db, id)
    requires PartitionWritten(ct, gen, mid, parent, key, out)
    ensures id in out.db.rows && out.db.rows[id] == st.db.rows[id] && SameNested(out.db, st.db, id)
  {
    assert SameNested(out.db, mid.db, id);
  }

  lemma KeysWrittenSkip(ct: ChildTable, shape: Shape, gen: IdSource, st: ChildState, parent: string, patch: map<string, Json>, keys: seq<string>, out: ChildState, key: string)
    requires ShapeOk(ct, shape)
    requires KeysWritten(ct, shape, gen, st, parent, patch, keys, out)
    requires !Patches(patch, key)
    ensures KeysWritten(ct, shape, gen, st, parent, patch, keys + [key], out)
  {}

  /** The server refuses a value of a partition the payload names. */
  ghost predicate PatchRefuses(shape: Shape, patch: map<string, Json>, e: Failure) {
    exists k :: Patches(patch, k) && ShapeRefuses(shape, patch[k].items, e)
  }

  lemma LastKey(keys: seq<string>)
    requires keys != [] && forall i, j :: 0 <= i < j < |keys| ==> keys[i] != keys[j]
    ensures var init, key := keys[..|keys| - 1], keys[|keys| - 1];
      keys == init + [key] && key !in init && forall i, j :: 0 <= i < j < |init| ==> init[i] != init[j]
  {}

  /** The outcome of saving these partitions. */
  ghost predicate PartsOutcome(ct: ChildTable, shape: Shape, gen: IdSource, st: ChildState, parent: string, patch: map<string, Json>, keys: seq<string>, out: Result<ChildState>)
    requires ShapeOk(ct, shape)
  {
    if out.Ok? then KeysWritten(ct, shape, gen, st, parent, patch, keys, out.value)
    else out.error == NotNullViolation || PatchRefuses(shape, patch, out.error)
  }

  lemma NoKeysWritten(ct: ChildTable, shape: Shape, gen: IdSource, st: ChildState, parent: string, patch: map<string, Json>)
    requires ShapeOk(ct, shape) && Unissued(gen, st.next, st.db.rows) && NestedKeys(st.db)
    ensures KeysWritten(ct, shape, gen, st, parent, patch, [], st)
  {}

  lemma {:induction false} WritePartsLaw(ct: ChildTable, shape: Shape, gen: IdSource, st: ChildState, parent: string, patch: map<string, Json>, keys: seq<string>)
    requires ShapeOk(ct, shape) && ct.partitioned
    requires Unissued(gen, st.next, st.db.rows) && NestedKeys(st.db)
    requires forall i, j :: 0 <= i < j < |keys| ==> keys[i] != keys[j]
    ensures PartsOutcome(ct, shape, gen, st, parent, patch, keys, WriteParts(ct, shape, st, parent, patch, keys, gen))
  {
    if keys == [] {
      NoKeysWritten(ct, shape, gen, st, parent, patch);
    } else {
      var init, key := keys[..|keys| - 1], keys[|keys| - 1];
      LastKey(keys);
      WritePartsLaw(ct, shape, gen, st, parent, patch, init);
      WritePartLaw(ct, shape, gen, st, parent, patch, init, WriteParts(ct, shape, st, parent, patch, init, gen), key);
    }
  }

  lemma WritePartLaw(ct: ChildTable, shape: Shape, gen: IdSource, st: ChildState, parent: string, patch: map<string, Json>, init: seq<string>, before: Result<ChildState>, key: string)
    requires ShapeOk(ct, shape) && ct.partitioned
    requires Unissued(gen, st.next, st.db.rows) && key !in init
    requires PartsOutcome(ct, shape, gen, st, parent, patch, init, before)
    ensures PartsOutcome(ct, shape, gen, st, parent, patch, init + [key], WritePart(ct, shape, before, parent, patch, key, gen))
  {
    if before.Ok? {
      var mid := before.value;
      if Patches(patch, key) {
        WritePartitionLaw(ct, shape, mid, parent, key, patch[key].items, gen);
        var out := WritePartition(ct, shape, mid, parent, key, patch[key].items, gen);
        if out.Ok? {
          KeysWrittenStep(ct, shape, gen, st, parent, patch, init, mid, key, out.value);
        }
      } else {
        KeysWrittenSkip(ct, shape, gen, st, parent, patch, init, mid, key);
      }
    }
  }

  /** After a keyed save of scalars each patched partition reads as its own list. */
  lemma {:induction false} KeyedValuesReadBack(ct: ChildTable, elem: Column, gen: IdSource, st: ChildState, parent: string, patch: map<string, Json>, keys: seq<string>, k: string)
    requires elem.Scalar? && ct.partitioned
    requires Unissued(gen, st.next, st.db.rows) && NestedKeys(st.db)
    requires forall i, j :: 0 <= i < j < |keys| ==> keys[i] != keys[j]
    requires k in keys && Patches(patch, k)
    requires WriteParts(ct, Values(elem), st, parent, patch, keys, gen).Ok?
    ensures ReadValues(ct, elem, WriteParts(ct, Values(elem), st, parent, patch, keys, gen).value.db, parent, k) == Reads(elem, patch[k].items)
  {
    var init, key := keys[..|keys| - 1], keys[|keys| - 1];
    assert keys == init + [key] && key !in init;
    WritePartsLaw(ct, Values(elem), gen, st, parent, patch, init);
    var mid := WriteParts(ct, Values(elem), st, parent, patch, init, gen).value;
    if k == key {
      ReplaceReadsBack(ct, elem, mid.db, parent, k, patch[k].items, gen, mid.next);
    } else {
      KeyedValuesReadBack(ct, elem, gen, st, parent, patch, init, k);
      if Patches(patch, key) {
        WritePartitionLaw(ct, Values(elem), mid, parent, key, patch[key].items, gen);
        ApartReads(ct, Values(elem), gen, mid, parent, key,
          WriteParts(ct, Values(elem), st, parent, patch, keys, gen).value, parent, k);
      }
    }
  }

  ghost predicate PartAdmitted(elem: Column, patch: map<string, Json>, key: string) {
    Patches(patch, key) ==> AllAdmitted(elem, patch[key].items)
  }

  /** Such a save goes through exactly when the server takes every element of every
      partition it names. */
  lemma {:induction false} KeyedValuesAccepted(ct: ChildTable, elem: Column, gen: IdSource, st: ChildState, parent: string, patch: map<string, Json>, keys: seq<string>)
    requires elem.Scalar? && ct.partitioned
    requires Unissued(gen, st.next, st.db.rows) && NestedKeys(st.db)
    requires forall i, j :: 0 <= i < j < |keys| ==> keys[i] != keys[j]
    ensures WriteParts(ct, Values(elem), st, parent, patch, keys, gen).Ok? <==> forall i :: 0 <= i < |keys| ==> PartAdmitted(elem, patch, keys[i])
  {
    if keys != [] {
      var init, key := keys[..|keys| - 1], keys[|keys| - 1];
      KeyedValuesAccepted(ct, elem, gen, st, parent, patch, init);
      assert forall i :: 0 <= i < |init| ==> keys[i] == init[i];
      WritePartsLaw(ct, Values(elem), gen, st, parent, patch, init);
      var mid := WriteParts(ct, Values(elem), st, parent, patch, init, gen);
      if mid.Ok? { PartAccepted(ct, elem, gen, mid.value, parent, patch, key); }
    }
  }

  lemma PartAccepted(ct: ChildTable, elem: Column, gen: IdSource, mid: ChildState, parent: string, patch: map<string, Json>, key: string)
    requires elem.Scalar? && ct.partitioned && Unissued(gen, mid.next, mid.db.rows)
    ensures WritePart(ct, Values(elem), Ok(mid), parent, patch, key, gen).Ok? <==> PartAdmitted(elem, patch, key)
  {
    if Patches(patch, key) { ReplaceReadsBack(ct, elem, mid.db, parent, key, patch[key].items, gen, mid.next); }
  }

  /** Every value of a list is taken and reads as sent. */
  ghost predicate AsIs(elem: Column, list: seq<Json>)
    requires elem.Scalar?
  {
    forall i :: 0 <= i < |list| ==> elem.parse(list[i]).Some? && Admits(elem, list[i]) && ReadAs(elem, list[i]) == list[i]
  }

  lemma {:induction false} ReadsAsIs(elem: Column, list: seq<Json>)
    requires elem.Scalar? && AsIs(elem, list)
    ensures Reads(elem, list) == list
  {
    if list != [] {
      var init, last := list[..|list| - 1], list[|list| - 1];
      ReadsAsIs(elem, init);
      assert list == init + [last];
      assert Reads(elem, list) == Reads(elem, init) + [last];
    }
  }

  /** Laws under which what was read can be sent back. */
  ghost predicate Repeatable(ct: ChildTable, shape: Shape, db: ChildDb, parent: string, key: string)
    requires ShapeOk(ct, shape)
  {
    match shape
    case Rows(inner) =>
      ClearsFit(inner.cols) && "" !in db.rows && AllReparse(inner, ReadPartition(ct, shape, db, parent, key))
    case Values(elem) => AsIs(elem, ReadPartition(ct, shape, db, parent, key))
  }

  /** The child ids of a partition, in order. */
  function Ids(ct: ChildTable, db: ChildDb, parent: string, key: string): seq<string> {
    var q := Select(ct, db.rows, parent, key);
    seq(|q|, i requires 0 <= i < |q| => q[i].id)
  }

  /** Writing back the list that was read changes nothing a read can see, and keeps
      the ids of object elements. */
  lemma SaveBackPartition(ct: ChildTable, shape: Shape, st: ChildState, parent: string, key: string, gen: IdSource)
    requires ShapeOk(ct, shape) && RightKey(ct, key)
    requires Unissued(gen, st.next, st.db.rows) && NestedKeys(st.db)
    requires Repeatable(ct, shape, st.db, parent, key)
    requires WritePartition(ct, shape, st, parent, key, ReadPartition(ct, shape, st.db, parent, key), gen).Ok?
    ensures var out := WritePartition(ct, shape, st, parent, key, ReadPartition(ct, shape, st.db, parent, key), gen).value;
      && ReadPartition(ct, shape, out.db, parent, key) == ReadPartition(ct, shape, st.db, parent, key)
      && (shape.Rows? ==> Ids(ct, out.db, parent, key) == Ids(ct, st.db, parent, key))
  {
    match shape
    case Rows(inner) => SaveBackObjects(ct, inner, st, parent, key, gen);
    case Values(elem) => SaveBackValues(ct, elem, st, parent, key, gen);
  }

  lemma SaveBackObjects(ct: ChildTable, inner: Table, st: ChildState, parent: string, key: string, gen: IdSource)
    requires ElementOk(ct, inner) && RightKey(ct, key)
    requires Unissued(gen, st.next, st.db.rows)
    requires ClearsFit(inner.cols) && "" !in st.db.rows
    requires AllReparse(inner, ReadRows(ct, inner, st.db, parent, key))
    requires WriteRows(ct, inner, st.db, parent, key, ReadRows(ct, inner, st.db, parent, key), gen, st.next).Ok?
    ensures var out := WriteRows(ct, inner, st.db, parent, key, ReadRows(ct, inner, st.db, parent, key), gen, st.next).value;
      && ReadRows(ct, inner, out.db, parent, key) == ReadRows(ct, inner, st.db, parent, key)
      && Ids(ct, out.db, parent, key) == Ids(ct, st.db, parent, key)
  {
    SaveBackRows(ct, inner, st.db, parent, key, gen, st.next);
    SavedIds(ct, inner, st.db, parent, key, ReadRows(ct, inner, st.db, parent, key), gen, st.next);
  }

  lemma SaveBackValues(ct: ChildTable, elem: Column, st: ChildState, parent: string, key: string, gen: IdSource)
    requires elem.Scalar? && RightKey(ct, key)
    requires Unissued(gen, st.next, st.db.rows)
    requires Repeatable(ct, Values(elem), st.db, parent, key)
    ensures var out := ReplaceValues(ct, elem, st.db, parent, key, ReadValues(ct, elem, st.db, parent, key), gen, st.next);
      out.Ok? && ReadValues(ct, elem, out.value.db, parent, key) == ReadValues(ct, elem, st.db, parent, key)
  {
    var list := ReadValues(ct, elem, st.db, parent, key);
    ReadsAsIs(elem, list);
    ReplaceReadsBack(ct, elem, st.db, parent, key, list, gen, st.next);
  }

  /** The ids read after a save are those the elements landed in. */
  lemma SavedIds(ct: ChildTable, inner: Table, db: ChildDb, parent: string, key: string, list: seq<Json>, gen: IdSource, next: nat)
    requires ElementOk(ct, inner) && RightKey(ct, key)
    requires Unissued(gen, next, db.rows)
    requires WriteRows(ct, inner, db, parent, key, list, gen, next).Ok?
    ensures var out := WriteRows(ct, inner, db, parent, key, list, gen, next).value;
      Ids(ct, out.db, parent, key) == out.landed
  {
    ObjectsAreObjects(list);
    GarbageIsInvisible(ct, inner, db, parent, key, list, gen, next);
    WriteRowsRewritten(ct, inner, db, parent, key, Objects(list), gen, next);
    RewrittenIds(ct, inner, db, parent, key, Objects(list), WriteRows(ct, inner, db, parent, key, list, gen, next).value);
  }

  lemma RewrittenIds(ct: ChildTable, inner: Table, db: ChildDb, parent: string, key: string, items: seq<Json>, out: Progress)
    requires AllObjects(items) && |out.landed| == |items|
    requires Rewritten(ct, inner, db, parent, key, items, out)
    ensures Ids(ct, out.db, parent, key) == out.landed
  {
    SelectNumbered(ct, out.db.rows, parent, key, out.landed);
  }

  /** The keyed form of the same, partition after partition. */
  lemma {:induction false} SaveBackParts(ct: ChildTable, shape: Shape, gen: IdSource, st: ChildState, parent: string, patch: map<string, Json>, keys: seq<string>, k: string)
    requires ShapeOk(ct, shape) && ct.partitioned
    requires Unissued(gen, st.next, st.db.rows) && NestedKeys(st.db)
    requires forall i, j :: 0 <= i < j < |keys| ==> keys[i] != keys[j]
    requires forall key :: key in keys && Patches(patch, key) ==>
      patch[key].items == ReadPartition(ct, shape, st.db, parent, key) && Repeatable(ct, shape, st.db, parent, key)
    requires WriteParts(ct, shape, st, parent, patch, keys, gen).Ok?
    requires k != ""
    ensures var out := WriteParts(ct, shape, st, parent, patch, keys, gen).value;
      && ReadPartition(ct, shape, out.db, parent, k) == ReadPartition(ct, shape, st.db, parent, k)
      && (shape.Rows? ==> Ids(ct, out.db, parent, k) == Ids(ct, st.db, parent, k))
  {
    if keys != [] {
      var init, key := keys[..|keys| - 1], keys[|keys| - 1];
      assert keys == init + [key] && key !in init;
      WritePartsLaw(ct, shape, gen, st, parent, patch, init);
      var mid := WriteParts(ct, shape, st, parent, patch, init, gen).value;
      SaveBackParts(ct, shape, gen, st, parent, patch, init, k);
      if Patches(patch, key) {
        WritePartitionLaw(ct, shape, mid, parent, key, patch[key].items, gen);
        if k == key {
          MidRepeatable(ct, shape, gen, st, parent, patch, init, mid, key);
          SaveBackPartition(ct, shape, mid, parent, key, gen);
        } else {
          ApartReads(ct, shape, gen, mid, parent, key, WriteParts(ct, shape, st, parent, patch, keys, gen).value, parent, k);
        }
      }
    }
  }

  lemma MidRepeatable(ct: ChildTable, shape: Shape, gen: IdSource, st: ChildState, parent: string, patch: map<string, Json>, init: seq<string>, mid: ChildState, key: string)
    requires ShapeOk(ct, shape) && ct.partitioned
    requires KeysWritten(ct, shape, gen, st, parent, patch, init, mid)
    requires key !in init && key != ""
    requires Repeatable(ct, shape, st.db, parent, key)
    ensures Repeatable(ct, shape, mid.db, parent, key)
    ensures ReadPartition(ct, shape, mid.db, parent, key) == ReadPartition(ct, shape, st.db, parent, key)
    ensures Ids(ct, mid.db, parent, key) == Ids(ct, st.db, parent, key)
  {}

  // --- one ordered query, split by partition -----------------------------------------------

  /** The rows of one partition, picked in order out of a listing. */
  function Part(rows: map<string, ChildRow>, q: seq<Slot>, k: string): seq<Slot> {
    if q == [] then []
    else
      var s := q[|q| - 1];
      Part(rows, q[..|q| - 1], k) + (if s.id in rows && rows[s.id].key == k then [s] else [])
  }

  lemma {:induction false} PartMembers(rows: map<string, ChildRow>, q: seq<Slot>, k: string, s: Slot)
    ensures s in Part(rows, q, k) <==> s in q && s.id in rows && rows[s.id].key == k
  {
    if q != [] {
      PartMembers(rows, q[..|q| - 1], k, s);
      assert q == q[..|q| - 1] + [q[|q| - 1]];
    }
  }

  lemma {:induction false} PartAscending(rows: map<string, ChildRow>, q: seq<Slot>, k: string, less: (Slot, Slot) -> bool)
    requires Ascending(q, less)
    ensures Ascending(Part(rows, q, k), less)
  {
    if q != [] {
      var init, last := q[..|q| - 1], q[|q| - 1];
      PartAscending(rows, init, k, less);
      forall s | s in Part(rows, init, k) ensures less(s, last) {
        PartMembers(rows, init, k, s);
        var i :| 0 <= i < |init| && init[i] == s;
        assert q[i] == s;
      }
    }
  }

  lemma InSlots(ct: ChildTable, rows: map<string, ChildRow>, parent: string, key: string, s: Slot)
    ensures s in Slots(ct, rows, parent, key) <==>
      s.id in rows && InScope(ct, rows[s.id], parent, key) && s.order == rows[s.id].order
  {}

  /** Reading all partitions in one ordered query and splitting by key gives each
      partition as its own query would, NULL positions included. */
  lemma SplitAgrees(ct: ChildTable, rows: map<string, ChildRow>, parent: string, k: string)
    requires ct.partitioned && k != ""
    ensures Part(rows, Select(ct, rows, parent, ""), k) == Select(ct, rows, parent, k)
  {
    var q, less := Select(ct, rows, parent, ""), SlotOrder(ct.collation);
    PartAscending(rows, q, k, less);
    forall s: Slot ensures s in Slots(ct, rows, parent, k) <==> s in Part(rows, q, k) {
      InSlots(ct, rows, parent, "", s);
      InSlots(ct, rows, parent, k, s);
      PartMembers(rows, q, k, s);
      assert s in q <==> s in Elems(q);
    }
    assert Elems(Part(rows, q, k)) == Slots(ct, rows, parent, k);
    SortUnique(Part(rows, q, k), less);
  }

  // --- the save closure -------------------------------------------------------------------

  /** What a list save does to the table: the laws of the table hold on, numbered
      partitions stay numbered, written ones become so, other parents keep every row. */
  ghost predicate ListWritten(ct: ChildTable, shape: Shape, gen: IdSource, st: ChildState, parent: string, v: Json, out: ChildState)
    requires ShapeOk(ct, shape)
  {
    && Evolves(gen, st.db, st.next, out.db, out.next)
    && NestedKeys(out.db)
    && (forall p, k :: RightKey(ct, k) && GapFree(ct, st.db.rows, p, k) ==> GapFree(ct, out.db.rows, p, k))
    && (forall k :: RightKey(ct, k) && Sent(ct, v, k) ==> GapFree(ct, out.db.rows, parent, k))
    && (forall p :: p != parent ==> LoadList(ct, shape, out.db, p) == LoadList(ct, shape, st.db, p))
    && (forall id :: id in st.db.rows && st.db.rows[id].parent != parent ==>
          id in out.db.rows && out.db.rows[id] == st.db.rows[id] && SameNested(out.db, st.db, id))
  }

  /** Whether a payload writes a partition. */
  predicate Sent(ct: ChildTable, v: Json, key: string) {
    if ct.partitioned then v.Obj? && Patches(v.fields, key) else v.Arr?
  }

  /** The server refuses a value of the payload. */
  ghost predicate PayloadRefuses(ct: ChildTable, shape: Shape, v: Json, e: Failure) {
    if ct.partitioned then v.Obj? && PatchRefuses(shape, v.fields, e) else v.Arr? && ShapeRefuses(shape, v.items, e)
  }

  lemma SaveListLaw(ct: ChildTable, shape: Shape, gen: IdSource, st: ChildState, parent: string, v: Json)
    requires ShapeOk(ct, shape)
    requires Unissued(gen, st.next, st.db.rows) && NestedKeys(st.db)
    ensures var out := SaveList(ct, shape, st, parent, v, gen);
      && (out.Err? ==> out.error == NotNullViolation || PayloadRefuses(ct, shape, v, out.error))
      && (out.Ok? && out.value.Some? ==> ListWritten(ct, shape, gen, st, parent, v, out.value.value))
      && (out.Ok? && out.value.None? ==> forall k :: RightKey(ct, k) ==> !Sent(ct, v, k))
  {
    var out := SaveList(ct, shape, st, parent, v, gen);
    if ct.partitioned && v.Obj? {
      WritePartsLaw(ct, shape, gen, st, parent, v.fields, SortedKeys(v.fields.Keys));
      if out.Ok? { KeyedListWritten(ct, shape, gen, st, parent, v, out.value.value); }
    } else if !ct.partitioned && v.Arr? {
      WritePartitionLaw(ct, shape, st, parent, "", v.items, gen);
      if out.Ok? { PlainListWritten(ct, shape, gen, st, parent, v, out.value.value); }
    }
  }

  lemma KeyedListWritten(ct: ChildTable, shape: Shape, gen: IdSource, st: ChildState, parent: string, v: Json, out: ChildState)
    requires ShapeOk(ct, shape) && ct.partitioned && v.Obj?
    requires KeysWritten(ct, shape, gen, st, parent, v.fields, SortedKeys(v.fields.Keys), out)
    ensures ListWritten(ct, shape, gen, st, parent, v, out)
  {
    var keys := SortedKeys(v.fields.Keys);
    forall k | Patches(v.fields, k) ensures k in keys {
      assert k in Elems(keys);
    }
    forall p, k | k != "" && GapFree(ct, st.db.rows, p, k) ensures GapFree(ct, out.db.rows, p, k) {
      if p != parent || !Patches(v.fields, k) {
        assert Select(ct, out.db.rows, p, k) == Select(ct, st.db.rows, p, k);
      }
    }
    forall p | p != parent ensures LoadList(ct, shape, out.db, p) == LoadList(ct, shape, st.db, p) {
      SamePartitionKeys(ct, st.db.rows, out.db.rows, p);
      SameKeyedLoad(ct, shape, st.db, out.db, p);
    }
  }

  lemma SameKeyedLoad(ct: ChildTable, shape: Shape, d: ChildDb, e: ChildDb, parent: string)
    requires ShapeOk(ct, shape) && ct.partitioned
    requires PartitionKeys(e.rows, parent) == PartitionKeys(d.rows, parent)
    requires forall k :: k != "" ==> ReadPartition(ct, shape, e, parent, k) == ReadPartition(ct, shape, d, parent, k)
    ensures LoadList(ct, shape, e, parent) == LoadList(ct, shape, d, parent)
  {
    SameParts(ct, shape, d, e, parent, PartitionKeys(d.rows, parent));
  }

  lemma SameParts(ct: ChildTable, shape: Shape, d: ChildDb, e: ChildDb, parent: string, keys: set<string>)
    requires ShapeOk(ct, shape) && "" !in keys
    requires forall k :: k != "" ==> ReadPartition(ct, shape, e, parent, k) == ReadPartition(ct, shape, d, parent, k)
    ensures LoadParts(ct, shape, e, parent, keys) == LoadParts(ct, shape, d, parent, keys)
  {}

  lemma SamePartitionKeys(ct: ChildTable, d: map<string, ChildRow>, e: map<string, ChildRow>, parent: string)
    requires ct.partitioned
    requires forall k :: k != "" ==> Select(ct, e, parent, k) == Select(ct, d, parent, k)
    ensures PartitionKeys(e, parent) == PartitionKeys(d, parent)
  {
    forall k | k != "" ensures k in PartitionKeys(e, parent) <==> k in PartitionKeys(d, parent) {
      PartitionSelected(ct, e, parent, k);
      PartitionSelected(ct, d, parent, k);
    }
    assert "" !in PartitionKeys(e, parent) && "" !in PartitionKeys(d, parent);
  }

  /** A partition has rows exactly when its query returns some. */
  lemma PartitionSelected(ct: ChildTable, rows: map<string, ChildRow>, parent: string, k: string)
    requires ct.partitioned && k != ""
    ensures k in PartitionKeys(rows, parent) <==> Select(ct, rows, parent, k) != []
  {
    var q := Select(ct, rows, parent, k);
    if q != [] {
      assert q[0] in Elems(q);
    }
    if k in PartitionKeys(rows, parent) {
      var id :| id in rows && rows[id].parent == parent && rows[id].key == k;
      assert Slot(rows[id].order, id) in Elems(q);
    }
  }

  lemma PlainListWritten(ct: ChildTable, shape: Shape, gen: IdSource, st: ChildState, parent: string, v: Json, out: ChildState)
    requires ShapeOk(ct, shape) && !ct.partitioned && v.Arr?
    requires PartitionWritten(ct, gen, st, parent, "", out)
    ensures ListWritten(ct, shape, gen, st, parent, v, out)
  {
    forall p | p != parent
      ensures Select(ct, out.db.rows, p, "") == Select(ct, st.db.rows, p, "")
      ensures LoadList(ct, shape, out.db, p) == LoadList(ct, shape, st.db, p)
    {
      ApartReads(ct, shape, gen, st, parent, "", out, p, "");
    }
  }
}
