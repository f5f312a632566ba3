/** What a delete removes, what it leaves, and when it is refused. */
module DeleteLaws {
  import opened Values
  import opened SideTables
  import opened Columns
  import opened ChildTables
  import opened ChildLaws
  import opened ChildTheorems
  import opened ChildLists
  import opened ListLaws
  import opened RelsTables
  import opened Database
  import opened CellLaws
  import opened StoreSpec
  import opened UpdateTruth

  /** No row of a side, child or relation table has this parent. */
  ghost predicate NothingOf(db: Db, id: string) {
    && (forall t, pk :: pk in SideOf(db, t) ==> pk.0 != id)
    && (forall t, c :: c in ChildOf(db, t).rows ==> ChildOf(db, t).rows[c].parent != id)
    && (forall t, r :: r in RelsOf(db, t).rows ==> RelsOf(db, t).rows[r].parent != id)
  }

  /** Every row of a side, child or relation table has a parent that exists. */
  ghost predicate Anchored(db: Db) {
    && (forall t, pk :: pk in SideOf(db, t) ==> pk.0 in db.main)
    && (forall t, c :: c in ChildOf(db, t).rows ==> ChildOf(db, t).rows[c].parent in db.main)
    && (forall t, r :: r in RelsOf(db, t).rows ==> RelsOf(db, t).rows[r].parent in db.main)
  }

  lemma AnchoredNothing(db: Db, id: string)
    requires Anchored(db) && id !in db.main
    ensures NothingOf(db, id)
  {}

  /** A row of this table refers to the id. */
  ghost predicate RefersTo(db: Db, t: string, id: string) {
    || (exists pk :: pk in SideOf(db, t) && pk.0 == id)
    || (exists c :: c in ChildOf(db, t).rows && ChildOf(db, t).rows[c].parent == id)
    || (exists r :: r in RelsOf(db, t).rows && RelsOf(db, t).rows[r].parent == id)
  }

  /** A delete is refused if and only if a restricting table still refers to the row, and
      then with the store's own error. */
  lemma DeleteRefusedExactly(db: Db, id: string, restrict: set<string>)
    ensures DeleteSave(db, id, restrict).Err? <==> id in db.main && exists t :: t in restrict && RefersTo(db, t, id)
    ensures DeleteSave(db, id, restrict).Err? ==> DeleteSave(db, id, restrict).error == ConstraintConflict
  {
    if id in db.main && Referenced(db, id, restrict) {
      if t, pk :| t in restrict && pk in SideOf(db, t) && pk.0 == id {
        assert RefersTo(db, t, id);
      } else if t, c :| t in restrict && c in ChildOf(db, t).rows && ChildOf(db, t).rows[c].parent == id {
        assert RefersTo(db, t, id);
      } else {
        var t, r :| t in restrict && r in RelsOf(db, t).rows && RelsOf(db, t).rows[r].parent == id;
        assert RefersTo(db, t, id);
      }
    }
  }

  /** The two constraint codes become the store's own error, any other failure stays. */
  lemma ConflictCodes(e: Failure)
    ensures ConflictErr(e) == ConstraintConflict <==> e in {ForeignKeyViolation, NotNullViolation, ConstraintConflict}
    ensures ConflictErr(e) != ConstraintConflict ==> ConflictErr(e) == e
  {}

  /** The tables after a delete of a row that is there, row by row. */
  ghost predicate Removed(db: Db, id: string, out: Db) {
    && out.main == db.main - {id}
    && (forall t, p, k :: At(SideOf(out, t), p, k) == if p == id then None else At(SideOf(db, t), p, k))
    && (forall t :: ChildOf(out, t) == DropParent(ChildOf(db, t), id))
    && (forall t, r :: r in RelsOf(out, t).rows <==> r in RelsOf(db, t).rows && RelsOf(db, t).rows[r].parent != id)
    && (forall t, r :: r in RelsOf(out, t).rows ==> RelsOf(out, t).rows[r] == RelsOf(db, t).rows[r])
  }

  lemma DropNothing(parent: string)
    ensures DropParent(ChildDb(map[], map[]), parent) == ChildDb(map[], map[])
  {}

  lemma DeleteRemovesRows(db: Db, id: string, restrict: set<string>)
    requires id in db.main && DeleteSave(db, id, restrict).Ok?
    ensures Removed(db, id, DeleteSave(db, id, restrict).value)
  {
    var out := DeleteSave(db, id, restrict).value;
    DropNothing(id);
    forall t ensures ChildOf(out, t) == DropParent(ChildOf(db, t), id) {}
  }

  /** The nested rows of the dropped children go with them. */
  lemma DroppedChildren(d: ChildDb, id: string, c: string)
    requires NestedKeys(d)
    ensures c in DropParent(d, id).rows <==> c in d.rows && d.rows[c].parent != id
    ensures c in DropParent(d, id).rows ==> DropParent(d, id).rows[c] == d.rows[c] && SameNested(DropParent(d, id), d, c)
    ensures c !in DropParent(d, id).rows ==> NoNested(DropParent(d, id), c)
  {
    var e := DropParent(d, id);
    var dropped := set x | x in d.rows && d.rows[x].parent == id;
    forall t, k ensures At(NestedOf(e, t), c, k) == if c in dropped then None else At(NestedOf(d, t), c, k) {}
    if c !in d.rows {
      forall t, k ensures At(NestedOf(d, t), c, k) == None {}
    }
  }

  /** An accepted delete leaves no row of that id: Load finds none, no side, child or
      relation row has it as parent, and no child it had keeps nested rows. */
  lemma DeleteRemoves(t: Table, db: Db, gen: IdSource, next: nat, id: string, restrict: set<string>)
    requires CellsOk(t.cols) && Sound(db, gen, next) && (id in db.main || Anchored(db))
    requires DeleteSave(db, id, restrict).Ok?
    ensures var out := DeleteSave(db, id, restrict).value;
      && Load(t, out, id) == None && NothingOf(out, id)
      && (forall n, c :: c in ChildOf(db, n).rows && ChildOf(db, n).rows[c].parent == id ==> c !in ChildOf(out, n).rows && NoNested(ChildOf(out, n), c))
  {
    if id in db.main {
      var out := DeleteSave(db, id, restrict).value;
      DeleteRemovesRows(db, id, restrict);
      forall n, c ensures c in ChildOf(out, n).rows ==> ChildOf(out, n).rows[c].parent != id
        ensures c in ChildOf(db, n).rows && ChildOf(db, n).rows[c].parent == id ==> c !in ChildOf(out, n).rows && NoNested(ChildOf(out, n), c)
      {
        ChildSound(db, gen, next, n);
        DroppedChildren(ChildOf(db, n), id, c);
      }
      forall n, pk | pk in SideOf(out, n) ensures pk.0 != id {
        assert At(SideOf(out, n), pk.0, pk.1).Some?;
      }
    } else {
      AnchoredNothing(db, id);
    }
  }

  // --- what stays ------------------------------------------------------------------------------

  /** The rows of one parent, with their nested rows, are the same in two states. */
  ghost predicate SameFamily(d: ChildDb, e: ChildDb, p: string) {
    && (forall c :: c in d.rows && d.rows[c].parent == p ==> c in e.rows)
    && (forall c :: c in e.rows && e.rows[c].parent == p ==> c in d.rows && e.rows[c] == d.rows[c] && SameNested(e, d, c))
    && (forall c :: c in d.rows && d.rows[c].parent == p && c in e.rows ==> e.rows[c] == d.rows[c])
  }

  lemma SameFamilyScope(ct: ChildTable, d: ChildDb, e: ChildDb, p: string, k: string)
    requires SameFamily(d, e, p)
    ensures SameScope(ct, d, e, p, k)
  {}

  lemma SameFamilyReads(ct: ChildTable, shape: Shape, d: ChildDb, e: ChildDb, p: string, k: string)
    requires ShapeOk(ct, shape) && SameFamily(d, e, p)
    ensures ReadPartition(ct, shape, e, p, k) == ReadPartition(ct, shape, d, p, k)
  {
    SameFamilyScope(ct, d, e, p, k);
    match shape
    case Rows(inner) => SameScopeReads(ct, inner, d, e, p, k);
    case Values(elem) => SameValues(ct, elem, d, e, p, k);
  }

  lemma SameFamilyKeys(d: ChildDb, e: ChildDb, p: string)
    requires SameFamily(d, e, p)
    ensures PartitionKeys(e.rows, p) == PartitionKeys(d.rows, p)
  {}

  lemma SameFamilyLoads(ct: ChildTable, shape: Shape, d: ChildDb, e: ChildDb, p: string)
    requires ShapeOk(ct, shape) && SameFamily(d, e, p)
    ensures LoadList(ct, shape, e, p) == LoadList(ct, shape, d, p)
  {
    forall k ensures ReadPartition(ct, shape, e, p, k) == ReadPartition(ct, shape, d, p, k) { SameFamilyReads(ct, shape, d, e, p, k); }
    if ct.partitioned {
      SameFamilyKeys(d, e, p);
      SameKeyedLoad(ct, shape, d, e, p);
    }
  }

  lemma OtherListStays(ct: ChildTable, shape: Shape, d: ChildDb, id: string, p: string)
    requires ShapeOk(ct, shape) && NestedKeys(d) && p != id
    ensures LoadList(ct, shape, DropParent(d, id), p) == LoadList(ct, shape, d, p)
  {
    forall c { DroppedChildren(d, id, c); }
    SameFamilyLoads(ct, shape, d, DropParent(d, id), p);
  }

  lemma OtherMapStays(side: Side, out: Side, id: string, p: string, col: string)
    requires p != id && forall q, k :: At(out, q, k) == if q == id then None else At(side, q, k)
    ensures Read(out, p, col) == Read(side, p, col)
  {
    forall k ensures k in Read(out, p, col) <==> k in Read(side, p, col)
      ensures k in Read(out, p, col) ==> Read(out, p, col)[k] == Read(side, p, col)[k]
    {
      assert At(out, p, k) == At(side, p, k);
    }
  }

  lemma OtherRelsStay(d: RelsDb, e: RelsDb, id: string, p: string, path: string, target: string)
    requires p != id
    requires forall r :: r in e.rows <==> r in d.rows && d.rows[r].parent != id
    requires forall r :: r in e.rows ==> e.rows[r] == d.rows[r]
    ensures ReadRels(e, p, path, target) == ReadRels(d, p, path, target)
  {
    forall s: RelSlot ensures s in RelSlots(e, p, path, target) <==> s in RelSlots(d, p, path, target) {
      InRelSlots(e, p, path, target, s);
      InRelSlots(d, p, path, target, s);
    }
    assert RelSlots(e, p, path, target) == RelSlots(d, p, path, target);
    SameRelsRead(d, e, p, path, target);
  }

  lemma {:induction false} OtherCellStays(db: Db, gen: IdSource, next: nat, id: string, out: Db, c: Column, p: string)
    requires CellOk(c) && Sound(db, gen, next) && Removed(db, id, out) && p != id
    ensures CellLoad(out, c, p) == CellLoad(db, c, p)
  {
    match c
    case KeyedStrings(side, col, _) => OtherMapStays(SideOf(db, side.name), SideOf(out, side.name), id, p, col);
    case Child(ct, shape) =>
      ChildSound(db, gen, next, ct.name);
      OtherListStays(ct, shape, ChildOf(db, ct.name), id, p);
    case Rels(rels, path, target) => OtherRelsStay(RelsOf(db, rels.name), RelsOf(out, rels.name), id, p, path, target);
    case DeferredList(list, _) => OtherCellStays(db, gen, next, id, out, list, p);
    case _ =>
  }

  /** Every other row loads as before. */
  lemma DeleteLeavesOthers(t: Table, db: Db, gen: IdSource, next: nat, id: string, restrict: set<string>, p: string)
    requires CellsOk(t.cols) && Sound(db, gen, next) && p != id
    requires DeleteSave(db, id, restrict).Ok?
    ensures Load(t, DeleteSave(db, id, restrict).value, p) == Load(t, db, p)
  {
    var out := DeleteSave(db, id, restrict).value;
    if id in db.main {
      DeleteRemovesRows(db, id, restrict);
      forall nc | nc in t.cols && p in db.main ensures FieldValue(t, out, p, nc.column) == FieldValue(t, db, p, nc.column) {
        OtherCellStays(db, gen, next, id, out, nc.column, p);
      }
      SameLoads(t, db, out, p);
    }
  }

  /** Only this row is gone, and all that hung on it. */
  ghost predicate Gone(t: Table, db: Db, id: string, out: Db)
    requires CellsOk(t.cols)
  {
    && Load(t, out, id) == None
    && (id in db.main ==> NothingOf(out, id))
    && (forall p :: p != id ==> Load(t, out, p) == Load(t, db, p))
  }

  ghost predicate Restricted(db: Db, id: string, restrict: set<string>) {
    id in db.main && exists t :: t in restrict && RefersTo(db, t, id)
  }

  lemma DeleteOutcome(t: Table, db: Db, gen: IdSource, next: nat, id: string, restrict: set<string>)
    requires CellsOk(t.cols) && Sound(db, gen, next)
    ensures match DeleteSave(db, id, restrict)
      case Ok(out) => Gone(t, db, id, out) && !Restricted(db, id, restrict)
      case Err(e) => e == ConstraintConflict && Restricted(db, id, restrict)
  {
    DeleteRefusedExactly(db, id, restrict);
    if DeleteSave(db, id, restrict).Ok? {
      if id in db.main { DeleteRemoves(t, db, gen, next, id, restrict); }
      forall p | p != id ensures Load(t, DeleteSave(db, id, restrict).value, p) == Load(t, db, p) {
        DeleteLeavesOthers(t, db, gen, next, id, restrict, p);
      }
    }
  }
}
