/** The promises of ChildRows and KeyedChildRows: what reads back, who keeps its id,
    and that nobody else's rows are touched. */
module ChildTheorems {
  import opened Values
  import opened Ordering
  import opened SideTables
  import opened KeyedLaws
  import opened Columns
  import opened ChildTables
  import opened ChildLaws

  ghost predicate NoNested(db: ChildDb, id: string) {
    forall t, k :: At(NestedOf(db, t), id, k) == None
  }

  function IdFieldOf(inner: Table): string {
    if IdField(inner.cols, inner.id).Some? then IdField(inner.cols, inner.id).value else ""
  }

  /** Which row each element is now: the first element naming an own row is that row,
      every other element is a row that did not exist. */
  ghost predicate Identified(ct: ChildTable, inner: Table, db: ChildDb, parent: string, key: string, list: seq<Json>, gen: IdSource, next: nat, out: Progress) {
    var idField, owned := IdFieldOf(inner), Owned(ct, db.rows, parent, key);
    && |out.landed| == |list|
    && Distinct(out.landed)
    && next <= out.next
    && (forall i :: 0 <= i < |list| && FirstOwn(idField, owned, list, i) ==> out.landed[i] == SubmittedId(idField, list[i]))
    && (forall i :: 0 <= i < |list| && !FirstOwn(idField, owned, list, i) ==> exists k :: next <= k < out.next && out.landed[i] == gen(k))
  }

  /** The partition holds exactly the written elements, at positions 1..n; a kept row
      keeps its owner and its unsent columns. */
  ghost predicate Rewritten(ct: ChildTable, inner: Table, db: ChildDb, parent: string, key: string, list: seq<Json>, out: Progress)
    requires AllObjects(list) && |out.landed| == |list|
  {
    && Scope(ct, out.db.rows, parent, key) == Elems(out.landed)
    && (forall i :: 0 <= i < |list| ==> out.landed[i] in out.db.rows && Admitted(inner.cols, list[i].fields))
    && (forall i :: 0 <= i < |list| ==>
          out.db.rows[out.landed[i]] == UpsertedRow(db.rows, out.landed[i], parent, key, i, SentValues(inner.cols, list[i].fields)))
  }

  /** Rows of other parents and partitions stay, with all their nested rows; rows of
      the partition that were not sent are gone with theirs. */
  ghost predicate Framed(ct: ChildTable, db: ChildDb, parent: string, key: string, out: Progress) {
    && (forall id :: id !in Scope(ct, db.rows, parent, key) && id !in out.landed ==>
          (id in out.db.rows <==> id in db.rows) && (id in db.rows ==> out.db.rows[id] == db.rows[id]) && SameNested(out.db, db, id))
    && (forall id :: id in Scope(ct, db.rows, parent, key) && id !in out.landed ==> id !in out.db.rows && NoNested(out.db, id))
  }

  /** Nested maps of the written elements: the old map overlaid with what was sent. */
  ghost predicate NestedOverlaid(inner: Table, db: ChildDb, list: seq<Json>, out: Progress)
    requires AllObjects(list) && |out.landed| == |list|
  {
    forall i, nc :: 0 <= i < |list| && nc in inner.cols && nc.column.KeyedStrings? ==>
      Read(NestedOf(out.db, nc.column.side.name), out.landed[i], nc.column.col)
      == NestedAfter(Read(NestedOf(db, nc.column.side.name), out.landed[i], nc.column.col), list[i].fields, nc.name)
  }

  lemma DeletedNested(ct: ChildTable, db: ChildDb, parent: string, key: string, keep: set<string>, id: string)
    ensures var dropped := Scope(ct, db.rows, parent, key) - keep;
      if id in dropped then NoNested(DeleteExcept(ct, db, parent, key, keep), id)
      else SameNested(DeleteExcept(ct, db, parent, key, keep), db, id)
  {}

  lemma LandedIsKept(ids: seq<string>, i: nat)
    requires i < |ids| && ids[i] != ""
    ensures ids[i] in KeepList(ids)
  {}

  /** ids of the keep list are the own ids that were sent, and fresh ones. */
  lemma KeptAreLanded(ids: seq<string>, landed: seq<string>)
    requires |ids| == |landed|
    requires forall i :: 0 <= i < |ids| && ids[i] != "" ==> landed[i] == ids[i]
    ensures KeepList(ids) <= Elems(landed)
  {}

  lemma WriteRowsIdentified(ct: ChildTable, inner: Table, db: ChildDb, parent: string, key: string, list: seq<Json>, gen: IdSource, next: nat)
    requires ElementOk(ct, inner) && AllObjects(list)
    requires Unissued(gen, next, db.rows)
    requires WriteRows(ct, inner, db, parent, key, list, gen, next).Ok?
    ensures Identified(ct, inner, db, parent, key, list, gen, next, WriteRows(ct, inner, db, parent, key, list, gen, next).value)
  {
    WriteRowsLands(ct, inner, db, parent, key, list, gen, next);
    var r, out := ResolvedIds(ct, inner, db, parent, key, list, gen, next), WriteRows(ct, inner, db, parent, key, list, gen, next).value;
    var idField, owned := IdFieldOf(inner), Owned(ct, db.rows, parent, key);
    forall i | 0 <= i < |list| && FirstOwn(idField, owned, list, i) ensures out.landed[i] == SubmittedId(idField, list[i]) {
      assert r.ids[i] == SubmittedId(idField, list[i]);
    }
    forall i | 0 <= i < |list| && !FirstOwn(idField, owned, list, i) ensures exists k :: next <= k < out.next && out.landed[i] == gen(k) {
      if r.ids[i] != "" {
        var k :| next <= k < r.next && r.ids[i] == gen(k);
        assert next <= k < out.next;
      } else {
        var k :| r.next <= k < out.next && out.landed[i] == gen(k);
        assert next <= k;
      }
    }
  }

  /** A landed row is an own row that was sent, or did not exist. */
  lemma LandedOwn(ct: ChildTable, inner: Table, db: ChildDb, parent: string, key: string, list: seq<Json>, gen: IdSource, next: nat, out: Progress, i: nat)
    requires Unissued(gen, next, db.rows)
    requires Identified(ct, inner, db, parent, key, list, gen, next, out)
    requires i < |list|
    ensures out.landed[i] in db.rows <==> FirstOwn(IdFieldOf(inner), Owned(ct, db.rows, parent, key), list, i)
    ensures out.landed[i] in db.rows ==> out.landed[i] in Scope(ct, db.rows, parent, key)
  {}

  /** The DELETE spares every landed row. */
  lemma LandedSurvives(ct: ChildTable, inner: Table, db: ChildDb, parent: string, key: string, list: seq<Json>, gen: IdSource, next: nat, i: nat)
    requires ElementOk(ct, inner) && AllObjects(list) && i < |list|
    requires Unissued(gen, next, db.rows)
    requires WriteRows(ct, inner, db, parent, key, list, gen, next).Ok?
    ensures var out, start := WriteRows(ct, inner, db, parent, key, list, gen, next).value, Start(ct, inner, db, parent, key, list, gen, next);
      && |out.landed| == |list|
      && (out.landed[i] in start.db.rows <==> out.landed[i] in db.rows)
      && (out.landed[i] in db.rows ==> out.landed[i] in KeepList(ResolvedIds(ct, inner, db, parent, key, list, gen, next).ids))
  {
    WriteRowsIdentified(ct, inner, db, parent, key, list, gen, next);
    WriteRowsLands(ct, inner, db, parent, key, list, gen, next);
    var r, out := ResolvedIds(ct, inner, db, parent, key, list, gen, next), WriteRows(ct, inner, db, parent, key, list, gen, next).value;
    LandedOwn(ct, inner, db, parent, key, list, gen, next, out, i);
    if out.landed[i] in db.rows {
      assert r.ids[i] == out.landed[i];
      LandedIsKept(r.ids, i);
    }
  }

  /** One written row. */
  lemma RowRewritten(ct: ChildTable, inner: Table, db: ChildDb, parent: string, key: string, list: seq<Json>, gen: IdSource, next: nat, i: nat)
    requires ElementOk(ct, inner) && AllObjects(list) && RightKey(ct, key) && i < |list|
    requires Unissued(gen, next, db.rows)
    requires WriteRows(ct, inner, db, parent, key, list, gen, next).Ok?
    ensures var out := WriteRows(ct, inner, db, parent, key, list, gen, next).value;
      && |out.landed| == |list|
      && out.landed[i] in out.db.rows && Admitted(inner.cols, list[i].fields)
      && out.db.rows[out.landed[i]] == UpsertedRow(db.rows, out.landed[i], parent, key, i, SentValues(inner.cols, list[i].fields))
      && InScope(ct, out.db.rows[out.landed[i]], parent, key)
  {
    WriteRowsLands(ct, inner, db, parent, key, list, gen, next);
    WriteRowsIdentified(ct, inner, db, parent, key, list, gen, next);
    LandedSurvives(ct, inner, db, parent, key, list, gen, next, i);
    LandedOwn(ct, inner, db, parent, key, list, gen, next, WriteRows(ct, inner, db, parent, key, list, gen, next).value, i);
  }

  /** No other row is left in the partition. */
  lemma OnlyLanded(ct: ChildTable, inner: Table, db: ChildDb, parent: string, key: string, list: seq<Json>, gen: IdSource, next: nat)
    requires ElementOk(ct, inner) && AllObjects(list)
    requires Unissued(gen, next, db.rows)
    requires WriteRows(ct, inner, db, parent, key, list, gen, next).Ok?
    ensures var out := WriteRows(ct, inner, db, parent, key, list, gen, next).value;
      forall id :: id in Scope(ct, out.db.rows, parent, key) ==> id in out.landed
  {
    WriteRowsLands(ct, inner, db, parent, key, list, gen, next);
    KeptAreLanded(ResolvedIds(ct, inner, db, parent, key, list, gen, next).ids, WriteRows(ct, inner, db, parent, key, list, gen, next).value.landed);
  }

  lemma WriteRowsRewritten(ct: ChildTable, inner: Table, db: ChildDb, parent: string, key: string, list: seq<Json>, gen: IdSource, next: nat)
    requires ElementOk(ct, inner) && AllObjects(list) && RightKey(ct, key)
    requires Unissued(gen, next, db.rows)
    requires WriteRows(ct, inner, db, parent, key, list, gen, next).Ok?
    ensures var out := WriteRows(ct, inner, db, parent, key, list, gen, next).value;
      |out.landed| == |list| && Rewritten(ct, inner, db, parent, key, list, out)
  {
    var out := WriteRows(ct, inner, db, parent, key, list, gen, next).value;
    WriteRowsIdentified(ct, inner, db, parent, key, list, gen, next);
    OnlyLanded(ct, inner, db, parent, key, list, gen, next);
    forall i | 0 <= i < |list|
      ensures out.landed[i] in out.db.rows && Admitted(inner.cols, list[i].fields)
      ensures out.db.rows[out.landed[i]] == UpsertedRow(db.rows, out.landed[i], parent, key, i, SentValues(inner.cols, list[i].fields))
      ensures InScope(ct, out.db.rows[out.landed[i]], parent, key)
    {
      RowRewritten(ct, inner, db, parent, key, list, gen, next, i);
    }
    assert Scope(ct, out.db.rows, parent, key) == Elems(out.landed);
  }

  lemma WriteRowsFramed(ct: ChildTable, inner: Table, db: ChildDb, parent: string, key: string, list: seq<Json>, gen: IdSource, next: nat)
    requires ElementOk(ct, inner) && AllObjects(list)
    requires Unissued(gen, next, db.rows)
    requires WriteRows(ct, inner, db, parent, key, list, gen, next).Ok?
    ensures Framed(ct, db, parent, key, WriteRows(ct, inner, db, parent, key, list, gen, next).value)
  {
    WriteRowsLands(ct, inner, db, parent, key, list, gen, next);
    var r, out := ResolvedIds(ct, inner, db, parent, key, list, gen, next), WriteRows(ct, inner, db, parent, key, list, gen, next).value;
    KeptAreLanded(r.ids, out.landed);
    forall id | id !in out.landed
      ensures if id in Scope(ct, db.rows, parent, key) then NoNested(out.db, id) else SameNested(out.db, db, id)
    {
      DeletedNested(ct, db, parent, key, KeepList(r.ids), id);
      assert SameNested(out.db, Start(ct, inner, db, parent, key, list, gen, next).db, id);
    }
  }

  lemma WriteRowsOverlays(ct: ChildTable, inner: Table, db: ChildDb, parent: string, key: string, list: seq<Json>, gen: IdSource, next: nat)
    requires ElementOk(ct, inner) && ClearsFit(inner.cols) && AllObjects(list)
    requires Unissued(gen, next, db.rows)
    requires WriteRows(ct, inner, db, parent, key, list, gen, next).Ok?
    ensures var out := WriteRows(ct, inner, db, parent, key, list, gen, next).value;
      |out.landed| == |list| && NestedOverlaid(inner, db, list, out)
  {
    WriteRowsLands(ct, inner, db, parent, key, list, gen, next);
    var r, out := ResolvedIds(ct, inner, db, parent, key, list, gen, next), WriteRows(ct, inner, db, parent, key, list, gen, next).value;
    var start := Start(ct, inner, db, parent, key, list, gen, next);
    forall i, nc | 0 <= i < |list| && nc in inner.cols && nc.column.KeyedStrings?
      ensures Read(NestedOf(start.db, nc.column.side.name), out.landed[i], nc.column.col)
           == Read(NestedOf(db, nc.column.side.name), out.landed[i], nc.column.col)
    {
      LandedSurvives(ct, inner, db, parent, key, list, gen, next, i);
      DeletedNested(ct, db, parent, key, KeepList(r.ids), out.landed[i]);
      SameNestedReads(start.db, db, out.landed[i], nc.column.side.name, nc.column.col);
    }
  }

  // --- reading back -------------------------------------------------------------------

  /** Positions are exactly 1..n, in payload order. */
  ghost predicate GapFree(ct: ChildTable, rows: map<string, ChildRow>, parent: string, key: string) {
    var q := Select(ct, rows, parent, key);
    forall i :: 0 <= i < |q| ==> q[i].order == Some(WriteOrder(i))
  }

  /** Rows numbered 1..n are selected in that order. */
  lemma SelectNumbered(ct: ChildTable, rows: map<string, ChildRow>, parent: string, key: string, landed: seq<string>)
    requires Scope(ct, rows, parent, key) == Elems(landed)
    requires forall i :: 0 <= i < |landed| ==> landed[i] in rows && rows[landed[i]].order == Some(WriteOrder(i))
    ensures Select(ct, rows, parent, key) == seq(|landed|, i requires 0 <= i < |landed| => Slot(Some(WriteOrder(i)), landed[i]))
  {
    var q := seq(|landed|, i requires 0 <= i < |landed| => Slot(Some(WriteOrder(i)), landed[i]));
    assert Elems(q) == Slots(ct, rows, parent, key) by {
      forall s | s in Slots(ct, rows, parent, key) ensures s in q {
        assert s.id in Scope(ct, rows, parent, key) && s.id in landed;
        var i :| 0 <= i < |landed| && landed[i] == s.id;
        assert q[i] == s;
      }
      forall s | s in q ensures s in Slots(ct, rows, parent, key) {
        var i :| 0 <= i < |q| && q[i] == s;
        assert landed[i] in Scope(ct, rows, parent, key);
      }
    }
    assert Ascending(q, SlotOrder(ct.collation));
    SortUnique(q, SlotOrder(ct.collation));
  }

  /** One turn over the declaration. */
  function SentItem(nc: Named, item: map<string, Json>): Option<Assign> {
    if nc.column.Scalar? && nc.name in item && nc.column.parse(item[nc.name]).Some?
    then Some(Assign(nc.column.col, nc.column.parse(item[nc.name]).value.stored, nc.column.admit)) else None
  }

  lemma SentTurn(cols: seq<Named>, item: map<string, Json>)
    requires cols != []
    ensures var init, a := cols[..|cols| - 1], SentItem(cols[|cols| - 1], item);
      SentAssigns(cols, item) == SentAssigns(init, item) + (if a.Some? then [a.value] else [])
  {}

  /** What one more value does to the columns written. */
  lemma EvaluateSnoc(assigns: seq<Assign>, a: Assign)
    ensures Evaluate(assigns + [a]) ==
      match Evaluate(assigns)
      case Err(e) => Err(e)
      case Ok(row) =>
        match a.admit(a.value)
        case Err(e) => Err(e)
        case Ok(image) => Ok(row[a.col := image])
  {
    assert (assigns + [a])[..|assigns|] == assigns;
  }

  /** The columns of a declaration after one more field. */
  lemma SentValuesTurn(cols: seq<Named>, item: map<string, Json>)
    requires cols != [] && Admitted(cols, item)
    ensures var init, nc := cols[..|cols| - 1], cols[|cols| - 1];
      && Admitted(init, item)
      && if SentItem(nc, item).Some? then
           && Admits(nc.column, item[nc.name])
           && SentValues(cols, item) == SentValues(init, item)[nc.column.col := Image(nc.column, item[nc.name])]
         else SentValues(cols, item) == SentValues(init, item)
  {
    var init, nc := cols[..|cols| - 1], cols[|cols| - 1];
    SentTurn(cols, item);
    if SentItem(nc, item).Some? {
      EvaluateSnoc(SentAssigns(init, item), SentItem(nc, item).value);
    } else {
      assert SentAssigns(init, item) + [] == SentAssigns(init, item);
    }
  }

  /** No earlier field stores in the column of the last one. */
  lemma LastColumn(cols: seq<Named>)
    requires DistinctStorage(cols) && cols != []
    ensures var init, last := cols[..|cols| - 1], cols[|cols| - 1];
      ColumnOf(last.column).Some? ==> forall i :: 0 <= i < |init| ==> ColumnOf(init[i].column) != ColumnOf(last.column)
  {
    var init, last := cols[..|cols| - 1], cols[|cols| - 1];
    forall i | 0 <= i < |init| && ColumnOf(last.column).Some? ensures ColumnOf(init[i].column) != ColumnOf(last.column) {
      assert StorageOf(cols[i].column) != StorageOf(cols[|cols| - 1].column);
    }
  }

  /** A sent field holds the server's image of it, and any other column is not written. */
  ghost predicate Holds(vals: Row, item: map<string, Json>, nc: Named)
    requires ColumnOf(nc.column).Some?
  {
    var col := ColumnOf(nc.column).value;
    if SentItem(nc, item).Some? then col in vals && vals[col] == Image(nc.column, item[nc.name]) else col !in vals
  }

  lemma {:induction false} SentValuesAt(cols: seq<Named>, item: map<string, Json>, nc: Named)
    requires DistinctStorage(cols) && Admitted(cols, item)
    requires nc in cols && ColumnOf(nc.column).Some?
    ensures Holds(SentValues(cols, item), item, nc)
  {
    var init, last := cols[..|cols| - 1], cols[|cols| - 1];
    assert cols == init + [last];
    PrefixStorage(cols);
    LastColumn(cols);
    SentValuesTurn(cols, item);
    if nc in init {
      SentValuesAt(init, item, nc);
      var i :| 0 <= i < |init| && init[i] == nc;
      assert ColumnOf(init[i].column) != ColumnOf(last.column);
    } else {
      SentValuesOthers(init, item, ColumnOf(nc.column).value);
    }
  }

  /** A column no field stores in is written by none. */
  lemma {:induction false} SentValuesOthers(cols: seq<Named>, item: map<string, Json>, col: string)
    requires Admitted(cols, item)
    requires forall i :: 0 <= i < |cols| ==> ColumnOf(cols[i].column) != Some(col)
    ensures col !in SentValues(cols, item)
  {
    if cols != [] {
      SentValuesTurn(cols, item);
      SentValuesOthers(cols[..|cols| - 1], item, col);
      assert ColumnOf(cols[|cols| - 1].column) != Some(col);
    }
  }

  /** The server refuses a value some field of the element sends. */
  ghost predicate ItemRefuses(cols: seq<Named>, item: map<string, Json>, e: Failure) {
    exists nc :: nc in cols && nc.name in item && Refuses(nc.column, item[nc.name], e)
  }

  /** The upsert of an element is refused by the server's refusal of a sent value, and by
      nothing else. */
  lemma {:induction false} SentRefused(cols: seq<Named>, item: map<string, Json>)
    ensures Evaluate(SentAssigns(cols, item)).Err? ==> ItemRefuses(cols, item, Evaluate(SentAssigns(cols, item)).error)
    ensures Admitted(cols, item) ==> forall nc :: nc in cols && nc.name in item ==> Admits(nc.column, item[nc.name])
  {
    if cols != [] {
      var init, last := cols[..|cols| - 1], cols[|cols| - 1];
      assert cols == init + [last];
      SentRefused(init, item);
      SentTurn(cols, item);
      if SentItem(last, item).Some? {
        EvaluateSnoc(SentAssigns(init, item), SentItem(last, item).value);
      } else {
        assert SentAssigns(init, item) + [] == SentAssigns(init, item);
      }
      SentRefusedStep(init, last, item);
    }
  }

  lemma SentRefusedStep(init: seq<Named>, last: Named, item: map<string, Json>)
    ensures forall e :: ItemRefuses(init, item, e) ==> ItemRefuses(init + [last], item, e)
    ensures forall e :: last.name in item && Refuses(last.column, item[last.name], e) ==> ItemRefuses(init + [last], item, e)
  {
    var cols := init + [last];
    assert last in cols;
    forall e | ItemRefuses(init, item, e) ensures ItemRefuses(cols, item, e) {
      var nc :| nc in init && nc.name in item && Refuses(nc.column, item[nc.name], e);
      assert nc in cols;
    }
  }

  /** One field of one saved element, from the state before and the payload: sent and
      parsed subfields read as the server's image of the payload value, other columns what was stored (NULL in a
      new row), nested maps the old map overlaid with what was sent. */
  function ExpectedField(inner: Table, before: ChildDb, id: string, item: map<string, Json>, name: string, c: Column): Json {
    if ColumnOf(c) == Some(inner.id) then Str(id)
    else
      match c
      case Scalar(_, parse, _, _) =>
        if name in item && parse(item[name]).Some? then ReadAs(c, item[name]) else FieldOf(inner, before, id, c)
      case KeyedStrings(side, col, _) => Texts(NestedAfter(Read(NestedOf(before, side.name), id, col), item, name))
      case _ => FieldOf(inner, before, id, c)
  }

  function ExpectedItem(inner: Table, before: ChildDb, id: string, item: map<string, Json>): Json {
    Obj(map n | n in Names(inner.cols) :: ExpectedField(inner, before, id, item, n, Lookup(inner.cols, n).value))
  }

  lemma WrittenField(ct: ChildTable, inner: Table, db: ChildDb, parent: string, key: string, list: seq<Json>, out: Progress, i: nat, nc: Named)
    requires ElementOk(ct, inner)
    requires AllObjects(list) && |out.landed| == |list| && i < |list|
    requires Rewritten(ct, inner, db, parent, key, list, out) && NestedOverlaid(inner, db, list, out)
    requires nc in inner.cols
    ensures FieldOf(inner, out.db, out.landed[i], nc.column) == ExpectedField(inner, db, out.landed[i], list[i].fields, nc.name, nc.column)
  {
    if ColumnOf(nc.column).Some? {
      SentValuesAt(inner.cols, list[i].fields, nc);
    }
  }

  lemma WrittenItem(ct: ChildTable, inner: Table, db: ChildDb, parent: string, key: string, list: seq<Json>, out: Progress, i: nat)
    requires ElementOk(ct, inner)
    requires AllObjects(list) && |out.landed| == |list| && i < |list|
    requires Rewritten(ct, inner, db, parent, key, list, out) && NestedOverlaid(inner, db, list, out)
    ensures RowItem(inner, out.db, out.landed[i]) == ExpectedItem(inner, db, out.landed[i], list[i].fields)
  {
    forall n | n in Names(inner.cols)
      ensures FieldOf(inner, out.db, out.landed[i], Lookup(inner.cols, n).value)
           == ExpectedField(inner, db, out.landed[i], list[i].fields, n, Lookup(inner.cols, n).value)
    {
      WrittenField(ct, inner, db, parent, key, list, out, i, Named(n, Lookup(inner.cols, n).value));
    }
    SameItem(inner, db, out.db, out.landed[i], list[i].fields);
  }

  lemma SameItem(inner: Table, db: ChildDb, after: ChildDb, id: string, item: map<string, Json>)
    requires forall n :: n in Names(inner.cols) ==>
      FieldOf(inner, after, id, Lookup(inner.cols, n).value) == ExpectedField(inner, db, id, item, n, Lookup(inner.cols, n).value)
    ensures RowItem(inner, after, id) == ExpectedItem(inner, db, id, item)
  {}

  ghost predicate ReadsBack(ct: ChildTable, inner: Table, before: ChildDb, parent: string, key: string, items: seq<Json>, out: Progress) {
    var read := ReadRows(ct, inner, out.db, parent, key);
    && AllObjects(items) && |read| == |items| == |out.landed|
    && forall i :: 0 <= i < |items| ==> read[i] == ExpectedItem(inner, before, out.landed[i], items[i].fields)
  }

  lemma ObjectsReadBack(ct: ChildTable, inner: Table, db: ChildDb, parent: string, key: string, items: seq<Json>, out: Progress)
    requires ElementOk(ct, inner)
    requires AllObjects(items) && |out.landed| == |items|
    requires Rewritten(ct, inner, db, parent, key, items, out) && NestedOverlaid(inner, db, items, out)
    ensures ReadsBack(ct, inner, db, parent, key, items, out) && GapFree(ct, out.db.rows, parent, key)
  {
    SelectNumbered(ct, out.db.rows, parent, key, out.landed);
    forall i | 0 <= i < |items|
      ensures ReadRows(ct, inner, out.db, parent, key)[i] == ExpectedItem(inner, db, out.landed[i], items[i].fields)
    {
      WrittenItem(ct, inner, db, parent, key, items, out, i);
    }
  }

  /** After saving any list the partition reads as the payload's objects, in payload
      order, each in its own row, at positions 1..n. */
  lemma {:induction false} SaveReadsBack(ct: ChildTable, inner: Table, db: ChildDb, parent: string, key: string, list: seq<Json>, gen: IdSource, next: nat)
    requires ElementOk(ct, inner) && ClearsFit(inner.cols) && RightKey(ct, key)
    requires Unissued(gen, next, db.rows)
    requires WriteRows(ct, inner, db, parent, key, list, gen, next).Ok?
    ensures var out := WriteRows(ct, inner, db, parent, key, list, gen, next).value;
      && Identified(ct, inner, db, parent, key, Objects(list), gen, next, out)
      && ReadsBack(ct, inner, db, parent, key, Objects(list), out)
      && GapFree(ct, out.db.rows, parent, key)
  {
    var items := Objects(list);
    ObjectsAreObjects(list);
    GarbageIsInvisible(ct, inner, db, parent, key, list, gen, next);
    WriteRowsIdentified(ct, inner, db, parent, key, items, gen, next);
    WriteRowsRewritten(ct, inner, db, parent, key, items, gen, next);
    WriteRowsOverlays(ct, inner, db, parent, key, items, gen, next);
    ObjectsReadBack(ct, inner, db, parent, key, items, WriteRows(ct, inner, db, parent, key, items, gen, next).value);
  }

  /** A field of an element that is new: from the payload alone. */
  function NewField(inner: Table, id: string, item: map<string, Json>, name: string, c: Column): Json {
    if ColumnOf(c) == Some(inner.id) then Str(id)
    else
      match c
      case Scalar(_, parse, _, decode) => if name in item && parse(item[name]).Some? then ReadAs(c, item[name]) else decode(SqlNull)
      case ReadOnly(_, decode) => decode(SqlNull)
      case KeyedStrings(_, _, _) => Texts(NestedAfter(map[], item, name))
      case _ => Null
  }

  function NewItem(inner: Table, id: string, item: map<string, Json>): Json {
    Obj(map n | n in Names(inner.cols) :: NewField(inner, id, item, n, Lookup(inner.cols, n).value))
  }

  lemma NewRowsStartEmpty(inner: Table, db: ChildDb, id: string, item: map<string, Json>)
    requires NestedKeys(db) && id !in db.rows
    ensures ExpectedItem(inner, db, id, item) == NewItem(inner, id, item)
  {
    forall n | n in Names(inner.cols)
      ensures ExpectedField(inner, db, id, item, n, Lookup(inner.cols, n).value) == NewField(inner, id, item, n, Lookup(inner.cols, n).value)
    {
      var c := Lookup(inner.cols, n).value;
      if c.KeyedStrings? { assert Read(NestedOf(db, c.side.name), id, c.col) == map[]; }
    }
  }

  /** An element that names no row of its own partition ends with what was sent and
      nothing else, whatever ids and rows the tables held before. */
  lemma NewRowsHoldOnlyTheSent(ct: ChildTable, inner: Table, db: ChildDb, parent: string, key: string, list: seq<Json>, gen: IdSource, next: nat, i: nat)
    requires ElementOk(ct, inner) && ClearsFit(inner.cols) && RightKey(ct, key)
    requires Unissued(gen, next, db.rows) && NestedKeys(db)
    requires WriteRows(ct, inner, db, parent, key, list, gen, next).Ok?
    requires i < |Objects(list)| && !FirstOwn(IdFieldOf(inner), Owned(ct, db.rows, parent, key), Objects(list), i)
    ensures var out := WriteRows(ct, inner, db, parent, key, list, gen, next).value;
      && Objects(list)[i].Obj?
      && |ReadRows(ct, inner, out.db, parent, key)| == |out.landed| == |Objects(list)|
      && ReadRows(ct, inner, out.db, parent, key)[i] == NewItem(inner, out.landed[i], Objects(list)[i].fields)
  {
    SaveReadsBack(ct, inner, db, parent, key, list, gen, next);
    var out := WriteRows(ct, inner, db, parent, key, list, gen, next).value;
    LandedOwn(ct, inner, db, parent, key, Objects(list), gen, next, out, i);
    NewRowsStartEmpty(inner, db, out.landed[i], Objects(list)[i].fields);
  }

  // --- nobody else's rows ----------------------------------------------------------------

  /** Whatever ids the payload carries, a row outside the saved partition survives
      with its columns, its owner and every nested row. */
  lemma OthersUntouched(ct: ChildTable, inner: Table, db: ChildDb, parent: string, key: string, list: seq<Json>, gen: IdSource, next: nat, id: string)
    requires ElementOk(ct, inner)
    requires Unissued(gen, next, db.rows)
    requires WriteRows(ct, inner, db, parent, key, list, gen, next).Ok?
    requires id in db.rows && !InScope(ct, db.rows[id], parent, key)
    ensures var out := WriteRows(ct, inner, db, parent, key, list, gen, next).value;
      id in out.db.rows && out.db.rows[id] == db.rows[id] && SameNested(out.db, db, id)
  {
    ObjectsAreObjects(list);
    GarbageIsInvisible(ct, inner, db, parent, key, list, gen, next);
    WriteRowsIdentified(ct, inner, db, parent, key, Objects(list), gen, next);
    WriteRowsFramed(ct, inner, db, parent, key, Objects(list), gen, next);
    var out := WriteRows(ct, inner, db, parent, key, list, gen, next).value;
    forall i | 0 <= i < |out.landed| ensures out.landed[i] != id {
      LandedOwn(ct, inner, db, parent, key, Objects(list), gen, next, out, i);
    }
    assert id !in out.landed;
  }

  /** An element that was dropped takes its nested rows with it, and nothing appears
      outside the partition. */
  lemma DroppedAreGone(ct: ChildTable, inner: Table, db: ChildDb, parent: string, key: string, list: seq<Json>, gen: IdSource, next: nat, id: string)
    requires ElementOk(ct, inner) && RightKey(ct, key)
    requires Unissued(gen, next, db.rows)
    requires WriteRows(ct, inner, db, parent, key, list, gen, next).Ok?
    ensures var out := WriteRows(ct, inner, db, parent, key, list, gen, next).value;
      && (id in Scope(ct, db.rows, parent, key) && id !in out.landed ==> id !in out.db.rows && NoNested(out.db, id))
      && (id in out.db.rows && !InScope(ct, out.db.rows[id], parent, key) ==> id in db.rows)
      && (id in out.landed <==> id in Scope(ct, out.db.rows, parent, key))
  {
    ObjectsAreObjects(list);
    GarbageIsInvisible(ct, inner, db, parent, key, list, gen, next);
    WriteRowsRewritten(ct, inner, db, parent, key, Objects(list), gen, next);
    WriteRowsFramed(ct, inner, db, parent, key, Objects(list), gen, next);
    var out := WriteRows(ct, inner, db, parent, key, list, gen, next).value;
    assert id in Elems(out.landed) <==> id in out.landed;
  }

  /** Two partitions that share no row. */
  predicate Apart(ct: ChildTable, parent: string, key: string, otherParent: string, otherKey: string) {
    otherParent != parent || (ct.partitioned && key != "" && otherKey != "" && otherKey != key)
  }

  /** So every other partition selects and reads exactly as before. */
  lemma OtherPartitionsRead(ct: ChildTable, inner: Table, db: ChildDb, parent: string, key: string, list: seq<Json>, gen: IdSource, next: nat, otherParent: string, otherKey: string)
    requires ElementOk(ct, inner) && RightKey(ct, key)
    requires Unissued(gen, next, db.rows)
    requires WriteRows(ct, inner, db, parent, key, list, gen, next).Ok?
    requires Apart(ct, parent, key, otherParent, otherKey)
    ensures var out := WriteRows(ct, inner, db, parent, key, list, gen, next).value;
      && Select(ct, out.db.rows, otherParent, otherKey) == Select(ct, db.rows, otherParent, otherKey)
      && ReadRows(ct, inner, out.db, otherParent, otherKey) == ReadRows(ct, inner, db, otherParent, otherKey)
  {
    var out := WriteRows(ct, inner, db, parent, key, list, gen, next).value;
    forall id | id in Scope(ct, db.rows, otherParent, otherKey) || id in Scope(ct, out.db.rows, otherParent, otherKey)
      ensures id in db.rows && id in out.db.rows && out.db.rows[id] == db.rows[id] && SameNested(out.db, db, id)
    {
      DroppedAreGone(ct, inner, db, parent, key, list, gen, next, id);
      if id in db.rows && !InScope(ct, db.rows[id], parent, key) {
        OthersUntouched(ct, inner, db, parent, key, list, gen, next, id);
      }
    }
    SameScopeSelect(ct, db, out.db, otherParent, otherKey);
    SameScopeReads(ct, inner, db, out.db, otherParent, otherKey);
  }

  /** A parent's rows, or one partition of them, are the same in two states. */
  ghost predicate SameScope(ct: ChildTable, d: ChildDb, e: ChildDb, parent: string, key: string) {
    forall id :: id in Scope(ct, d.rows, parent, key) || id in Scope(ct, e.rows, parent, key) ==>
      id in d.rows && id in e.rows && e.rows[id] == d.rows[id] && SameNested(e, d, id)
  }

  lemma SameScopeSelect(ct: ChildTable, d: ChildDb, e: ChildDb, parent: string, key: string)
    requires SameScope(ct, d, e, parent, key)
    ensures Select(ct, e.rows, parent, key) == Select(ct, d.rows, parent, key)
    ensures var q := Select(ct, d.rows, parent, key);
      forall i :: 0 <= i < |q| ==> q[i].id in Scope(ct, d.rows, parent, key)
  {
    assert Scope(ct, d.rows, parent, key) == Scope(ct, e.rows, parent, key);
    assert Slots(ct, e.rows, parent, key) == Slots(ct, d.rows, parent, key);
    SelectedInScope(ct, d.rows, parent, key);
  }

  lemma SelectedInScope(ct: ChildTable, rows: map<string, ChildRow>, parent: string, key: string)
    ensures var q := Select(ct, rows, parent, key);
      forall i :: 0 <= i < |q| ==> q[i].id in Scope(ct, rows, parent, key)
  {
    var q := Select(ct, rows, parent, key);
    forall i | 0 <= i < |q| ensures q[i].id in Scope(ct, rows, parent, key) {
      assert q[i] in Elems(q);
    }
  }

  lemma SameScopeReads(ct: ChildTable, inner: Table, d: ChildDb, e: ChildDb, parent: string, key: string)
    requires SameScope(ct, d, e, parent, key)
    ensures ReadRows(ct, inner, e, parent, key) == ReadRows(ct, inner, d, parent, key)
  {
    SameScopeSelect(ct, d, e, parent, key);
    var q := Select(ct, d.rows, parent, key);
    forall i | 0 <= i < |q| ensures RowItem(inner, e, q[i].id) == RowItem(inner, d, q[i].id) {
      SameRowItem(inner, d, e, q[i].id);
    }
  }

  lemma SameRowItem(inner: Table, d: ChildDb, e: ChildDb, id: string)
    requires id in d.rows && id in e.rows && e.rows[id] == d.rows[id] && SameNested(e, d, id)
    ensures RowItem(inner, e, id) == RowItem(inner, d, id)
  {
    forall n | n in Names(inner.cols) ensures FieldOf(inner, e, id, Lookup(inner.cols, n).value) == FieldOf(inner, d, id, Lookup(inner.cols, n).value) {
      var c := Lookup(inner.cols, n).value;
      if c.KeyedStrings? { SameNestedReads(e, d, id, c.side.name, c.col); }
    }
  }

  // --- what every save keeps ---------------------------------------------------------------

  /** From one state to a later one: a surviving id keeps its parent and partition, a
      new one was drawn in between, and what is still to be drawn is untaken. */
  ghost predicate Evolves(gen: IdSource, d: ChildDb, n: nat, e: ChildDb, m: nat) {
    && n <= m
    && Unissued(gen, m, e.rows)
    && (forall id :: id in e.rows && id in d.rows ==> e.rows[id].parent == d.rows[id].parent && e.rows[id].key == d.rows[id].key)
    && (forall id :: id in e.rows && id !in d.rows ==> exists k :: n <= k < m && id == gen(k))
  }

  lemma EvolvesTransitive(gen: IdSource, d: ChildDb, n: nat, e: ChildDb, m: nat, f: ChildDb, o: nat)
    requires Unissued(gen, n, d.rows)
    requires Evolves(gen, d, n, e, m) && Evolves(gen, e, m, f, o)
    ensures Evolves(gen, d, n, f, o)
  {}

  lemma RewrittenEvolves(ct: ChildTable, inner: Table, db: ChildDb, parent: string, key: string, items: seq<Json>, gen: IdSource, next: nat, out: Progress)
    requires RightKey(ct, key) && Unissued(gen, next, db.rows) && AllObjects(items)
    requires Identified(ct, inner, db, parent, key, items, gen, next, out)
    requires Rewritten(ct, inner, db, parent, key, items, out) && Framed(ct, db, parent, key, out)
    ensures Evolves(gen, db, next, out.db, out.next)
  {
    forall id | id in out.db.rows
      ensures id in db.rows ==> out.db.rows[id].parent == db.rows[id].parent && out.db.rows[id].key == db.rows[id].key
      ensures id !in db.rows ==> exists k :: next <= k < out.next && id == gen(k)
    {
      if id in out.landed {
        var i :| 0 <= i < |items| && out.landed[i] == id;
        LandedOwn(ct, inner, db, parent, key, items, gen, next, out, i);
      } else {
        assert id !in Scope(ct, db.rows, parent, key);
      }
    }
    OnlyGenerated(gen, db.rows, next, out.db.rows, out.next);
  }

  lemma OnlyGenerated(gen: IdSource, d: map<string, ChildRow>, n: nat, e: map<string, ChildRow>, m: nat)
    requires Unissued(gen, n, d) && n <= m
    requires forall id :: id in e && id !in d ==> exists k :: n <= k < m && id == gen(k)
    ensures Unissued(gen, m, e)
  {}

  lemma WriteRowsEvolves(ct: ChildTable, inner: Table, db: ChildDb, parent: string, key: string, list: seq<Json>, gen: IdSource, next: nat)
    requires ElementOk(ct, inner) && RightKey(ct, key)
    requires Unissued(gen, next, db.rows)
    requires WriteRows(ct, inner, db, parent, key, list, gen, next).Ok?
    ensures var out := WriteRows(ct, inner, db, parent, key, list, gen, next).value;
      Evolves(gen, db, next, out.db, out.next)
  {
    var items := Objects(list);
    ObjectsAreObjects(list);
    GarbageIsInvisible(ct, inner, db, parent, key, list, gen, next);
    WriteRowsIdentified(ct, inner, db, parent, key, items, gen, next);
    WriteRowsRewritten(ct, inner, db, parent, key, items, gen, next);
    WriteRowsFramed(ct, inner, db, parent, key, items, gen, next);
    RewrittenEvolves(ct, inner, db, parent, key, items, gen, next, WriteRows(ct, inner, db, parent, key, list, gen, next).value);
  }

  lemma LandedUnissued(inner: Table, start: Progress, parent: string, key: string, list: seq<Json>, ids: seq<string>, gen: IdSource, p: Progress)
    requires Unissued(gen, start.next, start.db.rows)
    requires GoodIds(ids, gen, start.next)
    requires Landed(inner, start, parent, key, list, ids, gen, p)
    ensures Unissued(gen, p.next, p.db.rows)
  {}

  /** The server refuses a value some element of the list sends. */
  ghost predicate ListRefuses(inner: Table, list: seq<Json>, e: Failure) {
    exists i :: 0 <= i < |list| && list[i].Obj? && ItemRefuses(inner.cols, list[i].fields, e)
  }

  lemma ListRefusesSnoc(inner: Table, list: seq<Json>, item: Json, e: Failure)
    ensures ListRefuses(inner, list, e) || (item.Obj? && ItemRefuses(inner.cols, item.fields, e)) ==> ListRefuses(inner, list + [item], e)
  {
    var all := list + [item];
    assert all[|list|] == item;
    if ListRefuses(inner, list, e) {
      var i :| 0 <= i < |list| && list[i].Obj? && ItemRefuses(inner.cols, list[i].fields, e);
      assert all[i] == list[i];
    }
  }

  /** The loop keeps the foreign keys of nested rows; only a NOT NULL column of a
      nested side table or a refused value can stop it. */
  lemma {:induction false} LoopKeys(inner: Table, start: Progress, parent: string, key: string, list: seq<Json>, ids: seq<string>, gen: IdSource)
    requires |ids| == |list| && AllObjects(list)
    requires start.landed == []
    requires GoodIds(ids, gen, start.next)
    requires Unissued(gen, start.next, start.db.rows)
    requires NestedKeys(start.db)
    ensures var out := WriteLoop(inner, start, parent, key, list, ids, gen);
      if out.Ok? then NestedKeys(out.value.db) else out.error == NotNullViolation || ListRefuses(inner, list, out.error)
  {
    if list != [] {
      var n := |list| - 1;
      var init, before := list[..n], ids[..n];
      assert list == init + [list[n]];
      PrefixIds(ids, n, gen, start.next);
      LoopKeys(inner, start, parent, key, init, before, gen);
      var out := WriteLoop(inner, start, parent, key, list, ids, gen);
      if out.Err? { ListRefusesSnoc(inner, init, list[n], out.error); }
      var p := WriteLoop(inner, start, parent, key, init, before, gen);
      if p.Ok? {
        LoopUnissued(inner, start, parent, key, init, before, gen, p.value);
        WriteRowKeys(inner, p.value, parent, key, list[n].fields, ids[n], gen);
      }
    }
  }

  lemma LoopUnissued(inner: Table, start: Progress, parent: string, key: string, list: seq<Json>, ids: seq<string>, gen: IdSource, p: Progress)
    requires |ids| == |list| && AllObjects(list)
    requires start.landed == [] && GoodIds(ids, gen, start.next)
    requires Unissued(gen, start.next, start.db.rows)
    requires WriteLoop(inner, start, parent, key, list, ids, gen) == Ok(p)
    ensures Unissued(gen, p.next, p.db.rows)
  {
    LoopLands(inner, start, parent, key, list, ids, gen);
    LandedUnissued(inner, start, parent, key, list, ids, gen, p);
  }

  lemma WriteRowKeys(inner: Table, p: Progress, parent: string, key: string, item: map<string, Json>, rid: string, gen: IdSource)
    requires NestedKeys(p.db) && Unissued(gen, p.next, p.db.rows)
    ensures var out := WriteRow(inner, p, parent, key, item, rid, gen);
      if out.Ok? then NestedKeys(out.value.db) else out.error == NotNullViolation || ItemRefuses(inner.cols, item, out.error)
  {
    SentRefused(inner.cols, item);
    var id := if rid != "" then rid else gen(p.next);
    var mid := p.db.(rows := p.db.rows[id := UpsertedRow(p.db.rows, id, parent, key, |p.landed|, SentValues(inner.cols, item))]);
    assert forall t :: NestedOf(mid, t) == NestedOf(p.db, t);
    assert NestedKeys(mid);
    NestedSavesKeys(mid, id, inner.cols, item);
  }

  /** A save keeps every nested foreign key. Whatever ids the payload carries, nothing
      refuses it but a NOT NULL column of a nested side table and the server's refusal of
      a value sent for a column. */
  lemma WriteRowsKeepsKeys(ct: ChildTable, inner: Table, db: ChildDb, parent: string, key: string, list: seq<Json>, gen: IdSource, next: nat)
    requires ElementOk(ct, inner)
    requires Unissued(gen, next, db.rows) && NestedKeys(db)
    ensures var out := WriteRows(ct, inner, db, parent, key, list, gen, next);
      if out.Ok? then NestedKeys(out.value.db) else out.error == NotNullViolation || ListRefuses(inner, Objects(list), out.error)
  {
    var items := Objects(list);
    ObjectsAreObjects(list);
    GarbageIsInvisible(ct, inner, db, parent, key, list, gen, next);
    var idField, owned := IdField(inner.cols, inner.id).value, Owned(ct, db.rows, parent, key);
    ResolveSound(ct, idField, owned, items, gen, next);
    var r := ResolvedIds(ct, inner, db, parent, key, items, gen, next);
    ResolvedGood(ct, idField, owned, items, gen, next, r);
    DeleteKeepsKeys(ct, db, parent, key, KeepList(r.ids));
    LoopKeys(inner, Start(ct, inner, db, parent, key, items, gen, next), parent, key, items, r.ids, gen);
  }

  // --- saving back what was read --------------------------------------------------------

  lemma {:induction false} IdFieldColumn(cols: seq<Named>, id: string)
    requires DistinctNames(cols)
    requires IdField(cols, id).Some?
    ensures ColumnOf(Lookup(cols, IdField(cols, id).value).value) == Some(id)
  {
    if ColumnOf(cols[0].column) != Some(id) {
      IdFieldColumn(cols[1..], id);
      assert forall i :: 0 <= i < |cols[1..]| ==> cols[1..][i] == cols[i + 1];
      assert cols[0].name != IdField(cols[1..], id).value;
    }
  }

  /** A loaded element names its own row. */
  lemma LoadedId(ct: ChildTable, inner: Table, db: ChildDb, id: string)
    requires ElementOk(ct, inner)
    ensures SubmittedId(IdFieldOf(inner), RowItem(inner, db, id)) == id
  {
    IdFieldColumn(inner.cols, inner.id);
  }

  lemma OverlayLoaded(m: map<string, string>)
    requires forall k :: k in m ==> k != "" && m[k] != ""
    ensures Overlay(m, Texts(m).fields) == m
  {}

  /** Every scalar field of an element can be sent back as it was read. */
  ghost predicate ItemReparses(inner: Table, item: Json) {
    item.Obj? ==> forall nc :: nc in inner.cols && nc.name in item.fields ==> Reparses(nc.column, item.fields[nc.name])
  }

  ghost predicate AllReparse(inner: Table, list: seq<Json>) {
    forall i :: 0 <= i < |list| ==> ItemReparses(inner, list[i])
  }

  /** What is expected of an element sent back as it was read: no change. */
  lemma LoadedItemStays(ct: ChildTable, inner: Table, db: ChildDb, id: string)
    requires ElementOk(ct, inner)
    requires ItemReparses(inner, RowItem(inner, db, id))
    ensures ExpectedItem(inner, db, id, RowItem(inner, db, id).fields) == RowItem(inner, db, id)
  {
    var item := RowItem(inner, db, id).fields;
    forall n | n in Names(inner.cols)
      ensures ExpectedField(inner, db, id, item, n, Lookup(inner.cols, n).value) == FieldOf(inner, db, id, Lookup(inner.cols, n).value)
    {
      LoadedFieldStays(inner, db, id, item, Named(n, Lookup(inner.cols, n).value));
    }
    SameItem(inner, db, db, id, item);
  }

  lemma LoadedFieldStays(inner: Table, db: ChildDb, id: string, item: map<string, Json>, nc: Named)
    requires nc.name in item && item[nc.name] == FieldOf(inner, db, id, nc.column)
    requires Reparses(nc.column, item[nc.name])
    ensures ExpectedField(inner, db, id, item, nc.name, nc.column) == FieldOf(inner, db, id, nc.column)
  {
    var c := nc.column;
    if c.KeyedStrings? {
      var m := Read(NestedOf(db, c.side.name), id, c.col);
      forall k | k in m ensures k != "" && m[k] != "" { ReadAt(NestedOf(db, c.side.name), id, c.col, k); }
      OverlayLoaded(m);
    }
  }

  lemma SelectedOnce(ct: ChildTable, rows: map<string, ChildRow>, parent: string, key: string, i: nat)
    requires i < |Select(ct, rows, parent, key)|
    ensures Select(ct, rows, parent, key)[i].id in Scope(ct, rows, parent, key)
    ensures forall j :: 0 <= j < i ==> Select(ct, rows, parent, key)[j].id != Select(ct, rows, parent, key)[i].id
  {
    var q := Select(ct, rows, parent, key);
    assert q[i] in Elems(q);
    forall j | 0 <= j < i ensures q[j].id != q[i].id {
      assert q[j] in Elems(q);
      assert SlotOrder(ct.collation)(q[j], q[i]);
    }
  }

  lemma LoadedFirstOwn(ct: ChildTable, inner: Table, db: ChildDb, parent: string, key: string, i: nat)
    requires ElementOk(ct, inner) && "" !in db.rows
    requires i < |Select(ct, db.rows, parent, key)|
    ensures var list := ReadRows(ct, inner, db, parent, key);
      && SubmittedId(IdFieldOf(inner), list[i]) == Select(ct, db.rows, parent, key)[i].id
      && FirstOwn(IdFieldOf(inner), Owned(ct, db.rows, parent, key), list, i)
  {
    var q := Select(ct, db.rows, parent, key);
    SelectedOnce(ct, db.rows, parent, key, i);
    LoadedId(ct, inner, db, q[i].id);
    forall j | 0 <= j < i ensures SubmittedId(IdFieldOf(inner), ReadRows(ct, inner, db, parent, key)[j]) == q[j].id {
      LoadedId(ct, inner, db, q[j].id);
    }
  }

  /** The same rows in the same order, with the same values. */
  ghost predicate Unchanged(ct: ChildTable, inner: Table, db: ChildDb, parent: string, key: string, out: Progress) {
    var q := Select(ct, db.rows, parent, key);
    && |out.landed| == |q|
    && (forall i :: 0 <= i < |q| ==> out.landed[i] == q[i].id)
    && ReadRows(ct, inner, out.db, parent, key) == ReadRows(ct, inner, db, parent, key)
  }

  lemma LoadedStays(ct: ChildTable, inner: Table, db: ChildDb, parent: string, key: string, list: seq<Json>, gen: IdSource, next: nat, out: Progress)
    requires ElementOk(ct, inner) && "" !in db.rows
    requires AllReparse(inner, list)
    requires list == ReadRows(ct, inner, db, parent, key)
    requires Identified(ct, inner, db, parent, key, list, gen, next, out)
    requires ReadsBack(ct, inner, db, parent, key, list, out)
    ensures Unchanged(ct, inner, db, parent, key, out)
  {
    var q, read := Select(ct, db.rows, parent, key), ReadRows(ct, inner, out.db, parent, key);
    forall i | 0 <= i < |q| ensures out.landed[i] == q[i].id && read[i] == list[i] {
      LoadedFirstOwn(ct, inner, db, parent, key, i);
      LoadedItemStays(ct, inner, db, q[i].id);
    }
    assert read == list;
  }

  /** Saving back exactly what was read keeps every child id and every value, in
      any state, legacy positions included. */
  lemma SaveBackRows(ct: ChildTable, inner: Table, db: ChildDb, parent: string, key: string, gen: IdSource, next: nat)
    requires ElementOk(ct, inner) && ClearsFit(inner.cols) && RightKey(ct, key)
    requires AllReparse(inner, ReadRows(ct, inner, db, parent, key))
    requires Unissued(gen, next, db.rows) && "" !in db.rows
    requires WriteRows(ct, inner, db, parent, key, ReadRows(ct, inner, db, parent, key), gen, next).Ok?
    ensures Unchanged(ct, inner, db, parent, key, WriteRows(ct, inner, db, parent, key, ReadRows(ct, inner, db, parent, key), gen, next).value)
  {
    ReadsAreObjects(ct, inner, db, parent, key);
    SaveBackList(ct, inner, db, parent, key, ReadRows(ct, inner, db, parent, key), gen, next);
  }

  lemma ReadsAreObjects(ct: ChildTable, inner: Table, db: ChildDb, parent: string, key: string)
    ensures AllObjects(ReadRows(ct, inner, db, parent, key))
  {}

  lemma SaveBackList(ct: ChildTable, inner: Table, db: ChildDb, parent: string, key: string, list: seq<Json>, gen: IdSource, next: nat)
    requires ElementOk(ct, inner) && ClearsFit(inner.cols) && RightKey(ct, key)
    requires list == ReadRows(ct, inner, db, parent, key) && AllObjects(list)
    requires AllReparse(inner, list)
    requires Unissued(gen, next, db.rows) && "" !in db.rows
    requires WriteRows(ct, inner, db, parent, key, list, gen, next).Ok?
    ensures Unchanged(ct, inner, db, parent, key, WriteRows(ct, inner, db, parent, key, list, gen, next).value)
  {
    AllObjectsStay(list);
    SaveReadsBack(ct, inner, db, parent, key, list, gen, next);
    LoadedStays(ct, inner, db, parent, key, list, gen, next, WriteRows(ct, inner, db, parent, key, list, gen, next).value);
  }


  lemma {:induction false} AllObjectsStay(list: seq<Json>)
    requires AllObjects(list)
    ensures Objects(list) == list
  {
    if list != [] {
      AllObjectsStay(list[..|list| - 1]);
      assert list == list[..|list| - 1] + [list[|list| - 1]];
    }
  }
}
