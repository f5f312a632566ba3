/** What writeRows does to the rows of one parent, to everybody else's rows, and to
    nested satellites. */
module ChildLaws {
  import opened Values
  import opened Ordering
  import opened SideTables
  import opened KeyedLaws
  import opened Columns
  import opened ChildTables

  // --- elements that are not objects --------------------------------------------------

  /** The elements of a payload list: its objects. */
  function Objects(list: seq<Json>): seq<Json> {
    if list == [] then []
    else Objects(list[..|list| - 1]) + (if list[|list| - 1].Obj? then [list[|list| - 1]] else [])
  }

  /** The ids standing at the objects. */
  function ObjectIds(list: seq<Json>, ids: seq<string>): (r: seq<string>)
    requires |ids| == |list|
    ensures |r| == |Objects(list)|
  {
    if list == [] then []
    else
      var n := |list| - 1;
      ObjectIds(list[..n], ids[..n]) + (if list[n].Obj? then [ids[n]] else [])
  }

  lemma {:induction false} ObjectsAreObjects(list: seq<Json>)
    ensures forall i :: 0 <= i < |Objects(list)| ==> Objects(list)[i].Obj?
  {
    if list != [] { ObjectsAreObjects(list[..|list| - 1]); }
  }

  lemma ResolveSnoc(ct: ChildTable, idField: string, owned: set<string>, list: seq<Json>, item: Json, gen: IdSource, next: nat)
    ensures Resolve(ct, idField, owned, list + [item], gen, next)
         == ResolveNext(ct, idField, owned, Resolve(ct, idField, owned, list, gen, next), item, gen)
  {}

  lemma WriteLoopSnoc(inner: Table, start: Progress, parent: string, key: string, list: seq<Json>, ids: seq<string>, item: Json, rid: string, gen: IdSource)
    requires |ids| == |list|
    ensures WriteLoop(inner, start, parent, key, list + [item], ids + [rid], gen)
         == WriteNext(inner, WriteLoop(inner, start, parent, key, list, ids, gen), parent, key, item, rid, gen)
  {}

  lemma ObjectIdsSnoc(list: seq<Json>, ids: seq<string>, item: Json, rid: string)
    requires |ids| == |list|
    ensures Objects(list + [item]) == Objects(list) + (if item.Obj? then [item] else [])
    ensures ObjectIds(list + [item], ids + [rid]) == ObjectIds(list, ids) + (if item.Obj? then [rid] else [])
  {}

  /** Two resolutions of which one saw the objects only. */
  ghost predicate Parallel(list: seq<Json>, r: Resolved, o: Resolved) {
    |r.ids| == |list| && o == Resolved(ObjectIds(list, r.ids), r.used, r.next) && KeepList(o.ids) == KeepList(r.ids)
  }

  lemma ParallelStep(ct: ChildTable, idField: string, owned: set<string>, list: seq<Json>, last: Json, gen: IdSource, r: Resolved, o: Resolved)
    requires Parallel(list, r, o)
    ensures Parallel(list + [last], ResolveNext(ct, idField, owned, r, last, gen), if last.Obj? then ResolveNext(ct, idField, owned, o, last, gen) else o)
  {
    var rid := ResolvedId(ct, idField, owned, r, last, gen);
    assert rid == ResolvedId(ct, idField, owned, o, last, gen);
    ObjectIdsSnoc(list, r.ids, last, rid);
    KeepListSnoc(r.ids, rid);
    KeepListSnoc(o.ids, rid);
  }

  lemma {:induction false} ResolveObjects(ct: ChildTable, idField: string, owned: set<string>, list: seq<Json>, gen: IdSource, next: nat)
    ensures Parallel(list, Resolve(ct, idField, owned, list, gen, next), Resolve(ct, idField, owned, Objects(list), gen, next))
  {
    if list != [] {
      var init, last := list[..|list| - 1], list[|list| - 1];
      var r, o := Resolve(ct, idField, owned, init, gen, next), Resolve(ct, idField, owned, Objects(init), gen, next);
      ResolveObjects(ct, idField, owned, init, gen, next);
      ParallelStep(ct, idField, owned, init, last, gen, r, o);
      assert list == init + [last];
      ResolveSnoc(ct, idField, owned, init, last, gen, next);
      if last.Obj? {
        ResolveSnoc(ct, idField, owned, Objects(init), last, gen, next);
        assert Objects(list) == Objects(init) + [last];
      } else {
        assert Objects(list) == Objects(init);
      }
    }
  }

  lemma KeepListSnoc(ids: seq<string>, id: string)
    ensures KeepList(ids + [id]) == KeepList(ids) + (if id == "" then {} else {id})
  {
    var all := ids + [id];
    forall x ensures x in KeepList(all) <==> x in KeepList(ids) + (if id == "" then {} else {id}) {
      if x in KeepList(ids) {
        var i :| 0 <= i < |ids| && ids[i] != "" && ids[i] == x;
        assert all[i] == x;
      }
      if x == id && id != "" { assert all[|ids|] == id; }
      if x in KeepList(all) {
        var i :| 0 <= i < |all| && all[i] != "" && all[i] == x;
        if i < |ids| { assert ids[i] == x; }
      }
    }
  }

  lemma {:induction false} WriteLoopObjects(inner: Table, start: Progress, parent: string, key: string, list: seq<Json>, ids: seq<string>, gen: IdSource)
    requires |ids| == |list|
    ensures WriteLoop(inner, start, parent, key, Objects(list), ObjectIds(list, ids), gen)
         == WriteLoop(inner, start, parent, key, list, ids, gen)
  {
    if list != [] {
      var n := |list| - 1;
      WriteLoopObjects(inner, start, parent, key, list[..n], ids[..n], gen);
      assert list == list[..n] + [list[n]] && ids == ids[..n] + [ids[n]];
      WriteTurnObjects(inner, start, parent, key, list[..n], ids[..n], list[n], ids[n], gen);
    }
  }

  lemma WriteTurnObjects(inner: Table, start: Progress, parent: string, key: string, list: seq<Json>, ids: seq<string>, item: Json, rid: string, gen: IdSource)
    requires |ids| == |list|
    requires WriteLoop(inner, start, parent, key, Objects(list), ObjectIds(list, ids), gen) == WriteLoop(inner, start, parent, key, list, ids, gen)
    ensures WriteLoop(inner, start, parent, key, Objects(list + [item]), ObjectIds(list + [item], ids + [rid]), gen)
         == WriteLoop(inner, start, parent, key, list + [item], ids + [rid], gen)
  {
    ObjectIdsSnoc(list, ids, item, rid);
    WriteLoopSnoc(inner, start, parent, key, list, ids, item, rid, gen);
    if item.Obj? {
      WriteLoopSnoc(inner, start, parent, key, Objects(list), ObjectIds(list, ids), item, rid, gen);
    } else {
      assert Objects(list + [item]) == Objects(list) && ObjectIds(list + [item], ids + [rid]) == ObjectIds(list, ids);
    }
  }

  /** Elements that are not objects use up neither a position nor an id. */
  lemma GarbageIsInvisible(ct: ChildTable, inner: Table, db: ChildDb, parent: string, key: string, list: seq<Json>, gen: IdSource, next: nat)
    requires IdField(inner.cols, inner.id).Some?
    ensures WriteRows(ct, inner, db, parent, key, Objects(list), gen, next) == WriteRows(ct, inner, db, parent, key, list, gen, next)
  {
    var idField, owned := IdField(inner.cols, inner.id).value, Owned(ct, db.rows, parent, key);
    ResolveObjects(ct, idField, owned, list, gen, next);
    var r := Resolve(ct, idField, owned, list, gen, next);
    WriteLoopObjects(inner, Progress(DeleteExcept(ct, db, parent, key, KeepList(r.ids)), r.next, []), parent, key, list, r.ids, gen);
  }

  // --- which row each element lands in --------------------------------------------------

  ghost predicate AllObjects(list: seq<Json>) {
    forall i :: 0 <= i < |list| ==> list[i].Obj?
  }

  function SubmittedId(idField: string, item: Json): string {
    if item.Obj? then StringAt(item.fields, idField) else ""
  }

  /** Element i is the first to name an own row. */
  ghost predicate FirstOwn(idField: string, owned: set<string>, list: seq<Json>, i: nat)
    requires i < |list|
  {
    var id := SubmittedId(idField, list[i]);
    id != "" && id in owned && forall j :: 0 <= j < i ==> SubmittedId(idField, list[j]) != id
  }

  ghost predicate IsUsed(idField: string, owned: set<string>, list: seq<Json>, id: string) {
    id != "" && id in owned && exists j :: 0 <= j < |list| && SubmittedId(idField, list[j]) == id
  }

  /** The first element to name an own row keeps it; every other element gets a fresh
      id, or none when the server is to draw it. */
  ghost predicate WellResolved(ct: ChildTable, idField: string, owned: set<string>, list: seq<Json>, gen: IdSource, next: nat, r: Resolved) {
    && |r.ids| == |list|
    && next <= r.next
    && (forall id :: id in r.used <==> IsUsed(idField, owned, list, id))
    && (forall i :: 0 <= i < |list| && FirstOwn(idField, owned, list, i) ==> r.ids[i] == SubmittedId(idField, list[i]))
    && (forall i :: 0 <= i < |list| && !FirstOwn(idField, owned, list, i) ==>
          if ct.hasNewID then exists k :: next <= k < r.next && r.ids[i] == gen(k) else r.ids[i] == "")
    && (forall i, j :: 0 <= i < j < |list| && r.ids[i] != "" ==> r.ids[i] != r.ids[j])
  }

  lemma {:induction false} ResolveSound(ct: ChildTable, idField: string, owned: set<string>, list: seq<Json>, gen: IdSource, next: nat)
    requires AllObjects(list)
    requires forall k: nat :: next <= k ==> gen(k) !in owned
    ensures WellResolved(ct, idField, owned, list, gen, next, Resolve(ct, idField, owned, list, gen, next))
  {
    if list != [] {
      var init, last := list[..|list| - 1], list[|list| - 1];
      assert list == init + [last];
      ResolveSound(ct, idField, owned, init, gen, next);
      ResolveStep(ct, idField, owned, init, last, gen, next, Resolve(ct, idField, owned, init, gen, next));
    }
  }

  lemma UsedSnoc(idField: string, owned: set<string>, init: seq<Json>, last: Json, id: string)
    ensures IsUsed(idField, owned, init + [last], id) <==>
      IsUsed(idField, owned, init, id) || (id != "" && id in owned && SubmittedId(idField, last) == id)
  {
    var list := init + [last];
    assert list[|init|] == last;
    if IsUsed(idField, owned, init, id) {
      var j :| 0 <= j < |init| && SubmittedId(idField, init[j]) == id;
      assert list[j] == init[j];
    }
    if IsUsed(idField, owned, list, id) {
      var j :| 0 <= j < |list| && SubmittedId(idField, list[j]) == id;
      if j < |init| { assert list[j] == init[j]; }
    }
  }

  lemma ResolveStep(ct: ChildTable, idField: string, owned: set<string>, init: seq<Json>, last: Json, gen: IdSource, next: nat, p: Resolved)
    requires last.Obj?
    requires forall k: nat :: next <= k ==> gen(k) !in owned
    requires WellResolved(ct, idField, owned, init, gen, next, p)
    ensures WellResolved(ct, idField, owned, init + [last], gen, next, ResolveNext(ct, idField, owned, p, last, gen))
  {
    var list, r := init + [last], ResolveNext(ct, idField, owned, p, last, gen);
    var n, rid := |init|, ResolvedId(ct, idField, owned, p, last, gen);
    assert r.ids == p.ids + [rid];
    forall id ensures id in r.used <==> IsUsed(idField, owned, list, id) {
      UsedSnoc(idField, owned, init, last, id);
    }
    assert list[n] == last && list[..n] == init;
    assert KeepsId(idField, owned, p.used, last) <==> FirstOwn(idField, owned, list, n);
    forall i | 0 <= i < n ensures list[i] == init[i] && (FirstOwn(idField, owned, list, i) <==> FirstOwn(idField, owned, init, i)) {
      assert forall j :: 0 <= j <= i ==> list[j] == init[j];
    }
    if rid != "" {
      forall i | 0 <= i < n && p.ids[i] != "" ensures p.ids[i] != rid {
        if FirstOwn(idField, owned, init, i) {
          assert IsUsed(idField, owned, init, p.ids[i]);
        }
      }
    }
  }

  lemma {:induction false} NestedKeepsRows(db: ChildDb, id: string, cols: seq<Named>, item: map<string, Json>)
    ensures NestedSaves(db, id, cols, item).Ok? ==> NestedSaves(db, id, cols, item).value.rows == db.rows
  {
    if cols != [] {
      NestedKeepsRows(db, id, cols[..|cols| - 1], item);
    }
  }

  ghost predicate Distinct(q: seq<string>) {
    forall i, j :: 0 <= i < j < |q| ==> q[i] != q[j]
  }

  /** The ids handed to the write loop: distinct where set, and none still unissued. */
  ghost predicate GoodIds(ids: seq<string>, gen: IdSource, next: nat) {
    && (forall i, j :: 0 <= i < j < |ids| && ids[i] != "" ==> ids[i] != ids[j])
    && (forall i, k: nat :: 0 <= i < |ids| && next <= k ==> ids[i] != gen(k))
  }

  /** Where the elements of the loop so far have landed: in distinct rows, their own
      where resolved, else a new one. */
  ghost predicate LandedIds(start: Progress, list: seq<Json>, ids: seq<string>, gen: IdSource, p: Progress) {
    && |p.landed| == |list| == |ids|
    && start.next <= p.next
    && Distinct(p.landed)
    && (forall i :: 0 <= i < |ids| ==> if ids[i] != "" then p.landed[i] == ids[i] else exists k :: start.next <= k < p.next && p.landed[i] == gen(k))
  }

  /** One row for each element, at consecutive positions, and every other row as it was. */
  ghost predicate LandedRows(inner: Table, start: Progress, parent: string, key: string, list: seq<Json>, p: Progress) {
    && |p.landed| == |list|
    && p.db.rows.Keys == start.db.rows.Keys + Elems(p.landed)
    && (forall i :: 0 <= i < |list| ==> list[i].Obj? && p.landed[i] in p.db.rows && Admitted(inner.cols, list[i].fields))
    && (forall i :: 0 <= i < |list| ==>
          p.db.rows[p.landed[i]] == UpsertedRow(start.db.rows, p.landed[i], parent, key, i, SentValues(inner.cols, list[i].fields)))
    && (forall id :: id in start.db.rows && id !in Elems(p.landed) ==> id in p.db.rows && p.db.rows[id] == start.db.rows[id])
  }

  /** What the loop has done after some elements. */
  ghost predicate Landed(inner: Table, start: Progress, parent: string, key: string, list: seq<Json>, ids: seq<string>, gen: IdSource, p: Progress) {
    LandedIds(start, list, ids, gen, p) && LandedRows(inner, start, parent, key, list, p)
  }

  /** The row one turn wrote, and all the others. */
  lemma TurnRows(inner: Table, p: Progress, parent: string, key: string, item: map<string, Json>, rid: string, gen: IdSource, q: Progress)
    requires WriteRow(inner, p, parent, key, item, rid, gen) == Ok(q)
    ensures |q.landed| == |p.landed| + 1 && q.landed[..|p.landed|] == p.landed
    ensures var id := q.landed[|p.landed|];
      && (if rid != "" then id == rid && q.next == p.next else id == gen(p.next) && q.next == p.next + 1 && id !in p.db.rows)
      && Admitted(inner.cols, item)
      && q.db.rows == p.db.rows[id := UpsertedRow(p.db.rows, id, parent, key, |p.landed|, SentValues(inner.cols, item))]
  {
    var id := q.landed[|p.landed|];
    var row := UpsertedRow(p.db.rows, id, parent, key, |p.landed|, SentValues(inner.cols, item));
    NestedKeepsRows(p.db.(rows := p.db.rows[id := row]), id, inner.cols, item);
  }

  lemma FreshLanding(start: Progress, list: seq<Json>, ids: seq<string>, gen: IdSource, p: Progress, rid: string, id: string)
    requires GoodIds(ids + [rid], gen, start.next)
    requires LandedIds(start, list, ids, gen, p)
    requires id == if rid != "" then rid else gen(p.next)
    ensures id !in p.landed
  {
    var all := ids + [rid];
    assert all[|ids|] == rid;
    forall i | 0 <= i < |ids| ensures p.landed[i] != id {
      assert all[i] == ids[i];
    }
  }

  lemma LandedIdsStep(start: Progress, list: seq<Json>, ids: seq<string>, gen: IdSource, p: Progress, item: Json, rid: string, q: Progress)
    requires LandedIds(start, list, ids, gen, p)
    requires |q.landed| == |p.landed| + 1 && q.landed[..|p.landed|] == p.landed && q.landed[|p.landed|] !in p.landed
    requires if rid != "" then q.landed[|p.landed|] == rid && q.next == p.next else q.landed[|p.landed|] == gen(p.next) && q.next == p.next + 1
    ensures LandedIds(start, list + [item], ids + [rid], gen, q)
  {}

  lemma LandedRowsStep(inner: Table, start: Progress, parent: string, key: string, list: seq<Json>, p: Progress, item: Json, q: Progress, id: string)
    requires item.Obj? && Admitted(inner.cols, item.fields) && LandedRows(inner, start, parent, key, list, p)
    requires q.landed == p.landed + [id] && id !in p.landed
    requires q.db.rows == p.db.rows[id := UpsertedRow(p.db.rows, id, parent, key, |p.landed|, SentValues(inner.cols, item.fields))]
    ensures LandedRows(inner, start, parent, key, list + [item], q)
  {
    var all := list + [item];
    assert Elems(q.landed) == Elems(p.landed) + {id};
    forall i | 0 <= i < |all|
      ensures all[i].Obj? && q.landed[i] in q.db.rows && Admitted(inner.cols, all[i].fields)
      ensures q.db.rows[q.landed[i]] == UpsertedRow(start.db.rows, q.landed[i], parent, key, i, SentValues(inner.cols, all[i].fields))
    {
      LandedRowAt(inner, start, parent, key, list, p, item, q, id, i);
    }
  }

  lemma LandedRowAt(inner: Table, start: Progress, parent: string, key: string, list: seq<Json>, p: Progress, item: Json, q: Progress, id: string, i: nat)
    requires item.Obj? && Admitted(inner.cols, item.fields) && LandedRows(inner, start, parent, key, list, p)
    requires q.landed == p.landed + [id] && id !in p.landed && i < |q.landed|
    requires q.db.rows == p.db.rows[id := UpsertedRow(p.db.rows, id, parent, key, |p.landed|, SentValues(inner.cols, item.fields))]
    ensures var all := list + [item];
      && all[i].Obj? && q.landed[i] in q.db.rows && Admitted(inner.cols, all[i].fields)
      && q.db.rows[q.landed[i]] == UpsertedRow(start.db.rows, q.landed[i], parent, key, i, SentValues(inner.cols, all[i].fields))
  {
    if i < |list| {
      assert q.landed[i] == p.landed[i] && p.landed[i] in p.landed;
    } else {
      SameUpsert(start, p, parent, key, |p.landed|, SentValues(inner.cols, item.fields), id);
    }
  }

  /** A row the loop has not landed in yet is what it was at the start. */
  lemma SameUpsert(start: Progress, p: Progress, parent: string, key: string, pos: nat, vals: Row, id: string)
    requires p.db.rows.Keys == start.db.rows.Keys + Elems(p.landed) && id !in Elems(p.landed)
    requires forall x :: x in start.db.rows && x !in Elems(p.landed) ==> x in p.db.rows && p.db.rows[x] == start.db.rows[x]
    ensures UpsertedRow(p.db.rows, id, parent, key, pos, vals) == UpsertedRow(start.db.rows, id, parent, key, pos, vals)
  {}

  lemma LandedStep(inner: Table, start: Progress, parent: string, key: string, list: seq<Json>, ids: seq<string>, gen: IdSource, p: Progress, item: Json, rid: string, q: Progress)
    requires item.Obj?
    requires GoodIds(ids + [rid], gen, start.next)
    requires Landed(inner, start, parent, key, list, ids, gen, p)
    requires WriteRow(inner, p, parent, key, item.fields, rid, gen) == Ok(q)
    ensures Landed(inner, start, parent, key, list + [item], ids + [rid], gen, q)
  {
    var id := q.landed[|list|];
    TurnRows(inner, p, parent, key, item.fields, rid, gen, q);
    FreshLanding(start, list, ids, gen, p, rid, id);
    LandedIdsStep(start, list, ids, gen, p, item, rid, q);
    LandedRowsStep(inner, start, parent, key, list, p, item, q, id);
  }

  /** The last turn of a loop that went through. */
  lemma LoopSplit(inner: Table, start: Progress, parent: string, key: string, list: seq<Json>, ids: seq<string>, gen: IdSource) returns (p: Progress)
    requires |ids| == |list| > 0 && AllObjects(list)
    requires WriteLoop(inner, start, parent, key, list, ids, gen).Ok?
    ensures WriteLoop(inner, start, parent, key, list[..|list| - 1], ids[..|list| - 1], gen) == Ok(p)
    ensures WriteRow(inner, p, parent, key, list[|list| - 1].fields, ids[|list| - 1], gen) == WriteLoop(inner, start, parent, key, list, ids, gen)
  {
    p := WriteLoop(inner, start, parent, key, list[..|list| - 1], ids[..|list| - 1], gen).value;
  }

  lemma {:induction false} LoopLands(inner: Table, start: Progress, parent: string, key: string, list: seq<Json>, ids: seq<string>, gen: IdSource)
    requires |ids| == |list| && AllObjects(list)
    requires start.landed == []
    requires GoodIds(ids, gen, start.next)
    requires WriteLoop(inner, start, parent, key, list, ids, gen).Ok?
    ensures Landed(inner, start, parent, key, list, ids, gen, WriteLoop(inner, start, parent, key, list, ids, gen).value)
  {
    if list == [] {
      assert WriteLoop(inner, start, parent, key, list, ids, gen) == Ok(start);
      LandsNowhere(inner, start, parent, key, gen);
    } else {
      var n := |list| - 1;
      var init, before := list[..n], ids[..n];
      assert list == init + [list[n]] && ids == before + [ids[n]];
      PrefixIds(ids, n, gen, start.next);
      var p := LoopSplit(inner, start, parent, key, list, ids, gen);
      LoopLands(inner, start, parent, key, init, before, gen);
      LandedStep(inner, start, parent, key, init, before, gen, p, list[n], ids[n], WriteLoop(inner, start, parent, key, list, ids, gen).value);
    }
  }

  lemma LandsNowhere(inner: Table, start: Progress, parent: string, key: string, gen: IdSource)
    requires start.landed == []
    ensures Landed(inner, start, parent, key, [], [], gen, start)
  {}

  lemma PrefixIds(ids: seq<string>, n: nat, gen: IdSource, next: nat)
    requires n <= |ids| && GoodIds(ids, gen, next)
    ensures GoodIds(ids[..n], gen, next)
  {}

  // --- nested satellites -----------------------------------------------------------------

  lemma PrefixStorage(cols: seq<Named>)
    requires DistinctStorage(cols) && cols != []
    ensures DistinctStorage(cols[..|cols| - 1])
  {}

  lemma PrefixFit(cols: seq<Named>)
    requires ClearsFit(cols) && cols != []
    ensures ClearsFit(cols[..|cols| - 1])
  {}

  /** What a nested map reads as after its element was written. */
  function NestedAfter(before: map<string, string>, item: map<string, Json>, name: string): map<string, string> {
    if name in item && item[name].Obj? then Overlay(before, item[name].fields) else before
  }

  ghost predicate IsNested(nc: Named, t: string, c: string) {
    nc.column.KeyedStrings? && nc.column.side.name == t && nc.column.col == c
  }

  /** The nested tables after one save. */
  lemma NestedSaveIs(db: ChildDb, id: string, c: Column, v: Json, t: string)
    requires c.KeyedStrings? && v.Obj? && NestedSave(db, id, c, v).Ok?
    ensures WriteMany(c.side, db.rows.Keys, NestedOf(db, c.side.name), id, [Write(c.col, c.clear, v.fields)]).Ok?
    ensures NestedOf(NestedSave(db, id, c, v).value, t) ==
      if t == c.side.name then WriteMany(c.side, db.rows.Keys, NestedOf(db, c.side.name), id, [Write(c.col, c.clear, v.fields)]).value else NestedOf(db, t)
  {}

  /** One save for the element id leaves a nested map it does not touch. */
  lemma NestedSaveOther(db: ChildDb, id: string, c: Column, v: Json, p: string, t: string, col: string)
    requires NestedSave(db, id, c, v).Ok?
    requires p != id || !Touches(c, InSide(t, col))
    ensures Read(NestedOf(NestedSave(db, id, c, v).value, t), p, col) == Read(NestedOf(db, t), p, col)
  {
    if c.KeyedStrings? && v.Obj? {
      NestedSaveIs(db, id, c, v, t);
      if c.side.name == t {
        OneWriteReads(c.side, db.rows.Keys, NestedOf(db, t), id, Write(c.col, c.clear, v.fields), p, col);
      }
    }
  }

  /** And overlays its own. */
  lemma NestedSaveReads(db: ChildDb, id: string, c: Column, v: Json)
    requires c.KeyedStrings? && v.Obj? && ClearsEmpty(c)
    requires NestedSave(db, id, c, v).Ok?
    ensures Read(NestedOf(NestedSave(db, id, c, v).value, c.side.name), id, c.col) == Overlay(Read(NestedOf(db, c.side.name), id, c.col), v.fields)
  {
    OneWrite(Write(c.col, c.clear, v.fields));
    NestedSaveIs(db, id, c, v, c.side.name);
    WriteManyReads(c.side, db.rows.Keys, NestedOf(db, c.side.name), id, [Write(c.col, c.clear, v.fields)], Write(c.col, c.clear, v.fields));
  }

  /** A nested map no cell touches stays. */
  lemma {:induction false} NestedSavesOther(db: ChildDb, id: string, cols: seq<Named>, item: map<string, Json>, t: string, c: string)
    requires NestedSaves(db, id, cols, item).Ok?
    requires forall i :: 0 <= i < |cols| ==> !Touches(cols[i].column, InSide(t, c))
    ensures Read(NestedOf(NestedSaves(db, id, cols, item).value, t), id, c) == Read(NestedOf(db, t), id, c)
  {
    if cols != [] {
      var init, last := cols[..|cols| - 1], cols[|cols| - 1];
      NestedSavesOther(db, id, init, item, t, c);
      if last.name in item {
        NestedSaveOther(NestedSaves(db, id, init, item).value, id, last.column, item[last.name], id, t, c);
      }
    }
  }

  /** No other cell touches the nested map of cell k. */
  lemma OneNested(cols: seq<Named>, k: nat, t: string, c: string)
    requires Separate(cols) && k < |cols| && IsNested(cols[k], t, c)
    ensures forall i :: 0 <= i < |cols| && i != k ==> !Touches(cols[i].column, InSide(t, c))
  {
    assert StorageOf(cols[k].column) == InSide(t, c);
  }

  /** The nested map of cell k is its old map overlaid with what was sent for it. */
  lemma {:induction false} NestedSavesReads(db: ChildDb, id: string, cols: seq<Named>, item: map<string, Json>, k: nat, t: string, c: string)
    requires ClearsFit(cols) && k < |cols| && IsNested(cols[k], t, c)
    requires NestedSaves(db, id, cols, item).Ok?
    ensures Read(NestedOf(NestedSaves(db, id, cols, item).value, t), id, c) == NestedAfter(Read(NestedOf(db, t), id, c), item, cols[k].name)
  {
    var init, last := cols[..|cols| - 1], cols[|cols| - 1];
    PrefixFit(cols);
    OneNested(cols, k, t, c);
    var mid := NestedSaves(db, id, init, item).value;
    if k < |init| {
      assert init[k] == cols[k];
      NestedSavesReads(db, id, init, item, k, t, c);
      if last.name in item { NestedSaveOther(mid, id, last.column, item[last.name], id, t, c); }
    } else {
      NestedSavesOther(db, id, init, item, t, c);
      if last.name in item { LastReads(mid, id, last, item[last.name], t, c); }
    }
  }

  lemma LastReads(mid: ChildDb, id: string, last: Named, v: Json, t: string, c: string)
    requires IsNested(last, t, c) && ClearsEmpty(last.column) && NestedSave(mid, id, last.column, v).Ok?
    ensures Read(NestedOf(NestedSave(mid, id, last.column, v).value, t), id, c)
         == if v.Obj? then Overlay(Read(NestedOf(mid, t), id, c), v.fields) else Read(NestedOf(mid, t), id, c)
  {
    if v.Obj? { NestedSaveReads(mid, id, last.column, v); }
  }

  /** The nested rows of one parent, whatever the table. */
  ghost predicate SameNested(d: ChildDb, e: ChildDb, parent: string) {
    forall t, k :: At(NestedOf(d, t), parent, k) == At(NestedOf(e, t), parent, k)
  }

  lemma SameNestedReads(d: ChildDb, e: ChildDb, parent: string, t: string, c: string)
    requires SameNested(d, e, parent)
    ensures Read(NestedOf(d, t), parent, c) == Read(NestedOf(e, t), parent, c)
  {}

  /** The satellites of one element touch no other element. */
  lemma {:induction false} NestedSavesLocal(db: ChildDb, id: string, cols: seq<Named>, item: map<string, Json>, p: string)
    requires NestedSaves(db, id, cols, item).Ok? && p != id
    ensures SameNested(NestedSaves(db, id, cols, item).value, db, p)
  {
    if cols != [] {
      var init, nc := cols[..|cols| - 1], cols[|cols| - 1];
      NestedSavesLocal(db, id, init, item, p);
      if nc.name in item {
        NestedSaveLocal(NestedSaves(db, id, init, item).value, id, nc.column, item[nc.name], p);
      }
    }
  }

  lemma NestedSaveLocal(db: ChildDb, id: string, c: Column, v: Json, p: string)
    requires NestedSave(db, id, c, v).Ok? && p != id
    ensures SameNested(NestedSave(db, id, c, v).value, db, p)
  {
    if c.KeyedStrings? && v.Obj? {
      WriteManyLocal(c.side, db.rows.Keys, NestedOf(db, c.side.name), id, [Write(c.col, c.clear, v.fields)]);
    }
  }

  /** They keep the foreign keys, and only a NOT NULL column refuses them. */
  lemma {:induction false} NestedSavesKeys(db: ChildDb, id: string, cols: seq<Named>, item: map<string, Json>)
    requires NestedKeys(db) && id in db.rows
    ensures NestedSaves(db, id, cols, item).Err? ==> NestedSaves(db, id, cols, item).error == NotNullViolation
    ensures NestedSaves(db, id, cols, item).Ok? ==> NestedKeys(NestedSaves(db, id, cols, item).value)
  {
    if cols != [] {
      var init, nc := cols[..|cols| - 1], cols[|cols| - 1];
      NestedSavesKeys(db, id, init, item);
      if NestedSaves(db, id, init, item).Ok? && nc.name in item {
        NestedKeepsRows(db, id, init, item);
        NestedSaveKeys(NestedSaves(db, id, init, item).value, id, nc.column, item[nc.name]);
      }
    }
  }

  lemma {:induction false} NestedSaveKeys(db: ChildDb, id: string, c: Column, v: Json)
    requires NestedKeys(db) && id in db.rows
    ensures NestedSave(db, id, c, v).Err? ==> NestedSave(db, id, c, v).error == NotNullViolation
    ensures NestedSave(db, id, c, v).Ok? ==> NestedKeys(NestedSave(db, id, c, v).value)
  {
    if c.KeyedStrings? && v.Obj? {
      WriteManyErrors(c.side, db.rows.Keys, NestedOf(db, c.side.name), id, [Write(c.col, c.clear, v.fields)]);
      if NestedSave(db, id, c, v).Ok? {
        var d := NestedSave(db, id, c, v).value;
        forall t, pk | pk in NestedOf(d, t) ensures pk.0 in d.rows {
          if pk.0 != id {
            NestedSaveLocal(db, id, c, v, pk.0);
            assert At(NestedOf(d, t), pk.0, pk.1) == At(NestedOf(db, t), pk.0, pk.1);
          }
        }
      }
    }
  }

  /** After the loop everybody else's nested rows are as they were. */
  ghost predicate OthersNested(start: Progress, p: Progress) {
    forall id :: id !in p.landed ==> SameNested(p.db, start.db, id)
  }

  lemma OthersNestedStep(inner: Table, start: Progress, parent: string, key: string, gen: IdSource, p: Progress, item: map<string, Json>, rid: string, q: Progress)
    requires OthersNested(start, p)
    requires WriteRow(inner, p, parent, key, item, rid, gen) == Ok(q)
    ensures OthersNested(start, q)
  {
    var n := |p.landed|;
    var id := q.landed[n];
    var mid := p.db.(rows := p.db.rows[id := UpsertedRow(p.db.rows, id, parent, key, n, SentValues(inner.cols, item))]);
    assert NestedSaves(mid, id, inner.cols, item) == Ok(q.db);
    forall o | o !in q.landed ensures SameNested(q.db, start.db, o) {
      assert id in q.landed && forall x :: x in p.landed ==> x in q.landed;
      NestedSavesLocal(mid, id, inner.cols, item, o);
      assert SameNested(p.db, start.db, o);
    }
  }

  /** The nested maps of landed rows were overlaid by their own element. */
  ghost predicate NestedLanded(inner: Table, start: Progress, list: seq<Json>, p: Progress)
    requires AllObjects(list)
  {
    && |p.landed| == |list|
    && (forall i, nc :: 0 <= i < |list| && nc in inner.cols && nc.column.KeyedStrings? ==>
          Read(NestedOf(p.db, nc.column.side.name), p.landed[i], nc.column.col)
          == NestedAfter(Read(NestedOf(start.db, nc.column.side.name), p.landed[i], nc.column.col), list[i].fields, nc.name))
  }

  lemma NestedLandedStep(inner: Table, start: Progress, parent: string, key: string, list: seq<Json>, gen: IdSource, p: Progress, item: Json, rid: string, q: Progress)
    requires ClearsFit(inner.cols)
    requires AllObjects(list) && item.Obj?
    requires OthersNested(start, p) && NestedLanded(inner, start, list, p)
    requires WriteRow(inner, p, parent, key, item.fields, rid, gen) == Ok(q)
    requires q.landed[|p.landed|] !in p.landed
    ensures NestedLanded(inner, start, list + [item], q)
  {
    var n, id := |list|, q.landed[|list|];
    var mid := p.db.(rows := p.db.rows[id := UpsertedRow(p.db.rows, id, parent, key, n, SentValues(inner.cols, item.fields))]);
    assert NestedSaves(mid, id, inner.cols, item.fields) == Ok(q.db);
    forall i, nc | 0 <= i <= n && nc in inner.cols && nc.column.KeyedStrings?
      ensures Read(NestedOf(q.db, nc.column.side.name), q.landed[i], nc.column.col)
           == NestedAfter(Read(NestedOf(start.db, nc.column.side.name), q.landed[i], nc.column.col), (list + [item])[i].fields, nc.name)
    {
      var t, c := nc.column.side.name, nc.column.col;
      if i == n {
        var k :| 0 <= k < |inner.cols| && inner.cols[k] == nc;
        NestedSavesReads(mid, id, inner.cols, item.fields, k, t, c);
        SameNestedReads(p.db, start.db, id, t, c);
      } else {
        assert q.landed[i] == p.landed[i] && p.landed[i] in p.landed;
        NestedSavesLocal(mid, id, inner.cols, item.fields, p.landed[i]);
        SameNestedReads(q.db, mid, p.landed[i], t, c);
      }
    }
  }

  /** The last turn of the loop, in a row none of the earlier turns used. */
  lemma LastTurn(inner: Table, start: Progress, parent: string, key: string, list: seq<Json>, ids: seq<string>, gen: IdSource) returns (p: Progress)
    requires |ids| == |list| > 0 && AllObjects(list)
    requires start.landed == [] && GoodIds(ids, gen, start.next)
    requires WriteLoop(inner, start, parent, key, list, ids, gen).Ok?
    ensures WriteLoop(inner, start, parent, key, list[..|list| - 1], ids[..|list| - 1], gen) == Ok(p)
    ensures WriteRow(inner, p, parent, key, list[|list| - 1].fields, ids[|list| - 1], gen) == WriteLoop(inner, start, parent, key, list, ids, gen)
    ensures var q := WriteLoop(inner, start, parent, key, list, ids, gen).value;
      |q.landed| == |list| && |p.landed| == |list| - 1 && q.landed[|p.landed|] !in p.landed
  {
    var n := |list| - 1;
    PrefixIds(ids, n, gen, start.next);
    p := LoopSplit(inner, start, parent, key, list, ids, gen);
    LoopLands(inner, start, parent, key, list[..n], ids[..n], gen);
    LoopLands(inner, start, parent, key, list, ids, gen);
    var q := WriteLoop(inner, start, parent, key, list, ids, gen).value;
    forall j | 0 <= j < n ensures p.landed[j] != q.landed[n] {
      assert q.landed[j] == p.landed[j];
    }
  }

  lemma {:induction false} LoopOthers(inner: Table, start: Progress, parent: string, key: string, list: seq<Json>, ids: seq<string>, gen: IdSource)
    requires |ids| == |list| && AllObjects(list)
    requires WriteLoop(inner, start, parent, key, list, ids, gen).Ok?
    ensures OthersNested(start, WriteLoop(inner, start, parent, key, list, ids, gen).value)
  {
    if list != [] {
      var n := |list| - 1;
      var p := LoopSplit(inner, start, parent, key, list, ids, gen);
      LoopOthers(inner, start, parent, key, list[..n], ids[..n], gen);
      OthersNestedStep(inner, start, parent, key, gen, p, list[n].fields, ids[n], WriteLoop(inner, start, parent, key, list, ids, gen).value);
    }
  }

  lemma {:induction false} LoopNested(inner: Table, start: Progress, parent: string, key: string, list: seq<Json>, ids: seq<string>, gen: IdSource)
    requires |ids| == |list| && AllObjects(list)
    requires ClearsFit(inner.cols)
    requires start.landed == []
    requires GoodIds(ids, gen, start.next)
    requires WriteLoop(inner, start, parent, key, list, ids, gen).Ok?
    ensures NestedLanded(inner, start, list, WriteLoop(inner, start, parent, key, list, ids, gen).value)
  {
    if list != [] {
      var n := |list| - 1;
      PrefixIds(ids, n, gen, start.next);
      var p := LastTurn(inner, start, parent, key, list, ids, gen);
      LoopOthers(inner, start, parent, key, list[..n], ids[..n], gen);
      LoopNested(inner, start, parent, key, list[..n], ids[..n], gen);
      LastNested(inner, start, parent, key, list, ids[n], gen, p, WriteLoop(inner, start, parent, key, list, ids, gen).value);
    }
  }

  lemma LastNested(inner: Table, start: Progress, parent: string, key: string, list: seq<Json>, rid: string, gen: IdSource, p: Progress, q: Progress)
    requires ClearsFit(inner.cols) && list != [] && AllObjects(list)
    requires OthersNested(start, p) && NestedLanded(inner, start, list[..|list| - 1], p)
    requires WriteRow(inner, p, parent, key, list[|list| - 1].fields, rid, gen) == Ok(q)
    requires q.landed[|p.landed|] !in p.landed
    ensures NestedLanded(inner, start, list, q)
  {
    assert list[..|list| - 1] + [list[|list| - 1]] == list;
    NestedLandedStep(inner, start, parent, key, list[..|list| - 1], gen, p, list[|list| - 1], rid, q);
  }

  // --- one save of one partition --------------------------------------------------------

  /** A partition is named exactly on a partitioned table (ChildRows, KeyedChildRows). */
  predicate RightKey(ct: ChildTable, key: string) { ct.partitioned <==> key != "" }

  /** The loop's starting point: what is kept after the DELETE. */
  function Start(ct: ChildTable, inner: Table, db: ChildDb, parent: string, key: string, list: seq<Json>, gen: IdSource, next: nat): Progress
    requires IdField(inner.cols, inner.id).Some?
  {
    var r := ResolvedIds(ct, inner, db, parent, key, list, gen, next);
    Progress(DeleteExcept(ct, db, parent, key, KeepList(r.ids)), r.next, [])
  }

  function ResolvedIds(ct: ChildTable, inner: Table, db: ChildDb, parent: string, key: string, list: seq<Json>, gen: IdSource, next: nat): (r: Resolved)
    requires IdField(inner.cols, inner.id).Some?
    ensures |r.ids| == |list|
  {
    Resolve(ct, IdField(inner.cols, inner.id).value, Owned(ct, db.rows, parent, key), list, gen, next)
  }

  lemma ResolvedGood(ct: ChildTable, idField: string, owned: set<string>, items: seq<Json>, gen: IdSource, next: nat, r: Resolved)
    requires WellResolved(ct, idField, owned, items, gen, next, r)
    requires forall k: nat :: next <= k ==> gen(k) !in owned
    ensures GoodIds(r.ids, gen, r.next)
  {
    forall i, k: nat | 0 <= i < |items| && r.next <= k ensures r.ids[i] != gen(k) {
      if FirstOwn(idField, owned, items, i) { assert r.ids[i] in owned; }
    }
  }

  lemma WriteRowsLands(ct: ChildTable, inner: Table, db: ChildDb, parent: string, key: string, list: seq<Json>, gen: IdSource, next: nat)
    requires ElementOk(ct, inner) && AllObjects(list)
    requires Unissued(gen, next, db.rows)
    requires WriteRows(ct, inner, db, parent, key, list, gen, next).Ok?
    ensures var r, out := ResolvedIds(ct, inner, db, parent, key, list, gen, next), WriteRows(ct, inner, db, parent, key, list, gen, next).value;
      var start := Start(ct, inner, db, parent, key, list, gen, next);
      && WellResolved(ct, IdField(inner.cols, inner.id).value, Owned(ct, db.rows, parent, key), list, gen, next, r)
      && Landed(inner, start, parent, key, list, r.ids, gen, out)
      && OthersNested(start, out)
      && (ClearsFit(inner.cols) ==> NestedLanded(inner, start, list, out))
  {
    var idField, owned := IdField(inner.cols, inner.id).value, Owned(ct, db.rows, parent, key);
    ResolveSound(ct, idField, owned, list, gen, next);
    var r := ResolvedIds(ct, inner, db, parent, key, list, gen, next);
    ResolvedGood(ct, idField, owned, list, gen, next, r);
    LoopLands(inner, Start(ct, inner, db, parent, key, list, gen, next), parent, key, list, r.ids, gen);
    LoopOthers(inner, Start(ct, inner, db, parent, key, list, gen, next), parent, key, list, r.ids, gen);
    if ClearsFit(inner.cols) {
      LoopNested(inner, Start(ct, inner, db, parent, key, list, gen, next), parent, key, list, r.ids, gen);
    }
  }
}
