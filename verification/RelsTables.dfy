/** A relations table of adapter/erjet/rels.go: ordered lists of ids told apart by path. */
module RelsTables {
  import opened Values
  import opened Ordering
  import opened Columns

  /** One relation: exactly one target column is filled. */
  datatype RelRow = RelRow(parent: string, path: string, order: Option<int>, column: string, target: string)

  /** The rows by surrogate key, the sequence that draws it, and what the foreign keys of
      the target columns refer to: a column without one is not listed. */
  datatype RelsDb = RelsDb(rows: map<nat, RelRow>, serial: nat, targets: map<string, set<string>>)

  predicate Mine(row: RelRow, parent: string, path: string) {
    row.parent == parent && row.path == path
  }

  predicate Shown(row: RelRow, parent: string, path: string, column: string) {
    Mine(row, parent, path) && row.column == column && row.target != ""
  }

  datatype RelSlot = RelSlot(order: Option<int>, id: nat)

  predicate RelLess(a: RelSlot, b: RelSlot) {
    if a.order == b.order then a.id < b.id
    else a.order.Some? && (b.order.Some? ==> a.order.value < b.order.value)
  }

  lemma RelLessTotal()
    ensures StrictTotal(RelLess)
  {}

  function RelSlots(db: RelsDb, parent: string, path: string, column: string): set<RelSlot> {
    set id | id in db.rows && Shown(db.rows[id], parent, path, column) :: RelSlot(db.rows[id].order, id)
  }

  function SelectRels(db: RelsDb, parent: string, path: string, column: string): (q: seq<RelSlot>)
    ensures Elems(q) == RelSlots(db, parent, path, column)
  {
    RelLessTotal();
    Sort(RelSlots(db, parent, path, column), RelLess)
  }

  /** Relations are read by position, those without one last, and equal positions by
      their serial id. */
  lemma SelectRelsOrdered(db: RelsDb, parent: string, path: string, column: string, i: nat, j: nat)
    requires i < j < |SelectRels(db, parent, path, column)|
    ensures var a, b := SelectRels(db, parent, path, column)[i], SelectRels(db, parent, path, column)[j];
      && (b.order.Some? ==> a.order.Some? && a.order.value <= b.order.value)
      && (a.order == b.order ==> a.id < b.id)
      && a.id in db.rows && b.id in db.rows && db.rows[a.id].order == a.order && db.rows[b.id].order == b.order
  {
    var q := SelectRels(db, parent, path, column);
    RelLessTotal();
    assert Ascending(q, RelLess);
    assert q[i] in Elems(q) && q[j] in Elems(q);
  }

  /** RelsTable.read. */
  function ReadRels(db: RelsDb, parent: string, path: string, column: string): seq<string> {
    var q := SelectRels(db, parent, path, column);
    seq(|q|, i requires 0 <= i < |q| => if q[i].id in db.rows then db.rows[q[i].id].target else "")
  }

  function DeletePath(db: RelsDb, parent: string, path: string): RelsDb {
    db.(rows := db.rows - (set id | id in db.rows && Mine(db.rows[id], parent, path)))
  }

  /** Whether the foreign key of a target column allows an id. */
  predicate HasTarget(db: RelsDb, column: string, target: string) {
    column in db.targets ==> target in db.targets[column]
  }

  /** INSERT of one relation, its target cast to the column's type. */
  function InsertRel(cast: Cast, db: RelsDb, parent: string, path: string, order: int, column: string, id: string): Result<RelsDb> {
    match cast(id)
    case None => Err(InvalidText)
    case Some(target) =>
      if !HasTarget(db, column, target) then Err(ForeignKeyViolation)
      else Ok(db.(rows := db.rows[db.serial := RelRow(parent, path, Some(order), column, target)], serial := db.serial + 1))
  }

  function InsertRels(cast: Cast, db: RelsDb, parent: string, path: string, column: string, ids: seq<string>): Result<RelsDb> {
    if ids == [] then Ok(db)
    else
      var n := |ids| - 1;
      match InsertRels(cast, db, parent, path, column, ids[..n])
      case Err(e) => Err(e)
      case Ok(d) => InsertRel(cast, d, parent, path, n, column, ids[n])
  }

  /** RelsTable.replace: positions count from zero. */
  function ReplaceRels(cast: Cast, db: RelsDb, parent: string, path: string, column: string, ids: seq<string>): Result<RelsDb> {
    InsertRels(cast, DeletePath(db, parent, path), parent, path, column, ids)
  }

  /** idSlice: the first occurrence of every non-empty string. */
  function IdSlice(list: seq<Json>): seq<string> {
    if list == [] then []
    else
      var ids, s := IdSlice(list[..|list| - 1]), StringOf(list[|list| - 1]);
      if s == "" || s in ids then ids else ids + [s]
  }

  function Strings(ids: seq<string>): seq<Json> {
    seq(|ids|, i requires 0 <= i < |ids| => Str(ids[i]))
  }

  // --- laws ------------------------------------------------------------------------------

  /** The sequence never draws a taken key. */
  ghost predicate SerialAhead(db: RelsDb) {
    forall id :: id in db.rows ==> id < db.serial
  }

  function IndexOf(list: seq<Json>, s: string): (i: nat)
    ensures i <= |list|
    ensures i < |list| ==> StringOf(list[i]) == s
    ensures forall j :: 0 <= j < i ==> StringOf(list[j]) != s
  {
    if list == [] || StringOf(list[0]) == s then 0 else 1 + IndexOf(list[1..], s)
  }

  lemma {:induction false} IdSliceMembers(list: seq<Json>, s: string)
    ensures s in IdSlice(list) <==> s != "" && IndexOf(list, s) < |list|
  {
    if list != [] {
      var init, last := list[..|list| - 1], list[|list| - 1];
      IdSliceMembers(init, s);
      IndexSnoc(init, last, s);
      assert list == init + [last];
    }
  }

  /** Non-empty strings, each once, ordered by first occurrence. */
  lemma {:induction false} IdSliceFirsts(list: seq<Json>, i: nat, j: nat)
    requires i < j < |IdSlice(list)|
    ensures IndexOf(list, IdSlice(list)[i]) < IndexOf(list, IdSlice(list)[j]) < |list|
  {
    var init, last := list[..|list| - 1], list[|list| - 1];
    assert list == init + [last];
    var ids := IdSlice(init);
    var a, b := IdSlice(list)[i], IdSlice(list)[j];
    assert a == ids[i] && a in ids;
    IdSliceMembers(init, a);
    IdSliceMembers(init, b);
    IndexSnoc(init, last, a);
    IndexSnoc(init, last, b);
    if j < |ids| {
      IdSliceFirsts(init, i, j);
    } else {
      assert b == StringOf(last) && b !in ids;
    }
  }

  lemma IndexSnoc(init: seq<Json>, last: Json, s: string)
    ensures IndexOf(init + [last], s) == if IndexOf(init, s) < |init| then IndexOf(init, s) else if StringOf(last) == s then |init| else |init| + 1
  {
    var list, i := init + [last], IndexOf(init + [last], s);
    assert forall j :: 0 <= j < |init| ==> list[j] == init[j];
    assert list[|init|] == last;
  }

  ghost predicate Ordered(list: seq<string>) {
    NoneEmpty(list) && NoRepeat(list)
  }

  lemma {:induction false} IdSliceOrdered(list: seq<Json>)
    ensures Ordered(IdSlice(list))
  {
    var ids := IdSlice(list);
    forall i | 0 <= i < |ids| ensures ids[i] != "" {
      assert ids[i] in ids;
      IdSliceMembers(list, ids[i]);
    }
    forall i, j | 0 <= i < j < |ids| ensures ids[i] != ids[j] {
      IdSliceFirsts(list, i, j);
    }
  }

  /** What was read parses to itself. */
  lemma {:induction false} IdSliceStrings(ids: seq<string>)
    requires Ordered(ids)
    ensures IdSlice(Strings(ids)) == ids
  {
    if ids != [] {
      var n := |ids| - 1;
      IdSliceStrings(ids[..n]);
      assert Strings(ids)[..n] == Strings(ids[..n]);
      assert ids == ids[..n] + [ids[n]];
    }
  }

  // --- the cast of the targets ------------------------------------------------------------

  /** The ids as the target column holds and shows them. */
  function Images(cast: Cast, ids: seq<string>): seq<string> {
    seq(|ids|, i requires 0 <= i < |ids| => if cast(ids[i]).Some? then cast(ids[i]).value else "")
  }

  /** Every id is of the target type, and a row with it exists where a foreign key asks
      for one. */
  ghost predicate Insertable(cast: Cast, db: RelsDb, column: string, ids: seq<string>) {
    forall i :: 0 <= i < |ids| ==> cast(ids[i]).Some? && HasTarget(db, column, cast(ids[i]).value)
  }

  /** Every id is written as the server shows it. */
  ghost predicate OwnImages(cast: Cast, ids: seq<string>) {
    forall i :: 0 <= i < |ids| ==> cast(ids[i]) == Some(ids[i])
  }

  ghost predicate NoRepeat(ids: seq<string>) {
    forall i, j :: 0 <= i < j < |ids| ==> ids[i] != ids[j]
  }

  /** No two ids are the same value of the target type. */
  ghost predicate ImagesDiffer(cast: Cast, ids: seq<string>) {
    forall i, j :: 0 <= i < j < |ids| ==> cast(ids[i]) != cast(ids[j])
  }

  lemma ImagesAre(cast: Cast, db: RelsDb, column: string, ids: seq<string>)
    requires Insertable(cast, db, column, ids)
    ensures Images(cast, ids) == ids <==> OwnImages(cast, ids)
    ensures NoRepeat(Images(cast, ids)) <==> ImagesDiffer(cast, ids)
    ensures Images(cast, Images(cast, ids)) == Images(cast, ids)
  {
    var im := Images(cast, ids);
    forall i | 0 <= i < |ids| ensures cast(ids[i]) == Some(im[i]) && cast(im[i]) == Some(im[i]) {}
    if im == ids {
      forall i | 0 <= i < |ids| ensures cast(ids[i]) == Some(ids[i]) { assert im[i] == ids[i]; }
    }
  }

  // --- a replaced list ----------------------------------------------------------------------

  ghost predicate RelsInserted(start: RelsDb, parent: string, path: string, column: string, ids: seq<string>, db: RelsDb) {
    && db.serial == start.serial + |ids| && db.targets == start.targets
    && (forall id :: id in db.rows <==> id in start.rows || start.serial <= id < db.serial)
    && (forall id :: id in start.rows ==> db.rows[id] == start.rows[id])
    && (forall i :: 0 <= i < |ids| ==> db.rows[start.serial + i] == RelRow(parent, path, Some(i), column, ids[i]))
  }

  lemma ImagesSnoc(cast: Cast, ids: seq<string>)
    requires ids != [] && cast(ids[|ids| - 1]).Some?
    ensures Images(cast, ids) == Images(cast, ids[..|ids| - 1]) + [cast(ids[|ids| - 1]).value]
  {}

  lemma InsertableSnoc(cast: Cast, db: RelsDb, column: string, ids: seq<string>)
    requires ids != []
    ensures var last := cast(ids[|ids| - 1]);
      Insertable(cast, db, column, ids) <==> Insertable(cast, db, column, ids[..|ids| - 1]) && last.Some? && HasTarget(db, column, last.value)
  {
    var init := ids[..|ids| - 1];
    assert forall i :: 0 <= i < |init| ==> init[i] == ids[i];
  }

  lemma InsertedSnoc(start: RelsDb, parent: string, path: string, column: string, ids: seq<string>, target: string, d: RelsDb, e: RelsDb)
    requires SerialAhead(start)
    requires RelsInserted(start, parent, path, column, ids, d)
    requires e == d.(rows := d.rows[d.serial := RelRow(parent, path, Some(|ids|), column, target)], serial := d.serial + 1)
    ensures RelsInserted(start, parent, path, column, ids + [target], e)
  {}

  /** The INSERT loop goes through exactly when every id is insertable; it leaves their
      images at consecutive positions, and everything else as it was. */
  lemma {:induction false} InsertRelsSound(cast: Cast, start: RelsDb, parent: string, path: string, column: string, ids: seq<string>)
    requires SerialAhead(start)
    ensures var out := InsertRels(cast, start, parent, path, column, ids);
      && (out.Ok? <==> Insertable(cast, start, column, ids))
      && (out.Ok? ==> RelsInserted(start, parent, path, column, Images(cast, ids), out.value))
      && (out.Err? ==> TargetRefused(cast, start, column, ids, out.error))
  {
    if ids != [] {
      var init, last := ids[..|ids| - 1], ids[|ids| - 1];
      InsertRelsSound(cast, start, parent, path, column, init);
      InsertableSnoc(cast, start, column, ids);
      var d := InsertRels(cast, start, parent, path, column, init);
      if d.Ok? && Insertable(cast, start, column, ids) {
        ImagesSnoc(cast, ids);
        InsertedSnoc(start, parent, path, column, Images(cast, init), cast(last).value, d.value, InsertRels(cast, start, parent, path, column, ids).value);
      }
    }
  }

  /** Why a list is refused: an id that is not of the type, or one without a row. */
  ghost predicate TargetRefused(cast: Cast, db: RelsDb, column: string, ids: seq<string>, e: Failure) {
    || (e == InvalidText && exists i :: 0 <= i < |ids| && cast(ids[i]).None?)
    || (e == ForeignKeyViolation && exists i :: 0 <= i < |ids| && cast(ids[i]).Some? && !HasTarget(db, column, cast(ids[i]).value))
  }

  /** A replaced list is refused for an id of another type or without a row, and for
      nothing else. */
  lemma ReplaceRelsAccepted(cast: Cast, db: RelsDb, parent: string, path: string, column: string, ids: seq<string>)
    requires SerialAhead(db)
    ensures var out := ReplaceRels(cast, db, parent, path, column, ids);
      && (out.Ok? <==> Insertable(cast, db, column, ids))
      && (out.Err? ==> TargetRefused(cast, db, column, ids, out.error))
  {
    InsertRelsSound(cast, DeletePath(db, parent, path), parent, path, column, ids);
  }

  /** Rows of other parents and paths stay, and no others appear. */
  lemma ReplaceRelsFramed(cast: Cast, db: RelsDb, parent: string, path: string, column: string, ids: seq<string>, out: RelsDb)
    requires SerialAhead(db)
    requires ReplaceRels(cast, db, parent, path, column, ids) == Ok(out)
    ensures SerialAhead(out) && out.targets == db.targets
    ensures forall id :: id in db.rows && !Mine(db.rows[id], parent, path) ==> id in out.rows && out.rows[id] == db.rows[id]
    ensures forall id :: id in out.rows && !Mine(out.rows[id], parent, path) ==> id in db.rows && out.rows[id] == db.rows[id]
  {
    var start, images := DeletePath(db, parent, path), Images(cast, ids);
    InsertRelsSound(cast, start, parent, path, column, ids);
    forall id | id in out.rows && id !in start.rows ensures Mine(out.rows[id], parent, path) {
      var i := id - start.serial;
      assert out.rows[start.serial + i] == RelRow(parent, path, Some(i), column, images[i]);
    }
  }

  lemma InRelSlots(db: RelsDb, parent: string, path: string, column: string, s: RelSlot)
    ensures s in RelSlots(db, parent, path, column) <==>
      s.id in db.rows && Shown(db.rows[s.id], parent, path, column) && s.order == db.rows[s.id].order
  {}

  ghost predicate NoneEmpty(ids: seq<string>) {
    forall i :: 0 <= i < |ids| ==> ids[i] != ""
  }

  lemma ReplacedSlots(start: RelsDb, parent: string, path: string, column: string, ids: seq<string>, out: RelsDb)
    requires NoneEmpty(ids)
    requires forall id :: id in start.rows ==> !Mine(start.rows[id], parent, path)
    requires RelsInserted(start, parent, path, column, ids, out)
    ensures SelectRels(out, parent, path, column) == seq(|ids|, i requires 0 <= i < |ids| => RelSlot(Some(i), start.serial + i))
  {
    var q := seq(|ids|, i requires 0 <= i < |ids| => RelSlot(Some(i), start.serial + i));
    forall s: RelSlot ensures s in RelSlots(out, parent, path, column) <==> s in q {
      InRelSlots(out, parent, path, column, s);
      if s in RelSlots(out, parent, path, column) {
        assert out.rows[start.serial + (s.id - start.serial)] == out.rows[s.id];
        assert q[s.id - start.serial] == s;
      }
      if s in q {
        var i :| 0 <= i < |q| && q[i] == s;
        assert out.rows[start.serial + i].target == ids[i];
      }
    }
    assert Elems(q) == RelSlots(out, parent, path, column);
    RelLessTotal();
    SortUnique(q, RelLess);
  }

  lemma SlotTargets(db: RelsDb, parent: string, path: string, column: string, serial: nat, ids: seq<string>)
    requires SelectRels(db, parent, path, column) == seq(|ids|, i requires 0 <= i < |ids| => RelSlot(Some(i), serial + i))
    requires forall i :: 0 <= i < |ids| ==> serial + i in db.rows && db.rows[serial + i].target == ids[i]
    ensures ReadRels(db, parent, path, column) == ids
  {}

  lemma InsertedTargets(start: RelsDb, parent: string, path: string, column: string, ids: seq<string>, db: RelsDb)
    requires RelsInserted(start, parent, path, column, ids, db)
    ensures forall i :: 0 <= i < |ids| ==> start.serial + i in db.rows && db.rows[start.serial + i].target == ids[i]
  {}

  /** A replaced list reads as the images of the ids, in order. So it reads as sent
      exactly when every id is its own image, and repeats no id exactly when no two of
      them have the same image. */
  lemma ReplaceRelsReadsBack(cast: Cast, db: RelsDb, parent: string, path: string, column: string, ids: seq<string>, out: RelsDb)
    requires SerialAhead(db) && NoneEmpty(ids)
    requires ReplaceRels(cast, db, parent, path, column, ids) == Ok(out)
    ensures ReadRels(out, parent, path, column) == Images(cast, ids)
    ensures ReadRels(out, parent, path, column) == ids <==> OwnImages(cast, ids)
    ensures NoRepeat(ReadRels(out, parent, path, column)) <==> ImagesDiffer(cast, ids)
  {
    var start := DeletePath(db, parent, path);
    InsertRelsSound(cast, start, parent, path, column, ids);
    ImagesAre(cast, start, column, ids);
    InsertedReadBack(start, parent, path, column, Images(cast, ids), out);
  }

  lemma InsertedReadBack(start: RelsDb, parent: string, path: string, column: string, ids: seq<string>, out: RelsDb)
    requires NoneEmpty(ids)
    requires forall id :: id in start.rows ==> !Mine(start.rows[id], parent, path)
    requires RelsInserted(start, parent, path, column, ids, out)
    ensures ReadRels(out, parent, path, column) == ids
  {
    ReplacedSlots(start, parent, path, column, ids, out);
    InsertedTargets(start, parent, path, column, ids, out);
    SlotTargets(out, parent, path, column, start.serial, ids);
  }

  /** Another list reads as before: another parent, or another path. */
  lemma OtherRelsRead(cast: Cast, db: RelsDb, parent: string, path: string, column: string, ids: seq<string>, out: RelsDb, otherParent: string, otherPath: string, otherColumn: string)
    requires SerialAhead(db)
    requires ReplaceRels(cast, db, parent, path, column, ids) == Ok(out)
    requires otherParent != parent || otherPath != path
    ensures ReadRels(out, otherParent, otherPath, otherColumn) == ReadRels(db, otherParent, otherPath, otherColumn)
  {
    ReplaceRelsFramed(cast, db, parent, path, column, ids, out);
    forall s: RelSlot ensures s in RelSlots(out, otherParent, otherPath, otherColumn) <==> s in RelSlots(db, otherParent, otherPath, otherColumn) {
      InRelSlots(out, otherParent, otherPath, otherColumn, s);
      InRelSlots(db, otherParent, otherPath, otherColumn, s);
    }
    assert RelSlots(out, otherParent, otherPath, otherColumn) == RelSlots(db, otherParent, otherPath, otherColumn);
    SameRelsRead(db, out, otherParent, otherPath, otherColumn);
  }

  lemma SameRelsRead(db: RelsDb, out: RelsDb, parent: string, path: string, column: string)
    requires RelSlots(out, parent, path, column) == RelSlots(db, parent, path, column)
    requires forall id :: id in db.rows && id in out.rows && Mine(db.rows[id], parent, path) ==> out.rows[id] == db.rows[id]
    ensures ReadRels(out, parent, path, column) == ReadRels(db, parent, path, column)
  {
    var q := SelectRels(db, parent, path, column);
    forall i | 0 <= i < |q| ensures q[i].id in db.rows && q[i].id in out.rows && out.rows[q[i].id] == db.rows[q[i].id] {
      assert q[i] in Elems(q);
      InRelSlots(db, parent, path, column, q[i]);
      InRelSlots(out, parent, path, column, q[i]);
    }
  }
}
