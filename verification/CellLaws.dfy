/** What the save closure of every cell promises: its echo is what a read gives, a nil
    echo means nothing was written, and nobody else's storage is touched. */
module CellLaws {
  import opened Values
  import opened SideTables
  import opened KeyedLaws
  import opened Columns
  import opened ChildTables
  import opened ChildLists
  import opened ListLaws
  import opened RelsTables
  import opened Database

  /** What one save over one satellite keeps; a nil echo means nothing was written. */
  ghost predicate SoundSave(db: Db, next: nat, gen: IdSource, s: Saved) {
    && s.db.main == db.main
    && next <= s.next && Sound(s.db, gen, s.next)
    && (s.echo == Null ==> s.db == db && s.next == next)
  }

  /** What can be told of a sent value before the save: whether the echo is to be the
      read. Only a relation list echoes the payload; every other satellite re-reads. */
  ghost predicate HonestCell(c: Column, parent: string, v: Json) {
    match c
    case Rels(rels, _, _) => v.Arr? ==> OwnImages(rels.cast, IdSlice(v.items))
    case DeferredList(list, resolve) =>
      if !v.Arr? then HonestCell(list, parent, v)
      else var r := ResolveAll(resolve, parent, v.items); r.Ok? ==> HonestCell(list, parent, Arr(r.value))
    case _ => true
  }

  /** An echo is what a read then gives exactly when the sent value is honest. */
  ghost predicate Truth(c: Column, parent: string, v: Json, s: Saved)
    requires CellOk(c)
  {
    s.echo != Null ==> (s.echo == CellLoad(s.db, c, parent) <==> HonestCell(c, parent, v))
  }

  /** What a cell over this storage can see of one parent is the same in two states. */
  ghost predicate SameStorage(a: Db, b: Db, st: Storage, parent: string) {
    match st
    case InColumn(_) => true
    case InSide(table, col) => Read(SideOf(a, table), parent, col) == Read(SideOf(b, table), parent, col)
    case InChild(table) => ChildOf(a, table) == ChildOf(b, table)
    case InRels(table, path) => forall target :: ReadRels(RelsOf(a, table), parent, path, target) == ReadRels(RelsOf(b, table), parent, path, target)
  }

  lemma {:induction false} SameLoad(a: Db, b: Db, c: Column, parent: string)
    requires CellOk(c) && SameStorage(a, b, StorageOf(c), parent)
    ensures CellLoad(a, c, parent) == CellLoad(b, c, parent)
  {
    if c.DeferredList? { SameLoad(a, b, c.list, parent); }
  }

  /** What a save for one parent leaves alone: storage its cell does not touch, and what
      other parents see of any but a child table. */
  predicate Leaves(c: Column, parent: string, st: Storage, p: string) {
    !Touches(c, st) || (p != parent && !st.InChild?)
  }

  /** That is left as it was, and so is what other parents see in the cell's own. */
  ghost predicate Isolated(db: Db, c: Column, parent: string, out: Db)
    requires CellOk(c)
  {
    && (forall st, p :: Leaves(c, parent, st, p) ==> SameStorage(db, out, st, p))
    && (forall p :: p != parent ==> CellLoad(out, c, p) == CellLoad(db, c, p))
  }

  lemma {:induction false} StringsDiffer(a: seq<string>, b: seq<string>)
    requires Strings(a) == Strings(b)
    ensures a == b
  {
    assert |a| == |Strings(a)| && |b| == |Strings(b)|;
    forall i | 0 <= i < |a| ensures a[i] == b[i] {
      assert Strings(a)[i] == Str(a[i]) && Strings(b)[i] == Str(b[i]);
    }
  }

  lemma SaveKeyedLaw(db: Db, next: nat, c: Column, parent: string, v: Json, gen: IdSource)
    requires c.KeyedStrings? && Sound(db, gen, next)
    requires SaveKeyed(db, next, c.side, c.col, c.clear, parent, v).Ok?
    ensures var s := SaveKeyed(db, next, c.side, c.col, c.clear, parent, v).value;
      SoundSave(db, next, gen, s) && Truth(c, parent, v, s) && Isolated(db, c, parent, s.db)
  {
    if v.Obj? {
      var w := Write(c.col, c.clear, v.fields);
      var side := WriteMany(c.side, db.main.Keys, SideOf(db, c.side.name), parent, [w]).value;
      forall p, col | p != parent || !Touches(c, InSide(c.side.name, col)) ensures Read(side, p, col) == Read(SideOf(db, c.side.name), p, col) {
        OneWriteReads(c.side, db.main.Keys, SideOf(db, c.side.name), parent, w, p, col);
      }
      KeyedIsolated(db, c, parent, side);
    } else {
      SameIsIsolated(db, c, parent);
    }
  }

  lemma KeyedIsolated(db: Db, c: Column, parent: string, side: Side)
    requires c.KeyedStrings?
    requires forall p, col :: p != parent || !Touches(c, InSide(c.side.name, col)) ==> Read(side, p, col) == Read(SideOf(db, c.side.name), p, col)
    ensures Isolated(db, c, parent, db.(sides := db.sides[c.side.name := side]))
  {
    var out := db.(sides := db.sides[c.side.name := side]);
    forall st, p | Leaves(c, parent, st, p) ensures SameStorage(db, out, st, p) {
      if st.InSide? && st.table == c.side.name { assert Read(side, p, st.col) == Read(SideOf(db, c.side.name), p, st.col); }
    }
    forall p | p != parent ensures CellLoad(out, c, p) == CellLoad(db, c, p) {
      assert Read(side, p, c.col) == Read(SideOf(db, c.side.name), p, c.col);
    }
  }

  lemma SameIsIsolated(db: Db, c: Column, parent: string)
    requires CellOk(c)
    ensures Isolated(db, c, parent, db)
  {}

  lemma SaveRelsLaw(db: Db, next: nat, c: Column, parent: string, v: Json, gen: IdSource)
    requires c.Rels? && Sound(db, gen, next)
    requires SaveRels(db, next, c.rels, c.path, c.target, parent, v).Ok?
    ensures var s := SaveRels(db, next, c.rels, c.path, c.target, parent, v).value;
      SoundSave(db, next, gen, s) && Truth(c, parent, v, s) && Isolated(db, c, parent, s.db)
  {
    if v.Arr? {
      RelsSaved(db, next, c, parent, IdSlice(v.items), gen, RelsOf(SaveRels(db, next, c.rels, c.path, c.target, parent, v).value.db, c.rels.name));
      IdSliceOrdered(v.items);
      RelsTruth(db, next, c, parent, v);
    } else {
      SameIsIsolated(db, c, parent);
    }
  }

  lemma RelsSaved(db: Db, next: nat, c: Column, parent: string, ids: seq<string>, gen: IdSource, after: RelsDb)
    requires c.Rels? && Sound(db, gen, next)
    requires ReplaceRels(c.rels.cast, RelsOf(db, c.rels.name), parent, c.path, c.target, ids) == Ok(after)
    ensures var out := db.(rels := db.rels[c.rels.name := after]);
      Sound(out, gen, next) && Isolated(db, c, parent, out)
  {
    var before := RelsOf(db, c.rels.name);
    ReplaceRelsFramed(c.rels.cast, before, parent, c.path, c.target, ids, after);
    forall p, path, target | p != parent || path != c.path ensures ReadRels(after, p, path, target) == ReadRels(before, p, path, target) {
      OtherRelsRead(c.rels.cast, before, parent, c.path, c.target, ids, after, p, path, target);
    }
    RelsIsolated(db, c, parent, after);
  }

  /** A replaced relation list reads as the images of what it echoes. */
  lemma RelsTruth(db: Db, next: nat, c: Column, parent: string, v: Json)
    requires c.Rels? && v.Arr? && SerialAhead(RelsOf(db, c.rels.name)) && NoneEmpty(IdSlice(v.items))
    requires SaveRels(db, next, c.rels, c.path, c.target, parent, v).Ok?
    ensures var s := SaveRels(db, next, c.rels, c.path, c.target, parent, v).value;
      && CellLoad(s.db, c, parent) == Arr(Strings(Images(c.rels.cast, IdSlice(v.items))))
      && Truth(c, parent, v, s)
  {
    var ids := IdSlice(v.items);
    var s := SaveRels(db, next, c.rels, c.path, c.target, parent, v).value;
    ReplaceRelsReadsBack(c.rels.cast, RelsOf(db, c.rels.name), parent, c.path, c.target, ids, RelsOf(s.db, c.rels.name));
    if s.echo == CellLoad(s.db, c, parent) {
      StringsDiffer(ids, Images(c.rels.cast, ids));
    }
  }

  lemma PathIsolated(db: Db, table: string, after: RelsDb, path: string, parent: string, st: Storage, p: string)
    requires st != InRels(table, path) || p != parent
    requires forall q, n, target :: q != parent || n != path ==> ReadRels(after, q, n, target) == ReadRels(RelsOf(db, table), q, n, target)
    ensures SameStorage(db, db.(rels := db.rels[table := after]), st, p)
  {
    if st.InRels? && st.table == table {
      forall target ensures ReadRels(after, p, st.path, target) == ReadRels(RelsOf(db, table), p, st.path, target) {}
    }
  }

  lemma RelsIsolated(db: Db, c: Column, parent: string, after: RelsDb)
    requires c.Rels?
    requires forall p, path, target :: p != parent || path != c.path ==> ReadRels(after, p, path, target) == ReadRels(RelsOf(db, c.rels.name), p, path, target)
    ensures Isolated(db, c, parent, db.(rels := db.rels[c.rels.name := after]))
  {
    var out := db.(rels := db.rels[c.rels.name := after]);
    forall st, p | Leaves(c, parent, st, p) ensures SameStorage(db, out, st, p) {
      PathIsolated(db, c.rels.name, after, c.path, parent, st, p);
    }
  }

  lemma ChildSound(db: Db, gen: IdSource, next: nat, table: string)
    requires Sound(db, gen, next)
    ensures Unissued(gen, next, ChildOf(db, table).rows) && NestedKeys(ChildOf(db, table))
  {}

  lemma SoundAfterChild(db: Db, gen: IdSource, next: nat, table: string, d: ChildDb, m: nat)
    requires Sound(db, gen, next) && next <= m
    requires Unissued(gen, m, d.rows) && NestedKeys(d)
    ensures Sound(db.(childs := db.childs[table := d]), gen, m)
  {}

  lemma ChildIsolated(db: Db, c: Column, parent: string, d: ChildDb)
    requires c.Child? && CellOk(c)
    requires forall p :: p != parent ==> LoadList(c.ct, c.shape, d, p) == LoadList(c.ct, c.shape, ChildOf(db, c.ct.name), p)
    ensures Isolated(db, c, parent, db.(childs := db.childs[c.ct.name := d]))
  {
    var out := db.(childs := db.childs[c.ct.name := d]);
    forall st, p | Leaves(c, parent, st, p) ensures SameStorage(db, out, st, p) {}
  }

  lemma SaveChildLaw(db: Db, next: nat, c: Column, parent: string, v: Json, gen: IdSource)
    requires c.Child? && CellOk(c) && Sound(db, gen, next)
    requires SaveChild(db, next, c.ct, c.shape, parent, v, gen).Ok?
    ensures var s := SaveChild(db, next, c.ct, c.shape, parent, v, gen).value;
      SoundSave(db, next, gen, s) && Truth(c, parent, v, s) && Isolated(db, c, parent, s.db)
  {
    var st := ChildState(ChildOf(db, c.ct.name), next);
    ChildSound(db, gen, next, c.ct.name);
    SaveListLaw(c.ct, c.shape, gen, st, parent, v);
    var r := SaveList(c.ct, c.shape, st, parent, v, gen).value;
    if r.Some? {
      SoundAfterChild(db, gen, next, c.ct.name, r.value.db, r.value.next);
      ChildIsolated(db, c, parent, r.value.db);
    } else {
      SameIsIsolated(db, c, parent);
    }
  }

  /** Every save closure: the echo is what a read then gives if and only if the sent
      value is honest, and nobody else's storage is touched. */
  lemma {:induction false} CellSaveLaw(db: Db, next: nat, c: Column, parent: string, v: Json, gen: IdSource)
    requires CellOk(c) && c.IsSatellite() && Sound(db, gen, next)
    requires CellSave(db, next, c, parent, v, gen).Ok?
    ensures var s := CellSave(db, next, c, parent, v, gen).value;
      SoundSave(db, next, gen, s) && Truth(c, parent, v, s) && Isolated(db, c, parent, s.db)
    decreases c
  {
    match c
    case KeyedStrings(_, _, _) => SaveKeyedLaw(db, next, c, parent, v, gen);
    case Child(_, _) => SaveChildLaw(db, next, c, parent, v, gen);
    case Rels(_, _, _) => SaveRelsLaw(db, next, c, parent, v, gen);
    case DeferredList(list, resolve) =>
      CellSaveLaw(db, next, list, parent, if v.Arr? then Arr(ResolveAll(resolve, parent, v.items).value) else v, gen);
  }
}
