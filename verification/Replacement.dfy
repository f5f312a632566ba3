/** Replacement lists, wrapped in resolvers or not: what is sent is what is read. */
module Replacement {
  import opened Values
  import opened Columns
  import opened ChildTables
  import opened ListLaws
  import opened RelsTables
  import opened Selections
  import opened Database
  import opened CellLaws

  /** What a list cell reads as once it was sent a list: the parsed elements as they read,
      duplicates included; the images of the ids by first occurrence; through a resolver,
      that of the resolved elements, nil results left out. */
  ghost predicate Replaces(c: Column, parent: string, items: seq<Json>, read: seq<Json>)
    requires CellOk(c) && IsList(c)
    decreases c
  {
    match c
    case Child(_, shape) => exists pos: seq<nat> :: ParsedTo(shape.elem, items, pos, read)
    case Rels(rels, _, _) => exists ids :: FirstsOf(items, ids) && read == Strings(Images(rels.cast, ids))
    case DeferredList(list, resolve) => exists pos: seq<nat>, mid :: ResolvedTo(resolve, parent, items, pos, mid) && Replaces(list, parent, mid, read)
  }

  /** That list. */
  function Kept(c: Column, parent: string, items: seq<Json>): seq<Json>
    requires CellOk(c) && IsList(c)
    decreases c
  {
    match c
    case Child(_, shape) => Reads(shape.elem, items)
    case Rels(rels, _, _) => Strings(Images(rels.cast, IdSlice(items)))
    case DeferredList(list, resolve) =>
      var r := ResolveAll(resolve, parent, items);
      if r.Ok? then Kept(list, parent, r.value) else []
  }

  /** A replaced list reads back as what was sent, element by element, however the
      resolvers around it are nested. */
  lemma ListReadsBack(db: Db, next: nat, c: Column, parent: string, items: seq<Json>, gen: IdSource)
    requires CellOk(c) && IsList(c) && Sound(db, gen, next)
    requires CellSave(db, next, c, parent, Arr(items), gen).Ok?
    ensures CellLoad(CellSave(db, next, c, parent, Arr(items), gen).value.db, c, parent) == Arr(Kept(c, parent, items))
    ensures Replaces(c, parent, items, Kept(c, parent, items))
    decreases c
  {
    match c
    case Child(ct, shape) =>
      ChildSound(db, gen, next, ct.name);
      ReplaceReadsBack(ct, shape.elem, ChildOf(db, ct.name), parent, "", items, gen, next);
      var pos := ReadsParsed(shape.elem, items);
    case Rels(rels, path, target) =>
      IdSliceOrdered(items);
      RelsTruth(db, next, c, parent, Arr(items));
      IdSliceIsFirsts(items);
    case DeferredList(list, resolve) =>
      ResolveAllResolves(resolve, parent, items);
      ListReadsBack(db, next, list, parent, ResolveAll(resolve, parent, items).value, gen);
  }

  /** Behind a resolver a list is saved exactly as the resolved elements are, and refused
      with the first error of the resolver before anything is written. */
  lemma ResolverOutcome(db: Db, next: nat, list: Column, resolve: (string, Json) -> Result<Json>, parent: string, items: seq<Json>, gen: IdSource)
    requires CellOk(list) && IsList(list)
    ensures var out := CellSave(db, next, DeferredList(list, resolve), parent, Arr(items), gen);
      && (forall i, e :: FailsFirst(resolve, parent, items, i, e) ==> out == Err(e))
      && ((forall i :: 0 <= i < |items| ==> resolve(parent, items[i]).Ok?) ==>
            exists pos: seq<nat>, mid :: ResolvedTo(resolve, parent, items, pos, mid) && out == CellSave(db, next, list, parent, Arr(mid), gen))
  {
    ResolveAllResolves(resolve, parent, items);
    var r := ResolveAll(resolve, parent, items);
    forall i, e | FailsFirst(resolve, parent, items, i, e) ensures r == Err(e) {
      if r.Err? {
        var j :| FailsFirst(resolve, parent, items, j, r.error);
        assert i == j;
      }
    }
  }

  /** Replacing twice reads as replacing once. */
  lemma ReplacedTwice(db: Db, next: nat, c: Column, parent: string, items: seq<Json>, gen: IdSource)
    requires CellOk(c) && IsList(c) && Sound(db, gen, next)
    requires CellSave(db, next, c, parent, Arr(items), gen).Ok?
    ensures var once := CellSave(db, next, c, parent, Arr(items), gen).value;
      CellSave(once.db, once.next, c, parent, Arr(items), gen).Ok? ==>
        CellLoad(CellSave(once.db, once.next, c, parent, Arr(items), gen).value.db, c, parent) == CellLoad(once.db, c, parent)
  {
    ListIsSatellite(c);
    CellSaveLaw(db, next, c, parent, Arr(items), gen);
    var once := CellSave(db, next, c, parent, Arr(items), gen).value;
    ListReadsBack(db, next, c, parent, items, gen);
    if CellSave(once.db, once.next, c, parent, Arr(items), gen).Ok? {
      ListReadsBack(once.db, once.next, c, parent, items, gen);
    }
  }

  lemma ListIsSatellite(c: Column)
    requires IsList(c)
    ensures c.IsSatellite()
  {}
}
