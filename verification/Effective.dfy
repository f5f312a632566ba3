/** The state an update is validated against (validate/write.go) is the state a read
    gives after the save. */
module Effective {
  import opened Values
  import opened Ordering
  import opened SideTables
  import opened KeyedLaws
  import opened Columns
  import opened ChildTables
  import opened ChildLists
  import opened ListLaws
  import opened RelsTables
  import opened Database
  import opened CellLaws
  import opened StoreSpec
  import opened PlanLaws
  import opened GroupLaws
  import opened StoreLaws
  import opened UpdateTruth

  // --- the overlay -------------------------------------------------------------------------

  /** One submitted field over the current row: a keyed field merges one level, any
      other value replaces. */
  function OverlayField(keyed: set<string>, current: map<string, Json>, name: string, v: Json): Json {
    if name in keyed && name in current && current[name].Obj? && v.Obj? then Obj(current[name].fields + v.fields) else v
  }

  function Overlaid(keyed: set<string>, current: map<string, Json>, input: map<string, Json>): map<string, Json> {
    map n | n in current.Keys + input.Keys :: if n in input then OverlayField(keyed, current, n, input[n]) else current[n]
  }

  /** Field by field: what was not submitted is as it is now, and a submitted value takes
      the place of the current one, for a keyed field entry by entry. */
  lemma OverlaidMeans(keyed: set<string>, current: map<string, Json>, input: map<string, Json>, n: string)
    ensures n in Overlaid(keyed, current, input) <==> n in current || n in input
    ensures n in current && n !in input ==> Overlaid(keyed, current, input)[n] == current[n]
    ensures n in input && !(n in keyed && n in current && current[n].Obj? && input[n].Obj?) ==> Overlaid(keyed, current, input)[n] == input[n]
    ensures n in input && n in keyed && n in current && current[n].Obj? && input[n].Obj? ==>
      var w := Overlaid(keyed, current, input)[n];
      && w.Obj?
      && (forall k :: k in w.fields <==> k in current[n].fields || k in input[n].fields)
      && (forall k :: k in input[n].fields ==> w.fields[k] == input[n].fields[k])
      && (forall k :: k in current[n].fields && k !in input[n].fields ==> w.fields[k] == current[n].fields[k])
  {}

  /** The loop of Write over the submitted keys, in any order. */
  method BuildOverlay(keyed: set<string>, current: map<string, Json>, input: map<string, Json>) returns (data: map<string, Json>)
    ensures data == Overlaid(keyed, current, input)
  {
    data := current;
    var rest, done: set<string> := input.Keys, {};
    while rest != {}
      invariant done !! rest && done + rest == input.Keys
      invariant data.Keys == current.Keys + done
      invariant forall n :: n in done ==> data[n] == OverlayField(keyed, current, n, input[n])
      invariant forall n :: n in current && n !in done ==> data[n] == current[n]
    {
      var name :| name in rest;
      var v := input[name];
      if name in keyed && name in current && current[name].Obj? && v.Obj? {
        v := Obj(current[name].fields + v.fields);
      }
      assert v == OverlayField(keyed, current, name, input[name]);
      data := data[name := v];
      done, rest := done + {name}, rest - {name};
    }
  }

  // --- what a payload leaves -----------------------------------------------------------------

  /** Wire kind keyed. */
  predicate Keyed(c: Column) { c.KeyedStrings? || (c.Child? && c.ct.partitioned) }

  function KeyedNames(cols: seq<Named>): set<string> {
    set i | 0 <= i < |cols| && Keyed(cols[i].column) :: cols[i].name
  }

  /** What a read leaves out of a keyed field. */
  predicate Blank(v: Json) { v == Null || v == Str("") || v == Arr([]) }

  function Dense(m: map<string, Json>): map<string, Json> {
    map k | k in m && !Blank(m[k]) :: m[k]
  }

  function Settled(c: Column, v: Json): Json {
    if Keyed(c) && v.Obj? then Obj(Dense(v.fields)) else v
  }

  /** The cell takes this value and reads as sent: its parse, its resolver and the
      server's image of it leave it as it is. */
  ghost predicate AcceptsAsIs(c: Column, parent: string, v: Json)
    requires CellOk(c)
  {
    match c
    case ReadOnly(_, _) => false
    case Scalar(_, parse, _, _) => parse(v).Some? && ReadAs(c, v) == v
    case Deferred(_, resolve, _) => (v == Null || resolve(parent, v) == Ok(v)) && HonestField(c, parent, v)
    case KeyedStrings(_, col, clear) =>
      && v.Obj? && "" !in v.fields && (forall k :: k in v.fields ==> v.fields[k] == Null || v.fields[k].Str?)
      && Erases(Write(col, clear, v.fields))
    case Child(ct, Rows(_)) => false
    case Child(ct, Values(elem)) =>
      if ct.partitioned then v.Obj? && forall k :: k in v.fields ==> k != "" && v.fields[k].Arr? && AsIs(elem, v.fields[k].items)
         else v.Arr? && AsIs(elem, v.items)
    case Rels(rels, _, _) => v.Arr? && Strings(IdSlice(v.items)) == v.items && OwnImages(rels.cast, IdSlice(v.items))
    case DeferredList(list, resolve) => v.Arr? && ResolveAll(resolve, parent, v.items) == Ok(v.items) && AcceptsAsIs(list, parent, v)
  }

  // --- one cell ---------------------------------------------------------------------------

  lemma KeyedMerge(before: map<string, string>, patch: map<string, Json>)
    requires forall k :: k in before ==> k != "" && before[k] != ""
    requires "" !in patch && forall k :: k in patch ==> patch[k] == Null || patch[k].Str?
    ensures Texts(Overlay(before, patch)) == Obj(Dense(Texts(before).fields + patch))
  {
    var merged := Texts(before).fields + patch;
    forall k
      ensures k in Texts(Overlay(before, patch)).fields <==> k in Dense(merged)
      ensures k in Dense(merged) ==> Texts(Overlay(before, patch)).fields[k] == Dense(merged)[k]
    {
      KeyMerge(before, patch, k);
    }
    assert Texts(Overlay(before, patch)).fields == Dense(merged);
  }

  lemma KeyMerge(before: map<string, string>, patch: map<string, Json>, k: string)
    requires forall n :: n in before ==> n != "" && before[n] != ""
    requires "" !in patch && forall n :: n in patch ==> patch[n] == Null || patch[n].Str?
    ensures var merged := Texts(before).fields + patch;
      && (k in Texts(Overlay(before, patch)).fields <==> k in Dense(merged))
      && (k in Dense(merged) ==> Texts(Overlay(before, patch)).fields[k] == Dense(merged)[k])
  {
    OverlayAt(before, patch, k);
  }

  lemma ReadDense(side: Side, parent: string, col: string)
    ensures forall k :: k in Read(side, parent, col) ==> k != "" && Read(side, parent, col)[k] != ""
  {}

  lemma {:induction false} PartsDense(ct: ChildTable, shape: Shape, d: ChildDb, parent: string)
    requires ShapeOk(ct, shape) && ct.partitioned
    ensures var parts := LoadParts(ct, shape, d, parent, PartitionKeys(d.rows, parent));
      forall k :: k in parts ==> k != "" && parts[k].Arr? && parts[k] != Arr([])
  {
    forall k | k in PartitionKeys(d.rows, parent) ensures k != "" && ReadPartition(ct, shape, d, parent, k) != [] {
      PartitionSelected(ct, d.rows, parent, k);
    }
  }

  lemma DenseAlready(m: map<string, Json>)
    requires forall k :: k in m ==> !Blank(m[k])
    ensures Dense(m) == m
  {}

  /** A keyed field as it is read holds no blank entries. */
  lemma LoadedSettles(db: Db, c: Column, parent: string)
    requires CellOk(c)
    ensures Settled(c, CellLoad(db, c, parent)) == CellLoad(db, c, parent)
    ensures Keyed(c) ==> CellLoad(db, c, parent).Obj?
  {
    if c.KeyedStrings? {
      var m := Read(SideOf(db, c.side.name), parent, c.col);
      ReadDense(SideOf(db, c.side.name), parent, c.col);
      DenseAlready(Texts(m).fields);
    } else if Keyed(c) {
      PartsDense(c.ct, c.shape, ChildOf(db, c.ct.name), parent);
      DenseAlready(LoadParts(c.ct, c.shape, ChildOf(db, c.ct.name), parent, PartitionKeys(ChildOf(db, c.ct.name).rows, parent)));
    }
  }

  lemma PartsRead(ct: ChildTable, elem: Column, gen: IdSource, st: ChildState, parent: string, patch: map<string, Json>, k: string)
    requires elem.Scalar? && ct.partitioned && k != ""
    requires Unissued(gen, st.next, st.db.rows) && NestedKeys(st.db)
    requires forall n :: n in patch ==> n != "" && patch[n].Arr? && AsIs(elem, patch[n].items)
    requires WriteParts(ct, Values(elem), st, parent, patch, SortedKeys(patch.Keys), gen).Ok?
    ensures var out := WriteParts(ct, Values(elem), st, parent, patch, SortedKeys(patch.Keys), gen).value;
      ReadPartition(ct, Values(elem), out.db, parent, k) == if k in patch then patch[k].items else ReadPartition(ct, Values(elem), st.db, parent, k)
  {
    var keys := SortedKeys(patch.Keys);
    if k in patch {
      assert k in Elems(keys);
      KeyedValuesReadBack(ct, elem, gen, st, parent, patch, keys, k);
      ReadsAsIs(elem, patch[k].items);
    } else {
      assert k !in Elems(keys);
      WritePartsLaw(ct, Values(elem), gen, st, parent, patch, keys);
    }
  }

  lemma PartHasRows(ct: ChildTable, shape: Shape, d: ChildDb, parent: string, k: string)
    requires ShapeOk(ct, shape) && ct.partitioned && k != ""
    ensures k in PartitionKeys(d.rows, parent) <==> ReadPartition(ct, shape, d, parent, k) != []
  {
    PartitionSelected(ct, d.rows, parent, k);
  }

  /** All partitions of a parent, as a keyed read lists them. */
  function Parts(ct: ChildTable, shape: Shape, d: ChildDb, parent: string): (m: map<string, Json>)
    requires ShapeOk(ct, shape)
  {
    LoadParts(ct, shape, d, parent, PartitionKeys(d.rows, parent))
  }

  lemma {:induction false} PartAt(ct: ChildTable, shape: Shape, d: ChildDb, parent: string, k: string, list: seq<Json>)
    requires ShapeOk(ct, shape) && ct.partitioned && k != ""
    requires list == ReadPartition(ct, shape, d, parent, k)
    ensures k in Parts(ct, shape, d, parent) <==> list != []
    ensures k in Parts(ct, shape, d, parent) ==> Parts(ct, shape, d, parent)[k] == Arr(list)
  {
    PartHasRows(ct, shape, d, parent, k);
  }

  lemma MergedParts(before: map<string, Json>, patch: map<string, Json>, after: map<string, Json>)
    requires forall k :: k in patch ==> k != "" && patch[k].Arr?
    requires forall k :: k in before ==> k != "" && before[k].Arr? && before[k] != Arr([])
    requires "" !in after
    requires forall k :: k in patch ==> (k in after <==> patch[k] != Arr([]))
    requires forall k :: k in patch && k in after ==> after[k] == patch[k]
    requires forall k :: k !in patch ==> (k in after <==> k in before)
    requires forall k :: k !in patch && k in after && k in before ==> after[k] == before[k]
    ensures after == Dense(before + patch)
  {}

  lemma PartsMerge(ct: ChildTable, shape: Shape, d: ChildDb, e: ChildDb, parent: string, patch: map<string, Json>)
    requires ShapeOk(ct, shape) && ct.partitioned
    requires forall n :: n in patch ==> n != "" && patch[n].Arr?
    requires forall k :: k != "" ==>
      ReadPartition(ct, shape, e, parent, k) == if k in patch then patch[k].items else ReadPartition(ct, shape, d, parent, k)
    ensures Parts(ct, shape, e, parent) == Dense(Parts(ct, shape, d, parent) + patch)
  {
    var before, after := Parts(ct, shape, d, parent), Parts(ct, shape, e, parent);
    PartsDense(ct, shape, d, parent);
    PartsDense(ct, shape, e, parent);
    forall k | k != ""
      ensures k in patch ==> (k in after <==> patch[k] != Arr([])) && (k in after ==> after[k] == patch[k])
      ensures k !in patch ==> (k in after <==> k in before) && (k in after ==> after[k] == before[k])
    {
      PartAt(ct, shape, e, parent, k, ReadPartition(ct, shape, e, parent, k));
      PartAt(ct, shape, d, parent, k, ReadPartition(ct, shape, d, parent, k));
    }
    MergedParts(before, patch, after);
  }

  lemma ChildEffect(db: Db, next: nat, c: Column, parent: string, v: Json, gen: IdSource)
    requires c.Child? && CellOk(c) && AcceptsAsIs(c, parent, v) && Sound(db, gen, next)
    requires SaveChild(db, next, c.ct, c.shape, parent, v, gen).Ok?
    ensures CellLoad(SaveChild(db, next, c.ct, c.shape, parent, v, gen).value.db, c, parent)
         == if Keyed(c) then Obj(Dense(CellLoad(db, c, parent).fields + v.fields)) else v
  {
    var st, elem := ChildState(ChildOf(db, c.ct.name), next), c.shape.elem;
    ChildSound(db, gen, next, c.ct.name);
    if c.ct.partitioned {
      var out := WriteParts(c.ct, c.shape, st, parent, v.fields, SortedKeys(v.fields.Keys), gen).value;
      forall k | k != ""
        ensures ReadPartition(c.ct, c.shape, out.db, parent, k) == if k in v.fields then v.fields[k].items else ReadPartition(c.ct, c.shape, st.db, parent, k)
      {
        PartsRead(c.ct, elem, gen, st, parent, v.fields, k);
      }
      PartsMerge(c.ct, c.shape, st.db, out.db, parent, v.fields);
    } else {
      ReplaceReadsBack(c.ct, elem, st.db, parent, "", v.items, gen, next);
      ReadsAsIs(elem, v.items);
    }
  }

  /** What a satellite reads as after its own save. */
  lemma {:induction false} CellEffect(db: Db, next: nat, c: Column, parent: string, v: Json, gen: IdSource)
    requires CellOk(c) && c.IsSatellite() && Sound(db, gen, next)
    requires AcceptsAsIs(c, parent, v) && !c.KeyedStrings?
    requires CellSave(db, next, c, parent, v, gen).Ok?
    ensures CellLoad(CellSave(db, next, c, parent, v, gen).value.db, c, parent)
         == if Keyed(c) then Obj(Dense(CellLoad(db, c, parent).fields + v.fields)) else v
    decreases c
  {
    match c
    case Child(_, _) => ChildEffect(db, next, c, parent, v, gen);
    case Rels(rels, path, target) =>
      IdSliceOrdered(v.items);
      RelsTruth(db, next, c, parent, v);
    case DeferredList(list, resolve) => CellEffect(db, next, list, parent, v, gen);
  }

  // --- the whole row ------------------------------------------------------------------------

  ghost predicate Faithful(cells: seq<Named>, id: string, input: map<string, Json>)
    requires CellsOk(cells)
  {
    forall nc :: nc in cells && nc.name in input ==> AcceptsAsIs(nc.column, id, input[nc.name])
  }

  /** A submitted satellite after the groups, the second phase and the second UPDATE. */
  lemma FinishEffect(start: Second, id: string, cells: seq<Named>, input: map<string, Json>, clock: Clock, gen: IdSource, f: Second, nc: Named)
    requires StartOk(start, cells, input, gen) && Separate(cells) && Faithful(cells, id, input)
    requires Finish(start, id, cells, input, clock, gen) == Ok(f)
    requires nc in cells && nc.column.IsSatellite()
    ensures CellLoad(start.db, nc.column, id).Obj? || !Keyed(nc.column)
    ensures CellLoad(f.db, nc.column, id)
         == if Keyed(nc.column) then Obj(Dense(CellLoad(start.db, nc.column, id).fields + input[nc.name].fields)) else input[nc.name]
  {
    LoadedSettles(start.db, nc.column, id);
    GroupTablesDistinct(cells, input);
    WriteGroupsSound(start.db, id, cells, input, GroupTables(cells, input));
    var grouped := WriteGroups(start.db, id, cells, input, GroupTables(cells, input)).value;
    GroupedStart(start, id, cells, input, gen, grouped);
    var x := SecondPhaseSaves(start.(db := grouped), id, cells, input, gen, nc);
    SameLoad(grouped, x.db, nc.column, id);
    MainOnly(SecondPhase(start.(db := grouped), id, cells, input, gen).value.db, f.db, nc.column, id);
    if nc.column.KeyedStrings? {
      GroupsOverlay(start.db, id, cells, input, grouped, nc);
      ReadDense(SideOf(start.db, nc.column.side.name), id, nc.column.col);
      KeyedMerge(Read(SideOf(start.db, nc.column.side.name), id, nc.column.col), input[nc.name].fields);
    } else {
      forall d | d in cells && Handled(d, input) ensures !Touches(d.column, StorageOf(nc.column)) {
        SeparatePair(cells, d, nc);
      }
      GroupsIsolated(start.db, id, cells, input, grouped, StorageOf(nc.column), id);
      SameLoad(start.db, grouped, nc.column, id);
      CellEffect(x.db, x.next, nc.column, id, input[nc.name], gen);
    }
  }

  /** A field that was not sent is not recorded. */
  lemma {:induction false} UnsentStays(t: Table, clock: Clock, db: Db, next: nat, id: string, input: map<string, Json>, gen: IdSource, grouped: Db, s: Second, f: Second, nc: Named)
    requires TableOk(t, clock)
    requires Updated(t, clock, db, next, id, input, gen, grouped, s, f)
    requires nc in t.cols && nc.name !in input && !IsTouch(clock, nc)
    ensures FieldValue(t, f.db, id, nc.column) == FieldValue(t, db, id, nc.column)
  {
    DeferredOk(t.cols, input);
    PlanAt(t.cols, input, nc);
    forall d | d in DeferredCells(t.cols, input) ensures d.name != nc.name {}
    AllTruth(t, clock, db, next, id, input, gen, grouped, s, f, nc);
  }

  /** A value its first-phase cell accepts as it is, is planned. */
  lemma AcceptedIsPlanned(nc: Named, id: string, input: map<string, Json>)
    requires CellOk(nc.column) && nc.name in input && !nc.column.IsSatellite() && !InSecond(nc, input)
    requires AcceptsAsIs(nc.column, id, input[nc.name])
    ensures Planned(nc, input)
    ensures nc.column.Deferred? ==> input[nc.name] == Null
  {}

  /** A column of the row holds what was sent. */
  lemma {:induction false} SentColumn(t: Table, clock: Clock, db: Db, next: nat, id: string, input: map<string, Json>, gen: IdSource, grouped: Db, s: Second, f: Second, nc: Named)
    requires TableOk(t, clock)
    requires Updated(t, clock, db, next, id, input, gen, grouped, s, f)
    requires nc in t.cols && nc.name in input && !IsTouch(clock, nc)
    requires !nc.column.IsSatellite() && AcceptsAsIs(nc.column, id, input[nc.name])
    ensures FieldValue(t, f.db, id, nc.column) == input[nc.name]
  {
    if InSecond(nc, input) {
      SentDeferred(t, clock, db, next, id, input, gen, grouped, s, f, nc);
    } else {
      AcceptedIsPlanned(nc, id, input);
      ColumnAfter(t, clock, db, next, id, input, gen, grouped, s, f, nc);
      ColumnReads(t, clock, db, f.db, id, input, nc);
    }
  }

  lemma SentDeferred(t: Table, clock: Clock, db: Db, next: nat, id: string, input: map<string, Json>, gen: IdSource, grouped: Db, s: Second, f: Second, nc: Named)
    requires TableOk(t, clock)
    requires Updated(t, clock, db, next, id, input, gen, grouped, s, f)
    requires nc in t.cols && nc.column.Deferred? && InSecond(nc, input) && AcceptsAsIs(nc.column, id, input[nc.name])
    ensures FieldValue(t, f.db, id, nc.column) == input[nc.name]
  {
    DeferredAfter(t, clock, db, next, id, input, gen, grouped, s, f, nc);
    DeferredTruth(t, clock, db, next, id, input, gen, grouped, s, f, nc);
  }

  lemma SentSatellite(t: Table, clock: Clock, db: Db, next: nat, id: string, input: map<string, Json>, gen: IdSource, f: Second, nc: Named)
    requires TableOk(t, clock) && Sound(db, gen, next) && id in db.main
    requires Faithful(t.cols, id, input)
    requires FinishedAs(t, clock, db, next, id, input, gen, f)
    requires nc in t.cols && nc.name in input && nc.column.IsSatellite()
    ensures CellLoad(db, nc.column, id).Obj? || !Keyed(nc.column)
    ensures CellLoad(f.db, nc.column, id)
         == if Keyed(nc.column) then Obj(Dense(CellLoad(db, nc.column, id).fields + input[nc.name].fields)) else input[nc.name]
  {
    DeferredOk(t.cols, input);
    DeferredDistinct(t.cols, input);
    var cells, db1 := DeferredCells(t.cols, input), UpdateIfAny(db, id, Assignments(t.cols, input).assigns, clock).value;
    UpdateRow(db, id, Assignments(t.cols, input).assigns, clock);
    UpdateStartOk(t, clock, db1, next, input, gen);
    FinishEffect(UpdateStart(t, clock, db1, next, input), id, cells, input, clock, gen, f, nc);
    MainOnly(db, db1, nc.column, id);
  }

  lemma KeyedName(cols: seq<Named>, nc: Named)
    requires DistinctNames(cols) && nc in cols
    ensures nc.name in KeyedNames(cols) <==> Keyed(nc.column)
  {}

  /** The validated value of one field, once a read drops its blank entries. */
  function Validated(t: Table, before: map<string, Json>, input: map<string, Json>, nc: Named): Json
    requires nc.name in before
  {
    Settled(nc.column, Overlaid(KeyedNames(t.cols), before, input)[nc.name])
  }

  lemma FieldIsValidated(t: Table, clock: Clock, db: Db, next: nat, id: string, input: map<string, Json>, gen: IdSource, grouped: Db, s: Second, f: Second, nc: Named)
    requires TableOk(t, clock) && Sound(db, gen, next) && id in db.main
    requires Faithful(t.cols, id, input)
    requires Updated(t, clock, db, next, id, input, gen, grouped, s, f)
    requires FinishedAs(t, clock, db, next, id, input, gen, f)
    requires nc in t.cols && !IsTouch(clock, nc)
    ensures nc.name in Load(t, db, id).value
    ensures FieldValue(t, f.db, id, nc.column) == Validated(t, Load(t, db, id).value, input, nc)
  {
    LoadAtField(t, clock, db, id, nc);
    KeyedName(t.cols, nc);
    if nc.column.IsSatellite() { LoadedSettles(db, nc.column, id); }
    if nc.name !in input {
      UnsentStays(t, clock, db, next, id, input, gen, grouped, s, f, nc);
    } else if nc.column.IsSatellite() {
      SentSatellite(t, clock, db, next, id, input, gen, f, nc);
    } else {
      SentColumn(t, clock, db, next, id, input, gen, grouped, s, f, nc);
    }
  }

  /** A payload whose cells accept it as it is always has something to write. */
  lemma NothingSent(t: Table, clock: Clock, id: string, input: map<string, Json>, nc: Named)
    requires TableOk(t, clock) && Faithful(t.cols, id, input)
    requires Assignments(t.cols, input).assigns == [] && DeferredCells(t.cols, input) == []
    requires nc in t.cols
    ensures nc.name !in input
  {
    DeferredOk(t.cols, input);
    PlanAt(t.cols, input, nc);
    PlanNames(t.cols, input, nc.name);
    assert nc !in DeferredCells(t.cols, input);
  }

  /** A field loads after the save as it was validated. */
  ghost predicate LoadsValidated(t: Table, db: Db, after: Db, id: string, input: map<string, Json>, nc: Named)
    requires CellsOk(t.cols)
  {
    && Load(t, db, id).Some? && Load(t, after, id).Some?
    && nc.name in Load(t, db, id).value && nc.name in Load(t, after, id).value
    && Load(t, after, id).value[nc.name] == Validated(t, Load(t, db, id).value, input, nc)
  }

  lemma WrittenValidated(t: Table, clock: Clock, db: Db, next: nat, id: string, input: map<string, Json>, gen: IdSource, grouped: Db, s: Second, f: Second, nc: Named)
    requires TableOk(t, clock) && Sound(db, gen, next) && Faithful(t.cols, id, input)
    requires Updated(t, clock, db, next, id, input, gen, grouped, s, f)
    requires FinishedAs(t, clock, db, next, id, input, gen, f)
    requires nc in t.cols && !IsTouch(clock, nc)
    ensures LoadsValidated(t, db, f.db, id, input, nc)
  {
    RowTwiceExists(t, clock, db, next, id, input, gen, grouped, s, f);
    FieldIsValidated(t, clock, db, next, id, input, gen, grouped, s, f, nc);
    LoadAtField(t, clock, db, id, nc);
    LoadAtField(t, clock, f.db, id, nc);
  }

  lemma IdleValidated(t: Table, clock: Clock, db: Db, id: string, input: map<string, Json>, nc: Named)
    requires TableOk(t, clock) && Faithful(t.cols, id, input) && id in db.main && nc in t.cols
    requires Assignments(t.cols, input).assigns == [] && DeferredCells(t.cols, input) == []
    ensures LoadsValidated(t, db, db, id, input, nc)
  {
    NothingSent(t, clock, id, input, nc);
    LoadAtField(t, clock, db, id, nc);
    if nc.column.IsSatellite() { LoadedSettles(db, nc.column, id); }
  }

  /** The effective state an update is validated against is the state Load gives after
      it, field by field, once blank keyed entries are dropped. */
  lemma EffectiveIsLoaded(t: Table, clock: Clock, render: Render, db: Db, next: nat, id: string, input: map<string, Json>, gen: IdSource)
    requires TableOk(t, clock) && Sound(db, gen, next)
    requires Faithful(t.cols, id, input)
    requires SaveUpdate(t, clock, render, db, next, id, input, gen).Ok?
    ensures var out := SaveUpdate(t, clock, render, db, next, id, input, gen).value;
      && Load(t, db, id).Some? && Load(t, out.db, id).Some?
      && forall nc :: nc in t.cols && !IsTouch(clock, nc) ==> LoadsValidated(t, db, out.db, id, input, nc)
  {
    var out := SaveUpdate(t, clock, render, db, next, id, input, gen).value;
    if out.report.Some? {
      var grouped, s, f := UpdateSteps(t, clock, render, db, next, id, input, gen);
      RowTwiceExists(t, clock, db, next, id, input, gen, grouped, s, f);
      forall nc | nc in t.cols && !IsTouch(clock, nc) ensures LoadsValidated(t, db, out.db, id, input, nc) {
        WrittenValidated(t, clock, db, next, id, input, gen, grouped, s, f, nc);
      }
    } else {
      forall nc | nc in t.cols ensures LoadsValidated(t, db, out.db, id, input, nc) {
        IdleValidated(t, clock, db, id, input, nc);
      }
    }
  }
}
