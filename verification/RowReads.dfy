/** Reading and splitting rows as adapter/erjet/table.go does. */
module RowReads {
  import opened Values
  import opened Columns
  import opened Database
  import opened StoreSpec
  import opened Transaction
  import opened CellStore

  /** Table.Assignments. */
  method PlanFor(cols: seq<Named>, input: map<string, Json>) returns (plan: Plan)
    ensures plan == Assignments(cols, input)
  {
    var assigns: seq<Assign>, changed: seq<string>, newVals: map<string, Json> := [], [], map[];
    for i := 0 to |cols|
      invariant Plan(assigns, changed, newVals) == Assignments(cols[..i], input)
    {
      assert cols[..i + 1][..i] == cols[..i];
      var nc := cols[i];
      var writable, saves := nc.column.Writable(), nc.column.Saves();
      if writable && !nc.column.IsSatellite() && !(saves && nc.name in input && input[nc.name] != Null) {
        if nc.name in input {
          var x := AssignParse(nc.column, input[nc.name]);
          if x.Some? {
            assigns := assigns + [Assign(ColumnName(nc.column), x.value.stored, AdmitOf(nc.column))];
            changed := changed + [nc.name];
            newVals := newVals[nc.name := x.value.echo];
          }
        }
      }
    }
    assert cols[..|cols|] == cols;
    plan := Plan(assigns, changed, newVals);
  }

  /** Table.Deferred. */
  method DeferredFor(cols: seq<Named>, input: map<string, Json>) returns (cells: seq<Named>)
    ensures cells == DeferredCells(cols, input)
  {
    cells := [];
    for i := 0 to |cols|
      invariant cells == DeferredCells(cols[..i], input)
    {
      assert cols[..i + 1][..i] == cols[..i];
      var nc := cols[i];
      if nc.column.Saves() && nc.name in input {
        if !(input[nc.name] == Null && !nc.column.IsSatellite()) { cells := cells + [nc]; }
      }
    }
    assert cols[..|cols|] == cols;
  }

  /** The keys of one half, in the order of the whole. */
  ghost function Picked(t: Table, keys: seq<string>, satellites: bool): seq<string>
    requires forall k :: k in keys ==> k in Names(t.cols)
  {
    if keys == [] then []
    else
      var init, k := keys[..|keys| - 1], keys[|keys| - 1];
      assert forall x :: x in init ==> x in keys;
      Picked(t, init, satellites) + (if Lookup(t.cols, k).value.IsSatellite() == satellites then [k] else [])
  }

  /** Which is: a key stands before another in its half when it does in the whole. */
  lemma {:induction false} PickedInOrder(t: Table, keys: seq<string>, satellites: bool, i: nat, j: nat) returns (a: nat, b: nat)
    requires forall k :: k in keys ==> k in Names(t.cols)
    requires i < j < |Picked(t, keys, satellites)|
    ensures a < b < |keys| && keys[a] == Picked(t, keys, satellites)[i] && keys[b] == Picked(t, keys, satellites)[j]
  {
    var init := keys[..|keys| - 1];
    assert forall x :: x in init ==> x in keys;
    var p := Picked(t, init, satellites);
    if j < |p| {
      a, b := PickedInOrder(t, init, satellites, i, j);
    } else {
      a := PickedAt(t, init, satellites, i);
      b := |init|;
    }
  }

  lemma {:induction false} PickedAt(t: Table, keys: seq<string>, satellites: bool, i: nat) returns (a: nat)
    requires forall k :: k in keys ==> k in Names(t.cols)
    requires i < |Picked(t, keys, satellites)|
    ensures a < |keys| && keys[a] == Picked(t, keys, satellites)[i]
  {
    var init := keys[..|keys| - 1];
    assert forall x :: x in init ==> x in keys;
    if i < |Picked(t, init, satellites)| { a := PickedAt(t, init, satellites, i); } else { a := |init|; }
  }

  /** And every key is in one half, the one its cell belongs to. */
  lemma {:induction false} PickedMembers(t: Table, keys: seq<string>, satellites: bool, k: string)
    requires forall x :: x in keys ==> x in Names(t.cols)
    ensures k in Picked(t, keys, satellites) <==> k in keys && Lookup(t.cols, k).value.IsSatellite() == satellites
  {
    if keys != [] {
      var init := keys[..|keys| - 1];
      assert keys == init + [keys[|keys| - 1]];
      PickedMembers(t, init, satellites, k);
    }
  }

  lemma PickedNext(t: Table, keys: seq<string>, i: nat, satellites: bool)
    requires i < |keys| && forall x :: x in keys ==> x in Names(t.cols)
    ensures keys[i] in Names(t.cols) && (forall x :: x in keys[..i] ==> x in Names(t.cols)) && (forall x :: x in keys[..i + 1] ==> x in Names(t.cols))
    ensures Picked(t, keys[..i + 1], satellites)
         == Picked(t, keys[..i], satellites) + (if Lookup(t.cols, keys[i]).value.IsSatellite() == satellites then [keys[i]] else [])
  {
    assert keys[i] in keys;
    assert keys[..i + 1][..i] == keys[..i];
  }

  /** Table.split over declared keys: columns and satellites, each in key order. */
  method Split(t: Table, keys: seq<string>) returns (cols: seq<string>, sats: seq<string>)
    requires forall k :: k in keys ==> k in Names(t.cols)
    ensures cols == Picked(t, keys, false) && sats == Picked(t, keys, true)
    ensures forall k :: k in cols <==> k in keys && !Lookup(t.cols, k).value.IsSatellite()
    ensures forall k :: k in sats <==> k in keys && Lookup(t.cols, k).value.IsSatellite()
  {
    cols, sats := [], [];
    for i := 0 to |keys|
      invariant forall x :: x in keys[..i] ==> x in Names(t.cols)
      invariant cols == Picked(t, keys[..i], false) && sats == Picked(t, keys[..i], true)
    {
      PickedNext(t, keys, i, false);
      PickedNext(t, keys, i, true);
      var c := Lookup(t.cols, keys[i]).value;
      if c.IsSatellite() { sats := sats + [keys[i]]; } else { cols := cols + [keys[i]]; }
    }
    assert keys[..|keys|] == keys;
    forall k
      ensures k in cols <==> k in keys && !Lookup(t.cols, k).value.IsSatellite()
      ensures k in sats <==> k in keys && Lookup(t.cols, k).value.IsSatellite()
    {
      PickedMembers(t, keys, false, k);
      PickedMembers(t, keys, true, k);
    }
  }

  /** Table.rowCols: one SELECT. No keys and a satellite key are the caller's errors. */
  method RowCols(tx: Tx, t: Table, keys: seq<string>, id: string) returns (r: Result<Option<map<string, Json>>>)
    requires CellsOk(t.cols)
    requires keys != [] && forall k :: k in keys ==> k in Names(t.cols) && !Lookup(t.cols, k).value.IsSatellite()
    modifies tx`steps
    ensures old(tx.steps) <= tx.steps
    ensures match r
      case Ok(None) => id !in tx.db.main
      case Ok(Some(m)) => id in tx.db.main && m == RowOf(t, tx.db, id, keys)
      case Err(e) => e == Unavailable && tx.Faulted(old(tx.steps))
  {
    var ok := tx.Send();
    if !ok { return Err(Unavailable); }
    if id !in tx.db.main { return Ok(None); }
    var out: map<string, Json> := map[];
    for i := 0 to |keys|
      invariant old(tx.steps) <= tx.steps
      invariant out == RowOf(t, tx.db, id, keys[..i])
    {
      assert keys[i] in keys;
      var c := Lookup(t.cols, keys[i]).value;
      RowOfNext(t, tx.db, id, keys[..i], keys[i]);
      assert keys[..i + 1] == keys[..i] + [keys[i]];
      out := out[keys[i] := FieldValue(t, tx.db, id, c)];
    }
    assert keys[..|keys|] == keys;
    return Ok(Some(out));
  }

  /** The load closure of a satellite. */
  method LoadCell(tx: Tx, c: Column, parent: string) returns (r: Result<Json>)
    requires CellOk(c)
    modifies tx`steps
    ensures old(tx.steps) <= tx.steps
    ensures match r
      case Ok(v) => v == CellLoad(tx.db, c, parent)
      case Err(e) => e == Unavailable && tx.Faulted(old(tx.steps))
    decreases c
  {
    match c
    case Child(ct, shape) => r := LoadChild(tx, ct, shape, parent);
    case DeferredList(list, _) => r := LoadCell(tx, list, parent);
    case KeyedStrings(_, _, _) =>
      var ok := tx.Send();
      r := if ok then Ok(CellLoad(tx.db, c, parent)) else Err(Unavailable);
    case Rels(_, _, _) =>
      var ok := tx.Send();
      r := if ok then Ok(CellLoad(tx.db, c, parent)) else Err(Unavailable);
    case ReadOnly(_, _) => r := Ok(Null);
    case Scalar(_, _, _, _) => r := Ok(Null);
    case Deferred(_, _, _) => r := Ok(Null);
  }

  /** Table.Exists. */
  method Exists(tx: Tx, id: string) returns (r: Result<bool>)
    modifies tx`steps
    ensures old(tx.steps) <= tx.steps
    ensures match r
      case Ok(found) => found <==> id in tx.db.main
      case Err(e) => e == Unavailable && tx.Faulted(old(tx.steps))
  {
    var ok := tx.Send();
    if !ok { return Err(Unavailable); }
    return Ok(id in tx.db.main);
  }

  lemma SatelliteField(t: Table, db: Db, id: string, c: Column)
    requires CellOk(c) && c.IsSatellite()
    ensures FieldValue(t, db, id, c) == CellLoad(db, c, id)
  {}

  /** The satellites of a row, each in a query of its own, on top of its columns. */
  method ReadSatellites(tx: Tx, t: Table, cols: seq<string>, sats: seq<string>, id: string, row: map<string, Json>) returns (r: Result<map<string, Json>>)
    requires CellsOk(t.cols)
    requires forall k :: k in cols + sats ==> k in Names(t.cols)
    requires forall k :: k in sats ==> Lookup(t.cols, k).value.IsSatellite()
    requires row == RowOf(t, tx.db, id, cols)
    modifies tx`steps
    ensures old(tx.steps) <= tx.steps
    ensures match r
      case Ok(m) => m == RowOf(t, tx.db, id, cols + sats)
      case Err(e) => e == Unavailable && tx.Faulted(old(tx.steps))
  {
    var out := row;
    assert cols + sats[..0] == cols;
    for i := 0 to |sats|
      invariant old(tx.steps) <= tx.steps
      invariant out == RowOf(t, tx.db, id, cols + sats[..i])
    {
      assert sats[i] in sats && sats[i] in cols + sats;
      var c := Lookup(t.cols, sats[i]).value;
      var v := LoadCell(tx, c, id);
      if v.Err? { return Err(v.error); }
      SatelliteField(t, tx.db, id, c);
      RowOfNext(t, tx.db, id, cols + sats[..i], sats[i]);
      assert cols + sats[..i] + [sats[i]] == cols + sats[..i + 1];
      out := out[sats[i] := v.value];
    }
    assert sats[..|sats|] == sats;
    return Ok(out);
  }

  /** Table.Row: columns in one query, satellites each in their own; no row is told
      apart from a row without values. */
  method ReadRow(tx: Tx, t: Table, keys: seq<string>, id: string) returns (r: Result<Option<map<string, Json>>>)
    requires CellsOk(t.cols)
    requires keys != [] && forall k :: k in keys ==> k in Names(t.cols)
    modifies tx`steps
    ensures old(tx.steps) <= tx.steps
    ensures match r
      case Ok(None) => id !in tx.db.main
      case Ok(Some(m)) => id in tx.db.main && m == RowOf(t, tx.db, id, keys)
      case Err(e) => e == Unavailable && tx.Faulted(old(tx.steps))
  {
    var cols, sats := Split(t, keys);
    var out: map<string, Json> := map[];
    if cols != [] {
      r := RowCols(tx, t, cols, id);
      if r.Err? || r.value.None? { return; }
      out := r.value.value;
    } else {
      var found := Exists(tx, id);
      if found.Err? { return Err(found.error); }
      if !found.value { return Ok(None); }
      NoKeys(t, tx.db, id);
    }
    var all := ReadSatellites(tx, t, cols, sats, id, out);
    if all.Err? { return Err(all.error); }
    SameKeysSameRow(t, tx.db, id, cols + sats, keys);
    return Ok(Some(all.value));
  }

  lemma NoKeys(t: Table, db: Db, id: string)
    requires CellsOk(t.cols)
    ensures RowOf(t, db, id, []) == map[]
  {}

  lemma RowOfNext(t: Table, db: Db, id: string, keys: seq<string>, key: string)
    requires CellsOk(t.cols) && key in Names(t.cols)
    ensures RowOf(t, db, id, keys + [key]) == RowOf(t, db, id, keys)[key := FieldValue(t, db, id, Lookup(t.cols, key).value)]
  {}

  lemma SameKeysSameRow(t: Table, db: Db, id: string, a: seq<string>, b: seq<string>)
    requires CellsOk(t.cols) && forall k :: k in a <==> k in b
    ensures RowOf(t, db, id, a) == RowOf(t, db, id, b)
  {}
}
