/** The statements of adapter/erjet/satellite.go: one grouped write of a side table. */
module KeyedSave {
  import opened Values
  import opened Ordering
  import opened SideTables
  import opened Transaction

  lemma PickSnoc(writes: seq<Write>, w: Write, key: string, setting: bool)
    ensures Pick(writes + [w], key, setting) ==
      Pick(writes, key, setting) + (if key in w.patch && (NewText(w.patch[key]) != "") == setting then [w] else [])
  {}

  /** The clears and the sets of one key. */
  method Split(writes: seq<Write>, key: string) returns (toClear: seq<Write>, toSet: seq<Write>)
    ensures toClear == Pick(writes, key, false)
    ensures toSet == Pick(writes, key, true)
  {
    toClear, toSet := [], [];
    for i := 0 to |writes|
      invariant toClear == Pick(writes[..i], key, false)
      invariant toSet == Pick(writes[..i], key, true)
    {
      var w := writes[i];
      assert writes[..i + 1] == writes[..i] + [w];
      PickSnoc(writes[..i], w, key, false);
      PickSnoc(writes[..i], w, key, true);
      if key in w.patch {
        if w.patch[key] == Null || StringOf(w.patch[key]) == "" {
          toClear := toClear + [w];
        } else {
          toSet := toSet + [w];
        }
      }
    }
    assert writes[..|writes|] == writes;
  }

  lemma {:induction false} ClearAllFails(kt: KeyedTable, row: Option<Row>, ws: seq<Write>, i: nat)
    requires i <= |ws| && ClearAll(kt, row, ws[..i]).Err?
    ensures ClearAll(kt, row, ws) == ClearAll(kt, row, ws[..i])
    decreases |ws|
  {
    if i < |ws| {
      assert ws[..|ws| - 1][..i] == ws[..i];
      ClearAllFails(kt, row, ws[..|ws| - 1], i);
    } else {
      assert ws[..i] == ws;
    }
  }

  lemma ClearAllSnoc(kt: KeyedTable, row: Option<Row>, ws: seq<Write>, i: nat)
    requires i < |ws|
    ensures ClearAll(kt, row, ws[..i + 1]) ==
      match ClearAll(kt, row, ws[..i])
      case Err(e) => Err(e)
      case Ok(r) => ClearRow(kt, r, ws[i].col, ws[i].clear)
  {
    assert ws[..i + 1][..i] == ws[..i];
  }

  lemma AtPut(side: Side, parent: string, key: string, row: Option<Row>, again: Option<Row>)
    ensures At(Put(side, parent, key, row), parent, key) == row
    ensures Put(Put(side, parent, key, row), parent, key, again) == Put(side, parent, key, again)
    ensures Put(side, parent, key, At(side, parent, key)) == side
  {}

  /** Every clear of one key, one UPDATE or DELETE each. */
  method ClearKeys(tx: Tx, kt: KeyedTable, place: Place, parent: string, key: string, toClear: seq<Write>) returns (s: Status)
    requires HasPlace(tx.db, place)
    modifies tx
    ensures tx.next == old(tx.next) && old(tx.steps) <= tx.steps
    ensures match s
      case Ok(_) =>
        var r := ClearAll(kt, At(SideAt(old(tx.db), place), parent, key), toClear);
        r.Ok? && tx.db == PutSide(old(tx.db), place, Put(SideAt(old(tx.db), place), parent, key, r.value))
      case Err(e) =>
        ClearAll(kt, At(SideAt(old(tx.db), place), parent, key), toClear) == Err(e) || (e == Unavailable && tx.Faulted(old(tx.steps)))
  {
    ghost var db0, side0 := tx.db, SideAt(tx.db, place);
    ghost var row0 := At(side0, parent, key);
    AtPut(side0, parent, key, row0, row0);
    PutSame(db0, place);
    for i := 0 to |toClear|
      invariant tx.next == old(tx.next) && old(tx.steps) <= tx.steps
      invariant ClearAll(kt, row0, toClear[..i]).Ok?
      invariant tx.db == PutSide(db0, place, Put(side0, parent, key, ClearAll(kt, row0, toClear[..i]).value))
    {
      ghost var r := ClearAll(kt, row0, toClear[..i]).value;
      PutAgain(db0, place, Put(side0, parent, key, r), side0);
      ClearAllSnoc(kt, row0, toClear, i);
      AtPut(side0, parent, key, r, row0);
      s := tx.ClearCell(kt, place, parent, key, toClear[i].col, toClear[i].clear);
      if s.Err? {
        if ClearAll(kt, row0, toClear[..i + 1]).Err? { ClearAllFails(kt, row0, toClear, i + 1); }
        return;
      }
      ghost var r' := ClearAll(kt, row0, toClear[..i + 1]).value;
      AtPut(side0, parent, key, r, r');
      PutAgain(db0, place, Put(side0, parent, key, r), Put(side0, parent, key, r'));
    }
    assert toClear[..|toClear|] == toClear;
    return Ok(());
  }

  method UpsertColumns(writes: seq<Write>, key: string) returns (vals: Row)
    ensures vals == UpsertValues(writes, key)
  {
    vals := map[];
    for i := 0 to |writes|
      invariant vals == UpsertValues(writes[..i], key)
    {
      assert writes[..i + 1][..i] == writes[..i];
      vals := vals[writes[i].col := SqlText(StringAt(writes[i].patch, key))];
    }
    assert writes[..|writes|] == writes;
  }

  /** One key of writeMany: clears, then one upsert with every set column. */
  method WriteOneKey(tx: Tx, kt: KeyedTable, place: Place, parent: string, writes: seq<Write>, key: string) returns (s: Status)
    requires HasPlace(tx.db, place)
    modifies tx
    ensures tx.next == old(tx.next) && old(tx.steps) <= tx.steps
    ensures match s
      case Ok(_) =>
        var r := KeyRow(kt, parent in Parents(old(tx.db), place), At(SideAt(old(tx.db), place), parent, key), writes, key);
        r.Ok? && tx.db == PutSide(old(tx.db), place, Put(SideAt(old(tx.db), place), parent, key, r.value))
      case Err(e) =>
        (e == Unavailable && tx.Faulted(old(tx.steps)))
        || KeyRow(kt, parent in Parents(old(tx.db), place), At(SideAt(old(tx.db), place), parent, key), writes, key) == Err(e)
  {
    ghost var db0, side0 := tx.db, SideAt(tx.db, place);
    ghost var row0 := At(side0, parent, key);
    var toClear, toSet := Split(writes, key);
    s := ClearKeys(tx, kt, place, parent, key, toClear);
    if s.Err? || toSet == [] { return; }
    ghost var r := ClearAll(kt, row0, toClear).value;
    PutAgain(db0, place, Put(side0, parent, key, r), side0);
    AtPut(side0, parent, key, r, row0);
    var vals := UpsertColumns(toSet, key);
    s := tx.UpsertCells(kt, place, parent, key, vals);
    if s.Ok? {
      ghost var r' := UpsertRow(kt, parent in Parents(db0, place), r, vals).value;
      AtPut(side0, parent, key, r, r');
      PutAgain(db0, place, Put(side0, parent, key, r), Put(side0, parent, key, r'));
    }
  }

  lemma {:induction false} WriteKeysFails(kt: KeyedTable, parents: set<string>, side: Side, parent: string, writes: seq<Write>, keys: seq<string>, i: nat)
    requires i <= |keys| && WriteKeys(kt, parents, side, parent, writes, keys[..i]).Err?
    ensures WriteKeys(kt, parents, side, parent, writes, keys) == WriteKeys(kt, parents, side, parent, writes, keys[..i])
    decreases |keys|
  {
    if i < |keys| {
      assert keys[..|keys| - 1][..i] == keys[..i];
      WriteKeysFails(kt, parents, side, parent, writes, keys[..|keys| - 1], i);
    } else {
      assert keys[..i] == keys;
    }
  }

  lemma WriteKeysNext(kt: KeyedTable, parents: set<string>, side: Side, parent: string, writes: seq<Write>, keys: seq<string>, i: nat)
    requires i < |keys| && WriteKeys(kt, parents, side, parent, writes, keys[..i]).Ok?
    ensures WriteKeys(kt, parents, side, parent, writes, keys[..i + 1]) ==
      var done := WriteKeys(kt, parents, side, parent, writes, keys[..i]).value;
      match KeyRow(kt, parent in parents, At(done, parent, keys[i]), writes, keys[i])
      case Err(e) => Err(e)
      case Ok(r) => Ok(Put(done, parent, keys[i], r))
  {
    assert keys[..i + 1][..i] == keys[..i];
  }

  method CollectKeys(writes: seq<Write>) returns (keys: seq<string>)
    ensures keys == SortedKeys(PatchKeys(writes))
  {
    var keySet: set<string> := {};
    for i := 0 to |writes|
      invariant keySet == PatchKeys(writes[..i])
    {
      assert writes[..i + 1] == writes[..i] + [writes[i]];
      assert forall w :: w in writes[..i + 1] <==> w in writes[..i] || w == writes[i];
      keySet := keySet + writes[i].patch.Keys;
    }
    assert writes[..|writes|] == writes;
    keys := SortedKeys(keySet);
  }

  /** KeyedTable.writeMany. */
  method SaveMany(tx: Tx, kt: KeyedTable, place: Place, parent: string, writes: seq<Write>) returns (s: Status)
    requires HasPlace(tx.db, place)
    modifies tx
    ensures tx.next == old(tx.next) && old(tx.steps) <= tx.steps
    ensures match s
      case Ok(_) =>
        var r := WriteMany(kt, Parents(old(tx.db), place), SideAt(old(tx.db), place), parent, writes);
        r.Ok? && tx.db == PutSide(old(tx.db), place, r.value)
      case Err(e) =>
        (e == Unavailable && tx.Faulted(old(tx.steps)))
        || WriteMany(kt, Parents(old(tx.db), place), SideAt(old(tx.db), place), parent, writes) == Err(e)
  {
    ghost var db0, side0, parents := tx.db, SideAt(tx.db, place), Parents(tx.db, place);
    var keys := CollectKeys(writes);
    PutSame(db0, place);
    for i := 0 to |keys|
      invariant tx.next == old(tx.next) && old(tx.steps) <= tx.steps
      invariant WriteKeys(kt, parents, side0, parent, writes, keys[..i]).Ok?
      invariant tx.db == PutSide(db0, place, WriteKeys(kt, parents, side0, parent, writes, keys[..i]).value)
    {
      ghost var done := WriteKeys(kt, parents, side0, parent, writes, keys[..i]).value;
      PutAgain(db0, place, done, side0);
      WriteKeysNext(kt, parents, side0, parent, writes, keys, i);
      s := WriteOneKey(tx, kt, place, parent, writes, keys[i]);
      if s.Err? {
        if WriteKeys(kt, parents, side0, parent, writes, keys[..i + 1]).Err? {
          WriteKeysFails(kt, parents, side0, parent, writes, keys, i + 1);
        }
        return;
      }
      PutAgain(db0, place, done, WriteKeys(kt, parents, side0, parent, writes, keys[..i + 1]).value);
    }
    assert keys[..|keys|] == keys;
    return Ok(());
  }
}
