/** What saving side-table cells means, and that one grouped write agrees with
    saving the cells one at a time. */
module KeyedLaws {
  import opened Values
  import opened Ordering
  import opened SideTables

  // --- one row ---------------------------------------------------------------------

  /** Saving the cells one at a time, seen from one row. */
  function RowOneByOne(kt: KeyedTable, parentExists: bool, row: Option<Row>, writes: seq<Write>, key: string): Result<Option<Row>> {
    if writes == [] then Ok(row)
    else
      match RowOneByOne(kt, parentExists, row, writes[..|writes| - 1], key)
      case Err(e) => Err(e)
      case Ok(r) => KeyRow(kt, parentExists, r, [writes[|writes| - 1]], key)
  }

  lemma KeyRowOne(kt: KeyedTable, parentExists: bool, row: Option<Row>, w: Write, key: string)
    ensures key !in w.patch ==> KeyRow(kt, parentExists, row, [w], key) == Ok(row)
    ensures key in w.patch && NewText(w.patch[key]) == "" ==>
      KeyRow(kt, parentExists, row, [w], key) == ClearRow(kt, row, w.col, w.clear)
    ensures key in w.patch && NewText(w.patch[key]) != "" ==>
      KeyRow(kt, parentExists, row, [w], key) == UpsertRow(kt, parentExists, row, map[w.col := SqlText(NewText(w.patch[key]))])
  {
    var clears, sets := Pick([w], key, false), Pick([w], key, true);
    assert [w][..0] == [];
    assert Pick([w][..0], key, false) == Pick([w][..0], key, true) == [];
    if key in w.patch {
      if NewText(w.patch[key]) == "" {
        assert clears == [w] && sets == [];
        assert ClearAll(kt, row, clears[..0]) == Ok(row);
      } else {
        assert clears == [] && sets == [w];
        assert UpsertValues(sets[..0], key) == map[];
      }
    }
  }

  lemma {:induction false} ClearAllOk(kt: KeyedTable, row: Option<Row>, ws: seq<Write>)
    requires NoDelete(ws)
    ensures ClearAll(kt, row, ws).Ok? <==> forall w :: w in ws && w.clear == SetNull && w.col in kt.notNull ==> row.None?
    ensures ClearAll(kt, row, ws).Ok? ==> (ClearAll(kt, row, ws).value.Some? <==> row.Some?)
  {
    if ws != [] {
      var init, last := ws[..|ws| - 1], ws[|ws| - 1];
      assert forall w :: w in ws <==> w in init || w == last by { assert ws == init + [last]; }
      ClearAllOk(kt, row, init);
    }
  }

  lemma {:induction false} ClearAllOther(kt: KeyedTable, row: Option<Row>, ws: seq<Write>, c: string)
    requires NoDelete(ws) && ClearAll(kt, row, ws).Ok? && forall w :: w in ws ==> w.col != c
    ensures Text(ClearAll(kt, row, ws).value, c) == Text(row, c)
  {
    if ws != [] {
      var init, last := ws[..|ws| - 1], ws[|ws| - 1];
      assert last in ws && forall w :: w in init ==> w in ws;
      ClearAllOther(kt, row, init, c);
    }
  }

  lemma {:induction false} ClearAllText(kt: KeyedTable, row: Option<Row>, ws: seq<Write>, w: Write)
    requires DistinctCols(ws) && NoDelete(ws) && ClearAll(kt, row, ws).Ok? && w in ws
    ensures Text(ClearAll(kt, row, ws).value, w.col) == if row.Some? then ClearedText(w.clear) else ""
  {
    var init, last := ws[..|ws| - 1], ws[|ws| - 1];
    ClearAllOk(kt, row, init);
    if w != last {
      assert w in init && w.col != last.col;
      ClearAllText(kt, row, init, w);
    }
  }

  lemma {:induction false} UpsertValuesText(ws: seq<Write>, key: string, c: string)
    requires forall i, j :: 0 <= i < j < |ws| ==> ws[i].col != ws[j].col
    ensures c in UpsertValues(ws, key) <==> exists w :: w in ws && w.col == c
    ensures forall w :: w in ws ==> w.col in UpsertValues(ws, key) && UpsertValues(ws, key)[w.col] == SqlText(StringAt(w.patch, key))
    ensures c in UpsertValues(ws, key) ==> UpsertValues(ws, key)[c].SqlText?
  {
    if ws != [] {
      var init, last := ws[..|ws| - 1], ws[|ws| - 1];
      assert ws == init + [last];
      UpsertValuesText(init, key, c);
      forall w | w in ws
        ensures w.col in UpsertValues(ws, key) && UpsertValues(ws, key)[w.col] == SqlText(StringAt(w.patch, key))
      {
        if w != last { assert w in init; }
      }
    }
  }

  lemma {:induction false} PickDistinctCols(writes: seq<Write>, key: string, setting: bool)
    requires DistinctCols(writes)
    ensures DistinctCols(Pick(writes, key, setting))
  {
    if writes != [] {
      PickDistinctCols(writes[..|writes| - 1], key, setting);
    }
  }

  predicate Sets(w: Write, key: string) { key in w.patch && NewText(w.patch[key]) != "" }

  predicate Clears(w: Write, key: string) { key in w.patch && NewText(w.patch[key]) == "" }

  /** No clear of this key deletes its row. */
  ghost predicate Keeps(writes: seq<Write>, key: string) {
    forall w :: w in writes && Clears(w, key) ==> w.clear != DeleteRow
  }

  lemma UpsertOne(kt: KeyedTable, parentExists: bool, row: Option<Row>, col: string, t: string, c: string)
    requires UpsertRow(kt, parentExists, row, map[col := SqlText(t)]).Ok?
    ensures kt.notNull <= {col} && (row.None? ==> parentExists)
    ensures var r := UpsertRow(kt, parentExists, row, map[col := SqlText(t)]).value;
      r.Some? && Text(r, c) == if col == c then t else Text(row, c)
  {}

  /** One cell saved on its own, seen from one row. */
  lemma OneStep(kt: KeyedTable, parentExists: bool, row: Option<Row>, w: Write, key: string, r: Option<Row>, c: string)
    requires w.clear != DeleteRow
    requires KeyRow(kt, parentExists, row, [w], key) == Ok(r)
    ensures Sets(w, key) ==> kt.notNull <= {w.col} && (row.None? ==> parentExists)
    ensures Clears(w, key) && w.clear == SetNull && w.col in kt.notNull ==> row.None?
    ensures r.Some? <==> row.Some? || Sets(w, key)
    ensures Text(r, c) ==
      if w.col == c && Sets(w, key) then NewText(w.patch[key])
      else if w.col == c && Clears(w, key) && row.Some? then ClearedText(w.clear)
      else Text(row, c)
  {
    KeyRowOne(kt, parentExists, row, w, key);
    if Sets(w, key) {
      UpsertOne(kt, parentExists, row, w.col, NewText(w.patch[key]), c);
    }
  }

  /** Some of the first n cells sets the key. */
  ghost predicate SetBefore(writes: seq<Write>, key: string, n: nat)
    requires n <= |writes|
  {
    exists i :: 0 <= i < n && Sets(writes[i], key)
  }

  /** A row of the one-at-a-time form exists once it existed or was set. */
  lemma {:induction false} RowOneByOneExists(kt: KeyedTable, parentExists: bool, row: Option<Row>, writes: seq<Write>, key: string)
    requires NoDelete(writes)
    requires RowOneByOne(kt, parentExists, row, writes, key).Ok?
    ensures var r := RowOneByOne(kt, parentExists, row, writes, key).value;
      && (r.Some? <==> row.Some? || SetBefore(writes, key, |writes|))
      && (r.Some? ==> row.Some? || parentExists)
  {
    if writes != [] {
      var init, w := writes[..|writes| - 1], writes[|writes| - 1];
      RowOneByOneExists(kt, parentExists, row, init, key);
      OneStep(kt, parentExists, RowOneByOne(kt, parentExists, row, init, key).value, w, key,
        RowOneByOne(kt, parentExists, row, writes, key).value, "");
      SetBeforePrefix(writes, key, |init|);
    }
  }

  lemma SetBeforePrefix(writes: seq<Write>, key: string, n: nat)
    requires n <= |writes|
    ensures SetBefore(writes[..n], key, n) <==> SetBefore(writes, key, n)
    ensures n < |writes| ==> (SetBefore(writes, key, n + 1) <==> SetBefore(writes, key, n) || Sets(writes[n], key))
  {
    assert forall i :: 0 <= i < n ==> writes[..n][i] == writes[i];
  }

  /** What the success of the one-at-a-time form says about one write of it. */
  lemma {:induction false} RowOneByOneFacts(kt: KeyedTable, parentExists: bool, row: Option<Row>, writes: seq<Write>, key: string, w: Write)
    requires NoDelete(writes)
    requires RowOneByOne(kt, parentExists, row, writes, key).Ok?
    requires w in writes
    ensures Clears(w, key) && w.clear == SetNull && w.col in kt.notNull ==> row.None?
    ensures Sets(w, key) ==> kt.notNull <= {w.col} && (row.None? ==> parentExists)
  {
    if w == writes[|writes| - 1] {
      var init := writes[..|writes| - 1];
      RowOneByOneExists(kt, parentExists, row, init, key);
      var r := RowOneByOne(kt, parentExists, row, init, key).value;
      OneStep(kt, parentExists, r, w, key, RowOneByOne(kt, parentExists, row, writes, key).value, "");
      assert row.Some? ==> r.Some?;
    } else {
      assert w in writes[..|writes| - 1];
      RowOneByOneFacts(kt, parentExists, row, writes[..|writes| - 1], key, w);
    }
  }

  /** A grouped row is accepted when no clear hits a NOT NULL column of an existing
      row and the upsert, if any, carries every NOT NULL column. */
  ghost predicate Acceptable(kt: KeyedTable, parentExists: bool, row: Option<Row>, writes: seq<Write>, key: string) {
    && (forall w :: w in writes && Clears(w, key) && w.clear == SetNull && w.col in kt.notNull ==> row.None?)
    && ((exists w :: w in writes && Sets(w, key)) ==>
          && (row.None? ==> parentExists)
          && forall c :: c in kt.notNull ==> exists w :: w in writes && Sets(w, key) && w.col == c)
  }

  lemma UpsertRowText(kt: KeyedTable, parentExists: bool, row: Option<Row>, ws: seq<Write>, key: string, c: string)
    requires DistinctCols(ws)
    ensures UpsertRow(kt, parentExists, row, UpsertValues(ws, key)).Ok? <==>
      (row.None? ==> parentExists) && forall n :: n in kt.notNull ==> exists w :: w in ws && w.col == n
    ensures UpsertRow(kt, parentExists, row, UpsertValues(ws, key)).Ok? ==>
      var r := UpsertRow(kt, parentExists, row, UpsertValues(ws, key)).value;
      && (forall w :: w in ws && w.col == c ==> Text(r, c) == StringAt(w.patch, key))
      && ((forall w :: w in ws ==> w.col != c) ==> Text(r, c) == Text(row, c))
  {
    forall n ensures Cell(UpsertValues(ws, key), n) != SqlNull <==> exists w :: w in ws && w.col == n {
      UpsertValuesText(ws, key, n);
    }
    UpsertValuesText(ws, key, c);
  }

  /** A grouped row is accepted exactly when Acceptable says so. */
  lemma GroupedAccepted(kt: KeyedTable, parentExists: bool, row: Option<Row>, writes: seq<Write>, key: string)
    requires DistinctCols(writes) && Keeps(writes, key)
    ensures KeyRow(kt, parentExists, row, writes, key).Ok? <==> Acceptable(kt, parentExists, row, writes, key)
  {
    var clears, sets := Pick(writes, key, false), Pick(writes, key, true);
    ClearAllOk(kt, row, clears);
    var cleared := ClearAll(kt, row, clears);
    if cleared.Ok? {
      Inhabited(sets);
      if sets != [] {
        PickDistinctCols(writes, key, true);
        UpsertRowText(kt, parentExists, cleared.value, sets, key, "");
        assert exists w :: w in writes && Sets(w, key);
      }
    }
  }

  /** What a cell leaves in its column; present tells whether the row is there when the
      cell clears it. */
  function CellText(row: Option<Row>, w: Write, key: string, present: bool): string {
    if key !in w.patch then Text(row, w.col)
    else if NewText(w.patch[key]) != "" then NewText(w.patch[key])
    else if present then ClearedText(w.clear) else ""
  }

  lemma SameColumn(writes: seq<Write>, v: Write, w: Write)
    requires DistinctCols(writes) && v in writes && w in writes && v.col == w.col
    ensures v == w
  {}

  /** Each written column of a grouped row holds what its own cell sent; a cleared one
      what its policy writes to a row that is there. */
  lemma GroupedText(kt: KeyedTable, parentExists: bool, row: Option<Row>, writes: seq<Write>, key: string, w: Write)
    requires DistinctCols(writes) && Keeps(writes, key) && w in writes
    requires KeyRow(kt, parentExists, row, writes, key).Ok?
    ensures Text(KeyRow(kt, parentExists, row, writes, key).value, w.col) == CellText(row, w, key, row.Some?)
  {
    var clears, sets := Pick(writes, key, false), Pick(writes, key, true);
    PickDistinctCols(writes, key, false);
    PickDistinctCols(writes, key, true);
    forall v | v in writes && v.col == w.col ensures v == w { SameColumn(writes, v, w); }
    ClearAllOk(kt, row, clears);
    if w in clears { ClearAllText(kt, row, clears, w); } else { ClearAllOther(kt, row, clears, w.col); }
    if sets != [] { UpsertRowText(kt, parentExists, ClearAll(kt, row, clears).value, sets, key, w.col); }
  }

  lemma GroupedOther(kt: KeyedTable, parentExists: bool, row: Option<Row>, writes: seq<Write>, key: string, c: string)
    requires DistinctCols(writes) && Keeps(writes, key) && forall w :: w in writes ==> w.col != c
    requires KeyRow(kt, parentExists, row, writes, key).Ok?
    ensures Text(KeyRow(kt, parentExists, row, writes, key).value, c) == Text(row, c)
  {
    var clears, sets := Pick(writes, key, false), Pick(writes, key, true);
    PickDistinctCols(writes, key, true);
    ClearAllOther(kt, row, clears, c);
    if sets != [] { UpsertRowText(kt, parentExists, ClearAll(kt, row, clears).value, sets, key, c); }
  }

  /** A key whose row no clear deletes: accepted when Acceptable says so, and each column
      reads as its own cell says. */
  lemma KeyRowText(kt: KeyedTable, parentExists: bool, row: Option<Row>, writes: seq<Write>, key: string, c: string)
    requires DistinctCols(writes) && Keeps(writes, key)
    ensures KeyRow(kt, parentExists, row, writes, key).Ok? <==> Acceptable(kt, parentExists, row, writes, key)
    ensures KeyRow(kt, parentExists, row, writes, key).Ok? ==> var r := KeyRow(kt, parentExists, row, writes, key).value;
      && (forall w :: w in writes && w.col == c ==> Text(r, c) == CellText(row, w, key, row.Some?))
      && ((forall w :: w in writes ==> w.col != c) ==> Text(r, c) == Text(row, c))
  {
    GroupedAccepted(kt, parentExists, row, writes, key);
    if KeyRow(kt, parentExists, row, writes, key).Ok? {
      if w :| w in writes && w.col == c {
        GroupedText(kt, parentExists, row, writes, key, w);
        forall v | v in writes && v.col == c ensures v == w { SameColumn(writes, v, w); }
      } else {
        GroupedOther(kt, parentExists, row, writes, key, c);
      }
    }
  }

  // --- one side table ----------------------------------------------------------------

  /** Each of these keys was written on its own, and nothing else. */
  ghost predicate KeysDone(kt: KeyedTable, parents: set<string>, side: Side, parent: string, writes: seq<Write>, keys: seq<string>, out: Result<Side>) {
    && (out.Ok? <==> forall k :: k in keys ==> KeyRow(kt, parent in parents, At(side, parent, k), writes, k).Ok?)
    && (out.Ok? ==> forall p, k ::
          At(out.value, p, k) == if p == parent && k in keys then KeyRow(kt, parent in parents, At(side, p, k), writes, k).value else At(side, p, k))
  }

  lemma PutAt(side: Side, parent: string, key: string, row: Option<Row>, p: string, k: string)
    ensures At(Put(side, parent, key, row), p, k) == if p == parent && k == key then row else At(side, p, k)
  {}

  lemma KeyAdded(kt: KeyedTable, parents: set<string>, side: Side, parent: string, writes: seq<Write>, init: seq<string>, key: string, s: Side, r: Option<Row>)
    requires KeysDone(kt, parents, side, parent, writes, init, Ok(s)) && key !in init
    requires KeyRow(kt, parent in parents, At(side, parent, key), writes, key) == Ok(r)
    ensures KeysDone(kt, parents, side, parent, writes, init + [key], Ok(Put(s, parent, key, r)))
  {
    forall p, k { PutAt(s, parent, key, r, p, k); }
  }

  lemma KeyRefused(kt: KeyedTable, parents: set<string>, side: Side, parent: string, writes: seq<Write>, init: seq<string>, key: string, e: Failure)
    requires KeyRow(kt, parent in parents, At(side, parent, key), writes, key) == Err(e)
    ensures KeysDone(kt, parents, side, parent, writes, init + [key], Err(e))
  {
    assert key in init + [key];
  }

  lemma KeysFail(kt: KeyedTable, parents: set<string>, side: Side, parent: string, writes: seq<Write>, init: seq<string>, key: string, e: Failure)
    requires KeysDone(kt, parents, side, parent, writes, init, Err(e))
    ensures KeysDone(kt, parents, side, parent, writes, init + [key], Err(e))
  {
    assert forall k :: k in init ==> k in init + [key];
  }

  /** writeMany touches each key of the patches on its own, and nothing else. */
  lemma {:induction false} WriteKeysLocal(kt: KeyedTable, parents: set<string>, side: Side, parent: string, writes: seq<Write>, keys: seq<string>)
    requires forall i, j :: 0 <= i < j < |keys| ==> keys[i] != keys[j]
    ensures KeysDone(kt, parents, side, parent, writes, keys, WriteKeys(kt, parents, side, parent, writes, keys))
  {
    if keys != [] {
      var init, key := keys[..|keys| - 1], keys[|keys| - 1];
      assert keys == init + [key] && key !in init;
      WriteKeysLocal(kt, parents, side, parent, writes, init);
      var before := WriteKeys(kt, parents, side, parent, writes, init);
      if before.Ok? {
        assert At(before.value, parent, key) == At(side, parent, key);
        match KeyRow(kt, parent in parents, At(side, parent, key), writes, key)
        case Ok(r) => KeyAdded(kt, parents, side, parent, writes, init, key, before.value, r);
        case Err(e) => KeyRefused(kt, parents, side, parent, writes, init, key, e);
      } else {
        KeysFail(kt, parents, side, parent, writes, init, key, before.error);
      }
    }
  }

  lemma KeyRowUntouched(kt: KeyedTable, parentExists: bool, row: Option<Row>, writes: seq<Write>, key: string)
    requires key !in PatchKeys(writes)
    ensures KeyRow(kt, parentExists, row, writes, key) == Ok(row)
  {
    assert forall w :: w in writes ==> key !in w.patch;
    Inhabited(Pick(writes, key, false));
    Inhabited(Pick(writes, key, true));
  }

  /** The same for every key of the parent, patched or not. */
  lemma WriteManyLocal(kt: KeyedTable, parents: set<string>, side: Side, parent: string, writes: seq<Write>)
    ensures WriteMany(kt, parents, side, parent, writes).Ok? <==> forall k :: KeyRow(kt, parent in parents, At(side, parent, k), writes, k).Ok?
    ensures WriteMany(kt, parents, side, parent, writes).Ok? ==>
      forall p, k ::
        At(WriteMany(kt, parents, side, parent, writes).value, p, k) ==
          if p == parent then KeyRow(kt, parent in parents, At(side, p, k), writes, k).value else At(side, p, k)
  {
    var keys := SortedKeys(PatchKeys(writes));
    WriteKeysLocal(kt, parents, side, parent, writes, keys);
    forall k | k !in keys ensures forall p :: KeyRow(kt, parent in parents, At(side, p, k), writes, k) == Ok(At(side, p, k)) {
      assert k !in Elems(keys);
      forall p { KeyRowUntouched(kt, parent in parents, At(side, p, k), writes, k); }
    }
  }

  lemma {:induction false} OneByOneLocal(kt: KeyedTable, parents: set<string>, side: Side, parent: string, writes: seq<Write>)
    ensures OneByOne(kt, parents, side, parent, writes).Ok? <==> forall k :: RowOneByOne(kt, parent in parents, At(side, parent, k), writes, k).Ok?
    ensures OneByOne(kt, parents, side, parent, writes).Ok? ==>
      forall p, k ::
        At(OneByOne(kt, parents, side, parent, writes).value, p, k) ==
          if p == parent then RowOneByOne(kt, parent in parents, At(side, p, k), writes, k).value else At(side, p, k)
  {
    if writes != [] {
      var init, w := writes[..|writes| - 1], writes[|writes| - 1];
      OneByOneLocal(kt, parents, side, parent, init);
      var before := OneByOne(kt, parents, side, parent, init);
      if before.Ok? {
        WriteManyLocal(kt, parents, before.value, parent, [w]);
      }
    }
  }

  lemma ReadAt(side: Side, parent: string, col: string, k: string)
    ensures k in Read(side, parent, col) <==> k != "" && Text(At(side, parent, k), col) != ""
    ensures k in Read(side, parent, col) ==> Read(side, parent, col)[k] == Text(At(side, parent, k), col)
  {}

  lemma SameTextSameRead(s: Side, t: Side, parent: string, col: string)
    requires forall k :: k != "" ==> Text(At(s, parent, k), col) == Text(At(t, parent, k), col)
    ensures Read(s, parent, col) == Read(t, parent, col)
  {}

  /** A column no cell writes stays in the one-at-a-time form. */
  lemma {:induction false} SingleOther(kt: KeyedTable, parentExists: bool, row: Option<Row>, writes: seq<Write>, key: string, c: string)
    requires NoDelete(writes) && forall w :: w in writes ==> w.col != c
    requires RowOneByOne(kt, parentExists, row, writes, key).Ok?
    ensures Text(RowOneByOne(kt, parentExists, row, writes, key).value, c) == Text(row, c)
  {
    if writes != [] {
      var init, w := writes[..|writes| - 1], writes[|writes| - 1];
      assert w in writes;
      SingleOther(kt, parentExists, row, init, key, c);
      OneStep(kt, parentExists, RowOneByOne(kt, parentExists, row, init, key).value, w, key,
        RowOneByOne(kt, parentExists, row, writes, key).value, c);
    }
  }

  lemma SingleLast(kt: KeyedTable, parentExists: bool, row: Option<Row>, init: seq<Write>, w: Write, key: string)
    requires NoDelete(init) && w.clear != DeleteRow && forall v :: v in init ==> v.col != w.col
    requires RowOneByOne(kt, parentExists, row, init, key).Ok?
    requires KeyRow(kt, parentExists, RowOneByOne(kt, parentExists, row, init, key).value, [w], key).Ok?
    ensures Text(KeyRow(kt, parentExists, RowOneByOne(kt, parentExists, row, init, key).value, [w], key).value, w.col)
         == CellText(row, w, key, row.Some? || SetBefore(init, key, |init|))
  {
    var mid := RowOneByOne(kt, parentExists, row, init, key).value;
    OneStep(kt, parentExists, mid, w, key, KeyRow(kt, parentExists, mid, [w], key).value, w.col);
    SingleOther(kt, parentExists, row, init, key, w.col);
    RowOneByOneExists(kt, parentExists, row, init, key);
  }

  /** A cell whose column is not the last one's keeps its text in the last turn. */
  lemma SingleEarlier(kt: KeyedTable, parentExists: bool, row: Option<Row>, w: Write, key: string, r: Option<Row>, c: string)
    requires w.clear != DeleteRow && c != w.col
    requires KeyRow(kt, parentExists, row, [w], key) == Ok(r)
    ensures Text(r, c) == Text(row, c)
  {
    OneStep(kt, parentExists, row, w, key, r, c);
  }

  /** One cell at a time, a clear finds the row that was there or that an earlier cell of
      the same save made. */
  lemma {:induction false} SingleText(kt: KeyedTable, parentExists: bool, row: Option<Row>, writes: seq<Write>, key: string, j: nat)
    requires DistinctCols(writes) && NoDelete(writes) && j < |writes|
    requires RowOneByOne(kt, parentExists, row, writes, key).Ok?
    ensures Text(RowOneByOne(kt, parentExists, row, writes, key).value, writes[j].col)
         == CellText(row, writes[j], key, row.Some? || SetBefore(writes[..j], key, j))
  {
    var init, last := writes[..|writes| - 1], writes[|writes| - 1];
    if j < |init| {
      SingleText(kt, parentExists, row, init, key, j);
      assert init[..j] == writes[..j] && init[j] == writes[j];
      SingleEarlier(kt, parentExists, RowOneByOne(kt, parentExists, row, init, key).value, last, key,
        RowOneByOne(kt, parentExists, row, writes, key).value, writes[j].col);
    } else {
      assert writes[..j] == init;
      SingleLast(kt, parentExists, row, init, last, key);
    }
  }

  /** A cell that clears to a non-empty text a key that has no row yet and that an earlier
      cell of the save sets. */
  ghost predicate LateClear(side: Side, parent: string, writes: seq<Write>, k: string, i: int, j: int) {
    && k != "" && At(side, parent, k) == None
    && 0 <= i < j < |writes| && Sets(writes[i], k)
    && Clears(writes[j], k) && ClearedText(writes[j].clear) != ""
  }

  /** The texts of one written column of one key in both forms. */
  lemma WrittenTexts(kt: KeyedTable, parentExists: bool, row: Option<Row>, writes: seq<Write>, k: string, j: nat)
    requires DistinctCols(writes) && NoDelete(writes) && j < |writes|
    requires RowOneByOne(kt, parentExists, row, writes, k).Ok? && KeyRow(kt, parentExists, row, writes, k).Ok?
    ensures var late := row.None? && SetBefore(writes[..j], k, j) && Clears(writes[j], k) && ClearedText(writes[j].clear) != "";
      var grouped, single := KeyRow(kt, parentExists, row, writes, k).value, RowOneByOne(kt, parentExists, row, writes, k).value;
      if late then Text(grouped, writes[j].col) == "" && Text(single, writes[j].col) != "" else Text(grouped, writes[j].col) == Text(single, writes[j].col)
  {
    GroupedText(kt, parentExists, row, writes, k, writes[j]);
    SingleText(kt, parentExists, row, writes, k, j);
  }

  lemma NoLateClear(side: Side, parent: string, writes: seq<Write>, k: string, j: nat)
    requires j < |writes| && k != "" && !exists i :: LateClear(side, parent, writes, k, i, j)
    ensures !(At(side, parent, k).None? && SetBefore(writes[..j], k, j) && Clears(writes[j], k) && ClearedText(writes[j].clear) != "")
  {
    if SetBefore(writes[..j], k, j) {
      var i :| 0 <= i < j && Sets(writes[..j][i], k);
      assert writes[..j][i] == writes[i];
      assert !LateClear(side, parent, writes, k, i, j);
    }
  }

  /** The texts of any column of one key in both forms. */
  lemma BothTexts(kt: KeyedTable, parentExists: bool, side: Side, parent: string, writes: seq<Write>, k: string, col: string)
    requires DistinctCols(writes) && NoDelete(writes)
    requires RowOneByOne(kt, parentExists, At(side, parent, k), writes, k).Ok? && KeyRow(kt, parentExists, At(side, parent, k), writes, k).Ok?
    requires k != "" && !exists i, j :: LateClear(side, parent, writes, k, i, j)
    ensures Text(KeyRow(kt, parentExists, At(side, parent, k), writes, k).value, col)
         == Text(RowOneByOne(kt, parentExists, At(side, parent, k), writes, k).value, col)
  {
    if j :| 0 <= j < |writes| && writes[j].col == col {
      NoLateClear(side, parent, writes, k, j);
      WrittenTexts(kt, parentExists, At(side, parent, k), writes, k, j);
    } else {
      GroupedOther(kt, parentExists, At(side, parent, k), writes, k, col);
      SingleOther(kt, parentExists, At(side, parent, k), writes, k, col);
    }
  }

  lemma LateTexts(kt: KeyedTable, parentExists: bool, side: Side, parent: string, writes: seq<Write>, k: string, i: int, j: int)
    requires DistinctCols(writes) && NoDelete(writes)
    requires RowOneByOne(kt, parentExists, At(side, parent, k), writes, k).Ok? && KeyRow(kt, parentExists, At(side, parent, k), writes, k).Ok?
    requires LateClear(side, parent, writes, k, i, j)
    ensures Text(KeyRow(kt, parentExists, At(side, parent, k), writes, k).value, writes[j].col) == ""
    ensures Text(RowOneByOne(kt, parentExists, At(side, parent, k), writes, k).value, writes[j].col) != ""
  {
    assert writes[..j][i] == writes[i];
    assert SetBefore(writes[..j], k, j);
    WrittenTexts(kt, parentExists, At(side, parent, k), writes, k, j);
  }

  /** Whenever the cells go through one at a time, they go through grouped. */
  lemma GroupedGoesThrough(kt: KeyedTable, parents: set<string>, side: Side, parent: string, writes: seq<Write>)
    requires DistinctCols(writes) && NoDelete(writes)
    requires OneByOne(kt, parents, side, parent, writes).Ok?
    ensures WriteMany(kt, parents, side, parent, writes).Ok?
    ensures forall k :: KeyRow(kt, parent in parents, At(side, parent, k), writes, k).Ok? && RowOneByOne(kt, parent in parents, At(side, parent, k), writes, k).Ok?
  {
    OneByOneLocal(kt, parents, side, parent, writes);
    WriteManyLocal(kt, parents, side, parent, writes);
    forall k ensures KeyRow(kt, parent in parents, At(side, parent, k), writes, k).Ok? {
      OneByOneAcceptable(kt, parent in parents, At(side, parent, k), writes, k);
      GroupedAccepted(kt, parent in parents, At(side, parent, k), writes, k);
    }
  }

  /** The grouped form reads as the cells saved one at a time, in every column and for
      every parent, if and only if no cell clears to a non-empty text a key without a row
      that an earlier cell of the save sets. */
  lemma GroupedExactly(kt: KeyedTable, parents: set<string>, side: Side, parent: string, writes: seq<Write>)
    requires DistinctCols(writes) && NoDelete(writes)
    requires OneByOne(kt, parents, side, parent, writes).Ok?
    ensures WriteMany(kt, parents, side, parent, writes).Ok?
    ensures (forall p, col :: Read(WriteMany(kt, parents, side, parent, writes).value, p, col)
                           == Read(OneByOne(kt, parents, side, parent, writes).value, p, col))
       <==> !exists k, i, j :: LateClear(side, parent, writes, k, i, j)
  {
    GroupedGoesThrough(kt, parents, side, parent, writes);
    OneByOneLocal(kt, parents, side, parent, writes);
    WriteManyLocal(kt, parents, side, parent, writes);
    var grouped, single := WriteMany(kt, parents, side, parent, writes).value, OneByOne(kt, parents, side, parent, writes).value;
    if k, i, j :| LateClear(side, parent, writes, k, i, j) {
      LateTexts(kt, parent in parents, side, parent, writes, k, i, j);
      ReadAt(grouped, parent, writes[j].col, k);
      ReadAt(single, parent, writes[j].col, k);
      assert Read(grouped, parent, writes[j].col) != Read(single, parent, writes[j].col);
    } else {
      forall p, col ensures Read(grouped, p, col) == Read(single, p, col) {
        forall k | k != "" ensures Text(At(grouped, p, k), col) == Text(At(single, p, k), col) {
          if p == parent { BothTexts(kt, parent in parents, side, parent, writes, k, col); }
        }
        SameTextSameRead(grouped, single, p, col);
      }
    }
  }

  /** In particular it does whenever what the cells clear is empty afterwards. */
  lemma GroupedAgrees(kt: KeyedTable, parents: set<string>, side: Side, parent: string, writes: seq<Write>)
    requires DistinctCols(writes) && NoDelete(writes) && forall w :: w in writes ==> Erases(w)
    requires OneByOne(kt, parents, side, parent, writes).Ok?
    ensures WriteMany(kt, parents, side, parent, writes).Ok?
    ensures forall p, col :: Read(WriteMany(kt, parents, side, parent, writes).value, p, col)
                          == Read(OneByOne(kt, parents, side, parent, writes).value, p, col)
  {
    GroupedExactly(kt, parents, side, parent, writes);
    forall k, i, j ensures !LateClear(side, parent, writes, k, i, j) {
      if 0 <= i < j < |writes| { assert writes[j] in writes; }
    }
  }

  lemma {:induction false} OneByOneAcceptable(kt: KeyedTable, parentExists: bool, row: Option<Row>, writes: seq<Write>, key: string)
    requires NoDelete(writes)
    requires RowOneByOne(kt, parentExists, row, writes, key).Ok?
    ensures Acceptable(kt, parentExists, row, writes, key)
  {
    forall w | w in writes
      ensures Clears(w, key) && w.clear == SetNull && w.col in kt.notNull ==> row.None?
      ensures Sets(w, key) ==> kt.notNull <= {w.col} && (row.None? ==> parentExists)
    {
      RowOneByOneFacts(kt, parentExists, row, writes, key, w);
    }
  }

  lemma OneWrite(w: Write)
    ensures DistinctCols([w]) && w in [w]
    ensures w.clear != DeleteRow ==> NoDelete([w])
  {}

  lemma OverlayAt(before: map<string, string>, patch: map<string, Json>, k: string)
    requires forall n :: n in before ==> n != "" && before[n] != ""
    ensures k in Overlay(before, patch) <==> k != "" && (if k in patch then patch[k].Str? && patch[k].s != "" else k in before)
    ensures k in Overlay(before, patch) ==> if k in patch then patch[k].Str? && Overlay(before, patch)[k] == patch[k].s else Overlay(before, patch)[k] == before[k]
  {}

  /** Other parents read as before. */
  lemma WriteManyOthers(kt: KeyedTable, parents: set<string>, side: Side, parent: string, writes: seq<Write>, p: string, col: string)
    requires WriteMany(kt, parents, side, parent, writes).Ok? && p != parent
    ensures Read(WriteMany(kt, parents, side, parent, writes).value, p, col) == Read(side, p, col)
  {
    WriteManyLocal(kt, parents, side, parent, writes);
    SameTextSameRead(WriteMany(kt, parents, side, parent, writes).value, side, p, col);
  }

  /** So does a column no cell writes, when no cell deletes rows. */
  lemma WriteManyUnwritten(kt: KeyedTable, parents: set<string>, side: Side, parent: string, writes: seq<Write>, p: string, col: string)
    requires DistinctCols(writes) && NoDelete(writes) && forall w :: w in writes ==> w.col != col
    requires WriteMany(kt, parents, side, parent, writes).Ok?
    ensures Read(WriteMany(kt, parents, side, parent, writes).value, p, col) == Read(side, p, col)
  {
    if p != parent {
      WriteManyOthers(kt, parents, side, parent, writes, p, col);
    } else {
      var out := WriteMany(kt, parents, side, parent, writes).value;
      WriteManyLocal(kt, parents, side, parent, writes);
      forall k ensures Text(At(out, p, k), col) == Text(At(side, p, k), col) {
        GroupedOther(kt, parent in parents, At(side, p, k), writes, k, col);
      }
      SameTextSameRead(out, side, p, col);
    }
  }

  /** A cell saved on its own leaves other parents, and, unless it deletes rows, other
      columns. */
  lemma OneWriteReads(kt: KeyedTable, parents: set<string>, side: Side, parent: string, w: Write, p: string, col: string)
    requires p != parent || (w.col != col && w.clear != DeleteRow)
    requires WriteMany(kt, parents, side, parent, [w]).Ok?
    ensures Read(WriteMany(kt, parents, side, parent, [w]).value, p, col) == Read(side, p, col)
  {
    OneWrite(w);
    if p != parent { WriteManyOthers(kt, parents, side, parent, [w], p, col); } else { WriteManyUnwritten(kt, parents, side, parent, [w], p, col); }
  }

  /** One key of a cell that erases what it clears, no neighbour of which deletes rows. */
  lemma KeyOverlaid(kt: KeyedTable, parentExists: bool, row: Option<Row>, writes: seq<Write>, w: Write, key: string)
    requires DistinctCols(writes) && w in writes && Erases(w) && (NoDelete(writes) || writes == [w])
    requires KeyRow(kt, parentExists, row, writes, key).Ok?
    ensures Text(KeyRow(kt, parentExists, row, writes, key).value, w.col) == if key in w.patch then NewText(w.patch[key]) else Text(row, w.col)
  {
    if Keeps(writes, key) {
      GroupedText(kt, parentExists, row, writes, key, w);
    } else {
      KeyRowOne(kt, parentExists, row, w, key);
    }
  }

  /** What a grouped save reads as: a cell that erases what it clears is its old map
      overlaid with its own patch. A cell that deletes rows has to be alone. */
  lemma WriteManyReads(kt: KeyedTable, parents: set<string>, side: Side, parent: string, writes: seq<Write>, w: Write)
    requires DistinctCols(writes) && w in writes && Erases(w) && (NoDelete(writes) || writes == [w])
    requires WriteMany(kt, parents, side, parent, writes).Ok?
    ensures Read(WriteMany(kt, parents, side, parent, writes).value, parent, w.col) == Overlay(Read(side, parent, w.col), w.patch)
  {
    var out := WriteMany(kt, parents, side, parent, writes).value;
    WriteManyLocal(kt, parents, side, parent, writes);
    forall k ensures Text(At(out, parent, k), w.col) == if k in w.patch then NewText(w.patch[k]) else Text(At(side, parent, k), w.col) {
      KeyOverlaid(kt, parent in parents, At(side, parent, k), writes, w, k);
    }
    TextsOverlaid(side, out, parent, w);
  }

  lemma TextsOverlaid(side: Side, out: Side, parent: string, w: Write)
    requires forall k :: Text(At(out, parent, k), w.col) == if k in w.patch then NewText(w.patch[k]) else Text(At(side, parent, k), w.col)
    ensures Read(out, parent, w.col) == Overlay(Read(side, parent, w.col), w.patch)
  {
    forall k
      ensures k in Read(out, parent, w.col) <==> k in Overlay(Read(side, parent, w.col), w.patch)
      ensures k in Read(out, parent, w.col) ==> Read(out, parent, w.col)[k] == Overlay(Read(side, parent, w.col), w.patch)[k]
    {
      ReadAt(out, parent, w.col, k);
      ReadAt(side, parent, w.col, k);
    }
  }

  /** With its parent present, a save is refused by NOT NULL columns only. */
  lemma WriteManyErrors(kt: KeyedTable, parents: set<string>, side: Side, parent: string, writes: seq<Write>)
    requires parent in parents
    ensures WriteMany(kt, parents, side, parent, writes).Err? ==> WriteMany(kt, parents, side, parent, writes).error == NotNullViolation
  {
    WriteKeysErrors(kt, parents, side, parent, writes, SortedKeys(PatchKeys(writes)));
  }

  lemma {:induction false} WriteKeysErrors(kt: KeyedTable, parents: set<string>, side: Side, parent: string, writes: seq<Write>, keys: seq<string>)
    requires parent in parents
    ensures WriteKeys(kt, parents, side, parent, writes, keys).Err? ==> WriteKeys(kt, parents, side, parent, writes, keys).error == NotNullViolation
  {
    if keys != [] {
      var init, key := keys[..|keys| - 1], keys[|keys| - 1];
      WriteKeysErrors(kt, parents, side, parent, writes, init);
      var s := WriteKeys(kt, parents, side, parent, writes, init);
      if s.Ok? {
        KeyRowErrors(kt, At(s.value, parent, key), writes, key);
      }
    }
  }

  lemma KeyRowErrors(kt: KeyedTable, row: Option<Row>, writes: seq<Write>, key: string)
    ensures KeyRow(kt, true, row, writes, key).Err? ==> KeyRow(kt, true, row, writes, key).error == NotNullViolation
  {
    ClearAllErrors(kt, row, Pick(writes, key, false));
  }

  lemma {:induction false} ClearAllErrors(kt: KeyedTable, row: Option<Row>, ws: seq<Write>)
    ensures ClearAll(kt, row, ws).Err? ==> ClearAll(kt, row, ws).error == NotNullViolation
  {
    if ws != [] { ClearAllErrors(kt, row, ws[..|ws| - 1]); }
  }

  // --- saving back what was read ------------------------------------------------------

  ghost predicate Loaded(side: Side, parent: string, writes: seq<Write>) {
    forall w :: w in writes ==> Obj(w.patch) == Texts(Read(side, parent, w.col))
  }

  lemma LoadedSets(side: Side, parent: string, writes: seq<Write>, w: Write, key: string)
    requires Loaded(side, parent, writes) && w in writes
    ensures Sets(w, key) <==> key in Read(side, parent, w.col)
    ensures !Clears(w, key)
    ensures Sets(w, key) ==> At(side, parent, key).Some?
  {}

  /** A key that reads as set in some written column reads as set in every NOT NULL
      column, and that column is written too. */
  ghost predicate CompleteKeys(kt: KeyedTable, side: Side, parent: string, writes: seq<Write>) {
    forall k, w, n :: w in writes && k in Read(side, parent, w.col) && n in kt.notNull ==>
      exists v :: v in writes && v.col == n && k in Read(side, parent, n)
  }

  /** Saving back a loaded group changes no map, whatever the clear policies, and is refused
      exactly when a NOT NULL column of a touched row reads as empty or is not among the
      cells. */
  lemma SaveBackGroup(kt: KeyedTable, parents: set<string>, side: Side, parent: string, writes: seq<Write>)
    requires DistinctCols(writes) && Loaded(side, parent, writes)
    ensures WriteMany(kt, parents, side, parent, writes).Ok? <==> CompleteKeys(kt, side, parent, writes)
    ensures WriteMany(kt, parents, side, parent, writes).Ok? ==>
      forall p, col :: Read(WriteMany(kt, parents, side, parent, writes).value, p, col) == Read(side, p, col)
  {
    WriteManyLocal(kt, parents, side, parent, writes);
    forall k, w | w in writes
      ensures (Sets(w, k) <==> k in Read(side, parent, w.col)) && !Clears(w, k) && (Sets(w, k) ==> At(side, parent, k).Some?)
    {
      LoadedSets(side, parent, writes, w, k);
    }
    forall k
      ensures KeyRow(kt, parent in parents, At(side, parent, k), writes, k).Ok? <==> Acceptable(kt, parent in parents, At(side, parent, k), writes, k)
    {
      GroupedAccepted(kt, parent in parents, At(side, parent, k), writes, k);
    }
    SaveBackAcceptable(kt, parent in parents, side, parent, writes);
    if WriteMany(kt, parents, side, parent, writes).Ok? {
      forall p, col ensures Read(WriteMany(kt, parents, side, parent, writes).value, p, col) == Read(side, p, col) {
        if p != parent { WriteManyOthers(kt, parents, side, parent, writes, p, col); } else { SavedBackReads(kt, parents, side, parent, writes, col); }
      }
    }
  }

  lemma SavedBackReads(kt: KeyedTable, parents: set<string>, side: Side, parent: string, writes: seq<Write>, col: string)
    requires DistinctCols(writes) && Loaded(side, parent, writes)
    requires WriteMany(kt, parents, side, parent, writes).Ok?
    ensures Read(WriteMany(kt, parents, side, parent, writes).value, parent, col) == Read(side, parent, col)
  {
    var out := WriteMany(kt, parents, side, parent, writes).value;
    WriteManyLocal(kt, parents, side, parent, writes);
    forall k | k != "" ensures Text(At(out, parent, k), col) == Text(At(side, parent, k), col) {
      SavedBackText(kt, parents, side, parent, writes, k, col);
    }
    SameTextSameRead(out, side, parent, col);
  }

  lemma SavedBackText(kt: KeyedTable, parents: set<string>, side: Side, parent: string, writes: seq<Write>, k: string, col: string)
    requires DistinctCols(writes) && Loaded(side, parent, writes) && k != ""
    requires KeyRow(kt, parent in parents, At(side, parent, k), writes, k).Ok?
    ensures Text(KeyRow(kt, parent in parents, At(side, parent, k), writes, k).value, col) == Text(At(side, parent, k), col)
  {
    forall w | w in writes ensures !Clears(w, k) && (k in w.patch ==> NewText(w.patch[k]) == Text(At(side, parent, k), w.col)) {
      LoadedSets(side, parent, writes, w, k);
      ReadAt(side, parent, w.col, k);
    }
    KeyRowText(kt, parent in parents, At(side, parent, k), writes, k, col);
    if w :| w in writes && w.col == col {
      assert CellText(At(side, parent, k), w, k, At(side, parent, k).Some?) == Text(At(side, parent, k), col);
    }
  }

  lemma SaveBackAcceptable(kt: KeyedTable, parentExists: bool, side: Side, parent: string, writes: seq<Write>)
    requires forall k, w :: w in writes ==>
      (Sets(w, k) <==> k in Read(side, parent, w.col)) && !Clears(w, k) && (Sets(w, k) ==> At(side, parent, k).Some?)
    ensures (forall k :: Acceptable(kt, parentExists, At(side, parent, k), writes, k)) <==> CompleteKeys(kt, side, parent, writes)
  {}
}
