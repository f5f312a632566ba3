/** Inputs on which side-table saves part ways: what grouping is for, and where the
    clear policies outside its guarantee differ. */
module Witnesses {
  import opened Values
  import opened SideTables
  import opened KeyedLaws

  /** One cell at a time can set no column of a table with another NOT NULL column, even
      when that other column is set by the same save. */
  lemma OneAtATimeRefuses(kt: KeyedTable, parents: set<string>, side: Side, parent: string, writes: seq<Write>, w: Write, key: string, n: string)
    requires NoDelete(writes) && w in writes && Sets(w, key)
    requires n in kt.notNull && n != w.col
    ensures OneByOne(kt, parents, side, parent, writes).Err?
  {
    OneByOneLocal(kt, parents, side, parent, writes);
    if RowOneByOne(kt, parent in parents, At(side, parent, key), writes, key).Ok? {
      RowOneByOneFacts(kt, parent in parents, At(side, parent, key), writes, key, w);
    }
  }

  /** The grouped save writes a new row that fills every NOT NULL column at once. */
  lemma GroupedFillsRow(kt: KeyedTable, parents: set<string>, side: Side, parent: string, writes: seq<Write>)
    requires DistinctCols(writes) && parent in parents
    requires forall w, k :: w in writes && k in w.patch ==> NewText(w.patch[k]) != ""
    requires forall w, k, n :: w in writes && k in w.patch && n in kt.notNull ==> exists v :: v in writes && v.col == n && k in v.patch
    ensures WriteMany(kt, parents, side, parent, writes).Ok?
  {
    WriteManyLocal(kt, parents, side, parent, writes);
    forall k ensures KeyRow(kt, true, At(side, parent, k), writes, k).Ok? {
      GroupedAccepted(kt, true, At(side, parent, k), writes, k);
      assert Acceptable(kt, true, At(side, parent, k), writes, k) by {
        forall n | n in kt.notNull && exists w :: w in writes && Sets(w, k)
          ensures exists v :: v in writes && Sets(v, k) && v.col == n
        {
          var w :| w in writes && Sets(w, k);
          var v :| v in writes && v.col == n && k in v.patch;
          assert Sets(v, k);
        }
      }
    }
  }

  /** Without NOT NULL columns every save one cell at a time goes through. */
  lemma {:induction false} NothingToRefuse(kt: KeyedTable, parents: set<string>, side: Side, parent: string, writes: seq<Write>)
    requires kt.notNull == {} && parent in parents && NoDelete(writes)
    ensures OneByOne(kt, parents, side, parent, writes).Ok?
  {
    if writes != [] {
      var init, w := writes[..|writes| - 1], writes[|writes| - 1];
      NothingToRefuse(kt, parents, side, parent, init);
      var s := OneByOne(kt, parents, side, parent, init).value;
      WriteManyLocal(kt, parents, s, parent, [w]);
      forall k ensures KeyRow(kt, true, At(s, parent, k), [w], k).Ok? { GroupedAccepted(kt, true, At(s, parent, k), [w], k); }
    }
  }

  /** The exception of GroupedExactly is met: over an empty table one cell sets a key and
      a later one clears it to a non-empty text. */
  lemma ClearTextDiffers(kt: KeyedTable, parent: string, a: string, b: string, key: string, x: string, t: string)
    requires kt.notNull == {} && a != b && key != "" && x != "" && t != ""
    ensures var writes := [Write(a, SetNull, map[key := Str(x)]), Write(b, SetText(t), map[key := Null])];
      && OneByOne(kt, {parent}, map[], parent, writes).Ok? && WriteMany(kt, {parent}, map[], parent, writes).Ok?
      && exists p, col :: Read(WriteMany(kt, {parent}, map[], parent, writes).value, p, col) != Read(OneByOne(kt, {parent}, map[], parent, writes).value, p, col)
  {
    var writes := [Write(a, SetNull, map[key := Str(x)]), Write(b, SetText(t), map[key := Null])];
    assert LateClear(map[], parent, writes, key, 0, 1);
    NothingToRefuse(kt, {parent}, map[], parent, writes);
    ReadsDiffer(kt, {parent}, map[], parent, writes, key, 0, 1);
  }

  lemma ReadsDiffer(kt: KeyedTable, parents: set<string>, side: Side, parent: string, writes: seq<Write>, k: string, i: int, j: int)
    requires DistinctCols(writes) && NoDelete(writes)
    requires OneByOne(kt, parents, side, parent, writes).Ok? && LateClear(side, parent, writes, k, i, j)
    ensures WriteMany(kt, parents, side, parent, writes).Ok?
    ensures exists p, col :: Read(WriteMany(kt, parents, side, parent, writes).value, p, col) != Read(OneByOne(kt, parents, side, parent, writes).value, p, col)
  {
    GroupedExactly(kt, parents, side, parent, writes);
  }

  /** Clearing with row deletion takes the neighbour columns of that key with it. */
  lemma DeleteRowTakesNeighbours(kt: KeyedTable, parents: set<string>, side: Side, parent: string, w: Write, key: string, col: string)
    requires w.clear == DeleteRow && Clears(w, key)
    requires WriteMany(kt, parents, side, parent, [w]).Ok?
    ensures key !in Read(WriteMany(kt, parents, side, parent, [w]).value, parent, col)
  {
    WriteManyLocal(kt, parents, side, parent, [w]);
    KeyRowOne(kt, parent in parents, At(side, parent, key), w, key);
    ReadAt(WriteMany(kt, parents, side, parent, [w]).value, parent, col, key);
  }

  /** A NOT NULL column cleared to "" cannot be saved back next to a filled neighbour:
      the read leaves the empty text out, so the upsert would leave the column NULL. */
  lemma ClearedBlocksSaveBack(kt: KeyedTable, parents: set<string>, side: Side, parent: string, writes: seq<Write>, w: Write, key: string, n: string)
    requires DistinctCols(writes) && Loaded(side, parent, writes)
    requires w in writes && key in Read(side, parent, w.col)
    requires n in kt.notNull && Text(At(side, parent, key), n) == ""
    ensures WriteMany(kt, parents, side, parent, writes).Err?
  {
    SaveBackGroup(kt, parents, side, parent, writes);
    ReadAt(side, parent, n, key);
    assert key !in Read(side, parent, n);
    assert !CompleteKeys(kt, side, parent, writes);
  }
}
