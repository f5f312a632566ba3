/** What writeKeyedGroups does to the side tables of one save. */
module GroupLaws {
  import opened Values
  import opened SideTables
  import opened KeyedLaws
  import opened Columns
  import opened Database
  import opened CellLaws
  import opened StoreSpec
  import opened PlanLaws

  ghost predicate HandledBy(cells: seq<Named>, input: map<string, Json>, nc: Named, w: Write) {
    nc in cells && Handled(nc, input) && w == Write(nc.column.col, nc.column.clear, input[nc.name].fields)
  }

  /** The writes of one side table: a column once, one for each handled cell over it, and
      no others. */
  ghost predicate GroupSound(cells: seq<Named>, input: map<string, Json>, table: string, writes: seq<Write>) {
    && DistinctCols(writes)
    && (forall nc :: nc in cells && Handled(nc, input) && nc.column.side.name == table ==>
          Write(nc.column.col, nc.column.clear, input[nc.name].fields) in writes)
    && (forall w :: w in writes ==> exists nc :: HandledBy(cells, input, nc, w) && nc.column.side.name == table)
  }

  lemma {:induction false} GroupWritesSound(cells: seq<Named>, input: map<string, Json>, table: string)
    requires DistinctStorage(cells) && DistinctNames(cells)
    ensures GroupSound(cells, input, table, GroupWrites(cells, input, table))
  {
    if cells != [] {
      var init, last := cells[..|cells| - 1], cells[|cells| - 1];
      assert cells == init + [last];
      PrefixOk(cells);
      GroupWritesSound(init, input, table);
      if Handled(last, input) && last.column.side.name == table {
        WriteAdded(init, last, input, table, GroupWrites(init, input, table));
      } else {
        WriteSkipped(init, last, input, table, GroupWrites(init, input, table));
      }
    }
  }

  lemma WriteSkipped(init: seq<Named>, last: Named, input: map<string, Json>, table: string, writes: seq<Write>)
    requires GroupSound(init, input, table, writes) && !(Handled(last, input) && last.column.side.name == table)
    ensures GroupSound(init + [last], input, table, writes)
  {
    forall w | w in writes ensures exists nc :: HandledBy(init + [last], input, nc, w) && nc.column.side.name == table {
      var nc :| HandledBy(init, input, nc, w) && nc.column.side.name == table;
      assert HandledBy(init + [last], input, nc, w);
    }
  }

  lemma WriteAdded(init: seq<Named>, last: Named, input: map<string, Json>, table: string, writes: seq<Write>)
    requires GroupSound(init, input, table, writes) && Handled(last, input) && last.column.side.name == table
    requires forall nc :: nc in init ==> StorageOf(nc.column) != StorageOf(last.column)
    ensures GroupSound(init + [last], input, table, writes + [Write(last.column.col, last.column.clear, input[last.name].fields)])
  {
    var added := Write(last.column.col, last.column.clear, input[last.name].fields);
    forall w | w in writes
      ensures w.col != added.col && exists nc :: HandledBy(init + [last], input, nc, w) && nc.column.side.name == table
    {
      var nc :| HandledBy(init, input, nc, w) && nc.column.side.name == table;
      assert HandledBy(init + [last], input, nc, w);
    }
    assert HandledBy(init + [last], input, last, added);
    assert forall i :: 0 <= i < |writes| ==> writes[i] in writes;
  }

  ghost predicate HasTable(tables: seq<KeyedTable>, name: string) {
    exists i :: 0 <= i < |tables| && tables[i].name == name
  }

  lemma HasTableSnoc(tables: seq<KeyedTable>, kt: KeyedTable, name: string)
    ensures HasTable(tables + [kt], name) <==> HasTable(tables, name) || kt.name == name
  {
    var all := tables + [kt];
    if HasTable(tables, name) {
      var i :| 0 <= i < |tables| && tables[i].name == name;
      assert all[i].name == name;
    }
    assert all[|tables|] == kt;
  }

  lemma {:induction false} GroupTablesSound(cells: seq<Named>, input: map<string, Json>, nc: Named)
    requires nc in cells && Handled(nc, input)
    ensures HasTable(GroupTables(cells, input), nc.column.side.name)
  {
    var init, last := cells[..|cells| - 1], cells[|cells| - 1];
    assert cells == init + [last];
    if nc in init { GroupTablesSound(init, input, nc); }
    if last.column.KeyedStrings? {
      HasTableSnoc(GroupTables(init, input), last.column.side, nc.column.side.name);
    }
  }

  ghost predicate DistinctTables(tables: seq<KeyedTable>) {
    forall i, j :: 0 <= i < j < |tables| ==> tables[i].name != tables[j].name
  }

  lemma {:induction false} GroupTablesDistinct(cells: seq<Named>, input: map<string, Json>)
    ensures DistinctTables(GroupTables(cells, input))
  {
    if cells != [] { GroupTablesDistinct(cells[..|cells| - 1], input); }
  }

  ghost predicate TableWritten(db: Db, id: string, cells: seq<Named>, input: map<string, Json>, kt: KeyedTable, side: Side) {
    WriteMany(kt, db.main.Keys, SideOf(db, kt.name), id, GroupWrites(cells, input, kt.name)) == Ok(side)
  }

  /** The effect of the groups written so far: each of their tables holds its grouped
      upsert, nothing else changed. */
  ghost predicate GroupsWritten(db: Db, id: string, cells: seq<Named>, input: map<string, Json>, tables: seq<KeyedTable>, out: Db) {
    && out.main == db.main && out.childs == db.childs && out.rels == db.rels
    && (forall i :: 0 <= i < |tables| ==> TableWritten(db, id, cells, input, tables[i], SideOf(out, tables[i].name)))
    && (forall n :: !HasTable(tables, n) ==> SideOf(out, n) == SideOf(db, n))
  }

  lemma GroupStep(db: Db, id: string, cells: seq<Named>, input: map<string, Json>, tables: seq<KeyedTable>, kt: KeyedTable, mid: Db, side: Side)
    requires GroupsWritten(db, id, cells, input, tables, mid)
    requires !HasTable(tables, kt.name)
    requires TableWritten(db, id, cells, input, kt, side)
    ensures GroupsWritten(db, id, cells, input, tables + [kt], mid.(sides := mid.sides[kt.name := side]))
  {
    var out := mid.(sides := mid.sides[kt.name := side]);
    forall n | !HasTable(tables + [kt], n) ensures SideOf(out, n) == SideOf(db, n) {
      HasTableSnoc(tables, kt, n);
    }
    var all := tables + [kt];
    forall i | 0 <= i < |all| ensures TableWritten(db, id, cells, input, all[i], SideOf(out, all[i].name)) {
      if i < |tables| {
        assert tables[i].name != kt.name;
        SideOfPut(mid, kt.name, side, tables[i].name);
      } else {
        SideOfPut(mid, kt.name, side, kt.name);
      }
    }
  }

  lemma SideOfPut(db: Db, table: string, side: Side, n: string)
    ensures SideOf(db.(sides := db.sides[table := side]), n) == if n == table then side else SideOf(db, n)
  {}

  /** One more group. */
  lemma GroupTurn(db: Db, id: string, cells: seq<Named>, input: map<string, Json>, init: seq<KeyedTable>, kt: KeyedTable, mid: Db, out: Db)
    requires GroupsWritten(db, id, cells, input, init, mid) && !HasTable(init, kt.name)
    requires WriteGroup(Ok(mid), id, cells, input, kt) == Ok(out)
    ensures GroupsWritten(db, id, cells, input, init + [kt], out)
  {
    var side := WriteMany(kt, mid.main.Keys, SideOf(mid, kt.name), id, GroupWrites(cells, input, kt.name)).value;
    assert SideOf(mid, kt.name) == SideOf(db, kt.name);
    GroupStep(db, id, cells, input, init, kt, mid, side);
  }

  lemma LastTable(tables: seq<KeyedTable>)
    requires DistinctTables(tables) && tables != []
    ensures var init, kt := tables[..|tables| - 1], tables[|tables| - 1];
      tables == init + [kt] && DistinctTables(init) && !HasTable(init, kt.name)
  {}

  lemma {:induction false} WriteGroupsSound(db: Db, id: string, cells: seq<Named>, input: map<string, Json>, tables: seq<KeyedTable>)
    requires DistinctTables(tables)
    requires WriteGroups(db, id, cells, input, tables).Ok?
    ensures GroupsWritten(db, id, cells, input, tables, WriteGroups(db, id, cells, input, tables).value)
  {
    if tables == [] {
      NoGroups(db, id, cells, input);
    } else {
      var init, kt := tables[..|tables| - 1], tables[|tables| - 1];
      LastTable(tables);
      WriteGroupsSound(db, id, cells, input, init);
      GroupTurn(db, id, cells, input, init, kt, WriteGroups(db, id, cells, input, init).value, WriteGroups(db, id, cells, input, tables).value);
    }
  }

  lemma NoGroups(db: Db, id: string, cells: seq<Named>, input: map<string, Json>)
    ensures GroupsWritten(db, id, cells, input, [], db)
  {}

  /** No write of a group is to a column no handled cell touches, or deletes its rows. */
  lemma NotGrouped(cells: seq<Named>, input: map<string, Json>, table: string, col: string)
    requires DistinctStorage(cells) && DistinctNames(cells)
    requires forall nc :: nc in cells && Handled(nc, input) ==> !Touches(nc.column, InSide(table, col))
    ensures forall w :: w in GroupWrites(cells, input, table) ==> w.col != col && w.clear != DeleteRow
  {
    GroupWritesSound(cells, input, table);
    forall w | w in GroupWrites(cells, input, table) ensures w.col != col && w.clear != DeleteRow {
      var nc :| HandledBy(cells, input, nc, w) && nc.column.side.name == table;
    }
  }

  lemma TableIsolated(db: Db, id: string, cells: seq<Named>, input: map<string, Json>, kt: KeyedTable, side: Side, col: string, p: string)
    requires DistinctStorage(cells) && DistinctNames(cells)
    requires TableWritten(db, id, cells, input, kt, side)
    requires p != id || forall nc :: nc in cells && Handled(nc, input) ==> !Touches(nc.column, InSide(kt.name, col))
    ensures Read(side, p, col) == Read(SideOf(db, kt.name), p, col)
  {
    if p != id {
      WriteManyOthers(kt, db.main.Keys, SideOf(db, kt.name), id, GroupWrites(cells, input, kt.name), p, col);
    } else {
      GroupWritesSound(cells, input, kt.name);
      NotGrouped(cells, input, kt.name, col);
      WriteManyUnwritten(kt, db.main.Keys, SideOf(db, kt.name), id, GroupWrites(cells, input, kt.name), p, col);
    }
  }

  /** Storage no handled cell touches reads as before, and all that other parents see. */
  lemma GroupsIsolated(db: Db, id: string, cells: seq<Named>, input: map<string, Json>, out: Db, st: Storage, p: string)
    requires DistinctStorage(cells) && DistinctNames(cells)
    requires GroupsWritten(db, id, cells, input, GroupTables(cells, input), out)
    requires p != id || forall nc :: nc in cells && Handled(nc, input) ==> !Touches(nc.column, st)
    ensures SameStorage(db, out, st, p)
  {
    if st.InSide? {
      var tables := GroupTables(cells, input);
      if i :| 0 <= i < |tables| && tables[i].name == st.table {
        TableIsolated(db, id, cells, input, tables[i], SideOf(out, tables[i].name), st.col, p);
      }
    }
  }

  /** Where cells are separate, one that deletes rows is alone in its group. */
  lemma GroupFits(cells: seq<Named>, input: map<string, Json>, nc: Named)
    requires Separate(cells) && DistinctNames(cells) && nc in cells && Handled(nc, input)
    ensures DistinctStorage(cells)
    ensures var writes, w := GroupWrites(cells, input, nc.column.side.name), Write(nc.column.col, nc.column.clear, input[nc.name].fields);
      DistinctCols(writes) && w in writes && (NoDelete(writes) || writes == [w])
  {
    SeparateDistinct(cells);
    var writes, w := GroupWrites(cells, input, nc.column.side.name), Write(nc.column.col, nc.column.clear, input[nc.name].fields);
    GroupWritesSound(cells, input, nc.column.side.name);
    if v :| v in writes && v.clear == DeleteRow {
      forall u | u in writes ensures u == v {
        var a :| HandledBy(cells, input, a, v) && a.column.side.name == nc.column.side.name;
        var b :| HandledBy(cells, input, b, u) && b.column.side.name == nc.column.side.name;
        SeparatePair(cells, a, b);
      }
      OnlyOne(writes, v);
    }
  }

  lemma SeparatePair(cells: seq<Named>, a: Named, b: Named)
    requires Separate(cells) && a in cells && b in cells
    ensures a == b || !Touches(a.column, StorageOf(b.column))
  {
    var i :| 0 <= i < |cells| && cells[i] == a;
    var j :| 0 <= j < |cells| && cells[j] == b;
  }

  lemma OnlyOne(writes: seq<Write>, w: Write)
    requires DistinctCols(writes) && w in writes && forall u :: u in writes ==> u == w
    ensures writes == [w]
  {
    assert forall i :: 0 <= i < |writes| ==> writes[i] in writes && writes[i] == w;
    assert |writes| > 1 ==> writes[0].col != writes[1].col;
  }

  /** A handled cell that erases what it clears reads as its old map overlaid with its own
      patch. */
  lemma GroupsOverlay(db: Db, id: string, cells: seq<Named>, input: map<string, Json>, out: Db, nc: Named)
    requires Separate(cells) && DistinctNames(cells)
    requires GroupsWritten(db, id, cells, input, GroupTables(cells, input), out)
    requires nc in cells && Handled(nc, input) && Erases(Write(nc.column.col, nc.column.clear, input[nc.name].fields))
    ensures Read(SideOf(out, nc.column.side.name), id, nc.column.col)
         == Overlay(Read(SideOf(db, nc.column.side.name), id, nc.column.col), input[nc.name].fields)
  {
    GroupTablesSound(cells, input, nc);
    var tables := GroupTables(cells, input);
    var i :| 0 <= i < |tables| && tables[i].name == nc.column.side.name;
    assert TableWritten(db, id, cells, input, tables[i], SideOf(out, tables[i].name));
    GroupFits(cells, input, nc);
    WriteManyReads(tables[i], db.main.Keys, SideOf(db, tables[i].name), id, GroupWrites(cells, input, tables[i].name),
      Write(nc.column.col, nc.column.clear, input[nc.name].fields));
  }
}
