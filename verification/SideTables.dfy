/** A side table of adapter/erjet/satellite.go: one row per (parent, key). */
module SideTables {
  import opened Values
  import opened Ordering

  /** How a cell erases its value. */
  datatype Clear = SetNull | SetText(text: string) | DeleteRow

  /** No column of a side table has a default. */
  datatype KeyedTable = KeyedTable(name: string, notNull: set<string>)

  /** The patch of one cell: its column, its policy, its slice of the payload. */
  datatype Write = Write(col: string, clear: Clear, patch: map<string, Json>)

  type Side = map<(string, string), Row>

  function At(side: Side, parent: string, key: string): Option<Row> {
    if (parent, key) in side then Some(side[(parent, key)]) else None
  }

  function Put(side: Side, parent: string, key: string, row: Option<Row>): Side {
    match row
    case None => side - {(parent, key)}
    case Some(r) => side[(parent, key) := r]
  }

  function Text(row: Option<Row>, col: string): string {
    if row.Some? && Cell(row.value, col).SqlText? then Cell(row.value, col).text else ""
  }

  // --- statements ----------------------------------------------------------------

  /** Clearing one column of one row. A missing row is a normal outcome. */
  function ClearRow(kt: KeyedTable, row: Option<Row>, col: string, clear: Clear): Result<Option<Row>> {
    match row
    case None => Ok(None)
    case Some(r) =>
      match clear
      case DeleteRow => Ok(None)
      case SetText(t) => Ok(Some(r[col := SqlText(t)]))
      case SetNull => if col in kt.notNull then Err(NotNullViolation) else Ok(Some(r[col := SqlNull]))
  }

  /** INSERT ... ON CONFLICT (key, parent) DO UPDATE. NOT NULL is checked on the
      tentative row first, even when the conflicting row exists and is complete. */
  function UpsertRow(kt: KeyedTable, parentExists: bool, row: Option<Row>, vals: Row): Result<Option<Row>> {
    if exists c :: c in kt.notNull && Cell(vals, c) == SqlNull then Err(NotNullViolation)
    else match row
      case Some(r) => Ok(Some(r + vals))
      case None => if parentExists then Ok(Some(vals)) else Err(ForeignKeyViolation)
  }

  // --- one save ------------------------------------------------------------------

  /** null, "" and a non-string all clear. */
  function NewText(v: Json): string { StringOf(v) }

  /** The writes of one key: those that set it, or those that clear it. */
  function Pick(writes: seq<Write>, key: string, setting: bool): (r: seq<Write>)
    ensures forall w :: w in r <==> w in writes && key in w.patch && (NewText(w.patch[key]) != "") == setting
  {
    if writes == [] then []
    else
      var init, w := writes[..|writes| - 1], writes[|writes| - 1];
      assert writes == init + [w];
      Pick(init, key, setting) + (if key in w.patch && (NewText(w.patch[key]) != "") == setting then [w] else [])
  }

  function ClearAll(kt: KeyedTable, row: Option<Row>, ws: seq<Write>): Result<Option<Row>> {
    if ws == [] then Ok(row)
    else
      var w := ws[|ws| - 1];
      match ClearAll(kt, row, ws[..|ws| - 1])
      case Err(e) => Err(e)
      case Ok(r) => ClearRow(kt, r, w.col, w.clear)
  }

  function UpsertValues(ws: seq<Write>, key: string): Row {
    if ws == [] then map[]
    else
      var w := ws[|ws| - 1];
      UpsertValues(ws[..|ws| - 1], key)[w.col := SqlText(StringAt(w.patch, key))]
  }

  /** One key of writeMany: every clear, then one upsert of every set column. */
  function KeyRow(kt: KeyedTable, parentExists: bool, row: Option<Row>, writes: seq<Write>, key: string): Result<Option<Row>> {
    match ClearAll(kt, row, Pick(writes, key, false))
    case Err(e) => Err(e)
    case Ok(r) =>
      var sets := Pick(writes, key, true);
      if sets == [] then Ok(r) else UpsertRow(kt, parentExists, r, UpsertValues(sets, key))
  }

  function PatchKeys(writes: seq<Write>): set<string> {
    set w, k | w in writes && k in w.patch :: k
  }

  function WriteKeys(kt: KeyedTable, parents: set<string>, side: Side, parent: string, writes: seq<Write>, keys: seq<string>): Result<Side> {
    if keys == [] then Ok(side)
    else
      var key := keys[|keys| - 1];
      match WriteKeys(kt, parents, side, parent, writes, keys[..|keys| - 1])
      case Err(e) => Err(e)
      case Ok(s) =>
        match KeyRow(kt, parent in parents, At(s, parent, key), writes, key)
        case Err(e) => Err(e)
        case Ok(r) => Ok(Put(s, parent, key, r))
  }

  /** KeyedTable.writeMany: keys in sorted order. */
  function WriteMany(kt: KeyedTable, parents: set<string>, side: Side, parent: string, writes: seq<Write>): Result<Side> {
    WriteKeys(kt, parents, side, parent, writes, SortedKeys(PatchKeys(writes)))
  }

  /** The same cells each saved on its own (KeyedTable.write), in order. */
  function OneByOne(kt: KeyedTable, parents: set<string>, side: Side, parent: string, writes: seq<Write>): Result<Side> {
    if writes == [] then Ok(side)
    else
      match OneByOne(kt, parents, side, parent, writes[..|writes| - 1])
      case Err(e) => Err(e)
      case Ok(s) => WriteMany(kt, parents, s, parent, [writes[|writes| - 1]])
  }

  // --- reading -------------------------------------------------------------------

  function KeysOf(side: Side, parent: string): set<string> {
    set pk | pk in side && pk.0 == parent :: pk.1
  }

  /** KeyedTable.read: empty values and the empty key are left out. */
  function Read(side: Side, parent: string, col: string): map<string, string> {
    map k | k in KeysOf(side, parent) && k != "" && Text(At(side, parent, k), col) != "" :: Text(At(side, parent, k), col)
  }

  /** The map as the wire carries it. */
  function Texts(m: map<string, string>): Json {
    Obj(map k | k in m :: Str(m[k]))
  }

  // --- what one save means ---------------------------------------------------------

  /** The old map overlaid with the non-empty strings of the patch, minus the keys
      it clears. */
  function Overlay(before: map<string, string>, patch: map<string, Json>): map<string, string> {
    map k | k in before.Keys + patch.Keys && k != "" && (k in patch ==> NewText(patch[k]) != "") ::
      if k in patch then NewText(patch[k]) else before[k]
  }

  ghost predicate DistinctCols(writes: seq<Write>) {
    forall i, j :: 0 <= i < j < |writes| ==> writes[i].col != writes[j].col
  }

  /** Any clear that updates: ClearSetNull and ClearSet with whatever text. */
  ghost predicate NoDelete(writes: seq<Write>) {
    forall w :: w in writes ==> w.clear != DeleteRow
  }

  /** What a cleared column of an existing row holds, if the row stays. */
  function ClearedText(clear: Clear): string {
    if clear.SetText? then clear.text else ""
  }

  /** What a patch clears is empty afterwards. */
  ghost predicate Erases(w: Write) {
    ClearedText(w.clear) == "" || forall k :: k in w.patch ==> NewText(w.patch[k]) != ""
  }
}
