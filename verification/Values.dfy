/** Wire values, stored values and the outcomes of statements. */
module Values {
  import opened Numbers

  datatype Option<+T> = None | Some(value: T)

  /** Why a statement or a save was refused. */
  datatype Failure =
    | NotNullViolation      // 23502
    | ForeignKeyViolation   // 23503
    | UniqueViolation       // 23505
    | InvalidText           // 22P02, a cast the server rejects
    | ConstraintConflict    // the sentinel of Store.Delete
    | NotFound              // editrig.ErrNotFound
    | HookFailure           // an error of an application hook
    | Unavailable           // the driver, at any statement

  datatype Result<+T> = Ok(value: T) | Err(error: Failure)

  type Status = Result<()>

  datatype Upload = Upload(filename: string, mime: string, data: seq<bv8>)

  /** A decoded JSON value; an Upload takes the place of a media value. */
  datatype Json =
    | Null
    | Bool(b: bool)
    | Num(f: Float)
    | Str(s: string)
    | Arr(items: seq<Json>)
    | Obj(fields: map<string, Json>)
    | File(upload: Upload)

  datatype Sql =
    | SqlNull
    | SqlText(text: string)
    | SqlInt(n: int)
    | SqlBool(b: bool)
    | SqlNumeric(numeric: real)
    | SqlJson(doc: Json)

  /** The non-null columns of one table row: an absent column is NULL. */
  type Row = map<string, Sql>

  function Cell(row: Row, col: string): Sql {
    if col in row then row[col] else SqlNull
  }

  /** `s, _ := v.(string)` over a payload value. */
  function StringOf(v: Json): string {
    if v.Str? then v.s else ""
  }

  /** The same over a payload entry; a missing key reads as nil. */
  function StringAt(m: map<string, Json>, key: string): string {
    if key in m then StringOf(m[key]) else ""
  }
}
