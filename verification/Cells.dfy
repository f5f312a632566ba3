/** The scalar cells of adapter/erjet/column.go: one parse each, read back by Normalize. */
module Cells {
  import opened Numbers
  import opened Values
  import opened Columns

  /** Text: nullable, an explicit null clears. */
  function ParseText(v: Json): Option<Parsed> {
    match v
    case Null => Some(Parsed(SqlNull, Null))
    case Str(x) => Some(Parsed(SqlText(x), v))
    case _ => None
  }

  /** Str: never null; a fallback replaces the empty string. */
  function ParseStr(fallback: string, v: Json): Option<Parsed> {
    if !v.Str? then None
    else
      var s := if v.s == "" && fallback != "" then fallback else v.s;
      Some(Parsed(SqlText(s), Str(s)))
  }

  function ParseBool(v: Json): Option<Parsed> {
    if v.Bool? then Some(Parsed(SqlBool(v.b), v)) else None
  }

  /** Int: whole numbers only, echoed as the float the read gives. */
  function ParseInt(v: Json): Option<Parsed> {
    match v
    case Null => Some(Parsed(SqlNull, Null))
    case Num(f) =>
      (match WholeNumber(f)
       case Rejected => None
       case Accepted(n, echo) => Some(Parsed(SqlInt(n), Json.Num(echo))))
    case _ => None
  }

  /** Num: the column is numeric, which has no negative zero. JSON carries neither NaN
      nor infinities. */
  function ParseNum(v: Json): Option<Parsed> {
    match v
    case Null => Some(Parsed(SqlNull, Null))
    case Num(f) =>
      (match f
       case NegativeZero => Some(Parsed(SqlNumeric(0.0), v))
       case Finite(x) => Some(Parsed(SqlNumeric(x), v))
       case _ => None)
    case _ => None
  }

  /** UUID: null and the empty text clear; any other text is left to the server's cast. */
  function ParseUuid(v: Json): Option<Parsed> {
    match v
    case Null => Some(Parsed(SqlNull, Null))
    case Str(x) => Some(if x == "" then Parsed(SqlNull, Null) else Parsed(SqlText(x), v))
    case _ => None
  }

  /** A column that casts text: the image of the cast, or 22P02. */
  function Casting(cast: Cast): Admit {
    (v: Sql) =>
      if !v.SqlText? then Ok(v)
      else
        match cast(v.text)
        case None => Err(InvalidText)
        case Some(image) => Ok(SqlText(image))
  }

  /** A column that stores what it is given. */
  const PLAIN: Admit := (v: Sql) => Ok(v)

  function TextCell(col: string, admit: Admit): Column { Scalar(col, ParseText, admit, Normalize) }
  function StrCell(col: string, fallback: string, admit: Admit): Column { Scalar(col, v => ParseStr(fallback, v), admit, Normalize) }
  function BoolCell(col: string, admit: Admit): Column { Scalar(col, ParseBool, admit, Normalize) }
  function IntCell(col: string, admit: Admit): Column { Scalar(col, ParseInt, admit, Normalize) }
  function NumCell(col: string, admit: Admit): Column { Scalar(col, ParseNum, admit, Normalize) }
  function UuidCell(col: string, cast: Cast): Column { Scalar(col, ParseUuid, Casting(cast), Normalize) }

  // --- what each cell takes ---------------------------------------------------------------------

  /** What a cell stored of a value, as a read shows it. */
  function Shows(p: Option<Parsed>): Option<Json> {
    if p.Some? then Some(Normalize(p.value.stored)) else None
  }

  /** A text cell takes null and texts and a boolean cell booleans, each as sent; a string
      cell takes texts, the fallback in place of an empty one. */
  lemma TextsTaken(fallback: string, v: Json)
    ensures Shows(ParseText(v)) == if v == Null || v.Str? then Some(v) else None
    ensures Shows(ParseBool(v)) == if v.Bool? then Some(v) else None
    ensures Shows(ParseStr(fallback, v)) == if !v.Str? then None else if v.s == "" then Some(Str(fallback)) else Some(v)
  {}

  predicate IsInteger(f: Float, n: int) {
    f == Finite(n as real)
  }

  /** The integers a JSON number can carry without losing digits. */
  ghost predicate SafeInteger(f: Float) {
    f == NegativeZero || exists n :: -SAFE <= n <= SAFE && IsInteger(f, n)
  }

  /** Negative zero is zero in a database. */
  function Unsigned(v: Json): Json {
    if v == Num(NegativeZero) then Num(Finite(0.0)) else v
  }

  /** An integer cell takes null and the integers up to 2^53 and nothing else, a numeric
      cell null and every number; both read as sent, a negative zero as zero. */
  lemma NumbersTaken(v: Json)
    ensures ParseInt(v).Some? <==> v == Null || (v.Num? && SafeInteger(v.f))
    ensures ParseInt(v).Some? ==> Shows(ParseInt(v)) == Some(Unsigned(v))
    ensures ParseNum(v).Some? <==> v == Null || (v.Num? && (v.f == NegativeZero || v.f.Finite?))
    ensures ParseNum(v).Some? ==> Shows(ParseNum(v)) == Some(Unsigned(v))
  {
    if v.Num? && v.f.Finite? && WholeNumber(v.f).Accepted? {
      var n := WholeNumber(v.f).n;
      assert -SAFE <= n <= SAFE && IsInteger(v.f, n);
    }
    if v.Num? && WholeNumber(v.f).Accepted? { AcceptedSurvives(v.f); }
    if v.Num? && v.f.Finite? {
      if n :| -SAFE <= n <= SAFE && IsInteger(v.f, n) { SmallIsAccepted(n); }
    }
  }

  /** A uuid cell takes null and texts: null and the empty text clear, a text that is a
      uuid is stored in the server's form. */
  lemma UuidTaken(col: string, cast: Cast, v: Json)
    ensures ParseUuid(v).Some? <==> v == Null || v.Str?
    ensures v == Null || v == Str("") ==> Admits(UuidCell(col, cast), v) && Shows(ParseUuid(v)) == Some(Null)
    ensures v.Str? && v.s != "" && cast(v.s).Some? ==> UuidCell(col, cast).admit(ParseUuid(v).value.stored) == Ok(SqlText(cast(v.s).value))
  {}

  // --- the echo of a save and the next read --------------------------------------------------

  /** The column stores the value as it is. */
  predicate Keeps(c: Column, v: Json) {
    c.Scalar? && c.parse(v).Some? ==> c.admit(c.parse(v).value.stored) == Ok(c.parse(v).value.stored)
  }

  /** Text, string, boolean and integer cells echo what a read gives, wherever the column
      stores the value as it is. */
  lemma EchoedAsRead(c: Column, col: string, fallback: string, admit: Admit, v: Json)
    requires c in {TextCell(col, admit), StrCell(col, fallback, admit), BoolCell(col, admit), IntCell(col, admit)}
    requires Keeps(c, v)
    ensures Echoed(c, v)
  {}

  /** A numeric cell over such a column echoes what a read gives for every number but the
      negative zero. */
  lemma NumEcho(col: string, admit: Admit, v: Json)
    requires ParseNum(v).Some? && Keeps(NumCell(col, admit), v)
    ensures Echoed(NumCell(col, admit), v) <==> v != Num(NegativeZero)
  {}

  /** A uuid cell is refused exactly for a text that is no uuid, and echoes what a read
      gives exactly when nothing, or a uuid in the form the server shows, is sent. */
  lemma UuidEcho(col: string, cast: Cast, v: Json, e: Failure)
    requires ParseUuid(v).Some?
    ensures Refuses(UuidCell(col, cast), v, e) <==> e == InvalidText && v.Str? && v.s != "" && cast(v.s) == None
    ensures Admits(UuidCell(col, cast), v) ==> (Echoed(UuidCell(col, cast), v) <==> !v.Str? || v.s == "" || cast(v.s) == Some(v.s))
  {}

  // --- what a read gave, sent back -------------------------------------------------------------

  /** A text, boolean or numeric column reads the same after its read is sent back; a
      string column with a fallback unless it held the empty string; a uuid column always,
      holding nothing but images of its cast. */
  lemma ReadReparses(col: string, fallback: string, cast: Cast, s: Sql)
    ensures s == SqlNull || s.SqlText? ==> Reparses(TextCell(col, PLAIN), Normalize(s))
    ensures s == SqlNull || s.SqlText? ==> (Reparses(StrCell(col, fallback, PLAIN), Normalize(s)) <==> s != SqlText("") || fallback == "")
    ensures s == SqlNull || s.SqlBool? ==> Reparses(BoolCell(col, PLAIN), Normalize(s))
    ensures s == SqlNull || s.SqlNumeric? ==> Reparses(NumCell(col, PLAIN), Normalize(s))
    ensures s == SqlNull || (s.SqlText? && s.text != "" && cast(s.text) == Some(s.text)) ==> Reparses(UuidCell(col, cast), Normalize(s))
  {}

  /** An integer column reads the same after its read is sent back, and holds the same
      integer afterwards exactly when that is at most 2^53 in magnitude. */
  lemma IntReparses(col: string, n: int)
    ensures Reparses(IntCell(col, PLAIN), Normalize(SqlInt(n)))
    ensures ParseInt(Normalize(SqlInt(n))).Some? <==> -SAFE - 1 <= n <= SAFE + 1
    ensures ParseInt(Normalize(SqlInt(n))).Some? ==> (ParseInt(Normalize(SqlInt(n))).value.stored == SqlInt(n) <==> -SAFE <= n <= SAFE)
  {
    RereadInteger(n);
    assert ToFloat(n) != NegativeZero;
    if WholeNumber(ToFloat(n)).Accepted? { AcceptedSurvives(ToFloat(n)); }
  }
}
