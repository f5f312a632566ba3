/** How a payload splits into the two write phases, and what the UPDATEs leave in the
    columns of the row. */
module PlanLaws {
  import opened Values
  import opened Columns
  import opened StoreSpec

  /** Every sent writable field goes to exactly one of the two phases; nothing else
      goes to either. */
  lemma ExactlyOnePhase(nc: Named, input: map<string, Json>)
    ensures nc.column.Writable() && nc.name in input ==> (InFirst(nc, input) <==> !InSecond(nc, input))
    ensures !nc.column.Writable() || nc.name !in input ==> !InFirst(nc, input) && !InSecond(nc, input)
  {}

  // --- SET -----------------------------------------------------------------------------

  /** The assignment that decides a column, if any sets it. */
  function SetOf(assigns: seq<Assign>, col: string): Option<Assign> {
    if assigns == [] then None
    else if assigns[|assigns| - 1].col == col then Some(assigns[|assigns| - 1])
    else SetOf(assigns[..|assigns| - 1], col)
  }

  lemma SetOfSnoc(assigns: seq<Assign>, a: Assign, col: string)
    ensures SetOf(assigns + [a], col) == if a.col == col then Some(a) else SetOf(assigns, col)
  {}

  lemma {:induction false} EvaluateAt(assigns: seq<Assign>, col: string)
    requires Evaluate(assigns).Ok?
    ensures col in Evaluate(assigns).value <==> SetOf(assigns, col).Some?
    ensures SetOf(assigns, col).Some? ==> Evaluate(assigns).value[col] == Stored(SetOf(assigns, col).value)
  {
    if assigns != [] { EvaluateAt(assigns[..|assigns| - 1], col); }
  }

  /** A statement is refused for a value the server refuses, and for nothing else. */
  lemma {:induction false} EvaluateRefused(assigns: seq<Assign>)
    ensures Evaluate(assigns).Ok? <==> forall i :: 0 <= i < |assigns| ==> assigns[i].admit(assigns[i].value).Ok?
    ensures Evaluate(assigns).Err? ==> exists i :: 0 <= i < |assigns| && assigns[i].admit(assigns[i].value) == Err(Evaluate(assigns).error)
  {
    if assigns != [] {
      var init := assigns[..|assigns| - 1];
      EvaluateRefused(init);
      assert forall i :: 0 <= i < |init| ==> init[i] == assigns[i];
    }
  }

  // --- the first phase ---------------------------------------------------------------------

  predicate Planned(nc: Named, input: map<string, Json>) {
    InFirst(nc, input) && AssignParse(nc.column, input[nc.name]).Some?
  }

  /** What the field writes in SET. */
  function PlannedAssign(nc: Named, input: map<string, Json>): Assign
    requires Planned(nc, input)
  {
    Assign(ColumnName(nc.column), AssignParse(nc.column, input[nc.name]).value.stored, AdmitOf(nc.column))
  }

  ghost predicate NoRepeats(q: seq<string>) {
    forall i, j :: 0 <= i < j < |q| ==> q[i] != q[j]
  }

  lemma PrefixOk(cols: seq<Named>)
    requires DistinctNames(cols) && DistinctStorage(cols) && cols != []
    ensures DistinctNames(cols[..|cols| - 1]) && DistinctStorage(cols[..|cols| - 1])
    ensures forall nc :: nc in cols[..|cols| - 1] ==>
      nc in cols && nc.name != cols[|cols| - 1].name && StorageOf(nc.column) != StorageOf(cols[|cols| - 1].column)
  {}

  ghost predicate SomePlanned(cols: seq<Named>, input: map<string, Json>, name: string) {
    exists nc :: nc in cols && nc.name == name && Planned(nc, input)
  }

  lemma PlannedSnoc(init: seq<Named>, last: Named, input: map<string, Json>, name: string)
    ensures SomePlanned(init + [last], input, name) <==> SomePlanned(init, input, name) || (last.name == name && Planned(last, input))
  {
    var cols := init + [last];
    assert last in cols && forall nc :: nc in cols <==> nc in init || nc == last;
  }

  /** Reported fields of the first phase: each once, exactly the fields with a value. */
  lemma {:induction false} PlanNames(cols: seq<Named>, input: map<string, Json>, name: string)
    requires DistinctNames(cols) && DistinctStorage(cols)
    ensures name in Assignments(cols, input).changed <==> name in Assignments(cols, input).newVals
    ensures name in Assignments(cols, input).newVals <==> SomePlanned(cols, input, name)
    ensures NoRepeats(Assignments(cols, input).changed)
    ensures |Assignments(cols, input).assigns| == |Assignments(cols, input).changed|
  {
    if cols != [] {
      var init, last := cols[..|cols| - 1], cols[|cols| - 1];
      PrefixOk(cols);
      PlanNames(init, input, name);
      PlanNames(init, input, last.name);
      assert cols == init + [last];
      PlannedSnoc(init, last, input, name);
    }
  }

  /** One field of the plan: its echo, and what SET leaves in its column. */
  lemma {:induction false} PlanAt(cols: seq<Named>, input: map<string, Json>, nc: Named)
    requires DistinctNames(cols) && DistinctStorage(cols)
    requires nc in cols
    ensures nc.name in Assignments(cols, input).newVals <==> Planned(nc, input)
    ensures Planned(nc, input) ==> Assignments(cols, input).newVals[nc.name] == AssignParse(nc.column, input[nc.name]).value.echo
    ensures ColumnOf(nc.column).Some? ==>
      SetOf(Assignments(cols, input).assigns, ColumnName(nc.column)) == if Planned(nc, input) then Some(PlannedAssign(nc, input)) else None
  {
    var init, last := cols[..|cols| - 1], cols[|cols| - 1];
    assert cols == init + [last];
    PrefixOk(cols);
    var p := Assignments(init, input);
    if nc in init {
      PlanAt(init, input, nc);
    } else {
      PlanNames(init, input, nc.name);
      if ColumnOf(nc.column).Some? { PlanUnset(cols, input, |init|, ColumnName(nc.column)); }
    }
    if Planned(last, input) && ColumnOf(nc.column).Some? {
      SetOfSnoc(p.assigns, PlannedAssign(last, input), ColumnName(nc.column));
    }
  }

  /** A column none of the first n fields projects is set by none of them. */
  lemma {:induction false} PlanUnset(cols: seq<Named>, input: map<string, Json>, n: nat, col: string)
    requires n <= |cols|
    requires forall i :: 0 <= i < n && ColumnOf(cols[i].column).Some? && cols[i].column.Writable() ==> ColumnName(cols[i].column) != col
    ensures SetOf(Assignments(cols[..n], input).assigns, col) == None
  {
    if n > 0 {
      assert cols[..n][..n - 1] == cols[..n - 1];
      PlanUnset(cols, input, n - 1, col);
      var nc, p := cols[n - 1], Assignments(cols[..n - 1], input);
      if Planned(nc, input) {
        SetOfSnoc(p.assigns, PlannedAssign(nc, input), col);
      }
    }
  }
}
