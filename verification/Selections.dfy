/** Which elements of a submitted list a save keeps, told by their positions. */
module Selections {
  import opened Values
  import opened Columns
  import opened ChildLaws
  import opened ListLaws
  import opened RelsTables
  import opened Database

  /** Positions of a list of n elements, in order. */
  ghost predicate Rising(pos: seq<nat>, n: nat) {
    && (forall j :: 0 <= j < |pos| ==> pos[j] < n)
    && (forall i, j :: 0 <= i < j < |pos| ==> pos[i] < pos[j])
  }

  lemma RisingSnoc(pos: seq<nat>, n: nat)
    requires Rising(pos, n)
    ensures Rising(pos, n + 1) && Rising(pos + [n], n + 1)
    ensures forall i :: i in pos + [n] <==> i in pos || i == n
    ensures n !in pos
  {}

  // --- resolved lists ------------------------------------------------------------------------

  /** What a resolver makes of a list: each element resolved, the nil results left out, the
      others in order. */
  ghost predicate ResolvedTo(resolve: (string, Json) -> Result<Json>, parent: string, list: seq<Json>, pos: seq<nat>, q: seq<Json>) {
    && Rising(pos, |list|) && |q| == |pos|
    && (forall i :: 0 <= i < |list| ==> resolve(parent, list[i]).Ok? && (i in pos <==> resolve(parent, list[i]).value != Null))
    && (forall j :: 0 <= j < |q| ==> Ok(q[j]) == resolve(parent, list[pos[j]]))
  }

  /** The first element whose resolver fails. */
  ghost predicate FailsFirst(resolve: (string, Json) -> Result<Json>, parent: string, list: seq<Json>, i: int, e: Failure) {
    0 <= i < |list| && resolve(parent, list[i]) == Err(e) && forall j :: 0 <= j < i ==> resolve(parent, list[j]).Ok?
  }

  /** The outcome of resolving a list. */
  ghost predicate Resolves(resolve: (string, Json) -> Result<Json>, parent: string, list: seq<Json>, r: Result<seq<Json>>) {
    match r
    case Ok(q) => exists pos: seq<nat> :: ResolvedTo(resolve, parent, list, pos, q)
    case Err(e) => exists i :: FailsFirst(resolve, parent, list, i, e)
  }

  lemma ResolvedSnoc(resolve: (string, Json) -> Result<Json>, parent: string, list: seq<Json>, pos: seq<nat>, q: seq<Json>, v: Json)
    requires ResolvedTo(resolve, parent, list, pos, q) && resolve(parent, v).Ok?
    ensures resolve(parent, v).value == Null ==> ResolvedTo(resolve, parent, list + [v], pos, q)
    ensures resolve(parent, v).value != Null ==> ResolvedTo(resolve, parent, list + [v], pos + [|list|], q + [resolve(parent, v).value])
  {
    RisingSnoc(pos, |list|);
    assert forall i :: 0 <= i < |list| ==> (list + [v])[i] == list[i];
  }

  lemma FailsStill(resolve: (string, Json) -> Result<Json>, parent: string, list: seq<Json>, more: seq<Json>, i: int, e: Failure)
    requires FailsFirst(resolve, parent, list, i, e)
    ensures FailsFirst(resolve, parent, list + more, i, e)
  {}

  lemma {:induction false} ResolveAllResolves(resolve: (string, Json) -> Result<Json>, parent: string, list: seq<Json>)
    ensures Resolves(resolve, parent, list, ResolveAll(resolve, parent, list))
  {
    if list == [] {
      assert ResolvedTo(resolve, parent, list, [], []);
    } else {
      var init, v := list[..|list| - 1], list[|list| - 1];
      assert list == init + [v];
      ResolveAllResolves(resolve, parent, init);
      match ResolveAll(resolve, parent, init)
      case Err(e) =>
        var i :| FailsFirst(resolve, parent, init, i, e);
        FailsStill(resolve, parent, init, [v], i, e);
      case Ok(q) =>
        var pos: seq<nat> :| ResolvedTo(resolve, parent, init, pos, q);
        ResolvedLast(resolve, parent, init, pos, q, v);
    }
  }

  lemma ResolvedLast(resolve: (string, Json) -> Result<Json>, parent: string, init: seq<Json>, pos: seq<nat>, q: seq<Json>, v: Json)
    requires ResolvedTo(resolve, parent, init, pos, q)
    ensures match resolve(parent, v)
      case Err(e) => Resolves(resolve, parent, init + [v], Err(e))
      case Ok(x) => Resolves(resolve, parent, init + [v], Ok(if x == Null then q else q + [x]))
  {
    if resolve(parent, v).Ok? {
      ResolvedSnoc(resolve, parent, init, pos, q, v);
    } else {
      assert FailsFirst(resolve, parent, init + [v], |init|, resolve(parent, v).error);
    }
  }

  // --- parsed lists --------------------------------------------------------------------------

  /** What a cell keeps of a list: the elements it parses, in order, as they read once they
      are stored. */
  ghost predicate ParsedTo(elem: Column, list: seq<Json>, pos: seq<nat>, q: seq<Json>)
    requires elem.Scalar?
  {
    && Rising(pos, |list|) && |q| == |pos|
    && (forall i :: 0 <= i < |list| ==> (i in pos <==> elem.parse(list[i]).Some?))
    && (forall j :: 0 <= j < |q| ==> elem.parse(list[pos[j]]).Some? && q[j] == ReadAs(elem, list[pos[j]]))
  }

  lemma ParsedSnoc(elem: Column, list: seq<Json>, pos: seq<nat>, q: seq<Json>, v: Json)
    requires elem.Scalar? && ParsedTo(elem, list, pos, q)
    ensures elem.parse(v).None? ==> ParsedTo(elem, list + [v], pos, q)
    ensures elem.parse(v).Some? ==> ParsedTo(elem, list + [v], pos + [|list|], q + [ReadAs(elem, v)])
  {
    RisingSnoc(pos, |list|);
    assert forall i :: 0 <= i < |list| ==> (list + [v])[i] == list[i];
  }

  lemma {:induction false} ReadsParsed(elem: Column, list: seq<Json>) returns (pos: seq<nat>)
    requires elem.Scalar?
    ensures ParsedTo(elem, list, pos, Reads(elem, list))
  {
    if list == [] {
      pos := [];
    } else {
      var init, v := list[..|list| - 1], list[|list| - 1];
      assert list == init + [v];
      pos := ReadsParsed(elem, init);
      ParsedSnoc(elem, init, pos, Reads(elem, init), v);
      if elem.parse(v).Some? {
        assert Reads(elem, list) == Reads(elem, init) + [ReadAs(elem, v)];
        pos := pos + [|init|];
      } else {
        assert Reads(elem, list) == Reads(elem, init);
      }
    }
  }

  // --- objects ---------------------------------------------------------------------------------

  /** The objects of a list, in order. */
  ghost predicate ObjectsOf(list: seq<Json>, pos: seq<nat>, q: seq<Json>) {
    && Rising(pos, |list|) && |q| == |pos|
    && (forall i :: 0 <= i < |list| ==> (i in pos <==> list[i].Obj?))
    && (forall j :: 0 <= j < |q| ==> q[j] == list[pos[j]])
  }

  lemma ObjectsSnoc(list: seq<Json>, pos: seq<nat>, q: seq<Json>, v: Json)
    requires ObjectsOf(list, pos, q)
    ensures if v.Obj? then ObjectsOf(list + [v], pos + [|list|], q + [v]) else ObjectsOf(list + [v], pos, q)
  {
    RisingSnoc(pos, |list|);
    assert forall i :: 0 <= i < |list| ==> (list + [v])[i] == list[i];
  }

  lemma {:induction false} ObjectsSelected(list: seq<Json>) returns (pos: seq<nat>)
    ensures ObjectsOf(list, pos, Objects(list))
  {
    if list == [] {
      pos := [];
    } else {
      var init, v := list[..|list| - 1], list[|list| - 1];
      assert list == init + [v];
      pos := ObjectsSelected(init);
      ObjectsSnoc(init, pos, Objects(init), v);
      if v.Obj? { pos := pos + [|init|]; }
    }
  }

  // --- identifiers -------------------------------------------------------------------------------

  /** The non-empty strings of a list, each once, in the order of their first occurrence. */
  ghost predicate FirstsOf(list: seq<Json>, ids: seq<string>) {
    && (forall s :: s in ids <==> s != "" && exists i :: 0 <= i < |list| && list[i] == Str(s))
    && (forall i, j :: 0 <= i < j < |ids| ==> exists a :: 0 <= a < |list| && list[a] == Str(ids[i]) && forall b :: 0 <= b <= a ==> list[b] != Str(ids[j]))
    && (forall i, j :: 0 <= i < j < |ids| ==> ids[i] != ids[j])
  }

  lemma FirstIndex(list: seq<Json>, s: string)
    requires s != ""
    ensures IndexOf(list, s) < |list| <==> exists i :: 0 <= i < |list| && list[i] == Str(s)
    ensures forall b :: 0 <= b < IndexOf(list, s) ==> list[b] != Str(s)
    ensures IndexOf(list, s) < |list| ==> list[IndexOf(list, s)] == Str(s)
  {}

  lemma IdSliceIsFirsts(list: seq<Json>)
    ensures FirstsOf(list, IdSlice(list))
  {
    var ids := IdSlice(list);
    IdSliceOrdered(list);
    forall s ensures s in ids <==> s != "" && exists i :: 0 <= i < |list| && list[i] == Str(s) {
      IdSliceMembers(list, s);
      if s != "" { FirstIndex(list, s); }
    }
    forall i, j | 0 <= i < j < |ids|
      ensures exists a :: 0 <= a < |list| && list[a] == Str(ids[i]) && forall b :: 0 <= b <= a ==> list[b] != Str(ids[j])
    {
      IdSliceFirsts(list, i, j);
      FirstIndex(list, ids[i]);
      FirstIndex(list, ids[j]);
      assert list[IndexOf(list, ids[i])] == Str(ids[i]);
    }
  }
}
