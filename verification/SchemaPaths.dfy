/** When the widening of an upload schema is refused: the resolution paths of a schema
    and the faults found at their ends. */
module SchemaPaths {
  import opened Values
  import opened Ordering
  import opened Pointers
  import opened References
  import opened UploadSchema
  import opened SchemaLaws

  /** From a node into one branch of its allOf, or along its reference. */
  datatype Step = Branch(i: nat) | Follow

  /** A node together with the references followed to reach it. */
  datatype Place = Place(node: Json, seen: set<string>)

  /** The node the code follows a reference to. */
  function Followed(node: Json, root: Json): Option<Json> {
    if node.Obj? && HasRef(node.fields) && LocalRef(node.fields["$ref"].s) then Reached(root, node.fields["$ref"].s) else None
  }

  function Go(at: Place, root: Json, step: Step): Option<Place> {
    match step
    case Branch(i) => if i < |BranchList(at.node)| then Some(Place(BranchList(at.node)[i], at.seen)) else None
    case Follow =>
      if Followed(at.node, root).Some? then Some(Place(Followed(at.node, root).value, at.seen + {at.node.fields["$ref"].s})) else None
  }

  /** The end of a resolution path. */
  function Arrive(at: Place, root: Json, path: seq<Step>): Option<Place>
    decreases |path|
  {
    if path == [] then Some(at)
    else if Go(at, root, path[0]).None? then None
    else Arrive(Go(at, root, path[0]).value, root, path[1..])
  }

  function RefFault(ref: string, root: Json, seen: set<string>): Option<Refusal> {
    if ref in seen then Some(Recursive(ref))
    else if !LocalRef(ref) then Some(NotLocal(ref))
    else
      match Deref(root, ref)
      case NotAnObject => Some(InvalidReference(ref))
      case NoSuchKey => Some(MissingReference(ref))
      case Found(_) => None
  }

  /** What is wrong with a node on its own. */
  predicate HasFault(at: Place, root: Json, why: Refusal) {
    at.node.Obj? &&
    var keyword := FirstOf(UNSUPPORTED, at.node.fields);
    if keyword.Some? then why == Unsupported(keyword.value)
    else
      || (HasRef(at.node.fields) && RefFault(at.node.fields["$ref"].s, root, at.seen) == Some(why))
      || ("items" in at.node.fields && at.node.fields["items"].Arr? && why == TupleItems)
  }

  /** A node carries a keyword that judges an array as a whole or by position, or changes
      what references mean. */
  ghost predicate Unfit(node: Json) {
    node.Obj? && !(node.fields.Keys !! {"$id", "$dynamicRef", "$recursiveRef", "anyOf", "oneOf", "not", "if", "then", "else",
                                        "contains", "prefixItems", "unevaluatedItems", "enum", "const"})
  }

  lemma UnsupportedAre(node: Json)
    requires node.Obj?
    ensures FirstOf(UNSUPPORTED, node.fields).Some? <==> Unfit(node)
  {
    var all := {"$id", "$dynamicRef", "$recursiveRef", "anyOf", "oneOf", "not", "if", "then", "else",
                "contains", "prefixItems", "unevaluatedItems", "enum", "const"};
    assert Elems(UNSUPPORTED) == all;
    forall k ensures k in UNSUPPORTED <==> k in all { assert k in UNSUPPORTED <==> k in Elems(UNSUPPORTED); }
  }

  /** A node's reference is followed twice, not local, or leads nowhere. */
  ghost predicate BadReference(at: Place, root: Json) {
    at.node.Obj? && HasRef(at.node.fields) && RefFault(at.node.fields["$ref"].s, root, at.seen).Some?
  }

  ghost predicate TupleArray(node: Json) {
    node.Obj? && "items" in node.fields && node.fields["items"].Arr?
  }

  lemma FaultIs(at: Place, root: Json, why: Refusal)
    requires HasFault(at, root, why)
    ensures Unfit(at.node) || BadReference(at, root) || TupleArray(at.node)
    ensures why.Unsupported? ==> why.keyword in at.node.fields
  {
    UnsupportedAre(at.node);
  }

  lemma FaultFound(at: Place, root: Json) returns (why: Refusal)
    requires Unfit(at.node) || BadReference(at, root) || TupleArray(at.node)
    ensures HasFault(at, root, why)
  {
    UnsupportedAre(at.node);
    var keyword := FirstOf(UNSUPPORTED, at.node.fields);
    if keyword.Some? {
      why := Unsupported(keyword.value);
    } else if BadReference(at, root) {
      why := RefFault(at.node.fields["$ref"].s, root, at.seen).value;
    } else {
      why := TupleItems;
    }
  }

  /** A node is at fault exactly for such a keyword, for its reference, or for a list of
      schemas in "items". */
  lemma FaultyExactly(at: Place, root: Json)
    ensures (exists why :: HasFault(at, root, why)) <==> Unfit(at.node) || BadReference(at, root) || TupleArray(at.node)
  {
    if why :| HasFault(at, root, why) {
      FaultIs(at, root, why);
    } else if Unfit(at.node) || BadReference(at, root) || TupleArray(at.node) {
      var why := FaultFound(at, root);
    }
  }

  /** The references followed along a path, in order. */
  function Followings(at: Place, root: Json, path: seq<Step>): seq<string>
    decreases |path|
  {
    if path == [] || Go(at, root, path[0]).None? then []
    else
      (if path[0].Follow? then [at.node.fields["$ref"].s] else []) + Followings(Go(at, root, path[0]).value, root, path[1..])
  }

  // --- an accepted schema has no fault on any path -----------------------------------------------

  /** The object's own part of a widened node was widened too. */
  lemma WidenedObject(node: Json, root: Json, markers: seq<Json>, seen: set<string>, u: set<string>)
    requires node.Obj?
    requires Refs(node) <= u && Refs(root) <= u
    requires Widen(node, root, markers, seen, u).Widened?
    ensures FirstOf(UNSUPPORTED, node.fields).None?
    ensures WidenHere(node, root, markers, seen, u).Widened?
  {
    if HasRef(node.fields) {
      var ref, target, expanded, rest := WidenedRef(node, root, markers, seen, u);
    } else {
      WidenedPlain(node, root, markers, seen, u);
    }
  }

  lemma WidenedItems(node: Json, root: Json, markers: seq<Json>, seen: set<string>, u: set<string>)
    requires node.Obj?
    requires Refs(node) <= u && Refs(root) <= u
    requires WidenHere(node, root, markers, seen, u).Widened?
    ensures !("items" in node.fields && node.fields["items"].Arr?)
    ensures Branches(node.fields) ==> WidenAll(node.fields["allOf"], |node.fields["allOf"].items|, root, markers, seen, u).1.None?
  {}

  lemma NoFaultHere(at: Place, root: Json, markers: seq<Json>, u: set<string>, why: Refusal)
    requires Refs(at.node) <= u && Refs(root) <= u
    requires Widen(at.node, root, markers, at.seen, u).Widened?
    ensures !HasFault(at, root, why)
  {
    if at.node.Obj? {
      WidenedObject(at.node, root, markers, at.seen, u);
      WidenedItems(at.node, root, markers, at.seen, u);
      if HasRef(at.node.fields) {
        var ref, target, expanded, rest := WidenedRef(at.node, root, markers, at.seen, u);
        assert RefFault(ref, root, at.seen) == None;
      }
    }
  }

  lemma {:induction false} WidenedBranch(branches: Json, count: nat, root: Json, markers: seq<Json>, seen: set<string>, u: set<string>, i: nat)
    requires branches.Arr? && i < count <= |branches.items|
    requires Refs(branches) <= u && Refs(root) <= u
    requires WidenAll(branches, count, root, markers, seen, u).1.None?
    ensures Widen(branches.items[i], root, markers, seen, u).Widened?
  {
    if i < count - 1 { WidenedBranch(branches, count - 1, root, markers, seen, u, i); }
  }

  lemma WidenedStep(at: Place, root: Json, markers: seq<Json>, u: set<string>, step: Step)
    requires Refs(at.node) <= u && Refs(root) <= u
    requires Widen(at.node, root, markers, at.seen, u).Widened?
    requires Go(at, root, step).Some?
    ensures var next := Go(at, root, step).value;
      Refs(next.node) <= u && Widen(next.node, root, markers, next.seen, u).Widened?
    ensures step.Follow? ==> at.node.fields["$ref"].s !in at.seen
  {
    if step.Follow? {
      var ref, target, expanded, rest := WidenedRef(at.node, root, markers, at.seen, u);
      assert Go(at, root, step) == Some(Place(target, at.seen + {ref}));
    } else {
      var branches := at.node.fields["allOf"];
      BranchRefs(at.node, u, step.i);
      WidenedObject(at.node, root, markers, at.seen, u);
      WidenedItems(at.node, root, markers, at.seen, u);
      WidenedBranch(branches, |branches.items|, root, markers, at.seen, u, step.i);
    }
  }

  lemma {:induction false} WidenedIsFaultless(at: Place, root: Json, markers: seq<Json>, u: set<string>, path: seq<Step>, why: Refusal)
    requires Refs(at.node) <= u && Refs(root) <= u
    requires Widen(at.node, root, markers, at.seen, u).Widened?
    requires Arrive(at, root, path).Some?
    ensures !HasFault(Arrive(at, root, path).value, root, why)
    decreases |path|
  {
    if path == [] {
      NoFaultHere(at, root, markers, u, why);
    } else {
      WidenedStep(at, root, markers, u, path[0]);
      WidenedIsFaultless(Go(at, root, path[0]).value, root, markers, u, path[1..], why);
    }
  }

  // --- a refusal names a fault at the end of some path ---------------------------------------------

  lemma ArriveAfter(at: Place, root: Json, step: Step, path: seq<Step>)
    requires Go(at, root, step).Some?
    ensures Arrive(at, root, [step] + path) == Arrive(Go(at, root, step).value, root, path)
  {}

  lemma {:induction false} RefusedHasFault(at: Place, root: Json, markers: seq<Json>, u: set<string>, why: Refusal) returns (path: seq<Step>)
    requires Refs(at.node) <= u && Refs(root) <= u
    requires Widen(at.node, root, markers, at.seen, u) == Refused(why)
    ensures Arrive(at, root, path).Some? && HasFault(Arrive(at, root, path).value, root, why)
    decreases u - at.seen, at.node, 1
  {
    if HasFault(at, root, why) {
      path := [];
    } else if HasRef(at.node.fields) {
      var next := RefusedRef(at, root, markers, u, why);
      if Widen(next.node, root, markers, next.seen, u) == Refused(why) {
        var rest := RefusedHasFault(next, root, markers, u, why);
        ArriveAfter(at, root, Follow, rest);
        path := [Follow] + rest;
      } else {
        path := RefusedHere(at, root, markers, u, why);
      }
    } else {
      path := RefusedHere(at, root, markers, u, why);
    }
  }

  /** A refused reference without a fault of its own: the fault is in its target or
      among its siblings. */
  lemma RefusedRef(at: Place, root: Json, markers: seq<Json>, u: set<string>, why: Refusal) returns (next: Place)
    requires Refs(at.node) <= u && Refs(root) <= u
    requires Widen(at.node, root, markers, at.seen, u) == Refused(why) && !HasFault(at, root, why)
    requires HasRef(at.node.fields)
    ensures FirstOf(UNSUPPORTED, at.node.fields).None?
    ensures Go(at, root, Follow) == Some(next)
    ensures Refs(next.node) <= u && u - next.seen < u - at.seen
    ensures Widen(next.node, root, markers, next.seen, u) == Refused(why) || WidenHere(at.node, root, markers, at.seen, u) == Refused(why)
  {
    var ref := at.node.fields["$ref"].s;
    assert RefFault(ref, root, at.seen) != Some(why);
    NodeRefs(root, Split(ref[2..]));
    next := Place(Deref(root, ref).node, at.seen + {ref});
    assert ref in u && ref !in at.seen;
  }

  lemma {:induction false} RefusedHere(at: Place, root: Json, markers: seq<Json>, u: set<string>, why: Refusal) returns (path: seq<Step>)
    requires at.node.Obj? && FirstOf(UNSUPPORTED, at.node.fields).None?
    requires Refs(at.node) <= u && Refs(root) <= u
    requires WidenHere(at.node, root, markers, at.seen, u) == Refused(why)
    ensures Arrive(at, root, path).Some? && HasFault(Arrive(at, root, path).value, root, why)
    decreases u - at.seen, at.node, 0
  {
    if "items" in at.node.fields && at.node.fields["items"].Arr? {
      path := [];
    } else {
      var i := RefusedAmong(at, root, markers, u, why);
      BranchRefs(at.node, u, i);
      var next := Place(BranchList(at.node)[i], at.seen);
      assert Go(at, root, Branch(i)) == Some(next);
      var rest := RefusedHasFault(next, root, markers, u, why);
      ArriveAfter(at, root, Branch(i), rest);
      path := [Branch(i)] + rest;
    }
  }

  lemma RefusedAmong(at: Place, root: Json, markers: seq<Json>, u: set<string>, why: Refusal) returns (i: nat)
    requires at.node.Obj? && !("items" in at.node.fields && at.node.fields["items"].Arr?)
    requires Refs(at.node) <= u && Refs(root) <= u
    requires WidenHere(at.node, root, markers, at.seen, u) == Refused(why)
    ensures i < |BranchList(at.node)| && Refs(BranchList(at.node)[i]) <= u
    ensures Widen(BranchList(at.node)[i], root, markers, at.seen, u) == Refused(why)
  {
    var branches := at.node.fields["allOf"];
    i := RefusedBranch(branches, |branches.items|, root, markers, at.seen, u);
    assert BranchList(at.node)[i] == branches.items[i];
    BranchRefs(at.node, u, i);
  }

  lemma {:induction false} RefusedBranch(branches: Json, count: nat, root: Json, markers: seq<Json>, seen: set<string>, u: set<string>) returns (i: nat)
    requires branches.Arr? && count <= |branches.items|
    requires Refs(branches) <= u && Refs(root) <= u
    requires WidenAll(branches, count, root, markers, seen, u).1.Some?
    ensures i < count && Widen(branches.items[i], root, markers, seen, u) == Refused(WidenAll(branches, count, root, markers, seen, u).1.value)
  {
    if WidenAll(branches, count - 1, root, markers, seen, u).1.Some? {
      i := RefusedBranch(branches, count - 1, root, markers, seen, u);
    } else {
      i := count - 1;
    }
  }

  // --- theorems ------------------------------------------------------------------------------

  /** A field's schema is widened exactly when no resolution path ends in a fault. */
  lemma WidenedExactly(prop: Json, root: Json, markers: seq<Json>)
    ensures WidenField(prop, root, markers).Widened? <==>
      forall path, why :: Arrive(Place(prop, {}), root, path).Some? ==> !HasFault(Arrive(Place(prop, {}), root, path).value, root, why)
  {
    var at, u := Place(prop, {}), Refs(prop) + Refs(root);
    if WidenField(prop, root, markers).Widened? {
      forall path, why | Arrive(at, root, path).Some? ensures !HasFault(Arrive(at, root, path).value, root, why) {
        WidenedIsFaultless(at, root, markers, u, path, why);
      }
    } else {
      var path := RefusedHasFault(at, root, markers, u, WidenField(prop, root, markers).why);
    }
  }

  lemma {:induction false} SeenAlong(at: Place, root: Json, path: seq<Step>)
    requires Arrive(at, root, path).Some?
    ensures Arrive(at, root, path).value.seen == at.seen + Elems(Followings(at, root, path))
    decreases |path|
  {
    if path != [] {
      var next := Go(at, root, path[0]).value;
      SeenAlong(next, root, path[1..]);
      forall r ensures r in Followings(at, root, path) <==> (path[0].Follow? && r == at.node.fields["$ref"].s) || r in Followings(next, root, path[1..]) {}
    }
  }

  lemma RecursiveFault(at: Place, root: Json, ref: string)
    requires HasFault(at, root, Recursive(ref))
    ensures at.node.Obj? && HasRef(at.node.fields) && at.node.fields["$ref"].s == ref && ref in at.seen
  {}

  /** Recursion is reported only of a reference that the same path already followed. */
  lemma RecursionIsRepetition(prop: Json, root: Json, markers: seq<Json>, ref: string) returns (path: seq<Step>)
    requires WidenField(prop, root, markers) == Refused(Recursive(ref))
    ensures Arrive(Place(prop, {}), root, path).Some?
    ensures ref in Followings(Place(prop, {}), root, path)
    ensures var end := Arrive(Place(prop, {}), root, path).value.node;
      end.Obj? && HasRef(end.fields) && end.fields["$ref"].s == ref
  {
    path := RefusedHasFault(Place(prop, {}), root, markers, Refs(prop) + Refs(root), Recursive(ref));
    SeenAlong(Place(prop, {}), root, path);
    RecursiveFault(Arrive(Place(prop, {}), root, path).value, root, ref);
  }

  /** Once a path repeats a reference the schema is refused. */
  lemma {:induction false} RepetitionIsRefused(at: Place, root: Json, markers: seq<Json>, u: set<string>, path: seq<Step>)
    requires Refs(at.node) <= u && Refs(root) <= u
    requires Widen(at.node, root, markers, at.seen, u).Widened?
    requires Arrive(at, root, path).Some?
    ensures forall r :: r in Followings(at, root, path) ==> r !in at.seen
    ensures forall i, j :: 0 <= i < j < |Followings(at, root, path)| ==> Followings(at, root, path)[i] != Followings(at, root, path)[j]
    decreases |path|
  {
    if path != [] {
      var next := Go(at, root, path[0]).value;
      WidenedStep(at, root, markers, u, path[0]);
      RepetitionIsRefused(next, root, markers, u, path[1..]);
      var rest := Followings(next, root, path[1..]);
      forall i | 0 <= i < |rest| ensures rest[i] !in next.seen { assert rest[i] in rest; }
    }
  }

  lemma LinkWidened(ref: string, root: Json, markers: seq<Json>, seen: set<string>, u: set<string>)
    requires LocalRef(ref) && Deref(root, ref).Found? && ref in u && ref !in seen
    requires Refs(root) <= u && Refs(Deref(root, ref).node) <= u
    requires Widen(Deref(root, ref).node, root, markers, seen + {ref}, u).Widened?
    ensures var link := Obj(map["$ref" := Str(ref)]); Refs(link) == {ref} && Widen(link, root, markers, seen, u).Widened?
  {
    var link := Obj(map["$ref" := Str(ref)]);
    assert link.fields.Keys == {"$ref"};
    assert Refs(Str(ref)) == {};
    assert Refs(link) == {ref};
    assert WidenHere(link, root, markers, seen, u).Widened?;
  }

  /** A reference shared by two branches is not recursion. */
  lemma SharedReference(ref: string, root: Json, markers: seq<Json>, seen: set<string>, u: set<string>)
    requires LocalRef(ref) && Deref(root, ref).Found? && ref in u && ref !in seen
    requires Refs(root) <= u && Refs(Deref(root, ref).node) <= u
    requires Widen(Deref(root, ref).node, root, markers, seen + {ref}, u).Widened?
    ensures var link := Obj(map["$ref" := Str(ref)]);
      var node := AllOf(link, link);
      Refs(node) <= u && Widen(node, root, markers, seen, u).Widened?
  {
    LinkWidened(ref, root, markers, seen, u);
    TwiceWidened(Obj(map["$ref" := Str(ref)]), root, markers, seen, u);
  }

  lemma {:induction false} TwiceWidened(link: Json, root: Json, markers: seq<Json>, seen: set<string>, u: set<string>)
    requires Refs(link) <= u && Refs(root) <= u
    requires Widen(link, root, markers, seen, u).Widened?
    ensures Refs(AllOf(link, link)) <= u && Widen(AllOf(link, link), root, markers, seen, u).Widened?
  {
    var node := AllOf(link, link);
    TwiceRefs(link, u);
    AllWidened(link, root, markers, seen, u);
    OnlyAllOf(node.fields);
    HereWidened(node, Arr([link, link]), root, markers, seen, u);
    PlainWidened(node, root, markers, seen, u);
  }

  lemma PlainWidened(node: Json, root: Json, markers: seq<Json>, seen: set<string>, u: set<string>)
    requires node.Obj? && FirstOf(UNSUPPORTED, node.fields).None? && !HasRef(node.fields)
    requires Refs(node) <= u && Refs(root) <= u
    ensures Widen(node, root, markers, seen, u) == WidenHere(node, root, markers, seen, u)
  {}

  lemma OnlyAllOf(fields: map<string, Json>)
    requires fields.Keys == {"allOf"}
    ensures FirstOf(UNSUPPORTED, fields).None? && !HasRef(fields)
  {
    assert "allOf" !in UNSUPPORTED;
  }

  lemma HereWidened(node: Json, branches: Json, root: Json, markers: seq<Json>, seen: set<string>, u: set<string>)
    requires node == Obj(map["allOf" := branches]) && branches.Arr?
    requires Refs(node) <= u && Refs(branches) <= u && Refs(root) <= u
    requires WidenAll(branches, |branches.items|, root, markers, seen, u).1.None?
    ensures WidenHere(node, root, markers, seen, u).Widened?
  {}

  lemma TwiceRefs(link: Json, u: set<string>)
    requires Refs(link) <= u
    ensures Refs(Arr([link, link])) <= u && Refs(AllOf(link, link)) <= u
  {}

  lemma AllWidened(link: Json, root: Json, markers: seq<Json>, seen: set<string>, u: set<string>)
    requires Refs(Arr([link, link])) <= u && Refs(link) <= u && Refs(root) <= u
    requires Widen(link, root, markers, seen, u).Widened?
    ensures WidenAll(Arr([link, link]), 2, root, markers, seen, u).1.None?
  {
    var branches := Arr([link, link]);
    assert WidenAll(branches, 0, root, markers, seen, u).1.None?;
    assert WidenAll(branches, 1, root, markers, seen, u).1.None?;
  }
}
