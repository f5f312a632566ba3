/** In which document a field is judged. The widening of one field is put into the shared
    schema document, where the references of other fields may find it. */
module FieldDocuments {
  import opened Values
  import opened References
  import opened UploadSchema
  import opened SchemaLaws
  import opened FieldRules
  import opened Markers
  import opened PendingUploads

  // --- rules that look into the document ---------------------------------------------------

  /** Whether a value is valid against a schema whose references are resolved in a
      document. */
  type SchemaRule = (Json, Json, Json) -> bool

  /** The same of a list and one keyword that is not interpreted here. */
  type LimitRule = (string, Json, Json, seq<Json>) -> bool

  function In(rule: SchemaRule, doc: Json): ItemRule { (s, x) => rule(s, doc, x) }

  function LimitsIn(rule: LimitRule, doc: Json): KeywordRule { (key, v, xs) => rule(key, v, doc, xs) }

  /** No keyword below that resolves references by other means than the document. */
  ghost predicate Static(node: Json) {
    match node
    case Obj(fields) =>
      "$dynamicRef" !in fields && "$recursiveRef" !in fields && "$id" !in fields && forall k :: k in fields.Keys ==> Static(fields[k])
    case Arr(items) => forall i :: 0 <= i < |items| ==> Static(items[i])
    case _ => true
  }

  /** Following at most n references in a row, a schema meets the same nodes in both
      documents. */
  ghost predicate Alike(n: nat, node: Json, a: Json, b: Json) {
    && Static(node)
    && forall r :: r in Refs(node) ==>
         && Path(r).Some? && Resolve(a, r) == Resolve(b, r)
         && (n > 0 && Resolve(a, r).Some? ==> Alike(n - 1, Resolve(a, r).value, a, b))
  }

  ghost predicate AlikeFrom(node: Json, a: Json, b: Json) {
    forall n: nat :: Alike(n, node, a, b)
  }

  /** What a schema accepts depends on itself and the nodes its references reach. */
  ghost predicate Local(rule: SchemaRule) {
    forall s, a, b, x :: AlikeFrom(s, a, b) ==> (rule(s, a, x) <==> rule(s, b, x))
  }

  ghost predicate LocalLimits(rule: LimitRule) {
    forall key, v, a, b, xs :: AlikeFrom(v, a, b) ==> (rule(key, v, a, xs) <==> rule(key, v, b, xs))
  }

  // --- references that stay clear of some fields ---------------------------------------------

  /** The path of a reference leads into the property of one of these fields, or to a node
      that holds it. */
  predicate Enters(path: seq<string>, names: set<string>) {
    if path == [] then true
    else if path[0] != "properties" then false
    else |path| == 1 || path[1] in names
  }

  /** Every reference met within n steps from a node is a pointer within the document, and
      none enters these fields. */
  ghost predicate Avoids(n: nat, node: Json, root: Json, names: set<string>) {
    && Static(node)
    && forall r :: r in Refs(node) ==>
         && Path(r).Some? && !Enters(Path(r).value, names)
         && (n > 0 && Resolve(root, r).Some? ==> Avoids(n - 1, Resolve(root, r).value, root, names))
  }

  /** The same of every reference reachable from a node. */
  ghost predicate Apart(node: Json, root: Json, names: set<string>) {
    forall n: nat :: Avoids(n, node, root, names)
  }

  lemma SameTarget(root: Json, other: Json, names: set<string>, path: seq<string>)
    requires SameBut(root, other, names) && !Enters(path, names)
    ensures Evaluate(root, path) == Evaluate(other, path)
  {
    assert Member(root, path[0]).Some? <==> Member(other, path[0]).Some?;
    if path[0] == "properties" && HasProps(root) {
      var rest := path[1..];
      assert Member(root, path[0]) == Some(Obj(Props(root))) && Member(other, path[0]) == Some(Obj(Props(other)));
      assert rest[0] == path[1];
      assert Member(Obj(Props(root)), rest[0]) == Member(Obj(Props(other)), rest[0]);
    }
  }

  lemma {:induction false} AvoidsAlike(n: nat, node: Json, root: Json, other: Json, names: set<string>)
    requires SameBut(root, other, names) && Avoids(n, node, root, names)
    ensures Alike(n, node, root, other)
  {
    forall r | r in Refs(node)
      ensures Resolve(root, r) == Resolve(other, r)
      ensures n > 0 && Resolve(root, r).Some? ==> Alike(n - 1, Resolve(root, r).value, root, other)
    {
      SameTarget(root, other, names, Path(r).value);
      if n > 0 && Resolve(root, r).Some? { AvoidsAlike(n - 1, Resolve(root, r).value, root, other, names); }
    }
  }

  lemma ApartAlike(node: Json, root: Json, other: Json, names: set<string>)
    requires SameBut(root, other, names) && Apart(node, root, names)
    ensures AlikeFrom(node, root, other)
  {
    forall n: nat ensures Alike(n, node, root, other) { AvoidsAlike(n, node, root, other, names); }
  }

  lemma ApartPart(node: Json, part: Json, root: Json, names: set<string>)
    requires Apart(node, root, names) && Static(part) && Refs(part) <= Refs(node)
    ensures Apart(part, root, names)
  {
    forall n: nat ensures Avoids(n, part, root, names) { assert Avoids(n, node, root, names); }
  }

  lemma ApartTarget(node: Json, r: string, root: Json, names: set<string>)
    requires Apart(node, root, names) && r in Refs(node) && Resolve(root, r).Some?
    ensures Apart(Resolve(root, r).value, root, names)
  {
    forall n: nat ensures Avoids(n, Resolve(root, r).value, root, names) { assert Avoids(n + 1, node, root, names); }
  }

  lemma ApartField(node: Json, key: string, root: Json, names: set<string>)
    requires Apart(node, root, names) && node.Obj? && key in node.fields
    ensures Apart(node.fields[key], root, names)
  {
    assert Avoids(0, node, root, names);
    assert key in node.fields.Keys;
    ApartPart(node, node.fields[key], root, names);
  }

  lemma ApartBranch(node: Json, i: nat, root: Json, names: set<string>)
    requires Apart(node, root, names) && i < |BranchList(node)|
    ensures Apart(BranchList(node)[i], root, names)
  {
    var branches := node.fields["allOf"];
    ApartField(node, "allOf", root, names);
    assert Avoids(0, branches, root, names);
    BranchRefs(node, Refs(node), i);
    BranchOf(branches, i);
    ApartPart(branches, branches.items[i], root, names);
  }

  lemma BranchOf(branches: Json, i: nat)
    requires branches.Arr? && i < |branches.items|
    ensures Refs(branches.items[i]) <= Refs(branches) && (Static(branches) ==> Static(branches.items[i]))
  {}

  // --- fields without uploads -----------------------------------------------------------------

  /** A field without uploads is judged by the widened document exactly as by the declared
      one when no reference reachable from it enters the property of a field with uploads. */
  lemma JudgedAsDeclared(ui: Ui, overlay: map<string, Json>, input: map<string, Json>, files: map<string, nat>, root: Json, last: Json, data: map<string, Json>, name: string, rule: SchemaRule)
    requires Underway(ui, overlay, input, files, root, PendingNames(ui, files), last, data)
    requires name in Props(root) && name !in PendingNames(ui, files)
    requires Apart(Props(root)[name], root, PendingNames(ui, files)) && Local(rule)
    ensures name in Props(last)
    ensures forall v :: rule(Props(last)[name], last, v) <==> rule(Props(root)[name], root, v)
    ensures name in overlay ==> name in data && data[name] == overlay[name]
  {
    ApartAlike(Props(root)[name], root, last, PendingNames(ui, files));
  }

  // --- fields with uploads --------------------------------------------------------------------

  /** Two item rules that agree on every schema apart from these fields. */
  ghost predicate SameItemsApart(root: Json, names: set<string>, a: ItemRule, b: ItemRule) {
    forall s, x :: Apart(s, root, names) ==> (a(s, x) <==> b(s, x))
  }

  ghost predicate SameLimitsApart(root: Json, names: set<string>, a: KeywordRule, b: KeywordRule) {
    forall key, v, xs :: Apart(v, root, names) ==> (a(key, v, xs) <==> b(key, v, xs))
  }

  lemma LocalAgree(root: Json, last: Json, names: set<string>, rule: SchemaRule, limits: LimitRule)
    requires SameBut(root, last, names) && Local(rule) && LocalLimits(limits)
    ensures SameItemsApart(root, names, In(rule, last), In(rule, root))
    ensures SameLimitsApart(root, names, LimitsIn(limits, last), LimitsIn(limits, root))
  {
    forall s | Apart(s, root, names) ensures AlikeFrom(s, root, last) { ApartAlike(s, root, last, names); }
  }

  /** The node a reference applies is the same in both documents, and apart too. */
  lemma AppliedApart(n: nat, node: Json, root: Json, mid: Json, names: set<string>)
    requires SameBut(root, mid, names) && Apart(node, root, names)
    ensures Applied(n, node, mid) == Applied(n, node, root)
    ensures Applied(n, node, root).Some? ==> Apart(Applied(n, node, root).value, root, names)
  {
    if node.Obj? && HasRef(node.fields) {
      var r := node.fields["$ref"].s;
      assert Avoids(0, node, root, names) && r in Refs(node);
      SameTarget(root, mid, names, Path(r).value);
      if Resolve(root, r).Some? { ApartTarget(node, r, root, names); }
    }
  }

  lemma {:induction false} ItemsApart(n: nat, node: Json, root: Json, mid: Json, names: set<string>, x: Json, a: ItemRule, b: ItemRule)
    requires SameBut(root, mid, names) && Apart(node, root, names) && SameItemsApart(root, names, a, b)
    ensures ItemsAccept(n, node, mid, x, a) <==> ItemsAccept(n, node, root, x, b)
    decreases n, node
  {
    AppliedApart(n, node, root, mid, names);
    var next, branches := Applied(n, node, root), BranchList(node);
    if next.Some? { ItemsApart(n - 1, next.value, root, mid, names, x, a, b); }
    if node.Obj? && "items" in node.fields { ApartField(node, "items", root, names); }
    forall i | 0 <= i < |branches| ensures ItemsAccept(n, branches[i], mid, x, a) <==> ItemsAccept(n, branches[i], root, x, b) {
      ApartBranch(node, i, root, names);
      ItemsApart(n, branches[i], root, mid, names, x, a, b);
    }
  }

  lemma LimitsHere(node: Json, root: Json, names: set<string>, xs: seq<Json>, a: KeywordRule, b: KeywordRule)
    requires node.Obj? && Apart(node, root, names) && SameLimitsApart(root, names, a, b)
    ensures (forall key :: Plain(node.fields, key) ==> Asserts(key, node.fields[key], xs, a))
       <==> (forall key :: Plain(node.fields, key) ==> Asserts(key, node.fields[key], xs, b))
  {
    forall key | Plain(node.fields, key) ensures Asserts(key, node.fields[key], xs, a) <==> Asserts(key, node.fields[key], xs, b) {
      ApartField(node, key, root, names);
    }
  }

  lemma {:induction false} LimitsApart(n: nat, node: Json, root: Json, mid: Json, names: set<string>, xs: seq<Json>, a: KeywordRule, b: KeywordRule)
    requires SameBut(root, mid, names) && Apart(node, root, names) && SameLimitsApart(root, names, a, b)
    ensures LimitsHold(n, node, mid, xs, a) <==> LimitsHold(n, node, root, xs, b)
    decreases n, node, 1
  {
    AppliedApart(n, node, root, mid, names);
    ValidParts(n, node, mid, xs, (_, _) => true, a);
    ValidParts(n, node, root, xs, (_, _) => true, b);
    var next := Applied(n, node, root);
    if next.Some? { LimitsApart(n - 1, next.value, root, mid, names, xs, a, b); }
    if node.Obj? { LimitsHere(node, root, names, xs, a, b); }
    LimitsBranches(n, node, root, mid, names, xs, a, b);
  }

  lemma {:induction false} LimitsBranches(n: nat, node: Json, root: Json, mid: Json, names: set<string>, xs: seq<Json>, a: KeywordRule, b: KeywordRule)
    requires SameBut(root, mid, names) && Apart(node, root, names) && SameLimitsApart(root, names, a, b)
    ensures forall i :: 0 <= i < |BranchList(node)| ==> (LimitsHold(n, BranchList(node)[i], mid, xs, a) <==> LimitsHold(n, BranchList(node)[i], root, xs, b))
    decreases n, node, 0
  {
    var branches := BranchList(node);
    forall i | 0 <= i < |branches| ensures LimitsHold(n, branches[i], mid, xs, a) <==> LimitsHold(n, branches[i], root, xs, b) {
      ApartBranch(node, i, root, names);
      LimitsApart(n, branches[i], root, mid, names, xs, a, b);
    }
  }

  lemma {:induction false} CleanApart(n: nat, node: Json, root: Json, mid: Json, names: set<string>)
    requires SameBut(root, mid, names) && Apart(node, root, names) && CleanRefs(n, node, root)
    ensures CleanRefs(n, node, mid)
    decreases n, node
  {
    AppliedApart(n, node, root, mid, names);
    var next, branches := Applied(n, node, root), BranchList(node);
    if next.Some? { CleanApart(n - 1, next.value, root, mid, names); }
    forall i | 0 <= i < |branches| ensures CleanRefs(n, branches[i], mid) {
      ApartBranch(node, i, root, names);
      CleanApart(n, branches[i], root, mid, names);
    }
  }

  /** The final list of a field with uploads is accepted by the final document exactly when
      its ids meet the declared item schemas and the declared limits hold of it, all judged
      in the declared document, when no reference reachable from the field enters the
      property of a field with uploads. */
  lemma PendingListAsDeclared(n: nat, m: nat, ui: Ui, input: map<string, Json>, files: map<string, nat>, root: Json, last: Json, name: string, v: Json, prop: Json, mid: Json, markers: seq<Json>, rule: SchemaRule, limits: LimitRule)
    requires Awaits(ui, input, files, root, name, v, prop, mid, markers) && MediaFieldKind(ui, name) == MediaMulti && !NotAList(input, name)
    requires SameBut(root, mid, PendingNames(ui, files)) && SameBut(root, last, PendingNames(ui, files))
    requires Apart(Props(root)[name], root, PendingNames(ui, files))
    requires n >= Depth(Props(root)[name], mid) && CleanRefs(n, Props(root)[name], root)
    requires ItemLaw(In(rule, last)) && Local(rule) && LocalLimits(limits)
    ensures v == Arr(ListAt(input, name) + markers)
    ensures Valid(m, prop, last, v.items, In(rule, last), LimitsIn(limits, last))
       <==> && LimitsHold(n, Props(root)[name], root, v.items, LimitsIn(limits, root))
            && AllAccepted(n, Props(root)[name], root, ListAt(input, name), In(rule, root))
  {
    var names, decl, ids := PendingNames(ui, files), Props(root)[name], ListAt(input, name);
    CleanApart(n, decl, root, mid, names);
    PendingListAccepted(n, m, ui, input, files, root, last, name, v, prop, mid, markers, In(rule, last), LimitsIn(limits, last));
    LocalAgree(root, last, names, rule, limits);
    LimitsApart(n, decl, root, mid, names, v.items, LimitsIn(limits, last), LimitsIn(limits, root));
    forall x | x in ids ensures ItemsAccept(n, decl, mid, x, In(rule, last)) <==> ItemsAccept(n, decl, root, x, In(rule, root)) {
      ItemsApart(n, decl, root, mid, names, x, In(rule, last), In(rule, root));
    }
  }

  /** The same of what the loop over the fields with files hands to the validator. */
  lemma ListJudgedAsDeclared(n: nat, m: nat, ui: Ui, overlay: map<string, Json>, input: map<string, Json>, files: map<string, nat>, root: Json, last: Json, data: map<string, Json>, name: string, rule: SchemaRule, limits: LimitRule) returns (markers: seq<Json>)
    requires Underway(ui, overlay, input, files, root, PendingNames(ui, files), last, data)
    requires name in PendingNames(ui, files) && MediaFieldKind(ui, name) == MediaMulti && !NotAList(input, name)
    requires name in Props(root) && Apart(Props(root)[name], root, PendingNames(ui, files))
    requires n >= |Refs(root)| && CleanRefs(n, Props(root)[name], root)
    requires ItemLaw(In(rule, last)) && Local(rule) && LocalLimits(limits)
    ensures GoodMarkers(name, files[name], ListAt(input, name), markers)
    ensures name in data && data[name] == Arr(ListAt(input, name) + markers) && name in Props(last)
    ensures Valid(m, Props(last)[name], last, data[name].items, In(rule, last), LimitsIn(limits, last))
       <==> && LimitsHold(n, Props(root)[name], root, data[name].items, LimitsIn(limits, root))
            && AllAccepted(n, Props(root)[name], root, ListAt(input, name), In(rule, root))
  {
    var names := PendingNames(ui, files);
    assert Awaited(ui, input, files, root, last, name, data[name], Props(last)[name]);
    var mid;
    mid, markers :| OnTheWay(root, last, mid, names - {name}) && Awaits(ui, input, files, root, name, data[name], Props(last)[name], mid, markers);
    SameButMore(root, mid, names - {name}, names);
    PropertyRefs(root, name);
    SubsetSize(Refs(Props(root)[name]) + Refs(mid), Refs(root));
    PendingListAsDeclared(n, m, ui, input, files, root, last, name, data[name], Props(last)[name], mid, markers, rule, limits);
  }
}
