/** What the widened upload schema accepts, and when the widening is refused. */
module SchemaLaws {
  import opened Values
  import opened Pointers
  import opened References
  import opened UploadSchema

  // --- what a schema means (JSON Schema 2020-12) --------------------------------------------

  /** Whether one element is valid against an item schema. */
  type ItemRule = (Json, Json) -> bool

  /** Whether a list meets one keyword that is not interpreted here. */
  type KeywordRule = (string, Json, seq<Json>) -> bool

  predicate AllDistinct(xs: seq<Json>) {
    forall i, j :: 0 <= i < j < |xs| ==> xs[i] != xs[j]
  }

  /** One keyword other than "$ref", "items" and "allOf": the array limits of sections
      6.4.1 to 6.4.3 of the validation vocabulary, or a rule left open. */
  predicate Asserts(key: string, v: Json, xs: seq<Json>, other: KeywordRule) {
    if key == "minItems" && v.Num? && v.f.Finite? then |xs| as real >= v.f.value
    else if key == "maxItems" && v.Num? && v.f.Finite? then |xs| as real <= v.f.value
    else if key == "uniqueItems" && v.Bool? then v.b ==> AllDistinct(xs)
    else other(key, v, xs)
  }

  /** The keywords Asserts decides. */
  predicate Plain(fields: map<string, Json>, key: string) {
    key in Siblings(fields) && key != "items" && !(key == "allOf" && Branches(fields))
  }

  /** A list is valid against a schema node. n bounds how many references are followed
      in a row. */
  ghost predicate Valid(n: nat, node: Json, root: Json, xs: seq<Json>, item: ItemRule, other: KeywordRule)
    decreases n, node, 1
  {
    node != Bool(false)
    && (node.Obj? && HasRef(node.fields) ==> ValidRef(n, node, root, xs, item, other))
    && (node.Obj? ==> ValidHere(n, node, root, xs, item, other))
  }

  /** "$ref" applies the node it names in the document, as the standards have it. */
  ghost predicate ValidRef(n: nat, node: Json, root: Json, xs: seq<Json>, item: ItemRule, other: KeywordRule)
    requires node.Obj? && HasRef(node.fields)
    decreases n, node, 0
  {
    var target := Resolve(root, node.fields["$ref"].s);
    n > 0 && target.Some? && Valid(n - 1, target.value, root, xs, item, other)
  }

  /** The assertions of one object, its reference left aside. */
  ghost predicate ValidHere(n: nat, node: Json, root: Json, xs: seq<Json>, item: ItemRule, other: KeywordRule)
    requires node.Obj?
    decreases n, node, 0
  {
    && ("items" in node.fields ==> forall x :: x in xs ==> item(node.fields["items"], x))
    && (Branches(node.fields) ==> forall i :: 0 <= i < |node.fields["allOf"].items| ==> Valid(n, node.fields["allOf"].items[i], root, xs, item, other))
    && (forall key :: Plain(node.fields, key) ==> Asserts(key, node.fields[key], xs, other))
  }

  /** "anyOf": some branch accepts the value (Core section 10.2.1.2). */
  ghost predicate AnyOfLaw(item: ItemRule) {
    forall branches: seq<Json>, x :: item(Obj(map["anyOf" := Arr(branches)]), x) <==> exists i :: 0 <= i < |branches| && item(branches[i], x)
  }

  /** "enum": the value is listed (Validation section 6.1.2). */
  ghost predicate EnumLaw(item: ItemRule) {
    forall values: seq<Json>, x :: item(Obj(map["enum" := Arr(values)]), x) <==> x in values
  }

  ghost predicate ItemLaw(item: ItemRule) { AnyOfLaw(item) && EnumLaw(item) }

  /** So the widened item schema accepts the markers and whatever the item schema does. */
  lemma AdmittingMeans(item: ItemRule, s: Json, markers: seq<Json>, x: Json)
    requires ItemLaw(item)
    ensures item(Admitting(s, markers), x) <==> item(s, x) || x in markers
  {
    var listed := Obj(map["enum" := Arr(markers)]);
    var branches := [s, listed];
    assert item(listed, x) <==> x in markers;
    assert item(Obj(map["anyOf" := Arr(branches)]), x) <==> exists i :: 0 <= i < |branches| && item(branches[i], x);
    assert branches[0] == s && branches[1] == listed;
    assert Admitting(s, markers) == Obj(map["anyOf" := Arr(branches)]);
  }

  function Lenient(item: ItemRule, markers: seq<Json>): ItemRule {
    (s, x) => item(s, x) || x in markers
  }

  // --- the widening preserves meaning ----------------------------------------------------------

  lemma AllOfBoth(m: nat, a: Json, b: Json, root: Json, xs: seq<Json>, item: ItemRule, other: KeywordRule)
    ensures Valid(m, AllOf(a, b), root, xs, item, other) <==> Valid(m, a, root, xs, item, other) && Valid(m, b, root, xs, item, other)
  {
    var f := AllOf(a, b).fields;
    var items := f["allOf"].items;
    assert items == [a, b];
    forall key ensures !Plain(f, key) {}
    assert ValidHere(m, AllOf(a, b), root, xs, item, other) <==> forall i :: 0 <= i < |items| ==> Valid(m, items[i], root, xs, item, other);
    if Valid(m, a, root, xs, item, other) && Valid(m, b, root, xs, item, other) {
      forall i | 0 <= i < |items| ensures Valid(m, items[i], root, xs, item, other) {}
    }
    if ValidHere(m, AllOf(a, b), root, xs, item, other) {
      assert Valid(m, items[0], root, xs, item, other) && Valid(m, items[1], root, xs, item, other);
    }
  }

  lemma FewerLeft(u: set<string>, seen: set<string>, ref: string)
    requires ref in u && ref !in seen
    ensures |u - (seen + {ref})| == |u - seen| - 1
    ensures u - (seen + {ref}) < u - seen
  {
    assert u - (seen + {ref}) == (u - seen) - {ref};
  }

  /** What a widened reference is made of. */
  lemma {:induction false} WidenedRef(node: Json, root: Json, markers: seq<Json>, seen: set<string>, u: set<string>) returns (ref: string, target: Json, expanded: Json, rest: Json)
    requires node.Obj? && HasRef(node.fields)
    requires Refs(node) <= u && Refs(root) <= u
    requires Widen(node, root, markers, seen, u).Widened?
    ensures FirstOf(UNSUPPORTED, node.fields).None?
    ensures ref == node.fields["$ref"].s && ref in u && ref !in seen && LocalRef(ref)
    ensures Deref(root, ref) == Found(target) && Refs(target) <= u
    ensures Widen(target, root, markers, seen + {ref}, u) == Widened(expanded)
    ensures WidenHere(node, root, markers, seen, u) == Widened(rest)
    ensures Widen(node, root, markers, seen, u) == Widened(AllOf(expanded, rest))
  {
    ref := node.fields["$ref"].s;
    NodeRefs(root, Split(ref[2..]));
    target := Deref(root, ref).node;
    expanded := Widen(target, root, markers, seen + {ref}, u).node;
    rest := WidenHere(node, root, markers, seen, u).node;
  }

  lemma WidenedPlain(node: Json, root: Json, markers: seq<Json>, seen: set<string>, u: set<string>)
    requires node.Obj? && !HasRef(node.fields)
    requires Refs(node) <= u && Refs(root) <= u
    requires Widen(node, root, markers, seen, u).Widened?
    ensures FirstOf(UNSUPPORTED, node.fields).None?
    ensures Widen(node, root, markers, seen, u) == WidenHere(node, root, markers, seen, u)
  {}

  lemma ValidObject(n: nat, node: Json, root: Json, xs: seq<Json>, item: ItemRule, other: KeywordRule)
    requires node.Obj?
    ensures Valid(n, node, root, xs, item, other)
       <==> (HasRef(node.fields) ==> ValidRef(n, node, root, xs, item, other)) && ValidHere(n, node, root, xs, item, other)
  {}

  lemma ValidReference(n: nat, node: Json, root: Json, xs: seq<Json>, item: ItemRule, other: KeywordRule, target: Json)
    requires node.Obj? && HasRef(node.fields) && n > 0
    requires Resolve(root, node.fields["$ref"].s) == Some(target)
    ensures ValidRef(n, node, root, xs, item, other) <==> Valid(n - 1, target, root, xs, item, other)
  {}

  /** The node a reference applies, while references may still be followed. */
  function Applied(n: nat, node: Json, root: Json): Option<Json> {
    if node.Obj? && HasRef(node.fields) && n > 0 then Resolve(root, node.fields["$ref"].s) else None
  }

  function BranchList(node: Json): (branches: seq<Json>)
    ensures forall i :: 0 <= i < |branches| ==> branches[i] < node
  {
    if node.Obj? && Branches(node.fields) then node.fields["allOf"].items else []
  }

  /** Every reference met from a node, through references and allOf, is one the code reads
      as the standards do. */
  ghost predicate CleanRefs(n: nat, node: Json, root: Json)
    decreases n, node
  {
    && (node.Obj? && HasRef(node.fields) && LocalRef(node.fields["$ref"].s) ==> Clean(node.fields["$ref"].s))
    && (Applied(n, node, root).Some? ==> CleanRefs(n - 1, Applied(n, node, root).value, root))
    && (forall i :: 0 <= i < |BranchList(node)| ==> CleanRefs(n, BranchList(node)[i], root))
  }

  /** Two schemas, one in its own document and under its own item rule, accept the same
      list or refuse it. */
  ghost predicate Agree(m: nat, a: Json, last: Json, item: ItemRule, n: nat, b: Json, root: Json, lenient: ItemRule, xs: seq<Json>, other: KeywordRule) {
    Valid(m, a, last, xs, item, other) <==> Valid(n, b, root, xs, lenient, other)
  }

  /** The same of the second one without its reference. */
  ghost predicate AgreeHere(m: nat, a: Json, last: Json, item: ItemRule, n: nat, b: Json, root: Json, lenient: ItemRule, xs: seq<Json>, other: KeywordRule)
    requires b.Obj?
  {
    Valid(m, a, last, xs, item, other) <==> ValidHere(n, b, root, xs, lenient, other)
  }

  lemma NoObjectMeans(n: nat, m: nat, node: Json, root: Json, last: Json, markers: seq<Json>, seen: set<string>, u: set<string>, xs: seq<Json>, item: ItemRule, lenient: ItemRule, other: KeywordRule, out: Json)
    requires Refs(node) <= u && Refs(root) <= u && !node.Obj?
    requires Widen(node, root, markers, seen, u) == Widened(out)
    ensures Agree(m, out, last, item, n, node, root, lenient, xs, other)
  {}

  /** The widened schema, in whatever document it is put, accepts what the original accepts
      once markers count as valid items, wherever the references on the way are clean. The
      widened one follows no references. */
  lemma {:induction false} WidenMeans(n: nat, m: nat, node: Json, root: Json, last: Json, markers: seq<Json>, seen: set<string>, u: set<string>, xs: seq<Json>, item: ItemRule, other: KeywordRule, out: Json)
    requires Refs(node) <= u && Refs(root) <= u && ItemLaw(item)
    requires Widen(node, root, markers, seen, u) == Widened(out)
    requires n >= |u - seen| && CleanRefs(n, node, root)
    ensures Agree(m, out, last, item, n, node, root, Lenient(item, markers), xs, other)
    decreases u - seen, node, 2
  {
    if !node.Obj? {
      NoObjectMeans(n, m, node, root, last, markers, seen, u, xs, item, Lenient(item, markers), other, out);
    } else if HasRef(node.fields) {
      WidenRefMeans(n, m, node, root, last, markers, seen, u, xs, item, other, out);
    } else {
      WidenedPlain(node, root, markers, seen, u);
      WidenHereMeans(n, m, node, root, last, markers, seen, u, xs, item, other, out);
      ValidObject(n, node, root, xs, Lenient(item, markers), other);
    }
  }

  lemma {:induction false} WidenRefMeans(n: nat, m: nat, node: Json, root: Json, last: Json, markers: seq<Json>, seen: set<string>, u: set<string>, xs: seq<Json>, item: ItemRule, other: KeywordRule, out: Json)
    requires Refs(node) <= u && Refs(root) <= u && ItemLaw(item) && node.Obj? && HasRef(node.fields)
    requires Widen(node, root, markers, seen, u) == Widened(out)
    requires n >= |u - seen| && CleanRefs(n, node, root)
    ensures Agree(m, out, last, item, n, node, root, Lenient(item, markers), xs, other)
    decreases u - seen, node, 1
  {
    var ref, target, expanded, rest := WidenedRef(node, root, markers, seen, u);
    FewerLeft(u, seen, ref);
    var k: nat, lenient := n - 1, Lenient(item, markers);
    CleanFollowed(k, n, node, root, target);
    WidenMeans(k, m, target, root, last, markers, seen + {ref}, u, xs, item, other, expanded);
    WidenHereMeans(n, m, node, root, last, markers, seen, u, xs, item, other, rest);
    RefMeans(k, n, m, node, root, last, xs, item, lenient, other, target, expanded, rest);
  }

  /** What the code follows a clean reference to is what it means. */
  lemma CleanFollowed(k: nat, n: nat, node: Json, root: Json, target: Json)
    requires node.Obj? && HasRef(node.fields) && LocalRef(node.fields["$ref"].s) && n == k + 1
    requires Deref(root, node.fields["$ref"].s) == Found(target) && CleanRefs(n, node, root)
    ensures Resolve(root, node.fields["$ref"].s) == Some(target) && CleanRefs(k, target, root)
  {
    FollowedIsMeant(root, node.fields["$ref"].s);
    assert Applied(n, node, root) == Some(target);
  }

  lemma RefMeans(k: nat, n: nat, m: nat, node: Json, root: Json, last: Json, xs: seq<Json>, item: ItemRule, lenient: ItemRule, other: KeywordRule, target: Json, expanded: Json, rest: Json)
    requires node.Obj? && HasRef(node.fields) && n == k + 1
    requires Resolve(root, node.fields["$ref"].s) == Some(target)
    requires Agree(m, expanded, last, item, k, target, root, lenient, xs, other)
    requires AgreeHere(m, rest, last, item, n, node, root, lenient, xs, other)
    ensures Agree(m, AllOf(expanded, rest), last, item, n, node, root, lenient, xs, other)
  {
    AllOfBoth(m, expanded, rest, last, xs, item, other);
    ValidReference(n, node, root, xs, lenient, other, target);
    ValidObject(n, node, root, xs, lenient, other);
  }

  /** What the widening of one object leaves, its reference aside. */
  lemma {:induction false} HereShape(node: Json, root: Json, markers: seq<Json>, seen: set<string>, u: set<string>, out: Json)
    requires node.Obj? && Refs(node) <= u && Refs(root) <= u
    requires WidenHere(node, root, markers, seen, u) == Widened(out)
    ensures out.Obj? && !HasRef(out.fields) && out.fields.Keys == Siblings(node.fields).Keys
    ensures "items" in node.fields ==> out.fields["items"] == Admitting(node.fields["items"], markers)
    ensures Branches(out.fields) <==> Branches(node.fields)
    ensures Branches(node.fields) ==>
      && Refs(node.fields["allOf"]) <= u
      && WidenAll(node.fields["allOf"], |node.fields["allOf"].items|, root, markers, seen, u) == (out.fields["allOf"].items, None)
    ensures forall key :: Plain(node.fields, key) ==> out.fields[key] == node.fields[key]
  {}

  lemma {:induction false} WidenHereMeans(n: nat, m: nat, node: Json, root: Json, last: Json, markers: seq<Json>, seen: set<string>, u: set<string>, xs: seq<Json>, item: ItemRule, other: KeywordRule, out: Json)
    requires node.Obj?
    requires Refs(node) <= u && Refs(root) <= u && ItemLaw(item)
    requires WidenHere(node, root, markers, seen, u) == Widened(out)
    requires n >= |u - seen| && CleanRefs(n, node, root)
    ensures AgreeHere(m, out, last, item, n, node, root, Lenient(item, markers), xs, other)
    decreases u - seen, node, 0
  {
    HereShape(node, root, markers, seen, u, out);
    if Branches(node.fields) {
      var branches := node.fields["allOf"];
      assert BranchList(node) == branches.items;
      WidenAllMeans(n, m, branches, |branches.items|, root, last, markers, seen, u, xs, item, other, out.fields["allOf"].items);
    }
    HereMeans(n, m, node, out, root, last, markers, xs, item, other);
  }

  lemma HereMeans(n: nat, m: nat, node: Json, out: Json, root: Json, last: Json, markers: seq<Json>, xs: seq<Json>, item: ItemRule, other: KeywordRule)
    requires node.Obj? && out.Obj? && ItemLaw(item) && !HasRef(out.fields)
    requires out.fields.Keys == Siblings(node.fields).Keys
    requires "items" in node.fields ==> out.fields["items"] == Admitting(node.fields["items"], markers)
    requires Branches(out.fields) <==> Branches(node.fields)
    requires Branches(node.fields) ==> |out.fields["allOf"].items| == |node.fields["allOf"].items|
    requires Branches(node.fields) ==> forall i :: 0 <= i < |node.fields["allOf"].items| ==>
      Agree(m, out.fields["allOf"].items[i], last, item, n, node.fields["allOf"].items[i], root, Lenient(item, markers), xs, other)
    requires forall key :: Plain(node.fields, key) ==> out.fields[key] == node.fields[key]
    ensures AgreeHere(m, out, last, item, n, node, root, Lenient(item, markers), xs, other)
  {
    forall x | "items" in node.fields ensures item(out.fields["items"], x) <==> Lenient(item, markers)(node.fields["items"], x) {
      AdmittingMeans(item, node.fields["items"], markers, x);
    }
    assert Siblings(out.fields) == out.fields;
    forall key ensures Plain(out.fields, key) <==> Plain(node.fields, key) {}
    assert Valid(m, out, last, xs, item, other) <==> ValidHere(m, out, last, xs, item, other);
  }

  lemma {:induction false} WidenAllMeans(n: nat, m: nat, branches: Json, count: nat, root: Json, last: Json, markers: seq<Json>, seen: set<string>, u: set<string>, xs: seq<Json>, item: ItemRule, other: KeywordRule, out: seq<Json>)
    requires branches.Arr? && count <= |branches.items|
    requires Refs(branches) <= u && Refs(root) <= u && ItemLaw(item)
    requires WidenAll(branches, count, root, markers, seen, u) == (out, None)
    requires n >= |u - seen| && forall i :: 0 <= i < |branches.items| ==> CleanRefs(n, branches.items[i], root)
    ensures |out| == count
    ensures forall i :: 0 <= i < count ==> Agree(m, out[i], last, item, n, branches.items[i], root, Lenient(item, markers), xs, other)
    decreases u - seen, branches, count
  {
    if count > 0 {
      var init := WidenAll(branches, count - 1, root, markers, seen, u).0;
      var final := Widen(branches.items[count - 1], root, markers, seen, u).node;
      WidenAllMeans(n, m, branches, count - 1, root, last, markers, seen, u, xs, item, other, init);
      WidenMeans(n, m, branches.items[count - 1], root, last, markers, seen, u, xs, item, other, final);
      AgreeSnoc(n, m, branches.items, init, final, root, last, markers, xs, item, other);
    }
  }

  lemma AgreeSnoc(n: nat, m: nat, branches: seq<Json>, init: seq<Json>, final: Json, root: Json, last: Json, markers: seq<Json>, xs: seq<Json>, item: ItemRule, other: KeywordRule)
    requires |init| < |branches|
    requires forall i :: 0 <= i < |init| ==> Agree(m, init[i], last, item, n, branches[i], root, Lenient(item, markers), xs, other)
    requires Agree(m, final, last, item, n, branches[|init|], root, Lenient(item, markers), xs, other)
    ensures var out := init + [final]; forall i :: 0 <= i < |out| ==> Agree(m, out[i], last, item, n, branches[i], root, Lenient(item, markers), xs, other)
  {}

  // --- ids and pending uploads -------------------------------------------------------------

  /** Every item schema that applies, through references and allOf, accepts an element. */
  ghost predicate ItemsAccept(n: nat, node: Json, root: Json, x: Json, item: ItemRule)
    decreases n, node
  {
    && (Applied(n, node, root).Some? ==> ItemsAccept(n - 1, Applied(n, node, root).value, root, x, item))
    && (node.Obj? && "items" in node.fields ==> item(node.fields["items"], x))
    && (forall i :: 0 <= i < |BranchList(node)| ==> ItemsAccept(n, BranchList(node)[i], root, x, item))
  }

  /** Everything but the item schemas: array limits and other keywords, through
      references and allOf. */
  ghost predicate LimitsHold(n: nat, node: Json, root: Json, xs: seq<Json>, other: KeywordRule) {
    Valid(n, node, root, xs, (_, _) => true, other)
  }

  /** Validity, part by part. */
  lemma ValidParts(n: nat, node: Json, root: Json, xs: seq<Json>, item: ItemRule, other: KeywordRule)
    ensures Valid(n, node, root, xs, item, other) <==>
      && node != Bool(false)
      && (node.Obj? && HasRef(node.fields) ==> Applied(n, node, root).Some? && Valid(n - 1, Applied(n, node, root).value, root, xs, item, other))
      && (node.Obj? && "items" in node.fields ==> forall x :: x in xs ==> item(node.fields["items"], x))
      && (forall i :: 0 <= i < |BranchList(node)| ==> Valid(n, BranchList(node)[i], root, xs, item, other))
      && (node.Obj? ==> forall key :: Plain(node.fields, key) ==> Asserts(key, node.fields[key], xs, other))
  {
    var branches := BranchList(node);
    if node.Obj? {
      ValidObject(n, node, root, xs, item, other);
      assert ValidHere(n, node, root, xs, item, other) <==>
        && ("items" in node.fields ==> forall x :: x in xs ==> item(node.fields["items"], x))
        && (forall i :: 0 <= i < |branches| ==> Valid(n, branches[i], root, xs, item, other))
        && (forall key :: Plain(node.fields, key) ==> Asserts(key, node.fields[key], xs, other));
    }
  }

  /** Every element meets the item schemas that apply. */
  ghost predicate AllAccepted(n: nat, node: Json, root: Json, xs: seq<Json>, item: ItemRule) {
    forall x :: x in xs ==> ItemsAccept(n, node, root, x, item)
  }

  lemma AcceptedParts(n: nat, node: Json, root: Json, xs: seq<Json>, item: ItemRule)
    ensures AllAccepted(n, node, root, xs, item) <==>
      && (Applied(n, node, root).Some? ==> AllAccepted(n - 1, Applied(n, node, root).value, root, xs, item))
      && (node.Obj? && "items" in node.fields ==> forall x :: x in xs ==> item(node.fields["items"], x))
      && (forall i :: 0 <= i < |BranchList(node)| ==> AllAccepted(n, BranchList(node)[i], root, xs, item))
  {
    var branches := BranchList(node);
    if AllAccepted(n, node, root, xs, item) {
      forall i, x | 0 <= i < |branches| && x in xs ensures ItemsAccept(n, branches[i], root, x, item) {
        assert ItemsAccept(n, node, root, x, item);
      }
    }
  }

  /** Validity is the limits of the list and the item schemas of its elements. */
  lemma {:induction false} ValidSplits(n: nat, node: Json, root: Json, xs: seq<Json>, item: ItemRule, other: KeywordRule)
    ensures Valid(n, node, root, xs, item, other)
       <==> LimitsHold(n, node, root, xs, other) && AllAccepted(n, node, root, xs, item)
    decreases n, node
  {
    ValidParts(n, node, root, xs, item, other);
    ValidParts(n, node, root, xs, (_, _) => true, other);
    AcceptedParts(n, node, root, xs, item);
    var next, branches := Applied(n, node, root), BranchList(node);
    if next.Some? { ValidSplits(n - 1, next.value, root, xs, item, other); }
    forall i | 0 <= i < |branches|
      ensures Valid(n, branches[i], root, xs, item, other)
         <==> LimitsHold(n, branches[i], root, xs, other) && AllAccepted(n, branches[i], root, xs, item)
    {
      ValidSplits(n, branches[i], root, xs, item, other);
    }
  }

  /** Item schemas that agree on an element accept it alike. */
  lemma {:induction false} SameItems(n: nat, node: Json, root: Json, x: Json, a: ItemRule, b: ItemRule)
    requires forall s :: a(s, x) == b(s, x)
    ensures ItemsAccept(n, node, root, x, a) == ItemsAccept(n, node, root, x, b)
    decreases n, node
  {
    if Applied(n, node, root).Some? { SameItems(n - 1, Applied(n, node, root).value, root, x, a, b); }
    var branches := BranchList(node);
    forall i | 0 <= i < |branches| ensures ItemsAccept(n, branches[i], root, x, a) == ItemsAccept(n, branches[i], root, x, b) {
      SameItems(n, branches[i], root, x, a, b);
    }
  }

  lemma {:induction false} AnyItem(n: nat, node: Json, root: Json, x: Json, a: ItemRule)
    requires forall s :: a(s, x)
    ensures ItemsAccept(n, node, root, x, a)
    decreases n, node
  {
    if Applied(n, node, root).Some? { AnyItem(n - 1, Applied(n, node, root).value, root, x, a); }
    var branches := BranchList(node);
    forall i | 0 <= i < |branches| ensures ItemsAccept(n, branches[i], root, x, a) {
      AnyItem(n, branches[i], root, x, a);
    }
  }

  /** How many references in a row can matter. */
  ghost function Depth(prop: Json, root: Json): nat {
    |Refs(prop) + Refs(root)|
  }

  lemma WidenFieldMeans(n: nat, m: nat, prop: Json, root: Json, last: Json, markers: seq<Json>, xs: seq<Json>, item: ItemRule, other: KeywordRule, out: Json)
    requires ItemLaw(item) && WidenField(prop, root, markers) == Widened(out)
    requires n >= Depth(prop, root) && CleanRefs(n, prop, root)
    ensures Valid(m, out, last, xs, item, other) <==> Valid(n, prop, root, xs, Lenient(item, markers), other)
  {
    var u := Refs(prop) + Refs(root);
    assert u - {} == u;
    WidenMeans(n, m, prop, root, last, markers, {}, u, xs, item, other, out);
  }

  /** The widened schema accepts stored ids followed by the markers exactly when every
      stored id meets the original item schemas and the limits hold of the final list. */
  lemma WidenedAccepts(n: nat, m: nat, prop: Json, root: Json, last: Json, markers: seq<Json>, ids: seq<Json>, item: ItemRule, other: KeywordRule, out: Json)
    requires ItemLaw(item) && WidenField(prop, root, markers) == Widened(out)
    requires n >= Depth(prop, root) && CleanRefs(n, prop, root)
    requires forall x :: x in ids ==> x !in markers
    ensures Valid(m, out, last, ids + markers, item, other)
       <==> LimitsHold(n, prop, root, ids + markers, other) && AllAccepted(n, prop, root, ids, item)
  {
    var xs, lenient := ids + markers, Lenient(item, markers);
    WidenFieldMeans(n, m, prop, root, last, markers, xs, item, other, out);
    ValidSplits(n, prop, root, xs, lenient, other);
    forall x ensures x in xs <==> x in ids || x in markers {}
    forall x | x in markers ensures ItemsAccept(n, prop, root, x, lenient) {
      AnyItem(n, prop, root, x, lenient);
    }
    forall x | x in ids ensures ItemsAccept(n, prop, root, x, lenient) == ItemsAccept(n, prop, root, x, item) {
      SameItems(n, prop, root, x, lenient, item);
    }
  }

  /** On a list without markers the widened schema is the original one. */
  lemma {:induction false} MarkerFreeAgrees(n: nat, m: nat, prop: Json, root: Json, last: Json, markers: seq<Json>, xs: seq<Json>, item: ItemRule, other: KeywordRule, out: Json)
    requires ItemLaw(item) && WidenField(prop, root, markers) == Widened(out)
    requires n >= Depth(prop, root) && CleanRefs(n, prop, root)
    requires forall x :: x in xs ==> x !in markers
    ensures Valid(m, out, last, xs, item, other) <==> Valid(n, prop, root, xs, item, other)
  {
    var lenient := Lenient(item, markers);
    WidenFieldMeans(n, m, prop, root, last, markers, xs, item, other, out);
    ValidSplits(n, prop, root, xs, lenient, other);
    ValidSplits(n, prop, root, xs, item, other);
    forall x | x in xs ensures ItemsAccept(n, prop, root, x, lenient) == ItemsAccept(n, prop, root, x, item) {
      SameItems(n, prop, root, x, lenient, item);
    }
  }

  /** It is enough that no reference anywhere in the field or the document is encoded. */
  lemma {:induction false} AllClean(n: nat, node: Json, root: Json)
    requires forall r :: r in Refs(node) + Refs(root) && LocalRef(r) ==> Clean(r)
    ensures CleanRefs(n, node, root)
    decreases n, node
  {
    var next, branches := Applied(n, node, root), BranchList(node);
    if next.Some? {
      ResolvedRefs(root, node.fields["$ref"].s);
      AllClean(n - 1, next.value, root);
    }
    forall i | 0 <= i < |branches| ensures CleanRefs(n, branches[i], root) {
      BranchRefs(node, Refs(node), i);
      AllClean(n, branches[i], root);
    }
  }

  lemma BranchRefs(node: Json, u: set<string>, i: nat)
    requires Refs(node) <= u && i < |BranchList(node)|
    ensures Refs(BranchList(node)[i]) <= u
  {
    var branches := node.fields["allOf"];
    forall r | r in Refs(branches.items[i]) ensures r in u {
      assert r in Refs(branches);
      assert "allOf" in node.fields.Keys;
    }
  }

  lemma ResolvedRefs(root: Json, ref: string)
    requires Resolve(root, ref).Some?
    ensures Refs(Resolve(root, ref).value) <= Refs(root)
  {
    EvaluatedRefs(root, Path(ref).value);
  }

  lemma {:induction false} EvaluatedRefs(root: Json, path: seq<string>)
    requires Evaluate(root, path).Some?
    ensures Refs(Evaluate(root, path).value) <= Refs(root)
  {
    if path != [] { EvaluatedRefs(Member(root, path[0]).value, path[1..]); }
  }

  // --- the references of a widened schema --------------------------------------------------------

  lemma AdmittingRefs(item: Json, markers: seq<Json>)
    ensures Refs(Admitting(item, markers)) <= Refs(item) + Refs(Arr(markers))
  {
    var enumeration := Obj(map["enum" := Arr(markers)]);
    var choices := Arr([item, enumeration]);
    assert enumeration.fields.Keys == {"enum"} && Refs(enumeration) <= Refs(Arr(markers));
    assert choices.items == [item, enumeration];
    assert Refs(choices) <= Refs(item) + Refs(Arr(markers));
    assert Admitting(item, markers).fields.Keys == {"anyOf"};
  }

  lemma AllOfRefs(a: Json, b: Json)
    ensures Refs(AllOf(a, b)) <= Refs(a) + Refs(b)
  {
    var branches := Arr([a, b]);
    assert branches.items == [a, b] && Refs(branches) <= Refs(a) + Refs(b);
    assert AllOf(a, b).fields.Keys == {"allOf"};
  }

  /** The widened schema carries no reference that neither the schema nor the document
      carries. */
  lemma {:induction false} WidenedRefs(node: Json, root: Json, markers: seq<Json>, seen: set<string>, u: set<string>, out: Json)
    requires Refs(node) <= u && Refs(root) <= u && Refs(Arr(markers)) <= u
    requires Widen(node, root, markers, seen, u) == Widened(out)
    ensures Refs(out) <= u
    decreases u - seen, node, 2
  {
    if node.Obj? && HasRef(node.fields) {
      var ref, target, expanded, rest := WidenedRef(node, root, markers, seen, u);
      WidenedRefs(target, root, markers, seen + {ref}, u, expanded);
      HereRefs(node, root, markers, seen, u, rest);
      AllOfRefs(expanded, rest);
    } else if node.Obj? {
      WidenedPlain(node, root, markers, seen, u);
      HereRefs(node, root, markers, seen, u, out);
    }
  }

  lemma {:induction false} HereRefs(node: Json, root: Json, markers: seq<Json>, seen: set<string>, u: set<string>, out: Json)
    requires node.Obj?
    requires Refs(node) <= u && Refs(root) <= u && Refs(Arr(markers)) <= u
    requires WidenHere(node, root, markers, seen, u) == Widened(out)
    ensures Refs(out) <= u
    decreases u - seen, node, 1
  {
    HereShape(node, root, markers, seen, u, out);
    forall k | k in out.fields.Keys ensures Refs(out.fields[k]) <= u {
      assert k in node.fields.Keys;
      if k == "items" {
        AdmittingRefs(node.fields["items"], markers);
      } else if k == "allOf" && Branches(node.fields) {
        var branches := node.fields["allOf"];
        BranchesRefs(branches, |branches.items|, root, markers, seen, u, out.fields["allOf"].items);
      } else {
        assert Plain(node.fields, k);
      }
    }
  }

  lemma {:induction false} BranchesRefs(branches: Json, count: nat, root: Json, markers: seq<Json>, seen: set<string>, u: set<string>, out: seq<Json>)
    requires branches.Arr? && count <= |branches.items|
    requires Refs(branches) <= u && Refs(root) <= u && Refs(Arr(markers)) <= u
    requires WidenAll(branches, count, root, markers, seen, u) == (out, None)
    ensures forall i :: 0 <= i < |out| ==> Refs(out[i]) <= u
    decreases u - seen, branches, count
  {
    if count > 0 {
      var init := WidenAll(branches, count - 1, root, markers, seen, u).0;
      var final := Widen(branches.items[count - 1], root, markers, seen, u).node;
      assert out == init + [final];
      BranchesRefs(branches, count - 1, root, markers, seen, u, init);
      WidenedRefs(branches.items[count - 1], root, markers, seen, u, final);
    }
  }

  lemma WidenedFieldRefs(prop: Json, root: Json, markers: seq<Json>, u: set<string>, out: Json)
    requires Refs(prop) <= u && Refs(root) <= u && Refs(Arr(markers)) == {}
    requires WidenField(prop, root, markers) == Widened(out)
    ensures Refs(out) <= u
    ensures out.Str? ==> out == prop
  {
    WidenedRefs(prop, root, markers, {}, Refs(prop) + Refs(root), out);
    if prop.Obj? {
      if HasRef(prop.fields) {
        var ref, target, expanded, rest := WidenedRef(prop, root, markers, {}, Refs(prop) + Refs(root));
      } else {
        WidenedPlain(prop, root, markers, {}, Refs(prop) + Refs(root));
        HereShape(prop, root, markers, {}, Refs(prop) + Refs(root), out);
      }
    }
  }
}
