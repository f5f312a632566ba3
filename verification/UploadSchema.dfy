/** The recursive widening of an array schema for pending uploads
    (uploadArraySchema of validate/write.go). */
module UploadSchema {
  import opened Values
  import opened Pointers
  import opened References

  datatype Refusal =
    | Unsupported(keyword: string)
    | Recursive(ref: string)
    | NotLocal(ref: string)
    | InvalidReference(ref: string)
    | MissingReference(ref: string)
    | TupleItems

  datatype Widening = Widened(node: Json) | Refused(why: Refusal)

  /** Keywords whose meaning over mixed ids and uploads is not defined. */
  const UNSUPPORTED: seq<string> := [
    "$id", "$dynamicRef", "$recursiveRef", "anyOf", "oneOf", "not", "if", "then", "else",
    "contains", "prefixItems", "unevaluatedItems", "enum", "const"]

  /** The first of the listed keywords a schema object carries. */
  function FirstOf(keywords: seq<string>, fields: map<string, Json>): (k: Option<string>)
    ensures k.Some? ==> k.value in keywords && k.value in fields
    ensures k.None? ==> forall x :: x in keywords ==> x !in fields
  {
    if keywords == [] then None
    else if keywords[0] in fields then Some(keywords[0])
    else
      assert forall x :: x in keywords <==> x == keywords[0] || x in keywords[1..];
      FirstOf(keywords[1..], fields)
  }

  predicate HasRef(fields: map<string, Json>) {
    "$ref" in fields && fields["$ref"].Str?
  }

  /** The assertions next to a reference. */
  function Siblings(fields: map<string, Json>): map<string, Json> {
    if HasRef(fields) then fields - {"$ref"} else fields
  }

  /** Every string a "$ref" carries somewhere in a document. */
  ghost function Refs(node: Json): set<string> {
    match node
    case Obj(fields) =>
      (if HasRef(fields) then {fields["$ref"].s} else {}) + set k, r | k in fields.Keys && r in Refs(fields[k]) :: r
    case Arr(items) => set i, r | 0 <= i < |items| && r in Refs(items[i]) :: r
    case _ => {}
  }

  /** The item schema that also accepts the pending uploads. */
  function Admitting(item: Json, markers: seq<Json>): Json {
    Obj(map["anyOf" := Arr([item, Obj(map["enum" := Arr(markers)])])])
  }

  function AllOf(a: Json, b: Json): Json {
    Obj(map["allOf" := Arr([a, b])])
  }

  lemma {:induction false} NodeRefs(root: Json, tokens: seq<string>)
    ensures DescendAll(Found(root), tokens).Found? ==> Refs(DescendAll(Found(root), tokens).node) <= Refs(root)
  {
    if tokens != [] {
      NodeRefs(root, tokens[..|tokens| - 1]);
    }
  }

  predicate Branches(fields: map<string, Json>) {
    "allOf" in fields && fields["allOf"].Arr?
  }

  /** uploadArraySchema. seen holds the references on the way here; u bounds them. */
  function Widen(node: Json, root: Json, markers: seq<Json>, seen: set<string>, ghost u: set<string>): Widening
    requires Refs(node) <= u && Refs(root) <= u
    decreases u - seen, node, 1
  {
    if !node.Obj? then Widened(node)
    else
      var keyword := FirstOf(UNSUPPORTED, node.fields);
      if keyword.Some? then Refused(Unsupported(keyword.value))
      else if HasRef(node.fields) then
        var ref := node.fields["$ref"].s;
        if ref in seen then Refused(Recursive(ref))
        else if !LocalRef(ref) then Refused(NotLocal(ref))
        else
          NodeRefs(root, Split(ref[2..]));
          match Deref(root, ref)
          case NotAnObject => Refused(InvalidReference(ref))
          case NoSuchKey => Refused(MissingReference(ref))
          case Found(target) =>
            match Widen(target, root, markers, seen + {ref}, u)
            case Refused(why) => Refused(why)
            case Widened(expanded) =>
              match WidenHere(node, root, markers, seen, u)
              case Refused(why) => Refused(why)
              case Widened(rest) => Widened(AllOf(expanded, rest))
      else WidenHere(node, root, markers, seen, u)
  }

  /** items and allOf of one object, its reference left aside. */
  function WidenHere(node: Json, root: Json, markers: seq<Json>, seen: set<string>, ghost u: set<string>): Widening
    requires node.Obj?
    requires Refs(node) <= u && Refs(root) <= u
    decreases u - seen, node, 0
  {
    var fields := Siblings(node.fields);
    if "items" in fields && fields["items"].Arr? then Refused(TupleItems)
    else
      var out := if "items" in fields then fields["items" := Admitting(fields["items"], markers)] else fields;
      if !Branches(fields) then Widened(Obj(out))
      else
        match WidenAll(node.fields["allOf"], |node.fields["allOf"].items|, root, markers, seen, u)
        case (next, None) => Widened(Obj(out["allOf" := Arr(next)]))
        case (_, Some(why)) => Refused(why)
  }

  /** The first n branches of an allOf, up to the first refusal. */
  function WidenAll(branches: Json, n: nat, root: Json, markers: seq<Json>, seen: set<string>, ghost u: set<string>): (r: (seq<Json>, Option<Refusal>))
    requires branches.Arr? && n <= |branches.items|
    requires Refs(branches) <= u && Refs(root) <= u
    ensures r.1.None? ==> |r.0| == n
    decreases u - seen, branches, n
  {
    if n == 0 then ([], None)
    else
      var before := WidenAll(branches, n - 1, root, markers, seen, u);
      if before.1.Some? then before
      else
        match Widen(branches.items[n - 1], root, markers, seen, u)
        case Refused(why) => ([], Some(why))
        case Widened(b) => (before.0 + [b], None)
  }

  /** The call Write makes. */
  function WidenField(prop: Json, root: Json, markers: seq<Json>): Widening {
    Widen(prop, root, markers, {}, Refs(prop) + Refs(root))
  }
}
