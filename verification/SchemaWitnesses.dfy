/** Schemas that the widening for pending uploads changes, or changes for others. */
module SchemaWitnesses {
  import opened Values
  import opened Pointers
  import opened References
  import opened UploadSchema
  import opened SchemaLaws
  import opened SchemaPaths
  import opened PendingUploads
  import opened Numbers

  function Link(ref: string): Json { Obj(map["$ref" := Str(ref)]) }

  function AtMost(limit: real): Json { Obj(map["maxItems" := Num(Finite(limit))]) }

  // --- an encoded reference ------------------------------------------------------------------

  lemma OnlyLimit(n: nat, limit: real, root: Json, xs: seq<Json>, item: ItemRule, other: KeywordRule)
    ensures Valid(n, AtMost(limit), root, xs, item, other) <==> |xs| as real <= limit
  {
    var f := AtMost(limit).fields;
    assert f.Keys == {"maxItems"};
    assert Plain(f, "maxItems");
    assert Asserts("maxItems", f["maxItems"], xs, other) <==> |xs| as real <= limit;
    forall key | Plain(f, key) ensures key == "maxItems" {}
    ValidObject(n, AtMost(limit), root, xs, item, other);
  }

  lemma NoAssertion(n: nat, root: Json, xs: seq<Json>, item: ItemRule, other: KeywordRule)
    ensures Valid(n, Obj(map[]), root, xs, item, other)
  {
    forall key ensures !Plain(map[], key) {}
    ValidObject(n, Obj(map[]), root, xs, item, other);
  }

  lemma OnlyKey(fields: map<string, Json>, key: string)
    requires fields.Keys == {key} && key !in UNSUPPORTED && key != "$ref"
    ensures FirstOf(UNSUPPORTED, fields).None? && !HasRef(fields)
  {}

  lemma NoLimitWord()
    ensures "maxItems" !in UNSUPPORTED && "items" !in UNSUPPORTED
  {}

  lemma LimitWidens(limit: real, root: Json, markers: seq<Json>, seen: set<string>, u: set<string>)
    requires Refs(root) <= u
    ensures Refs(AtMost(limit)) == {} && Widen(AtMost(limit), root, markers, seen, u) == Widened(AtMost(limit))
  {
    var node := AtMost(limit);
    assert node.fields.Keys == {"maxItems"};
    assert Refs(node) == {};
    NoLimitWord();
    OnlyKey(node.fields, "maxItems");
    PlainWidened(node, root, markers, seen, u);
  }

  lemma LinkWidens(ref: string, root: Json, markers: seq<Json>, u: set<string>, target: Json, out: Json)
    requires LocalRef(ref) && Deref(root, ref) == Found(target) && ref in u && Refs(root) <= u && Refs(target) <= u
    requires Widen(target, root, markers, {ref}, u) == Widened(out)
    ensures Refs(Link(ref)) == {ref} && Widen(Link(ref), root, markers, {}, u) == Widened(AllOf(out, Obj(map[])))
  {
    assert {} + {ref} == {ref};
    LinkWidened(ref, root, markers, {}, u);
    LinkShape(ref, root, markers, u, target, out);
  }

  lemma LinkShape(ref: string, root: Json, markers: seq<Json>, u: set<string>, target: Json, out: Json)
    requires Refs(Link(ref)) <= u && Refs(root) <= u && Refs(target) <= u && LocalRef(ref) && Deref(root, ref) == Found(target)
    requires Widen(Link(ref), root, markers, {}, u).Widened? && Widen(target, root, markers, {} + {ref}, u) == Widened(out)
    ensures Widen(Link(ref), root, markers, {}, u) == Widened(AllOf(out, Obj(map[])))
  {
    var r, t, expanded, rest := WidenedRef(Link(ref), root, markers, {}, u);
    assert Siblings(Link(ref).fields) == map[];
  }

  /** The widening of a field that is a reference to a limit, as the code reads it. */
  lemma LimitLinkWidens(ref: string, root: Json, markers: seq<Json>, limit: real)
    requires LocalRef(ref) && Deref(root, ref) == Found(AtMost(limit))
    ensures WidenField(Link(ref), root, markers) == Widened(AllOf(AtMost(limit), Obj(map[])))
  {
    OnlyReference(ref);
    LimitWidens(limit, root, markers, {ref}, Refs(Link(ref)) + Refs(root));
    LinkWidens(ref, root, markers, Refs(Link(ref)) + Refs(root), AtMost(limit), AtMost(limit));
  }

  lemma LimitLinkMeans(n: nat, ref: string, root: Json, xs: seq<Json>, item: ItemRule, other: KeywordRule, limit: real)
    requires n > 0 && Resolve(root, ref) == Some(AtMost(limit))
    ensures Valid(n, Link(ref), root, xs, item, other) <==> |xs| as real <= limit
  {
    LinkMeans(n, ref, root, xs, item, other, AtMost(limit));
    OnlyLimit(n - 1, limit, root, xs, item, other);
  }

  lemma WidenedLimitMeans(m: nat, last: Json, xs: seq<Json>, item: ItemRule, other: KeywordRule, limit: real)
    ensures Valid(m, AllOf(AtMost(limit), Obj(map[])), last, xs, item, other) <==> |xs| as real <= limit
  {
    AllOfBoth(m, AtMost(limit), Obj(map[]), last, xs, item, other);
    OnlyLimit(m, limit, last, xs, item, other);
    NoAssertion(m, last, xs, item, other);
  }

  /** A field whose reference is percent-encoded: declared to take at most one element, say,
      it is widened to the limit of another node. */
  lemma WrongLimit(n: nat, m: nat, d: string, a: string, b: string, one: real, nine: real, markers: seq<Json>, last: Json, xs: seq<Json>, item: ItemRule, other: KeywordRule)
    requires PlainKey(d) && PlainKey(a) && PlainKey(b) && n > 0
    ensures var root, prop, out := BothKeys(d, a, b, AtMost(one), AtMost(nine)), Link("#/" + d + "/" + a + "%25" + b), AllOf(AtMost(nine), Obj(map[]));
      && WidenField(prop, root, markers) == Widened(out)
      && (Valid(m, out, last, xs, item, other) <==> |xs| as real <= nine)
      && (Valid(n, prop, root, xs, item, other) <==> |xs| as real <= one)
  {
    var root, ref := BothKeys(d, a, b, AtMost(one), AtMost(nine)), "#/" + d + "/" + a + "%25" + b;
    PercentWitness(d, a, b, AtMost(one), AtMost(nine));
    LimitLinkWidens(ref, root, markers, nine);
    WidenedLimitMeans(m, last, xs, item, other, nine);
    LimitLinkMeans(n, ref, root, xs, item, other, one);
  }

  lemma OnlyReference(ref: string)
    ensures Refs(Link(ref)) == {ref}
  {
    assert Link(ref).fields.Keys == {"$ref"};
    assert Refs(Str(ref)) == {};
  }

  /** A reference alone means its node. */
  lemma LinkMeans(n: nat, ref: string, root: Json, xs: seq<Json>, item: ItemRule, other: KeywordRule, target: Json)
    requires n > 0 && Resolve(root, ref) == Some(target)
    ensures Valid(n, Link(ref), root, xs, item, other) <==> Valid(n - 1, target, root, xs, item, other)
  {
    var f := Link(ref).fields;
    forall key ensures !Plain(f, key) {}
    ValidObject(n, Link(ref), root, xs, item, other);
    ValidReference(n, Link(ref), root, xs, item, other, target);
  }

  // --- a neighbour's reference ---------------------------------------------------------------

  function ListOf(s: Json): Json { Obj(map["items" := s]) }

  lemma OnlyItems(n: nat, s: Json, root: Json, x: Json, item: ItemRule, other: KeywordRule)
    ensures Valid(n, ListOf(s), root, [x], item, other) <==> item(s, x)
  {
    var f := ListOf(s).fields;
    assert f.Keys == {"items"};
    forall key ensures !Plain(f, key) {}
    ValidObject(n, ListOf(s), root, [x], item, other);
    assert x in [x];
  }

  lemma ItemsWiden(node: Json, root: Json, markers: seq<Json>, seen: set<string>, u: set<string>)
    requires node.Obj? && "items" in node.fields && !node.fields["items"].Arr? && "allOf" !in node.fields && !HasRef(node.fields)
    requires Refs(node) <= u && Refs(root) <= u
    ensures WidenHere(node, root, markers, seen, u) == Widened(Obj(node.fields["items" := Admitting(node.fields["items"], markers)]))
  {}

  lemma ListWidens(s: Json, root: Json, markers: seq<Json>, seen: set<string>, u: set<string>)
    requires Refs(ListOf(s)) <= u && Refs(root) <= u && !s.Arr?
    ensures Widen(ListOf(s), root, markers, seen, u) == Widened(ListOf(Admitting(s, markers)))
  {
    var fields := ListOf(s).fields;
    assert fields.Keys == {"items"};
    NoLimitWord();
    OnlyKey(fields, "items");
    PlainWidened(ListOf(s), root, markers, seen, u);
    ItemsWiden(ListOf(s), root, markers, seen, u);
    SameList(s, Admitting(s, markers));
  }

  lemma SameList(s: Json, t: Json)
    ensures Obj(ListOf(s).fields["items" := t]) == ListOf(t)
  {
    assert ListOf(s).fields["items" := t] == ListOf(t).fields;
  }

  function PropertyLink(name: string): Json { Link(Reference(["properties", name])) }

  /** The properties of a list field and of a neighbour declared as the same. */
  function Both(name: string, other: string, prop: Json): map<string, Json> {
    map[name := prop, other := PropertyLink(name)]
  }

  function Neighbours(name: string, other: string, prop: Json): Json {
    Obj(map["properties" := Obj(Both(name, other, prop))])
  }

  lemma NeighbourProps(name: string, other: string, prop: Json)
    ensures HasProps(Neighbours(name, other, prop)) && Props(Neighbours(name, other, prop)) == Both(name, other, prop)
  {}

  lemma NeighbourPut(name: string, other: string, prop: Json, out: Json)
    requires name != other
    ensures PutProp(Neighbours(name, other, prop), name, out) == Neighbours(name, other, out)
  {
    NeighbourProps(name, other, prop);
    BothPut(name, other, prop, out);
    PropsPut(Neighbours(name, other, prop).fields, Obj(Both(name, other, prop)), Obj(Both(name, other, out)));
  }

  lemma BothPut(name: string, other: string, prop: Json, out: Json)
    requires name != other
    ensures Both(name, other, prop)[name := out] == Both(name, other, out)
  {}

  lemma PropsPut(fields: map<string, Json>, was: Json, now: Json)
    requires fields == map["properties" := was]
    ensures fields["properties" := now] == map["properties" := now]
  {}

  lemma PropertyAt(root: Json, key: string, name: string)
    requires HasProps(root) && key == "properties" && name in Props(root)
    ensures Evaluate(root, [key, name]) == Some(Props(root)[name])
  {
    TwoKeys(root, key, name);
  }

  lemma NeighbourTarget(name: string, other: string, prop: Json)
    requires '%' !in name && name != other
    ensures Resolve(Neighbours(name, other, prop), Reference(["properties", name])) == Some(prop)
  {
    var root, key := Neighbours(name, other, prop), "properties";
    NeighbourProps(name, other, prop);
    WrittenReference(root, [key, name]);
    PropertyAt(root, key, name);
  }

  lemma NeighbourMeans(n: nat, name: string, other: string, prop: Json, xs: seq<Json>, item: ItemRule, kw: KeywordRule)
    requires '%' !in name && name != other && n > 0
    ensures Valid(n, PropertyLink(name), Neighbours(name, other, prop), xs, item, kw) <==> Valid(n - 1, prop, Neighbours(name, other, prop), xs, item, kw)
  {
    NeighbourTarget(name, other, prop);
    LinkMeans(n, Reference(["properties", name]), Neighbours(name, other, prop), xs, item, kw, prop);
  }

  lemma NeighbourAccepts(n: nat, name: string, other: string, s: Json, x: Json, item: ItemRule, kw: KeywordRule)
    requires '%' !in name && name != other && n > 0
    ensures Valid(n, PropertyLink(name), Neighbours(name, other, ListOf(s)), [x], item, kw) <==> item(s, x)
  {
    NeighbourMeans(n, name, other, ListOf(s), [x], item, kw);
    OnlyItems(n - 1, s, Neighbours(name, other, ListOf(s)), x, item, kw);
  }

  /** While files are on their way to a list field, a neighbour without files that is
      declared by a reference to it takes a forged marker in a list of its own; the
      declared document takes it only if the item schema does. */
  lemma NeighbourTakesMarker(n: nat, name: string, other: string, s: Json, markers: seq<Json>, x: Json, item: ItemRule, kw: KeywordRule, root: Json, last: Json, out: Json)
    requires '%' !in name && name != other && !s.Arr? && n > 0
    requires ItemLaw(item) && x in markers
    requires root == Neighbours(name, other, ListOf(s)) && out == ListOf(Admitting(s, markers)) && last == PutProp(root, name, out)
    ensures WidenField(ListOf(s), root, markers) == Widened(out)
    ensures other in Props(last) && Valid(n, Props(last)[other], last, [x], item, kw)
    ensures other in Props(root) && (Valid(n, Props(root)[other], root, [x], item, kw) <==> item(s, x))
  {
    ListWidens(s, root, markers, {}, Refs(ListOf(s)) + Refs(root));
    NeighbourPut(name, other, ListOf(s), out);
    NeighbourProps(name, other, ListOf(s));
    NeighbourProps(name, other, out);
    NeighbourAccepts(n, name, other, s, x, item, kw);
    NeighbourAccepts(n, name, other, Admitting(s, markers), x, item, kw);
    AdmittingMeans(item, s, markers, x);
  }
}
