/** What validate.Write hands to the schema validator: the overlay with a marker for
    every pending upload, and the schema widened to accept them (validate/write.go). */
module PendingUploads {
  import opened Values
  import opened FieldRules
  import opened Markers
  import opened UploadSchema
  import opened SchemaLaws
  import opened Columns
  import opened ChildTables
  import opened Database
  import opened StoreSpec
  import opened StoreLaws
  import opened UpdateTruth
  import opened Effective

  datatype WriteFailure = UnsupportedRoot(keyword: string) | Undeclared(field: string) | BadSchema(why: Refusal)

  datatype Checked = ToValidate(schema: Json, data: map<string, Json>) | Failed(why: WriteFailure)

  /** Root keywords through which a property could be constrained indirectly. */
  const ROOT_KEYWORDS: seq<string> := [
    "$ref", "$dynamicRef", "$recursiveRef", "allOf", "anyOf", "oneOf", "not", "if", "then", "else",
    "dependentSchemas", "dependencies", "patternProperties"]

  /** Nothing at the root constrains a property but "properties". */
  predicate DirectRoot(schema: Json) {
    schema.Obj? && forall k :: k in ROOT_KEYWORDS ==> k !in schema.fields
  }

  /** These are all the keywords that could. */
  lemma DirectRootIs(schema: Json)
    requires schema.Obj?
    ensures DirectRoot(schema) <==> schema.fields.Keys !! {
      "$ref", "$dynamicRef", "$recursiveRef", "allOf", "anyOf", "oneOf", "not", "if", "then", "else", "dependentSchemas", "dependencies", "patternProperties"}
  {}

  function KeyedFields(ui: Ui): set<string> {
    set k | k in ui && KeyedEntry(ui, k)
  }

  /** A field whose uploads take part in validation. */
  predicate Pending(ui: Ui, files: map<string, nat>, name: string) {
    && name in files && files[name] > 0
    && match MediaFieldKind(ui, name)
       case MediaNone => false
       case MediaSingle => files[name] == 1
       case MediaMulti => true
  }

  function ListAt(input: map<string, Json>, name: string): seq<Json> {
    if name in input && input[name].Arr? then input[name].items else []
  }

  /** A submitted value no upload can be appended to. */
  predicate NotAList(input: map<string, Json>, name: string) {
    name in input && input[name] != Null && !input[name].Arr?
  }

  function Props(schema: Json): map<string, Json> {
    if HasProps(schema) then schema.fields["properties"].fields else map[]
  }

  function PutProp(schema: Json, name: string, prop: Json): Json
    requires schema.Obj?
  {
    Obj(schema.fields["properties" := Obj(Props(schema)[name := prop])])
  }

  predicate HasProps(schema: Json) {
    schema.Obj? && "properties" in schema.fields && schema.fields["properties"].Obj?
  }

  /** Two documents that differ at most in the properties of these fields, the second with
      no reference the first does not carry. */
  ghost predicate SameBut(root: Json, other: Json, names: set<string>) {
    && root.Obj? && other.Obj? && Refs(other) <= Refs(root)
    && (if HasProps(root) then HasProps(other) else other == root)
    && Props(other).Keys == Props(root).Keys
    && (forall k :: k in Props(root) && k !in names ==> Props(other)[k] == Props(root)[k])
    && (forall k :: k != "properties" ==> (k in other.fields <==> k in root.fields))
    && (forall k :: k != "properties" && k in root.fields && k in other.fields ==> other.fields[k] == root.fields[k])
  }

  /** One field with pending uploads: its value in the overlay and its schema. mid is the
      document its references were resolved in. */
  ghost predicate Awaits(ui: Ui, input: map<string, Json>, files: map<string, nat>, root: Json, name: string, v: Json, prop: Json, mid: Json, markers: seq<Json>) {
    && Pending(ui, files, name) && name in Props(root)
    && GoodMarkers(name, files[name], ListAt(input, name), markers)
    && match MediaFieldKind(ui, name)
       case MediaNone => false
       case MediaSingle => v == markers[0] && prop == Admitting(Props(root)[name], markers)
       case MediaMulti =>
         if NotAList(input, name) then v == input[name] && prop == Props(root)[name]
         else v == Arr(ListAt(input, name) + markers) && WidenField(Props(root)[name], mid, markers) == Widened(prop)
  }

  /** A document on the way from the original to another: the same but in the properties
      of these fields, and each of those is as declared or as it ends. */
  ghost predicate OnTheWay(root: Json, last: Json, mid: Json, names: set<string>) {
    && SameBut(root, mid, names)
    && (forall k :: k in names && k in Props(root) ==> Props(mid)[k] == Props(root)[k] || (k in Props(last) && Props(mid)[k] == Props(last)[k]))
  }

  /** The same for some document on the way to the last one, and some markers: the other
      fields with uploads are in it as declared or already widened. */
  ghost predicate Awaited(ui: Ui, input: map<string, Json>, files: map<string, nat>, root: Json, last: Json, name: string, v: Json, prop: Json) {
    exists mid, markers :: OnTheWay(root, last, mid, PendingNames(ui, files) - {name}) && Awaits(ui, input, files, root, name, v, prop, mid, markers)
  }

  function PendingNames(ui: Ui, files: map<string, nat>): set<string> {
    set n | n in files && Pending(ui, files, n)
  }

  /** What one field may fail with. */
  ghost predicate Justified(mid: Json, name: string, why: WriteFailure)
    requires mid.Obj?
  {
    match why
    case UnsupportedRoot(k) => k in ROOT_KEYWORDS && k in mid.fields
    case Undeclared(f) => f == name && name !in Props(mid)
    case BadSchema(w) => name in Props(mid) && exists markers :: WidenField(Props(mid)[name], mid, markers) == Refused(w)
  }

  lemma MarkerRefs(name: string, count: nat, existing: seq<Json>, markers: seq<Json>)
    requires GoodMarkers(name, count, existing, markers)
    ensures Refs(Arr(markers)) == {}
  {
    forall i | 0 <= i < |markers| ensures Refs(markers[i]) == {} {
      var a :| markers[i] == Marker(Candidate(name, i, a));
    }
  }

  /** The schema a field with uploads gets carries references of the document only. */
  lemma PropRefs(ui: Ui, input: map<string, Json>, files: map<string, nat>, root: Json, name: string, v: Json, prop: Json, mid: Json, markers: seq<Json>)
    requires Awaits(ui, input, files, root, name, v, prop, mid, markers) && Refs(mid) <= Refs(root)
    ensures Refs(prop) <= Refs(root)
    ensures prop.Str? ==> prop == Props(root)[name]
  {
    MarkerRefs(name, files[name], ListAt(input, name), markers);
    PropertyRefs(root, name);
    if MediaFieldKind(ui, name) == MediaSingle {
      AdmittingRefs(Props(root)[name], markers);
    } else if !NotAList(input, name) {
      WidenedFieldRefs(Props(root)[name], mid, markers, Refs(root), prop);
    }
  }

  lemma PropertyRefs(root: Json, name: string)
    requires name in Props(root)
    ensures Refs(Props(root)[name]) <= Refs(root)
  {
    assert "properties" in root.fields.Keys;
    assert name in root.fields["properties"].fields.Keys;
    assert Refs(Props(root)[name]) <= Refs(root.fields["properties"]);
  }

  /** A property is replaced by a string only if it was that string. */
  ghost predicate SameString(schema: Json, name: string, prop: Json) {
    prop.Str? ==> name in Props(schema) && Props(schema)[name] == prop
  }

  lemma PutRefs(schema: Json, name: string, prop: Json, u: set<string>)
    requires HasProps(schema) && Refs(schema) <= u && Refs(prop) <= u && SameString(schema, name, prop)
    ensures Refs(PutProp(schema, name, prop)) <= u
  {
    var was, now := schema.fields["properties"], Obj(Props(schema)[name := prop]);
    assert "properties" in schema.fields.Keys && Refs(was) <= Refs(schema);
    FieldRefs(was, name, prop, u);
    FieldRefs(schema, "properties", now, u);
  }

  lemma FieldRefs(node: Json, key: string, v: Json, u: set<string>)
    requires node.Obj? && Refs(node) <= u && Refs(v) <= u
    requires v.Str? ==> key in node.fields && node.fields[key] == v
    ensures Refs(Obj(node.fields[key := v])) <= u
  {
    var fields := node.fields[key := v];
    if HasRef(fields) {
      assert HasRef(node.fields) && node.fields["$ref"] == fields["$ref"];
    }
    forall r | r in Refs(Obj(fields)) && !(HasRef(fields) && r == fields["$ref"].s) ensures r in u {
      var k :| k in fields.Keys && r in Refs(fields[k]);
      if k != key { assert k in node.fields.Keys && r in Refs(node); }
    }
  }

  lemma PutKeeps(root: Json, schema: Json, name: string, prop: Json, names: set<string>)
    requires SameBut(root, schema, names) && name in Props(root) && Refs(prop) <= Refs(root) && SameString(schema, name, prop)
    ensures SameBut(root, PutProp(schema, name, prop), names + {name})
    ensures Props(PutProp(schema, name, prop)) == Props(schema)[name := prop]
  {
    PutRefs(schema, name, prop, Refs(root));
  }

  /** A list field: the submitted list with the markers at its end, the schema widened. */
  method AwaitList(ui: Ui, input: map<string, Json>, files: map<string, nat>, ghost root: Json, schema: Json, name: string, markers: seq<Json>) returns (failed: Option<Refusal>, v: Json, prop: Json)
    requires Pending(ui, files, name) && schema.Obj? && name in Props(schema) && name in Props(root)
    requires Props(schema)[name] == Props(root)[name]
    requires GoodMarkers(name, files[name], ListAt(input, name), markers)
    requires MediaFieldKind(ui, name) == MediaMulti
    ensures failed.Some? ==> WidenField(Props(schema)[name], schema, markers) == Refused(failed.value)
    ensures failed.None? ==> Awaits(ui, input, files, root, name, v, prop, schema, markers)
  {
    failed, v, prop := None, Null, Props(schema)[name];
    if NotAList(input, name) {
      v := input[name];
    } else {
      v := Arr(ListAt(input, name) + markers);
      var w := WidenField(prop, schema, markers);
      match w {
        case Refused(why) => failed := Some(why);
        case Widened(node) => prop := node;
      }
    }
  }

  lemma SameButMore(root: Json, schema: Json, names: set<string>, more: set<string>)
    requires SameBut(root, schema, names) && names <= more
    ensures SameBut(root, schema, more)
  {}

  /** What stands for the uploads of one field, and its schema. */
  method Stand(ui: Ui, input: map<string, Json>, files: map<string, nat>, ghost root: Json, schema: Json, name: string) returns (why: Option<WriteFailure>, v: Json, prop: Json)
    requires Pending(ui, files, name) && SameBut(root, schema, PendingNames(ui, files) - {name})
    ensures why.Some? ==> Justified(schema, name, why.value)
    ensures why.None? ==> DirectRoot(schema)
    ensures why.None? ==> name in Props(root) && Awaited(ui, input, files, root, schema, name, v, prop)
  {
    v, prop := Null, Null;
    var keyword := FirstOf(ROOT_KEYWORDS, schema.fields);
    if keyword.Some? { return Some(UnsupportedRoot(keyword.value)), v, prop; }
    if name !in Props(schema) { return Some(Undeclared(name)), v, prop; }
    var markers := MakeMarkers(name, files[name], ListAt(input, name));
    if MediaFieldKind(ui, name) == MediaSingle {
      v, prop := markers[0], Admitting(Props(schema)[name], markers);
    } else {
      var failed;
      failed, v, prop := AwaitList(ui, input, files, root, schema, name, markers);
      if failed.Some? { return Some(BadSchema(failed.value)), v, prop; }
    }
    assert OnTheWay(root, schema, schema, PendingNames(ui, files) - {name});
    assert Awaits(ui, input, files, root, name, v, prop, schema, markers);
    why := None;
  }

  /** What one more field done comes to. */
  ghost predicate OneDone(ui: Ui, input: map<string, Json>, files: map<string, nat>, root: Json, schema: Json, data: map<string, Json>, name: string, later: Json, data2: map<string, Json>) {
    && data2.Keys == data.Keys + {name} && (forall k :: k in data && k != name ==> data2[k] == data[k])
    && OneMore(root, schema, later, name) && name in Props(later)
    && Awaited(ui, input, files, root, later, name, data2[name], Props(later)[name])
  }

  lemma Fails(ui: Ui, files: map<string, nat>, root: Json, schema: Json, name: string, why: WriteFailure)
    requires Pending(ui, files, name) && SameBut(root, schema, PendingNames(ui, files) - {name}) && Justified(schema, name, why)
    ensures MayFail(ui, files, root, why)
  {}

  /** One turn of the loop over the fields with files. */
  method Await(ui: Ui, input: map<string, Json>, files: map<string, nat>, ghost root: Json, schema: Json, data: map<string, Json>, name: string, ghost done: set<string>) returns (r: Checked)
    requires Pending(ui, files, name) && done <= PendingNames(ui, files) - {name}
    requires SameBut(root, schema, done)
    ensures r.Failed? ==> MayFail(ui, files, root, r.why)
    ensures r.ToValidate? ==> DirectRoot(schema)
    ensures r.ToValidate? ==> SameBut(root, r.schema, done + {name}) && OneDone(ui, input, files, root, schema, data, name, r.schema, r.data)
  {
    SameButMore(root, schema, done, PendingNames(ui, files) - {name});
    var why, v, prop := Stand(ui, input, files, root, schema, name);
    if why.Some? {
      Fails(ui, files, root, schema, name, why.value);
      return Failed(why.value);
    }
    r := ToValidate(PutProp(schema, name, prop), data[name := v]);
    PutField(ui, input, files, root, schema, r.schema, data, name, v, prop, done);
  }

  lemma PutField(ui: Ui, input: map<string, Json>, files: map<string, nat>, root: Json, schema: Json, later: Json, data: map<string, Json>, name: string, v: Json, prop: Json, done: set<string>)
    requires SameBut(root, schema, done) && name !in done && name in Props(root)
    requires later == PutProp(schema, name, prop)
    requires Awaited(ui, input, files, root, schema, name, v, prop)
    ensures SameBut(root, later, done + {name})
    ensures OneDone(ui, input, files, root, schema, data, name, later, data[name := v])
  {
    var mid, markers :| OnTheWay(root, schema, mid, PendingNames(ui, files) - {name}) && Awaits(ui, input, files, root, name, v, prop, mid, markers);
    PropRefs(ui, input, files, root, name, v, prop, mid, markers);
    PutKeeps(root, schema, name, prop, done);
    OneMorePut(root, schema, later, name, prop);
    AwaitedLater(ui, input, files, root, schema, later, name, v, prop, name);
    DoneIs(ui, input, files, root, schema, later, data, name, v, prop);
  }

  lemma OneMorePut(root: Json, schema: Json, later: Json, name: string, prop: Json)
    requires name in Props(root) && name in Props(schema) && Props(schema)[name] == Props(root)[name]
    requires Props(later) == Props(schema)[name := prop]
    ensures OneMore(root, schema, later, name)
  {}

  lemma DoneIs(ui: Ui, input: map<string, Json>, files: map<string, nat>, root: Json, schema: Json, later: Json, data: map<string, Json>, name: string, v: Json, prop: Json)
    requires OneMore(root, schema, later, name) && name in Props(later) && Props(later)[name] == prop
    requires Awaited(ui, input, files, root, later, name, v, prop)
    ensures OneDone(ui, input, files, root, schema, data, name, later, data[name := v])
  {}

  /** Every field done so far. */
  ghost predicate AllAwaited(ui: Ui, input: map<string, Json>, files: map<string, nat>, root: Json, done: set<string>, schema: Json, data: map<string, Json>) {
    forall k :: k in done ==> k in Props(root) && k in data && k in Props(schema) && Awaited(ui, input, files, root, schema, k, data[k], Props(schema)[k])
  }

  /** Outside the fields done so far the data is the overlay. */
  ghost predicate RestIsOverlay(overlay: map<string, Json>, done: set<string>, data: map<string, Json>) {
    data.Keys == overlay.Keys + done && forall k :: k in overlay && k !in done ==> data[k] == overlay[k]
  }

  /** A later document changes one more field, from what is declared. */
  ghost predicate OneMore(root: Json, schema: Json, later: Json, name: string) {
    && name in Props(root) && name in Props(schema) && Props(schema)[name] == Props(root)[name]
    && (forall k :: k in Props(root) && k != name && k in Props(schema) ==> k in Props(later) && Props(later)[k] == Props(schema)[k])
  }

  lemma AwaitedLater(ui: Ui, input: map<string, Json>, files: map<string, nat>, root: Json, schema: Json, later: Json, k: string, v: Json, prop: Json, name: string)
    requires Awaited(ui, input, files, root, schema, k, v, prop)
    requires OneMore(root, schema, later, name)
    ensures Awaited(ui, input, files, root, later, k, v, prop)
  {
    var mid, markers :| OnTheWay(root, schema, mid, PendingNames(ui, files) - {k}) && Awaits(ui, input, files, root, k, v, prop, mid, markers);
    assert OnTheWay(root, later, mid, PendingNames(ui, files) - {k});
  }

  lemma AwaitedStays(ui: Ui, input: map<string, Json>, files: map<string, nat>, root: Json, done: set<string>, schema: Json, data: map<string, Json>, name: string, schema2: Json, data2: map<string, Json>)
    requires AllAwaited(ui, input, files, root, done, schema, data) && name !in done
    requires OneDone(ui, input, files, root, schema, data, name, schema2, data2)
    ensures AllAwaited(ui, input, files, root, done + {name}, schema2, data2)
  {
    forall k | k in done + {name}
      ensures k in Props(root) && k in data2 && k in Props(schema2) && Awaited(ui, input, files, root, schema2, k, data2[k], Props(schema2)[k])
    {
      if k != name {
        AwaitedLater(ui, input, files, root, schema, schema2, k, data[k], Props(schema)[k], name);
      }
    }
  }

  /** The fields done so far, and everything else. */
  ghost predicate Underway(ui: Ui, overlay: map<string, Json>, input: map<string, Json>, files: map<string, nat>, root: Json, done: set<string>, schema: Json, data: map<string, Json>) {
    && SameBut(root, schema, done)
    && RestIsOverlay(overlay, done, data)
    && AllAwaited(ui, input, files, root, done, schema, data)
  }

  lemma OverlayStays(overlay: map<string, Json>, done: set<string>, data: map<string, Json>, name: string, data2: map<string, Json>)
    requires RestIsOverlay(overlay, done, data)
    requires data2.Keys == data.Keys + {name} && forall k :: k in data && k != name ==> data2[k] == data[k]
    ensures RestIsOverlay(overlay, done + {name}, data2)
  {}

  lemma StaysUnderway(ui: Ui, overlay: map<string, Json>, input: map<string, Json>, files: map<string, nat>, root: Json, done: set<string>, schema: Json, data: map<string, Json>, name: string, schema2: Json, data2: map<string, Json>)
    requires Underway(ui, overlay, input, files, root, done, schema, data) && name !in done
    requires SameBut(root, schema2, done + {name})
    requires OneDone(ui, input, files, root, schema, data, name, schema2, data2)
    ensures Underway(ui, overlay, input, files, root, done + {name}, schema2, data2)
  {
    OverlayStays(overlay, done, data, name, data2);
    AwaitedStays(ui, input, files, root, done, schema, data, name, schema2, data2);
  }

  /** What Write hands to the validator, or why it hands over nothing. */
  ghost predicate Prepares(root: Json, ui: Ui, current: Option<map<string, Json>>, input: map<string, Json>, files: map<string, nat>, r: Checked) {
    var overlay := Overlaid(KeyedFields(ui), if current.Some? then current.value else map[], input);
    match r
    case Failed(why) => root.Obj? && MayFail(ui, files, root, why)
    case ToValidate(schema, data) =>
      if root.Obj? then
        && Underway(ui, overlay, input, files, root, PendingNames(ui, files), schema, data)
        && (PendingNames(ui, files) != {} ==> DirectRoot(root))
      else schema == root && data == overlay
  }

  /** Write, up to the call of the validator; the fields with files in any order. */
  method CheckWrite(root: Json, ui: Ui, current: Option<map<string, Json>>, input: map<string, Json>, files: map<string, nat>) returns (r: Checked)
    ensures Prepares(root, ui, current, input, files, r)
  {
    var before := if current.Some? then current.value else map[];
    var data := BuildOverlay(KeyedFields(ui), before, input);
    if !root.Obj? { return ToValidate(root, data); }
    r := AwaitEach(root, ui, data, input, files);
  }

  lemma SameRoot(root: Json, schema: Json, names: set<string>)
    requires SameBut(root, schema, names)
    ensures DirectRoot(schema) <==> DirectRoot(root)
  {
    assert "properties" !in ROOT_KEYWORDS;
  }

  /** The loop over the fields with files. */
  method AwaitEach(root: Json, ui: Ui, overlay: map<string, Json>, input: map<string, Json>, files: map<string, nat>) returns (r: Checked)
    requires root.Obj?
    ensures r.ToValidate? ==> Underway(ui, overlay, input, files, root, PendingNames(ui, files), r.schema, r.data)
    ensures r.ToValidate? && PendingNames(ui, files) != {} ==> DirectRoot(root)
    ensures r.Failed? ==> MayFail(ui, files, root, r.why)
  {
    var schema, data, rest := root, overlay, files.Keys;
    ghost var done: set<string> := {};
    while rest != {}
      invariant rest <= files.Keys
      invariant done <= PendingNames(ui, files) <= done + rest
      invariant done !! rest
      invariant done != {} ==> DirectRoot(root)
      invariant Underway(ui, overlay, input, files, root, done, schema, data)
    {
      var name :| name in rest;
      if Pending(ui, files, name) {
        var step := Await(ui, input, files, root, schema, data, name, done);
        if step.Failed? { return step; }
        SameRoot(root, schema, done);
        StaysUnderway(ui, overlay, input, files, root, done, schema, data, name, step.schema, step.data);
        schema, data := step.schema, step.data;
        done := done + {name};
      }
      rest := rest - {name};
    }
    assert done == PendingNames(ui, files);
    r := ToValidate(schema, data);
  }

  /** Some pending field justifies the failure. */
  ghost predicate MayFail(ui: Ui, files: map<string, nat>, root: Json, why: WriteFailure) {
    exists name, mid :: Pending(ui, files, name) && SameBut(root, mid, PendingNames(ui, files) - {name}) && Justified(mid, name, why)
  }

  // --- what the validator then decides -------------------------------------------------------

  /** The widened schema, in whatever document it is put, accepts the final list of a field
      exactly when every submitted id meets the declared item schemas and the declared
      limits hold of that list. */
  lemma PendingListAccepted(n: nat, m: nat, ui: Ui, input: map<string, Json>, files: map<string, nat>, root: Json, last: Json, name: string, v: Json, prop: Json, mid: Json, markers: seq<Json>, item: ItemRule, other: KeywordRule)
    requires Awaits(ui, input, files, root, name, v, prop, mid, markers)
    requires MediaFieldKind(ui, name) == MediaMulti && !NotAList(input, name)
    requires ItemLaw(item) && n >= Depth(Props(root)[name], mid) && CleanRefs(n, Props(root)[name], mid)
    ensures v == Arr(ListAt(input, name) + markers)
    ensures Valid(m, prop, last, v.items, item, other)
       <==> LimitsHold(n, Props(root)[name], mid, v.items, other) && AllAccepted(n, Props(root)[name], mid, ListAt(input, name), item)
  {
    forall i | 0 <= i < |markers| ensures markers[i] !in ListAt(input, name) {}
    WidenedAccepts(n, m, Props(root)[name], mid, last, markers, ListAt(input, name), item, other, prop);
  }

  /** The schema a single file gives its field accepts the marker, and whatever the declared
      one does. */
  lemma PendingFileAccepted(ui: Ui, input: map<string, Json>, files: map<string, nat>, root: Json, name: string, v: Json, prop: Json, mid: Json, markers: seq<Json>, item: ItemRule, x: Json)
    requires Awaits(ui, input, files, root, name, v, prop, mid, markers) && MediaFieldKind(ui, name) == MediaSingle
    requires ItemLaw(item)
    ensures item(prop, v)
    ensures item(prop, x) <==> item(Props(root)[name], x) || x == v
  {
    assert markers == [v];
    AdmittingMeans(item, Props(root)[name], markers, v);
    AdmittingMeans(item, Props(root)[name], markers, x);
  }

  /** The only field with uploads has its references resolved in the original document. */
  lemma OnlyFieldSeesRoot(ui: Ui, input: map<string, Json>, files: map<string, nat>, root: Json, last: Json, name: string, v: Json, prop: Json)
    requires PendingNames(ui, files) == {name}
    requires Awaited(ui, input, files, root, last, name, v, prop)
    ensures exists markers :: Awaits(ui, input, files, root, name, v, prop, root, markers)
  {
    var mid, markers :| OnTheWay(root, last, mid, PendingNames(ui, files) - {name}) && Awaits(ui, input, files, root, name, v, prop, mid, markers);
    SameDocument(root, mid);
  }

  lemma SameDocument(root: Json, mid: Json)
    requires SameBut(root, mid, {}) && Props(root) != map[]
    ensures mid == root
  {
    var k :| k in Props(root);
    assert Props(mid) == Props(root);
    assert mid.fields["properties"] == root.fields["properties"];
    assert mid.fields == root.fields by {
      forall k ensures k in mid.fields <==> k in root.fields {}
    }
  }

  // --- and what a read gives after the save -----------------------------------------------------

  /** The UI schema calls keyed exactly the fields whose cells are. */
  ghost predicate KeyedAlike(cols: seq<Named>, ui: Ui) {
    forall nc :: nc in cols ==> (Keyed(nc.column) <==> KeyedEntry(ui, nc.name))
  }

  lemma SameOverlay(cols: seq<Named>, ui: Ui, current: map<string, Json>, input: map<string, Json>, nc: Named)
    requires DistinctNames(cols) && KeyedAlike(cols, ui) && nc in cols && nc.name in current
    ensures Overlaid(KeyedFields(ui), current, input)[nc.name] == Overlaid(KeyedNames(cols), current, input)[nc.name]
  {
    KeyedName(cols, nc);
  }

  /** What Write hands over for a field without uploads is what Load gives after the save,
      once blank keyed entries are dropped. */
  lemma CheckedIsLoaded(t: Table, clock: Clock, render: Render, db: Db, next: nat, id: string, input: map<string, Json>, gen: IdSource, ui: Ui, done: set<string>, data: map<string, Json>, nc: Named)
    requires TableOk(t, clock) && Sound(db, gen, next) && Faithful(t.cols, id, input) && KeyedAlike(t.cols, ui)
    requires SaveUpdate(t, clock, render, db, next, id, input, gen).Ok?
    requires Load(t, db, id).Some? && RestIsOverlay(Overlaid(KeyedFields(ui), Load(t, db, id).value, input), done, data)
    requires nc in t.cols && !IsTouch(clock, nc) && nc.name !in done
    ensures var after := Load(t, SaveUpdate(t, clock, render, db, next, id, input, gen).value.db, id);
      && after.Some? && nc.name in after.value && nc.name in data
      && after.value[nc.name] == Settled(nc.column, data[nc.name])
  {
    EffectiveIsLoaded(t, clock, render, db, next, id, input, gen);
    SameOverlay(t.cols, ui, Load(t, db, id).value, input, nc);
  }
}
