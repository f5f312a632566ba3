/** One create or update request between decoding and Save (handler.go). */
module Requests {
  import opened Values
  import opened Ordering
  import opened FieldRules
  import opened Selections
  import opened PendingUploads

  type Files = map<string, seq<Upload>>

  function Counts(files: Files): map<string, nat> {
    map f | f in files :: |files[f]|
  }

  /** A file part no field takes. */
  predicate Unexpected(ui: Ui, files: Files, field: string) {
    field in files
    && (MediaFieldKind(ui, field) == MediaNone || (MediaFieldKind(ui, field) == MediaSingle && |files[field]| > 1))
  }

  function FileValues(ups: seq<Upload>): seq<Json> {
    seq(|ups|, i requires 0 <= i < |ups| => File(ups[i]))
  }

  /** The value of a field once its files are in: a single file replaces, several go to
      the tail of the submitted list. */
  function WithFiles(ui: Ui, fields: map<string, Json>, field: string, ups: seq<Upload>): Json {
    if MediaFieldKind(ui, field) == MediaSingle && ups != [] then File(ups[0])
    else Arr(ListAt(fields, field) + FileValues(ups))
  }

  /** One error for each stray file field, in order. */
  ghost predicate Strays(ui: Ui, files: Files, done: seq<string>, pos: seq<nat>, errors: seq<FieldError>) {
    && Rising(pos, |done|) && |errors| == |pos|
    && (forall i :: 0 <= i < |done| ==> (i in pos <==> Unexpected(ui, files, done[i])))
    && (forall j :: 0 <= j < |errors| ==> errors[j] == FieldError("/" + done[pos[j]], "unexpected file"))
  }

  ghost predicate AllStrays(ui: Ui, files: Files, done: seq<string>, errors: seq<FieldError>) {
    exists pos: seq<nat> :: Strays(ui, files, done, pos, errors)
  }

  /** The loop over the file fields. */
  ghost predicate Injected(ui: Ui, before: map<string, Json>, files: Files, done: seq<string>, after: map<string, Json>, errors: seq<FieldError>) {
    && after.Keys == before.Keys + (set f | f in done && !Unexpected(ui, files, f))
    && (forall k :: k in before && (k !in done || Unexpected(ui, files, k)) ==> after[k] == before[k])
    && (forall f :: f in done && f in files && !Unexpected(ui, files, f) ==> after[f] == WithFiles(ui, before, f, files[f]))
    && AllStrays(ui, files, done, errors)
  }

  /** What the files of one field do to the payload. */
  ghost predicate Placed(ui: Ui, files: Files, f: string, before: map<string, Json>, after: map<string, Json>, errors: seq<FieldError>)
    requires f in files
  {
    if Unexpected(ui, files, f) then after == before && errors == [FieldError("/" + f, "unexpected file")]
    else after == before[f := WithFiles(ui, before, f, files[f])] && errors == []
  }

  /** The files of one field: put in their place, or refused. */
  method InjectOne(ui: Ui, payload: Payload, files: Files, f: string) returns (errors: seq<FieldError>)
    requires f in files && files[f] != []
    modifies payload
    ensures Placed(ui, files, f, old(payload.fields), payload.fields, errors)
  {
    var kind, ups := MediaFieldKind(ui, f), files[f];
    if kind == MediaNone || (kind == MediaSingle && |ups| > 1) { return [FieldError("/" + f, "unexpected file")]; }
    errors := [];
    if kind == MediaSingle {
      payload.fields := payload.fields[f := File(ups[0])];
    } else {
      payload.fields := payload.fields[f := Arr(ListAt(payload.fields, f) + FileValues(ups))];
    }
  }

  method InjectFiles(ui: Ui, payload: Payload, files: Files) returns (errors: seq<FieldError>)
    requires forall f :: f in files ==> files[f] != []
    modifies payload
    ensures Injected(ui, old(payload.fields), files, SortedKeys(files.Keys), payload.fields, errors)
  {
    errors := [];
    var fields := SortedKeys(files.Keys);
    ghost var before := payload.fields;
    InjectedNone(ui, before, files);
    assert fields[..0] == [];
    for i := 0 to |fields|
      invariant Injected(ui, before, files, fields[..i], payload.fields, errors)
    {
      var f := fields[i];
      FreshField(files, fields, i);
      ghost var mid := payload.fields;
      var more := InjectOne(ui, payload, files, f);
      InjectedNext(ui, before, files, fields[..i], f, mid, errors, payload.fields, more);
      errors := errors + more;
    }
    assert fields[..|fields|] == fields;
  }

  lemma InjectedNone(ui: Ui, before: map<string, Json>, files: Files)
    ensures Injected(ui, before, files, [], before, [])
  {
    assert Strays(ui, files, [], [], []);
  }

  lemma StraysNext(ui: Ui, files: Files, done: seq<string>, f: string, errors: seq<FieldError>)
    requires AllStrays(ui, files, done, errors)
    ensures AllStrays(ui, files, done + [f], errors + if Unexpected(ui, files, f) then [FieldError("/" + f, "unexpected file")] else [])
  {
    var pos: seq<nat> :| Strays(ui, files, done, pos, errors);
    RisingSnoc(pos, |done|);
    assert forall i :: 0 <= i < |done| ==> (done + [f])[i] == done[i];
    if Unexpected(ui, files, f) {
      assert Strays(ui, files, done + [f], pos + [|done|], errors + [FieldError("/" + f, "unexpected file")]);
    } else {
      assert errors + [] == errors;
      assert Strays(ui, files, done + [f], pos, errors);
    }
  }

  lemma FreshField(files: Files, fields: seq<string>, i: nat)
    requires Elems(fields) == files.Keys && i < |fields|
    requires forall j, k :: 0 <= j < k < |fields| ==> fields[j] != fields[k]
    ensures fields[i] in files && fields[i] !in fields[..i]
    ensures fields[..i + 1] == fields[..i] + [fields[i]]
  {}

  lemma InjectedNext(ui: Ui, before: map<string, Json>, files: Files, done: seq<string>, f: string, mid: map<string, Json>, errors: seq<FieldError>, after: map<string, Json>, more: seq<FieldError>)
    requires Injected(ui, before, files, done, mid, errors)
    requires f in files && f !in done && Placed(ui, files, f, mid, after, more)
    ensures Injected(ui, before, files, done + [f], after, errors + more)
  {
    assert forall k :: k in done + [f] <==> k in done || k == f;
    StraysNext(ui, files, done, f, errors);
    SameList(ui, before, files, done, f, mid, errors);
    forall k ensures k in after.Keys <==> k in before.Keys || (k in done + [f] && !Unexpected(ui, files, k)) {}
  }

  /** Files go on top of the submitted list, whatever was placed before. */
  lemma SameList(ui: Ui, before: map<string, Json>, files: Files, done: seq<string>, f: string, mid: map<string, Json>, errors: seq<FieldError>)
    requires Injected(ui, before, files, done, mid, errors) && f in files && f !in done
    ensures WithFiles(ui, mid, f, files[f]) == WithFiles(ui, before, f, files[f])
  {
    assert f in mid <==> f in before;
  }

  // --- the pipeline --------------------------------------------------------------------------

  /** Refused before Save, or the map Save receives. */
  datatype Outcome = SchemaFailure | Rejected(errors: seq<FieldError>) | Saving(payload: map<string, Json>)

  /** The submitted keys that survive the read-only cut and the policy on unknown keys. */
  function Kept(schema: Json, ui: Ui, policy: Policy, fields: map<string, Json>): map<string, Json> {
    var own := fields - ReadonlyNames(ui);
    if policy == Strip then own - UnknownKeys(Props(schema).Keys, own) else own
  }

  ghost predicate NoUnexpected(ui: Ui, files: Files) {
    forall f :: f in files ==> !Unexpected(ui, files, f)
  }

  /** The keys the policy rejects. */
  function Rejects(schema: Json, ui: Ui, policy: Policy, fields: map<string, Json>): set<string> {
    if policy == Reject then UnknownKeys(Props(schema).Keys, fields - ReadonlyNames(ui)) else {}
  }

  /** The read-only cut and the policy on unknown keys. */
  method CutKeys(schema: Json, ui: Ui, payload: Payload, policy: Policy) returns (unknown: seq<FieldError>)
    modifies payload
    ensures payload.fields == Kept(schema, ui, policy, old(payload.fields))
    ensures var keys := SortedKeys(Rejects(schema, ui, policy, old(payload.fields))); OneErrorEach(keys, |keys|, unknown)
  {
    var _ := StripReadonly(ui, payload);
    unknown := UnknownFields(Props(schema).Keys, payload, policy);
    if policy != Reject { NoneSorted(); }
  }

  lemma NoneSorted()
    ensures SortedKeys({}) == []
  {
    assert Elems(SortedKeys({})) == {};
  }

  /** The verdict of the validator over what Write prepared, if it prepared anything. */
  ghost function Verdict(c: Checked, structural: (Json, map<string, Json>) -> seq<FieldError>): Option<seq<FieldError>> {
    match c
    case Failed(_) => None
    case ToValidate(schema, data) => Some(structural(schema, data))
  }

  /** The errors are those of some document and data Write may prepare; there are none to
      give only where preparing may fail. */
  ghost predicate Judged(schema: Json, ui: Ui, current: Option<map<string, Json>>, input: map<string, Json>, files: Files,
                         structural: (Json, map<string, Json>) -> seq<FieldError>, r: Option<seq<FieldError>>) {
    match r
    case Some(errors) => exists s, d :: Prepares(schema, ui, current, input, Counts(files), ToValidate(s, d)) && errors == structural(s, d)
    case None => schema.Obj? && exists why :: MayFail(ui, Counts(files), schema, why)
  }

  /** The structural check of what Write prepares; None exactly when it prepares nothing. */
  method CheckStructure(schema: Json, ui: Ui, current: Option<map<string, Json>>, input: map<string, Json>, files: Files,
                        structural: (Json, map<string, Json>) -> seq<FieldError>) returns (r: Option<seq<FieldError>>, ghost checked: Checked)
    ensures Prepares(schema, ui, current, input, Counts(files), checked) && r == Verdict(checked, structural)
    ensures Judged(schema, ui, current, input, files, structural, r)
  {
    var c := CheckWrite(schema, ui, current, input, Counts(files));
    checked := c;
    match c {
      case Failed(_) => r := None;
      case ToValidate(s, d) => r := Some(structural(s, d));
    }
  }

  /** What became of a request: rejected for its unknown keys, and nothing else was looked
      at; not validated, for a fault of the schema; rejected for what the validator, the
      stray files and Validate found, in that order; or handed to Save. */
  ghost predicate Answers(schema: Json, ui: Ui, current: Option<map<string, Json>>, fields: map<string, Json>, files: Files, policy: Policy,
                          structural: (Json, map<string, Json>) -> seq<FieldError>, validate: map<string, Json> -> seq<FieldError>,
                          o: Outcome, seen: Option<map<string, Json>>, checked: Checked, strays: seq<FieldError>) {
    var keys, kept := SortedKeys(Rejects(schema, ui, policy, fields)), Kept(schema, ui, policy, fields);
    if keys != [] then seen == None && o.Rejected? && OneErrorEach(keys, |keys|, o.errors)
    else
      && Prepares(schema, ui, current, kept, Counts(files), checked)
      && match Verdict(checked, structural)
         case None => seen == None && o == SchemaFailure
         case Some(found) =>
           && seen.Some? && Injected(ui, kept, files, SortedKeys(files.Keys), seen.value, strays)
           && o == var errors := found + strays + validate(seen.value); if errors == [] then Saving(seen.value) else Rejected(errors)
  }

  /** write: read-only cut, unknown keys, structural check, files, Validate, Save. seen
      is the map handed to Validate. */
  method Write(schema: Json, ui: Ui, current: Option<map<string, Json>>, payload: Payload, files: Files, policy: Policy,
               structural: (Json, map<string, Json>) -> seq<FieldError>, validate: map<string, Json> -> seq<FieldError>)
    returns (o: Outcome, seen: Option<map<string, Json>>, ghost checked: Checked, ghost strays: seq<FieldError>)
    requires forall f :: f in files ==> files[f] != []
    modifies payload
    ensures Answers(schema, ui, current, old(payload.fields), files, policy, structural, validate, o, seen, checked, strays)
    ensures seen.Some? ==> payload.fields == seen.value
  {
    seen, checked, strays := None, Failed(Undeclared("")), [];
    var unknown := CutKeys(schema, ui, payload, policy);
    if unknown != [] { o := Rejected(unknown); return; }
    ghost var kept := payload.fields;
    var verdict;
    verdict, checked := CheckStructure(schema, ui, current, payload.fields, files, structural);
    if verdict.None? { o := SchemaFailure; return; }
    var placed := InjectFiles(ui, payload, files);
    strays := placed;
    assert Injected(ui, kept, files, SortedKeys(files.Keys), payload.fields, strays);
    seen := Some(payload.fields);
    var errors := verdict.value + placed + validate(payload.fields);
    o := if errors != [] then Rejected(errors) else Saving(payload.fields);
  }

  /** A request reaches Save if and only if no key is unknown under the rejecting policy,
      what Write prepares passes the structural check, no file is stray and Validate finds
      nothing; a rejection always carries an error; and a schema failure is that of a field
      with files. */
  lemma SavedExactly(schema: Json, ui: Ui, current: Option<map<string, Json>>, fields: map<string, Json>, files: Files, policy: Policy,
                     structural: (Json, map<string, Json>) -> seq<FieldError>, validate: map<string, Json> -> seq<FieldError>,
                     o: Outcome, seen: Option<map<string, Json>>, checked: Checked, strays: seq<FieldError>)
    requires Answers(schema, ui, current, fields, files, policy, structural, validate, o, seen, checked, strays)
    ensures o.Saving? <==>
      && (policy == Reject ==> forall k :: k in fields && !Readonly(ui, k) ==> k in Props(schema))
      && Prepares(schema, ui, current, Kept(schema, ui, policy, fields), Counts(files), checked)
      && checked.ToValidate? && structural(checked.schema, checked.data) == []
      && NoUnexpected(ui, files) && seen.Some? && validate(seen.value) == []
    ensures o.Saving? ==> seen == Some(o.payload)
    ensures o.Rejected? ==> o.errors != []
    ensures o.SchemaFailure? ==> checked.Failed? && schema.Obj? && exists why :: MayFail(ui, Counts(files), schema, why)
    ensures (policy == Reject ==> forall k :: k in fields && !Readonly(ui, k) ==> k in Props(schema)) && checked.Failed? ==> o == SchemaFailure
  {
    RejectsNone(schema, ui, policy, fields);
    if seen.Some? {
      NoStrays(ui, Kept(schema, ui, policy, fields), files, seen.value, strays);
    }
    if o.SchemaFailure? { assert MayFail(ui, Counts(files), schema, checked.why); }
  }

  lemma RejectsNone(schema: Json, ui: Ui, policy: Policy, fields: map<string, Json>)
    ensures SortedKeys(Rejects(schema, ui, policy, fields)) == [] <==>
      (policy == Reject ==> forall k :: k in fields && !Readonly(ui, k) ==> k in Props(schema))
  {
    var keys := Rejects(schema, ui, policy, fields);
    assert Elems(SortedKeys(keys)) == keys;
    if policy == Reject {
      forall k ensures k in keys <==> k in fields && !Readonly(ui, k) && k !in Props(schema) {
        assert k in keys <==> k in (fields - ReadonlyNames(ui)).Keys && k !in Props(schema).Keys;
      }
    }
    if SortedKeys(keys) == [] { assert keys == {}; } else { assert SortedKeys(keys)[0] in Elems(SortedKeys(keys)); }
  }

  lemma NoStrays(ui: Ui, before: map<string, Json>, files: Files, after: map<string, Json>, errors: seq<FieldError>)
    requires Injected(ui, before, files, SortedKeys(files.Keys), after, errors)
    ensures errors == [] <==> NoUnexpected(ui, files)
  {
    var fields := SortedKeys(files.Keys);
    var pos: seq<nat> :| Strays(ui, files, fields, pos, errors);
    assert forall f :: f in fields <==> f in Elems(fields);
    NoneStray(ui, files, fields, pos, errors);
  }

  lemma NoneStray(ui: Ui, files: Files, fields: seq<string>, pos: seq<nat>, errors: seq<FieldError>)
    requires Strays(ui, files, fields, pos, errors)
    ensures errors == [] <==> forall f :: f in fields ==> !Unexpected(ui, files, f)
  {
    if errors != [] { assert pos[0] in pos && fields[pos[0]] in fields; }
  }

  /** What a saved request carries: every submitted key that is neither read-only nor cut by
      the policy, with its value, and the files in their fields. */
  lemma SavedField(schema: Json, ui: Ui, policy: Policy, fields: map<string, Json>, files: Files, seen: map<string, Json>, strays: seq<FieldError>, k: string)
    requires Injected(ui, Kept(schema, ui, policy, fields), files, SortedKeys(files.Keys), seen, strays) && NoUnexpected(ui, files)
    ensures k in seen <==> k in files || (k in fields && !Readonly(ui, k) && (policy == Strip ==> k in Props(schema)))
    ensures k in seen && k !in files ==> seen[k] == fields[k]
  {
    assert k in SortedKeys(files.Keys) <==> k in Elems(SortedKeys(files.Keys));
  }

  /** A file that is to be saved is represented in what is validated, and no other is. */
  lemma FilesArePending(ui: Ui, files: Files, name: string)
    requires name in files && files[name] != []
    ensures Pending(ui, Counts(files), name) <==> !Unexpected(ui, files, name)
  {}

  // --- what Validate and Save see ----------------------------------------------------------------

  /** No read-only key ever reaches Validate, not even through a file part. */
  lemma NoReadonlyKey(schema: Json, ui: Ui, policy: Policy, fields: map<string, Json>, files: Files, seen: map<string, Json>, errors: seq<FieldError>)
    requires Injected(ui, Kept(schema, ui, policy, fields), files, SortedKeys(files.Keys), seen, errors)
    ensures forall k :: k in seen ==> !Readonly(ui, k)
  {}

  /** A decoded request body holds no upload anywhere. */
  predicate HasNoFile(v: Json) {
    match v
    case File(_) => false
    case Arr(items) => forall i :: 0 <= i < |items| ==> HasNoFile(items[i])
    case Obj(fields) => forall k :: k in fields ==> HasNoFile(fields[k])
    case _ => true
  }

  /** The uploads a field carries, in order. */
  function FilesOf(v: Json): seq<Upload> {
    match v
    case File(u) => [u]
    case Arr(items) => FilesAmong(items)
    case _ => []
  }

  function FilesAmong(items: seq<Json>): seq<Upload> {
    if items == [] then []
    else FilesAmong(items[..|items| - 1]) + (if items[|items| - 1].File? then [items[|items| - 1].upload] else [])
  }

  lemma {:induction false} FilesAtTail(ids: seq<Json>, ups: seq<Upload>)
    requires forall i :: 0 <= i < |ids| ==> !ids[i].File?
    ensures FilesAmong(ids + FileValues(ups)) == ups
  {
    var all := ids + FileValues(ups);
    if ups != [] {
      var n := |ups| - 1;
      FilesAtTail(ids, ups[..n]);
      assert FileValues(ups) == FileValues(ups[..n]) + [File(ups[n])];
      assert all[..|all| - 1] == ids + FileValues(ups[..n]);
      assert ups == ups[..n] + [ups[n]];
    } else if ids != [] {
      FilesAtTail(ids[..|ids| - 1], []);
      assert all == ids;
      assert ids[..|ids| - 1] + FileValues([]) == ids[..|ids| - 1];
    }
  }

  /** Every uploaded file is in the map exactly once, in its own field, after the
      submitted ids and in part order; nothing else is a file. */
  lemma EveryFileOnce(ui: Ui, before: map<string, Json>, files: Files, after: map<string, Json>, errors: seq<FieldError>, k: string)
    requires Injected(ui, before, files, SortedKeys(files.Keys), after, errors) && NoUnexpected(ui, files)
    requires forall f :: f in files ==> files[f] != []
    requires forall n :: n in before ==> HasNoFile(before[n])
    ensures k in files ==> k in after && FilesOf(after[k]) == files[k]
    ensures k in files && after[k].Arr? ==> after[k].items == ListAt(before, k) + FileValues(files[k])
    ensures k in after && k !in files ==> k in before && after[k] == before[k] && HasNoFile(after[k])
  {
    assert k in SortedKeys(files.Keys) <==> k in Elems(SortedKeys(files.Keys));
    if k in files {
      WithFilesHolds(ui, before, k, files);
    }
  }

  lemma WithFilesHolds(ui: Ui, before: map<string, Json>, k: string, files: Files)
    requires k in files && files[k] != [] && !Unexpected(ui, files, k)
    requires k in before ==> HasNoFile(before[k])
    ensures var w := WithFiles(ui, before, k, files[k]);
      FilesOf(w) == files[k] && (w.Arr? ==> w.items == ListAt(before, k) + FileValues(files[k]))
  {
    var ids := ListAt(before, k);
    FilesAtTail(ids, files[k]);
    if MediaFieldKind(ui, k) == MediaSingle { assert files[k] == [files[k][0]]; }
  }

  /** One value with every marker replaced by its upload, in order. */
  ghost predicate StandsFor(v: Json, w: Json, markers: seq<Json>, ups: seq<Upload>) {
    || (|markers| == |ups| == 1 && v == markers[0] && w == File(ups[0]))
    || (|markers| == |ups| && exists ids :: v == Arr(ids + markers) && w == Arr(ids + FileValues(ups)))
  }

  /** What was validated is what is saved, uploads for markers, except for a list field
      whose submitted value is neither null nor a list: that value is validated and
      then dropped. */
  lemma ValidatedIsSaved(ui: Ui, input: map<string, Json>, files: Files, root: Json, name: string, v: Json, prop: Json, mid: Json, markers: seq<Json>)
    requires name in files && Awaits(ui, input, Counts(files), root, name, v, prop, mid, markers)
    ensures StandsFor(v, WithFiles(ui, input, name, files[name]), markers, files[name])
       <==> MediaFieldKind(ui, name) == MediaSingle || !NotAList(input, name)
  {}
}
