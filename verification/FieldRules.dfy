/** What the UI schema says about single fields: read-only, keyed, media
    (validate/readonly.go, validate/media.go), and the keys a schema does not know
    (validate/unknown.go). */
module FieldRules {
  import opened Values
  import opened Ordering
  import opened Pointers

  /** The decoded UI schema: field entries and root extensions by key. */
  type Ui = map<string, Json>

  function Entry(ui: Ui, field: string): map<string, Json> {
    if field in ui && ui[field].Obj? then ui[field].fields else map[]
  }

  predicate IsTrue(entry: map<string, Json>, key: string) {
    key in entry && entry[key] == Bool(true)
  }

  predicate RootExtension(key: string) {
    |key| >= 3 && key[..3] == "ui:"
  }

  predicate Readonly(ui: Ui, field: string) {
    !RootExtension(field) && IsTrue(Entry(ui, field), "ui:readonly")
  }

  function ReadonlyNames(ui: Ui): set<string> {
    set k | k in ui && Readonly(ui, k)
  }

  predicate KeyedEntry(ui: Ui, field: string) {
    StringAt(Entry(ui, field), "ui:field") == "keyed"
  }

  datatype MediaKind = MediaNone | MediaSingle | MediaMulti

  function MediaFieldKind(ui: Ui, field: string): MediaKind {
    var entry := Entry(ui, field);
    if IsTrue(entry, "ui:readonly") then MediaNone
    else if StringAt(entry, "ui:field") != "media" then MediaNone
    else if "ui:options" in entry && entry["ui:options"].Obj? && IsTrue(entry["ui:options"].fields, "multi") then MediaMulti
    else MediaSingle
  }

  /** What the entry of a field says of it; a field without one is none of these. */
  lemma EntryMeans(ui: Ui, field: string, entry: map<string, Json>)
    requires field in ui && ui[field] == Obj(entry)
    ensures Readonly(ui, field) <==> !("ui:" <= field) && "ui:readonly" in entry && entry["ui:readonly"] == Bool(true)
    ensures KeyedEntry(ui, field) <==> "ui:field" in entry && entry["ui:field"] == Str("keyed")
    ensures MediaFieldKind(ui, field) == MediaNone <==>
      ("ui:readonly" in entry && entry["ui:readonly"] == Bool(true)) || !("ui:field" in entry && entry["ui:field"] == Str("media"))
    ensures MediaFieldKind(ui, field) == MediaMulti ==>
      "ui:options" in entry && entry["ui:options"].Obj? && "multi" in entry["ui:options"].fields && entry["ui:options"].fields["multi"] == Bool(true)
    ensures MediaFieldKind(ui, field) == MediaSingle ==>
      !("ui:options" in entry && entry["ui:options"].Obj? && "multi" in entry["ui:options"].fields && entry["ui:options"].fields["multi"] == Bool(true))
  {}

  lemma NoEntryMeans(ui: Ui, field: string)
    requires field !in ui || !ui[field].Obj?
    ensures !Readonly(ui, field) && !KeyedEntry(ui, field) && MediaFieldKind(ui, field) == MediaNone
  {}

  /** No file is ever accepted for a read-only field. */
  lemma ReadonlyTakesNoFiles(ui: Ui, field: string)
    ensures Readonly(ui, field) ==> MediaFieldKind(ui, field) == MediaNone
  {}

  /** The request body: the one map every step of a write edits in place. */
  class Payload {
    var fields: map<string, Json>

    constructor (fields: map<string, Json>)
      ensures this.fields == fields
    {
      this.fields := fields;
    }
  }

  /** ReadonlyFields, sorted. */
  method ReadonlyFields(ui: Ui) returns (fields: seq<string>)
    ensures fields == SortedKeys(ReadonlyNames(ui))
  {
    var rest, names: set<string> := ui.Keys, {};
    while rest != {}
      invariant rest <= ui.Keys
      invariant names == set k | k in ui.Keys - rest && Readonly(ui, k)
    {
      var key :| key in rest;
      rest := rest - {key};
      if Readonly(ui, key) { names := names + {key}; }
    }
    assert names == ReadonlyNames(ui);
    fields := SortedKeys(names);
  }

  function Without(m: map<string, Json>, keys: seq<string>): map<string, Json> {
    if keys == [] then m else Without(m, keys[..|keys| - 1]) - {keys[|keys| - 1]}
  }

  lemma {:induction false} WithoutIs(m: map<string, Json>, keys: seq<string>)
    ensures Without(m, keys) == m - Elems(keys)
  {
    if keys != [] {
      var init, last := keys[..|keys| - 1], keys[|keys| - 1];
      WithoutIs(m, init);
      assert keys == init + [last];
      assert Elems(keys) == Elems(init) + {last};
      assert (m - Elems(init)) - {last} == m - (Elems(init) + {last});
    }
  }

  /** Deletes the named keys that are present, and lists them. */
  method Cut(payload: Payload, names: seq<string>) returns (dropped: seq<string>)
    modifies payload
    ensures payload.fields == old(payload.fields) - Elems(names)
    ensures forall k :: k in dropped <==> k in names && k in old(payload.fields)
  {
    dropped := [];
    for i := 0 to |names|
      invariant payload.fields == Without(old(payload.fields), names[..i])
      invariant forall k :: k in dropped <==> k in names[..i] && k in old(payload.fields)
    {
      WithoutIs(old(payload.fields), names[..i]);
      assert names[..i + 1] == names[..i] + [names[i]];
      assert Without(old(payload.fields), names[..i + 1]) == payload.fields - {names[i]};
      if names[i] in payload.fields {
        payload.fields := payload.fields - {names[i]};
        dropped := dropped + [names[i]];
      } else {
        assert payload.fields - {names[i]} == payload.fields;
      }
    }
    assert names[..|names|] == names;
    WithoutIs(old(payload.fields), names);
  }

  /** StripReadonly: cuts every declared read-only key, and only those. */
  method StripReadonly(ui: Ui, payload: Payload) returns (dropped: seq<string>)
    modifies payload
    ensures payload.fields == old(payload.fields) - ReadonlyNames(ui)
    ensures forall k :: k in dropped <==> k in ReadonlyNames(ui) && k in old(payload.fields)
  {
    var names := ReadonlyFields(ui);
    assert forall k :: k in names <==> k in Elems(names);
    dropped := Cut(payload, names);
  }

  // --- unknown keys --------------------------------------------------------------------------

  datatype Policy = Allow | Reject | Strip

  datatype FieldError = FieldError(field: string, message: string)

  function UnknownKeys(props: set<string>, fields: map<string, Json>): set<string> {
    fields.Keys - props
  }

  function Rejection(key: string): FieldError {
    FieldError("/" + Escape(key), "unknown field")
  }

  /** One error for each key, in order, pointing at the key. */
  ghost predicate OneErrorEach(keys: seq<string>, n: nat, errors: seq<FieldError>) {
    n <= |keys| && |errors| == n && forall i :: 0 <= i < n ==> errors[i] == Rejection(keys[i])
  }

  method Rejections(keys: seq<string>) returns (errors: seq<FieldError>)
    ensures OneErrorEach(keys, |keys|, errors)
  {
    errors := [];
    for i := 0 to |keys|
      invariant OneErrorEach(keys, i, errors)
    {
      errors := errors + [Rejection(keys[i])];
    }
  }

  /** UnknownFields. */
  method UnknownFields(props: set<string>, payload: Payload, policy: Policy) returns (errors: seq<FieldError>)
    modifies payload
    ensures policy == Allow ==> errors == [] && payload.fields == old(payload.fields)
    ensures policy == Strip ==> errors == [] && payload.fields == old(payload.fields) - UnknownKeys(props, old(payload.fields))
    ensures policy == Reject ==> payload.fields == old(payload.fields)
    ensures policy == Reject ==> var keys := SortedKeys(UnknownKeys(props, old(payload.fields))); OneErrorEach(keys, |keys|, errors)
  {
    errors := [];
    if policy == Allow { return; }
    var keys := SortedKeys(payload.fields.Keys - props);
    if policy == Strip {
      var _ := Cut(payload, keys);
      return;
    }
    errors := Rejections(keys);
  }

  /** The pointer of a rejection names its key and no other. */
  lemma ErrorNamesKey(keys: seq<string>, errors: seq<FieldError>, i: nat)
    requires OneErrorEach(keys, |keys|, errors) && i < |keys|
    ensures Unescapes(Split(errors[i].field[1..])) == [keys[i]]
  {
    EscapedHasNoSlash(keys[i]);
    SplitPlain(Escape(keys[i]));
    UnescapeEscape(keys[i]);
    assert errors[i].field[1..] == Escape(keys[i]);
  }
}
