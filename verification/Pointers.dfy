/** JSON pointers (RFC 6901): the escaping of validate/unknown.go and the decoding of
    local references in validate/write.go. */
module Pointers {
  import opened Values

  /** strings.ReplaceAll: leftmost, not overlapping. */
  function ReplaceAll(s: string, old_: string, new_: string): string
    requires old_ != ""
  {
    if |s| < |old_| then s
    else if s[..|old_|] == old_ then new_ + ReplaceAll(s[|old_|..], old_, new_)
    else [s[0]] + ReplaceAll(s[1..], old_, new_)
  }

  /** pointerToken. */
  function Escape(s: string): string {
    ReplaceAll(ReplaceAll(s, "~", "~0"), "/", "~1")
  }

  /** The decoding of one token in uploadArraySchema. */
  function Unescape(s: string): string {
    ReplaceAll(ReplaceAll(s, "~1", "/"), "~0", "~")
  }

  /** strings.Split by "/": always at least one part. */
  function Split(s: string): (parts: seq<string>)
    ensures parts != []
  {
    if s == "" then [""]
    else
      var rest := Split(s[1..]);
      if s[0] == '/' then [""] + rest else [[s[0]] + rest[0]] + rest[1..]
  }

  function Join(parts: seq<string>): string {
    if parts == [] then ""
    else if |parts| == 1 then parts[0]
    else parts[0] + "/" + Join(parts[1..])
  }

  function Escapes(tokens: seq<string>): seq<string> {
    seq(|tokens|, i requires 0 <= i < |tokens| => Escape(tokens[i]))
  }

  function Unescapes(tokens: seq<string>): seq<string> {
    seq(|tokens|, i requires 0 <= i < |tokens| => Unescape(tokens[i]))
  }

  /** The fragment reference to the node under these keys. */
  function Reference(path: seq<string>): string {
    "#/" + Join(Escapes(path))
  }

  // --- escaping ----------------------------------------------------------------------------

  /** Both passes of the escaping at once, character by character. */
  function EscapeChars(s: string): string {
    if s == "" then ""
    else (if s[0] == '~' then "~0" else if s[0] == '/' then "~1" else [s[0]]) + EscapeChars(s[1..])
  }

  /** Only "~" escaped: the halfway point of both directions. */
  function EscapeTildes(s: string): string {
    if s == "" then "" else (if s[0] == '~' then "~0" else [s[0]]) + EscapeTildes(s[1..])
  }

  lemma {:induction false} FirstPass(s: string)
    ensures ReplaceAll(s, "~", "~0") == EscapeTildes(s)
  {
    if s != "" { FirstPass(s[1..]); }
  }

  lemma {:induction false} SecondPass(s: string)
    ensures ReplaceAll(EscapeTildes(s), "/", "~1") == EscapeChars(s)
  {
    if s != "" {
      SecondPass(s[1..]);
      var rest := EscapeTildes(s[1..]);
      if s[0] == '~' {
        assert EscapeTildes(s)[1..] == "0" + rest && ("0" + rest)[1..] == rest;
      } else {
        assert EscapeTildes(s)[1..] == rest;
      }
    }
  }

  lemma {:induction false} ThirdPass(s: string)
    ensures ReplaceAll(EscapeChars(s), "~1", "/") == EscapeTildes(s)
  {
    if s != "" {
      ThirdPass(s[1..]);
      var all, rest := EscapeChars(s), EscapeChars(s[1..]);
      if s[0] == '~' {
        assert all[1..] == "0" + rest && ("0" + rest)[1..] == rest;
        assert all[..2] == "~0";
        assert rest != "" ==> ("0" + rest)[..2][0] == '0';
        assert ReplaceAll("0" + rest, "~1", "/") == "0" + ReplaceAll(rest, "~1", "/");
      } else if s[0] == '/' {
        assert all[..2] == "~1" && all[2..] == rest;
      } else {
        assert all[1..] == rest;
        assert |all| >= 2 ==> all[..2][0] == s[0];
      }
    }
  }

  lemma {:induction false} FourthPass(s: string)
    ensures ReplaceAll(EscapeTildes(s), "~0", "~") == s
  {
    if s != "" {
      FourthPass(s[1..]);
      var all, rest := EscapeTildes(s), EscapeTildes(s[1..]);
      if s[0] == '~' {
        assert all[..2] == "~0" && all[2..] == rest;
      } else {
        assert all[1..] == rest;
        assert |all| >= 2 ==> all[..2][0] == s[0];
      }
    }
  }

  /** Unescaping gives back what was escaped, whatever the characters. */
  lemma UnescapeEscape(s: string)
    ensures Unescape(Escape(s)) == s
  {
    FirstPass(s);
    SecondPass(s);
    ThirdPass(s);
    FourthPass(s);
  }

  lemma {:induction false} EscapedHasNoSlash(s: string)
    ensures '/' !in Escape(s)
  {
    FirstPass(s);
    SecondPass(s);
    CharsHaveNoSlash(s);
  }

  lemma {:induction false} CharsHaveNoSlash(s: string)
    ensures '/' !in EscapeChars(s)
  {
    if s != "" { CharsHaveNoSlash(s[1..]); }
  }

  // --- joining -----------------------------------------------------------------------------

  lemma {:induction false} SplitPlain(s: string)
    requires '/' !in s
    ensures Split(s) == [s]
  {
    if s != "" {
      SplitPlain(s[1..]);
      assert s[0] != '/' && s == [s[0]] + s[1..];
    }
  }

  lemma {:induction false} SplitAfter(part: string, rest: string)
    requires '/' !in part
    ensures Split(part + "/" + rest) == [part] + Split(rest)
  {
    var s := part + "/" + rest;
    if part == "" {
      assert s[1..] == rest;
    } else {
      SplitAfter(part[1..], rest);
      assert s[1..] == part[1..] + "/" + rest;
      assert s[0] == part[0] && part[0] in part && part == [part[0]] + part[1..];
    }
  }

  lemma {:induction false} SplitJoin(parts: seq<string>)
    requires parts != [] && forall i :: 0 <= i < |parts| ==> '/' !in parts[i]
    ensures Split(Join(parts)) == parts
  {
    if |parts| == 1 {
      SplitPlain(parts[0]);
    } else {
      SplitJoin(parts[1..]);
      SplitAfter(parts[0], Join(parts[1..]));
    }
  }

  /** Any non-empty list of keys survives escaping, joining, splitting, unescaping. */
  lemma ReferenceRoundTrip(path: seq<string>)
    requires path != []
    ensures Unescapes(Split(Reference(path)[2..])) == path
  {
    forall i | 0 <= i < |path| ensures '/' !in Escapes(path)[i] && Unescape(Escapes(path)[i]) == path[i] {
      EscapedHasNoSlash(path[i]);
      UnescapeEscape(path[i]);
    }
    assert Reference(path)[2..] == Join(Escapes(path));
    SplitJoin(Escapes(path));
  }

  // --- references --------------------------------------------------------------------------

  /** The node under a list of keys. */
  function NodeAt(root: Json, path: seq<string>): Option<Json> {
    if path == [] then Some(root)
    else if root.Obj? && path[0] in root.fields then NodeAt(root.fields[path[0]], path[1..])
    else None
  }

  datatype Target = Found(node: Json) | NotAnObject | NoSuchKey

  /** One step into the schema document. */
  function Descend(at: Target, key: string): Target {
    if !at.Found? then at
    else if !at.node.Obj? then NotAnObject
    else if key !in at.node.fields then NoSuchKey
    else Found(at.node.fields[key])
  }

  function DescendAll(at: Target, tokens: seq<string>): Target {
    if tokens == [] then at else Descend(DescendAll(at, tokens[..|tokens| - 1]), Unescape(tokens[|tokens| - 1]))
  }

  /** The node a local reference names. */
  function Deref(root: Json, ref: string): Target
    requires |ref| >= 2
  {
    DescendAll(Found(root), Split(ref[2..]))
  }

  /** The loop over the tokens of a reference in uploadArraySchema. */
  method FollowReference(root: Json, ref: string) returns (at: Target)
    requires |ref| >= 2
    ensures at == Deref(root, ref)
  {
    var tokens := Split(ref[2..]);
    at := Found(root);
    for i := 0 to |tokens|
      invariant at == DescendAll(Found(root), tokens[..i]) && at.Found?
    {
      assert tokens[..i + 1][..i] == tokens[..i];
      var key := Unescape(tokens[i]);
      at := Descend(at, key);
      if !at.Found? {
        StaysLost(at, tokens, i + 1, Found(root));
        return;
      }
    }
    assert tokens[..|tokens|] == tokens;
  }

  lemma {:induction false} StaysLost(at: Target, tokens: seq<string>, n: nat, start: Target)
    requires n <= |tokens| && !at.Found?
    requires DescendAll(start, tokens[..n]) == at
    ensures DescendAll(start, tokens) == at
    decreases |tokens| - n
  {
    if n < |tokens| {
      assert tokens[..n + 1][..n] == tokens[..n];
      StaysLost(at, tokens, n + 1, start);
    } else {
      assert tokens[..n] == tokens;
    }
  }

  lemma {:induction false} DescendIsNode(root: Json, tokens: seq<string>)
    ensures DescendAll(Found(root), tokens).Found? <==> NodeAt(root, Unescapes(tokens)).Some?
    ensures DescendAll(Found(root), tokens).Found? ==> NodeAt(root, Unescapes(tokens)) == Some(DescendAll(Found(root), tokens).node)
  {
    if tokens != [] {
      var init, last := tokens[..|tokens| - 1], tokens[|tokens| - 1];
      DescendIsNode(root, init);
      assert Unescapes(tokens) == Unescapes(init) + [Unescape(last)];
      NodeAtSnoc(root, Unescapes(init), Unescape(last));
    }
  }

  lemma {:induction false} NodeAtSnoc(root: Json, path: seq<string>, key: string)
    ensures NodeAt(root, path + [key]) ==
      match NodeAt(root, path)
      case None => None
      case Some(n) => if n.Obj? && key in n.fields then Some(n.fields[key]) else None
  {
    var all := path + [key];
    if path == [] {
      assert all[1..] == [];
    } else {
      assert all[1..] == path[1..] + [key];
      if root.Obj? && path[0] in root.fields { NodeAtSnoc(root.fields[path[0]], path[1..], key); }
    }
  }

  /** A reference written with the escaping finds exactly the node under its keys. */
  lemma ReferenceResolves(root: Json, path: seq<string>)
    requires path != []
    ensures Deref(root, Reference(path)).Found? <==> NodeAt(root, path).Some?
    ensures NodeAt(root, path).Some? ==> Deref(root, Reference(path)) == Found(NodeAt(root, path).value)
  {
    ReferenceRoundTrip(path);
    DescendIsNode(root, Split(Reference(path)[2..]));
  }
}
