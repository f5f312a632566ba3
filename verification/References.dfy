/** What a local reference means by the standards, against how the upload widening of
    validate/write.go reads it: a fragment is percent-decoded (RFC 3986 section 2.1, RFC
    6901 section 6) and the JSON Pointer in it evaluated over objects and arrays (RFC 6901
    sections 3 and 4). */
module References {
  import opened Values
  import opened Pointers

  // --- the fragment ------------------------------------------------------------------------

  function HexDigit(c: char): Option<nat> {
    if '0' <= c <= '9' then Some(c as int - '0' as int)
    else if 'A' <= c <= 'F' then Some(c as int - 'A' as int + 10)
    else if 'a' <= c <= 'f' then Some(c as int - 'a' as int + 10)
    else None
  }

  /** The octet of a percent triplet at the head of a text. */
  function Octet(s: string): Option<nat> {
    if |s| < 3 || s[0] != '%' || HexDigit(s[1]).None? || HexDigit(s[2]).None? then None
    else Some(16 * HexDigit(s[1]).value + HexDigit(s[2]).value)
  }

  /** The code point that k continuation octets complete. */
  function Continued(s: string, k: nat, high: nat): Option<nat> {
    if k == 0 then Some(high)
    else
      var o := Octet(s);
      if o.None? || !(0x80 <= o.value < 0xC0) then None else Continued(s[3..], k - 1, 64 * high + o.value - 0x80)
  }

  /** How many continuation octets a UTF-8 lead octet announces (RFC 3629 section 3). */
  function Continuations(lead: nat): Option<nat> {
    if lead < 0x80 then Some(0)
    else if 0xC0 <= lead < 0xE0 then Some(1)
    else if 0xE0 <= lead < 0xF0 then Some(2)
    else if 0xF0 <= lead < 0xF8 then Some(3)
    else None
  }

  /** The bits of a lead octet. */
  function LeadBits(lead: nat, k: nat): nat {
    if k == 0 then lead else if k == 1 then lead % 0x20 else if k == 2 then lead % 0x10 else lead % 0x08
  }

  /** A Unicode scalar value in its shortest form. */
  predicate ScalarValue(code: nat, k: nat) {
    && (code < 0xD800 || 0xE000 <= code < 0x11_0000)
    && code >= (if k == 0 then 0 else if k == 1 then 0x80 else if k == 2 then 0x800 else 0x1_0000)
  }

  datatype Encoded = Encoded(c: char, length: nat)

  /** The first character a percent-encoded text stands for, and how much of the text it
      takes; None where the text is no percent-encoded UTF-8. */
  function FirstChar(s: string): (f: Option<Encoded>)
    requires s != ""
    ensures f.Some? ==> f.value.length >= 1
  {
    if s[0] != '%' then Some(Encoded(s[0], 1))
    else
      var lead := Octet(s);
      if lead.None? || Continuations(lead.value).None? then None
      else
        var k := Continuations(lead.value).value;
        var code := Continued(s[3..], k, LeadBits(lead.value, k));
        if code.None? || !ScalarValue(code.value, k) then None else Some(Encoded(code.value as char, 3 * (k + 1)))
  }

  function PercentDecode(s: string): Option<string>
    decreases |s|
  {
    if s == "" then Some("")
    else
      var f := FirstChar(s);
      if f.None? || f.value.length > |s| then None
      else
        match PercentDecode(s[f.value.length..])
        case None => None
        case Some(rest) => Some([f.value.c] + rest)
  }

  // --- the pointer -------------------------------------------------------------------------

  /** Every "~" of a token begins "~0" or "~1". */
  predicate Proper(token: string) {
    forall i :: 0 <= i < |token| && token[i] == '~' ==> i + 1 < |token| && token[i + 1] in {'0', '1'}
  }

  /** The key a token stands for, character by character. */
  function Key(token: string): string {
    if |token| < 2 || token[0] != '~' || token[1] !in {'0', '1'} then (if token == "" then "" else [token[0]] + Key(token[1..]))
    else [if token[1] == '0' then '~' else '/'] + Key(token[2..])
  }

  function Keys(tokens: seq<string>): seq<string> {
    seq(|tokens|, i requires 0 <= i < |tokens| => Key(tokens[i]))
  }

  /** The keys of a JSON Pointer; the empty pointer has none. */
  function PointerKeys(p: string): Option<seq<string>> {
    if p == "" then Some([])
    else if p[0] != '/' || !(forall i :: 0 <= i < |Split(p[1..])| ==> Proper(Split(p[1..])[i])) then None
    else Some(Keys(Split(p[1..])))
  }

  /** An array index: digits without a leading zero. */
  function Index(token: string): Option<nat> {
    if token == "0" then Some(0) else if token == "" || token[0] == '0' then None else Digits(token)
  }

  function Digits(token: string): Option<nat> {
    if token == "" then Some(0)
    else
      var n, c := |token| - 1, token[|token| - 1];
      if !('0' <= c <= '9') || Digits(token[..n]).None? then None else Some(10 * Digits(token[..n]).value + (c as int - '0' as int))
  }

  /** The node one key further: a member of an object or an element of an array. */
  function Member(node: Json, key: string): Option<Json> {
    match node
    case Obj(fields) => if key in fields then Some(fields[key]) else None
    case Arr(items) => if Index(key).Some? && Index(key).value < |items| then Some(items[Index(key).value]) else None
    case _ => None
  }

  function Evaluate(root: Json, path: seq<string>): Option<Json> {
    if path == [] then Some(root)
    else if Member(root, path[0]).None? then None
    else Evaluate(Member(root, path[0]).value, path[1..])
  }

  /** The keys a reference within the document names; None for other documents, for
      anchors, and for what is no reference at all. */
  function Path(ref: string): Option<seq<string>> {
    if ref == "" || ref[0] != '#' then None
    else
      match PercentDecode(ref[1..])
      case None => None
      case Some(p) => PointerKeys(p)
  }

  /** The node a reference within the document names. */
  function Resolve(root: Json, ref: string): Option<Json> {
    if Path(ref).None? then None else Evaluate(root, Path(ref).value)
  }

  // --- how the code reads it ---------------------------------------------------------------

  predicate LocalRef(ref: string) {
    |ref| >= 2 && ref[..2] == "#/"
  }

  /** The keys the code follows. */
  function ReadKeys(ref: string): seq<string>
    requires LocalRef(ref)
  {
    Unescapes(Split(ref[2..]))
  }

  function NodeOf(t: Target): Option<Json> {
    if t.Found? then Some(t.node) else None
  }

  /** The node the code takes a reference for. */
  function Reached(root: Json, ref: string): Option<Json>
    requires LocalRef(ref)
  {
    NodeOf(Deref(root, ref))
  }

  /** A reference the code reads as the standards do: nothing percent-encoded, and every
      "~" escapes. */
  predicate Clean(ref: string)
    requires LocalRef(ref)
  {
    '%' !in ref && forall i :: 0 <= i < |Split(ref[2..])| ==> Proper(Split(ref[2..])[i])
  }

  /** The path runs into an array before its end. */
  predicate MeetsArray(root: Json, path: seq<string>) {
    path != [] && (root.Arr? || (root.Obj? && path[0] in root.fields && MeetsArray(root.fields[path[0]], path[1..])))
  }

  // --- unescaping ----------------------------------------------------------------------------

  /** After the first pass only "~1" is gone. */
  function Halfway(s: string): string {
    if s == "" then ""
    else if |s| >= 2 && s[..2] == "~1" then "/" + Halfway(s[2..])
    else [s[0]] + Halfway(s[1..])
  }

  lemma {:induction false} HalfwayIs(s: string)
    ensures ReplaceAll(s, "~1", "/") == Halfway(s)
  {
    if |s| >= 2 && s[..2] == "~1" {
      HalfwayIs(s[2..]);
    } else if s != "" {
      HalfwayIs(s[1..]);
    }
  }

  lemma {:induction false} SecondHalf(s: string)
    ensures ReplaceAll(Halfway(s), "~0", "~") == Key(s)
  {
    if s != "" {
      if |s| >= 2 && s[..2] == "~1" {
        SecondHalf(s[2..]);
        assert Halfway(s)[1..] == Halfway(s[2..]);
        assert s[0] == '~' && s[1] == '1';
      } else if |s| >= 2 && s[..2] == "~0" {
        SecondHalf(s[2..]);
        assert s[0] == '~' && s[1] == '0' && s[1..][0] == '0';
        assert s[1..][1..] == s[2..];
        assert Halfway(s[1..]) == "0" + Halfway(s[2..]);
        assert Halfway(s)[..2] == "~0" && Halfway(s)[2..] == Halfway(s[2..]);
      } else {
        SecondHalf(s[1..]);
        PlainHead(s);
        assert Halfway(s)[1..] == Halfway(s[1..]);
      }
    }
  }

  lemma PlainHead(s: string)
    requires s != "" && !(|s| >= 2 && (s[..2] == "~1" || s[..2] == "~0"))
    ensures Halfway(s)[0] == s[0] && (|Halfway(s)| >= 2 ==> Halfway(s)[..2] != "~0")
    ensures Key(s) == [s[0]] + Key(s[1..])
  {
    if |s| >= 2 {
      assert s[..2] == [s[0], s[1]];
      assert s[0] == '~' ==> s[1] != '0' && s[1] != '1';
      assert Halfway(s[1..])[0] == s[1] || Halfway(s[1..])[0] == '/';
    }
  }

  /** Both passes of the code give the key of a token, whatever the token. */
  lemma UnescapeIsKey(token: string)
    ensures Unescape(token) == Key(token)
  {
    HalfwayIs(token);
    SecondHalf(token);
  }

  lemma UnescapesAreKeys(tokens: seq<string>)
    ensures Unescapes(tokens) == Keys(tokens)
  {
    forall i | 0 <= i < |tokens| ensures Unescape(tokens[i]) == Key(tokens[i]) { UnescapeIsKey(tokens[i]); }
  }

  // --- where both readings agree ---------------------------------------------------------------

  lemma {:induction false} NothingEncoded(s: string)
    requires '%' !in s
    ensures PercentDecode(s) == Some(s)
  {
    if s != "" {
      assert s == [s[0]] + s[1..];
      NothingEncoded(s[1..]);
    }
  }

  lemma CleanPath(ref: string)
    requires LocalRef(ref) && '%' !in ref
    ensures Path(ref) == if Clean(ref) then Some(ReadKeys(ref)) else None
  {
    NothingEncoded(ref[1..]);
    assert ref[1] == ref[..2][1] && ref[0] == ref[..2][0];
    assert ref[1..][1..] == ref[2..];
    UnescapesAreKeys(Split(ref[2..]));
  }

  lemma {:induction false} EvaluateIsNode(root: Json, path: seq<string>)
    ensures !MeetsArray(root, path) ==> Evaluate(root, path) == NodeAt(root, path)
    ensures MeetsArray(root, path) ==> NodeAt(root, path) == None
  {
    if path != [] && root.Obj? && path[0] in root.fields {
      EvaluateIsNode(root.fields[path[0]], path[1..]);
    }
  }

  lemma ReachedIsNode(root: Json, ref: string)
    requires LocalRef(ref)
    ensures Reached(root, ref) == NodeAt(root, ReadKeys(ref))
  {
    DescendIsNode(root, Split(ref[2..]));
  }

  /** A clean reference means what the code takes it for, unless the standard finds a node
      by going through an array: the code then finds none. */
  lemma CleanAgrees(root: Json, ref: string)
    requires LocalRef(ref) && Clean(ref)
    ensures Resolve(root, ref) == Reached(root, ref) <==> !(MeetsArray(root, ReadKeys(ref)) && Resolve(root, ref).Some?)
    ensures MeetsArray(root, ReadKeys(ref)) ==> Reached(root, ref) == None
  {
    CleanPath(ref);
    ReachedIsNode(root, ref);
    EvaluateIsNode(root, ReadKeys(ref));
  }

  /** In particular the code never follows a clean reference to a wrong node. */
  lemma FollowedIsMeant(root: Json, ref: string)
    requires LocalRef(ref) && Clean(ref) && Deref(root, ref).Found?
    ensures Resolve(root, ref) == Some(Deref(root, ref).node)
  {
    CleanAgrees(root, ref);
  }

  // --- and only there ----------------------------------------------------------------------------

  /** How many characters the keys of a pointer hold, and its slashes. */
  function Size(s: string): nat {
    if s == "" then 0
    else if |s| >= 2 && s[0] == '~' && s[1] in {'0', '1'} then 1 + Size(s[2..])
    else 1 + Size(s[1..])
  }

  function Total(keys: seq<string>): nat {
    if keys == [] then 0 else |keys[0]| + 1 + Total(keys[1..])
  }

  lemma SplitHead(s: string)
    requires s != "" && s[0] != '/'
    ensures Split(s) == [[s[0]] + Split(s[1..])[0]] + Split(s[1..])[1..]
  {}

  lemma {:induction false} SplitSize(s: string)
    ensures Total(Keys(Split(s))) == Size(s) + 1
  {
    if s == "" {
      assert Keys([""]) == [""];
    } else if s[0] == '/' {
      SplitSize(s[1..]);
      assert Keys(Split(s)) == [""] + Keys(Split(s[1..]));
    } else if |s| >= 2 && s[0] == '~' && s[1] in {'0', '1'} {
      SplitSize(s[2..]);
      var rest := Split(s[2..]);
      assert s[1..][1..] == s[2..] && s[1..][0] == s[1];
      SplitHead(s);
      SplitHead(s[1..]);
      assert Split(s)[0] == [s[0]] + ([s[1]] + rest[0]);
      assert Split(s)[0][2..] == rest[0];
      assert |Key(Split(s)[0])| == 1 + |Key(rest[0])|;
      SameTail(Split(s), rest);
    } else {
      SplitSize(s[1..]);
      var rest := Split(s[1..]);
      SplitHead(s);
      HeadStays(s);
      assert Split(s)[0][1..] == rest[0];
      assert |Key(Split(s)[0])| == 1 + |Key(rest[0])|;
      SameTail(Split(s), rest);
    }
  }

  /** The escape is not completed by what follows in the token either. */
  lemma HeadStays(s: string)
    requires s != "" && s[0] != '/' && !(|s| >= 2 && s[0] == '~' && s[1] in {'0', '1'})
    ensures var t := [s[0]] + Split(s[1..])[0]; !(|t| >= 2 && t[0] == '~' && t[1] in {'0', '1'})
  {
    if |s| >= 2 && s[1] != '/' { SplitHead(s[1..]); }
  }

  lemma SameTail(a: seq<string>, b: seq<string>)
    requires a != [] && b != [] && a[1..] == b[1..]
    ensures Total(Keys(a)) == |Key(a[0])| + 1 + Total(Keys(a[1..]))
    ensures Total(Keys(b)) == |Key(b[0])| + 1 + Total(Keys(a[1..]))
  {
    assert Keys(a)[1..] == Keys(a[1..]);
    assert Keys(b)[1..] == Keys(b[1..]);
  }

  lemma {:induction false} SizeBound(c: char, s: string)
    ensures Size([c] + s) <= 1 + Size(s)
    ensures Size([c] + s) >= Size(s)
  {
    var all := [c] + s;
    if |all| >= 2 && all[0] == '~' && all[1] in {'0', '1'} {
      assert all[2..] == s[1..];
      assert s[0] != '~';
    } else {
      assert all[1..] == s;
    }
  }

  lemma {:induction false} NoTildes(s: string, n: nat)
    requires n <= |s| && '~' !in s[..n]
    ensures Size(s) == n + Size(s[n..])
  {
    if n > 0 {
      assert s[0] == s[..n][0];
      assert s[1..][..n - 1] == s[..n][1..];
      NoTildes(s[1..], n - 1);
      assert s[1..][n - 1..] == s[n..];
    }
  }

  lemma OctetHasNoTilde(s: string)
    requires Octet(s).Some?
    ensures |s| >= 3 && '~' !in s[..3]
  {
    assert s[..3] == [s[0], s[1], s[2]];
  }

  lemma {:induction false} ContinuedHasNoTilde(s: string, k: nat, high: nat)
    requires Continued(s, k, high).Some?
    ensures 3 * k <= |s| && '~' !in s[..3 * k]
  {
    if k > 0 {
      OctetHasNoTilde(s);
      ContinuedHasNoTilde(s[3..], k - 1, 64 * high + Octet(s).value - 0x80);
      assert s[..3 * k] == s[..3] + s[3..][..3 * (k - 1)];
    }
  }

  lemma EncodedHead(s: string)
    requires s != "" && s[0] == '%' && FirstChar(s).Some?
    ensures var n := FirstChar(s).value.length; 3 <= n <= |s| && '~' !in s[..n]
  {
    var k := Continuations(Octet(s).value).value;
    OctetHasNoTilde(s);
    ContinuedHasNoTilde(s[3..], k, LeadBits(Octet(s).value, k));
    assert s[..3 * (k + 1)] == s[..3] + s[3..][..3 * k];
  }

  /** Decoding a percent-encoded text shortens the keys in it. */
  lemma {:induction false} DecodedSize(s: string)
    requires PercentDecode(s).Some?
    ensures Size(PercentDecode(s).value) <= Size(s)
    ensures '%' in s ==> Size(PercentDecode(s).value) < Size(s)
    decreases |s|
  {
    if s != "" {
      var n := FirstChar(s).value.length;
      var rest := PercentDecode(s[n..]).value;
      DecodedSize(s[n..]);
      SizeBound(FirstChar(s).value.c, rest);
      if s[0] == '%' {
        EncodedHead(s);
        NoTildes(s, n);
      } else if |s| >= 2 && s[0] == '~' && s[1] in {'0', '1'} {
        DecodedSize(s[2..]);
        assert s[1..][1..] == s[2..];
        assert rest == [s[1]] + PercentDecode(s[2..]).value;
        assert ([s[0]] + rest)[2..] == PercentDecode(s[2..]).value;
        assert '%' in s <==> '%' in s[2..] by { assert s == [s[0], s[1]] + s[2..]; }
      } else {
        assert '%' in s <==> '%' in s[1..] by { assert s == [s[0]] + s[1..]; }
      }
    }
  }

  /** The keys the standard finds in an encoded reference are not those the code reads. */
  lemma EncodedPath(ref: string)
    requires LocalRef(ref) && '%' in ref
    ensures Path(ref) != Some(ReadKeys(ref))
  {
    var s := ref[1..];
    assert ref[0] == ref[..2][0] == '#' && ref[1] == ref[..2][1] == '/';
    assert '%' in s by { assert ref == [ref[0]] + s; }
    assert s == ['/'] + ref[2..];
    if Path(ref).Some? {
      var p := PercentDecode(s).value;
      assert p == ['/'] + PercentDecode(ref[2..]).value by { assert s[1..] == ref[2..]; }
      assert p[1..] == PercentDecode(ref[2..]).value;
      assert '%' in ref[2..] by { assert ref == [ref[0], ref[1]] + ref[2..]; }
      DecodedSize(ref[2..]);
      SplitSize(p[1..]);
      SplitSize(ref[2..]);
      UnescapesAreKeys(Split(ref[2..]));
    }
  }

  lemma DirtyPath(ref: string)
    requires LocalRef(ref) && !Clean(ref)
    ensures Path(ref) != Some(ReadKeys(ref))
  {
    if '%' in ref { EncodedPath(ref); } else { CleanPath(ref); }
  }

  /** The document with one node under these keys. */
  function Chain(path: seq<string>): Json {
    if path == [] then Bool(true) else Obj(map[path[0] := Chain(path[1..])])
  }

  lemma {:induction false} ChainEnds(path: seq<string>, other: seq<string>)
    ensures NodeAt(Chain(path), path) == Some(Bool(true)) && !MeetsArray(Chain(path), other)
    ensures Evaluate(Chain(path), other) == Some(Bool(true)) ==> other == path
  {
    if path != [] {
      ChainEnds(path[1..], if other == [] then [] else other[1..]);
      if other != [] && other[0] == path[0] {
        assert Evaluate(Chain(path), other) == Evaluate(Chain(path[1..]), other[1..]);
        assert other == [other[0]] + other[1..] && path == [path[0]] + path[1..];
      }
    }
  }

  /** The code reads a reference as the standards do in every document whose arrays it
      does not meet, if and only if the reference is clean. */
  lemma CleanExactly(ref: string)
    requires LocalRef(ref)
    ensures Clean(ref) <==> forall root :: !MeetsArray(root, ReadKeys(ref)) ==> Resolve(root, ref) == Reached(root, ref)
  {
    if Clean(ref) {
      forall root | !MeetsArray(root, ReadKeys(ref)) ensures Resolve(root, ref) == Reached(root, ref) { CleanAgrees(root, ref); }
    } else {
      var root := Chain(ReadKeys(ref));
      DirtyPath(ref);
      ReachedIsNode(root, ref);
      ChainEnds(ReadKeys(ref), ReadKeys(ref));
      if Path(ref).Some? { ChainEnds(ReadKeys(ref), Path(ref).value); }
      assert Resolve(root, ref) != Reached(root, ref);
    }
  }

  // --- references written with the escaping --------------------------------------------------------

  predicate NoPercent(path: seq<string>) {
    forall i :: 0 <= i < |path| ==> '%' !in path[i]
  }

  lemma {:induction false} EscapedIsProper(s: string)
    ensures Proper(EscapeChars(s))
    ensures '%' in EscapeChars(s) <==> '%' in s
  {
    if s != "" {
      EscapedIsProper(s[1..]);
      var head := if s[0] == '~' then "~0" else if s[0] == '/' then "~1" else [s[0]];
      var rest := EscapeChars(s[1..]);
      assert EscapeChars(s) == head + rest;
      assert '%' in s <==> s[0] == '%' || '%' in s[1..] by { assert s == [s[0]] + s[1..]; }
      assert '%' in head + rest <==> '%' in head || '%' in rest;
      forall i | 0 <= i < |head + rest| && (head + rest)[i] == '~'
        ensures i + 1 < |head + rest| && (head + rest)[i + 1] in {'0', '1'}
      {
        if i >= |head| { assert rest[i - |head|] == '~'; }
      }
    }
  }

  lemma {:induction false} JoinedPercent(parts: seq<string>)
    ensures '%' in Join(parts) <==> !NoPercent(parts)
  {
    if |parts| > 1 {
      JoinedPercent(parts[1..]);
      assert parts == [parts[0]] + parts[1..];
      assert '%' in Join(parts) <==> '%' in parts[0] || '%' in Join(parts[1..]);
      if !NoPercent(parts) {
        var i :| 0 <= i < |parts| && '%' in parts[i];
        if i > 0 { assert '%' in parts[1..][i - 1]; }
      }
    }
  }

  /** A reference written with the escaping is clean if and only if no key of it holds a
      percent sign; it then names what stands under its keys, arrays included. */
  lemma WrittenReference(root: Json, path: seq<string>)
    requires path != []
    ensures LocalRef(Reference(path))
    ensures Clean(Reference(path)) <==> NoPercent(path)
    ensures NoPercent(path) ==> Path(Reference(path)) == Some(path) && Resolve(root, Reference(path)) == Evaluate(root, path)
  {
    var ref, tokens := Reference(path), Escapes(path);
    ReferenceRoundTrip(path);
    forall i | 0 <= i < |path| ensures '/' !in tokens[i] && Proper(tokens[i]) && ('%' in tokens[i] <==> '%' in path[i]) {
      EscapedHasNoSlash(path[i]);
      FirstPass(path[i]);
      SecondPass(path[i]);
      EscapedIsProper(path[i]);
    }
    assert ref[2..] == Join(tokens);
    SplitJoin(tokens);
    JoinedPercent(tokens);
    assert '%' in ref <==> '%' in Join(tokens);
    assert Clean(ref) <==> NoPercent(tokens);
    if NoPercent(path) { CleanPath(ref); }
  }

  // --- inputs on which the readings part ways ---------------------------------------------------------

  lemma {:induction false} PlainText(s: string)
    requires '~' !in s && '/' !in s
    ensures EscapeChars(s) == s && Key(s) == s
  {
    if s != "" {
      assert s == [s[0]] + s[1..];
      PlainText(s[1..]);
    }
  }

  /** A reference with nothing to escape. */
  lemma PlainReference(path: seq<string>)
    requires forall i :: 0 <= i < |path| ==> '~' !in path[i] && '/' !in path[i]
    ensures Reference(path) == "#/" + Join(path)
  {
    forall i | 0 <= i < |path| ensures Escape(path[i]) == path[i] {
      FirstPass(path[i]);
      SecondPass(path[i]);
      PlainText(path[i]);
    }
    assert Escapes(path) == path;
  }

  lemma PlainChar(c: char, s: string)
    requires c != '%' && PercentDecode(s).Some?
    ensures PercentDecode([c] + s) == Some([c] + PercentDecode(s).value)
  {
    assert ([c] + s)[1..] == s;
  }

  lemma Regroup(a: string, b: string)
    requires a != ""
    ensures [a[0]] + (a[1..] + b) == a + b
  {}

  lemma {:induction false} PlainPrefix(a: string, b: string)
    requires '%' !in a && PercentDecode(b).Some?
    ensures PercentDecode(a + b) == Some(a + PercentDecode(b).value)
  {
    if a == "" {
      assert a + b == b && a + PercentDecode(b).value == PercentDecode(b).value;
    } else {
      assert a[0] in a && forall c :: c in a[1..] ==> c in a;
      PlainPrefix(a[1..], b);
      PlainChar(a[0], a[1..] + b);
      Regroup(a, b);
      Regroup(a, PercentDecode(b).value);
    }
  }

  lemma PercentSign(s: string, b: string)
    requires s == "%25" + b && '%' !in b
    ensures PercentDecode(s) == Some("%" + b)
  {
    assert HexDigit('2') == Some(2) && HexDigit('5') == Some(5);
    assert s[0] == '%' && s[1] == '2' && s[2] == '5';
    assert Octet(s) == Some(0x25);
    assert FirstChar(s) == Some(Encoded('%', 3));
    NothingEncoded(b);
    assert s[3..] == b;
  }

  predicate PlainKey(s: string) { '~' !in s && '/' !in s && '%' !in s }

  lemma JoinTwo(a: string, b: string)
    ensures Join([a, b]) == a + "/" + b
  {
    assert [a, b][1..] == [b];
  }

  lemma SignedFragment(d: string, a: string, b: string, ref: string)
    requires PlainKey(d) && PlainKey(a) && PlainKey(b) && ref == "#/" + d + "/" + a + "%25" + b
    ensures ref[0] == '#' && PercentDecode(ref[1..]) == Some("/" + Join([d, a + "%" + b]))
  {
    var head, p := "/" + d + "/" + a, "/" + Join([d, a + "%" + b]);
    PercentSign("%25" + b, b);
    PlainPrefix(head, "%25" + b);
    assert head + ("%25" + b) == ref[1..];
    JoinTwo(d, a + "%" + b);
    assert head + ("%" + b) == p;
  }

  /** The path of a reference to two plain keys, the second with an encoded percent sign. */
  lemma SignedPath(d: string, a: string, b: string, ref: string)
    requires PlainKey(d) && PlainKey(a) && PlainKey(b) && ref == "#/" + d + "/" + a + "%25" + b
    ensures Path(ref) == Some([d, a + "%" + b])
  {
    var keys := [d, a + "%" + b];
    SignedFragment(d, a, b, ref);
    assert ("/" + Join(keys))[1..] == Join(keys);
    SplitJoin(keys);
    PlainText(d);
    PlainText(a + "%" + b);
    assert Keys(keys) == keys;
  }

  lemma {:induction false} TwoKeys(root: Json, a: string, b: string)
    ensures Evaluate(root, [a, b]) == if Member(root, a).Some? then Member(Member(root, a).value, b) else None
  {
    assert [a, b][1..] == [b] && [b][1..] == [];
    if Member(root, a).Some? { OneKey(Member(root, a).value, b); }
  }

  lemma OneKey(root: Json, a: string)
    ensures Evaluate(root, [a]) == Member(root, a)
  {
    if Member(root, a).Some? { assert Evaluate(Member(root, a).value, [a][1..]) == Member(root, a); }
  }

  lemma TwoSteps(root: Json, a: string, b: string)
    requires '~' !in a && '/' !in a && '~' !in b && '/' !in b
    ensures Deref(root, "#/" + a + "/" + b) == Descend(Descend(Found(root), a), b)
  {
    var keys, ref := [a, b], "#/" + a + "/" + b;
    assert ref[2..] == Join(keys);
    SplitJoin(keys);
    UnescapesAreKeys(keys);
    PlainText(a);
    PlainText(b);
    assert Unescape(keys[0]) == Unescapes(keys)[0] && Unescape(keys[1]) == Unescapes(keys)[1];
    assert keys[..1] == [a] && [a][..0] == [];
    assert DescendAll(Found(root), [a]) == Descend(Found(root), a);
  }

  /** Two documents, one with both keys and one with the signed key alone. */
  function BothKeys(d: string, a: string, b: string, signed: Json, triplet: Json): Json {
    Obj(map[d := Obj(map[a + "%" + b := signed, a + "%25" + b := triplet])])
  }

  function SignedKey(d: string, a: string, b: string, signed: Json): Json {
    Obj(map[d := Obj(map[a + "%" + b := signed])])
  }

  /** "%25" stands for "%": the standard goes to the key with the sign, the code to the key
      with the triplet, or, without one, nowhere. "#/$defs/a%25b" is such a reference. */
  lemma PercentWitness(d: string, a: string, b: string, signed: Json, triplet: Json)
    requires PlainKey(d) && PlainKey(a) && PlainKey(b)
    ensures var ref := "#/" + d + "/" + a + "%25" + b;
      && LocalRef(ref)
      && Resolve(BothKeys(d, a, b, signed, triplet), ref) == Some(signed)
      && Reached(BothKeys(d, a, b, signed, triplet), ref) == Some(triplet)
      && Resolve(SignedKey(d, a, b, signed), ref) == Some(signed)
      && Deref(SignedKey(d, a, b, signed), ref) == NoSuchKey
  {
    var ref, plain, encoded := "#/" + d + "/" + a + "%25" + b, a + "%" + b, a + "%25" + b;
    assert |plain| != |encoded|;
    SignedPath(d, a, b, ref);
    assert ref == "#/" + d + "/" + encoded;
    TwoKeys(BothKeys(d, a, b, signed, triplet), d, plain);
    TwoSteps(BothKeys(d, a, b, signed, triplet), d, encoded);
    TwoKeys(SignedKey(d, a, b, signed), d, plain);
    TwoSteps(SignedKey(d, a, b, signed), d, encoded);
  }

  /** An index into an array is no key to the code: it calls a reference such as
      "#/allOf/0" invalid. */
  lemma IndexWitness(d: string, branch: Json)
    requires PlainKey(d)
    ensures var root, ref := Obj(map[d := Arr([branch])]), "#/" + d + "/" + "0";
      LocalRef(ref) && Clean(ref) && Resolve(root, ref) == Some(branch) && Deref(root, ref) == NotAnObject
  {
    var root, zero, ref := Obj(map[d := Arr([branch])]), "0", "#/" + d + "/" + "0";
    var path := [d, zero];
    PlainReference(path);
    assert Reference(path) == ref;
    WrittenReference(root, path);
    TwoKeys(root, d, zero);
    TwoSteps(root, d, zero);
    assert Index(zero) == Some(0);
  }
}
