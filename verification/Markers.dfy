/** The stand-ins for pending uploads in the validated overlay (validate/write.go). */
module Markers {
  import opened Numbers
  import opened Values
  import opened Ordering

  const MARKER_KEY := "$editrigUpload"

  /** The names tried for one upload: name/i, name/i/0, name/i/1, ... */
  function Candidate(name: string, i: nat, attempt: nat): string {
    if attempt == 0 then name + "/" + Decimal(i) else name + "/" + Decimal(i) + "/" + Decimal(attempt - 1)
  }

  /** An object, so no stored id can be mistaken for it. */
  function Marker(tag: string): Json {
    Obj(map[MARKER_KEY := Str(tag)])
  }

  /** Where the first "/" of a string is, or its length. */
  function Cut(s: string): (n: nat)
    ensures n <= |s| && (n < |s| ==> s[n] == '/')
    ensures forall k :: 0 <= k < n ==> s[k] != '/'
  {
    if s == "" || s[0] == '/' then 0 else 1 + Cut(s[1..])
  }

  lemma CutAt(part: string, rest: string)
    requires '/' !in part && (rest == "" || rest[0] == '/')
    ensures Cut(part + rest) == |part|
  {
    var s := part + rest;
    forall k | 0 <= k < |part| ensures s[k] != '/' {
      assert part[k] in part;
    }
    assert rest != "" ==> s[|part|] == '/';
  }

  function Tail(attempt: nat): (s: string)
    ensures s == "" || s[0] == '/'
  {
    if attempt == 0 then "" else "/" + Decimal(attempt - 1)
  }

  lemma CandidateParts(name: string, i: nat, attempt: nat)
    ensures Candidate(name, i, attempt)[|name| + 1..] == Decimal(i) + Tail(attempt)
  {
    assert Candidate(name, i, attempt) == (name + "/") + (Decimal(i) + Tail(attempt));
  }

  lemma TailsDiffer(a: nat, b: nat)
    requires Tail(a) == Tail(b)
    ensures a == b
  {
    if a > 0 && b > 0 {
      assert Tail(a)[1..] == Decimal(a - 1) && Tail(b)[1..] == Decimal(b - 1);
      DecimalInjective(a - 1, b - 1);
    }
  }

  lemma PartsDiffer(p: string, r: string, q: string, t: string)
    requires '/' !in p && (r == "" || r[0] == '/') && '/' !in q && (t == "" || t[0] == '/')
    requires p + r == q + t
    ensures p == q && r == t
  {
    CutAt(p, r);
    CutAt(q, t);
    assert (p + r)[..|p|] == p && (p + r)[|p|..] == r;
    assert (q + t)[..|q|] == q && (q + t)[|q|..] == t;
  }

  /** Different uploads of a field, or different attempts, never share a name. */
  lemma CandidatesDiffer(name: string, i: nat, a: nat, j: nat, b: nat)
    requires Candidate(name, i, a) == Candidate(name, j, b)
    ensures i == j && a == b
  {
    CandidateParts(name, i, a);
    CandidateParts(name, j, b);
    PartsDiffer(Decimal(i), Tail(a), Decimal(j), Tail(b));
    DecimalInjective(i, j);
    TailsDiffer(a, b);
  }

  lemma SameMarker(x: string, y: string)
    requires Marker(x) == Marker(y)
    ensures x == y
  {
    assert Marker(x).fields[MARKER_KEY] == Marker(y).fields[MARKER_KEY];
  }

  lemma MarkersDiffer(name: string, i: nat, a: nat, j: nat, b: nat)
    requires i != j || a != b
    ensures Marker(Candidate(name, i, a)) != Marker(Candidate(name, j, b))
  {
    if Marker(Candidate(name, i, a)) == Marker(Candidate(name, j, b)) {
      SameMarker(Candidate(name, i, a), Candidate(name, j, b));
      CandidatesDiffer(name, i, a, j, b);
    }
  }

  /** The candidates before attempt n. */
  function Attempts(name: string, i: nat, n: nat): seq<Json> {
    seq(n, k requires 0 <= k < n => Marker(Candidate(name, i, k)))
  }

  lemma {:induction false} DistinctSize(q: seq<Json>)
    requires forall i, j :: 0 <= i < j < |q| ==> q[i] != q[j]
    ensures |Elems(q)| == |q|
  {
    if q != [] {
      var init, last := q[..|q| - 1], q[|q| - 1];
      DistinctSize(init);
      assert last !in init;
      assert q == init + [last];
      assert Elems(q) == Elems(init) + {last};
    }
  }

  lemma {:induction false} ElemsSize(q: seq<Json>)
    ensures |Elems(q)| <= |q|
  {
    if q != [] {
      ElemsSize(q[..|q| - 1]);
      assert q == q[..|q| - 1] + [q[|q| - 1]];
      assert Elems(q) == Elems(q[..|q| - 1]) + {q[|q| - 1]};
    }
  }

  lemma SubsetSize<T>(a: set<T>, b: set<T>)
    requires a <= b
    ensures |a| <= |b|
  {
    assert b == a + (b - a);
  }

  predicate Taken(name: string, i: nat, attempt: nat, existing: seq<Json>) {
    Marker(Candidate(name, i, attempt)) in existing
  }

  ghost predicate AllTaken(name: string, i: nat, n: nat, existing: seq<Json>) {
    forall k :: 0 <= k < n ==> Taken(name, i, k, existing)
  }

  /** Pigeonhole: that many distinct candidates cannot all be in the list. */
  lemma TriedFits(name: string, i: nat, n: nat, existing: seq<Json>)
    requires AllTaken(name, i, n, existing)
    ensures n <= |existing|
  {
    var q := Attempts(name, i, n);
    forall k, l | 0 <= k < l < n ensures q[k] != q[l] { MarkersDiffer(name, i, k, i, l); }
    DistinctSize(q);
    ElemsSize(existing);
    forall m | m in q ensures m in existing {
      var k :| 0 <= k < n && m == q[k];
      assert Taken(name, i, k, existing);
    }
    SubsetSize(Elems(q), Elems(existing));
  }

  /** markerIn. */
  method MarkerIn(values: seq<Json>, marker: Json) returns (found: bool)
    ensures found <==> marker in values
  {
    for i := 0 to |values|
      invariant marker !in values[..i]
    {
      if values[i] == marker { return true; }
    }
    return false;
  }

  /** The search for a free name: it ends within |existing| + 1 attempts. */
  method FreeMarker(name: string, i: nat, existing: seq<Json>) returns (marker: Json, attempt: nat)
    ensures marker == Marker(Candidate(name, i, attempt)) && marker !in existing
    ensures AllTaken(name, i, attempt, existing)
    ensures attempt <= |existing|
  {
    attempt := 0;
    marker := Marker(Candidate(name, i, 0));
    var taken := MarkerIn(existing, marker);
    assert taken <==> Taken(name, i, 0, existing);
    while taken
      invariant marker == Marker(Candidate(name, i, attempt))
      invariant taken <==> Taken(name, i, attempt, existing)
      invariant AllTaken(name, i, attempt, existing)
      decreases |existing| - attempt + (if taken then 1 else 0)
    {
      AllTakenNext(name, i, attempt, existing);
      TriedFits(name, i, attempt + 1, existing);
      attempt := attempt + 1;
      marker := Marker(Candidate(name, i, attempt));
      taken := MarkerIn(existing, marker);
    }
    TriedFits(name, i, attempt, existing);
  }

  lemma AllTakenNext(name: string, i: nat, n: nat, existing: seq<Json>)
    requires AllTaken(name, i, n, existing) && Taken(name, i, n, existing)
    ensures AllTaken(name, i, n + 1, existing)
  {}

  /** What the markers of one field must be. */
  ghost predicate GoodMarkers(name: string, count: nat, existing: seq<Json>, markers: seq<Json>) {
    && |markers| == count
    && (forall i :: 0 <= i < count ==> markers[i] !in existing && exists a :: markers[i] == Marker(Candidate(name, i, a)))
    && (forall i, j :: 0 <= i < j < count ==> markers[i] != markers[j])
  }

  /** The markers of one field: pairwise distinct and absent from the submitted list. */
  method MakeMarkers(name: string, count: nat, existing: seq<Json>) returns (markers: seq<Json>)
    ensures GoodMarkers(name, count, existing, markers)
  {
    markers := [];
    for i := 0 to count
      invariant GoodMarkers(name, i, existing, markers)
    {
      var marker, attempt := FreeMarker(name, i, existing);
      forall j | 0 <= j < i ensures markers[j] != marker {
        var a :| markers[j] == Marker(Candidate(name, j, a));
        MarkersDiffer(name, j, a, i, attempt);
      }
      markers := markers + [marker];
    }
  }

  /** The final list repeats an element only if the submitted one does. */
  lemma FinalDistinct(name: string, count: nat, existing: seq<Json>, markers: seq<Json>)
    requires GoodMarkers(name, count, existing, markers)
    ensures (forall i, j :: 0 <= i < j < |existing + markers| ==> (existing + markers)[i] != (existing + markers)[j])
       <==> (forall i, j :: 0 <= i < j < |existing| ==> existing[i] != existing[j])
  {
    var all := existing + markers;
    if forall i, j :: 0 <= i < j < |existing| ==> existing[i] != existing[j] {
      forall i, j | 0 <= i < j < |all| ensures all[i] != all[j] {
        if i < |existing| <= j { assert existing[i] in existing && all[j] == markers[j - |existing|]; }
        else if |existing| <= i { assert markers[i - |existing|] != markers[j - |existing|]; }
      }
    } else {
      var i, j :| 0 <= i < j < |existing| && existing[i] == existing[j];
      assert all[i] == all[j];
    }
  }
}
