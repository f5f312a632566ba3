/** Strict total orders and the one strictly ascending listing of a finite set.
    ORDER BY and sort.Strings are both this listing, for different orders. */
module Ordering {

  ghost predicate StrictTotal<T(!new)>(less: (T, T) -> bool) {
    && (forall a :: !less(a, a))
    && (forall a, b, c :: less(a, b) && less(b, c) ==> less(a, c))
    && (forall a, b :: a != b ==> less(a, b) || less(b, a))
  }

  ghost predicate Ascending<T(!new)>(q: seq<T>, less: (T, T) -> bool) {
    forall i, j :: 0 <= i < j < |q| ==> less(q[i], q[j])
  }

  function Elems<T>(q: seq<T>): set<T> {
    set x | x in q
  }

  lemma Inhabited<T>(q: seq<T>)
    ensures q != [] ==> exists x :: x in q
  {
    if q != [] { assert q[0] in q; }
  }

  lemma LeastExists<T(!new)>(s: set<T>, less: (T, T) -> bool)
    requires StrictTotal(less)
    requires s != {}
    ensures exists m :: m in s && forall x :: x in s && x != m ==> less(m, x)
  {
    var a :| a in s;
    if s != {a} {
      var rest := s - {a};
      LeastExists(rest, less);
      var m :| m in rest && forall x :: x in rest && x != m ==> less(m, x);
      var least := if less(a, m) then a else m;
      assert least in s;
      forall x | x in s && x != least ensures less(least, x) {
        if x != a && x != m { assert less(m, x); }
      }
    }
  }

  function Least<T(!new, ==)>(s: set<T>, less: (T, T) -> bool): (m: T)
    requires StrictTotal(less)
    requires s != {}
    ensures m in s && forall x :: x in s && x != m ==> less(m, x)
  {
    LeastExists(s, less);
    var m :| m in s && forall x :: x in s && x != m ==> less(m, x);
    m
  }

  /** The elements of s in ascending order. */
  function Sort<T(!new, ==)>(s: set<T>, less: (T, T) -> bool): (q: seq<T>)
    requires StrictTotal(less)
    ensures Ascending(q, less)
    ensures Elems(q) == s
    ensures |q| == |s|
  {
    if s == {} then []
    else
      var m := Least(s, less);
      var rest := Sort(s - {m}, less);
      assert forall i :: 0 <= i < |rest| ==> rest[i] in Elems(rest);
      assert forall x :: x in s ==> x == m || x in Elems(rest);
      assert forall x :: x in [m] + rest <==> x == m || x in rest;
      [m] + rest
  }

  /** A listing is determined by its order and its elements. */
  lemma {:induction false} SortUnique<T(!new)>(q: seq<T>, less: (T, T) -> bool)
    requires StrictTotal(less)
    requires Ascending(q, less)
    ensures Sort(Elems(q), less) == q
  {
    if q != [] {
      assert q[0] in Elems(q);
      assert Least(Elems(q), less) == q[0];
      assert Elems(q) - {q[0]} == Elems(q[1..]) by {
        forall x | x in Elems(q) - {q[0]} ensures x in Elems(q[1..]) {
          var i :| 0 <= i < |q| && q[i] == x;
          assert q[1..][i - 1] == x;
        }
      }
      SortUnique(q[1..], less);
    }
  }

  // --- strings, in code unit order ---------------------------------------------

  predicate StrLess(a: string, b: string) {
    if b == "" then false
    else if a == "" then true
    else if a[0] != b[0] then a[0] < b[0]
    else StrLess(a[1..], b[1..])
  }

  lemma {:induction false} StrLessTransitive(a: string, b: string, c: string)
    requires StrLess(a, b) && StrLess(b, c)
    ensures StrLess(a, c)
  {
    if a != "" && a[0] == b[0] == c[0] {
      StrLessTransitive(a[1..], b[1..], c[1..]);
    }
  }

  lemma {:induction false} StrLessConnected(a: string, b: string)
    requires a != b
    ensures StrLess(a, b) || StrLess(b, a)
  {
    if a != "" && b != "" && a[0] == b[0] {
      assert a == [a[0]] + a[1..] && b == [b[0]] + b[1..];
      StrLessConnected(a[1..], b[1..]);
    }
  }

  lemma {:induction false} StrLessIrreflexive(a: string)
    ensures !StrLess(a, a)
  {
    if a != "" { StrLessIrreflexive(a[1..]); }
  }

  lemma StrLessTotal()
    ensures StrictTotal(StrLess)
  {
    forall a ensures !StrLess(a, a) { StrLessIrreflexive(a); }
    forall a, b, c | StrLess(a, b) && StrLess(b, c) ensures StrLess(a, c) { StrLessTransitive(a, b, c); }
    forall a, b | a != b ensures StrLess(a, b) || StrLess(b, a) { StrLessConnected(a, b); }
  }

  /** sort.Strings over the keys of a map. */
  function SortedKeys(keys: set<string>): (q: seq<string>)
    ensures Elems(q) == keys
    ensures forall i, j :: 0 <= i < j < |q| ==> q[i] != q[j]
  {
    StrLessTotal();
    var q := Sort(keys, StrLess);
    assert forall i, j :: 0 <= i < j < |q| ==> StrLess(q[i], q[j]);
    q
  }

  /** The collation of an identifier column: any strict total order. */
  type IdOrder = less: (string, string) -> bool | StrictTotal(less)
    ghost witness (StrLessTotal(); StrLess)
}
