/** Numbers on their way between JSON and integer columns (adapter/erjet/column.go,
    adapter/erjet/normalize.go). */
module Numbers {

  /** An IEEE 754 binary64 value. */
  datatype Float = NaN | Infinity(negative: bool) | NegativeZero | Finite(value: real)

  /** maxSafeInt, 2^53. */
  const SAFE: int := 0x20_0000_0000_0000

  const INT64_MAX: int := 0x7FFF_FFFF_FFFF_FFFF

  predicate IsInt64(n: int) { -INT64_MAX - 1 <= n <= INT64_MAX }

  /** The spacing of binary64 around a magnitude: 1 up to 2^53, then doubling. */
  function Spacing(n: nat): (u: nat)
    ensures u >= 1 && n <= SAFE * u
    ensures n <= SAFE ==> u == 1
    ensures n > SAFE ==> u % 2 == 0 && 2 * n > SAFE * u
  {
    if n <= SAFE then 1 else 2 * Spacing((n + 1) / 2)
  }

  /** Round to nearest, ties to even, in units of u. */
  function NearestMultiple(n: nat, u: nat): nat
    requires u >= 1
  {
    var q, r := n / u, n % u;
    if 2 * r < u || (2 * r == u && q % 2 == 0) then q * u else (q + 1) * u
  }

  /** float64(n): the conversion of Go. */
  function ToFloat(n: int): Float {
    if n >= 0 then Finite(NearestMultiple(n, Spacing(n)) as real) else Finite(-(NearestMultiple(-n, Spacing(-n)) as real))
  }

  /** What wholeNumber makes of a JSON number: the integer and the echo. */
  datatype Whole = Rejected | Accepted(n: int, echo: Float)

  function WholeNumber(f: Float): Whole {
    match f
    case NaN => Rejected
    case Infinity(_) => Rejected
    case NegativeZero => Accepted(0, ToFloat(0))
    case Finite(v) =>
      if v.Floor as real != v || v > SAFE as real || v < -(SAFE as real) then Rejected else Accepted(v.Floor, ToFloat(v.Floor))
  }

  /** Up to 2^53 every integer is a float. */
  lemma SmallIsExact(n: int)
    requires -SAFE <= n <= SAFE
    ensures ToFloat(n) == Finite(n as real)
  {}

  /** Every integer of magnitude up to 2^53 is accepted, as itself. */
  lemma SmallIsAccepted(n: int)
    requires -SAFE <= n <= SAFE
    ensures WholeNumber(Finite(n as real)) == Accepted(n, Finite(n as real))
  {}

  /** An accepted number survives the trip through int64 and back, -0 as 0, and its echo
      is what the read gives. */
  lemma AcceptedSurvives(f: Float)
    requires WholeNumber(f).Accepted?
    ensures IsInt64(WholeNumber(f).n)
    ensures WholeNumber(f).echo == ToFloat(WholeNumber(f).n)
    ensures ToFloat(WholeNumber(f).n) == if f.NegativeZero? then Finite(0.0) else f
  {}

  /** Different accepted numbers never store the same integer, the two zeros aside. */
  lemma AcceptedApart(f: Float, g: Float)
    requires WholeNumber(f).Accepted? && WholeNumber(g).Accepted?
    requires WholeNumber(f).n == WholeNumber(g).n
    ensures f == g || (WholeNumber(f).n == 0 && {f, g} == {Finite(0.0), NegativeZero})
  {}

  lemma Halfway(n: nat, u: nat)
    requires u >= 1
    ensures -(u as int) <= 2 * (NearestMultiple(n, u) - n) <= u
    ensures exists q: nat :: NearestMultiple(n, u) == q * u
  {}

  /** Past 2^53 + 1 no conversion comes back under the limit. */
  lemma LargeStaysLarge(n: nat)
    requires n > SAFE
    ensures NearestMultiple(n, Spacing(n)) >= SAFE
    ensures NearestMultiple(n, Spacing(n)) == SAFE <==> n == SAFE + 1
  {
    var u := Spacing(n);
    Halfway(n, u);
    if n == SAFE + 1 {
      assert Spacing(n) == 2 * Spacing((n + 1) / 2);
      assert (n + 1) / 2 <= SAFE;
      assert u == 2;
      assert n / 2 == SAFE / 2 && n % 2 == 1 && (SAFE / 2) % 2 == 0;
    } else if u == 2 {
      assert n >= SAFE + 2;
    } else {
      assert u >= 4;
      assert 2 * n > SAFE * u;
    }
  }

  /** An integer column sent back as it was read is accepted exactly up to 2^53 + 1, and
      keeps its value exactly up to 2^53: 2^53 + 1 silently becomes 2^53. */
  lemma RereadInteger(n: int)
    ensures WholeNumber(ToFloat(n)).Accepted? <==> -SAFE - 1 <= n <= SAFE + 1
    ensures WholeNumber(ToFloat(n)).Accepted? ==> (WholeNumber(ToFloat(n)).n == n <==> -SAFE <= n <= SAFE)
    ensures WholeNumber(ToFloat(n)).Accepted? ==> WholeNumber(ToFloat(n)).echo == ToFloat(n)
  {
    if -SAFE <= n <= SAFE {
      SmallIsExact(n);
      SmallIsAccepted(n);
    } else {
      LargeStaysLarge(if n > 0 then n else -n);
      if n == SAFE + 1 { SmallIsAccepted(SAFE); }
      if n == -SAFE - 1 { SmallIsAccepted(-SAFE); }
    }
  }

  // --- identifiers -----------------------------------------------------------------------------

  function Digit(n: nat): char
    requires n < 10
  {
    "0123456789"[n]
  }

  /** %d of a count. */
  function Decimal(n: nat): (s: string)
    ensures s != "" && '/' !in s && s[0] != '-'
  {
    if n < 10 then [Digit(n)] else Decimal(n / 10) + [Digit(n % 10)]
  }

  lemma {:induction false} DecimalInjective(a: nat, b: nat)
    requires Decimal(a) == Decimal(b)
    ensures a == b
  {
    var s, t := Decimal(a), Decimal(b);
    if a < 10 || b < 10 {
      assert |s| == 1 <==> a < 10;
      assert |t| == 1 <==> b < 10;
      assert s[0] == t[0];
    } else {
      assert s[..|s| - 1] == Decimal(a / 10) && t[..|t| - 1] == Decimal(b / 10);
      DecimalInjective(a / 10, b / 10);
      assert s[|s| - 1] == t[|t| - 1];
    }
  }

  /** Reading a text of decimal digits. */
  function Reads(s: string): int {
    if s == "" then 0 else 10 * Reads(s[..|s| - 1]) + (s[|s| - 1] as int - '0' as int)
  }

  ghost predicate AllDigits(s: string) {
    forall i :: 0 <= i < |s| ==> '0' <= s[i] <= '9'
  }

  /** The text of a count is made of digits, has no leading zero, and reads as the count. */
  lemma {:induction false} DecimalReads(n: nat)
    ensures Reads(Decimal(n)) == n && AllDigits(Decimal(n))
    ensures n != 0 ==> Decimal(n)[0] != '0'
  {
    var s := Decimal(n);
    if n < 10 {
      assert s[..0] == "";
    } else {
      DecimalReads(n / 10);
      assert s[..|s| - 1] == Decimal(n / 10);
    }
  }

  /** normalizeIdentifier of an integer key. */
  function IdentifierOf(n: int): (s: string)
    ensures s != ""
  {
    if n >= 0 then Decimal(n) else "-" + Decimal(-n)
  }

  /** An identifier is the decimal text of its key, a minus sign first below zero. */
  lemma IdentifierReads(n: int)
    ensures var s := IdentifierOf(n);
      if n >= 0 then AllDigits(s) && Reads(s) == n else s[0] == '-' && AllDigits(s[1..]) && Reads(s[1..]) == -n
    ensures IdentifierOf(n)[0] == '0' <==> n == 0
  {
    DecimalReads(if n >= 0 then n else -n);
  }

  /** Different integer keys are different identifiers, so rows may be told apart by the
      text every read and every ownership check decodes them to. */
  lemma IdentifiersApart(a: int, b: int)
    requires IdentifierOf(a) == IdentifierOf(b)
    ensures a == b
  {
    var s, t := IdentifierOf(a), IdentifierOf(b);
    assert (s[0] == '-' <==> a < 0) && (t[0] == '-' <==> b < 0);
    if a >= 0 && b >= 0 {
      DecimalInjective(a, b);
    } else if a < 0 && b < 0 {
      assert s[1..] == Decimal(-a) && t[1..] == Decimal(-b);
      DecimalInjective(-a, -b);
    }
  }
}
