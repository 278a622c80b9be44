/**
 Fixed-point text of a double and its reading back. A double is a sign and a magnitude, so that a
 negative zero is a value of its own; binary rounding is not modelled.
 */
module Decimal {
  import opened QtText

  datatype Signed = Signed(neg: bool, mag: real)
  type Double = d: Signed | d.mag >= 0.0 witness Signed(false, 0.0)

  const ZERO: Double := Signed(false, 0.0)

  function Pow10(d: nat): (p: nat)
    ensures p >= 1
  {
    if d == 0 then 1 else 10 * Pow10(d - 1)
  }

  // ---------------------------------------------------------------- naturals

  function Digit(n: nat): (c: char)
    requires n < 10
    ensures IsDigit(c)
  {
    "0123456789"[n]
  }

  predicate AllDigits(s: string) { forall i :: 0 <= i < |s| ==> IsDigit(s[i]) }

  function NatText(n: nat): (s: string)
    ensures s != "" && AllDigits(s)
  {
    if n < 10 then [Digit(n)] else NatText(n / 10) + [Digit(n % 10)]
  }

  /** The last d digits of n, leading zeros included. */
  function Padded(n: nat, d: nat): (s: string)
    ensures |s| == d && AllDigits(s)
  {
    if d == 0 then "" else Padded(n / 10, d - 1) + [Digit(n % 10)]
  }

  function ParseNat(s: string): nat
    requires AllDigits(s)
  {
    if s == "" then 0 else ParseNat(s[..|s| - 1]) * 10 + (s[|s| - 1] as int - '0' as int)
  }

  lemma DigitValue(n: nat)
    requires n < 10
    ensures Digit(n) as int - '0' as int == n
  {
  }

  lemma {:induction false} NatTextParses(n: nat)
    ensures ParseNat(NatText(n)) == n
  {
    DigitValue(n % 10);
    if n >= 10 {
      NatTextParses(n / 10);
      assert NatText(n)[..|NatText(n)| - 1] == NatText(n / 10);
    } else {
      assert NatText(n)[..0] == "";
    }
  }

  lemma {:induction false} PaddedParses(n: nat, d: nat)
    requires n < Pow10(d)
    ensures ParseNat(Padded(n, d)) == n
  {
    if d > 0 {
      DigitValue(n % 10);
      PaddedParses(n / 10, d - 1);
      assert Padded(n, d)[..d - 1] == Padded(n / 10, d - 1);
    }
  }

  // ---------------------------------------------------------------- fixed point

  /** The nearest integer, a tie going to the even one. */
  function Round(x: real): (n: nat)
    requires x >= 0.0
    ensures -0.5 <= n as real - x <= 0.5
  {
    var f := x.Floor;
    var r := x - f as real;
    if r < 0.5 || (r == 0.5 && f % 2 == 0) then f else f + 1
  }

  lemma RoundExact(n: nat)
    ensures Round(n as real) == n
  {
    assert (n as real).Floor == n;
  }

  lemma TieToEven(n: nat)
    ensures Round(n as real + 0.5) == if n % 2 == 0 then n else n + 1
  {
    assert (n as real + 0.5).Floor == n;
  }

  function Scaled(m: real, d: nat): (r: real)
    ensures m >= 0.0 ==> r >= 0.0
  {
    m * Pow10(d) as real
  }

  function GridValue(u: nat, d: nat): (r: real)
    ensures r >= 0.0
  {
    u as real / Pow10(d) as real
  }

  /** The magnitude in units of the last of d decimals. */
  function Units(x: Double, d: nat): nat
  {
    Round(Scaled(x.mag, d))
  }

  /** u units of the last of d decimals, as digits around a point. */
  function Digits(u: nat, d: nat): (s: string)
    ensures s != "" && IsDigit(s[0])
    ensures Free(s, ';') && Free(s, '-')
  {
    var (whole, part) := DivMod(u, Pow10(d));
    NatText(whole) + "." + Padded(part, d)
  }

  function DivMod(u: nat, p: nat): (r: (nat, nat))
    requires p > 0
    ensures r.1 < p && u == r.0 * p + r.1
  {
    (u / p, u % p)
  }

  /** `x` with d decimals. The formatter may or may not write the sign of a zero value; both kinds
      are covered by `signedZero`. */
  function Fixed(x: Double, d: nat, signedZero: bool): string
  {
    (if x.neg && (signedZero || x.mag != 0.0) then "-" else "") + Digits(Units(x, d), d)
  }

  function Unsigned(s: string): (x: Double)
  {
    var parts := Split(s, '.');
    if |parts| == 2 && parts[0] != "" && parts[1] != "" && AllDigits(parts[0]) && AllDigits(parts[1]) then
      Signed(false, ParseNat(parts[0]) as real + ParseNat(parts[1]) as real / Pow10(|parts[1]|) as real)
    else ZERO
  }

  /** Reads plain decimals; anything else reads as zero. */
  function ToDouble(s: string): (x: Double)
  {
    if s != "" && s[0] == '-' then Signed(true, Unsigned(s[1..]).mag) else Unsigned(s)
  }

  predicate OnGrid(x: Double, d: nat)
  {
    x.mag == GridValue(Units(x, d), d)
  }

  lemma DigitsFree(s: string, c: char)
    requires AllDigits(s) && !IsDigit(c)
    ensures Free(s, c)
  {
  }

  lemma DigitsRead(u: nat, d: nat)
    requires d > 0
    ensures Unsigned(Digits(u, d)) == Signed(false, GridValue(u, d))
  {
    var (whole, part) := DivMod(u, Pow10(d));
    var a, b := NatText(whole), Padded(part, d);
    DigitsFree(a, '.');
    DigitsFree(b, '.');
    SplitField(a, '.', b);
    SplitLast(b, '.');
    NatTextParses(whole);
    PaddedParses(part, d);
    SplitFraction(u, whole, part, Pow10(d));
  }

  lemma SplitFraction(u: nat, q: nat, r: nat, p: nat)
    requires p > 0 && u == q * p + r
    ensures q as real + r as real / p as real == u as real / p as real
  {
    var a, b, c := q as real, r as real, p as real;
    assert u as real == a * c + b;
    assert (a * c + b) / c == a + b / c;
  }

  lemma UnitsOfGridValue(u: nat, d: nat)
    ensures Scaled(GridValue(u, d), d) == u as real
    ensures Round(Scaled(GridValue(u, d), d)) == u
  {
    assert u as real / Pow10(d) as real * Pow10(d) as real == u as real;
    RoundExact(u);
  }

  /** What a value becomes when it is written and read back. */
  function Reread(x: Double, d: nat, signedZero: bool): Double
  {
    ToDouble(Fixed(x, d, signedZero))
  }

  lemma RereadIs(x: Double, d: nat, signedZero: bool)
    requires d > 0
    ensures var u := Units(x, d);
            && Unsigned(Digits(u, d)).mag == GridValue(u, d)
            && Reread(x, d, signedZero) == Signed(x.neg && (signedZero || x.mag != 0.0), GridValue(u, d))
  {
    var u := Units(x, d);
    DigitsRead(u, d);
    assert ("-" + Digits(u, d))[1..] == Digits(u, d) && "" + Digits(u, d) == Digits(u, d);
    assert Digits(u, d)[0] != '-';
  }

  /** Writing and reading back rounds to the grid: identity on it, within half a unit off it. */
  lemma FixedRoundTrip(x: Double, d: nat, signedZero: bool)
    requires d > 0
    ensures var y := Reread(x, d, signedZero);
            && y.neg == (x.neg && (signedZero || x.mag != 0.0))
            && OnGrid(y, d)
            && -0.5 <= Scaled(y.mag, d) - Scaled(x.mag, d) <= 0.5
            && (OnGrid(x, d) && (signedZero || x != Signed(true, 0.0)) ==> y == x)
  {
    RereadIs(x, d, signedZero);
    UnitsOfGridValue(Units(x, d), d);
  }

  lemma GridValueReread(x: Double, d: nat, signedZero: bool)
    requires d > 0 && OnGrid(x, d) && x != Signed(true, 0.0)
    ensures Reread(x, d, signedZero) == x
  {
    RereadIs(x, d, signedZero);
  }

  /** The second text equals the first, except when the sign of zeros is dropped and a negative value
      rounds to zero: its first text carries a sign that its second one lacks. */
  lemma SecondTextSame(x: Double, d: nat, signedZero: bool)
    requires d > 0
    ensures Fixed(Reread(x, d, signedZero), d, signedZero) == Fixed(x, d, signedZero)
       <==> signedZero || !(x.neg && x.mag > 0.0 && Units(x, d) == 0)
  {
    var u := Units(x, d);
    RereadIs(x, d, signedZero);
    UnitsOfGridValue(u, d);
    assert |"-" + Digits(u, d)| != |Digits(u, d)|;
    GridValueZero(u, d);
    if x.mag == 0.0 { UnitsOfGridValue(0, d); GridValueZero(0, d); }
  }

  lemma GridValueZero(u: nat, d: nat)
    ensures GridValue(u, d) == 0.0 <==> u == 0
  {
    assert u as real / Pow10(d) as real * Pow10(d) as real == u as real;
  }

  lemma FixedFree(x: Double, d: nat, signedZero: bool)
    ensures Free(Fixed(x, d, signedZero), ';')
  {
    assert forall c :: c in Fixed(x, d, signedZero) ==> c == '-' || c in Digits(Units(x, d), d);
  }
}
