/**
 The string class's numbered place markers. Filling in an argument replaces the lowest-numbered marker that
 is left, wherever it stands: also in text that an earlier argument brought in.
 */
module QtArg {
  import opened QtText

  /** Above every marker's number. */
  const NONE: nat := 100

  function DigitOf(c: char): (d: nat)
    requires IsDigit(c)
    ensures d < 10
  {
    c as int - '0' as int
  }

  /** Number and length of the marker a text starts with: a percent sign, perhaps an L, one or two digits.
      A text that starts with none is passed over by one character. */
  function Marker(s: string): (m: (nat, nat))
    ensures m.0 <= NONE && m.1 >= 1 && (s != "" ==> m.1 <= |s|)
  {
    var k := if |s| >= 2 && s[1] == 'L' then 2 else 1;
    if |s| > k && s[0] == '%' && IsDigit(s[k]) then
      if |s| > k + 1 && IsDigit(s[k + 1]) then (10 * DigitOf(s[k]) + DigitOf(s[k + 1]), k + 2)
      else (DigitOf(s[k]), k + 1)
    else (NONE, 1)
  }

  function Min(a: nat, b: nat): nat { if a < b then a else b }

  /** The lowest number of a marker in the text. */
  function Lowest(s: string): (n: nat)
    ensures n <= NONE
  {
    if s == "" then NONE else Min(Marker(s).0, Lowest(s[Marker(s).1..]))
  }

  /** Every marker of this number replaced; what it is replaced by is not looked at again. */
  function Substituted(s: string, n: nat, a: string): string
    requires n < NONE
  {
    if s == "" then ""
    else
      var (m, k) := Marker(s);
      (if m == n then a else s[..k]) + Substituted(s[k..], n, a)
  }

  function Arg(s: string, a: string): string
  {
    if Lowest(s) == NONE then s else Substituted(s, Lowest(s), a)
  }

  /** Several arguments, one after the other. */
  function Args(format: string, args: seq<string>): string
  {
    if args == [] then format else Arg(Args(format, args[..|args| - 1]), args[|args| - 1])
  }

  // ---------------------------------------------------------------- texts put together

  /** A text that cannot carry on a marker begun before it. */
  predicate Closed(q: string) { q != "" ==> q[0] != 'L' && !IsDigit(q[0]) }

  lemma MarkerInFront(p: string, q: string)
    requires p != "" && Closed(q)
    ensures Marker(p + q) == Marker(p)
    ensures (p + q)[Marker(p).1..] == p[Marker(p).1..] + q && (p + q)[..Marker(p).1] == p[..Marker(p).1]
  {
  }

  lemma {:induction false} LowestJoined(p: string, q: string)
    requires Closed(q)
    ensures Lowest(p + q) == Min(Lowest(p), Lowest(q))
  {
    if p == "" {
      assert p + q == q;
    } else {
      MarkerInFront(p, q);
      LowestJoined(p[Marker(p).1..], q);
    }
  }

  lemma {:induction false} SubstitutedJoined(p: string, q: string, n: nat, a: string)
    requires Closed(q) && n < NONE
    ensures Substituted(p + q, n, a) == Substituted(p, n, a) + Substituted(q, n, a)
  {
    if p == "" {
      assert p + q == q;
    } else {
      var (m, k) := Marker(p);
      MarkerInFront(p, q);
      SubstitutedJoined(p[k..], q, n, a);
      Regrouped(if m == n then a else p[..k], Substituted(p[k..], n, a), Substituted(q, n, a));
    }
  }

  lemma Regrouped(a: string, b: string, c: string)
    ensures a + (b + c) == a + b + c
  {
  }

  lemma {:induction false} LabelInFront(p: string, q: string, n: nat, a: string)
    requires '%' !in p && n < NONE
    ensures Lowest(p + q) == Lowest(q) && Substituted(p + q, n, a) == p + Substituted(q, n, a)
  {
    if p == "" {
      assert p + q == q;
    } else {
      assert Marker(p + q) == (NONE, 1);
      assert (p + q)[1..] == p[1..] + q && (p + q)[..1] == [p[0]];
      LabelInFront(p[1..], q, n, a);
      Regrouped([p[0]], p[1..], Substituted(q, n, a));
    }
  }

  /** A labelled field and what follows it are searched and filled in each on its own. */
  lemma FieldByField(tag: string, x: string, q: string, n: nat, a: string)
    requires '%' !in tag && Closed(q) && n < NONE
    ensures Lowest(tag + x + q) == Min(Lowest(x), Lowest(q))
    ensures Substituted(tag + x + q, n, a) == tag + Substituted(x, n, a) + Substituted(q, n, a)
  {
    Regrouped(tag, x, q);
    LabelInFront(tag, x + q, n, a);
    LowestJoined(x, q);
    SubstitutedJoined(x, q, n, a);
    Regrouped(tag, Substituted(x, n, a), Substituted(q, n, a));
  }

  lemma ArgFieldByField(tag: string, x: string, q: string, n: nat, a: string)
    requires '%' !in tag && Closed(q) && n == Min(Lowest(x), Lowest(q)) < NONE
    ensures Arg(tag + x + q, a) == tag + Substituted(x, n, a) + Substituted(q, n, a)
  {
    FieldByField(tag, x, q, n, a);
  }

  // ---------------------------------------------------------------- which markers are there

  lemma {:induction false} NoPercent(s: string)
    requires '%' !in s
    ensures Lowest(s) == NONE
  {
    if s != "" {
      assert Marker(s) == (NONE, 1);
      NoPercent(s[1..]);
    }
  }

  lemma {:induction false} Untouched(s: string, n: nat, a: string)
    requires n < Lowest(s)
    ensures Substituted(s, n, a) == s
  {
    if s != "" {
      var k := Marker(s).1;
      Untouched(s[k..], n, a);
      assert s == s[..k] + s[k..];
    }
  }

  /** Emptying the lowest markers of a text shortens it. */
  lemma {:induction false} Emptied(s: string, n: nat)
    requires n < NONE
    ensures |Substituted(s, n, "")| <= |s|
    ensures Lowest(s) == n ==> |Substituted(s, n, "")| < |s|
  {
    if s != "" { Emptied(s[Marker(s).1..], n); }
  }

  lemma {:induction false} SubstitutedFree(s: string, n: nat, a: string, c: char)
    requires n < NONE && c !in s && c !in a
    ensures c !in Substituted(s, n, a)
  {
    if s != "" { SubstitutedFree(s[Marker(s).1..], n, a, c); }
  }

  lemma OneMarker(d: char)
    requires IsDigit(d)
    ensures Lowest(['%', d]) == DigitOf(d)
    ensures forall a :: Substituted(['%', d], DigitOf(d), a) == a
  {
    var s := ['%', d];
    assert Marker(s) == (DigitOf(d), 2) && s[2..] == "";
    forall a ensures Substituted(s, DigitOf(d), a) == a { assert Substituted("", DigitOf(d), a) == ""; }
  }
}
