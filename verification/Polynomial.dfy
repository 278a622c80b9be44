/**
 Polynomials over the reals as coefficient sequences, constant term first, and the interpolation
 problem the calibration solver is asked to solve: one coefficient per node, every node met.
 */
module Polynomial {

  type Poly = seq<real>

  /** A calibration node: the correction wanted at an argument. */
  datatype JustNode = JustNode(corr: real, arg: real)

  function Eval(p: Poly, x: real): real
  {
    if p == [] then 0.0 else p[0] + x * Eval(p[1..], x)
  }

  function Pow(x: real, n: nat): real
  {
    if n == 0 then 1.0 else x * Pow(x, n - 1)
  }

  predicate DistinctArgs(ns: seq<JustNode>)
  {
    forall i, j :: 0 <= i < j < |ns| ==> ns[i].arg != ns[j].arg
  }

  ghost predicate Meets(p: Poly, ns: seq<JustNode>)
  {
    forall i :: 0 <= i < |ns| ==> Eval(p, ns[i].arg) == ns[i].corr
  }

  /** The Vandermonde system of `ns`: as many coefficients as nodes, and every node is met. */
  ghost predicate Solves(p: Poly, ns: seq<JustNode>)
  {
    |p| == |ns| && Meets(p, ns)
  }

  ghost predicate IsZero(p: Poly)
  {
    forall i :: 0 <= i < |p| ==> p[i] == 0.0
  }

  // ---------------------------------------------------------------- evaluation

  lemma ShiftUp(p: real, a: real, x: real, e: real, w: real, e': real)
    requires e' == e + a * w
    ensures p + x * e' == p + x * e + a * (x * w)
  {
  }

  /** One step of evaluation with a running power. */
  lemma {:induction false} EvalAppend(p: Poly, a: real, x: real)
    ensures Eval(p + [a], x) == Eval(p, x) + a * Pow(x, |p|)
  {
    if p == [] {
      assert (p + [a])[1..] == [];
    } else {
      assert (p + [a])[1..] == p[1..] + [a];
      EvalAppend(p[1..], a, x);
      ShiftUp(p[0], a, x, Eval(p[1..], x), Pow(x, |p| - 1), Eval(p[1..] + [a], x));
    }
  }

  lemma {:induction false} EvalPadded(p: Poly, z: Poly, x: real)
    requires IsZero(z)
    ensures Eval(p + z, x) == Eval(p, x)
    decreases |p| + |z|
  {
    if p == [] {
      assert p + z == z;
      if z != [] {
        assert z == z[..1] + z[1..];
        EvalPadded([], z[1..], x);
        assert [] + z[1..] == z[1..];
      }
    } else {
      assert (p + z)[1..] == p[1..] + z;
      EvalPadded(p[1..], z, x);
    }
  }

  // ---------------------------------------------------------------- uniqueness

  /** The quotient of p by (x - r). */
  function Quotient(p: Poly, r: real): (q: Poly)
    ensures |q| == if p == [] then 0 else |p| - 1
  {
    if |p| <= 1 then [] else [Eval(p[1..], r)] + Quotient(p[1..], r)
  }

  lemma Factored(p: real, x: real, r: real, d: real, tx: real, tr: real, qx: real)
    requires d == x - r && tx - tr == d * qx
    ensures p + x * tx - (p + r * tr) == d * (tr + x * qx)
  {
    assert x * (tx - tr) == x * (d * qx) == d * (x * qx);
    assert d * tr == x * tr - r * tr;
  }

  lemma {:induction false} EvalCons(a: real, q: Poly, x: real)
    ensures Eval([a] + q, x) == a + x * Eval(q, x)
  {
    assert ([a] + q)[1..] == q;
  }

  /** Dividing by (x - r) leaves the value at r; `d` stands for x - r. */
  lemma {:induction false} FactorTheorem(p: Poly, r: real, x: real, d: real)
    requires d == x - r
    ensures Eval(p, x) - Eval(p, r) == d * Eval(Quotient(p, r), x)
  {
    if |p| > 1 {
      var t := p[1..];
      FactorTheorem(t, r, x, d);
      EvalCons(Eval(t, r), Quotient(t, r), x);
      Factored(p[0], x, r, d, Eval(t, x), Eval(t, r), Eval(Quotient(t, r), x));
    } else if |p| == 1 {
      assert p[1..] == [];
    }
  }

  lemma {:induction false} ZeroQuotient(p: Poly, r: real)
    requires IsZero(Quotient(p, r)) && Eval(p, r) == 0.0
    ensures IsZero(p)
  {
    if |p| > 1 {
      var q := Quotient(p, r);
      assert q[0] == Eval(p[1..], r) && q[1..] == Quotient(p[1..], r);
      ZeroQuotient(p[1..], r);
      assert p[0] == 0.0;
    } else if |p| == 1 {
      assert p[1..] == [];
    }
  }

  /** A polynomial with n coefficients that vanishes at n distinct arguments is zero. */
  lemma {:induction false} ManyRootsZero(p: Poly, ns: seq<JustNode>)
    requires |p| == |ns| && DistinctArgs(ns)
    requires forall i :: 0 <= i < |ns| ==> Eval(p, ns[i].arg) == 0.0
    ensures IsZero(p)
    decreases |ns|
  {
    if p != [] {
      var m := |ns| - 1;
      var r, q := ns[m].arg, Quotient(p, ns[m].arg);
      forall i | 0 <= i < m ensures Eval(q, ns[..m][i].arg) == 0.0 {
        FactorTheorem(p, r, ns[i].arg, ns[i].arg - r);
        NoZeroDivisor(ns[i].arg - r, Eval(q, ns[i].arg));
      }
      ManyRootsZero(q, ns[..m]);
      ZeroQuotient(p, r);
    }
  }

  lemma NoZeroDivisor(a: real, b: real)
    requires a * b == 0.0 && a != 0.0
    ensures b == 0.0
  {
    assert b == a * b / a;
  }

  /** p + a * q, coefficient by coefficient. */
  function AddScaled(p: Poly, a: real, q: Poly): (s: Poly)
    requires |p| == |q|
    ensures |s| == |p|
  {
    if p == [] then [] else [p[0] + a * q[0]] + AddScaled(p[1..], a, q[1..])
  }

  lemma {:induction false} AddScaledAt(p: Poly, a: real, q: Poly, i: nat)
    requires i < |p| == |q|
    ensures AddScaled(p, a, q)[i] == p[i] + a * q[i]
  {
    if i > 0 { AddScaledAt(p[1..], a, q[1..], i - 1); }
  }

  lemma Distribute(p: real, q: real, a: real, x: real, e: real, f: real, e': real)
    requires e' == e + a * f
    ensures p + a * q + x * e' == p + x * e + a * (q + x * f)
  {
  }

  lemma {:induction false} EvalAddScaled(p: Poly, a: real, q: Poly, x: real)
    requires |p| == |q|
    ensures Eval(AddScaled(p, a, q), x) == Eval(p, x) + a * Eval(q, x)
  {
    if p != [] {
      var t := AddScaled(p[1..], a, q[1..]);
      assert AddScaled(p, a, q)[1..] == t;
      EvalAddScaled(p[1..], a, q[1..], x);
      Distribute(p[0], q[0], a, x, Eval(p[1..], x), Eval(q[1..], x), Eval(t, x));
    }
  }

  /** Pairwise distinct arguments determine the coefficients. */
  lemma SolutionUnique(p: Poly, q: Poly, ns: seq<JustNode>)
    requires DistinctArgs(ns) && Solves(p, ns) && Solves(q, ns)
    ensures p == q
  {
    var d := AddScaled(p, -1.0, q);
    forall i | 0 <= i < |ns| ensures Eval(d, ns[i].arg) == 0.0 {
      EvalAddScaled(p, -1.0, q, ns[i].arg);
    }
    ManyRootsZero(d, ns);
    forall i | 0 <= i < |p| ensures p[i] == q[i] {
      AddScaledAt(p, -1.0, q, i);
    }
  }

  // ---------------------------------------------------------------- existence

  /** (x - r) * p. */
  function TimesLinear(p: Poly, r: real): (q: Poly)
    ensures |q| == |p| + 1
    ensures p != [] ==> q[|p|] == p[|p| - 1]
  {
    LeadingKept(p, r);
    AddScaled([0.0] + p, -r, p + [0.0])
  }

  lemma LeadingKept(p: Poly, r: real)
    ensures p != [] ==> AddScaled([0.0] + p, -r, p + [0.0])[|p|] == p[|p| - 1]
  {
    if p != [] { AddScaledAt([0.0] + p, -r, p + [0.0], |p|); }
  }

  lemma EvalTimesLinear(p: Poly, r: real, x: real)
    ensures Eval(TimesLinear(p, r), x) == (x - r) * Eval(p, x)
  {
    EvalAddScaled([0.0] + p, -r, p + [0.0], x);
    EvalPadded(p, [0.0], x);
    assert ([0.0] + p)[1..] == p;
  }

  /** The monic polynomial whose roots are the arguments of `ns`. */
  function Vanishing(ns: seq<JustNode>): (w: Poly)
    ensures |w| == |ns| + 1 && w[|ns|] == 1.0
  {
    if ns == [] then [1.0] else TimesLinear(Vanishing(ns[..|ns| - 1]), ns[|ns| - 1].arg)
  }

  lemma {:induction false} VanishingRoots(ns: seq<JustNode>, x: real)
    ensures Eval(Vanishing(ns), x) == 0.0 <==> exists i :: 0 <= i < |ns| && ns[i].arg == x
  {
    if ns == [] {
      assert Vanishing(ns)[1..] == [];
    } else {
      var m := |ns| - 1;
      var w := Vanishing(ns[..m]);
      VanishingRoots(ns[..m], x);
      EvalTimesLinear(w, ns[m].arg, x);
      if Eval(Vanishing(ns), x) == 0.0 {
        if x != ns[m].arg {
          NoZeroDivisor(x - ns[m].arg, Eval(w, x));
          var i :| 0 <= i < m && ns[..m][i].arg == x;
          assert ns[i].arg == x;
        }
      } else {
        forall i | 0 <= i < |ns| ensures ns[i].arg != x {
          if i < m { assert ns[..m][i].arg == ns[i].arg; }
        }
      }
    }
  }

  /** Newton's construction: add one node at a time. */
  function Newton(ns: seq<JustNode>): (p: Poly)
    requires DistinctArgs(ns)
    ensures |p| == |ns|
  {
    if ns == [] then [] else
      var m := |ns| - 1;
      var q, w := Newton(ns[..m]), Vanishing(ns[..m]);
      var e := Eval(w, ns[m].arg);
      AddScaled(q + [0.0], if e == 0.0 then 0.0 else (ns[m].corr - Eval(q, ns[m].arg)) / e, w)
  }

  /** Adding the right multiple of the front's vanishing polynomial meets one node more. */
  lemma NewtonStep(q: Poly, w: Poly, a: real, x: real)
    requires |w| == |q| + 1
    ensures Eval(AddScaled(q + [0.0], a, w), x) == Eval(q, x) + a * Eval(w, x)
  {
    EvalAddScaled(q + [0.0], a, w, x);
    EvalPadded(q, [0.0], x);
  }

  lemma Cancel(c: real, v: real, e: real)
    requires e != 0.0
    ensures v + (c - v) / e * e == c
  {
  }

  lemma {:induction false} NewtonSolves(ns: seq<JustNode>)
    requires DistinctArgs(ns)
    ensures Solves(Newton(ns), ns)
  {
    if ns != [] {
      var m := |ns| - 1;
      var front, last := ns[..m], ns[m];
      var q, w := Newton(front), Vanishing(front);
      var e := Eval(w, last.arg);
      NewtonSolves(front);
      VanishingRoots(front, last.arg);
      assert e != 0.0;
      var a := (last.corr - Eval(q, last.arg)) / e;
      NewtonStep(q, w, a, last.arg);
      Cancel(last.corr, Eval(q, last.arg), e);
      forall i | 0 <= i < m ensures Eval(Newton(ns), ns[i].arg) == ns[i].corr {
        assert front[i] == ns[i];
        VanishingRoots(front, ns[i].arg);
        NewtonStep(q, w, a, ns[i].arg);
      }
    }
  }

  /** Where two nodes share their argument, a solution is never the only one. */
  lemma AnotherSolution(p: Poly, ns: seq<JustNode>, i: nat, j: nat) returns (q: Poly)
    requires i < j < |ns| && ns[i].arg == ns[j].arg && Solves(p, ns)
    ensures Solves(q, ns) && q != p
  {
    var others := ns[..j] + ns[j + 1..];
    var w := Vanishing(others);
    q := AddScaled(p, 1.0, w);
    AddScaledAt(p, 1.0, w, |ns| - 1);
    forall k | 0 <= k < |ns| ensures Eval(q, ns[k].arg) == ns[k].corr {
      var k' := if k == j then i else k;
      assert others[if k' < j then k' else k' - 1].arg == ns[k].arg;
      VanishingRoots(others, ns[k].arg);
      EvalAddScaled(p, 1.0, w, ns[k].arg);
    }
  }

  /** The system determines its answer exactly when the arguments are pairwise distinct. */
  lemma SolvableUniquelyIffDistinct(ns: seq<JustNode>)
    ensures DistinctArgs(ns) <==>
            exists p :: Solves(p, ns) && forall q :: Solves(q, ns) ==> q == p
  {
    if DistinctArgs(ns) {
      var p := Newton(ns);
      NewtonSolves(ns);
      forall q | Solves(q, ns) ensures q == p { SolutionUnique(q, p, ns); }
    } else {
      var i, j :| 0 <= i < j < |ns| && ns[i].arg == ns[j].arg;
      forall p | Solves(p, ns) ensures exists q :: Solves(q, ns) && q != p {
        var q := AnotherSolution(p, ns, i, j);
      }
    }
  }
}
