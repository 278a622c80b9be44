/**
 One correction curve: `order + 1` nodes, the coefficients computed from them, and a status byte.
 The setters depend on the call sequence; what a whole sequence of calls achieves is proved on the
 sequences the setters are specified by.
 */
module JustData {
  import opened Polynomial
  import opened Wrappers

  const EPSILON: real := 0.0000001

  // ---------------------------------------------------------------- specification

  /** A node is copied into its own place and every later one. */
  function NodeSet(nodes: seq<JustNode>, index: nat, jn: JustNode): (s: seq<JustNode>)
    ensures |s| == |nodes|
  {
    if index < |nodes| then nodes[..index] + Filled(jn, |nodes| - index) else nodes
  }

  lemma NodeSetFirst(nodes: seq<JustNode>, jn: JustNode)
    ensures NodeSet(nodes, 0, jn) == Filled(jn, |nodes|)
  {
  }

  /** A coefficient is stored and every later one is cleared. */
  function CoefficientSet(cs: Poly, index: nat, value: real): (s: Poly)
    ensures |s| == |cs|
  {
    if index < |cs| then cs[..index] + [value] + Filled(0.0, |cs| - index - 1) else cs
  }

  function Abs(x: real): real { if x < 0.0 then -x else x }

  predicate Close(a: JustNode, b: JustNode) { Abs(a.arg - b.arg) < EPSILON }

  /** The order in use: the first node whose successor has nearly the same argument, or the last node. */
  function RealOrder(nodes: seq<JustNode>): (k: nat)
    requires nodes != []
    ensures k < |nodes|
    ensures forall i :: 0 <= i < k ==> !Close(nodes[i], nodes[i + 1])
    ensures k == |nodes| - 1 || Close(nodes[k], nodes[k + 1])
  {
    if |nodes| == 1 || Close(nodes[0], nodes[1]) then 0 else
      var rest := nodes[1..];
      assert forall i :: 0 <= i < |rest| ==> rest[i] == nodes[i + 1];
      1 + RealOrder(rest)
  }

  lemma RealOrderIs(nodes: seq<JustNode>, k: nat)
    requires k < |nodes|
    requires forall i :: 0 <= i < k ==> !Close(nodes[i], nodes[i + 1])
    requires k == |nodes| - 1 || Close(nodes[k], nodes[k + 1])
    ensures RealOrder(nodes) == k
  {
    var r := RealOrder(nodes);
    if r < k || k < r {
      assert false;
    }
  }

  /** The nodes in use. */
  function Used(nodes: seq<JustNode>): (u: seq<JustNode>)
    requires nodes != []
    ensures 0 < |u| <= |nodes|
  {
    nodes[..RealOrder(nodes) + 1]
  }

  /** What the coefficients are after a computation from these nodes. */
  ghost predicate Computed(nodes: seq<JustNode>, cs: Poly)
    requires nodes != []
  {
    && |cs| == |nodes|
    && IsZero(cs[|Used(nodes)|..])
    && (DistinctArgs(Used(nodes)) ==> Meets(cs, Used(nodes)))
  }

  // ---------------------------------------------------------------- the object

  class JustData {
    const order: nat
    const coefficient: array<real>
    const node: array<JustNode>
    var status: nat

    ghost predicate Valid()
      reads this
    {
      && coefficient.Length == node.Length == order + 1
      && status < 256
    }

    constructor (order: nat, init: real)
      ensures Valid() && fresh(coefficient) && fresh(node) && this.order == order
      ensures status == 0
      ensures node[..] == Filled(JustNode(init, 0.0), order + 1)
      ensures forall x :: Eval(coefficient[..], x) == init
    {
      this.order := order;
      coefficient := new real[order + 1];
      node := new JustNode[order + 1](_ => JustNode(0.0, 0.0));
      status := 0;
      new;
      InitJustData(init);
    }

    method SetNode(index: nat, jn: JustNode) returns (ok: bool)
      requires Valid()
      modifies node
      ensures ok == (index <= order)
      ensures node[..] == NodeSet(old(node[..]), index, jn)
    {
      if index < order + 1 {
        for i := index to order + 1
          invariant node[..i] == old(node[..index]) + Filled(jn, i - index)
        {
          node[i] := jn;
          assert node[..i + 1] == node[..i] + [jn];
        }
        assert node[..order + 1] == node[..];
        return true;
      }
      return false;
    }

    method SetCoefficient(index: nat, value: real) returns (ok: bool)
      requires Valid()
      modifies coefficient
      ensures ok == (index <= order)
      ensures coefficient[..] == CoefficientSet(old(coefficient[..]), index, value)
    {
      if index < order + 1 {
        coefficient[index] := value;
        if index < order {
          for i := index + 1 to order + 1
            invariant coefficient[..i] == old(coefficient[..index]) + [value] + Filled(0.0, i - index - 1)
          {
            coefficient[i] := 0.0;
            assert coefficient[..i + 1] == coefficient[..i] + [0.0];
          }
        }
        assert coefficient[..order + 1] == coefficient[..];
        return true;
      }
      return false;
    }

    /** Counts the neighbours that are apart, up to the first that are not. */
    method EffectiveOrder() returns (realOrd: nat)
      requires Valid()
      ensures realOrd == RealOrder(node[..])
    {
      realOrd := 0;
      if order > 0 {
        var i := 0;
        while i < order
          invariant 0 <= i == realOrd <= order
          invariant forall j :: 0 <= j < i ==> !Close(node[j], node[j + 1])
        {
          if Abs(node[i].arg - node[i + 1].arg) < EPSILON { break; }
          realOrd := realOrd + 1;
          i := i + 1;
        }
      }
      RealOrderIs(node[..], realOrd);
    }

    /** Discovers the order in use, solves for that many coefficients and writes them back. */
    method CmpCoefficients() returns (ok: bool)
      requires Valid()
      modifies coefficient
      ensures ok
      ensures Computed(node[..], coefficient[..])
    {
      var realOrd := EffectiveOrder();
      ghost var nodes := node[..];
      var used := node[..realOrd + 1];
      assert used == Used(nodes);
      var koeff := SolveVandermonde(used);
      WriteBack(koeff);
      PaddedMeets(Reversed(koeff), Filled(0.0, order + 1 - |koeff|), used);
      return true;
    }

    /** The read-out loops: the solver's answer in ascending order, then zeros. */
    method WriteBack(koeff: seq<real>)
      requires Valid() && 0 < |koeff| <= order + 1
      modifies coefficient
      ensures coefficient[..] == Reversed(koeff) + Filled(0.0, order + 1 - |koeff|)
    {
      var realOrd := |koeff| - 1;
      for i := 0 to realOrd + 1
        invariant forall j :: 0 <= j < i ==> coefficient[..][j] == koeff[realOrd - j]
        invariant 0 < i ==> forall j :: i <= j <= order ==> coefficient[..][j] == 0.0
      {
        var _ := SetCoefficient(i, koeff[realOrd - i]);
      }
      ghost var solved := coefficient[..];
      for i := realOrd + 1 to order + 1
        invariant coefficient[..] == solved
      {
        var _ := SetCoefficient(i, 0.0);
      }
    }

    method InitJustData(init: real)
      requires Valid()
      modifies this`status, coefficient, node
      ensures Valid() && status == 0
      ensures node[..] == Filled(JustNode(init, 0.0), order + 1)
      ensures forall x :: Eval(coefficient[..], x) == init
    {
      ghost var same := Filled(JustNode(init, 0.0), order + 1);
      NodeSetFirst(node[..], JustNode(init, 0.0));
      var _ := SetNode(0, JustNode(init, 0.0));
      assert node[..] == same;
      var _ := CmpCoefficients();
      status := 0;
      assert node[..] == same;
      ConstantCurve(same, coefficient[..], init);
    }

    /** Sets nodes 0, 1, .. in ascending index order, computes, and reads the curve at each node. */
    method Calibrate(ns: seq<JustNode>) returns (corrs: seq<real>)
      requires Valid() && 0 < |ns| <= order + 1
      modifies coefficient, node
      ensures node[..] == Feed(old(node[..]), ns) && Computed(node[..], coefficient[..])
      ensures |corrs| == |ns| && forall i :: 0 <= i < |ns| ==> corrs[i] == Eval(coefficient[..], ns[i].arg)
      ensures AscendingArgs(ns) ==> forall i :: 0 <= i < |ns| ==> corrs[i] == ns[i].corr
    {
      ghost var before := node[..];
      FeedAll(ns);
      ghost var fed := node[..];
      var _ := CmpCoefficients();
      assert node[..] == fed;
      corrs := CorrectionsAt(ns);
      FedNodesMet(before, ns, coefficient[..]);
    }

    method CorrectionsAt(ns: seq<JustNode>) returns (corrs: seq<real>)
      requires Valid()
      ensures |corrs| == |ns| && forall i :: 0 <= i < |ns| ==> corrs[i] == Eval(coefficient[..], ns[i].arg)
    {
      corrs := [];
      for k := 0 to |ns|
        invariant |corrs| == k && forall i :: 0 <= i < k ==> corrs[i] == Eval(coefficient[..], ns[i].arg)
      {
        var corr := GetCorrection(ns[k].arg);
        corrs := corrs + [corr];
      }
    }

    method FeedAll(ns: seq<JustNode>)
      requires Valid() && |ns| <= order + 1
      modifies node
      ensures node[..] == Feed(old(node[..]), ns)
    {
      for k := 0 to |ns|
        invariant node[..] == Feed(old(node[..]), ns[..k])
      {
        assert ns[..k + 1][..k] == ns[..k];
        var _ := SetNode(k, ns[k]);
      }
      assert ns[..|ns|] == ns;
    }

    method GetCorrection(arg: real) returns (corr: real)
      requires Valid()
      ensures corr == Eval(coefficient[..], arg)
    {
      var power := 1.0;
      corr := 0.0;
      for i := 0 to order + 1
        invariant power == Pow(arg, i)
        invariant corr == Eval(coefficient[..i], arg)
      {
        EvalAppend(coefficient[..i], coefficient[i], arg);
        assert coefficient[..i + 1] == coefficient[..i] + [coefficient[i]];
        corr := corr + coefficient[i] * power;
        power := power * arg;
      }
      assert coefficient[..order + 1] == coefficient[..];
    }
  }

  function Reversed(s: Poly): (r: Poly)
    ensures |r| == |s| && forall i :: 0 <= i < |s| ==> r[i] == s[|s| - 1 - i]
  {
    seq(|s|, i requires 0 <= i < |s| => s[|s| - 1 - i])
  }

  /** The equation solver, of which only the contract is known: highest power first, and a solution
      of the Vandermonde system when that system determines one. */
  method SolveVandermonde(ns: seq<JustNode>) returns (koeff: seq<real>)
    ensures |koeff| == |ns|
    ensures DistinctArgs(ns) ==> Solves(Reversed(koeff), ns)
  {
    if DistinctArgs(ns) {
      NewtonSolves(ns);
      koeff := Reversed(Newton(ns));
      assert Reversed(koeff) == Newton(ns);
    } else {
      koeff := Filled(0.0, |ns|);
    }
  }

  lemma PaddedMeets(p: Poly, z: Poly, ns: seq<JustNode>)
    requires IsZero(z)
    ensures Meets(p, ns) <==> Meets(p + z, ns)
  {
    forall i | 0 <= i < |ns| ensures Eval(p, ns[i].arg) == Eval(p + z, ns[i].arg) {
      EvalPadded(p, z, ns[i].arg);
    }
  }

  lemma ConstantCurve(nodes: seq<JustNode>, cs: Poly, v: real)
    requires nodes != [] && nodes == Filled(JustNode(v, 0.0), |nodes|)
    requires Computed(nodes, cs)
    ensures forall x :: Eval(cs, x) == v
  {
    RealOrderIs(nodes, 0);
    assert Used(nodes) == [JustNode(v, 0.0)];
    assert Used(nodes)[0].arg == 0.0;
    assert cs[0] == v;
    forall x ensures Eval(cs, x) == v {
      assert cs == [v] + cs[1..];
      EvalPadded([v], cs[1..], x);
      assert [v][1..] == [];
    }
  }

  // ---------------------------------------------------------------- whole call sequences

  /** Nodes 0, 1, .. set in ascending index order. */
  function Feed(nodes: seq<JustNode>, ns: seq<JustNode>): (s: seq<JustNode>)
    ensures |s| == |nodes|
  {
    if ns == [] then nodes else NodeSet(Feed(nodes, ns[..|ns| - 1]), |ns| - 1, ns[|ns| - 1])
  }

  lemma NodeSetBehind(front: seq<JustNode>, old_: JustNode, jn: JustNode, n: nat)
    requires |front| < n
    ensures NodeSet(front + Filled(old_, n - |front|), |front|, jn) == front + [jn] + Filled(jn, n - |front| - 1)
  {
    assert Filled(jn, n - |front|) == [jn] + Filled(jn, n - |front| - 1);
    assert (front + Filled(old_, n - |front|))[..|front|] == front;
  }

  lemma {:induction false} FeedIs(nodes: seq<JustNode>, ns: seq<JustNode>)
    requires 0 < |ns| <= |nodes|
    ensures Feed(nodes, ns) == ns + Filled(ns[|ns| - 1], |nodes| - |ns|)
  {
    var m := |ns| - 1;
    assert ns == ns[..m] + [ns[m]];
    if m > 0 {
      FeedIs(nodes, ns[..m]);
      NodeSetBehind(ns[..m], ns[m - 1], ns[m], |nodes|);
    } else {
      NodeSetFirst(nodes, ns[0]);
      assert Filled(ns[0], |nodes|) == [ns[0]] + Filled(ns[0], |nodes| - 1);
      assert Feed(nodes, []) == nodes;
    }
  }

  /** From any state, the discovered order is the number of nodes set less one, exactly when no two
      neighbours are within EPSILON; earlier calibrations leave no trace. */
  lemma FeedOrder(nodes: seq<JustNode>, ns: seq<JustNode>)
    requires 0 < |ns| <= |nodes|
    ensures Feed(nodes, ns)[..|ns|] == ns
    ensures RealOrder(Feed(nodes, ns)) == |ns| - 1 <==> forall i :: 0 <= i < |ns| - 1 ==> !Close(ns[i], ns[i + 1])
  {
    var s := Feed(nodes, ns);
    FeedIs(nodes, ns);
    if forall i :: 0 <= i < |ns| - 1 ==> !Close(ns[i], ns[i + 1]) {
      forall i | 0 <= i < |ns| - 1 ensures !Close(s[i], s[i + 1]) {
        assert s[i] == ns[i] && s[i + 1] == ns[i + 1];
      }
      if |ns| < |s| { assert s[|ns| - 1] == s[|ns|]; }
      RealOrderIs(s, |ns| - 1);
    } else {
      var i :| 0 <= i < |ns| - 1 && Close(ns[i], ns[i + 1]);
      assert Close(s[i], s[i + 1]);
    }
  }

  ghost predicate AscendingArgs(ns: seq<JustNode>)
  {
    forall i :: 0 <= i < |ns| - 1 ==> ns[i].arg + EPSILON <= ns[i + 1].arg
  }

  lemma {:induction false} AscendingDistinct(ns: seq<JustNode>, i: nat, j: nat)
    requires AscendingArgs(ns) && i < j < |ns|
    ensures ns[i].arg < ns[j].arg
    decreases j
  {
    assert ns[j - 1].arg + EPSILON <= ns[j - 1 + 1].arg;
    if i < j - 1 { AscendingDistinct(ns, i, j - 1); }
  }

  /** Setting k + 1 ascending nodes and computing gives the curve through exactly those nodes, of
      order k, and no other coefficient array does. */
  lemma CurveThroughFedNodes(nodes: seq<JustNode>, ns: seq<JustNode>, cs: Poly)
    requires 0 < |ns| <= |nodes| && AscendingArgs(ns)
    requires Computed(Feed(nodes, ns), cs)
    ensures Meets(cs, ns)
    ensures IsZero(cs[|ns|..])
    ensures forall ds: Poly :: |ds| == |cs| && Meets(ds, ns) && IsZero(ds[|ns|..])
              ==> ds == cs
  {
    AscendingApart(ns);
    FeedOrder(nodes, ns);
    assert Used(Feed(nodes, ns)) == ns;
    forall ds: Poly | |ds| == |cs| && Meets(ds, ns) && IsZero(ds[|ns|..])
      ensures ds == cs
    {
      CurveUnique(ns, cs, ds);
    }
  }

  lemma FedNodesMet(nodes: seq<JustNode>, ns: seq<JustNode>, cs: Poly)
    requires 0 < |ns| <= |nodes| && Computed(Feed(nodes, ns), cs)
    ensures AscendingArgs(ns) ==> forall i :: 0 <= i < |ns| ==> Eval(cs, ns[i].arg) == ns[i].corr
  {
    if AscendingArgs(ns) { CurveThroughFedNodes(nodes, ns, cs); }
  }

  lemma AscendingApart(ns: seq<JustNode>)
    requires AscendingArgs(ns)
    ensures DistinctArgs(ns)
    ensures forall i :: 0 <= i < |ns| - 1 ==> !Close(ns[i], ns[i + 1])
  {
    forall i, j | 0 <= i < j < |ns| ensures ns[i].arg != ns[j].arg { AscendingDistinct(ns, i, j); }
    forall i | 0 <= i < |ns| - 1 ensures !Close(ns[i], ns[i + 1]) {
      assert ns[i].arg + EPSILON <= ns[i + 1].arg;
    }
  }

  lemma CurveUnique(ns: seq<JustNode>, cs: Poly, ds: Poly)
    requires DistinctArgs(ns) && |ns| <= |cs| == |ds|
    requires Meets(cs, ns) && IsZero(cs[|ns|..])
    requires Meets(ds, ns) && IsZero(ds[|ns|..])
    ensures cs == ds
  {
    var n := |ns|;
    assert cs == cs[..n] + cs[n..] && ds == ds[..n] + ds[n..];
    PaddedMeets(cs[..n], cs[n..], ns);
    PaddedMeets(ds[..n], ds[n..], ns);
    SolutionUnique(cs[..n], ds[..n], ns);
  }

  /** A curve of the order in use that meets every node in use. */
  ghost predicate CurveFor(nodes: seq<JustNode>, cs: Poly)
    requires nodes != []
  {
    |cs| == |nodes| && IsZero(cs[|Used(nodes)|..]) && Meets(cs, Used(nodes))
  }

  lemma CurveFront(nodes: seq<JustNode>, cs: Poly)
    requires nodes != [] && CurveFor(nodes, cs)
    ensures Solves(cs[..|Used(nodes)|], Used(nodes))
  {
    var n := |Used(nodes)|;
    assert cs == cs[..n] + cs[n..];
    PaddedMeets(cs[..n], cs[n..], Used(nodes));
  }

  lemma CurvePadded(nodes: seq<JustNode>, q: Poly)
    requires nodes != [] && Solves(q, Used(nodes))
    ensures CurveFor(nodes, q + Filled(0.0, |nodes| - |q|))
  {
    PaddedMeets(q, Filled(0.0, |nodes| - |q|), Used(nodes));
  }

  ghost predicate OnlyCurve(nodes: seq<JustNode>, cs: Poly)
    requires nodes != []
  {
    CurveFor(nodes, cs) && forall ds :: CurveFor(nodes, ds) ==> ds == cs
  }

  lemma OnlyCurveDistinct(nodes: seq<JustNode>, cs: Poly)
    requires nodes != [] && OnlyCurve(nodes, cs)
    ensures DistinctArgs(Used(nodes))
  {
    var n := |Used(nodes)|;
    CurveFront(nodes, cs);
    forall q | Solves(q, Used(nodes)) ensures q == cs[..n] {
      CurvePadded(nodes, q);
      assert q == (q + Filled(0.0, |nodes| - n))[..n];
    }
    SolvableUniquelyIffDistinct(Used(nodes));
  }

  /** For any nodes there is one and only one such curve exactly when the nodes in use have pairwise
      distinct arguments; comparing neighbours does not guarantee that. */
  lemma CurveDeterminedIffDistinct(nodes: seq<JustNode>)
    requires nodes != []
    ensures DistinctArgs(Used(nodes)) <==> exists cs :: OnlyCurve(nodes, cs)
  {
    if DistinctArgs(Used(nodes)) {
      var cs := Newton(Used(nodes)) + Filled(0.0, |nodes| - |Used(nodes)|);
      NewtonSolves(Used(nodes));
      CurvePadded(nodes, Newton(Used(nodes)));
      forall ds | CurveFor(nodes, ds) ensures ds == cs { CurveUnique(Used(nodes), ds, cs); }
      assert OnlyCurve(nodes, cs);
    } else if cs :| OnlyCurve(nodes, cs) {
      OnlyCurveDistinct(nodes, cs);
    }
  }

  /** Three nodes that pass the neighbour test, of which no curve can meet all. */
  lemma NeighbourTestMissesRepeat(cs: Poly)
    ensures var nodes := [JustNode(1.0, 0.0), JustNode(2.0, 1.0), JustNode(3.0, 0.0)];
            RealOrder(nodes) == 2 && !Meets(cs, nodes)
  {
    var nodes := [JustNode(1.0, 0.0), JustNode(2.0, 1.0), JustNode(3.0, 0.0)];
    RealOrderIs(nodes, 2);
    assert nodes[0].arg == nodes[2].arg && nodes[0].corr != nodes[2].corr;
  }
}
