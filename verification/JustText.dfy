/**
 The text form of one correction curve: the status as a number, the coefficients with 12 decimals and
 the nodes with 8, every number followed by a semicolon and read back by field index.
 */
module JustText {
  import opened QtText
  import opened Decimal

  const COEFFICIENT_DIGITS: nat := 12
  const NODE_DIGITS: nat := 8

  datatype TextNode = TextNode(corr: Double, arg: Double)

  /** The text carried by the three elements of one curve. */
  datatype CurveText = CurveText(status: string, coefficients: string, nodes: string)

  /** The same three parts as values. */
  datatype Curve = Curve(status: nat, coefficients: seq<Double>, nodes: seq<TextNode>)

  // ---------------------------------------------------------------- writing

  function Tokens(xs: seq<Double>, d: nat, signedZero: bool): (ts: seq<string>)
    ensures |ts| == |xs| && forall i :: 0 <= i < |xs| ==> ts[i] == Fixed(xs[i], d, signedZero)
  {
    seq(|xs|, i requires 0 <= i < |xs| => Fixed(xs[i], d, signedZero))
  }

  /** Correction and argument of every node, in turn. */
  function Flattened(ns: seq<TextNode>): (xs: seq<Double>)
    ensures |xs| == 2 * |ns|
    ensures forall i :: 0 <= i < |ns| ==> xs[2 * i] == ns[i].corr && xs[2 * i + 1] == ns[i].arg
  {
    seq(2 * |ns|, i requires 0 <= i < 2 * |ns| => if i % 2 == 0 then ns[i / 2].corr else ns[i / 2].arg)
  }

  lemma TerminatedStep(ts: seq<string>, i: nat)
    requires i < |ts|
    ensures Terminated(ts[..i + 1], ';') == Terminated(ts[..i], ';') + (ts[i] + ";")
  {
    assert ts[..i + 1] == ts[..i] + [ts[i]];
    TerminatedAppend(ts[..i], ts[i], ';');
  }

  method SerializeCoefficients(coefficient: array<Double>, signedZero: bool) returns (s: string)
    ensures s == Terminated(Tokens(coefficient[..], COEFFICIENT_DIGITS, signedZero), ';')
  {
    s := "";
    ghost var ts := Tokens(coefficient[..], COEFFICIENT_DIGITS, signedZero);
    for i := 0 to coefficient.Length
      invariant s == Terminated(ts[..i], ';')
    {
      TerminatedStep(ts, i);
      s := s + (Fixed(coefficient[i], COEFFICIENT_DIGITS, signedZero) + ";");
    }
    assert ts[..coefficient.Length] == ts;
  }

  method SerializeNodes(node: array<TextNode>, signedZero: bool) returns (s: string)
    ensures s == Terminated(Tokens(Flattened(node[..]), NODE_DIGITS, signedZero), ';')
  {
    s := "";
    ghost var ts := Tokens(Flattened(node[..]), NODE_DIGITS, signedZero);
    for i := 0 to node.Length
      invariant s == Terminated(ts[..2 * i], ';')
    {
      TerminatedStep(ts, 2 * i);
      TerminatedStep(ts, 2 * i + 1);
      s := s + (Fixed(node[i].corr, NODE_DIGITS, signedZero) + ";");
      s := s + (Fixed(node[i].arg, NODE_DIGITS, signedZero) + ";");
    }
    assert ts[..2 * node.Length] == ts;
  }

  // ---------------------------------------------------------------- reading

  /** The first n fields, one by one. */
  function Fields(n: nat, s: string): (fs: seq<string>)
    ensures |fs| == n && forall i :: 0 <= i < n ==> fs[i] == Section(s, ';', i, i)
  {
    seq(n, i requires 0 <= i < n => Section(s, ';', i, i))
  }

  /** The first n pairs of fields, the two of a pair still joined. */
  function FieldPairs(n: nat, s: string): (fs: seq<string>)
    ensures |fs| == n && forall i :: 0 <= i < n ==> fs[i] == Section(s, ';', 2 * i, 2 * i + 1)
  {
    seq(n, i requires 0 <= i < n => Section(s, ';', 2 * i, 2 * i + 1))
  }

  function Doubles(fs: seq<string>): (xs: seq<Double>)
    ensures |xs| == |fs| && forall i :: 0 <= i < |fs| ==> xs[i] == ToDouble(fs[i])
  {
    seq(|fs|, i requires 0 <= i < |fs| => ToDouble(fs[i]))
  }

  /** A node reads its own two fields. */
  function ReadNode(s: string): TextNode
  {
    TextNode(ToDouble(Section(s, ';', 0, 0)), ToDouble(Section(s, ';', 1, 1)))
  }

  function NodesOf(fs: seq<string>): (ns: seq<TextNode>)
    ensures |ns| == |fs| && forall i :: 0 <= i < |fs| ==> ns[i] == ReadNode(fs[i])
  {
    seq(|fs|, i requires 0 <= i < |fs| => ReadNode(fs[i]))
  }

  function ReadCoefficients(n: nat, s: string): (xs: seq<Double>)
    ensures |xs| == n
  {
    Doubles(Fields(n, s))
  }

  function ReadNodes(n: nat, s: string): (ns: seq<TextNode>)
    ensures |ns| == n
  {
    NodesOf(FieldPairs(n, s))
  }

  /** The status keeps the low byte of the number read; anything but digits reads as zero. */
  function ReadStatus(s: string): nat
  {
    if s != "" && AllDigits(s) && ParseNat(s) < 0x8000_0000 then ParseNat(s) % 256 else 0
  }

  method DeserializeCoefficients(coefficient: array<Double>, s: string)
    modifies coefficient
    ensures coefficient[..] == ReadCoefficients(coefficient.Length, s)
  {
    for i := 0 to coefficient.Length
      invariant coefficient[..i] == ReadCoefficients(coefficient.Length, s)[..i]
    {
      coefficient[i] := ToDouble(Section(s, ';', i, i));
    }
  }

  method DeserializeNodes(node: array<TextNode>, s: string)
    modifies node
    ensures node[..] == ReadNodes(node.Length, s)
  {
    for i := 0 to node.Length
      invariant node[..i] == ReadNodes(node.Length, s)[..i]
    {
      node[i] := ReadNode(Section(s, ';', 2 * i, 2 * i + 1));
    }
  }

  // ---------------------------------------------------------------- round trip

  function Written(c: Curve, signedZero: bool): CurveText
  {
    CurveText(NatText(c.status),
              Terminated(Tokens(c.coefficients, COEFFICIENT_DIGITS, signedZero), ';'),
              Terminated(Tokens(Flattened(c.nodes), NODE_DIGITS, signedZero), ';'))
  }

  function ReadBack(order: nat, t: CurveText): (c: Curve)
    ensures |c.coefficients| == |c.nodes| == order + 1
  {
    Curve(ReadStatus(t.status), ReadCoefficients(order + 1, t.coefficients), ReadNodes(order + 1, t.nodes))
  }

  ghost predicate Shaped(c: Curve, order: nat)
  {
    c.status < 256 && |c.coefficients| == |c.nodes| == order + 1
  }

  function RereadAll(xs: seq<Double>, d: nat, signedZero: bool): (ys: seq<Double>)
    ensures |ys| == |xs| && forall i :: 0 <= i < |xs| ==> ys[i] == Reread(xs[i], d, signedZero)
  {
    seq(|xs|, i requires 0 <= i < |xs| => Reread(xs[i], d, signedZero))
  }

  function RereadNodes(ns: seq<TextNode>, d: nat, signedZero: bool): (ms: seq<TextNode>)
    ensures |ms| == |ns|
    ensures forall i :: 0 <= i < |ns| ==>
              ms[i] == TextNode(Reread(ns[i].corr, d, signedZero), Reread(ns[i].arg, d, signedZero))
  {
    seq(|ns|, i requires 0 <= i < |ns| =>
          TextNode(Reread(ns[i].corr, d, signedZero), Reread(ns[i].arg, d, signedZero)))
  }

  /** Every value of the curve reread on its own. */
  function RereadCurve(c: Curve, signedZero: bool): Curve
  {
    Curve(c.status, RereadAll(c.coefficients, COEFFICIENT_DIGITS, signedZero),
          RereadNodes(c.nodes, NODE_DIGITS, signedZero))
  }

  lemma CoefficientsReadBack(xs: seq<Double>, d: nat, signedZero: bool)
    ensures ReadCoefficients(|xs|, Terminated(Tokens(xs, d, signedZero), ';')) == RereadAll(xs, d, signedZero)
  {
    var ts := Tokens(xs, d, signedZero);
    FieldsAre(ts);
  }

  lemma FieldsAre(ts: seq<string>)
    requires forall t :: t in ts ==> Free(t, ';')
    ensures Fields(|ts|, Terminated(ts, ';')) == ts
  {
    forall i | 0 <= i < |ts| ensures Section(Terminated(ts, ';'), ';', i, i) == ts[i] {
      SectionTerminated(ts, ';', i);
    }
  }

  lemma FieldPairsAre(ts: seq<string>, n: nat)
    requires |ts| == 2 * n && forall t :: t in ts ==> Free(t, ';')
    ensures forall i :: 0 <= i < n ==> FieldPairs(n, Terminated(ts, ';'))[i] == ts[2 * i] + ";" + ts[2 * i + 1]
  {
    forall i | 0 <= i < n
      ensures Section(Terminated(ts, ';'), ';', 2 * i, 2 * i + 1) == ts[2 * i] + ";" + ts[2 * i + 1]
    {
      SectionTerminated(ts, ';', 2 * i);
    }
  }

  lemma NodesReadBack(ns: seq<TextNode>, d: nat, signedZero: bool)
    ensures ReadNodes(|ns|, Terminated(Tokens(Flattened(ns), d, signedZero), ';')) == RereadNodes(ns, d, signedZero)
  {
    var ts := Tokens(Flattened(ns), d, signedZero);
    var fs := FieldPairs(|ns|, Terminated(ts, ';'));
    FieldPairsAre(ts, |ns|);
    forall i | 0 <= i < |ns| ensures NodesOf(fs)[i] == RereadNodes(ns, d, signedZero)[i] {
      PairRead(ts[2 * i], ts[2 * i + 1]);
    }
  }

  lemma PairRead(a: string, b: string)
    requires Free(a, ';') && Free(b, ';')
    ensures ReadNode(a + ";" + b) == TextNode(ToDouble(a), ToDouble(b))
  {
    SplitField(a, ';', b);
    SplitLast(b, ';');
    SectionOfParts(a + ";" + b, ';', [a, b], 0);
    SectionOfParts(a + ";" + b, ';', [a, b], 1);
  }

  /** The fields come apart exactly as they were put together: importing an exported curve rereads each
      value on its own, in its own place. */
  lemma TextRoundTrip(c: Curve, order: nat, signedZero: bool)
    requires Shaped(c, order)
    ensures ReadBack(order, Written(c, signedZero)) == RereadCurve(c, signedZero)
  {
    StatusReadBack(c.status);
    CoefficientsReadBack(c.coefficients, COEFFICIENT_DIGITS, signedZero);
    NodesReadBack(c.nodes, NODE_DIGITS, signedZero);
  }

  lemma StatusReadBack(status: nat)
    requires status < 256
    ensures ReadStatus(NatText(status)) == status
  {
    NatTextParses(status);
  }

  /** The low byte of any number that fits a signed 32-bit integer; larger ones, and texts with anything
      but digits, read as zero. */
  lemma StatusRead(n: nat, s: string)
    ensures ReadStatus(NatText(n)) == if n < 0x8000_0000 then n % 256 else 0
    ensures s == "" || !AllDigits(s) ==> ReadStatus(s) == 0
  {
    NatTextParses(n);
  }

  predicate Stable(x: Double, d: nat, signedZero: bool)
  {
    signedZero || !(x.neg && x.mag > 0.0 && Units(x, d) == 0)
  }

  ghost predicate CoefficientsStable(xs: seq<Double>, d: nat, signedZero: bool)
  {
    forall x :: x in xs ==> Stable(x, d, signedZero)
  }

  ghost predicate NodesStable(ns: seq<TextNode>, d: nat, signedZero: bool)
  {
    forall n :: n in ns ==> Stable(n.corr, d, signedZero) && Stable(n.arg, d, signedZero)
  }

  ghost predicate CurveStable(c: Curve, signedZero: bool)
  {
    && CoefficientsStable(c.coefficients, COEFFICIENT_DIGITS, signedZero)
    && NodesStable(c.nodes, NODE_DIGITS, signedZero)
  }

  ghost predicate CurveOnGrid(c: Curve)
  {
    && (forall x :: x in c.coefficients ==> OnGrid(x, COEFFICIENT_DIGITS) && x != Signed(true, 0.0))
    && (forall n :: n in c.nodes ==> OnGrid(n.corr, NODE_DIGITS) && OnGrid(n.arg, NODE_DIGITS)
                                     && n.corr != Signed(true, 0.0) && n.arg != Signed(true, 0.0))
  }

  lemma CurveGridReread(c: Curve, signedZero: bool)
    requires CurveOnGrid(c)
    ensures RereadCurve(c, signedZero) == c
  {
    GridReread(c.coefficients, COEFFICIENT_DIGITS, signedZero);
    GridRereadNodes(c.nodes, NODE_DIGITS, signedZero);
  }

  /** Import after export is the identity on the decimal grids. */
  lemma TextRoundTripOnGrid(c: Curve, order: nat, signedZero: bool)
    requires Shaped(c, order) && CurveOnGrid(c)
    ensures ReadBack(order, Written(c, signedZero)) == c
  {
    TextRoundTrip(c, order, signedZero);
    CurveGridReread(c, signedZero);
  }

  lemma GridReread(xs: seq<Double>, d: nat, signedZero: bool)
    requires d > 0 && forall x :: x in xs ==> OnGrid(x, d) && x != Signed(true, 0.0)
    ensures RereadAll(xs, d, signedZero) == xs
  {
    forall i | 0 <= i < |xs| ensures Reread(xs[i], d, signedZero) == xs[i] {
      assert xs[i] in xs;
      GridValueReread(xs[i], d, signedZero);
    }
  }

  lemma GridRereadNodes(ns: seq<TextNode>, d: nat, signedZero: bool)
    requires d > 0
    requires forall n :: n in ns ==> OnGrid(n.corr, d) && OnGrid(n.arg, d)
                                     && n.corr != Signed(true, 0.0) && n.arg != Signed(true, 0.0)
    ensures RereadNodes(ns, d, signedZero) == ns
  {
    forall i | 0 <= i < |ns| ensures RereadNodes(ns, d, signedZero)[i] == ns[i] {
      assert ns[i] in ns;
      GridValueReread(ns[i].corr, d, signedZero);
      GridValueReread(ns[i].arg, d, signedZero);
    }
  }

  /** Exporting what was imported gives the same text again, exactly when no negative value loses its
      sign by rounding to zero. */
  lemma SecondExportSame(c: Curve, order: nat, signedZero: bool)
    requires Shaped(c, order)
    ensures Written(ReadBack(order, Written(c, signedZero)), signedZero) == Written(c, signedZero)
       <==> CurveStable(c, signedZero)
  {
    TextRoundTrip(c, order, signedZero);
    SecondCoefficientsSame(c, signedZero);
    SecondNodesSame(c, signedZero);
  }

  lemma SecondCoefficientsSame(c: Curve, signedZero: bool)
    ensures Written(RereadCurve(c, signedZero), signedZero).coefficients == Written(c, signedZero).coefficients
       <==> CoefficientsStable(c.coefficients, COEFFICIENT_DIGITS, signedZero)
  {
    TokensSameIff(c.coefficients, RereadAll(c.coefficients, COEFFICIENT_DIGITS, signedZero), COEFFICIENT_DIGITS,
                  signedZero);
  }

  lemma SecondNodesSame(c: Curve, signedZero: bool)
    ensures Written(RereadCurve(c, signedZero), signedZero).nodes == Written(c, signedZero).nodes
       <==> NodesStable(c.nodes, NODE_DIGITS, signedZero)
  {
    TokensSameIff(Flattened(c.nodes), Flattened(RereadNodes(c.nodes, NODE_DIGITS, signedZero)), NODE_DIGITS,
                  signedZero);
    FlattenedStable(c.nodes, NODE_DIGITS, signedZero);
  }

  lemma FlattenedStable(ns: seq<TextNode>, d: nat, signedZero: bool)
    ensures CoefficientsStable(Flattened(ns), d, signedZero)
       <==> NodesStable(ns, d, signedZero)
  {
    var xs := Flattened(ns);
    forall i | 0 <= i < |xs| ensures xs[i] == if i % 2 == 0 then ns[i / 2].corr else ns[i / 2].arg {}
    forall i | 0 <= i < |ns| ensures ns[i].corr in xs && ns[i].arg in xs {
      assert xs[2 * i] == ns[i].corr && xs[2 * i + 1] == ns[i].arg;
    }
  }

  lemma TerminatedInjective(ts: seq<string>, us: seq<string>)
    requires forall t :: t in ts ==> Free(t, ';')
    requires forall u :: u in us ==> Free(u, ';')
    ensures Terminated(ts, ';') == Terminated(us, ';') <==> ts == us
  {
    SplitTerminated(ts, ';');
    SplitTerminated(us, ';');
    if ts + [""] == us + [""] {
      assert ts == (ts + [""])[..|ts|] && us == (us + [""])[..|us|];
    }
  }

  lemma TokensSameIff(xs: seq<Double>, ys: seq<Double>, d: nat, signedZero: bool)
    requires d > 0 && |xs| == |ys|
    requires forall i :: 0 <= i < |xs| ==> ys[i] == Reread(xs[i], d, signedZero)
    ensures Terminated(Tokens(ys, d, signedZero), ';') == Terminated(Tokens(xs, d, signedZero), ';')
       <==> CoefficientsStable(xs, d, signedZero)
  {
    var ts, us := Tokens(xs, d, signedZero), Tokens(ys, d, signedZero);
    TerminatedInjective(us, ts);
    forall i | 0 <= i < |xs| ensures us[i] == ts[i] <==> Stable(xs[i], d, signedZero) {
      TokenSame(xs[i], d, signedZero);
    }
    if us == ts {
      forall x | x in xs ensures Stable(x, d, signedZero) {
        var i :| 0 <= i < |xs| && xs[i] == x;
        assert us[i] == ts[i];
      }
    }
  }

  lemma TokenSame(x: Double, d: nat, signedZero: bool)
    requires d > 0
    ensures Fixed(Reread(x, d, signedZero), d, signedZero) == Fixed(x, d, signedZero) <==> Stable(x, d, signedZero)
  {
    SecondTextSame(x, d, signedZero);
  }

  /** A curve whose second text differs: a negative coefficient too small for 12 decimals, written with a
      sign at first and without one afterwards, by a formatter that drops the sign of zeros. */
  lemma LostSign(order: nat) returns (c: Curve)
    ensures Shaped(c, order) && !CurveStable(c, false)
    ensures Written(ReadBack(order, Written(c, false)), false) != Written(c, false)
  {
    var tiny: Double := Signed(true, 0.1 / Pow10(COEFFICIENT_DIGITS) as real);
    c := Curve(0, seq(order + 1, _ => tiny), seq(order + 1, _ => TextNode(ZERO, ZERO)));
    assert Scaled(tiny.mag, COEFFICIENT_DIGITS) == 0.1;
    assert c.coefficients[0] == tiny && !Stable(tiny, COEFFICIENT_DIGITS, false);
    SecondExportSame(c, order, false);
  }
}
