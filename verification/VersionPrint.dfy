/**
 The printer of the device version text: a format string whose four place markers are filled in one after
 the other, so that a marker inside a field is filled in too.
 */
module VersionPrint {
  import opened QtText
  import opened QtArg

  /** The format has a marker in each field; they are filled in one after the other. */
  function Printed(device: string, pcb: string, lca: string, ctrl: string): string
  {
    Args(VersionText("%1", "%2", "%3", "%4"), [device, pcb, lca, ctrl])
  }

  /** The text with these four fields. */
  function VersionText(device: string, pcb: string, lca: string, ctrl: string): string
  {
    "DEVICE: " + device + ";PCB: " + pcb + ";LCA: " + lca + ";CTRL: " + ctrl
  }

  lemma FourFields(a: string, b: string, c: string, d: string)
    requires ';' !in a && ';' !in b && ';' !in c && ';' !in d
    ensures Split(a + ";" + (b + ";" + (c + ";" + d)), ';') == [a, b, c, d]
  {
    SplitField(a, ';', b + ";" + (c + ";" + d));
    SplitField(b, ';', c + ";" + d);
    SplitField(c, ';', d);
    SplitLast(d, ';');
  }

  lemma VersionFields(device: string, pcb: string, lca: string, ctrl: string)
    requires ';' !in device && ';' !in pcb && ';' !in lca && ';' !in ctrl
    ensures Split(VersionText(device, pcb, lca, ctrl), ';') ==
            ["DEVICE: " + device, "PCB: " + pcb, "LCA: " + lca, "CTRL: " + ctrl]
  {
    var a, b, c, d := "DEVICE: " + device, "PCB: " + pcb, "LCA: " + lca, "CTRL: " + ctrl;
    FourFields(a, b, c, d);
    assert VersionText(device, pcb, lca, ctrl) == a + ";" + (b + ";" + (c + ";" + d));
  }

  lemma VersionTextInjective(d1: string, p1: string, l1: string, c1: string,
                             d2: string, p2: string, l2: string, c2: string)
    requires ';' !in d1 && ';' !in p1 && ';' !in l1 && ';' !in c1
    requires ';' !in d2 && ';' !in p2 && ';' !in l2 && ';' !in c2
    requires VersionText(d1, p1, l1, c1) == VersionText(d2, p2, l2, c2)
    ensures d1 == d2 && p1 == p2 && l1 == l2 && c1 == c2
  {
    VersionFields(d1, p1, l1, c1);
    VersionFields(d2, p2, l2, c2);
    var f, g := Split(VersionText(d1, p1, l1, c1), ';'), Split(VersionText(d2, p2, l2, c2), ';');
    assert f[0] == g[0] && f[1] == g[1] && f[2] == g[2] && f[3] == g[3];
    assert d1 == f[0][8..] && d2 == g[0][8..] && p1 == f[1][5..] && p2 == g[1][5..];
    assert l1 == f[2][5..] && l2 == g[2][5..] && c1 == f[3][6..] && c2 == g[3][6..];
  }

  // ---------------------------------------------------------------- printing

  function Lowest4(d: string, p: string, l: string, c: string): (n: nat)
    ensures n <= NONE
  {
    Min(Lowest(d), Min(Lowest(p), Min(Lowest(l), Lowest(c))))
  }

  function TailText(p: string, l: string, c: string): string
  {
    ";PCB: " + p + (";LCA: " + l + (";CTRL: " + c))
  }

  lemma Nested(d: string, p: string, l: string, c: string)
    ensures VersionText(d, p, l, c) == "DEVICE: " + d + TailText(p, l, c)
  {
  }

  lemma TailFields(p: string, l: string, c: string, n: nat, a: string)
    requires n < NONE
    ensures Lowest(TailText(p, l, c)) == Min(Lowest(p), Min(Lowest(l), Lowest(c)))
    ensures Substituted(TailText(p, l, c), n, a)
         == TailText(Substituted(p, n, a), Substituted(l, n, a), Substituted(c, n, a))
  {
    LabelInFront(";CTRL: ", c, n, a);
    FieldByField(";LCA: ", l, ";CTRL: " + c, n, a);
    FieldByField(";PCB: ", p, ";LCA: " + l + (";CTRL: " + c), n, a);
  }

  lemma ArgOnNested(d: string, p: string, l: string, c: string, n: nat, a: string)
    requires n == Lowest4(d, p, l, c) < NONE
    ensures Arg("DEVICE: " + d + TailText(p, l, c), a) ==
            "DEVICE: " + Substituted(d, n, a)
            + TailText(Substituted(p, n, a), Substituted(l, n, a), Substituted(c, n, a))
  {
    TailFields(p, l, c, n, a);
    ArgFieldByField("DEVICE: ", d, TailText(p, l, c), n, a);
  }

  /** Filling in an argument fills in the fields, each on its own: the lowest marker of all four. */
  lemma ArgOnFields(d: string, p: string, l: string, c: string, n: nat, a: string)
    requires n == Lowest4(d, p, l, c) < NONE
    ensures Arg(VersionText(d, p, l, c), a)
         == VersionText(Substituted(d, n, a), Substituted(p, n, a), Substituted(l, n, a), Substituted(c, n, a))
  {
    ArgOnNested(d, p, l, c, n, a);
    Nested(d, p, l, c);
    Nested(Substituted(d, n, a), Substituted(p, n, a), Substituted(l, n, a), Substituted(c, n, a));
  }

  lemma FourArgs(f: string, d: string, p: string, l: string, c: string)
    ensures Args(f, [d, p, l, c]) == Arg(Arg(Arg(Arg(f, d), p), l), c)
  {
    assert [d, p, l, c][..3] == [d, p, l] && [d, p, l][..2] == [d, p] && [d, p][..1] == [d] && [d][..0] == [];
    assert Args(f, [d, p]) == Arg(Arg(Args(f, []), d), p);
    assert Args(f, [d, p, l]) == Arg(Args(f, [d, p]), l);
  }

  lemma FormatMarkers()
    ensures Lowest("%2") == 2 && Lowest("%3") == 3 && Lowest("%4") == 4
    ensures forall a :: Substituted("%2", 2, a) == a
    ensures forall a :: Substituted("%3", 3, a) == a
    ensures forall a :: Substituted("%4", 4, a) == a
  {
    OneMarker('2');
    OneMarker('3');
    OneMarker('4');
  }

  lemma FirstFilled(d: string)
    ensures Arg(VersionText("%1", "%2", "%3", "%4"), d) == VersionText(d, "%2", "%3", "%4")
  {
    OneMarker('1');
    FormatMarkers();
    ArgOnFields("%1", "%2", "%3", "%4", 1, d);
    Untouched("%2", 1, d);
    Untouched("%3", 1, d);
    Untouched("%4", 1, d);
  }

  /** The second argument goes to the PCB field, unless the device field has a marker below it. */
  lemma SecondFilled(d: string, p: string)
    ensures Arg(VersionText(d, "%2", "%3", "%4"), p) ==
            if Lowest(d) > 2 then VersionText(d, p, "%3", "%4")
            else VersionText(Substituted(d, Lowest(d), p), if Lowest(d) == 2 then p else "%2", "%3", "%4")
  {
    FormatMarkers();
    var n := Min(Lowest(d), 2);
    ArgOnFields(d, "%2", "%3", "%4", n, p);
    if n < Lowest(d) { Untouched(d, n, p); }
    if n < 2 { Untouched("%2", n, p); }
    Untouched("%3", n, p);
    Untouched("%4", n, p);
  }

  lemma ThirdFilled(d: string, p: string, l: string)
    ensures Lowest(d) > 3 && Lowest(p) > 3 ==> Arg(VersionText(d, p, "%3", "%4"), l) == VersionText(d, p, l, "%4")
  {
    FormatMarkers();
    if Lowest(d) > 3 && Lowest(p) > 3 {
      ArgOnFields(d, p, "%3", "%4", 3, l);
      Untouched(d, 3, l);
      Untouched(p, 3, l);
      Untouched("%4", 3, l);
    }
  }

  lemma FourthFilled(d: string, p: string, l: string, c: string)
    requires Inert(d) && Inert(p) && Inert(l)
    ensures Arg(VersionText(d, p, l, "%4"), c) == VersionText(d, p, l, c)
  {
    FormatMarkers();
    ArgOnFields(d, p, l, "%4", 4, c);
    Untouched(d, 4, c);
    Untouched(p, 4, c);
    Untouched(l, 4, c);
  }

  /** No marker that a later argument could fill in instead of the format's own. */
  predicate Inert(s: string) { Lowest(s) > 4 }

  /** Four inert fields are printed as they are; the last one may hold any markers. */
  lemma PrintedPlainly(d: string, p: string, l: string, c: string)
    requires Inert(d) && Inert(p) && Inert(l)
    ensures Printed(d, p, l, c) == VersionText(d, p, l, c)
  {
    FourArgs(VersionText("%1", "%2", "%3", "%4"), d, p, l, c);
    FirstFilled(d);
    SecondFilled(d, p);
    ThirdFilled(d, p, l);
    FourthFilled(d, p, l, c);
  }

  /** Equal printed texts come from equal fields. */
  lemma PrintedInjective(d1: string, p1: string, l1: string, c1: string,
                         d2: string, p2: string, l2: string, c2: string)
    requires ';' !in d1 && ';' !in p1 && ';' !in l1 && ';' !in c1 && Inert(d1) && Inert(p1) && Inert(l1)
    requires ';' !in d2 && ';' !in p2 && ';' !in l2 && ';' !in c2 && Inert(d2) && Inert(p2) && Inert(l2)
    requires Printed(d1, p1, l1, c1) == Printed(d2, p2, l2, c2)
    ensures d1 == d2 && p1 == p2 && l1 == l2 && c1 == c2
  {
    PrintedPlainly(d1, p1, l1, c1);
    PrintedPlainly(d2, p2, l2, c2);
    VersionTextInjective(d1, p1, l1, c1, d2, p2, l2, c2);
  }

  // ---------------------------------------------------------------- which fields must be inert

  /** Filling in an empty argument shortens every field that has the lowest marker, and no field grows. */
  lemma EmptyArg(d: string, p: string, l: string, c: string)
    returns (d': string, p': string, l': string, c': string)
    requires ';' !in d && ';' !in p && ';' !in l && ';' !in c
    ensures Arg(VersionText(d, p, l, c), "") == VersionText(d', p', l', c')
    ensures ';' !in d' && ';' !in p' && ';' !in l' && ';' !in c'
    ensures |d'| <= |d| && |p'| <= |p| && |l'| <= |l|
    ensures Lowest(d) == Lowest4(d, p, l, c) < NONE ==> |d'| < |d|
    ensures Lowest(p) == Lowest4(d, p, l, c) < NONE ==> |p'| < |p|
    ensures Lowest(l) == Lowest4(d, p, l, c) < NONE ==> |l'| < |l|
  {
    var n := Lowest4(d, p, l, c);
    if n == NONE {
      ArgOnNoField(d, p, l, c, "");
      d', p', l', c' := d, p, l, c;
    } else {
      ArgOnFields(d, p, l, c, n, "");
      d', p', l', c' := Substituted(d, n, ""), Substituted(p, n, ""), Substituted(l, n, ""), Substituted(c, n, "");
      Emptied(d, n);
      Emptied(p, n);
      Emptied(l, n);
      SubstitutedFree(d, n, "", ';');
      SubstitutedFree(p, n, "", ';');
      SubstitutedFree(l, n, "", ';');
      SubstitutedFree(c, n, "", ';');
    }
  }

  lemma ArgOnNoField(d: string, p: string, l: string, c: string, a: string)
    requires Lowest4(d, p, l, c) == NONE
    ensures Arg(VersionText(d, p, l, c), a) == VersionText(d, p, l, c)
  {
    TailFields(p, l, c, 0, a);
    FieldByField("DEVICE: ", d, TailText(p, l, c), 0, a);
    Nested(d, p, l, c);
  }

  lemma TwoEmptyArgs(d: string, p: string, l: string, c: string)
    returns (d': string, p': string, l': string, c': string)
    requires ';' !in d && ';' !in p && ';' !in l && ';' !in c
    ensures Arg(Arg(VersionText(d, p, l, c), ""), "") == VersionText(d', p', l', c')
    ensures ';' !in d' && ';' !in p' && ';' !in l' && ';' !in c'
    ensures |d'| <= |d| && |p'| <= |p|
    ensures Lowest(d) == Lowest4(d, p, l, c) < NONE ==> |d'| < |d|
    ensures Lowest(p) == Lowest4(d, p, l, c) < NONE ==> |p'| < |p|
  {
    var d1, p1, l1, c1 := EmptyArg(d, p, l, c);
    d', p', l', c' := EmptyArg(d1, p1, l1, c1);
  }

  /** With the other fields empty, a device field that is not inert is printed shorter than it is. */
  lemma DeviceCut(x: string) returns (d: string, p: string, l: string, c: string)
    requires ';' !in x && !Inert(x)
    ensures Printed(x, "", "", "") == VersionText(d, p, l, c) && |d| < |x|
    ensures ';' !in d && ';' !in p && ';' !in l && ';' !in c
  {
    FourArgs(VersionText("%1", "%2", "%3", "%4"), x, "", "", "");
    FormatMarkers();
    FirstFilled(x);
    if Lowest(x) <= 2 {
      d, p, l, c := EmptyArg(x, "%2", "%3", "%4");
      d, p, l, c := TwoEmptyArgs(d, p, l, c);
    } else {
      SecondFilled(x, "");
      ThirdFilled(x, "", "");
      if Lowest(x) == 3 { d, p, l, c := TwoEmptyArgs(x, "", "%3", "%4"); }
      else { d, p, l, c := EmptyArg(x, "", "", "%4"); }
    }
  }

  lemma PcbCut(x: string) returns (d: string, p: string, l: string, c: string)
    requires ';' !in x && !Inert(x)
    ensures Printed("", x, "", "") == VersionText(d, p, l, c) && |p| < |x|
    ensures ';' !in d && ';' !in p && ';' !in l && ';' !in c
  {
    FourArgs(VersionText("%1", "%2", "%3", "%4"), "", x, "", "");
    FormatMarkers();
    FirstFilled("");
    SecondFilled("", x);
    if Lowest(x) <= 3 {
      d, p, l, c := TwoEmptyArgs("", x, "%3", "%4");
    } else {
      ThirdFilled("", x, "");
      d, p, l, c := EmptyArg("", x, "", "%4");
    }
  }

  lemma LcaCut(x: string) returns (d: string, p: string, l: string, c: string)
    requires ';' !in x && !Inert(x)
    ensures Printed("", "", x, "") == VersionText(d, p, l, c) && |l| < |x|
    ensures ';' !in d && ';' !in p && ';' !in l && ';' !in c
  {
    FourArgs(VersionText("%1", "%2", "%3", "%4"), "", "", x, "");
    FormatMarkers();
    FirstFilled("");
    SecondFilled("", "");
    ThirdFilled("", "", x);
    d, p, l, c := EmptyArg("", "", x, "%4");
  }

  /** No weaker condition on a field alone would do: in the first, second and third field alike, a text is
      printed as it is next to empty fields exactly when it is inert. */
  lemma InertNeededIff(x: string)
    requires ';' !in x
    ensures Printed(x, "", "", "") == VersionText(x, "", "", "") <==> Inert(x)
    ensures Printed("", x, "", "") == VersionText("", x, "", "") <==> Inert(x)
    ensures Printed("", "", x, "") == VersionText("", "", x, "") <==> Inert(x)
  {
    if Inert(x) {
      PrintedPlainly(x, "", "", "");
      PrintedPlainly("", x, "", "");
      PrintedPlainly("", "", x, "");
    } else {
      var d, p, l, c := DeviceCut(x);
      if VersionText(d, p, l, c) == VersionText(x, "", "", "") { VersionTextInjective(d, p, l, c, x, "", "", ""); }
      d, p, l, c := PcbCut(x);
      if VersionText(d, p, l, c) == VersionText("", x, "", "") { VersionTextInjective(d, p, l, c, "", x, "", ""); }
      d, p, l, c := LcaCut(x);
      if VersionText(d, p, l, c) == VersionText("", "", x, "") { VersionTextInjective(d, p, l, c, "", "", x, ""); }
    }
  }

  // ---------------------------------------------------------------- what markers in fields do

  /** Different fields, one text: a first field "%1" steps aside for the second, and so on. */
  lemma PrintedAlike(p: string, l: string, c: string)
    requires Inert(p) && Inert(l) && Inert(c)
    ensures Printed("%1", p, l, c) == Printed(p, l, c, "%4")
  {
    FourArgs(VersionText("%1", "%2", "%3", "%4"), "%1", p, l, c);
    FirstFilled("%1");
    FirstFilled(p);
    SecondFilled(p, l);
    ThirdFilled(p, l, c);
    PrintedPlainly(p, l, c, "%4");
  }

  /** A PCB version "A%3" is printed with the LCA version in it. */
  lemma MarkerPrinted(d: string, l: string, c: string)
    requires Inert(d) && Inert(l)
    ensures Printed(d, "A%3", l, c) == VersionText(d, "A" + l, l, c)
  {
    FourArgs(VersionText("%1", "%2", "%3", "%4"), d, "A%3", l, c);
    FirstFilled(d);
    SecondFilled(d, "A%3");
    ThirdHeld(d, l);
    LabelInFront("A", l, 4, c);
    FourthFilled(d, "A" + l, l, c);
  }

  lemma ThirdHeld(d: string, l: string)
    requires Inert(d)
    ensures Arg(VersionText(d, "A%3", "%3", "%4"), l) == VersionText(d, "A" + l, l, "%4")
  {
    FormatMarkers();
    assert "A%3" == "A" + "%3";
    LabelInFront("A", "%3", 3, l);
    ArgOnFields(d, "A%3", "%3", "%4", 3, l);
    Untouched(d, 3, l);
    Untouched("%4", 3, l);
  }
}
