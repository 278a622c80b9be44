/**
 The device version text and the tolerant comparison of a stored version with it: the parts after the
 dots of the LCA and CTRL versions are overwritten, by text surgery, before the two are compared.
 */
module VersionGate {
  import opened QtText
  import opened QtArg
  import opened VersionPrint

  /** What the micro controller says about the board. */
  datatype SystemInfo = SystemInfo(deviceName: string, pcbVersion: string, lcaVersion: string, ctrlVersion: string,
                                   serialNumber: string)
  {
    function DeviceVersion(): string
    {
      Printed(deviceName, pcbVersion, lcaVersion, ctrlVersion)
    }

    /** The fields as they are, put together. */
    function FieldText(): string
    {
      VersionText(deviceName, pcbVersion, lcaVersion, ctrlVersion)
    }
  }

  /** Overwrites what follows the dot in field `index` of `stored` by what follows it in `device`. */
  function Grafted(stored: string, device: string, index: nat): string
  {
    var field := Section(stored, ';', index, index);
    var minor := "." + Section(field, '.', 1, 1);
    var minorHere := "." + Section(Section(device, ';', index, index), '.', 1, 1);
    ReplaceAll(stored, field, ReplaceAll(field, minor, minorHere))
  }

  predicate SameVersion(stored: string, device: string)
  {
    stored == device || Grafted(Grafted(stored, device, 2), device, 3) == device
  }

  // ---------------------------------------------------------------- versions with one dot

  /** A version number: what stands before and after its only dot. */
  datatype Dotted = Dotted(major: string, minor: string)
  {
    function Text(): string { major + "." + minor }
  }

  predicate Plain(s: string) { ':' !in s && ';' !in s }

  predicate PlainDotted(v: Dotted) { Plain(v.major) && Plain(v.minor) && '.' !in v.major && '.' !in v.minor }

  lemma MinorOf(tag: string, v: Dotted)
    requires '.' !in tag && PlainDotted(v)
    ensures Section(tag + v.Text(), '.', 1, 1) == v.minor
    ensures Section(tag + v.Text(), '.', 0, 0) == tag + v.major
  {
    var p := tag + v.major;
    assert tag + v.Text() == p + "." + v.minor;
    SplitField(p, '.', v.minor);
    SplitLast(v.minor, '.');
    SectionOfParts(tag + v.Text(), '.', [p, v.minor], 0);
    SectionOfParts(tag + v.Text(), '.', [p, v.minor], 1);
  }

  lemma DotReplaced(tag: string, v: Dotted, minor: string)
    requires '.' !in tag && PlainDotted(v)
    ensures ReplaceAll(tag + v.Text(), "." + v.minor, "." + minor) == tag + v.major + "." + minor
  {
    TextParts(tag, v.major, v.minor);
    TextParts(tag, v.major, minor);
    OnlyDot(tag + v.major, v.minor);
    ReplaceOnce(tag + v.major, "." + v.minor, "", "." + minor);
  }

  lemma TextParts(tag: string, major: string, minor: string)
    ensures tag + (major + "." + minor) == tag + major + ("." + minor) + ""
    ensures tag + major + "." + minor == tag + major + ("." + minor) + ""
  {
  }

  lemma OnlyDot(p: string, m: string)
    requires '.' !in p && '.' !in m
    ensures forall k: nat :: OccursAt(p + ("." + m) + "", "." + m, k) ==> k == |p|
  {
    forall k: nat | OccursAt(p + ("." + m) + "", "." + m, k) ensures k == |p| { DotPlace(p, m, k); }
  }

  lemma DotPlace(p: string, m: string, k: nat)
    requires '.' !in p && '.' !in m && OccursAt(p + ("." + m) + "", "." + m, k)
    ensures k == |p|
  {
    var s := p + ("." + m) + "";
    assert s[k..][0] == ("." + m)[0];
    assert s[k] == '.';
    assert forall j :: 0 <= j < |p| ==> s[j] == p[j];
    assert forall j :: |p| < j < |s| ==> s[j] == m[j - |p| - 1];
  }

  /** The only place of a label's colon: a colon preceded by that label's last letter. */
  ghost predicate ColonAfter(s: string, c: char, k: nat)
  {
    0 < k < |s| && s[k] == ':' && s[k - 1] == c
  }

  lemma LcaOccursOnce(device: string, pcb: string, lca: string, ctrl: string, k: nat)
    requires Plain(device) && Plain(pcb) && Plain(lca) && Plain(ctrl)
    requires OccursAt(VersionText(device, pcb, lca, ctrl), "LCA: " + lca, k)
    ensures k == |"DEVICE: " + device + ";PCB: " + pcb + ";"|
  {
    var s := VersionText(device, pcb, lca, ctrl);
    var pat := "LCA: " + lca;
    assert s[k..][2] == pat[2] && s[k..][3] == pat[3];
    assert ColonAfter(s, 'A', k + 3);
  }

  lemma CtrlOccursOnce(device: string, pcb: string, lca: string, ctrl: string, k: nat)
    requires Plain(device) && Plain(pcb) && Plain(lca) && Plain(ctrl)
    requires OccursAt(VersionText(device, pcb, lca, ctrl), "CTRL: " + ctrl, k)
    ensures k == |"DEVICE: " + device + ";PCB: " + pcb + ";LCA: " + lca + ";"|
  {
    var s := VersionText(device, pcb, lca, ctrl);
    var pat := "CTRL: " + ctrl;
    assert s[k..][3] == pat[3] && s[k..][4] == pat[4];
    assert ColonAfter(s, 'L', k + 4);
  }

  /** Grafting rewrites one field and nothing else, provided the field's text occurs only there. */
  lemma GraftField(p: string, tag: string, v: Dotted, q: string, device: string, w: Dotted, index: nat)
    requires '.' !in tag && PlainDotted(v) && PlainDotted(w)
    requires Section(p + (tag + v.Text()) + q, ';', index, index) == tag + v.Text()
    requires Section(device, ';', index, index) == tag + w.Text()
    requires forall k: nat :: OccursAt(p + (tag + v.Text()) + q, tag + v.Text(), k) ==> k == |p|
    ensures Grafted(p + (tag + v.Text()) + q, device, index) == p + (tag + v.major + "." + w.minor) + q
  {
    MinorOf(tag, v);
    MinorOf(tag, w);
    DotReplaced(tag, v, w.minor);
    ReplaceOnce(p, tag + v.Text(), q, tag + v.major + "." + w.minor);
  }

  lemma FieldOf(device: string, pcb: string, lca: string, ctrl: string)
    requires Plain(device) && Plain(pcb) && Plain(lca) && Plain(ctrl)
    ensures Section(VersionText(device, pcb, lca, ctrl), ';', 2, 2) == "LCA: " + lca
    ensures Section(VersionText(device, pcb, lca, ctrl), ';', 3, 3) == "CTRL: " + ctrl
  {
    var s := VersionText(device, pcb, lca, ctrl);
    VersionFields(device, pcb, lca, ctrl);
    SectionOfParts(s, ';', Split(s, ';'), 2);
    SectionOfParts(s, ';', Split(s, ';'), 3);
  }

  lemma GraftLca(device: string, pcb: string, lca: Dotted, ctrl: string, here: SystemInfo, lcaHere: Dotted)
    requires Plain(device) && Plain(pcb) && PlainDotted(lca) && Plain(ctrl)
    requires PlainFields(here) && PlainDotted(lcaHere) && here.lcaVersion == lcaHere.Text()
    ensures Grafted(VersionText(device, pcb, lca.Text(), ctrl), here.FieldText(), 2)
         == VersionText(device, pcb, lca.major + "." + lcaHere.minor, ctrl)
  {
    var s := VersionText(device, pcb, lca.Text(), ctrl);
    FieldOf(device, pcb, lca.Text(), ctrl);
    FieldOf(here.deviceName, here.pcbVersion, here.lcaVersion, here.ctrlVersion);
    var p, q := "DEVICE: " + device + ";PCB: " + pcb + ";", ";CTRL: " + ctrl;
    assert s == p + ("LCA: " + lca.Text()) + q;
    forall k: nat | OccursAt(s, "LCA: " + lca.Text(), k) ensures k == |p| {
      LcaOccursOnce(device, pcb, lca.Text(), ctrl, k);
    }
    GraftField(p, "LCA: ", lca, q, here.FieldText(), lcaHere, 2);
    assert p + ("LCA: " + lca.major + "." + lcaHere.minor) + q
        == VersionText(device, pcb, lca.major + "." + lcaHere.minor, ctrl);
  }

  lemma GraftCtrl(device: string, pcb: string, lca: string, ctrl: Dotted, here: SystemInfo, ctrlHere: Dotted)
    requires Plain(device) && Plain(pcb) && Plain(lca) && PlainDotted(ctrl)
    requires PlainFields(here) && PlainDotted(ctrlHere) && here.ctrlVersion == ctrlHere.Text()
    ensures Grafted(VersionText(device, pcb, lca, ctrl.Text()), here.FieldText(), 3)
         == VersionText(device, pcb, lca, ctrl.major + "." + ctrlHere.minor)
  {
    var s := VersionText(device, pcb, lca, ctrl.Text());
    FieldOf(device, pcb, lca, ctrl.Text());
    FieldOf(here.deviceName, here.pcbVersion, here.lcaVersion, here.ctrlVersion);
    var p := "DEVICE: " + device + ";PCB: " + pcb + ";LCA: " + lca + ";";
    assert s == p + ("CTRL: " + ctrl.Text()) + "";
    forall k: nat | OccursAt(s, "CTRL: " + ctrl.Text(), k) ensures k == |p| {
      CtrlOccursOnce(device, pcb, lca, ctrl.Text(), k);
    }
    GraftField(p, "CTRL: ", ctrl, "", here.FieldText(), ctrlHere, 3);
    assert p + ("CTRL: " + ctrl.major + "." + ctrlHere.minor) + ""
        == VersionText(device, pcb, lca, ctrl.major + "." + ctrlHere.minor);
  }

  /** Free of the separators. */
  predicate PlainFields(i: SystemInfo)
  {
    Plain(i.deviceName) && Plain(i.pcbVersion) && Plain(i.lcaVersion) && Plain(i.ctrlVersion)
  }

  lemma DottedInjective(m: string, n: string, minor: string)
    ensures m + "." + minor == n + "." + minor <==> m == n
  {
    if m + "." + minor == n + "." + minor {
      assert |m| == |n|;
      assert m == (m + "." + minor)[..|m|] && n == (n + "." + minor)[..|n|];
    }
  }

  /** On texts that show their fields as they are, the gate passes exactly when name, PCB version and both
      majors agree. */
  lemma TextsPassIff(stored: SystemInfo, lca: Dotted, ctrl: Dotted,
                      here: SystemInfo, lcaHere: Dotted, ctrlHere: Dotted)
    requires PlainFields(stored) && PlainDotted(lca) && PlainDotted(ctrl)
    requires stored.lcaVersion == lca.Text() && stored.ctrlVersion == ctrl.Text()
    requires PlainFields(here) && PlainDotted(lcaHere) && PlainDotted(ctrlHere)
    requires here.lcaVersion == lcaHere.Text() && here.ctrlVersion == ctrlHere.Text()
    ensures SameVersion(stored.FieldText(), here.FieldText()) <==>
              && stored.deviceName == here.deviceName
              && stored.pcbVersion == here.pcbVersion
              && lca.major == lcaHere.major
              && ctrl.major == ctrlHere.major
  {
    var l, c := lca.major + "." + lcaHere.minor, ctrl.major + "." + ctrlHere.minor;
    GraftLca(stored.deviceName, stored.pcbVersion, lca, stored.ctrlVersion, here, lcaHere);
    GraftCtrl(stored.deviceName, stored.pcbVersion, l, ctrl, here, ctrlHere);
    DottedInjective(lca.major, lcaHere.major, lcaHere.minor);
    DottedInjective(ctrl.major, ctrlHere.major, ctrlHere.minor);
    if VersionText(stored.deviceName, stored.pcbVersion, l, c) == here.FieldText() {
      VersionTextInjective(stored.deviceName, stored.pcbVersion, l, c,
                           here.deviceName, here.pcbVersion, here.lcaVersion, here.ctrlVersion);
    }
    if stored.FieldText() == here.FieldText() {
      VersionTextInjective(stored.deviceName, stored.pcbVersion, stored.lcaVersion, stored.ctrlVersion,
                           here.deviceName, here.pcbVersion, here.lcaVersion, here.ctrlVersion);
      MajorOf(lca, lcaHere);
      MajorOf(ctrl, ctrlHere);
    }
  }

  /** Free of the separators and, but for the last field, of markers: printed as they are. */
  predicate PlainInfo(i: SystemInfo)
  {
    PlainFields(i) && Inert(i.deviceName) && Inert(i.pcbVersion) && Inert(i.lcaVersion)
  }

  /** The gate passes exactly when name, PCB version and both majors agree; the minors may differ. */
  lemma GatePassesIff(stored: SystemInfo, lca: Dotted, ctrl: Dotted,
                      here: SystemInfo, lcaHere: Dotted, ctrlHere: Dotted)
    requires PlainInfo(stored) && PlainDotted(lca) && PlainDotted(ctrl)
    requires stored.lcaVersion == lca.Text() && stored.ctrlVersion == ctrl.Text()
    requires PlainInfo(here) && PlainDotted(lcaHere) && PlainDotted(ctrlHere)
    requires here.lcaVersion == lcaHere.Text() && here.ctrlVersion == ctrlHere.Text()
    ensures SameVersion(stored.DeviceVersion(), here.DeviceVersion()) <==>
              && stored.deviceName == here.deviceName
              && stored.pcbVersion == here.pcbVersion
              && lca.major == lcaHere.major
              && ctrl.major == ctrlHere.major
  {
    PrintedPlainly(stored.deviceName, stored.pcbVersion, stored.lcaVersion, stored.ctrlVersion);
    PrintedPlainly(here.deviceName, here.pcbVersion, here.lcaVersion, here.ctrlVersion);
    TextsPassIff(stored, lca, ctrl, here, lcaHere, ctrlHere);
  }

  /** Two boards that differ in the minor LCA version only, which the gate is there to tolerate, and have the
      PCB version "A%3": the gate refuses. */
  lemma MarkerRefused(device: string, lca: Dotted, ctrl: Dotted, minor: string, serial: string)
    requires Plain(device) && Inert(device) && PlainDotted(lca) && PlainDotted(ctrl) && minor != lca.minor
    requires PlainDotted(Dotted(lca.major, minor)) && Inert(lca.Text()) && Inert(Dotted(lca.major, minor).Text())
    ensures var stored := SystemInfo(device, "A%3", lca.Text(), ctrl.Text(), serial);
            var here := SystemInfo(device, "A%3", Dotted(lca.major, minor).Text(), ctrl.Text(), serial);
            !SameVersion(stored.DeviceVersion(), here.DeviceVersion())
  {
    var lcaHere := Dotted(lca.major, minor);
    var stored := SystemInfo(device, "A" + lca.Text(), lca.Text(), ctrl.Text(), serial);
    var here := SystemInfo(device, "A" + lcaHere.Text(), lcaHere.Text(), ctrl.Text(), serial);
    MarkerPrinted(device, lca.Text(), ctrl.Text());
    MarkerPrinted(device, lcaHere.Text(), ctrl.Text());
    TextsPassIff(stored, lca, ctrl, here, lcaHere, ctrl);
    assert stored.pcbVersion != here.pcbVersion by { TextsDiffer(lca.major, lca.minor, minor); }
  }

  lemma TextsDiffer(major: string, a: string, b: string)
    requires a != b
    ensures "A" + (major + "." + a) != "A" + (major + "." + b)
  {
    assert a == ("A" + (major + "." + a))[|major| + 2..];
    assert b == ("A" + (major + "." + b))[|major| + 2..];
  }

  lemma MajorOf(v: Dotted, w: Dotted)
    requires PlainDotted(v) && PlainDotted(w) && v.Text() == w.Text()
    ensures v.major == w.major
  {
    MinorOf("", v);
    MinorOf("", w);
    assert "" + v.Text() == "" + w.Text() && "" + v.major == v.major && "" + w.major == w.major;
  }
}
