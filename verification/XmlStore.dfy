/**
 The XML form of the calibration: a document that names the board, then a tree of channels, ranges and
 curves. The document is a tree of tagged elements; file access and parsing are not modelled.
 */
module XmlStore {
  import opened Board
  import opened JustText
  import opened Decimal
  import opened VersionGate
  import opened Wrappers

  const DOC_TYPE := "ADW5743AdjustmentData"
  const BOARD_NAME := "ADW5743"

  /** An element with its text and children, or a node that is no element. */
  datatype Xml = Elem(tag: string, text: string, kids: seq<Xml>) | Other
  {
    function Tag(): string { if Elem? then tag else "" }
    function Text(): string { if Elem? then text else "" }
    function Kids(): (ks: seq<Xml>)
      ensures forall k :: k in ks ==> k < this
    {
      if Elem? then kids else []
    }
  }

  datatype Document = Document(docType: string, root: seq<Xml>)

  datatype TextData = TextData(gain: Curve, phase: Curve, offset: Curve)
  type TextBoard = seq<Channel<TextData>>

  /** A pointer that the code sets only when it meets a Name element. */
  datatype Ptr = Unset | Null | At(index: nat)

  /** The calibration so far, and whether an unset pointer was followed. */
  datatype Scan = Scan(cal: TextBoard, fault: bool)

  // ---------------------------------------------------------------- import

  function CurveKid(c: Curve, e: Xml): Curve
  {
    if e.Tag() == "Status" then c.(status := ReadStatus(e.Text()))
    else if e.Tag() == "Coefficients" then c.(coefficients := ReadCoefficients(ORDER + 1, e.Text()))
    else if e.Tag() == "Nodes" then c.(nodes := ReadNodes(ORDER + 1, e.Text()))
    else c
  }

  function CurveKids(c: Curve, kids: seq<Xml>): Curve
    decreases |kids|
  {
    if kids == [] then c else CurveKids(CurveKid(c, kids[0]), kids[1..])
  }

  function DataKid(d: TextData, e: Xml): TextData
  {
    if e.Tag() == "Gain" then d.(gain := CurveKids(d.gain, e.Kids()))
    else if e.Tag() == "Phase" then d.(phase := CurveKids(d.phase, e.Kids()))
    else if e.Tag() == "Offset" then d.(offset := CurveKids(d.offset, e.Kids()))
    else d
  }

  function PtrOf(index: nat, count: nat): Ptr
  {
    if index < count then At(index) else Null
  }

  function RangeKids(cal: TextBoard, i: nat, rng: Ptr, kids: seq<Xml>): (s: Scan)
    requires i < |cal|
    decreases |kids|
  {
    if kids == [] then Scan(cal, false)
    else
      var e := kids[0];
      var rng' := if e.Tag() == "Name" then PtrOf(RangeIndex(cal[i].ranges, e.Text()), |cal[i].ranges|) else rng;
      match rng'
      case Unset => Scan(cal, true)
      case Null => RangeKids(cal, i, Null, kids[1..])
      case At(j) =>
        if j < |cal[i].ranges|
        then RangeKids(Replaced(cal, i, j, DataKid(cal[i].ranges[j].just, e)), i, rng', kids[1..])
        else Scan(cal, true)
  }

  function ChannelKids(cal: TextBoard, chn: Ptr, kids: seq<Xml>): (s: Scan)
    decreases |kids|
  {
    if kids == [] then Scan(cal, false)
    else
      var e := kids[0];
      if e.Tag() == "Name" then ChannelKids(cal, PtrOf(ChannelIndex(cal, e.Text()), |cal|), kids[1..])
      else if e.Tag() != "Range" then ChannelKids(cal, chn, kids[1..])
      else
        match chn
        case Unset => Scan(cal, true)
        case Null => ChannelKids(cal, chn, kids[1..])
        case At(i) =>
          if i < |cal| then
            var s := RangeKids(cal, i, Unset, e.Kids());
            if s.fault then s else ChannelKids(s.cal, chn, kids[1..])
          else Scan(cal, true)
  }

  function SenseKids(cal: TextBoard, kids: seq<Xml>): Scan
    decreases |kids|
  {
    if kids == [] then Scan(cal, false)
    else
      var s := ChannelKids(cal, Unset, kids[0].Kids());
      if s.fault then s else SenseKids(s.cal, kids[1..])
  }

  datatype Verdict = Accepted | Refused | Faulted
  datatype State = State(cal: TextBoard, checksum: nat)

  /** A decimal number of 16 bits; text that is not one reads as zero. */
  function ReadChecksum(s: string): nat
  {
    if s != "" && AllDigits(s) && ParseNat(s) < 0x8000_0000 then ParseNat(s) % 0x1_0000 else 0
  }

  function AdjustmentKids(st: State, kids: seq<Xml>): (Verdict, State)
    decreases |kids|
  {
    if kids == [] then (Accepted, st)
    else if kids[0].Tag() == "Chksum" then
      AdjustmentKids(st.(checksum := ReadChecksum(kids[0].Text())), kids[1..])
    else if kids[0].Tag() == "Sense" then
      var s := SenseKids(st.cal, kids[0].Kids());
      if s.fault then (Faulted, st.(cal := s.cal)) else AdjustmentKids(st.(cal := s.cal), kids[1..])
    else (Refused, st)
  }

  datatype Seen = Seen(version: bool, serial: bool, date: bool, time: bool)

  function RootKids(info: SystemInfo, seen: Seen, st: State, kids: seq<Xml>): (Verdict, State)
    decreases |kids|
  {
    if kids == [] then (Accepted, st)
    else
      var e := kids[0];
      if e.Other? then (Refused, st)
      else if e.tag == "SerialNumber" then
        if e.text == info.serialNumber then RootKids(info, seen.(serial := true), st, kids[1..]) else (Refused, st)
      else if e.tag == "VersionNumber" then
        if e.text == info.DeviceVersion() then RootKids(info, seen.(version := true), st, kids[1..]) else (Refused, st)
      else if e.tag == "Date" then RootKids(info, seen.(date := true), st, kids[1..])
      else if e.tag == "Time" then RootKids(info, seen.(time := true), st, kids[1..])
      else if e.tag == "Adjustment" then
        if seen == Seen(true, true, true, true) then
          var (v, st') := AdjustmentKids(st, e.kids);
          if v.Accepted? then RootKids(info, seen, st', kids[1..]) else (v, st')
        else (Refused, st)
      else RootKids(info, seen, st, kids[1..])
  }

  function ImportXml(info: SystemInfo, doc: Option<Document>, st: State): (Verdict, State)
  {
    if doc.None? || doc.value.docType != DOC_TYPE then (Refused, st)
    else RootKids(info, Seen(false, false, false, false), st, doc.value.root)
  }

  // ---------------------------------------------------------------- the object

  class XmlAdjustment {
    const info: SystemInfo
    var channels: TextBoard
    var checksum: nat

    constructor (info: SystemInfo, channels: TextBoard, checksum: nat)
      ensures this.info == info && this.channels == channels && this.checksum == checksum
    {
      this.info, this.channels, this.checksum := info, channels, checksum;
    }

    /** `doc` is what opening and parsing the file gave. */
    method ImportJDataXML(doc: Option<Document>) returns (verdict: Verdict)
      modifies this
      ensures (verdict, State(channels, checksum)) == ImportXml(info, doc, old(State(channels, checksum)))
    {
      if doc.None? { return Refused; }
      if doc.value.docType != DOC_TYPE { return Refused; }
      var root := doc.value.root;
      var versionOk, serialOk, dateOk, timeOk := false, false, false, false;
      var i := 0;
      while i < |root|
        invariant 0 <= i <= |root|
        invariant RootKids(info, Seen(versionOk, serialOk, dateOk, timeOk), State(channels, checksum), root[i..])
               == ImportXml(info, doc, old(State(channels, checksum)))
      {
        var e := root[i];
        if e.Other? { return Refused; }
        assert root[i..][1..] == root[i + 1..];
        if e.tag == "SerialNumber" {
          serialOk := e.text == info.serialNumber;
          if !serialOk { return Refused; }
        } else if e.tag == "VersionNumber" {
          versionOk := e.text == info.DeviceVersion();
          if !versionOk { return Refused; }
        } else if e.tag == "Date" {
          dateOk := true;
        } else if e.tag == "Time" {
          timeOk := true;
        } else if e.tag == "Adjustment" {
          if !(versionOk && serialOk && dateOk && timeOk) { return Refused; }
          verdict := ImportAdjustment(e.kids);
          if !verdict.Accepted? { return; }
        }
        i := i + 1;
      }
      return Accepted;
    }

    /** Every child must be claimed, by the checksum's owner or by the sense interface. */
    method ImportAdjustment(kids: seq<Xml>) returns (verdict: Verdict)
      modifies this
      ensures (verdict, State(channels, checksum)) == AdjustmentKids(old(State(channels, checksum)), kids)
    {
      var j := 0;
      while j < |kids|
        invariant 0 <= j <= |kids|
        invariant AdjustmentKids(State(channels, checksum), kids[j..])
               == AdjustmentKids(old(State(channels, checksum)), kids)
      {
        var n, done := kids[j], false;
        assert kids[j..][1..] == kids[j + 1..];
        if n.Tag() == "Chksum" {
          checksum := ReadChecksum(n.Text());
          done := true;
        }
        if n.Tag() == "Sense" {
          var s := SenseKids(channels, n.Kids());
          channels := s.cal;
          if s.fault { return Faulted; }
          done := true;
        }
        if !done { return Refused; }
        j := j + 1;
      }
      return Accepted;
    }
  }

  // ---------------------------------------------------------------- gating

  predicate Carries(e: Xml, tag: string, text: string) { e.Tag() == tag && e.Text() == text }

  /** An element with this tag and text stands among the first k. */
  ghost predicate CarriedBefore(kids: seq<Xml>, k: nat, tag: string, text: string)
    requires k <= |kids|
  {
    exists i :: 0 <= i < k && Carries(kids[i], tag, text)
  }

  ghost predicate TaggedBefore(kids: seq<Xml>, k: nat, tag: string)
    requires k <= |kids|
  {
    exists text :: CarriedBefore(kids, k, tag, text)
  }

  /** What is not seen yet stands among the first k elements. */
  ghost predicate MatchedBefore(info: SystemInfo, kids: seq<Xml>, k: nat, seen: Seen)
    requires k <= |kids|
  {
    && (seen.version || CarriedBefore(kids, k, "VersionNumber", info.DeviceVersion()))
    && (seen.serial || CarriedBefore(kids, k, "SerialNumber", info.serialNumber))
    && (seen.date || TaggedBefore(kids, k, "Date"))
    && (seen.time || TaggedBefore(kids, k, "Time"))
  }

  function SeenAfter(seen: Seen, e: Xml): Seen
  {
    if e.Tag() == "SerialNumber" then seen.(serial := true)
    else if e.Tag() == "VersionNumber" then seen.(version := true)
    else if e.Tag() == "Date" then seen.(date := true)
    else if e.Tag() == "Time" then seen.(time := true) else seen
  }

  lemma {:induction false} Step(info: SystemInfo, seen: Seen, st: State, e: Xml, rest: seq<Xml>)
    requires e.Elem? && e.tag != "Adjustment"
    requires e.tag == "SerialNumber" ==> e.text == info.serialNumber
    requires e.tag == "VersionNumber" ==> e.text == info.DeviceVersion()
    ensures RootKids(info, seen, st, [e] + rest) == RootKids(info, SeenAfter(seen, e), st, rest)
  {
    assert ([e] + rest)[1..] == rest;
  }

  /** The k-th element is the first Adjustment. */
  predicate FirstAdjustment(kids: seq<Xml>, k: nat)
  {
    k < |kids| && kids[k].Tag() == "Adjustment" && forall i :: 0 <= i < k ==> kids[i].Tag() != "Adjustment"
  }

  lemma {:induction false} ChangeIsGated(info: SystemInfo, seen: Seen, st: State, kids: seq<Xml>) returns (k: nat)
    requires kids != [] && RootKids(info, seen, st, kids).1 != st
    ensures FirstAdjustment(kids, k) && MatchedBefore(info, kids, k, seen)
    decreases |kids|
  {
    var e, rest := kids[0], kids[1..];
    assert kids == [e] + rest;
    if e.Tag() == "Adjustment" {
      HeadOpen(info, seen, st, e, rest);
      k := 0;
    } else {
      HeadPasses(info, seen, st, e, rest);
      k := ChangeIsGated(info, SeenAfter(seen, e), st, rest);
      MatchedLater(info, e, rest, k, seen);
      k := k + 1;
    }
  }

  lemma {:induction false} HeadOpen(info: SystemInfo, seen: Seen, st: State, e: Xml, rest: seq<Xml>)
    requires RootKids(info, seen, st, [e] + rest).1 != st && e.Tag() == "Adjustment"
    ensures MatchedBefore(info, [e] + rest, 0, seen)
  {
  }

  lemma {:induction false} HeadPasses(info: SystemInfo, seen: Seen, st: State, e: Xml, rest: seq<Xml>)
    requires RootKids(info, seen, st, [e] + rest).1 != st && e.Tag() != "Adjustment"
    ensures e.Tag() == "SerialNumber" ==> e.Text() == info.serialNumber
    ensures e.Tag() == "VersionNumber" ==> e.Text() == info.DeviceVersion()
    ensures rest != [] && RootKids(info, SeenAfter(seen, e), st, rest).1 != st
  {
    assert ([e] + rest)[1..] == rest;
  }

  lemma {:induction false} CarriedLater(e: Xml, rest: seq<Xml>, k: nat, tag: string, text: string)
    requires k <= |rest|
    ensures CarriedBefore([e] + rest, k + 1, tag, text) <==> Carries(e, tag, text) || CarriedBefore(rest, k, tag, text)
  {
    var kids := [e] + rest;
    assert kids[0] == e && forall i :: 0 <= i < k ==> kids[i + 1] == rest[i];
    if i :| 0 <= i < k && Carries(rest[i], tag, text) { assert Carries(kids[i + 1], tag, text); }
  }

  lemma {:induction false} TaggedLater(e: Xml, rest: seq<Xml>, k: nat, tag: string)
    requires k <= |rest|
    ensures e.Tag() == tag || TaggedBefore(rest, k, tag) ==> TaggedBefore([e] + rest, k + 1, tag)
  {
    if e.Tag() == tag {
      CarriedLater(e, rest, k, tag, e.Text());
    } else if text :| CarriedBefore(rest, k, tag, text) {
      CarriedLater(e, rest, k, tag, text);
    }
  }

  lemma {:induction false} MatchedLater(info: SystemInfo, e: Xml, rest: seq<Xml>, k: nat, seen: Seen)
    requires k <= |rest| && MatchedBefore(info, rest, k, SeenAfter(seen, e))
    requires e.Tag() == "SerialNumber" ==> e.Text() == info.serialNumber
    requires e.Tag() == "VersionNumber" ==> e.Text() == info.DeviceVersion()
    ensures MatchedBefore(info, [e] + rest, k + 1, seen)
  {
    CarriedLater(e, rest, k, "VersionNumber", info.DeviceVersion());
    CarriedLater(e, rest, k, "SerialNumber", info.serialNumber);
    TaggedLater(e, rest, k, "Date");
    TaggedLater(e, rest, k, "Time");
  }

  /** Only Adjustment elements change anything, and whenever an import changes anything, matching version
      and serial number, a date and a time all stand before the first of them. */
  lemma {:induction false} ImportIsGated(info: SystemInfo, doc: Option<Document>, st: State)
    ensures ImportXml(info, doc, st).1 != st ==>
              && doc.Some? && doc.value.docType == DOC_TYPE
              && exists k :: FirstAdjustment(doc.value.root, k)
                             && MatchedBefore(info, doc.value.root, k, Seen(false, false, false, false))
  {
    if ImportXml(info, doc, st).1 != st {
      assert doc.value.root != [];
      var k := ChangeIsGated(info, Seen(false, false, false, false), st, doc.value.root);
    }
  }

  // ---------------------------------------------------------------- export

  function Leaf(tag: string, text: string): Xml { Elem(tag, text, []) }

  function CurveElem(tag: string, c: Curve, signedZero: bool): Xml
  {
    var t := Written(c, signedZero);
    Elem(tag, "", [Leaf("Status", t.status), Leaf("Coefficients", t.coefficients), Leaf("Nodes", t.nodes)])
  }

  function RangeElem(r: Range<TextData>, signedZero: bool): Xml
  {
    Elem("Range", "", [Leaf("Name", r.name)] + [CurveElem("Gain", r.just.gain, signedZero),
                                                CurveElem("Phase", r.just.phase, signedZero),
                                                CurveElem("Offset", r.just.offset, signedZero)])
  }

  function RangeElems(rs: seq<Range<TextData>>, signedZero: bool): (es: seq<Xml>)
    ensures |es| == |rs| && forall j :: 0 <= j < |rs| ==> es[j] == RangeElem(rs[j], signedZero)
  {
    seq(|rs|, j requires 0 <= j < |rs| => RangeElem(rs[j], signedZero))
  }

  function ChannelElem(c: Channel<TextData>, signedZero: bool): Xml
  {
    Elem("Channel", "", [Leaf("Name", c.name)] + RangeElems(c.ranges, signedZero))
  }

  function ChannelElems(cal: TextBoard, signedZero: bool): (es: seq<Xml>)
    ensures |es| == |cal| && forall i :: 0 <= i < |cal| ==> es[i] == ChannelElem(cal[i], signedZero)
  {
    seq(|cal|, i requires 0 <= i < |cal| => ChannelElem(cal[i], signedZero))
  }

  function HexText(n: nat): string
  {
    if n < 16 then ["0123456789abcdef"[n]] else HexText(n / 16) + ["0123456789abcdef"[n % 16]]
  }

  function ExportXml(info: SystemInfo, date: string, time: string, st: State, signedZero: bool): Document
  {
    Document(DOC_TYPE, [
      Leaf("Type", BOARD_NAME), Leaf("VersionNumber", info.DeviceVersion()), Leaf("SerialNumber", info.serialNumber),
      Leaf("Date", date), Leaf("Time", time),
      Elem("Adjustment", "", [Leaf("Chksum", "0x" + HexText(st.checksum)),
                              Elem("Sense", "", ChannelElems(st.cal, signedZero))])])
  }

  // ---------------------------------------------------------------- round trip

  function RereadData(d: TextData, signedZero: bool): TextData
  {
    TextData(RereadCurve(d.gain, signedZero), RereadCurve(d.phase, signedZero), RereadCurve(d.offset, signedZero))
  }

  function RereadRanges(rs: seq<Range<TextData>>, signedZero: bool): (ss: seq<Range<TextData>>)
    ensures |ss| == |rs|
    ensures forall j :: 0 <= j < |rs| ==> ss[j] == Range(rs[j].name, RereadData(rs[j].just, signedZero))
  {
    seq(|rs|, j requires 0 <= j < |rs| => Range(rs[j].name, RereadData(rs[j].just, signedZero)))
  }

  /** The same board with every value reread on its own. */
  function RereadBoard(cal: TextBoard, signedZero: bool): (b: TextBoard)
    ensures |b| == |cal|
    ensures forall i :: 0 <= i < |cal| ==> b[i] == Channel(cal[i].name, RereadRanges(cal[i].ranges, signedZero))
  {
    seq(|cal|, i requires 0 <= i < |cal| => Channel(cal[i].name, RereadRanges(cal[i].ranges, signedZero)))
  }

  ghost predicate DataShaped(d: TextData)
  {
    Shaped(d.gain, ORDER) && Shaped(d.phase, ORDER) && Shaped(d.offset, ORDER)
  }

  ghost predicate BoardShaped(cal: TextBoard)
  {
    forall i :: 0 <= i < |cal| ==> forall j :: 0 <= j < |cal[i].ranges| ==> DataShaped(cal[i].ranges[j].just)
  }

  lemma {:induction false} CurveElemRead(tag: string, c0: Curve, c: Curve, signedZero: bool)
    requires Shaped(c, ORDER)
    ensures CurveKids(c0, CurveElem(tag, c, signedZero).Kids()) == RereadCurve(c, signedZero)
  {
    TextRoundTrip(c, ORDER, signedZero);
    ThreeKids(c0, Written(c, signedZero));
  }

  lemma {:induction false} ThreeKids(c0: Curve, t: CurveText)
    ensures CurveKids(c0, [Leaf("Status", t.status), Leaf("Coefficients", t.coefficients), Leaf("Nodes", t.nodes)])
         == ReadBack(ORDER, t)
  {
    var a, b, c := Leaf("Status", t.status), Leaf("Coefficients", t.coefficients), Leaf("Nodes", t.nodes);
    var c1 := CurveKid(c0, a);
    var c2 := CurveKid(c1, b);
    assert [a, b, c][1..] == [b, c] && [b, c][1..] == [c] && [c][1..] == [];
    assert CurveKids(c2, [c]) == CurveKid(c2, c);
  }

  lemma {:induction false} RangeElemRead(cal: TextBoard, i: nat, r: Range<TextData>, signedZero: bool)
    requires i < |cal| && RangeIndex(cal[i].ranges, r.name) < |cal[i].ranges| && DataShaped(r.just)
    ensures RangeKids(cal, i, Unset, RangeElem(r, signedZero).Kids())
         == Scan(Replaced(cal, i, RangeIndex(cal[i].ranges, r.name), RereadData(r.just, signedZero)), false)
  {
    var j := RangeIndex(cal[i].ranges, r.name);
    var d0 := cal[i].ranges[j].just;
    var g, p, o := CurveElem("Gain", r.just.gain, signedZero),
                   CurveElem("Phase", r.just.phase, signedZero), CurveElem("Offset", r.just.offset, signedZero);
    assert g.Tag() == "Gain" && p.Tag() == "Phase" && o.Tag() == "Offset";
    CurveElemRead("Gain", d0.gain, r.just.gain, signedZero);
    CurveElemRead("Phase", d0.phase, r.just.phase, signedZero);
    CurveElemRead("Offset", d0.offset, r.just.offset, signedZero);
    assert RangeElem(r, signedZero).Kids() == [Leaf("Name", r.name)] + [g, p, o];
    RangeKidsRead(cal, i, r.name, g, p, o, RereadData(r.just, signedZero));
  }

  lemma {:induction false} RangeKidsRead(cal: TextBoard, i: nat, name: string, g: Xml, p: Xml, o: Xml, d: TextData)
    requires i < |cal| && RangeIndex(cal[i].ranges, name) < |cal[i].ranges|
    requires g.Tag() == "Gain" && p.Tag() == "Phase" && o.Tag() == "Offset"
    requires var d0 := cal[i].ranges[RangeIndex(cal[i].ranges, name)].just;
             d == TextData(CurveKids(d0.gain, g.Kids()), CurveKids(d0.phase, p.Kids()), CurveKids(d0.offset, o.Kids()))
    ensures RangeKids(cal, i, Unset, [Leaf("Name", name)] + [g, p, o])
         == Scan(Replaced(cal, i, RangeIndex(cal[i].ranges, name), d), false)
  {
    NameKid(cal, i, name, [g, p, o]);
    FourKids(cal, i, RangeIndex(cal[i].ranges, name), g, p, o);
  }

  lemma {:induction false} NameKid(cal: TextBoard, i: nat, name: string, rest: seq<Xml>)
    requires i < |cal| && RangeIndex(cal[i].ranges, name) < |cal[i].ranges|
    ensures RangeKids(cal, i, Unset, [Leaf("Name", name)] + rest)
         == RangeKids(cal, i, At(RangeIndex(cal[i].ranges, name)), rest)
  {
    var j := RangeIndex(cal[i].ranges, name);
    var n := Leaf("Name", name);
    assert ([n] + rest)[1..] == rest;
    assert DataKid(cal[i].ranges[j].just, n) == cal[i].ranges[j].just;
    ReplacedTwice(cal, i, j, cal[i].ranges[j].just, cal[i].ranges[j].just);
  }

  lemma {:induction false} FourKids(cal: TextBoard, i: nat, j: nat, g: Xml, p: Xml, o: Xml)
    requires i < |cal| && j < |cal[i].ranges|
    requires g.Tag() == "Gain" && p.Tag() == "Phase" && o.Tag() == "Offset"
    ensures var d := cal[i].ranges[j].just;
            RangeKids(cal, i, At(j), [g, p, o]) ==
            Scan(Replaced(cal, i, j, TextData(CurveKids(d.gain, g.Kids()), CurveKids(d.phase, p.Kids()),
                                              CurveKids(d.offset, o.Kids()))), false)
  {
    var d := cal[i].ranges[j].just;
    KnownKid(cal, i, j, d, g, [p, o]);
    KnownKid(cal, i, j, DataKid(d, g), p, [o]);
    KnownKid(cal, i, j, DataKid(DataKid(d, g), p), o, []);
    assert [g] + [p, o] == [g, p, o] && [p] + [o] == [p, o] && [o] + [] == [o];
    ReplacedTwice(cal, i, j, d, d);
  }

  lemma {:induction false} ReplacedTwice(cal: TextBoard, i: nat, j: nat, d: TextData, e: TextData)
    requires i < |cal| && j < |cal[i].ranges|
    ensures Replaced(cal, i, j, cal[i].ranges[j].just) == cal
    ensures Replaced(Replaced(cal, i, j, d), i, j, e) == Replaced(cal, i, j, e)
  {
    var rs := cal[i].ranges;
    assert rs[j := rs[j].(just := rs[j].just)] == rs;
    assert rs[j := rs[j].(just := d)][j := rs[j].(just := e)] == rs[j := rs[j].(just := e)];
  }

  lemma {:induction false} KnownKid(cal: TextBoard, i: nat, j: nat, d: TextData, e: Xml, rest: seq<Xml>)
    requires i < |cal| && j < |cal[i].ranges| && e.Tag() != "Name"
    ensures RangeKids(Replaced(cal, i, j, d), i, At(j), [e] + rest)
         == RangeKids(Replaced(cal, i, j, DataKid(d, e)), i, At(j), rest)
  {
    var c := Replaced(cal, i, j, d);
    assert ([e] + rest)[1..] == rest;
    ReplacedTwice(cal, i, j, d, DataKid(d, e));
  }

  /** From range j of channel i on, the range elements complete the channel. */
  lemma {:induction false} RangesRead(mixed: TextBoard, cal: TextBoard, i: nat, j: nat, signedZero: bool)
    requires i < |cal| && j <= |cal[i].ranges| && DistinctNames(cal) && BoardShaped(cal)
    requires AgreeBefore(mixed, RereadBoard(cal, signedZero), i, j)
    ensures var s := ChannelKids(mixed, At(i), RangeElems(cal[i].ranges[j..], signedZero));
            !s.fault && AgreeBefore(s.cal, RereadBoard(cal, signedZero), i, |cal[i].ranges|)
    decreases |cal[i].ranges| - j
  {
    var rs := cal[i].ranges;
    if j < |rs| {
      var next := Replaced(mixed, i, j, RereadData(rs[j].just, signedZero));
      RangeStep(mixed, cal, i, j, signedZero);
      RangesRead(next, cal, i, j + 1, signedZero);
      FirstRange(rs, j, signedZero);
      RangeKid(mixed, i, RangeElem(rs[j], signedZero), RangeElems(rs[j + 1..], signedZero), next);
      assert ChannelKids(mixed, At(i), RangeElems(rs[j..], signedZero))
          == ChannelKids(next, At(i), RangeElems(rs[j + 1..], signedZero));
    } else {
      assert rs[j..] == [];
    }
  }

  lemma {:induction false} RangeStep(mixed: TextBoard, cal: TextBoard, i: nat, j: nat, signedZero: bool)
    requires i < |cal| && j < |cal[i].ranges| && DistinctNames(cal) && BoardShaped(cal)
    requires AgreeBefore(mixed, RereadBoard(cal, signedZero), i, j)
    ensures var next := Replaced(mixed, i, j, RereadData(cal[i].ranges[j].just, signedZero));
            && RangeKids(mixed, i, Unset, RangeElem(cal[i].ranges[j], signedZero).Kids()) == Scan(next, false)
            && AgreeBefore(next, RereadBoard(cal, signedZero), i, j + 1)
  {
    var r, goal := cal[i].ranges[j], RereadBoard(cal, signedZero);
    DataHits(mixed, goal, i, j);
    PositionOf(mixed, goal, i, j);
    assert goal[i].ranges[j] == Range(r.name, RereadData(r.just, signedZero));
    RangeElemRead(mixed, i, r, signedZero);
  }

  lemma {:induction false} FirstRange(rs: seq<Range<TextData>>, j: nat, signedZero: bool)
    requires j < |rs|
    ensures RangeElems(rs[j..], signedZero) == [RangeElem(rs[j], signedZero)] + RangeElems(rs[j + 1..], signedZero)
  {
    assert rs[j..][1..] == rs[j + 1..];
  }

  lemma {:induction false} RangeKid(cal: TextBoard, i: nat, e: Xml, rest: seq<Xml>, after: TextBoard)
    requires i < |cal| && e.Tag() == "Range" && RangeKids(cal, i, Unset, e.Kids()) == Scan(after, false)
    ensures ChannelKids(cal, At(i), [e] + rest) == ChannelKids(after, At(i), rest)
  {
    assert ([e] + rest)[1..] == rest;
  }

  lemma {:induction false} PositionOf(mixed: TextBoard, goal: TextBoard, i: nat, j: nat)
    requires i < |goal| && j < |goal[i].ranges| && DistinctNames(goal) && SameNames(mixed, goal)
    ensures ChannelIndex(mixed, goal[i].name) == i
    ensures RangeIndex(mixed[i].ranges, goal[i].ranges[j].name) == j
  {
    assert mixed[i].name == goal[i].name && mixed[i].ranges[j].name == goal[i].ranges[j].name;
  }

  lemma {:induction false} ChannelsRead(mixed: TextBoard, cal: TextBoard, i: nat, signedZero: bool)
    requires i <= |cal| && DistinctNames(cal) && BoardShaped(cal)
    requires AgreeBefore(mixed, RereadBoard(cal, signedZero), i, 0)
    ensures SenseKids(mixed, ChannelElems(cal[i..], signedZero)) == Scan(RereadBoard(cal, signedZero), false)
    decreases |cal| - i
  {
    var goal := RereadBoard(cal, signedZero);
    if i == |cal| {
      assert mixed == goal;
    } else {
      var es := ChannelElems(cal[i..], signedZero);
      assert cal[i..][1..] == cal[i + 1..];
      assert es[0] == ChannelElem(cal[i], signedZero) && es[1..] == ChannelElems(cal[i + 1..], signedZero);
      var s := ChannelKids(mixed, At(i), RangeElems(cal[i].ranges[0..], signedZero));
      RangesRead(mixed, cal, i, 0, signedZero);
      ChannelElemRead(mixed, cal, i, signedZero);
      ChannelComplete(s.cal, goal, i);
      if i + 1 < |cal| { assert s.cal[i + 1].ranges[..0] == goal[i + 1].ranges[..0]; }
      ChannelsRead(s.cal, cal, i + 1, signedZero);
    }
  }

  lemma {:induction false} ChannelElemRead(mixed: TextBoard, cal: TextBoard, i: nat, signedZero: bool)
    requires i < |cal| && DistinctNames(cal) && SameNames(mixed, RereadBoard(cal, signedZero))
    ensures ChannelKids(mixed, Unset, ChannelElem(cal[i], signedZero).Kids())
         == ChannelKids(mixed, At(i), RangeElems(cal[i].ranges[0..], signedZero))
  {
    var kids := ChannelElem(cal[i], signedZero).kids;
    assert kids[1..] == RangeElems(cal[i].ranges, signedZero) && cal[i].ranges[0..] == cal[i].ranges;
    assert mixed[i].name == cal[i].name;
    assert ChannelIndex(mixed, cal[i].name) == i;
  }

  /** Importing an exported document on the same board, into any state of the same channels and ranges,
      rereads every value in its place. The checksum comes back as zero: it is written in hexadecimal
      and read as a decimal number. */
  lemma {:induction false} XmlRoundTrip(info: SystemInfo, date: string, time: string, st: State, now: State,
                                        signedZero: bool)
    requires DistinctNames(st.cal) && BoardShaped(st.cal) && SameNames(now.cal, st.cal)
    ensures ImportXml(info, Some(ExportXml(info, date, time, st, signedZero)), now)
         == (Accepted, State(RereadBoard(st.cal, signedZero), 0))
  {
    var goal := RereadBoard(st.cal, signedZero);
    var chk, sense := Leaf("Chksum", "0x" + HexText(st.checksum)), Elem("Sense", "", ChannelElems(st.cal, signedZero));
    if st.cal != [] { assert now.cal[0].ranges[..0] == goal[0].ranges[..0]; }
    ChannelsRead(now.cal, st.cal, 0, signedZero);
    assert st.cal[0..] == st.cal;
    HexIsNoNumber(st.checksum);
    TwoKids(now, chk, sense);
    SixKids(info, now, Leaf("Type", BOARD_NAME), Leaf("VersionNumber", info.DeviceVersion()),
            Leaf("SerialNumber", info.serialNumber), Leaf("Date", date), Leaf("Time", time),
            Elem("Adjustment", "", [chk, sense]));
  }

  // ---------------------------------------------------------------- values on the grid

  ghost predicate DataOnGrid(d: TextData)
  {
    CurveOnGrid(d.gain) && CurveOnGrid(d.phase) && CurveOnGrid(d.offset)
  }

  ghost predicate BoardOnGrid(cal: TextBoard)
  {
    forall i, j :: 0 <= i < |cal| && 0 <= j < |cal[i].ranges| ==> DataOnGrid(cal[i].ranges[j].just)
  }

  lemma {:induction false} DataGridReread(d: TextData, signedZero: bool)
    requires DataOnGrid(d)
    ensures RereadData(d, signedZero) == d
  {
    CurveGridReread(d.gain, signedZero);
    CurveGridReread(d.phase, signedZero);
    CurveGridReread(d.offset, signedZero);
  }

  lemma {:induction false} BoardGridReread(cal: TextBoard, signedZero: bool)
    requires BoardOnGrid(cal)
    ensures RereadBoard(cal, signedZero) == cal
  {
    forall i | 0 <= i < |cal| ensures RereadRanges(cal[i].ranges, signedZero) == cal[i].ranges {
      var rs := cal[i].ranges;
      forall j | 0 <= j < |rs| ensures RereadData(rs[j].just, signedZero) == rs[j].just {
        DataGridReread(rs[j].just, signedZero);
      }
    }
  }

  /** For a calibration on the decimal grids, importing the exported document restores it exactly. */
  lemma {:induction false} XmlIdentityOnGrid(info: SystemInfo, date: string, time: string, st: State, now: State,
                                             signedZero: bool)
    requires DistinctNames(st.cal) && BoardShaped(st.cal) && SameNames(now.cal, st.cal) && BoardOnGrid(st.cal)
    ensures ImportXml(info, Some(ExportXml(info, date, time, st, signedZero)), now) == (Accepted, State(st.cal, 0))
  {
    XmlRoundTrip(info, date, time, st, now, signedZero);
    BoardGridReread(st.cal, signedZero);
  }

  // ---------------------------------------------------------------- the second export

  ghost predicate DataStable(d: TextData, signedZero: bool)
  {
    CurveStable(d.gain, signedZero) && CurveStable(d.phase, signedZero) && CurveStable(d.offset, signedZero)
  }

  ghost predicate RangesStable(rs: seq<Range<TextData>>, signedZero: bool)
  {
    forall j :: 0 <= j < |rs| ==> DataStable(rs[j].just, signedZero)
  }

  ghost predicate BoardStable(cal: TextBoard, signedZero: bool)
  {
    forall i :: 0 <= i < |cal| ==> RangesStable(cal[i].ranges, signedZero)
  }

  lemma {:induction false} CurveElemSame(tag: string, c: Curve, signedZero: bool)
    ensures CurveElem(tag, RereadCurve(c, signedZero), signedZero) == CurveElem(tag, c, signedZero)
       <==> CurveStable(c, signedZero)
  {
    SecondCoefficientsSame(c, signedZero);
    SecondNodesSame(c, signedZero);
    var e, f := CurveElem(tag, RereadCurve(c, signedZero), signedZero), CurveElem(tag, c, signedZero);
    assert e.kids[0] == f.kids[0];
    assert e == f <==> e.kids[1] == f.kids[1] && e.kids[2] == f.kids[2];
  }

  lemma {:induction false} RangeElemSame(r: Range<TextData>, signedZero: bool)
    ensures RangeElem(Range(r.name, RereadData(r.just, signedZero)), signedZero) == RangeElem(r, signedZero)
       <==> DataStable(r.just, signedZero)
  {
    CurveElemSame("Gain", r.just.gain, signedZero);
    CurveElemSame("Phase", r.just.phase, signedZero);
    CurveElemSame("Offset", r.just.offset, signedZero);
    var d := RereadData(r.just, signedZero);
    FourSame(Leaf("Name", r.name), CurveElem("Gain", d.gain, signedZero), CurveElem("Phase", d.phase, signedZero),
             CurveElem("Offset", d.offset, signedZero), CurveElem("Gain", r.just.gain, signedZero),
             CurveElem("Phase", r.just.phase, signedZero), CurveElem("Offset", r.just.offset, signedZero));
  }

  lemma {:induction false} FourSame(n: Xml, a: Xml, b: Xml, c: Xml, d: Xml, e: Xml, f: Xml)
    ensures Elem("Range", "", [n] + [a, b, c]) == Elem("Range", "", [n] + [d, e, f]) <==> a == d && b == e && c == f
  {
    var xs, ys := [n] + [a, b, c], [n] + [d, e, f];
    if xs == ys { assert xs[1] == ys[1] && xs[2] == ys[2] && xs[3] == ys[3]; }
  }

  lemma {:induction false} RangeElemsSame(rs: seq<Range<TextData>>, signedZero: bool)
    ensures RangeElems(RereadRanges(rs, signedZero), signedZero) == RangeElems(rs, signedZero)
       <==> RangesStable(rs, signedZero)
  {
    var es, fs := RangeElems(RereadRanges(rs, signedZero), signedZero), RangeElems(rs, signedZero);
    forall j | 0 <= j < |rs| ensures es[j] == fs[j] <==> DataStable(rs[j].just, signedZero) {
      RangeElemSame(rs[j], signedZero);
    }
  }

  lemma {:induction false} ChannelElemSame(c: Channel<TextData>, signedZero: bool)
    ensures ChannelElem(Channel(c.name, RereadRanges(c.ranges, signedZero)), signedZero) == ChannelElem(c, signedZero)
       <==> RangesStable(c.ranges, signedZero)
  {
    RangeElemsSame(c.ranges, signedZero);
    var e := ChannelElem(Channel(c.name, RereadRanges(c.ranges, signedZero)), signedZero);
    assert e.kids[1..] == RangeElems(RereadRanges(c.ranges, signedZero), signedZero);
    assert ChannelElem(c, signedZero).kids[1..] == RangeElems(c.ranges, signedZero);
  }

  lemma {:induction false} ChannelElemsSame(cal: TextBoard, signedZero: bool)
    ensures ChannelElems(RereadBoard(cal, signedZero), signedZero) == ChannelElems(cal, signedZero)
       <==> BoardStable(cal, signedZero)
  {
    var es, fs := ChannelElems(RereadBoard(cal, signedZero), signedZero), ChannelElems(cal, signedZero);
    forall i | 0 <= i < |cal| ensures es[i] == fs[i] <==> RangesStable(cal[i].ranges, signedZero) {
      ChannelElemSame(cal[i], signedZero);
    }
  }

  /** Exporting what an import of the first export left gives the same calibration elements again,
      exactly when no negative value anywhere on the board loses its sign by rounding to zero. */
  lemma {:induction false} SecondDocumentSameIff(info: SystemInfo, date: string, time: string, st: State, now: State,
                                                 signedZero: bool)
    requires DistinctNames(st.cal) && BoardShaped(st.cal) && SameNames(now.cal, st.cal)
    ensures var after := ImportXml(info, Some(ExportXml(info, date, time, st, signedZero)), now).1;
            ChannelElems(after.cal, signedZero) == ChannelElems(st.cal, signedZero) <==> BoardStable(st.cal, signedZero)
  {
    XmlRoundTrip(info, date, time, st, now, signedZero);
    ChannelElemsSame(st.cal, signedZero);
  }

  // ---------------------------------------------------------------- the parts of a document

  lemma {:induction false} HexIsNoNumber(n: nat)
    ensures ReadChecksum("0x" + HexText(n)) == 0
  {
    assert ("0x" + HexText(n))[1] == 'x';
  }

  lemma {:induction false} TwoKids(now: State, chk: Xml, sense: Xml)
    requires chk.Tag() == "Chksum" && sense.Tag() == "Sense" && !SenseKids(now.cal, sense.Kids()).fault
    ensures AdjustmentKids(now, [chk, sense])
         == (Accepted, State(SenseKids(now.cal, sense.Kids()).cal, ReadChecksum(chk.Text())))
  {
    assert [chk, sense][1..] == [sense] && [sense][1..] == [];
    var st1 := now.(checksum := ReadChecksum(chk.Text()));
    assert AdjustmentKids(now, [chk, sense]) == AdjustmentKids(st1, [sense]);
    var st2 := st1.(cal := SenseKids(now.cal, sense.Kids()).cal);
    assert AdjustmentKids(st1, [sense]) == AdjustmentKids(st2, []);
  }

  lemma {:induction false} SixKids(info: SystemInfo, st: State, a: Xml, b: Xml, c: Xml, d: Xml, e: Xml, f: Xml)
    requires a.Tag() == "Type" && b == Leaf("VersionNumber", info.DeviceVersion())
    requires c == Leaf("SerialNumber", info.serialNumber) && d.Tag() == "Date" && e.Tag() == "Time"
    requires f.Tag() == "Adjustment"
    ensures RootKids(info, Seen(false, false, false, false), st, [a, b, c, d, e, f]) == AdjustmentKids(st, f.Kids())
  {
    Step(info, Seen(true, true, true, false), st, e, [f]);
    Step(info, Seen(true, true, false, false), st, d, [e] + [f]);
    Step(info, Seen(true, false, false, false), st, c, [d] + ([e] + [f]));
    Step(info, Seen(false, false, false, false), st, b, [c] + ([d] + ([e] + [f])));
    Step(info, Seen(false, false, false, false), st, a, [b] + ([c] + ([d] + ([e] + [f]))));
    assert [a, b, c, d, e, f] == [a] + ([b] + ([c] + ([d] + ([e] + [f]))));
  }
}
