/** Which documents an import accepts, what it does not touch, and what the checksum element carries. */
module XmlGates {
  import opened Board
  import opened Decimal
  import opened JustText
  import opened VersionGate
  import opened XmlStore
  import opened Wrappers

  // ---------------------------------------------------------------- accepted and refused

  /** Every child of an Adjustment element is one of the two that have an owner. */
  predicate AllClaimed(kids: seq<Xml>)
  {
    forall k :: 0 <= k < |kids| ==> kids[k].Tag() == "Chksum" || kids[k].Tag() == "Sense"
  }

  /** The k-th element is no stumbling block. */
  ghost predicate Fits(info: SystemInfo, kids: seq<Xml>, k: nat, seen: Seen)
    requires k < |kids|
  {
    && kids[k].Elem?
    && (kids[k].tag == "SerialNumber" ==> kids[k].text == info.serialNumber)
    && (kids[k].tag == "VersionNumber" ==> kids[k].text == info.DeviceVersion())
    && (kids[k].tag == "Adjustment" ==> MatchedBefore(info, kids, k, seen) && AllClaimed(kids[k].kids))
  }

  ghost predicate AllFit(info: SystemInfo, kids: seq<Xml>, seen: Seen)
  {
    forall k :: 0 <= k < |kids| ==> Fits(info, kids, k, seen)
  }

  lemma {:induction false} ClaimedIff(st: State, kids: seq<Xml>)
    ensures AdjustmentKids(st, kids).0 == Accepted ==> AllClaimed(kids)
    ensures AdjustmentKids(st, kids).0 == Refused ==> !AllClaimed(kids)
    decreases |kids|
  {
    if kids != [] {
      var e, rest := kids[0], kids[1..];
      assert kids == [e] + rest;
      if e.Tag() == "Chksum" {
        ClaimedIff(st.(checksum := ReadChecksum(e.Text())), rest);
      } else if e.Tag() == "Sense" {
        ClaimedIff(st.(cal := SenseKids(st.cal, e.Kids()).cal), rest);
      }
    }
  }

  lemma {:induction false} TaggedLaterIff(e: Xml, rest: seq<Xml>, k: nat, tag: string)
    requires k <= |rest|
    ensures TaggedBefore([e] + rest, k + 1, tag) <==> e.Tag() == tag || TaggedBefore(rest, k, tag)
  {
    TaggedLater(e, rest, k, tag);
    var kids, m := [e] + rest, k + 1;
    if text :| CarriedBefore(kids, m, tag, text) { CarriedLater(e, rest, k, tag, text); }
  }

  lemma {:induction false} MatchedLaterIff(info: SystemInfo, e: Xml, rest: seq<Xml>, k: nat, seen: Seen)
    requires k <= |rest|
    requires e.Tag() == "SerialNumber" ==> e.Text() == info.serialNumber
    requires e.Tag() == "VersionNumber" ==> e.Text() == info.DeviceVersion()
    ensures MatchedBefore(info, [e] + rest, k + 1, seen) <==> MatchedBefore(info, rest, k, SeenAfter(seen, e))
  {
    CarriedLater(e, rest, k, "VersionNumber", info.DeviceVersion());
    CarriedLater(e, rest, k, "SerialNumber", info.serialNumber);
    TaggedLaterIff(e, rest, k, "Date");
    TaggedLaterIff(e, rest, k, "Time");
  }

  lemma {:induction false} FitsLater(info: SystemInfo, e: Xml, rest: seq<Xml>, seen: Seen)
    requires Fits(info, [e] + rest, 0, seen)
    ensures AllFit(info, [e] + rest, seen) <==> AllFit(info, rest, SeenAfter(seen, e))
  {
    var kids := [e] + rest;
    forall k: nat | k < |rest| ensures Fits(info, kids, k + 1, seen) <==> Fits(info, rest, k, SeenAfter(seen, e)) {
      assert kids[k + 1] == rest[k];
      MatchedLaterIff(info, e, rest, k, seen);
    }
    if AllFit(info, kids, seen) {
      forall k | 0 <= k < |rest| ensures Fits(info, rest, k, SeenAfter(seen, e)) {
        assert Fits(info, kids, k + 1, seen);
      }
    }
    if AllFit(info, rest, SeenAfter(seen, e)) {
      forall k | 0 <= k < |kids| ensures Fits(info, kids, k, seen) {
        if k > 0 { assert Fits(info, rest, k - 1, SeenAfter(seen, e)); }
      }
    }
  }

  lemma {:induction false} HeadFits(info: SystemInfo, e: Xml, rest: seq<Xml>, seen: Seen)
    ensures MatchedBefore(info, [e] + rest, 0, seen) <==> seen == Seen(true, true, true, true)
  {
  }

  /** Unless a fault ends it, an import is accepted exactly when no element of the document is in its way. */
  lemma {:induction false} RootDecided(info: SystemInfo, seen: Seen, st: State, kids: seq<Xml>)
    ensures RootKids(info, seen, st, kids).0 == Accepted ==> AllFit(info, kids, seen)
    ensures RootKids(info, seen, st, kids).0 == Refused ==> !AllFit(info, kids, seen)
    decreases |kids|
  {
    if kids != [] {
      var e, rest := kids[0], kids[1..];
      assert kids == [e] + rest;
      HeadFits(info, e, rest, seen);
      if Fits(info, kids, 0, seen) {
        FitsLater(info, e, rest, seen);
        if e.tag == "Adjustment" {
          var (v, after) := AdjustmentKids(st, e.kids);
          ClaimedIff(st, e.kids);
          RootDecided(info, seen, after, rest);
        } else {
          Step(info, seen, st, e, rest);
          RootDecided(info, SeenAfter(seen, e), st, rest);
        }
      } else if e.Tag() == "Adjustment" {
        ClaimedIff(st, e.kids);
      }
    }
  }

  /** A document that is read and has the right type, whose elements have no other version or serial number
      than the board's, and whose Adjustment elements all come after matching version and serial number, a
      date and a time, and have no child without an owner: such are accepted, and no others. Only a fault,
      which leaves the import without a verdict, comes between. */
  lemma {:induction false} ImportAcceptedIff(info: SystemInfo, doc: Option<Document>, st: State)
    ensures var v := ImportXml(info, doc, st).0;
            var good := doc.Some? && doc.value.docType == DOC_TYPE
                        && AllFit(info, doc.value.root, Seen(false, false, false, false));
            (v == Accepted ==> good) && (v == Refused ==> !good)
  {
    if doc.Some? && doc.value.docType == DOC_TYPE {
      RootDecided(info, Seen(false, false, false, false), st, doc.value.root);
    }
  }

  // ---------------------------------------------------------------- faults

  /** The range elements of a channel start with their names and come after the channel's. */
  predicate NamesFirst(kids: seq<Xml>)
  {
    kids != [] ==>
      && kids[0].Tag() == "Name"
      && forall k :: 0 <= k < |kids| && kids[k].Tag() == "Range" && kids[k].Kids() != [] ==>
           kids[k].Kids()[0].Tag() == "Name"
  }

  lemma {:induction false} RangeNoFault(cal: TextBoard, i: nat, rng: Ptr, kids: seq<Xml>)
    requires i < |cal| && (kids != [] && rng.Unset? ==> kids[0].Tag() == "Name")
    requires rng.At? ==> rng.index < |cal[i].ranges|
    ensures !RangeKids(cal, i, rng, kids).fault && |RangeKids(cal, i, rng, kids).cal| == |cal|
    decreases |kids|
  {
    if kids != [] {
      var e := kids[0];
      var at := if e.Tag() == "Name" then PtrOf(RangeIndex(cal[i].ranges, e.Text()), |cal[i].ranges|) else rng;
      if at.At? {
        RangeNoFault(Replaced(cal, i, at.index, DataKid(cal[i].ranges[at.index].just, e)), i, at, kids[1..]);
      } else {
        RangeNoFault(cal, i, at, kids[1..]);
      }
    }
  }

  lemma {:induction false} ChannelNoFault(cal: TextBoard, chn: Ptr, kids: seq<Xml>)
    requires kids != [] && chn.Unset? ==> kids[0].Tag() == "Name"
    requires chn.At? ==> chn.index < |cal|
    requires forall k :: 0 <= k < |kids| && kids[k].Tag() == "Range" && kids[k].Kids() != [] ==>
               kids[k].Kids()[0].Tag() == "Name"
    ensures !ChannelKids(cal, chn, kids).fault
    decreases |kids|
  {
    if kids != [] {
      var e, rest := kids[0], kids[1..];
      assert forall k :: 0 <= k < |rest| ==> rest[k] == kids[k + 1];
      if e.Tag() == "Name" {
        ChannelNoFault(cal, PtrOf(ChannelIndex(cal, e.Text()), |cal|), rest);
      } else if e.Tag() == "Range" && chn.At? {
        RangeNoFault(cal, chn.index, Unset, e.Kids());
        ChannelNoFault(RangeKids(cal, chn.index, Unset, e.Kids()).cal, chn, rest);
      } else {
        ChannelNoFault(cal, chn, rest);
      }
    }
  }

  /** Where names come first, as in every exported document, no pointer is followed that is not set. */
  lemma {:induction false} NamesFirstNoFault(cal: TextBoard, kids: seq<Xml>)
    requires forall k :: 0 <= k < |kids| ==> NamesFirst(kids[k].Kids())
    ensures !SenseKids(cal, kids).fault
    decreases |kids|
  {
    if kids != [] {
      assert NamesFirst(kids[0].Kids());
      ChannelNoFault(cal, Unset, kids[0].Kids());
      NamesFirstNoFault(ChannelKids(cal, Unset, kids[0].Kids()).cal, kids[1..]);
    }
  }

  /** A range element of a known channel that starts with anything but a name is a fault, and so is a range
      element ahead of its channel's name. */
  lemma {:induction false} NamelessFaults(cal: TextBoard, i: nat, e: Xml, rest: seq<Xml>)
    requires i < |cal| && e.Tag() == "Range"
    ensures e.Kids() != [] && e.Kids()[0].Tag() != "Name" ==> ChannelKids(cal, At(i), [e] + rest).fault
    ensures ChannelKids(cal, Unset, [e] + rest).fault
  {
  }

  // ---------------------------------------------------------------- what is not touched

  predicate NoName(kids: seq<Xml>) { forall k :: 0 <= k < |kids| ==> kids[k].Tag() != "Name" }

  lemma {:induction false} NullRange(cal: TextBoard, i: nat, kids: seq<Xml>)
    requires i < |cal| && NoName(kids)
    ensures RangeKids(cal, i, Null, kids) == Scan(cal, false)
    decreases |kids|
  {
    if kids != [] {
      assert NoName(kids[1..]);
      NullRange(cal, i, kids[1..]);
    }
  }

  /** A range element that names a range the channel does not have writes nothing. */
  lemma {:induction false} UnknownRangeSkipped(cal: TextBoard, i: nat, name: string, rest: seq<Xml>)
    requires i < |cal| && NoName(rest)
    requires forall j :: 0 <= j < |cal[i].ranges| ==> cal[i].ranges[j].name != name
    ensures RangeKids(cal, i, Unset, [Leaf("Name", name)] + rest) == Scan(cal, false)
  {
    assert ([Leaf("Name", name)] + rest)[1..] == rest;
    NullRange(cal, i, rest);
  }

  lemma {:induction false} NullChannel(cal: TextBoard, kids: seq<Xml>)
    requires NoName(kids)
    ensures ChannelKids(cal, Null, kids) == Scan(cal, false)
    decreases |kids|
  {
    if kids != [] {
      assert NoName(kids[1..]);
      NullChannel(cal, kids[1..]);
    }
  }

  /** A channel element that names a channel the board does not have writes nothing. */
  lemma {:induction false} UnknownChannelSkipped(cal: TextBoard, name: string, rest: seq<Xml>)
    requires NoName(rest) && forall i :: 0 <= i < |cal| ==> cal[i].name != name
    ensures ChannelKids(cal, Unset, [Leaf("Name", name)] + rest) == Scan(cal, false)
  {
    assert ([Leaf("Name", name)] + rest)[1..] == rest;
    NullChannel(cal, rest);
  }

  // ---------------------------------------------------------------- the checksum element

  predicate IsHexDigit(c: char) { '0' <= c <= '9' || 'a' <= c <= 'f' }

  function HexDigitValue(c: char): nat
    requires IsHexDigit(c)
  {
    if c <= '9' then c as int - '0' as int else c as int - 'a' as int + 10
  }

  predicate AllHex(s: string) { forall i :: 0 <= i < |s| ==> IsHexDigit(s[i]) }

  function HexValue(s: string): nat
    requires AllHex(s)
  {
    if s == "" then 0 else 16 * HexValue(s[..|s| - 1]) + HexDigitValue(s[|s| - 1])
  }

  lemma OneHexDigit(n: nat)
    requires n < 16
    ensures IsHexDigit("0123456789abcdef"[n]) && HexDigitValue("0123456789abcdef"[n]) == n
  {
  }

  /** The checksum is written in lower-case hexadecimal digits, without leading zeros. */
  lemma {:induction false} HexTextIs(n: nat)
    ensures AllHex(HexText(n)) && HexValue(HexText(n)) == n
    ensures HexText(n) != "" && (n > 0 ==> HexText(n)[0] != '0')
  {
    OneHexDigit(n % 16);
    var s := HexText(n);
    if n >= 16 {
      HexTextIs(n / 16);
      assert s[..|s| - 1] == HexText(n / 16);
    } else {
      assert s[..0] == "";
    }
  }

  /** A checksum written in decimal would come back, as far as 16 bits go. */
  lemma ChecksumRead(n: nat)
    ensures ReadChecksum(NatText(n)) == if n < 0x8000_0000 then n % 0x1_0000 else 0
  {
    NatTextParses(n);
  }

  // ---------------------------------------------------------------- what is exported

  /** The elements of an exported document, in order, and the texts of the first five. */
  lemma ExportedElements(info: SystemInfo, date: string, time: string, st: State, signedZero: bool)
    ensures var doc := ExportXml(info, date, time, st, signedZero);
            var root := doc.root;
            && doc.docType == "ADW5743AdjustmentData" && |root| == 6
            && Carries(root[0], "Type", "ADW5743")
            && Carries(root[1], "VersionNumber", info.DeviceVersion())
            && Carries(root[2], "SerialNumber", info.serialNumber)
            && Carries(root[3], "Date", date) && Carries(root[4], "Time", time)
            && root[5].Tag() == "Adjustment" && |root[5].Kids()| == 2
            && Carries(root[5].Kids()[0], "Chksum", "0x" + HexText(st.checksum))
            && root[5].Kids()[1].Tag() == "Sense" && |root[5].Kids()[1].Kids()| == |st.cal|
  {
  }
}
