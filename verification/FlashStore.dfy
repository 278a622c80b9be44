/**
 The flash image of the calibration: a length, a checksum over the image with the checksum field zero,
 texts that identify the board, and the record stream. Exporting and importing it is proved against a
 function of the flash contents, and what the two promise together is proved about that function.
 */
module FlashStore {
  import opened Board
  import opened DataStream
  import opened Utf8
  import opened QtText
  import opened Calibration
  import opened VersionGate
  import opened Wrappers
  import AdjStatus

  const MARKER := "ServerVersion"
  const SERVER_VERSION := "V1.00"
  const WRONG_VERSION: nat := 2
  const WRONG_SERIAL: nat := 4

  type Checksum = Bytes -> U16

  // ---------------------------------------------------------------- the image

  function Header(count: nat, sum: U16): (h: Bytes)
    ensures |h| == 6
  {
    U32Bytes(count) + U16Bytes(sum)
  }

  function CTexts(ts: seq<string>): Bytes
  {
    if ts == [] then [] else CText(ts[0]) + CTexts(ts[1..])
  }

  function IdTexts(info: SystemInfo, date: string): Bytes
  {
    CTexts([MARKER, SERVER_VERSION, info.deviceName, info.DeviceVersion(), info.serialNumber, date])
  }

  function Body(info: SystemInfo, date: string, cal: Calibration): Bytes
  {
    IdTexts(info, date) + RecordBytes(Records(cal))
  }

  /** The checksum field is zero while the checksum is taken. */
  function SumOf(crc: Checksum, body: Bytes): U16
  {
    crc(Header(6 + |body|, 0) + body)
  }

  function Image(crc: Checksum, body: Bytes): Bytes
  {
    Header(6 + |body|, SumOf(crc, body)) + body
  }

  // ---------------------------------------------------------------- the import as a function

  datatype Refusal = ReadError | TooLong | BadChecksum | NoServerVersion | WrongName | WrongVersion | WrongSerial
                   | StrangeRecord
  datatype Verdict = Accepted | Refused(why: Refusal) | Faulted
  datatype Import = Import(verdict: Verdict, cal: Calibration, checksum: U16, adjStatus: nat)

  /** What the chip driver reports for the two reads: how many bytes it delivered. */
  datatype Reads = Reads(head: int, all: int)

  function VerdictOf(o: Outcome): Verdict
  {
    match o
    case Done => Accepted
    case Strange => Refused(StrangeRecord)
    case Fault => Faulted
  }

  /** The identifying texts of an image, and the bytes after them. */
  datatype Texts = Texts(marker: string, name: string, version: string, serial: string, records: Bytes)

  function ReadTexts(bs: Bytes): Texts
  {
    var (marker, r1) := ReadText(bs);
    var (_, r2) := ReadText(r1);
    var (name, r3) := ReadText(r2);
    var (version, r4) := ReadText(r3);
    var (serial, r5) := ReadText(r4);
    var (_, r6) := ReadText(r5);
    Texts(marker, name, version, serial, r6)
  }

  datatype Gate = Open(adjStatus: nat) | Shut(why: Refusal, adjStatus: nat)

  /** Write access lets a wrong version or serial number pass, but not unnoticed. */
  function IdentityGate(info: SystemInfo, enable: bool, version: string, serial: string): Gate
  {
    var s1 := if SameVersion(version, info.DeviceVersion()) then 0 else WRONG_VERSION;
    if s1 != 0 && !enable then Shut(WrongVersion, s1)
    else if serial == info.serialNumber then Open(s1)
    else if enable then Open(s1 + WRONG_SERIAL)
    else Shut(WrongSerial, s1 + WRONG_SERIAL)
  }

  /** The checks on the texts, in the order they are read. */
  function GateOf(info: SystemInfo, enable: bool, t: Texts): Gate
  {
    if t.marker != MARKER then Shut(NoServerVersion, 0)
    else if t.name != info.deviceName then Shut(WrongName, 0)
    else IdentityGate(info, enable, t.version, t.serial)
  }

  function ImportTexts(gate: Gate, cal: Calibration, sum: U16, records: Bytes): Import
  {
    match gate
    case Shut(why, s) => Import(Refused(why), cal, sum, s)
    case Open(s) =>
      var (outcome, cal') := ImportRecords(cal, records);
      Import(VerdictOf(outcome), cal', sum, s)
  }

  /** The checks up to the checksum: the stored sum, and either a refusal or the bytes after the header. */
  datatype Summed = Summed(sum: U16, refusal: Option<Refusal>, rest: Bytes)

  function CheckSum(crc: Checksum, flash: Bytes, chip: Reads, oldSum: U16): Summed
    requires |flash| >= 6
  {
    if chip.head < 6 then Summed(oldSum, Some(ReadError), []) else
    var (count, r) := ReadU32(flash[..6]);
    var sum := ReadU16(r).0;
    if count > |flash| then Summed(sum, Some(TooLong), []) else
    if count != chip.all then Summed(sum, Some(ReadError), []) else
    var zeroed := Zeroed(flash[..count]);
    if crc(zeroed) != sum then Summed(sum, Some(BadChecksum), []) else Summed(sum, None, zeroed[6..])
  }

  function ImportFlash(crc: Checksum, info: SystemInfo, enable: bool, flash: Bytes, chip: Reads,
                       cal: Calibration, oldSum: U16): Import
    requires |flash| >= 6
  {
    var s := CheckSum(crc, flash, chip, oldSum);
    if s.refusal.Some? then Import(Refused(s.refusal.value), cal, s.sum, 0)
    else
      var t := ReadTexts(s.rest);
      ImportTexts(GateOf(info, enable, t), cal, s.sum, t.records)
  }

  /** A header with a zero checksum overwrites the first six bytes; a shorter image grows to six. */
  function Zeroed(data: Bytes): (z: Bytes)
    ensures |z| >= 6
  {
    Header(|data|, 0) + if |data| > 6 then data[6..] else []
  }

  // ---------------------------------------------------------------- the object

  class Adjustment {
    const crc: Checksum
    const info: SystemInfo
    var channels: Calibration
    var flash: Bytes
    var checksum: U16
    var adjStatus: nat

    ghost predicate Valid()
      reads this
    {
      6 <= |flash| < 0x8000_0000
    }

    constructor (crc: Checksum, info: SystemInfo, channels: Calibration, flash: Bytes)
      requires 6 <= |flash| < 0x8000_0000
      ensures Valid() && this.crc == crc && this.info == info && this.channels == channels && this.flash == flash
      ensures adjStatus == 0 && checksum == 0
    {
      this.crc, this.info, this.channels, this.flash := crc, info, channels, flash;
      checksum, adjStatus := 0, 0;
    }

    method GetAdjustmentStatus() returns (ret: nat)
      ensures ret == AdjStatus.Reported(channels, adjStatus)
    {
      var sense := AdjStatus.GetSenseStatus(channels);
      var stat := AdjStatus.BitAnd(255, sense);
      ret := adjStatus;
      if AdjStatus.BitAnd(stat, AdjStatus.JUSTIFIED) == 0 {
        ret := ret + AdjStatus.NOT_ADJUSTED;
      }
    }

    method GetChannel(name: string) returns (i: nat)
      ensures i == ChannelIndex(channels, name)
    {
      i := 0;
      while i < |channels| && channels[i].name != name
        invariant i <= |channels| && forall j :: 0 <= j < i ==> channels[j].name != name
      {
        i := i + 1;
      }
    }

    method GetRange(channel: nat, name: string) returns (j: nat)
      requires channel < |channels|
      ensures j == RangeIndex(channels[channel].ranges, name)
    {
      var ranges := channels[channel].ranges;
      j := 0;
      while j < |ranges| && ranges[j].name != name
        invariant j <= |ranges| && forall k :: 0 <= k < j ==> ranges[k].name != name
      {
        j := j + 1;
      }
    }

    /** Appends one record per range of every channel. */
    method ExportAdjData(stream: Bytes) returns (out: Bytes)
      ensures out == stream + RecordBytes(Records(channels))
    {
      out := stream;
      var i := 0;
      while i < |channels|
        invariant 0 <= i <= |channels|
        invariant out + RecordBytes(RecordsFrom(channels, i, 0)) == stream + RecordBytes(Records(channels))
      {
        out := ExportRanges(i, out);
        i := i + 1;
      }
    }

    /** The inner loop, over the ranges of channel i. */
    method ExportRanges(i: nat, stream: Bytes) returns (out: Bytes)
      requires i < |channels|
      ensures out + RecordBytes(RecordsFrom(channels, i + 1, 0)) == stream + RecordBytes(RecordsFrom(channels, i, 0))
    {
      out := stream;
      var list := channels[i].ranges;
      var j := 0;
      while j < |list|
        invariant 0 <= j <= |list|
        invariant out + RecordBytes(RecordsFrom(channels, i, j)) == stream + RecordBytes(RecordsFrom(channels, i, 0))
      {
        RecordInFront(channels, i, j, out);
        out := out + TagAndPayload(Record(channels[i].name, list[j].name, list[j].just));
        j := j + 1;
      }
    }

    /** Takes one record's payload off the stream when the tag is a sense tag. */
    method ImportAdjData(tag: string, stream: Bytes) returns (claim: Claim, rest: Bytes)
      modifies this`channels
      ensures claim == ClaimOf(old(channels), tag)
      ensures rest == if claim.Known? || claim.Unknown? then ReadPayload(stream).1 else stream
      ensures channels == if claim.Known?
                          then Replaced(old(channels), claim.channel, claim.range, ReadPayload(stream).0)
                          else old(channels)
    {
      var spec := Split(tag, ':');
      if spec[0] == "SENSE" {
        if |spec| < 2 { return Malformed, stream; }
        var i := GetChannel(spec[1]);
        if i < |channels| {
          if |spec| < 3 { return Malformed, stream; }
          var j := GetRange(i, spec[2]);
          if j < |channels[i].ranges| {
            var (d, r) := ReadPayload(stream);
            var ranges := channels[i].ranges;
            channels := channels[i := channels[i].(ranges := ranges[j := ranges[j].(just := d)])];
            return Known(i, j), r;
          }
        }
        return Unknown, ReadPayload(stream).1;
      }
      return NotOurs, stream;
    }

    method ImportJDataFlash(enable: bool, chip: Reads) returns (verdict: Verdict)
      requires Valid()
      modifies this`channels, this`checksum, this`adjStatus
      ensures Import(verdict, channels, checksum, adjStatus)
           == ImportFlash(crc, info, enable, flash, chip, old(channels), old(checksum))
    {
      adjStatus := 0;
      if 6 - chip.head > 0 { return Refused(ReadError); }
      var (count, r) := ReadU32(flash[..6]);
      checksum := ReadU16(r).0;
      if count > |flash| { return Refused(TooLong); }
      if count != chip.all { return Refused(ReadError); }
      var data := Zeroed(flash[..count]);
      if crc(data) != checksum { return Refused(BadChecksum); }
      verdict := ImportGated(enable, data[6..]);
    }

    /** The part of the import that follows the checksum. */
    method ImportGated(enable: bool, stream: Bytes) returns (verdict: Verdict)
      requires adjStatus == 0
      modifies this`channels, this`adjStatus
      ensures Import(verdict, channels, checksum, adjStatus)
           == ImportTexts(GateOf(info, enable, ReadTexts(stream)), old(channels), checksum, ReadTexts(stream).records)
    {
      var (marker, r1) := ReadText(stream);
      if marker != MARKER { return Refused(NoServerVersion); }
      var (_, r2) := ReadText(r1);
      var (name, r3) := ReadText(r2);
      if name != info.deviceName { return Refused(WrongName); }
      var (version, r4) := ReadText(r3);
      verdict := ImportIdentified(enable, version, r4);
    }

    /** Version, serial number and date, then the records. */
    method ImportIdentified(enable: bool, version: string, stream: Bytes) returns (verdict: Verdict)
      requires adjStatus == 0
      modifies this`channels, this`adjStatus
      ensures Import(verdict, channels, checksum, adjStatus)
           == ImportTexts(IdentityGate(info, enable, version, ReadText(stream).0), old(channels), checksum,
                          ReadText(ReadText(stream).1).1)
    {
      if !SameVersion(version, info.DeviceVersion()) {
        adjStatus := adjStatus + WRONG_VERSION;
        if !enable { return Refused(WrongVersion); }
      }
      var (serial, r5) := ReadText(stream);
      if serial != info.serialNumber {
        adjStatus := adjStatus + WRONG_SERIAL;
        if !enable { return Refused(WrongSerial); }
      }
      var (_, r6) := ReadText(r5);
      verdict := ImportLoop(r6);
    }

    /** The record loop: every iteration leaves fewer bytes. */
    method ImportLoop(stream: Bytes) returns (verdict: Verdict)
      modifies this`channels
      ensures (verdict, channels) == (VerdictOf(ImportRecords(old(channels), stream).0),
                                      ImportRecords(old(channels), stream).1)
    {
      var rest := stream;
      while rest != []
        invariant ImportRecords(channels, rest) == ImportRecords(old(channels), stream)
        decreases |rest|
      {
        var (s, r1) := ReadText(rest);
        var claim, r2 := ImportAdjData(s, r1);
        if claim.Malformed? { return Faulted; }
        if claim.NotOurs? { return Refused(StrangeRecord); }
        rest := r2;
      }
      return Accepted;
    }

    /** The header gets its length first; the image is summed in that form and the sum goes in last. */
    method Seal(stream: Bytes) returns (image: Bytes)
      requires |stream| >= 6
      modifies this`checksum
      ensures image == Image(crc, stream[6..]) && checksum == SumOf(crc, stream[6..])
    {
      var count := |stream|;
      image := Header(count, 0) + stream[6..];
      checksum := crc(image);
      image := Header(count, checksum) + stream[6..];
    }

    method BuildImage(date: string) returns (image: Bytes)
      modifies this`checksum
      ensures image == Image(crc, Body(info, date, channels)) && checksum == SumOf(crc, Body(info, date, channels))
    {
      var head: Bytes := [0, 0, 0, 0, 0, 0];
      var texts := IdTexts(info, date);
      var stream := ExportAdjData(head + texts);
      HeaderInFront(head, texts, RecordBytes(Records(channels)));
      image := Seal(stream);
    }

    /** Writes the image and reads it back in. `written` is what the chip reports; when that is not the
        whole image, the chip is left with `garbled`. */
    method ExportJDataFlash(date: string, enable: bool, written: int, garbled: Bytes, chip: Reads) returns (ok: bool)
      requires Valid() && |garbled| == |flash|
      modifies this
      ensures Valid()
      ensures ok == (written == |Image(crc, Body(info, date, old(channels)))| <= |old(flash)|)
      ensures !ok ==> channels == old(channels) && adjStatus == old(adjStatus) && flash == garbled
                      && checksum == SumOf(crc, Body(info, date, old(channels)))
      ensures ok ==> flash == Image(crc, Body(info, date, old(channels))) + old(flash)[written..]
      ensures ok && chip == Reads(6, written) && Exportable(info, old(channels))
              ==> channels == old(channels) && adjStatus == 0
                  && checksum == SumOf(crc, Body(info, date, old(channels)))
    {
      var image := BuildImage(date);
      ok := Write(image, written, garbled);
      if ok { ReadBack(image, date, enable, chip); }
    }

    method Write(image: Bytes, written: int, garbled: Bytes) returns (ok: bool)
      requires Valid() && |garbled| == |flash|
      modifies this`flash
      ensures Valid() && ok == (written == |image| <= |old(flash)|)
      ensures flash == if ok then image + old(flash)[written..] else garbled
    {
      ok := written == |image| <= |flash|;
      flash := if ok then image + flash[|image|..] else garbled;
    }

    /** Reads in what has just been written. */
    method ReadBack(ghost image: Bytes, ghost date: string, enable: bool, chip: Reads)
      requires Valid() && image == Image(crc, Body(info, date, channels)) && image <= flash
      modifies this`channels, this`checksum, this`adjStatus
      ensures Valid()
      ensures chip == Reads(6, |image|) && Exportable(info, old(channels)) ==>
                channels == old(channels) && adjStatus == 0 && checksum == SumOf(crc, Body(info, date, old(channels)))
    {
      ghost var before, sum := channels, checksum;
      var _ := ImportJDataFlash(enable, chip);
      if chip == Reads(6, |image|) && Exportable(info, before) {
        FlashRoundTrip(crc, info, date, before, before, flash, enable, sum);
      }
    }
  }

  lemma HeaderInFront(h: Bytes, a: Bytes, b: Bytes)
    requires |h| == 6
    ensures (h + a + b)[6..] == a + b && |h + a + b| == 6 + |a + b|
  {
  }

  lemma RecordInFront(cal: Calibration, i: nat, j: nat, out: Bytes)
    requires i < |cal| && j < |cal[i].ranges|
    ensures out + RecordBytes(RecordsFrom(cal, i, j)) ==
            out + TagAndPayload(Record(cal[i].name, cal[i].ranges[j].name, cal[i].ranges[j].just))
            + RecordBytes(RecordsFrom(cal, i, j + 1))
  {
    assert RecordsFrom(cal, i, j)[1..] == RecordsFrom(cal, i, j + 1);
  }

  // ---------------------------------------------------------------- what export and import promise together

  /** Identifying texts that a C string can hold, and names that are distinct and survive in a tag. */
  ghost predicate Exportable(info: SystemInfo, cal: Calibration)
  {
    && Storable(info.deviceName) && Storable(info.DeviceVersion()) && Storable(info.serialNumber)
    && GoodNames(cal)
  }

  /** The header rebuilt at import, with a zero checksum, is byte for byte the one summed at export. */
  lemma HeaderRebuilt(crc: Checksum, body: Bytes, flash: Bytes)
    requires Image(crc, body) <= flash && |flash| < 0x8000_0000
    ensures ReadU32(flash[..6]).0 == 6 + |body|
    ensures ReadU16(ReadU32(flash[..6]).1).0 == SumOf(crc, body)
    ensures Zeroed(flash[..6 + |body|]) == Header(6 + |body|, 0) + body
  {
    var n := 6 + |body|;
    var image := Image(crc, body);
    var sum := U16Bytes(SumOf(crc, body));
    assert |image| == n && flash[..n] == image && flash[..6] == image[..6];
    assert image[..6] == Header(n, SumOf(crc, body)) == U32Bytes(n) + sum;
    U32Read(n, sum);
    U16Read(SumOf(crc, body), []);
    assert sum + [] == sum;
    assert image[6..] == body;
  }

  lemma SumFound(crc: Checksum, body: Bytes, flash: Bytes, oldSum: U16)
    requires Image(crc, body) <= flash && |flash| < 0x8000_0000
    ensures CheckSum(crc, flash, Reads(6, |Image(crc, body)|), oldSum) == Summed(SumOf(crc, body), None, body)
  {
    HeaderRebuilt(crc, body, flash);
    assert (Header(6 + |body|, 0) + body)[6..] == body;
  }

  lemma FirstTextRead(t: string, ts: seq<string>, rest: Bytes)
    requires |CTexts([t] + ts)| < 0x1_0000_0000
    ensures ReadText(CTexts([t] + ts) + rest) == (Kept(t), CTexts(ts) + rest)
    ensures |CTexts(ts)| < 0x1_0000_0000
  {
    assert ([t] + ts)[1..] == ts;
    assert CTexts([t] + ts) + rest == CText(t) + (CTexts(ts) + rest);
    CTextRead(t, CTexts(ts) + rest);
  }

  lemma SixTextsRead(a: string, b: string, c: string, d: string, e: string, f: string, rest: Bytes)
    requires |CTexts([a, b, c, d, e, f])| < 0x1_0000_0000
    ensures ReadTexts(CTexts([a, b, c, d, e, f]) + rest) == Texts(Kept(a), Kept(c), Kept(d), Kept(e), rest)
  {
    assert [a, b, c, d, e, f] == [a] + [b, c, d, e, f] && [b, c, d, e, f] == [b] + [c, d, e, f];
    assert [c, d, e, f] == [c] + [d, e, f] && [d, e, f] == [d] + [e, f] && [e, f] == [e] + [f] && [f] == [f] + [];
    FirstTextRead(a, [b, c, d, e, f], rest);
    FirstTextRead(b, [c, d, e, f], rest);
    FirstTextRead(c, [d, e, f], rest);
    FirstTextRead(d, [e, f], rest);
    FirstTextRead(e, [f], rest);
    FirstTextRead(f, [], rest);
    assert CTexts([]) + rest == rest;
  }

  /** The texts of an exported image as they are read: each as far as a C string holds it. */
  function KeptTexts(info: SystemInfo, cal: Calibration): Texts
  {
    Texts(MARKER, Kept(info.deviceName), Kept(info.DeviceVersion()), Kept(info.serialNumber),
          RecordBytes(Records(cal)))
  }

  lemma MarkerKept()
    ensures Kept(MARKER) == MARKER
  {
    KeptIff(MARKER);
  }

  lemma TextsRead(info: SystemInfo, date: string, cal: Calibration)
    requires |IdTexts(info, date)| < 0x1_0000_0000
    ensures ReadTexts(Body(info, date, cal)) == KeptTexts(info, cal)
  {
    SixTextsRead(MARKER, SERVER_VERSION, info.deviceName, info.DeviceVersion(), info.serialNumber, date,
                 RecordBytes(Records(cal)));
    MarkerKept();
  }

  /** What any board, `here`, makes of an image another board, or the same, exported: the checks see the
      exporting board's texts as far as C strings hold them, and the records restore exactly the exported
      calibration. */
  lemma ImageImported(crc: Checksum, from: SystemInfo, date: string, cal: Calibration, here: SystemInfo,
                      now: Calibration, flash: Bytes, enable: bool, oldSum: U16)
    requires GoodNames(cal) && SameNames(now, cal)
    requires Image(crc, Body(from, date, cal)) <= flash && |flash| < 0x8000_0000
    ensures var sum := SumOf(crc, Body(from, date, cal));
            ImportFlash(crc, here, enable, flash, Reads(6, |Image(crc, Body(from, date, cal))|), now, oldSum)
            == match GateOf(here, enable, KeptTexts(from, cal))
               case Open(s) => Import(Accepted, cal, sum, s)
               case Shut(why, s) => Import(Refused(why), now, sum, s)
  {
    BodyFits(crc, from, date, cal, flash);
    SumFound(crc, Body(from, date, cal), flash, oldSum);
    TextsRead(from, date, cal);
    RecordRoundTrip(cal, now);
  }

  lemma BodyFits(crc: Checksum, info: SystemInfo, date: string, cal: Calibration, flash: Bytes)
    requires Image(crc, Body(info, date, cal)) <= flash && |flash| < 0x8000_0000
    ensures |IdTexts(info, date)| < 0x8000_0000 && |RecordBytes(Records(cal))| < 0x8000_0000
  {
    assert |Body(info, date, cal)| == |IdTexts(info, date)| + |RecordBytes(Records(cal))|;
  }

  lemma StorableKept(info: SystemInfo, cal: Calibration)
    requires Exportable(info, cal)
    ensures KeptTexts(info, cal) == Texts(MARKER, info.deviceName, info.DeviceVersion(), info.serialNumber,
                                          RecordBytes(Records(cal)))
  {
    KeptIff(info.deviceName);
    KeptIff(info.DeviceVersion());
    KeptIff(info.serialNumber);
  }

  /** On the same board the import succeeds, uses up all the bytes the header counts, restores every
      status, coefficient and node and sets no status bit, exactly when a C string can hold the device
      name and the serial number and what it holds of the version still passes for it. */
  lemma FlashRoundTripIff(crc: Checksum, info: SystemInfo, date: string, cal: Calibration, now: Calibration,
                          flash: Bytes, enable: bool, oldSum: U16)
    requires GoodNames(cal) && SameNames(now, cal)
    requires Image(crc, Body(info, date, cal)) <= flash && |flash| < 0x8000_0000
    ensures ImportFlash(crc, info, enable, flash, Reads(6, |Image(crc, Body(info, date, cal))|), now, oldSum)
         == Import(Accepted, cal, SumOf(crc, Body(info, date, cal)), 0)
       <==> Storable(info.deviceName) && Storable(info.serialNumber)
            && SameVersion(Kept(info.DeviceVersion()), info.DeviceVersion())
  {
    ImageImported(crc, info, date, cal, info, now, flash, enable, oldSum);
    KeptIff(info.deviceName);
    KeptIff(info.serialNumber);
    GateOpens(info, enable, KeptTexts(info, cal));
  }

  lemma GateOpens(info: SystemInfo, enable: bool, t: Texts)
    requires t.marker == MARKER
    ensures GateOf(info, enable, t) == Open(0) <==>
              && t.name == info.deviceName && t.serial == info.serialNumber
              && SameVersion(t.version, info.DeviceVersion())
  {
  }

  /** So it does whenever C strings can hold all three texts. */
  lemma FlashRoundTrip(crc: Checksum, info: SystemInfo, date: string, cal: Calibration, now: Calibration,
                       flash: Bytes, enable: bool, oldSum: U16)
    requires Exportable(info, cal) && SameNames(now, cal)
    requires Image(crc, Body(info, date, cal)) <= flash && |flash| < 0x8000_0000
    ensures ImportFlash(crc, info, enable, flash, Reads(6, |Image(crc, Body(info, date, cal))|), now, oldSum)
         == Import(Accepted, cal, SumOf(crc, Body(info, date, cal)), 0)
  {
    KeptIff(info.DeviceVersion());
    FlashRoundTripIff(crc, info, date, cal, now, flash, enable, oldSum);
  }

  /** A board takes an image exactly when the device name agrees and, without write access, also the
      PCB version, both major versions and the serial number; what it let pass shows in the status. */
  lemma ImageAcceptedIff(crc: Checksum, from: SystemInfo, lca: Dotted, ctrl: Dotted, date: string, cal: Calibration,
                         here: SystemInfo, lcaHere: Dotted, ctrlHere: Dotted,
                         now: Calibration, flash: Bytes, enable: bool, oldSum: U16)
    requires Exportable(from, cal) && SameNames(now, cal)
    requires Image(crc, Body(from, date, cal)) <= flash && |flash| < 0x8000_0000
    requires PlainInfo(from) && PlainDotted(lca) && PlainDotted(ctrl)
    requires from.lcaVersion == lca.Text() && from.ctrlVersion == ctrl.Text()
    requires PlainInfo(here) && PlainDotted(lcaHere) && PlainDotted(ctrlHere)
    requires here.lcaVersion == lcaHere.Text() && here.ctrlVersion == ctrlHere.Text()
    ensures var r := ImportFlash(crc, here, enable, flash, Reads(6, |Image(crc, Body(from, date, cal))|), now, oldSum);
            var version := && from.pcbVersion == here.pcbVersion
                           && lca.major == lcaHere.major && ctrl.major == ctrlHere.major;
            var serial := from.serialNumber == here.serialNumber;
            && (r.verdict.Accepted? <==> from.deviceName == here.deviceName && (enable || (version && serial)))
            && (r.verdict.Accepted? ==>
                  r.cal == cal && r.adjStatus == (if version then 0 else 2) + if serial then 0 else 4)
            && (!r.verdict.Accepted? ==> r.cal == now)
  {
    ImageImported(crc, from, date, cal, here, now, flash, enable, oldSum);
    StorableKept(from, cal);
    GatePassesIff(from, lca, ctrl, here, lcaHere, ctrlHere);
    GateStatus(here, enable, KeptTexts(from, cal));
  }

  /** The status bits a gate can leave: with write access whatever differs, without it nothing passes
      that differs. */
  lemma GateStatus(info: SystemInfo, enable: bool, t: Texts)
    ensures var g := GateOf(info, enable, t);
            && (g.Open? ==> g.adjStatus == (if SameVersion(t.version, info.DeviceVersion()) then 0 else WRONG_VERSION)
                                         + (if t.serial == info.serialNumber then 0 else WRONG_SERIAL))
            && (g.Open? && !enable ==> g.adjStatus == 0)
            && (g.Shut? ==> !enable || g.adjStatus == 0)
            && (g.Shut? ==> g.adjStatus in [0, WRONG_VERSION, WRONG_SERIAL])
            && (g.Shut? ==> g.why != StrangeRecord)
  {
  }

  predicate StatusBits(s: nat)
  {
    s == 0 || s == WRONG_VERSION || s == WRONG_SERIAL || s == WRONG_VERSION + WRONG_SERIAL
  }

  /** An import refused before the records leaves the calibration alone; the status holds nothing but
      the two bits, and none of them after an import accepted without write access. */
  lemma RefusedKeepsCalibration(crc: Checksum, info: SystemInfo, enable: bool, flash: Bytes, chip: Reads,
                                cal: Calibration, oldSum: U16)
    requires |flash| >= 6
    ensures var r := ImportFlash(crc, info, enable, flash, chip, cal, oldSum);
            && (r.verdict.Refused? && r.verdict.why != StrangeRecord ==> r.cal == cal)
            && StatusBits(r.adjStatus)
            && (r.verdict.Accepted? && !enable ==> r.adjStatus == 0)
  {
    var s := CheckSum(crc, flash, chip, oldSum);
    StrangeOnlyAtRecords(crc, flash, chip, oldSum);
    GateStatus(info, enable, ReadTexts(s.rest));
    ShutKeeps(GateOf(info, enable, ReadTexts(s.rest)), cal, s.sum, ReadTexts(s.rest).records);
  }

  lemma StrangeOnlyAtRecords(crc: Checksum, flash: Bytes, chip: Reads, oldSum: U16)
    requires |flash| >= 6
    ensures CheckSum(crc, flash, chip, oldSum).refusal != Some(StrangeRecord)
  {
  }

  lemma ShutKeeps(g: Gate, cal: Calibration, sum: U16, records: Bytes)
    ensures var r := ImportTexts(g, cal, sum, records);
            && r.adjStatus == g.adjStatus
            && (r.verdict.Refused? && r.verdict.why != StrangeRecord ==> r.cal == cal)
            && (r.verdict.Accepted? ==> g.Open?)
  {
  }

  /** What the device reports after any import, whatever the flash held: three independent bits. Bit 0 is
      clear exactly when every correction of the calibration the import left is adjusted, bits 1 and 2 are
      those the import noted, and what it noted is zero for everything refused before the version check. */
  lemma ReportedAfterImport(crc: Checksum, info: SystemInfo, enable: bool, flash: Bytes, chip: Reads,
                            cal: Calibration, oldSum: U16)
    requires |flash| >= 6
    ensures var r := ImportFlash(crc, info, enable, flash, chip, cal, oldSum);
            var status := AdjStatus.Reported(r.cal, r.adjStatus);
            && status < 8
            && (AdjStatus.Bit(status, 0) <==> !AdjStatus.AllAdjusted(r.cal))
            && (AdjStatus.Bit(status, 1) <==> r.adjStatus in [WRONG_VERSION, WRONG_VERSION + WRONG_SERIAL])
            && (AdjStatus.Bit(status, 2) <==> r.adjStatus in [WRONG_SERIAL, WRONG_VERSION + WRONG_SERIAL])
  {
    RefusedKeepsCalibration(crc, info, enable, flash, chip, cal, oldSum);
    var r := ImportFlash(crc, info, enable, flash, chip, cal, oldSum);
    AdjStatus.ReportedBits(r.cal, r.adjStatus in [WRONG_VERSION, WRONG_VERSION + WRONG_SERIAL],
                           r.adjStatus in [WRONG_SERIAL, WRONG_VERSION + WRONG_SERIAL]);
  }
}
