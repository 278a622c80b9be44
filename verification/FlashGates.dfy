/**
 What a flash import makes of any flash contents whatever, in terms of the bytes themselves: which images
 are intact, which are refused and why, what is noted, and which reach the records.
 */
module FlashGates {
  import opened DataStream
  import opened Utf8
  import opened Calibration
  import opened VersionGate
  import opened FlashStore
  import opened Wrappers

  // ---------------------------------------------------------------- the header

  /** The length an image gives itself: its first four bytes, the highest first. */
  function Length(flash: Bytes): nat
    requires |flash| >= 6
  {
    var a: int, b: int, c: int, d: int := flash[0], flash[1], flash[2], flash[3];
    a * 0x100_0000 + b * 0x1_0000 + c * 0x100 + d
  }

  /** The sum an image stores: the two bytes that follow. */
  function StoredSum(flash: Bytes): (n: U16)
    requires |flash| >= 6
  {
    var high: int, low: int := flash[4], flash[5];
    high * 0x100 + low
  }

  /** The bytes that are summed: those of the image, with zeros in the place of the sum. */
  function SummedBytes(flash: Bytes): Bytes
    requires |flash| >= 6 && Length(flash) <= |flash|
  {
    flash[..4] + [0, 0] + if Length(flash) > 6 then flash[6..Length(flash)] else []
  }

  /** Both reads delivered what they were asked for, and the bytes have the sum they store. */
  predicate Intact(crc: Checksum, flash: Bytes, chip: Reads)
    requires |flash| >= 6
  {
    && chip.head >= 6
    && Length(flash) <= |flash| && chip.all == Length(flash)
    && crc(SummedBytes(flash)) == StoredSum(flash)
  }

  lemma LengthBytes(a: Byte, b: Byte, c: Byte, d: Byte)
    ensures U32Bytes(a as int * 0x100_0000 + b as int * 0x1_0000 + c as int * 0x100 + d as int) == [a, b, c, d]
  {
    var n := a as int * 0x100_0000 + b as int * 0x1_0000 + c as int * 0x100 + d as int;
    assert n / 0x100 == a as int * 0x1_0000 + b as int * 0x100 + c as int;
    assert n / 0x100 / 0x100 == a as int * 0x100 + b as int;
    assert n / 0x100 / 0x100 / 0x100 == a as int;
  }

  lemma HeaderFields(flash: Bytes)
    requires |flash| >= 6
    ensures ReadU32(flash[..6]).0 == Length(flash)
    ensures ReadU16(ReadU32(flash[..6]).1).0 == StoredSum(flash)
    ensures Length(flash) <= |flash| ==> Zeroed(flash[..Length(flash)]) == SummedBytes(flash)
  {
    var h := flash[..6];
    assert h[4..][0] == flash[4] && h[4..][1] == flash[5];
    LengthBytes(flash[0], flash[1], flash[2], flash[3]);
    assert flash[..4] == [flash[0], flash[1], flash[2], flash[3]];
    if Length(flash) <= |flash| {
      assert Length(flash) > 6 ==> flash[..Length(flash)][6..] == flash[6..Length(flash)];
    }
  }

  /** The checks on the header, each by its own bytes. */
  lemma HeaderDecided(crc: Checksum, flash: Bytes, chip: Reads, oldSum: U16)
    requires |flash| >= 6
    ensures var s := CheckSum(crc, flash, chip, oldSum);
            && (s.refusal == None <==> Intact(crc, flash, chip))
            && (s.refusal == Some(TooLong) <==> chip.head >= 6 && Length(flash) > |flash|)
            && (s.refusal == Some(ReadError) <==>
                  chip.head < 6 || (Length(flash) <= |flash| && chip.all != Length(flash)))
            && (s.refusal == Some(BadChecksum) <==>
                  && chip.head >= 6 && Length(flash) <= |flash| && chip.all == Length(flash)
                  && crc(SummedBytes(flash)) != StoredSum(flash))
            && s.sum == (if chip.head < 6 then oldSum else StoredSum(flash))
            && (Intact(crc, flash, chip) ==> s.rest == SummedBytes(flash)[6..])
  {
    HeaderFields(flash);
  }

  // ---------------------------------------------------------------- the texts

  /** The texts behind the header of an intact image. */
  function TextsOf(flash: Bytes): Texts
    requires |flash| >= 6 && Length(flash) <= |flash|
  {
    ReadTexts(SummedBytes(flash)[6..])
  }

  /** Intact, marked, and of this device. */
  predicate OfThisDevice(crc: Checksum, info: SystemInfo, flash: Bytes, chip: Reads)
    requires |flash| >= 6
  {
    && Intact(crc, flash, chip)
    && TextsOf(flash).marker == "ServerVersion" && TextsOf(flash).name == info.deviceName
  }

  predicate OfThisVersion(info: SystemInfo, flash: Bytes)
    requires |flash| >= 6 && Length(flash) <= |flash|
  {
    SameVersion(TextsOf(flash).version, info.DeviceVersion())
  }

  predicate OfThisSerial(info: SystemInfo, flash: Bytes)
    requires |flash| >= 6 && Length(flash) <= |flash|
  {
    TextsOf(flash).serial == info.serialNumber
  }

  /** The records are read. */
  predicate Admitted(crc: Checksum, info: SystemInfo, enable: bool, flash: Bytes, chip: Reads)
    requires |flash| >= 6
  {
    && OfThisDevice(crc, info, flash, chip)
    && (enable || (OfThisVersion(info, flash) && OfThisSerial(info, flash)))
  }

  lemma NotIntact(crc: Checksum, info: SystemInfo, enable: bool, flash: Bytes, chip: Reads, cal: Calibration,
                  oldSum: U16)
    requires |flash| >= 6 && !Intact(crc, flash, chip)
    ensures var r := ImportFlash(crc, info, enable, flash, chip, cal, oldSum);
            && r.verdict.Refused? && r.verdict.why in [ReadError, TooLong, BadChecksum]
            && CheckSum(crc, flash, chip, oldSum).refusal == Some(r.verdict.why)
            && r.cal == cal && r.adjStatus == 0
  {
    HeaderDecided(crc, flash, chip, oldSum);
  }

  /** Why an import is refused for its header. */
  lemma RefusedByHeader(crc: Checksum, info: SystemInfo, enable: bool, flash: Bytes, chip: Reads, cal: Calibration,
                        oldSum: U16)
    requires |flash| >= 6
    ensures var v := ImportFlash(crc, info, enable, flash, chip, cal, oldSum).verdict;
            var whole := chip.head >= 6 && Length(flash) <= |flash|;
            && (v == Refused(TooLong) <==> chip.head >= 6 && Length(flash) > |flash|)
            && (v == Refused(ReadError) <==> chip.head < 6 || (whole && chip.all != Length(flash)))
            && (v == Refused(BadChecksum) <==>
                  whole && chip.all == Length(flash) && crc(SummedBytes(flash)) != StoredSum(flash))
  {
    HeaderDecided(crc, flash, chip, oldSum);
    if Intact(crc, flash, chip) {
      IntactPasses(crc, info, enable, flash, chip, cal, oldSum);
      TextsDecided(info, enable, TextsOf(flash), cal, StoredSum(flash));
    } else { NotIntact(crc, info, enable, flash, chip, cal, oldSum); }
  }

  /** The checks on the texts alone. */
  lemma TextsDecided(info: SystemInfo, enable: bool, t: Texts, cal: Calibration, sum: U16)
    ensures var v := ImportTexts(GateOf(info, enable, t), cal, sum, t.records).verdict;
            var mine := t.marker == MARKER && t.name == info.deviceName;
            var version := SameVersion(t.version, info.DeviceVersion());
            && (v == Refused(NoServerVersion) <==> t.marker != MARKER)
            && (v == Refused(WrongName) <==> t.marker == MARKER && t.name != info.deviceName)
            && (v == Refused(WrongVersion) <==> mine && !enable && !version)
            && (v == Refused(WrongSerial) <==> mine && !enable && version && t.serial != info.serialNumber)
            && v != Refused(TooLong) && v != Refused(ReadError) && v != Refused(BadChecksum)
  {
    var outcome := ImportRecords(cal, t.records).0;
    assert VerdictOf(outcome) != Refused(NoServerVersion) && VerdictOf(outcome) != Refused(WrongName);
  }

  lemma IntactPasses(crc: Checksum, info: SystemInfo, enable: bool, flash: Bytes, chip: Reads, cal: Calibration,
                     oldSum: U16)
    requires |flash| >= 6 && Intact(crc, flash, chip)
    ensures var t := TextsOf(flash);
            ImportFlash(crc, info, enable, flash, chip, cal, oldSum)
            == ImportTexts(GateOf(info, enable, t), cal, StoredSum(flash), t.records)
  {
    HeaderDecided(crc, flash, chip, oldSum);
  }

  /** Why an import is refused for its texts: the first of the four that fails. */
  lemma RefusedByTexts(crc: Checksum, info: SystemInfo, enable: bool, flash: Bytes, chip: Reads, cal: Calibration,
                       oldSum: U16)
    requires |flash| >= 6
    ensures var v := ImportFlash(crc, info, enable, flash, chip, cal, oldSum).verdict;
            && (v == Refused(NoServerVersion) <==>
                  Intact(crc, flash, chip) && TextsOf(flash).marker != "ServerVersion")
            && (v == Refused(WrongName) <==>
                  && Intact(crc, flash, chip) && TextsOf(flash).marker == "ServerVersion"
                  && TextsOf(flash).name != info.deviceName)
            && (v == Refused(WrongVersion) <==>
                  OfThisDevice(crc, info, flash, chip) && !enable && !OfThisVersion(info, flash))
            && (v == Refused(WrongSerial) <==>
                  && OfThisDevice(crc, info, flash, chip) && !enable
                  && OfThisVersion(info, flash) && !OfThisSerial(info, flash))
  {
    if Intact(crc, flash, chip) {
      IntactPasses(crc, info, enable, flash, chip, cal, oldSum);
      TextsDecided(info, enable, TextsOf(flash), cal, StoredSum(flash));
    } else { NotIntact(crc, info, enable, flash, chip, cal, oldSum); }
  }

  /** What an import leaves of the calibration: the records of an admitted image are applied, those of any
      other image are not read. The stored sum is kept once it is read. */
  lemma ImportLeaves(crc: Checksum, info: SystemInfo, enable: bool, flash: Bytes, chip: Reads, cal: Calibration,
                     oldSum: U16)
    requires |flash| >= 6
    ensures var r := ImportFlash(crc, info, enable, flash, chip, cal, oldSum);
            && r.checksum == (if chip.head < 6 then oldSum else StoredSum(flash))
            && (!Admitted(crc, info, enable, flash, chip) ==> r.verdict.Refused? && r.cal == cal)
            && (Admitted(crc, info, enable, flash, chip) ==>
                  (r.verdict, r.cal) == Applied(cal, TextsOf(flash).records))
  {
    HeaderDecided(crc, flash, chip, oldSum);
    if Intact(crc, flash, chip) { IntactPasses(crc, info, enable, flash, chip, cal, oldSum); }
    else { NotIntact(crc, info, enable, flash, chip, cal, oldSum); }
  }

  /** Verdict and calibration when the records are read. */
  function Applied(cal: Calibration, records: Bytes): (Verdict, Calibration)
  {
    var (outcome, after) := ImportRecords(cal, records);
    (match outcome
     case Done => Accepted
     case Strange => Refused(StrangeRecord)
     case Fault => Faulted, after)
  }

  /** What an import notes: the bit for a wrong version and the bit for a wrong serial number, as far as these
      were compared, also when it is refused for them. */
  lemma ImportNotes(crc: Checksum, info: SystemInfo, enable: bool, flash: Bytes, chip: Reads, cal: Calibration,
                    oldSum: U16)
    requires |flash| >= 6
    ensures ImportFlash(crc, info, enable, flash, chip, cal, oldSum).adjStatus ==
            if !OfThisDevice(crc, info, flash, chip) then 0
            else if OfThisVersion(info, flash) then if OfThisSerial(info, flash) then 0 else 4
            else if enable && !OfThisSerial(info, flash) then 6 else 2
  {
    HeaderDecided(crc, flash, chip, oldSum);
    if Intact(crc, flash, chip) { IntactPasses(crc, info, enable, flash, chip, cal, oldSum); }
    else { NotIntact(crc, info, enable, flash, chip, cal, oldSum); }
  }

  /** So a damaged or foreign image does no harm: an import that succeeds or changes anything has read an
      intact image, marked as one, of a board with this name and, without write access, of this version and
      serial number. */
  lemma OnlyIntactImported(crc: Checksum, info: SystemInfo, enable: bool, flash: Bytes, chip: Reads, cal: Calibration,
                           oldSum: U16)
    requires |flash| >= 6
    ensures var r := ImportFlash(crc, info, enable, flash, chip, cal, oldSum);
            r.verdict.Accepted? || r.verdict.Faulted? || r.cal != cal ==>
              && chip.head >= 6 && Length(flash) <= |flash| && chip.all == Length(flash)
              && crc(SummedBytes(flash)) == StoredSum(flash)
              && TextsOf(flash).marker == "ServerVersion" && TextsOf(flash).name == info.deviceName
              && (enable || (OfThisVersion(info, flash) && OfThisSerial(info, flash)))
  {
    ImportLeaves(crc, info, enable, flash, chip, cal, oldSum);
  }
}
