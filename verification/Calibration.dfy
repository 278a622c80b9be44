/**
 The calibration data of all channels and ranges, and the tagged record stream they are kept in: one
 record per range, a tag "SENSE:channel:range" followed by three correction curves.
 */
module Calibration {
  import opened Board
  import opened DataStream
  import opened RecordTag
  import opened Utf8
  import opened QtArg
  import opened QtText

  /** Status, coefficients, and the correction and argument of every node in turn. */
  datatype CurveData = CurveData(status: Byte, coefficients: seq<Word>, nodes: seq<Word>)

  type Curve = c: CurveData | |c.coefficients| == ORDER + 1 && |c.nodes| == 2 * (ORDER + 1)
    witness CurveData(0, [ZERO_WORD, ZERO_WORD, ZERO_WORD, ZERO_WORD],
                      [ZERO_WORD, ZERO_WORD, ZERO_WORD, ZERO_WORD, ZERO_WORD, ZERO_WORD, ZERO_WORD, ZERO_WORD])

  datatype RangeData = RangeData(gain: Curve, phase: Curve, offset: Curve)
  type Calibration = seq<Channel<RangeData>>

  // ---------------------------------------------------------------- payload

  function CurveBytes(c: Curve): Bytes
  {
    [c.status] + Concat(c.coefficients) + Concat(c.nodes)
  }

  function ReadCurve(bs: Bytes): (r: (Curve, Bytes))
    ensures |r.1| <= |bs|
  {
    var (status, r1) := ReadByte(bs);
    var (cs, r2) := ReadWords(ORDER + 1, r1);
    var (ns, r3) := ReadWords(2 * (ORDER + 1), r2);
    (CurveData(status, cs, ns), r3)
  }

  function Payload(d: RangeData): Bytes
  {
    CurveBytes(d.gain) + CurveBytes(d.phase) + CurveBytes(d.offset)
  }

  function ReadPayload(bs: Bytes): (r: (RangeData, Bytes))
    ensures |r.1| <= |bs|
  {
    var (gain, r1) := ReadCurve(bs);
    var (phase, r2) := ReadCurve(r1);
    var (offset, r3) := ReadCurve(r2);
    (RangeData(gain, phase, offset), r3)
  }

  lemma CurveRead(c: Curve, rest: Bytes)
    ensures ReadCurve(CurveBytes(c) + rest) == (c, rest)
  {
    var bs := CurveBytes(c) + rest;
    assert bs[1..] == Concat(c.coefficients) + (Concat(c.nodes) + rest);
    WordsRead(c.coefficients, Concat(c.nodes) + rest);
    WordsRead(c.nodes, rest);
  }

  lemma PayloadRead(d: RangeData, rest: Bytes)
    ensures ReadPayload(Payload(d) + rest) == (d, rest)
  {
    var r2 := CurveBytes(d.offset) + rest;
    var r1 := CurveBytes(d.phase) + r2;
    assert Payload(d) + rest == CurveBytes(d.gain) + r1;
    CurveRead(d.gain, r1);
    CurveRead(d.phase, r2);
    CurveRead(d.offset, rest);
  }

  /** A curve takes 97 bytes: its status, its coefficients, its nodes. */
  lemma CurveLayout(c: Curve, k: nat, i: nat)
    requires k < |c.coefficients| && i < |c.nodes|
    ensures |CurveBytes(c)| == 97 && CurveBytes(c)[0] == c.status
    ensures CurveBytes(c)[1 + 8 * k..9 + 8 * k] == c.coefficients[k]
    ensures CurveBytes(c)[33 + 8 * i..41 + 8 * i] == c.nodes[i]
  {
    var bs, cs, ns := CurveBytes(c), Concat(c.coefficients), Concat(c.nodes);
    ConcatAt(c.coefficients, k);
    ConcatAt(c.nodes, i);
    assert bs[1 + 8 * k..9 + 8 * k] == cs[8 * k..8 * k + 8];
    assert bs[33 + 8 * i..41 + 8 * i] == ns[8 * i..8 * i + 8];
  }

  /** Where the stream ends early, status, coefficients and nodes read as zero and nothing is left. */
  lemma CurveCutShort(bs: Bytes)
    ensures bs == [] ==> ReadCurve(bs).0.status == 0
    ensures |bs| < 97 ==> ReadCurve(bs).1 == []
    ensures |bs| <= 1 ==> forall k :: 0 <= k < ORDER + 1 ==> ReadCurve(bs).0.coefficients[k] == ZERO_WORD
  {
    var r1 := ReadByte(bs).1;
    var r2 := ReadWords(ORDER + 1, r1).1;
    if |r1| < 8 * (ORDER + 1) {
      WordsCutShort(ORDER + 1, r1);
      WordsCutShort(2 * (ORDER + 1), []);
    } else {
      WordsLeave(ORDER + 1, r1);
      if |r2| < 16 * (ORDER + 1) { WordsCutShort(2 * (ORDER + 1), r2); }
    }
  }

  /** Gain first, then phase, then offset. */
  lemma PayloadLayout(d: RangeData)
    ensures |Payload(d)| == 291
    ensures Payload(d)[..97] == CurveBytes(d.gain)
    ensures Payload(d)[97..194] == CurveBytes(d.phase)
    ensures Payload(d)[194..] == CurveBytes(d.offset)
  {
  }

  // ---------------------------------------------------------------- tags

  /** What a tag stands for: not a sense record, a record of a known range, one of an unknown range, or
      a tag with too few parts, which the code indexes out of bounds. */
  datatype Claim = NotOurs | Known(channel: nat, range: nat) | Unknown | Malformed

  function ClaimOf(cal: Calibration, tag: string): (c: Claim)
    ensures c.Known? ==> c.channel < |cal| && c.range < |cal[c.channel].ranges|
  {
    var spec := Split(tag, ':');
    if spec[0] != "SENSE" then NotOurs
    else if |spec| < 2 then Malformed
    else
      var i := ChannelIndex(cal, spec[1]);
      if i == |cal| then Unknown
      else if |spec| < 3 then Malformed
      else
        var j := RangeIndex(cal[i].ranges, spec[2]);
        if j == |cal[i].ranges| then Unknown else Known(i, j)
  }

  // ---------------------------------------------------------------- record stream

  datatype Outcome = Done | Strange | Fault

  /** Reads records until the bytes run out or a tag is not claimed. */
  function ImportRecords(cal: Calibration, bs: Bytes): (Outcome, Calibration)
    decreases |bs|
  {
    if bs == [] then (Done, cal)
    else
      var (tag, r1) := ReadText(bs);
      match ClaimOf(cal, tag)
      case NotOurs => (Strange, cal)
      case Malformed => (Fault, cal)
      case Unknown => ImportRecords(cal, ReadPayload(r1).1)
      case Known(i, j) =>
        var (d, r2) := ReadPayload(r1);
        ImportRecords(Replaced(cal, i, j, d), r2)
  }

  datatype Record = Record(channel: string, range: string, data: RangeData)

  function TagAndPayload(r: Record): Bytes
  {
    ArrayText(Tag(r.channel, r.range)) + Payload(r.data)
  }

  function RecordBytes(recs: seq<Record>): Bytes
  {
    if recs == [] then [] else TagAndPayload(recs[0]) + RecordBytes(recs[1..])
  }

  /** What a record does: its data goes to the range its tag, as read back, names. */
  function Landed(cal: Calibration, r: Record): Calibration
  {
    match ClaimOf(cal, ReadTag(r.channel, r.range))
    case Known(i, j) => Replaced(cal, i, j, r.data)
    case _ => cal
  }

  function LandedAll(cal: Calibration, recs: seq<Record>): Calibration
    decreases |recs|
  {
    if recs == [] then cal else LandedAll(Landed(cal, recs[0]), recs[1..])
  }

  ghost predicate NulFreeRecords(recs: seq<Record>)
  {
    forall r :: r in recs ==> NUL !in r.channel && NUL !in r.range
  }

  lemma OneRecord(cal: Calibration, r: Record, rest: Bytes)
    requires NUL !in r.channel && NUL !in r.range && |TagAndPayload(r)| < 0x1_0000_0000
    ensures var bs := TagAndPayload(r) + rest;
            bs != [] && ImportRecords(cal, bs) == ImportRecords(Landed(cal, r), rest)
  {
    var tag := Tag(r.channel, r.range);
    var bs := TagAndPayload(r) + rest;
    TagFramed(r.channel, r.range);
    assert bs == ArrayText(tag) + (Payload(r.data) + rest);
    LengthPrefixRead(Latin1(tag), Payload(r.data) + rest);
    PayloadRead(r.data, rest);
  }

  /** Framing: every sense record consumes its own payload and nothing more, known or not, mangled or not,
      so a run of records has the effect of those whose tags are known, in order, whatever follows. */
  lemma {:induction false} RecordsConsumed(cal: Calibration, recs: seq<Record>, rest: Bytes)
    requires NulFreeRecords(recs) && |RecordBytes(recs)| < 0x1_0000_0000
    ensures ImportRecords(cal, RecordBytes(recs) + rest) == ImportRecords(LandedAll(cal, recs), rest)
    decreases |recs|
  {
    if recs == [] {
      assert [] + rest == rest;
    } else {
      var tail := RecordBytes(recs[1..]) + rest;
      assert RecordBytes(recs) + rest == TagAndPayload(recs[0]) + tail;
      assert recs[0] in recs;
      OneRecord(cal, recs[0], tail);
      RecordsConsumed(Landed(cal, recs[0]), recs[1..], rest);
    }
  }

  /** Whatever follows the records, if the text it starts with is no sense tag, be it foreign, empty or
      garbled, stops the import with exactly the preceding records applied. */
  lemma StrangeTagStops(cal: Calibration, recs: seq<Record>, junk: Bytes)
    requires NulFreeRecords(recs) && |RecordBytes(recs)| < 0x1_0000_0000
    requires junk != [] && Split(ReadText(junk).0, ':')[0] != "SENSE"
    ensures ImportRecords(cal, RecordBytes(recs) + junk) == (Strange, LandedAll(cal, recs))
  {
    RecordsConsumed(cal, recs, junk);
  }

  /** A sense tag is followed out of its fields exactly when it names nothing, or a known channel and no
      range; with an unknown channel the range is never looked at. */
  lemma MalformedIff(cal: Calibration, tag: string)
    ensures var fields := Split(tag, ':');
            ClaimOf(cal, tag) == Malformed <==>
              && fields[0] == "SENSE"
              && (|fields| == 1 || (|fields| == 2 && exists i :: 0 <= i < |cal| && cal[i].name == fields[1]))
  {
    var fields := Split(tag, ':');
    if |fields| == 2 {
      if i :| 0 <= i < |cal| && cal[i].name == fields[1] { assert ChannelIndex(cal, fields[1]) <= i; }
    }
  }

  /** Such a tag ends the import in a fault, with exactly the preceding records applied. */
  lemma MalformedFaults(cal: Calibration, recs: seq<Record>, junk: Bytes)
    requires NulFreeRecords(recs) && |RecordBytes(recs)| < 0x1_0000_0000 && junk != []
    requires ClaimOf(LandedAll(cal, recs), ReadText(junk).0) == Malformed
    ensures ImportRecords(cal, RecordBytes(recs) + junk) == (Fault, LandedAll(cal, recs))
  {
    RecordsConsumed(cal, recs, junk);
  }

  /** A range's record finds its range again exactly when the names of range and channel are 7-bit, free
      of NUL and of colons, and printed as they are. */
  lemma RecordFindsItsRangeIff(cal: Calibration, i: nat, j: nat)
    requires i < |cal| && j < |cal[i].ranges| && DistinctNames(cal)
    ensures var c, r := cal[i].name, cal[i].ranges[j].name;
            ClaimOf(cal, ReadTag(c, r)) == Known(i, j) <==>
              GoodName(c) && GoodName(r) && Tag(c, r) == PlainTag(c, r)
  {
    var c, r := cal[i].name, cal[i].ranges[j].name;
    RecoveredIff(c, r);
    assert ChannelIndex(cal, c) == i && RangeIndex(cal[i].ranges, r) == j;
  }

  lemma GoodLands(cal: Calibration, r: Record)
    requires GoodName(r.channel) && GoodName(r.range) && Lowest(r.channel) > 3
    ensures Landed(cal, r) == Applied(cal, r.channel, r.range, r.data)
  {
    InertTag(r.channel, r.range);
    GoodTagRead(r.channel, r.range);
  }

  // ---------------------------------------------------------------- export and import of everything

  /** The records of channel i from range j on, then those of the later channels. */
  function RecordsFrom(cal: Calibration, i: nat, j: nat): seq<Record>
    requires i <= |cal| && (i < |cal| ==> j <= |cal[i].ranges|)
    decreases |cal| - i, if i < |cal| then |cal[i].ranges| - j else 0
  {
    if i == |cal| then []
    else if j == |cal[i].ranges| then RecordsFrom(cal, i + 1, 0)
    else [Record(cal[i].name, cal[i].ranges[j].name, cal[i].ranges[j].just)] + RecordsFrom(cal, i, j + 1)
  }

  function Records(cal: Calibration): seq<Record> { RecordsFrom(cal, 0, 0) }

  lemma {:induction false} RecordsNulFree(cal: Calibration, i: nat, j: nat)
    requires i <= |cal| && (i < |cal| ==> j <= |cal[i].ranges|) && GoodNames(cal)
    ensures NulFreeRecords(RecordsFrom(cal, i, j))
    decreases |cal| - i, if i < |cal| then |cal[i].ranges| - j else 0
  {
    if i < |cal| {
      if j == |cal[i].ranges| {
        RecordsNulFree(cal, i + 1, 0);
      } else {
        RecordsNulFree(cal, i, j + 1);
        assert GoodName(cal[i].name) && GoodName(cal[i].ranges[j].name);
      }
    }
  }

  lemma {:induction false} RestoreFrom(mixed: Calibration, cal: Calibration, i: nat, j: nat)
    requires i <= |cal| && (i < |cal| ==> j <= |cal[i].ranges|)
    requires GoodNames(cal) && AgreeBefore(mixed, cal, i, j)
    ensures LandedAll(mixed, RecordsFrom(cal, i, j)) == cal
    decreases |cal| - i, if i < |cal| then |cal[i].ranges| - j else 0
  {
    if i == |cal| {
      assert mixed == cal;
    } else if j == |cal[i].ranges| {
      ChannelComplete(mixed, cal, i);
      RestoreFrom(mixed, cal, i + 1, 0);
    } else {
      var r := Record(cal[i].name, cal[i].ranges[j].name, cal[i].ranges[j].just);
      assert RecordsFrom(cal, i, j) == [r] + RecordsFrom(cal, i, j + 1);
      assert RecordsFrom(cal, i, j)[1..] == RecordsFrom(cal, i, j + 1);
      DataHits(mixed, cal, i, j);
      GoodLands(mixed, r);
      RestoreFrom(Landed(mixed, r), cal, i, j + 1);
    }
  }

  /** Reading back an exported record stream into any state of the same channels and ranges restores
      every status, coefficient and node, and uses up every byte. */
  lemma RecordRoundTrip(cal: Calibration, now: Calibration)
    requires GoodNames(cal) && SameNames(now, cal) && |RecordBytes(Records(cal))| < 0x1_0000_0000
    ensures ImportRecords(now, RecordBytes(Records(cal))) == (Done, cal)
  {
    RecordsNulFree(cal, 0, 0);
    if cal != [] { assert now[0].ranges[..0] == cal[0].ranges[..0]; }
    RestoreFrom(now, cal, 0, 0);
    RecordsConsumed(now, Records(cal), []);
    assert RecordBytes(Records(cal)) + [] == RecordBytes(Records(cal));
  }

  /** A board of one channel with one range. */
  function OneRange(channel: string, range: string, d: RangeData): Calibration
  {
    [Channel(channel, [Range(range, d)])]
  }

  lemma OneRangeBytes(channel: string, range: string, d: RangeData)
    ensures RecordBytes(Records(OneRange(channel, range, d))) == TagAndPayload(Record(channel, range, d)) + []
  {
    var cal := OneRange(channel, range, d);
    assert RecordsFrom(cal, 0, 1) == RecordsFrom(cal, 1, 0) == [];
    assert Records(cal) == [Record(channel, range, d)];
    assert [Record(channel, range, d)][1..] == [];
  }

  /** A range whose names do not come back loses its data: of what was exported, d, nothing returns, and what
      the range holds, e, stays. */
  lemma UnrecoveredIsLost(channel: string, range: string, d: RangeData, e: RangeData)
    requires NUL !in channel && NUL !in range
    requires !(GoodName(channel) && GoodName(range) && Tag(channel, range) == PlainTag(channel, range))
    requires |Tag(channel, range)| < 0x1_0000
    ensures ImportRecords(OneRange(channel, range, e), RecordBytes(Records(OneRange(channel, range, d))))
         == (Done, OneRange(channel, range, e))
  {
    var now, r := OneRange(channel, range, e), Record(channel, range, d);
    OneRangeBytes(channel, range, d);
    RecordFindsItsRangeIff(now, 0, 0);
    OneRecord(now, r, []);
    assert Landed(now, r) == now;
  }

  /** A channel named with an umlaut. */
  lemma UmlautLost(d: RangeData, e: RangeData)
    ensures ImportRecords(OneRange("\U{E4}", "r", e), RecordBytes(Records(OneRange("\U{E4}", "r", d))))
         == (Done, OneRange("\U{E4}", "r", e))
  {
    InertUmlaut();
    assert "\U{E4}"[0] as int == 0xE4;
    UnrecoveredIsLost("\U{E4}", "r", d, e);
  }

  lemma InertUmlaut()
    ensures |Tag("\U{E4}", "r")| < 0x1_0000
  {
    NoPercent("\U{E4}");
    InertTag("\U{E4}", "r");
  }

  /** A channel named "%3". */
  lemma MarkerLost(d: RangeData, e: RangeData)
    ensures ImportRecords(OneRange("%3", "r", e), RecordBytes(Records(OneRange("%3", "r", d))))
         == (Done, OneRange("%3", "r", e))
  {
    MarkerTag("r");
    assert PlainTag("%3", "r")[6] == '%' && TagOf("SENSE", "r", "r")[6] == 'r';
    UnrecoveredIsLost("%3", "r", d, e);
  }
}
