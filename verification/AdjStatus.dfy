/** Status bytes: how the per-curve status bits fold into the one status the device reports. */
module AdjStatus {
  import opened Board
  import opened Calibration

  const NOT_ADJUSTED: nat := 1
  const JUSTIFIED: nat := 128

  function BitAnd(a: nat, b: nat): (r: nat)
    ensures r <= a && r <= b
  {
    if a == 0 || b == 0 then 0 else 2 * BitAnd(a / 2, b / 2) + if a % 2 == 1 && b % 2 == 1 then 1 else 0
  }

  predicate Bit(a: nat, k: nat)
  {
    if k == 0 then a % 2 == 1 else Bit(a / 2, k - 1)
  }

  lemma {:induction false} ZeroBits(k: nat)
    ensures !Bit(0, k)
  {
    if k > 0 { ZeroBits(k - 1); }
  }

  lemma {:induction false} AndBits(a: nat, b: nat, k: nat)
    ensures Bit(BitAnd(a, b), k) <==> Bit(a, k) && Bit(b, k)
  {
    if a == 0 || b == 0 {
      ZeroBits(k);
    } else if k > 0 {
      assert BitAnd(a, b) / 2 == BitAnd(a / 2, b / 2);
      AndBits(a / 2, b / 2, k - 1);
    }
  }

  lemma Bit7(a: nat)
    ensures Bit(a, 7) <==> a / 128 % 2 == 1
  {
    var b := a / 2 / 2;
    var c := b / 2 / 2;
    var d := c / 2 / 2;
    assert Bit(a, 7) <==> Bit(b, 5);
    assert Bit(b, 5) <==> Bit(c, 3);
    assert Bit(c, 3) <==> Bit(d, 1);
    assert Bit(d, 1) <==> d / 2 % 2 == 1;
  }

  /** The mask test is a test of bit 7. */
  lemma MaskTest(a: nat)
    ensures BitAnd(a, JUSTIFIED) == 0 <==> !Bit(a, 7)
  {
    AndBits(a, JUSTIFIED, 7);
    Bit7(JUSTIFIED);
    Bit7(BitAnd(a, JUSTIFIED));
    OneBit(a, 7);
  }

  function Pow2(k: nat): (p: nat)
    ensures p > 0
  {
    if k == 0 then 1 else 2 * Pow2(k - 1)
  }

  lemma {:induction false} OneBit(a: nat, k: nat)
    ensures BitAnd(a, Pow2(k)) == if Bit(a, k) then Pow2(k) else 0
  {
    if a == 0 {
      ZeroBits(k);
    } else if k > 0 {
      OneBit(a / 2, k - 1);
      assert Pow2(k) / 2 == Pow2(k - 1) && Pow2(k) % 2 == 0;
    } else {
      assert BitAnd(a / 2, 0) == 0;
    }
  }

  // ---------------------------------------------------------------- the four folds

  function RangeStatus(d: RangeData): (s: nat)
  {
    BitAnd(BitAnd(d.gain.status, d.phase.status), d.offset.status)
  }

  function ChannelStatus(rs: seq<Range<RangeData>>): nat
  {
    if rs == [] then 255 else BitAnd(ChannelStatus(rs[..|rs| - 1]), RangeStatus(rs[|rs| - 1].just))
  }

  function SenseStatus(cal: Calibration): nat
  {
    if cal == [] then 255 else BitAnd(SenseStatus(cal[..|cal| - 1]), ChannelStatus(cal[|cal| - 1].ranges))
  }

  method GetChannelStatus(rs: seq<Range<RangeData>>) returns (adj: nat)
    ensures adj == ChannelStatus(rs)
  {
    adj := 255;
    for i := 0 to |rs|
      invariant adj == ChannelStatus(rs[..i])
    {
      assert rs[..i + 1][..i] == rs[..i];
      adj := BitAnd(adj, RangeStatus(rs[i].just));
    }
    assert rs[..|rs|] == rs;
  }

  method GetSenseStatus(cal: Calibration) returns (adj: nat)
    ensures adj == SenseStatus(cal)
  {
    adj := 255;
    for i := 0 to |cal|
      invariant adj == SenseStatus(cal[..i])
    {
      assert cal[..i + 1][..i] == cal[..i];
      var one := GetChannelStatus(cal[i].ranges);
      adj := BitAnd(adj, one);
    }
    assert cal[..|cal|] == cal;
  }

  /** The device status: what the last import noted, plus the bit for missing adjustment. */
  function Reported(cal: Calibration, adjStatus: nat): nat
  {
    var stat := BitAnd(255, SenseStatus(cal));
    if BitAnd(stat, JUSTIFIED) == 0 then adjStatus + NOT_ADJUSTED else adjStatus
  }

  // ---------------------------------------------------------------- what the reported bits mean

  predicate RangeAdjusted(d: RangeData)
  {
    Bit(d.gain.status, 7) && Bit(d.phase.status, 7) && Bit(d.offset.status, 7)
  }

  predicate ChannelAdjusted(rs: seq<Range<RangeData>>)
  {
    forall j :: 0 <= j < |rs| ==> RangeAdjusted(rs[j].just)
  }

  predicate AllAdjusted(cal: Calibration)
  {
    forall i :: 0 <= i < |cal| ==> ChannelAdjusted(cal[i].ranges)
  }

  lemma RangeBit(d: RangeData)
    ensures Bit(RangeStatus(d), 7) <==> RangeAdjusted(d)
  {
    AndBits(d.gain.status, d.phase.status, 7);
    AndBits(BitAnd(d.gain.status, d.phase.status), d.offset.status, 7);
  }

  lemma {:induction false} ChannelBit(rs: seq<Range<RangeData>>)
    ensures Bit(ChannelStatus(rs), 7) <==> ChannelAdjusted(rs)
  {
    if rs == [] {
      Bit7(255);
    } else {
      var m := |rs| - 1;
      ChannelBit(rs[..m]);
      RangeBit(rs[m].just);
      AndBits(ChannelStatus(rs[..m]), RangeStatus(rs[m].just), 7);
      assert forall j :: 0 <= j < m ==> rs[..m][j] == rs[j];
    }
  }

  lemma {:induction false} SenseBit(cal: Calibration)
    ensures Bit(SenseStatus(cal), 7) <==> AllAdjusted(cal)
  {
    if cal == [] {
      Bit7(255);
    } else {
      var m := |cal| - 1;
      SenseBit(cal[..m]);
      ChannelBit(cal[m].ranges);
      AndBits(SenseStatus(cal[..m]), ChannelStatus(cal[m].ranges), 7);
      assert forall i :: 0 <= i < m ==> cal[..m][i] == cal[i];
    }
  }

  lemma ReportedIs(cal: Calibration, adjStatus: nat)
    ensures Reported(cal, adjStatus) == adjStatus + if AllAdjusted(cal) then 0 else NOT_ADJUSTED
  {
    var s := SenseStatus(cal);
    SenseBit(cal);
    AndBits(255, s, 7);
    Bit7(255);
    MaskTest(BitAnd(255, s));
  }

  lemma LowBits(a: bool, b: bool, c: bool)
    ensures var r := (if a then 1 else 0) + (if b then 2 else 0) + if c then 4 else 0;
            (Bit(r, 0) <==> a) && (Bit(r, 1) <==> b) && (Bit(r, 2) <==> c)
  {
    var r := (if a then 1 else 0) + (if b then 2 else 0) + if c then 4 else 0;
    assert Bit(r, 1) <==> Bit(r / 2, 0);
    assert Bit(r, 2) <==> Bit(r / 2, 1);
    assert Bit(r / 2, 1) <==> Bit(r / 2 / 2, 0);
  }

  /** The reported status is three independent bits: bit 0 says that some correction of some range of
      some channel is not adjusted, bits 1 and 2 are those the import left. */
  lemma ReportedBits(cal: Calibration, version: bool, serial: bool)
    ensures var r := Reported(cal, (if version then 2 else 0) + (if serial then 4 else 0));
            && r < 8
            && (Bit(r, 0) <==> !AllAdjusted(cal))
            && (Bit(r, 1) <==> version)
            && (Bit(r, 2) <==> serial)
  {
    ReportedIs(cal, (if version then 2 else 0) + (if serial then 4 else 0));
    LowBits(!AllAdjusted(cal), version, serial);
  }
}
