/** The range tables, and the names the channels publish over every run. */
module SenseRanges {
  import opened SenseMode
  import opened Wrappers
  import opened SenseModeRuns

  // ---------------------------------------------------------------- published names

  /** What the channel publishes when its range list is set: `modeRead` and `codeRead` are what the
      controller answers, if it does. Nothing means that the list is indexed out of bounds. */
  function InitialName(rs: seq<Range>, modeRead: Option<nat>, codeRead: Option<nat>): Option<string>
    requires rs != []
  {
    match modeRead
    case None => Some(rs[0].name)
    case Some(0) =>
      if codeRead.None? then Some("") else
        var i := FindCode(rs, codeRead.value);
        if i == |rs| then None else Some(rs[i].name)
    case Some(m) => Some(if m == 1 then "R0V" else "R10V")
  }

  function FindCode(rs: seq<Range>, code: nat): (i: nat)
    ensures i <= |rs|
    ensures i < |rs| ==> rs[i].selCode == code
    ensures forall j :: 0 <= j < i ==> rs[j].selCode != code
  {
    FirstIndex(rs, (r: Range) => r.selCode == code)
  }

  /** Which name that is: without a mode the first, in AC that of the first range with the code read, in the
      two reference modes that of their range, and none if the code cannot be read. */
  lemma InitialNameIs(rs: seq<Range>, code: nat, j: nat, m: nat)
    requires j < |rs| && m > 1
    ensures InitialName(rs, None, Some(code)) == InitialName(rs, None, None) == Some(rs[0].name)
    ensures rs[j].selCode == code && (forall i :: 0 <= i < j ==> rs[i].selCode != code) ==>
              InitialName(rs, Some(0), Some(code)) == Some(rs[j].name)
    ensures InitialName(rs, Some(0), None) == Some("")
    ensures InitialName(rs, Some(1), None) == Some("R0V") && InitialName(rs, Some(m), None) == Some("R10V")
  {
    var k := FindCode(rs, code);
    if rs[j].selCode == code && forall i :: 0 <= i < j ==> rs[i].selCode != code {
      assert !(j < k) && !(k < j);
    }
  }

  /** A range list with both reference ranges and without an empty name. */
  ghost predicate Proper(rs: seq<Range>)
  {
    Lists(rs, "R0V") && Lists(rs, "R10V") && !Lists(rs, "")
  }

  /** The channel starts with a name from its list unless the controller is in AC mode and its range code
      is unreadable or not in the table. */
  lemma InitialNameListedIff(rs: seq<Range>, modeRead: Option<nat>, codeRead: Option<nat>)
    requires Proper(rs) && rs != []
    ensures (InitialName(rs, modeRead, codeRead).Some? && Lists(rs, InitialName(rs, modeRead, codeRead).value))
       <==> (modeRead == Some(0) ==> codeRead.Some? && exists j :: 0 <= j < |rs| && rs[j].selCode == codeRead.value)
  {
    if modeRead == Some(0) && codeRead.Some? {
      var i := FindCode(rs, codeRead.value);
      if i < |rs| { assert rs[i].name == InitialName(rs, modeRead, codeRead).value; }
    }
    assert rs[0].name == rs[0].name;
  }

  ghost predicate ShowsListed(c: Channel)
  {
    Proper(c.ranges) && Lists(c.ranges, c.published)
  }

  ghost predicate AllShowListed(s: Sense)
  {
    forall i :: 0 <= i < |s.channels| ==> ShowsListed(s.channels[i])
  }

  lemma PublishedStep(s: Sense, e: Event)
    requires Counted(s) && AllShowListed(s)
    ensures AllShowListed(Step(s, e))
  {
    match e
    case AckOf(nr) =>
    case SetRange(i, name, modeRead, rangeSet) =>
    case _ =>
  }

  /** Over every run, overlapping commands included, every channel goes on publishing a name of its range
      list, so the unchecked lookup of the upper range value stays in bounds. */
  lemma LookupStaysInBounds(s: Sense, es: seq<Event>, i: nat)
    requires Counted(s) && AllShowListed(s) && i < |Run(s, es).channels|
    ensures var c := Run(s, es).channels[i]; Find(c.ranges, c.published) < |c.ranges|
  {
    forall t: Sense, e: Event | Counted(t) && AllShowListed(t) ensures AllShowListed(Step(t, e)) {
      PublishedStep(t, e);
    }
    EveryRun(s, es, (t: Sense) => AllShowListed(t));
    var c := Run(s, es).channels[i];
    var j :| 0 <= j < |c.ranges| && c.ranges[j].name == c.published;
  }

  // ---------------------------------------------------------------- the tables

  /** The three voltage channels' ranges, with their selection codes. */
  const VOLTAGE_RANGES: seq<Range> := [
    Range("480V", 0, true), Range("240V", 1, true), Range("120V", 2, true), Range("60V", 3, true),
    Range("12V", 4, true), Range("5V", 5, true), Range("R0V", 14, false), Range("R10V", 15, false)]

  /** The three current channels' ranges. */
  const CURRENT_RANGES: seq<Range> := [
    Range("200A", 0, true), Range("100A", 1, true), Range("50A", 2, true), Range("25A", 3, true),
    Range("10A", 4, true), Range("5A", 5, true), Range("2.5A", 6, true), Range("1.0A", 7, true),
    Range("500mA", 8, true), Range("250mA", 9, true), Range("100mA", 10, true), Range("50mA", 11, true),
    Range("25mA", 12, true), Range("10mA", 13, true), Range("5mA", 14, true),
    Range("R0V", 15, false), Range("R10V", 16, false)]

  /** The tables meet what the theorems ask for. */
  lemma TablesProper()
    ensures Proper(VOLTAGE_RANGES) && AvailableFor(VOLTAGE_RANGES, AC)
    ensures Proper(CURRENT_RANGES) && AvailableFor(CURRENT_RANGES, AC)
  {
    assert VOLTAGE_RANGES[6].name == "R0V" && VOLTAGE_RANGES[7].name == "R10V";
    assert CURRENT_RANGES[15].name == "R0V" && CURRENT_RANGES[16].name == "R10V";
  }

  lemma VoltageCodes()
    ensures forall j :: 0 <= j < |VOLTAGE_RANGES| ==> VOLTAGE_RANGES[j].selCode <= 15
  {
  }

  /** A controller in AC mode that answers with a code the table lacks has the list indexed out of bounds,
      and one whose code cannot be read makes the channel publish no range at all. */
  lemma UnknownCodeMisleads(code: nat)
    requires code > 15
    ensures InitialName(VOLTAGE_RANGES, Some(0), Some(code)) == None
    ensures InitialName(VOLTAGE_RANGES, Some(0), None) == Some("") && !Lists(VOLTAGE_RANGES, "")
  {
    TablesProper();
    VoltageCodes();
  }

  /** The interface as constructed, `published` being what the channels found out about their range. */
  function Constructed(published: seq<string>, drawn: nat): Sense
    requires |published| == CHANNELS
  {
    var cs := seq(CHANNELS, i requires 0 <= i < CHANNELS =>
                    Channel(CHANNEL_NAMES[i], Description(i, AC), Unit(i, AC), AC, Table(i), published[i]));
    Sense(AC, Idle, [], drawn, [], cs, AC, [], 0, 0, 0, [], 0, 0)
  }

  const CHANNEL_NAMES: seq<string> := ["m0", "m1", "m2", "m3", "m4", "m5"]

  function Table(i: nat): seq<Range> { if i < 3 then VOLTAGE_RANGES else CURRENT_RANGES }

  /** The constructed interface is where the runs start. */
  lemma ConstructedIsFresh(published: seq<string>, drawn: nat)
    requires |published| == CHANNELS && forall i :: 0 <= i < CHANNELS ==> Lists(Table(i), published[i])
    ensures Fresh(Constructed(published, drawn))
    ensures AllShowListed(Constructed(published, drawn))
  {
    TablesProper();
    var s := Constructed(published, drawn);
    forall i | 0 <= i < CHANNELS ensures AvailableFor(s.channels[i].ranges, AC) && ShowsListed(s.channels[i]) {
      assert s.channels[i].ranges == Table(i) && s.channels[i].published == published[i];
    }
  }
}
