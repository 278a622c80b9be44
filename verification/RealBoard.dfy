/** The names the board really has meet what the record stream asks of names. */
module RealBoard {
  import opened Board
  import opened QtArg
  import SenseMode
  import SenseRanges

  /** A board with the constructed channels and ranges, whatever data they hold. */
  ghost predicate Constructed<D>(cal: seq<Channel<D>>)
  {
    && |cal| == SenseMode.CHANNELS
    && forall i :: 0 <= i < |cal| ==>
         && cal[i].name == SenseRanges.CHANNEL_NAMES[i]
         && NamedAs(cal[i].ranges, SenseRanges.Table(i))
  }

  ghost predicate NamedAs<D>(rs: seq<Range<D>>, table: seq<SenseMode.Range>)
  {
    |rs| == |table| && forall j :: 0 <= j < |rs| ==> rs[j].name == table[j].name
  }

  lemma ChannelNamesGood()
    ensures var names := SenseRanges.CHANNEL_NAMES;
            && |names| == SenseMode.CHANNELS
            && (forall i :: 0 <= i < |names| ==> GoodName(names[i]) && '%' !in names[i])
            && (forall i, k :: 0 <= k < i < |names| ==> names[k] != names[i])
  {
  }

  ghost predicate GoodTable(table: seq<SenseMode.Range>)
  {
    forall j :: 0 <= j < |table| ==> GoodName(table[j].name)
  }

  ghost predicate DistinctTable(table: seq<SenseMode.Range>)
  {
    forall j, k :: 0 <= k < j < |table| ==> table[k].name != table[j].name
  }

  lemma VoltageTableGood()
    ensures GoodTable(SenseRanges.VOLTAGE_RANGES)
  {
  }

  lemma VoltageTableDistinct()
    ensures DistinctTable(SenseRanges.VOLTAGE_RANGES)
  {
  }

  lemma CurrentTableGood()
    ensures GoodTable(SenseRanges.CURRENT_RANGES)
  {
  }

  lemma CurrentTableDistinct()
    ensures DistinctTable(SenseRanges.CURRENT_RANGES)
  {
  }

  /** So the names of the board as it is constructed survive in record tags. */
  lemma ConstructedNamesGood<D>(cal: seq<Channel<D>>)
    requires Constructed(cal)
    ensures GoodNames(cal)
  {
    ChannelNamesGood();
    VoltageTableGood();
    VoltageTableDistinct();
    CurrentTableGood();
    CurrentTableDistinct();
    forall i | 0 <= i < |cal| ensures Lowest(cal[i].name) > 3 { NoPercent(cal[i].name); }
    forall i | 0 <= i < |cal| ensures NamedAs(cal[i].ranges, SenseRanges.Table(i)) {}
  }
}
