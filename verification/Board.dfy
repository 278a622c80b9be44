/**
 The board's channels and their ranges, each range carrying data of some kind: looking them up by name,
 replacing one range's data, and restoring all of it range by range.
 */
module Board {
  import opened Utf8
  import opened QtArg
  import opened Wrappers

  /** All three corrections of a range have order 3: four coefficients and four nodes. */
  const ORDER: nat := 3

  datatype Range<D> = Range(name: string, just: D)
  datatype Channel<D> = Channel(name: string, ranges: seq<Range<D>>)

  function ChannelIndex<D>(cal: seq<Channel<D>>, name: string): (i: nat)
    ensures i <= |cal|
    ensures i < |cal| ==> cal[i].name == name
    ensures forall j :: 0 <= j < i ==> cal[j].name != name
  {
    FirstIndex(cal, (c: Channel<D>) => c.name == name)
  }

  function RangeIndex<D>(rs: seq<Range<D>>, name: string): (i: nat)
    ensures i <= |rs|
    ensures i < |rs| ==> rs[i].name == name
    ensures forall j :: 0 <= j < i ==> rs[j].name != name
  {
    FirstIndex(rs, (r: Range<D>) => r.name == name)
  }

  function Replaced<D>(cal: seq<Channel<D>>, i: nat, j: nat, d: D): seq<Channel<D>>
    requires i < |cal| && j < |cal[i].ranges|
  {
    cal[i := cal[i].(ranges := cal[i].ranges[j := cal[i].ranges[j].(just := d)])]
  }

  function Applied<D>(cal: seq<Channel<D>>, channel: string, range: string, d: D): seq<Channel<D>>
  {
    var i := ChannelIndex(cal, channel);
    if i == |cal| then cal
    else
      var j := RangeIndex(cal[i].ranges, range);
      if j == |cal[i].ranges| then cal else Replaced(cal, i, j, d)
  }

  /** A name that is read as it was written. */
  predicate GoodName(s: string) { Ascii(s) && ':' !in s }

  ghost predicate SameRangeNames<D>(rs: seq<Range<D>>, ss: seq<Range<D>>)
  {
    |rs| == |ss| && forall j :: 0 <= j < |rs| ==> rs[j].name == ss[j].name
  }

  ghost predicate SameNames<D>(a: seq<Channel<D>>, b: seq<Channel<D>>)
  {
    |a| == |b| && forall i :: 0 <= i < |a| ==> a[i].name == b[i].name && SameRangeNames(a[i].ranges, b[i].ranges)
  }

  ghost predicate DistinctRangeNames<D>(rs: seq<Range<D>>)
  {
    forall j, k :: 0 <= k < j < |rs| ==> rs[k].name != rs[j].name
  }

  ghost predicate DistinctNames<D>(cal: seq<Channel<D>>)
  {
    && (forall i, k :: 0 <= k < i < |cal| ==> cal[k].name != cal[i].name)
    && (forall i :: 0 <= i < |cal| ==> DistinctRangeNames(cal[i].ranges))
  }

  /** Names that survive in record tags: distinct, read as they were written, and the channels' without a
      place marker that a tag's format fills in. */
  ghost predicate GoodNames<D>(cal: seq<Channel<D>>)
  {
    && DistinctNames(cal)
    && forall i :: 0 <= i < |cal| ==>
         && GoodName(cal[i].name) && Lowest(cal[i].name) > 3
         && forall j :: 0 <= j < |cal[i].ranges| ==> GoodName(cal[i].ranges[j].name)
  }

  /** `mixed` holds the data of `cal` before position (i, j) and anything from there on. */
  ghost predicate AgreeBefore<D>(mixed: seq<Channel<D>>, cal: seq<Channel<D>>, i: nat, j: nat)
  {
    && SameNames(mixed, cal)
    && (forall k :: 0 <= k < |cal| && k < i ==> mixed[k] == cal[k])
    && (i < |cal| ==> j <= |cal[i].ranges| && mixed[i].ranges[..j] == cal[i].ranges[..j])
  }

  lemma ChannelComplete<D>(mixed: seq<Channel<D>>, cal: seq<Channel<D>>, i: nat)
    requires i < |cal| && AgreeBefore(mixed, cal, i, |cal[i].ranges|)
    ensures AgreeBefore(mixed, cal, i + 1, 0)
  {
    assert mixed[i].ranges == cal[i].ranges;
    assert mixed[i] == cal[i];
  }

  lemma DataHits<D>(mixed: seq<Channel<D>>, cal: seq<Channel<D>>, i: nat, j: nat)
    requires i < |cal| && j < |cal[i].ranges|
    requires DistinctNames(cal) && AgreeBefore(mixed, cal, i, j)
    ensures AgreeBefore(Applied(mixed, cal[i].name, cal[i].ranges[j].name, cal[i].ranges[j].just), cal, i, j + 1)
  {
    var r := cal[i].ranges[j];
    assert mixed[i].name == cal[i].name && mixed[i].ranges[j].name == r.name;
    assert ChannelIndex(mixed, cal[i].name) == i;
    assert RangeIndex(mixed[i].ranges, r.name) == j;
    var after := Replaced(mixed, i, j, r.just);
    assert after[i].ranges[j] == cal[i].ranges[j];
    assert after[i].ranges[..j + 1] == after[i].ranges[..j] + [after[i].ranges[j]];
    assert after[i].ranges[..j] == mixed[i].ranges[..j];
    assert cal[i].ranges[..j + 1] == cal[i].ranges[..j] + [cal[i].ranges[j]];
  }
}
