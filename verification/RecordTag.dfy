/**
 The tag of a calibration record: printed from a format with place markers, written as Latin-1, read back
 as UTF-8 and split at its colons.
 */
module RecordTag {
  import opened Board
  import opened QtArg
  import opened QtText
  import opened Utf8

  function TagOf(a: string, b: string, c: string): string
  {
    a + ":" + b + ":" + c
  }

  /** The format has a marker in each field; they are filled in one after the other. */
  function Tag(channel: string, range: string): string
  {
    Args(TagOf("%1", "%2", "%3"), ["SENSE", channel, range])
  }

  /** The fields as they are. */
  function PlainTag(channel: string, range: string): string { TagOf("SENSE", channel, range) }

  /** What is read back of the tag. */
  function ReadTag(channel: string, range: string): string
  {
    Decoded(UpToNul(Latin1(Tag(channel, range))))
  }

  // ---------------------------------------------------------------- printing

  lemma ArgOnTag(x: string, y: string, z: string, n: nat, a: string)
    requires n == Min(Lowest(x), Min(Lowest(y), Lowest(z))) < NONE
    ensures Arg(TagOf(x, y, z), a) == TagOf(Substituted(x, n, a), Substituted(y, n, a), Substituted(z, n, a))
  {
    var q := ":" + y + (":" + z);
    LabelInFront(":", z, n, a);
    FieldByField(":", y, ":" + z, n, a);
    ArgFieldByField("", x, q, n, a);
    TagNested(x, y, z);
    TagNested(Substituted(x, n, a), Substituted(y, n, a), Substituted(z, n, a));
  }

  lemma TagNested(x: string, y: string, z: string)
    ensures TagOf(x, y, z) == "" + x + (":" + y + (":" + z))
  {
  }

  lemma ThreeArgs(f: string, a: string, b: string, c: string)
    ensures Args(f, [a, b, c]) == Arg(Arg(Arg(f, a), b), c)
  {
    assert [a, b, c][..2] == [a, b] && [a, b][..1] == [a] && [a][..0] == [];
    assert Args(f, [a, b]) == Arg(Arg(Args(f, []), a), b);
  }

  lemma TagMarkers()
    ensures Lowest("%1") == 1 && Lowest("%2") == 2 && Lowest("%3") == 3 && Lowest("SENSE") == NONE
    ensures forall a :: Substituted("%1", 1, a) == a
    ensures forall a :: Substituted("%2", 2, a) == a
    ensures forall a :: Substituted("%3", 3, a) == a
  {
    OneMarker('1');
    OneMarker('2');
    OneMarker('3');
    NoPercent("SENSE");
  }

  lemma FirstTwoFilled(channel: string)
    ensures Arg(Arg(TagOf("%1", "%2", "%3"), "SENSE"), channel) == TagOf("SENSE", channel, "%3")
  {
    TagMarkers();
    ArgOnTag("%1", "%2", "%3", 1, "SENSE");
    Untouched("%2", 1, "SENSE");
    Untouched("%3", 1, "SENSE");
    ArgOnTag("SENSE", "%2", "%3", 2, channel);
    Untouched("SENSE", 2, channel);
    Untouched("%3", 2, channel);
  }

  /** The channel's field in the printed tag: a marker up to 3 in the name is filled in with the range. */
  function ChannelField(channel: string, range: string): string
  {
    if Lowest(channel) <= 3 then Substituted(channel, Lowest(channel), range) else channel
  }

  /** The range's field: a marker below 3 in the channel's name leaves the format's own marker. */
  function RangeField(channel: string, range: string): string
  {
    if Lowest(channel) < 3 then "%3" else range
  }

  lemma LastFilled(channel: string, range: string, n: nat)
    requires n == Min(Lowest(channel), 3)
    ensures Arg(TagOf("SENSE", channel, "%3"), range) ==
            TagOf("SENSE", Substituted(channel, n, range), Substituted("%3", n, range))
  {
    TagMarkers();
    ArgOnTag("SENSE", channel, "%3", n, range);
    Untouched("SENSE", n, range);
  }

  lemma TagFields(channel: string, range: string)
    ensures Tag(channel, range) == TagOf("SENSE", ChannelField(channel, range), RangeField(channel, range))
  {
    var n := Min(Lowest(channel), 3);
    ThreeArgs(TagOf("%1", "%2", "%3"), "SENSE", channel, range);
    FirstTwoFilled(channel);
    LastFilled(channel, range, n);
    TagMarkers();
    if n < 3 { Untouched("%3", n, range); }
    if n < Lowest(channel) { Untouched(channel, n, range); }
  }

  /** No marker that the range could fill in. */
  lemma InertTag(channel: string, range: string)
    requires Lowest(channel) > 3
    ensures Tag(channel, range) == PlainTag(channel, range)
  {
    TagFields(channel, range);
  }

  /** A channel named "%3" is tagged with its range twice. */
  lemma MarkerTag(range: string)
    ensures Tag("%3", range) == TagOf("SENSE", range, range)
  {
    TagFields("%3", range);
    TagMarkers();
  }

  // ---------------------------------------------------------------- reading back

  function Reading(s: string): string { Text(Latin1(s)) }

  lemma Latin1Joined(s: string, t: string)
    ensures Latin1(s + t) == Latin1(s) + Latin1(t)
  {
  }

  /** Colons keep what stands around them apart. */
  lemma ReadingAtColon(s: string, t: string)
    ensures Reading(s + (":" + t)) == Reading(s) + (":" + Reading(t))
  {
    Latin1Joined(s, ":" + t);
    Latin1Joined(":", t);
    var b := Latin1(":" + t);
    assert b[0] == ':' as int && b[1..] == Latin1(t);
    TextJoined(Latin1(s), b);
    assert FirstChar(b) == (':', 1);
  }

  lemma ReadingOfTag(b: string, c: string)
    ensures Reading(TagOf("SENSE", b, c)) == "SENSE" + (":" + (Reading(b) + (":" + Reading(c))))
  {
    assert TagOf("SENSE", b, c) == "SENSE" + (":" + (b + (":" + c)));
    ReadingAtColon("SENSE", b + (":" + c));
    ReadingAtColon(b, c);
    AsciiText("SENSE");
  }

  /** A tag without NUL is read as a whole. */
  lemma ReadWhole(b: string, c: string)
    requires NUL !in b && NUL !in c
    ensures Decoded(UpToNul(Latin1(TagOf("SENSE", b, c)))) == Reading(TagOf("SENSE", b, c))
  {
    var t := TagOf("SENSE", b, c);
    assert t == "SENSE:" + b + ":" + c;
    assert NUL !in t;
    forall i | 0 <= i < |t| ensures Latin1(t)[i] != 0 { assert t[i] in t; }
    UpToNulWhole(Latin1(t));
    assert t[0] == 'S' && Latin1(t)[0] == 'S' as int;
  }

  lemma FieldsNulFree(channel: string, range: string)
    requires NUL !in channel && NUL !in range
    ensures NUL !in ChannelField(channel, range) && NUL !in RangeField(channel, range)
  {
    if Lowest(channel) <= 3 { SubstitutedFree(channel, Lowest(channel), range, NUL); }
  }

  lemma ReadTagIs(channel: string, range: string)
    requires NUL !in channel && NUL !in range
    ensures ReadTag(channel, range) ==
            "SENSE" + (":" + (Reading(ChannelField(channel, range)) + (":" + Reading(RangeField(channel, range)))))
  {
    var b, c := ChannelField(channel, range), RangeField(channel, range);
    TagFields(channel, range);
    FieldsNulFree(channel, range);
    ReadWhole(b, c);
    ReadingOfTag(b, c);
  }

  /** Whatever NUL-free names are printed, the tag read back is a sense tag of three fields at least. */
  lemma TagFramed(channel: string, range: string)
    requires NUL !in channel && NUL !in range
    ensures Split(ReadTag(channel, range), ':')[0] == "SENSE" && |Split(ReadTag(channel, range), ':')| >= 3
  {
    var rest := Reading(ChannelField(channel, range)) + (":" + Reading(RangeField(channel, range)));
    ReadTagIs(channel, range);
    assert "SENSE" + (":" + rest) == "SENSE" + [':'] + rest;
    SplitField("SENSE", ':', rest);
    assert rest[|Reading(ChannelField(channel, range))|] == ':';
    SplitCount(rest, ':');
  }

  // ---------------------------------------------------------------- names that survive

  lemma PlainTagSplit(channel: string, range: string)
    requires ':' !in channel && ':' !in range
    ensures Split(PlainTag(channel, range), ':') == ["SENSE", channel, range]
  {
    var rest := channel + [':'] + range;
    assert PlainTag(channel, range) == "SENSE" + [':'] + rest;
    SplitField("SENSE", ':', rest);
    SplitField(channel, ':', range);
    SplitLast(range, ':');
  }

  /** Printed as they are, 7-bit names without NUL and colons come back. */
  lemma GoodTagRead(channel: string, range: string)
    requires GoodName(channel) && GoodName(range) && Tag(channel, range) == PlainTag(channel, range)
    ensures Split(ReadTag(channel, range), ':') == ["SENSE", channel, range]
  {
    Latin1ReadIff(PlainTag(channel, range));
    PlainTagSplit(channel, range);
  }

  lemma {:induction false} SubstitutedHigh(s: string, n: nat, a: string)
    requires n < NONE && forall c :: c in a ==> c as int < 0x80
    ensures High(Substituted(s, n, a)) == High(s)
    ensures forall c :: c in Substituted(s, n, a) && c as int >= 0x80 ==> c in s
  {
    if s != "" {
      var (m, k) := Marker(s);
      var head := if m == n then a else s[..k];
      SubstitutedHigh(s[k..], n, a);
      assert s == s[..k] + s[k..];
      HighJoined(s[..k], s[k..]);
      HighJoined(head, Substituted(s[k..], n, a));
      if m == n {
        NoneHigh(a);
        NoneHigh(s[..k]);
      }
    }
  }

  /** The three fields come back. */
  ghost predicate Recovered(channel: string, range: string)
  {
    var fields := Split(ReadTag(channel, range), ':');
    |fields| >= 3 && fields[0] == "SENSE" && fields[1] == channel && fields[2] == range
  }

  lemma RecoveredNulFree(channel: string, range: string)
    requires Recovered(channel, range)
    ensures NUL !in channel && NUL !in range && ':' !in channel && ':' !in range
  {
    var u := UpToNul(Latin1(Tag(channel, range)));
    var m := ReadTag(channel, range);
    UpToNulFree(Latin1(Tag(channel, range)));
    TextFree(if Marked(u) then u[3..] else u, NUL);
    if NUL in channel { FieldWithin(m, ':', 1, NUL); }
    if NUL in range { FieldWithin(m, ':', 2, NUL); }
    FieldsFree(m, ':', 1);
    FieldsFree(m, ':', 2);
  }

  lemma ReadingColonFree(s: string)
    requires ':' !in s
    ensures ':' !in Reading(s)
  {
    forall i | 0 <= i < |s| ensures Latin1(s)[i] != ':' as int { assert s[i] in s; }
    TextFree(Latin1(s), ':');
  }

  /** So each of the two fields, as printed, is read as the name. */
  lemma RecoveredFields(channel: string, range: string)
    requires Recovered(channel, range)
    ensures channel == Reading(ChannelField(channel, range)) && range == Reading(RangeField(channel, range))
  {
    var b, c := ChannelField(channel, range), RangeField(channel, range);
    RecoveredNulFree(channel, range);
    ReadTagIs(channel, range);
    if Lowest(channel) <= 3 { SubstitutedFree(channel, Lowest(channel), range, ':'); }
    ReadingColonFree(b);
    ReadingColonFree(c);
    var rest := Reading(b) + [':'] + Reading(c);
    assert ReadTag(channel, range) == "SENSE" + [':'] + rest;
    SplitField("SENSE", ':', rest);
    SplitField(Reading(b), ':', Reading(c));
    SplitLast(Reading(c), ':');
  }

  lemma OwnReading(s: string)
    requires s == Reading(s) && NUL !in s
    ensures Ascii(s)
  {
    ReadingHasNoneHigh(s, s);
    AllLow(s);
  }

  lemma AllLow(s: string)
    requires High(s) == 0 && NUL !in s
    ensures Ascii(s)
  {
    NoneHigh(s);
    forall i | 0 <= i < |s| ensures 0 < s[i] as int < 0x80 { assert s[i] in s; }
  }

  lemma RangeIsAscii(channel: string, range: string)
    requires Recovered(channel, range)
    ensures Ascii(range) && RangeField(channel, range) == range
  {
    RecoveredNulFree(channel, range);
    RecoveredFields(channel, range);
    if Lowest(channel) < 3 { AsciiText("%3"); } else { OwnReading(range); }
  }

  lemma ChannelIsAscii(channel: string, range: string)
    requires Recovered(channel, range)
    ensures Ascii(channel) && ChannelField(channel, range) == channel
  {
    var b := ChannelField(channel, range);
    RecoveredNulFree(channel, range);
    RecoveredFields(channel, range);
    RangeIsAscii(channel, range);
    FieldsNulFree(channel, range);
    if Lowest(channel) <= 3 { SubstitutedHigh(channel, Lowest(channel), range); }
    ReadingHasNoneHigh(channel, b);
    AllLow(b);
    AsciiText(b);
  }

  /** Both names come back in their fields exactly when they are 7-bit, free of NUL and colons, and printed
      as they are. */
  lemma RecoveredIff(channel: string, range: string)
    ensures Recovered(channel, range) <==>
              GoodName(channel) && GoodName(range) && Tag(channel, range) == PlainTag(channel, range)
  {
    if GoodName(channel) && GoodName(range) && Tag(channel, range) == PlainTag(channel, range) {
      GoodTagRead(channel, range);
    }
    if Recovered(channel, range) {
      RecoveredNulFree(channel, range);
      RangeIsAscii(channel, range);
      ChannelIsAscii(channel, range);
      TagFields(channel, range);
    }
  }
}
