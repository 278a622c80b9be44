/**
 Texts as bytes: UTF-8 out, UTF-8 in with the replacement character for every byte that starts no
 well-formed sequence, and a leading byte order mark skipped.
 */
module Utf8 {

  type Byte = b: int | 0 <= b < 256
  type Bytes = seq<Byte>

  const BOM: char := '\U{FEFF}'
  const REPLACEMENT: char := '\U{FFFD}'
  const NUL: char := '\0'

  function CharBytes(c: char): (b: Bytes)
    ensures 1 <= |b| <= 4
  {
    var n := c as int;
    if n < 0x80 then [n]
    else if n < 0x800 then [0xC0 + n / 0x40, 0x80 + n % 0x40]
    else if n < 0x1_0000 then [0xE0 + n / 0x1000, 0x80 + n / 0x40 % 0x40, 0x80 + n % 0x40]
    else [0xF0 + n / 0x4_0000, 0x80 + n / 0x1000 % 0x40, 0x80 + n / 0x40 % 0x40, 0x80 + n % 0x40]
  }

  function Joined(parts: seq<Bytes>): Bytes
  {
    if parts == [] then [] else parts[0] + Joined(parts[1..])
  }

  function Encoded(s: string): Bytes
  {
    Joined(seq(|s|, i requires 0 <= i < |s| => CharBytes(s[i])))
  }

  lemma EncodedFirst(s: string)
    ensures Encoded(s) == if s == "" then [] else CharBytes(s[0]) + Encoded(s[1..])
  {
    if s != "" {
      var parts := seq(|s|, i requires 0 <= i < |s| => CharBytes(s[i]));
      var tail := s[1..];
      assert parts[1..] == seq(|tail|, i requires 0 <= i < |tail| => CharBytes(tail[i]));
    }
  }

  /** The first n bytes after the leading one continue its sequence. */
  predicate Continued(bs: Bytes, n: nat)
  {
    |bs| > n && forall i :: 1 <= i <= n ==> 0x80 <= bs[i] < 0xC0
  }

  /** A code point that is no surrogate and needs its sequence length. */
  predicate Proper(n: int, least: int)
  {
    least <= n < 0x11_0000 && !(0xD800 <= n < 0xE000)
  }

  /** What a continuing byte contributes. */
  function Low(b: Byte): int { b as int - 0x80 }

  /** The first character and how many bytes it takes. */
  function FirstChar(bs: Bytes): (r: (char, nat))
    requires bs != []
    ensures 1 <= r.1 <= |bs|
  {
    var a: int := bs[0];
    if a < 0x80 then (a as char, 1)
    else if 0xC2 <= a < 0xE0 && Continued(bs, 1) then (((a - 0xC0) * 0x40 + Low(bs[1])) as char, 2)
    else if 0xE0 <= a < 0xF0 && Continued(bs, 2) then
      var n := (a - 0xE0) * 0x1000 + Low(bs[1]) * 0x40 + Low(bs[2]);
      if Proper(n, 0x800) then (n as char, 3) else (REPLACEMENT, 1)
    else if 0xF0 <= a < 0xF5 && Continued(bs, 3) then
      var n := (a - 0xF0) * 0x4_0000 + Low(bs[1]) * 0x1000 + Low(bs[2]) * 0x40 + Low(bs[3]);
      if Proper(n, 0x1_0000) then (n as char, 4) else (REPLACEMENT, 1)
    else (REPLACEMENT, 1)
  }

  function Text(bs: Bytes): string
  {
    if bs == [] then "" else [FirstChar(bs).0] + Text(bs[FirstChar(bs).1..])
  }

  predicate Marked(bs: Bytes) { |bs| >= 3 && bs[0] == 0xEF && bs[1] == 0xBB && bs[2] == 0xBF }

  function Decoded(bs: Bytes): string
  {
    Text(if Marked(bs) then bs[3..] else bs)
  }

  // ---------------------------------------------------------------- one character

  lemma ThreeDigits(n: nat)
    ensures n == n / 0x1000 * 0x1000 + n / 0x40 % 0x40 * 0x40 + n % 0x40
  {
    assert n / 0x40 / 0x40 == n / 0x1000;
  }

  lemma FourDigits(n: nat)
    ensures n == n / 0x4_0000 * 0x4_0000 + n / 0x1000 % 0x40 * 0x1000 + n / 0x40 % 0x40 * 0x40 + n % 0x40
  {
    ThreeDigits(n);
    assert n / 0x1000 / 0x40 == n / 0x4_0000;
  }

  lemma CharRead(c: char, rest: Bytes)
    ensures FirstChar(CharBytes(c) + rest) == (c, |CharBytes(c)|)
  {
    var n := c as int;
    if 0x800 <= n < 0x1_0000 { ThreeDigits(n); }
    if n >= 0x1_0000 { FourDigits(n); }
  }

  // ---------------------------------------------------------------- whole texts

  lemma {:induction false} TextRead(s: string)
    ensures Text(Encoded(s)) == s
  {
    EncodedFirst(s);
    if s != "" {
      CharRead(s[0], Encoded(s[1..]));
      assert Encoded(s)[|CharBytes(s[0])|..] == Encoded(s[1..]);
      TextRead(s[1..]);
    }
  }

  /** A text without its leading mark. */
  function Unmarked(s: string): string { if s != "" && s[0] == BOM then s[1..] else s }

  lemma DecodedEncoded(s: string)
    ensures Decoded(Encoded(s)) == Unmarked(s)
  {
    EncodedFirst(s);
    TextRead(Unmarked(s));
    if s != "" && s[0] == BOM { assert Encoded(s)[3..] == Encoded(s[1..]); }
  }

  // ---------------------------------------------------------------- C strings

  /** A C string ends before its first NUL. */
  function UpToNul(bs: Bytes): (r: Bytes)
    ensures |r| <= |bs|
  {
    if bs == [] || bs[0] == 0 then [] else [bs[0]] + UpToNul(bs[1..])
  }

  function BeforeNul(s: string): (r: string)
    ensures |r| <= |s|
  {
    if s == "" || s[0] == NUL then "" else [s[0]] + BeforeNul(s[1..])
  }

  lemma {:induction false} UpToNulSkips(a: Bytes, b: Bytes)
    requires 0 !in a
    ensures UpToNul(a + b) == a + UpToNul(b)
  {
    if a == [] {
      assert a + b == b;
    } else {
      assert (a + b)[1..] == a[1..] + b;
      UpToNulSkips(a[1..], b);
    }
  }

  lemma CharUpToNul(c: char, tail: Bytes)
    ensures UpToNul(CharBytes(c) + tail) == if c == NUL then [] else CharBytes(c) + UpToNul(tail)
  {
    if c != NUL { UpToNulSkips(CharBytes(c), tail); }
  }

  /** The bytes before the NUL are those of the characters before the NUL, with or without one added. */
  lemma {:induction false} EncodedUpToNul(s: string, end: Bytes)
    requires end == [] || end[0] == 0
    ensures UpToNul(Encoded(s) + end) == Encoded(BeforeNul(s))
  {
    EncodedFirst(s);
    if s == "" {
      assert Encoded(s) + end == end;
    } else {
      var tail := Encoded(s[1..]) + end;
      assert Encoded(s) + end == CharBytes(s[0]) + tail;
      CharUpToNul(s[0], tail);
      EncodedUpToNul(s[1..], end);
      EncodedFirst(BeforeNul(s));
    }
  }

  /** What comes back of a text written as a C string. */
  function Kept(s: string): string { Unmarked(BeforeNul(s)) }

  /** No NUL anywhere and no mark at the start. */
  predicate Storable(s: string) { NUL !in s && (s != "" ==> s[0] != BOM) }

  lemma {:induction false} BeforeNulWhole(s: string)
    ensures BeforeNul(s) == s <==> NUL !in s
    ensures NUL in s ==> |BeforeNul(s)| < |s|
    ensures NUL !in BeforeNul(s)
  {
    if s != "" { BeforeNulWhole(s[1..]); }
  }

  lemma KeptIff(s: string)
    ensures Kept(s) == s <==> Storable(s)
  {
    BeforeNulWhole(s);
  }

  /** A text with a mark in front comes back without it, one with a NUL inside comes back cut off there. */
  lemma {:induction false} MarkAndNulLost(s: string, t: string)
    requires NUL !in s && Unmarked(s) == s
    ensures Kept([BOM] + s) == s && Kept(s + [NUL] + t) == s
  {
    BeforeNulWhole([BOM] + s);
    assert ([BOM] + s)[1..] == s;
    CutAtNul(s, t);
  }

  lemma {:induction false} CutAtNul(s: string, t: string)
    requires NUL !in s
    ensures BeforeNul(s + [NUL] + t) == s
  {
    if s != "" {
      assert (s + [NUL] + t)[1..] == s[1..] + [NUL] + t;
      CutAtNul(s[1..], t);
    }
  }

  // ---------------------------------------------------------------- Latin-1

  /** One byte per character, those beyond Latin-1 becoming question marks. */
  function Latin1(s: string): (b: Bytes)
    ensures |b| == |s|
    ensures forall i :: 0 <= i < |s| ==> b[i] == if s[i] as int < 0x100 then s[i] as int else '?' as int
  {
    seq(|s|, i requires 0 <= i < |s| => if s[i] as int < 0x100 then s[i] as int else '?' as int)
  }

  /** 7-bit text without NUL. */
  predicate Ascii(s: string) { forall i :: 0 <= i < |s| ==> 0 < s[i] as int < 0x80 }

  /** Decoding takes at least one byte per character, and one each only if no byte belongs with another. */
  lemma {:induction false} TextLength(bs: Bytes)
    ensures |Text(bs)| <= |bs|
    ensures |Text(bs)| == |bs| ==>
              forall i :: 0 <= i < |bs| ==> Text(bs)[i] == if bs[i] < 0x80 then bs[i] as char else REPLACEMENT
  {
    if bs != [] {
      var n := FirstChar(bs).1;
      TextLength(bs[n..]);
      if |Text(bs)| == |bs| {
        assert n == 1;
        forall i | 0 <= i < |bs| ensures Text(bs)[i] == if bs[i] < 0x80 then bs[i] as char else REPLACEMENT {
          if i > 0 { assert Text(bs)[i] == Text(bs[1..])[i - 1]; }
        }
      }
    }
  }

  lemma {:induction false} UpToNulWhole(bs: Bytes)
    ensures UpToNul(bs) == bs <==> 0 !in bs
    ensures 0 in bs ==> |UpToNul(bs)| < |bs|
  {
    if bs != [] { UpToNulWhole(bs[1..]); }
  }

  lemma {:induction false} UpToNulFree(bs: Bytes)
    ensures 0 !in UpToNul(bs)
  {
    if bs != [] && bs[0] != 0 { UpToNulFree(bs[1..]); }
  }

  lemma {:induction false} AsciiText(s: string)
    requires Ascii(s)
    ensures Text(Latin1(s)) == s
  {
    if s != "" {
      assert Latin1(s)[1..] == Latin1(s[1..]);
      AsciiText(s[1..]);
    }
  }

  /** A text that survives has lost no byte to a NUL or a mark. */
  lemma SurvivorIsWhole(b: Bytes)
    requires |Decoded(UpToNul(b))| == |b|
    ensures 0 !in b && Decoded(UpToNul(b)) == Text(b)
  {
    var u := UpToNul(b);
    UpToNulWhole(b);
    TextLength(if Marked(u) then u[3..] else u);
  }

  lemma SurvivingChar(s: string, i: nat)
    requires i < |s| && 0 !in Latin1(s) && Text(Latin1(s)) == s
    ensures 0 < s[i] as int < 0x80
  {
    var b := Latin1(s);
    TextLength(b);
    assert b[i] in b;
    assert s[i] == if b[i] < 0x80 then b[i] as char else REPLACEMENT;
  }

  lemma SurvivorIsAscii(s: string)
    requires Decoded(UpToNul(Latin1(s))) == s
    ensures Ascii(s)
  {
    SurvivorIsWhole(Latin1(s));
    forall i | 0 <= i < |s| ensures 0 < s[i] as int < 0x80 { SurvivingChar(s, i); }
  }

  /** Latin-1 bytes read as UTF-8 give the text back exactly when it is 7-bit and free of NUL. */
  lemma Latin1ReadIff(s: string)
    ensures Decoded(UpToNul(Latin1(s))) == s <==> Ascii(s)
  {
    if Ascii(s) {
      AsciiText(s);
      UpToNulWhole(Latin1(s));
    }
    if Decoded(UpToNul(Latin1(s))) == s { SurvivorIsAscii(s); }
  }

  // ---------------------------------------------------------------- joined texts

  lemma FirstCharJoined(a: Bytes, b: Bytes)
    requires a != [] && (b != [] ==> b[0] < 0x80)
    ensures FirstChar(a + b) == FirstChar(a)
  {
    ContinuedJoined(a, b, 1);
    ContinuedJoined(a, b, 2);
    ContinuedJoined(a, b, 3);
  }

  lemma ContinuedJoined(a: Bytes, b: Bytes, n: nat)
    requires a != [] && (b != [] ==> b[0] < 0x80)
    ensures Continued(a + b, n) <==> Continued(a, n)
  {
    assert b != [] ==> (a + b)[|a|] == b[0];
    if Continued(a + b, n) { forall i | 1 <= i <= n ensures 0x80 <= a[i] < 0xC0 { assert (a + b)[i] == a[i]; } }
  }

  /** A 7-bit byte never belongs to what stands before it. */
  lemma {:induction false} TextJoined(a: Bytes, b: Bytes)
    requires b != [] ==> b[0] < 0x80
    ensures Text(a + b) == Text(a) + Text(b)
  {
    if a == [] {
      assert a + b == b;
    } else {
      var n := FirstChar(a).1;
      FirstCharJoined(a, b);
      assert (a + b)[n..] == a[n..] + b;
      TextJoined(a[n..], b);
    }
  }

  /** A 7-bit character comes from its own byte only. */
  lemma {:induction false} TextFree(bs: Bytes, c: char)
    requires c as int < 0x80 && c as int !in bs
    ensures c !in Text(bs)
  {
    if bs != [] {
      assert FirstChar(bs).0 as int < 0x80 ==> FirstChar(bs).0 as int == bs[0];
      TextFree(bs[FirstChar(bs).1..], c);
    }
  }

  // ---------------------------------------------------------------- characters beyond 7 bits

  /** How many characters lie beyond 7 bits. */
  function High(s: string): nat
  {
    if s == "" then 0 else (if s[0] as int < 0x80 then 0 else 1) + High(s[1..])
  }

  function HighBytes(bs: Bytes): nat
  {
    if bs == [] then 0 else (if bs[0] < 0x80 then 0 else 1) + HighBytes(bs[1..])
  }

  lemma {:induction false} HighJoined(s: string, t: string)
    ensures High(s + t) == High(s) + High(t)
  {
    if s == "" {
      assert s + t == t;
    } else {
      assert (s + t)[1..] == s[1..] + t;
      HighJoined(s[1..], t);
    }
  }

  lemma {:induction false} HighBytesFrom(bs: Bytes, n: nat)
    requires n <= |bs| && forall i :: 0 <= i < n ==> bs[i] >= 0x80
    ensures HighBytes(bs) == n + HighBytes(bs[n..])
  {
    if n > 0 {
      assert bs[1..][n - 1..] == bs[n..];
      HighBytesFrom(bs[1..], n - 1);
    }
  }

  lemma FirstCharHigh(bs: Bytes)
    requires bs != []
    ensures FirstChar(bs).0 as int < 0x80 ==> bs[0] < 0x80 && FirstChar(bs).1 == 1
    ensures FirstChar(bs).0 as int >= 0x80 ==> forall i :: 0 <= i < FirstChar(bs).1 ==> bs[i] >= 0x80
    ensures FirstChar(bs).0 as int >= 0x80 && FirstChar(bs).1 == 1 ==> FirstChar(bs).0 == REPLACEMENT
  {
  }

  /** Decoding makes no more characters beyond 7 bits than there were bytes, and as many only if all of them
      are replacements. */
  lemma {:induction false} TextHigh(bs: Bytes)
    ensures High(Text(bs)) <= HighBytes(bs)
    ensures High(Text(bs)) == HighBytes(bs) ==> forall c :: c in Text(bs) && c as int >= 0x80 ==> c == REPLACEMENT
  {
    if bs != [] {
      var (c, n) := FirstChar(bs);
      FirstCharHigh(bs);
      TextHigh(bs[n..]);
      assert Text(bs)[1..] == Text(bs[n..]);
      if c as int >= 0x80 { HighBytesFrom(bs, n); }
    }
  }

  lemma {:induction false} HighLatin1(s: string)
    ensures HighBytes(Latin1(s)) <= High(s)
    ensures HighBytes(Latin1(s)) == High(s) ==> forall c :: c in s ==> c as int < 0x100
  {
    if s != "" {
      assert Latin1(s)[1..] == Latin1(s[1..]);
      HighLatin1(s[1..]);
      assert s == [s[0]] + s[1..];
    }
  }

  lemma {:induction false} NoneHigh(s: string)
    ensures High(s) == 0 <==> forall c :: c in s ==> c as int < 0x80
  {
    if s != "" {
      NoneHigh(s[1..]);
      assert s[0] in s && forall c :: c in s[1..] ==> c in s;
      assert s == [s[0]] + s[1..];
    }
  }

  /** A text that is the reading of another with the same characters beyond 7 bits has none. */
  lemma ReadingHasNoneHigh(s: string, t: string)
    requires s == Text(Latin1(t)) && High(s) == High(t)
    requires forall c :: c in t && c as int >= 0x80 ==> c in s
    ensures High(t) == 0
  {
    TextHigh(Latin1(t));
    HighLatin1(t);
    forall c | c in t ensures c as int < 0x80 {
      assert c as int >= 0x80 ==> c in s;
    }
    NoneHigh(t);
  }
}
