/**
 The binary stream of the flash image: big-endian numbers, length-prefixed texts and doubles as eight
 opaque bytes. A reader takes the bytes that are left and returns a value and what is left after it; at
 a premature end it yields zero and leaves nothing, as the stream class does.
 */
module DataStream {
  import opened Utf8

  type Word = w: Bytes | |w| == 8 witness [0, 0, 0, 0, 0, 0, 0, 0]
  type U16 = n: int | 0 <= n < 0x1_0000

  const ZERO_WORD: Word := [0, 0, 0, 0, 0, 0, 0, 0]

  // ---------------------------------------------------------------- writing

  function U16Bytes(n: U16): (b: Bytes)
    ensures |b| == 2
  {
    [n / 0x100, n % 0x100]
  }

  /** The low 32 bits, highest byte first. */
  function U32Bytes(n: nat): (b: Bytes)
    ensures |b| == 4
  {
    var q1 := n / 0x100;
    var q2 := q1 / 0x100;
    var q3 := q2 / 0x100;
    [q3 % 0x100, q2 % 0x100, q1 % 0x100, n % 0x100]
  }

  /** A C string: the UTF-8 form up to its first NUL, written with one. */
  function CText(s: string): (b: Bytes)
    ensures |b| == |UpToNul(Encoded(s))| + 5
  {
    var t := UpToNul(Encoded(s));
    U32Bytes(|t| + 1) + t + [0]
  }

  /** A byte array of Latin-1 characters is written as it is, without a NUL. */
  function ArrayText(s: string): (b: Bytes)
    ensures |b| == |s| + 4
  {
    U32Bytes(|s|) + Latin1(s)
  }

  function Concat(ws: seq<Word>): (b: Bytes)
    ensures |b| == 8 * |ws|
  {
    if ws == [] then [] else ws[0] + Concat(ws[1..])
  }

  lemma {:induction false} ConcatAt(ws: seq<Word>, k: nat)
    requires k < |ws|
    ensures Concat(ws)[8 * k..8 * k + 8] == ws[k]
  {
    var rest := Concat(ws[1..]);
    if k > 0 {
      ConcatAt(ws[1..], k - 1);
      assert Concat(ws)[8 * k..8 * k + 8] == rest[8 * (k - 1)..8 * (k - 1) + 8];
    }
  }

  // ---------------------------------------------------------------- reading

  function ReadByte(bs: Bytes): (Byte, Bytes)
  {
    if bs == [] then (0, []) else (bs[0], bs[1..])
  }

  function ReadU16(bs: Bytes): (U16, Bytes)
  {
    if |bs| < 2 then (0, [])
    else
      var high: int, low: int := bs[0], bs[1];
      (high * 0x100 + low, bs[2..])
  }

  function ReadU32(bs: Bytes): (r: (nat, Bytes))
    ensures |r.1| <= |bs| && (bs != [] ==> |r.1| < |bs|)
    ensures r.0 < 0x1_0000_0000
  {
    if |bs| < 4 then (0, [])
    else
      var a: int, b: int, c: int, d: int := bs[0], bs[1], bs[2], bs[3];
      (a * 0x100_0000 + b * 0x1_0000 + c * 0x100 + d, bs[4..])
  }

  /** Both kinds of text are read alike: a length, that many bytes, and of those the part before a NUL. */
  function ReadText(bs: Bytes): (r: (string, Bytes))
    ensures |r.1| <= |bs| && (bs != [] ==> |r.1| < |bs|)
  {
    var (n, rest) := ReadU32(bs);
    if n == 0 then ("", rest)
    else if |rest| < n then ("", [])
    else (Decoded(UpToNul(rest[..n])), rest[n..])
  }

  function ReadWord(bs: Bytes): (r: (Word, Bytes))
    ensures |r.1| <= |bs|
  {
    if |bs| < 8 then (ZERO_WORD, []) else (bs[..8], bs[8..])
  }

  function ReadWords(n: nat, bs: Bytes): (r: (seq<Word>, Bytes))
    ensures |r.0| == n && |r.1| <= |bs|
  {
    if n == 0 then ([], bs)
    else
      var (w, rest) := ReadWord(bs);
      var (ws, rest') := ReadWords(n - 1, rest);
      ([w] + ws, rest')
  }

  // ---------------------------------------------------------------- round trips

  lemma U32Read(n: nat, rest: Bytes)
    requires n < 0x1_0000_0000
    ensures ReadU32(U32Bytes(n) + rest) == (n, rest)
  {
    assert (U32Bytes(n) + rest)[4..] == rest;
  }

  lemma U16Read(n: U16, rest: Bytes)
    ensures ReadU16(U16Bytes(n) + rest) == (n, rest)
  {
    assert (U16Bytes(n) + rest)[2..] == rest;
  }

  lemma LengthPrefixRead(b: Bytes, rest: Bytes)
    requires |b| < 0x1_0000_0000
    ensures ReadText(U32Bytes(|b|) + b + rest) == (Decoded(UpToNul(b)), rest)
  {
    assert U32Bytes(|b|) + b + rest == U32Bytes(|b|) + (b + rest);
    U32Read(|b|, b + rest);
    assert (b + rest)[..|b|] == b && (b + rest)[|b|..] == rest;
  }

  /** Written with its NUL and read without it: what comes back is the text up to its first NUL and
      without a leading byte order mark, and the bytes after it are untouched. */
  lemma CTextRead(s: string, rest: Bytes)
    requires |CText(s)| < 0x1_0000_0000
    ensures ReadText(CText(s) + rest) == (Kept(s), rest)
  {
    var t := BeforeNul(s);
    var b := Encoded(t) + [0];
    EncodedUpToNul(s, []);
    assert Encoded(s) + [] == Encoded(s);
    assert CText(s) + rest == U32Bytes(|b|) + b + rest;
    LengthPrefixRead(b, rest);
    BeforeNulWhole(s);
    BeforeNulWhole(t);
    EncodedUpToNul(t, [0]);
    DecodedEncoded(t);
  }

  /** Written without a NUL; what comes back is the text exactly when that is 7-bit and free of NUL. */
  lemma ArrayTextRead(s: string, rest: Bytes)
    requires |s| < 0x1_0000_0000
    ensures ReadText(ArrayText(s) + rest).1 == rest
    ensures ReadText(ArrayText(s) + rest).0 == s <==> Ascii(s)
  {
    LengthPrefixRead(Latin1(s), rest);
    Latin1ReadIff(s);
  }

  /** From a stream cut short, the words that are missing read as zero and nothing is left. */
  lemma {:induction false} WordsCutShort(n: nat, bs: Bytes)
    requires |bs| < 8 * n
    ensures ReadWords(n, bs).1 == []
    ensures forall k :: |bs| / 8 <= k < n ==> ReadWords(n, bs).0[k] == ZERO_WORD
  {
    var rest := ReadWord(bs).1;
    if n > 1 { WordsCutShort(n - 1, rest); }
  }

  lemma {:induction false} WordsLeave(n: nat, bs: Bytes)
    requires |bs| >= 8 * n
    ensures |ReadWords(n, bs).1| == |bs| - 8 * n
  {
    if n > 0 { WordsLeave(n - 1, bs[8..]); }
  }

  /** A C text cut short anywhere reads as no text and leaves nothing. */
  lemma TextCutShort(s: string, k: nat)
    requires k < |CText(s)| < 0x1_0000_0000
    ensures ReadText(CText(s)[..k]) == ("", [])
  {
    var t := UpToNul(Encoded(s));
    var bs := CText(s)[..k];
    if k >= 4 {
      assert bs == U32Bytes(|t| + 1) + bs[4..];
      U32Read(|t| + 1, bs[4..]);
    }
  }

  lemma {:induction false} WordsRead(ws: seq<Word>, rest: Bytes)
    ensures ReadWords(|ws|, Concat(ws) + rest) == (ws, rest)
  {
    if ws == [] {
      assert [] + rest == rest;
    } else {
      var bs := Concat(ws) + rest;
      assert bs == ws[0] + (Concat(ws[1..]) + rest);
      assert bs[..8] == ws[0] && bs[8..] == Concat(ws[1..]) + rest;
      WordsRead(ws[1..], rest);
      assert [ws[0]] + ws[1..] == ws;
    }
  }
}
