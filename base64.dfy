/** The standard Base64 encoding of section 4 of RFC 4648: every three bytes
    become four characters of the 64-character alphabet `A`-`Z`, `a`-`z`,
    `0`-`9`, `+`, `/`; a final group of one or two bytes becomes two or three
    characters followed by `==` or `=`.

    The encoding is written in three layers: bytes to 6-bit values (integer
    arithmetic only), 6-bit values to characters (one character each), and the
    padding. The decoder is the strict one that sections 3.3 and 3.5 of RFC 4648
    allow: it rejects characters outside the alphabet (section 3.3), misplaced
    padding, and non-zero pad bits (section 3.5), so that encoding and decoding are inverse in both directions. */
module Base64 {
  import opened Wrappers
  import Bytes

  type byte = bv8
  /** A 6-bit value, held in the low bits of a byte. */
  type sextet = x: bv8 | x < 64

  const Padding: char := '='

  // ---------------------------------------------------------------------------
  // The alphabet (Table 1 of RFC 4648)

  type index = x: int | 0 <= x < 64

  function AlphabetChar(n: index): char {
    if n < 26 then ('A' as int + n) as char
    else if n < 52 then ('a' as int + (n - 26)) as char
    else if n < 62 then ('0' as int + (n - 52)) as char
    else if n == 62 then '+'
    else '/'
  }

  predicate IsDigit(c: char) {
    ('A' <= c <= 'Z') || ('a' <= c <= 'z') || ('0' <= c <= '9') || c == '+' || c == '/'
  }

  function AlphabetIndex(c: char): (n: index)
    requires IsDigit(c)
    ensures AlphabetChar(n) == c
  {
    if 'A' <= c <= 'Z' then c as int - 'A' as int
    else if 'a' <= c <= 'z' then c as int - 'a' as int + 26
    else if '0' <= c <= '9' then c as int - '0' as int + 52
    else if c == '+' then 62
    else 63
  }

  /** The character that encodes a 6-bit value. */
  function Digit(i: sextet): char {
    AlphabetChar(i as int)
  }

  /** The 6-bit value a character of the alphabet encodes. */
  function DigitValue(c: char): (i: sextet)
    requires IsDigit(c)
    ensures Digit(i) == c
  {
    var n := AlphabetIndex(c);
    Bytes.SmallByte(n);
    Bytes.SmallSextet(n);
    n as bv8
  }

  lemma DigitRoundTrip(i: sextet)
    ensures IsDigit(Digit(i)) && DigitValue(Digit(i)) == i
  {
    var n := i as int;
    assert AlphabetIndex(AlphabetChar(n)) == n;
    assert (n as bv8) == i;
  }

  // ---------------------------------------------------------------------------
  // Bytes and 6-bit values

  /** The four 6-bit values of three bytes. */
  function GroupSextets(a: byte, b: byte, c: byte): seq<sextet> {
    [a >> 2, ((a & 3) << 4) | (b >> 4), ((b & 15) << 2) | (c >> 6), c & 63]
  }

  /** The three bytes of four 6-bit values. */
  function GroupBytes(d0: sextet, d1: sextet, d2: sextet, d3: sextet): seq<byte> {
    [(d0 << 2) | (d1 >> 4), ((d1 & 15) << 4) | (d2 >> 2), ((d2 & 3) << 6) | d3]
  }

  lemma GroupRoundTrip(a: byte, b: byte, c: byte)
    ensures var d := GroupSextets(a, b, c); GroupBytes(d[0], d[1], d[2], d[3]) == [a, b, c]
  {
  }

  lemma GroupReverse(d0: sextet, d1: sextet, d2: sextet, d3: sextet)
    ensures var g := GroupBytes(d0, d1, d2, d3); GroupSextets(g[0], g[1], g[2]) == [d0, d1, d2, d3]
  {
  }

  /** Each group of three bytes gives four 6-bit values; a final group of one
      or two bytes gives two or three, the missing low bits set to zero. */
  function ToSextets(bytes: seq<byte>): (d: seq<sextet>)
    ensures |d| == SextetCount(|bytes|)
    decreases |bytes|
  {
    if |bytes| == 0 then []
    else if |bytes| == 1 then GroupSextets(bytes[0], 0, 0)[..2]
    else if |bytes| == 2 then GroupSextets(bytes[0], bytes[1], 0)[..3]
    else GroupSextets(bytes[0], bytes[1], bytes[2]) + ToSextets(bytes[3..])
  }

  /** The inverse of `ToSextets`: `None` for a count of values no byte string
      produces, or for non-zero bits in place of the missing ones. */
  function FromSextets(d: seq<sextet>): (r: Option<seq<byte>>)
    ensures r.Some? ==> |d| == SextetCount(|r.value|)
    decreases |d|
  {
    if |d| == 0 then Some([])
    else if |d| == 1 then None
    else if |d| == 2 then
      if d[1] & 15 == 0 then Some(GroupBytes(d[0], d[1], 0, 0)[..1]) else None
    else if |d| == 3 then
      if d[2] & 3 == 0 then Some(GroupBytes(d[0], d[1], d[2], 0)[..2]) else None
    else
      match FromSextets(d[4..])
      case None => None
      case Some(rest) => Some(GroupBytes(d[0], d[1], d[2], d[3]) + rest)
  }

  /** How many 6-bit values `n` bytes give: four per full group, two or
      three for a final group of one or two bytes. */
  function SextetCount(n: nat): nat {
    if n == 0 then 0 else if n == 1 then 2 else if n == 2 then 3 else 4 + SextetCount(n - 3)
  }

  lemma OneByteRoundTrip(a: byte)
    ensures FromSextets(ToSextets([a])) == Some([a])
  {
    var d := GroupSextets(a, 0, 0);
    assert ToSextets([a]) == d[..2];
    GroupRoundTrip(a, 0, 0);
    assert GroupBytes(d[0], d[1], 0, 0)[..1] == [a];
  }

  lemma TwoBytesRoundTrip(a: byte, b: byte)
    ensures FromSextets(ToSextets([a, b])) == Some([a, b])
  {
    var d := GroupSextets(a, b, 0);
    assert ToSextets([a, b]) == d[..3];
    GroupRoundTrip(a, b, 0);
    assert GroupBytes(d[0], d[1], d[2], 0)[..2] == [a, b];
  }

  lemma ToSextetsStep(a: byte, b: byte, c: byte, tail: seq<byte>)
    ensures ToSextets([a, b, c] + tail) == GroupSextets(a, b, c) + ToSextets(tail)
  {
    assert ([a, b, c] + tail)[3..] == tail;
  }

  lemma FromSextetsStep(g: seq<sextet>, rest: seq<sextet>)
    requires |g| == 4 && FromSextets(rest).Some?
    ensures FromSextets(g + rest) == Some(GroupBytes(g[0], g[1], g[2], g[3]) + FromSextets(rest).value)
  {
    var d := g + rest;
    assert d[4..] == rest;
    assert d[0] == g[0] && d[1] == g[1] && d[2] == g[2] && d[3] == g[3];
  }

  lemma LongRoundTrip(a: byte, b: byte, c: byte, tail: seq<byte>)
    requires FromSextets(ToSextets(tail)) == Some(tail)
    ensures FromSextets(ToSextets([a, b, c] + tail)) == Some([a, b, c] + tail)
  {
    var g, t := GroupSextets(a, b, c), ToSextets(tail);
    assert ToSextets([a, b, c] + tail) == g + t by {
      ToSextetsStep(a, b, c, tail);
    }
    assert FromSextets(g + t) == Some([a, b, c] + tail) by {
      FromSextetsStep(g, t);
      GroupRoundTrip(a, b, c);
    }
  }

  /** Bytes survive the trip through 6-bit values. */
  lemma {:induction false} SextetsRoundTrip(bytes: seq<byte>)
    ensures FromSextets(ToSextets(bytes)) == Some(bytes)
    decreases |bytes|
  {
    if |bytes| == 1 {
      OneByteRoundTrip(bytes[0]);
      assert bytes == [bytes[0]];
    } else if |bytes| == 2 {
      TwoBytesRoundTrip(bytes[0], bytes[1]);
      assert bytes == [bytes[0], bytes[1]];
    } else if |bytes| >= 3 {
      assert bytes == [bytes[0], bytes[1], bytes[2]] + bytes[3..];
      SextetsRoundTrip(bytes[3..]);
      LongRoundTrip(bytes[0], bytes[1], bytes[2], bytes[3..]);
    }
  }

  /** Accepted 6-bit values are exactly those of the bytes they decode to. */
  lemma TwoSextetsReverse(d0: sextet, d1: sextet)
    requires FromSextets([d0, d1]).Some?
    ensures ToSextets(FromSextets([d0, d1]).value) == [d0, d1]
  {
    var g := GroupBytes(d0, d1, 0, 0);
    GroupReverse(d0, d1, 0, 0);
    assert FromSextets([d0, d1]) == Some(g[..1]);
    assert ToSextets(g[..1]) == GroupSextets(g[0], 0, 0)[..2];
  }

  lemma ThreeSextetsReverse(d0: sextet, d1: sextet, d2: sextet)
    requires FromSextets([d0, d1, d2]).Some?
    ensures ToSextets(FromSextets([d0, d1, d2]).value) == [d0, d1, d2]
  {
    var g := GroupBytes(d0, d1, d2, 0);
    GroupReverse(d0, d1, d2, 0);
    assert FromSextets([d0, d1, d2]) == Some(g[..2]);
    assert ToSextets(g[..2]) == GroupSextets(g[0], g[1], 0)[..3];
  }

  lemma ToSextetsGroup(g: seq<byte>, rest: seq<byte>)
    requires |g| == 3
    ensures ToSextets(g + rest) == GroupSextets(g[0], g[1], g[2]) + ToSextets(rest)
  {
    var bytes := g + rest;
    assert bytes[..3] == g && bytes[3..] == rest;
  }

  lemma LongSextetsReverse(g: seq<sextet>, rest: seq<sextet>)
    requires |g| == 4 && FromSextets(rest).Some?
    requires ToSextets(FromSextets(rest).value) == rest
    ensures FromSextets(g + rest).Some? && ToSextets(FromSextets(g + rest).value) == g + rest
  {
    var b := GroupBytes(g[0], g[1], g[2], g[3]);
    FromSextetsStep(g, rest);
    GroupReverse(g[0], g[1], g[2], g[3]);
    ToSextetsGroup(b, FromSextets(rest).value);
    assert g == [g[0], g[1], g[2], g[3]];
  }

  /** A list of 6-bit values that converts to bytes is the grouping of those
      bytes. */
  lemma {:induction false} SextetsReverse(d: seq<sextet>)
    requires FromSextets(d).Some?
    ensures ToSextets(FromSextets(d).value) == d
    decreases |d|
  {
    if |d| == 2 {
      assert d == [d[0], d[1]];
      TwoSextetsReverse(d[0], d[1]);
    } else if |d| == 3 {
      assert d == [d[0], d[1], d[2]];
      ThreeSextetsReverse(d[0], d[1], d[2]);
    } else if |d| >= 4 {
      assert d == d[..4] + d[4..];
      assert FromSextets(d[4..]).Some?;
      SextetsReverse(d[4..]);
      LongSextetsReverse(d[..4], d[4..]);
    }
  }

  // ---------------------------------------------------------------------------
  // 6-bit values and characters

  function Chars(d: seq<sextet>): (s: string)
    ensures |s| == |d|
  {
    seq(|d|, i requires 0 <= i < |d| => Digit(d[i]))
  }

  /** The 6-bit values of a text, `None` if it holds a character outside the
      alphabet. */
  function Sextets(s: string): Option<seq<sextet>> {
    if forall i :: 0 <= i < |s| ==> IsDigit(s[i]) then
      Some(seq(|s|, i requires 0 <= i < |s| && IsDigit(s[i]) => DigitValue(s[i])))
    else None
  }

  lemma CharsRoundTrip(d: seq<sextet>)
    ensures Sextets(Chars(d)) == Some(d)
  {
    var s := Chars(d);
    forall i | 0 <= i < |s| ensures IsDigit(s[i]) && DigitValue(s[i]) == d[i] {
      DigitRoundTrip(d[i]);
    }
    assert seq(|s|, i requires 0 <= i < |s| && IsDigit(s[i]) => DigitValue(s[i])) == d;
  }

  lemma CharsReverse(s: string)
    requires Sextets(s).Some?
    ensures Chars(Sextets(s).value) == s
  {
  }

  // ---------------------------------------------------------------------------
  // Padding, encoding and decoding

  function Pad(n: nat): string {
    if n % 3 == 1 then [Padding, Padding] else if n % 3 == 2 then [Padding] else ""
  }

  /** Base64 text of a byte string. */
  function Encode(bytes: seq<byte>): string {
    Chars(ToSextets(bytes)) + Pad(|bytes|)
  }

  /** The text without its trailing padding. */
  function Unpadded(s: string): string {
    if |s| >= 2 && s[|s| - 2] == Padding && s[|s| - 1] == Padding then s[..|s| - 2]
    else if |s| >= 1 && s[|s| - 1] == Padding then s[..|s| - 1]
    else s
  }

  /** The bytes a Base64 text stands for, or `None` for text that is not the
      canonical encoding of any byte string. */
  function Decode(s: string): Option<seq<byte>> {
    if |s| % 4 != 0 then None
    else
      match Sextets(Unpadded(s))
      case None => None
      case Some(d) => FromSextets(d)
  }

  /** Decoding undoes encoding. */
  lemma DecodeEncode(bytes: seq<byte>)
    ensures Decode(Encode(bytes)) == Some(bytes)
  {
    var d := ToSextets(bytes);
    var body := Chars(d);
    var s := Encode(bytes);
    assert s == body + Pad(|bytes|);
    PaddingCompletesGroup(|bytes|);
    assert |s| % 4 == 0;
    if |body| > 0 {
      DigitRoundTrip(d[|d| - 1]);
      assert body[|body| - 1] != Padding;
    }
    if |bytes| % 3 == 1 {
      assert s[..|s| - 2] == body;
    } else if |bytes| % 3 == 2 {
      assert s[..|s| - 1] == body;
    }
    assert Unpadded(s) == body;
    CharsRoundTrip(d);
    SextetsRoundTrip(bytes);
  }

  /** The padding completes the last group: with it, every group has four
      characters, and the number of `=` is four minus the values of the last
      group. */
  lemma {:induction false} PaddingCompletesGroup(n: nat)
    ensures (SextetCount(n) + |Pad(n)|) % 4 == 0
    ensures |Pad(n)| == (if SextetCount(n) % 4 == 2 then 2 else if SextetCount(n) % 4 == 3 then 1 else 0)
  {
    if n >= 3 {
      PaddingCompletesGroup(n - 3);
      assert Pad(n) == Pad(n - 3) by {
        assert n % 3 == (n - 3) % 3;
      }
      assert SextetCount(n) % 4 == SextetCount(n - 3) % 4;
    }
  }

  lemma PadFillsGroup(textLength: nat, bodyLength: nat, n: nat)
    requires textLength % 4 == 0 && bodyLength <= textLength <= bodyLength + 2
    requires bodyLength == SextetCount(n)
    ensures |Pad(n)| == textLength - bodyLength
  {
    PaddingCompletesGroup(n);
  }

  /** What `Unpadded` removes: nothing, `=` or `==`. */
  lemma UnpaddedSuffix(s: string)
    ensures var u := Unpadded(s);
      |u| <= |s| && s == u + s[|u|..] &&
      s[|u|..] == (if |s| - |u| == 2 then [Padding, Padding] else if |s| - |u| == 1 then [Padding] else [])
  {
  }

  /** Encoding undoes a successful decoding: accepted text is canonical. */
  lemma EncodeDecode(s: string)
    requires Decode(s).Some?
    ensures Encode(Decode(s).value) == s
  {
    var u := Unpadded(s);
    var d := Sextets(u).value;
    var bytes := FromSextets(d).value;
    assert Decode(s) == Some(bytes);
    assert Encode(bytes) == u + Pad(|bytes|) by {
      CharsReverse(u);
      SextetsReverse(d);
    }
    assert |u| == SextetCount(|bytes|);
    assert |s| % 4 == 0;
    RestorePadding(s, |bytes|);
  }

  /** Text whose unpadded part has the length of `n` encoded bytes ends in
      exactly the padding of `n` bytes. */
  lemma RestorePadding(s: string, n: nat)
    requires |s| % 4 == 0 && |Unpadded(s)| == SextetCount(n)
    ensures Unpadded(s) + Pad(n) == s
  {
    var u := Unpadded(s);
    UnpaddedSuffix(s);
    PadFillsGroup(|s|, |u|, n);
    PadShape(n);
  }

  lemma PadShape(n: nat)
    ensures Pad(n) == (if |Pad(n)| == 2 then [Padding, Padding] else if |Pad(n)| == 1 then [Padding] else [])
  {
  }

  /** Encoded text uses the alphabet and the padding character only, so it
      never contains `-` or `.`. */
  lemma EncodeAlphabet(bytes: seq<byte>)
    ensures forall i :: 0 <= i < |Encode(bytes)| ==> IsDigit(Encode(bytes)[i]) || Encode(bytes)[i] == Padding
    ensures '-' !in Encode(bytes) && '.' !in Encode(bytes)
  {
    var d := ToSextets(bytes);
    var s := Encode(bytes);
    forall i | 0 <= i < |s| ensures IsDigit(s[i]) || s[i] == Padding {
      if i < |d| {
        DigitRoundTrip(d[i]);
      }
    }
  }
}
