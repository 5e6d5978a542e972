/**
  The base64 encoding of section 4 of RFC 4648 (standard alphabet, `=` padding), as
  Python's `base64.b64encode` produces it, and the decoding that undoes it.
 */
module Base64 {

  import opened Wrappers

  type Byte = b: int | 0 <= b < 256
  type Sextet = s: int | 0 <= s < 64

  const Pad := '='

  /** The alphabet of Table 1: A-Z, a-z, 0-9, '+', '/'. */
  function SextetChar(s: Sextet): char {
    if s < 26 then ('A' as int + s) as char
    else if s < 52 then ('a' as int + (s - 26)) as char
    else if s < 62 then ('0' as int + (s - 52)) as char
    else if s == 62 then '+'
    else '/'
  }

  /** The inverse of the alphabet; `None` for characters outside it. */
  function CharSextet(c: char): Option<Sextet> {
    if 'A' <= c <= 'Z' then Some(c as int - 'A' as int)
    else if 'a' <= c <= 'z' then Some(c as int - 'a' as int + 26)
    else if '0' <= c <= '9' then Some(c as int - '0' as int + 52)
    else if c == '+' then Some(62)
    else if c == '/' then Some(63)
    else None
  }

  /** Three bytes, 24 bits, become four 6-bit groups, most significant first. */
  function EncodeBlock(b0: Byte, b1: Byte, b2: Byte): string {
    [SextetChar(b0 / 4), SextetChar((b0 % 4) * 16 + b1 / 16),
     SextetChar((b1 % 16) * 4 + b2 / 64), SextetChar(b2 % 64)]
  }

  /** `base64.b64encode`: whole blocks, then a final block padded with `=`. */
  function Encode(bytes: seq<Byte>): string
    decreases |bytes|
  {
    if |bytes| == 0 then ""
    else if |bytes| == 1 then
      [SextetChar(bytes[0] / 4), SextetChar((bytes[0] % 4) * 16), Pad, Pad]
    else if |bytes| == 2 then
      [SextetChar(bytes[0] / 4), SextetChar((bytes[0] % 4) * 16 + bytes[1] / 16),
       SextetChar((bytes[1] % 16) * 4), Pad]
    else EncodeBlock(bytes[0], bytes[1], bytes[2]) + Encode(bytes[3..])
  }

  /** Four characters back to one, two or three bytes, depending on the padding. */
  function DecodeQuad(q: string): Option<seq<Byte>>
    requires |q| == 4
  {
    var c0, c1, c2, c3 := CharSextet(q[0]), CharSextet(q[1]), CharSextet(q[2]), CharSextet(q[3]);
    if c0.None? || c1.None? then None
    else if q[2] == Pad && q[3] == Pad then
      Some([c0.value * 4 + c1.value / 16])
    else if c2.None? then None
    else if q[3] == Pad then
      Some([c0.value * 4 + c1.value / 16, (c1.value % 16) * 16 + c2.value / 4])
    else if c3.None? then None
    else
      Some([c0.value * 4 + c1.value / 16, (c1.value % 16) * 16 + c2.value / 4,
            (c2.value % 4) * 64 + c3.value])
  }

  /** Decoding; padding may only appear in the final group of four. */
  function Decode(s: string): Option<seq<Byte>>
    decreases |s|
  {
    if |s| == 0 then Some([])
    else if |s| < 4 then None
    else match DecodeQuad(s[..4])
      case None => None
      case Some(head) =>
        if |head| < 3 && |s| > 4 then None
        else match Decode(s[4..])
          case None => None
          case Some(tail) => Some(head + tail)
  }

  lemma CharSextetInverse(s: Sextet)
    ensures CharSextet(SextetChar(s)) == Some(s)
    ensures SextetChar(s) != Pad
  {
  }

  /** The bit arithmetic of one block is undone by that of `DecodeQuad`. */
  lemma BlockBits(b0: Byte, b1: Byte, b2: Byte)
    ensures (b0 / 4) * 4 + ((b0 % 4) * 16 + b1 / 16) / 16 == b0
    ensures (((b0 % 4) * 16 + b1 / 16) % 16) * 16 + ((b1 % 16) * 4 + b2 / 64) / 4 == b1
    ensures (((b1 % 16) * 4 + b2 / 64) % 4) * 64 + b2 % 64 == b2
  {
  }

  /** Four sextets, none of them padding, decode to the three bytes they carry. */
  lemma QuadOfSextets(x0: Sextet, x1: Sextet, x2: Sextet, x3: Sextet)
    ensures DecodeQuad([SextetChar(x0), SextetChar(x1), SextetChar(x2), SextetChar(x3)])
      == Some([x0 * 4 + x1 / 16, (x1 % 16) * 16 + x2 / 4, (x2 % 4) * 64 + x3])
  {
    CharSextetInverse(x0);
    CharSextetInverse(x1);
    CharSextetInverse(x2);
    CharSextetInverse(x3);
  }

  /** A full block decodes back to its three bytes. */
  lemma BlockRoundTrip(b0: Byte, b1: Byte, b2: Byte)
    ensures DecodeQuad(EncodeBlock(b0, b1, b2)) == Some([b0, b1, b2])
  {
    var x0, x1, x2, x3 := b0 / 4, (b0 % 4) * 16 + b1 / 16, (b1 % 16) * 4 + b2 / 64, b2 % 64;
    BlockBits(b0, b1, b2);
    QuadOfSextets(x0, x1, x2, x3);
    assert EncodeBlock(b0, b1, b2) == [SextetChar(x0), SextetChar(x1), SextetChar(x2), SextetChar(x3)];
    assert [x0 * 4 + x1 / 16, (x1 % 16) * 16 + x2 / 4, (x2 % 4) * 64 + x3] == [b0, b1, b2];
  }

  /** A final single byte, padded with `==`, decodes back to it. */
  lemma OneByteRoundTrip(b0: Byte)
    ensures Decode(Encode([b0])) == Some([b0])
  {
    var s := Encode([b0]);
    BlockBits(b0, 0, 0);
    var x0, x1 := b0 / 4, (b0 % 4) * 16;
    CharSextetInverse(x0);
    CharSextetInverse(x1);
    assert s[..4] == s && s[4..] == [];
    assert CharSextet(s[0]) == Some(x0) && CharSextet(s[1]) == Some(x1);
    assert s[2] == Pad && s[3] == Pad;
    assert DecodeQuad(s) == Some([b0]);
    assert [b0] + [] == [b0];
  }

  /** Two final bytes, padded with `=`, decode back to them. */
  lemma TwoBytesRoundTrip(b0: Byte, b1: Byte)
    ensures Decode(Encode([b0, b1])) == Some([b0, b1])
  {
    var s := Encode([b0, b1]);
    BlockBits(b0, b1, 0);
    var x0, x1, x2 := b0 / 4, (b0 % 4) * 16 + b1 / 16, (b1 % 16) * 4;
    CharSextetInverse(x0);
    CharSextetInverse(x1);
    CharSextetInverse(x2);
    assert s[..4] == s && s[4..] == [];
    assert CharSextet(s[0]) == Some(x0) && CharSextet(s[1]) == Some(x1);
    assert s[2] != Pad && s[3] == Pad && CharSextet(s[2]) == Some(x2);
    assert DecodeQuad(s) == Some([b0, b1]);
    assert [b0, b1] + [] == [b0, b1];
  }

  /** A group without padding in front of more text decodes independently of it. */
  lemma DecodeFullGroup(block: string, rest: string, head: seq<Byte>, tail: seq<Byte>)
    requires |block| == 4 && DecodeQuad(block) == Some(head) && |head| == 3
    requires Decode(rest) == Some(tail)
    ensures Decode(block + rest) == Some(head + tail)
  {
    var s := block + rest;
    assert s[..4] == block && s[4..] == rest;
  }

  /** Encoding never fails to decode, and decoding gives back the bytes encoded. */
  lemma {:induction false} DecodeEncode(bytes: seq<Byte>)
    ensures Decode(Encode(bytes)) == Some(bytes)
    decreases |bytes|
  {
    if |bytes| == 1 {
      OneByteRoundTrip(bytes[0]);
      assert [bytes[0]] == bytes;
    } else if |bytes| == 2 {
      TwoBytesRoundTrip(bytes[0], bytes[1]);
      assert [bytes[0], bytes[1]] == bytes;
    } else if |bytes| >= 3 {
      DecodeEncode(bytes[3..]);
      DecodeEncodeBlock(bytes);
    }
  }

  /** A leading block of three bytes round-trips in front of a tail that does. */
  lemma DecodeEncodeBlock(bytes: seq<Byte>)
    requires |bytes| >= 3
    requires Decode(Encode(bytes[3..])) == Some(bytes[3..])
    ensures Decode(Encode(bytes)) == Some(bytes)
  {
    var block := EncodeStep(bytes);
    DecodeFullGroup(block, Encode(bytes[3..]), bytes[..3], bytes[3..]);
    assert bytes[..3] + bytes[3..] == bytes;
  }

  /** Encoding takes the bytes three at a time, and the first four characters decode to the first three bytes. */
  lemma EncodeStep(bytes: seq<Byte>) returns (block: string)
    requires |bytes| >= 3
    ensures |block| == 4 && Encode(bytes) == block + Encode(bytes[3..])
    ensures DecodeQuad(block) == Some(bytes[..3])
  {
    block := EncodeBlock(bytes[0], bytes[1], bytes[2]);
    BlockRoundTrip(bytes[0], bytes[1], bytes[2]);
    assert [bytes[0], bytes[1], bytes[2]] == bytes[..3];
  }

  /** Four characters for every started group of three bytes. */
  lemma {:induction false} EncodeLength(bytes: seq<Byte>)
    ensures |Encode(bytes)| == 4 * ((|bytes| + 2) / 3)
    decreases |bytes|
  {
    if |bytes| >= 3 {
      EncodeLength(bytes[3..]);
      assert (|bytes| + 2) / 3 == (|bytes[3..]| + 2) / 3 + 1;
    }
  }
}
