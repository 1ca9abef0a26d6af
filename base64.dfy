/**
 * The padded "base64url" encoding of section 5 of RFC 4648 (Go's `base64.URLEncoding`),
 * which both handlers use to turn 32 random bytes into an opaque asset name.
 *
 * `Encode` follows the RFC: every 3 input bytes become 4 characters of the URL- and
 * filename-safe alphabet (Table 2 of the RFC), and a final group of 1 or 2 bytes is
 * completed with `=` padding. `Decode` is the strict inverse (canonical padding and
 * zero pad bits); it is not used by the handlers but proves the encoding injective.
 */
module Base64 {
  import opened Wrappers

  /** An octet of input data. */
  type Byte = x: int | 0 <= x < 256

  /** The value carried by one character of the encoding (6 bits). */
  type Sextet = x: int | 0 <= x < 64

  /** The padding character of the RFC. */
  const Pad: char := '='

  /** Membership in the URL- and filename-safe alphabet: letters, digits, `-` and `_`. */
  predicate IsSafeChar(c: char) {
    ('A' <= c <= 'Z') || ('a' <= c <= 'z') || ('0' <= c <= '9') || c == '-' || c == '_'
  }

  /** The character that encodes value `v` (Table 2 of RFC 4648). */
  function CharOf(v: Sextet): (c: char)
    ensures IsSafeChar(c)
  {
    if v < 26 then ('A' as int + v) as char
    else if v < 52 then ('a' as int + (v - 26)) as char
    else if v < 62 then ('0' as int + (v - 52)) as char
    else if v == 62 then '-'
    else '_'
  }

  /** The value a character of the alphabet encodes. */
  function ValueOf(c: char): (v: Sextet)
    requires IsSafeChar(c)
    ensures CharOf(v) == c
  {
    if 'A' <= c <= 'Z' then c as int - 'A' as int
    else if 'a' <= c <= 'z' then c as int - 'a' as int + 26
    else if '0' <= c <= '9' then c as int - '0' as int + 52
    else if c == '-' then 62
    else 63
  }

  /** Distinct values are written as distinct characters, so `ValueOf` undoes `CharOf`. */
  lemma ValueOfCharOf(v: Sextet)
    ensures ValueOf(CharOf(v)) == v
  {
  }

  /** Four characters for three bytes: the 24 bits of the group cut into four 6-bit values. */
  function EncodeGroup(b0: Byte, b1: Byte, b2: Byte): string {
    [CharOf(b0 / 4), CharOf(b0 % 4 * 16 + b1 / 16), CharOf(b1 % 16 * 4 + b2 / 64), CharOf(b2 % 64)]
  }

  /** How many `=` end the encoding of `n` bytes: none, or what the last group lacks of 3 bytes. */
  function PadCount(n: nat): nat {
    if n % 3 == 0 then 0 else 3 - n % 3
  }

  /**
   * The padded base64url text of `b` (section 4 of RFC 4648, with the alphabet of section 5):
   * each group of 3 bytes becomes 4 characters, and a last group of 1 or 2 bytes is filled
   * with zero bits and padded with `=` to 4 characters.
   */
  function Encode(b: seq<Byte>): string
    decreases |b|
  {
    if |b| == 0 then []
    else if |b| == 1 then [CharOf(b[0] / 4), CharOf(b[0] % 4 * 16), Pad, Pad]
    else if |b| == 2 then [CharOf(b[0] / 4), CharOf(b[0] % 4 * 16 + b[1] / 16), CharOf(b[1] % 16 * 4), Pad]
    else EncodeGroup(b[0], b[1], b[2]) + Encode(b[3..])
  }

  /** One more group of 3 bytes adds 4 characters. */
  lemma GroupsStep(n: int)
    requires n >= 3
    ensures (n + 2) / 3 * 4 == 4 + (n - 1) / 3 * 4
  {
  }

  /** The text has 4 characters per started group of 3 bytes. */
  lemma {:induction false} EncodeLength(b: seq<Byte>)
    ensures |Encode(b)| == (|b| + 2) / 3 * 4
    decreases |b|
  {
    if |b| >= 3 {
      EncodeLength(b[3..]);
      GroupsStep(|b|);
    }
  }

  /** All characters of the text are of the alphabet, except the `PadCount(|b|)` `=` at its end. */
  lemma {:induction false} EncodeAlphabet(b: seq<Byte>)
    ensures PadCount(|b|) <= |Encode(b)|
    ensures forall i :: 0 <= i < |Encode(b)| - PadCount(|b|) ==> IsSafeChar(Encode(b)[i])
    ensures forall i :: |Encode(b)| - PadCount(|b|) <= i < |Encode(b)| ==> Encode(b)[i] == Pad
    decreases |b|
  {
    EncodeLength(b);
    if |b| >= 3 {
      var s, g, r := Encode(b), EncodeGroup(b[0], b[1], b[2]), Encode(b[3..]);
      EncodeAlphabet(b[3..]);
      assert PadCount(|b|) == PadCount(|b| - 3);
      assert s == g + r;
      forall i | 0 <= i < |s|
        ensures s[i] == if i < 4 then g[i] else r[i - 4]
      {
      }
    }
  }

  /** Three bytes from four values: the inverse of `EncodeGroup` on values. */
  function DecodeGroup(v0: Sextet, v1: Sextet, v2: Sextet, v3: Sextet): seq<Byte> {
    [v0 * 4 + v1 / 16, v1 % 16 * 16 + v2 / 4, v2 % 4 * 64 + v3]
  }

  /** The last quartet of a text: a full group, or one or two bytes followed by padding with zero pad bits. */
  function DecodeLast(c0: char, c1: char, c2: char, c3: char): Option<seq<Byte>> {
    if !IsSafeChar(c0) || !IsSafeChar(c1) then None
    else if c2 == Pad && c3 == Pad then
      if ValueOf(c1) % 16 == 0 then Some([ValueOf(c0) * 4 + ValueOf(c1) / 16]) else None
    else if IsSafeChar(c2) && c3 == Pad then
      if ValueOf(c2) % 4 == 0 then Some(DecodeGroup(ValueOf(c0), ValueOf(c1), ValueOf(c2), 0)[..2]) else None
    else if IsSafeChar(c2) && IsSafeChar(c3) then
      Some(DecodeGroup(ValueOf(c0), ValueOf(c1), ValueOf(c2), ValueOf(c3)))
    else None
  }

  /** The bytes whose canonical encoding is `s`, or None when `s` is not such an encoding. */
  function Decode(s: string): Option<seq<Byte>>
    decreases |s|
  {
    if |s| == 0 then Some([])
    else if |s| < 4 then None
    else if |s| == 4 then DecodeLast(s[0], s[1], s[2], s[3])
    else if IsSafeChar(s[0]) && IsSafeChar(s[1]) && IsSafeChar(s[2]) && IsSafeChar(s[3]) then
      match Decode(s[4..])
      case None => None
      case Some(rest) => Some(DecodeGroup(ValueOf(s[0]), ValueOf(s[1]), ValueOf(s[2]), ValueOf(s[3])) + rest)
    else None
  }

  /** Cutting `hi * 4 + lo` at 4 gives back both parts. */
  lemma Cut4(hi: int, lo: int)
    requires 0 <= lo < 4
    ensures (hi * 4 + lo) / 4 == hi && (hi * 4 + lo) % 4 == lo
  {
  }

  /** Cutting `hi * 16 + lo` at 16 gives back both parts. */
  lemma Cut16(hi: int, lo: int)
    requires 0 <= lo < 16
    ensures (hi * 16 + lo) / 16 == hi && (hi * 16 + lo) % 16 == lo
  {
  }

  /** Cutting `hi * 64 + lo` at 64 gives back both parts. */
  lemma Cut64(hi: int, lo: int)
    requires 0 <= lo < 64
    ensures (hi * 64 + lo) / 64 == hi && (hi * 64 + lo) % 64 == lo
  {
  }

  /** Decoding the characters of one group gives back its three bytes. */
  lemma GroupRoundTrip(b0: Byte, b1: Byte, b2: Byte)
    ensures DecodeGroup(b0 / 4, b0 % 4 * 16 + b1 / 16, b1 % 16 * 4 + b2 / 64, b2 % 64) == [b0, b1, b2]
  {
    var x0: int, x1: int, x2: int := b0, b1, b2;
    Cut16(x0 % 4, x1 / 16);
    Cut4(x1 % 16, x2 / 64);
  }

  /** A single final byte round-trips through its padded quartet. */
  lemma DecodeEncodeOne(b0: Byte)
    ensures Decode(Encode([b0])) == Some([b0])
  {
    var s := Encode([b0]);
    var w: int := b0;
    ValueOfCharOf(w / 4);
    ValueOfCharOf(w % 4 * 16);
    assert s == [CharOf(w / 4), CharOf(w % 4 * 16), Pad, Pad];
    Cut16(w % 4, 0);
    assert ValueOf(s[1]) % 16 == 0;
  }

  /** Two final bytes round-trip through their padded quartet. */
  lemma DecodeEncodeTwo(b0: Byte, b1: Byte)
    ensures Decode(Encode([b0, b1])) == Some([b0, b1])
  {
    var s := Encode([b0, b1]);
    ValueOfCharOf(b0 / 4);
    ValueOfCharOf(b0 % 4 * 16 + b1 / 16);
    ValueOfCharOf(b1 % 16 * 4);
    GroupRoundTrip(b0, b1, 0);
    assert s == [CharOf(b0 / 4), CharOf(b0 % 4 * 16 + b1 / 16), CharOf(b1 % 16 * 4), Pad];
    assert ValueOf(s[2]) % 4 == 0;
    var g := DecodeGroup(ValueOf(s[0]), ValueOf(s[1]), ValueOf(s[2]), 0);
    assert g == [b0, b1, 0];
    assert DecodeLast(s[0], s[1], s[2], s[3]) == Some(g[..2]);
    assert g[..2] == [b0, b1];
  }

  /** Four characters of the alphabet in front of a decodable text decode to their group in front. */
  lemma DecodeAfterQuartet(t: string, u: string, rest: seq<Byte>)
    requires |t| == 4 && IsSafeChar(t[0]) && IsSafeChar(t[1]) && IsSafeChar(t[2]) && IsSafeChar(t[3])
    requires u != [] && Decode(u) == Some(rest)
    ensures Decode(t + u) == Some(DecodeGroup(ValueOf(t[0]), ValueOf(t[1]), ValueOf(t[2]), ValueOf(t[3])) + rest)
  {
    var s := t + u;
    assert s[4..] == u;
    assert s[0] == t[0] && s[1] == t[1] && s[2] == t[2] && s[3] == t[3];
  }

  /** The four characters of a group are of the alphabet and decode to the group. */
  lemma GroupDecodes(b0: Byte, b1: Byte, b2: Byte)
    ensures var t := EncodeGroup(b0, b1, b2);
      IsSafeChar(t[0]) && IsSafeChar(t[1]) && IsSafeChar(t[2]) && IsSafeChar(t[3]) &&
      DecodeGroup(ValueOf(t[0]), ValueOf(t[1]), ValueOf(t[2]), ValueOf(t[3])) == [b0, b1, b2]
  {
    ValueOfCharOf(b0 / 4);
    ValueOfCharOf(b0 % 4 * 16 + b1 / 16);
    ValueOfCharOf(b1 % 16 * 4 + b2 / 64);
    ValueOfCharOf(b2 % 64);
    GroupRoundTrip(b0, b1, b2);
  }

  /** A last group of three bytes round-trips through its unpadded quartet. */
  lemma DecodeEncodeThree(b0: Byte, b1: Byte, b2: Byte)
    ensures Decode(Encode([b0, b1, b2])) == Some([b0, b1, b2])
  {
    var t := EncodeGroup(b0, b1, b2);
    GroupDecodes(b0, b1, b2);
    EncodeOfGroup(b0, b1, b2);
    DecodeOfQuartet(t);
  }

  /** Three bytes alone are encoded as their group. */
  lemma EncodeOfGroup(b0: Byte, b1: Byte, b2: Byte)
    ensures Encode([b0, b1, b2]) == EncodeGroup(b0, b1, b2)
  {
    assert [b0, b1, b2][3..] == [];
  }

  /** A last quartet without padding decodes to its group. */
  lemma DecodeOfQuartet(t: string)
    requires |t| == 4 && IsSafeChar(t[0]) && IsSafeChar(t[1]) && IsSafeChar(t[2]) && IsSafeChar(t[3])
    ensures Decode(t) == Some(DecodeGroup(ValueOf(t[0]), ValueOf(t[1]), ValueOf(t[2]), ValueOf(t[3])))
  {
  }

  /** A group of three bytes in front of a decodable text round-trips in front of what it decodes to. */
  lemma DecodeAfterGroup(b0: Byte, b1: Byte, b2: Byte, u: string, rest: seq<Byte>)
    requires u != [] && Decode(u) == Some(rest)
    ensures Decode(EncodeGroup(b0, b1, b2) + u) == Some([b0, b1, b2] + rest)
  {
    var t := EncodeGroup(b0, b1, b2);
    GroupDecodes(b0, b1, b2);
    DecodeAfterQuartet(t, u, rest);
  }

  /** A string of more than three bytes is its first group followed by the rest. */
  lemma SplitGroup(b: seq<Byte>)
    requires |b| > 3
    ensures b == [b[0], b[1], b[2]] + b[3..]
    ensures Encode(b) == EncodeGroup(b[0], b[1], b[2]) + Encode(b[3..])
    ensures Encode(b[3..]) != []
  {
    HeadSplit(b);
  }

  /** A sequence of more than three elements is its first three followed by the rest. */
  lemma HeadSplit(b: seq<Byte>)
    requires |b| > 3
    ensures b == [b[0], b[1], b[2]] + b[3..]
  {
    assert b[..3] == [b[0], b[1], b[2]];
    assert b == b[..3] + b[3..];
  }

  /** A string of one to three bytes is the display of its bytes. */
  lemma SplitShort(b: seq<Byte>)
    requires 0 < |b| <= 3
    ensures |b| == 1 ==> b == [b[0]]
    ensures |b| == 2 ==> b == [b[0], b[1]]
    ensures |b| == 3 ==> b == [b[0], b[1], b[2]]
  {
  }

  /** Byte strings of at most one group round-trip. */
  lemma DecodeEncodeShort(b: seq<Byte>)
    requires |b| <= 3
    ensures Decode(Encode(b)) == Some(b)
  {
    if |b| == 1 {
      SplitShort(b);
      DecodeEncodeOne(b[0]);
    } else if |b| == 2 {
      SplitShort(b);
      DecodeEncodeTwo(b[0], b[1]);
    } else if |b| == 3 {
      SplitShort(b);
      DecodeEncodeThree(b[0], b[1], b[2]);
    }
  }

  /** Decoding undoes encoding, for every byte string. */
  lemma {:induction false} DecodeEncode(b: seq<Byte>)
    ensures Decode(Encode(b)) == Some(b)
    decreases |b|
  {
    if |b| <= 3 {
      DecodeEncodeShort(b);
    } else {
      DecodeEncode(b[3..]);
      DecodeAfterGroup(b[0], b[1], b[2], Encode(b[3..]), b[3..]);
      SplitGroup(b);
    }
  }

  /** The group written for the decoded bytes of four values is the four characters of those values. */
  lemma EncodeGroupOfDecoded(v0: Sextet, v1: Sextet, v2: Sextet, v3: Sextet)
    ensures var g := DecodeGroup(v0, v1, v2, v3);
      EncodeGroup(g[0], g[1], g[2]) == [CharOf(v0), CharOf(v1), CharOf(v2), CharOf(v3)]
  {
    var w0: int, w1: int, w2: int, w3: int := v0, v1, v2, v3;
    var g := DecodeGroup(v0, v1, v2, v3);
    var b0: int, b1: int, b2: int := g[0], g[1], g[2];
    assert b0 == w0 * 4 + w1 / 16 && b1 == w1 % 16 * 16 + w2 / 4 && b2 == w2 % 4 * 64 + w3;
    Cut4(w0, w1 / 16);
    Cut16(w1 % 16, w2 / 4);
    Cut64(w2 % 4, w3);
    assert b0 / 4 == w0 && b2 % 64 == w3;
    assert b0 % 4 * 16 + b1 / 16 == w1;
    assert b1 % 16 * 4 + b2 / 64 == w2;
  }

  /** A last quartet that decodes is the encoding of its bytes. */
  lemma EncodeDecodeLast(c0: char, c1: char, c2: char, c3: char, b: seq<Byte>)
    requires DecodeLast(c0, c1, c2, c3) == Some(b)
    ensures Encode(b) == [c0, c1, c2, c3]
  {
    if c2 == Pad && c3 == Pad {
      EncodeDecodeOneByte(c0, c1, b);
    } else if IsSafeChar(c2) && c3 == Pad {
      EncodeDecodeTwoBytes(c0, c1, c2, b);
    } else {
      EncodeDecodeThreeBytes(c0, c1, c2, c3, b);
    }
  }

  /** A quartet with two `=` that decodes is the encoding of its one byte. */
  lemma EncodeDecodeOneByte(c0: char, c1: char, b: seq<Byte>)
    requires DecodeLast(c0, c1, Pad, Pad) == Some(b)
    ensures Encode(b) == [c0, c1, Pad, Pad]
  {
    var v0: int, v1: int := ValueOf(c0), ValueOf(c1);
    var x: int := v0 * 4 + v1 / 16;
    assert b == [x];
    Cut4(v0, v1 / 16);
    assert x % 4 * 16 == v1;
    assert Encode(b) == [CharOf(x / 4), CharOf(x % 4 * 16), Pad, Pad];
  }

  /** A quartet with one `=` that decodes is the encoding of its two bytes. */
  lemma EncodeDecodeTwoBytes(c0: char, c1: char, c2: char, b: seq<Byte>)
    requires IsSafeChar(c2) && DecodeLast(c0, c1, c2, Pad) == Some(b)
    ensures Encode(b) == [c0, c1, c2, Pad]
  {
    var v0: int, v1: int, v2: int := ValueOf(c0), ValueOf(c1), ValueOf(c2);
    var x0: int, x1: int := v0 * 4 + v1 / 16, v1 % 16 * 16 + v2 / 4;
    assert b == [x0, x1];
    Cut4(v0, v1 / 16);
    Cut16(v1 % 16, v2 / 4);
    assert x0 % 4 * 16 + x1 / 16 == v1;
    assert x1 % 16 * 4 == v2;
    assert Encode(b) == [CharOf(x0 / 4), CharOf(x0 % 4 * 16 + x1 / 16), CharOf(x1 % 16 * 4), Pad];
  }

  /** A quartet without `=` that decodes is the encoding of its group. */
  lemma EncodeDecodeThreeBytes(c0: char, c1: char, c2: char, c3: char, b: seq<Byte>)
    requires IsSafeChar(c2) && IsSafeChar(c3) && DecodeLast(c0, c1, c2, c3) == Some(b)
    ensures Encode(b) == [c0, c1, c2, c3]
  {
    EncodeGroupOfDecoded(ValueOf(c0), ValueOf(c1), ValueOf(c2), ValueOf(c3));
    assert b == [b[0], b[1], b[2]];
    EncodeOfGroup(b[0], b[1], b[2]);
  }

  /** A group of three bytes in front adds its four characters in front. */
  lemma EncodeAfterGroup(g: seq<Byte>, rest: seq<Byte>)
    requires |g| == 3
    ensures Encode(g + rest) == EncodeGroup(g[0], g[1], g[2]) + Encode(rest)
  {
    assert (g + rest)[3..] == rest;
  }

  /** Encoding undoes decoding: a text that decodes is the encoding of what it decodes to. */
  lemma {:induction false} EncodeDecode(s: string, b: seq<Byte>)
    requires Decode(s) == Some(b)
    ensures Encode(b) == s
    decreases |s|
  {
    if |s| == 0 {
    } else if |s| == 4 {
      EncodeDecodeLast(s[0], s[1], s[2], s[3], b);
      QuartetSplit(s);
    } else {
      var rest := Decode(s[4..]).value;
      EncodeDecode(s[4..], rest);
      EncodeDecodeStep(s, b, rest);
    }
  }

  /** A text of four characters or more is its first quartet followed by the rest. */
  lemma QuartetSplit(s: string)
    requires |s| >= 4
    ensures s == [s[0], s[1], s[2], s[3]] + s[4..]
  {
    assert s[..4] == [s[0], s[1], s[2], s[3]];
    assert s == s[..4] + s[4..];
  }

  /** One step of `EncodeDecode`: a first quartet of the alphabet is re-encoded in front of the rest. */
  lemma EncodeDecodeStep(s: string, b: seq<Byte>, rest: seq<Byte>)
    requires |s| > 4 && Decode(s) == Some(b) && Decode(s[4..]) == Some(rest) && Encode(rest) == s[4..]
    ensures Encode(b) == s
  {
    var g := DecodeGroup(ValueOf(s[0]), ValueOf(s[1]), ValueOf(s[2]), ValueOf(s[3]));
    assert b == g + rest;
    EncodeGroupOfDecoded(ValueOf(s[0]), ValueOf(s[1]), ValueOf(s[2]), ValueOf(s[3]));
    EncodeAfterGroup(g, rest);
    QuartetSplit(s);
  }

  /** Distinct random byte strings give distinct names. */
  lemma EncodeInjective(a: seq<Byte>, b: seq<Byte>)
    requires Encode(a) == Encode(b)
    ensures a == b
  {
    DecodeEncode(a);
    DecodeEncode(b);
  }

  /** The text never holds `/` (nor `+`), so it is a single path segment. */
  lemma {:induction false} EncodeHasNoSlash(b: seq<Byte>)
    ensures '/' !in Encode(b) && '+' !in Encode(b)
  {
    EncodeAlphabet(b);
  }

  /** The 32 bytes the handlers draw become 44 characters: 43 of the alphabet and one `=`. */
  lemma EncodeOf32(b: seq<Byte>)
    requires |b| == 32
    ensures |Encode(b)| == 44
    ensures forall i :: 0 <= i < 43 ==> IsSafeChar(Encode(b)[i])
    ensures Encode(b)[43] == Pad
  {
    EncodeLength(b);
    EncodeAlphabet(b);
    assert PadCount(32) == 1;
  }
}
