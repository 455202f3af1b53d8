/** The base 64 encoding of section 4 of RFC 4648, as Python's
    `base64.b64encode` produces it: the standard alphabet of Table 1, and
    `=` padding so that the output length is a multiple of four. The
    decoder is the encoder's inverse; it is here to show that the encoding
    loses nothing. */
module Base64 {

  type Byte = b: int | 0 <= b < 256

  /** A 6-bit group: the value one output character stands for. */
  type Sextet = v: int | 0 <= v < 64

  const Pad: char := '='

  /** Table 1 of RFC 4648: `A`-`Z`, `a`-`z`, `0`-`9`, `+`, `/`. */
  function Char(v: Sextet): char {
    if v < 26 then ('A' as int + v) as char
    else if v < 52 then ('a' as int + (v - 26)) as char
    else if v < 62 then ('0' as int + (v - 52)) as char
    else if v == 62 then '+'
    else '/'
  }

  predicate IsAlphabet(c: char) {
    ('A' <= c <= 'Z') || ('a' <= c <= 'z') || ('0' <= c <= '9') || c == '+' || c == '/'
  }

  /** The value of an alphabet character (0 for any other character). */
  function Value(c: char): Sextet {
    if 'A' <= c <= 'Z' then c as int - 'A' as int
    else if 'a' <= c <= 'z' then c as int - 'a' as int + 26
    else if '0' <= c <= '9' then c as int - '0' as int + 52
    else if c == '+' then 62
    else if c == '/' then 63
    else 0
  }

  lemma CharIsAlphabet(v: Sextet)
    ensures IsAlphabet(Char(v)) && Char(v) != Pad
    ensures Value(Char(v)) == v
  {
  }

  /** The four characters for a 24-bit group of three bytes. */
  function Quantum(b0: Byte, b1: Byte, b2: Byte): string {
    [Char(b0 / 4), Char((b0 % 4) * 16 + b1 / 16), Char((b1 % 16) * 4 + b2 / 64), Char(b2 % 64)]
  }

  /** `base64.b64encode`: whole groups of three bytes become four characters;
      a final group of one or two bytes is completed with zero bits, and the
      characters that stand only for those bits are replaced by `=`. */
  function Encode(bytes: seq<Byte>): (s: string)
    ensures |s| == 4 * ((|bytes| + 2) / 3)
    ensures forall i :: 0 <= i < |s| ==> IsAlphabet(s[i]) || (s[i] == Pad && |s| - 2 <= i)
    decreases |bytes|
  {
    if |bytes| == 0 then ""
    else if |bytes| == 1 then
      CharsAreAlphabet(bytes[0], 0, 0);
      Quantum(bytes[0], 0, 0)[..2] + [Pad, Pad]
    else if |bytes| == 2 then
      CharsAreAlphabet(bytes[0], bytes[1], 0);
      Quantum(bytes[0], bytes[1], 0)[..3] + [Pad]
    else
      CharsAreAlphabet(bytes[0], bytes[1], bytes[2]);
      Quantum(bytes[0], bytes[1], bytes[2]) + Encode(bytes[3..])
  }

  lemma CharsAreAlphabet(b0: Byte, b1: Byte, b2: Byte)
    ensures forall i :: 0 <= i < 4 ==> IsAlphabet(Quantum(b0, b1, b2)[i])
  {
  }

  /** Decoding of four characters: three bytes, or one or two when the
      group is padded (a padded group ends the input). */
  function Decode(s: string): seq<Byte>
    decreases |s|
  {
    if |s| < 4 then []
    else
      var v0, v1, v2, v3 := Value(s[0]), Value(s[1]), Value(s[2]), Value(s[3]);
      var b0: Byte := v0 * 4 + v1 / 16;
      var b1: Byte := (v1 % 16) * 16 + v2 / 4;
      var b2: Byte := (v2 % 4) * 64 + v3;
      if s[2] == Pad then [b0]
      else if s[3] == Pad then [b0, b1]
      else [b0, b1, b2] + Decode(s[4..])
  }

  /** Decoding the characters of a group gives its bytes back. */
  lemma QuantumRoundTrip(b0: Byte, b1: Byte, b2: Byte)
    ensures var q := Quantum(b0, b1, b2);
      && Value(q[0]) * 4 + Value(q[1]) / 16 == b0
      && (Value(q[1]) % 16) * 16 + Value(q[2]) / 4 == b1
      && (Value(q[2]) % 4) * 64 + Value(q[3]) == b2
      && q[0] != Pad && q[1] != Pad && q[2] != Pad && q[3] != Pad
  {
    CharIsAlphabet(b0 / 4);
    CharIsAlphabet((b0 % 4) * 16 + b1 / 16);
    CharIsAlphabet((b1 % 16) * 4 + b2 / 64);
    CharIsAlphabet(b2 % 64);
  }

  lemma DecodeFullGroup(b0: Byte, b1: Byte, b2: Byte, rest: string)
    ensures Decode(Quantum(b0, b1, b2) + rest) == [b0, b1, b2] + Decode(rest)
  {
    var s := Quantum(b0, b1, b2) + rest;
    QuantumRoundTrip(b0, b1, b2);
    assert s[0] == Quantum(b0, b1, b2)[0] && s[1] == Quantum(b0, b1, b2)[1];
    assert s[2] == Quantum(b0, b1, b2)[2] && s[3] == Quantum(b0, b1, b2)[3];
    assert s[4..] == rest;
  }

  lemma DecodeOneByteGroup(b0: Byte)
    ensures Decode(Quantum(b0, 0, 0)[..2] + [Pad, Pad]) == [b0]
  {
  }

  lemma DecodeTwoByteGroup(b0: Byte, b1: Byte)
    ensures Decode(Quantum(b0, b1, 0)[..3] + [Pad]) == [b0, b1]
  {
    var q := Quantum(b0, b1, 0);
    var s := q[..3] + [Pad];
    QuantumRoundTrip(b0, b1, 0);
    assert s[0] == q[0] && s[1] == q[1] && s[2] == q[2] && s[3] == Pad;
  }

  /** The encoding is lossless: decoding it gives the bytes back. */
  lemma {:induction false} DecodeEncode(bytes: seq<Byte>)
    ensures Decode(Encode(bytes)) == bytes
    decreases |bytes|
  {
    if |bytes| == 1 {
      DecodeOneByteGroup(bytes[0]);
    } else if |bytes| == 2 {
      DecodeTwoByteGroup(bytes[0], bytes[1]);
    } else if |bytes| >= 3 {
      DecodeFullGroup(bytes[0], bytes[1], bytes[2], Encode(bytes[3..]));
      DecodeEncode(bytes[3..]);
      assert bytes == [bytes[0], bytes[1], bytes[2]] + bytes[3..];
    }
  }

  /** Different byte sequences have different encodings. */
  lemma EncodeInjective(a: seq<Byte>, b: seq<Byte>)
    requires Encode(a) == Encode(b)
    ensures a == b
  {
    DecodeEncode(a);
    DecodeEncode(b);
  }
}
