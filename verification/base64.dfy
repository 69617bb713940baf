/**
 * The base64 encoding of section 4 of RFC 4648 (alphabet `A-Z a-z 0-9 + /`,
 * `=` padding), which recollq uses for every field it prints with `-F`.
 *
 * `Encode` is the canonical encoding. `Decode` accepts exactly the canonical
 * encodings (section 3.5 of RFC 4648) and returns the bytes they encode.
 */
module Base64 {
  import opened Wrappers

  type uint8 = x: int | 0 <= x < 256
  type Bytes = seq<uint8>
  type Sextet = x: int | 0 <= x < 64

  /** True for the 64 characters of the base64 alphabet. */
  predicate InAlphabet(c: char) {
    ('A' <= c <= 'Z') || ('a' <= c <= 'z') || ('0' <= c <= '9') || c == '+' || c == '/'
  }

  /** The alphabet character for a 6-bit value; reading it back gives the value. */
  function CharOf(v: Sextet): (c: char)
    ensures InAlphabet(c) && c != '=' && c != ' '
    ensures ValueOf(c) == v
  {
    if v < 26 then ('A' as int + v) as char
    else if v < 52 then ('a' as int + (v - 26)) as char
    else if v < 62 then ('0' as int + (v - 52)) as char
    else if v == 62 then '+'
    else '/'
  }

  /** The 6-bit value of an alphabet character (0 for any other character). */
  function ValueOf(c: char): Sextet {
    if 'A' <= c <= 'Z' then c as int - 'A' as int
    else if 'a' <= c <= 'z' then c as int - 'a' as int + 26
    else if '0' <= c <= '9' then c as int - '0' as int + 52
    else if c == '+' then 62
    else if c == '/' then 63
    else 0
  }

  /** Characters that may appear in an encoding. */
  predicate EncodingChar(c: char) {
    InAlphabet(c) || c == '='
  }

  /** Four characters for three bytes. */
  function EncodeTriple(b0: uint8, b1: uint8, b2: uint8): string {
    [CharOf(b0 / 4), CharOf((b0 % 4) * 16 + b1 / 16), CharOf((b1 % 16) * 4 + b2 / 64), CharOf(b2 % 64)]
  }

  /** The canonical base64 text of `b`: four characters per started group of
      three bytes, drawn from the alphabet and `=` only. */
  function Encode(b: Bytes): (s: string)
    ensures |s| == 4 * ((|b| + 2) / 3)
    ensures forall i :: 0 <= i < |s| ==> EncodingChar(s[i])
    ensures ' ' !in s && '\n' !in s
    decreases |b|
  {
    if |b| == 0 then ""
    else if |b| == 1 then [CharOf(b[0] / 4), CharOf((b[0] % 4) * 16), '=', '=']
    else if |b| == 2 then [CharOf(b[0] / 4), CharOf((b[0] % 4) * 16 + b[1] / 16), CharOf((b[1] % 16) * 4), '=']
    else EncodeTriple(b[0], b[1], b[2]) + Encode(b[3..])
  }

  /** Reads groups of four characters back into bytes, without validating. */
  function RawDecode(s: string): Bytes
    decreases |s|
  {
    if |s| < 4 then []
    else
      var v0, v1, v2, v3 := ValueOf(s[0]), ValueOf(s[1]), ValueOf(s[2]), ValueOf(s[3]);
      var b0: uint8 := v0 * 4 + v1 / 16;
      if s[2] == '=' then [b0]
      else
        var b1: uint8 := (v1 % 16) * 16 + v2 / 4;
        if s[3] == '=' then [b0, b1]
        else
          var b2: uint8 := (v2 % 4) * 64 + v3;
          [b0, b1, b2] + RawDecode(s[4..])
  }

  /** The bytes whose canonical encoding is `s`, or None when `s` is not a
      canonical encoding. */
  function Decode(s: string): Option<Bytes> {
    var b := RawDecode(s);
    if Encode(b) == s then Some(b) else None
  }

  lemma ByteSplit(b0: uint8, b1: uint8, b2: uint8)
    ensures (b0 / 4) * 4 + ((b0 % 4) * 16 + b1 / 16) / 16 == b0
    ensures (((b0 % 4) * 16 + b1 / 16) % 16) * 16 + ((b1 % 16) * 4 + b2 / 64) / 4 == b1
    ensures (((b1 % 16) * 4 + b2 / 64) % 4) * 64 + b2 % 64 == b2
  {
    assert ((b0 % 4) * 16 + b1 / 16) / 16 == b0 % 4;
    assert ((b0 % 4) * 16 + b1 / 16) % 16 == b1 / 16;
    assert ((b1 % 16) * 4 + b2 / 64) / 4 == b1 % 16;
    assert ((b1 % 16) * 4 + b2 / 64) % 4 == b2 / 64;
  }

  lemma DecodeOne(b0: uint8)
    ensures RawDecode([CharOf(b0 / 4), CharOf((b0 % 4) * 16), '=', '=']) == [b0]
  {
    ByteSplit(b0, 0, 0);
  }

  lemma DecodeTwo(b0: uint8, b1: uint8)
    ensures RawDecode([CharOf(b0 / 4), CharOf((b0 % 4) * 16 + b1 / 16), CharOf((b1 % 16) * 4), '=']) == [b0, b1]
  {
    ByteSplit(b0, b1, 0);
  }

  lemma DecodeTriple(b0: uint8, b1: uint8, b2: uint8, rest: string)
    ensures RawDecode(EncodeTriple(b0, b1, b2) + rest) == [b0, b1, b2] + RawDecode(rest)
  {
    ByteSplit(b0, b1, b2);
    var s := EncodeTriple(b0, b1, b2) + rest;
    assert s[4..] == rest;
    assert s[..4] == EncodeTriple(b0, b1, b2);
  }

  /** Decoding the canonical encoding gives back the bytes. */
  lemma {:induction false} RawDecodeEncode(b: Bytes)
    ensures RawDecode(Encode(b)) == b
    decreases |b|
  {
    if |b| == 1 {
      DecodeOne(b[0]);
    } else if |b| == 2 {
      DecodeTwo(b[0], b[1]);
    } else if |b| >= 3 {
      DecodeTriple(b[0], b[1], b[2], Encode(b[3..]));
      RawDecodeEncode(b[3..]);
      assert [b[0], b[1], b[2]] + b[3..] == b;
    }
  }

  /** `Decode` accepts `s` with result `b` exactly when `s` is the canonical
      encoding of `b`. */
  lemma DecodeIsInverse(s: string, b: Bytes)
    ensures Decode(s) == Some(b) <==> s == Encode(b)
  {
    if s == Encode(b) {
      RawDecodeEncode(b);
    }
  }
}
