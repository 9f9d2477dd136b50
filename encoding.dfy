/**
 * Bytes and their text encodings as Node's `Buffer` produces and reads
 * them: lower-case hexadecimal, and base64 with the standard alphabet and
 * `=` padding (section 4 of RFC 4648).
 */
module Encoding {
  import opened Text

  newtype byte = x: int | 0 <= x < 256

  /** The hexadecimal digit of a value below 16, lower case. */
  function HexDigit(n: int): (c: char)
    requires 0 <= n < 16
    ensures c != ':'
  {
    if n < 10 then ('0' as int + n) as char else ('a' as int + n - 10) as char
  }

  /** The value of a hexadecimal digit of either case, or none. */
  function HexValue(c: char): (v: int)
    ensures -1 <= v < 16
  {
    if '0' <= c <= '9' then c as int - '0' as int
    else if 'a' <= c <= 'f' then c as int - 'a' as int + 10
    else if 'A' <= c <= 'F' then c as int - 'A' as int + 10
    else -1
  }

  /** `buf.toString('hex')`: two lower-case digits per byte. */
  function HexEncode(bs: seq<byte>): (s: string)
    ensures |s| == 2 * |bs|
    decreases |bs|
  {
    if bs == [] then []
    else [HexDigit(bs[0] as int / 16), HexDigit(bs[0] as int % 16)] + HexEncode(bs[1..])
  }

  /**
   * `Buffer.from(s, 'hex')`: bytes are read two digits at a time and
   * reading stops at the first pair that is not two hexadecimal digits
   * (so a trailing odd digit is dropped).
   */
  function HexDecode(s: string): (bs: seq<byte>)
    ensures 2 * |bs| <= |s|
    decreases |s|
  {
    if |s| < 2 then []
    else
      var hi := HexValue(s[0]);
      var lo := HexValue(s[1]);
      if hi < 0 || lo < 0 then [] else [(hi * 16 + lo) as byte] + HexDecode(s[2..])
  }

  lemma HexDigitValue(n: int)
    requires 0 <= n < 16
    ensures HexValue(HexDigit(n)) == n
  {
  }

  /** Decoding the hex text of some bytes gives the bytes back. */
  lemma {:induction false} HexRoundTrip(bs: seq<byte>)
    ensures HexDecode(HexEncode(bs)) == bs
    decreases |bs|
  {
    if bs != [] {
      var s := HexEncode(bs);
      HexDigitValue(bs[0] as int / 16);
      HexDigitValue(bs[0] as int % 16);
      assert s[2..] == HexEncode(bs[1..]);
      HexRoundTrip(bs[1..]);
      assert bs == [bs[0]] + bs[1..];
    }
  }

  /** Every character of hex text is a digit, never ':'. */
  lemma {:induction false} HexNoColonAt(bs: seq<byte>, k: nat)
    requires k < |HexEncode(bs)|
    ensures HexEncode(bs)[k] != ':'
    decreases |bs|
  {
    if k >= 2 {
      HexNoColonAt(bs[1..], k - 2);
    }
  }

  /** Hex text contains no ':', so it can stand as one field of a ':'-separated record. */
  lemma HexHasNoColon(bs: seq<byte>)
    ensures !Contains(HexEncode(bs), ":")
  {
    var s := HexEncode(bs);
    forall i: nat | i <= |s| ensures !OccursAt(s, ":", i) {
      if i + 1 <= |s| {
        HexNoColonAt(bs, i);
        assert s[i..i + 1] == [s[i]];
      }
    }
  }

  /** The base64 alphabet of section 4 of RFC 4648. */
  function Base64Char(n: int): (c: char)
    requires 0 <= n < 64
    ensures c != '='
  {
    if n < 26 then ('A' as int + n) as char
    else if n < 52 then ('a' as int + n - 26) as char
    else if n < 62 then ('0' as int + n - 52) as char
    else if n == 62 then '+'
    else '/'
  }

  /** The value of a base64 character, or -1. */
  function Base64Value(c: char): (v: int)
    ensures -1 <= v < 64
  {
    if 'A' <= c <= 'Z' then c as int - 'A' as int
    else if 'a' <= c <= 'z' then c as int - 'a' as int + 26
    else if '0' <= c <= '9' then c as int - '0' as int + 52
    else if c == '+' then 62
    else if c == '/' then 63
    else -1
  }

  lemma Base64CharValue(n: int)
    requires 0 <= n < 64
    ensures Base64Value(Base64Char(n)) == n
  {
  }

  /** The four characters of one group of three bytes, six bits each. */
  function EncodeGroup(b0: byte, b1: byte, b2: byte): (s: string)
    ensures |s| == 4
  {
    var x0 := b0 as int;
    var x1 := b1 as int;
    var x2 := b2 as int;
    [Base64Char(x0 / 4), Base64Char(x0 % 4 * 16 + x1 / 16), Base64Char(x1 % 16 * 4 + x2 / 64), Base64Char(x2 % 64)]
  }

  /** `buf.toString('base64')`: four characters per three bytes, the last group padded with `=`. */
  function Base64Encode(bs: seq<byte>): (s: string)
    ensures |s| == 4 * ((|bs| + 2) / 3)
    decreases |bs|
  {
    if |bs| == 0 then []
    else if |bs| == 1 then
      var g := EncodeGroup(bs[0], 0, 0);
      [g[0], g[1], '=', '=']
    else if |bs| == 2 then
      var g := EncodeGroup(bs[0], bs[1], 0);
      [g[0], g[1], g[2], '=']
    else
      assert (|bs| - 3 + 2) / 3 + 1 == (|bs| + 2) / 3;
      EncodeGroup(bs[0], bs[1], bs[2]) + Base64Encode(bs[3..])
  }

  /** The bytes of one group of four characters, `=` marking bytes absent. */
  function DecodeGroup(c0: char, c1: char, c2: char, c3: char): seq<byte> {
    var v0 := Base64Value(c0);
    var v1 := Base64Value(c1);
    var v2 := if c2 == '=' then 0 else Base64Value(c2);
    var v3 := if c3 == '=' then 0 else Base64Value(c3);
    if v0 < 0 || v1 < 0 || v2 < 0 || v3 < 0 then []
    else
      var bytes := GroupBytes(v0, v1, v2, v3);
      if c2 == '=' then bytes[..1] else if c3 == '=' then bytes[..2] else bytes
  }

  /** Four six-bit values regrouped as three bytes. */
  function GroupBytes(v0: int, v1: int, v2: int, v3: int): (bytes: seq<byte>)
    requires 0 <= v0 < 64 && 0 <= v1 < 64 && 0 <= v2 < 64 && 0 <= v3 < 64
    ensures |bytes| == 3
  {
    [(v0 * 4 + v1 / 16) as byte, (v1 % 16 * 16 + v2 / 4) as byte, (v2 % 4 * 64 + v3) as byte]
  }

  /**
   * `Buffer.from(s, 'base64')` on text made of whole groups of four
   * characters; reading stops at a group that is not valid base64.
   */
  function Base64Decode(s: string): seq<byte>
    decreases |s|
  {
    if |s| < 4 then []
    else
      var g := DecodeGroup(s[0], s[1], s[2], s[3]);
      if |g| == 3 then g + Base64Decode(s[4..]) else g
  }

  /** Splitting three bytes into four six-bit values and regrouping them gives the bytes back. */
  lemma RegroupBytes(b0: byte, b1: byte, b2: byte)
    ensures var x0, x1, x2 := b0 as int, b1 as int, b2 as int;
      GroupBytes(x0 / 4, x0 % 4 * 16 + x1 / 16, x1 % 16 * 4 + x2 / 64, x2 % 64) == [b0, b1, b2]
  {
    var x0, x1, x2 := b0 as int, b1 as int, b2 as int;
    var v1, v2 := x0 % 4 * 16 + x1 / 16, x1 % 16 * 4 + x2 / 64;
    assert x0 / 4 * 4 + v1 / 16 == x0 by {
      assert v1 / 16 == x0 % 4;
    }
    assert v1 % 16 * 16 + v2 / 4 == x1 by {
      assert v1 % 16 == x1 / 16;
      assert v2 / 4 == x1 % 16;
    }
    assert v2 % 4 * 64 + x2 % 64 == x2 by {
      assert v2 % 4 == x2 / 64;
    }
  }

  /** The characters of a group read back as the six-bit values they encode. */
  lemma GroupValues(b0: byte, b1: byte, b2: byte)
    ensures var s, x0, x1, x2 := EncodeGroup(b0, b1, b2), b0 as int, b1 as int, b2 as int;
      && Base64Value(s[0]) == x0 / 4
      && Base64Value(s[1]) == x0 % 4 * 16 + x1 / 16
      && Base64Value(s[2]) == x1 % 16 * 4 + x2 / 64
      && Base64Value(s[3]) == x2 % 64
      && s[2] != '=' && s[3] != '='
  {
    var x0 := b0 as int;
    var x1 := b1 as int;
    var x2 := b2 as int;
    Base64CharValue(x0 / 4);
    Base64CharValue(x0 % 4 * 16 + x1 / 16);
    Base64CharValue(x1 % 16 * 4 + x2 / 64);
    Base64CharValue(x2 % 64);
  }

  /** One full group decodes to its three bytes. */
  lemma GroupRoundTrip(b0: byte, b1: byte, b2: byte)
    ensures var s := EncodeGroup(b0, b1, b2); DecodeGroup(s[0], s[1], s[2], s[3]) == [b0, b1, b2]
  {
    GroupValues(b0, b1, b2);
    RegroupBytes(b0, b1, b2);
  }

  /** Decoding the base64 text of some bytes gives the bytes back. */
  lemma {:induction false} Base64RoundTrip(bs: seq<byte>)
    ensures Base64Decode(Base64Encode(bs)) == bs
    decreases |bs|
  {
    if |bs| == 1 {
      OneByteRoundTrip(bs[0]);
      assert bs == [bs[0]];
    } else if |bs| == 2 {
      TwoBytesRoundTrip(bs[0], bs[1]);
      assert bs == [bs[0], bs[1]];
    } else if |bs| > 2 {
      Base64RoundTrip(bs[3..]);
      EncodeFullGroup(bs);
      FullGroupStep(bs[0], bs[1], bs[2], Base64Encode(bs[3..]), bs[3..]);
      FirstThree(bs);
    }
  }

  lemma FirstThree(bs: seq<byte>)
    requires |bs| > 2
    ensures bs == [bs[0], bs[1], bs[2]] + bs[3..]
  {
  }

  /** A lone byte encodes as two characters and `==`, and decodes back. */
  lemma OneByteRoundTrip(b0: byte)
    ensures Base64Decode(Base64Encode([b0])) == [b0]
  {
    GroupValues(b0, 0, 0);
    RegroupBytes(b0, 0, 0);
  }

  /** Two bytes encode as three characters and `=`, and decode back. */
  lemma TwoBytesRoundTrip(b0: byte, b1: byte)
    ensures Base64Decode(Base64Encode([b0, b1])) == [b0, b1]
  {
    GroupValues(b0, b1, 0);
    RegroupBytes(b0, b1, 0);
  }

  /** A leading full group decodes to its bytes ahead of whatever the rest decodes to. */
  lemma FullGroupStep(b0: byte, b1: byte, b2: byte, rest: string, tail: seq<byte>)
    requires Base64Decode(rest) == tail
    ensures Base64Decode(EncodeGroup(b0, b1, b2) + rest) == [b0, b1, b2] + tail
  {
    GroupRoundTrip(b0, b1, b2);
    DecodeAfterGroup(EncodeGroup(b0, b1, b2), rest);
  }

  /** More than two bytes encode as the group of the first three, then the rest. */
  lemma EncodeFullGroup(bs: seq<byte>)
    requires |bs| > 2
    ensures Base64Encode(bs) == EncodeGroup(bs[0], bs[1], bs[2]) + Base64Encode(bs[3..])
  {
  }

  /** Text that starts with a group of four decoding to three bytes decodes as those bytes, then the rest. */
  lemma DecodeAfterGroup(g: string, rest: string)
    requires |g| == 4 && |DecodeGroup(g[0], g[1], g[2], g[3])| == 3
    ensures Base64Decode(g + rest) == DecodeGroup(g[0], g[1], g[2], g[3]) + Base64Decode(rest)
  {
    var s := g + rest;
    assert s[0] == g[0] && s[1] == g[1] && s[2] == g[2] && s[3] == g[3];
    assert s[4..] == rest;
  }

  /** Thirty-two bytes encode to 44 characters. */
  lemma Base64Of32(bs: seq<byte>)
    requires |bs| == 32
    ensures |Base64Encode(bs)| == 44
  {
    var n := |bs| + 2;
    assert n == 34 && n / 3 == 11;
  }
}
