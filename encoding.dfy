/**
 * The two text encodings of RFC 4648 that the server uses on random bytes:
 * base16 (section 8) in lower case, as the `hex` crate writes it, and the
 * URL- and filename-safe base64 alphabet (section 5) without padding
 * (section 3.2), as `BASE64_URL_SAFE_NO_PAD` writes it.
 * Each encoder comes with the decoder it is the inverse of.
 */
module Encoding {
  import opened Wrappers

  type byte = x: int | 0 <= x < 256

  // ---------------------------------------------------------------- base16

  predicate IsLowerHexDigit(c: char) {
    '0' <= c <= '9' || 'a' <= c <= 'f'
  }

  /** Digits the decoder accepts: both cases, as section 8 allows. */
  predicate IsHexDigit(c: char) {
    IsLowerHexDigit(c) || 'A' <= c <= 'F'
  }

  function HexDigit(n: nat): (c: char)
    requires n < 16
    ensures IsLowerHexDigit(c)
  {
    if n < 10 then ('0' as int + n) as char else ('a' as int + n - 10) as char
  }

  function HexValue(c: char): (n: nat)
    requires IsHexDigit(c)
    ensures n < 16
  {
    if '0' <= c <= '9' then c as int - '0' as int
    else if 'a' <= c <= 'f' then c as int - 'a' as int + 10
    else c as int - 'A' as int + 10
  }

  lemma HexValueOfDigit(n: nat)
    requires n < 16
    ensures HexValue(HexDigit(n)) == n
  {
  }

  /** Two lower-case digits per byte, high nibble first. */
  function HexEncode(bytes: seq<byte>): (s: string)
    ensures |s| == 2 * |bytes|
    ensures forall i :: 0 <= i < |s| ==> IsLowerHexDigit(s[i])
  {
    if bytes == [] then []
    else [HexDigit(bytes[0] / 16), HexDigit(bytes[0] % 16)] + HexEncode(bytes[1..])
  }

  function HexDecode(s: string): (r: Option<seq<byte>>)
    ensures r.Some? ==> 2 * |r.value| == |s|
  {
    if |s| == 0 then Some([])
    else if |s| == 1 || !IsHexDigit(s[0]) || !IsHexDigit(s[1]) then None
    else
      match HexDecode(s[2..])
      case None => None
      case Some(rest) => Some([HexValue(s[0]) * 16 + HexValue(s[1])] + rest)
  }

  lemma {:induction false} HexEncodeAppend(a: seq<byte>, b: seq<byte>)
    ensures HexEncode(a + b) == HexEncode(a) + HexEncode(b)
  {
    if a != [] {
      assert (a + b)[0] == a[0];
      assert (a + b)[1..] == a[1..] + b;
      HexEncodeAppend(a[1..], b);
      var h := [HexDigit(a[0] / 16), HexDigit(a[0] % 16)];
      calc {
        HexEncode(a + b);
        h + HexEncode(a[1..] + b);
        h + (HexEncode(a[1..]) + HexEncode(b));
        (h + HexEncode(a[1..])) + HexEncode(b);
      }
    } else {
      assert a + b == b;
    }
  }

  /** Decoding undoes encoding: the base16 round trip. */
  lemma {:induction false} HexRoundTrip(bytes: seq<byte>)
    ensures HexDecode(HexEncode(bytes)) == Some(bytes)
  {
    if bytes != [] {
      var s := HexEncode(bytes);
      HexValueOfDigit(bytes[0] / 16);
      HexValueOfDigit(bytes[0] % 16);
      assert s[2..] == HexEncode(bytes[1..]);
      HexRoundTrip(bytes[1..]);
      assert [bytes[0]] + bytes[1..] == bytes;
    }
  }

  // ---------------------------------------------- base64url, no padding

  predicate IsBase64UrlChar(c: char) {
    'A' <= c <= 'Z' || 'a' <= c <= 'z' || '0' <= c <= '9' || c == '-' || c == '_'
  }

  /** The alphabet of Table 2 in section 5 of RFC 4648. */
  function Base64UrlChar(n: nat): (c: char)
    requires n < 64
    ensures IsBase64UrlChar(c)
  {
    if n < 26 then ('A' as int + n) as char
    else if n < 52 then ('a' as int + n - 26) as char
    else if n < 62 then ('0' as int + n - 52) as char
    else if n == 62 then '-'
    else '_'
  }

  function Base64UrlValue(c: char): (n: nat)
    requires IsBase64UrlChar(c)
    ensures n < 64
  {
    if 'A' <= c <= 'Z' then c as int - 'A' as int
    else if 'a' <= c <= 'z' then c as int - 'a' as int + 26
    else if '0' <= c <= '9' then c as int - '0' as int + 52
    else if c == '-' then 62
    else 63
  }

  lemma Base64UrlValueOfChar(n: nat)
    requires n < 64
    ensures Base64UrlValue(Base64UrlChar(n)) == n
  {
  }

  /** Characters in an unpadded encoding of n bytes: four per full group of three, then 0, 2 or 3. */
  function EncodedLength(n: nat): nat {
    if n % 3 == 0 then 4 * (n / 3) else 4 * (n / 3) + n % 3 + 1
  }

  /** A full group of three bytes becomes four characters. */
  function EncodeGroup(b0: byte, b1: byte, b2: byte): (s: string)
    ensures |s| == 4 && forall i :: 0 <= i < 4 ==> IsBase64UrlChar(s[i])
  {
    [Base64UrlChar(b0 / 4),
     Base64UrlChar((b0 % 4) * 16 + b1 / 16),
     Base64UrlChar((b1 % 16) * 4 + b2 / 64),
     Base64UrlChar(b2 % 64)]
  }

  /** A final group of one or two bytes becomes two or three characters, unpadded. */
  function EncodeTail(tail: seq<byte>): (s: string)
    requires 1 <= |tail| <= 2
    ensures |s| == |tail| + 1 && forall i :: 0 <= i < |s| ==> IsBase64UrlChar(s[i])
  {
    if |tail| == 1 then
      [Base64UrlChar(tail[0] / 4), Base64UrlChar((tail[0] % 4) * 16)]
    else
      [Base64UrlChar(tail[0] / 4),
       Base64UrlChar((tail[0] % 4) * 16 + tail[1] / 16),
       Base64UrlChar((tail[1] % 16) * 4)]
  }

  function Base64UrlEncode(bytes: seq<byte>): (s: string)
    ensures |s| == EncodedLength(|bytes|)
    ensures forall i :: 0 <= i < |s| ==> IsBase64UrlChar(s[i])
  {
    if |bytes| == 0 then []
    else if |bytes| < 3 then EncodeTail(bytes)
    else EncodeGroup(bytes[0], bytes[1], bytes[2]) + Base64UrlEncode(bytes[3..])
  }

  /**
   * The inverse decoder. Like the `base64` crate's default configuration it
   * refuses a length of 1 modulo 4 and non-zero bits left over in the last
   * character, so every accepted text has exactly one byte string behind it.
   */
  function Base64UrlDecode(s: string): (r: Option<seq<byte>>)
  {
    if |s| == 0 then Some([])
    else if |s| == 1 then None
    else if !IsBase64UrlChar(s[0]) || !IsBase64UrlChar(s[1]) then None
    else
      var v0, v1 := Base64UrlValue(s[0]), Base64UrlValue(s[1]);
      if |s| == 2 then
        if v1 % 16 != 0 then None else Some([v0 * 4 + v1 / 16])
      else if !IsBase64UrlChar(s[2]) then None
      else
        var v2 := Base64UrlValue(s[2]);
        if |s| == 3 then
          if v2 % 4 != 0 then None
          else Some([v0 * 4 + v1 / 16, (v1 % 16) * 16 + v2 / 4])
        else if !IsBase64UrlChar(s[3]) then None
        else
          var v3 := Base64UrlValue(s[3]);
          match Base64UrlDecode(s[4..])
          case None => None
          case Some(rest) =>
            Some([v0 * 4 + v1 / 16, (v1 % 16) * 16 + v2 / 4, (v2 % 4) * 64 + v3] + rest)
  }

  /** The arithmetic of one group of three bytes and its four sextets. */
  lemma GroupRoundTrip(b0: byte, b1: byte, b2: byte)
    ensures (b0 / 4) * 4 + ((b0 % 4) * 16 + b1 / 16) / 16 == b0
    ensures (((b0 % 4) * 16 + b1 / 16) % 16) * 16 + ((b1 % 16) * 4 + b2 / 64) / 4 == b1
    ensures (((b1 % 16) * 4 + b2 / 64) % 4) * 64 + b2 % 64 == b2
  {
  }

  lemma TailRoundTrip(tail: seq<byte>)
    requires 1 <= |tail| <= 2
    ensures Base64UrlDecode(EncodeTail(tail)) == Some(tail)
  {
    var s := EncodeTail(tail);
    Base64UrlValueOfChar(tail[0] / 4);
    if |tail| == 1 {
      Base64UrlValueOfChar((tail[0] % 4) * 16);
      assert tail == [tail[0]];
    } else {
      Base64UrlValueOfChar((tail[0] % 4) * 16 + tail[1] / 16);
      Base64UrlValueOfChar((tail[1] % 16) * 4);
      GroupRoundTrip(tail[0], tail[1], 0);
      assert tail == [tail[0], tail[1]];
    }
  }

  lemma GroupThenRest(b0: byte, b1: byte, b2: byte, rest: string, decoded: seq<byte>)
    requires Base64UrlDecode(rest) == Some(decoded)
    ensures Base64UrlDecode(EncodeGroup(b0, b1, b2) + rest) == Some([b0, b1, b2] + decoded)
  {
    var s := EncodeGroup(b0, b1, b2) + rest;
    Base64UrlValueOfChar(b0 / 4);
    Base64UrlValueOfChar((b0 % 4) * 16 + b1 / 16);
    Base64UrlValueOfChar((b1 % 16) * 4 + b2 / 64);
    Base64UrlValueOfChar(b2 % 64);
    GroupRoundTrip(b0, b1, b2);
    assert s[4..] == rest;
  }

  /** Decoding undoes encoding: the base64url round trip. */
  lemma {:induction false} Base64UrlRoundTrip(bytes: seq<byte>)
    ensures Base64UrlDecode(Base64UrlEncode(bytes)) == Some(bytes)
  {
    if 1 <= |bytes| < 3 {
      TailRoundTrip(bytes);
    } else if |bytes| >= 3 {
      Base64UrlRoundTrip(bytes[3..]);
      GroupThenRest(bytes[0], bytes[1], bytes[2], Base64UrlEncode(bytes[3..]), bytes[3..]);
      assert [bytes[0], bytes[1], bytes[2]] + bytes[3..] == bytes;
    }
  }

  // ------------------------------------------------- UTF-8 (`str::as_bytes`)

  /** The UTF-8 encoding of one Unicode scalar value: one to four bytes. */
  function Utf8Char(c: char): (r: seq<byte>)
    ensures 1 <= |r| <= 4
    ensures c as int < 0x80 <==> r == [c as int]
  {
    var n := c as int;
    if n < 0x80 then [n]
    else if n < 0x800 then [0xC0 + n / 0x40, 0x80 + n % 0x40]
    else if n < 0x1_0000 then [0xE0 + n / 0x1000, 0x80 + (n / 0x40) % 0x40, 0x80 + n % 0x40]
    else [0xF0 + n / 0x4_0000, 0x80 + (n / 0x1000) % 0x40, 0x80 + (n / 0x40) % 0x40, 0x80 + n % 0x40]
  }

  /** `str::as_bytes`: the UTF-8 bytes of a string. */
  function Utf8(s: string): (r: seq<byte>)
    ensures |s| <= |r| <= 4 * |s|
  {
    if s == [] then [] else Utf8Char(s[0]) + Utf8(s[1..])
  }
}
