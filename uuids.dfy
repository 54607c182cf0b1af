/**
 * The `uuid` crate as the server uses it: a UUID is 16 bytes, `to_string`
 * writes the hyphenated lower-case form, and `Uuid::parse_str` reads it back.
 */
module Uuids {
  import opened Wrappers
  import opened Encoding

  type Uuid = b: seq<byte> | |b| == 16 witness NilBytes()

  function NilBytes(): seq<byte> {
    seq(16, _ => 0)
  }

  /** `Uuid::default()` / `Uuid::nil()`: all sixteen bytes zero. */
  function Nil(): (u: Uuid)
    ensures forall i :: 0 <= i < 16 ==> u[i] == 0
  {
    NilBytes()
  }

  /** `uuid::Error`: the crate does not tell its callers more than that parsing failed. */
  datatype UuidError = InvalidUuid

  /** `Uuid::to_string`: 8-4-4-4-12 lower-case hex digits separated by hyphens. */
  function ToString(u: Uuid): (s: string)
    ensures |s| == 36
    ensures forall i :: 0 <= i < |s| ==> IsLowerHexDigit(s[i]) || s[i] == '-'
  {
    HexEncode(u[..4]) + "-" + HexEncode(u[4..6]) + "-" + HexEncode(u[6..8]) + "-"
    + HexEncode(u[8..10]) + "-" + HexEncode(u[10..])
  }

  /** Reads the hyphenated form: hyphens at 8, 13, 18 and 23, hex digits elsewhere. */
  function ParseHyphenated(s: string): (r: Result<Uuid, UuidError>)
    requires |s| == 36
  {
    if s[8] != '-' || s[13] != '-' || s[18] != '-' || s[23] != '-' then Err(InvalidUuid)
    else ParseSimple(s[..8] + s[9..13] + s[14..18] + s[19..23] + s[24..])
  }

  /** Reads the simple form: 32 hex digits. */
  function ParseSimple(s: string): (r: Result<Uuid, UuidError>)
  {
    match HexDecode(s)
    case Some(bytes) => if |bytes| == 16 then Ok(bytes) else Err(InvalidUuid)
    case None => Err(InvalidUuid)
  }

  /**
   * `Uuid::parse_str`: the simple (32), hyphenated (36), braced (38) and
   * URN (45) forms, hex digits in either case; anything else is an error.
   */
  function ParseStr(s: string): (r: Result<Uuid, UuidError>)
    ensures r.Ok? ==> |s| in {32, 36, 38, 45}
  {
    if |s| == 32 then ParseSimple(s)
    else if |s| == 36 then ParseHyphenated(s)
    else if |s| == 38 && s[0] == '{' && s[37] == '}' then ParseHyphenated(s[1..37])
    else if |s| == 45 && s[..9] == "urn:uuid:" then ParseHyphenated(s[9..])
    else Err(InvalidUuid)
  }

  /** Where the pieces of a hyphenated text sit. */
  lemma HyphenatedLayout(h0: string, h1: string, h2: string, h3: string, h4: string)
    requires |h0| == 8 && |h1| == 4 && |h2| == 4 && |h3| == 4 && |h4| == 12
    ensures var s := h0 + "-" + h1 + "-" + h2 + "-" + h3 + "-" + h4;
      && |s| == 36 && s[8] == '-' && s[13] == '-' && s[18] == '-' && s[23] == '-'
      && s[..8] + s[9..13] + s[14..18] + s[19..23] + s[24..] == h0 + h1 + h2 + h3 + h4
  {
    var s := h0 + "-" + h1 + "-" + h2 + "-" + h3 + "-" + h4;
    assert s[..8] == h0;
    assert s[9..13] == h1;
    assert s[14..18] == h2;
    assert s[19..23] == h3;
    assert s[24..] == h4;
  }

  /** The five groups of digits together are the hex text of all sixteen bytes. */
  lemma GroupsAreHex(u: Uuid)
    ensures HexEncode(u[..4]) + HexEncode(u[4..6]) + HexEncode(u[6..8])
            + HexEncode(u[8..10]) + HexEncode(u[10..]) == HexEncode(u)
  {
    HexEncodeAppend(u[..4], u[4..6]);
    assert u[..4] + u[4..6] == u[..6];
    HexEncodeAppend(u[..6], u[6..8]);
    assert u[..6] + u[6..8] == u[..8];
    HexEncodeAppend(u[..8], u[8..10]);
    assert u[..8] + u[8..10] == u[..10];
    HexEncodeAppend(u[..10], u[10..]);
    assert u[..10] + u[10..] == u;
  }

  /** Parsing the written form gives the UUID back. */
  lemma ParseToString(u: Uuid)
    ensures ParseStr(ToString(u)) == Ok(u)
  {
    HyphenatedLayout(HexEncode(u[..4]), HexEncode(u[4..6]), HexEncode(u[6..8]),
                     HexEncode(u[8..10]), HexEncode(u[10..]));
    GroupsAreHex(u);
    HexRoundTrip(u);
  }

  /** Different UUIDs are written differently. */
  lemma ToStringInjective(u: Uuid, v: Uuid)
    requires ToString(u) == ToString(v)
    ensures u == v
  {
    ParseToString(u);
    ParseToString(v);
  }

  /** The written form never contains a full stop, the separator of composite tokens. */
  lemma ToStringHasNoDot(u: Uuid)
    ensures '.' !in ToString(u)
  {
    var s := ToString(u);
    forall i | 0 <= i < |s| ensures s[i] != '.' {
      assert IsLowerHexDigit(s[i]) || s[i] == '-';
    }
  }
}
