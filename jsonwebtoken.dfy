/**
 * The `jsonwebtoken` crate as the server calls it, with `Header::default()`
 * (HS256, section 3.2 of RFC 7518). Signing and checking a signature are
 * not modelled: they are two function values that `Lawful` constrains.
 * What `decode` does once the signature is good, the checks a `Validation`
 * asks for, is modelled.
 */
module JsonWebToken {
  import opened Wrappers
  import opened Encoding

  /** The registered claims of section 4.1 of RFC 7519 that the server issues. */
  datatype Claims = Claims(sub: string, iss: string, exp: nat, iat: nat)

  /** `jsonwebtoken::errors::ErrorKind`, the variants that matter here. */
  datatype JwtError = InvalidToken | InvalidSignature | ExpiredSignature | InvalidIssuer | Json

  type Key = seq<byte>

  /** `Validation`: check `exp` with some leeway, and `iss` when a set of issuers is given. */
  datatype Validation = Validation(validateExp: bool, leeway: nat, iss: Option<set<string>>)

  /** `Validation::new(Algorithm::HS256)`: `exp` checked with 60 seconds of leeway, any issuer. */
  function NewValidation(): (v: Validation)
    ensures v.validateExp && v.iss == None
  {
    Validation(true, 60, None)
  }

  /** `validation.set_issuer(issuers)`. */
  function SetIssuer(v: Validation, issuers: seq<string>): (w: Validation)
    ensures w.iss == Some(set i | i in issuers) && w.validateExp == v.validateExp && w.leeway == v.leeway
  {
    v.(iss := Some(set i | i in issuers))
  }

  /**
   * HS256 signing of a claim set and checking a token's signature, both under
   * an HMAC block key; `hmacKey` is the block key HMAC derives from a key
   * (section 2 of RFC 2104): the key zero-padded to the block or, for a key
   * longer than the block, its SHA-256 digest zero-padded. Two keys with one
   * block key are one key to HS256.
   */
  datatype Signer = Signer(
    sign: (Claims, seq<byte>) -> Result<string, JwtError>,
    open: (string, seq<byte>) -> Result<Claims, JwtError>,
    hmacKey: Key -> seq<byte>)

  /** The block size of SHA-256, in bytes. */
  const BlockSize: nat := 64

  /** `k` followed by zero bytes up to the block size. */
  function ZeroPadded(k: Key): (b: seq<byte>)
    requires |k| <= BlockSize
    ensures |b| == BlockSize && b[..|k|] == k
    ensures forall i :: |k| <= i < BlockSize ==> b[i] == 0
  {
    k + seq(BlockSize - |k|, _ => 0)
  }

  /** Characters of the JWS compact serialization (section 7.1 of RFC 7515): base64url parts joined by full stops. */
  predicate IsCompactChar(c: char) {
    IsBase64UrlChar(c) || c == '.'
  }

  /**
   * What the model assumes of HS256: a token opens, under the block key that
   * signed it, to exactly the claims signed, and under any other block key
   * not at all; and a token is written in the compact serialization.
   */
  ghost predicate Lawful(s: Signer) {
    && (forall c, b :: s.sign(c, b).Ok? ==> s.open(s.sign(c, b).value, b) == Ok(c))
    && (forall c, b, b' :: s.sign(c, b).Ok? && b' != b ==> s.open(s.sign(c, b).value, b').Err?)
    && (forall c, b, i :: s.sign(c, b).Ok? && 0 <= i < |s.sign(c, b).value| ==> IsCompactChar(s.sign(c, b).value[i]))
  }

  /** HMAC's block key for a key no longer than the block is the key zero-padded. */
  ghost predicate PadsShortKeys(s: Signer) {
    forall k :: |k| <= BlockSize ==> s.hmacKey(k) == ZeroPadded(k)
  }

  /** `encode(&Header::default(), &claims, &EncodingKey::from_secret(key))`. */
  function Encode(s: Signer, claims: Claims, key: Key): Result<string, JwtError> {
    s.sign(claims, s.hmacKey(key))
  }

  /** The signature check of `decode` under `DecodingKey::from_secret(key)`: the claims a token carries. */
  function Open(s: Signer, token: string, key: Key): Result<Claims, JwtError> {
    s.open(token, s.hmacKey(key))
  }

  /** The claim checks `decode` makes after the signature, at time `now`. */
  function ValidateClaims(c: Claims, v: Validation, now: nat): (r: Result<Claims, JwtError>)
    ensures r.Ok? <==> (!v.validateExp || c.exp + v.leeway >= now) && (v.iss.None? || c.iss in v.iss.value)
    ensures r.Ok? ==> r.value == c
    ensures r.Err? ==> r.error in {ExpiredSignature, InvalidIssuer}
  {
    if v.validateExp && c.exp + v.leeway < now then Err(ExpiredSignature)
    else if v.iss.Some? && c.iss !in v.iss.value then Err(InvalidIssuer)
    else Ok(c)
  }

  /** `decode::<Claims>(token, &key, &validation)`, keeping only the claims. */
  function Decode(s: Signer, token: string, key: Key, v: Validation, now: nat): (r: Result<Claims, JwtError>)
    ensures Open(s, token, key).Err? ==> r == Err(Open(s, token, key).error)
    ensures Open(s, token, key).Ok? ==> r == ValidateClaims(Open(s, token, key).value, v, now)
    ensures r.Ok? ==> Open(s, token, key) == Ok(r.value)
  {
    match Open(s, token, key)
    case Err(e) => Err(e)
    case Ok(c) => ValidateClaims(c, v, now)
  }

  /** A token decodes, under the key that signed it, as its claims pass validation. */
  lemma DecodeEncoded(s: Signer, c: Claims, key: Key, v: Validation, now: nat)
    requires Lawful(s) && Encode(s, c, key).Ok?
    ensures Decode(s, Encode(s, c, key).value, key, v, now) == ValidateClaims(c, v, now)
  {
  }

  /** A token never decodes under a key whose HMAC block key differs from the signing key's. */
  lemma DecodeOtherKey(s: Signer, c: Claims, key: Key, other: Key, v: Validation, now: nat)
    requires Lawful(s) && Encode(s, c, key).Ok? && s.hmacKey(other) != s.hmacKey(key)
    ensures Decode(s, Encode(s, c, key).value, other, v, now).Err?
  {
  }

  /** A token decodes under any key with the signing key's block key: a short key and the key with zero bytes appended are one key. */
  lemma {:induction false} ZeroExtendedKeyDecodes(s: Signer, c: Claims, key: Key, zeros: nat, v: Validation, now: nat)
    requires Lawful(s) && PadsShortKeys(s) && Encode(s, c, key).Ok? && |key| + zeros <= BlockSize
    ensures key + seq(zeros, _ => 0) != key <==> zeros > 0
    ensures Decode(s, Encode(s, c, key).value, key + seq(zeros, _ => 0), v, now) == ValidateClaims(c, v, now)
  {
    var longer := key + seq(zeros, _ => 0);
    assert ZeroPadded(longer) == ZeroPadded(key) by {
      assert forall i :: 0 <= i < BlockSize ==> ZeroPadded(longer)[i] == ZeroPadded(key)[i] by {
        forall i | 0 <= i < BlockSize ensures ZeroPadded(longer)[i] == ZeroPadded(key)[i] {
          if i < |key| {
            assert ZeroPadded(longer)[..|longer|][i] == longer[i];
            assert ZeroPadded(key)[..|key|][i] == key[i];
          } else if i < |longer| {
            assert ZeroPadded(longer)[..|longer|][i] == longer[i];
          }
        }
      }
    }
    assert |longer| == |key| + zeros;
  }
}
