/**
 * The server's configuration: the issuer written into access tokens, the
 * lifetimes of access and refresh tokens, and a random signing key written
 * as lower-case hex.
 */
module ServerConfig {
  import opened Wrappers
  import opened Encoding

  const DefaultIssuer: string := "open-erase"
  const DefaultAccessTokenValiditySecs: nat := 500
  const DefaultRefreshTokenValiditySecs: nat := 3600 * 24 * 7

  /** Bytes of randomness behind the default key. */
  const DefaultKeyLength: nat := 32

  datatype Config = Config(
    encryptionKey: string,
    issuer: string,
    accessTokenValiditySecs: nat,
    refreshTokenValiditySecs: nat)

  /**
   * `generate_encryption_key(length)`: `length` random bytes from the
   * operating system, given here as `random`, written as lower-case hex.
   */
  function GenerateEncryptionKey(length: nat, random: seq<byte>): (key: string)
    requires |random| == length
    ensures |key| == 2 * length
    ensures forall i :: 0 <= i < |key| ==> IsLowerHexDigit(key[i])
    ensures HexDecode(key) == Some(random)
  {
    HexRoundTrip(random);
    HexEncode(random)
  }

  /** `Config::default()`. */
  function Default(random: seq<byte>): (c: Config)
    requires |random| == DefaultKeyLength
    ensures c.issuer == "open-erase"
    ensures c.accessTokenValiditySecs == 500
    ensures c.refreshTokenValiditySecs == 604800
    ensures |c.encryptionKey| == 64
    ensures forall i :: 0 <= i < 64 ==> IsLowerHexDigit(c.encryptionKey[i])
    ensures HexDecode(c.encryptionKey) == Some(random)
  {
    Config(
      GenerateEncryptionKey(DefaultKeyLength, random),
      DefaultIssuer,
      DefaultAccessTokenValiditySecs,
      DefaultRefreshTokenValiditySecs)
  }

  /** `deserialize_config()`: nothing is read yet, so it is the default. */
  function DeserializeConfig(random: seq<byte>): (c: Config)
    requires |random| == DefaultKeyLength
    ensures c == Default(random)
  {
    Default(random)
  }

  /** Two configurations built from different randomness have different keys. */
  lemma DefaultKeysDiffer(random: seq<byte>, other: seq<byte>)
    requires |random| == DefaultKeyLength && |other| == DefaultKeyLength
    requires random != other
    ensures Default(random).encryptionKey != Default(other).encryptionKey
  {
  }
}
