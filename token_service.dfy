/**
 * `TokenService`: issuing an access token for a user and decoding one,
 * with the signing key and the lifetime taken from the configuration.
 * The clock is the parameter `now`, in whole seconds since the epoch.
 */
module TokenService {
  import opened Wrappers
  import opened Encoding
  import opened Uuids
  import opened JsonWebToken
  import opened Errors
  import opened ServerConfig

  /** `config.secret.as_bytes()`: the configured key, as UTF-8 bytes. */
  function SecretKey(config: Config): Key {
    Utf8(config.encryptionKey)
  }

  /** The claims `generate` signs for `user` at time `now`. */
  function GenerateClaims(user: Uuid, config: Config, now: nat): Claims {
    Claims(ToString(user), config.issuer, now + config.accessTokenValiditySecs, now)
  }

  /** `generate`: the claims above, signed with the configured key. */
  function Generate(s: Signer, user: Uuid, config: Config, now: nat): (r: Result<string, ServiceError>)
    ensures r.Ok? <==> Encode(s, GenerateClaims(user, config, now), SecretKey(config)).Ok?
    ensures r.Ok? ==> r.value == Encode(s, GenerateClaims(user, config, now), SecretKey(config)).value
    ensures r.Err? ==> r.error.Token?
  {
    match Encode(s, GenerateClaims(user, config, now), SecretKey(config))
    case Ok(token) => Ok(token)
    case Err(e) => Err(Token(e))
  }

  /**
   * `decode`: checks the signature with the configured key, then validates
   * with a fresh `Validation::new(HS256)`. The `validation` the code builds
   * with `set_issuer` is never passed on, so the issuer is not checked.
   */
  function Decode(s: Signer, jwt: string, config: Config, now: nat): (r: Result<Claims, ServiceError>)
    ensures r.Ok? <==> JsonWebToken.Decode(s, jwt, SecretKey(config), NewValidation(), now).Ok?
    ensures r.Ok? ==> Open(s, jwt, SecretKey(config)) == Ok(r.value)
    ensures r.Err? ==> r.error == Token(JsonWebToken.Decode(s, jwt, SecretKey(config), NewValidation(), now).error)
  {
    var validation := SetIssuer(NewValidation(), [config.issuer]);
    match JsonWebToken.Decode(s, jwt, SecretKey(config), NewValidation(), now)
    case Ok(claims) => Ok(claims)
    case Err(e) => Err(Token(e))
  }

  /**
   * A generated token decodes, until its expiry plus the 60 seconds of
   * leeway, to claims naming the user, stamped `now`, expiring exactly the
   * configured lifetime later, and issued by the configured issuer.
   */
  lemma GenerateThenDecode(s: Signer, user: Uuid, config: Config, now: nat, later: nat)
    requires JsonWebToken.Lawful(s)
    requires Generate(s, user, config, now).Ok?
    requires later <= now + config.accessTokenValiditySecs + 60
    ensures var r := Decode(s, Generate(s, user, config, now).value, config, later);
      && r.Ok?
      && ParseStr(r.value.sub) == Ok(user)
      && r.value.iat == now
      && r.value.exp - r.value.iat == config.accessTokenValiditySecs
      && r.value.iss == config.issuer
  {
    var c := GenerateClaims(user, config, now);
    DecodeEncoded(s, c, SecretKey(config), NewValidation(), later);
    ParseToString(user);
  }

  /** Past its expiry and the leeway, a generated token is refused as expired. */
  lemma GeneratedTokenExpires(s: Signer, user: Uuid, config: Config, now: nat, later: nat)
    requires JsonWebToken.Lawful(s)
    requires Generate(s, user, config, now).Ok?
    requires later > now + config.accessTokenValiditySecs + 60
    ensures Decode(s, Generate(s, user, config, now).value, config, later) == Err(Token(ExpiredSignature))
  {
    DecodeEncoded(s, GenerateClaims(user, config, now), SecretKey(config), NewValidation(), later);
  }

  /**
   * As written, `decode` accepts a token whose issuer is not the configured
   * one: the issuer restriction set up on `validation` is never used.
   */
  lemma DecodeIgnoresIssuer(s: Signer, c: Claims, config: Config, now: nat)
    requires JsonWebToken.Lawful(s)
    requires Encode(s, c, SecretKey(config)).Ok?
    requires c.iss != config.issuer && now <= c.exp + 60
    ensures Decode(s, Encode(s, c, SecretKey(config)).value, config, now) == Ok(c)
  {
    DecodeEncoded(s, c, SecretKey(config), NewValidation(), now);
  }

  /** `decode` as evidently intended: validating with the `validation` it configures. */
  function DecodeCheckingIssuer(s: Signer, jwt: string, config: Config, now: nat): (r: Result<Claims, ServiceError>)
    ensures r.Ok? ==> r.value.iss == config.issuer && Open(s, jwt, SecretKey(config)) == Ok(r.value)
  {
    var validation := SetIssuer(NewValidation(), [config.issuer]);
    match JsonWebToken.Decode(s, jwt, SecretKey(config), validation, now)
    case Ok(claims) => Ok(claims)
    case Err(e) => Err(Token(e))
  }

  /**
   * The corrected decoder refuses a correctly signed token from another
   * issuer, and still accepts the tokens `generate` issues.
   */
  lemma DecodeCheckingIssuerIsStrict(s: Signer, c: Claims, user: Uuid, config: Config, now: nat, later: nat)
    requires JsonWebToken.Lawful(s)
    ensures Encode(s, c, SecretKey(config)).Ok? && c.iss != config.issuer && now <= c.exp + 60 ==>
      DecodeCheckingIssuer(s, Encode(s, c, SecretKey(config)).value, config, now) == Err(Token(InvalidIssuer))
    ensures Generate(s, user, config, now).Ok? && later <= now + config.accessTokenValiditySecs + 60 ==>
      DecodeCheckingIssuer(s, Generate(s, user, config, now).value, config, later)
        == Ok(GenerateClaims(user, config, now))
  {
    var validation := SetIssuer(NewValidation(), [config.issuer]);
    if Encode(s, c, SecretKey(config)).Ok? {
      DecodeEncoded(s, c, SecretKey(config), validation, now);
    }
    if Generate(s, user, config, now).Ok? {
      DecodeEncoded(s, GenerateClaims(user, config, now), SecretKey(config), validation, later);
    }
  }
}
