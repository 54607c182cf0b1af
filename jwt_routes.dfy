/**
 * The `/token` route of the stand-alone API and its `authorize` middleware.
 * `new` checks HTTP Basic credentials against the users table and answers
 * with a signed access token; `authorize` admits a request carrying
 * `Authorization: Bearer <token>` (section 2.1 of RFC 6750) and records the
 * token's subject on the request. Each handler is a chain of early returns.
 */
module JwtRoutes {
  import opened Wrappers
  import opened Encoding
  import opened Uuids
  import opened Sequences
  import opened JsonWebToken
  import Argon2

  /** The route's `Config`: the signing secret, the issuer and the token lifetime. */
  datatype RouteConfig = RouteConfig(secret: string, issuer: string, validitySecs: nat)

  /** `GetJWT`: the body of a successful login. */
  datatype GetJwt = GetJwt(accessToken: string, tokenType: string, expiresIn: nat)

  /** `GetUser`: the row the login query reads. */
  datatype GetUser = GetUser(uuid: Uuid, name: string, passwordHash: string)

  /** What a handler ends in: a bare status, the login body with 200, or a panic that aborts the request. */
  datatype HandlerResponse = Status(code: nat) | Issued(body: GetJwt) | Panic

  /** The configuration `new` builds for itself. */
  const LoginConfig: RouteConfig := RouteConfig("abc123", "me", 3600)

  /** `EncodingKey::from_secret(secret.as_bytes())`. */
  function KeyOf(config: RouteConfig): Key {
    Utf8(config.secret)
  }

  /** The claims `new` signs for `user` at time `now`. */
  function LoginClaims(user: GetUser, config: RouteConfig, now: nat): (c: Claims)
    ensures c.iat == now && c.exp == c.iat + config.validitySecs && c.iss == config.issuer
    ensures ParseStr(c.sub) == Ok(user.uuid)
  {
    ParseToString(user.uuid);
    Claims(ToString(user.uuid), config.issuer, now + config.validitySecs, now)
  }

  /**
   * `new`: the user named in the Basic credentials, found by `fetchByName`
   * (`None` when `fetch_one` fails); an unknown user or a wrong password is
   * 401, a stored hash that does not parse panics at the `unwrap`, a
   * signing failure is 500.
   */
  function New(h: Argon2.Hasher, s: Signer, fetchByName: string -> Option<GetUser>,
               username: string, password: string, now: nat): (r: HandlerResponse)
    ensures fetchByName(username).None? ==> r == Status(401)
    ensures r == Panic <==> fetchByName(username).Some? && h.parse(fetchByName(username).value.passwordHash).Err?
    ensures r.Issued? <==>
      && fetchByName(username).Some?
      && h.parse(fetchByName(username).value.passwordHash).Ok?
      && h.verifyPassword(password, h.parse(fetchByName(username).value.passwordHash).value).Ok?
      && Encode(s, LoginClaims(fetchByName(username).value, LoginConfig, now), KeyOf(LoginConfig)).Ok?
    ensures r.Issued? ==>
      && r.body.tokenType == "Bearer" && r.body.expiresIn == 3600
      && Encode(s, LoginClaims(fetchByName(username).value, LoginConfig, now), KeyOf(LoginConfig))
         == Ok(r.body.accessToken)
    ensures fetchByName(username).Some? && h.parse(fetchByName(username).value.passwordHash).Ok?
              && h.verifyPassword(password, h.parse(fetchByName(username).value.passwordHash).value).Err? ==>
      r == Status(401)
    ensures fetchByName(username).Some? && h.parse(fetchByName(username).value.passwordHash).Ok?
              && h.verifyPassword(password, h.parse(fetchByName(username).value.passwordHash).value).Ok?
              && Encode(s, LoginClaims(fetchByName(username).value, LoginConfig, now), KeyOf(LoginConfig)).Err? ==>
      r == Status(500)
    ensures r.Status? ==> r.code in {401, 500}
  {
    match fetchByName(username)
    case None => Status(401)
    case Some(user) =>
      match h.parse(user.passwordHash)
      case Err(_) => Panic
      case Ok(parsed) =>
        if h.verifyPassword(password, parsed).Err? then Status(401)
        else
          match Encode(s, LoginClaims(user, LoginConfig, now), KeyOf(LoginConfig))
          case Ok(jwt) => Issued(GetJwt(jwt, "Bearer", LoginConfig.validitySecs))
          case Err(_) => Status(500)
  }

  /** `new` as evidently intended: a stored hash that does not parse is refused with 401, like a wrong password. */
  function NewIntended(h: Argon2.Hasher, s: Signer, fetchByName: string -> Option<GetUser>,
                       username: string, password: string, now: nat): (r: HandlerResponse)
    ensures r != Panic
    ensures r.Issued? ==> New(h, s, fetchByName, username, password, now) == r
    ensures fetchByName(username).Some? && h.parse(fetchByName(username).value.passwordHash).Err? ==> r == Status(401)
    ensures !(fetchByName(username).Some? && h.parse(fetchByName(username).value.passwordHash).Err?) ==>
      r == New(h, s, fetchByName, username, password, now)
  {
    match fetchByName(username)
    case None => Status(401)
    case Some(user) =>
      if h.parse(user.passwordHash).Err? then Status(401)
      else New(h, s, fetchByName, username, password, now)
  }

  /** As written, a user row whose hash does not parse makes `new` panic where a 401 was intended. */
  lemma NewPanicsOnMalformedHash(h: Argon2.Hasher, s: Signer, user: GetUser, password: string, now: nat)
    requires h.parse(user.passwordHash).Err?
    ensures var fetch := (name: string) => if name == user.name then Some(user) else None;
      New(h, s, fetch, user.name, password, now) == Panic
      && NewIntended(h, s, fetch, user.name, password, now) == Status(401)
  {
  }

  // ---------------------------------------------------------------- authorize

  /** `HeaderValue::to_str` succeeds exactly on visible ASCII and horizontal tab. */
  predicate IsVisibleAscii(bytes: seq<byte>) {
    forall i :: 0 <= i < |bytes| ==> bytes[i] == 9 || 32 <= bytes[i] < 127
  }

  /** The header text `to_str` yields: one character per byte. */
  function AsciiText(bytes: seq<byte>): (text: string)
    ensures |text| == |bytes|
    ensures forall i :: 0 <= i < |bytes| ==> text[i] as int == bytes[i]
  {
    seq(|bytes|, i requires 0 <= i < |bytes| => bytes[i] as char)
  }

  /**
   * The bytes a client sends for a header text, one per character (the low
   * byte of its code); for ASCII text `to_str` reads the same text back.
   */
  function AsciiBytes(text: string): (bytes: seq<byte>)
    ensures |bytes| == |text|
    ensures (forall i :: 0 <= i < |text| ==> text[i] as int < 128) ==> AsciiText(bytes) == text
  {
    seq(|text|, i requires 0 <= i < |text| => text[i] as int % 256)
  }

  const BearerPrefix: string := "Bearer "

  /** `authorization.trim_start_matches("Bearer ")`: every leading repetition of the prefix goes. */
  function BearerToken(text: string): (jwt: string)
    ensures !StartsWith(jwt, BearerPrefix)
    ensures |jwt| <= |text| && jwt == text[|text| - |jwt|..]
  {
    TrimIsSuffix(text, BearerPrefix);
    TrimStartMatches(text, BearerPrefix)
  }

  /** Where `authorize` ends: a 401, or the request admitted as a user. */
  datatype Decision = Reject(status: nat) | Admit(user: Uuid)

  /**
   * `authorize`'s guard chain. The header must be present, be visible
   * ASCII, start with `Bearer `; the token must decode with the configured
   * secret under the default validation, and its subject must be a UUID.
   */
  function AuthorizeDecision(s: Signer, config: RouteConfig, header: Option<seq<byte>>, now: nat): (d: Decision)
    ensures d.Reject? ==> d.status == 401
    ensures header.None? ==> d == Reject(401)
    ensures header.Some? && !IsVisibleAscii(header.value) ==> d == Reject(401)
    ensures header.Some? && !StartsWith(AsciiText(header.value), BearerPrefix) ==> d == Reject(401)
    ensures d.Admit? ==>
      && header.Some? && IsVisibleAscii(header.value) && StartsWith(AsciiText(header.value), BearerPrefix)
      && var c := JsonWebToken.Decode(s, BearerToken(AsciiText(header.value)), KeyOf(config), NewValidation(), now);
         c.Ok? && ParseStr(c.value.sub) == Ok(d.user)
    ensures header.Some? && IsVisibleAscii(header.value) && StartsWith(AsciiText(header.value), BearerPrefix) ==>
      var c := JsonWebToken.Decode(s, BearerToken(AsciiText(header.value)), KeyOf(config), NewValidation(), now);
      c.Ok? && ParseStr(c.value.sub).Ok? ==> d == Admit(ParseStr(c.value.sub).value)
  {
    var validation := SetIssuer(NewValidation(), [config.issuer]);
    match header
    case None => Reject(401)
    case Some(bytes) =>
      if !IsVisibleAscii(bytes) then Reject(401)
      else
        var text := AsciiText(bytes);
        if !StartsWith(text, BearerPrefix) then Reject(401)
        else
          match JsonWebToken.Decode(s, BearerToken(text), KeyOf(config), NewValidation(), now)
          case Err(_) => Reject(401)
          case Ok(claims) =>
            match ParseStr(claims.sub)
            case Err(_) => Reject(401)
            case Ok(user) => Admit(user)
  }

  /** `authorize` as evidently intended: decoding with the `validation` restricted to the configured issuer. */
  function AuthorizeCheckingIssuer(s: Signer, config: RouteConfig, header: Option<seq<byte>>, now: nat): (d: Decision)
    ensures d.Admit? ==>
      && header.Some? && IsVisibleAscii(header.value) && StartsWith(AsciiText(header.value), BearerPrefix)
      && var c := Open(s, BearerToken(AsciiText(header.value)), KeyOf(config));
         c.Ok? && c.value.iss == config.issuer && ParseStr(c.value.sub) == Ok(d.user)
    ensures d.Admit? ==> AuthorizeDecision(s, config, header, now) == d
    ensures header.Some? && IsVisibleAscii(header.value) && StartsWith(AsciiText(header.value), BearerPrefix) ==>
      var c := JsonWebToken.Decode(s, BearerToken(AsciiText(header.value)), KeyOf(config),
                                   SetIssuer(NewValidation(), [config.issuer]), now);
      c.Ok? && ParseStr(c.value.sub).Ok? ==> d == Admit(ParseStr(c.value.sub).value)
  {
    var validation := SetIssuer(NewValidation(), [config.issuer]);
    match header
    case None => Reject(401)
    case Some(bytes) =>
      if !IsVisibleAscii(bytes) then Reject(401)
      else
        var text := AsciiText(bytes);
        if !StartsWith(text, BearerPrefix) then Reject(401)
        else
          match JsonWebToken.Decode(s, BearerToken(text), KeyOf(config), validation, now)
          case Err(_) => Reject(401)
          case Ok(claims) =>
            match ParseStr(claims.sub)
            case Err(_) => Reject(401)
            case Ok(user) => Admit(user)
  }

  /** The request as `authorize` sees it: its `Authorization` header, and the user its extensions carry. */
  class Request {
    const authorization: Option<seq<byte>>
    var user: Option<Uuid>

    constructor (authorization: Option<seq<byte>>)
      ensures this.authorization == authorization && user == None
    {
      this.authorization := authorization;
      user := None;
    }
  }

  /**
   * `authorize`: a rejection answers 401 and leaves the request alone;
   * otherwise the subject is inserted into the request's extensions and
   * the next handler runs (the answer `None`).
   */
  method Authorize(s: Signer, config: RouteConfig, request: Request, now: nat) returns (answer: Option<nat>)
    modifies request
    ensures AuthorizeDecision(s, config, request.authorization, now).Reject? ==>
      answer == Some(401) && request.user == old(request.user)
    ensures AuthorizeDecision(s, config, request.authorization, now).Admit? ==>
      answer == None && request.user == Some(AuthorizeDecision(s, config, request.authorization, now).user)
  {
    var decision := AuthorizeDecision(s, config, request.authorization, now);
    if decision.Reject? {
      return Some(decision.status);
    }
    request.user := Some(decision.user);
    answer := None;
  }

  /** So `Bearer Bearer x` is token `x`. */
  lemma BearerBearer()
    ensures BearerToken("Bearer Bearer x") == "x"
  {
    assert "Bearer Bearer x" == BearerPrefix + (BearerPrefix + "x");
    TrimOnce(BearerPrefix, BearerPrefix + "x");
    TrimOnce(BearerPrefix, "x");
  }

  /** A compact-serialized token never starts with `Bearer `, which has a space. */
  lemma CompactTokenIsNotPrefixed(jwt: string)
    requires forall i :: 0 <= i < |jwt| ==> IsCompactChar(jwt[i])
    ensures !StartsWith(jwt, BearerPrefix)
    ensures forall i :: 0 <= i < |jwt| ==> jwt[i] as int < 128
    ensures forall i :: 0 <= i < |BearerPrefix + jwt| ==> 32 <= (BearerPrefix + jwt)[i] as int < 127
  {
    if |jwt| >= |BearerPrefix| {
      assert jwt[6] != BearerPrefix[6];
    }
  }

  /**
   * The round trip of the two handlers: the token `new` issues, sent back as
   * `Bearer <token>`, admits the request as that user until the token's
   * lifetime and leeway are over, and is refused after.
   */
  lemma LoginTokenAuthorizes(h: Argon2.Hasher, s: Signer, fetchByName: string -> Option<GetUser>,
                             username: string, password: string, now: nat, later: nat)
    requires JsonWebToken.Lawful(s)
    requires New(h, s, fetchByName, username, password, now).Issued?
    ensures var jwt := New(h, s, fetchByName, username, password, now).body.accessToken;
            var header := Some(AsciiBytes(BearerPrefix + jwt));
      && (later <= now + 3660 ==> AuthorizeDecision(s, LoginConfig, header, later) == Admit(fetchByName(username).value.uuid))
      && (later > now + 3660 ==> AuthorizeDecision(s, LoginConfig, header, later) == Reject(401))
  {
    var user := fetchByName(username).value;
    var jwt := New(h, s, fetchByName, username, password, now).body.accessToken;
    var c := LoginClaims(user, LoginConfig, now);
    assert Encode(s, c, KeyOf(LoginConfig)) == Ok(jwt);
    CompactTokenIsNotPrefixed(jwt);
    var text := BearerPrefix + jwt;
    var bytes := AsciiBytes(text);
    assert IsVisibleAscii(bytes);
    TrimOnce(BearerPrefix, jwt);
    DecodeEncoded(s, c, KeyOf(LoginConfig), NewValidation(), later);
  }

  /**
   * The corrected gate keeps the round trip: the token `new` issues carries
   * the configured issuer, so it is admitted as its user under the issuer
   * check too, for as long as the unchecked gate admits it.
   */
  lemma LoginTokenPassesIssuerCheck(h: Argon2.Hasher, s: Signer, fetchByName: string -> Option<GetUser>,
                                    username: string, password: string, now: nat, later: nat)
    requires JsonWebToken.Lawful(s)
    requires New(h, s, fetchByName, username, password, now).Issued?
    ensures var jwt := New(h, s, fetchByName, username, password, now).body.accessToken;
            var header := Some(AsciiBytes(BearerPrefix + jwt));
      && (later <= now + 3660 ==> AuthorizeCheckingIssuer(s, LoginConfig, header, later) == Admit(fetchByName(username).value.uuid))
      && (later > now + 3660 ==> AuthorizeCheckingIssuer(s, LoginConfig, header, later) == Reject(401))
  {
    var user := fetchByName(username).value;
    var jwt := New(h, s, fetchByName, username, password, now).body.accessToken;
    var c := LoginClaims(user, LoginConfig, now);
    assert Encode(s, c, KeyOf(LoginConfig)) == Ok(jwt);
    CompactTokenIsNotPrefixed(jwt);
    var text := BearerPrefix + jwt;
    var bytes := AsciiBytes(text);
    assert IsVisibleAscii(bytes);
    TrimOnce(BearerPrefix, jwt);
    DecodeEncoded(s, c, KeyOf(LoginConfig), SetIssuer(NewValidation(), [LoginConfig.issuer]), later);
  }

  /**
   * As written, `authorize` admits a correctly signed token from any issuer;
   * the intended check refuses it.
   */
  lemma AuthorizeIgnoresIssuer(s: Signer, config: RouteConfig, c: Claims, user: Uuid, now: nat)
    requires JsonWebToken.Lawful(s)
    requires Encode(s, c, KeyOf(config)).Ok?
    requires c.iss != config.issuer && c.sub == ToString(user) && now <= c.exp + 60
    ensures var header := Some(AsciiBytes(BearerPrefix + Encode(s, c, KeyOf(config)).value));
      && AuthorizeDecision(s, config, header, now) == Admit(user)
      && AuthorizeCheckingIssuer(s, config, header, now) == Reject(401)
  {
    var jwt := Encode(s, c, KeyOf(config)).value;
    CompactTokenIsNotPrefixed(jwt);
    var text := BearerPrefix + jwt;
    TrimOnce(BearerPrefix, jwt);
    ParseToString(user);
    DecodeEncoded(s, c, KeyOf(config), NewValidation(), now);
    DecodeEncoded(s, c, KeyOf(config), SetIssuer(NewValidation(), [config.issuer]), now);
  }
}
