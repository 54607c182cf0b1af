/**
 * The authentication service: access tokens for a user, password checks on
 * login, and the refresh-token life cycle. A refresh token is the text
 * `<record id>.<secret>`, where the secret is 32 random bytes in unpadded
 * base64url; the store keeps only an Argon2 hash of the secret. Rotating a
 * token marks its record used and creates a child record pointing back to it.
 *
 * The process-wide signing key, the operating system's randomness, the
 * salts, the ids the store assigns and the clock are parameters.
 */
module Auth {
  import opened Wrappers
  import opened Encoding
  import opened Uuids
  import opened Models
  import opened Errors
  import opened Sequences
  import opened JsonWebToken
  import Argon2
  import opened Password
  import opened RefreshTokenStore
  import MockUsers

  const Issuer: string := "open-erase"
  /** Fifteen minutes. */
  const AccessTokenValiditySecs: nat := 60 * 15
  /** Bytes in the signing key and in a refresh-token secret. */
  const KeyLength: nat := 32

  // ------------------------------------------------------------ access tokens

  /** `Claims::new(user_id)` at time `now`. */
  function NewClaims(userId: Uuid, now: nat): (c: Claims)
    ensures c.iss == "open-erase" && c.iat == now && c.exp == c.iat + 900
    ensures ParseStr(c.sub) == Ok(userId)
  {
    ParseToString(userId);
    Claims(ToString(userId), Issuer, now + AccessTokenValiditySecs, now)
  }

  /** `generate_access_token`: `Claims::new` signed with the service key; a signing failure is `Token`. */
  function GenerateAccessToken(s: Signer, key: Key, userId: Uuid, now: nat): (r: Result<string, ServiceError>)
    ensures r.Ok? ==> Encode(s, NewClaims(userId, now), key) == Ok(r.value)
    ensures r.Err? ==> Encode(s, NewClaims(userId, now), key).Err?
                       && r.error == Token(Encode(s, NewClaims(userId, now), key).error)
  {
    match Encode(s, NewClaims(userId, now), key)
    case Ok(token) => Ok(token)
    case Err(e) => Err(Token(e))
  }

  /** The validation `get_valid_access_token_claims` uses: the defaults, restricted to this issuer. */
  function AccessValidation(): Validation {
    SetIssuer(NewValidation(), [Issuer])
  }

  /** `get_valid_access_token_claims`: the claims of a token that passes every check, else nothing. */
  function GetValidAccessTokenClaims(s: Signer, key: Key, token: string, now: nat): (r: Option<Claims>)
    ensures r.Some? ==> Open(s, token, key) == Ok(r.value)
    ensures r.Some? ==> r.value.iss == "open-erase" && now <= r.value.exp + 60
    ensures r.None? <==> Open(s, token, key).Err? || Open(s, token, key).value.iss != "open-erase"
                         || Open(s, token, key).value.exp + 60 < now
  {
    match Decode(s, token, key, AccessValidation(), now)
    case Ok(claims) => Some(claims)
    case Err(_) => None
  }

  /**
   * An access token is accepted, with the very claims signed, for fifteen
   * minutes plus the 60 seconds of leeway, rejected after that, and never
   * accepted under a key HMAC does not treat as the same key.
   */
  lemma AccessTokenLifetime(s: Signer, key: Key, other: Key, userId: Uuid, now: nat, later: nat)
    requires JsonWebToken.Lawful(s)
    requires GenerateAccessToken(s, key, userId, now).Ok?
    ensures var token := GenerateAccessToken(s, key, userId, now).value;
      && (later <= now + 960 ==> GetValidAccessTokenClaims(s, key, token, later) == Some(NewClaims(userId, now)))
      && (later > now + 960 ==> GetValidAccessTokenClaims(s, key, token, later) == None)
      && (s.hmacKey(other) != s.hmacKey(key) ==> GetValidAccessTokenClaims(s, other, token, later) == None)
  {
    var token := GenerateAccessToken(s, key, userId, now).value;
    assert Encode(s, NewClaims(userId, now), key).Ok?;
    assert Open(s, token, key) == Ok(NewClaims(userId, now));
  }

  // ---------------------------------------------------------------- passwords

  /** `is_valid_password`: true exactly when the hash parses and the password verifies; never an error. */
  function IsValidPassword(h: Argon2.Hasher, password: string, passwordHash: string): (b: bool)
    ensures h.parse(passwordHash).Err? ==> !b
    ensures b <==> VerifyPassword(h, password, passwordHash) == Ok(())
  {
    h.parse(passwordHash).Ok? && h.verifyPassword(password, h.parse(passwordHash).value) == Ok(())
  }

  /** A hash accepts the password it was made from, and no other. */
  lemma IsValidPasswordOfHash(h: Argon2.Hasher, password: string, other: string, salt: Argon2.SaltString)
    requires Argon2.Lawful(h)
    requires HashPassword(h, password, salt).Ok?
    ensures IsValidPassword(h, password, HashPassword(h, password, salt).value)
    ensures other != password ==> !IsValidPassword(h, other, HashPassword(h, password, salt).value)
  {
    VerifyHashed(h, password, other, salt);
  }

  /**
   * `validate_basic_auth`: the user with that email when the password
   * verifies against their stored hash; `None` for an unknown email or a
   * wrong password; a repository error is passed on.
   */
  function ValidateBasicAuth(h: Argon2.Hasher, findByEmail: string -> Result<Option<User>, DatabaseError>,
                             email: string, password: string): (r: Result<Option<User>, ServiceError>)
    ensures r.Err? <==> findByEmail(email).Err?
    ensures r.Err? ==> r.error == Database(findByEmail(email).error)
    ensures r.Ok? && r.value.Some? <==>
      findByEmail(email).Ok? && findByEmail(email).value.Some?
      && IsValidPassword(h, password, findByEmail(email).value.value.passwordHash)
    ensures r.Ok? && r.value.Some? ==> r.value == findByEmail(email).value
  {
    match findByEmail(email)
    case Err(e) => Err(Database(e))
    case Ok(None) => Ok(None)
    case Ok(Some(user)) => if IsValidPassword(h, password, user.passwordHash) then Ok(Some(user)) else Ok(None)
  }

  // ----------------------------------------------------------- refresh tokens

  /** The composite refresh token: the record id, a full stop, and the secret. */
  function CompositeToken(id: Uuid, raw: string): (t: string)
    ensures SplitOnce(t, '.') == Some((ToString(id), raw))
  {
    ToStringHasNoDot(id);
    SplitOnceJoin(ToString(id), '.', raw);
    ToString(id) + "." + raw
  }

  /** Every guard of `get_valid_refresh_token` passes, and `record` is what the lookup found. */
  predicate RefreshAccepts(h: Argon2.Hasher, isValid: RefreshToken -> bool,
                           find: Uuid -> Result<Option<RefreshToken>, DatabaseError>,
                           composite: string, record: RefreshToken)
  {
    && SplitOnce(composite, '.').Some?
    && ParseStr(SplitOnce(composite, '.').value.0).Ok?
    && find(ParseStr(SplitOnce(composite, '.').value.0).value) == Ok(Some(record))
    && isValid(record)
    && IsValidPassword(h, SplitOnce(composite, '.').value.1, record.tokenHash)
  }

  /**
   * `get_valid_refresh_token`: split at the first full stop, parse the id,
   * find the record, check `is_valid()`, verify the secret against the
   * stored hash. Any guard failing gives `None`; only a lookup error is an error.
   */
  function GetValidRefreshToken(h: Argon2.Hasher, isValid: RefreshToken -> bool,
                                find: Uuid -> Result<Option<RefreshToken>, DatabaseError>,
                                composite: string): (r: Result<Option<RefreshToken>, ServiceError>)
    ensures '.' !in composite ==> r == Ok(None)
    ensures r.Err? <==>
      && SplitOnce(composite, '.').Some?
      && ParseStr(SplitOnce(composite, '.').value.0).Ok?
      && find(ParseStr(SplitOnce(composite, '.').value.0).value).Err?
    ensures r.Err? ==> r.error == Database(find(ParseStr(SplitOnce(composite, '.').value.0).value).error)
    ensures r.Ok? && r.value.Some? ==> RefreshAccepts(h, isValid, find, composite, r.value.value)
    ensures forall record :: RefreshAccepts(h, isValid, find, composite, record) ==> r == Ok(Some(record))
  {
    match SplitOnce(composite, '.')
    case None => Ok(None)
    case Some((idRaw, raw)) =>
      match ParseStr(idRaw)
      case Err(_) => Ok(None)
      case Ok(id) =>
        match find(id)
        case Err(e) => Err(Database(e))
        case Ok(None) => Ok(None)
        case Ok(Some(record)) =>
          if isValid(record) && IsValidPassword(h, raw, record.tokenHash) then Ok(Some(record)) else Ok(None)
  }

  /**
   * What `generate_refresh_token` does to the store: hash the encoded
   * secret, create a record with that hash, and hand out the record id
   * joined to the secret. A hashing failure leaves the store alone.
   */
  function IssueIn(h: Argon2.Hasher, s: seq<RefreshToken>, userId: Uuid, parentId: Option<Uuid>,
                   secret: seq<byte>, salt: Argon2.SaltString, id: Uuid, now: int)
    : (r: (Result<string, ServiceError>, seq<RefreshToken>))
    ensures r.0.Ok? <==> HashPassword(h, Base64UrlEncode(secret), salt).Ok? && FindIn(s, id).None?
    ensures r.0.Err? ==> r.1 == s
    ensures HashPassword(h, Base64UrlEncode(secret), salt).Err? ==>
      r.0 == Err(HashPassword(h, Base64UrlEncode(secret), salt).error) && r.0.error.Hash?
    ensures HashPassword(h, Base64UrlEncode(secret), salt).Ok? && FindIn(s, id).Some? ==>
      r.0 == Err(Database(UniqueViolation))
    ensures r.0.Ok? ==> r.0.value == CompositeToken(id, Base64UrlEncode(secret))
    ensures r.0.Ok? ==> HashPassword(h, Base64UrlEncode(secret), salt).Ok?
                        && r.1 == s + [RefreshToken(id, userId, parentId,
                                                    HashPassword(h, Base64UrlEncode(secret), salt).value,
                                                    false, now, now)]
  {
    var raw := Base64UrlEncode(secret);
    match HashPassword(h, raw, salt)
    case Err(e) => (Err(e), s)
    case Ok(tokenHash) =>
      var (created, s') := CreateIn(s, userId, parentId, tokenHash, id, now);
      match created
      case Err(e) => (Err(Database(e)), s')
      case Ok(record) => (Ok(CompositeToken(record.id, raw)), s')
  }

  /**
   * What `cycle_refresh_token(rt)` does to the store: mark `rt` used first;
   * if that fails, nothing is created and the error is passed on; otherwise
   * issue a token for the same user whose record names `rt` as its parent.
   */
  function CycleIn(h: Argon2.Hasher, s: seq<RefreshToken>, rt: RefreshToken,
                   secret: seq<byte>, salt: Argon2.SaltString, id: Uuid, now: int)
    : (r: (Result<string, ServiceError>, seq<RefreshToken>))
    ensures MarkUsedIn(s, rt.id, now).0.Err? ==> r == (Err(Database(RowNotFound)), s)
    ensures MarkUsedIn(s, rt.id, now).0.Ok? ==>
      r == IssueIn(h, MarkUsedIn(s, rt.id, now).1, rt.userId, Some(rt.id), secret, salt, id, now)
  {
    var (marked, s') := MarkUsedIn(s, rt.id, now);
    if marked.Err? then (Err(Database(marked.error)), s')
    else IssueIn(h, s', rt.userId, Some(rt.id), secret, salt, id, now)
  }

  /** A base64url secret contains neither the separator nor the `$` that opens a PHC hash. */
  lemma SecretAlphabet(raw: string)
    requires forall i :: 0 <= i < |raw| ==> IsBase64UrlChar(raw[i])
    ensures '.' !in raw && '$' !in raw
  {
  }

  /**
   * The handed-out token is the record id, a full stop and 43 base64url
   * characters; splitting it at the first full stop gives back the id text
   * and the secret, the id text parses to the id, and the secret decodes to
   * the random bytes.
   */
  lemma IssuedTokenShape(h: Argon2.Hasher, s: seq<RefreshToken>, userId: Uuid, parentId: Option<Uuid>,
                         secret: seq<byte>, salt: Argon2.SaltString, id: Uuid, now: int)
    requires |secret| == KeyLength
    requires IssueIn(h, s, userId, parentId, secret, salt, id, now).0.Ok?
    ensures var token := IssueIn(h, s, userId, parentId, secret, salt, id, now).0.value;
            var raw := Base64UrlEncode(secret);
      && |raw| == 43 && '.' !in raw
      && token == ToString(id) + "." + raw
      && SplitOnce(token, '.') == Some((ToString(id), raw))
      && ParseStr(ToString(id)) == Ok(id)
      && Base64UrlDecode(raw) == Some(secret)
  {
    SecretAlphabet(Base64UrlEncode(secret));
    ParseToString(id);
    Base64UrlRoundTrip(secret);
  }

  /**
   * The store receives one new record carrying the hash of the secret, which
   * verifies the secret and is not the secret itself; earlier records are untouched.
   */
  lemma StoreSeesOnlyHash(h: Argon2.Hasher, s: seq<RefreshToken>, userId: Uuid, parentId: Option<Uuid>,
                          secret: seq<byte>, salt: Argon2.SaltString, id: Uuid, now: int)
    requires Argon2.Lawful(h)
    requires |secret| == KeyLength
    requires IssueIn(h, s, userId, parentId, secret, salt, id, now).0.Ok?
    ensures var s' := IssueIn(h, s, userId, parentId, secret, salt, id, now).1;
            var raw := Base64UrlEncode(secret);
      && |s'| == |s| + 1 && s'[..|s|] == s
      && s'[|s|].tokenHash != raw
      && IsValidPassword(h, raw, s'[|s|].tokenHash)
  {
    var raw := Base64UrlEncode(secret);
    var s' := IssueIn(h, s, userId, parentId, secret, salt, id, now).1;
    SecretAlphabet(raw);
    var tokenHash := HashPassword(h, raw, salt).value;
    assert tokenHash[0] == '$';
    assert s'[|s|].tokenHash == tokenHash;
    IsValidPasswordOfHash(h, raw, raw, salt);
  }

  /** A login creates a record for that user with no parent. */
  lemma LoginRecordHasNoParent(h: Argon2.Hasher, s: seq<RefreshToken>, userId: Uuid,
                               secret: seq<byte>, salt: Argon2.SaltString, id: Uuid, now: int)
    requires IssueIn(h, s, userId, None, secret, salt, id, now).0.Ok?
    ensures var s' := IssueIn(h, s, userId, None, secret, salt, id, now).1;
      |s'| == |s| + 1 && s'[|s|].parentId == None && s'[|s|].userId == userId && !s'[|s|].isUsed
  {
  }

  /**
   * A rotation marks the old record used and appends exactly one child: same
   * user, the old record as its parent; every other record is unchanged.
   */
  lemma CycleLinksToParent(h: Argon2.Hasher, s: seq<RefreshToken>, rt: RefreshToken,
                           secret: seq<byte>, salt: Argon2.SaltString, id: Uuid, now: int)
    requires CycleIn(h, s, rt, secret, salt, id, now).0.Ok?
    ensures IndexOf(s, rt.id).Some?
    ensures var s' := CycleIn(h, s, rt, secret, salt, id, now).1;
            var i := IndexOf(s, rt.id).value;
      && |s'| == |s| + 1
      && s'[i] == s[i].(isUsed := true, updatedAt := now) && !s[i].isUsed
      && s'[|s|].id == id && s'[|s|].userId == rt.userId && s'[|s|].parentId == Some(rt.id)
      && (forall j :: 0 <= j < |s| && j != i ==> s'[j] == s[j])
  {
  }

  /**
   * Rotation is not atomic: when the mark succeeds but the create fails,
   * the old record stays used and no successor exists.
   */
  lemma CycleFailedCreateKeepsMark(h: Argon2.Hasher, s: seq<RefreshToken>, rt: RefreshToken,
                                   secret: seq<byte>, salt: Argon2.SaltString, id: Uuid, now: int)
    requires MarkUsedIn(s, rt.id, now).0.Ok?
    requires HashPassword(h, Base64UrlEncode(secret), salt).Ok?
    requires FindIn(s, id).Some?
    ensures CycleIn(h, s, rt, secret, salt, id, now) == (Err(Database(UniqueViolation)), MarkUsedIn(s, rt.id, now).1)
    ensures var found := FindIn(CycleIn(h, s, rt, secret, salt, id, now).1, rt.id);
      found.Some? && found.value.isUsed
  {
    var s1 := MarkUsedIn(s, rt.id, now).1;
    MarkUsedChangesOneRecord(s, rt.id, now);
    IndexOfSameIds(s, s1, id);
    FoundAfterMark(s, rt.id, now);
  }

  /** A freshly issued refresh token is accepted, and resolves to its own record, while the record is valid. */
  lemma IssuedTokenAccepted(h: Argon2.Hasher, isValid: RefreshToken -> bool, s: seq<RefreshToken>,
                            userId: Uuid, parentId: Option<Uuid>, secret: seq<byte>,
                            salt: Argon2.SaltString, id: Uuid, now: int)
    requires Argon2.Lawful(h)
    requires |secret| == KeyLength
    requires IssueIn(h, s, userId, parentId, secret, salt, id, now).0.Ok?
    requires isValid(IssueIn(h, s, userId, parentId, secret, salt, id, now).1[|s|])
    ensures var (token, s') := IssueIn(h, s, userId, parentId, secret, salt, id, now);
      GetValidRefreshToken(h, isValid, Lookup(s'), token.value) == Ok(Some(s'[|s|]))
  {
    var (token, s') := IssueIn(h, s, userId, parentId, secret, salt, id, now);
    var raw := Base64UrlEncode(secret);
    var tokenHash := HashPassword(h, raw, salt).value;
    IssuedTokenShape(h, s, userId, parentId, secret, salt, id, now);
    assert CreateIn(s, userId, parentId, tokenHash, id, now).0.Ok?;
    FoundAfterCreate(s, userId, parentId, tokenHash, id, now, id);
    IsValidPasswordOfHash(h, raw, raw, salt);
    assert RefreshAccepts(h, isValid, Lookup(s'), token.value, s'[|s|]);
  }

  /**
   * After a rotation, no token resolves to the rotated record any more,
   * provided `is_valid()` rejects used records.
   */
  lemma RotatedTokenRejected(h: Argon2.Hasher, isValid: RefreshToken -> bool, s: seq<RefreshToken>,
                             rt: RefreshToken, secret: seq<byte>, salt: Argon2.SaltString, id: Uuid, now: int,
                             composite: string)
    requires forall t :: isValid(t) ==> !t.isUsed
    requires CycleIn(h, s, rt, secret, salt, id, now).0.Ok?
    ensures var r := GetValidRefreshToken(h, isValid, Lookup(CycleIn(h, s, rt, secret, salt, id, now).1), composite);
      r.Ok? && r.value.Some? ==> r.value.value.id != rt.id
  {
    var s1 := MarkUsedIn(s, rt.id, now).1;
    var s' := CycleIn(h, s, rt, secret, salt, id, now).1;
    var raw := Base64UrlEncode(secret);
    var tokenHash := HashPassword(h, raw, salt).value;
    FoundAfterMark(s, rt.id, now);
    assert CreateIn(s1, rt.userId, Some(rt.id), tokenHash, id, now).0.Ok?;
    FoundAfterCreate(s1, rt.userId, Some(rt.id), tokenHash, id, now, rt.id);
    assert FindIn(s', rt.id).value.isUsed;
  }

  /** After a logout marks a record used, no token resolves to it, provided `is_valid()` rejects used records. */
  lemma LoggedOutTokenRejected(h: Argon2.Hasher, isValid: RefreshToken -> bool, s: seq<RefreshToken>,
                               rt: RefreshToken, now: int, composite: string)
    requires forall t :: isValid(t) ==> !t.isUsed
    requires MarkUsedIn(s, rt.id, now).0.Ok?
    ensures var r := GetValidRefreshToken(h, isValid, Lookup(MarkUsedIn(s, rt.id, now).1), composite);
      r.Ok? && r.value.Some? ==> r.value.value.id != rt.id
  {
    FoundAfterMark(s, rt.id, now);
  }

  /** The same record cannot be rotated twice: the second attempt fails and changes nothing. */
  lemma SecondCycleFails(h: Argon2.Hasher, s: seq<RefreshToken>, rt: RefreshToken,
                         secret: seq<byte>, salt: Argon2.SaltString, id: Uuid, now: int,
                         secret2: seq<byte>, salt2: Argon2.SaltString, id2: Uuid, later: int)
    requires CycleIn(h, s, rt, secret, salt, id, now).0.Ok?
    ensures var s' := CycleIn(h, s, rt, secret, salt, id, now).1;
      CycleIn(h, s', rt, secret2, salt2, id2, later) == (Err(Database(RowNotFound)), s')
  {
    var s1 := MarkUsedIn(s, rt.id, now).1;
    var s' := CycleIn(h, s, rt, secret, salt, id, now).1;
    var tokenHash := HashPassword(h, Base64UrlEncode(secret), salt).value;
    FoundAfterMark(s, rt.id, now);
    assert CreateIn(s1, rt.userId, Some(rt.id), tokenHash, id, now).0.Ok?;
    FoundAfterCreate(s1, rt.userId, Some(rt.id), tokenHash, id, now, rt.id);
  }

  /**
   * The login scenario of the server's tests: against the mock user, whose
   * stored hash was made from `password123`, that password is accepted and
   * `password456` is not.
   */
  lemma MockLogin(h: Argon2.Hasher, mock: User, salt: Argon2.SaltString)
    requires Argon2.Lawful(h)
    requires HashPassword(h, "password123", salt) == Ok(mock.passwordHash)
    ensures var find := (e: string) => MockUsers.MockUserRepository.New(mock).FindByEmail(e);
      && ValidateBasicAuth(h, find, mock.email, "password123") == Ok(Some(mock))
      && ValidateBasicAuth(h, find, mock.email, "password456") == Ok(None)
  {
    MockUsers.NewFindsMock(mock);
    IsValidPasswordOfHash(h, "password123", "password456", salt);
  }

  /** `generate_byte_key::<KEY_LENGTH>()`: a zeroed buffer that the random source fills. */
  method GenerateByteKey(entropy: seq<byte>) returns (key: array<byte>)
    requires |entropy| == KeyLength
    ensures fresh(key) && key[..] == entropy
  {
    key := new byte[KeyLength](_ => 0);
    var i := 0;
    while i < KeyLength
      invariant 0 <= i <= KeyLength
      invariant key[..i] == entropy[..i]
    {
      key[i] := entropy[i];
      i := i + 1;
    }
  }

  /**
   * The service's state: the refresh-token repository it updates and the
   * hasher it uses. The user repository it also holds is read only by
   * `validate_basic_auth`, which takes that lookup as its parameter `findByEmail`.
   */
  class AuthService {
    const refreshTokens: RefreshTokenRepository
    const argon2: Argon2.Hasher

    constructor (refreshTokens: RefreshTokenRepository, argon2: Argon2.Hasher)
      ensures this.refreshTokens == refreshTokens && this.argon2 == argon2
    {
      this.refreshTokens := refreshTokens;
      this.argon2 := argon2;
    }

    /** `generate_refresh_token(user_id, parent_id)`; `entropy` is what the random source delivers. */
    method GenerateRefreshToken(userId: Uuid, parentId: Option<Uuid>, entropy: seq<byte>,
                                salt: Argon2.SaltString, id: Uuid, now: int)
      returns (r: Result<string, ServiceError>)
      requires refreshTokens.Valid() && |entropy| == KeyLength
      modifies refreshTokens
      ensures refreshTokens.Valid()
      ensures (r, refreshTokens.records)
              == IssueIn(argon2, old(refreshTokens.records), userId, parentId, entropy, salt, id, now)
    {
      var bytes := GenerateByteKey(entropy);
      var raw := Base64UrlEncode(bytes[..]);
      var tokenHash := HashPassword(argon2, raw, salt);
      if tokenHash.Err? {
        return Err(tokenHash.error);
      }
      var created := refreshTokens.Create(userId, parentId, tokenHash.value, id, now);
      if created.Err? {
        return Err(Database(created.error));
      }
      r := Ok(CompositeToken(created.value.id, raw));
    }

    /** `generate_refresh_token_from_login`: a token whose record has no parent. */
    method GenerateRefreshTokenFromLogin(userId: Uuid, entropy: seq<byte>, salt: Argon2.SaltString,
                                         id: Uuid, now: int)
      returns (r: Result<string, ServiceError>)
      requires refreshTokens.Valid() && |entropy| == KeyLength
      modifies refreshTokens
      ensures refreshTokens.Valid()
      ensures (r, refreshTokens.records)
              == IssueIn(argon2, old(refreshTokens.records), userId, None, entropy, salt, id, now)
    {
      r := GenerateRefreshToken(userId, None, entropy, salt, id, now);
    }

    /** `cycle_refresh_token(rt)`: mark `rt` used, then issue its child. */
    method CycleRefreshToken(rt: RefreshToken, entropy: seq<byte>, salt: Argon2.SaltString, id: Uuid, now: int)
      returns (r: Result<string, ServiceError>)
      requires refreshTokens.Valid() && |entropy| == KeyLength
      modifies refreshTokens
      ensures refreshTokens.Valid()
      ensures (r, refreshTokens.records) == CycleIn(argon2, old(refreshTokens.records), rt, entropy, salt, id, now)
    {
      var marked := refreshTokens.MarkAsUsed(rt.id, now);
      if marked.Err? {
        return Err(Database(marked.error));
      }
      r := GenerateRefreshToken(rt.userId, Some(rt.id), entropy, salt, id, now);
    }

    /** `mark_refresh_token_as_used(rt)`, as logout uses it: the used record, or the store's error. */
    method MarkRefreshTokenAsUsed(rt: RefreshToken, now: int) returns (r: Result<RefreshToken, ServiceError>)
      requires refreshTokens.Valid()
      modifies refreshTokens
      ensures refreshTokens.Valid()
      ensures refreshTokens.records == MarkUsedIn(old(refreshTokens.records), rt.id, now).1
      ensures r.Ok? <==> MarkUsedIn(old(refreshTokens.records), rt.id, now).0.Ok?
      ensures r.Ok? ==> r.value == MarkUsedIn(old(refreshTokens.records), rt.id, now).0.value
      ensures r.Err? ==> r.error == Database(RowNotFound)
    {
      var marked := refreshTokens.MarkAsUsed(rt.id, now);
      if marked.Err? {
        return Err(Database(marked.error));
      }
      r := Ok(marked.value);
    }
  }
}
