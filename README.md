# open-erase credential and session core, in Dafny

This project models the credential and session-lifecycle logic of the
open-erase server and proves properties of it:

- **Refresh tokens** (`server/src/services/auth.rs`). A refresh token is
  `"<record id>.<secret>"`, where the secret is 32 random bytes in unpadded
  base64url (sections 5 and 3.2 of RFC 4648). The store keeps only an
  Argon2 hash of the secret. Logging in creates a record with no parent.
  Rotating a token marks its record used, then creates a child record whose
  parent is the old one. `get_valid_refresh_token` accepts a token only
  when every guard in its chain passes.
- **Access tokens** (`auth.rs`, `server/src/services/token.rs`,
  `src/routes/jwt.rs`). These are the claims `sub`, `iss`, `iat` and `exp`
  of section 4.1 of RFC 7519, signed with HS256. The model also covers how
  `jsonwebtoken` validates them and the `Authorization: Bearer` guard
  chain of section 2.1 of RFC 6750.
- **Password checks** (`server/src/auth/password.rs`) and the mapping from
  service errors to HTTP responses (`server/src/error.rs`).
- **The in-memory repositories** used by the tests
  (`server/src/repositories/mocks/`).
- **The default configuration** (`server/src/config.rs`), whose key is
  32 random bytes in lowercase base16 (section 8 of RFC 4648).

Argon2 and HS256 are not modelled internally. Each is a datatype of
function values (`Argon2.Hasher`, `JsonWebToken.Signer`), and a ghost
`Lawful` predicate states what the model assumes of them:

- a hash verifies the password it was made from and no other;
- a hash is a PHC string, which starts with `$`;
- HS256 works on HMAC block keys (section 2 of RFC 2104): a key shorter
  than the block is zero-padded, so `"abc"` and `"abc\0"` are one key;
- a token opens to its claims under the block key that signed it, and under
  no other block key;
- a token is written in the JWS compact serialization.

Lemmas that rely on these facts take `Lawful` as a precondition. The clock
(`now`), the operating system's randomness (`entropy`, `random`), the salts
and the ids the store assigns are all parameters.

Files and modules:

| file | module | models |
|---|---|---|
| `wrappers.dfy` | `Wrappers` | `Option` and `Result` |
| `encoding.dfy` | `Encoding` | base16, base64url without padding, UTF-8 bytes of a string |
| `uuids.dfy` | `Uuids` | `Uuid::to_string` and `Uuid::parse_str` |
| `sequences.dfy` | `Sequences` | `iter().find`, `filter`, `split_once`, `starts_with` and `trim_start_matches` |
| `argon2.dfy` | `Argon2` | the abstract password hasher |
| `jsonwebtoken.dfy` | `JsonWebToken` | the abstract signer, `Validation`, and what `decode` checks |
| `errors.dfy` | `Errors` | `ServiceError`, database and repository errors |
| `error_response.dfy` | `ErrorResponses` | `server/src/error.rs` |
| `password.dfy` | `Password` | `server/src/auth/password.rs` |
| `server_config.dfy` | `ServerConfig` | `server/src/config.rs` |
| `token_service.dfy` | `TokenService` | `server/src/services/token.rs` |
| `models.dfy` | `Models` | the user and refresh-token records |
| `mock_users.dfy` | `MockUsers` | `server/src/repositories/mocks/user.rs` |
| `mock_refresh_tokens.dfy` | `MockRefreshTokens` | `server/src/repositories/mocks/refresh_token.rs` |
| `refresh_token_store.dfy` | `RefreshTokenStore` | the refresh-token store as `auth.rs` uses it |
| `auth_service.dfy` | `Auth` | `server/src/services/auth.rs` |
| `jwt_routes.dfy` | `JwtRoutes` | `src/routes/jwt.rs` |

The code in these files comes from several snapshots of the repository,
and they do not agree with one another. The model makes these choices:

- **One refresh-token record type.** It is the union of the snapshots'
  fields: id, user, parent, hash, used flag and two timestamps.
- **One abstract store.** It offers `create(user, parent, hash)`,
  `find_by_id` and `mark_as_used`, which is how `auth.rs` calls it.
  - `create` fails on an id that is already taken, as a primary key would.
  - `mark_as_used` succeeds only on a record that exists and is unused.
  - These two rules are assumptions: the Postgres repository in the
    snapshot is all `todo!()`.
- **`RefreshToken::is_valid()`.** It is not shown in any file, so it is a
  parameter `isValid`.
- **`ServiceError::Auth`.** `password.rs` produces it, but the `match` in
  `error.rs` has no arm for it. The model maps it to 401, like a password
  mismatch.
- **The signing secret in `token.rs`.** `token.rs` reads `config.secret`,
  which the `Config` of `config.rs` does not have. The model uses
  `encryption_key`.

Observations about the code that the model makes visible:

- **A stored hash that does not parse is handled three different ways.**
  - `verify_password` (`server/src/auth/password.rs:18-21`) returns
    `Hash(parse error)`, which `error.rs` turns into 500, while a wrong
    password is 401 (`Password.OutcomeStatus`).
  - `is_valid_password` (`server/src/services/auth.rs:155-164`) returns
    `false`, exactly as for a wrong password.
  - `new` (`src/routes/jwt.rs:78`) panics (see Findings).
- **Expiry has 60 seconds of leeway.** Every `decode` call uses
  `Validation::new`, whose default leeway is 60 seconds. A token is
  therefore accepted until `exp + 60`, not only until `exp`
  (`TokenService.GeneratedTokenExpires`, `Auth.AccessTokenLifetime`).
- **Only one decoder checks the issuer.** `get_valid_access_token_claims`
  (`server/src/services/auth.rs:85-92`) passes its `validation`, with the
  issuer set, to `decode`. `TokenService::decode`
  (`server/src/services/token.rs:38-41`) and `authorize`
  (`src/routes/jwt.rs:119-142`) set the issuer on one `Validation` but
  decode with a fresh one (see Findings).
- **Rotation is two separate steps.** `cycle_refresh_token`
  (`server/src/services/auth.rs:98-106`) first marks the old record used,
  then creates the child. When the second step fails, the old token is
  spent and has no successor (`Auth.CycleFailedCreateKeepsMark`).
- **Access-token lifetimes differ between files.**
  - 900 s in `server/src/services/auth.rs:22`;
  - 500 s as the default in `server/src/config.rs:6`;
  - 3600 s in `src/routes/jwt.rs:63`.

## Model

| member | source | states |
|---|---|---|
| Encoding.HexEncode | server/src/config.rs:41 | `hex::encode` writes two lowercase hex digits per byte |
| Encoding.HexRoundTrip | server/src/config.rs:38-42 | decoding the hex text of the key gives back exactly the random bytes |
| Encoding.Base64UrlEncode | server/src/services/auth.rs:125 | the unpadded base64url text has the RFC 4648 length and uses only the URL-safe alphabet |
| Encoding.Base64UrlRoundTrip | server/src/services/auth.rs:124-125 | decoding the encoded secret gives back exactly the random bytes |
| Uuids.Nil | server/src/repositories/mocks/refresh_token.rs:16-17 | `Uuid::default()` is sixteen zero bytes |
| Uuids.ToString | server/src/services/auth.rs:40 | `to_string` is 36 characters, each a lowercase hex digit or a hyphen |
| Uuids.ParseStr | server/src/services/auth.rs:141 | `parse_str` accepts only the 32-, 36-, 38- and 45-character forms |
| Uuids.ParseToString | server/src/services/auth.rs:139-141 | parsing the written form of a UUID gives the UUID back |
| Uuids.ToStringInjective | server/src/services/auth.rs:131 | different record ids are written differently |
| Uuids.ToStringHasNoDot | server/src/services/auth.rs:131 | the written id contains no full stop, so the full stop can separate the two halves of a composite token |
| Sequences.Find | server/src/repositories/mocks/user.rs:25 | `iter().find` returns an element that satisfies the predicate and has no earlier match, and returns nothing exactly when no element matches |
| Sequences.Filter | server/src/repositories/mocks/refresh_token.rs:44-51 | `filter().collect()` keeps exactly the matching elements |
| Sequences.FilterAppend | server/src/repositories/mocks/refresh_token.rs:70 | filtering preserves order: it distributes over concatenation |
| Sequences.FilterPartition | server/src/repositories/mocks/refresh_token.rs:70 | what a predicate keeps plus what its complement keeps is the whole list, as a multiset and in length |
| Sequences.SplitOnce | server/src/services/auth.rs:139-140 | `split_once('.')` fails exactly when there is no full stop; otherwise it returns the text before the first one and the text after it |
| Sequences.SplitOnceJoin | server/src/services/auth.rs:131-140 | joining a dot-free part, a full stop and any rest is undone by `split_once` |
| Sequences.TrimStartMatches | src/routes/jwt.rs:136 | the result never starts with the prefix |
| Sequences.TrimIsSuffix | src/routes/jwt.rs:136 | the result is a suffix of the input: trimming only removes text from the front |
| Sequences.TrimOnce | src/routes/jwt.rs:136 | one leading copy of the prefix is stripped, and trimming goes on from there |
| Sequences.TrimRepeated | src/routes/jwt.rs:136 | any number of leading copies of a non-empty prefix are all stripped, and nothing more |
| Sequences.TrimDecomposes | src/routes/jwt.rs:136 | the input is always a whole number of copies of the prefix followed by the result; with `TrimRepeated`, this fixes the result exactly |
| JsonWebToken.NewValidation | src/routes/jwt.rs:138 | `Validation::new` checks `exp` and accepts any issuer |
| JsonWebToken.SetIssuer | server/src/services/auth.rs:88 | `set_issuer` restricts the issuer to the given ones and changes nothing else |
| JsonWebToken.ValidateClaims | server/src/services/token.rs:40-41 | claims pass exactly when they are not expired beyond the leeway and come from an allowed issuer; a rejection is `ExpiredSignature` or `InvalidIssuer` |
| JsonWebToken.Decode | server/src/services/token.rs:40-41 | a bad signature is that error; a good signature gives exactly what `ValidateClaims` makes of the signed claims |
| JsonWebToken.DecodeEncoded | server/src/services/token.rs:32-41 | a token decodes under its own key exactly as its claims pass validation |
| JsonWebToken.DecodeOtherKey | server/src/services/token.rs:37-41 | a token never decodes under a key whose HMAC block key differs from the signing key's |
| JsonWebToken.ZeroExtendedKeyDecodes | server/src/services/token.rs:37-41 | a short key with zero bytes appended is a different key, yet it decodes the token exactly as the signing key does |
| ErrorResponses.Unauthorized | server/src/error.rs:32-37 | 401 with "unauthorized access requested" |
| ErrorResponses.NotFound | server/src/error.rs:39-44 | 404 with "the requested resource was not found" |
| ErrorResponses.MethodNotAllowed | server/src/error.rs:46-51 | 405 with its fixed message |
| ErrorResponses.InternalServerError | server/src/error.rs:53-58 | 500 with "an unexpected error occured" |
| ErrorResponses.FromServiceError | server/src/error.rs:13-29 | the mapping is total into {401, 404, 500} and never gives 405; 404 exactly for a missing row; 401 exactly for a password mismatch; every other error is 500 |
| ErrorResponses.IntoResponse | server/src/error.rs:61-68 | the response carries the status and has the message as its body |
| ErrorResponses.BodyDeterminedByStatus | server/src/error.rs:16-27 | two service errors with the same status produce identical responses, so a client learns nothing beyond the status |
| Password.HashPassword | server/src/auth/password.rs:8-15 | the PHC string on success; a hashing failure becomes `ServiceError::Hash` of that failure |
| Password.VerifyPassword | server/src/auth/password.rs:17-28 | an unparsable hash gives `Hash(parse error)` and never `Auth`; success is `Ok(())`; a mismatch is exactly `Auth`; any other verifier error is `Hash` of it |
| Password.VerifyHashed | server/src/auth/password.rs:8-28 | a password verifies against its own hash, and every other password gives `Auth` |
| Password.OutcomeStatus | server/src/auth/password.rs:17-28 | a mismatch reaches the client as 401, but an unparsable stored hash reaches it as 500 |
| ServerConfig.GenerateEncryptionKey | server/src/config.rs:38-42 | the key is 2·n lowercase hex digits and decodes back to the random bytes |
| ServerConfig.Default | server/src/config.rs:19-32 | issuer "open-erase", access TTL 500 s, refresh TTL 604800 s, and a 64-digit lowercase hex key |
| ServerConfig.DeserializeConfig | server/src/config.rs:34-36 | `deserialize_config()` is `Config::default()` |
| ServerConfig.DefaultKeysDiffer | server/src/config.rs:38-42 | different random bytes give different keys |
| TokenService.Generate | server/src/services/token.rs:22-34 | the token is the signature of the claims for that user, under the configured key; a signing failure is `Token` |
| TokenService.Decode | server/src/services/token.rs:36-43 | on success, exactly the claims the signature opens to; validation uses a fresh default `Validation`; a failure is `Token` of the library's error |
| TokenService.GenerateThenDecode | server/src/services/token.rs:22-43 | until expiry plus leeway, a generated token decodes to claims naming the user, with `iat = now`, `exp - iat` equal to the configured TTL, and the configured issuer |
| TokenService.GeneratedTokenExpires | server/src/services/token.rs:36-43 | after expiry plus the 60 s leeway, a generated token is refused as expired |
| TokenService.DecodeIgnoresIssuer | server/src/services/token.rs:38-41 | as written, a token from a foreign issuer is accepted |
| TokenService.DecodeCheckingIssuer | server/src/services/token.rs:38-41 | the corrected decoder returns only claims from the configured issuer |
| TokenService.DecodeCheckingIssuerIsStrict | server/src/services/token.rs:38-41 | the corrected decoder refuses a foreign issuer with `InvalidIssuer`, and still accepts what `generate` issues |
| MockUsers.MockUserRepository.New | server/src/repositories/mocks/user.rs:15-19 | the repository holds exactly the mock user |
| MockUsers.MockUserRepository.FindByUuid | server/src/repositories/mocks/user.rs:24-26 | never an error; the first user with that UUID, or none exactly when nobody has it |
| MockUsers.MockUserRepository.FindByEmail | server/src/repositories/mocks/user.rs:28-30 | never an error; the first user with exactly that email, or none exactly when nobody has it |
| MockUsers.MockUserRepository.Create | server/src/repositories/mocks/user.rs:32-34 | `Ok(())` and the data unchanged |
| MockUsers.MockUserRepository.Delete | server/src/repositories/mocks/user.rs:36-38 | `Ok(())` and the data unchanged |
| MockUsers.NewFindsMock | server/src/repositories/mocks/user.rs:15-30 | the fresh repository finds the mock user by UUID and by email |
| MockUsers.CreatedUserNotFound | server/src/repositories/mocks/user.rs:28-34 | a user "created" in the mock is still not found |
| MockRefreshTokens.MockRecord | server/src/repositories/mocks/refresh_token.rs:13-26 | nil id and user, the fixed hash, epoch timestamps |
| MockRefreshTokens.MockRefreshTokenRepository.constructor | server/src/repositories/mocks/refresh_token.rs:33-39 | the store holds exactly the mock record |
| MockRefreshTokens.MockRefreshTokenRepository.FindByUserId | server/src/repositories/mocks/refresh_token.rs:43-52 | as written: the records whose `id` equals the argument, in store order; the store is not modified |
| MockRefreshTokens.MockRefreshTokenRepository.FindByUserIdIntended | server/src/repositories/mocks/refresh_token.rs:43-52 | corrected: `Ok` of the user's records in store order (`OfUser`, a filter, whose order and count `FilterAppend` and `FilterPartition` fix); every record returned belongs to the user and every record of the user is returned |
| MockRefreshTokens.MockRefreshTokenRepository.Create | server/src/repositories/mocks/refresh_token.rs:54-65 | appends exactly one record at the end: the mock with the given user and hash; returns it |
| MockRefreshTokens.MockRefreshTokenRepository.Delete | server/src/repositories/mocks/refresh_token.rs:67-75 | removes every record with that id and returns the first one removed; with no match, `Test` and the store unchanged |
| MockRefreshTokens.NothingToDrain | server/src/repositories/mocks/refresh_token.rs:67-75 | when nothing matches, draining keeps every record |
| MockRefreshTokens.DeleteLosesNothing | server/src/repositories/mocks/refresh_token.rs:67-75 | removed plus surviving records are exactly the old store |
| MockRefreshTokens.DeleteKeepsOrder | server/src/repositories/mocks/refresh_token.rs:67-75 | the survivors keep their relative order |
| MockRefreshTokens.CreateKeepsIdsNil | server/src/repositories/mocks/refresh_token.rs:54-65 | every record the mock creates has the nil id |
| MockRefreshTokens.NilIdMatchesAll | server/src/repositories/mocks/refresh_token.rs:67-75 | since ids are all nil, `delete(nil)` removes every record |
| MockRefreshTokens.FindByUserIdMissesCreated | server/src/repositories/mocks/refresh_token.rs:50 | as written, the record just created for a user is not found by that user's id; the corrected selection finds it |
| MockRefreshTokens.CreatedFoundByUser | server/src/repositories/mocks/refresh_token.rs:35-52 | for any store, the corrected selection after `create(u, h)` is the user's earlier records in order followed by the new one |
| RefreshTokenStore.FindIn | server/src/services/auth.rs:142-145 | the record found has the id asked for; none exactly when no record has it |
| RefreshTokenStore.CreateIn | server/src/services/auth.rs:127-130 | an id already taken is `UniqueViolation` with no change; otherwise one unused record with the given user, parent and hash is appended |
| RefreshTokenStore.MarkUsedIn | server/src/services/auth.rs:99-102 | succeeds exactly on an existing unused record, sets its flag and changes only that record; otherwise `RowNotFound` with no change |
| RefreshTokenStore.CreateKeepsIdsUnique | server/src/services/auth.rs:127-130 | creating keeps ids unique |
| RefreshTokenStore.MarkUsedKeepsIdsUnique | server/src/services/auth.rs:112-115 | marking keeps ids unique |
| RefreshTokenStore.FindUnique | server/src/services/auth.rs:142-145 | with unique ids, the lookup by id returns the one record carrying that id, wherever it sits |
| RefreshTokenStore.MarkUsedMarksOnlyRecord | server/src/services/auth.rs:112-115 | with unique ids, after a successful mark every record with that id is the marked, used one |
| RefreshTokenStore.MarkUsedChangesOneRecord | server/src/services/auth.rs:99-102 | ids, users, parents and hashes are unchanged; no used flag is cleared; every other record is untouched |
| RefreshTokenStore.MarkUsedOnce | server/src/services/auth.rs:98-117 | a record can be marked used only once |
| RefreshTokenStore.FoundAfterMark | server/src/services/auth.rs:108-117 | after a mark, lookup by that id finds the used record |
| RefreshTokenStore.IndexOfAppend | server/src/services/auth.rs:127-130 | after an append, a lookup finds the earlier record if there is one, else the new record if its id matches, else nothing |
| RefreshTokenStore.FoundAfterCreate | server/src/services/auth.rs:127-130 | after a create, the new id finds the new record and every other lookup is unchanged |
| RefreshTokenStore.RefreshTokenRepository.constructor | server/src/services/auth.rs:52 | a store with the given unique-id records |
| RefreshTokenStore.RefreshTokenRepository.FindById | server/src/services/auth.rs:142-145 | `find_by_id` is the lookup on the current records |
| RefreshTokenStore.RefreshTokenRepository.Create | server/src/services/auth.rs:127-130 | applies `CreateIn` in place and keeps ids unique |
| RefreshTokenStore.RefreshTokenRepository.MarkAsUsed | server/src/services/auth.rs:99-102 | applies `MarkUsedIn` in place and keeps ids unique |
| Auth.NewClaims | server/src/services/auth.rs:36-45 | issuer "open-erase", `iat = now`, `exp = iat + 900`, and `sub` parses back to the user id |
| Auth.GenerateAccessToken | server/src/services/auth.rs:79-83 | the token is the signature of `Claims::new` under the service key; a failure is `Token` |
| Auth.GetValidAccessTokenClaims | server/src/services/auth.rs:85-92 | claims only from a good signature, issuer "open-erase", not expired beyond the leeway; `None` on any failure |
| Auth.AccessTokenLifetime | server/src/services/auth.rs:79-92 | an access token yields its own claims for 900 + 60 s, nothing after that, and nothing under a key with another HMAC block key |
| Auth.IsValidPassword | server/src/services/auth.rs:155-164 | true exactly when `verify_password` would be `Ok(())`; an unparsable hash gives false, not an error |
| Auth.IsValidPasswordOfHash | server/src/services/auth.rs:155-171 | a hash made by `generate_hash` accepts its own secret and no other |
| Auth.ValidateBasicAuth | server/src/services/auth.rs:66-77 | the user exactly when found by email and the password verifies; otherwise `Ok(None)`; repository errors propagate as `Database` |
| Auth.MockLogin | server/src/lib.rs:40-68 | against the mock user hashed from "password123", that password is accepted and "password456" is rejected |
| Auth.CompositeToken | server/src/services/auth.rs:131 | `split_once('.')` on `id.raw` gives back the id text and the secret, whatever the secret contains, since the id text has no dot |
| Auth.GetValidRefreshToken | server/src/services/auth.rs:135-152 | a token without '.' gives `None`; a result is returned only when every guard passed; a token for which every guard passes is returned; the result is an error exactly when the id parses and its lookup fails, and then it is that lookup's error |
| Auth.IssueIn | server/src/services/auth.rs:119-133 | succeeds exactly when the secret hashes and the id is free; on success, the token is id + "." + secret and exactly one record with the hash of the secret is appended; a hashing failure is that error; a taken id is `UniqueViolation`; on failure the store is unchanged |
| Auth.CycleIn | server/src/services/auth.rs:98-106 | a failed mark creates nothing and propagates `RowNotFound`; otherwise a token is issued for the same user with the old record as parent |
| Auth.SecretAlphabet | server/src/services/auth.rs:125 | the base64url secret contains no full stop and no `$` |
| Auth.IssuedTokenShape | server/src/services/auth.rs:124-131 | the token is id + "." + 43 base64url characters; it splits back into the id text and the secret; the id parses back; the secret decodes to the random bytes |
| Auth.StoreSeesOnlyHash | server/src/services/auth.rs:125-130 | the store gains one record whose hash verifies the secret and is not the secret; earlier records are unchanged |
| Auth.LoginRecordHasNoParent | server/src/services/auth.rs:94-96 | a login creates one unused record for that user with no parent |
| Auth.CycleLinksToParent | server/src/services/auth.rs:98-106 | a rotation marks the old record used and appends one child for the same user whose parent is the old record; nothing else changes |
| Auth.CycleFailedCreateKeepsMark | server/src/services/auth.rs:98-106 | when the mark succeeds and the create fails, the old record stays used and no child exists |
| Auth.IssuedTokenAccepted | server/src/services/auth.rs:119-152 | a freshly issued token is accepted and resolves to its own record while that record is valid |
| Auth.RotatedTokenRejected | server/src/services/auth.rs:98-152 | after a rotation, no token resolves to the rotated record, provided validity excludes used records |
| Auth.LoggedOutTokenRejected | server/src/services/auth.rs:108-152 | after `mark_refresh_token_as_used`, no token resolves to that record, provided validity excludes used records |
| Auth.SecondCycleFails | server/src/services/auth.rs:98-106 | rotating the same record twice fails the second time with `RowNotFound` and changes nothing |
| Auth.GenerateByteKey | server/src/services/auth.rs:173-177 | a new 32-byte buffer, zeroed, then filled with the random bytes |
| Auth.AuthService.constructor | server/src/services/auth.rs:56-64 | the service holds the store and the hasher it is given |
| Auth.AuthService.GenerateRefreshToken | server/src/services/auth.rs:119-133 | performs `IssueIn` on the store in place and keeps ids unique |
| Auth.AuthService.GenerateRefreshTokenFromLogin | server/src/services/auth.rs:94-96 | issues with no parent |
| Auth.AuthService.CycleRefreshToken | server/src/services/auth.rs:98-106 | performs `CycleIn`: mark first, then create |
| Auth.AuthService.MarkRefreshTokenAsUsed | server/src/services/auth.rs:108-117 | the store becomes `MarkUsedIn` of the old store; the marked record, or `Database(RowNotFound)` |
| JwtRoutes.LoginClaims | src/routes/jwt.rs:86-92 | `iat = now`, `exp = iat + validity`, the configured issuer, and `sub` parses back to the user's UUID |
| JwtRoutes.New | src/routes/jwt.rs:56-109 | an unknown user or a wrong password is 401; an unparsable stored hash panics; success returns the signed claims with `token_type` "Bearer" and `expires_in` 3600; a signing failure is 500 |
| JwtRoutes.NewIntended | src/routes/jwt.rs:78 | corrected: never panics; an unparsable hash is 401; everything else is as in `New` |
| JwtRoutes.NewPanicsOnMalformedHash | src/routes/jwt.rs:78 | as written, a user row whose hash does not parse makes `new` panic, where the corrected handler answers 401 |
| JwtRoutes.AsciiText | src/routes/jwt.rs:127-130 | `to_str` yields one character per header byte |
| JwtRoutes.BearerToken | src/routes/jwt.rs:136 | the extracted token is a suffix of the header and does not start with "Bearer " |
| JwtRoutes.AuthorizeDecision | src/routes/jwt.rs:111-151 | a missing header, non-visible-ASCII bytes, a missing "Bearer " prefix, a failed decode, or a subject that is not a UUID each give 401; when every guard passes, the request is admitted as the UUID in the decoded subject, and only then |
| JwtRoutes.AuthorizeCheckingIssuer | src/routes/jwt.rs:119-142 | corrected: admits exactly the tokens that pass every guard and come from the configured issuer; whatever it admits, the as-written chain admits too |
| JwtRoutes.Request.constructor | src/routes/jwt.rs:111-115 | a request with its header and no user in its extensions |
| JwtRoutes.Authorize | src/routes/jwt.rs:111-151 | a rejection answers 401 and leaves the request alone; an admission inserts the user into the request and runs the next handler |
| JwtRoutes.BearerBearer | src/routes/jwt.rs:136 | "Bearer Bearer x" yields the token "x" |
| JwtRoutes.CompactTokenIsNotPrefixed | src/routes/jwt.rs:132-136 | a compact JWS token is visible ASCII and never starts with "Bearer " |
| JwtRoutes.LoginTokenAuthorizes | src/routes/jwt.rs:86-142 | when `authorize` sees the configuration that `new` builds, the token `new` issues, sent back as "Bearer <token>", admits its user for 3600 + 60 s and is refused afterwards |
| JwtRoutes.LoginTokenPassesIssuerCheck | src/routes/jwt.rs:86-142 | the corrected gate, with the same configuration, admits that token for the same time and refuses it afterwards |
| JwtRoutes.AuthorizeIgnoresIssuer | src/routes/jwt.rs:119-142 | as written, a correctly signed token from a foreign issuer is admitted; the corrected chain refuses it |

## Left out

- Cryptography internals: the Argon2 KDF (RFC 9106), PHC string parsing and HS256 (section 3.2 of RFC 7518). They are foreign libraries, modelled as function values constrained by `Lawful`.
- Randomness, the clock and id generation (`getrandom`, `OsRng`, `Utc::now`, the ids the database assigns). They are parameters. A failure of the random source panics in `generate_byte_key` and `generate_encryption_key`; this is not modelled.
- Auth.AuthService: the class does not hold the user repository that server/src/services/auth.rs:50-53 keeps. Only `validate_basic_auth` reads it, and `ValidateBasicAuth` takes that lookup as its parameter `findByEmail`.
- Integer widths: timestamps are `nat` and lifetimes are unbounded. The `as usize` casts of negative timestamps and overflow of `now + ttl` are not modelled.
- The Postgres repositories and all sqlx I/O. The login query in `new` is the parameter `fetchByName`, which yields nothing when `fetch_one` fails.
- HTTP plumbing: the axum extractors, Basic-credential decoding, JSON serialization of `GetJWT`, and `next.run(request)`, which `Authorize` reports as the answer `None`.
- `tracing::error!` logging in `error.rs`. It is output only.
- Concurrency: the `Arc<Mutex<…>>` of the mock store, and its lock-poisoning `unwrap`. The store is single-threaded.
- Revoking a whole token family on reuse. The source does not implement it.
- `generate_hash` in `auth.rs` is the same operation as `hash_password` in `password.rs`, so it is modelled once, as `Password.HashPassword`.
- The service error enum in `server/src/services/mod.rs` has no `Auth` variant, and `error.rs` has no arm for it. `ErrorResponses.FromServiceError` maps it to 401.
- Auth.GetValidRefreshToken: `RefreshToken::is_valid()` is not part of this model. It is the parameter `isValid`, and the replay lemmas assume only that it rejects used records.
- JwtRoutes.LoginTokenAuthorizes: both handlers are given the configuration that `new` builds at `src/routes/jwt.rs:60-64`. In the source, `authorize` takes its `Config` from a request extension (`src/routes/jwt.rs:111-112`). `src/main.rs:36` installs only the database pool, and `src/routes/user.rs:35` layers a different `authorize`. So no deployed route pairs these two handlers, and the round trip holds only under that assumption.
- Encoding.Utf8: `as_bytes` of the signing secret is stated only up to its length. Proving UTF-8 injective is not part of this model. No property depends on the key bytes beyond their being a function of the secret.
- HMAC collisions: the signer is assumed to have none between different block keys, an idealisation of HMAC-SHA-256. Zero-padding of short keys is modelled (`PadsShortKeys`); the SHA-256 digest of a key longer than the block is left abstract inside `hmacKey`.
- Auth.MockLogin: states only the service part of the tests in `server/src/lib.rs`. Routing, the Basic header and the status codes are HTTP plumbing.
- RefreshTokenStore.CreateIn: the key check and the conditional `mark_as_used` are assumptions, because no repository in the source implements them.

## Findings

| source | as written | input that shows it | evidently intended | confidence | as-written member | corrected member |
|---|---|---|---|---|---|---|
| server/src/services/token.rs:38-41 | `decode` builds a `validation` with `set_issuer`, then validates with a fresh `Validation::new` | a token signed with the configured secret whose `iss` is not the configured issuer is accepted | tokens from other issuers are refused | high; not executed | TokenService.DecodeIgnoresIssuer | TokenService.DecodeCheckingIssuer |
| src/routes/jwt.rs:119-142 | `authorize` configures `validation` with the issuer, then decodes with a fresh `Validation::new` | the header "Bearer <token>" for a token signed with the secret, with a foreign `iss` and a UUID `sub`, is admitted | tokens from other issuers get 401 | high; not executed | JwtRoutes.AuthorizeIgnoresIssuer | JwtRoutes.AuthorizeCheckingIssuer |
| src/routes/jwt.rs:78 | `PasswordHash::new(...).unwrap()` on the stored hash | a user row whose `password_hash` is not a PHC string makes the handler panic | 401, like a wrong password | medium; not executed | JwtRoutes.NewPanicsOnMalformedHash | JwtRoutes.NewIntended |
| server/src/repositories/mocks/refresh_token.rs:50 | `find_by_user_id(id)` filters on `refresh_token.id == id` | after `create(u, h)` with a non-nil `u`, `find_by_user_id(u)` returns no records | filter on `user_id` | high; not executed | MockRefreshTokens.FindByUserIdMissesCreated | MockRefreshTokens.MockRefreshTokenRepository.FindByUserIdIntended |
