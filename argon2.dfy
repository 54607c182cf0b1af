/**
 * The `argon2` / `password_hash` crates as the server calls them. The key
 * derivation of RFC 9106 and the parsing of PHC strings are not modelled:
 * they are three function values, and `Lawful` collects what the rest of
 * the model is allowed to assume about them.
 */
module Argon2 {
  import opened Wrappers
  import opened Encoding

  /** `password_hash::Error`, the variants the server can meet. */
  datatype HashError =
    | Password               // the password does not match the hash
    | Algorithm
    | B64Encoding
    | Crypto
    | OutputSize
    | ParamNameInvalid
    | ParamValueInvalid
    | PhcStringField
    | PhcStringTrailingData
    | SaltInvalid
    | Version

  /** `PasswordHash`: the fields of a parsed PHC string. */
  datatype PasswordHash = PasswordHash(
    algorithm: string,
    version: Option<nat>,
    params: seq<(string, string)>,
    salt: Option<string>,
    hash: Option<seq<byte>>)

  /** `SaltString`, generated from the operating system's RNG by the caller. */
  type SaltString = string

  /**
   * `Argon2::default()` with its three entry points:
   * `hash_password(p, salt).map(|h| h.to_string())`, `PasswordHash::new`
   * and `verify_password`.
   */
  datatype Hasher = Hasher(
    hashPassword: (string, SaltString) -> Result<string, HashError>,
    parse: string -> Result<PasswordHash, HashError>,
    verifyPassword: (string, PasswordHash) -> Result<(), HashError>)

  /**
   * What the model assumes of the hasher: a hash it produced parses and
   * accepts its own password and no other, it is written in PHC form
   * (which starts with `$`), and parsing never reports a password mismatch.
   */
  ghost predicate Lawful(h: Hasher) {
    && (forall p, salt ::
          h.hashPassword(p, salt).Ok? ==>
            && h.parse(h.hashPassword(p, salt).value).Ok?
            && h.verifyPassword(p, h.parse(h.hashPassword(p, salt).value).value) == Ok(()))
    && (forall p, q, salt ::
          h.hashPassword(p, salt).Ok? && h.parse(h.hashPassword(p, salt).value).Ok? && q != p ==>
            h.verifyPassword(q, h.parse(h.hashPassword(p, salt).value).value) == Err(Password))
    && (forall p, salt ::
          h.hashPassword(p, salt).Ok? ==>
            |h.hashPassword(p, salt).value| > 0 && h.hashPassword(p, salt).value[0] == '$')
    && (forall s :: h.parse(s) != Err(Password))
  }
}
