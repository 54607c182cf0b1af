/**
 * Password hashing and verification: three distinct outcomes of checking a
 * password against a stored hash, a hash that does not parse, a wrong
 * password, and success.
 */
module Password {
  import opened Wrappers
  import opened Errors
  import ErrorResponses
  import Argon2

  /** `hash_password`: a PHC string, or the hasher's error as `ServiceError::Hash`. */
  function HashPassword(h: Argon2.Hasher, password: string, salt: Argon2.SaltString): (r: Result<string, ServiceError>)
    ensures r.Ok? <==> h.hashPassword(password, salt).Ok?
    ensures r.Ok? ==> r.value == h.hashPassword(password, salt).value
    ensures r.Err? ==> r.error == Hash(h.hashPassword(password, salt).error)
  {
    match h.hashPassword(password, salt)
    case Ok(phc) => Ok(phc)
    case Err(e) => Err(Hash(e))
  }

  /**
   * `verify_password`: a stored hash that does not parse is `Hash` of the
   * parse error, a mismatch is `Auth`, any other failure of the verifier is
   * `Hash` of that failure.
   */
  function VerifyPassword(h: Argon2.Hasher, password: string, passwordHash: string): (r: Result<(), ServiceError>)
    ensures h.parse(passwordHash).Err? ==> r == Err(Hash(h.parse(passwordHash).error))
    ensures r == Ok(()) <==>
      h.parse(passwordHash).Ok? && h.verifyPassword(password, h.parse(passwordHash).value) == Ok(())
    ensures r == Err(Auth) <==>
      h.parse(passwordHash).Ok? && h.verifyPassword(password, h.parse(passwordHash).value) == Err(Argon2.Password)
    ensures h.parse(passwordHash).Ok? && h.verifyPassword(password, h.parse(passwordHash).value).Err?
              && h.verifyPassword(password, h.parse(passwordHash).value).error != Argon2.Password
            ==> r == Err(Hash(h.verifyPassword(password, h.parse(passwordHash).value).error))
  {
    match h.parse(passwordHash)
    case Err(e) => Err(Hash(e))
    case Ok(parsed) =>
      match h.verifyPassword(password, parsed)
      case Ok(unit) => Ok(unit)
      case Err(Password) => Err(Auth)
      case Err(e) => Err(Hash(e))
  }

  /** A password verifies against its own hash, and every other password is a mismatch. */
  lemma VerifyHashed(h: Argon2.Hasher, password: string, other: string, salt: Argon2.SaltString)
    requires Argon2.Lawful(h)
    requires HashPassword(h, password, salt).Ok?
    ensures VerifyPassword(h, password, HashPassword(h, password, salt).value) == Ok(())
    ensures other != password ==> VerifyPassword(h, other, HashPassword(h, password, salt).value) == Err(Auth)
  {
    var phc := h.hashPassword(password, salt).value;
    assert h.parse(phc).Ok?;
    if other != password {
      assert h.verifyPassword(other, h.parse(phc).value) == Err(Argon2.Password);
    }
  }

  /**
   * Seen from the client, a mismatch is 401 while a stored hash that does not
   * parse is 500: the two failures are not presented alike.
   */
  lemma OutcomeStatus(h: Argon2.Hasher, password: string, passwordHash: string)
    requires Argon2.Lawful(h)
    ensures h.parse(passwordHash).Ok?
              && h.verifyPassword(password, h.parse(passwordHash).value) == Err(Argon2.Password) ==>
      ErrorResponses.FromServiceError(VerifyPassword(h, password, passwordHash).error).statusCode == 401
    ensures h.parse(passwordHash).Err? ==>
      ErrorResponses.FromServiceError(VerifyPassword(h, password, passwordHash).error).statusCode == 500
  {
    if h.parse(passwordHash).Err? {
      assert h.parse(passwordHash) != Err(Argon2.Password);
    }
  }
}
