/** The error types the services return (`ServiceError`) and the mock repository's own. */
module Errors {
  import Argon2
  import JsonWebToken
  import Uuids

  /** `sqlx::Error`: a query that found no row, or anything else the database reports. */
  datatype DatabaseError = RowNotFound | UniqueViolation | Io

  /**
   * `ServiceError`. `Auth`, the variant `verify_password` returns for a
   * wrong password, belongs to the later revision of the enum.
   */
  datatype ServiceError =
    | Database(db: DatabaseError)
    | Hash(hash: Argon2.HashError)
    | Token(token: JsonWebToken.JwtError)
    | Uuid(uuid: Uuids.UuidError)
    | Auth

  /** `RepositoryError`: the mock repository's only error. */
  datatype RepositoryError = Test
}
