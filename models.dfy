/** The two records the core reads and writes: a user account and a refresh-token record. */
module Models {
  import opened Wrappers
  import opened Uuids

  /** `User`: the credential record the login path reads. Times are seconds since the epoch. */
  datatype User = User(uuid: Uuid, email: string, passwordHash: string, createdAt: int, updatedAt: int)

  /**
   * `RefreshToken`: one link of a token family. Only the hash of the secret
   * is kept; `parentId` names the record it replaced, `isUsed` is set when it
   * is rotated away or logged out.
   */
  datatype RefreshToken = RefreshToken(
    id: Uuid,
    userId: Uuid,
    parentId: Option<Uuid>,
    tokenHash: string,
    isUsed: bool,
    createdAt: int,
    updatedAt: int)
}
