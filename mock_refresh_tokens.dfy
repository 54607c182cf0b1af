/**
 * The in-memory refresh-token repository used by the tests: one shared
 * vector that `create` pushes onto and `delete` drains in place.
 */
module MockRefreshTokens {
  import opened Wrappers
  import opened Uuids
  import opened Models
  import opened Errors
  import opened Sequences

  /** The hash `RefreshToken::mock()` carries (an Argon2id hash of `password123`). */
  const MockHash: string := "$argon2id$v=19$m=16,t=2,p=1$NjFWcEMwUEQ0dmZXcDMwSg$TfJtuSrudRp6hhV2mFSt3g"

  /** `RefreshToken::mock()`: nil id and user, the fixed hash, epoch timestamps. */
  function MockRecord(): (r: RefreshToken)
    ensures r.id == Nil() && r.userId == Nil() && r.tokenHash == MockHash
    ensures r.parentId == None && !r.isUsed && r.createdAt == 0 && r.updatedAt == 0
  {
    RefreshToken(Nil(), Nil(), None, MockHash, false, 0, 0)
  }

  function IdIs(id: Uuid): RefreshToken -> bool {
    (t: RefreshToken) => t.id == id
  }

  function IdIsNot(id: Uuid): RefreshToken -> bool {
    (t: RefreshToken) => t.id != id
  }

  function UserIs(userId: Uuid): RefreshToken -> bool {
    (t: RefreshToken) => t.userId == userId
  }

  /** The records whose `id` is `id`, in store order. */
  function WithId(s: seq<RefreshToken>, id: Uuid): seq<RefreshToken> {
    Filter(s, IdIs(id))
  }

  /** The records whose `id` is not `id`, in store order. */
  function WithoutId(s: seq<RefreshToken>, id: Uuid): seq<RefreshToken> {
    Filter(s, IdIsNot(id))
  }

  /** The records belonging to user `userId`, in store order. */
  function OfUser(s: seq<RefreshToken>, userId: Uuid): seq<RefreshToken> {
    Filter(s, UserIs(userId))
  }

  predicate AllIdsNil(s: seq<RefreshToken>) {
    forall i :: 0 <= i < |s| ==> s[i].id == Nil()
  }

  class MockRefreshTokenRepository {
    var data: seq<RefreshToken>

    /** `MockRefreshTokenRepository::new()`: the mock record alone. */
    constructor ()
      ensures data == [MockRecord()]
    {
      data := [MockRecord()];
    }

    /** `find_by_user_id`: as written, it selects by the record's `id`, not its `user_id`. */
    method FindByUserId(id: Uuid) returns (r: Result<seq<RefreshToken>, RepositoryError>)
      ensures r == Ok(WithId(data, id))
    {
      r := Ok(WithId(data, id));
    }

    /** `find_by_user_id` as its name promises: the user's records, in store order. */
    method FindByUserIdIntended(userId: Uuid) returns (r: Result<seq<RefreshToken>, RepositoryError>)
      ensures r == Ok(OfUser(data, userId))
      ensures forall t :: t in r.value ==> t in data && t.userId == userId
      ensures forall i :: 0 <= i < |data| && data[i].userId == userId ==> data[i] in r.value
    {
      r := Ok(OfUser(data, userId));
    }

    /** `create`: a copy of the mock record with the given user and hash, pushed at the end. */
    method Create(userId: Uuid, tokenHash: string) returns (r: Result<RefreshToken, RepositoryError>)
      modifies this
      ensures r == Ok(MockRecord().(userId := userId, tokenHash := tokenHash))
      ensures data == old(data) + [r.value]
    {
      var record := MockRecord().(userId := userId, tokenHash := tokenHash);
      data := data + [record];
      r := Ok(record);
    }

    /**
     * `delete`: `extract_if` drains every record with that id; the first one
     * drained is returned, and `RepositoryError::Test` when there is none.
     */
    method Delete(id: Uuid) returns (r: Result<RefreshToken, RepositoryError>)
      modifies this
      ensures data == WithoutId(old(data), id)
      ensures WithId(old(data), id) == [] ==> r == Err(Test) && data == old(data)
      ensures WithId(old(data), id) != [] ==> r == Ok(WithId(old(data), id)[0])
    {
      var drained := WithId(data, id);
      if drained == [] {
        NothingToDrain(data, id);
      }
      data := WithoutId(data, id);
      r := if drained == [] then Err(Test) else Ok(drained[0]);
    }
  }

  /** With no record matching, draining keeps every record. */
  lemma {:induction false} NothingToDrain(s: seq<RefreshToken>, id: Uuid)
    requires WithId(s, id) == []
    ensures WithoutId(s, id) == s
  {
    if s != [] {
      assert s[0].id != id;
      NothingToDrain(s[1..], id);
      assert s == [s[0]] + s[1..];
    }
  }

  /** `delete` loses nothing: what it drains and what survives together are the old store. */
  lemma DeleteLosesNothing(s: seq<RefreshToken>, id: Uuid)
    ensures multiset(WithId(s, id)) + multiset(WithoutId(s, id)) == multiset(s)
    ensures |WithId(s, id)| + |WithoutId(s, id)| == |s|
  {
    FilterPartition(s, IdIs(id), IdIsNot(id));
  }

  /** The survivors of `delete` keep their relative order. */
  lemma DeleteKeepsOrder(s: seq<RefreshToken>, t: seq<RefreshToken>, id: Uuid)
    ensures WithoutId(s + t, id) == WithoutId(s, id) + WithoutId(t, id)
  {
    FilterAppend(s, t, IdIsNot(id));
  }

  /** Every record the mock ever holds has the nil id. */
  lemma CreateKeepsIdsNil(s: seq<RefreshToken>, userId: Uuid, tokenHash: string)
    requires AllIdsNil(s)
    ensures AllIdsNil(s + [MockRecord().(userId := userId, tokenHash := tokenHash)])
  {
  }

  /**
   * So ids are not unique: once something was created, the nil id matches
   * every record, and `delete(nil)` empties the store, returning its first record.
   */
  lemma {:induction false} NilIdMatchesAll(s: seq<RefreshToken>)
    requires AllIdsNil(s)
    ensures WithId(s, Nil()) == s
    ensures WithoutId(s, Nil()) == []
  {
    if s != [] {
      NilIdMatchesAll(s[1..]);
      assert s == [s[0]] + s[1..];
    }
  }

  /**
   * As written, `find_by_user_id(u)` misses the record just created for
   * user `u`; the intended selection finds it.
   */
  lemma FindByUserIdMissesCreated(userId: Uuid, tokenHash: string)
    requires userId != Nil()
    ensures var s := [MockRecord(), MockRecord().(userId := userId, tokenHash := tokenHash)];
      WithId(s, userId) == [] && OfUser(s, userId) == [s[1]]
  {
    var s := [MockRecord(), MockRecord().(userId := userId, tokenHash := tokenHash)];
    assert s[1..] == [s[1]];
    assert s[1..][1..] == [];
    assert s[0].id == Nil() && s[1].id == Nil();
    assert WithId(s[1..], userId) == [];
    assert s[0].userId == Nil() && s[1].userId == userId;
    assert OfUser(s[1..], userId) == [s[1]];
  }

  /**
   * The intended selection finds what `create` pushes, for any store:
   * the user's earlier records, in order, then the new one.
   */
  lemma CreatedFoundByUser(s: seq<RefreshToken>, userId: Uuid, tokenHash: string)
    ensures var record := MockRecord().(userId := userId, tokenHash := tokenHash);
      OfUser(s + [record], userId) == OfUser(s, userId) + [record]
  {
    var record := MockRecord().(userId := userId, tokenHash := tokenHash);
    FilterAppend(s, [record], UserIs(userId));
    assert [record][1..] == [];
  }
}
