/** The in-memory user repository used by the tests: a fixed list searched front to back. */
module MockUsers {
  import opened Wrappers
  import opened Uuids
  import opened Models
  import opened Errors
  import opened Sequences

  datatype MockUserRepository = MockUserRepository(data: seq<User>) {

    /** `MockUserRepository::new()`: just the mock user, passed in as `mock`. */
    static function New(mock: User): (r: MockUserRepository)
      ensures r.data == [mock]
    {
      MockUserRepository([mock])
    }

    /** `find_by_uuid`: the first user with that UUID; never an error. */
    function FindByUuid(uuid: Uuid): (r: Result<Option<User>, DatabaseError>)
      ensures r.Ok?
      ensures r.value.Some? ==> exists i :: 0 <= i < |data| && data[i] == r.value.value
                                  && data[i].uuid == uuid && forall j :: 0 <= j < i ==> data[j].uuid != uuid
      ensures r.value.None? <==> forall i :: 0 <= i < |data| ==> data[i].uuid != uuid
    {
      Ok(Find(data, (u: User) => u.uuid == uuid))
    }

    /** `find_by_email`: the first user whose email is exactly `email`; never an error. */
    function FindByEmail(email: string): (r: Result<Option<User>, DatabaseError>)
      ensures r.Ok?
      ensures r.value.Some? ==> exists i :: 0 <= i < |data| && data[i] == r.value.value
                                  && data[i].email == email && forall j :: 0 <= j < i ==> data[j].email != email
      ensures r.value.None? <==> forall i :: 0 <= i < |data| ==> data[i].email != email
    {
      Ok(Find(data, (u: User) => u.email == email))
    }

    /** `create`: reports success and stores nothing. */
    function Create(email: string, passwordHash: string): (r: (Result<(), DatabaseError>, MockUserRepository))
      ensures r.0 == Ok(()) && r.1 == this
    {
      (Ok(()), this)
    }

    /** `delete`: reports success and removes nothing. */
    function Delete(uuid: Uuid): (r: (Result<(), DatabaseError>, MockUserRepository))
      ensures r.0 == Ok(()) && r.1 == this
    {
      (Ok(()), this)
    }
  }

  /** The fresh repository finds the mock user by its UUID and by its email. */
  lemma NewFindsMock(mock: User)
    ensures MockUserRepository.New(mock).FindByUuid(mock.uuid) == Ok(Some(mock))
    ensures MockUserRepository.New(mock).FindByEmail(mock.email) == Ok(Some(mock))
  {
  }

  /** A user "created" in the mock is still not found afterwards. */
  lemma CreatedUserNotFound(repo: MockUserRepository, email: string, passwordHash: string)
    requires repo.FindByEmail(email) == Ok(None)
    ensures repo.Create(email, passwordHash).1.FindByEmail(email) == Ok(None)
  {
  }
}
