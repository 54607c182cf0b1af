/**
 * The refresh-token store as the authentication service uses it: records are
 * created with a fresh id, found by id, and marked as used at most once.
 * The transitions are functions on the list of records; the repository
 * object applies them in place.
 */
module RefreshTokenStore {
  import opened Wrappers
  import opened Uuids
  import opened Models
  import opened Errors
  import opened Sequences

  /** The store's primary key: no two records share an id. */
  predicate UniqueIds(s: seq<RefreshToken>) {
    forall i, j :: 0 <= i < j < |s| ==> s[i].id != s[j].id
  }

  function HasId(id: Uuid): RefreshToken -> bool {
    (t: RefreshToken) => t.id == id
  }

  /** Where the record with that id sits. */
  function IndexOf(s: seq<RefreshToken>, id: Uuid): (r: Option<nat>)
    ensures r.Some? ==> r.value < |s| && s[r.value].id == id
    ensures r.Some? ==> forall j :: 0 <= j < r.value ==> s[j].id != id
    ensures r.None? <==> forall j :: 0 <= j < |s| ==> s[j].id != id
  {
    FirstIndex(s, HasId(id))
  }

  /** `find_by_id`: the record with that id, if there is one. */
  function FindIn(s: seq<RefreshToken>, id: Uuid): (r: Option<RefreshToken>)
    ensures r.Some? ==> r.value.id == id && r.value in s
    ensures r.None? <==> forall j :: 0 <= j < |s| ==> s[j].id != id
  {
    match IndexOf(s, id)
    case None => None
    case Some(i) => Some(s[i])
  }

  /**
   * `create(user_id, parent_id, hash)` with the id and the time the store
   * assigns: an id already taken violates the primary key and changes nothing;
   * otherwise an unused record is appended.
   */
  function CreateIn(s: seq<RefreshToken>, userId: Uuid, parentId: Option<Uuid>, tokenHash: string, id: Uuid, now: int)
    : (r: (Result<RefreshToken, DatabaseError>, seq<RefreshToken>))
    ensures r.0.Err? <==> exists j :: 0 <= j < |s| && s[j].id == id
    ensures r.0.Err? ==> r.0.error == UniqueViolation && r.1 == s
    ensures r.0.Ok? ==> r.1 == s + [r.0.value] && r.0.value.id == id
    ensures r.0.Ok? ==> r.0.value.userId == userId && r.0.value.parentId == parentId
                        && r.0.value.tokenHash == tokenHash && !r.0.value.isUsed
  {
    if FindIn(s, id).Some? then (Err(UniqueViolation), s)
    else
      var record := RefreshToken(id, userId, parentId, tokenHash, false, now, now);
      (Ok(record), s + [record])
  }

  /**
   * `mark_as_used(id)`, atomic and conditional: a record that is missing or
   * already used is `RowNotFound` and changes nothing; otherwise that record
   * alone becomes used, stamped with `now`.
   */
  function MarkUsedIn(s: seq<RefreshToken>, id: Uuid, now: int)
    : (r: (Result<RefreshToken, DatabaseError>, seq<RefreshToken>))
    ensures r.0.Ok? <==> FindIn(s, id).Some? && !FindIn(s, id).value.isUsed
    ensures r.0.Err? ==> r.0.error == RowNotFound && r.1 == s
    ensures r.0.Ok? ==> r.0.value == FindIn(s, id).value.(isUsed := true, updatedAt := now)
    ensures r.0.Ok? ==> r.1 == s[IndexOf(s, id).value := r.0.value]
  {
    match IndexOf(s, id)
    case None => (Err(RowNotFound), s)
    case Some(i) =>
      if s[i].isUsed then (Err(RowNotFound), s)
      else
        var record := s[i].(isUsed := true, updatedAt := now);
        (Ok(record), s[i := record])
  }

  /** The store seen through `find_by_id`, as the service's lookups see it. */
  function Lookup(s: seq<RefreshToken>): Uuid -> Result<Option<RefreshToken>, DatabaseError> {
    (id: Uuid) => Ok(FindIn(s, id))
  }

  /** Which records have which ids is all that decides where an id is found. */
  lemma IndexOfSameIds(s: seq<RefreshToken>, t: seq<RefreshToken>, id: Uuid)
    requires |s| == |t| && forall j :: 0 <= j < |s| ==> s[j].id == t[j].id
    ensures IndexOf(s, id) == IndexOf(t, id)
  {
  }

  /** Creating keeps ids unique: that is what the key check is for. */
  lemma CreateKeepsIdsUnique(s: seq<RefreshToken>, userId: Uuid, parentId: Option<Uuid>,
                             tokenHash: string, id: Uuid, now: int)
    requires UniqueIds(s)
    ensures UniqueIds(CreateIn(s, userId, parentId, tokenHash, id, now).1)
  {
  }

  /** Marking keeps ids unique. */
  lemma MarkUsedKeepsIdsUnique(s: seq<RefreshToken>, id: Uuid, now: int)
    requires UniqueIds(s)
    ensures UniqueIds(MarkUsedIn(s, id, now).1)
  {
  }

  /** Under the primary key, `find_by_id` gives the one record with that id, whatever its position. */
  lemma FindUnique(s: seq<RefreshToken>, t: RefreshToken)
    requires UniqueIds(s) && t in s
    ensures FindIn(s, t.id) == Some(t)
  {
  }

  /**
   * Under the primary key, marking leaves no unused record with that id:
   * every record carrying it afterwards is the marked one.
   */
  lemma MarkUsedMarksOnlyRecord(s: seq<RefreshToken>, id: Uuid, now: int)
    requires UniqueIds(s) && MarkUsedIn(s, id, now).0.Ok?
    ensures var (r, s') := MarkUsedIn(s, id, now);
      forall j :: 0 <= j < |s'| && s'[j].id == id ==> s'[j] == r.value && s'[j].isUsed
  {
  }

  /**
   * Marking leaves every other record, every id and every hash as it was,
   * and never clears a used flag.
   */
  lemma MarkUsedChangesOneRecord(s: seq<RefreshToken>, id: Uuid, now: int)
    ensures var s' := MarkUsedIn(s, id, now).1;
      |s'| == |s|
      && (forall j :: 0 <= j < |s| ==> s'[j].id == s[j].id && s'[j].tokenHash == s[j].tokenHash
                                        && s'[j].userId == s[j].userId && s'[j].parentId == s[j].parentId)
      && (forall j :: 0 <= j < |s| && s[j].isUsed ==> s'[j].isUsed)
      && (forall j :: 0 <= j < |s| && s[j].id != id ==> s'[j] == s[j])
  {
  }

  /** A record can be marked used only once: the second attempt is `RowNotFound` and changes nothing. */
  lemma MarkUsedOnce(s: seq<RefreshToken>, id: Uuid, now: int, later: int)
    requires MarkUsedIn(s, id, now).0.Ok?
    ensures var s' := MarkUsedIn(s, id, now).1;
      MarkUsedIn(s', id, later) == (Err(RowNotFound), s')
  {
    var s' := MarkUsedIn(s, id, now).1;
    MarkUsedChangesOneRecord(s, id, now);
    IndexOfSameIds(s, s', id);
  }

  /** After a successful mark, looking the id up finds the used record. */
  lemma FoundAfterMark(s: seq<RefreshToken>, id: Uuid, now: int)
    requires MarkUsedIn(s, id, now).0.Ok?
    ensures FindIn(MarkUsedIn(s, id, now).1, id) == Some(MarkUsedIn(s, id, now).0.value)
  {
    var s' := MarkUsedIn(s, id, now).1;
    MarkUsedChangesOneRecord(s, id, now);
    IndexOfSameIds(s, s', id);
  }

  /** A successful create leaves every earlier lookup as it was and finds the new record. */
  lemma FoundAfterCreate(s: seq<RefreshToken>, userId: Uuid, parentId: Option<Uuid>,
                         tokenHash: string, id: Uuid, now: int, other: Uuid)
    requires CreateIn(s, userId, parentId, tokenHash, id, now).0.Ok?
    ensures var (r, s') := CreateIn(s, userId, parentId, tokenHash, id, now);
      FindIn(s', id) == Some(r.value) && (other != id ==> FindIn(s', other) == FindIn(s, other))
  {
    var (r, s') := CreateIn(s, userId, parentId, tokenHash, id, now);
    IndexOfAppend(s, r.value, id);
    IndexOfAppend(s, r.value, other);
  }

  /** Appending a record leaves earlier positions first, and the new one is found only when no earlier record matches. */
  lemma IndexOfAppend(s: seq<RefreshToken>, rec: RefreshToken, x: Uuid)
    ensures IndexOf(s + [rec], x) ==
      if IndexOf(s, x).Some? then IndexOf(s, x) else if rec.id == x then Some(|s|) else None
  {
    var t := s + [rec];
    assert forall j :: 0 <= j < |s| ==> t[j] == s[j];
    assert t[|s|] == rec;
  }

  /** The store object: the list of records, applied the transitions in place. */
  class RefreshTokenRepository {
    var records: seq<RefreshToken>

    predicate Valid()
      reads this
    {
      UniqueIds(records)
    }

    constructor (records: seq<RefreshToken>)
      requires UniqueIds(records)
      ensures Valid() && this.records == records
    {
      this.records := records;
    }

    method FindById(id: Uuid) returns (r: Result<Option<RefreshToken>, DatabaseError>)
      ensures r == Ok(FindIn(records, id))
      ensures r.value.Some? ==> r.value.value.id == id
    {
      r := Ok(FindIn(records, id));
    }

    method Create(userId: Uuid, parentId: Option<Uuid>, tokenHash: string, id: Uuid, now: int)
      returns (r: Result<RefreshToken, DatabaseError>)
      requires Valid()
      modifies this
      ensures Valid()
      ensures (r, records) == CreateIn(old(records), userId, parentId, tokenHash, id, now)
    {
      CreateKeepsIdsUnique(records, userId, parentId, tokenHash, id, now);
      var next;
      r, next := CreateIn(records, userId, parentId, tokenHash, id, now).0,
                 CreateIn(records, userId, parentId, tokenHash, id, now).1;
      records := next;
    }

    method MarkAsUsed(id: Uuid, now: int) returns (r: Result<RefreshToken, DatabaseError>)
      requires Valid()
      modifies this
      ensures Valid()
      ensures (r, records) == MarkUsedIn(old(records), id, now)
    {
      MarkUsedKeepsIdsUnique(records, id, now);
      var next;
      r, next := MarkUsedIn(records, id, now).0, MarkUsedIn(records, id, now).1;
      records := next;
    }
  }
}
