/** The user service: registration with the database's integrity errors
    mapped to the application's, partial update, lookup and deletion. */
module UserService {
  import opened Common
  import opened Model
  import opened Persistence
  import Checks = UserValidation

  /** Some link of the cause chain is exactly a `PSQLException` whose
      SQLState is the unique-violation code. */
  predicate HasUniqueViolation(causes: seq<Throwable>) {
    exists i :: 0 <= i < |causes| && IsUniqueViolation(causes[i])
  }

  predicate IsUniqueViolation(t: Throwable) {
    t.className == PSQL_EXCEPTION && t.sqlState == Some(UNIQUE_VIOLATION)
  }

  /** Walks the cause chain of a data-integrity failure: a unique violation
      anywhere in it is a duplicate email, anything else a validation error. */
  method MapIntegrityFailure(causes: seq<Throwable>) returns (e: Error)
    ensures e == (if HasUniqueViolation(causes) then UserDuplicateEmail else UserValidation)
  {
    var i := 0;
    while i < |causes|
      invariant 0 <= i <= |causes|
      invariant forall k :: 0 <= k < i ==> !IsUniqueViolation(causes[k])
    {
      if causes[i].className == PSQL_EXCEPTION && causes[i].sqlState == Some(UNIQUE_VIOLATION) {
        return UserDuplicateEmail;
      }
      i := i + 1;
    }
    return UserValidation;
  }

  /** The chain the store raises for a duplicate address maps to a duplicate
      email; the one it raises for a missing column does not. */
  lemma ViolationChainsClassified()
    ensures HasUniqueViolation(ViolationChain(UNIQUE_VIOLATION))
    ensures !HasUniqueViolation(ViolationChain(NOT_NULL_VIOLATION))
  {
    assert IsUniqueViolation(ViolationChain(UNIQUE_VIOLATION)[1]);
    assert !IsUniqueViolation(ViolationChain(NOT_NULL_VIOLATION)[1]);
  }

  /** Registration: validation first, and a failed validation stores nothing;
      then the insert, whose integrity failure is mapped through the cause
      chain. A payload without a name passes validation and is refused by the
      NOT NULL constraint. */
  method Create(db: Store, d: UserDto) returns (r: Result<User>)
    requires db.Valid()
    modifies db
    ensures db.Valid()
    ensures Checks.ValidateCreation(old(db.users), d).Fail? ==>
              r == Err(Checks.ValidateCreation(old(db.users), d).error) && db.users == old(db.users)
    ensures Checks.ValidateCreation(old(db.users), d) == Pass && d.name.None? ==>
              r == Err(UserValidation) && db.users == old(db.users)
    ensures Checks.ValidateCreation(old(db.users), d) == Pass && d.name.Some? ==>
              && r == Ok(User(old(db.nextUserId), d.name.value, d.email.value))
              && old(db.nextUserId) !in old(db.users)
              && db.users == old(db.users)[r.value.id := r.value]
    ensures db.items == old(db.items) && db.bookings == old(db.bookings) && db.comments == old(db.comments)
    ensures db.nextUserId == if r.Ok? then old(db.nextUserId) + 1 else old(db.nextUserId)
    ensures db.nextItemId == old(db.nextItemId) && db.nextBookingId == old(db.nextBookingId) && db.nextCommentId == old(db.nextCommentId)
  {
    var v := Checks.ValidateCreation(db.users, d);
    if v.Fail? {
      return Err(v.error);
    }
    var saved := db.InsertUser(d.name, d.email);
    match saved
    case Saved(u) =>
      r := Ok(u);
    case IntegrityViolation(causes) =>
      ViolationChainsClassified();
      var e := MapIntegrityFailure(causes);
      r := Err(e);
  }

  /** A stored user with the patch's non-null name and email applied. */
  function Merge(stored: User, patch: UserDto): (u: User)
    ensures u.id == stored.id
    ensures u.name == (if patch.name.Some? then patch.name.value else stored.name)
    ensures u.email == (if patch.email.Some? then patch.email.value else stored.email)
  {
    var name := if patch.name.Some? && patch.name.value != stored.name then patch.name.value else stored.name;
    var email := if patch.email.Some? && patch.email.value != stored.email then patch.email.value else stored.email;
    User(stored.id, name, email)
  }

  /** Applying a patch whose address no user has keeps the addresses
      unique. */
  lemma MergeKeepsEmailsUnique(users: map<Id, User>, id: Id, patch: UserDto)
    requires UniqueEmails(users) && id in users
    requires patch.email.None? || !EmailTaken(users, patch.email.value)
    ensures UniqueEmails(users[id := Merge(users[id], patch)])
  {
    var u := Merge(users[id], patch);
    forall k | k in users && k != id ensures users[k].email != u.email {
      if patch.email.Some? {
        assert users[k].email != patch.email.value;
      }
    }
  }

  /** Partial update: the path id is forced onto the patch, the validation
      runs, and the stored user with the patch applied is saved and given
      back. */
  method Update(db: Store, id: Id, patch: UserDto) returns (r: Result<User>)
    requires db.Valid()
    modifies db
    ensures db.Valid()
    ensures Checks.ValidateUpdateAndGet(old(db.users), patch.(id := Some(id))).Err? ==>
              r == Err(Checks.ValidateUpdateAndGet(old(db.users), patch.(id := Some(id))).error) &&
              db.users == old(db.users)
    ensures r.Ok? ==>
              && id in old(db.users)
              && r.value == Merge(old(db.users)[id], patch)
              && db.users == old(db.users)[id := r.value]
    ensures Checks.ValidateUpdateAndGet(old(db.users), patch.(id := Some(id))).Ok? ==> r.Ok?
    ensures db.items == old(db.items) && db.bookings == old(db.bookings) && db.comments == old(db.comments)
    ensures db.nextUserId == old(db.nextUserId) && db.nextItemId == old(db.nextItemId) &&
            db.nextBookingId == old(db.nextBookingId) && db.nextCommentId == old(db.nextCommentId)
  {
    var p := patch.(id := Some(id));
    var v := Checks.ValidateUpdateAndGet(db.users, p);
    if v.Err? {
      return Err(v.error);
    }
    var u := Merge(v.value, patch);
    MergeKeepsEmailsUnique(db.users, id, patch);
    db.SaveUser(u);
    r := Ok(u);
  }

  /** Lookup by id. */
  function GetById(users: map<Id, User>, id: Id): (r: Result<User>)
    ensures r.Ok? <==> id in users
    ensures r.Ok? ==> r.value == users[id]
    ensures r.Err? ==> r.error == UserNotFound
  {
    if id in users then Ok(users[id]) else Err(UserNotFound)
  }

  /** Deletion: an unknown id is refused; otherwise that user is gone and
      every other user is as before. */
  method Delete(db: Store, id: Id) returns (r: Outcome)
    requires db.Valid()
    modifies db
    ensures db.Valid()
    ensures id !in old(db.users) ==> r == Fail(UserNotFound) && db.users == old(db.users)
    ensures id in old(db.users) ==> r == Pass && db.users == old(db.users) - {id}
    ensures db.items == old(db.items) && db.bookings == old(db.bookings) && db.comments == old(db.comments)
    ensures db.nextUserId == old(db.nextUserId) && db.nextItemId == old(db.nextItemId) &&
            db.nextBookingId == old(db.nextBookingId) && db.nextCommentId == old(db.nextCommentId)
  {
    r := Checks.ValidateDelete(db.users, id);
    if r.Fail? {
      return;
    }
    db.DeleteUser(id);
  }

  /** After a deletion the id is no longer found and no other user changed. */
  lemma DeletedUserNotFound(users: map<Id, User>, id: Id, other: Id)
    requires other != id
    ensures GetById(users - {id}, id) == Err(UserNotFound)
    ensures GetById(users - {id}, other) == GetById(users, other)
  {
  }
}
