/** The checks the user service runs against the user table before it writes. */
module UserValidation {
  import opened Common
  import opened Model
  import opened Persistence
  import opened EmailPattern

  /** The email lookup: a null address matches no row. */
  predicate ContainsEmail(users: map<Id, User>, email: Option<string>) {
    email.Some? && EmailTaken(users, email.value)
  }

  /** Creation: an address some user already has is a duplicate; then the
      address must be present and match the pattern. The name is not checked. */
  function ValidateCreation(users: map<Id, User>, d: UserDto): (r: Outcome)
    ensures d.email.Some? && EmailTaken(users, d.email.value) ==> r == Fail(UserDuplicateEmail)
    ensures d.email.None? ==> r == Fail(UserValidation)
    ensures d.email.Some? && !EmailTaken(users, d.email.value) && !Matches(d.email.value) ==> r == Fail(UserValidation)
    ensures r == Pass <==> d.email.Some? && !EmailTaken(users, d.email.value) && Matches(d.email.value)
  {
    if ContainsEmail(users, d.email) then Fail(UserDuplicateEmail)
    else if d.email.None? then Fail(UserValidation)
    else if !Matches(d.email.value) then Fail(UserValidation)
    else Pass
  }

  /** Update: a patch must carry a name or an address; an address that any
      user already has, the patched user included, is a duplicate; and the
      user must exist. Gives the stored user. */
  function ValidateUpdateAndGet(users: map<Id, User>, d: UserDto): (r: Result<User>)
    ensures d.email.None? && d.name.None? ==> r == Err(UserValidation)
    ensures (d.email.Some? || d.name.Some?) && ContainsEmail(users, d.email) ==> r == Err(UserDuplicateEmail)
    ensures (d.email.Some? || d.name.Some?) && !ContainsEmail(users, d.email) && !(d.id.Some? && d.id.value in users) ==>
              r == Err(UserNotFound)
    ensures r.Ok? <==> (d.email.Some? || d.name.Some?) && !ContainsEmail(users, d.email) && d.id.Some? && d.id.value in users
    ensures r.Ok? ==> r.value == users[d.id.value]
  {
    if d.email.None? && d.name.None? then Err(UserValidation)
    else if d.email.Some? && ContainsEmail(users, d.email) then Err(UserDuplicateEmail)
    else if d.id.Some? && d.id.value in users then Ok(users[d.id.value])
    else Err(UserNotFound)
  }

  /** Deletion: the user must exist. */
  function ValidateDelete(users: map<Id, User>, id: Id): (r: Outcome)
    ensures r == Pass <==> id in users
    ensures r.Fail? ==> r.error == UserNotFound
  {
    if id in users then Pass else Fail(UserNotFound)
  }

  /** Item creation: the owner must exist. */
  function ValidateItemCreate(users: map<Id, User>, ownerId: Id): (r: Outcome)
    ensures r.Fail? <==> ownerId !in users
    ensures r != Pass ==> r == Fail(UserNotFound)
  {
    if ownerId in users then Pass else Fail(UserNotFound)
  }

  /** `user.com` is refused at creation unless it is already taken. */
  lemma RejectsAddressWithoutAt(users: map<Id, User>, d: UserDto)
    requires d.email == Some("user.com")
    ensures ValidateCreation(users, d).Fail?
    ensures !EmailTaken(users, "user.com") ==> ValidateCreation(users, d) == Fail(UserValidation)
  {
    RejectsMissingAt();
  }
}
