/** The checks the item service runs on an item payload. */
module ItemValidation {
  import opened Common
  import opened Model
  import opened Text
  import Users = UserValidation

  /** Creation, for a payload whose owner the service has already set: the
      owner must exist; then the availability, a non-blank name and a
      description must be present. An empty or blank description passes. */
  function ValidateCreation(users: map<Id, User>, d: ItemDto): (r: Outcome)
    requires d.owner.Some?
    ensures d.owner.value !in users ==> r == Fail(UserNotFound)
    ensures d.owner.value in users && d.available.None? ==> r == Fail(ItemValidation)
    ensures d.owner.value in users && d.available.Some? && (d.name.None? || IsBlank(d.name.value)) ==>
              r == Fail(ItemValidation)
    ensures (d.owner.value in users && d.available.Some? && d.name.Some? && !IsBlank(d.name.value) &&
             d.description.None?) ==> r == Fail(ItemValidation)
    ensures r == Pass <==>
              d.owner.value in users && d.available.Some? && d.name.Some? && !IsBlank(d.name.value) &&
              d.description.Some?
  {
    var owner := Users.ValidateItemCreate(users, d.owner.value);
    if owner.Fail? then owner
    else if d.available.None? then Fail(ItemValidation)
    else if d.name.None? || IsBlank(d.name.value) then Fail(ItemValidation)
    else if d.description.None? then Fail(ItemValidation)
    else Pass
  }

  /** A blank description is accepted where a blank name is not. */
  lemma BlankDescriptionAccepted(users: map<Id, User>, d: ItemDto)
    requires d.owner.Some? && d.owner.value in users
    requires d.available.Some? && d.name == Some("drill")
    ensures ValidateCreation(users, d.(description := Some(" "))) == Pass
    ensures ValidateCreation(users, d.(name := Some(" "), description := Some("drill"))) == Fail(ItemValidation)
  {
    assert "drill"[0] == 'd' && !IsWhitespace('d');
    assert !IsBlank("drill");
    assert IsWhitespace(" "[0]);
  }

  /** Update: the caller must be known; then the item must exist and belong
      to the caller. Gives the stored item. */
  function ValidateUpdateAndGet(items: map<Id, Item>, d: ItemDto): (r: Result<Item>)
    ensures d.owner.None? ==> r == Err(ItemValidation)
    ensures d.owner.Some? && !(d.id.Some? && d.id.value in items) ==> r == Err(ItemNotFound)
    ensures d.owner.Some? && d.id.Some? && d.id.value in items && items[d.id.value].ownerId != d.owner.value ==>
              r == Err(ItemOwnership)
    ensures r.Ok? <==>
              d.owner.Some? && d.id.Some? && d.id.value in items && items[d.id.value].ownerId == d.owner.value
    ensures r.Ok? ==> r.value == items[d.id.value]
  {
    if d.owner.None? then Err(ItemValidation)
    else if d.id.None? || d.id.value !in items then Err(ItemNotFound)
    else if d.owner.value != items[d.id.value].ownerId then Err(ItemOwnership)
    else Ok(items[d.id.value])
  }
}
