/** The entities and data-transfer objects of the sharing service. Entities
    refer to one another by id, as their foreign-key columns do. */
module Model {
  import opened Common

  /** The status of a booking. `Canceled` belongs to the enumeration, but no
      operation of the service sets it. */
  datatype BookingStatus = Waiting | Approved | Rejected | Canceled

  /** A stored user; the `name` and `email` columns are NOT NULL and `email`
      is UNIQUE. */
  datatype User = User(id: Id, name: string, email: string)

  /** The user payload of the HTTP boundary; every field may be null. */
  datatype UserDto = UserDto(id: Option<Id>, name: Option<string>, email: Option<string>)

  /** A request for an item that another user left; only its id matters here. */
  datatype ItemRequest = ItemRequest(id: Id, description: Option<string>, requestorId: Id, created: Time)

  /** An item entity. Its fields other than the owner are nullable Java
      references, as in the entity class; `ownerId` is the NOT NULL owner
      column. */
  datatype Item = Item(
    id: Option<Id>,
    name: Option<string>,
    description: Option<string>,
    available: Option<bool>,
    ownerId: Id,
    request: Option<ItemRequest>)

  /** A booking of `itemId` by `bookerId` over `[start, end)`. */
  datatype Booking = Booking(id: Id, start: Time, end: Time, itemId: Id, bookerId: Id, status: BookingStatus)

  /** A comment on an item by its author. */
  datatype Comment = Comment(id: Id, text: string, itemId: Id, authorId: Id)

  /** The short form of a booking attached to an item as its last or next one. */
  datatype ItemBooking = ItemBooking(id: Id, bookerId: Id)

  /** The item payload of the HTTP boundary. */
  datatype ItemDto = ItemDto(
    id: Option<Id>,
    name: Option<string>,
    description: Option<string>,
    available: Option<bool>,
    owner: Option<Id>,
    requestId: Option<Id>,
    lastBooking: Option<ItemBooking>,
    nextBooking: Option<ItemBooking>,
    comments: seq<Comment>)

  /** The body of a booking request. */
  datatype BookingRequest = BookingRequest(itemId: Id, start: Time, end: Time)

  /** One link of an exception's cause chain: the exact class name and, for
      database exceptions, the SQLState. */
  datatype Throwable = Throwable(className: string, sqlState: Option<string>)

  /** The owner of the item a booking is for, looked up as a join would:
      `None` when the item row is missing. */
  function BookingOwner(items: map<Id, Item>, b: Booking): (r: Option<Id>)
    ensures r.Some? <==> b.itemId in items
    ensures r.Some? ==> r.value == items[b.itemId].ownerId
  {
    if b.itemId in items then Some(items[b.itemId].ownerId) else None
  }
}
