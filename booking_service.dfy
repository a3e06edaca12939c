/** The booking service: creating and approving bookings, looking one up,
    and listing a booker's or an owner's bookings by state. */
module BookingService {
  import opened Common
  import opened Model
  import opened Persistence
  import opened BookingRepository
  import States = BookingStates

  /** A booking request: the item must exist, then be available, then the
      booker must exist. The new booking waits for approval and the item
      becomes unavailable; nothing changes when a check fails. */
  method Create(db: Store, request: BookingRequest, userId: Id) returns (r: Result<Booking>)
    requires db.Valid()
    modifies db
    ensures db.Valid()
    ensures request.itemId !in old(db.items) ==> r == Err(ItemNotFound)
    ensures request.itemId in old(db.items) && old(db.items)[request.itemId].available != Some(true) ==>
              r == Err(ItemNotAvailable)
    ensures (request.itemId in old(db.items) && old(db.items)[request.itemId].available == Some(true) &&
             userId !in old(db.users)) ==> r == Err(UserNotFound)
    ensures r.Err? ==> db.bookings == old(db.bookings) && db.items == old(db.items)
    ensures r.Ok? <==>
              request.itemId in old(db.items) && old(db.items)[request.itemId].available == Some(true) &&
              userId in old(db.users)
    ensures r.Ok? ==>
              && r.value == Booking(old(db.nextBookingId), request.start, request.end, request.itemId, userId, Waiting)
              && r.value.id !in old(db.bookings)
              && db.bookings == old(db.bookings)[r.value.id := r.value]
              && db.items == old(db.items)[request.itemId := old(db.items)[request.itemId].(available := Some(false))]
    ensures db.users == old(db.users) && db.comments == old(db.comments)
    ensures db.nextBookingId == if r.Ok? then old(db.nextBookingId) + 1 else old(db.nextBookingId)
    ensures db.nextUserId == old(db.nextUserId) && db.nextItemId == old(db.nextItemId) && db.nextCommentId == old(db.nextCommentId)
  {
    if request.itemId !in db.items {
      return Err(ItemNotFound);
    }
    var item := db.items[request.itemId];
    if item.available != Some(true) {
      return Err(ItemNotAvailable);
    }
    if userId !in db.users {
      return Err(UserNotFound);
    }
    var b := db.InsertBooking(request.start, request.end, request.itemId, userId, Waiting);
    db.UpdateAvailable(false, request.itemId);
    r := Ok(b);
  }

  /** Approval: the caller must exist, then the booking, which must still be
      waiting and be for an item the caller owns. Only that booking changes,
      to approved, and it is given back. */
  method Approve(db: Store, userId: Id, bookingId: Id) returns (r: Result<Booking>)
    requires db.Valid()
    modifies db
    ensures db.Valid()
    ensures userId !in old(db.users) ==> r == Err(UserNotFound)
    ensures userId in old(db.users) && bookingId !in old(db.bookings) ==> r == Err(BookingNotFound)
    ensures userId in old(db.users) && bookingId in old(db.bookings) && old(db.bookings)[bookingId].status != Waiting ==>
              r == Err(BookingValidation)
    ensures (userId in old(db.users) && bookingId in old(db.bookings) && old(db.bookings)[bookingId].status == Waiting &&
             BookingOwner(old(db.items), old(db.bookings)[bookingId]) != Some(userId)) ==>
              r == Err(BookingPermissionDenied)
    ensures r.Err? ==> db.bookings == old(db.bookings)
    ensures r.Ok? <==>
              userId in old(db.users) && bookingId in old(db.bookings) && old(db.bookings)[bookingId].status == Waiting &&
              BookingOwner(old(db.items), old(db.bookings)[bookingId]) == Some(userId)
    ensures r.Ok? ==>
              && r.value == old(db.bookings)[bookingId].(status := Approved)
              && db.bookings == old(db.bookings)[bookingId := r.value]
    ensures db.users == old(db.users) && db.items == old(db.items) && db.comments == old(db.comments)
    ensures db.nextUserId == old(db.nextUserId) && db.nextItemId == old(db.nextItemId) &&
            db.nextBookingId == old(db.nextBookingId) && db.nextCommentId == old(db.nextCommentId)
  {
    if userId !in db.users {
      return Err(UserNotFound);
    }
    if bookingId !in db.bookings {
      return Err(BookingNotFound);
    }
    var booking := db.bookings[bookingId];
    if booking.status != Waiting {
      return Err(BookingValidation);
    }
    if BookingOwner(db.items, booking) != Some(userId) {
      return Err(BookingPermissionDenied);
    }
    db.UpdateStatus(Approved, booking.id);
    r := Ok(booking.(status := Approved));
  }

  /** Approving the same booking a second time is refused: it no longer
      waits. */
  method ApproveTwice(db: Store, userId: Id, bookingId: Id) returns (first: Result<Booking>, second: Result<Booking>)
    requires db.Valid()
    modifies db
    ensures first.Ok? ==> second == Err(BookingValidation)
    ensures db.users == old(db.users) && db.items == old(db.items) && db.comments == old(db.comments)
    ensures db.nextUserId == old(db.nextUserId) && db.nextItemId == old(db.nextItemId) &&
            db.nextBookingId == old(db.nextBookingId) && db.nextCommentId == old(db.nextCommentId)
  {
    first := Approve(db, userId, bookingId);
    second := Approve(db, userId, bookingId);
  }

  /** A booking is visible to its booker and to its item's owner only;
      anyone else is told it does not exist. */
  function GetOneByIdAndUserId(bookings: map<Id, Booking>, items: map<Id, Item>, bookingId: Id, userId: Id): (r: Result<Booking>)
    ensures r.Ok? <==>
              bookingId in bookings &&
              (bookings[bookingId].bookerId == userId || BookingOwner(items, bookings[bookingId]) == Some(userId))
    ensures r.Ok? ==> r.value == bookings[bookingId]
    ensures r.Err? ==> r.error == BookingNotFound
  {
    match FindByIdAndUserId(bookings, items, bookingId, userId)
    case Some(b) => Ok(b)
    case None => Err(BookingNotFound)
  }

  /** A stranger gets the same answer as for an unknown id. */
  lemma StrangerSeesNotFound(bookings: map<Id, Booking>, items: map<Id, Item>, bookingId: Id, userId: Id, unknown: Id)
    requires bookingId in bookings && bookings[bookingId].bookerId != userId
    requires BookingOwner(items, bookings[bookingId]) != Some(userId)
    requires unknown !in bookings
    ensures GetOneByIdAndUserId(bookings, items, bookingId, userId) == GetOneByIdAndUserId(bookings, items, unknown, userId)
  {
  }

  /** What the state selector asks of a booking at `now`. */
  predicate InState(b: Booking, st: States.BookingState, now: Time) {
    match st
    case All => true
    case Current => b.start <= now && now < b.end
    case Past => b.end < now
    case Future => b.start > now
    case Waiting => b.status == Waiting
    case Rejected => b.status == Rejected
  }

  /** The query each state chooses. */
  function Criterion(st: States.BookingState, now: Time): (c: BookingRepository.Criterion)
    ensures forall b :: Meets(b, c) <==> InState(b, st, now)
  {
    match st
    case All => AnyBooking
    case Current => CurrentAt(now)
    case Past => PastAt(now)
    case Future => FutureAt(now)
    case Waiting => HavingStatus(Waiting)
    case Rejected => HavingStatus(Rejected)
  }

  /** The result of the query the state chooses for this role. */
  function Query(bookings: map<Id, Booking>, items: map<Id, Item>, role: Role, userId: Id,
                 st: States.BookingState, now: Time): (r: seq<Booking>)
    requires BookingsKeyed(bookings)
    ensures r == Select(bookings, items, role, userId, Criterion(st, now))
  {
    match st
    case All => FindAll(bookings, items, role, userId)
    case Current => FindCurrent(bookings, items, role, userId, now)
    case Past => FindPast(bookings, items, role, userId, now)
    case Future => FindFuture(bookings, items, role, userId, now)
    case Waiting => FindByStatus(bookings, items, role, userId, Waiting)
    case Rejected => FindByStatus(bookings, items, role, userId, Rejected)
  }

  /** The listing shared by both roles: the chosen query's result, or the
      not-found error when it is empty. */
  function ListByRole(bookings: map<Id, Booking>, items: map<Id, Item>, role: Role, userId: Id,
                      st: States.BookingState, now: Time): (r: Result<seq<Booking>>)
    requires BookingsKeyed(bookings)
    ensures r.Err? <==> Query(bookings, items, role, userId, st, now) == []
    ensures r.Err? ==> r.error == BookingNotFound
    ensures r.Ok? ==> r.value == Query(bookings, items, role, userId, st, now) && r.value != []
    ensures r.Ok? ==> SortedByStartDesc(r.value) && Distinct(r.value)
    ensures forall b :: (r.Ok? && b in r.value) <==>
              b in bookings.Values && InRole(items, role, userId, b) && InState(b, st, now)
  {
    var found := Query(bookings, items, role, userId, st, now);
    if |found| == 0 then Err(BookingNotFound) else Ok(found)
  }

  /** The booker's bookings in the given state, newest first; never an empty
      list. */
  function GetAllByBookerAndState(bookings: map<Id, Booking>, items: map<Id, Item>, userId: Id,
                                  st: States.BookingState, now: Time): (r: Result<seq<Booking>>)
    requires BookingsKeyed(bookings)
    ensures r.Ok? ==> r.value != [] && SortedByStartDesc(r.value) && Distinct(r.value)
    ensures r.Err? ==> r.error == BookingNotFound
    ensures forall b :: (r.Ok? && b in r.value) <==>
              b in bookings.Values && b.bookerId == userId && InState(b, st, now)
  {
    ListByRole(bookings, items, AsBooker, userId, st, now)
  }

  /** The bookings of the owner's items in the given state, newest first;
      never an empty list. */
  function GetAllByOwnerAndState(bookings: map<Id, Booking>, items: map<Id, Item>, userId: Id,
                                 st: States.BookingState, now: Time): (r: Result<seq<Booking>>)
    requires BookingsKeyed(bookings)
    ensures r.Ok? ==> r.value != [] && SortedByStartDesc(r.value) && Distinct(r.value)
    ensures r.Err? ==> r.error == BookingNotFound
    ensures forall b :: (r.Ok? && b in r.value) <==>
              b in bookings.Values && BookingOwner(items, b) == Some(userId) && InState(b, st, now)
  {
    ListByRole(bookings, items, AsOwner, userId, st, now)
  }

  /** A successful creation makes the new booking visible to its booker and
      puts it in the booker's waiting list. */
  lemma CreatedBookingListedAsWaiting(bookings: map<Id, Booking>, items: map<Id, Item>, b: Booking, now: Time)
    requires BookingsKeyed(bookings) && b.id !in bookings && b.status == Waiting
    ensures BookingsKeyed(bookings[b.id := b])
    ensures GetOneByIdAndUserId(bookings[b.id := b], items, b.id, b.bookerId) == Ok(b)
    ensures GetAllByBookerAndState(bookings[b.id := b], items, b.bookerId, States.Waiting, now).Ok?
  {
    var after := bookings[b.id := b];
    assert after[b.id] == b;
    assert b in after.Values;
    assert b in after.Values && b.bookerId == b.bookerId && InState(b, States.Waiting, now);
  }
}
