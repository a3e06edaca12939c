/** The item service: creation and partial update of items, an item with its
    comments and, for its owner, its last and next bookings, the owner's item
    list, the description search, and comments on items the author has
    booked. */
module ItemService {
  import opened Common
  import opened Model
  import opened Persistence
  import opened Text
  import opened ItemMapper
  import Checks = ItemValidation

  // ---------------------------------------------------------------------
  // Creation and update

  /** Creation: the payload's owner is set to the caller, the caller must
      exist and the payload must pass validation; the item is stored without
      a request and the payload comes back with the new id. */
  method Create(db: Store, userId: Id, d: ItemDto) returns (r: Result<ItemDto>)
    requires db.Valid()
    modifies db
    ensures db.Valid()
    ensures userId !in old(db.users) ==> r == Err(UserNotFound) && db.items == old(db.items)
    ensures userId in old(db.users) && Checks.ValidateCreation(old(db.users), d.(owner := Some(userId))).Fail? ==>
              r == Err(Checks.ValidateCreation(old(db.users), d.(owner := Some(userId))).error) &&
              db.items == old(db.items)
    ensures r.Ok? <==> userId in old(db.users) && Checks.ValidateCreation(old(db.users), d.(owner := Some(userId))) == Pass
    ensures r.Ok? ==>
              && r.value == d.(owner := Some(userId), id := Some(old(db.nextItemId)))
              && old(db.nextItemId) !in old(db.items)
              && db.items == old(db.items)[old(db.nextItemId) := ToObject(r.value, userId, None)]
    ensures db.users == old(db.users) && db.bookings == old(db.bookings) && db.comments == old(db.comments)
    ensures db.nextItemId == if r.Ok? then old(db.nextItemId) + 1 else old(db.nextItemId)
    ensures db.nextUserId == old(db.nextUserId) && db.nextBookingId == old(db.nextBookingId) && db.nextCommentId == old(db.nextCommentId)
  {
    var dto := d.(owner := Some(userId));
    if userId !in db.users {
      return Err(UserNotFound);
    }
    var v := Checks.ValidateCreation(db.users, dto);
    if v.Fail? {
      return Err(v.error);
    }
    var saved := db.InsertItem(ToObject(dto, userId, None));
    r := Ok(dto.(id := saved.id));
  }

  /** The stored item with a patch applied the way the service does it: the
      item's payload takes each of the patch's non-null availability,
      description and name, and is turned back into an entity owned by the
      caller and, as the two-argument mapping gives no request, without one. */
  function Updated(stored: Item, patch: ItemDto, ownerId: Id): (item: Item)
    ensures item.id == stored.id && item.ownerId == ownerId && item.request.None?
    ensures item.available == (if patch.available.Some? then patch.available else stored.available)
    ensures item.description == (if patch.description.Some? then patch.description else stored.description)
    ensures item.name == (if patch.name.Some? then patch.name else stored.name)
  {
    var current := ToDto(stored);
    var withAvailable :=
      if patch.available.Some? && current.available != patch.available then current.(available := patch.available)
      else current;
    var withDescription :=
      if patch.description.Some? && withAvailable.description != patch.description then withAvailable.(description := patch.description)
      else withAvailable;
    var withName :=
      if patch.name.Some? && withDescription.name != patch.name then withDescription.(name := patch.name)
      else withDescription;
    ToObject(withName, ownerId, None)
  }

  /** Applying the same patch twice is applying it once. */
  lemma UpdatedIdempotent(stored: Item, patch: ItemDto, ownerId: Id)
    ensures Updated(Updated(stored, patch, ownerId), patch, ownerId) == Updated(stored, patch, ownerId)
  {
  }

  /** A patch with no fields changes nothing but the request. */
  lemma EmptyPatchKeepsFields(stored: Item, patch: ItemDto)
    requires patch.available.None? && patch.description.None? && patch.name.None?
    ensures Updated(stored, patch, stored.ownerId) == stored.(request := None)
  {
  }

  /** Partial update: the path id and the caller are forced onto the patch;
      the caller must exist before the item is validated; the item must exist
      and belong to the caller. Only that item changes. */
  method Update(db: Store, userId: Id, itemId: Id, patch: ItemDto) returns (r: Result<ItemDto>)
    requires db.Valid()
    modifies db
    ensures db.Valid()
    ensures userId !in old(db.users) ==> r == Err(UserNotFound)
    ensures userId in old(db.users) && itemId !in old(db.items) ==> r == Err(ItemNotFound)
    ensures userId in old(db.users) && itemId in old(db.items) && old(db.items)[itemId].ownerId != userId ==>
              r == Err(ItemOwnership)
    ensures r.Err? ==> db.items == old(db.items)
    ensures r.Ok? <==> userId in old(db.users) && itemId in old(db.items) && old(db.items)[itemId].ownerId == userId
    ensures r.Ok? ==>
              && db.items == old(db.items)[itemId := Updated(old(db.items)[itemId], patch, userId)]
              && r.value == ToDto(db.items[itemId])
    ensures db.users == old(db.users) && db.bookings == old(db.bookings) && db.comments == old(db.comments)
    ensures db.nextUserId == old(db.nextUserId) && db.nextItemId == old(db.nextItemId) &&
            db.nextBookingId == old(db.nextBookingId) && db.nextCommentId == old(db.nextCommentId)
  {
    var p := patch.(id := Some(itemId), owner := Some(userId));
    if userId !in db.users {
      return Err(UserNotFound);
    }
    var v := Checks.ValidateUpdateAndGet(db.items, p);
    if v.Err? {
      return Err(v.error);
    }
    var item := Updated(v.value, p, userId);
    db.SaveItem(item);
    r := Ok(ToDto(item));
  }

  // ---------------------------------------------------------------------
  // Last and next bookings

  /** A booking the last-booking lookup considers: of this item, through an
      item of this owner, and ended before `now`, whatever its status. */
  predicate EndedFor(items: map<Id, Item>, itemId: Option<Id>, ownerId: Option<Id>, now: Time, b: Booking) {
    itemId == Some(b.itemId) && ownerId.Some? && BookingOwner(items, b) == ownerId && b.end < now
  }

  /** A booking the next-booking lookup considers: of this item, through an
      item of this owner, and starting after `now`, whatever its status. */
  predicate UpcomingFor(items: map<Id, Item>, itemId: Option<Id>, ownerId: Option<Id>, now: Time, b: Booking) {
    itemId == Some(b.itemId) && ownerId.Some? && BookingOwner(items, b) == ownerId && b.start > now
  }

  /** Among the rows that ended before `now`, one with the latest end (the
      first such row on a tie). */
  function LatestEnded(rows: seq<Booking>, items: map<Id, Item>, itemId: Option<Id>, ownerId: Option<Id>, now: Time): (r: Option<Booking>)
    ensures r.None? <==> forall b :: b in rows ==> !EndedFor(items, itemId, ownerId, now, b)
    ensures r.Some? ==>
              && r.value in rows && EndedFor(items, itemId, ownerId, now, r.value)
              && forall b :: b in rows && EndedFor(items, itemId, ownerId, now, b) ==> b.end <= r.value.end
  {
    if rows == [] then None
    else
      var rest := LatestEnded(rows[1..], items, itemId, ownerId, now);
      assert rows == [rows[0]] + rows[1..];
      if !EndedFor(items, itemId, ownerId, now, rows[0]) then rest
      else if rest.None? || rest.value.end <= rows[0].end then Some(rows[0])
      else rest
  }

  /** Among the rows that start after `now`, one with the earliest start (the
      first such row on a tie). */
  function EarliestUpcoming(rows: seq<Booking>, items: map<Id, Item>, itemId: Option<Id>, ownerId: Option<Id>, now: Time): (r: Option<Booking>)
    ensures r.None? <==> forall b :: b in rows ==> !UpcomingFor(items, itemId, ownerId, now, b)
    ensures r.Some? ==>
              && r.value in rows && UpcomingFor(items, itemId, ownerId, now, r.value)
              && forall b :: b in rows && UpcomingFor(items, itemId, ownerId, now, b) ==> r.value.start <= b.start
  {
    if rows == [] then None
    else
      var rest := EarliestUpcoming(rows[1..], items, itemId, ownerId, now);
      assert rows == [rows[0]] + rows[1..];
      if !UpcomingFor(items, itemId, ownerId, now, rows[0]) then rest
      else if rest.None? || rows[0].start <= rest.value.start then Some(rows[0])
      else rest
  }

  /** The short form of a booking attached to an item. */
  function Brief(b: Booking): (s: ItemBooking)
    ensures s.id == b.id && s.bookerId == b.bookerId
  {
    ItemBooking(b.id, b.bookerId)
  }

  /** The booking the owner sees as the item's last: among the bookings of
      this item and owner that ended before `now`, one with the greatest end;
      none when no booking qualifies. */
  function LastBooking(bookings: map<Id, Booking>, items: map<Id, Item>, itemId: Option<Id>, ownerId: Option<Id>, now: Time): (r: Option<Booking>)
    ensures r.None? <==> forall b :: b in bookings.Values ==> !EndedFor(items, itemId, ownerId, now, b)
    ensures r.Some? ==>
              && r.value in bookings.Values && EndedFor(items, itemId, ownerId, now, r.value)
              && forall b :: b in bookings.Values && EndedFor(items, itemId, ownerId, now, b) ==> b.end <= r.value.end
  {
    var rows := Rows(bookings);
    forall b ensures b in rows <==> b in bookings.Values {
      RowsMembership(bookings, b);
    }
    LatestEnded(rows, items, itemId, ownerId, now)
  }

  /** The booking the owner sees as the item's next: among the bookings of
      this item and owner that start after `now`, one with the least start;
      none when no booking qualifies. */
  function NextBooking(bookings: map<Id, Booking>, items: map<Id, Item>, itemId: Option<Id>, ownerId: Option<Id>, now: Time): (r: Option<Booking>)
    ensures r.None? <==> forall b :: b in bookings.Values ==> !UpcomingFor(items, itemId, ownerId, now, b)
    ensures r.Some? ==>
              && r.value in bookings.Values && UpcomingFor(items, itemId, ownerId, now, r.value)
              && forall b :: b in bookings.Values && UpcomingFor(items, itemId, ownerId, now, b) ==> r.value.start <= b.start
  {
    var rows := Rows(bookings);
    forall b ensures b in rows <==> b in bookings.Values {
      RowsMembership(bookings, b);
    }
    EarliestUpcoming(rows, items, itemId, ownerId, now)
  }

  /** Attaches to the payload the short forms of its item's last and next
      bookings; a slot for which no booking qualifies keeps what it held.
      Nothing else in the payload changes. */
  function FillBookings(d: ItemDto, bookings: map<Id, Booking>, items: map<Id, Item>, now: Time): (r: ItemDto)
    ensures r.(lastBooking := d.lastBooking, nextBooking := d.nextBooking) == d
    ensures LastBooking(bookings, items, d.id, d.owner, now).None? ==> r.lastBooking == d.lastBooking
    ensures LastBooking(bookings, items, d.id, d.owner, now).Some? ==>
              r.lastBooking == Some(Brief(LastBooking(bookings, items, d.id, d.owner, now).value))
    ensures NextBooking(bookings, items, d.id, d.owner, now).None? ==> r.nextBooking == d.nextBooking
    ensures NextBooking(bookings, items, d.id, d.owner, now).Some? ==>
              r.nextBooking == Some(Brief(NextBooking(bookings, items, d.id, d.owner, now).value))
  {
    var last := LastBooking(bookings, items, d.id, d.owner, now);
    var next := NextBooking(bookings, items, d.id, d.owner, now);
    d.(lastBooking := if last.Some? then Some(Brief(last.value)) else d.lastBooking,
       nextBooking := if next.Some? then Some(Brief(next.value)) else d.nextBooking)
  }

  /** When every stored booking ends no earlier than it starts, an item's
      last and next bookings are two different bookings, the last one
      starting earlier. */
  lemma LastIsNotNext(bookings: map<Id, Booking>, items: map<Id, Item>, itemId: Option<Id>, ownerId: Option<Id>, now: Time)
    requires forall b :: b in bookings.Values ==> b.start <= b.end
    requires LastBooking(bookings, items, itemId, ownerId, now).Some?
    requires NextBooking(bookings, items, itemId, ownerId, now).Some?
    ensures LastBooking(bookings, items, itemId, ownerId, now).value != NextBooking(bookings, items, itemId, ownerId, now).value
    ensures LastBooking(bookings, items, itemId, ownerId, now).value.start < NextBooking(bookings, items, itemId, ownerId, now).value.start
  {
    var last := LastBooking(bookings, items, itemId, ownerId, now).value;
    var next := NextBooking(bookings, items, itemId, ownerId, now).value;
    assert last.start <= last.end < now < next.start;
  }

  // ---------------------------------------------------------------------
  // Reading items

  /** Rows read at ascending keys of a table keyed by comment id have
      ascending ids, and so are pairwise different. */
  lemma CommentRowsAscending(comments: map<Id, Comment>, ks: seq<Id>, r: seq<Comment>)
    requires CommentsKeyed(comments) && Ascending(ks)
    requires |r| == |ks| && forall i :: 0 <= i < |r| ==> ks[i] in comments && r[i] == comments[ks[i]]
    ensures forall i, j :: 0 <= i < j < |r| ==> r[i].id < r[j].id
    ensures Distinct(r)
  {
    forall i, j | 0 <= i < j < |r| ensures r[i].id < r[j].id {
      assert r[i].id == ks[i] && r[j].id == ks[j];
    }
  }

  /** The comments on an item, each once, in id order. */
  function ItemComments(comments: map<Id, Comment>, itemId: Id): (r: seq<Comment>)
    requires CommentsKeyed(comments)
    ensures forall c :: c in r <==> c in comments.Values && c.itemId == itemId
    ensures forall i, j :: 0 <= i < j < |r| ==> r[i].id < r[j].id
    ensures Distinct(r)
  {
    var onItem := (c: Comment) => c.itemId == itemId;
    CommentRowsAscending(comments, FilteredKeys(comments, onItem), FilterRows(comments, onItem));
    FilterRows(comments, onItem)
  }

  /** One item with its comments; its last and next bookings only when the
      caller owns it. */
  function GetByIdWithBookings(items: map<Id, Item>, bookings: map<Id, Booking>, comments: map<Id, Comment>,
                               userId: Id, itemId: Id, now: Time): (r: Result<ItemDto>)
    requires CommentsKeyed(comments)
    ensures r.Err? <==> itemId !in items
    ensures r.Err? ==> r.error == ItemNotFound
    ensures r.Ok? ==>
              r.value.(lastBooking := None, nextBooking := None) ==
              ToDto(items[itemId]).(comments := ItemComments(comments, itemId))
    ensures r.Ok? && items[itemId].ownerId != userId ==> r.value.lastBooking.None? && r.value.nextBooking.None?
    ensures r.Ok? && items[itemId].ownerId == userId ==>
              r.value == FillBookings(ToDto(items[itemId]).(comments := ItemComments(comments, itemId)), bookings, items, now)
  {
    if itemId !in items then Err(ItemNotFound)
    else
      var item := items[itemId];
      var d := ToDto(item).(comments := ItemComments(comments, itemId));
      if item.ownerId == userId then Ok(FillBookings(d, bookings, items, now)) else Ok(d)
  }

  /** The owner's items, in id order. */
  function OwnedItems(items: map<Id, Item>, userId: Id): (r: seq<Item>)
    requires ItemsKeyed(items)
    ensures forall it :: it in r <==> it in items.Values && it.ownerId == userId
    ensures forall i, j :: 0 <= i < j < |r| ==> r[i].id.Some? && r[j].id.Some? && r[i].id.value < r[j].id.value
  {
    FilterRows(items, (it: Item) => it.ownerId == userId)
  }

  /** Attaches the last and next bookings to each payload of a list, in
      place of each element. */
  method FillAllBookings(dtos: seq<ItemDto>, bookings: map<Id, Booking>, items: map<Id, Item>, now: Time)
    returns (r: seq<ItemDto>)
    ensures |r| == |dtos|
    ensures forall k :: 0 <= k < |r| ==> r[k] == FillBookings(dtos[k], bookings, items, now)
  {
    r := dtos;
    for i := 0 to |r|
      invariant |r| == |dtos|
      invariant forall k :: 0 <= k < i ==> r[k] == FillBookings(dtos[k], bookings, items, now)
      invariant forall k :: i <= k < |r| ==> r[k] == dtos[k]
    {
      r := r[i := FillBookings(r[i], bookings, items, now)];
    }
  }

  /** The owner's items as payloads, in id order, each with its last and next
      bookings attached. */
  method GetAllByUserId(db: Store, userId: Id, now: Time) returns (r: seq<ItemDto>)
    requires ItemsKeyed(db.items)
    ensures |r| == |OwnedItems(db.items, userId)|
    ensures forall i :: 0 <= i < |r| ==>
              r[i] == FillBookings(ToDto(OwnedItems(db.items, userId)[i]), db.bookings, db.items, now)
  {
    var dtos := ToDtos(OwnedItems(db.items, userId));
    r := FillAllBookings(dtos, db.bookings, db.items, now);
  }

  /** The search condition: available, with a description that contains the
      text whatever the case. */
  predicate SearchHit(item: Item, text: string) {
    item.available == Some(true) && item.description.Some? && ContainsIgnoreCase(item.description.value, text)
  }

  /** The items the search finds, in id order. */
  function SearchResults(items: map<Id, Item>, text: string): (r: seq<Item>)
    requires ItemsKeyed(items)
    ensures forall it :: it in r <==> it in items.Values && SearchHit(it, text)
    ensures forall i, j :: 0 <= i < j < |r| ==> r[i].id.Some? && r[j].id.Some? && r[i].id.value < r[j].id.value
  {
    FilterRows(items, (it: Item) => SearchHit(it, text))
  }

  /** The search ignores the case in which the text is written. */
  lemma SearchIgnoresCase(items: map<Id, Item>, text: string)
    requires ItemsKeyed(items)
    ensures forall it :: it in SearchResults(items, Upper(text)) <==> it in SearchResults(items, text)
  {
    forall it | it in items.Values && it.description.Some? {
      ContainsIgnoreCaseOfUpper(it.description.value, text);
    }
  }

  /** The payloads of the search results are available matches. */
  lemma SearchPayloadsMatch(found: seq<Item>, text: string, r: seq<ItemDto>)
    requires forall it :: it in found ==> SearchHit(it, text)
    requires |r| == |found| && forall i :: 0 <= i < |r| ==> r[i] == ToDto(found[i])
    ensures forall i :: 0 <= i < |r| ==>
              r[i].available == Some(true) && r[i].description.Some? && ContainsIgnoreCase(r[i].description.value, text)
  {
    forall i | 0 <= i < |r|
      ensures r[i].available == Some(true) && r[i].description.Some? && ContainsIgnoreCase(r[i].description.value, text)
    {
      assert found[i] in found;
    }
  }

  /** Every item of the search results has its payload among the payloads. */
  lemma SearchMatchesListed(found: seq<Item>, r: seq<ItemDto>)
    requires |r| == |found| && forall i :: 0 <= i < |r| ==> r[i] == ToDto(found[i])
    ensures forall it :: it in found ==> ToDto(it) in r
  {
    forall it | it in found ensures ToDto(it) in r {
      var i :| 0 <= i < |found| && found[i] == it;
      assert r[i] == ToDto(it);
    }
  }

  /** The description search: the payloads of exactly the available items
      whose description contains the text ignoring case, in id order. */
  method SearchByName(db: Store, text: string) returns (r: seq<ItemDto>)
    requires ItemsKeyed(db.items)
    ensures |r| == |SearchResults(db.items, text)|
    ensures forall i :: 0 <= i < |r| ==> r[i] == ToDto(SearchResults(db.items, text)[i])
    ensures forall i :: 0 <= i < |r| ==>
              r[i].available == Some(true) && r[i].description.Some? && ContainsIgnoreCase(r[i].description.value, text)
    ensures forall it :: it in db.items.Values && SearchHit(it, text) ==> ToDto(it) in r
  {
    var found := SearchResults(db.items, text);
    r := ToDtos(found);
    SearchPayloadsMatch(found, text, r);
    SearchMatchesListed(found, r);
  }

  // ---------------------------------------------------------------------
  // Comments

  /** The author has booked the item, in any status, for a period that
      ended before `now`. */
  predicate HasEndedBooking(bookings: map<Id, Booking>, itemId: Id, authorId: Id, now: Time) {
    exists b :: b in bookings.Values && b.itemId == itemId && b.bookerId == authorId && b.end < now
  }

  /** A comment: the author must exist, then the item, then the author must
      have a booking of it that has ended. Only the comment table changes. */
  method CreateComment(db: Store, userId: Id, itemId: Id, text: string, now: Time) returns (r: Result<Comment>)
    requires db.Valid()
    modifies db
    ensures db.Valid()
    ensures userId !in old(db.users) ==> r == Err(UserNotFound)
    ensures userId in old(db.users) && itemId !in old(db.items) ==> r == Err(ItemNotFound)
    ensures userId in old(db.users) && itemId in old(db.items) && !HasEndedBooking(old(db.bookings), itemId, userId, now) ==>
              r == Err(CommentImpossible)
    ensures r.Err? ==> db.comments == old(db.comments)
    ensures r.Ok? <==> userId in old(db.users) && itemId in old(db.items) && HasEndedBooking(old(db.bookings), itemId, userId, now)
    ensures r.Ok? ==>
              && r.value == Comment(old(db.nextCommentId), text, itemId, userId)
              && r.value.id !in old(db.comments)
              && db.comments == old(db.comments)[r.value.id := r.value]
    ensures db.users == old(db.users) && db.items == old(db.items) && db.bookings == old(db.bookings)
    ensures db.nextCommentId == if r.Ok? then old(db.nextCommentId) + 1 else old(db.nextCommentId)
    ensures db.nextUserId == old(db.nextUserId) && db.nextItemId == old(db.nextItemId) && db.nextBookingId == old(db.nextBookingId)
  {
    if userId !in db.users {
      return Err(UserNotFound);
    }
    if itemId !in db.items {
      return Err(ItemNotFound);
    }
    if !HasEndedBooking(db.bookings, itemId, userId, now) {
      return Err(CommentImpossible);
    }
    var c := db.InsertComment(text, itemId, userId);
    r := Ok(c);
  }
}
