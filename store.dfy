/** The relational store behind the repositories: one table per entity, each
    keyed by its identity column, with the integrity constraints the service
    relies on. */
module Persistence {
  import opened Common
  import opened Model

  const PSQL_EXCEPTION: string := "org.postgresql.util.PSQLException"
  const CONSTRAINT_VIOLATION: string := "org.hibernate.exception.ConstraintViolationException"
  const UNIQUE_VIOLATION: string := "23505"
  const NOT_NULL_VIOLATION: string := "23502"

  /** What saving a row gives: the saved row, or a data-integrity failure
      carrying the exception's cause chain (the cause first). */
  datatype Saved<+T> = Saved(row: T) | IntegrityViolation(causes: seq<Throwable>)

  /** The cause chain of a constraint violation raised by the database. */
  function ViolationChain(sqlState: string): seq<Throwable> {
    [Throwable(CONSTRAINT_VIOLATION, None), Throwable(PSQL_EXCEPTION, Some(sqlState))]
  }

  /** Some stored user has this email address. */
  predicate EmailTaken(users: map<Id, User>, email: string) {
    exists k :: k in users && users[k].email == email
  }

  /** No two users share an email address (the UNIQUE constraint). */
  predicate UniqueEmails(users: map<Id, User>) {
    forall a, b :: a in users && b in users && a != b ==> users[a].email != users[b].email
  }

  /** Every stored user carries its own key as id. */
  predicate UsersKeyed(users: map<Id, User>) {
    forall k :: k in users ==> users[k].id == k
  }

  /** Two stored users are equal, field by field, exactly when they are
      stored under the same key. */
  lemma StoredUsersEqualIffSameId(users: map<Id, User>, a: Id, b: Id)
    requires UsersKeyed(users) && a in users && b in users
    ensures users[a] == users[b] <==> a == b
  {
  }

  /** Every stored item carries its own key as id, as the identity column
      guarantees. */
  predicate ItemsKeyed(items: map<Id, Item>) {
    forall k :: k in items ==> items[k].id == Some(k)
  }

  /** Every stored booking carries its own key as id. */
  predicate BookingsKeyed(bookings: map<Id, Booking>) {
    forall k :: k in bookings ==> bookings[k].id == k
  }

  /** Every stored comment carries its own key as id. */
  predicate CommentsKeyed(comments: map<Id, Comment>) {
    forall k :: k in comments ==> comments[k].id == k
  }

  /** Every key lies below the table's next identity value. */
  predicate KeysBelow<V>(m: map<Id, V>, next: Id) {
    0 < next && forall k :: k in m ==> 0 < k < next
  }

  predicate UsersValid(users: map<Id, User>, next: Id) {
    UsersKeyed(users) && KeysBelow(users, next) && UniqueEmails(users)
  }

  /** Every stored item has a name (the NOT NULL column) and an availability
      flag: creation validates both, and an update keeps the stored one when
      the patch has none. */
  predicate ItemsValid(items: map<Id, Item>, next: Id) {
    && ItemsKeyed(items)
    && KeysBelow(items, next)
    && forall k :: k in items ==> items[k].name.Some? && items[k].available.Some?
  }

  /** Every stored booking refers to a stored item. */
  predicate BookingsValid(bookings: map<Id, Booking>, items: map<Id, Item>, next: Id) {
    && BookingsKeyed(bookings)
    && KeysBelow(bookings, next)
    && forall k :: k in bookings ==> bookings[k].itemId in items
  }

  predicate CommentsValid(comments: map<Id, Comment>, next: Id) {
    CommentsKeyed(comments) && KeysBelow(comments, next)
  }

  class Store {
    var users: map<Id, User>
    var items: map<Id, Item>
    var bookings: map<Id, Booking>
    var comments: map<Id, Comment>
    /** The next value of each table's identity sequence. */
    var nextUserId: Id
    var nextItemId: Id
    var nextBookingId: Id
    var nextCommentId: Id

    ghost predicate Valid()
      reads this
    {
      && UsersValid(users, nextUserId)
      && ItemsValid(items, nextItemId)
      && BookingsValid(bookings, items, nextBookingId)
      && CommentsValid(comments, nextCommentId)
    }

    constructor ()
      ensures Valid()
      ensures users == map[] && items == map[] && bookings == map[] && comments == map[]
    {
      users, items, bookings, comments := map[], map[], map[], map[];
      nextUserId, nextItemId, nextBookingId, nextCommentId := 1, 1, 1, 1;
    }

    /** INSERT INTO users: the NOT NULL constraints are checked before the
        UNIQUE one, and a violation stores nothing. */
    method InsertUser(name: Option<string>, email: Option<string>) returns (r: Saved<User>)
      requires Valid()
      modifies this`users, this`nextUserId
      ensures Valid()
      ensures (name.None? || email.None?) ==> r == IntegrityViolation(ViolationChain(NOT_NULL_VIOLATION))
      ensures name.Some? && email.Some? && EmailTaken(old(users), email.value) ==>
                r == IntegrityViolation(ViolationChain(UNIQUE_VIOLATION))
      ensures r.IntegrityViolation? ==> users == old(users)
      ensures r.Saved? <==> name.Some? && email.Some? && !EmailTaken(old(users), email.value)
      ensures r.Saved? ==>
                && r.row == User(old(nextUserId), name.value, email.value)
                && old(nextUserId) !in old(users)
                && users == old(users)[r.row.id := r.row]
      ensures nextUserId == if r.Saved? then old(nextUserId) + 1 else old(nextUserId)
    {
      if name.None? || email.None? {
        return IntegrityViolation(ViolationChain(NOT_NULL_VIOLATION));
      }
      if EmailTaken(users, email.value) {
        return IntegrityViolation(ViolationChain(UNIQUE_VIOLATION));
      }
      var u := User(nextUserId, name.value, email.value);
      users := users[u.id := u];
      nextUserId := nextUserId + 1;
      r := Saved(u);
    }

    /** UPDATE of an existing user row. */
    method SaveUser(u: User)
      requires Valid()
      requires u.id in users
      requires forall k :: k in users && k != u.id ==> users[k].email != u.email
      modifies this`users
      ensures Valid()
      ensures users == old(users)[u.id := u]
    {
      users := users[u.id := u];
    }

    /** Removes the user row with that id, if any. */
    method DeleteUser(id: Id)
      requires Valid()
      modifies this`users
      ensures Valid()
      ensures users == old(users) - {id}
    {
      users := users - {id};
    }

    /** INSERT INTO items: the row receives the next identity value. */
    method InsertItem(item: Item) returns (saved: Item)
      requires Valid()
      requires item.name.Some? && item.available.Some?
      modifies this`items, this`nextItemId
      ensures Valid()
      ensures saved == item.(id := Some(old(nextItemId)))
      ensures old(nextItemId) !in old(items)
      ensures items == old(items)[old(nextItemId) := saved]
      ensures nextItemId == old(nextItemId) + 1
    {
      saved := item.(id := Some(nextItemId));
      items := items[nextItemId := saved];
      nextItemId := nextItemId + 1;
    }

    /** UPDATE of an existing item row with every column of `item`. */
    method SaveItem(item: Item)
      requires Valid()
      requires item.id.Some? && item.id.value in items && item.name.Some? && item.available.Some?
      modifies this`items
      ensures Valid()
      ensures items == old(items)[item.id.value := item]
    {
      items := items[item.id.value := item];
    }

    /** Sets the availability of one item row; no row changes when the id is
        unknown. */
    method UpdateAvailable(available: bool, id: Id)
      requires Valid()
      modifies this`items
      ensures Valid()
      ensures items == if id in old(items) then old(items)[id := old(items)[id].(available := Some(available))]
                       else old(items)
    {
      if id in items {
        items := items[id := items[id].(available := Some(available))];
      }
    }

    /** INSERT INTO bookings: the row receives the next identity value. */
    method InsertBooking(start: Time, end: Time, itemId: Id, bookerId: Id, status: BookingStatus)
      returns (b: Booking)
      requires Valid()
      requires itemId in items
      modifies this`bookings, this`nextBookingId
      ensures Valid()
      ensures b == Booking(old(nextBookingId), start, end, itemId, bookerId, status)
      ensures b.id !in old(bookings)
      ensures bookings == old(bookings)[b.id := b]
      ensures nextBookingId == old(nextBookingId) + 1
    {
      b := Booking(nextBookingId, start, end, itemId, bookerId, status);
      bookings := bookings[b.id := b];
      nextBookingId := nextBookingId + 1;
    }

    /** The single-row status update keyed by booking id; no row changes when
        the id is unknown. */
    method UpdateStatus(status: BookingStatus, id: Id)
      requires Valid()
      modifies this`bookings
      ensures Valid()
      ensures bookings == WithStatus(old(bookings), id, status)
    {
      if id in bookings {
        bookings := bookings[id := bookings[id].(status := status)];
      }
    }

    /** INSERT INTO comments: the row receives the next identity value. */
    method InsertComment(text: string, itemId: Id, authorId: Id) returns (c: Comment)
      requires Valid()
      modifies this`comments, this`nextCommentId
      ensures Valid()
      ensures c == Comment(old(nextCommentId), text, itemId, authorId)
      ensures c.id !in old(comments)
      ensures comments == old(comments)[c.id := c]
      ensures nextCommentId == old(nextCommentId) + 1
    {
      c := Comment(nextCommentId, text, itemId, authorId);
      comments := comments[c.id := c];
      nextCommentId := nextCommentId + 1;
    }
  }

  /** The booking table after the single-row status update: the row with that
      id gets the new status and keeps every other column; every other row,
      and the set of ids, is as before. */
  function WithStatus(bookings: map<Id, Booking>, id: Id, status: BookingStatus): (r: map<Id, Booking>)
    ensures r.Keys == bookings.Keys
    ensures forall k :: k in bookings && k != id ==> r[k] == bookings[k]
    ensures id in bookings ==>
              && r[id].status == status
              && r[id].id == bookings[id].id
              && r[id].start == bookings[id].start
              && r[id].end == bookings[id].end
              && r[id].itemId == bookings[id].itemId
              && r[id].bookerId == bookings[id].bookerId
  {
    if id in bookings then bookings[id := bookings[id].(status := status)] else bookings
  }
}
