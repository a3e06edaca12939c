/** The booking repository's queries, each a filter over the booking table
    followed by an ordering on start time, newest first. */
module BookingRepository {
  import opened Common
  import opened Model
  import opened Persistence

  /** Whose bookings a list query returns: those the user made, or those of
      the user's items. */
  datatype Role = AsBooker | AsOwner

  /** The condition a list query puts on a booking besides the role. */
  datatype Criterion =
    | AnyBooking
    | CurrentAt(now: Time)
    | PastAt(now: Time)
    | FutureAt(now: Time)
    | HavingStatus(status: BookingStatus)

  /** The role selector: the booker's id for a booker query, the item's
      owner's id (through the item row) for an owner query. */
  predicate InRole(items: map<Id, Item>, role: Role, userId: Id, b: Booking) {
    match role
    case AsBooker => b.bookerId == userId
    case AsOwner => BookingOwner(items, b) == Some(userId)
  }

  /** Started at or before `now` and ends after it. */
  predicate IsCurrent(b: Booking, now: Time) {
    b.start <= now && now < b.end
  }

  /** Ended before `now`. */
  predicate IsPast(b: Booking, now: Time) {
    b.end < now
  }

  /** Starts after `now`. */
  predicate IsFuture(b: Booking, now: Time) {
    b.start > now
  }

  predicate Meets(b: Booking, c: Criterion) {
    match c
    case AnyBooking => true
    case CurrentAt(now) => IsCurrent(b, now)
    case PastAt(now) => IsPast(b, now)
    case FutureAt(now) => IsFuture(b, now)
    case HavingStatus(status) => b.status == status
  }

  /** Non-increasing start times. */
  predicate SortedByStartDesc(s: seq<Booking>) {
    forall i, j :: 0 <= i < j < |s| ==> s[i].start >= s[j].start
  }

  /** Places `x` in a list sorted newest first, after every booking that
      starts at the same time or later. */
  function Insert(x: Booking, s: seq<Booking>): (r: seq<Booking>)
    requires SortedByStartDesc(s)
    ensures SortedByStartDesc(r)
    ensures multiset(r) == multiset(s) + multiset{x}
    ensures forall y :: y in r <==> y == x || y in s
  {
    if s == [] then [x]
    else if s[0].start < x.start then [x] + s
    else
      var tail := Insert(x, s[1..]);
      assert s == [s[0]] + s[1..];
      assert forall y :: y in tail ==> y.start <= s[0].start;
      [s[0]] + tail
  }

  /** Inserting a booking that is not yet in a list of pairwise different
      bookings keeps them pairwise different. */
  lemma {:induction false} InsertDistinct(x: Booking, s: seq<Booking>)
    requires SortedByStartDesc(s)
    requires Distinct(s) && x !in s
    ensures Distinct(Insert(x, s))
  {
    if s != [] && s[0].start >= x.start {
      assert s == [s[0]] + s[1..];
      InsertDistinct(x, s[1..]);
      assert s[0] !in Insert(x, s[1..]);
    }
  }

  /** An insertion sort on start time, newest first. */
  function SortByStartDesc(s: seq<Booking>): (r: seq<Booking>)
    ensures SortedByStartDesc(r)
    ensures multiset(r) == multiset(s)
    ensures forall y :: y in r <==> y in s
    ensures Distinct(s) ==> Distinct(r)
  {
    if s == [] then []
    else
      assert s == [s[0]] + s[1..];
      if Distinct(s) then
        assert s[0] !in s[1..];
        InsertDistinct(s[0], SortByStartDesc(s[1..]));
        Insert(s[0], SortByStartDesc(s[1..]))
      else
        Insert(s[0], SortByStartDesc(s[1..]))
  }

  /** The rows of `rows` that a query for this role, user and criterion keeps,
      in their original order. */
  function Keep(rows: seq<Booking>, items: map<Id, Item>, role: Role, userId: Id, c: Criterion): (r: seq<Booking>)
    ensures forall b :: b in r <==> b in rows && InRole(items, role, userId, b) && Meets(b, c)
    ensures Distinct(rows) ==> Distinct(r)
  {
    if rows == [] then []
    else
      var tail := Keep(rows[1..], items, role, userId, c);
      assert rows == [rows[0]] + rows[1..];
      assert Distinct(rows) ==> rows[0] !in rows[1..];
      if InRole(items, role, userId, rows[0]) && Meets(rows[0], c) then [rows[0]] + tail else tail
  }

  /** The rows of a well-keyed booking table are pairwise different: their
      ids are the table's keys in ascending order. */
  lemma RowsDistinct(bookings: map<Id, Booking>)
    requires BookingsKeyed(bookings)
    ensures Distinct(Rows(bookings))
  {
    var ks := AscendingKeys(bookings.Keys);
    var r := Rows(bookings);
    forall i, j | 0 <= i < j < |r| ensures r[i] != r[j] {
      assert r[i].id == ks[i] && r[j].id == ks[j];
    }
  }

  /** A list query: the bookings of the table that the role selector and the
      criterion keep, each once, newest first. */
  function Select(bookings: map<Id, Booking>, items: map<Id, Item>, role: Role, userId: Id, c: Criterion): (r: seq<Booking>)
    requires BookingsKeyed(bookings)
    ensures SortedByStartDesc(r)
    ensures Distinct(r)
    ensures forall b :: b in r <==> b in bookings.Values && InRole(items, role, userId, b) && Meets(b, c)
  {
    RowsDistinct(bookings);
    forall b ensures b in Rows(bookings) <==> b in bookings.Values {
      RowsMembership(bookings, b);
    }
    SortByStartDesc(Keep(Rows(bookings), items, role, userId, c))
  }

  /** All of the role's bookings, newest first. */
  function FindAll(bookings: map<Id, Booking>, items: map<Id, Item>, role: Role, userId: Id): (r: seq<Booking>)
    requires BookingsKeyed(bookings)
    ensures SortedByStartDesc(r) && Distinct(r)
    ensures forall b :: b in r <==> b in bookings.Values && InRole(items, role, userId, b)
  {
    var r := Select(bookings, items, role, userId, AnyBooking);
    r
  }

  /** The role's bookings with `start <= now` and `end > now`, newest first. */
  function FindCurrent(bookings: map<Id, Booking>, items: map<Id, Item>, role: Role, userId: Id, now: Time): (r: seq<Booking>)
    requires BookingsKeyed(bookings)
    ensures SortedByStartDesc(r) && Distinct(r)
    ensures forall b :: b in r <==> b in bookings.Values && InRole(items, role, userId, b) && b.start <= now && b.end > now
  {
    var r := Select(bookings, items, role, userId, CurrentAt(now));
    forall b ensures b in r <==> b in bookings.Values && InRole(items, role, userId, b) && b.start <= now && b.end > now {
      assert Meets(b, CurrentAt(now)) <==> b.start <= now && b.end > now;
    }
    r
  }

  /** The role's bookings with `end < now`, newest first. */
  function FindPast(bookings: map<Id, Booking>, items: map<Id, Item>, role: Role, userId: Id, now: Time): (r: seq<Booking>)
    requires BookingsKeyed(bookings)
    ensures SortedByStartDesc(r) && Distinct(r)
    ensures forall b :: b in r <==> b in bookings.Values && InRole(items, role, userId, b) && b.end < now
  {
    var r := Select(bookings, items, role, userId, PastAt(now));
    forall b ensures b in r <==> b in bookings.Values && InRole(items, role, userId, b) && b.end < now {
      assert Meets(b, PastAt(now)) <==> b.end < now;
    }
    r
  }

  /** The role's bookings with `start > now`, newest first. */
  function FindFuture(bookings: map<Id, Booking>, items: map<Id, Item>, role: Role, userId: Id, now: Time): (r: seq<Booking>)
    requires BookingsKeyed(bookings)
    ensures SortedByStartDesc(r) && Distinct(r)
    ensures forall b :: b in r <==> b in bookings.Values && InRole(items, role, userId, b) && b.start > now
  {
    var r := Select(bookings, items, role, userId, FutureAt(now));
    forall b ensures b in r <==> b in bookings.Values && InRole(items, role, userId, b) && b.start > now {
      assert Meets(b, FutureAt(now)) <==> b.start > now;
    }
    r
  }

  /** The role's bookings with exactly this status, newest first. */
  function FindByStatus(bookings: map<Id, Booking>, items: map<Id, Item>, role: Role, userId: Id, status: BookingStatus): (r: seq<Booking>)
    requires BookingsKeyed(bookings)
    ensures SortedByStartDesc(r) && Distinct(r)
    ensures forall b :: b in r <==> b in bookings.Values && InRole(items, role, userId, b) && b.status == status
  {
    var r := Select(bookings, items, role, userId, HavingStatus(status));
    forall b ensures b in r <==> b in bookings.Values && InRole(items, role, userId, b) && b.status == status {
      assert Meets(b, HavingStatus(status)) <==> b.status == status;
    }
    r
  }

  /** The booking with this id, provided the user is its booker or its item's
      owner. */
  function FindByIdAndUserId(bookings: map<Id, Booking>, items: map<Id, Item>, bookingId: Id, userId: Id): (r: Option<Booking>)
    ensures r.Some? <==>
              bookingId in bookings &&
              (bookings[bookingId].bookerId == userId || BookingOwner(items, bookings[bookingId]) == Some(userId))
    ensures r.Some? ==> r.value == bookings[bookingId]
  {
    if bookingId in bookings then
      var b := bookings[bookingId];
      if InRole(items, AsBooker, userId, b) || InRole(items, AsOwner, userId, b) then Some(b) else None
    else None
  }

  /** For a booking that does not end before it starts, the past, current
      and future windows never overlap, and together they miss exactly the
      bookings that end at `now`. */
  lemma TimeWindowsPartition(b: Booking, now: Time)
    requires b.start <= b.end
    ensures !(IsPast(b, now) && IsCurrent(b, now))
    ensures !(IsPast(b, now) && IsFuture(b, now))
    ensures !(IsCurrent(b, now) && IsFuture(b, now))
    ensures IsPast(b, now) || IsCurrent(b, now) || IsFuture(b, now) <==> b.end != now
  {
  }

  /** The same partition, stated on what the three queries return for one
      role and one `now`. */
  lemma QueriesPartitionAll(bookings: map<Id, Booking>, items: map<Id, Item>, role: Role, userId: Id, now: Time, b: Booking)
    requires BookingsKeyed(bookings)
    requires b in FindAll(bookings, items, role, userId)
    requires b.start <= b.end
    ensures b in FindPast(bookings, items, role, userId, now) ||
            b in FindCurrent(bookings, items, role, userId, now) ||
            b in FindFuture(bookings, items, role, userId, now)
            <==> b.end != now
    ensures !(b in FindPast(bookings, items, role, userId, now) && b in FindCurrent(bookings, items, role, userId, now))
    ensures !(b in FindPast(bookings, items, role, userId, now) && b in FindFuture(bookings, items, role, userId, now))
    ensures !(b in FindCurrent(bookings, items, role, userId, now) && b in FindFuture(bookings, items, role, userId, now))
  {
    TimeWindowsPartition(b, now);
  }
}
