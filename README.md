# shareit booking and item core, modelled in Dafny

This project models the service layer of **shareit**, a Spring application
where users list items to lend, book other users' items, and comment on
items they have borrowed. It covers:

- **Bookings** (`BookingService`, `BookingRepository`). A booking request
  checks the item and the booker, stores a waiting booking and makes the item
  unavailable. The item's owner may approve a waiting booking once. The
  booker or the owner may read a booking. The booker and the owner can list
  bookings by state (ALL, CURRENT, PAST, FUTURE, WAITING, REJECTED), newest
  start first, and an empty list is reported as "not found".
- **Items** (`ItemService`, `ItemValidation`, `ItemMapper`). Creation and
  partial update, including the owner checks. An item read with its comments
  shows its last and next bookings only to its owner. The owner's item list
  and a case-insensitive search over descriptions of available items. A
  comment is allowed only from a user whose booking of the item has ended.
- **Users** (`UserService`, `UserValidation`, `EmailPattern`). Registration
  with the email checks. A database integrity failure is mapped to a
  duplicate-email or validation error by walking its cause chain. Partial
  update, lookup and deletion are also modelled.
- **The gateway's state converter** (`StateConverter`, `BookingStates`). It
  turns the `state` request parameter into a booking state, ignoring case.

The relational store is the class `Persistence.Store`. It has one `map` per
table (users, items, bookings, comments) and one identity counter per table.
`Store.Valid()` states the constraints the code relies on:

- every row is stored under its own id;
- every stored item has a name (a NOT NULL column) and an availability flag:
  creation validates both, and an update keeps the stored value when the
  patch has none;
- email addresses are unique;
- every booking refers to a stored item.

Operations that write are methods that `modify` the store. Each one states
what it returns, in the source's error order, and states the new contents of
every table. Read-only operations are functions over the tables. Repository
list queries are specified by relations:

- a booking is listed exactly when it belongs to the table, the role and the
  criterion;
- no booking is listed twice;
- the list is ordered by start descending.

Module by module:

- common.dfy: ids, time, `Option`, `Result`, `Outcome`, the service's
  error kinds, and the "rows in ascending key order" helpers that stand for a
  table scan.
- model.dfy: the entities and payloads (`User`, `Item`, `Booking`,
  `Comment`, `ItemDto`, …).
- store.dfy: the tables and the single-row statements the repositories
  issue.
- `booking_repository.dfy`, `booking_service.dfy`: the booking queries and
  the booking service.
- `text.dfy`, `email_pattern.dfy`: upper-casing with substring search, and
  the email regular expression written as a predicate.
- `item_mapper.dfy`, `item_validation.dfy`, `item_service.dfy`: items.
- `user_validation.dfy`, `user_service.dfy`: users.
- `state_converter.dfy`: the gateway converter.

Times are integers. The current instant is a parameter named `now`.

### Behaviour of the code worth knowing

- The last booking of an item is one that ended strictly before `now`
  (`end < now`). Its next booking is one that starts strictly after `now`.
  Neither lookup looks at the booking's status.
- `approve` only moves a WAITING booking to APPROVED. The repository's own
  integration tests exercise a reject path (`bookingSetRejectTest`,
  src/test/java/ru/practicum/shareit/booking/BookingIntegrationTest.java:517) and a refusal to book one's own item
  (`bookingCreateYourOwnItemTest`, src/test/java/ru/practicum/shareit/booking/BookingIntegrationTest.java:480). The booking service's code has
  neither.
- Booking creation does not check the booking window. The request
  payload's annotations only require start and end to lie in the future
  (src/main/java/ru/practicum/shareit/booking/dto/BookingRequestDto.java:14-18).
  Nothing checks that the end comes after the start.
- The service's queries take no pagination arguments.
- `CANCELED` is in the status enumeration, but no operation sets it.
- `approve` compares the item's owner with the caller as `User` objects.
  That `User` is a Lombok `@Data` class
  (src/main/java/ru/practicum/shareit/user/User.java:13-14) whose `equals`
  compares id, name and email. For stored users this holds exactly when the
  ids are equal (`Persistence.StoredUsersEqualIffSameId`), and the ids are
  what the model compares.

## Model

| member | source | states |
|---|---|---|
| Model.BookingOwner | src/main/java/ru/practicum/shareit/booking/BookingRepository.java:30-31 | a booking's owner is the owner of its item, reached through the item row; absent when the item row is missing (inner-join semantics) |
| Persistence.Store.InsertUser | src/main/java/ru/practicum/shareit/user/UserService.java:41-43 | the insert checks NOT NULL before UNIQUE; it stores a new user under the next identity value exactly when name and email are present and the email is free, and otherwise raises the cause chain with SQLState 23502 or 23505 and stores nothing; the user counter advances only on success |
| Persistence.Store.SaveUser | src/main/java/ru/practicum/shareit/user/UserService.java:66-67 | the row of the saved user is replaced and nothing else changes; a caller must keep emails unique |
| Persistence.Store.DeleteUser | src/main/java/ru/practicum/shareit/user/UserService.java:80 | the user row with that id is removed and no other row changes |
| Persistence.Store.InsertItem | src/main/java/ru/practicum/shareit/item/ItemService.java:54-55 | the item is stored under a fresh identity value, which is the id handed back, and the item counter advances by one |
| Persistence.Store.SaveItem | src/main/java/ru/practicum/shareit/item/ItemService.java:76-77 | an existing item row is replaced by the saved item |
| Persistence.Store.UpdateAvailable | src/main/java/ru/practicum/shareit/booking/BookingService.java:48 | only the availability flag of that item changes |
| Persistence.Store.InsertBooking | src/main/java/ru/practicum/shareit/booking/BookingService.java:46-47 | the booking is stored under a fresh identity value with the given fields, and the booking counter advances by one |
| Persistence.Store.UpdateStatus | src/main/java/ru/practicum/shareit/booking/BookingRepository.java:18-21 | only the status of the booking with that id changes; an unknown id changes nothing |
| Persistence.Store.InsertComment | src/main/java/ru/practicum/shareit/item/ItemService.java:142-146 | the comment gets a fresh id and is the only row added, and the comment counter advances by one |
| Persistence.StoredUsersEqualIffSameId | src/main/java/ru/practicum/shareit/booking/BookingService.java:62 | in a table whose users carry their own key as id, two stored users are equal (id, name and email alike) exactly when their keys are equal |
| Persistence.WithStatus | src/main/java/ru/practicum/shareit/booking/BookingRepository.java:18-21 | the bookings with that one status rewritten: same keys; the booking with that id has the new status and its other fields unchanged; every other booking is identical |
| BookingRepository.Insert | src/main/java/ru/practicum/shareit/booking/BookingRepository.java:23-47 | placing a booking into a list ordered by start descending keeps the order and adds exactly that booking to the multiset |
| BookingRepository.InsertDistinct | src/main/java/ru/practicum/shareit/booking/BookingRepository.java:23-47 | inserting into a descending-by-start list keeps the elements, as a multiset, and keeps them distinct |
| BookingRepository.SortByStartDesc | src/main/java/ru/practicum/shareit/booking/BookingRepository.java:23-47 | the ordering every list query uses: start non-increasing, the same multiset of rows |
| BookingRepository.Keep | src/main/java/ru/practicum/shareit/booking/BookingRepository.java:23-47 | the filtered rows are exactly those of the input that are in the role and meet the criterion |
| BookingRepository.RowsDistinct | src/main/java/ru/practicum/shareit/booking/BookingRepository.java:23-47 | the rows of a table keyed by id contain no booking twice |
| BookingRepository.Select | src/main/java/ru/practicum/shareit/booking/BookingRepository.java:23-47 | the shared query: exactly the stored bookings in the role that meet the criterion, each once, ordered by start descending |
| BookingRepository.FindAll | src/main/java/ru/practicum/shareit/booking/BookingRepository.java:23-25 | all bookings of the booker, or of the owner's items, newest start first |
| BookingRepository.FindCurrent | src/main/java/ru/practicum/shareit/booking/BookingRepository.java:27-31 | exactly the role's bookings with start <= now < end, newest start first |
| BookingRepository.FindPast | src/main/java/ru/practicum/shareit/booking/BookingRepository.java:33-37 | exactly the role's bookings with end < now, newest start first |
| BookingRepository.FindFuture | src/main/java/ru/practicum/shareit/booking/BookingRepository.java:39-43 | exactly the role's bookings with start > now, newest start first |
| BookingRepository.FindByStatus | src/main/java/ru/practicum/shareit/booking/BookingRepository.java:45-47 | exactly the role's bookings with the given status, newest start first |
| BookingRepository.FindByIdAndUserId | src/main/java/ru/practicum/shareit/booking/BookingRepository.java:49-50 | the booking with that id exactly when the user is its booker or its item's owner; nothing otherwise |
| BookingRepository.TimeWindowsPartition | src/main/java/ru/practicum/shareit/booking/BookingRepository.java:27-43 | for a booking with start <= end the past, current and future windows never overlap, and one of them holds iff the booking does not end exactly at now |
| BookingRepository.QueriesPartitionAll | src/main/java/ru/practicum/shareit/booking/BookingRepository.java:23-43 | a booking the all-states query lists (with start <= end) is listed by at most one of the past, current and future queries, and by one of them iff it does not end exactly at now |
| BookingService.Create | src/main/java/ru/practicum/shareit/booking/BookingService.java:36-50 | errors in source order: unknown item, item not available, unknown booker, each storing nothing; on success a waiting booking with a fresh id is stored and the item made unavailable; users and comments are untouched, and only the booking counter moves, by one and only on success |
| BookingService.Approve | src/main/java/ru/practicum/shareit/booking/BookingService.java:52-68 | errors in source order: unknown caller, unknown booking, booking not waiting, caller not the item's owner; success exactly when all four pass, and then only that booking changes, to approved, and it is the result; no identity counter moves |
| BookingService.ApproveTwice | src/main/java/ru/practicum/shareit/booking/BookingService.java:59-61 | once an approval succeeds, approving the same booking again is refused as not waiting; users, items, comments and the identity counters are untouched |
| BookingService.GetOneByIdAndUserId | src/main/java/ru/practicum/shareit/booking/BookingService.java:70-76 | the booking is returned exactly when it exists and the caller is its booker or its item's owner; otherwise BookingNotFound |
| BookingService.StrangerSeesNotFound | src/main/java/ru/practicum/shareit/booking/BookingService.java:70-76 | for a stranger an existing booking gives the same answer as an unknown id |
| BookingService.Criterion | src/main/java/ru/practicum/shareit/booking/BookingService.java:80-101 | each state selects the query whose condition is that state's meaning (ALL, CURRENT, PAST, FUTURE, WAITING, REJECTED) |
| BookingService.Query | src/main/java/ru/practicum/shareit/booking/BookingService.java:80-101 | the dispatch on the state is the shared selection under that state's criterion |
| BookingService.ListByRole | src/main/java/ru/practicum/shareit/booking/BookingService.java:78-136 | the dispatch both listings share: BookingNotFound exactly when the query is empty; otherwise a non-empty list, ordered by start descending, without repeats, holding exactly the bookings in the role and the state |
| BookingService.GetAllByBookerAndState | src/main/java/ru/practicum/shareit/booking/BookingService.java:78-106 | the booker's bookings in the state: exactly those with that booker id; an empty result is BookingNotFound |
| BookingService.GetAllByOwnerAndState | src/main/java/ru/practicum/shareit/booking/BookingService.java:108-136 | the bookings of the owner's items in the state: exactly those whose item belongs to the caller; an empty result is BookingNotFound |
| BookingService.CreatedBookingListedAsWaiting | src/main/java/ru/practicum/shareit/booking/BookingService.java:46-47 | a newly stored waiting booking can be read by its booker and makes the booker's WAITING listing non-empty |
| ItemService.Create | src/main/java/ru/practicum/shareit/item/ItemService.java:47-57 | the owner is set to the caller; unknown caller, then validation errors, store nothing; on success the payload comes back with the new id, and the stored item is that payload's entity; only the item counter moves, by one and only on success |
| ItemService.Updated | src/main/java/ru/practicum/shareit/item/ItemService.java:66-76 | the patch's non-null availability, description and name win over the stored ones; the id is kept, the owner is the caller, and the request is cleared |
| ItemService.UpdatedIdempotent | src/main/java/ru/practicum/shareit/item/ItemService.java:66-76 | applying the same patch twice gives the same item as applying it once |
| ItemService.EmptyPatchKeepsFields | src/main/java/ru/practicum/shareit/item/ItemService.java:66-76 | an all-null patch leaves every field except the request as stored |
| ItemService.Update | src/main/java/ru/practicum/shareit/item/ItemService.java:59-79 | errors in source order: unknown caller, unknown item, caller not the owner, each changing nothing; on success only that item is replaced by the patched one and its payload is returned; no identity counter moves |
| ItemService.LatestEnded | src/main/java/ru/practicum/shareit/item/ItemService.java:108-118 | over a list of rows: none iff no row of this item and owner ended before now; otherwise such a row whose end is the greatest |
| ItemService.EarliestUpcoming | src/main/java/ru/practicum/shareit/item/ItemService.java:119-129 | over a list of rows: none iff no row of this item and owner starts after now; otherwise such a row whose start is the least |
| ItemService.LastBooking | src/main/java/ru/practicum/shareit/item/ItemService.java:108-118 | the last booking over the whole table: ended before now, of this item through an item of this owner, with the greatest end; none iff there is no such booking |
| ItemService.NextBooking | src/main/java/ru/practicum/shareit/item/ItemService.java:119-129 | the next booking over the whole table: starting after now, of this item and owner, with the least start; none iff there is no such booking |
| ItemService.FillBookings | src/main/java/ru/practicum/shareit/item/ItemService.java:107-130 | only the last and next slots change; each takes the id and booker of the last or next booking when one exists and otherwise keeps its value |
| ItemService.LastIsNotNext | src/main/java/ru/practicum/shareit/item/ItemService.java:108-129 | when every stored booking ends no earlier than it starts, the item's last booking and its next booking are different bookings, and the last starts earlier |
| ItemService.ItemComments | src/main/java/ru/practicum/shareit/item/ItemService.java:86 | exactly the stored comments on that item, each once, in ascending id order |
| ItemService.GetByIdWithBookings | src/main/java/ru/practicum/shareit/item/ItemService.java:81-93 | ItemNotFound iff the item is missing; otherwise the item's payload with its comments, plus last and next bookings only when the caller owns it |
| ItemService.OwnedItems | src/main/java/ru/practicum/shareit/item/ItemService.java:96 | exactly the caller's items, in ascending id order |
| ItemService.FillAllBookings | src/main/java/ru/practicum/shareit/item/ItemService.java:97 | every payload of the list has its bookings filled, element by element, and the length is kept |
| ItemService.GetAllByUserId | src/main/java/ru/practicum/shareit/item/ItemService.java:95-99 | the caller's items in id order, each mapped to a payload with its last and next bookings |
| ItemService.SearchHit | src/main/java/ru/practicum/shareit/item/ItemService.java:103 | the search condition: the item is available and its description contains the text, ignoring case |
| ItemService.SearchResults | src/main/java/ru/practicum/shareit/item/ItemService.java:103 | exactly the available items whose description contains the text ignoring case, in ascending id order |
| ItemService.SearchIgnoresCase | src/main/java/ru/practicum/shareit/item/ItemService.java:103 | searching for the upper-cased text finds the same items as searching for the text |
| ItemService.SearchByName | src/main/java/ru/practicum/shareit/item/ItemService.java:102-105 | the payloads of the search results, in order; each is available and matches, and every matching item's payload is present |
| ItemService.HasEndedBooking | src/main/java/ru/practicum/shareit/item/ItemService.java:139 | the author has a booking of the item, in any status, that ended before now |
| ItemService.CreateComment | src/main/java/ru/practicum/shareit/item/ItemService.java:132-149 | errors in source order: unknown author, unknown item, no ended booking of the item by the author; on success the comment with a fresh id is the only change, and only the comment counter moves, by one and only on success |
| ItemValidation.ValidateCreation | src/main/java/ru/practicum/shareit/item/ItemValidation.java:28-39 | errors in source order: unknown owner, null availability, null or blank name, null description; passes iff none applies (a blank description passes) |
| ItemValidation.BlankDescriptionAccepted | src/main/java/ru/practicum/shareit/item/ItemValidation.java:33-38 | a blank description is accepted while a blank name is refused |
| ItemValidation.ValidateUpdateAndGet | src/main/java/ru/practicum/shareit/item/ItemValidation.java:41-52 | errors in source order: no owner, unknown item, caller not the owner; otherwise the stored item |
| UserValidation.ContainsEmail | src/main/java/ru/practicum/shareit/user/UserValidation.java:23-38 | the email lookup: a null address matches no user, and a present one matches iff some user has it |
| UserValidation.ValidateCreation | src/main/java/ru/practicum/shareit/user/UserValidation.java:22-32 | errors in source order: the address is taken, no address, the address does not match the pattern; passes iff the address is present, free and well-formed |
| UserValidation.ValidateUpdateAndGet | src/main/java/ru/practicum/shareit/user/UserValidation.java:34-44 | errors in source order: patch with neither field, an address any user already has, unknown user; otherwise the stored user |
| UserValidation.ValidateDelete | src/main/java/ru/practicum/shareit/user/UserValidation.java:46-50 | passes iff the user exists, otherwise UserNotFound |
| UserValidation.ValidateItemCreate | src/main/java/ru/practicum/shareit/user/UserValidation.java:52-56 | passes iff the owner exists, otherwise UserNotFound |
| UserValidation.RejectsAddressWithoutAt | src/main/java/ru/practicum/shareit/user/UserValidation.java:26-31 | an address without '@' is refused at creation |
| EmailPattern.Matches | src/main/java/ru/practicum/shareit/user/UserValidation.java:13 | the email pattern: at the first '@', a local part of at most 64 atom characters and single dots, and a domain whose first character is not '-', followed by labels and a final label of at least two letters |
| EmailPattern.NoAtNoMatch | src/main/java/ru/practicum/shareit/user/UserValidation.java:13 | a string without '@' never matches the pattern |
| EmailPattern.RejectsMissingAt | src/main/java/ru/practicum/shareit/user/UserValidation.java:13 | "user.com" does not match |
| EmailPattern.RejectsLongLocalPart | src/main/java/ru/practicum/shareit/user/UserValidation.java:13 | a local part longer than 64 characters before the first '@' never matches |
| EmailPattern.AcceptsPlainAddress | src/main/java/ru/practicum/shareit/user/UserValidation.java:13 | "user@user.com" matches |
| UserService.MapIntegrityFailure | src/main/java/ru/practicum/shareit/user/UserService.java:44-52 | the cause chain maps to UserDuplicateEmail iff some link is a PSQLException with SQLState 23505, and otherwise to UserValidation |
| UserService.ViolationChainsClassified | src/main/java/ru/practicum/shareit/user/UserService.java:43-52 | the store's duplicate-email chain is classified as a duplicate and its missing-column chain is not |
| UserService.Create | src/main/java/ru/practicum/shareit/user/UserService.java:38-54 | a failed validation is its error and stores nothing; a valid payload without a name fails at the NOT NULL constraint as a validation error; otherwise the new user is added under a fresh id; only the user counter moves, by one and only on success |
| UserService.Merge | src/main/java/ru/practicum/shareit/user/UserService.java:59-65 | each non-null patch field wins and each null field keeps the stored value; the id is kept |
| UserService.MergeKeepsEmailsUnique | src/main/java/ru/practicum/shareit/user/UserService.java:56-67 | a patch whose address no user has keeps the addresses unique |
| UserService.Update | src/main/java/ru/practicum/shareit/user/UserService.java:56-69 | the path id is forced onto the patch; a validation error changes nothing; on success only that user is replaced by the merged one, which is returned; no identity counter moves |
| UserService.GetById | src/main/java/ru/practicum/shareit/user/UserService.java:71-76 | the stored user iff the id exists, otherwise UserNotFound |
| UserService.Delete | src/main/java/ru/practicum/shareit/user/UserService.java:78-81 | an unknown id is UserNotFound and changes nothing; otherwise exactly that user is removed; no identity counter moves |
| UserService.DeletedUserNotFound | src/main/java/ru/practicum/shareit/user/UserService.java:71-81 | after a deletion the id is not found and every other lookup is unchanged |
| BookingStates.NamesDistinct | gateway/src/main/java/ru/practicum/shareit/booking/StringToBookingStateConverter.java:11 | the six state names are pairwise different |
| BookingStates.ValueOf | gateway/src/main/java/ru/practicum/shareit/booking/StringToBookingStateConverter.java:11 | the enum lookup gives a state whose name is the text, and nothing only when no state has that name |
| StateConverter.Convert | gateway/src/main/java/ru/practicum/shareit/booking/StringToBookingStateConverter.java:9-15 | Ok exactly when the upper-cased text is a state name, and then that state; otherwise EnumConverter |
| StateConverter.ConvertName | gateway/src/main/java/ru/practicum/shareit/booking/StringToBookingStateConverter.java:11 | every state's own name converts to that state |
| StateConverter.ConvertIgnoresCase | gateway/src/main/java/ru/practicum/shareit/booking/StringToBookingStateConverter.java:11 | the text and its upper-cased form convert alike |
| StateConverter.ConvertAnyCasing | gateway/src/main/java/ru/practicum/shareit/booking/StringToBookingStateConverter.java:11 | any text whose upper-cased form is a state's name converts to that state |
| StateConverter.ConvertsLowerCase | gateway/src/main/java/ru/practicum/shareit/booking/StringToBookingStateConverter.java:11 | "current" converts to CURRENT |
| StateConverter.RejectsUnknownName | gateway/src/main/java/ru/practicum/shareit/booking/StringToBookingStateConverter.java:12-14 | "UNSUPPORTED_STATUS" is refused with EnumConverter |
| Text.UpperChar | gateway/src/main/java/ru/practicum/shareit/booking/StringToBookingStateConverter.java:11 | each lower-case ASCII or basic Cyrillic letter becomes its own capital (code point minus 32, or minus 80 for U+0450 to U+045F); every other character is unchanged |
| Text.LowerChar | gateway/src/main/java/ru/practicum/shareit/booking/StringToBookingStateConverter.java:11 | the partner of the upper-case mapping: a capital becomes a lower-case letter and every other character is unchanged |
| Text.LowerOfUpper | gateway/src/main/java/ru/practicum/shareit/booking/StringToBookingStateConverter.java:11 | lowering the capital of a lower-case letter gives that letter back |
| Text.UpperCharInjective | gateway/src/main/java/ru/practicum/shareit/booking/StringToBookingStateConverter.java:11 | two different lower-case letters have different capitals |
| Text.IsWhitespace | src/main/java/ru/practicum/shareit/item/ItemValidation.java:33 | the characters `Character.isWhitespace` accepts: the ASCII separators and the Unicode space, line and paragraph separators other than the non-breaking ones |
| Text.IsBlank | src/main/java/ru/practicum/shareit/item/ItemValidation.java:33 | `isBlank`: the text is empty or made of whitespace only |
| Text.ContainsIgnoreCase | src/main/java/ru/practicum/shareit/item/ItemService.java:103 | the case-insensitive containment: the upper-cased text occurs somewhere in the upper-cased description |
| Text.Upper | gateway/src/main/java/ru/practicum/shareit/booking/StringToBookingStateConverter.java:11 | upper-casing keeps the length and upper-cases each character in place |
| Text.UpperIdempotent | gateway/src/main/java/ru/practicum/shareit/booking/StringToBookingStateConverter.java:11 | upper-casing twice is upper-casing once |
| Text.UpperOfUpperCase | gateway/src/main/java/ru/practicum/shareit/booking/StringToBookingStateConverter.java:11 | a text of upper-case letters and underscores, such as a state name, is its own upper case |
| Text.ContainsEmpty | src/main/java/ru/practicum/shareit/item/ItemService.java:103 | every text contains the empty text |
| Text.ContainsIgnoreCaseOfUpper | src/main/java/ru/practicum/shareit/item/ItemService.java:103 | the case-insensitive containment gives the same answer for the needle and its upper case |
| ItemMapper.ToDto | server/src/main/java/ru/practicum/shareit/item/dto/ItemMapper.java:13-23 | the payload copies id, name, description and availability, carries the owner's id, a request id iff there is a request, and no comments or bookings |
| ItemMapper.ToObject | server/src/main/java/ru/practicum/shareit/item/dto/ItemMapper.java:31-42 | the entity copies id, name, description and availability, takes the given owner, and has the request iff one is given |
| ItemMapper.RoundTrip | server/src/main/java/ru/practicum/shareit/item/dto/ItemMapper.java:13-42 | mapping an item to its payload and back, with its owner and request, gives the item |
| ItemMapper.RoundTripDto | server/src/main/java/ru/practicum/shareit/item/dto/ItemMapper.java:13-42 | mapping a payload to an entity and back restores its id, name, description and availability |
| ItemMapper.NoRequestLeavesRequestUnset | server/src/main/java/ru/practicum/shareit/item/dto/ItemMapper.java:37-39 | without a request the entity has none |
| ItemMapper.ToDtos | server/src/main/java/ru/practicum/shareit/item/dto/ItemMapper.java:25-29 | the list of payloads has the same length, and each element is the payload of the item at that position |

## Left out

- Controllers, the gateway's HTTP clients, the request-parameter validation annotations (such as the future-date checks) and the web configuration: they are the HTTP boundary around the core.
- Transactions and concurrent requests: the model runs one operation at a time. Because `UserService.Create` validates before it inserts, its duplicate-email integrity path can only be reached by a concurrent insert. The model keeps the cause-chain mapping (`UserService.MapIntegrityFailure`) and the store's NOT NULL path, which a payload without a name reaches.
- The system clock: `LocalDateTime.now()` becomes the `now` parameter. Each operation reads it once, where the code reads it once per repository call.
- Exception messages and the HTTP status codes they map to: only the exception kind (`Common.Error`) is modelled.
- JPA and Hibernate mechanics are not modelled. This covers entity identity, lazy loading, the `save` of an entity that already carries an id, and the foreign-key effects of deleting a user who owns items or bookings.
- The DTO mappers for bookings, comments and users, and the comment payload's author name and creation time: bookings, comments and users are returned as model values.
- In-place mutation of payload objects (`setOwner`, `setId`, the setters inside `fillBookings`, `getComments().addAll`): the model builds new values, so aliasing between the payload the caller passed and the one returned is not modelled.
- The two-argument `ItemMapper.toObject(dto, user)` that `ItemService` calls is not part of this model. The three-argument server mapper is modelled, and `ItemService` passes it no request, so a created or updated item carries no request.
- `ItemRequestServiceImpl`, `UserService.getAll` and the item-request operations: they are outside the core.
- Text.UpperChar: Java's `toUpperCase` covers all of Unicode and can change a string's length. The model folds ASCII and the basic Cyrillic letters only, one character at a time.
- EmailPattern.Matches: the regular expression is written out as a predicate over the same character classes. It is not derived from a regular-expression engine.
- ItemValidation.ValidateCreation: requires the owner to be set. The service always sets the owner before this check, and a null owner would be a NullPointerException in the code rather than a modelled error.
- BookingService.Create: an item whose availability is null is refused as not available. In the code, unboxing the null would throw a NullPointerException.
- ItemService.ItemComments: the comment query this service calls is not part of this model, and nothing says it orders its rows. The ascending id order is the model's choice, one among those the database allows.
- ItemService.SearchResults: the search query has no ordering clause, so the database may return the matches in any order. The model lists them in ascending id order, one choice among those it allows. For the same reason `ItemService.SearchByName` promises that order only as the model's choice.
- BookingRepository.SortByStartDesc: the contract states the order only up to bookings with equal start times. The database leaves the order of such ties unspecified, and the model's stable insertion sort is one choice among those it allows.
- ItemService.LastBooking: among bookings with the same greatest end, the contract does not say which one is chosen. The database's choice is unspecified.
- The `default` branch of the state switch in the booking listings: every state is handled, so that branch cannot be reached, and a null state is not representable.
