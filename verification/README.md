# ShareIt lending core in Dafny

ShareIt is a lending server. Users register items. Other users book them for a
period. The item's owner approves or rejects each booking. Past bookers may
comment on an item. This project models that core as pure functions over an
immutable `Store`: a users, items, bookings and comments table, each a sequence
of rows with an integer primary key. The clock is an explicit `now: Time`
parameter, a minute count standing in for `LocalDateTime`. Each exception the
services throw becomes an `Error` constructor inside a `Result`, and each Java
null becomes `None`.

The model stands for the service classes `BookingServiceJpaImpl`,
`ItemServiceJpaImpl` and `UserServiceJpaImpl` and for the booking repository's
queries, as the repository's Mockito unit tests, repository tests and
integration test pin them down. Under strict stubbing every stubbed call must be
used, so the order of the checks can be read off the stubs of each test.

Modules:

- `Wrappers` holds `Option` and `Result`.
- `Tables` holds the generic table operations:
  - lookup by key, and the bound an identity column keeps: every key below its next value;
  - replace, filter and remove;
  - stable insertion sort, and a page as drop `from`, take `size`;
  - the lemmas relating these operations to one another.
- `Model` holds the entities and the store, plus the schema's constraints:
  unique primary keys in every table, unique user emails, and one identity
  counter per table that hands each key out once and never again.
- `BookingQueries` holds the state filters (`ALL`, `CURRENT`, `PAST`,
  `FUTURE`, `WAITING`, `REJECTED`), the booker- and owner-keyed selections
  with `end` descending, and an item's last and next booking.
- `BookingService` covers creating a booking, the owner's decision, reading one
  booking and the two paged listings.
- `ItemService` covers item creation, the owner's partial update, lookup, the
  owner's item list, search, deletion and the comment guard.
- `UserService` covers registration, the partial update, lookup and deletion.
- `Lifecycle` holds properties that span several operations.
- `StoreInvariants` shows that every successful operation preserves those constraints.
- `Scenarios` replays the repository tests' five-booking fixture.
- `Integration` replays the application-level scenario, step by step.

Two check orders shape the booking service:

- Creating a booking for a missing item fails with `UserNotFound`
  (server BookingServiceJpaImplTest.java:168-184).
- A decision checks the owner before the status, so a non-owner acting on a
  decided booking gets `AccessError`, and only the owner gets `BookingApprove`
  (server BookingServiceJpaImplTest.java:203-231).

## Model

| member | source | states |
|---|---|---|
| BookingService.CreateBooking | server/src/test/java/ru/practicum/shareit/booking/service/BookingServiceJpaImplTest.java:84-184 | Checks happen in this order. A missing requester or item gives UserNotFound. Otherwise a period with a missing date, a start not in the future, or an end not after the start gives Validation. The owner booking their own item gets BookingNotFound. An unavailable item gives ItemNotAvailable. Otherwise the booking is saved as WAITING with the requester as booker, the requested item and dates, and the bookings table's next identity key, which moves the counter on by one. In a store whose keys all lie below their counters, that key was not in use. |
| BookingService.ApproveBooking | server/src/test/java/ru/practicum/shareit/booking/service/BookingServiceJpaImplTest.java:186-242 | A missing booking or item gives BookingNotFound. A non-owner gets AccessError, checked before the status. The owner deciding a booking that is no longer WAITING gets BookingApprove. Otherwise the booking becomes APPROVED for true and REJECTED for false, and the stored row is replaced by the returned value. |
| BookingService.FindBookingById | server/src/test/java/ru/practicum/shareit/booking/service/BookingServiceJpaImplTest.java:244-277 | The booker and the item's owner receive the stored booking unchanged. Any other user gets AccessError. A missing booking gives BookingNotFound. |
| BookingService.ListBookings | server/src/test/java/ru/practicum/shareit/booking/service/BookingServiceJpaImplTest.java:279-432 | A missing user gives UserNotFound. Then an unknown state token gives UnsupportedStatus. Then a negative `from` or a non-positive `size` gives Validation. Otherwise the result is the window of the query from position `from`, of length `size` or up to the end of the query. The query holds exactly the bookings keyed to the user that match the state, ordered by `end` descending. |
| BookingService.ListBookingsWindow | server/src/test/java/ru/practicum/shareit/booking/service/BookingServiceJpaImplTest.java:279-432 | With unique keys, every page of a listing equals the window from `from`, of length `size`, of the one `end`-descending listing of exactly the selected bookings. |
| BookingQueries.ParseState | gateway/src/main/java/ru/practicum/shareit/booking/controller/BookingController.java:28-33 | A token is read as the state whose name it spells, ignoring letter case, so the default token "all" is read as ALL. A token that spells no state name, such as "LOL", is refused. |
| BookingQueries.ParseStateName | gateway/src/main/java/ru/practicum/shareit/booking/controller/BookingController.java:28-33 | Every state name is read back as its state, both as spelled in upper case and in lower case like the default "all". |
| BookingQueries.Query | src/test/java/ru/practicum/shareit/booking/repository/BookingJpaRepositoryTest.java:106-208 | The result holds exactly the stored bookings that are keyed to the user and match the state, each no more often than it is stored, ordered by `end` descending. |
| BookingQueries.SortByEnd | src/test/java/ru/practicum/shareit/booking/repository/BookingJpaRepositoryTest.java:48 | Sorting on `Sort.by(DESC, "end")` puts the bookings in `end`-descending order as a permutation of its input. |
| BookingQueries.QueryDetermined | src/test/java/ru/practicum/shareit/booking/repository/BookingJpaRepositoryTest.java:114-144 | When the keys are unique and the selected bookings have distinct ends, the query equals the one `end`-descending listing of exactly those bookings. |
| BookingQueries.LastBooking | src/test/java/ru/practicum/shareit/booking/repository/BookingJpaRepositoryTest.java:218-223 | Returns a booking of the item that has started by `now`, with no other started booking starting later. Returns none exactly when every booking of the item starts after `now`. |
| BookingQueries.NextBooking | src/test/java/ru/practicum/shareit/booking/repository/BookingJpaRepositoryTest.java:225-230 | Returns a booking of the item that starts after `now`, with no other future booking starting earlier. Returns none exactly when no booking of the item starts after `now`. |
| Lifecycle.CreateThenFind | src/test/java/ru/practicum/shareit/ShareItAppIntegrationTest.java:125-141 | In a store whose keys lie below their counters, a booking just created reads back unchanged for its booker and for the item's owner. Every other user gets AccessError. |
| Lifecycle.DecideOnce | server/src/test/java/ru/practicum/shareit/booking/service/BookingServiceJpaImplTest.java:186-231 | In a store whose keys lie below their counters, the owner's first decision on a new booking succeeds with the chosen status. A second decision gets BookingApprove from the owner and AccessError from anyone else. |
| Lifecycle.DecisionChangesOnlyItsBooking | src/test/java/ru/practicum/shareit/booking/service/BookingServiceJpaImplTest.java:108-123 | A successful decision starts from WAITING and sets APPROVED exactly when approving. The booking's other fields stay the same, other bookings read back unchanged, and the other tables do not change. |
| Lifecycle.ListingIsComplete | src/test/java/ru/practicum/shareit/booking/repository/BookingJpaRepositoryTest.java:106-112 | With a page as large as the table, a listing includes every booking that its key and state select. |
| Lifecycle.AllListsEveryBooking | src/test/java/ru/practicum/shareit/booking/repository/BookingJpaRepositoryTest.java:106-112 | A booker's ALL listing includes every booking they made, whatever its status or dates. |
| Lifecycle.RejectedIsListed | src/test/java/ru/practicum/shareit/ShareItAppIntegrationTest.java:145-151 | After the owner rejects a booking, the owner's REJECTED listing includes the rejected value. |
| Lifecycle.OwnerViewMatchesBookerView | src/test/java/ru/practicum/shareit/booking/repository/BookingJpaRepositoryTest.java:155-208 | Suppose one user made every booking and another owns every booked item. Then the owner's query and the booker's query return the same bookings in the same order. |
| Lifecycle.UserKeyNotReused | server/src/main/java/ru/practicum/shareit/user/model/User.java:21-24 | The identity column never hands a key out twice: the user registered after a deletion does not get the deleted user's key. |
| Lifecycle.ItemKeyNotReused | src/test/java/ru/practicum/shareit/ShareItAppIntegrationTest.java:111-122 | The item created after a deletion does not get the deleted item's key. |
| Lifecycle.NewItemHasNoBookings | src/test/java/ru/practicum/shareit/ShareItAppIntegrationTest.java:111-122 | In a valid store, no stored booking or comment refers to a newly created item, even after an item with bookings was deleted. So no booking lets anyone comment on the new item, and a comment on it by an existing user is refused with Validation. |
| Lifecycle.CommentAfterBookingEnds | src/test/java/ru/practicum/shareit/item/service/ItemServiceJpaImplTest.java:352-389 | Once a booking has ended, its booker's non-blank comment on the item is accepted. |
| Lifecycle.NoCommentBeforeBookingEnds | src/test/java/ru/practicum/shareit/item/service/ItemServiceJpaImplTest.java:438-468 | A booking that has not ended entitles nobody to comment. With no earlier finished booking, the comment is refused with Validation. |
| ItemService.CreateItem | src/test/java/ru/practicum/shareit/item/service/ItemServiceJpaImplTest.java:103-144 | A negative user id gives ResponseStatus. Then a blank or missing name or description, or a missing availability, gives Validation. Then a missing owner gives UserNotFound. Otherwise the item is saved with the given fields, that owner and the items table's next identity key, which moves the counter on by one. In a store whose keys all lie below their counters, that key was not in use. |
| ItemService.ChangeItem | src/test/java/ru/practicum/shareit/item/service/ItemServiceJpaImplTest.java:145-287 | A negative user id gives ResponseStatus. The update succeeds exactly when the item exists and the user owns it; otherwise it gives ItemNotFound. On success the item becomes the patch merged into the stored item, and the stored row is replaced by it. |
| ItemService.FindItemById | src/test/java/ru/practicum/shareit/item/service/ItemServiceJpaImplTest.java:288-314 | The user is validated before the item. A missing user gives UserNotFound and a missing item gives ItemNotFound. Otherwise the stored item with that key is returned. |
| ItemService.UserItems | src/test/java/ru/practicum/shareit/item/service/ItemServiceJpaImplTest.java:83-102 | The listing fails exactly when `from < 0` or `size <= 0`, and then with Validation. Otherwise it returns the user's items in ascending key order, never more than `size`. The count is the number of the user's items after `from`, capped at `size`. From the start with a page as large as the table, it returns all of them. |
| ItemService.UserItemsWindow | src/test/java/ru/practicum/shareit/item/service/ItemServiceJpaImplTest.java:83-93 | With unique keys, every page of a user's items equals the window from `from`, of length `size`, of the ascending-key listing of exactly their items. |
| ItemService.SearchItemsWindow | src/test/java/ru/practicum/shareit/item/service/ItemServiceJpaImplTest.java:326-341 | With unique keys, every page of a search equals the window from `from`, of length `size`, of the ascending-key listing of exactly the matches. |
| ItemService.SearchItems | src/test/java/ru/practicum/shareit/item/service/ItemServiceJpaImplTest.java:326-351 | Uses the same paging rule as the owner's list, applied to the items the search text matches. The count is the number of matches after `from`, capped at `size`. |
| ItemService.RemoveItem | src/test/java/ru/practicum/shareit/item/service/ItemServiceJpaImplTest.java:315-325 | Deleting a missing item gives IllegalArgument. Otherwise exactly that item is gone, every other item reads back unchanged, and the other tables and the identity counters do not change. |
| ItemService.CreateComment | src/test/java/ru/practicum/shareit/item/service/ItemServiceJpaImplTest.java:352-468 | Blank text gives Validation before any lookup. Then a missing author or item gives UserNotFound. Then an author without a booking of the item that ended before `now` gives Validation. The comment is accepted exactly when none of these holds. The saved comment carries the text, the author's name and `now`, under the comments table's next identity key. |
| ItemService.MergeItemIdempotent | src/test/java/ru/practicum/shareit/item/service/ItemServiceJpaImplTest.java:145-169 | Applying the same item patch twice gives the same result as applying it once. |
| ItemService.MergeItemFieldwise | src/test/java/ru/practicum/shareit/item/service/ItemServiceJpaImplTest.java:170-256 | Each of name, description and availability takes the patch's value when supplied and otherwise keeps the stored value. Key, owner and request never change. |
| UserService.CreateUser | src/test/java/ru/practicum/shareit/user/service/UserServiceJpaImplTest.java:48-76 | A missing name or email gives Validation. Otherwise registration succeeds exactly when no user holds the email, and a taken email gives ResponseStatus. The saved user has the given fields and the users table's next identity key, which moves the counter on by one. In a store whose keys all lie below their counters, that key was not in use. |
| UserService.ChangeUser | src/test/java/ru/practicum/shareit/user/service/UserServiceJpaImplTest.java:79-151 | A missing user gives UserNotFound. The update succeeds exactly when no other user holds the merged email; otherwise it gives ResponseStatus. The result is the patch merged into the stored user, and the stored row is replaced by it. |
| UserService.FindUserById | src/test/java/ru/practicum/shareit/user/service/UserServiceJpaImplTest.java:153-173 | The lookup succeeds exactly when a user has the key, and returns that stored user. Otherwise it gives UserNotFound. |
| UserService.RemoveUser | src/test/java/ru/practicum/shareit/user/service/UserServiceJpaImplTest.java:175-183 | Deleting a missing user gives IllegalArgument. Otherwise exactly that user is gone, every other row reads back unchanged, and the identity counters do not change. |
| UserService.MergeUserIdempotent | src/test/java/ru/practicum/shareit/user/service/UserServiceJpaImplTest.java:79-96 | Applying the same user patch twice gives the same result as applying it once. |
| UserService.MergeUserFieldwise | src/test/java/ru/practicum/shareit/user/service/UserServiceJpaImplTest.java:98-139 | A field changes only when the patch supplies it, and then takes the supplied value. The key never changes, and an empty patch changes nothing. |
| StoreInvariants.CreateUserKeepsValid | server/src/main/java/ru/practicum/shareit/user/model/User.java:20-30 | Registration preserves unique keys, unique emails, the identity counters' bound on the keys, and references to issued keys only. |
| StoreInvariants.EmailsAfterReplace | server/src/main/java/ru/practicum/shareit/user/model/User.java:26-27 | Replacing a user row keeps emails unique when no other user holds the new email. |
| StoreInvariants.ChangeUserKeepsValid | server/src/main/java/ru/practicum/shareit/user/model/User.java:20-30 | A successful user update preserves unique keys, unique emails, the counters' bound and issued references. |
| StoreInvariants.RemoveUserKeepsValid | server/src/main/java/ru/practicum/shareit/user/model/User.java:20-30 | Deleting a user preserves unique keys, unique emails, the counters' bound and issued references. |
| StoreInvariants.CreateItemKeepsValid | src/test/java/ru/practicum/shareit/item/service/ItemServiceJpaImplTest.java:103-116 | Item creation preserves the store's constraints. |
| StoreInvariants.ChangeItemKeepsValid | src/test/java/ru/practicum/shareit/item/service/ItemServiceJpaImplTest.java:145-169 | An item update preserves the store's constraints. |
| StoreInvariants.RemoveItemKeepsValid | src/test/java/ru/practicum/shareit/item/service/ItemServiceJpaImplTest.java:315-325 | Deleting an item preserves the store's constraints. |
| StoreInvariants.CreateBookingKeepsValid | src/test/java/ru/practicum/shareit/booking/service/BookingServiceJpaImplTest.java:83-106 | Creating a booking preserves the store's constraints. |
| StoreInvariants.ApproveBookingKeepsValid | server/src/test/java/ru/practicum/shareit/booking/service/BookingServiceJpaImplTest.java:186-201 | A decision preserves the store's constraints. |
| StoreInvariants.CreateCommentKeepsValid | src/test/java/ru/practicum/shareit/item/service/ItemServiceJpaImplTest.java:352-389 | Saving a comment preserves the store's constraints. |
| Tables.SelectPage | src/test/java/ru/practicum/shareit/item/service/ItemServiceJpaImplTest.java:83-93 | A page holds at most `size` of the selected rows, in ascending key order. It holds as many as the selection has after `from`, capped at `size`. Starting at 0 with room for all rows, it holds every selected row. |
| Tables.SortBy | src/test/java/ru/practicum/shareit/booking/repository/BookingJpaRepositoryTest.java:48 | The result is sorted by the key and is a permutation of the input. |
| Tables.SortedSelection | src/test/java/ru/practicum/shareit/booking/repository/BookingJpaRepositoryTest.java:114-144 | With unique row keys, the sorted selection of rows equals any strictly sorted listing that has exactly the same members. |
| Tables.SelectPageWindow | src/test/java/ru/practicum/shareit/item/service/ItemServiceJpaImplTest.java:83-93 | With unique keys, any page of a paged query equals the window from `from`, of length `size`, of the strictly ordered listing of exactly the selected rows. |
| Tables.SelectPageDetermined | src/test/java/ru/practicum/shareit/ShareItAppIntegrationTest.java:91-106 | A first page with room for a strictly sorted listing that has exactly the selected rows as members equals that listing. |
| Tables.SortedPermutation | src/test/java/ru/practicum/shareit/booking/repository/BookingJpaRepositoryTest.java:114-144 | A sorted permutation of rows drawn without repeats from a keyed table equals the strictly sorted listing with the same members. |
| Tables.StrictlySortedUnique | src/test/java/ru/practicum/shareit/booking/repository/BookingJpaRepositoryTest.java:114-144 | Two strictly sorted sequences with the same members are equal. |
| Tables.FindAppend | server/src/test/java/ru/practicum/shareit/booking/service/BookingServiceJpaImplTest.java:84-107 | After a row with a fresh key is appended, that key finds the new row and other keys find what they found before. |
| Tables.FindReplace | server/src/test/java/ru/practicum/shareit/booking/service/BookingServiceJpaImplTest.java:186-201 | After a row is replaced, its key finds the new value and other keys find what they found before. |
| Tables.FindRemove | src/test/java/ru/practicum/shareit/item/service/ItemServiceJpaImplTest.java:315-325 | After a key is deleted, that key finds nothing and other keys find what they found before. |
| Scenarios.RepoRows | src/test/java/ru/practicum/shareit/booking/repository/BookingJpaRepositoryTest.java:52-104 | The fixture's booking table holds the five bookings under distinct keys. |
| Scenarios.RepoOwnerSeesBookerView | src/test/java/ru/practicum/shareit/booking/repository/BookingJpaRepositoryTest.java:155-208 | In the fixture, the owner's and the booker's queries agree for every state and time. |
| Scenarios.RepoAll | src/test/java/ru/practicum/shareit/booking/repository/BookingJpaRepositoryTest.java:106-112 | ALL lists bookings 5, 4, 1, 3, 2 for the booker and for the owner. |
| Scenarios.RepoBookerPast | src/test/java/ru/practicum/shareit/booking/repository/BookingJpaRepositoryTest.java:114-123 | At any time after booking 3 ends and up to the end of booking 1, PAST lists bookings 3 and 2. |
| Scenarios.RepoBookerFuture | src/test/java/ru/practicum/shareit/booking/repository/BookingJpaRepositoryTest.java:125-134 | At any time from the start of booking 1 until booking 4 starts, FUTURE lists bookings 5 and 4. |
| Scenarios.RepoBookerRejected | src/test/java/ru/practicum/shareit/booking/repository/BookingJpaRepositoryTest.java:136-144 | REJECTED lists booking 2 alone. |
| Scenarios.RepoBookerWaiting | src/test/java/ru/practicum/shareit/booking/repository/BookingJpaRepositoryTest.java:192-199 | The booker's WAITING list is booking 5 alone, the fixture's only WAITING booking. The owner's WAITING test at these lines expects the same booking; the booker's tests use the same status query only with REJECTED. |
| Scenarios.RepoBookerCurrent | src/test/java/ru/practicum/shareit/booking/repository/BookingJpaRepositoryTest.java:146-153 | While booking 1 runs, CURRENT lists it alone. |
| Scenarios.RepoBookerTests | src/test/java/ru/practicum/shareit/booking/repository/BookingJpaRepositoryTest.java:114-134 | At the two dates the tests use, PAST gives bookings 3 and 2 and FUTURE gives bookings 5 and 4. |
| Scenarios.RepoOwnerCurrent | src/test/java/ru/practicum/shareit/booking/repository/BookingJpaRepositoryTest.java:163-170 | On the reference date, the owner's CURRENT list is booking 1. |
| Scenarios.RepoOwnerPast | src/test/java/ru/practicum/shareit/booking/repository/BookingJpaRepositoryTest.java:172-180 | On the reference date, the owner's PAST list is bookings 3 and 2. |
| Scenarios.RepoOwnerFuture | src/test/java/ru/practicum/shareit/booking/repository/BookingJpaRepositoryTest.java:182-190 | On the reference date, the owner's FUTURE list is bookings 5 and 4. |
| Scenarios.RepoOwnerWaiting | src/test/java/ru/practicum/shareit/booking/repository/BookingJpaRepositoryTest.java:192-199 | The owner's WAITING list is booking 5. |
| Scenarios.RepoOwnerRejected | src/test/java/ru/practicum/shareit/booking/repository/BookingJpaRepositoryTest.java:201-208 | The owner's REJECTED list is booking 2. |
| Scenarios.RejectedTokens | gateway/src/main/java/ru/practicum/shareit/booking/controller/BookingController.java:28-33 | Both "REJECTED" and its lower-case spelling "rejected" are read as the REJECTED state. |
| Scenarios.RepoRejectedListing | server/src/test/java/ru/practicum/shareit/booking/service/BookingServiceJpaImplTest.java:397-408 | Through the service, the owner's REJECTED listing of the fixture, page 0 of 20, is booking 2. The token may be "REJECTED", as in the tests, or its lower-case spelling. |
| Scenarios.RepoLastNext | src/test/java/ru/practicum/shareit/booking/repository/BookingJpaRepositoryTest.java:218-230 | On the reference date, the item's last booking is booking 1 and its next booking is booking 4. |
| Integration.SetupLookups | src/test/java/ru/practicum/shareit/ShareItAppIntegrationTest.java:51-64 | The set-up tables find each user and item by its key. |
| Integration.RegisterFirst | src/test/java/ru/practicum/shareit/ShareItAppIntegrationTest.java:71 | Registering the first user on an empty store gives it key 1. |
| Integration.RegisterSecond | src/test/java/ru/practicum/shareit/ShareItAppIntegrationTest.java:72 | The second user gets key 2. |
| Integration.RegisterThird | src/test/java/ru/practicum/shareit/ShareItAppIntegrationTest.java:73 | The third user gets key 3. |
| Integration.ItemTextsFilled | src/test/java/ru/practicum/shareit/ShareItAppIntegrationTest.java:57-64 | Every item name and description in the scenario is non-blank. |
| Integration.CreateFirstItem | src/test/java/ru/practicum/shareit/ShareItAppIntegrationTest.java:74 | User 1's first item gets key 1. |
| Integration.CreateSecondItem | src/test/java/ru/practicum/shareit/ShareItAppIntegrationTest.java:75 | User 1's second item gets key 2. |
| Integration.CreateThirdItem | src/test/java/ru/practicum/shareit/ShareItAppIntegrationTest.java:76 | User 2's item gets key 3. |
| Integration.CreateFourthItem | src/test/java/ru/practicum/shareit/ShareItAppIntegrationTest.java:111-114 | User 3's item for a request gets key 4, after the three set-up items. |
| Integration.FourthKeySpent | src/test/java/ru/practicum/shareit/ShareItAppIntegrationTest.java:111-122 | After item 4 is deleted again, the next item created gets key 5, not 4. |
| Integration.SetupItems | src/test/java/ru/practicum/shareit/ShareItAppIntegrationTest.java:57-64 | The set-up items table holds the three items under distinct keys. |
| Integration.ListFirstUserItems | src/test/java/ru/practicum/shareit/ShareItAppIntegrationTest.java:93-103 | User 1's first page of items is items 1 and 2. |
| Integration.ListSecondUserItems | src/test/java/ru/practicum/shareit/ShareItAppIntegrationTest.java:94-104 | User 2's first page of items is item 3. |
| Integration.ListThirdUserItems | src/test/java/ru/practicum/shareit/ShareItAppIntegrationTest.java:95-105 | User 3 owns no items. |
| Integration.BookItem | src/test/java/ru/practicum/shareit/ShareItAppIntegrationTest.java:125-134 | User 1's booking of item 3, from five to fifteen days ahead, is saved as booking 1 with status WAITING. |
| Integration.OwnerReadsBooking | src/test/java/ru/practicum/shareit/ShareItAppIntegrationTest.java:136-141 | The owner of item 3 reads the booking back unchanged. |
| Integration.QueryBooked | src/test/java/ru/practicum/shareit/ShareItAppIntegrationTest.java:139-143 | The booker's ALL query is the booking alone. |
| Integration.ListBooked | src/test/java/ru/practicum/shareit/ShareItAppIntegrationTest.java:139-143 | The booker's ALL listing, page 0 of 20, is the booking alone. |
| Integration.RejectBooking | src/test/java/ru/practicum/shareit/ShareItAppIntegrationTest.java:145 | The owner's rejection returns the booking as REJECTED and stores it. |
| Integration.QueryDecided | src/test/java/ru/practicum/shareit/ShareItAppIntegrationTest.java:147-151 | The owner's REJECTED query is the rejected booking alone. |
| Integration.ListRejected | src/test/java/ru/practicum/shareit/ShareItAppIntegrationTest.java:147-151 | The owner's REJECTED listing, page 0 of 20, is the rejected booking alone. |
| Integration.CommentRefused | src/test/java/ru/practicum/shareit/ShareItAppIntegrationTest.java:154-160 | User 3 never booked item 1, so their comment is refused with Validation. |

## Left out

- HTTP controllers and the gateway are not modelled. They route requests and run annotation-driven validation only.
- JSON serialisation and DTO mapping are not modelled. This includes the item view with its last and next booking and its comments. The entities keep only the fields the rules use.
- Item requests are not modelled. They are thin CRUD with no rule beyond excluding one's own requests.
- `getAllUsers` is not modelled. It is a plain read of the users table.
- The ORM, `PageRequest` and `Sort` are not modelled as such. A page is drop `from`, take `size` of the sorted rows. The repository may read `from` as a page index via `from / size`; every test uses `from = 0`, where the two readings agree.
- Bookings with equal `end` keep their table order in the model. The database's order for such ties is unspecified, so nothing is claimed about it.
- The search text match is the repository's query, which is not part of this model. `SearchItems` takes it as a predicate parameter.
- The wall clock is not modelled: `now` is a parameter. `LocalDateTime` becomes an integer minute count that keeps the order of dates.
- Concurrency between racing decisions is not modelled. It is left to database transactions.
- BookingQueries.ParseState: how `BookingState.from` reads a token is not part of this model. The gateway passes the lower-case default "all" to it (BookingController.java:29-32). So the model ignores the case of ASCII letters and claims nothing about other letters.
- UserService.CreateUser: only checks that the name and email are present. Email format checks are annotation validation in the gateway. The only Validation test (UserServiceJpaImplTest.java:70-76) leaves both fields null. That Validation also answers a user missing just one of the two is a choice of the model; the source might instead reach the store, whose not-null column would refuse the row with ResponseStatus.
- UserService.ChangeUser: the tests show no duplicate-email update. The model applies the unique-email column and reports ResponseStatus, as registration does.
- ItemService.FindItemById: the tests show only the user check passing. The error for a missing user is taken to be UserNotFound, as elsewhere in the service.
- ItemService.RemoveItem: follows the test, where deleting a missing id fails in the repository with IllegalArgument. No owner check happens before the delete.
- BookingService.CreateBooking: checks the owner before the availability. The owner test (BookingServiceJpaImplTest.java:128-144) books an available item and the availability test (146-166) uses a non-owner, so the order between those two checks is a choice of the model. The only date test (109-125) sends a missing end. That a start not in the future, or an end not after the start, also gives Validation is a choice of the model.
- BookingService.ListBookings: checks the state token before the paging parameters. Each test breaks only one of the two, so the order between those two checks is a choice of the model.
- ItemService.CreateComment: any booking of the item by the author that ended before `now` qualifies, whatever its status. The tests accept only an APPROVED booking, fetched with the author's bookings of the item sorted by id descending. They do not show whether a REJECTED past booking qualifies, or whether only the latest booking decides.
- ItemService.CreateItem: every negative user id gives ResponseStatus. The tests use only -1. The tests also do not fix the order of the checks: the -1 test sends valid fields, and the validation test uses user 1. So putting the id check before the field checks is a choice of the model. The only validation test sends blank names together with a missing availability. Reporting Validation for a missing name or description, or for a missing availability alone, is also a choice of the model; the gateway answers a missing name or description with ResponseStatus before the service is reached (gateway ItemController.java:40-45).
- Model.Valid: references from items to owners, from bookings to items and bookers, and from comments to items and authors must name keys already handed out, but not rows that still exist. Deletions neither cascade nor refuse, so `RemoveUser` may leave an item whose owner is gone. Foreign keys and cascades are not modelled.
- UserService.CreateUser, ItemService.CreateItem, BookingService.CreateBooking, ItemService.CreateComment: the new key is the table's identity counter. It is promised unused only in a store whose keys lie below their counters (`Numbered`), which every operation keeps. In any other store the key may collide, where the database would refuse the insert. Lifecycle.CreateThenFind and Lifecycle.DecideOnce assume such a store for the same reason.
- An insert the database refuses, such as a registration with a taken email, may still use up an identity value there. The model moves a counter only on success, so after such a failure its keys can be smaller than the database's. They are still never reused.
