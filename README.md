# ShareIt booking and item core, in Dafny

ShareIt is a service where users share items. An owner lists an item, another
user books it for an interval, and the owner approves or rejects the booking.
Once a booking has ended, the booker may comment on the item. This project
models the rules behind those steps.

- **The booking lifecycle.** `BookingServiceImpl` checks a creation in a fixed order. A new booking starts WAITING. The item's owner decides APPROVED or REJECTED. One booking is visible only to its booker and the item's owner. Bookings are listed by booker or by owner under six states: ALL, CURRENT, PAST, FUTURE, WAITING and REJECTED.
- **The booking queries.** Each JPQL query of `BookingRepository` is a filter over the stored bookings, sorted by end, latest first.
- **The item services.**
  - The database-backed `ItemServiceImpl` handles ownership checks, search, item requests, and comments gated on a finished booking.
  - The in-memory `ItemServiceImpl` runs over `ItemStorageInMemory` and `UserStorageInMemory`.
- **The users.** `UserServiceImpl` and `UserStorageInMemory` keep emails unique through their own operations.
- **The mappers and partial updates.** `UserMapper`, `ItemMapper` and `BookingMapper`, with the `has*` tests of the update requests.

Layout, one module per file:

- `outcomes.dfy` defines `Option`, `Result`, and the four exceptions as `Error`: NotFound, NotAvailable, BadRequestParam, AlreadyExists.
- `text.dfy` covers `String.isBlank`, `toLowerCase` and `contains`.
- `users.dfy`, `items.dfy` and `bookings.dfy` hold the entities, the transfer objects and the mappers.
- `booking_queries.dfy` holds the repository queries.
- `repositories.dfy` holds the JPA repositories. Each is a class holding a map from id to row and an IDENTITY counter. `save` inserts a row whose id is 0 under a fresh id, or overwrites the row with that id.
- `booking_service.dfy`, `item_service.dfy` and `user_service.dfy` are the server services. Each is a class whose constant fields are its repositories. Each operation that writes is a method; each read-only operation is a function.
- `user_storage.dfy`, `item_storage.dfy` and `item_service_memory.dfy` are the in-memory storages and the service over them.

Modelling choices:

- **Time.** Timestamps are integers, and the current moment `now` is a parameter.
- **Transactions.** When a `@Transactional` operation fails, it is modelled as changing nothing.
- **Stored bookings.** Each booking records its item's owner id. The service invariant `Valid()` states the foreign keys. It also makes that recorded id agree with the item's current owner.
- **Query input.** The queries read the stored bookings in id order, and the sort is stable. Bookings that end at the same moment therefore stay in id order.
- **Owner identity.** The in-memory service compares owners with `User.equals`, which is reference identity. The storage never replaces the user object stored under an id, and ids are never reused. So reference identity is modelled as equality of user ids.

## Model

| member | source | states |
|---|---|---|
| Text.IsBlank | gateway/src/main/java/ru/practicum/shareit/item/dto/ItemUpdateDto.java:17-23 | `isBlank` holds for the empty string, and fails exactly when some character is not whitespace. |
| Text.ToLower | src/main/java/ru/practicum/shareit/item/storage/ItemStorageInMemory.java:45-50 | Lower-casing keeps the length, maps each character by itself, leaves no ASCII capital, and keeps every character that is not an ASCII capital. |
| Text.Contains | src/main/java/ru/practicum/shareit/item/storage/ItemStorageInMemory.java:48-49 | Every string contains the empty string and itself, and never a longer string. |
| Users.MapToUserDto | src/main/java/ru/practicum/shareit/user/model/mapper/UserMapper.java:14-19 | The view carries the user's id, name and email. |
| Users.MapToUser | src/main/java/ru/practicum/shareit/user/model/mapper/UserMapper.java:21-29 | The user built from a view maps back to exactly that view. |
| Users.MapToNewUser | src/main/java/ru/practicum/shareit/user/model/mapper/UserMapper.java:31-38 | A user built from a creation request has the request's name and email and id 0. |
| Users.UserDtoRoundTrip | src/main/java/ru/practicum/shareit/user/model/mapper/UserMapper.java:14-29 | Mapping a user to its view and back gives the same user. |
| Users.UpdateUserFields | src/main/java/ru/practicum/shareit/user/model/mapper/UserMapper.java:40-50 | A partial update never changes the user's id. |
| Users.UpdateUserFieldsChangesOnlyProvided | src/main/java/ru/practicum/shareit/user/model/mapper/UserMapper.java:42-47 | The email takes the provided value if and only if the update has a non-blank email, and the name likewise. Otherwise each keeps its old value. |
| Users.UpdateUserFieldsIgnoresBlank | src/main/java/ru/practicum/shareit/user/model/mapper/UserMapper.java:40-50 | Null or blank fields leave the user unchanged. |
| Users.UpdateUserFieldsIdempotent | src/main/java/ru/practicum/shareit/user/model/mapper/UserMapper.java:40-50 | Applying the same update twice gives the same user as applying it once. |
| Items.HasName | gateway/src/main/java/ru/practicum/shareit/item/dto/ItemUpdateDto.java:17-19 | `hasName` holds if and only if the name is present and has a non-whitespace character. |
| Items.HasDescription | gateway/src/main/java/ru/practicum/shareit/item/dto/ItemUpdateDto.java:21-23 | `hasDescription` holds if and only if the description is present and has a non-whitespace character. |
| Items.HasAvailable | gateway/src/main/java/ru/practicum/shareit/item/dto/ItemUpdateDto.java:25-27 | `hasAvailable` holds if and only if availability is given as true or as false; only null is absent. |
| Items.MapToItemDto | src/main/java/ru/practicum/shareit/item/model/mapper/ItemMapper.java:15-25 | The view copies id, name, description and availability, and its owner id is the owner's id. |
| Items.MapToItem | src/main/java/ru/practicum/shareit/item/model/mapper/ItemMapper.java:27-36 | The new item takes name, description and availability from the request. Its owner is the given user, its id is 0, and it has no item request. |
| Items.UpdateItemFields | src/main/java/ru/practicum/shareit/item/model/mapper/ItemMapper.java:38-51 | A partial update keeps the item's id, owner and item request. |
| Items.UpdateItemFieldsChangesOnlyProvided | src/main/java/ru/practicum/shareit/item/model/mapper/ItemMapper.java:40-48 | The name changes if and only if `hasName`, and description and availability likewise. A changed field takes the provided value; every other field keeps its value. |
| Items.UpdateItemFieldsEmpty | src/main/java/ru/practicum/shareit/item/model/mapper/ItemMapper.java:38-51 | An update that provides nothing returns the item unchanged. |
| Items.UpdateItemFieldsBlankAndFalse | gateway/src/main/java/ru/practicum/shareit/item/dto/ItemUpdateDto.java:17-27 | A whitespace-only name or description counts as absent. An explicit `false` availability counts as present and is applied. |
| Items.UpdateItemFieldsIdempotent | src/main/java/ru/practicum/shareit/item/model/mapper/ItemMapper.java:38-51 | Applying the same update twice gives the same item as applying it once. |
| Items.MatchesNarrowing | src/main/java/ru/practicum/shareit/item/storage/ItemStorageInMemory.java:45-53 | An item that a text matches is also matched by every substring of that text. |
| Items.MatchesEmptyText | src/main/java/ru/practicum/shareit/item/storage/ItemStorageInMemory.java:45-53 | The empty text matches exactly the available items, because every string contains "". |
| Bookings.IsStartBeforeEnd | server/src/main/java/ru/practicum/shareit/booking/model/dto/BookingCreateDto.java:28-31 | `isStartBeforeEnd` holds if and only if the end lies at least one time unit after the start, so never for equal instants. |
| Bookings.MapToBooking | server/src/main/java/ru/practicum/shareit/booking/mapper/BookingMapper.java:32-41 | The new booking copies start and end and takes the given item, the item's owner and the given booker. Its id is 0 and its status is null. |
| Bookings.MapToBookingDto | server/src/main/java/ru/practicum/shareit/booking/mapper/BookingMapper.java:18-30 | The view keeps id, start, end and status. Its item part is the item's id and name with the owner's name, and its booker part is the booker's view. |
| Bookings.ZeroLengthNotStartBeforeEnd | server/src/main/java/ru/practicum/shareit/booking/model/dto/BookingCreateDto.java:28-31 | When start equals end, `isStartBeforeEnd` is false. |
| BookingQueries.Selects | src/main/java/ru/practicum/shareit/booking/repository/BookingRepository.java:12-94 | Every WHERE clause confines a query to one user's bookings in its role: the booker queries select only that booker's bookings and the owner queries only bookings of that owner's items. The comment-eligibility query also fixes the item and requires end < date. |
| BookingQueries.Filter | src/main/java/ru/practicum/shareit/booking/repository/BookingRepository.java:12-94 | The WHERE clause keeps a booking if and only if the query selects it, and it keeps no booking more often than the input has it. |
| BookingQueries.SortByEndDesc | src/main/java/ru/practicum/shareit/booking/repository/BookingRepository.java:12-94 | ORDER BY end DESC gives ends that never increase, and the result is a permutation of the input. |
| BookingQueries.Run | src/main/java/ru/practicum/shareit/booking/repository/BookingRepository.java:12-94 | A query returns exactly the selected bookings of the store, sorted by end descending. Each appears at most as often as in the store, so a store without duplicates gives a result without duplicates. |
| BookingQueries.RunOverStoredNonEmpty | src/main/java/ru/practicum/shareit/booking/repository/BookingRepository.java:85-94 | A query over the stored bookings returns something if and only if some stored booking satisfies it. |
| BookingQueries.OwnerCurrentWithinFuture | src/main/java/ru/practicum/shareit/booking/repository/BookingRepository.java:63-75 | Every owner CURRENT result is also an owner FUTURE result. |
| BookingQueries.FutureAsymmetry | src/main/java/ru/practicum/shareit/booking/repository/BookingRepository.java:26-68 | Every booking with start < date <= end is FUTURE for its item's owner (end >= date) but not for its booker (start >= date). |
| BookingQueries.PastAndCurrentMeetAtEnd | src/main/java/ru/practicum/shareit/booking/repository/BookingRepository.java:19-75 | PAST and CURRENT both include their bounds. A booking is in both exactly when it has started and ends at the queried moment, for either role. |
| BookingQueries.LastBookingIsStrict | src/main/java/ru/practicum/shareit/booking/repository/BookingRepository.java:85-94 | A booking ending exactly now is PAST for its booker, but the comment-eligibility query does not select it (end < now). |
| BookingQueries.LastBookingResults | src/main/java/ru/practicum/shareit/booking/repository/BookingRepository.java:85-94 | Every result of the comment-eligibility query has the given booker and item and ended strictly before the given moment. |
| BookingService.BookerQuery | server/src/main/java/ru/practicum/shareit/booking/service/BookingServiceImpl.java:99-128 | For each state the booker's listing runs a booker query for that user, selecting exactly the user's bookings in that state: all, ended by now, starting from now, under way at now, WAITING, or REJECTED. |
| BookingService.OwnerQuery | server/src/main/java/ru/practicum/shareit/booking/service/BookingServiceImpl.java:142-171 | For each state the owner's listing runs an owner query for that user, selecting exactly the bookings of the user's items in that state. Here FUTURE means not yet ended. |
| BookingService.Views | server/src/main/java/ru/practicum/shareit/booking/service/BookingServiceImpl.java:101-103 | Mapping a result list to views keeps its length and order, one view per booking. |
| BookingService.Listing | server/src/main/java/ru/practicum/shareit/booking/service/BookingServiceImpl.java:97-131 | A listing is sorted by end descending, has no two views with the same id, and holds exactly the views of the stored bookings the query selects. |
| BookingService.QueriesSelectByRole | server/src/main/java/ru/practicum/shareit/booking/service/BookingServiceImpl.java:99-128 | For every state, the booker's query selects only that booker's bookings and the owner's query only bookings of that owner's items. |
| BookingService.BookerListingIsOwn | server/src/main/java/ru/practicum/shareit/booking/service/BookingServiceImpl.java:92-131 | Every view in a booker's listing names that booker. |
| BookingService.OwnerListingIsOwn | server/src/main/java/ru/practicum/shareit/booking/service/BookingServiceImpl.java:135-175 | Every view in an owner's listing is of an item the owner currently owns, and carries the owner's name. |
| BookingService.ListingStatus | server/src/main/java/ru/practicum/shareit/booking/service/BookingServiceImpl.java:120-124 | A listing by a status query shows only bookings with that status. |
| BookingService.BookingServiceImpl.CreateOutcome | server/src/main/java/ru/practicum/shareit/booking/service/BookingServiceImpl.java:44-62 | The checks run in a fixed order. An unknown booker or item gives NotFound. Otherwise an unavailable item gives NotAvailable. Otherwise start not before end gives BadRequestParam. Otherwise the result is the requested booking: WAITING, under the next id, owned by the item's owner. |
| BookingService.BookingServiceImpl.CreateBooking | server/src/main/java/ru/practicum/shareit/booking/service/BookingServiceImpl.java:44-63 | A failure leaves the store unchanged. A success adds exactly the booking CreateOutcome gives and returns its view. Referential integrity is preserved. |
| BookingService.BookingServiceImpl.DecisionOutcome | server/src/main/java/ru/practicum/shareit/booking/service/BookingServiceImpl.java:66-77 | An unknown booking gives NotFound. A caller who does not own the item gets NotAvailable. The decision succeeds if and only if the booking exists and the caller owns its item; the same booking then gets status APPROVED or REJECTED, whatever its current status. |
| BookingService.BookingServiceImpl.ItemOwnerBookingSolution | server/src/main/java/ru/practicum/shareit/booking/service/BookingServiceImpl.java:66-77 | A failure changes nothing. A success replaces only that booking, with only its status changed. |
| BookingService.BookingServiceImpl.GetBookingByIdAsWritten | server/src/main/java/ru/practicum/shareit/booking/service/BookingServiceImpl.java:80-89 | As written: an unknown booking gives NotFound, and a caller who is neither the booker nor the owner gets null. |
| BookingService.BookingServiceImpl.GetBookingById | server/src/main/java/ru/practicum/shareit/booking/service/BookingServiceImpl.java:80-89 | The view is returned if and only if the booking exists and the caller is its booker or its item's owner. Every other call gives NotFound. |
| BookingService.BookingServiceImpl.StrangerGetsNullAsWritten | server/src/main/java/ru/practicum/shareit/booking/service/BookingServiceImpl.java:84-88 | For a stranger, the code as written gives null and the intended version gives NotFound. |
| BookingService.BookingServiceImpl.GetBookingByIdAgreesForParties | server/src/main/java/ru/practicum/shareit/booking/service/BookingServiceImpl.java:84-88 | The two versions return the same view to the booker and the owner. They differ only where the corrected one reports NotFound. |
| BookingService.BookingServiceImpl.GetAllUserBookings | server/src/main/java/ru/practicum/shareit/booking/service/BookingServiceImpl.java:92-132 | NotFound if and only if the user is unknown. Otherwise the listing of the state's booker query, every view naming that booker. |
| BookingService.BookingServiceImpl.GetOwnerItemsBookings | server/src/main/java/ru/practicum/shareit/booking/service/BookingServiceImpl.java:135-175 | NotFound if and only if the user is unknown. Otherwise the listing of the state's owner query, every view of an item that user owns. |
| BookingService.BookingServiceImpl.ValidRequestNotRefusedForInterval | server/src/main/java/ru/practicum/shareit/booking/service/BookingServiceImpl.java:54-57 | A request that passes the start/end constraints is never refused with BadRequestParam. |
| BookingService.BookingServiceImpl.DecisionIgnoresCurrentStatus | server/src/main/java/ru/practicum/shareit/booking/service/BookingServiceImpl.java:73-74 | The owner's decision succeeds from any current status and sets the status it names. |
| BookingService.BookingServiceImpl.BookerCannotDecide | server/src/main/java/ru/practicum/shareit/booking/service/BookingServiceImpl.java:70-72 | A booker who does not own the item gets NotAvailable. |
| BookingService.BookingServiceImpl.StatusListingsIgnoreNow | server/src/main/java/ru/practicum/shareit/booking/service/BookingServiceImpl.java:120-124 | The WAITING and REJECTED listings are the same at every moment. |
| BookingService.BookingServiceImpl.StatusListingShowsStatus | server/src/main/java/ru/practicum/shareit/booking/service/BookingServiceImpl.java:120-124 | Every booking in a WAITING (REJECTED) listing has status WAITING (REJECTED), for both roles. |
| ItemService.MapToServerItemDto | server/src/test/java/ru/practicum/shareit/item/mapper/ItemMapperTest.java:37-46 | The server's view keeps id, name, description, availability, the owner's id and the item request the item answers. |
| ItemService.ItemServiceImpl.CreateItem | server/src/main/java/ru/practicum/shareit/item/service/ItemServiceImpl.java:55-68 | An unknown owner, or an item request that does not exist, gives NotFound and stores nothing. Otherwise the new item is stored under the next id, owned by the caller, with the item request attached, and the returned view carries that request id. |
| ItemService.ItemServiceImpl.UpdateItem | server/src/main/java/ru/practicum/shareit/item/service/ItemServiceImpl.java:72-88 | The user, the item and ownership are checked in that order, each failure giving NotFound with nothing saved. Otherwise only that item is replaced, by the partial update of it. |
| ItemService.ItemServiceImpl.GetItemById | server/src/main/java/ru/practicum/shareit/item/service/ItemServiceImpl.java:92-103 | NotFound if and only if the item is unknown. Otherwise the item's view with exactly the stored comments on it. |
| ItemService.ItemServiceImpl.GetUserItems | server/src/main/java/ru/practicum/shareit/item/service/ItemServiceImpl.java:107-114 | NotFound if and only if the user is unknown. Otherwise exactly the views of that user's items. |
| ItemService.ItemServiceImpl.GetSearchItems | server/src/main/java/ru/practicum/shareit/item/service/ItemServiceImpl.java:118-127 | A blank text gives nothing. Otherwise exactly the views of the available items matching the text, ignoring case. |
| ItemService.ItemServiceImpl.DeleteItemById | server/src/main/java/ru/practicum/shareit/item/service/ItemServiceImpl.java:130-142 | The item, the user and ownership are checked in that order, each failure giving NotFound. Only the owner removes the item, and nothing else changes. |
| ItemService.ItemServiceImpl.CreateComment | server/src/main/java/ru/practicum/shareit/item/service/ItemServiceImpl.java:146-169 | The item and then the user must exist (NotFound). BadRequestParam if and only if the user has no booking of the item that ended before now. Otherwise the comment is stored with that author, that item and created = now. |
| ItemService.ItemServiceImpl.LastBookings | server/src/main/java/ru/practicum/shareit/item/service/ItemServiceImpl.java:151-156 | The eligibility query's result is empty if and only if the user has no finished booking of the item. Every booking in it is the user's, so the branches after the booker check cannot be reached. |
| ItemService.ItemServiceImpl.RejectedBookingPermitsComment | server/src/main/java/ru/practicum/shareit/item/service/ItemServiceImpl.java:152-162 | The booking's status is never consulted: a REJECTED booking that has ended also permits a comment. |
| ItemService.ItemServiceImpl.OngoingBookingAloneForbidsComment | server/src/main/java/ru/practicum/shareit/item/service/ItemServiceImpl.java:152-156 | Bookings that have not yet ended do not permit a comment. |
| UserService.UserServiceImpl.CreateUser | server/src/main/java/ru/practicum/shareit/user/service/UserServiceImpl.java:31-41 | An email that is already stored gives AlreadyExists and nothing is saved. Otherwise a user with the request's name and email is stored under the next id. Emails stay unique. |
| UserService.UserServiceImpl.UpdateUser | server/src/main/java/ru/practicum/shareit/user/service/UserServiceImpl.java:45-60 | A provided email that any stored user holds gives AlreadyExists, checked first. Then an unknown id gives NotFound. Otherwise only that user is replaced by its partial update, its id kept. Emails stay unique. |
| UserService.UserServiceImpl.GetAllUsers | server/src/main/java/ru/practicum/shareit/user/service/UserServiceImpl.java:63-68 | Exactly the views of the stored users. |
| UserService.UserServiceImpl.GetUserById | server/src/main/java/ru/practicum/shareit/user/service/UserServiceImpl.java:71-76 | NotFound if and only if the user is unknown. Otherwise a view that maps back to the stored user. |
| UserService.UserServiceImpl.DeleteUserById | server/src/main/java/ru/practicum/shareit/user/service/UserServiceImpl.java:80-86 | An unknown id gives NotFound. Otherwise only that user is removed, and a later lookup gives NotFound. |
| UserService.UserServiceImpl.OwnEmailRefused | server/src/main/java/ru/practicum/shareit/user/service/UserServiceImpl.java:47-53 | Re-sending one's own current email counts as taken, so that update is refused. |
| UserService.UserServiceImpl.UpdateKeepsEmailsUnique | server/src/main/java/ru/practicum/shareit/user/service/UserServiceImpl.java:45-60 | An update that passes the email check leaves all emails distinct. |
| UserStorage.UserStorageInMemory.EmailValidation | src/main/java/ru/practicum/shareit/user/storage/UserStorageInMemory.java:51-57 | The scan reports AlreadyExists if and only if some stored user has the email. |
| UserStorage.UserStorageInMemory.CreateUser | src/main/java/ru/practicum/shareit/user/storage/UserStorageInMemory.java:16-23 | An email already stored gives AlreadyExists and adds nothing. Otherwise the user is stored under the counter, which then increments. Emails stay unique. |
| UserStorage.UserStorageInMemory.UpdateUser | src/main/java/ru/practicum/shareit/user/storage/UserStorageInMemory.java:25-34 | The email is checked only when it changes. On success only the stored user's name and email change, and emails stay unique. |
| UserStorage.UserStorageInMemory.GetAllUsers | src/main/java/ru/practicum/shareit/user/storage/UserStorageInMemory.java:36-39 | Exactly the stored users. |
| UserStorage.UserStorageInMemory.GetUserById | src/main/java/ru/practicum/shareit/user/storage/UserStorageInMemory.java:41-44 | The stored user with that id, or null if and only if the id is absent. |
| UserStorage.UserStorageInMemory.DeleteUserById | src/main/java/ru/practicum/shareit/user/storage/UserStorageInMemory.java:46-49 | Only that key is removed. |
| UserStorage.UserStorageInMemory.KeepingEmailAccepted | src/main/java/ru/practicum/shareit/user/storage/UserStorageInMemory.java:28-30 | An update that keeps the stored email is never refused. |
| UserStorage.UserStorageInMemory.NewIdIsFresh | src/main/java/ru/practicum/shareit/user/storage/UserStorageInMemory.java:13-23 | The counter is above every stored id, so each new id is distinct from every earlier one. |
| ItemStorage.ItemStorageInMemory.CreateItem | src/main/java/ru/practicum/shareit/item/storage/ItemStorageInMemory.java:16-22 | The item is stored under the counter, which then increments. |
| ItemStorage.ItemStorageInMemory.UpdateItem | src/main/java/ru/practicum/shareit/item/storage/ItemStorageInMemory.java:24-31 | Only the stored item's name, description and availability are overwritten. Its id, owner and request stay. |
| ItemStorage.ItemStorageInMemory.GetItemById | src/main/java/ru/practicum/shareit/item/storage/ItemStorageInMemory.java:33-36 | The stored item, or null if and only if the id is absent. |
| ItemStorage.ItemStorageInMemory.GetUserItems | src/main/java/ru/practicum/shareit/item/storage/ItemStorageInMemory.java:38-43 | Exactly the stored items of that owner. |
| ItemStorage.ItemStorageInMemory.GetSearchItems | src/main/java/ru/practicum/shareit/item/storage/ItemStorageInMemory.java:45-53 | Exactly the stored available items whose lower-cased name or description contains the lower-cased text. |
| ItemStorage.ItemStorageInMemory.DeleteItemById | src/main/java/ru/practicum/shareit/item/storage/ItemStorageInMemory.java:55-58 | Only that key is removed. |
| ItemStorage.ItemStorageInMemory.SearchNarrowing | src/main/java/ru/practicum/shareit/item/storage/ItemStorageInMemory.java:45-53 | A search for a substring of a text finds at least what the text finds. |
| ItemStorage.ItemStorageInMemory.SearchEmptyTextFindsAvailable | src/main/java/ru/practicum/shareit/item/storage/ItemStorageInMemory.java:45-53 | The storage's search for "" finds every available item. |
| InMemoryItemService.ItemServiceImpl.CreateItem | src/main/java/ru/practicum/shareit/item/service/ItemServiceImpl.java:28-38 | An unknown owner gives NotFound and leaves the storage unchanged. Otherwise the new item is owned by the caller, stored under the next id, and has no item request. |
| InMemoryItemService.ItemServiceImpl.UpdateItem | src/main/java/ru/practicum/shareit/item/service/ItemServiceImpl.java:41-62 | The user, the item and ownership are checked in that order, each failure giving NotFound with nothing changed. Otherwise only that item is replaced, by its partial update. |
| InMemoryItemService.ItemServiceImpl.GetItemById | src/main/java/ru/practicum/shareit/item/service/ItemServiceImpl.java:65-73 | NotFound if and only if the item is absent. Otherwise its view. |
| InMemoryItemService.ItemServiceImpl.GetUserItems | src/main/java/ru/practicum/shareit/item/service/ItemServiceImpl.java:76-85 | NotFound if and only if the user is absent. Otherwise exactly the views of that user's items. |
| InMemoryItemService.ItemServiceImpl.GetSearchItems | src/main/java/ru/practicum/shareit/item/service/ItemServiceImpl.java:88-97 | A blank text gives nothing. Otherwise exactly the views of the available items matching the text. |
| InMemoryItemService.ItemServiceImpl.DeleteItemById | src/main/java/ru/practicum/shareit/item/service/ItemServiceImpl.java:100-117 | The user, the item and ownership are checked in that order, each failure giving NotFound. Only the owner removes the item. |

## Left out

- HTTP layer: the controllers, the error handler, the gateway clients and the parsing of `State` from text. These are request plumbing; the model starts at the service calls.
- Wall-clock time: `LocalDateTime.now()` is the parameter `now`, and timestamps are integers on one clock.
- Concurrency and transactions: operations run one at a time. The rollback of a failed `@Transactional` operation appears as a failure that changes nothing.
- Database behaviour outside the queries: the foreign keys are stated as the invariant `Valid()`. Deletes do not model the database refusing to remove a row that is still referenced.
- `findByOwnerId` and `findAllByItemId` are derived queries whose code is generated. The model assumes their meaning from their names: the rows with that owner id, and the rows with that item id. Results whose order the source does not fix are modelled as sets: the server's `GetUserItems`, `GetSearchItems` and `UserService.UserServiceImpl.GetAllUsers`; `UserStorage.UserStorageInMemory.GetAllUsers`; `ItemStorage.ItemStorageInMemory.GetUserItems` and `GetSearchItems`; `InMemoryItemService.ItemServiceImpl.GetUserItems` and `GetSearchItems`. Their order is not modelled.
- ItemService.ItemServiceImpl.GetSearchItems: the query text of `findByText` is not part of this model. The contract assumes it keeps the available items whose name or description contains the text, ignoring case, which is the rule of `ItemStorageInMemory.getSearchItems`.
- Item requests, `CommentMapper` and `CommentDto`: a request is only an id that exists or not, and a comment is stored as its entity.
- Unicode: `toLowerCase` is modelled on ASCII letters only. `isBlank` uses the whitespace set of `Character.isWhitespace`.
- The `CANCELED` status of the old booking entity: no code produces it.
- A null `State` and the `default` branch of the listings: the six states are matched exhaustively, so that branch cannot be reached.
- Logging, and JSON serialisation of the transfer objects.
- Id overflow: the counters are unbounded integers, where the source uses 64-bit `long`.
- Bean Validation: the constraints on creation requests hold before the services run. Only the booking interval's constraints are stated, as `IsValidRequest`.
- Users.HasName / Users.HasEmail: modelled like `ItemUpdateDto`'s tests, so the value is present and not blank.
- ItemService.ItemServiceImpl.CreateItem: the source saves the item before it looks up the item request. After a rollback the database's id counter may have advanced, so ids can skip. The model checks the request first and keeps the counter.
- UserStorage.UserStorageInMemory: stored users are modelled as values. The source keeps the caller's object on create and hands out the stored objects themselves from `getUserById` and `getAllUsers`. A holder of such a reference can change a stored email without `emailValidation`, and passing that same object to `updateUser` then skips the check. Email uniqueness is proved only for changes made through the storage's own methods.
- UserStorage.UserStorageInMemory.UpdateUser: requires the id to be stored. For an absent id the source dereferences null (`NullPointerException`); that path is not modelled.
- ItemService.ServerItemDto: the server view's `lastBooking`, `nextBooking` and `comments` fields are not modelled as fields, because the service never sets the booking ones. `GetItemById` returns the comments beside the view.
- ItemService.ItemServiceImpl.CreateComment: the source's branches for an APPROVED booking by someone else and for an internal error are proved unreachable, not modelled.

## Findings

| source | as written | input that shows it | evidently intended | confidence | as-written member | corrected member |
|---|---|---|---|---|---|---|
| server/src/main/java/ru/practicum/shareit/booking/service/BookingServiceImpl.java:84-88 | A caller who is neither the booker nor the item's owner gets `null`, not an error. | Booking 1, owned by user 1 and booked by user 2, requested by user 100. | NotFound, as BookingServiceImplTest.java:179-188 expects. | not executed | BookingService.BookingServiceImpl.GetBookingByIdAsWritten | BookingService.BookingServiceImpl.GetBookingById |
