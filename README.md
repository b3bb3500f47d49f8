# shareit core in Dafny

A model of the core of the shareit item-rental back end. Users register,
list items, ask for items nobody offers yet (item requests), book other
users' items, and review items they have rented. The model covers:

- **Bookings.** Creating a booking request, the owner's approval or
  rejection, looking a booking up on behalf of its owner or booker, and a
  user's bookings listed by state (ALL, CURRENT, PAST, FUTURE, WAITING,
  REJECTED) and role (booker or owner). Each listing is one of the booking
  repository's queries: a filter over the booking table followed by
  `order by start` or `order by start, end`.
- **Items.** Creating and partially updating items. An item looked up with
  its last and next booking and its comments. The items that answer a
  request. A user's items. The rental search. Commenting on an item the
  user has finished renting.
- **Users.** Creating, updating, finding and deleting users, where e-mails
  are unique.
- **Item requests.** Creating a request, looking it up with its items, a
  user's own requests (newest first), and everybody else's requests.
- **The two in-memory repositories** of the first version of the
  program. Each is a class with a map field and an id counter that its
  methods update in place.

The relational store behind the services is `Database.Db`. It is a class
with one map per table and one identity counter per table. Its invariant
`Valid()` is the schema as the services rely on it:

- every id matches its key and is not above its table's counter;
- e-mails are unique;
- every stored booking has `start < end`;
- every booking and every comment refers to a stored item.

Saving a row is a `Db` method that preserves `Valid()`. Service methods
state their whole effect on the tables. Lookups and listings are
functions over the tables. A table scan returns rows in ascending id
order (`Common.Rows`). `ORDER BY` is a stable insertion sort over that
scan.

The current instant is always a parameter (`now`). Errors are the values
`NotFound`, `BadRequest`, `Conflict` and `NullPointer` of `Common.Error`,
in place of the exceptions the services throw.

Two points of the code shape what the model promises:

- `findByItemIdAndStartBeforeOrderByStart` orders by start ascending and
  declares a single result. The model therefore promises only some booking
  of the item that started before now − 30 s as its last booking.
- No code checks that the booker differs from the item's owner. The model
  does not either.

Every listing is a multiset statement as well as a membership one: in a
valid store each stored row that a listing selects appears in it exactly
once (`Common.RowsCount` and the `…Count` lemmas built on it).

## Model

| member | source | states |
|---|---|---|
| InMemoryUserStorage.UserStorage.constructor | src/main/java/ru/practicum/shareit/user/repository/InMemoryUserStorage.java:19-20 | The repository starts with no users and the counter at 0. |
| InMemoryUserStorage.UserStorage.ValidateUserEmail | src/main/java/ru/practicum/shareit/user/repository/InMemoryUserStorage.java:64-71 | The scan over the stored users fails with Conflict exactly when some stored user has the e-mail. Otherwise it passes. |
| InMemoryUserStorage.UserStorage.AddUser | src/main/java/ru/practicum/shareit/user/repository/InMemoryUserStorage.java:22-29 | A taken e-mail gives Conflict and changes nothing. Otherwise the counter advances by one, the user is stored under the new id (which no stored user had), and `GetUser` returns it. E-mails stay distinct. |
| InMemoryUserStorage.UserStorage.GetUser | src/main/java/ru/practicum/shareit/user/repository/InMemoryUserStorage.java:31-40 | Ok with the stored user exactly when the id is stored, NotFound otherwise. |
| InMemoryUserStorage.UserStorage.DeleteUser | src/main/java/ru/practicum/shareit/user/repository/InMemoryUserStorage.java:42-47 | NotFound exactly when the id is absent. Afterwards the id is absent and every other user is unchanged. |
| InMemoryUserStorage.UserStorage.UpdateUser | src/main/java/ru/practicum/shareit/user/repository/InMemoryUserStorage.java:49-62 | NotFound for an absent id. The new name is written first. A given e-mail that any stored user holds gives Conflict, and the new name stays written. Otherwise both fields are written. Re-sending one's own e-mail is always a Conflict. |
| InMemoryItemStorage.ItemStorage.constructor | src/main/java/ru/practicum/shareit/item/repository/InMemoryItemStorage.java:20-21 | The repository starts with no items and the counter at 0. |
| InMemoryItemStorage.ItemStorage.AddItem | src/main/java/ru/practicum/shareit/item/repository/InMemoryItemStorage.java:23-37 | The counter advances by one. The item is stored under an id above every stored id, owned by the caller. Its request link is the incoming id field. `GetItem` returns it. |
| InMemoryItemStorage.ItemStorage.GetItem | src/main/java/ru/practicum/shareit/item/repository/InMemoryItemStorage.java:39-47 | Ok with the stored item exactly when the id is stored, NotFound otherwise. |
| InMemoryItemStorage.ItemStorage.UpdateItem | src/main/java/ru/practicum/shareit/item/repository/InMemoryItemStorage.java:49-67 | An absent id fails (NullPointer) and changes nothing. For the owner, the item becomes the patched item. For anybody else, the call succeeds with the unchanged item. |
| InMemoryItemStorage.ItemStorage.GetAllItemsOfUser | src/main/java/ru/practicum/shareit/item/repository/InMemoryItemStorage.java:69-78 | Exactly the stored items that the user owns. |
| InMemoryItemStorage.ItemStorage.SearchItemsForRental | src/main/java/ru/practicum/shareit/item/repository/InMemoryItemStorage.java:80-96 | An absent or empty text gives nothing. Otherwise: exactly the available stored items whose name or description contains the text, ignoring case. |
| InMemoryItemStorage.ItemStorage.ItemsOfUserCount | src/main/java/ru/practicum/shareit/item/repository/InMemoryItemStorage.java:69-78 | In a valid repository, each stored item the user owns is listed exactly once, and no other item is listed. |
| InMemoryItemStorage.ItemStorage.SearchCount | src/main/java/ru/practicum/shareit/item/repository/InMemoryItemStorage.java:80-96 | In a valid repository, for a non-empty text, each available stored item that mentions the text is listed exactly once, and no other item is listed. |
| ItemCatalog.Patched | src/main/java/ru/practicum/shareit/item/repository/InMemoryItemStorage.java:52-62 | Each field given in the patch overwrites the stored one. An absent field keeps its value. Id, owner and request are kept. |
| ItemCatalog.SelectItems | src/main/java/ru/practicum/shareit/item/repository/ItemDbStorage.java:9-11 | A repository finder returns exactly the stored items that pass its filter. |
| ItemCatalog.FilterItemsCount | src/main/java/ru/practicum/shareit/item/repository/ItemDbStorage.java:9-11 | A finder's filter keeps every copy of a passing row and no copy of any other row. |
| ItemCatalog.SelectItemsCount | src/main/java/ru/practicum/shareit/item/repository/ItemDbStorage.java:9-11 | When every stored item carries its key as id, a finder lists each stored item that passes its filter exactly once, and nothing else. |
| Common.RowsCount | src/main/java/ru/practicum/shareit/item/repository/ItemDbStorage.java:8 | A scan of a table in which no two keys hold the same row lists each stored row exactly once, and nothing else. |
| ItemCatalog.RentalSearchIgnoresCase | src/main/java/ru/practicum/shareit/item/repository/InMemoryItemStorage.java:89-90 | The rental search gives the same rows for a text and for its lower-cased form. |
| ItemCatalog.DerivedQueryReturnsUnavailable | src/main/java/ru/practicum/shareit/item/repository/ItemDbStorage.java:11 | On a table holding only an unavailable item whose description is "saw", the derived query for "saw" returns that item, while the intended rental search returns nothing. |
| Database.StoredPeriodsNonEmpty | src/main/java/ru/practicum/shareit/booking/Service/BookingServiceImpl.java:47-54 | In a valid store, every stored booking has start < end. This is what the creation checks guarantee. |
| Database.StoredRequestsKeyed | src/main/java/ru/practicum/shareit/request/service/RequestServiceImpl.java:77-78 | In a valid store, every stored request is found again by its own id. |
| UserService.FindUserById | server/src/main/java/ru/practicum/shareit/user/service/UserServiceImpl.java:57-64 | Ok with the stored user exactly when the id is stored, NotFound otherwise. |
| UserService.CreateUser | server/src/main/java/ru/practicum/shareit/user/service/UserServiceImpl.java:22-35 | A stored e-mail gives Conflict and changes nothing. Otherwise the user is saved under a fresh next identity, and finding it by that id returns it. |
| UserService.Merged | server/src/main/java/ru/practicum/shareit/user/service/UserServiceImpl.java:42-45 | The id is kept. Each given field replaces the stored one. Each absent field keeps its value. |
| UserService.UpdateUser | server/src/main/java/ru/practicum/shareit/user/service/UserServiceImpl.java:37-55 | NotFound for an unknown id. Conflict, with nothing saved, exactly when another user holds the merged e-mail. Otherwise the merged user replaces the stored one. Keeping or re-sending one's own e-mail always succeeds. |
| UserService.DeleteUserById | server/src/main/java/ru/practicum/shareit/user/service/UserServiceImpl.java:66-73 | NotFound exactly when the id is absent. Afterwards the user is gone and no other user changed. |
| ItemService.FindItemById | src/main/java/ru/practicum/shareit/item/service/ItemServiceImpl.java:79-88 | Ok with the stored item exactly when the id is stored, NotFound otherwise. |
| ItemService.CreateItem | src/main/java/ru/practicum/shareit/item/service/ItemServiceImpl.java:47-61 | NotFound, with nothing saved, exactly when the caller is unknown or the named request is not stored. Otherwise the item is saved under a fresh identity, owned by the caller, and found again by its id. |
| ItemService.CommentsOfItem | src/main/java/ru/practicum/shareit/item/service/ItemServiceImpl.java:74 | Exactly the stored comments on the item. |
| ItemService.FilterCommentsCount | src/main/java/ru/practicum/shareit/item/service/ItemServiceImpl.java:74 | Filtering by item keeps every copy of a comment on the item and no copy of any other comment. |
| ItemService.CommentsOfItemCount | src/main/java/ru/practicum/shareit/item/service/ItemServiceImpl.java:74 | When every stored comment carries its key as id, each stored comment on the item is listed exactly once, and nothing else. |
| ItemService.FindItemDtoTimeById | src/main/java/ru/practicum/shareit/item/service/ItemServiceImpl.java:63-77 | NotFound exactly for an unknown item. The last booking is absent exactly when no booking of the item started before now − 30 s; otherwise it is such a stored booking. The next booking is absent exactly when none starts after now; otherwise it is such a booking. The comments are the `findByItemId` answer on the comment table; in a valid store that lists each of the item's stored comments exactly once, and nothing else. |
| ItemService.StoredCommentsOnce | src/main/java/ru/practicum/shareit/item/service/ItemServiceImpl.java:74 | In a valid store, the item's comment listing holds each stored comment on the item exactly once, and nothing else. |
| ItemService.LastBeforeNext | src/main/java/ru/practicum/shareit/item/service/ItemServiceImpl.java:70-71 | The last booking starts strictly before the next one, so the two are never the same booking. |
| ItemService.MarginIsNeither | src/main/java/ru/practicum/shareit/item/service/ItemServiceImpl.java:70-71 | A booking that starts between now − 30 s and now, inclusive, is neither a candidate for the last booking nor for the next one. |
| ItemService.FindItemByRequestId | src/main/java/ru/practicum/shareit/item/service/ItemServiceImpl.java:90-95 | Exactly the stored items whose request is the given one. |
| ItemService.ItemsByRequestCount | src/main/java/ru/practicum/shareit/item/service/ItemServiceImpl.java:90-95 | In a valid store, each stored item answering the request is listed exactly once, and nothing else. |
| ItemService.UpdateItem | src/main/java/ru/practicum/shareit/item/service/ItemServiceImpl.java:97-122 | NotFound for an unknown caller or item. Conflict for a caller who is not the owner. Errors save nothing. Otherwise the saved item is the patched item with its request link dropped. |
| ItemService.GetAllItemsOfUser | src/main/java/ru/practicum/shareit/item/service/ItemServiceImpl.java:124-133 | NotFound exactly for an unknown user. Otherwise exactly the stored items the user owns. |
| ItemService.ItemsOfUserCount | src/main/java/ru/practicum/shareit/item/service/ItemServiceImpl.java:124-133 | In a valid store, for a known user, each stored item the user owns is listed exactly once, and nothing else. |
| ItemService.SearchItemsForRentalAsWritten | src/main/java/ru/practicum/shareit/item/service/ItemServiceImpl.java:135-149 | The search as its derived query spells it. Nothing for an absent or empty text. Otherwise exactly the stored items that are available with the text in their name, plus every item with the text in its description. |
| ItemService.SearchItemsForRental | src/main/java/ru/practicum/shareit/item/service/ItemServiceImpl.java:135-149 | Nothing for an absent or empty text. Otherwise exactly the available stored items whose name or description contains the text, ignoring case. Every result is available. |
| ItemService.SearchCount | src/main/java/ru/practicum/shareit/item/service/ItemServiceImpl.java:135-149 | In a valid store, for a non-empty text, each available stored item that mentions the text is listed exactly once, and nothing else. |
| ItemService.FinishedBookingFound | src/main/java/ru/practicum/shareit/item/service/ItemServiceImpl.java:157-160 | The ended-bookings query finds something exactly when the user has a booking of the item that ended before the given instant, whatever its status. |
| ItemService.AddComment | src/main/java/ru/practicum/shareit/item/service/ItemServiceImpl.java:151-170 | NotFound for an unknown user or item. BadRequest when the user has no finished booking of the item. Errors save nothing. Otherwise the comment, dated now, is saved under a fresh identity. |
| BookingDbStorage.FilterBookings | server/src/main/java/ru/practicum/shareit/booking/repository/BookingDbStorage.java:16-23 | The `where` clause: exactly the rows that match, never more rows than were scanned. |
| BookingDbStorage.Insert | server/src/main/java/ru/practicum/shareit/booking/repository/BookingDbStorage.java:21 | Inserting into a sorted list keeps it sorted, with exactly one more element. |
| BookingDbStorage.InsertPermutes | server/src/main/java/ru/practicum/shareit/booking/repository/BookingDbStorage.java:21 | Insertion adds exactly the new element. |
| BookingDbStorage.SortBookings | server/src/main/java/ru/practicum/shareit/booking/repository/BookingDbStorage.java:21 | `order by`: the result is sorted by the order and has the same length and elements. |
| BookingDbStorage.SortPermutes | server/src/main/java/ru/practicum/shareit/booking/repository/BookingDbStorage.java:21 | Sorting is a permutation. |
| BookingDbStorage.Query | server/src/main/java/ru/practicum/shareit/booking/repository/BookingDbStorage.java:11-71 | A query returns exactly the stored bookings that match its selector and condition, sorted by its order. |
| BookingDbStorage.QueryPermutes | server/src/main/java/ru/practicum/shareit/booking/repository/BookingDbStorage.java:11-71 | A query returns each matching row of the scan exactly once. |
| BookingDbStorage.QueryCount | server/src/main/java/ru/practicum/shareit/booking/repository/BookingDbStorage.java:11-71 | When every stored booking carries its key as id, a query lists each matching stored booking exactly once, and nothing else. |
| BookingDbStorage.FindOne | server/src/main/java/ru/practicum/shareit/booking/repository/BookingDbStorage.java:73-75 | The single-result finders give nothing exactly when no stored booking matches. Otherwise they give a stored booking that matches. |
| BookingDbStorage.FindEnded | server/src/main/java/ru/practicum/shareit/booking/repository/BookingDbStorage.java:77 | Exactly the stored bookings of that item by that booker that ended before the instant. |
| BookingDbStorage.OneWindow | server/src/main/java/ru/practicum/shareit/booking/repository/BookingDbStorage.java:16-39 | A booking with start < end satisfies exactly one of the CURRENT, PAST and FUTURE conditions. |
| BookingDbStorage.FilterCount | server/src/main/java/ru/practicum/shareit/booking/repository/BookingDbStorage.java:16-39 | A filter keeps every copy of a matching row and no copy of any other row. |
| BookingDbStorage.WindowCounts | server/src/main/java/ru/practicum/shareit/booking/repository/BookingDbStorage.java:16-39 | One row's copies in the three window filters add up to its copies in the unrestricted filter. |
| BookingDbStorage.FilterPartition | server/src/main/java/ru/practicum/shareit/booking/repository/BookingDbStorage.java:16-39 | Over rows with start < end, the three window filters split the unrestricted filter, as multisets. |
| BookingDbStorage.TemporalPartition | server/src/main/java/ru/practicum/shareit/booking/repository/BookingDbStorage.java:12-71 | When every stored period is non-empty, the CURRENT, PAST and FUTURE queries of a booker or owner together return exactly what the ALL query returns, each booking once. |
| BookingDbStorage.ExactlyOneWindow | server/src/main/java/ru/practicum/shareit/booking/repository/BookingDbStorage.java:12-71 | A booking with start < end that the ALL query returns is in exactly one of the CURRENT, PAST and FUTURE answers. |
| BookingService.CreateBooking | src/main/java/ru/practicum/shareit/booking/Service/BookingServiceImpl.java:37-65 | NotFound for an unknown user or item. BadRequest for an unavailable item or for end ≤ start. Errors save nothing. Otherwise a WAITING booking is saved under a fresh identity. |
| BookingService.GetBooking | src/main/java/ru/practicum/shareit/booking/Service/BookingServiceImpl.java:67-78 | Ok with the stored booking exactly when the id is stored, NotFound otherwise. |
| BookingService.UpdateBookingApprove | src/main/java/ru/practicum/shareit/booking/Service/BookingServiceImpl.java:80-103 | BadRequest for an unknown user. NotFound for an unknown booking. BadRequest for anybody but the item's owner. Errors save nothing. Otherwise only the status changes, to APPROVED or REJECTED, whatever it was before. |
| BookingService.GetBookingDtoById | src/main/java/ru/practicum/shareit/booking/Service/BookingServiceImpl.java:105-119 | Ok, with the stored booking, exactly when user and booking exist and the user owns the item or made the booking. NotFound for an unknown user or booking. BadRequest otherwise. |
| BookingService.GetAllBookingsFromUser | src/main/java/ru/practicum/shareit/booking/Service/BookingServiceImpl.java:121-161 | NotFound for an unknown user. Conflict when no role is given. Otherwise exactly the stored bookings that concern the user in the role and are in the state at `now`, sorted by the state's order. |
| BookingService.ListingMatches | src/main/java/ru/practicum/shareit/booking/Service/BookingServiceImpl.java:126-155 | The repository query chosen for each role and state selects exactly the bookings that concern the user in that role and are in that state. |
| BookingService.ListingIsQuery | src/main/java/ru/practicum/shareit/booking/Service/BookingServiceImpl.java:126-155 | For a known user and a given role, the listing is the repository query of that role and state. |
| BookingService.ListingCount | src/main/java/ru/practicum/shareit/booking/Service/BookingServiceImpl.java:126-155 | In a valid store, for a known user and a given role, each stored booking that concerns the user in that role and is in the state is listed exactly once, and nothing else. |
| BookingService.StatesPartition | src/main/java/ru/practicum/shareit/booking/Service/BookingServiceImpl.java:126-155 | In a valid store, for either role, the CURRENT, PAST and FUTURE listings together are the ALL listing, each booking exactly once. |
| RequestService.FilterRequests | server/src/main/java/ru/practicum/shareit/request/repository/RequestDbStorage.java:10-12 | Exactly the rows of the given requester, or of every other requester, never more rows than were scanned. |
| RequestService.FilterSplit | server/src/main/java/ru/practicum/shareit/request/repository/RequestDbStorage.java:10-12 | A user's rows and everybody else's rows split the scan, as multisets. |
| RequestService.InsertByCreated | server/src/main/java/ru/practicum/shareit/request/repository/RequestDbStorage.java:10 | Inserting into a newest-first list keeps it newest first, with exactly one more element. |
| RequestService.InsertByCreatedPermutes | server/src/main/java/ru/practicum/shareit/request/repository/RequestDbStorage.java:10 | Insertion adds exactly the new element. |
| RequestService.SortNewestFirst | server/src/main/java/ru/practicum/shareit/request/repository/RequestDbStorage.java:10 | `order by created desc`: same length and elements, no request older than a later one. |
| RequestService.SortNewestFirstPermutes | server/src/main/java/ru/practicum/shareit/request/repository/RequestDbStorage.java:10 | Sorting is a permutation. |
| RequestService.RequestsByRequester | server/src/main/java/ru/practicum/shareit/request/repository/RequestDbStorage.java:10 | Exactly the stored requests of the user, newest first. |
| RequestService.RequestsNotByRequester | server/src/main/java/ru/practicum/shareit/request/repository/RequestDbStorage.java:12 | Exactly the stored requests of every other user. |
| RequestService.QueriesSplitTable | server/src/main/java/ru/practicum/shareit/request/repository/RequestDbStorage.java:10-12 | The two queries together return the table scan, each request once. |
| RequestService.CreateRequest | src/main/java/ru/practicum/shareit/request/service/RequestServiceImpl.java:35-48 | NotFound, with nothing saved, for an unknown user. Otherwise the request, dated now and made by the user, is saved under a fresh identity. |
| RequestService.GetRequestById | src/main/java/ru/practicum/shareit/request/service/RequestServiceImpl.java:50-57 | Ok with the stored request exactly when the id is stored, NotFound otherwise. |
| RequestService.GetRequestDtoWithItem | src/main/java/ru/practicum/shareit/request/service/RequestServiceImpl.java:59-70 | NotFound exactly when the user or the request is unknown. The caller need not be the requester. Otherwise the stored request, with exactly the stored items that answer it. |
| RequestService.ExpandRequests | src/main/java/ru/practicum/shareit/request/service/RequestServiceImpl.java:77-79 | Each request is looked up again by its id, in the same order, paired with the items that answer it. |
| RequestService.ExpandedRequests | src/main/java/ru/practicum/shareit/request/service/RequestServiceImpl.java:77-79 | The expansion keeps the requests and their order, and pairs each with exactly the stored items that answer it. |
| RequestService.GetRequestsByUserId | src/main/java/ru/practicum/shareit/request/service/RequestServiceImpl.java:72-80 | NotFound exactly for an unknown user. Otherwise exactly the user's stored requests, newest first, each with exactly the items that answer it. |
| RequestService.GetAllRequests | src/main/java/ru/practicum/shareit/request/service/RequestServiceImpl.java:82-88 | NotFound exactly for an unknown user. Otherwise exactly the stored requests of every other user. |
| RequestService.OwnAndOthersRequests | src/main/java/ru/practicum/shareit/request/service/RequestServiceImpl.java:72-88 | For a known user, the user's own requests and everybody else's requests together are the request table, each request once. |
| RequestService.RequestListingsCount | src/main/java/ru/practicum/shareit/request/service/RequestServiceImpl.java:72-88 | In a valid store, for a known user, each stored request of the user is listed exactly once among the own requests, and each other stored request exactly once among everybody else's. |

## Left out

- Mapping to DTOs and their nesting (owner, booker and item objects, the
  comment's author name). Results are the stored rows.
- The controllers, the gateway, its validation annotations, pagination
  and HTTP status mapping.
- Logging, time zones and the clock. The current instant is a parameter.
  Instants are integers, so the 30-second margin is `30 * Second`.
- Transactions and concurrency. Every call runs alone against the store.
  A refused unique-key write leaves the table unchanged.
- Identity values used up by failed inserts. The store's counter advances
  only on a successful insert.
- Referential integrity on deleting a user: other rows that name the user
  are not checked.
- Lower-casing is ASCII only. Blank texts count as non-empty; only the
  empty text is treated as absent.
- `ItemMapper.toItem` is not part of this model. The model assumes it
  leaves the request link unset, so a service update of an item drops that
  link, and an id sent with a new item is not used.
- `ItemMapper.toItemDto` is not part of this model. The model assumes it
  maps an absent item (null) to null. That is what makes
  `InMemoryItemStorage.ItemStorage.GetItem` report NotFound for an absent
  id.
- The order of rows with equal sort keys. Ties stay in scan order, which is
  ascending id. Queries without `order by` return scan order.
- BookingDbStorage.FindOne: does not say which matching booking a
  single-result finder returns. Nor does it model the error such a finder
  raises when more than one row matches.
- ItemService.FindItemDtoTimeById: the last and next bookings are some
  matching bookings, for the same reason as FindOne.
- The earlier revisions of the item service, the user service and the
  booking repository, which the live wiring no longer uses, are not part
  of this model.

## Findings

| source | as written | input that shows it | evidently intended | confidence | as-written member | corrected member |
|---|---|---|---|---|---|---|
| src/main/java/ru/practicum/shareit/item/repository/ItemDbStorage.java:11 | The derived query `findItemByAvailableIsTrueAndNameContainsIgnoreCaseOrDescriptionContainsIgnoreCase` parses as (available and name contains text) or (description contains text). An unavailable item whose description matches is returned. | The single item `rake`, unavailable, with description "saw", searched for "saw" | Only available items, whose name or description contains the text. The in-memory search does this. | medium, not executed | ItemService.SearchItemsForRentalAsWritten, ItemCatalog.DerivedQueryReturnsUnavailable | ItemService.SearchItemsForRental |
