# shareit core in Dafny

This project models the core of *shareit*, a service where users lend items to each other. It covers:

- **Booking lifecycle.** `create` checks the booking window, the booker, the item and its owner, availability, and a clash with an approved booking. It then stores a WAITING booking. `approve` lets the item's owner decide a WAITING booking once.
- **Booking queries.** `getStatusById` returns one booking to its booker or owner. `getBookings` is the paged listing by role (BOOKER or OWNER) and state (ALL, CURRENT, PAST, FUTURE, WAITING, REJECTED).
- **`BookingState.parse`** as used by the gateway.
- **Items.** Update and delete guards, item details with comments, the case-insensitive search, the owner's paged listing with last and next approved booking and comments per item, and adding a comment after a finished booking.
- **Item requests.** One request with its answers, the user's own requests, and the paged listing of other users' requests.
- **User service.** Create and update guard chains, plus the mapper's `patch`.
- **In-memory repositories.** Bookings, items, requests and users, each a hash map and an id counter.

The model is organised as follows:

- **Instants** are integers, and the current time is a parameter.
- **Pure and mutating code.**
  - Service guard chains are pure functions returning a `Result`. Every error carries the source's exception kind and message.
  - Services that write to a table are classes. Their methods run the guard function and then change their fields.
- **JPA tables** are sequences of rows in storage order. A paged query filters, sorts stably and cuts out page `from / size`.
  - Java's integer division is written out: it truncates toward zero, and `from` and `size` are 32-bit `int`s, so `Integer.MIN_VALUE / -1` wraps.
  - A size of zero fails with the `/ by zero` arithmetic error.
- **In-memory repositories** are classes holding a `map<int, T>` and a counter.
- **Users** are objects. `findById` and `findAll` hand out copies, and `UserMapper.patch` changes a user in place.

Modules:

| module | models |
|---|---|
| `Shared` | Option, Result, error kinds, Java `/` and `%` |
| `Text` | `isBlank`, `hasText`, `trim`, ASCII case mapping, `contains` |
| `Seqs` | filter, stable sort, grouping |
| `MapSelect` | hash-map selection |
| `Paging` | `PageRequest.of(from / size, size)` and page content |
| `Domain` | the entities |
| `States` | `BookingState` |
| `BookingQueries` | the derived and native booking queries of `BookingRepository` |
| `BookingStore` | `BookingRepositoryImpl` |
| `BookingService` | `BookingServiceImpl` |
| `ItemStore` | `ItemRepositoryImpl` |
| `ItemService` | `ItemServiceImp` |
| `RequestStore` | `RequestRepositoryImpl` |
| `ItemRequestService` | `ItemRequestServiceImpl` |
| `Users` | `User` and `UserMapper` |
| `UserStore` | `UserRepositoryImpl` |
| `UserService` | `UserServiceImp` |

There are two places where the code evidently does not do what its authors meant: the booking conflict test and the update email test. Both are modelled twice, `AsWritten` and `Corrected` (see "Findings"). The service classes run the corrected tests. Under those tests, the booking service keeps the approved bookings of each item pairwise disjoint, and the user service keeps emails unique.

## Model

| member | source | states |
|---|---|---|
| Text.HasTextIsNotNullOrBlank | server/src/main/java/ru/practicum/shareit/item/service/ItemServiceImp.java:90 | `hasText` holds exactly when the text is neither null nor blank, so the search guard and the comment guard agree |
| Text.Trim | gateway/src/main/java/ru/practicum/shareit/booking/enums/BookingState.java:18 | `trim` returns the slice between the leading and trailing characters `<= ' '`, and the slice starts and ends with characters above `' '` |
| Text.TrimIdempotent | gateway/src/main/java/ru/practicum/shareit/booking/enums/BookingState.java:18 | trimming twice is trimming once |
| Text.Upper | gateway/src/main/java/ru/practicum/shareit/booking/enums/BookingState.java:18 | `toUpperCase` maps every character and keeps the length |
| Text.Lower | src/main/java/ru/practicum/shareit/item/repository/ItemRepositoryImpl.java:40 | `toLowerCase` maps every character and keeps the length |
| Text.Contains | src/main/java/ru/practicum/shareit/item/repository/ItemRepositoryImpl.java:56 | `contains` holds exactly when the query occurs at some position |
| Seqs.Filter | src/main/java/ru/practicum/shareit/booking/repository/BookingRepository.java:31-49 | a `where` clause keeps exactly the rows meeting it, with their multiplicities |
| Seqs.SortBy | src/main/java/ru/practicum/shareit/booking/repository/BookingRepository.java:31-49 | an `order by` yields a sorted permutation of its input |
| Seqs.GroupByMeaning | server/src/main/java/ru/practicum/shareit/item/service/ItemServiceImp.java:134-136 | `groupingBy` has a group for a key exactly when some element has that key, and the group lists those elements in order |
| Seqs.WithKeyOfFilter | server/src/main/java/ru/practicum/shareit/request/service/ItemRequestServiceImpl.java:80-82 | grouping the result of a query by key gives, per key, the rows meeting both the query and the key |
| Seqs.Ascending | src/main/java/ru/practicum/shareit/booking/repository/BookingRepository.java:52-62 | the ids of an `in` list, distinct and in increasing order, with the same members |
| Seqs.FindBy | src/main/java/ru/practicum/shareit/booking/service/BookingServiceImpl.java:66-67 | `findById` on a table gives the first row whose primary key is the id, and nothing exactly when no row has it |
| Seqs.Keys | server/src/main/java/ru/practicum/shareit/item/service/ItemServiceImp.java:115-117 | the ids handed to an `in` query are exactly the non-null ids of the rows |
| Shared.JavaDiv | src/main/java/ru/practicum/shareit/booking/service/BookingServiceImpl.java:102 | Java's `/` truncates toward zero: quotient times divisor plus a remainder with the dividend's sign gives the dividend; for a positive divisor the quotient is non-negative exactly when the dividend exceeds minus the divisor |
| Shared.IntDiv | src/main/java/ru/practicum/shareit/booking/service/BookingServiceImpl.java:102 | Java `int` division: the truncated quotient modulo 2^32, equal to it except for `Integer.MIN_VALUE / -1`, which wraps to `Integer.MIN_VALUE` |
| Paging.Of | src/main/java/ru/practicum/shareit/booking/service/BookingServiceImpl.java:102-103 | `PageRequest.of` accepts exactly a page index of at least zero and a size of at least one; a negative index fails with "Page index must not be less than zero", otherwise a size below one with "Page size must not be less than one" |
| Paging.FromOffset | src/main/java/ru/practicum/shareit/booking/service/BookingServiceImpl.java:102-103 | page `from / size` with Java `int` division: size zero fails with `/ by zero`; a negative quotient fails on the index and a negative size then fails on the size; the request succeeds exactly when `size > 0` and `from > -size`; for `from >= 0` it is the page holding row `from` |
| Paging.MinValueOverMinusOne | src/main/java/ru/practicum/shareit/booking/service/BookingServiceImpl.java:102 | `from = Integer.MIN_VALUE`, `size = -1` wraps to a negative page index and fails on the index; the unwrapped quotient would have failed on the size instead |
| Paging.OffsetRoundsDownToPage | src/main/java/ru/practicum/shareit/booking/service/BookingServiceImpl.java:102 | any offset inside page `p` selects page `p` |
| Paging.SmallNegativeOffsetIsFirstPage | src/main/java/ru/practicum/shareit/booking/service/BookingServiceImpl.java:102 | because Java division truncates, an offset in `(-size, 0)` selects page 0 rather than failing |
| Paging.Content | src/main/java/ru/practicum/shareit/booking/service/BookingServiceImpl.java:102-103 | page content is exactly the rows of the ordered result from `page * size`, at most `size` of them, cut at the end |
| Paging.PageOfRow | src/main/java/ru/practicum/shareit/booking/service/BookingServiceImpl.java:102 | page `k / size` is the page of `size` rows whose span holds row `k` |
| Paging.PageOf | src/main/java/ru/practicum/shareit/booking/service/BookingServiceImpl.java:102-103 | row `k` appears on the page that holds it, at its distance from the page's start |
| States.ValueOf | gateway/src/main/java/ru/practicum/shareit/booking/enums/BookingState.java:20 | `valueOf` finds the constant whose name is exactly the string, or reports that none has it |
| States.Parse | gateway/src/main/java/ru/practicum/shareit/booking/enums/BookingState.java:16-24 | null parses as ALL; otherwise parsing succeeds exactly when the trimmed, upper-cased text names a state, and the error message quotes the raw input |
| States.ParseName | gateway/src/main/java/ru/practicum/shareit/booking/enums/BookingState.java:16-24 | every state parses back from its own name |
| States.ParseLenient | gateway/src/main/java/ru/practicum/shareit/booking/enums/BookingState.java:18-20 | surrounding blanks and letter case do not matter |
| States.TrimAround | gateway/src/main/java/ru/practicum/shareit/booking/enums/BookingState.java:18 | trimming removes exactly the blank prefix and suffix around a non-blank body |
| States.ParseUnknown | gateway/src/main/java/ru/practicum/shareit/booking/enums/BookingState.java:21-22 | any text that names no state fails with `Unknown state: ` and the text |
| BookingQueries.Selection | src/main/java/ru/practicum/shareit/booking/repository/BookingRepository.java:31-49 | a booker or owner query returns exactly the matching rows, latest start first |
| BookingQueries.FindPage | src/main/java/ru/practicum/shareit/booking/repository/BookingRepository.java:31-49 | a paged derived query returns exactly page `p` of the selection: its rows are the selection's rows from `page * size` on, at most `size` of them, each a matching row of the table, latest start first |
| BookingQueries.About | src/main/java/ru/practicum/shareit/booking/repository/BookingRepository.java:31-49 | `findByBooker_Id…` matches rows whose booker has the id; `findByItem_Owner_Id…` rows whose item's owner has it |
| BookingQueries.Meets | src/main/java/ru/practicum/shareit/booking/repository/BookingRepository.java:31-49 | the rest of a derived name: `StartBeforeAndEndAfter(t1, t2)` is `start < t1 && end > t2`, `EndBefore(t)` is `end < t`, `StartAfter(t)` is `start > t`, `Status(s)` is an equal status; `Before`/`After` are strict |
| BookingQueries.OnItsPage | src/main/java/ru/practicum/shareit/booking/repository/BookingRepository.java:31-49 | every selected row appears on the page that holds its rank, at its distance from the page's start |
| BookingQueries.ExistsStartLessEndGreater | src/main/java/ru/practicum/shareit/booking/repository/BookingRepository.java:16-17 | the derived `exists` query holds exactly when a row of the item and status starts strictly before the first bound and ends strictly after the second |
| BookingQueries.ExistsFinished | src/main/java/ru/practicum/shareit/booking/repository/BookingRepository.java:77-78 | holds exactly when the booker has a booking of the item with the status that ended before the instant |
| BookingQueries.FindDetailedById | src/main/java/ru/practicum/shareit/booking/repository/BookingRepository.java:21-28 | the inner joins find the row only when its booker, item and item owner are present |
| BookingQueries.Pick | src/main/java/ru/practicum/shareit/booking/repository/BookingRepository.java:52-74 | `distinct on (id_item)` keeps a best-ranked candidate: latest end among approved bookings started before now (last), earliest start among those starting after now (next), or none when there is no candidate |
| BookingQueries.FindEdge | src/main/java/ru/practicum/shareit/booking/repository/BookingRepository.java:52-74 | the native query returns one picked booking per listed item that has one, ordered by item id |
| BookingStore.OverlapsSymmetric | src/main/java/ru/practicum/shareit/booking/repository/BookingRepositoryImpl.java:58-62 | overlap is symmetric |
| BookingStore.TouchingDoNotOverlap | src/main/java/ru/practicum/shareit/booking/repository/BookingRepositoryImpl.java:58-62 | a booking ending when another starts does not overlap it (strict `isBefore`) |
| BookingStore.OverlapsIffCommonInstant | src/main/java/ru/practicum/shareit/booking/repository/BookingRepositoryImpl.java:58-62 | two non-empty half-open periods overlap exactly when they share an instant |
| BookingStore.Store.Create | src/main/java/ru/practicum/shareit/booking/repository/BookingRepositoryImpl.java:18-24 | a booking without an id takes the counter value and the counter advances; the booking is stored under its id and the other entries stay |
| BookingStore.Store.FindById | src/main/java/ru/practicum/shareit/booking/repository/BookingRepositoryImpl.java:27-30 | returns the stored booking under the id, or empty |
| BookingStore.Store.FindAllByBookerId | src/main/java/ru/practicum/shareit/booking/repository/BookingRepositoryImpl.java:33-38 | returns exactly the booker's bookings, each once, sorted by start |
| BookingStore.Store.FindAllOwnerId | src/main/java/ru/practicum/shareit/booking/repository/BookingRepositoryImpl.java:41-48 | returns exactly the bookings of the owner's items, each once, sorted by start |
| BookingStore.Store.HasApprovedOverlap | src/main/java/ru/practicum/shareit/booking/repository/BookingRepositoryImpl.java:51-56 | holds exactly when an approved booking of the item overlaps the period |
| MapSelect.SelectSorted | src/main/java/ru/practicum/shareit/booking/repository/BookingRepositoryImpl.java:33-38 | `values().stream().filter(p).sorted(key)` yields a sorted sequence holding each matching value once per key |
| MapSelect.AnyValue | src/main/java/ru/practicum/shareit/user/repository/UserRepositoryImpl.java:46-51 | `anyMatch` over the values holds exactly when some value matches |
| BookingService.CreateCheck | src/main/java/ru/practicum/shareit/booking/service/BookingServiceImpl.java:36-62 | creation succeeds exactly when start is before end, start is not before now, the booker and item exist, the item has an owner other than the booker, it is available and the conflict test fails; the result is a new WAITING booking of that item by that booker; once every other guard passes, a conflict fails with IllegalState "overlaps with approved booking" |
| BookingService.CreateChecksWindowFirst | src/main/java/ru/practicum/shareit/booking/service/BookingServiceImpl.java:37-39 | an empty or inverted window is refused before anything else is looked at |
| BookingService.CreateStartAtNow | src/main/java/ru/practicum/shareit/booking/service/BookingServiceImpl.java:40-42 | a start in the past is refused; a start exactly at now is not |
| BookingService.CreateGuardOrder | src/main/java/ru/practicum/shareit/booking/service/BookingServiceImpl.java:43-53 | the lookups and item guards fail in source order, each with its own exception and message |
| BookingService.ConflictAsWrittenMeansEnclosing | src/main/java/ru/practicum/shareit/booking/service/BookingServiceImpl.java:54 | the conflict query as called catches only an approved booking that strictly encloses the new one |
| BookingService.ConflictIntendedMeansOverlap | src/main/java/ru/practicum/shareit/booking/service/BookingServiceImpl.java:54 | with the bounds swapped, the query catches exactly an approved booking of the item overlapping the new one |
| BookingService.ConflictAsWrittenMissesOverlap | src/main/java/ru/practicum/shareit/booking/service/BookingServiceImpl.java:54 | a partly overlapping approved booking passes the conflict test as written, and the corrected test catches it |
| BookingService.DecideCheck | src/main/java/ru/practicum/shareit/booking/service/BookingServiceImpl.java:69-81 | only the owner may decide ("only owner can approve"), and only a WAITING booking ("already decided"); rejecting then always succeeds; approving succeeds exactly when there is no conflict, and a conflict fails with "overlaps with approved booking"; the result is the booking with its new status |
| BookingService.ApproveCheck | src/main/java/ru/practicum/shareit/booking/service/BookingServiceImpl.java:65-83 | a missing booking is `booking not found`; otherwise the decision on the stored booking |
| BookingService.Replace | src/main/java/ru/practicum/shareit/booking/service/BookingServiceImpl.java:82 | `save` of a booking with an id replaces the row with that id and keeps every other row in place |
| BookingService.FindReplaced | src/main/java/ru/practicum/shareit/booking/service/BookingServiceImpl.java:82 | after the save, looking the id up finds the decided booking |
| BookingService.DecideOnce | src/main/java/ru/practicum/shareit/booking/service/BookingServiceImpl.java:72-73 | once decided, a booking cannot be decided again by anyone |
| BookingService.DecideCorrectedKeepsDisjoint | src/main/java/ru/practicum/shareit/booking/service/BookingServiceImpl.java:75-82 | with the corrected conflict test, a decision keeps the approved bookings of every item pairwise non-overlapping |
| BookingService.DecideAsWrittenBreaksDisjoint | src/main/java/ru/practicum/shareit/booking/service/BookingServiceImpl.java:76 | as written, approving a booking that partly overlaps an approved one succeeds and leaves two overlapping approved bookings; the corrected test refuses it |
| BookingService.StatusCheck | src/main/java/ru/practicum/shareit/booking/service/BookingServiceImpl.java:86-95 | the detailed booking is returned exactly when it exists and the caller is its item's owner or its booker; a missing booking is NotFound "Бронирование не найдено", and anyone else gets IllegalState "Нет доступа к этому бронированию" |
| BookingService.Dispatch | src/main/java/ru/practicum/shareit/booking/service/BookingServiceImpl.java:105-122 | the query run for a role and a state selects exactly the bookings the role covers (booked by the user, or of the user's items) that are in the state at `now`: CURRENT started before and ends after, PAST ended before, FUTURE starts after, WAITING and REJECTED by status, ALL every one |
| BookingService.DispatchInjective | src/main/java/ru/practicum/shareit/booking/service/BookingServiceImpl.java:105-122 | every (role, state) pair runs its own query |
| BookingService.StatesPartitionTime | src/main/java/ru/practicum/shareit/booking/service/BookingServiceImpl.java:108-110 | CURRENT, PAST and FUTURE are mutually exclusive, and a booking is in none of them exactly when now equals its start or its end |
| BookingService.BookingsCheck | src/main/java/ru/practicum/shareit/booking/service/BookingServiceImpl.java:98-128 | an unknown user is `user not found`; an invalid page fails with the paging error; otherwise exactly page `from / size` of the dispatched query's selection: bookings of the role and in the state, latest start first, at most `size` |
| BookingService.Service.Create | src/main/java/ru/practicum/shareit/booking/service/BookingServiceImpl.java:36-62 | on success exactly one WAITING booking is appended under the next id; on failure nothing changes; unique ids and disjoint approved bookings are kept |
| BookingService.Service.Approve | src/main/java/ru/practicum/shareit/booking/service/BookingServiceImpl.java:65-83 | the decision's result; on success only that row changes; the table invariant, including disjoint approved bookings, is kept |
| BookingService.Service.GetStatusById | src/main/java/ru/practicum/shareit/booking/service/BookingServiceImpl.java:86-95 | the result is the status check on the current table: the booking is returned exactly to its booker or its item's owner |
| BookingService.Service.GetBookings | src/main/java/ru/practicum/shareit/booking/service/BookingServiceImpl.java:98-128 | returns the paged listing of the current table, which is `BookingsCheck`'s page |
| ItemStore.ContainsField | src/main/java/ru/practicum/shareit/item/repository/ItemRepositoryImpl.java:55-57 | a null field never matches; otherwise the lower-cased field contains the query |
| ItemStore.QueryIgnoresCase | src/main/java/ru/practicum/shareit/item/repository/ItemRepositoryImpl.java:40 | upper-casing the search text leaves the query unchanged |
| ItemStore.Query | src/main/java/ru/practicum/shareit/item/repository/ItemRepositoryImpl.java:40 | the query is the trimmed text with no upper-case letter left, as long as the trimmed text; a null text is the empty query |
| ItemStore.TrimUpper | src/main/java/ru/practicum/shareit/item/repository/ItemRepositoryImpl.java:40 | trimming and upper-casing commute |
| ItemStore.Store.Save | src/main/java/ru/practicum/shareit/item/repository/ItemRepositoryImpl.java:16-22 | an item without an id takes the incremented generator value, so ids start at 1; the item is stored under its id |
| ItemStore.Store.FindById | src/main/java/ru/practicum/shareit/item/repository/ItemRepositoryImpl.java:25-28 | returns the stored item under the id, or empty |
| ItemStore.Store.FindAllByOwner | src/main/java/ru/practicum/shareit/item/repository/ItemRepositoryImpl.java:31-36 | returns exactly the owner's items, each once, sorted by id |
| ItemStore.Store.Search | src/main/java/ru/practicum/shareit/item/repository/ItemRepositoryImpl.java:39-47 | an empty query finds nothing; otherwise exactly the available items whose name or description contains it, ignoring case, sorted by id |
| ItemStore.Store.DeleteById | src/main/java/ru/practicum/shareit/item/repository/ItemRepositoryImpl.java:50-52 | removes that id and nothing else |
| RequestStore.NewestCreatedFirst | src/main/java/ru/practicum/shareit/request/repository/RequestRepositoryImpl.java:37-42 | sorting by the negated creation time puts the newest first |
| RequestStore.Store.Save | src/main/java/ru/practicum/shareit/request/repository/RequestRepositoryImpl.java:17-23 | a request without an id takes the counter value; the request is stored under its id |
| RequestStore.Store.Update | src/main/java/ru/practicum/shareit/request/repository/RequestRepositoryImpl.java:26-28 | `update` returns null and changes nothing |
| RequestStore.Store.FindById | src/main/java/ru/practicum/shareit/request/repository/RequestRepositoryImpl.java:31-34 | returns the stored request under the id, or empty |
| RequestStore.Store.FindByRequestorId | src/main/java/ru/practicum/shareit/request/repository/RequestRepositoryImpl.java:37-42 | returns exactly the requestor's requests, each once, newest first |
| RequestStore.Store.FindAll | src/main/java/ru/practicum/shareit/request/repository/RequestRepositoryImpl.java:45-49 | returns every stored request once, newest first |
| ItemService.CommentsOf | src/main/java/ru/practicum/shareit/item/comment/CommentRepository.java:10 | exactly the item's comments, oldest first |
| ItemService.CommentsIn | src/main/java/ru/practicum/shareit/item/comment/CommentRepository.java:12-20 | exactly the comments of the listed items, oldest first |
| ItemService.WithKeySorted | server/src/main/java/ru/practicum/shareit/item/service/ItemServiceImp.java:134-136 | grouping keeps the creation order inside each group |
| ItemService.FirstWinsMeaning | server/src/main/java/ru/practicum/shareit/item/service/ItemServiceImp.java:122-132 | `toMap` with the merge `(one, two) -> one` maps each item id to the first booking carrying it |
| ItemService.FirstWinsAbsent | server/src/main/java/ru/practicum/shareit/item/service/ItemServiceImp.java:122-132 | an item id no booking carries has no entry |
| ItemService.FirstRecordWins | server/src/main/java/ru/practicum/shareit/item/service/ItemServiceImp.java:127 | of two bookings of one item, the first is kept |
| ItemService.OwnerPage | server/src/main/java/ru/practicum/shareit/item/service/ItemServiceImp.java:110-111 | the page holds exactly the rows of page `p` of the owner's items, and only the owner's items |
| ItemService.OwnerItems | server/src/main/java/ru/practicum/shareit/item/service/ItemServiceImp.java:107-167 | a size of zero or less gives an empty list before any query; an invalid page fails with the paging error; otherwise exactly the views of page `from / size` of the owner's items |
| ItemService.PageViews | server/src/main/java/ru/practicum/shareit/item/service/ItemServiceImp.java:139-166 | one view per item of the page, in page order, each carrying its item |
| ItemService.PageViewBookings | server/src/main/java/ru/practicum/shareit/item/service/ItemServiceImp.java:122-159 | each item's last and next booking are exactly the bookings the native queries pick for it, or none |
| ItemService.EdgeEntry | server/src/main/java/ru/practicum/shareit/item/service/ItemServiceImp.java:142-151 | looking an item of the page up in the first-wins map gives the picked booking |
| ItemService.PageViewComments | server/src/main/java/ru/practicum/shareit/item/service/ItemServiceImp.java:134-163 | each item's comments are exactly its own, oldest first, and an item without an id has none |
| ItemService.GetById | server/src/main/java/ru/practicum/shareit/item/service/ItemServiceImp.java:72-85 | a missing item is `item not found`; otherwise the item with its comments oldest first and no last or next booking |
| ItemService.Search | server/src/main/java/ru/practicum/shareit/item/service/ItemServiceImp.java:89-94 | text without a non-blank character finds nothing; otherwise exactly the available items whose upper-cased name or description contains the upper-cased text, each as often as it is stored |
| ItemService.SearchIgnoresCase | src/main/java/ru/practicum/shareit/item/repository/ItemRepository.java:14-23 | the search gives the same list for the text and for its upper-cased form |
| ItemService.UpdateCheck | server/src/main/java/ru/practicum/shareit/item/service/ItemServiceImp.java:60-65 | a missing item is `item not found`; an item owned by someone else, or by nobody, is `only owner can update item` |
| ItemService.DeleteCheck | server/src/main/java/ru/practicum/shareit/item/service/ItemServiceImp.java:97-102 | a missing item is `item not found`; an item owned by someone else, or by nobody, is `only owner can delete item` |
| ItemService.CommentCheck | server/src/main/java/ru/practicum/shareit/item/service/ItemServiceImp.java:170-197 | a blank text ("комментарий пуст"), then the user, then the item, then a missing finished approved booking ("пользователь не брал товар"), in that order; the comment holds the trimmed text and is created now |
| ItemService.CommentNeedsFinishedBooking | server/src/main/java/ru/practicum/shareit/item/service/ItemServiceImp.java:182-191 | an accepted comment implies an approved booking of the item by the author that ended before now, and its text is already trimmed |
| ItemService.NulCommentStoredEmpty | server/src/main/java/ru/practicum/shareit/item/service/ItemServiceImp.java:171-191 | the text `\0` is not blank for `isBlank`, so it passes the guard, yet `trim` strips it and the comment is stored empty |
| ItemService.WithoutId | server/src/main/java/ru/practicum/shareit/item/service/ItemServiceImp.java:103 | the rows left after a delete are exactly those with another id |
| ItemService.Service.AddComment | server/src/main/java/ru/practicum/shareit/item/service/ItemServiceImp.java:170-197 | on success exactly one comment is appended under the next id; on failure nothing changes |
| ItemService.Service.Delete | server/src/main/java/ru/practicum/shareit/item/service/ItemServiceImp.java:97-104 | on success only the item with that id is removed; on failure nothing changes |
| ItemRequestService.AnswerOf | server/src/main/java/ru/practicum/shareit/request/service/ItemRequestServiceImpl.java:48-57 | an answer carries the item's id and name, and its owner's id or null |
| ItemRequestService.Others | server/src/main/java/ru/practicum/shareit/request/service/ItemRequestServiceImpl.java:73-74 | the other users' requests, each as often as stored, newest first |
| ItemRequestService.ItemsFor | server/src/main/java/ru/practicum/shareit/request/service/ItemRequestServiceImpl.java:48 | exactly the items answering the request, each as often as it is stored |
| ItemRequestService.GetById | server/src/main/java/ru/practicum/shareit/request/service/ItemRequestServiceImpl.java:40-60 | the user is checked before the request; on success the request with the answers of exactly the items answering it |
| ItemRequestService.GetOwn | server/src/main/java/ru/practicum/shareit/request/service/ItemRequestServiceImpl.java:63-67 | an unknown user is `user not found`; otherwise one view without answers per request of the user, in stored order, so each request as often as it is stored |
| ItemRequestService.OthersPage | server/src/main/java/ru/practicum/shareit/request/service/ItemRequestServiceImpl.java:73-74 | the page holds exactly the rows of page `p` of the other users' requests, newest first |
| ItemRequestService.PageViews | server/src/main/java/ru/practicum/shareit/request/service/ItemRequestServiceImpl.java:84-94 | one entry per request of the page, in page order, each with a list of answers |
| ItemRequestService.GetAllOthers | server/src/main/java/ru/practicum/shareit/request/service/ItemRequestServiceImpl.java:70-95 | a size of zero or less answers null before any query; an invalid page fails with the paging error; otherwise exactly the views of page `from / size` of the other users' requests, each with its answers |
| ItemRequestService.PageViewAnswers | server/src/main/java/ru/practicum/shareit/request/service/ItemRequestServiceImpl.java:80-91 | each request of the page carries exactly the items answering it, in table order, and a request without an id carries none |
| Users.FromCreate | server/src/main/java/ru/practicum/shareit/user/mapper/UserMapper.java:19-24 | a new user with the name and email and no id |
| Users.ToModel | server/src/main/java/ru/practicum/shareit/user/mapper/UserMapper.java:26-32 | a new user with the DTO's id, name and email |
| Users.Patch | server/src/main/java/ru/practicum/shareit/user/mapper/UserMapper.java:34-37 | the target afterwards is the patched version of what it was before |
| Users.PatchedFields | server/src/main/java/ru/practicum/shareit/user/mapper/UserMapper.java:34-37 | the id is kept; a non-blank name or email replaces the old one, and a null or blank one leaves it |
| Users.PatchNothing | server/src/main/java/ru/practicum/shareit/user/mapper/UserMapper.java:34-37 | a patch with no non-blank field changes nothing |
| Users.PatchIdempotent | server/src/main/java/ru/practicum/shareit/user/mapper/UserMapper.java:34-37 | applying the same patch twice is applying it once |
| UserStore.Copy | src/main/java/ru/practicum/shareit/user/repository/UserRepositoryImpl.java:61-67 | a new user object with the same id, name and email |
| UserStore.Store.Save | src/main/java/ru/practicum/shareit/user/repository/UserRepositoryImpl.java:19-25 | a user without an id takes the counter value; the user object itself is stored under its id, and the other users stay |
| UserStore.Store.FindById | src/main/java/ru/practicum/shareit/user/repository/UserRepositoryImpl.java:28-30 | a fresh copy of the stored user, or empty |
| UserStore.Store.FindAll | src/main/java/ru/practicum/shareit/user/repository/UserRepositoryImpl.java:33-38 | one fresh copy of every stored user |
| UserStore.Store.DeleteById | src/main/java/ru/practicum/shareit/user/repository/UserRepositoryImpl.java:41-43 | removes that id and nothing else |
| UserStore.Store.ExistsByEmail | src/main/java/ru/practicum/shareit/user/repository/UserRepositoryImpl.java:46-51 | holds exactly when some user has the email, ignoring case |
| UserStore.Store.ExistsByEmailOrNot | src/main/java/ru/practicum/shareit/user/repository/UserRepositoryImpl.java:54-59 | holds exactly when a user with another id has the email, ignoring case |
| UserStore.Store.ExistsByEmailAndId | src/main/java/ru/practicum/shareit/user/UserServiceImp.java:50 | the derived query holds exactly when the user with that id has exactly that email |
| UserService.CreateCheck | src/main/java/ru/practicum/shareit/user/UserServiceImp.java:22-35 | creation passes exactly when email and name are present and not blank and the email is not in use; "email required", then "name required", then Conflict "email already used", in that order |
| UserService.UpdateCheck | src/main/java/ru/practicum/shareit/user/UserServiceImp.java:42-53 | a missing user is `user not found`; a non-null email that clashes is `email already used`; otherwise the update passes |
| UserService.CreateKeepsEmailsUnique | src/main/java/ru/practicum/shareit/user/UserServiceImp.java:32-36 | a user created past the guards under a free id keeps emails unique |
| UserService.UpdateCorrectedKeepsEmailsUnique | src/main/java/ru/practicum/shareit/user/UserServiceImp.java:50-56 | an update past the corrected email check keeps emails unique |
| UserService.UpdateAsWrittenAdmitsDuplicate | src/main/java/ru/practicum/shareit/user/UserServiceImp.java:50 | as written, a user may take another user's email, and is refused the email they already have |
| UserService.Service.CreateUser | src/main/java/ru/practicum/shareit/user/UserServiceImp.java:22-39 | the guards' error, or one new user saved under the next id; unique emails are kept |
| UserService.Service.Update | src/main/java/ru/practicum/shareit/user/UserServiceImp.java:42-59 | the guards' error, or the patched user saved under its own id; unique emails are kept |

## Left out

- Controllers, HTTP, validation annotations, the gateway's REST clients and `GlobalExceptionHandler`'s mapping of exceptions to status codes are not modelled. Errors are returned as values carrying the exception kind and message.
- The MapStruct mappers are not modelled, except that `BookingMapper.toEntity` sets status WAITING. Item DTOs are the entities themselves.
- `ItemServiceImp.update` is modelled only through its guards (`ItemService.UpdateCheck`). The generated field patch `updateItemFromUpdateDto` and the save after it are not.
- `ItemServiceImp.create` and `ItemRequestServiceImpl.create` are not modelled. Both map a DTO through generated code and save it.
- `findByItem_Id` in `BookingRepository` is not modelled: no modelled operation calls it.
- The JPQL `like` in the item search treats `%` and `_` in the text as wildcards. The model treats them as plain characters.
- Case mapping and whitespace cover ASCII only. Java's Unicode case tables are not modelled.
- Hash-map iteration order is not modelled. Unsorted results from the in-memory stores are specified by their contents. JPA table order stands in for the database's unspecified row order.
- The comment query's `order by` on item id before creation time is not modelled, because the service groups by item right after it.
- `BookingShortDto` construction dereferences the booker. A null booker would throw there, but the model carries it as an empty id.
- Concurrency and the thread safety of `ConcurrentHashMap` and `AtomicLong` are not modelled.
- Clocks are parameters (`now`), and logging is not modelled.
- `Users.ToDto` has no contract of its own, since it only reads the three fields. Its meaning is stated through `Users.FromCreate`, `Users.ToModel` and `UserStore.Store.Rows`.
- `UserStore.Store.Save`: requires a non-null email, because `existsByEmail` dereferences every stored email and a null one would throw there.
- `BookingService.Service.Create`, `BookingService.Service.Approve`, `UserService.Service.Update`: run the corrected checks of "Findings", not the checks as written. The as-written checks are modelled by the `AsWritten` cases.

## Findings

| source | as written | input that shows it | evidently intended | confidence | as-written member | corrected member |
|---|---|---|---|---|---|---|
| src/main/java/ru/practicum/shareit/booking/service/BookingServiceImpl.java:54 | `existsBy…StartLessThanAndEndGreaterThan(item, APPROVED, start, end)` finds only approved bookings that strictly enclose the new one | item 1 has an approved booking [10, 20); a new booking [15, 25) passes | pass `(end, start)`, so that any overlapping approved booking is a conflict | not executed | BookingService.ConflictAsWrittenMissesOverlap | BookingService.ConflictIntendedMeansOverlap |
| src/main/java/ru/practicum/shareit/booking/service/BookingServiceImpl.java:76 | the same test on approval lets the owner approve a booking that overlaps an approved one | approved [10, 20) and waiting [15, 25) of item 1; the owner approves the second | approving keeps the approved bookings of an item pairwise disjoint | not executed | BookingService.DecideAsWrittenBreaksDisjoint | BookingService.DecideCorrectedKeepsDisjoint |
| src/main/java/ru/practicum/shareit/user/UserServiceImp.java:50 | `existsByEmailAndId(email, id)` refuses only the email the user already has | user 0 has `ann@x`, user 1 has `bob@x`; user 1 updates to `ann@x` and passes | refuse an email another user holds, ignoring case (`existsByEmailOrNot`) | not executed | UserService.UpdateAsWrittenAdmitsDuplicate | UserService.UpdateCorrectedKeepsEmailsUnique |
