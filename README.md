# shareit domain core in Dafny

shareit is an item-sharing service. Users list things they own, other users book
them for a period, and the owner approves or rejects each booking. A user who
has rented an item may comment on it, and a user who cannot find an item may
post a request that owners answer with new items. This project models the
sequential core under the HTTP and persistence layers and proves what it promises:

- **The booking engine.** Creating a booking and confirming it each run an
  ordered chain of guards: the first guard that fails decides the error, and
  nothing is saved. One booking can be looked up by its booker or its item's
  owner. The booker's and the owner's bookings are listed with six state
  filters, latest start first, in pages of `from / size`. In the model every
  page is cut from one ordering of all the matching bookings, so paging loses
  none of them; this rests on the database ordering bookings with equal starts
  the same way on every query (see Left out). The
  service keeps every stored booking ending after it starts and booked by
  someone other than the item's owner. The text parser
  `State.getState` turns a query string into one of those filters.
- **The item catalog and comment ledger.** This covers the paged service and
  the older unpaged one. Only the owner may update or remove an item. A partial
  update changes only the fields that are given and not blank. The search
  returns available items matching the text, ignoring case, and blank text
  finds nothing. A comment is accepted only from a user with an approved
  booking of the item that has already ended.
- **The view assembler** (the item, booking, comment and item-request mappers
  and the three comparators). It chooses an item's last and next booking.
  Comments go into a tree set keyed by their creation time. A missing
  collection becomes an empty one.
- **The item-request workflow.** A user adds a request, lists their own
  requests newest first, lists everyone else's (a query with no ORDER BY, which
  the model answers in table order), and looks one up together with the items
  offered for it. As with bookings, in the model every page is cut from one
  ordering of all the matching requests.
- **The two in-memory stores of the first version** (`ItemStorageImpl`,
  `UserStorageImpl`). These are classes whose id counter, maps and e-mail set
  are updated in place.

Layout, one module per file:

| file | module | source |
|---|---|---|
| common.dfy | `Common` | `Option`/`Result`, the exceptions, `String.isBlank`/`trim`/`toUpperCase`/`toLowerCase`/`contains`, Java `/`, `PageRequest.of`, the page slice, `findById`, filtering and stable sorting |
| domain.dfy | `Domain` | entities, drafts (a freshly built entity whose unset columns are `None`), request and response DTOs |
| database.dfy | `Database` | the JPA repositories as one `Store` class holding one sequence per table, with the schema's NOT NULL, unique and foreign-key constraints as its invariant |
| booking_repository.dfy | `BookingRepository` | the eleven derived booking queries |
| state.dfy | `BookingState` | `State` and `State.getState` |
| constant.dfy | `Constant` | the comparators of `Constant` |
| mapper.dfy | `Mapper` | `BookingMapper`, `CommentMapper`, `ItemMapper`, `ItemRequestMapper` |
| booking_service.dfy | `BookingService` | `BookingServiceImpl` |
| item_service.dfy | `ItemService` | the paged `ItemServiceImpl` |
| legacy_item_service.dfy | `LegacyItemService` | the unpaged `ItemServiceImpl` |
| item_request_service.dfy | `ItemRequestService` | `ItemRequestServiceImpl` |
| user_service.dfy | `UserService` | `UserServiceImpl` |
| item_storage.dfy | `ItemStorage` | `ItemStorageImpl` |
| user_storage.dfy | `UserStorage` | `UserStorageImpl` |

How Java concepts are modelled:

- **Time.** Timestamps are integers. The clock (`LocalDateTime.now()`) is a
  parameter `now`.
- **Tables.** A table is a sequence in id order, because the identity column
  issues increasing ids. `findById` is the record with that id. A query without
  ORDER BY, and rows whose sort keys tie, come back in this table order in the
  model; the database promises no such order (see Left out).
- **Operations.** A service operation that saves is a method that modifies the
  `Store`. One that only reads is a function of the tables.
- **Failures.** An exception is an `Err` carrying the exception's class and
  message.
- **Equality.** Entities are compared by id, as `User.equals` does.
- **Loaded entities.** The object graph the mappers walk (an item with its
  bookings and its commented authors, a request with its items) is built by
  `Database.ItemGraphOf` and `Database.RequestGraphOf`. The collections of an
  entity that was just saved are `None`, as the fields of a freshly built Java
  entity are null.

## Model

| member | source | states |
|---|---|---|
| Common.JavaDiv | src/main/java/ru/practicum/shareit/booking/service/BookingServiceImpl.java:104 | `from / size` truncates toward zero: the Euclidean quotient for a non-negative `from`, 0 just below zero, negative from `-size` down |
| Common.PageRequestOf | src/main/java/ru/practicum/shareit/booking/service/BookingServiceImpl.java:104 | `PageRequest.of(from / size, size)`: a zero size throws ArithmeticException; otherwise it succeeds exactly when `size >= 1` and `from > -size`, giving page `from / size` (0 for `-size < from < 0`) and length `size` |
| Common.ApplyPage | src/main/java/ru/practicum/shareit/booking/service/BookingServiceImpl.java:104 | a page is at most `size` rows and a sub-multiset of the query result; row k of the page is row `page*size + k` of the result; a page starting inside the result is full unless the result ends first |
| Common.PageOffsetRoundsDown | src/main/java/ru/practicum/shareit/booking/service/BookingServiceImpl.java:104 | for `from >= 0` the page `from / size` starts at or before row `from` and still contains it |
| Common.PageOfSorted | src/main/java/ru/practicum/shareit/booking/service/BookingServiceImpl.java:100-101 | a page of a key-sorted result is key-sorted |
| Common.Find | src/main/java/ru/practicum/shareit/booking/service/BookingServiceImpl.java:162-175 | `findById` finds a record exactly when its id is in the table, and the record found is in the table with that id |
| Common.FindAt | src/main/java/ru/practicum/shareit/booking/service/BookingServiceImpl.java:162-175 | with increasing ids, `findById` of the id at position i returns the record at position i |
| Common.FilterHas | service/src/main/java/ru/practicum/shareit/item/service/ItemServiceImpl.java:131 | a stream filter keeps a record exactly when it is present and satisfies the predicate |
| Common.SortWithSorted | src/main/java/ru/practicum/shareit/mapper/ItemMapper.java:49-51 | a stable sort under a comparator that orders by a key leaves the sequence sorted by that key |
| Common.SortWithMembers | src/main/java/ru/practicum/shareit/mapper/ItemMapper.java:49-51 | sorting keeps exactly the elements it was given |
| Common.FilterSorted | src/main/java/ru/practicum/shareit/mapper/ItemMapper.java:49-52 | filtering a key-sorted stream keeps it key-sorted |
| Common.FilterIncreasing | service/src/main/java/ru/practicum/shareit/item/service/ItemServiceImpl.java:79-80 | filtering a table keeps its ids increasing |
| Common.TrimPadded | src/main/java/ru/practicum/shareit/booking/model/State.java:18 | `trim` removes exactly the padding at or below U+0020 around text that starts and ends above it |
| Common.IdsOfRemove | src/main/java/ru/practicum/shareit/user/service/UserServiceImpl.java:93 | deleting the record at one position removes exactly its id and keeps the ids increasing |
| Database.FindUser | src/main/java/ru/practicum/shareit/booking/service/BookingServiceImpl.java:162-165 | `userRepository.findById`: a user exactly when the id is stored, and the stored user with that id |
| Database.FindItem | src/main/java/ru/practicum/shareit/booking/service/BookingServiceImpl.java:167-170 | `itemRepository.findById`: an item exactly when the id is stored |
| Database.FindBooking | src/main/java/ru/practicum/shareit/booking/service/BookingServiceImpl.java:172-175 | `bookingRepository.findById`: a booking exactly when the id is stored |
| Database.FindRequest | service/src/main/java/ru/practicum/shareit/request/service/ItemRequestServiceImpl.java:63-64 | `itemRequestRepository.findById`: a request exactly when the id is stored |
| Database.ItemGraphOf | src/main/java/ru/practicum/shareit/mapper/ItemMapper.java:23-25 | an item loaded with exactly its stored bookings, in table order, and exactly its stored comments, each with its stored author (the user whose id the comment names) |
| Database.AuthoredCover | src/main/java/ru/practicum/shareit/mapper/ItemMapper.java:23-25 | loading the authors of an item's comments loses none of the item's comments |
| Database.BookingsSound | src/main/java/ru/practicum/shareit/booking/service/BookingServiceImpl.java:41-50 | the invariant createBooking's guards set up: every stored booking ends strictly after it starts, and its booker does not own the booked item |
| Database.AddItemKeepsSound | service/src/main/java/ru/practicum/shareit/item/service/ItemServiceImpl.java:57 | a new item, under the next id, is no booking's item, so the bookings stay sound |
| Database.SetItemKeepsSound | service/src/main/java/ru/practicum/shareit/item/service/ItemServiceImpl.java:96-108 | an item saved again under its own owner keeps the bookings sound |
| Database.DropItemKeepsSound | service/src/main/java/ru/practicum/shareit/item/service/ItemServiceImpl.java:120 | deleting an item keeps the bookings sound |
| Database.AddBookingKeepsSound | src/main/java/ru/practicum/shareit/booking/service/BookingServiceImpl.java:41-61 | a new booking that ends after it starts, of an item its booker does not own, keeps the bookings sound |
| Database.SetBookingKeepsSound | src/main/java/ru/practicum/shareit/booking/service/BookingServiceImpl.java:77-79 | a booking saved again with the same period, booker and item keeps the bookings sound |
| Database.ItemsForRequest | service/src/main/java/ru/practicum/shareit/request/service/ItemRequestServiceImpl.java:66 | `findAllByRequestId`: exactly the stored items whose request is the given one |
| Database.RequestGraphOf | src/main/java/ru/practicum/shareit/mapper/ItemRequestMapper.java:20-25 | a request loaded with the items that answer it |
| Database.Store.InsertUser | src/main/java/ru/practicum/shareit/user/service/UserServiceImpl.java:30-38 | `save` of a new user fails with DataIntegrityViolation, saving nothing, exactly when the name or e-mail is null or the e-mail is taken; otherwise the user is appended under the next id; consistency is kept |
| Database.Store.UpdateUser | src/main/java/ru/practicum/shareit/user/service/UserServiceImpl.java:53-61 | `saveAndFlush` fails exactly when another user holds the e-mail; otherwise the row is replaced in place |
| Database.Store.DeleteUser | src/main/java/ru/practicum/shareit/user/service/UserServiceImpl.java:93 | `delete` fails exactly when some item, booking, comment or request still points at the user; otherwise only that row goes |
| Database.Store.InsertItem | service/src/main/java/ru/practicum/shareit/item/service/ItemServiceImpl.java:57 | `save` of a new item fails exactly when name, description or availability is null; otherwise the item is appended under the next id |
| Database.Store.UpdateItem | service/src/main/java/ru/practicum/shareit/item/service/ItemServiceImpl.java:108 | `save` of an existing item replaces its row in place |
| Database.Store.DeleteItem | service/src/main/java/ru/practicum/shareit/item/service/ItemServiceImpl.java:120 | `deleteById` fails exactly when a booking or comment points at the item; otherwise only that row goes |
| Database.Store.InsertBooking | src/main/java/ru/practicum/shareit/booking/service/BookingServiceImpl.java:56-61 | the booking is appended with the next id and the draft's columns |
| Database.Store.UpdateBooking | src/main/java/ru/practicum/shareit/booking/service/BookingServiceImpl.java:77-79 | `save` of an existing booking replaces its row in place |
| Database.Store.InsertComment | service/src/main/java/ru/practicum/shareit/item/service/ItemServiceImpl.java:152 | the comment is appended with the next id and the draft's columns |
| Database.Store.InsertRequest | service/src/main/java/ru/practicum/shareit/request/service/ItemRequestServiceImpl.java:35-39 | the request is appended with the next id, the description, the requester and the creation time |
| BookingRepository.OwnerOf | src/main/java/ru/practicum/shareit/booking/repository/BookingRepository.java:26-28 | the join `booking.item.owner.id`: defined exactly when the booked item is stored, and then the owner of that item |
| BookingRepository.Select | src/main/java/ru/practicum/shareit/booking/service/BookingServiceImpl.java:100-101 | a query page holds at most `size` stored bookings, each matching the predicate |
| BookingRepository.SelectPagesOneOrdering | src/main/java/ru/practicum/shareit/booking/service/BookingServiceImpl.java:100-129 | there is one ordering of all the matching bookings, holding each as often as the table does and sorted latest start first, such that every page request gets that ordering's rows from `page * size` on |
| BookingRepository.EveryMatchOnSomePage | src/main/java/ru/practicum/shareit/booking/service/BookingServiceImpl.java:100-129 | with any page length, every matching booking is on some page |
| BookingRepository.RowOfMatch | src/main/java/ru/practicum/shareit/booking/service/BookingServiceImpl.java:104 | a matching booking at row i of the ordered result is on page `i / size` |
| BookingRepository.FindAllByBookerId | src/main/java/ru/practicum/shareit/booking/repository/BookingRepository.java:15 | only stored bookings of the booker, at most a page |
| BookingRepository.FindAllByBookerIdAndStatus | src/main/java/ru/practicum/shareit/booking/repository/BookingRepository.java:17 | only stored bookings of the booker with the status |
| BookingRepository.FindAllByBookerIdAndStartAfter | src/main/java/ru/practicum/shareit/booking/repository/BookingRepository.java:19 | only the booker's bookings starting strictly after the time |
| BookingRepository.FindAllByBookerIdAndEndBefore | src/main/java/ru/practicum/shareit/booking/repository/BookingRepository.java:21 | only the booker's bookings ending strictly before the time |
| BookingRepository.FindAllByBookerIdAndStartBeforeAndEndAfter | src/main/java/ru/practicum/shareit/booking/repository/BookingRepository.java:23-24 | only the booker's bookings started strictly before and ending strictly after the time |
| BookingRepository.FindAllByOwnerId | src/main/java/ru/practicum/shareit/booking/repository/BookingRepository.java:26-28 | only stored bookings whose item the owner owns |
| BookingRepository.FindAllByOwnerIdAndStatus | src/main/java/ru/practicum/shareit/booking/repository/BookingRepository.java:30-32 | only the owner's bookings with the status |
| BookingRepository.FindAllByOwnerIdAndStartAfter | src/main/java/ru/practicum/shareit/booking/repository/BookingRepository.java:34-37 | only the owner's bookings starting strictly after the time |
| BookingRepository.FindAllByOwnerIdAndEndBefore | src/main/java/ru/practicum/shareit/booking/repository/BookingRepository.java:39-42 | only the owner's bookings ending strictly before the time |
| BookingRepository.FindAllByOwnerIdAndStartBeforeAndEndAfter | src/main/java/ru/practicum/shareit/booking/repository/BookingRepository.java:44-48 | only the owner's current bookings, both bounds strict |
| BookingRepository.SelectLatestFirst | src/main/java/ru/practicum/shareit/booking/repository/BookingRepository.java:15-48 | every query page comes in non-increasing start order |
| BookingRepository.FirstPageHoldsAll | src/main/java/ru/practicum/shareit/booking/repository/BookingRepository.java:15-48 | a first page at least as large as the matches holds every matching booking exactly once |
| BookingRepository.PageOfOneIsLatest | src/main/java/ru/practicum/shareit/booking/repository/BookingRepository.java:23 | when something matches, a first page of size one holds a match that starts no earlier than any other match |
| BookingRepository.CurrentPageOfOneIsLatest | src/main/java/ru/practicum/shareit/booking/repository/BookingRepository.java:23-24 | the booker's current query with page size one returns the latest-starting current booking |
| BookingRepository.BoundaryIsNotCurrent | src/main/java/ru/practicum/shareit/booking/repository/BookingRepository.java:23-24 | a booking that starts or ends exactly at the time is in neither current query |
| BookingRepository.OwnerQueryIgnoresBooker | src/main/java/ru/practicum/shareit/booking/repository/BookingRepository.java:26-28 | the owner predicate does not depend on the booker and holds exactly when the booked item is the owner's |
| BookingState.ValueOf | src/main/java/ru/practicum/shareit/booking/model/State.java:18 | `Enum.valueOf`: a constant exactly when the text is its name |
| BookingState.GetState | src/main/java/ru/practicum/shareit/booking/model/State.java:13-22 | null or blank text gives ALL; otherwise the text is upper-cased and trimmed and must be a name, or ArgumentException "Состояние не известно." |
| BookingState.GetStateOfName | src/main/java/ru/practicum/shareit/booking/model/State.java:5-11 | each of the six names parses back to its constant |
| BookingState.GetStateIgnoresCaseAndPadding | src/main/java/ru/practicum/shareit/booking/model/State.java:18 | any padding and any spelling whose upper case is a name parse to that constant |
| Constant.OrderByCreatedDesc | service/src/main/java/ru/practicum/shareit/util/Constant.java:11-19 | 1 exactly when a was created after b, -1 exactly when before, 0 exactly when at the same time |
| Constant.OrderByStartDateDesc | service/src/main/java/ru/practicum/shareit/util/Constant.java:21-29 | -1 exactly when a starts after b, 1 exactly when before, 0 exactly when at the same time |
| Constant.OrderByStartDateAsc | service/src/main/java/ru/practicum/shareit/util/Constant.java:31-39 | 1 exactly when a starts after b, -1 exactly when before, 0 exactly when at the same time |
| Constant.AscIsReversedDesc | service/src/main/java/ru/practicum/shareit/util/Constant.java:21-39 | the ascending comparator is the negated descending one, and the descending one with its arguments swapped |
| Constant.Antisymmetric | service/src/main/java/ru/practicum/shareit/util/Constant.java:11-39 | each comparator changes sign when its arguments are swapped |
| Constant.CreatedOrdersAscending | service/src/main/java/ru/practicum/shareit/util/Constant.java:11-19 | `orderByCreatedDesc`, despite its name, orders by ascending creation time |
| Constant.StartAscOrdersAscending | service/src/main/java/ru/practicum/shareit/util/Constant.java:31-39 | `orderByStartDateAsc` orders by ascending start |
| Constant.StartDescOrdersDescending | service/src/main/java/ru/practicum/shareit/util/Constant.java:21-29 | `orderByStartDateDesc` orders by descending start |
| Mapper.ToGetBookingForItemDtoFromItem | src/main/java/ru/practicum/shareit/mapper/ItemMapper.java:72-77 | the item reduced to id and name |
| Mapper.ToBookingDtoFromBooking | src/main/java/ru/practicum/shareit/mapper/BookingMapper.java:11-23 | null maps to null; otherwise id, start, end and status are copied, the item is reduced to {id, name} and the booker to its id |
| Mapper.ToBookingFromCreateUpdateBookingDto | src/main/java/ru/practicum/shareit/mapper/BookingMapper.java:25-30 | only start and end are set; id, status, booker and item stay unset |
| Mapper.ToGetBookingForItemDtoFromBooking | src/main/java/ru/practicum/shareit/mapper/BookingMapper.java:32-41 | null maps to null; otherwise exactly {id, booker's id} |
| Mapper.ShortViewAgrees | src/main/java/ru/practicum/shareit/mapper/BookingMapper.java:11-41 | the short view of a booking agrees with its full view on id and booker |
| Mapper.ToCommentDtoFromComment | src/main/java/ru/practicum/shareit/mapper/CommentMapper.java:10-18 | id (widened without change), text and creation time of the comment, and the author's name |
| Mapper.ToCommentFromCreateUpdateCommentDto | src/main/java/ru/practicum/shareit/mapper/CommentMapper.java:20-25 | only the text is set; id, author, item and creation time stay unset |
| Mapper.TreeSetAdd | src/main/java/ru/practicum/shareit/mapper/ItemMapper.java:23-26 | `TreeSet.add` returns only old members and the new one |
| Mapper.TreeSetAddTimes | src/main/java/ru/practicum/shareit/mapper/ItemMapper.java:23-26 | an add contributes exactly the new creation time to the set |
| Mapper.TreeSetAddSorted | src/main/java/ru/practicum/shareit/mapper/ItemMapper.java:23-26 | an add keeps the set strictly ordered by creation time |
| Mapper.TreeSetAddAll | src/main/java/ru/practicum/shareit/mapper/ItemMapper.java:23-27 | `addAll` returns only old members and added ones |
| Mapper.TreeSetAddAllSpec | src/main/java/ru/practicum/shareit/mapper/ItemMapper.java:23-27 | `addAll` keeps the set strictly ordered by creation time and holds exactly one comment per creation time of the old and added comments |
| Mapper.CommentViews | src/main/java/ru/practicum/shareit/mapper/ItemMapper.java:23-30 | the comment views are strictly ordered by creation time; null comments give none; otherwise exactly one view per distinct creation time, each the view of one of the comments |
| Mapper.SameCreatedCollapse | src/main/java/ru/practicum/shareit/mapper/ItemMapper.java:23-26 | two comments created at the same instant collapse to one entry |
| Mapper.ToItemDtoFromItem | src/main/java/ru/practicum/shareit/mapper/ItemMapper.java:22-39 | id, name, description and availability copied, last and next booking null, comments as the tree set gives them |
| Mapper.FirstOf | src/main/java/ru/practicum/shareit/mapper/ItemMapper.java:53 | `findFirst`: the head when the stream is not empty |
| Mapper.FirstOfSortedFilter | src/main/java/ru/practicum/shareit/mapper/ItemMapper.java:49-63 | the first element of a key-sorted, filtered stream exists exactly when some element passes the filter, and it has the least key among those |
| Mapper.LastBookingIsLatestBeforeNow | src/main/java/ru/practicum/shareit/mapper/ItemMapper.java:49-55 | the last booking exists exactly when an approved booking starts strictly before now, and it is such a booking with the latest start |
| Mapper.NextBookingIsEarliestAfterNow | src/main/java/ru/practicum/shareit/mapper/ItemMapper.java:57-63 | the next booking exists exactly when an approved booking starts strictly after now, and it is such a booking with the earliest start |
| Mapper.NeverChosen | src/main/java/ru/practicum/shareit/mapper/ItemMapper.java:52-53 | a booking that is not approved, or starts exactly now, is neither last nor next |
| Mapper.ToItemDtoWithBookingsFromItem | src/main/java/ru/practicum/shareit/mapper/ItemMapper.java:41-70 | the plain view plus last and next booking; null bookings leave both null; otherwise the short views of the chosen bookings |
| Mapper.ToItemFromCreateUpdateItemDto | src/main/java/ru/practicum/shareit/mapper/ItemMapper.java:79-85 | only name, description and availability are set; id, owner and request stay unset |
| Mapper.ToItemDtos | src/main/java/ru/practicum/shareit/mapper/ItemRequestMapper.java:21-24 | items mapped one to one, in order |
| Mapper.ToItemRequestDtoFromItemRequest | src/main/java/ru/practicum/shareit/mapper/ItemRequestMapper.java:15-28 | id, description and creation time copied; null items give an empty list, otherwise the item views one to one |
| Mapper.ToItemRequestDto | src/main/java/ru/practicum/shareit/mapper/ItemRequestMapper.java:30-40 | the same view with its items replaced by the supplied list, or an empty list when it is null |
| BookingService.ViewOf | src/main/java/ru/practicum/shareit/booking/service/BookingServiceImpl.java:92 | the view of a stored booking keeps its id, period, status, booker and item |
| BookingService.BookedItemsStored | src/main/java/ru/practicum/shareit/booking/service/BookingServiceImpl.java:84-92 | every stored booking's item is stored, so every booking can be viewed |
| BookingService.CreateBooking | src/main/java/ru/practicum/shareit/booking/service/BookingServiceImpl.java:36-62 | fails, saving nothing, exactly when a guard fails, with the first failing guard's error; otherwise exactly one WAITING booking by the caller of the item for the period is appended, and it has end after start, a booker who does not own the item and an available item; a store whose bookings were sound stays so |
| BookingService.CreateAdmits | src/main/java/ru/practicum/shareit/booking/service/BookingServiceImpl.java:37-54 | createBooking goes through exactly when user and item exist, the caller does not own the item, the end is strictly after the start and the item is available |
| BookingService.EmptyPeriodRefused | src/main/java/ru/practicum/shareit/booking/service/BookingServiceImpl.java:48-50 | a booking that ends when it starts is refused with the validation error |
| BookingService.ConfirmedBooking | src/main/java/ru/practicum/shareit/booking/service/BookingServiceImpl.java:65-80 | fails, saving nothing, exactly when a guard fails; otherwise only that booking's status changes, to APPROVED or REJECTED as asked; a store whose bookings were sound stays so |
| BookingService.DecisionKeepsSound | src/main/java/ru/practicum/shareit/booking/service/BookingServiceImpl.java:77-79 | deciding a booking changes only its status, so sound bookings stay sound |
| BookingService.ConfirmByStrangerRefused | src/main/java/ru/practicum/shareit/booking/service/BookingServiceImpl.java:69-71 | a caller who does not own the booked item gets NotFound "Бронирование не найдено." |
| BookingService.ConfirmAdmits | src/main/java/ru/practicum/shareit/booking/service/BookingServiceImpl.java:73-77 | for the owner, confirmation goes through exactly when the booking is not already APPROVED, so REJECTED can be overwritten |
| BookingService.GetById | src/main/java/ru/practicum/shareit/booking/service/BookingServiceImpl.java:84-93 | succeeds exactly when the caller and booking exist and the caller is the booker or the item's owner; otherwise the first failing check's NotFound |
| BookingService.BookerQuery | src/main/java/ru/practicum/shareit/booking/service/BookingServiceImpl.java:102-123 | each state runs the query that selects exactly the booker's bookings that state admits |
| BookingService.OwnerQuery | src/main/java/ru/practicum/shareit/booking/service/BookingServiceImpl.java:135-155 | each state runs the owner's query for it; ALL falls to the default branch, all of the owner's bookings |
| BookingService.Views | src/main/java/ru/practicum/shareit/booking/service/BookingServiceImpl.java:125-128 | one view per booking, in order |
| BookingService.Listing | src/main/java/ru/practicum/shareit/booking/service/BookingServiceImpl.java:98-129 | an unknown caller is refused before paging; otherwise the page request's error, or the views, in order, of exactly the bookings the query selects for the page `from / size`, at most `size` of them |
| BookingService.ListingCoversAll | src/main/java/ru/practicum/shareit/booking/service/BookingServiceImpl.java:98-129 | for a known caller and any valid size, every booking the filter admits is shown by the listing that starts at some `from >= 0` |
| BookingService.GetBookingsOfBooker | src/main/java/ru/practicum/shareit/booking/service/BookingServiceImpl.java:98-129 | the booker listing is the listing of the booker's filter for the state |
| BookingService.GetBookingsOfOwner | src/main/java/ru/practicum/shareit/booking/service/BookingServiceImpl.java:133-160 | the owner listing is the listing of the owner's filter for the state |
| BookingService.ListingSound | src/main/java/ru/practicum/shareit/booking/service/BookingServiceImpl.java:98-160 | every listed entry is the view of a stored booking the filter admits |
| BookingService.ListingLatestFirst | src/main/java/ru/practicum/shareit/booking/service/BookingServiceImpl.java:100-101 | a listing comes latest start first |
| BookingService.ViewListed | src/main/java/ru/practicum/shareit/booking/service/BookingServiceImpl.java:125-128 | the view of each selected booking is among the listed views |
| BookingService.FirstPageHolds | src/main/java/ru/practicum/shareit/booking/service/BookingServiceImpl.java:100-101 | a first page at least as large as the matches holds each matching booking |
| BookingService.SelectedItemsStored | src/main/java/ru/practicum/shareit/booking/service/BookingServiceImpl.java:125-128 | every selected booking's item is stored |
| BookingService.FirstListingIsViews | src/main/java/ru/practicum/shareit/booking/service/BookingServiceImpl.java:98-129 | for an existing caller and a positive size, the first page lists the views of the selection |
| BookingService.ListingFirstPageComplete | src/main/java/ru/practicum/shareit/booking/service/BookingServiceImpl.java:98-160 | a first page at least as large as the matches lists the view of every matching booking |
| ItemService.CreateItem | service/src/main/java/ru/practicum/shareit/item/service/ItemServiceImpl.java:43-58 | fails, saving nothing, exactly when the caller is missing, a given request is missing or a NOT NULL column is null; otherwise the item is appended, owned by the caller and linked to the given request; a store whose bookings were sound stays so |
| ItemService.CreateItemAdmits | service/src/main/java/ru/practicum/shareit/item/service/ItemServiceImpl.java:45-55 | a missing caller is reported before the request is looked up; creation goes through exactly when the caller exists, a given request exists, and name, description and availability are given |
| ItemService.CreatedItemFound | service/src/main/java/ru/practicum/shareit/item/service/ItemServiceImpl.java:48-57 | after creation the item is found under its id, owned by the caller and linked to the request |
| ItemService.GetItemById | service/src/main/java/ru/practicum/shareit/item/service/ItemServiceImpl.java:60-72 | caller, then item, must exist; the owner gets the view with the item's last and next booking and anyone else the plain view; the unpaged src/main/java/ru/practicum/shareit/item/service/ItemServiceImpl.java lines 49-61 are the same code |
| ItemService.BookingOfItem | src/main/java/ru/practicum/shareit/mapper/ItemMapper.java:48-63 | an item's loaded bookings are exactly the stored bookings of that item |
| ItemService.OwnerSeesLastAndNextBooking | service/src/main/java/ru/practicum/shareit/item/service/ItemServiceImpl.java:67-71 | only the owner is shown booking data. For the owner, the last booking is there exactly when an approved booking of the item started before now, and it is such a booking with the latest start; the next booking is there exactly when an approved booking starts after now, and it is such a booking with the earliest start |
| ItemService.OwnedItems | service/src/main/java/ru/practicum/shareit/item/service/ItemServiceImpl.java:79-80 | exactly the owner's stored items, in id order |
| ItemService.ViewsWithBookings | service/src/main/java/ru/practicum/shareit/item/service/ItemServiceImpl.java:81-83 | one view with bookings per item, in order |
| ItemService.PlainViews | service/src/main/java/ru/practicum/shareit/item/service/ItemServiceImpl.java:132-134 | one plain view per item, in order |
| ItemService.GetAllItems | service/src/main/java/ru/practicum/shareit/item/service/ItemServiceImpl.java:74-85 | an unknown caller is refused; then the page request's error, or the views of one page of the owner's items, at most `size` |
| ItemService.AllItemsById | service/src/main/java/ru/practicum/shareit/item/service/ItemServiceImpl.java:79-80 | a page holds only the owner's items, in strictly increasing id order |
| ItemService.AllItemsFromFiveSizeTwo | service/src/main/java/ru/practicum/shareit/item/service/ItemServiceImpl.java:79-80 | from = 5 and size = 2 ask for page 2, the owner's fifth and sixth items |
| ItemService.Patch | service/src/main/java/ru/practicum/shareit/item/service/ItemServiceImpl.java:96-106 | name and description change only when given and not blank, availability only when given; id, owner and request are kept |
| ItemService.PatchOfNothing | service/src/main/java/ru/practicum/shareit/item/service/ItemServiceImpl.java:96-106 | a patch of nulls and blanks changes nothing |
| ItemService.PatchIdempotent | service/src/main/java/ru/practicum/shareit/item/service/ItemServiceImpl.java:96-106 | applying the same patch twice is applying it once |
| ItemService.FullPatch | service/src/main/java/ru/practicum/shareit/item/service/ItemServiceImpl.java:96-106 | a patch giving every field sets every field |
| ItemService.UpdateItem | service/src/main/java/ru/practicum/shareit/item/service/ItemServiceImpl.java:87-109 | fails, saving nothing, exactly when the caller or item is missing or the caller is not the owner; otherwise only the item's row is replaced by its patch; the unpaged src/main/java/ru/practicum/shareit/item/service/ItemServiceImpl.java lines 74-96 are the same code; a store whose bookings were sound stays so |
| ItemService.PatchKeepsSound | service/src/main/java/ru/practicum/shareit/item/service/ItemServiceImpl.java:96-108 | a patch keeps the item's id and owner, so sound bookings stay sound |
| ItemService.RemoveItem | service/src/main/java/ru/practicum/shareit/item/service/ItemServiceImpl.java:111-121 | the same owner guards, then the item's row is deleted unless a booking or comment points at it, and on success the item table loses exactly that row and nothing else changes; the unpaged src/main/java/ru/practicum/shareit/item/service/ItemServiceImpl.java lines 98-108 are the same code; a store whose bookings were sound stays so |
| ItemService.StrangerRefused | service/src/main/java/ru/practicum/shareit/item/service/ItemServiceImpl.java:92-94 | a user who does not own an existing item is told "Такого товара нет." |
| ItemService.Search | service/src/main/java/ru/practicum/shareit/item/service/ItemServiceImpl.java:123-135 | blank text finds nothing, with no paging; otherwise the page request's error or one page of the matching items as plain views |
| ItemService.SearchShowsOnlyMatches | service/src/main/java/ru/practicum/shareit/item/service/ItemServiceImpl.java:131-134 | every item a search shows is available and matches the text, ignoring case |
| ItemService.CreateComment | service/src/main/java/ru/practicum/shareit/item/service/ItemServiceImpl.java:137-157 | fails, saving nothing, exactly when a guard fails; otherwise one comment by the caller on the item, created now, is appended; a store whose bookings were sound stays so |
| ItemService.CommentEligibility | service/src/main/java/ru/practicum/shareit/item/service/ItemServiceImpl.java:144-164 | a user may comment on an existing item exactly when some stored booking of it by that user is APPROVED and ended before now; otherwise the validation error names both ids |
| LegacyItemService.CreateItem | src/main/java/ru/practicum/shareit/item/service/ItemServiceImpl.java:38-47 | the caller must exist; the item is owned by the caller and never linked to a request; a store whose bookings were sound stays so |
| LegacyItemService.GetAllItems | src/main/java/ru/practicum/shareit/item/service/ItemServiceImpl.java:63-72 | every one of the caller's items with booking data, unpaged |
| LegacyItemService.Search | src/main/java/ru/practicum/shareit/item/service/ItemServiceImpl.java:110-123 | the caller must exist even for blank text; blank text finds nothing; otherwise every matching item |
| LegacyItemService.UnknownCallerRefusedBeforeBlankText | src/main/java/ru/practicum/shareit/item/service/ItemServiceImpl.java:111-117 | an unknown caller with blank text is refused here, while the paged search answers an empty list |
| LegacyItemService.CommentRefusal | src/main/java/ru/practicum/shareit/item/service/ItemServiceImpl.java:126-153 | refuses exactly when the paged service does; a non-renter's refusal is a ValidationException naming both ids |
| LegacyItemService.CreateComment | src/main/java/ru/practicum/shareit/item/service/ItemServiceImpl.java:125-145 | fails, saving nothing, exactly when a guard fails; otherwise one comment is appended; a store whose bookings were sound stays so |
| ItemRequestService.Add | service/src/main/java/ru/practicum/shareit/request/service/ItemRequestServiceImpl.java:29-42 | fails, saving nothing, exactly when the caller is missing; otherwise one request by the caller, created now, is appended and shown with no items; a store whose bookings were sound stays so |
| ItemRequestService.RequestViews | service/src/main/java/ru/practicum/shareit/request/service/ItemRequestServiceImpl.java:52-54 | one view per request, in order, keeping id and creation time |
| ItemRequestService.OwnRequests | service/src/main/java/ru/practicum/shareit/request/service/ItemRequestServiceImpl.java:51 | at most a page of stored requests, each the caller's |
| ItemRequestService.OwnRequestsPagesOneOrdering | service/src/main/java/ru/practicum/shareit/request/service/ItemRequestServiceImpl.java:51 | there is one ordering of all the caller's requests, newest first, such that every page request gets that ordering's rows from `page * size` on |
| ItemRequestService.OwnRequestOnSomePage | service/src/main/java/ru/practicum/shareit/request/service/ItemRequestServiceImpl.java:51 | with any page length, each of the caller's requests is on some page |
| ItemRequestService.GetUserRequests | service/src/main/java/ru/practicum/shareit/request/service/ItemRequestServiceImpl.java:44-55 | an unknown caller is refused; then the page request's error, or the views of one page of the caller's requests |
| ItemRequestService.OwnRequestsNewestFirst | service/src/main/java/ru/practicum/shareit/request/service/ItemRequestServiceImpl.java:51 | the caller's own requests come newest first and each is a stored request of the caller |
| ItemRequestService.OthersRequests | service/src/main/java/ru/practicum/shareit/request/service/ItemRequestServiceImpl.java:74 | at most a page of stored requests, none the caller's |
| ItemRequestService.OthersRequestsInStoreOrder | service/src/main/java/ru/practicum/shareit/request/service/ItemRequestServiceImpl.java:74 | the other users' requests come in the model's table order, by increasing id |
| ItemRequestService.OthersRequestOnSomePage | service/src/main/java/ru/practicum/shareit/request/service/ItemRequestServiceImpl.java:74 | with any page length, each other user's request is on some page |
| ItemRequestService.GetUserRequestsById | service/src/main/java/ru/practicum/shareit/request/service/ItemRequestServiceImpl.java:69-78 | an unknown caller is refused; then the page request's error, or the views of one page of everyone else's requests |
| ItemRequestService.OthersFirstPageComplete | service/src/main/java/ru/practicum/shareit/request/service/ItemRequestServiceImpl.java:74 | a first page large enough for them holds every other user's request |
| ItemRequestService.GetItemRequestById | service/src/main/java/ru/practicum/shareit/request/service/ItemRequestServiceImpl.java:58-67 | the caller is checked, then the request; any caller may read any request, shown with the items that answer it |
| ItemRequestService.RequestShowsItsItems | service/src/main/java/ru/practicum/shareit/request/service/ItemRequestServiceImpl.java:66 | every stored item answering the request is among the items shown |
| UserService.CreateUser | src/main/java/ru/practicum/shareit/user/service/UserServiceImpl.java:28-39 | fails, saving nothing, exactly when name or e-mail is null or the e-mail is taken, as AlreadyExisted naming the e-mail; otherwise the user is appended under the next id; a store whose bookings were sound stays so |
| UserService.CreatedUserFound | src/main/java/ru/practicum/shareit/user/service/UserServiceImpl.java:29-39 | a registered user is found under the new id with the name and e-mail sent |
| UserService.PatchUser | src/main/java/ru/practicum/shareit/user/service/UserServiceImpl.java:46-51 | name and e-mail change only when given and not blank; the id is kept |
| UserService.PatchUserOfNothing | src/main/java/ru/practicum/shareit/user/service/UserServiceImpl.java:46-51 | a patch of nulls and blanks changes nothing |
| UserService.PatchUserIdempotent | src/main/java/ru/practicum/shareit/user/service/UserServiceImpl.java:46-51 | applying the same patch twice is applying it once |
| UserService.UpdateUser | src/main/java/ru/practicum/shareit/user/service/UserServiceImpl.java:41-62 | a missing user gives "Такого пользователя нет."; the patched user is refused exactly when another user holds its e-mail; otherwise only that row is replaced and found again; a store whose bookings were sound stays so |
| UserService.KeepingOwnEmailAllowed | src/main/java/ru/practicum/shareit/user/service/UserServiceImpl.java:49-61 | keeping one's own e-mail, or sending none, never clashes |
| UserService.GetUserById | src/main/java/ru/practicum/shareit/user/service/UserServiceImpl.java:64-69 | the view of the stored user with the id, or "Такого пользователя нет." exactly when there is none |
| UserService.GetAllUsers | src/main/java/ru/practicum/shareit/user/service/UserServiceImpl.java:71-85 | one view per stored user, in table order, with the same length |
| UserService.ListedUsersFound | src/main/java/ru/practicum/shareit/user/service/UserServiceImpl.java:73-85 | every listed user is found by id with the same view |
| UserService.DeleteUser | src/main/java/ru/practicum/shareit/user/service/UserServiceImpl.java:87-94 | a missing user gives "Такого пользователя нет."; the delete is refused exactly when a row points at the user; otherwise the user table loses exactly that row and the other tables are unchanged; a store whose bookings were sound stays so |
| ItemStorage.LowerCaseTwice | src/main/java/ru/practicum/shareit/item/storage/ItemStorageImpl.java:67-72 | lower-casing twice is lower-casing once |
| ItemStorage.SearchIgnoresCase | src/main/java/ru/practicum/shareit/item/storage/ItemStorageImpl.java:66-75 | the search does not depend on the case of the text |
| ItemStorage.SearchOnlyAvailable | src/main/java/ru/practicum/shareit/item/storage/ItemStorageImpl.java:73 | a search never returns an unavailable item |
| ItemStorage.OwnerItems | src/main/java/ru/practicum/shareit/item/storage/ItemStorageImpl.java:37-41 | the items the index lists for an owner, none when there is no entry |
| ItemStorage.StoredValues | src/main/java/ru/practicum/shareit/item/storage/ItemStorageImpl.java:69 | `HashMap.values`: exactly the stored items |
| ItemStorage.OwnerItemsExact | src/main/java/ru/practicum/shareit/item/storage/ItemStorageImpl.java:37-41 | when the index lists every stored item and nothing else, an owner's listing is exactly the stored items of that owner |
| ItemStorage.StaleEntryNotStored | src/main/java/ru/practicum/shareit/item/storage/ItemStorageImpl.java:59-63 | dropping an item from the main map only leaves an index entry that is no longer stored, still listed under its owner |
| ItemStorage.DropKeepsOnlyStored | src/main/java/ru/practicum/shareit/item/storage/ItemStorageImpl.java:59-63 | dropping an item from both maps keeps the index exact |
| ItemStorage.OwnerItemMap | src/main/java/ru/practicum/shareit/item/storage/ItemStorageImpl.java:23 | `computeIfAbsent`: the owner's entry, or a fresh empty one |
| ItemStorage.ItemStorage.constructor | src/main/java/ru/practicum/shareit/item/storage/ItemStorageImpl.java:12-14 | counter 1, both maps empty |
| ItemStorage.ItemStorage.GetItemById | src/main/java/ru/practicum/shareit/item/storage/ItemStorageImpl.java:28-34 | a copy exactly when the id is stored, empty otherwise |
| ItemStorage.ItemStorage.GetAllItems | src/main/java/ru/practicum/shareit/item/storage/ItemStorageImpl.java:36-41 | with an exact index, exactly the stored items of the owner; none for an unknown owner |
| ItemStorage.ItemStorage.CreateItem | src/main/java/ru/practicum/shareit/item/storage/ItemStorageImpl.java:16-26 | the item gets the counter's value as id, the counter moves on, the item is stored and listed under its owner and then found by id; the invariant is kept |
| ItemStorage.ItemStorage.UpdateItem | src/main/java/ru/practicum/shareit/item/storage/ItemStorageImpl.java:43-56 | an unknown id fails on the missing entry; a non-owner gets NotFound "Вещь не найдена" with both maps unchanged; the owner's item is replaced in the main map and in the caller's index entry, whatever owner the new item names; the invariant is kept when it keeps the caller as owner |
| ItemStorage.ItemStorage.RemoveItem | src/main/java/ru/practicum/shareit/item/storage/ItemStorageImpl.java:58-63 | as written: only the main map loses the item, the owner index is unchanged and still lists it |
| ItemStorage.ItemStorage.RemoveItemCorrected | src/main/java/ru/practicum/shareit/item/storage/ItemStorageImpl.java:58-63 | as intended: the item leaves both maps, is no longer found and is no longer listed under its owner |
| ItemStorage.ItemStorage.Search | src/main/java/ru/practicum/shareit/item/storage/ItemStorageImpl.java:65-75 | exactly the stored items that are available and whose lower-cased name or description contains the lower-cased text |
| UserStorage.EmailsOf | src/main/java/ru/practicum/shareit/user/storage/UserStorageImpl.java:13 | the e-mails of the stored users, exactly |
| UserStorage.EmailsOfAdd | src/main/java/ru/practicum/shareit/user/storage/UserStorageImpl.java:20-22 | storing a user with an unused e-mail adds exactly that e-mail and keeps e-mails distinct |
| UserStorage.EmailsOfReplace | src/main/java/ru/practicum/shareit/user/storage/UserStorageImpl.java:47-49 | replacing a user by one keeping its e-mail or taking an unused one swaps the old e-mail for the new and keeps e-mails distinct |
| UserStorage.EmailsOfRemove | src/main/java/ru/practicum/shareit/user/storage/UserStorageImpl.java:55-56 | removing a user frees exactly its e-mail |
| UserStorage.EmailClashIsOtherUser | src/main/java/ru/practicum/shareit/user/storage/UserStorageImpl.java:44 | an e-mail in use that is not the user's own is held by another user, and only then |
| UserStorage.UserStorage.constructor | src/main/java/ru/practicum/shareit/user/storage/UserStorageImpl.java:11-13 | counter 1, no users, no e-mails |
| UserStorage.UserStorage.CreateUser | src/main/java/ru/practicum/shareit/user/storage/UserStorageImpl.java:15-25 | an e-mail in use gives AlreadyExisted "Email already exists" and changes nothing; otherwise the user gets a fresh id from the counter, is stored and its e-mail recorded; the e-mail set stays exactly the users' e-mails, all distinct |
| UserStorage.UserStorage.GetUserById | src/main/java/ru/practicum/shareit/user/storage/UserStorageImpl.java:27-34 | a copy exactly when the id is stored, empty otherwise |
| UserStorage.UserStorage.GetAllUsers | src/main/java/ru/practicum/shareit/user/storage/UserStorageImpl.java:36-39 | exactly the stored users, no two sharing an e-mail |
| UserStorage.UserStorage.UpdateUser | src/main/java/ru/practicum/shareit/user/storage/UserStorageImpl.java:42-51 | an unknown id fails on the missing entry; refused, changing nothing, exactly when another user holds the e-mail; otherwise the old e-mail is swapped for the new and the user replaced; the invariant is kept |
| UserStorage.UserStorage.DeleteUser | src/main/java/ru/practicum/shareit/user/storage/UserStorageImpl.java:53-57 | an unknown id fails on the empty Optional; otherwise the user and its e-mail go and the user is no longer found; the invariant is kept |

## Left out
- Order of unordered queries and of ties: `findAllByRequesterIdNot` and
  `findAllByRequestId` (service/src/main/java/ru/practicum/shareit/request/service/ItemRequestServiceImpl.java:74, 66),
  the paged search (service/src/main/java/ru/practicum/shareit/item/service/ItemServiceImpl.java:129),
  the first version's `findAllByOwnerId` and search
  (src/main/java/ru/practicum/shareit/item/service/ItemServiceImpl.java:68, 119)
  and `findAll` (src/main/java/ru/practicum/shareit/user/service/UserServiceImpl.java:75)
  have no ORDER BY. Bookings with equal starts
  (src/main/java/ru/practicum/shareit/booking/service/BookingServiceImpl.java:100, 135)
  and requests with equal creation times
  (service/src/main/java/ru/practicum/shareit/request/service/ItemRequestServiceImpl.java:51)
  tie. The model returns such rows in table (id) order on every call; the
  database may order them differently on each LIMIT/OFFSET query, so a row
  could be skipped or repeated across pages. The order and page-completeness
  lemmas in the next eight lines hold of the program only when the database
  returns one stable order.
- ItemRequestService.OthersRequestsInStoreOrder: states the model's table order, which the query does not promise.
- ItemRequestService.OthersRequestOnSomePage: holds only if the database pages one stable order.
- ItemRequestService.OthersFirstPageComplete: holds only if the database pages one stable order.
- ItemRequestService.OwnRequestsPagesOneOrdering: holds only if requests with equal creation times keep one order across queries.
- ItemRequestService.OwnRequestOnSomePage: holds only if requests with equal creation times keep one order across queries.
- BookingRepository.SelectPagesOneOrdering: holds only if bookings with equal starts keep one order across queries.
- BookingRepository.EveryMatchOnSomePage: holds only if bookings with equal starts keep one order across queries.
- BookingService.ListingCoversAll: holds only if bookings with equal starts keep one order across queries.
- Database.Store.InsertItem, Database.Store.UpdateItem: do not enforce the
  200-character limit of the `description` column
  (src/main/java/ru/practicum/shareit/item/model/Item.java:26-27); an over-long
  description is stored rather than refused by the database.
- Controllers, the gateway, the exception handler's mapping to HTTP status codes, bean validation annotations, logging and JSON serialisation are not modelled. They are transport only.
- The clock: every `LocalDateTime.now()` is the parameter `now`, read once per operation. The source reads it more than once in two places. `createComment` reads it for the eligibility check and again for the comment's creation time (service/src/main/java/ru/practicum/shareit/item/service/ItemServiceImpl.java:150, 160). `ItemMapper.toItemDtoWithBookingsFromItem` reads it once per item mapped (src/main/java/ru/practicum/shareit/mapper/ItemMapper.java:42), so the items of one listing may see different times.
- Aliasing in the first-version stores: entities are values in the model. `ItemStorageImpl.createItem` and `updateItem` store the caller's own object (src/main/java/ru/practicum/shareit/item/storage/ItemStorageImpl.java:22-23, 52-53). `UserStorageImpl.createUser` returns the stored object (src/main/java/ru/practicum/shareit/user/storage/UserStorageImpl.java:24). `getAllItems` and `getAllUsers` hand out the stored objects (ItemStorageImpl.java:39, UserStorageImpl.java:38). A later change a caller makes to such an object changes the store in Java, and for a user's e-mail it can break the e-mail set invariant. The model does not capture this for ItemStorage.ItemStorage.CreateItem, ItemStorage.ItemStorage.UpdateItem, ItemStorage.ItemStorage.GetAllItems, UserStorage.UserStorage.CreateUser or UserStorage.UserStorage.GetAllUsers.
- Transactions and concurrency: operations run one at a time. Simultaneous confirmations are not modelled.
- The database schema is not part of this model. `Store` assumes the constraints the entities' columns imply: NOT NULL on the fields a DTO may leave null, the unique e-mail and the foreign keys. A violation is the `DataIntegrityViolation` error. In particular, deleting a user or item that other rows point at is refused.
- `ItemRepository.search` is a JPQL query that is not part of this model. Both item services use the rule `ItemStorageImpl.search` implements: available, and the lower-cased name or description contains the lower-cased text.
- Character case: `toUpperCase` is modelled for the characters whose upper case is ASCII (the ASCII letters, dotless i, long s, sharp s and the Latin ligatures) and keeps every other character; `toLowerCase` is modelled for ASCII letters only. Locale-specific and full Unicode case mapping is not modelled, so a search for non-ASCII text is case-sensitive in the model.
- Ids are unbounded integers. The wrap-around of `long` counters is not modelled.
- ItemStorage.ItemStorage.GetAllItems: `HashMap.values()` has no defined order, so the model returns a set and states nothing about the order of the list.
- ItemStorage.ItemStorage.Search: the same; `search` streams `HashMap.values()` (src/main/java/ru/practicum/shareit/item/storage/ItemStorageImpl.java:69-74), so the result is a set.
- UserStorage.UserStorage.GetAllUsers: the same; the result is a set.
- ItemStorage.ItemStorage.UpdateItem: promises the store's invariant afterwards only when the new item keeps the caller as owner. Given an item naming another owner, the source files it under the caller's index entry, and the model states that new state but not an invariant for it.
- `UserMapper` is a plain field copy and appears only as `UserService.ToUserDto`. `UserMapper.toGetBookingUserDtoFromUser` is not part of this model; the booker appears as its id.
- `orderByCreatedDesc` orders comments by ascending creation time, despite its name. The model follows the code (`Constant.CreatedOrdersAscending`).
- The unpaged `ItemServiceImpl.getItemById`, `updateItem` and `removeItem` are the same code as the paged ones. They are modelled once, by `ItemService.GetItemById`, `ItemService.UpdateItem` and `ItemService.RemoveItem`.

## Findings

| source | as written | input that shows it | evidently intended | confidence | as-written member | corrected member |
|---|---|---|---|---|---|---|
| src/main/java/ru/practicum/shareit/item/storage/ItemStorageImpl.java:59-63 | `itemsWithUsers.remove(item.getOwner())` removes the owner `User` object from a map keyed by the owner's `Long` id, so nothing is removed from the owner index | create an item for owner 1, then `removeItem(1)`: `getItemById(1)` is empty but `getAllItems(1)` still lists the item | remove the item's id from its owner's entry of the index, so the removed item is no longer listed | high (follows from the key types; not executed) | ItemStorage.ItemStorage.RemoveItem | ItemStorage.ItemStorage.RemoveItemCorrected |

