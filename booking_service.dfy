/** The booking engine: creating a booking, the owner's approval or rejection, the
    lookup of one booking and the two paged listings filtered by state.  Each
    operation runs an ordered chain of guards; the first that fails decides the
    error and nothing is saved. */
module BookingService {
  import opened Common
  import opened Domain
  import opened Database
  import opened BookingRepository
  import opened Mapper
  import S = BookingState

  function UserNotFound(userId: int): Error
  {
    NotFound("User with id " + DecimalString(userId) + " not found")
  }

  function ItemNotFound(itemId: int): Error
  {
    NotFound("Item with id " + DecimalString(itemId) + " not found")
  }

  const BookingMissing: Error := NotFound("Нет данных о бронирование.")
  const OwnItem: Error := NotFound("Владелей вещи не может забронировать свою вещь.")
  const BadPeriod: Error := ShareItValidation("Неправильное время бронирования.")
  const Unavailable: Error := ShareItValidation("Бронирование недоступно")
  const NotOwnersBooking: Error := NotFound("Бронирование не найдено.")
  const AlreadyApproved: Error := ShareItValidation("Бронирование недоступно.")
  const NotParticipant: Error := NotFound("Бронирование не найдено")

  /** The view of a booking whose item is stored, with that item loaded. */
  function ViewOf(t: Tables, b: Booking): (r: BookingDto)
    requires b.itemId in Ids(t.items, ItemKey)
    ensures r.id == b.id && r.start == b.start && r.end == b.end && r.status == b.status
    ensures r.bookerId == b.bookerId && r.item.id == b.itemId
  {
    ToBookingDtoFromBooking(Some(BookingGraph(b, FindItem(t, b.itemId).value))).value
  }

  /** Every stored booking's item is stored. */
  lemma BookedItemsStored(t: Tables)
    requires Consistent(t)
    ensures forall b :: b in t.bookings ==> b.itemId in Ids(t.items, ItemKey)
  {
    forall b | b in t.bookings ensures b.itemId in Ids(t.items, ItemKey) {
      var i :| 0 <= i < |t.bookings| && t.bookings[i] == b;
    }
  }

  // ---------------------------------------------------------------------------
  // createBooking

  /** The first guard of createBooking that fails: the caller exists, the item exists,
      the caller does not own it, the end is after the start, the item is available. */
  function CreateRefusal(t: Tables, userId: int, dto: CreateUpdateBookingDto): Option<Error>
  {
    if FindUser(t, userId).None? then Some(UserNotFound(userId))
    else if FindItem(t, dto.itemId).None? then Some(ItemNotFound(dto.itemId))
    else if FindItem(t, dto.itemId).value.ownerId == userId then Some(OwnItem)
    else if !(dto.end > dto.start) then Some(BadPeriod)
    else if !FindItem(t, dto.itemId).value.available then Some(Unavailable)
    else None
  }

  method CreateBooking(db: Store, userId: int, dto: CreateUpdateBookingDto) returns (r: Result<BookingDto>)
    requires db.Valid()
    modifies db
    ensures db.Valid()
    ensures r.Err? <==> CreateRefusal(old(db.tables), userId, dto).Some?
    ensures r.Err? ==> r.error == CreateRefusal(old(db.tables), userId, dto).value && db.tables == old(db.tables)
    ensures r.Ok? ==>
      var item := FindItem(old(db.tables), dto.itemId).value;
      var b := Booking(old(db.tables).nextBookingId, dto.start, dto.end, WAITING, userId, dto.itemId);
      && db.tables == old(db.tables).(bookings := old(db.tables).bookings + [b],
                                      nextBookingId := old(db.tables).nextBookingId + 1)
      && r.value == ToBookingDtoFromBooking(Some(BookingGraph(b, item))).value
      && b.end > b.start && item.ownerId != userId && item.available
    ensures BookingsSound(old(db.tables)) ==> BookingsSound(db.tables)
  {
    var user := FindUser(db.tables, userId);
    if user.None? {
      return Err(UserNotFound(userId));
    }
    var item := FindItem(db.tables, dto.itemId);
    if item.None? {
      return Err(ItemNotFound(dto.itemId));
    }
    if item.value.ownerId == userId {
      return Err(OwnItem);
    }
    if !(dto.end > dto.start) {
      return Err(BadPeriod);
    }
    if !item.value.available {
      return Err(Unavailable);
    }
    var draft := ToBookingFromCreateUpdateBookingDto(dto);
    draft := draft.(bookerId := Some(user.value.id));
    draft := draft.(itemId := Some(item.value.id));
    draft := draft.(status := Some(WAITING));
    ghost var t0 := db.tables;
    var saved := db.InsertBooking(draft);
    r := Ok(ToBookingDtoFromBooking(Some(BookingGraph(saved, item.value))).value);
    if BookingsSound(t0) {
      CreateAdmits(t0, userId, dto);
      AddBookingKeepsSound(t0, saved);
    }
  }

  /** createBooking goes through exactly when the caller and the item exist, the caller
      is not the owner, the end is strictly after the start and the item is available. */
  lemma CreateAdmits(t: Tables, userId: int, dto: CreateUpdateBookingDto)
    ensures CreateRefusal(t, userId, dto).None? <==>
      && userId in Ids(t.users, UserKey)
      && dto.itemId in Ids(t.items, ItemKey)
      && (forall it :: it in t.items && it.id == dto.itemId ==> it.ownerId != userId && it.available)
      && dto.end > dto.start
    requires IncreasingIds(t.items, ItemKey)
  {
    if dto.itemId in Ids(t.items, ItemKey) {
      var i := IndexOf(t.items, ItemKey, dto.itemId);
      FindAt(t.items, ItemKey, i);
      forall it | it in t.items && it.id == dto.itemId ensures it == t.items[i] {
        var j :| 0 <= j < |t.items| && t.items[j] == it;
        FindAt(t.items, ItemKey, j);
      }
    }
  }

  /** A booking that ends when it starts is refused once the caller and the item pass. */
  lemma EmptyPeriodRefused(t: Tables, userId: int, dto: CreateUpdateBookingDto)
    requires dto.end == dto.start
    requires userId in Ids(t.users, UserKey) && dto.itemId in Ids(t.items, ItemKey)
    requires FindItem(t, dto.itemId).value.ownerId != userId
    ensures CreateRefusal(t, userId, dto) == Some(BadPeriod)
  {
  }

  // ---------------------------------------------------------------------------
  // confirmedBooking

  /** The first guard of confirmedBooking that fails: the caller exists, the booking
      exists, the caller owns its item, it is not already approved. */
  function ConfirmRefusal(t: Tables, userId: int, bookingId: int): Option<Error>
  {
    if FindUser(t, userId).None? then Some(UserNotFound(userId))
    else if FindBooking(t, bookingId).None? then Some(BookingMissing)
    else if OwnerOf(t.items, FindBooking(t, bookingId).value) != Some(userId) then Some(NotOwnersBooking)
    else if FindBooking(t, bookingId).value.status == APPROVED then Some(AlreadyApproved)
    else None
  }

  method ConfirmedBooking(db: Store, userId: int, bookingId: int, approved: bool) returns (r: Result<BookingDto>)
    requires db.Valid()
    modifies db
    ensures db.Valid()
    ensures r.Err? <==> ConfirmRefusal(old(db.tables), userId, bookingId).Some?
    ensures r.Err? ==> r.error == ConfirmRefusal(old(db.tables), userId, bookingId).value && db.tables == old(db.tables)
    ensures r.Ok? ==>
      var b := FindBooking(old(db.tables), bookingId).value;
      var decided := b.(status := if approved then APPROVED else REJECTED);
      && db.tables == old(db.tables).(bookings := old(db.tables).bookings[IndexOf(old(db.tables).bookings, BookingKey, bookingId) := decided])
      && b.itemId in Ids(old(db.tables).items, ItemKey)
      && r.value == ViewOf(old(db.tables), decided)
    ensures BookingsSound(old(db.tables)) ==> BookingsSound(db.tables)
  {
    var user := FindUser(db.tables, userId);
    if user.None? {
      return Err(UserNotFound(userId));
    }
    var booking := FindBooking(db.tables, bookingId);
    if booking.None? {
      return Err(BookingMissing);
    }
    if OwnerOf(db.tables.items, booking.value) != Some(user.value.id) {
      return Err(NotOwnersBooking);
    }
    if booking.value.status == APPROVED {
      return Err(AlreadyApproved);
    }
    var decided := booking.value.(status := if approved then APPROVED else REJECTED);
    r := Ok(ViewOf(db.tables, decided));
    if BookingsSound(db.tables) {
      DecisionKeepsSound(db.tables, bookingId, decided.status);
    }
    db.UpdateBooking(decided);
  }

  /** Deciding a booking changes only its status, so the bookings stay sound. */
  lemma DecisionKeepsSound(t: Tables, bookingId: int, status: Status)
    requires Consistent(t) && BookingsSound(t) && bookingId in Ids(t.bookings, BookingKey)
    ensures var i := IndexOf(t.bookings, BookingKey, bookingId);
      BookingsSound(t.(bookings := t.bookings[i := FindBooking(t, bookingId).value.(status := status)]))
  {
    var b := FindBooking(t, bookingId).value;
    var j :| 0 <= j < |t.bookings| && t.bookings[j] == b;
    FindAt(t.bookings, BookingKey, j);
    SetBookingKeepsSound(t, j, b.(status := status));
  }

  /** Owner-only: a caller who does not own the booked item is refused with NotFound,
      whatever the booking's status. */
  lemma ConfirmByStrangerRefused(t: Tables, userId: int, bookingId: int)
    requires Consistent(t) && userId in Ids(t.users, UserKey) && bookingId in Ids(t.bookings, BookingKey)
    requires forall it :: it in t.items && it.id == FindBooking(t, bookingId).value.itemId ==> it.ownerId != userId
    ensures ConfirmRefusal(t, userId, bookingId) == Some(NotOwnersBooking)
  {
    var b := FindBooking(t, bookingId).value;
    BookedItemsStored(t);
    var i := IndexOf(t.items, ItemKey, b.itemId);
    FindAt(t.items, ItemKey, i);
  }

  /** Only an approved booking is final: the owner may approve or reject a waiting,
      rejected or canceled booking. */
  lemma ConfirmAdmits(t: Tables, userId: int, bookingId: int)
    requires Consistent(t) && userId in Ids(t.users, UserKey) && bookingId in Ids(t.bookings, BookingKey)
    requires exists it :: it in t.items && it.id == FindBooking(t, bookingId).value.itemId && it.ownerId == userId
    ensures ConfirmRefusal(t, userId, bookingId).None? <==> FindBooking(t, bookingId).value.status != APPROVED
    ensures FindBooking(t, bookingId).value.status == APPROVED ==> ConfirmRefusal(t, userId, bookingId) == Some(AlreadyApproved)
  {
    var b := FindBooking(t, bookingId).value;
    var j :| 0 <= j < |t.items| && t.items[j].id == b.itemId && t.items[j].ownerId == userId;
    FindAt(t.items, ItemKey, j);
  }

  // ---------------------------------------------------------------------------
  // getById

  /** getById: the caller must exist, the booking must exist, and the caller must be
      its booker or the owner of its item. */
  function GetById(t: Tables, userId: int, bookingId: int): (r: Result<BookingDto>)
    requires Consistent(t)
    ensures r.Ok? <==>
      && userId in Ids(t.users, UserKey)
      && bookingId in Ids(t.bookings, BookingKey)
      && (FindBooking(t, bookingId).value.bookerId == userId
          || OwnerOf(t.items, FindBooking(t, bookingId).value) == Some(userId))
    ensures r.Ok? ==>
      var b := FindBooking(t, bookingId).value;
      b.itemId in Ids(t.items, ItemKey) && r.value == ViewOf(t, b) && r.value.id == bookingId
    ensures userId !in Ids(t.users, UserKey) ==> r == Err(UserNotFound(userId))
    ensures userId in Ids(t.users, UserKey) && bookingId !in Ids(t.bookings, BookingKey) ==> r == Err(BookingMissing)
    ensures r.Err? && userId in Ids(t.users, UserKey) && bookingId in Ids(t.bookings, BookingKey) ==>
      r == Err(NotParticipant)
  {
    if FindUser(t, userId).None? then Err(UserNotFound(userId))
    else if FindBooking(t, bookingId).None? then Err(BookingMissing)
    else
      var b := FindBooking(t, bookingId).value;
      BookedItemsStored(t);
      if b.bookerId != userId && OwnerOf(t.items, b) != Some(userId) then Err(NotParticipant)
      else Ok(ViewOf(t, b))
  }

  // ---------------------------------------------------------------------------
  // The listings

  /** What each state admits, at the given time. */
  predicate Admits(state: S.State, b: Booking, now: Time)
  {
    match state
    case ALL => true
    case CURRENT => b.start < now && b.end > now
    case PAST => b.end < now
    case FUTURE => b.start > now
    case WAITING => b.status == WAITING
    case REJECTED => b.status == REJECTED
  }

  function BookerFilter(bookerId: int, state: S.State, now: Time): Booking -> bool
  {
    (b: Booking) => b.bookerId == bookerId && Admits(state, b, now)
  }

  function OwnerFilter(items: seq<Item>, ownerId: int, state: S.State, now: Time): Booking -> bool
  {
    (b: Booking) => OwnerOf(items, b) == Some(ownerId) && Admits(state, b, now)
  }

  /** The query the booker listing runs for each state: it selects exactly the
      booker's bookings that the state admits. */
  function BookerQuery(t: Tables, state: S.State, bookerId: int, now: Time, page: Pageable): (r: seq<Booking>)
    ensures r == Select(t.bookings, BookerFilter(bookerId, state, now), page)
  {
    var q := BookerFilter(bookerId, state, now);
    match state
    case ALL =>
      FilterCongruent(t.bookings, BookerIs(bookerId), q);
      FindAllByBookerId(t, bookerId, page)
    case WAITING =>
      FilterCongruent(t.bookings, BookerAndStatus(bookerId, WAITING), q);
      FindAllByBookerIdAndStatus(t, bookerId, WAITING, page)
    case REJECTED =>
      FilterCongruent(t.bookings, BookerAndStatus(bookerId, REJECTED), q);
      FindAllByBookerIdAndStatus(t, bookerId, REJECTED, page)
    case PAST =>
      FilterCongruent(t.bookings, BookerAndEndBefore(bookerId, now), q);
      FindAllByBookerIdAndEndBefore(t, bookerId, now, page)
    case FUTURE =>
      FilterCongruent(t.bookings, BookerAndStartAfter(bookerId, now), q);
      FindAllByBookerIdAndStartAfter(t, bookerId, now, page)
    case CURRENT =>
      FilterCongruent(t.bookings, BookerAndCurrent(bookerId, now), q);
      FindAllByBookerIdAndStartBeforeAndEndAfter(t, bookerId, now, page)
  }

  /** The query the owner listing runs for each state (ALL falls to the default
      branch): it selects exactly the bookings of the owner's items that the state admits. */
  function OwnerQuery(t: Tables, state: S.State, ownerId: int, now: Time, page: Pageable): (r: seq<Booking>)
    ensures r == Select(t.bookings, OwnerFilter(t.items, ownerId, state, now), page)
  {
    var q := OwnerFilter(t.items, ownerId, state, now);
    match state
    case WAITING =>
      FilterCongruent(t.bookings, OwnerAndStatus(t.items, ownerId, WAITING), q);
      FindAllByOwnerIdAndStatus(t, ownerId, WAITING, page)
    case REJECTED =>
      FilterCongruent(t.bookings, OwnerAndStatus(t.items, ownerId, REJECTED), q);
      FindAllByOwnerIdAndStatus(t, ownerId, REJECTED, page)
    case PAST =>
      FilterCongruent(t.bookings, OwnerAndEndBefore(t.items, ownerId, now), q);
      FindAllByOwnerIdAndEndBefore(t, ownerId, now, page)
    case FUTURE =>
      FilterCongruent(t.bookings, OwnerAndStartAfter(t.items, ownerId, now), q);
      FindAllByOwnerIdAndStartAfter(t, ownerId, now, page)
    case CURRENT =>
      FilterCongruent(t.bookings, OwnerAndCurrent(t.items, ownerId, now), q);
      FindAllByOwnerIdAndStartBeforeAndEndAfter(t, ownerId, now, page)
    case ALL =>
      FilterCongruent(t.bookings, OwnerIs(t.items, ownerId), q);
      FindAllByOwnerId(t, ownerId, page)
  }

  /** The views of bookings whose items are stored, in order. */
  function Views(t: Tables, bs: seq<Booking>): (r: seq<BookingDto>)
    requires forall k :: 0 <= k < |bs| ==> bs[k].itemId in Ids(t.items, ItemKey)
    ensures |r| == |bs| && forall k :: 0 <= k < |bs| ==> r[k] == ViewOf(t, bs[k])
  {
    seq(|bs|, k requires 0 <= k < |bs| => ViewOf(t, bs[k]))
  }

  /** A listing: the caller must exist, then the page is built from `from / size`,
      then the selected bookings are viewed. */
  function Listing(t: Tables, userId: int, from: int, size: int, p: Booking -> bool): (r: Result<seq<BookingDto>>)
    requires Consistent(t)
    ensures userId !in Ids(t.users, UserKey) ==> r == Err(UserNotFound(userId))
    ensures userId in Ids(t.users, UserKey) ==>
      (r.Err? <==> PageRequestOf(from, size).Err?) && (r.Err? ==> r.error == PageRequestOf(from, size).error)
    ensures r.Ok? ==> |r.value| <= size
    ensures r.Ok? ==>
      var bs := Select(t.bookings, p, PageRequestOf(from, size).value);
      (forall k :: 0 <= k < |bs| ==> bs[k].itemId in Ids(t.items, ItemKey)) && r.value == Views(t, bs)
  {
    if FindUser(t, userId).None? then Err(UserNotFound(userId))
    else
      var page := PageRequestOf(from, size);
      if page.Err? then Err(page.error)
      else
        var bs := Select(t.bookings, p, page.value);
        BookedItemsStored(t);
        Ok(Views(t, bs))
  }

  /** getBookingsOfBooker. */
  function GetBookingsOfBooker(t: Tables, state: S.State, bookerId: int, from: int, size: int, now: Time): (r: Result<seq<BookingDto>>)
    requires Consistent(t)
    ensures r == Listing(t, bookerId, from, size, BookerFilter(bookerId, state, now))
  {
    if FindUser(t, bookerId).None? then Err(UserNotFound(bookerId))
    else
      var page := PageRequestOf(from, size);
      if page.Err? then Err(page.error)
      else
        BookedItemsStored(t);
        Ok(Views(t, BookerQuery(t, state, bookerId, now, page.value)))
  }

  /** getBookingsOfOwner. */
  function GetBookingsOfOwner(t: Tables, state: S.State, ownerId: int, from: int, size: int, now: Time): (r: Result<seq<BookingDto>>)
    requires Consistent(t)
    ensures r == Listing(t, ownerId, from, size, OwnerFilter(t.items, ownerId, state, now))
  {
    if FindUser(t, ownerId).None? then Err(UserNotFound(ownerId))
    else
      var page := PageRequestOf(from, size);
      if page.Err? then Err(page.error)
      else
        BookedItemsStored(t);
        Ok(Views(t, OwnerQuery(t, state, ownerId, now, page.value)))
  }

  /** Every entry of a listing is the view of a stored booking that the filter admits. */
  lemma ListingSound(t: Tables, userId: int, from: int, size: int, p: Booking -> bool)
    requires Consistent(t)
    ensures var r := Listing(t, userId, from, size, p);
      r.Ok? ==> forall k :: 0 <= k < |r.value| ==>
        exists b :: b in t.bookings && p(b) && b.itemId in Ids(t.items, ItemKey) && r.value[k] == ViewOf(t, b)
  {
    var page := PageRequestOf(from, size);
    if userId in Ids(t.users, UserKey) && page.Ok? {
      BookedItemsStored(t);
      var bs := Select(t.bookings, p, page.value);
      var r := Listing(t, userId, from, size, p);
      assert r.value == Views(t, bs);
      forall k | 0 <= k < |r.value|
        ensures exists b :: b in t.bookings && p(b) && b.itemId in Ids(t.items, ItemKey) && r.value[k] == ViewOf(t, b)
      {
        assert bs[k] in t.bookings && p(bs[k]);
        assert r.value[k] == ViewOf(t, bs[k]);
      }
    }
  }

  /** A listing comes latest start first. */
  lemma ListingLatestFirst(t: Tables, userId: int, from: int, size: int, p: Booking -> bool)
    requires Consistent(t)
    ensures var r := Listing(t, userId, from, size, p);
      r.Ok? ==> forall i, j :: 0 <= i < j < |r.value| ==> r.value[i].start >= r.value[j].start
  {
    var page := PageRequestOf(from, size);
    if page.Ok? {
      SelectLatestFirst(t.bookings, p, page.value);
    }
  }

  /** Nothing the filter admits is lost to paging: the booking at row `from` of the
      ordered result is listed by the request starting at `from`. */
  lemma ListingCoversAll(t: Tables, userId: int, size: int, p: Booking -> bool, b: Booking)
    requires Consistent(t) && userId in Ids(t.users, UserKey) && size >= 1
    requires b in t.bookings && p(b)
    ensures b.itemId in Ids(t.items, ItemKey)
    ensures exists from: int ::
      && 0 <= from && Listing(t, userId, from, size, p).Ok?
      && ViewOf(t, b) in Listing(t, userId, from, size, p).value
  {
    BookedItemsStored(t);
    var i, n := RowOfMatch(t.bookings, p, size, b);
    var page := Pageable(n, size);
    assert PageRequestOf(i, size) == Ok(page);
    var bs := Select(t.bookings, p, page);
    ViewListed(t, bs, b);
    assert ViewOf(t, b) in Listing(t, userId, i, size, p).value;
  }

  /** The view of a listed booking is among the views. */
  lemma ViewListed(t: Tables, bs: seq<Booking>, b: Booking)
    requires forall k :: 0 <= k < |bs| ==> bs[k].itemId in Ids(t.items, ItemKey)
    requires b in bs
    ensures b.itemId in Ids(t.items, ItemKey) && ViewOf(t, b) in Views(t, bs)
  {
    var k :| 0 <= k < |bs| && bs[k] == b;
    assert Views(t, bs)[k] == ViewOf(t, b);
  }

  lemma FirstPageHolds(bookings: seq<Booking>, p: Booking -> bool, page: Pageable, b: Booking)
    requires page.page == 0 && |Filter(bookings, p)| <= page.size
    requires b in bookings && p(b)
    ensures b in Select(bookings, p, page)
  {
    FirstPageHoldsAll(bookings, p, page);
  }

  /** Every booking a query selects has a stored item, so it can be viewed. */
  lemma SelectedItemsStored(t: Tables, p: Booking -> bool, page: Pageable)
    requires Consistent(t)
    ensures var bs := Select(t.bookings, p, page);
      forall k :: 0 <= k < |bs| ==> bs[k].itemId in Ids(t.items, ItemKey)
  {
    BookedItemsStored(t);
  }

  /** For an existing caller and a positive size, the first page lists the views of the selection. */
  lemma FirstListingIsViews(t: Tables, userId: int, size: int, p: Booking -> bool)
    requires Consistent(t) && userId in Ids(t.users, UserKey) && size >= 1
    ensures var bs := Select(t.bookings, p, Pageable(0, size));
      (forall k :: 0 <= k < |bs| ==> bs[k].itemId in Ids(t.items, ItemKey)) &&
      Listing(t, userId, 0, size, p) == Ok(Views(t, bs))
  {
    assert PageRequestOf(0, size) == Ok(Pageable(0, size));
    SelectedItemsStored(t, p, Pageable(0, size));
  }

  /** A first page at least as large as the matching bookings lists every one of them. */
  lemma ListingFirstPageComplete(t: Tables, userId: int, size: int, p: Booking -> bool, b: Booking)
    requires Consistent(t) && userId in Ids(t.users, UserKey) && size >= 1
    requires |Filter(t.bookings, p)| <= size
    requires b in t.bookings && p(b)
    ensures var r := Listing(t, userId, 0, size, p);
      r.Ok? && b.itemId in Ids(t.items, ItemKey) && ViewOf(t, b) in r.value
  {
    var page := Pageable(0, size);
    FirstPageHolds(t.bookings, p, page, b);
    SelectedItemsStored(t, p, page);
    FirstListingIsViews(t, userId, size, p);
    ViewListed(t, Select(t.bookings, p, page), b);
  }
}
