/** The entities of the item-sharing service and the shapes that cross its
    service boundary.  Timestamps are integers; every entity refers to the rows
    it points at by id, as the relational store does, and equality of users and
    items in the services is equality of ids. */
module Domain {
  import opened Common

  /** A point in time (LocalDateTime); a larger value is later. */
  type Time = int

  // ---------------------------------------------------------------------------
  // Entities (one table each)

  datatype User = User(id: int, name: string, email: string)

  /** The booking lifecycle: WAITING, then APPROVED or REJECTED; CANCELED is never set here. */
  datatype Status = WAITING | APPROVED | REJECTED | CANCELED

  datatype Item = Item(
    id: int,
    name: string,
    description: string,
    available: bool,
    ownerId: int,
    requestId: Option<int>)

  datatype Booking = Booking(
    id: int,
    start: Time,
    end: Time,
    status: Status,
    bookerId: int,
    itemId: int)

  datatype Comment = Comment(id: int, text: string, authorId: int, itemId: int, created: Time)

  datatype ItemRequest = ItemRequest(id: int, description: string, requesterId: int, created: Time)

  function UserKey(u: User): int { u.id }
  function ItemKey(i: Item): int { i.id }
  function BookingKey(b: Booking): int { b.id }
  function CommentKey(c: Comment): int { c.id }
  function RequestKey(r: ItemRequest): int { r.id }
  function BookingStart(b: Booking): int { b.start }

  // ---------------------------------------------------------------------------
  // Object graphs the mappers walk: an entity together with the associations
  // they navigate.  `None` is a collection the entity was built without (null).

  /** A comment with its author loaded. */
  datatype AuthoredComment = AuthoredComment(comment: Comment, author: User)

  /** An item with its `bookings` and `comments` associations. */
  datatype ItemGraph = ItemGraph(
    item: Item,
    bookings: Option<seq<Booking>>,
    comments: Option<seq<AuthoredComment>>)

  /** A booking with its `item` association. */
  datatype BookingGraph = BookingGraph(booking: Booking, item: Item)

  /** A request with its `items` association. */
  datatype RequestGraph = RequestGraph(request: ItemRequest, items: Option<seq<ItemGraph>>)

  // ---------------------------------------------------------------------------
  // Entities under construction: a builder leaves every field it is not given unset.

  datatype ItemDraft = ItemDraft(
    id: Option<int>,
    name: Option<string>,
    description: Option<string>,
    available: Option<bool>,
    ownerId: Option<int>,
    requestId: Option<int>)

  datatype BookingDraft = BookingDraft(
    id: Option<int>,
    start: Time,
    end: Time,
    status: Option<Status>,
    bookerId: Option<int>,
    itemId: Option<int>)

  datatype CommentDraft = CommentDraft(
    id: Option<int>,
    text: string,
    authorId: Option<int>,
    itemId: Option<int>,
    created: Option<Time>)

  // ---------------------------------------------------------------------------
  // Inputs

  datatype CreateUpdateBookingDto = CreateUpdateBookingDto(itemId: int, start: Time, end: Time)

  /** Every field may be null. */
  datatype CreateUpdateItemDto = CreateUpdateItemDto(
    name: Option<string>,
    description: Option<string>,
    available: Option<bool>,
    requestId: Option<int>)

  datatype CreateUpdateCommentDto = CreateUpdateCommentDto(text: string)

  datatype CreateUpdateItemRequestDto = CreateUpdateItemRequestDto(description: string)

  datatype CreateUpdateUserDto = CreateUpdateUserDto(name: Option<string>, email: Option<string>)

  // ---------------------------------------------------------------------------
  // Outputs

  /** GetBookingForItemDto: the item inside a booking view. */
  datatype ItemShort = ItemShort(id: int, name: string)

  /** GetBookingForGetItemDto: the last or next booking inside an item view. */
  datatype BookingShort = BookingShort(id: int, bookerId: int)

  datatype BookingDto = BookingDto(
    id: int,
    start: Time,
    end: Time,
    status: Status,
    item: ItemShort,
    bookerId: int)

  datatype CommentDto = CommentDto(id: int, text: string, authorName: string, created: Time)

  /** `comments` lists the sorted set in its iteration order. */
  datatype ItemDto = ItemDto(
    id: int,
    name: string,
    description: string,
    available: bool,
    lastBooking: Option<BookingShort>,
    nextBooking: Option<BookingShort>,
    comments: seq<CommentDto>)

  datatype ItemRequestDto = ItemRequestDto(
    id: int,
    description: string,
    created: Time,
    items: seq<ItemDto>)

  datatype UserDto = UserDto(id: int, name: string, email: string)
}
