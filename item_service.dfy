/** The item catalog and comment ledger of the paged service: creating an item
    (optionally answering a request), the owner-only update and removal, the view
    of one item, the owner's paged list, the paged text search and comments by
    users who have rented the item. */
module ItemService {
  import opened Common
  import opened Domain
  import opened Database
  import opened Mapper
  import ItemStorage

  const UserMissing: Error := NotFound("Пользоваетль не найден.")
  const OwnerMissing: Error := NotFound("Пользователь не найден.")
  const NoSuchUser: Error := NotFound("Такого пользователя нет.")
  const NoSuchItem: Error := NotFound("Такого товара нет.")
  const RequestMissing: Error := NotFound("Запрос не найден")
  const CommentedItemMissing: Error := NotFound("вещь не найдена.")

  /** The refusal of a comment by a user who has not rented the item. */
  function NotRenterMessage(userId: int, itemId: int): string
  {
    "Пользователь с ID = " + DecimalString(userId) + " не брал в аренду вещь с ID = " + DecimalString(itemId)
  }

  // ---------------------------------------------------------------------------
  // createItem

  /** The first step of createItem that fails: the caller exists, a given request
      exists, and the store takes the item only with name, description and availability. */
  function CreateItemRefusal(t: Tables, userId: int, dto: CreateUpdateItemDto): Option<Error>
  {
    if FindUser(t, userId).None? then Some(UserMissing)
    else if dto.requestId.Some? && FindRequest(t, dto.requestId.value).None? then Some(RequestMissing)
    else if dto.name.None? || dto.description.None? || dto.available.None? then Some(DataIntegrityViolation)
    else None
  }

  /** The item createItem saves: the dto's fields, owned by the caller, linked to the request. */
  function NewItem(t: Tables, userId: int, dto: CreateUpdateItemDto): Item
    requires dto.name.Some? && dto.description.Some? && dto.available.Some?
  {
    Item(t.nextItemId, dto.name.value, dto.description.value, dto.available.value, userId, dto.requestId)
  }

  method CreateItem(db: Store, userId: int, dto: CreateUpdateItemDto) returns (r: Result<ItemDto>)
    requires db.Valid()
    modifies db
    ensures db.Valid()
    ensures r.Err? <==> CreateItemRefusal(old(db.tables), userId, dto).Some?
    ensures r.Err? ==> r.error == CreateItemRefusal(old(db.tables), userId, dto).value && db.tables == old(db.tables)
    ensures r.Ok? ==>
      var item := NewItem(old(db.tables), userId, dto);
      && db.tables == old(db.tables).(items := old(db.tables).items + [item],
                                      nextItemId := old(db.tables).nextItemId + 1)
      && r.value == ToItemDtoFromItem(ItemGraph(item, None, None))
    ensures BookingsSound(old(db.tables)) ==> BookingsSound(db.tables)
  {
    var user := FindUser(db.tables, userId);
    if user.None? {
      return Err(UserMissing);
    }
    var draft := ToItemFromCreateUpdateItemDto(dto);
    draft := draft.(ownerId := Some(user.value.id));
    if dto.requestId.Some? {
      var request := FindRequest(db.tables, dto.requestId.value);
      if request.None? {
        return Err(RequestMissing);
      }
      draft := draft.(requestId := Some(request.value.id));
    }
    ghost var t0 := db.tables;
    var saved := db.InsertItem(draft);
    if saved.Err? {
      return Err(saved.error);
    }
    r := Ok(ToItemDtoFromItem(ItemGraph(saved.value, None, None)));
    if BookingsSound(t0) {
      AddItemKeepsSound(t0, saved.value);
    }
  }

  /** A missing caller is reported before the request is looked up, and the item
      goes in exactly when the caller exists, a given request exists and no field is null. */
  lemma CreateItemAdmits(t: Tables, userId: int, dto: CreateUpdateItemDto)
    ensures userId !in Ids(t.users, UserKey) ==> CreateItemRefusal(t, userId, dto) == Some(UserMissing)
    ensures CreateItemRefusal(t, userId, dto).None? <==>
      && userId in Ids(t.users, UserKey)
      && (dto.requestId.Some? ==> dto.requestId.value in Ids(t.requests, RequestKey))
      && dto.name.Some? && dto.description.Some? && dto.available.Some?
  {
  }

  /** After createItem the new item is found under its id, owned by the caller and
      linked to the given request. */
  lemma CreatedItemFound(t: Tables, userId: int, dto: CreateUpdateItemDto)
    requires Consistent(t) && CreateItemRefusal(t, userId, dto).None?
    ensures var item := NewItem(t, userId, dto);
      var t' := t.(items := t.items + [item], nextItemId := t.nextItemId + 1);
      && FindItem(t', t.nextItemId) == Some(item)
      && item.ownerId == userId && item.requestId == dto.requestId
  {
    var item := NewItem(t, userId, dto);
    AppendWellKeyed(t.items, item, ItemKey, t.nextItemId);
    FindAt(t.items + [item], ItemKey, |t.items|);
  }

  // ---------------------------------------------------------------------------
  // getItemById

  /** getItemById: the caller and the item must exist; the owner sees the last and
      next booking, anyone else the plain view. */
  function GetItemById(t: Tables, userId: int, id: int, now: Time): (r: Result<ItemDto>)
    requires Consistent(t)
    ensures userId !in Ids(t.users, UserKey) ==> r == Err(UserMissing)
    ensures userId in Ids(t.users, UserKey) && id !in Ids(t.items, ItemKey) ==> r == Err(NoSuchItem)
    ensures r.Ok? <==> userId in Ids(t.users, UserKey) && id in Ids(t.items, ItemKey)
    ensures r.Ok? ==>
      var g := ItemGraphOf(t, FindItem(t, id).value);
      && r.value.(lastBooking := None, nextBooking := None) == ToItemDtoFromItem(g)
      && (FindItem(t, id).value.ownerId != userId ==> r.value == ToItemDtoFromItem(g))
      && (FindItem(t, id).value.ownerId == userId ==> r.value == ToItemDtoWithBookingsFromItem(g, now))
  {
    if FindUser(t, userId).None? then Err(UserMissing)
    else if FindItem(t, id).None? then Err(NoSuchItem)
    else
      var item := FindItem(t, id).value;
      if item.ownerId == userId then Ok(ToItemDtoWithBookingsFromItem(ItemGraphOf(t, item), now))
      else Ok(ToItemDtoFromItem(ItemGraphOf(t, item)))
  }

  /** A stored booking belongs to the item's booking collection exactly when it is a booking of that item. */
  lemma BookingOfItem(t: Tables, item: Item, b: Booking)
    requires Consistent(t)
    ensures b in ItemGraphOf(t, item).bookings.value <==> b in t.bookings && b.itemId == item.id
  {
    var s := Filter(t.bookings, OfItem(item.id));
    if b in t.bookings && b.itemId == item.id {
      var i :| 0 <= i < |t.bookings| && t.bookings[i] == b;
      assert OfItem(item.id)(t.bookings[i]);
    }
    if b in s {
      var i :| 0 <= i < |s| && s[i] == b;
      assert OfItem(item.id)(s[i]);
    }
  }

  /** Only the owner is shown booking data. For the owner, the last booking is the
      approved booking of the item that started latest before now, and the next one
      the approved booking that starts earliest after now; each is there exactly when
      such a booking exists. */
  lemma OwnerSeesLastAndNextBooking(t: Tables, userId: int, id: int, now: Time)
    requires Consistent(t)
    requires GetItemById(t, userId, id, now).Ok?
    ensures var r := GetItemById(t, userId, id, now).value;
      r.lastBooking.Some? || r.nextBooking.Some? ==> FindItem(t, id).value.ownerId == userId
    ensures FindItem(t, id).value.ownerId == userId ==>
      var r := GetItemById(t, userId, id, now).value;
      && (r.lastBooking.Some? <==>
            exists b :: b in t.bookings && b.itemId == id && b.start < now && b.status == APPROVED)
      && (r.lastBooking.Some? ==> exists last ::
            && last in t.bookings && last.itemId == id && last.start < now && last.status == APPROVED
            && r.lastBooking == Some(BookingShort(last.id, last.bookerId))
            && forall b :: b in t.bookings && b.itemId == id && b.start < now && b.status == APPROVED ==>
                 b.start <= last.start)
      && (r.nextBooking.Some? <==>
            exists b :: b in t.bookings && b.itemId == id && b.start > now && b.status == APPROVED)
      && (r.nextBooking.Some? ==> exists next ::
            && next in t.bookings && next.itemId == id && next.start > now && next.status == APPROVED
            && r.nextBooking == Some(BookingShort(next.id, next.bookerId))
            && forall b :: b in t.bookings && b.itemId == id && b.start > now && b.status == APPROVED ==>
                 next.start <= b.start)
  {
    var item := FindItem(t, id).value;
    var g := ItemGraphOf(t, item);
    if item.ownerId == userId {
      var bs := g.bookings.value;
      LastBookingIsLatestBeforeNow(bs, now);
      NextBookingIsEarliestAfterNow(bs, now);
      forall b ensures b in bs <==> b in t.bookings && b.itemId == id {
        BookingOfItem(t, item, b);
      }
    }
  }

  // ---------------------------------------------------------------------------
  // getAllItems

  function OwnedBy(ownerId: int): Item -> bool
  {
    (it: Item) => it.ownerId == ownerId
  }

  /** findAllByOwnerId sorted by id ascending: the store keeps items in id order,
      so the sort leaves the owner's items as they are. */
  function OwnedItems(t: Tables, ownerId: int): (r: seq<Item>)
    ensures forall k :: 0 <= k < |r| ==> r[k] in t.items && r[k].ownerId == ownerId
    ensures forall it :: it in r <==> it in t.items && it.ownerId == ownerId
  {
    var r := Filter(t.items, OwnedBy(ownerId));
    forall it ensures it in r <==> it in t.items && it.ownerId == ownerId {
      FilterHas(t.items, OwnedBy(ownerId), it);
    }
    r
  }

  /** The item views with booking data, in order. */
  function ViewsWithBookings(t: Tables, items: seq<Item>, now: Time): (r: seq<ItemDto>)
    requires Consistent(t)
    ensures |r| == |items|
    ensures forall k :: 0 <= k < |items| ==> r[k] == ToItemDtoWithBookingsFromItem(ItemGraphOf(t, items[k]), now)
    ensures forall k :: 0 <= k < |items| ==> r[k].id == items[k].id
  {
    seq(|items|, k requires 0 <= k < |items| => ToItemDtoWithBookingsFromItem(ItemGraphOf(t, items[k]), now))
  }

  /** The plain item views, in order. */
  function PlainViews(t: Tables, items: seq<Item>): (r: seq<ItemDto>)
    requires Consistent(t)
    ensures |r| == |items|
    ensures forall k :: 0 <= k < |items| ==> r[k] == ToItemDtoFromItem(ItemGraphOf(t, items[k]))
    ensures forall k :: 0 <= k < |items| ==> r[k].id == items[k].id && r[k].available == items[k].available
  {
    ToItemDtos(ItemGraphsOf(t, items))
  }

  /** getAllItems: the caller must exist; one page of the caller's items, with booking data. */
  function GetAllItems(t: Tables, userId: int, from: int, size: int, now: Time): (r: Result<seq<ItemDto>>)
    requires Consistent(t)
    ensures userId !in Ids(t.users, UserKey) ==> r == Err(OwnerMissing)
    ensures userId in Ids(t.users, UserKey) ==>
      (r.Err? <==> PageRequestOf(from, size).Err?) && (r.Err? ==> r.error == PageRequestOf(from, size).error)
    ensures r.Ok? ==> |r.value| <= size
    ensures r.Ok? ==>
      var page := ApplyPage(OwnedItems(t, userId), PageRequestOf(from, size).value);
      r.value == ViewsWithBookings(t, page, now)
  {
    if FindUser(t, userId).None? then Err(OwnerMissing)
    else
      var page := PageRequestOf(from, size);
      if page.Err? then Err(page.error)
      else Ok(ViewsWithBookings(t, ApplyPage(OwnedItems(t, userId), page.value), now))
  }

  /** A page of the owner's list holds only the owner's items, in strictly
      increasing id order. */
  lemma AllItemsById(t: Tables, userId: int, p: Pageable, now: Time)
    requires Consistent(t)
    ensures var page := ApplyPage(OwnedItems(t, userId), p);
      var r := ViewsWithBookings(t, page, now);
      && (forall i, j :: 0 <= i < j < |r| ==> r[i].id < r[j].id)
      && (forall k :: 0 <= k < |r| ==> exists it :: it in t.items && it.id == r[k].id && it.ownerId == userId)
  {
    var owned := OwnedItems(t, userId);
    var page := ApplyPage(owned, p);
    FilterIncreasing(t.items, OwnedBy(userId), ItemKey);
    PageIncreasing(owned, ItemKey, p);
    var r := ViewsWithBookings(t, page, now);
    forall k | 0 <= k < |r| ensures exists it :: it in t.items && it.id == r[k].id && it.ownerId == userId {
      assert page[k] in owned;
      var i :| 0 <= i < |owned| && owned[i] == page[k];
    }
  }

  /** from = 5, size = 2 asks for page 2: the owner's fifth and sixth items. */
  lemma AllItemsFromFiveSizeTwo(t: Tables, userId: int, now: Time)
    requires Consistent(t) && userId in Ids(t.users, UserKey) && |OwnedItems(t, userId)| >= 6
    ensures var r := GetAllItems(t, userId, 5, 2, now);
      && r.Ok? && |r.value| == 2
      && r.value[0].id == OwnedItems(t, userId)[4].id && r.value[1].id == OwnedItems(t, userId)[5].id
  {
    assert PageRequestOf(5, 2) == Ok(Pageable(2, 2));
  }

  // ---------------------------------------------------------------------------
  // updateItem and removeItem

  /** The guards of updateItem and removeItem: the caller exists, the item exists and
      the caller owns it; a stranger is told the item does not exist. */
  function OwnerRefusal(t: Tables, userId: int, itemId: int): Option<Error>
  {
    if FindUser(t, userId).None? then Some(NoSuchUser)
    else if FindItem(t, itemId).None? then Some(NoSuchItem)
    else if userId != FindItem(t, itemId).value.ownerId then Some(NoSuchItem)
    else None
  }

  /** The partial update: a name or description replaces the old one only when given
      and not blank, the availability only when given; nothing else changes. */
  function Patch(item: Item, dto: CreateUpdateItemDto): (r: Item)
    ensures r.id == item.id && r.ownerId == item.ownerId && r.requestId == item.requestId
    ensures r.name == (if Given(dto.name) then dto.name.value else item.name)
    ensures r.description == (if Given(dto.description) then dto.description.value else item.description)
    ensures r.available == (if dto.available.Some? then dto.available.value else item.available)
  {
    var named := if Given(dto.name) then item.(name := dto.name.value) else item;
    var described := if Given(dto.description) then named.(description := dto.description.value) else named;
    if dto.available.Some? then described.(available := dto.available.value) else described
  }

  /** A patch of nulls and blanks changes nothing. */
  lemma PatchOfNothing(item: Item, dto: CreateUpdateItemDto)
    requires !Given(dto.name) && !Given(dto.description) && dto.available.None?
    ensures Patch(item, dto) == item
  {
  }

  /** Applying the same patch twice is applying it once. */
  lemma PatchIdempotent(item: Item, dto: CreateUpdateItemDto)
    ensures Patch(Patch(item, dto), dto) == Patch(item, dto)
  {
  }

  /** The patch sets every field it is given: a full patch yields those values. */
  lemma FullPatch(item: Item, name: string, description: string, available: bool)
    requires !IsBlank(name) && !IsBlank(description)
    ensures var r := Patch(item, CreateUpdateItemDto(Some(name), Some(description), Some(available), None));
      r == item.(name := name, description := description, available := available)
  {
  }

  method UpdateItem(db: Store, userId: int, itemId: int, dto: CreateUpdateItemDto) returns (r: Result<ItemDto>)
    requires db.Valid()
    modifies db
    ensures db.Valid()
    ensures r.Err? <==> OwnerRefusal(old(db.tables), userId, itemId).Some?
    ensures r.Err? ==> r.error == OwnerRefusal(old(db.tables), userId, itemId).value && db.tables == old(db.tables)
    ensures r.Ok? ==>
      var patched := Patch(FindItem(old(db.tables), itemId).value, dto);
      && db.tables == old(db.tables).(items := old(db.tables).items[IndexOf(old(db.tables).items, ItemKey, itemId) := patched])
      && r.value == ToItemDtoFromItem(ItemGraphOf(db.tables, patched))
    ensures BookingsSound(old(db.tables)) ==> BookingsSound(db.tables)
  {
    var user := FindUser(db.tables, userId);
    if user.None? {
      return Err(NoSuchUser);
    }
    var item := FindItem(db.tables, itemId);
    if item.None? {
      return Err(NoSuchItem);
    }
    if userId != item.value.ownerId {
      return Err(NoSuchItem);
    }
    var patched := Patch(item.value, dto);
    if BookingsSound(db.tables) {
      PatchKeepsSound(db.tables, itemId, dto);
    }
    db.UpdateItem(patched);
    r := Ok(ToItemDtoFromItem(ItemGraphOf(db.tables, patched)));
  }

  /** A patch keeps the item's id and owner, so the bookings stay sound. */
  lemma PatchKeepsSound(t: Tables, itemId: int, dto: CreateUpdateItemDto)
    requires Consistent(t) && BookingsSound(t) && itemId in Ids(t.items, ItemKey)
    ensures var i := IndexOf(t.items, ItemKey, itemId);
      BookingsSound(t.(items := t.items[i := Patch(FindItem(t, itemId).value, dto)]))
  {
    var it := FindItem(t, itemId).value;
    var j :| 0 <= j < |t.items| && t.items[j] == it;
    FindAt(t.items, ItemKey, j);
    SetItemKeepsSound(t, j, Patch(it, dto));
  }

  /** removeItem(itemId, userId): the owner's item is deleted; the store refuses
      while bookings or comments point at it. */
  method RemoveItem(db: Store, itemId: int, userId: int) returns (r: Result<()>)
    requires db.Valid()
    modifies db
    ensures db.Valid()
    ensures OwnerRefusal(old(db.tables), userId, itemId).Some? ==>
      r == Err(OwnerRefusal(old(db.tables), userId, itemId).value) && db.tables == old(db.tables)
    ensures OwnerRefusal(old(db.tables), userId, itemId).None? ==>
      && (r.Err? <==> ItemReferenced(old(db.tables), itemId))
      && (r.Err? ==> r.error == DataIntegrityViolation && db.tables == old(db.tables))
      && (r.Ok? ==> FindItem(db.tables, itemId).None? && db.tables.users == old(db.tables).users)
    ensures r.Ok? ==>
      var i := IndexOf(old(db.tables).items, ItemKey, itemId);
      db.tables == old(db.tables).(items := old(db.tables).items[..i] + old(db.tables).items[i + 1..])
    ensures BookingsSound(old(db.tables)) ==> BookingsSound(db.tables)
  {
    var user := FindUser(db.tables, userId);
    if user.None? {
      return Err(NoSuchUser);
    }
    var item := FindItem(db.tables, itemId);
    if item.None? {
      return Err(NoSuchItem);
    }
    if userId != item.value.ownerId {
      return Err(NoSuchItem);
    }
    r := db.DeleteItem(itemId);
    if r.Ok? {
      IdsOfRemove(old(db.tables).items, IndexOf(old(db.tables).items, ItemKey, itemId), ItemKey);
      if BookingsSound(old(db.tables)) {
        DropItemKeepsSound(old(db.tables), IndexOf(old(db.tables).items, ItemKey, itemId));
      }
    }
  }

  /** Owner-only: a user who does not own an existing item is told it does not exist. */
  lemma StrangerRefused(t: Tables, userId: int, itemId: int)
    requires userId in Ids(t.users, UserKey) && itemId in Ids(t.items, ItemKey)
    requires IncreasingIds(t.items, ItemKey)
    requires forall it :: it in t.items && it.id == itemId ==> it.ownerId != userId
    ensures OwnerRefusal(t, userId, itemId) == Some(NoSuchItem)
  {
    var i := IndexOf(t.items, ItemKey, itemId);
    FindAt(t.items, ItemKey, i);
  }

  // ---------------------------------------------------------------------------
  // search

  /** search: blank text finds nothing without a query; otherwise one page of the
      matching items in the model's table order, as plain views. */
  function Search(t: Tables, text: string, from: int, size: int): (r: Result<seq<ItemDto>>)
    requires Consistent(t)
    ensures IsBlank(text) ==> r == Ok([])
    ensures !IsBlank(text) ==>
      (r.Err? <==> PageRequestOf(from, size).Err?) && (r.Err? ==> r.error == PageRequestOf(from, size).error)
    ensures r.Ok? && !IsBlank(text) ==>
      var page := ApplyPage(Filter(t.items, ItemStorage.SearchHit(text)), PageRequestOf(from, size).value);
      r.value == PlainViews(t, page) && |r.value| <= size
  {
    if IsBlank(text) then Ok([])
    else
      var page := PageRequestOf(from, size);
      if page.Err? then Err(page.error)
      else Ok(PlainViews(t, ApplyPage(Filter(t.items, ItemStorage.SearchHit(text)), page.value)))
  }

  /** Every item a search shows is available and matches the text, ignoring case. */
  lemma SearchShowsOnlyMatches(t: Tables, text: string, from: int, size: int)
    requires Consistent(t) && Search(t, text, from, size).Ok?
    ensures var r := Search(t, text, from, size).value;
      forall k :: 0 <= k < |r| ==>
        r[k].available && exists it :: it in t.items && it.id == r[k].id && ItemStorage.SearchHit(text)(it)
  {
    var r := Search(t, text, from, size).value;
    if !IsBlank(text) {
      var page := ApplyPage(Filter(t.items, ItemStorage.SearchHit(text)), PageRequestOf(from, size).value);
      forall k | 0 <= k < |r|
        ensures r[k].available && exists it :: it in t.items && it.id == r[k].id && ItemStorage.SearchHit(text)(it)
      {
        var found := Filter(t.items, ItemStorage.SearchHit(text));
        assert page[k] in found;
        var i :| 0 <= i < |found| && found[i] == page[k];
        assert found[i] in t.items && ItemStorage.SearchHit(text)(found[i]);
      }
    }
  }

  // ---------------------------------------------------------------------------
  // createComment

  /** isBookingByUser: the item's bookings hold an approved one by the user that has ended. */
  predicate IsBookingByUser(g: ItemGraph, userId: int, now: Time)
  {
    g.bookings.Some? &&
    exists b :: b in g.bookings.value && b.bookerId == userId && b.end < now && b.status == APPROVED
  }

  /** The first guard of createComment that fails. */
  function CommentRefusal(t: Tables, userId: int, itemId: int, now: Time): Option<Error>
    requires Consistent(t)
  {
    if FindUser(t, userId).None? then Some(OwnerMissing)
    else if FindItem(t, itemId).None? then Some(CommentedItemMissing)
    else if !IsBookingByUser(ItemGraphOf(t, FindItem(t, itemId).value), userId, now) then
      Some(ShareItValidation(NotRenterMessage(userId, itemId)))
    else None
  }

  method CreateComment(db: Store, userId: int, itemId: int, dto: CreateUpdateCommentDto, now: Time)
    returns (r: Result<CommentDto>)
    requires db.Valid()
    modifies db
    ensures db.Valid()
    ensures r.Err? <==> CommentRefusal(old(db.tables), userId, itemId, now).Some?
    ensures r.Err? ==> r.error == CommentRefusal(old(db.tables), userId, itemId, now).value && db.tables == old(db.tables)
    ensures r.Ok? ==>
      var c := Comment(old(db.tables).nextCommentId, dto.text, userId, itemId, now);
      && db.tables == old(db.tables).(comments := old(db.tables).comments + [c],
                                      nextCommentId := old(db.tables).nextCommentId + 1)
      && r.value == ToCommentDtoFromComment(AuthoredComment(c, FindUser(old(db.tables), userId).value))
    ensures BookingsSound(old(db.tables)) ==> BookingsSound(db.tables)
  {
    var user := FindUser(db.tables, userId);
    if user.None? {
      return Err(OwnerMissing);
    }
    var item := FindItem(db.tables, itemId);
    if item.None? {
      return Err(CommentedItemMissing);
    }
    if !IsBookingByUser(ItemGraphOf(db.tables, item.value), user.value.id, now) {
      return Err(ShareItValidation(NotRenterMessage(userId, itemId)));
    }
    var draft := ToCommentFromCreateUpdateCommentDto(dto);
    draft := draft.(authorId := Some(user.value.id), itemId := Some(item.value.id), created := Some(now));
    var saved := db.InsertComment(draft);
    r := Ok(ToCommentDtoFromComment(AuthoredComment(saved, user.value)));
  }

  /** A user may comment on an existing item exactly when some stored booking of that
      item by that user is approved and ended strictly before now. */
  lemma CommentEligibility(t: Tables, userId: int, itemId: int, now: Time)
    requires Consistent(t) && userId in Ids(t.users, UserKey) && itemId in Ids(t.items, ItemKey)
    ensures CommentRefusal(t, userId, itemId, now).None? <==>
      exists b :: b in t.bookings && b.itemId == itemId && b.bookerId == userId && b.end < now && b.status == APPROVED
    ensures CommentRefusal(t, userId, itemId, now).Some? ==>
      CommentRefusal(t, userId, itemId, now).value == ShareItValidation(NotRenterMessage(userId, itemId))
  {
    var item := FindItem(t, itemId).value;
    forall b ensures b in ItemGraphOf(t, item).bookings.value <==> b in t.bookings && b.itemId == itemId {
      BookingOfItem(t, item, b);
    }
  }
}
