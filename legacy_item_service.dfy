/** The first, unpaged version of the item service.  Its view of one item, its
    update and its removal are the same code as the paged service's and are not
    repeated here; what differs is below: items are created without a request
    link, the owner's list is not paged, the search checks the caller first, and
    a refused comment raises ValidationException. */
module LegacyItemService {
  import opened Common
  import opened Domain
  import opened Database
  import opened Mapper
  import ItemStorage
  import opened ItemService

  /** createItem: the caller must exist; the item is owned by the caller and never
      linked to a request. */
  method CreateItem(db: Store, userId: int, dto: CreateUpdateItemDto) returns (r: Result<ItemDto>)
    requires db.Valid()
    modifies db
    ensures db.Valid()
    ensures userId !in Ids(old(db.tables).users, UserKey) ==> r == Err(UserMissing) && db.tables == old(db.tables)
    ensures userId in Ids(old(db.tables).users, UserKey) ==>
      && (r.Err? <==> dto.name.None? || dto.description.None? || dto.available.None?)
      && (r.Err? ==> r.error == DataIntegrityViolation && db.tables == old(db.tables))
    ensures r.Ok? ==>
      var item := NewItem(old(db.tables), userId, dto.(requestId := None));
      && item.requestId.None? && item.ownerId == userId
      && db.tables == old(db.tables).(items := old(db.tables).items + [item],
                                      nextItemId := old(db.tables).nextItemId + 1)
      && r.value == ToItemDtoFromItem(ItemGraph(item, None, None))
    ensures BookingsSound(old(db.tables)) ==> BookingsSound(db.tables)
  {
    var user := FindUser(db.tables, userId);
    if user.None? {
      return Err(UserMissing);
    }
    var draft := ToItemFromCreateUpdateItemDto(dto);
    draft := draft.(ownerId := Some(user.value.id));
    var saved := db.InsertItem(draft);
    if saved.Err? {
      return Err(saved.error);
    }
    r := Ok(ToItemDtoFromItem(ItemGraph(saved.value, None, None)));
    if BookingsSound(old(db.tables)) {
      AddItemKeepsSound(old(db.tables), saved.value);
    }
  }

  /** getAllItems: the caller must exist; every one of the caller's items, in the
      model's table order, with booking data. */
  function GetAllItems(t: Tables, userId: int, now: Time): (r: Result<seq<ItemDto>>)
    requires Consistent(t)
    ensures r.Err? <==> userId !in Ids(t.users, UserKey)
    ensures r.Err? ==> r.error == OwnerMissing
    ensures r.Ok? ==> r.value == ViewsWithBookings(t, OwnedItems(t, userId), now)
  {
    if FindUser(t, userId).None? then Err(OwnerMissing)
    else Ok(ViewsWithBookings(t, OwnedItems(t, userId), now))
  }

  /** search(userId, text): the caller must exist even for blank text; blank text
      finds nothing; otherwise every matching item, in the model's table order, as plain views. */
  function Search(t: Tables, userId: int, text: string): (r: Result<seq<ItemDto>>)
    requires Consistent(t)
    ensures r.Err? <==> userId !in Ids(t.users, UserKey)
    ensures r.Err? ==> r.error == OwnerMissing
    ensures r.Ok? && IsBlank(text) ==> r.value == []
    ensures r.Ok? && !IsBlank(text) ==> r.value == PlainViews(t, Filter(t.items, ItemStorage.SearchHit(text)))
  {
    if FindUser(t, userId).None? then Err(OwnerMissing)
    else if IsBlank(text) then Ok([])
    else Ok(PlainViews(t, Filter(t.items, ItemStorage.SearchHit(text))))
  }

  /** The caller check comes first: an unknown caller is refused even for blank
      text, which the paged search answers with an empty list. */
  lemma UnknownCallerRefusedBeforeBlankText(t: Tables, userId: int, text: string, from: int, size: int)
    requires Consistent(t) && userId !in Ids(t.users, UserKey) && IsBlank(text)
    ensures Search(t, userId, text) == Err(OwnerMissing)
    ensures ItemService.Search(t, text, from, size) == Ok([])
  {
  }

  /** The first guard of createComment that fails; the refusal is a ValidationException. */
  function CommentRefusal(t: Tables, userId: int, itemId: int, now: Time): (r: Option<Error>)
    requires Consistent(t)
    ensures r.Some? <==> ItemService.CommentRefusal(t, userId, itemId, now).Some?
    ensures r.Some? && userId in Ids(t.users, UserKey) && itemId in Ids(t.items, ItemKey) ==>
      r.value == Validation(NotRenterMessage(userId, itemId))
  {
    if FindUser(t, userId).None? then Some(OwnerMissing)
    else if FindItem(t, itemId).None? then Some(CommentedItemMissing)
    else if !IsBookingByUser(ItemGraphOf(t, FindItem(t, itemId).value), userId, now) then
      Some(Validation(NotRenterMessage(userId, itemId)))
    else None
  }

  method CreateComment(db: Store, userId: int, itemId: int, dto: CreateUpdateCommentDto, now: Time)
    returns (r: Result<CommentDto>)
    requires db.Valid()
    modifies db
    ensures db.Valid()
    ensures r.Err? <==> CommentRefusal(old(db.tables), userId, itemId, now).Some?
    ensures r.Err? ==> r.error == CommentRefusal(old(db.tables), userId, itemId, now).value && db.tables == old(db.tables)
    ensures r.Ok? ==>
      var c := Comment(old(db.tables).nextCommentId, dto.text, userId, itemId, now);
      && db.tables == old(db.tables).(comments := old(db.tables).comments + [c],
                                      nextCommentId := old(db.tables).nextCommentId + 1)
      && r.value == ToCommentDtoFromComment(AuthoredComment(c, FindUser(old(db.tables), userId).value))
    ensures BookingsSound(old(db.tables)) ==> BookingsSound(db.tables)
  {
    var user := FindUser(db.tables, userId);
    if user.None? {
      return Err(OwnerMissing);
    }
    var item := FindItem(db.tables, itemId);
    if item.None? {
      return Err(CommentedItemMissing);
    }
    if !IsBookingByUser(ItemGraphOf(db.tables, item.value), user.value.id, now) {
      return Err(Validation(NotRenterMessage(userId, itemId)));
    }
    var draft := ToCommentFromCreateUpdateCommentDto(dto);
    draft := draft.(authorId := Some(user.value.id), itemId := Some(item.value.id), created := Some(now));
    var saved := db.InsertComment(draft);
    r := Ok(ToCommentDtoFromComment(AuthoredComment(saved, user.value)));
  }
}
