/** The item-request workflow: a user asks for an item, lists their own requests
    newest first, lists everyone else's, and looks one request up together with
    the items offered for it. */
module ItemRequestService {
  import opened Common
  import opened Domain
  import opened Database
  import opened Mapper
  import ItemService

  const RequesterMissing: Error := NotFound("Пользоваетль не найден.")
  const OwnRequesterMissing: Error := NotFound("Пользователь не найден")
  const RequestNotFound: Error := NotFound("Запрос не найден.")

  /** add: the caller must exist; the request is saved with the caller as requester
      and the current time as creation time, and shown without items. */
  method Add(db: Store, dto: CreateUpdateItemRequestDto, userId: int, now: Time) returns (r: Result<ItemRequestDto>)
    requires db.Valid()
    modifies db
    ensures db.Valid()
    ensures r.Err? <==> userId !in Ids(old(db.tables).users, UserKey)
    ensures r.Err? ==> r.error == RequesterMissing && db.tables == old(db.tables)
    ensures r.Ok? ==>
      var q := ItemRequest(old(db.tables).nextRequestId, dto.description, userId, now);
      && db.tables == old(db.tables).(requests := old(db.tables).requests + [q],
                                      nextRequestId := old(db.tables).nextRequestId + 1)
      && r.value == ItemRequestDto(q.id, dto.description, now, [])
    ensures BookingsSound(old(db.tables)) ==> BookingsSound(db.tables)
  {
    var user := FindUser(db.tables, userId);
    if user.None? {
      return Err(RequesterMissing);
    }
    var saved := db.InsertRequest(dto.description, user.value.id, now);
    r := Ok(ToItemRequestDtoFromItemRequest(RequestGraph(saved, None)));
  }

  /** The ORDER BY created DESC of the own-requests query: -1 when a is newer. */
  function NewestFirst(a: ItemRequest, b: ItemRequest): int
  {
    if a.created > b.created then -1
    else if a.created < b.created then 1
    else 0
  }

  function Age(q: ItemRequest): int { -q.created }

  lemma NewestFirstOrdersByAge()
    ensures ComparesBy(NewestFirst, Age)
  {
  }

  function RequestedBy(userId: int): ItemRequest -> bool
  {
    (q: ItemRequest) => q.requesterId == userId
  }

  function RequestedByOthers(userId: int): ItemRequest -> bool
  {
    (q: ItemRequest) => q.requesterId != userId
  }

  /** The views of stored requests with their items, in order. */
  function RequestViews(t: Tables, qs: seq<ItemRequest>): (r: seq<ItemRequestDto>)
    requires Consistent(t)
    ensures |r| == |qs|
    ensures forall k :: 0 <= k < |qs| ==> r[k] == ToItemRequestDtoFromItemRequest(RequestGraphOf(t, qs[k]))
    ensures forall k :: 0 <= k < |qs| ==> r[k].id == qs[k].id && r[k].created == qs[k].created
  {
    seq(|qs|, k requires 0 <= k < |qs| => ToItemRequestDtoFromItemRequest(RequestGraphOf(t, qs[k])))
  }

  /** findAllByRequesterIdOrderByCreatedDesc. */
  function OwnRequests(t: Tables, userId: int, page: Pageable): (r: seq<ItemRequest>)
    ensures |r| <= page.size
    ensures forall k :: 0 <= k < |r| ==> r[k] in t.requests && r[k].requesterId == userId
  {
    var mine := Filter(t.requests, RequestedBy(userId));
    var sorted := SortWith(mine, NewestFirst);
    var r := ApplyPage(sorted, page);
    forall k | 0 <= k < |r| ensures r[k] in t.requests && r[k].requesterId == userId {
      assert r[k] in multiset(sorted);
      var i :| 0 <= i < |mine| && mine[i] == r[k];
    }
    r
  }

  /** getUserRequests: the caller must exist; one page of the caller's requests, newest first. */
  function GetUserRequests(t: Tables, userId: int, from: int, size: int): (r: Result<seq<ItemRequestDto>>)
    requires Consistent(t)
    ensures userId !in Ids(t.users, UserKey) ==> r == Err(OwnRequesterMissing)
    ensures userId in Ids(t.users, UserKey) ==>
      (r.Err? <==> PageRequestOf(from, size).Err?) && (r.Err? ==> r.error == PageRequestOf(from, size).error)
    ensures r.Ok? ==> r.value == RequestViews(t, OwnRequests(t, userId, PageRequestOf(from, size).value))
    ensures r.Ok? ==> |r.value| <= size
  {
    if FindUser(t, userId).None? then Err(OwnRequesterMissing)
    else
      var page := PageRequestOf(from, size);
      if page.Err? then Err(page.error)
      else Ok(RequestViews(t, OwnRequests(t, userId, page.value)))
  }

  /** The caller's own requests come newest first and are all the caller's. */
  lemma OwnRequestsNewestFirst(t: Tables, userId: int, page: Pageable)
    requires Consistent(t)
    ensures var r := RequestViews(t, OwnRequests(t, userId, page));
      && (forall i, j :: 0 <= i < j < |r| ==> r[i].created >= r[j].created)
      && (forall k :: 0 <= k < |r| ==> exists q :: q in t.requests && q.id == r[k].id && q.requesterId == userId)
  {
    var sorted := SortWith(Filter(t.requests, RequestedBy(userId)), NewestFirst);
    NewestFirstOrdersByAge();
    SortWithSorted(Filter(t.requests, RequestedBy(userId)), NewestFirst, Age);
    PageOfSorted(sorted, Age, page);
    assert OwnRequests(t, userId, page) == ApplyPage(sorted, page);
    var qs := OwnRequests(t, userId, page);
    forall k | 0 <= k < |qs| ensures qs[k] in t.requests && qs[k].requesterId == userId {
    }
  }

  /** Every page of the caller's requests is cut from one and the same ordering of
      all of them, newest first. */
  lemma OwnRequestsPagesOneOrdering(t: Tables, userId: int)
    ensures exists sorted ::
      && OrderingOf(sorted, Filter(t.requests, RequestedBy(userId)), Age)
      && forall page :: OwnRequests(t, userId, page) == ApplyPage(sorted, page)
  {
    var mine := Filter(t.requests, RequestedBy(userId));
    NewestFirstOrdersByAge();
    SortWithSorted(mine, NewestFirst, Age);
    assert OrderingOf(SortWith(mine, NewestFirst), mine, Age);
  }

  /** None of the caller's requests is lost to paging: with any page length, each
      one is on some page. */
  lemma OwnRequestOnSomePage(t: Tables, userId: int, size: nat, q: ItemRequest)
    requires size >= 1 && q in t.requests && q.requesterId == userId
    ensures exists n: nat :: q in OwnRequests(t, userId, Pageable(n, size))
  {
    var sorted := SortWith(Filter(t.requests, RequestedBy(userId)), NewestFirst);
    assert q in multiset(sorted) by {
      FilterHas(t.requests, RequestedBy(userId), q);
    }
    var i :| 0 <= i < |sorted| && sorted[i] == q;
    var n, k := PageHoldsRow(sorted, size, i);
    assert OwnRequests(t, userId, Pageable(n, size)) == ApplyPage(sorted, Pageable(n, size));
  }

  /** findAllByRequesterIdNot: the other users' requests; with no ORDER BY in the
      query, the model returns them in table order. */
  function OthersRequests(t: Tables, userId: int, page: Pageable): (r: seq<ItemRequest>)
    ensures |r| <= page.size
    ensures forall k :: 0 <= k < |r| ==> r[k] in t.requests && r[k].requesterId != userId
  {
    ApplyPage(Filter(t.requests, RequestedByOthers(userId)), page)
  }

  /** The other users' requests come in the model's table order, by increasing id.
      The query has no ORDER BY, so this is the order the model assumes the
      database returns. */
  lemma OthersRequestsInStoreOrder(t: Tables, userId: int, page: Pageable)
    requires Consistent(t)
    ensures var r := OthersRequests(t, userId, page);
      forall i, j :: 0 <= i < j < |r| ==> r[i].id < r[j].id
  {
    var others := Filter(t.requests, RequestedByOthers(userId));
    FilterIncreasing(t.requests, RequestedByOthers(userId), RequestKey);
    PageIncreasing(others, RequestKey, page);
  }

  /** None of the other users' requests is lost to paging: with any page length,
      each one is on some page. */
  lemma OthersRequestOnSomePage(t: Tables, userId: int, size: nat, q: ItemRequest)
    requires size >= 1 && q in t.requests && q.requesterId != userId
    ensures exists n: nat :: q in OthersRequests(t, userId, Pageable(n, size))
  {
    var others := Filter(t.requests, RequestedByOthers(userId));
    FilterHas(t.requests, RequestedByOthers(userId), q);
    var i :| 0 <= i < |others| && others[i] == q;
    var n, k := PageHoldsRow(others, size, i);
  }

  /** getUserRequestsById: the caller must exist; one page of everyone else's requests. */
  function GetUserRequestsById(t: Tables, userId: int, from: int, size: int): (r: Result<seq<ItemRequestDto>>)
    requires Consistent(t)
    ensures userId !in Ids(t.users, UserKey) ==> r == Err(RequesterMissing)
    ensures userId in Ids(t.users, UserKey) ==>
      (r.Err? <==> PageRequestOf(from, size).Err?) && (r.Err? ==> r.error == PageRequestOf(from, size).error)
    ensures r.Ok? ==> r.value == RequestViews(t, OthersRequests(t, userId, PageRequestOf(from, size).value))
    ensures r.Ok? ==> |r.value| <= size
  {
    if FindUser(t, userId).None? then Err(RequesterMissing)
    else
      var page := PageRequestOf(from, size);
      if page.Err? then Err(page.error)
      else Ok(RequestViews(t, OthersRequests(t, userId, page.value)))
  }

  /** The two listings split the requests: a first page large enough for them holds
      each other user's request, and no listing of others shows one of the caller's. */
  lemma OthersFirstPageComplete(t: Tables, userId: int, size: int, q: ItemRequest)
    requires size >= 1 && |Filter(t.requests, RequestedByOthers(userId))| <= size
    requires q in t.requests && q.requesterId != userId
    ensures q in OthersRequests(t, userId, Pageable(0, size))
  {
    var others := Filter(t.requests, RequestedByOthers(userId));
    FilterHas(t.requests, RequestedByOthers(userId), q);
    var i :| 0 <= i < |others| && others[i] == q;
    assert OthersRequests(t, userId, Pageable(0, size))[i] == q;
  }

  /** getItemRequestById: the caller must exist, then the request; any caller may
      read any request, shown with the items offered for it. */
  function GetItemRequestById(t: Tables, userId: int, requestId: int): (r: Result<ItemRequestDto>)
    requires Consistent(t)
    ensures userId !in Ids(t.users, UserKey) ==> r == Err(RequesterMissing)
    ensures userId in Ids(t.users, UserKey) && requestId !in Ids(t.requests, RequestKey) ==> r == Err(RequestNotFound)
    ensures r.Ok? <==> userId in Ids(t.users, UserKey) && requestId in Ids(t.requests, RequestKey)
    ensures r.Ok? ==>
      var q := FindRequest(t, requestId).value;
      && r.value.id == requestId && r.value.description == q.description && r.value.created == q.created
      && r.value.items == ItemService.PlainViews(t, ItemsForRequest(t, requestId))
  {
    if FindUser(t, userId).None? then Err(RequesterMissing)
    else if FindRequest(t, requestId).None? then Err(RequestNotFound)
    else
      var q := FindRequest(t, requestId).value;
      Ok(ToItemRequestDto(RequestGraphOf(t, q), Some(ItemGraphsOf(t, ItemsForRequest(t, requestId)))))
  }

  /** A request is shown with exactly the stored items that answer it. */
  lemma RequestShowsItsItems(t: Tables, userId: int, requestId: int)
    requires Consistent(t) && GetItemRequestById(t, userId, requestId).Ok?
    ensures var r := GetItemRequestById(t, userId, requestId).value;
      forall it :: it in t.items && it.requestId == Some(requestId) ==>
        exists k :: 0 <= k < |r.items| && r.items[k].id == it.id
  {
    var items := ItemsForRequest(t, requestId);
    var r := GetItemRequestById(t, userId, requestId).value;
    forall it | it in t.items && it.requestId == Some(requestId)
      ensures exists k :: 0 <= k < |r.items| && r.items[k].id == it.id
    {
      var k :| 0 <= k < |items| && items[k] == it;
      assert r.items[k].id == it.id;
    }
  }
}
