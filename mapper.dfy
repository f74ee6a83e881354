/** The view assembler: BookingMapper, CommentMapper, ItemMapper and
    ItemRequestMapper.  ItemMapper and BookingMapper call each other, so the four
    live in one module, as they live in one package. */
module Mapper {
  import opened Common
  import opened Domain
  import opened Constant

  // ---------------------------------------------------------------------------
  // BookingMapper

  /** ItemMapper.toGetBookingForItemDtoFromItem: the item reduced to id and name. */
  function ToGetBookingForItemDtoFromItem(item: Item): (r: ItemShort)
    ensures r.id == item.id && r.name == item.name
  {
    ItemShort(item.id, item.name)
  }

  /** toBookingDtoFromBooking: null stays null; otherwise the booking's own fields,
      its item as {id, name} and its booker as an id. */
  function ToBookingDtoFromBooking(b: Option<BookingGraph>): (r: Option<BookingDto>)
    ensures r.None? <==> b.None?
    ensures r.Some? ==>
      var bk := b.value.booking;
      && r.value.id == bk.id && r.value.start == bk.start && r.value.end == bk.end
      && r.value.status == bk.status && r.value.bookerId == bk.bookerId
      && r.value.item == ItemShort(b.value.item.id, b.value.item.name)
  {
    match b
    case None => None
    case Some(g) =>
      Some(BookingDto(g.booking.id, g.booking.start, g.booking.end, g.booking.status,
                      ToGetBookingForItemDtoFromItem(g.item), g.booking.bookerId))
  }

  /** toBookingFromCreateUpdateBookingDto: a booking holding only the requested period. */
  function ToBookingFromCreateUpdateBookingDto(dto: CreateUpdateBookingDto): (r: BookingDraft)
    ensures r.start == dto.start && r.end == dto.end
    ensures r.id.None? && r.status.None? && r.bookerId.None? && r.itemId.None?
  {
    BookingDraft(None, dto.start, dto.end, None, None, None)
  }

  /** toGetBookingForItemDtoFromBooking: null stays null; otherwise exactly {id, booker id}. */
  function ToGetBookingForItemDtoFromBooking(b: Option<Booking>): (r: Option<BookingShort>)
    ensures r.None? <==> b.None?
    ensures r.Some? ==> r.value.id == b.value.id && r.value.bookerId == b.value.bookerId
  {
    match b
    case None => None
    case Some(bk) => Some(BookingShort(bk.id, bk.bookerId))
  }

  /** The short view of a booking agrees with its full view on id and booker. */
  lemma ShortViewAgrees(b: Booking, item: Item)
    ensures var full := ToBookingDtoFromBooking(Some(BookingGraph(b, item))).value;
      ToGetBookingForItemDtoFromBooking(Some(b)) == Some(BookingShort(full.id, full.bookerId))
  {
  }

  // ---------------------------------------------------------------------------
  // CommentMapper

  /** toCommentDtoFromComment: id (widened from int to long, which keeps the value),
      text and creation time of the comment, and its author's name. */
  function ToCommentDtoFromComment(c: AuthoredComment): (r: CommentDto)
    ensures r.id == c.comment.id && r.text == c.comment.text && r.created == c.comment.created
    ensures r.authorName == c.author.name
  {
    CommentDto(c.comment.id, c.comment.text, c.author.name, c.comment.created)
  }

  /** toCommentFromCreateUpdateCommentDto: a comment holding only its text. */
  function ToCommentFromCreateUpdateCommentDto(dto: CreateUpdateCommentDto): (r: CommentDraft)
    ensures r.text == dto.text
    ensures r.id.None? && r.authorId.None? && r.itemId.None? && r.created.None?
  {
    CommentDraft(None, dto.text, None, None, None)
  }

  // ---------------------------------------------------------------------------
  // The sorted comment set of an item view

  /** A TreeSet under orderByCreatedDesc, listed in iteration order: creation times
      strictly increase. */
  predicate StrictlyByCreated(s: seq<CommentDto>)
  {
    forall i, j :: 0 <= i < j < |s| ==> s[i].created < s[j].created
  }

  function CreatedTimes(s: seq<CommentDto>): set<Time>
  {
    set c | c in s :: c.created
  }

  lemma CreatedTimesCons(x: CommentDto, s: seq<CommentDto>)
    ensures CreatedTimes([x] + s) == {x.created} + CreatedTimes(s)
  {
    assert forall c :: c in [x] + s <==> c == x || c in s;
  }

  /** TreeSet.add: a comment comparing equal (same creation time) to one already
      present is dropped, any other one is placed by the comparator. */
  function TreeSetAdd(s: seq<CommentDto>, x: CommentDto): (r: seq<CommentDto>)
    ensures forall k :: 0 <= k < |r| ==> r[k] in s || r[k] == x
  {
    if s == [] then [x]
    else
      var c := OrderByCreatedDesc(x, s[0]);
      if c < 0 then [x] + s
      else if c == 0 then s
      else [s[0]] + TreeSetAdd(s[1..], x)
  }

  /** Adding to a set adds exactly the new creation time. */
  lemma {:induction false} TreeSetAddTimes(s: seq<CommentDto>, x: CommentDto)
    ensures CreatedTimes(TreeSetAdd(s, x)) == CreatedTimes(s) + {x.created}
  {
    if s == [] {
    } else if OrderByCreatedDesc(x, s[0]) < 0 {
      CreatedTimesCons(x, s);
    } else if OrderByCreatedDesc(x, s[0]) == 0 {
      assert s[0] in s;
    } else {
      TreeSetAddTimes(s[1..], x);
      assert s == [s[0]] + s[1..];
      CreatedTimesCons(s[0], s[1..]);
      CreatedTimesCons(s[0], TreeSetAdd(s[1..], x));
    }
  }

  lemma StrictCons(c: CommentDto, t: seq<CommentDto>)
    requires StrictlyByCreated(t)
    requires forall d :: d in t ==> c.created < d.created
    ensures StrictlyByCreated([c] + t)
  {
    forall i, j | 0 <= i < j < |[c] + t| ensures ([c] + t)[i].created < ([c] + t)[j].created {
      assert ([c] + t)[j] == t[j - 1];
      assert t[j - 1] in t;
      if i > 0 {
        assert ([c] + t)[i] == t[i - 1];
      }
    }
  }

  /** Adding to a sorted set keeps it sorted. */
  lemma {:induction false} TreeSetAddSorted(s: seq<CommentDto>, x: CommentDto)
    requires StrictlyByCreated(s)
    ensures StrictlyByCreated(TreeSetAdd(s, x))
  {
    if s == [] {
    } else if OrderByCreatedDesc(x, s[0]) < 0 {
      forall d | d in s ensures x.created < d.created {
        var j :| 0 <= j < |s| && s[j] == d;
      }
      StrictCons(x, s);
    } else if OrderByCreatedDesc(x, s[0]) > 0 {
      var t := TreeSetAdd(s[1..], x);
      TreeSetAddSorted(s[1..], x);
      forall d | d in t ensures s[0].created < d.created {
        if d != x {
          assert d in s[1..];
          var j :| 0 <= j < |s[1..]| && s[1..][j] == d;
          assert s[j + 1] == d;
        }
      }
      StrictCons(s[0], t);
    }
  }

  /** TreeSet.addAll, adding in the order given. */
  function TreeSetAddAll(s: seq<CommentDto>, xs: seq<CommentDto>): (r: seq<CommentDto>)
    ensures forall k :: 0 <= k < |r| ==> r[k] in s || r[k] in xs
    decreases xs
  {
    if xs == [] then s
    else
      var r := TreeSetAddAll(TreeSetAdd(s, xs[0]), xs[1..]);
      assert forall k :: 0 <= k < |r| ==> r[k] in s || r[k] in xs by {
        assert xs == [xs[0]] + xs[1..];
      }
      r
  }

  lemma {:induction false} TreeSetAddAllSpec(s: seq<CommentDto>, xs: seq<CommentDto>)
    requires StrictlyByCreated(s)
    ensures StrictlyByCreated(TreeSetAddAll(s, xs))
    ensures CreatedTimes(TreeSetAddAll(s, xs)) == CreatedTimes(s) + CreatedTimes(xs)
    decreases xs
  {
    if xs != [] {
      TreeSetAddSorted(s, xs[0]);
      TreeSetAddTimes(s, xs[0]);
      TreeSetAddAllSpec(TreeSetAdd(s, xs[0]), xs[1..]);
      assert xs == [xs[0]] + xs[1..];
      CreatedTimesCons(xs[0], xs[1..]);
    }
  }

  /** The comment views of an item: empty when the item has no comment collection. */
  function CommentViews(comments: Option<seq<AuthoredComment>>): (r: seq<CommentDto>)
    ensures StrictlyByCreated(r)
    ensures comments.None? ==> r == []
    ensures comments.Some? ==>
      && CreatedTimes(r) == (set c | c in comments.value :: c.comment.created)
      && forall k :: 0 <= k < |r| ==> exists c :: c in comments.value && r[k] == ToCommentDtoFromComment(c)
  {
    match comments
    case None => []
    case Some(cs) =>
      var views := seq(|cs|, i requires 0 <= i < |cs| => ToCommentDtoFromComment(cs[i]));
      assert CreatedTimes(views) == (set c | c in cs :: c.comment.created) by {
        forall c | c in cs ensures c.comment.created in CreatedTimes(views) {
          var i :| 0 <= i < |cs| && cs[i] == c;
          assert views[i] in views;
        }
      }
      TreeSetAddAllSpec([], views);
      TreeSetAddAll([], views)
  }

  lemma StrictPairDiffers(r: seq<CommentDto>)
    requires StrictlyByCreated(r) && |r| > 1
    ensures r[0].created != r[1].created
    ensures r[0].created in CreatedTimes(r) && r[1].created in CreatedTimes(r)
  {
    assert r[0] in r && r[1] in r;
  }

  /** Two comments created at the same instant collapse to one entry. */
  lemma SameCreatedCollapse(a: AuthoredComment, b: AuthoredComment)
    requires a.comment.created == b.comment.created
    ensures |CommentViews(Some([a, b]))| == 1
  {
    var r := CommentViews(Some([a, b]));
    assert CreatedTimes(r) == {a.comment.created};
    if |r| > 1 {
      StrictPairDiffers(r);
      assert false;
    }
    assert r != [] by {
      assert a.comment.created in CreatedTimes(r);
    }
  }

  // ---------------------------------------------------------------------------
  // ItemMapper

  /** toItemDtoFromItem: id, name, description and availability of the item, its
      comments as a sorted set, and no last or next booking. */
  function ToItemDtoFromItem(g: ItemGraph): (r: ItemDto)
    ensures r.id == g.item.id && r.name == g.item.name && r.description == g.item.description
    ensures r.available == g.item.available
    ensures r.lastBooking.None? && r.nextBooking.None?
    ensures r.comments == CommentViews(g.comments)
  {
    ItemDto(g.item.id, g.item.name, g.item.description, g.item.available, None, None,
            CommentViews(g.comments))
  }

  /** The candidates for the last booking: approved and started strictly before now. */
  function IsLastCandidate(now: Time): Booking -> bool
  {
    (b: Booking) => b.start < now && b.status == APPROVED
  }

  /** The candidates for the next booking: approved and starting strictly after now. */
  function IsNextCandidate(now: Time): Booking -> bool
  {
    (b: Booking) => b.start > now && b.status == APPROVED
  }

  function FirstOf(s: seq<Booking>): (r: Option<Booking>)
    ensures r.Some? <==> s != []
    ensures r.Some? ==> r.value == s[0]
  {
    if s == [] then None else Some(s[0])
  }

  /** The bookings sorted by orderByStartDateDesc, filtered, first one. */
  function LastBooking(bookings: seq<Booking>, now: Time): Option<Booking>
  {
    FirstOf(Filter(SortWith(bookings, OrderByStartDateDesc), IsLastCandidate(now)))
  }

  /** The bookings sorted by orderByStartDateAsc, filtered, first one. */
  function NextBooking(bookings: seq<Booking>, now: Time): Option<Booking>
  {
    FirstOf(Filter(SortWith(bookings, OrderByStartDateAsc), IsNextCandidate(now)))
  }

  /** The first element of the filtered, key-sorted sequence has the least key among
      all elements of the original that pass the filter, and one exists exactly when
      some element passes. */
  lemma {:induction false} FirstOfSortedFilter(s: seq<Booking>, cmp: (Booking, Booking) -> int,
                                               key: Booking -> int, p: Booking -> bool)
    requires ComparesBy(cmp, key)
    ensures var r := FirstOf(Filter(SortWith(s, cmp), p));
      && (r.Some? <==> exists b :: b in s && p(b))
      && (r.Some? ==> r.value in s && p(r.value))
      && (r.Some? ==> forall b :: b in s && p(b) ==> key(r.value) <= key(b))
  {
    var sorted := SortWith(s, cmp);
    var t := Filter(sorted, p);
    SortWithSorted(s, cmp, key);
    FilterSorted(sorted, p, key);
    SortWithMembers(s, cmp);
    forall b | b in s && p(b) ensures b in t {
      FilterHas(sorted, p, b);
    }
    if t != [] {
      SortedHeadLeast(t, key);
      FilterHas(sorted, p, t[0]);
    }
  }

  /** lastBooking is the approved booking with the latest start strictly before now;
      there is none exactly when no booking qualifies. */
  lemma LastBookingIsLatestBeforeNow(bookings: seq<Booking>, now: Time)
    ensures LastBooking(bookings, now).Some? <==>
      exists b :: b in bookings && b.start < now && b.status == APPROVED
    ensures LastBooking(bookings, now).Some? ==>
      var last := LastBooking(bookings, now).value;
      && last in bookings && last.start < now && last.status == APPROVED
      && forall b :: b in bookings && b.start < now && b.status == APPROVED ==> b.start <= last.start
  {
    StartDescOrdersDescending();
    FirstOfSortedFilter(bookings, OrderByStartDateDesc, LatestStartKey, IsLastCandidate(now));
  }

  /** nextBooking is the approved booking with the earliest start strictly after now;
      there is none exactly when no booking qualifies. */
  lemma NextBookingIsEarliestAfterNow(bookings: seq<Booking>, now: Time)
    ensures NextBooking(bookings, now).Some? <==>
      exists b :: b in bookings && b.start > now && b.status == APPROVED
    ensures NextBooking(bookings, now).Some? ==>
      var next := NextBooking(bookings, now).value;
      && next in bookings && next.start > now && next.status == APPROVED
      && forall b :: b in bookings && b.start > now && b.status == APPROVED ==> next.start <= b.start
  {
    StartAscOrdersAscending();
    FirstOfSortedFilter(bookings, OrderByStartDateAsc, BookingStart, IsNextCandidate(now));
  }

  /** A booking that is not approved, or starts exactly now, is neither last nor next. */
  lemma NeverChosen(bookings: seq<Booking>, now: Time, b: Booking)
    requires b.status != APPROVED || b.start == now
    ensures LastBooking(bookings, now) != Some(b)
    ensures NextBooking(bookings, now) != Some(b)
  {
    LastBookingIsLatestBeforeNow(bookings, now);
    NextBookingIsEarliestAfterNow(bookings, now);
  }

  /** toItemDtoWithBookingsFromItem: the plain view, plus the last and next booking
      when the item has a booking collection. */
  function ToItemDtoWithBookingsFromItem(g: ItemGraph, now: Time): (r: ItemDto)
    ensures r.(lastBooking := None, nextBooking := None) == ToItemDtoFromItem(g)
    ensures g.bookings.None? ==> r.lastBooking.None? && r.nextBooking.None?
    ensures g.bookings.Some? ==>
      && r.lastBooking == ToGetBookingForItemDtoFromBooking(LastBooking(g.bookings.value, now))
      && r.nextBooking == ToGetBookingForItemDtoFromBooking(NextBooking(g.bookings.value, now))
  {
    var itemDto := ToItemDtoFromItem(g);
    if g.bookings.Some? then
      itemDto.(lastBooking := ToGetBookingForItemDtoFromBooking(LastBooking(g.bookings.value, now)),
               nextBooking := ToGetBookingForItemDtoFromBooking(NextBooking(g.bookings.value, now)))
    else itemDto
  }

  /** toItemFromCreateUpdateItemDto: an item holding only name, description and availability. */
  function ToItemFromCreateUpdateItemDto(dto: CreateUpdateItemDto): (r: ItemDraft)
    ensures r.name == dto.name && r.description == dto.description && r.available == dto.available
    ensures r.id.None? && r.ownerId.None? && r.requestId.None?
  {
    ItemDraft(None, dto.name, dto.description, dto.available, None, None)
  }

  // ---------------------------------------------------------------------------
  // ItemRequestMapper

  /** Items mapped one to one with toItemDtoFromItem, in order. */
  function ToItemDtos(items: seq<ItemGraph>): (r: seq<ItemDto>)
    ensures |r| == |items|
    ensures forall i :: 0 <= i < |items| ==> r[i] == ToItemDtoFromItem(items[i])
  {
    seq(|items|, i requires 0 <= i < |items| => ToItemDtoFromItem(items[i]))
  }

  /** toItemRequestDtoFromItemRequest: id, description and creation time of the
      request, its items mapped one to one, or no items when it has no collection. */
  function ToItemRequestDtoFromItemRequest(g: RequestGraph): (r: ItemRequestDto)
    ensures r.id == g.request.id && r.description == g.request.description
    ensures r.created == g.request.created
    ensures g.items.None? ==> r.items == []
    ensures g.items.Some? ==> r.items == ToItemDtos(g.items.value)
  {
    ItemRequestDto(g.request.id, g.request.description, g.request.created,
                   if g.items.Some? then ToItemDtos(g.items.value) else [])
  }

  /** toItemRequestDto: the view of the request whose items are the supplied list
      (none when the list is null), whatever its own collection held. */
  function ToItemRequestDto(g: RequestGraph, items: Option<seq<ItemGraph>>): (r: ItemRequestDto)
    ensures r == ToItemRequestDtoFromItemRequest(RequestGraph(g.request, items))
  {
    var view := ToItemRequestDtoFromItemRequest(g);
    view.(items := if items.Some? then ToItemDtos(items.value) else [])
  }
}
