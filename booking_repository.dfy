/** The booking queries: each selects the bookings matching a predicate, sorts them
    by start, latest first (the Sort every caller passes, and the `order by` of the
    booker CURRENT query), and returns one page of the result. */
module BookingRepository {
  import opened Common
  import opened Domain
  import opened Constant
  import opened Database

  /** The owner of the booked item, through the join on item and owner. */
  function OwnerOf(items: seq<Item>, b: Booking): (r: Option<int>)
    ensures r.Some? <==> b.itemId in Ids(items, ItemKey)
    ensures r.Some? ==> exists it :: it in items && it.id == b.itemId && it.ownerId == r.value
  {
    var it := Find(items, ItemKey, b.itemId);
    if it.Some? then Some(it.value.ownerId) else None
  }

  /** The matching bookings, latest start first, cut to the page. */
  function Select(bookings: seq<Booking>, p: Booking -> bool, page: Pageable): (r: seq<Booking>)
    ensures |r| <= page.size
    ensures forall k :: 0 <= k < |r| ==> r[k] in bookings && p(r[k])
  {
    var sorted := SortWith(Filter(bookings, p), OrderByStartDateDesc);
    assert forall b :: b in sorted ==> b in Filter(bookings, p) by {
      assert forall b :: b in sorted <==> b in multiset(sorted);
    }
    ApplyPage(sorted, page)
  }

  // ---------------------------------------------------------------------------
  // The predicates of the eleven query methods

  function BookerIs(bookerId: int): Booking -> bool
  {
    (b: Booking) => b.bookerId == bookerId
  }

  function BookerAndStatus(bookerId: int, status: Status): Booking -> bool
  {
    (b: Booking) => b.bookerId == bookerId && b.status == status
  }

  function BookerAndStartAfter(bookerId: int, t: Time): Booking -> bool
  {
    (b: Booking) => b.bookerId == bookerId && b.start > t
  }

  function BookerAndEndBefore(bookerId: int, t: Time): Booking -> bool
  {
    (b: Booking) => b.bookerId == bookerId && b.end < t
  }

  function BookerAndCurrent(bookerId: int, t: Time): Booking -> bool
  {
    (b: Booking) => b.bookerId == bookerId && b.start < t && b.end > t
  }

  function OwnerIs(items: seq<Item>, ownerId: int): Booking -> bool
  {
    (b: Booking) => OwnerOf(items, b) == Some(ownerId)
  }

  function OwnerAndStatus(items: seq<Item>, ownerId: int, status: Status): Booking -> bool
  {
    (b: Booking) => OwnerOf(items, b) == Some(ownerId) && b.status == status
  }

  function OwnerAndStartAfter(items: seq<Item>, ownerId: int, t: Time): Booking -> bool
  {
    (b: Booking) => OwnerOf(items, b) == Some(ownerId) && b.start > t
  }

  function OwnerAndEndBefore(items: seq<Item>, ownerId: int, t: Time): Booking -> bool
  {
    (b: Booking) => OwnerOf(items, b) == Some(ownerId) && b.end < t
  }

  function OwnerAndCurrent(items: seq<Item>, ownerId: int, t: Time): Booking -> bool
  {
    (b: Booking) => OwnerOf(items, b) == Some(ownerId) && b.start < t && b.end > t
  }

  // ---------------------------------------------------------------------------
  // Queries by booker

  function FindAllByBookerId(t: Tables, bookerId: int, page: Pageable): (r: seq<Booking>)
    ensures |r| <= page.size
    ensures forall k :: 0 <= k < |r| ==> r[k] in t.bookings && r[k].bookerId == bookerId
  {
    Select(t.bookings, BookerIs(bookerId), page)
  }

  function FindAllByBookerIdAndStatus(t: Tables, bookerId: int, status: Status, page: Pageable): (r: seq<Booking>)
    ensures |r| <= page.size
    ensures forall k :: 0 <= k < |r| ==>
      r[k] in t.bookings && r[k].bookerId == bookerId && r[k].status == status
  {
    Select(t.bookings, BookerAndStatus(bookerId, status), page)
  }

  /** FUTURE: start strictly after the given time. */
  function FindAllByBookerIdAndStartAfter(t: Tables, bookerId: int, start: Time, page: Pageable): (r: seq<Booking>)
    ensures |r| <= page.size
    ensures forall k :: 0 <= k < |r| ==>
      r[k] in t.bookings && r[k].bookerId == bookerId && r[k].start > start
  {
    Select(t.bookings, BookerAndStartAfter(bookerId, start), page)
  }

  /** PAST: end strictly before the given time. */
  function FindAllByBookerIdAndEndBefore(t: Tables, bookerId: int, end: Time, page: Pageable): (r: seq<Booking>)
    ensures |r| <= page.size
    ensures forall k :: 0 <= k < |r| ==>
      r[k] in t.bookings && r[k].bookerId == bookerId && r[k].end < end
  {
    Select(t.bookings, BookerAndEndBefore(bookerId, end), page)
  }

  /** CURRENT: started strictly before and ending strictly after the given time. */
  function FindAllByBookerIdAndStartBeforeAndEndAfter(t: Tables, bookerId: int, dateTime: Time, page: Pageable): (r: seq<Booking>)
    ensures |r| <= page.size
    ensures forall k :: 0 <= k < |r| ==>
      r[k] in t.bookings && r[k].bookerId == bookerId && r[k].start < dateTime && r[k].end > dateTime
  {
    Select(t.bookings, BookerAndCurrent(bookerId, dateTime), page)
  }

  // ---------------------------------------------------------------------------
  // Queries by owner of the booked item

  function FindAllByOwnerId(t: Tables, ownerId: int, page: Pageable): (r: seq<Booking>)
    ensures |r| <= page.size
    ensures forall k :: 0 <= k < |r| ==> r[k] in t.bookings && OwnerOf(t.items, r[k]) == Some(ownerId)
  {
    Select(t.bookings, OwnerIs(t.items, ownerId), page)
  }

  function FindAllByOwnerIdAndStatus(t: Tables, ownerId: int, status: Status, page: Pageable): (r: seq<Booking>)
    ensures |r| <= page.size
    ensures forall k :: 0 <= k < |r| ==>
      r[k] in t.bookings && OwnerOf(t.items, r[k]) == Some(ownerId) && r[k].status == status
  {
    Select(t.bookings, OwnerAndStatus(t.items, ownerId, status), page)
  }

  function FindAllByOwnerIdAndStartAfter(t: Tables, ownerId: int, dateTime: Time, page: Pageable): (r: seq<Booking>)
    ensures |r| <= page.size
    ensures forall k :: 0 <= k < |r| ==>
      r[k] in t.bookings && OwnerOf(t.items, r[k]) == Some(ownerId) && r[k].start > dateTime
  {
    Select(t.bookings, OwnerAndStartAfter(t.items, ownerId, dateTime), page)
  }

  function FindAllByOwnerIdAndEndBefore(t: Tables, ownerId: int, dateTime: Time, page: Pageable): (r: seq<Booking>)
    ensures |r| <= page.size
    ensures forall k :: 0 <= k < |r| ==>
      r[k] in t.bookings && OwnerOf(t.items, r[k]) == Some(ownerId) && r[k].end < dateTime
  {
    Select(t.bookings, OwnerAndEndBefore(t.items, ownerId, dateTime), page)
  }

  function FindAllByOwnerIdAndStartBeforeAndEndAfter(t: Tables, ownerId: int, dateTime: Time, page: Pageable): (r: seq<Booking>)
    ensures |r| <= page.size
    ensures forall k :: 0 <= k < |r| ==>
      && r[k] in t.bookings && OwnerOf(t.items, r[k]) == Some(ownerId)
      && r[k].start < dateTime && r[k].end > dateTime
  {
    Select(t.bookings, OwnerAndCurrent(t.items, ownerId, dateTime), page)
  }

  // ---------------------------------------------------------------------------
  // What every query returns

  /** A page lists its bookings latest start first. */
  lemma SelectLatestFirst(bookings: seq<Booking>, p: Booking -> bool, page: Pageable)
    ensures forall i, j :: 0 <= i < j < |Select(bookings, p, page)| ==>
      Select(bookings, p, page)[i].start >= Select(bookings, p, page)[j].start
  {
    var sorted := SortWith(Filter(bookings, p), OrderByStartDateDesc);
    StartDescOrdersDescending();
    SortWithSorted(Filter(bookings, p), OrderByStartDateDesc, LatestStartKey);
    PageOfSorted(sorted, LatestStartKey, page);
    assert Select(bookings, p, page) == ApplyPage(sorted, page);
  }

  /** Every page is cut from one and the same ordering of all the matching bookings,
      latest start first: page n of length size is its rows n * size onwards. */
  lemma SelectPagesOneOrdering(bookings: seq<Booking>, p: Booking -> bool)
    ensures exists sorted ::
      && OrderingOf(sorted, Filter(bookings, p), LatestStartKey)
      && forall page :: Select(bookings, p, page) == ApplyPage(sorted, page)
  {
    var sorted := SortWith(Filter(bookings, p), OrderByStartDateDesc);
    StartDescOrdersDescending();
    SortWithSorted(Filter(bookings, p), OrderByStartDateDesc, LatestStartKey);
    assert OrderingOf(sorted, Filter(bookings, p), LatestStartKey);
  }

  /** No matching booking is lost to paging: with any page length, each one is on
      some page. */
  lemma EveryMatchOnSomePage(bookings: seq<Booking>, p: Booking -> bool, size: nat, b: Booking)
    requires size >= 1 && b in bookings && p(b)
    ensures exists n: nat :: b in Select(bookings, p, Pageable(n, size))
  {
    var i, n := RowOfMatch(bookings, p, size, b);
  }

  /** The row i of a matching booking in the ordered result: the booking is on page
      n = i / size. */
  lemma RowOfMatch(bookings: seq<Booking>, p: Booking -> bool, size: nat, b: Booking) returns (i: nat, n: nat)
    requires size >= 1 && b in bookings && p(b)
    ensures n == i / size && b in Select(bookings, p, Pageable(n, size))
  {
    var sorted := SortWith(Filter(bookings, p), OrderByStartDateDesc);
    assert b in multiset(sorted) by {
      FilterHas(bookings, p, b);
    }
    i :| 0 <= i < |sorted| && sorted[i] == b;
    var k;
    n, k := PageHoldsRow(sorted, size, i);
    assert Select(bookings, p, Pageable(n, size)) == ApplyPage(sorted, Pageable(n, size));
  }

  /** The first page, when it is large enough, holds every matching booking exactly once. */
  lemma FirstPageHoldsAll(bookings: seq<Booking>, p: Booking -> bool, page: Pageable)
    requires page.page == 0 && |Filter(bookings, p)| <= page.size
    ensures multiset(Select(bookings, p, page)) == multiset(Filter(bookings, p))
    ensures forall b :: b in bookings && p(b) ==> b in Select(bookings, p, page)
  {
    var sorted := SortWith(Filter(bookings, p), OrderByStartDateDesc);
    var r := Select(bookings, p, page);
    assert |r| == |sorted|;
    assert r == sorted;
    forall b | b in bookings && p(b) ensures b in r {
      assert b in Filter(bookings, p);
      assert b in multiset(r);
    }
  }

  /** A first page of one booking holds a matching booking that starts no earlier
      than any other matching one, whenever some booking matches. */
  lemma PageOfOneIsLatest(bookings: seq<Booking>, p: Booking -> bool, page: Pageable)
    requires page == Pageable(0, 1) && exists b :: b in bookings && p(b)
    ensures |Select(bookings, p, page)| == 1
    ensures var first := Select(bookings, p, page)[0];
      && first in bookings && p(first)
      && forall b :: b in bookings && p(b) ==> b.start <= first.start
  {
    var f := Filter(bookings, p);
    var sorted := SortWith(f, OrderByStartDateDesc);
    var b0 :| b0 in bookings && p(b0);
    assert b0 in f;
    assert |sorted| == |f| > 0 by {
      assert b0 in multiset(f);
    }
    StartDescOrdersDescending();
    SortWithSorted(f, OrderByStartDateDesc, LatestStartKey);
    var r := Select(bookings, p, page);
    assert r[0] == sorted[0];
    forall b | b in bookings && p(b) ensures b.start <= r[0].start {
      assert b in multiset(f);
      assert b in multiset(sorted);
      var k :| 0 <= k < |sorted| && sorted[k] == b;
      assert LatestStartKey(sorted[0]) <= LatestStartKey(sorted[k]);
    }
  }

  /** The booker's current bookings, one per page: the first page is the current
      booking that started last. */
  lemma CurrentPageOfOneIsLatest(t: Tables, bookerId: int, now: Time)
    requires exists b :: b in t.bookings && b.bookerId == bookerId && b.start < now && b.end > now
    ensures var r := FindAllByBookerIdAndStartBeforeAndEndAfter(t, bookerId, now, Pageable(0, 1));
      && |r| == 1
      && forall b :: b in t.bookings && b.bookerId == bookerId && b.start < now && b.end > now ==>
           b.start <= r[0].start
  {
    var b0 :| b0 in t.bookings && b0.bookerId == bookerId && b0.start < now && b0.end > now;
    assert BookerAndCurrent(bookerId, now)(b0);
    PageOfOneIsLatest(t.bookings, BookerAndCurrent(bookerId, now), Pageable(0, 1));
  }

  /** A booking that starts or ends exactly at the given time is not current. */
  lemma BoundaryIsNotCurrent(t: Tables, bookerId: int, ownerId: int, dateTime: Time, page: Pageable, b: Booking)
    requires b.start == dateTime || b.end == dateTime
    ensures b !in FindAllByBookerIdAndStartBeforeAndEndAfter(t, bookerId, dateTime, page)
    ensures b !in FindAllByOwnerIdAndStartBeforeAndEndAfter(t, ownerId, dateTime, page)
  {
  }

  /** The owner queries do not look at the booker: bookings differing only in their
      booker are selected alike. */
  lemma OwnerQueryIgnoresBooker(items: seq<Item>, ownerId: int, b: Booking, bookerId: int)
    requires IncreasingIds(items, ItemKey)
    ensures OwnerIs(items, ownerId)(b) == OwnerIs(items, ownerId)(b.(bookerId := bookerId))
    ensures OwnerIs(items, ownerId)(b) <==>
      exists it :: it in items && it.id == b.itemId && it.ownerId == ownerId
  {
    if exists it :: it in items && it.id == b.itemId && it.ownerId == ownerId {
      var i :| 0 <= i < |items| && items[i].id == b.itemId && items[i].ownerId == ownerId;
      FindAt(items, ItemKey, i);
    }
  }
}
