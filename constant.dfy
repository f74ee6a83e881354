/** The three comparators the views sort with.  Each returns -1, 0 or 1; a negative
    result puts its first argument first. */
module Constant {
  import opened Common
  import opened Domain

  /** orderByCreatedDesc: 1 when a was created after b, -1 when before, else 0.
      Despite its name it puts the earlier comment first. */
  function OrderByCreatedDesc(a: CommentDto, b: CommentDto): (r: int)
    ensures r == 1 <==> a.created > b.created
    ensures r == -1 <==> a.created < b.created
    ensures r == 0 <==> a.created == b.created
  {
    if a.created > b.created then 1
    else if a.created < b.created then -1
    else 0
  }

  /** orderByStartDateDesc: -1 when a starts after b, 1 when before, else 0. */
  function OrderByStartDateDesc(a: Booking, b: Booking): (r: int)
    ensures r == -1 <==> a.start > b.start
    ensures r == 1 <==> a.start < b.start
    ensures r == 0 <==> a.start == b.start
  {
    if a.start > b.start then -1
    else if a.start < b.start then 1
    else 0
  }

  /** orderByStartDateAsc: 1 when a starts after b, -1 when before, else 0. */
  function OrderByStartDateAsc(a: Booking, b: Booking): (r: int)
    ensures r == 1 <==> a.start > b.start
    ensures r == -1 <==> a.start < b.start
    ensures r == 0 <==> a.start == b.start
  {
    if a.start > b.start then 1
    else if a.start < b.start then -1
    else 0
  }

  function CreatedKey(c: CommentDto): int { c.created }
  function LatestStartKey(b: Booking): int { -b.start }

  /** The ascending comparator is the descending one reversed. */
  lemma AscIsReversedDesc(a: Booking, b: Booking)
    ensures OrderByStartDateAsc(a, b) == -OrderByStartDateDesc(a, b)
    ensures OrderByStartDateAsc(a, b) == OrderByStartDateDesc(b, a)
  {
  }

  /** Each comparator is antisymmetric. */
  lemma Antisymmetric(c: CommentDto, d: CommentDto, a: Booking, b: Booking)
    ensures OrderByCreatedDesc(c, d) == -OrderByCreatedDesc(d, c)
    ensures OrderByStartDateDesc(a, b) == -OrderByStartDateDesc(b, a)
    ensures OrderByStartDateAsc(a, b) == -OrderByStartDateAsc(b, a)
  {
  }

  /** orderByCreatedDesc sorts by ascending creation time. */
  lemma CreatedOrdersAscending()
    ensures ComparesBy(OrderByCreatedDesc, CreatedKey)
  {
  }

  /** orderByStartDateAsc sorts by ascending start. */
  lemma StartAscOrdersAscending()
    ensures ComparesBy(OrderByStartDateAsc, BookingStart)
  {
  }

  /** orderByStartDateDesc sorts by descending start. */
  lemma StartDescOrdersDescending()
    ensures ComparesBy(OrderByStartDateDesc, LatestStartKey)
  {
  }
}
