/** The relational store behind the JPA repositories: one table per entity, each
    kept in insertion order with ids from an identity column, the foreign keys
    between them, and the unique e-mail column of `users`.  The services read
    the tables through functions and change them through the repository methods
    of `Store`. */
module Database {
  import opened Common
  import opened Domain

  /** The tables and the next value of each identity column. */
  datatype Tables = Tables(
    users: seq<User>,
    items: seq<Item>,
    bookings: seq<Booking>,
    comments: seq<Comment>,
    requests: seq<ItemRequest>,
    nextUserId: int,
    nextItemId: int,
    nextBookingId: int,
    nextCommentId: int,
    nextRequestId: int)

  /** Ids strictly increase along the table and were all issued below `next`. */
  predicate WellKeyed<T(==)>(s: seq<T>, key: T -> int, next: int)
  {
    && next >= 1
    && IncreasingIds(s, key)
    && forall i :: 0 <= i < |s| ==> 1 <= key(s[i]) < next
  }

  /** The unique constraint on users.email. */
  predicate UniqueEmails(users: seq<User>)
  {
    forall i, j :: 0 <= i < j < |users| ==> users[i].email != users[j].email
  }

  predicate ItemRefsOk(items: seq<Item>, userIds: set<int>, requestIds: set<int>)
  {
    forall i :: 0 <= i < |items| ==>
      && items[i].ownerId in userIds
      && (items[i].requestId.Some? ==> items[i].requestId.value in requestIds)
  }

  predicate BookingRefsOk(bookings: seq<Booking>, userIds: set<int>, itemIds: set<int>)
  {
    forall i :: 0 <= i < |bookings| ==> bookings[i].bookerId in userIds && bookings[i].itemId in itemIds
  }

  predicate CommentRefsOk(comments: seq<Comment>, userIds: set<int>, itemIds: set<int>)
  {
    forall i :: 0 <= i < |comments| ==> comments[i].authorId in userIds && comments[i].itemId in itemIds
  }

  predicate RequestRefsOk(requests: seq<ItemRequest>, userIds: set<int>)
  {
    forall i :: 0 <= i < |requests| ==> requests[i].requesterId in userIds
  }

  /** Every table is well keyed, e-mails are unique and every foreign key resolves. */
  predicate Consistent(t: Tables)
  {
    && WellKeyed(t.users, UserKey, t.nextUserId)
    && WellKeyed(t.items, ItemKey, t.nextItemId)
    && WellKeyed(t.bookings, BookingKey, t.nextBookingId)
    && WellKeyed(t.comments, CommentKey, t.nextCommentId)
    && WellKeyed(t.requests, RequestKey, t.nextRequestId)
    && UniqueEmails(t.users)
    && ItemRefsOk(t.items, Ids(t.users, UserKey), Ids(t.requests, RequestKey))
    && BookingRefsOk(t.bookings, Ids(t.users, UserKey), Ids(t.items, ItemKey))
    && CommentRefsOk(t.comments, Ids(t.users, UserKey), Ids(t.items, ItemKey))
    && RequestRefsOk(t.requests, Ids(t.users, UserKey))
  }

  /** Some row points at the user. */
  predicate UserReferenced(t: Tables, id: int)
  {
    || (exists i :: 0 <= i < |t.items| && t.items[i].ownerId == id)
    || (exists i :: 0 <= i < |t.bookings| && t.bookings[i].bookerId == id)
    || (exists i :: 0 <= i < |t.comments| && t.comments[i].authorId == id)
    || (exists i :: 0 <= i < |t.requests| && t.requests[i].requesterId == id)
  }

  /** Some booking or comment points at the item. */
  predicate ItemReferenced(t: Tables, id: int)
  {
    || (exists i :: 0 <= i < |t.bookings| && t.bookings[i].itemId == id)
    || (exists i :: 0 <= i < |t.comments| && t.comments[i].itemId == id)
  }

  predicate EmailTaken(users: seq<User>, email: string)
  {
    exists i :: 0 <= i < |users| && users[i].email == email
  }

  /** The e-mail belongs to a user other than `id`. */
  predicate EmailTakenByOther(users: seq<User>, id: int, email: string)
  {
    exists i :: 0 <= i < |users| && users[i].id != id && users[i].email == email
  }

  // ---------------------------------------------------------------------------
  // Table maintenance

  lemma AppendWellKeyed<T>(s: seq<T>, x: T, key: T -> int, next: int)
    requires WellKeyed(s, key, next) && key(x) == next
    ensures WellKeyed(s + [x], key, next + 1)
    ensures Ids(s + [x], key) == Ids(s, key) + {next}
  {
    IdsOfAppend(s, x, key);
  }

  lemma ReplaceWellKeyed<T>(s: seq<T>, i: int, x: T, key: T -> int, next: int)
    requires WellKeyed(s, key, next) && 0 <= i < |s| && key(x) == key(s[i])
    ensures WellKeyed(s[i := x], key, next)
    ensures Ids(s[i := x], key) == Ids(s, key)
  {
    IdsOfReplace(s, i, x, key);
  }

  lemma RemoveWellKeyed<T>(s: seq<T>, i: int, key: T -> int, next: int)
    requires WellKeyed(s, key, next) && 0 <= i < |s|
    ensures WellKeyed(s[..i] + s[i + 1..], key, next)
    ensures Ids(s[..i] + s[i + 1..], key) == Ids(s, key) - {key(s[i])}
  {
    IdsOfRemove(s, i, key);
    var r := s[..i] + s[i + 1..];
    assert forall k :: 0 <= k < |r| ==> r[k] == s[if k < i then k else k + 1];
  }

  /** A new user with the next id and an unused e-mail keeps the tables consistent. */
  lemma AddUserConsistent(t: Tables, u: User)
    requires Consistent(t) && u.id == t.nextUserId && !EmailTaken(t.users, u.email)
    ensures Consistent(t.(users := t.users + [u], nextUserId := t.nextUserId + 1))
  {
    AppendWellKeyed(t.users, u, UserKey, t.nextUserId);
    var us := t.users + [u];
    assert UniqueEmails(us) by {
      forall i, j | 0 <= i < j < |us| ensures us[i].email != us[j].email {
        if j == |us| - 1 {
          assert us[i] == t.users[i];
        } else {
          assert us[i] == t.users[i] && us[j] == t.users[j];
        }
      }
    }
  }

  /** Rewriting a user in place keeps the tables consistent unless the e-mail clashes. */
  lemma SetUserConsistent(t: Tables, i: int, u: User)
    requires Consistent(t) && 0 <= i < |t.users| && u.id == t.users[i].id
    requires !EmailTakenByOther(t.users, u.id, u.email)
    ensures Consistent(t.(users := t.users[i := u]))
  {
    ReplaceWellKeyed(t.users, i, u, UserKey, t.nextUserId);
    var us := t.users[i := u];
    assert UniqueEmails(us) by {
      forall j, k | 0 <= j < k < |us| ensures us[j].email != us[k].email {
        assert UserKey(t.users[j]) < UserKey(t.users[k]);
        if j == i {
          assert us[k] == t.users[k];
        } else if k == i {
          assert us[j] == t.users[j];
        } else {
          assert us[j] == t.users[j] && us[k] == t.users[k];
        }
      }
    }
  }

  /** Removing a user no row points at keeps the tables consistent. */
  lemma DropUserConsistent(t: Tables, i: int)
    requires Consistent(t) && 0 <= i < |t.users| && !UserReferenced(t, t.users[i].id)
    ensures Consistent(t.(users := t.users[..i] + t.users[i + 1..]))
  {
    var id := t.users[i].id;
    RemoveWellKeyed(t.users, i, UserKey, t.nextUserId);
    var us := t.users[..i] + t.users[i + 1..];
    assert forall k :: 0 <= k < |us| ==> us[k] == t.users[if k < i then k else k + 1];
    var ids := Ids(us, UserKey);
    assert ItemRefsOk(t.items, ids, Ids(t.requests, RequestKey)) by {
      forall k | 0 <= k < |t.items| ensures t.items[k].ownerId != id {
      }
    }
    assert BookingRefsOk(t.bookings, ids, Ids(t.items, ItemKey)) by {
      forall k | 0 <= k < |t.bookings| ensures t.bookings[k].bookerId != id {
      }
    }
    assert CommentRefsOk(t.comments, ids, Ids(t.items, ItemKey)) by {
      forall k | 0 <= k < |t.comments| ensures t.comments[k].authorId != id {
      }
    }
    assert RequestRefsOk(t.requests, ids) by {
      forall k | 0 <= k < |t.requests| ensures t.requests[k].requesterId != id {
      }
    }
  }

  /** A new item with the next id, an existing owner and an existing request (if any)
      keeps the tables consistent. */
  lemma AddItemConsistent(t: Tables, it: Item)
    requires Consistent(t) && it.id == t.nextItemId && it.ownerId in Ids(t.users, UserKey)
    requires it.requestId.Some? ==> it.requestId.value in Ids(t.requests, RequestKey)
    ensures Consistent(t.(items := t.items + [it], nextItemId := t.nextItemId + 1))
  {
    AppendWellKeyed(t.items, it, ItemKey, t.nextItemId);
  }

  /** Rewriting an item in place with the same id, owner and request keeps the tables consistent. */
  lemma SetItemConsistent(t: Tables, i: int, it: Item)
    requires Consistent(t) && 0 <= i < |t.items| && it.id == t.items[i].id
    requires it.ownerId == t.items[i].ownerId && it.requestId == t.items[i].requestId
    ensures Consistent(t.(items := t.items[i := it]))
  {
    ReplaceWellKeyed(t.items, i, it, ItemKey, t.nextItemId);
  }

  /** Removing an item no booking or comment points at keeps the tables consistent. */
  lemma DropItemConsistent(t: Tables, i: int)
    requires Consistent(t) && 0 <= i < |t.items| && !ItemReferenced(t, t.items[i].id)
    ensures Consistent(t.(items := t.items[..i] + t.items[i + 1..]))
  {
    var id := t.items[i].id;
    RemoveWellKeyed(t.items, i, ItemKey, t.nextItemId);
    var its := t.items[..i] + t.items[i + 1..];
    assert forall k :: 0 <= k < |its| ==> its[k] == t.items[if k < i then k else k + 1];
    var ids := Ids(its, ItemKey);
    assert BookingRefsOk(t.bookings, Ids(t.users, UserKey), ids) by {
      forall k | 0 <= k < |t.bookings| ensures t.bookings[k].itemId != id {
      }
    }
    assert CommentRefsOk(t.comments, Ids(t.users, UserKey), ids) by {
      forall k | 0 <= k < |t.comments| ensures t.comments[k].itemId != id {
      }
    }
  }

  lemma AddBookingConsistent(t: Tables, b: Booking)
    requires Consistent(t) && b.id == t.nextBookingId
    requires b.bookerId in Ids(t.users, UserKey) && b.itemId in Ids(t.items, ItemKey)
    ensures Consistent(t.(bookings := t.bookings + [b], nextBookingId := t.nextBookingId + 1))
  {
    AppendWellKeyed(t.bookings, b, BookingKey, t.nextBookingId);
  }

  lemma SetBookingConsistent(t: Tables, i: int, b: Booking)
    requires Consistent(t) && 0 <= i < |t.bookings| && b.id == t.bookings[i].id
    requires b.bookerId == t.bookings[i].bookerId && b.itemId == t.bookings[i].itemId
    ensures Consistent(t.(bookings := t.bookings[i := b]))
  {
    ReplaceWellKeyed(t.bookings, i, b, BookingKey, t.nextBookingId);
  }

  // ---------------------------------------------------------------------------
  // What the services keep true of the bookings beyond the schema

  /** Every stored booking ends strictly after it starts, and its booker does not own
      the booked item: createBooking refuses both, and no write changes a booking's
      period, booker or item or an item's owner. */
  predicate BookingsSound(t: Tables)
  {
    && (forall b :: b in t.bookings ==> b.end > b.start)
    && (forall b, it :: b in t.bookings && it in t.items && it.id == b.itemId ==> it.ownerId != b.bookerId)
  }

  /** A new item is booked by nobody yet: its fresh id is no booking's item. */
  lemma AddItemKeepsSound(t: Tables, it: Item)
    requires Consistent(t) && BookingsSound(t) && it.id == t.nextItemId
    ensures BookingsSound(t.(items := t.items + [it], nextItemId := t.nextItemId + 1))
  {
    forall b | b in t.bookings ensures b.itemId != it.id {
      var k :| 0 <= k < |t.bookings| && t.bookings[k] == b;
      var j :| 0 <= j < |t.items| && t.items[j].id == b.itemId;
    }
  }

  /** An item saved again under its own owner keeps every booking of it sound. */
  lemma SetItemKeepsSound(t: Tables, i: int, it: Item)
    requires BookingsSound(t) && 0 <= i < |t.items|
    requires it.id == t.items[i].id && it.ownerId == t.items[i].ownerId
    ensures BookingsSound(t.(items := t.items[i := it]))
  {
    forall b, x | b in t.bookings && x in t.items[i := it] && x.id == b.itemId
      ensures x.ownerId != b.bookerId
    {
      var j :| 0 <= j < |t.items| && t.items[i := it][j] == x;
      assert t.items[j].id == x.id && t.items[j].ownerId == x.ownerId;
    }
  }

  /** Removing an item leaves the remaining pairs of booking and item as they were. */
  lemma DropItemKeepsSound(t: Tables, i: int)
    requires BookingsSound(t) && 0 <= i < |t.items|
    ensures BookingsSound(t.(items := t.items[..i] + t.items[i + 1..]))
  {
    forall x | x in t.items[..i] + t.items[i + 1..] ensures x in t.items {
      var j :| 0 <= j < |t.items[..i] + t.items[i + 1..]| && (t.items[..i] + t.items[i + 1..])[j] == x;
      if j < i {
        assert x == t.items[j];
      } else {
        assert x == t.items[j + 1];
      }
    }
  }

  /** A new booking that ends after it starts, of an item its booker does not own,
      keeps the bookings sound. */
  lemma AddBookingKeepsSound(t: Tables, b: Booking)
    requires BookingsSound(t) && b.end > b.start
    requires forall it :: it in t.items && it.id == b.itemId ==> it.ownerId != b.bookerId
    ensures BookingsSound(t.(bookings := t.bookings + [b], nextBookingId := t.nextBookingId + 1))
  {
    var bs := t.bookings + [b];
    forall x | x in bs ensures x in t.bookings || x == b {
      var j :| 0 <= j < |bs| && bs[j] == x;
      if j < |t.bookings| {
        assert x == t.bookings[j];
      }
    }
  }

  /** A booking saved again with its period, booker and item unchanged stays sound. */
  lemma SetBookingKeepsSound(t: Tables, i: int, b: Booking)
    requires BookingsSound(t) && 0 <= i < |t.bookings|
    requires b.start == t.bookings[i].start && b.end == t.bookings[i].end
    requires b.bookerId == t.bookings[i].bookerId && b.itemId == t.bookings[i].itemId
    ensures BookingsSound(t.(bookings := t.bookings[i := b]))
  {
    forall x | x in t.bookings[i := b]
      ensures x.end > x.start
      ensures forall it :: it in t.items && it.id == x.itemId ==> it.ownerId != x.bookerId
    {
      var j :| 0 <= j < |t.bookings| && t.bookings[i := b][j] == x;
      assert t.bookings[j] in t.bookings;
    }
  }

  lemma AddCommentConsistent(t: Tables, c: Comment)
    requires Consistent(t) && c.id == t.nextCommentId
    requires c.authorId in Ids(t.users, UserKey) && c.itemId in Ids(t.items, ItemKey)
    ensures Consistent(t.(comments := t.comments + [c], nextCommentId := t.nextCommentId + 1))
  {
    AppendWellKeyed(t.comments, c, CommentKey, t.nextCommentId);
  }

  lemma AddRequestConsistent(t: Tables, q: ItemRequest)
    requires Consistent(t) && q.id == t.nextRequestId && q.requesterId in Ids(t.users, UserKey)
    ensures Consistent(t.(requests := t.requests + [q], nextRequestId := t.nextRequestId + 1))
  {
    AppendWellKeyed(t.requests, q, RequestKey, t.nextRequestId);
  }

  // ---------------------------------------------------------------------------
  // Reads

  function FindUser(t: Tables, id: int): (r: Option<User>)
    ensures r.Some? <==> id in Ids(t.users, UserKey)
    ensures r.Some? ==> r.value in t.users && r.value.id == id
  {
    Find(t.users, UserKey, id)
  }

  function FindItem(t: Tables, id: int): (r: Option<Item>)
    ensures r.Some? <==> id in Ids(t.items, ItemKey)
    ensures r.Some? ==> r.value in t.items && r.value.id == id
  {
    Find(t.items, ItemKey, id)
  }

  function FindBooking(t: Tables, id: int): (r: Option<Booking>)
    ensures r.Some? <==> id in Ids(t.bookings, BookingKey)
    ensures r.Some? ==> r.value in t.bookings && r.value.id == id
  {
    Find(t.bookings, BookingKey, id)
  }

  function FindRequest(t: Tables, id: int): (r: Option<ItemRequest>)
    ensures r.Some? <==> id in Ids(t.requests, RequestKey)
    ensures r.Some? ==> r.value in t.requests && r.value.id == id
  {
    Find(t.requests, RequestKey, id)
  }

  function OfItem(itemId: int): Booking -> bool
  {
    (b: Booking) => b.itemId == itemId
  }

  function CommentOfItem(itemId: int): Comment -> bool
  {
    (c: Comment) => c.itemId == itemId
  }

  function ForRequest(requestId: int): Item -> bool
  {
    (it: Item) => it.requestId == Some(requestId)
  }

  /** A booking with its item loaded. */
  function BookingGraphOf(t: Tables, b: Booking): (r: BookingGraph)
    requires Consistent(t) && b in t.bookings
    ensures r.booking == b && r.item in t.items && r.item.id == b.itemId
  {
    var i :| 0 <= i < |t.bookings| && t.bookings[i] == b;
    BookingGraph(b, FindItem(t, b.itemId).value)
  }

  /** A comment with its author loaded. */
  function AuthoredOf(t: Tables, c: Comment): (r: AuthoredComment)
    requires Consistent(t) && c in t.comments
    ensures r.comment == c && r.author in t.users && r.author.id == c.authorId
  {
    var i :| 0 <= i < |t.comments| && t.comments[i] == c;
    AuthoredComment(c, FindUser(t, c.authorId).value)
  }

  /** An item with its bookings and its comments (authors loaded), in table order. */
  function ItemGraphOf(t: Tables, item: Item): (r: ItemGraph)
    requires Consistent(t)
    ensures r.item == item && r.bookings == Some(Filter(t.bookings, OfItem(item.id)))
    ensures r.comments.Some?
    ensures forall a :: a in r.comments.value ==> a.comment in t.comments && a.comment.itemId == item.id
    ensures forall c :: c in t.comments && c.itemId == item.id ==> exists a :: a in r.comments.value && a.comment == c
    ensures forall a :: a in r.comments.value ==> a.author in t.users && a.author.id == a.comment.authorId
  {
    var cs := Filter(t.comments, CommentOfItem(item.id));
    var authored := AuthoredAll(t, cs);
    AuthoredCover(t.comments, item.id, authored);
    ItemGraph(item, Some(Filter(t.bookings, OfItem(item.id))), Some(authored))
  }

  /** Loading the authors of an item's comments loses none of them. */
  lemma AuthoredCover(comments: seq<Comment>, itemId: int, authored: seq<AuthoredComment>)
    requires |authored| == |Filter(comments, CommentOfItem(itemId))|
    requires forall k :: 0 <= k < |authored| ==> authored[k].comment == Filter(comments, CommentOfItem(itemId))[k]
    ensures forall c :: c in comments && c.itemId == itemId ==> exists a :: a in authored && a.comment == c
  {
    var cs := Filter(comments, CommentOfItem(itemId));
    forall c | c in comments && c.itemId == itemId
      ensures exists a :: a in authored && a.comment == c
    {
      FilterHas(comments, CommentOfItem(itemId), c);
      var k :| 0 <= k < |cs| && cs[k] == c;
      assert authored[k] in authored;
    }
  }

  /** Stored comments with their authors loaded, in order. */
  function AuthoredAll(t: Tables, cs: seq<Comment>): (r: seq<AuthoredComment>)
    requires Consistent(t) && forall k :: 0 <= k < |cs| ==> cs[k] in t.comments
    ensures |r| == |cs|
    ensures forall k :: 0 <= k < |cs| ==> r[k].comment == cs[k]
    ensures forall a :: a in r ==> a.comment in cs && a.author in t.users && a.author.id == a.comment.authorId
  {
    seq(|cs|, k requires 0 <= k < |cs| => AuthoredOf(t, cs[k]))
  }

  function ItemGraphsOf(t: Tables, s: seq<Item>): (r: seq<ItemGraph>)
    requires Consistent(t)
    ensures |r| == |s| && forall k :: 0 <= k < |s| ==> r[k] == ItemGraphOf(t, s[k])
  {
    seq(|s|, k requires 0 <= k < |s| => ItemGraphOf(t, s[k]))
  }

  /** findAllByRequestId: the items answering a request, in table order. */
  function ItemsForRequest(t: Tables, requestId: int): (r: seq<Item>)
    ensures forall it :: it in r <==> it in t.items && it.requestId == Some(requestId)
  {
    Filter(t.items, ForRequest(requestId))
  }

  /** A request with its items loaded. */
  function RequestGraphOf(t: Tables, req: ItemRequest): (r: RequestGraph)
    requires Consistent(t)
    ensures r.request == req && r.items == Some(ItemGraphsOf(t, ItemsForRequest(t, req.id)))
  {
    RequestGraph(req, Some(ItemGraphsOf(t, ItemsForRequest(t, req.id))))
  }

  // ---------------------------------------------------------------------------
  // The database, changed by the repositories' save and delete

  class Store {
    var tables: Tables

    predicate Valid()
      reads this
    {
      Consistent(tables)
    }

    constructor ()
      ensures Valid()
      ensures tables == Tables([], [], [], [], [], 1, 1, 1, 1, 1)
    {
      tables := Tables([], [], [], [], [], 1, 1, 1, 1, 1);
    }

    /** save of a new user: name and e-mail are NOT NULL, the e-mail is unique. */
    method InsertUser(name: Option<string>, email: Option<string>) returns (r: Result<User>)
      requires Valid()
      modifies this
      ensures Valid()
      ensures r.Err? <==> name.None? || email.None? || EmailTaken(old(tables).users, email.value)
      ensures r.Err? ==> r.error == DataIntegrityViolation && tables == old(tables)
      ensures r.Ok? ==>
        && r.value == User(old(tables).nextUserId, name.value, email.value)
        && tables == old(tables).(users := old(tables).users + [r.value],
                                  nextUserId := old(tables).nextUserId + 1)
    {
      if name.None? || email.None? || EmailTaken(tables.users, email.value) {
        return Err(DataIntegrityViolation);
      }
      var u := User(tables.nextUserId, name.value, email.value);
      AddUserConsistent(tables, u);
      tables := tables.(users := tables.users + [u], nextUserId := tables.nextUserId + 1);
      r := Ok(u);
    }

    /** saveAndFlush of an existing user: the e-mail stays unique. */
    method UpdateUser(u: User) returns (r: Result<User>)
      requires Valid() && u.id in Ids(tables.users, UserKey)
      modifies this
      ensures Valid()
      ensures r.Err? <==> EmailTakenByOther(old(tables).users, u.id, u.email)
      ensures r.Err? ==> r.error == DataIntegrityViolation && tables == old(tables)
      ensures r.Ok? ==>
        && r.value == u
        && tables == old(tables).(users := old(tables).users[IndexOf(old(tables).users, UserKey, u.id) := u])
    {
      if EmailTakenByOther(tables.users, u.id, u.email) {
        return Err(DataIntegrityViolation);
      }
      var i := IndexOf(tables.users, UserKey, u.id);
      SetUserConsistent(tables, i, u);
      tables := tables.(users := tables.users[i := u]);
      r := Ok(u);
    }

    /** delete of an existing user: refused while any row points at it. */
    method DeleteUser(id: int) returns (r: Result<()>)
      requires Valid() && id in Ids(tables.users, UserKey)
      modifies this
      ensures Valid()
      ensures r.Err? <==> UserReferenced(old(tables), id)
      ensures r.Err? ==> r.error == DataIntegrityViolation && tables == old(tables)
      ensures r.Ok? ==>
        var i := IndexOf(old(tables).users, UserKey, id);
        tables == old(tables).(users := old(tables).users[..i] + old(tables).users[i + 1..])
    {
      if UserReferenced(tables, id) {
        return Err(DataIntegrityViolation);
      }
      var i := IndexOf(tables.users, UserKey, id);
      DropUserConsistent(tables, i);
      tables := tables.(users := tables.users[..i] + tables.users[i + 1..]);
      r := Ok(());
    }

    /** save of a new item: name, description and availability are NOT NULL. */
    method InsertItem(draft: ItemDraft) returns (r: Result<Item>)
      requires Valid()
      requires draft.ownerId.Some? && draft.ownerId.value in Ids(tables.users, UserKey)
      requires draft.requestId.Some? ==> draft.requestId.value in Ids(tables.requests, RequestKey)
      modifies this
      ensures Valid()
      ensures r.Err? <==> draft.name.None? || draft.description.None? || draft.available.None?
      ensures r.Err? ==> r.error == DataIntegrityViolation && tables == old(tables)
      ensures r.Ok? ==>
        && r.value == Item(old(tables).nextItemId, draft.name.value, draft.description.value,
                           draft.available.value, draft.ownerId.value, draft.requestId)
        && tables == old(tables).(items := old(tables).items + [r.value],
                                  nextItemId := old(tables).nextItemId + 1)
    {
      if draft.name.None? || draft.description.None? || draft.available.None? {
        return Err(DataIntegrityViolation);
      }
      var it := Item(tables.nextItemId, draft.name.value, draft.description.value,
                     draft.available.value, draft.ownerId.value, draft.requestId);
      AddItemConsistent(tables, it);
      tables := tables.(items := tables.items + [it], nextItemId := tables.nextItemId + 1);
      r := Ok(it);
    }

    /** save of an existing item, keeping its owner and request. */
    method UpdateItem(it: Item)
      requires Valid() && it.id in Ids(tables.items, ItemKey)
      requires FindItem(tables, it.id).value.ownerId == it.ownerId
      requires FindItem(tables, it.id).value.requestId == it.requestId
      modifies this
      ensures Valid()
      ensures tables == old(tables).(items := old(tables).items[IndexOf(old(tables).items, ItemKey, it.id) := it])
    {
      var i := IndexOf(tables.items, ItemKey, it.id);
      FindAt(tables.items, ItemKey, i);
      SetItemConsistent(tables, i, it);
      tables := tables.(items := tables.items[i := it]);
    }

    /** deleteById of an existing item: refused while bookings or comments point at it. */
    method DeleteItem(id: int) returns (r: Result<()>)
      requires Valid() && id in Ids(tables.items, ItemKey)
      modifies this
      ensures Valid()
      ensures r.Err? <==> ItemReferenced(old(tables), id)
      ensures r.Err? ==> r.error == DataIntegrityViolation && tables == old(tables)
      ensures r.Ok? ==>
        var i := IndexOf(old(tables).items, ItemKey, id);
        tables == old(tables).(items := old(tables).items[..i] + old(tables).items[i + 1..])
    {
      if ItemReferenced(tables, id) {
        return Err(DataIntegrityViolation);
      }
      var i := IndexOf(tables.items, ItemKey, id);
      DropItemConsistent(tables, i);
      tables := tables.(items := tables.items[..i] + tables.items[i + 1..]);
      r := Ok(());
    }

    /** save of a new booking with every column set. */
    method InsertBooking(draft: BookingDraft) returns (b: Booking)
      requires Valid()
      requires draft.status.Some? && draft.bookerId.Some? && draft.itemId.Some?
      requires draft.bookerId.value in Ids(tables.users, UserKey)
      requires draft.itemId.value in Ids(tables.items, ItemKey)
      modifies this
      ensures Valid()
      ensures b == Booking(old(tables).nextBookingId, draft.start, draft.end, draft.status.value,
                           draft.bookerId.value, draft.itemId.value)
      ensures tables == old(tables).(bookings := old(tables).bookings + [b],
                                     nextBookingId := old(tables).nextBookingId + 1)
    {
      b := Booking(tables.nextBookingId, draft.start, draft.end, draft.status.value,
                   draft.bookerId.value, draft.itemId.value);
      AddBookingConsistent(tables, b);
      tables := tables.(bookings := tables.bookings + [b], nextBookingId := tables.nextBookingId + 1);
    }

    /** save of an existing booking, keeping its booker and item. */
    method UpdateBooking(b: Booking)
      requires Valid() && b.id in Ids(tables.bookings, BookingKey)
      requires FindBooking(tables, b.id).value.bookerId == b.bookerId
      requires FindBooking(tables, b.id).value.itemId == b.itemId
      modifies this
      ensures Valid()
      ensures tables == old(tables).(bookings := old(tables).bookings[IndexOf(old(tables).bookings, BookingKey, b.id) := b])
    {
      var i := IndexOf(tables.bookings, BookingKey, b.id);
      FindAt(tables.bookings, BookingKey, i);
      SetBookingConsistent(tables, i, b);
      tables := tables.(bookings := tables.bookings[i := b]);
    }

    /** save of a new comment with every column set. */
    method InsertComment(draft: CommentDraft) returns (c: Comment)
      requires Valid()
      requires draft.authorId.Some? && draft.itemId.Some? && draft.created.Some?
      requires draft.authorId.value in Ids(tables.users, UserKey)
      requires draft.itemId.value in Ids(tables.items, ItemKey)
      modifies this
      ensures Valid()
      ensures c == Comment(old(tables).nextCommentId, draft.text, draft.authorId.value,
                           draft.itemId.value, draft.created.value)
      ensures tables == old(tables).(comments := old(tables).comments + [c],
                                     nextCommentId := old(tables).nextCommentId + 1)
    {
      c := Comment(tables.nextCommentId, draft.text, draft.authorId.value, draft.itemId.value,
                   draft.created.value);
      AddCommentConsistent(tables, c);
      tables := tables.(comments := tables.comments + [c], nextCommentId := tables.nextCommentId + 1);
    }

    /** save of a new item request. */
    method InsertRequest(description: string, requesterId: int, created: Time) returns (q: ItemRequest)
      requires Valid() && requesterId in Ids(tables.users, UserKey)
      modifies this
      ensures Valid()
      ensures q == ItemRequest(old(tables).nextRequestId, description, requesterId, created)
      ensures tables == old(tables).(requests := old(tables).requests + [q],
                                     nextRequestId := old(tables).nextRequestId + 1)
    {
      q := ItemRequest(tables.nextRequestId, description, requesterId, created);
      AddRequestConsistent(tables, q);
      tables := tables.(requests := tables.requests + [q], nextRequestId := tables.nextRequestId + 1);
    }
  }
}
