/** The in-memory item store of the first version of the service: an id counter,
    the items by id, and an index from owner id to that owner's items by id.
    The maps and the counter are fields the methods update in place. */
module ItemStorage {
  import opened Common
  import opened Domain

  /** The text search rule: an available item whose lower-cased name or description
      contains the lower-cased text. */
  function SearchHit(text: string): Item -> bool
  {
    (it: Item) =>
      (Contains(LowerCase(it.name), LowerCase(text)) || Contains(LowerCase(it.description), LowerCase(text)))
      && it.available
  }

  /** Lower-casing twice is lower-casing once. */
  lemma LowerCaseTwice(s: string)
    ensures LowerCase(LowerCase(s)) == LowerCase(s)
  {
    var once := LowerCase(s);
    assert forall i :: 0 <= i < |s| ==> LowerCase(once)[i] == once[i];
  }

  /** The search does not depend on the case of the text. */
  lemma SearchIgnoresCase(text: string, it: Item)
    ensures SearchHit(LowerCase(text))(it) == SearchHit(text)(it)
  {
    LowerCaseTwice(text);
  }

  /** Every stored item is listed, under its owner, in the owner index. */
  predicate Listed(items: map<int, Item>, index: map<int, map<int, Item>>)
  {
    forall k :: k in items ==>
      items[k].ownerId in index && k in index[items[k].ownerId] && index[items[k].ownerId][k] == items[k]
  }

  /** Every entry of the owner index is a stored item, under its own owner. */
  predicate OnlyStored(items: map<int, Item>, index: map<int, map<int, Item>>)
  {
    forall o, k :: o in index && k in index[o] ==> k in items && items[k] == index[o][k] && items[k].ownerId == o
  }

  /** The items an owner index lists for one owner (no entry: none). */
  function OwnerItems(index: map<int, map<int, Item>>, userId: int): (r: set<Item>)
    ensures forall it :: it in r <==> userId in index && exists k :: k in index[userId] && index[userId][k] == it
  {
    if userId in index then StoredValues(index[userId]) else {}
  }

  /** The values of a map (HashMap.values). */
  function StoredValues(m: map<int, Item>): (r: set<Item>)
    ensures forall it :: it in r <==> exists k :: k in m && m[k] == it
  {
    set k | k in m :: m[k]
  }

  /** With the index listing every stored item and nothing else, an owner's index
      entry holds exactly the stored items of that owner. */
  lemma OwnerItemsExact(items: map<int, Item>, index: map<int, map<int, Item>>, userId: int)
    ensures Listed(items, index) && OnlyStored(items, index) ==>
      forall it :: it in OwnerItems(index, userId) <==> it in StoredValues(items) && it.ownerId == userId
  {
    if Listed(items, index) && OnlyStored(items, index) {
      forall it | it in StoredValues(items) && it.ownerId == userId ensures it in OwnerItems(index, userId) {
        var k :| k in items && items[k] == it;
        assert index[userId][k] == it;
      }
      forall it | it in OwnerItems(index, userId) ensures it in StoredValues(items) && it.ownerId == userId {
        var k :| k in index[userId] && index[userId][k] == it;
        assert items[k] == it;
      }
    }
  }

  /** Dropping an item from the main map while its index entry stays leaves an
      entry that is not stored. */
  lemma StaleEntryNotStored(items: map<int, Item>, index: map<int, map<int, Item>>, id: int)
    requires Listed(items, index) && id in items
    ensures !OnlyStored(items - {id}, index)
    ensures items[id] in OwnerItems(index, items[id].ownerId)
  {
    var o := items[id].ownerId;
    assert o in index && id in index[o] && id !in items - {id};
  }

  /** Dropping an item from both maps keeps the index exact. */
  lemma DropKeepsOnlyStored(items: map<int, Item>, index: map<int, map<int, Item>>, id: int)
    requires OnlyStored(items, index) && id in items && items[id].ownerId in index
    ensures var o := items[id].ownerId;
      OnlyStored(items - {id}, index[o := index[o] - {id}])
  {
    var o := items[id].ownerId;
    var index' := index[o := index[o] - {id}];
    forall p, k | p in index' && k in index'[p]
      ensures k in items - {id} && (items - {id})[k] == index'[p][k] && (items - {id})[k].ownerId == p
    {
      if p == o {
        assert k in index[o] && k != id;
      } else {
        assert k in index[p] && items[k].ownerId == p;
      }
    }
  }

  class ItemStorage {
    var nextId: int
    var items: map<int, Item>
    var itemsWithUsers: map<int, map<int, Item>>

    /** The counter is above every id handed out, every stored item sits under its
        own id and is listed under its owner. */
    predicate Valid()
      reads this
    {
      && nextId >= 1
      && (forall k :: k in items ==> items[k].id == k && 1 <= k < nextId)
      && (forall o, k :: o in itemsWithUsers && k in itemsWithUsers[o] ==>
            1 <= k < nextId && itemsWithUsers[o][k].id == k && itemsWithUsers[o][k].ownerId == o)
      && Listed(items, itemsWithUsers)
    }

    /** The owner index holds nothing but stored items. */
    predicate Exact()
      reads this
    {
      OnlyStored(items, itemsWithUsers)
    }

    constructor ()
      ensures Valid() && Exact()
      ensures nextId == 1 && items == map[] && itemsWithUsers == map[]
    {
      nextId := 1;
      items := map[];
      itemsWithUsers := map[];
    }

    /** getItemById: a copy of the stored item, or nothing. */
    function GetItemById(id: int): (r: Option<Item>)
      reads this
      ensures r.Some? <==> id in items
      ensures r.Some? ==> r.value == items[id]
    {
      if id in items then Some(items[id]) else None
    }

    /** getAllItems: the items the owner index lists for the owner. */
    function GetAllItems(userId: int): (r: set<Item>)
      reads this
      ensures Valid() && Exact() ==> forall it :: it in r <==> it in StoredValues(items) && it.ownerId == userId
    {
      OwnerItemsExact(items, itemsWithUsers, userId);
      OwnerItems(itemsWithUsers, userId)
    }

    /** createItem: the item gets the counter's value as its id, the counter moves on,
        and the item is stored and listed under its owner. */
    method CreateItem(item: Item) returns (r: Option<Item>)
      requires Valid()
      modifies this
      ensures Valid() && (old(Exact()) ==> Exact())
      ensures var stored := item.(id := old(nextId));
        && r == Some(stored)
        && nextId == old(nextId) + 1
        && items == old(items)[stored.id := stored]
        && itemsWithUsers == old(itemsWithUsers)[item.ownerId := OwnerItemMap(old(itemsWithUsers), item.ownerId)[stored.id := stored]]
      ensures GetItemById(r.value.id) == r && r.value in GetAllItems(item.ownerId)
    {
      var stored := item.(id := nextId);
      nextId := nextId + 1;
      var owned := OwnerItemMap(itemsWithUsers, item.ownerId);
      items := items[stored.id := stored];
      itemsWithUsers := itemsWithUsers[item.ownerId := owned[stored.id := stored]];
      r := GetItemById(stored.id);
      assert itemsWithUsers[item.ownerId][stored.id] == stored;
    }

    /** updateItem: only the owner may replace an item; an id that is not stored fails
        on the missing entry.  The new item is stored under the stored owner's index
        entry whatever owner it names, so the invariant holds afterwards only when
        it keeps the caller as owner. */
    method UpdateItem(userId: int, item: Item) returns (r: Result<Item>)
      requires Valid()
      modifies this
      ensures r.Err? || item.ownerId == userId ==> Valid() && (old(Exact()) ==> Exact())
      ensures item.id !in old(items) ==> r == Err(NullPointer) && unchanged(this)
      ensures item.id in old(items) && old(items)[item.id].ownerId != userId ==>
        r == Err(NotFound("Вещь не найдена")) && unchanged(this)
      ensures item.id in old(items) && old(items)[item.id].ownerId == userId ==>
        && r == Ok(item)
        && nextId == old(nextId)
        && items == old(items)[item.id := item]
        && itemsWithUsers == old(itemsWithUsers)[userId := old(itemsWithUsers)[userId][item.id := item]]
    {
      if item.id !in items {
        return Err(NullPointer);
      }
      var ownerId := items[item.id].ownerId;
      if ownerId != userId {
        return Err(NotFound("Вещь не найдена"));
      }
      items := items[item.id := item];
      itemsWithUsers := itemsWithUsers[ownerId := itemsWithUsers[ownerId][item.id := item]];
      r := Ok(GetItemById(item.id).value);
    }

    /** removeItem as written: the index removal is keyed by the owner object rather
        than the owner id, so it finds nothing and only the main map loses the item. */
    method RemoveItem(id: int) returns (r: Result<()>)
      requires Valid()
      modifies this
      ensures Valid()
      ensures id !in old(items) ==> r == Err(NoSuchElement) && unchanged(this)
      ensures id in old(items) ==>
        && r == Ok(())
        && nextId == old(nextId)
        && items == old(items) - {id}
        && itemsWithUsers == old(itemsWithUsers)
        && old(items)[id] in GetAllItems(old(items)[id].ownerId)
        && !Exact()
    {
      if id !in items {
        return Err(NoSuchElement);
      }
      StaleEntryNotStored(items, itemsWithUsers, id);
      items := items - {id};
      r := Ok(());
    }

    /** removeItem as intended: the item leaves the main map and its owner's index entry. */
    method RemoveItemCorrected(id: int) returns (r: Result<()>)
      requires Valid()
      modifies this
      ensures Valid() && (old(Exact()) ==> Exact())
      ensures id !in old(items) ==> r == Err(NoSuchElement) && unchanged(this)
      ensures id in old(items) ==>
        var o := old(items)[id].ownerId;
        && r == Ok(())
        && nextId == old(nextId)
        && items == old(items) - {id}
        && itemsWithUsers == old(itemsWithUsers)[o := old(itemsWithUsers)[o] - {id}]
        && GetItemById(id).None?
        && old(items)[id] !in GetAllItems(o)
    {
      if id !in items {
        return Err(NoSuchElement);
      }
      var o := items[id].ownerId;
      if Exact() {
        DropKeepsOnlyStored(items, itemsWithUsers, id);
      }
      var gone := items[id];
      items := items - {id};
      itemsWithUsers := itemsWithUsers[o := itemsWithUsers[o] - {id}];
      r := Ok(());
      forall k | k in itemsWithUsers[o] ensures itemsWithUsers[o][k] != gone {
        assert itemsWithUsers[o][k].id == k && k != id;
      }
    }

    /** search: exactly the stored items that match the text. */
    function Search(text: string): (r: set<Item>)
      reads this
      ensures forall it :: it in r <==> it in StoredValues(items) && SearchHit(text)(it)
    {
      set k | k in items && SearchHit(text)(items[k]) :: items[k]
    }
  }

  /** The owner's entry of the index, or a fresh empty one (computeIfAbsent). */
  function OwnerItemMap(index: map<int, map<int, Item>>, ownerId: int): (r: map<int, Item>)
    ensures ownerId in index ==> r == index[ownerId]
    ensures ownerId !in index ==> r == map[]
  {
    if ownerId in index then index[ownerId] else map[]
  }

  /** A search never returns an unavailable item. */
  lemma SearchOnlyAvailable(text: string, it: Item)
    requires SearchHit(text)(it)
    ensures it.available
  {
  }
}
