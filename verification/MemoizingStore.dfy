/** web/net/request_tracker_data_memoizing_store.h: the four maps behind the item table. */
module MemoizingStore {
  import opened Options
  import opened IdMultimap
  import opened ItemTable

  /** An element of `item_to_id_`: the stored pointer and its id. */
  datatype Entry = Entry(item: Item, id: int)

  class RequestTrackerDataMemoizingStore {
    var trackerToItemId: seq<Pair>
    var itemIdToTracker: seq<Pair>
    var idToItem: map<int, Item>
    // Keyed by T::LessThan, that is by the rank of the item.
    var itemToId: map<int, Entry>
    var nextItemId: int
    ghost var issued: nat

    ghost predicate Valid()
      reads this
    {
      && MapsAgree(trackerToItemId, itemIdToTracker, idToItem, itemToId)
      && 0 !in idToItem
      && nextItemId == IdAt(issued)
    }

    /** The table these maps represent. */
    ghost function Contents(): (a: Table)
      reads this
    {
      Table(Entries(trackerToItemId), idToItem, issued)
    }

    constructor ()
      ensures Valid() && Contents() == EMPTY && nextItemId == 1
    {
      trackerToItemId, itemIdToTracker := [], [];
      idToItem, itemToId := map[], map[];
      nextItemId := 1;
      issued := 0;
    }

    /** Whatever is in any of the maps leads to a live item. */
    lemma EverythingLeadsToLiveItems()
      requires Valid()
      ensures forall p :: p in trackerToItemId ==> p.value in Contents().live
      ensures forall p :: p in itemIdToTracker ==> p.key in Contents().live
      ensures forall rank :: rank in itemToId ==> itemToId[rank].id in Contents().live
    {
      forall p | p in trackerToItemId ensures p.value in idToItem {
        assert p in Entries(trackerToItemId);
      }
      forall p | p in itemIdToTracker ensures p.key in idToItem {
        assert p == Pair(p.key, p.value);
        assert Pair(p.value, p.key) in Entries(trackerToItemId);
      }
    }

    /** The destructor's check: with no live item nothing is left in any of the maps. */
    lemma EmptyTableMeansEmptyMaps()
      requires Valid() && Contents().live == map[]
      ensures |idToItem| == 0 && |itemToId| == 0
      ensures trackerToItemId == [] && itemIdToTracker == []
    {
      EverythingLeadsToLiveItems();
      assert forall id :: id !in Contents().live;
      assert forall rank :: rank !in itemToId;
      assert itemToId == map[];
      SomeEntry(trackerToItemId);
      SomeEntry(itemIdToTracker);
    }

    /**
     Stores an item for a tracker. The maps stay consistent exactly when the next id is
     not in use already, which only a wrapped-around counter can bring about.
     */
    method Store(item: Item, tracker: int) returns (itemId: int)
      requires Valid()
      modifies this
      ensures itemId == IdFor(old(Contents()), item.rank) && itemId != 0
      ensures Valid() <==> CanStore(old(Contents()), item.rank)
      ensures Valid() ==> Contents() == Stored(old(Contents()), item, tracker)
    {
      KnownByRank(trackerToItemId, itemIdToTracker, idToItem, itemToId, issued, item.rank);
      if item.rank !in itemToId {
        itemId := StoreNew(item, tracker);
      } else {
        itemId := StoreKnown(item, tracker);
      }
    }

    /** The branch of `Store` for an item that is not known. */
    method StoreNew(item: Item, tracker: int) returns (itemId: int)
      requires Valid() && item.rank !in itemToId
      modifies this
      ensures itemId == IdAt(old(issued)) && itemId != 0
      ensures Valid() <==> CanStore(old(Contents()), item.rank)
      ensures Valid() ==> Contents() == Stored(old(Contents()), item, tracker)
    {
      itemId := nextItemId;
      nextItemId := if nextItemId == MAX_INT then MIN_INT else nextItemId + 1;
      if nextItemId == 0 {
        nextItemId := 1;
      }
      SuccessorOfIdAt(issued);
      issued := issued + 1;
      idToItem := idToItem[itemId := item];
      itemToId := itemToId[item.rank := Entry(item, itemId)];
      UpdateMaps(tracker, itemId);
      StoreNewOutcome(old(trackerToItemId), old(itemIdToTracker), old(idToItem), old(itemToId), old(issued),
                      item, tracker, trackerToItemId, itemIdToTracker);
    }

    /** And for one that is. */
    method StoreKnown(item: Item, tracker: int) returns (itemId: int)
      requires Valid() && item.rank in itemToId
      modifies this
      ensures itemId == old(itemToId)[item.rank].id && itemId != 0
      ensures Valid() && Contents() == Stored(old(Contents()), item, tracker)
    {
      itemId := itemToId[item.rank].id;
      assert itemId in idToItem;
      UpdateMaps(tracker, itemId);
      StoreKnownOutcome(old(trackerToItemId), old(itemIdToTracker), idToItem, itemToId, issued,
                        item, tracker, trackerToItemId, itemIdToTracker);
    }

    /** The two `UpdateMap` calls of `Store`. */
    method UpdateMaps(tracker: int, itemId: int)
      requires WellFormed(trackerToItemId) && WellFormed(itemIdToTracker)
      modifies this`trackerToItemId, this`itemIdToTracker
      ensures WellFormed(trackerToItemId) && WellFormed(itemIdToTracker)
      ensures Entries(trackerToItemId) == old(Entries(trackerToItemId)) + {Pair(tracker, itemId)}
      ensures Entries(itemIdToTracker) == old(Entries(itemIdToTracker)) + {Pair(itemId, tracker)}
    {
      trackerToItemId := UpdateMap(trackerToItemId, tracker, itemId);
      itemIdToTracker := UpdateMap(itemIdToTracker, itemId, tracker);
    }

    method Retrieve(itemId: int) returns (found: bool, item: Option<Item>)
      requires Valid()
      ensures found <==> itemId in Contents().live
      ensures item == if found then Some(Contents().live[itemId]) else None
    {
      if itemId !in idToItem {
        return false, None;
      }
      return true, Some(idToItem[itemId]);
    }

    /** Both checks in the body of the original are proved: the two look-ups cannot fail. */
    method RemoveInternal(itemId: int)
      requires itemId in idToItem && Inverse(idToItem, itemToId)
      modifies this`idToItem, this`itemToId
      ensures idToItem == old(idToItem) - {itemId}
      ensures Inverse(idToItem, itemToId)
    {
      var rank := idToItem[itemId].rank;
      assert rank in itemToId;
      itemToId := itemToId - {rank};
      idToItem := idToItem - {itemId};
    }

    /**
     The body of the removal loop: erases item id -> tracker, and the item with it when no
     other tracker refers to that id.
     */
    method RemoveReference(itemId: int, tracker: int, ghost before: map<int, Item>)
      requires WellFormed(itemIdToTracker) && Pair(itemId, tracker) in itemIdToTracker
      requires Inverse(idToItem, itemToId) && KeepsReferenced(before, idToItem, itemIdToTracker)
      modifies this`itemIdToTracker, this`idToItem, this`itemToId
      ensures WellFormed(itemIdToTracker)
      ensures Entries(itemIdToTracker) == old(Entries(itemIdToTracker)) - {Pair(itemId, tracker)}
      ensures Inverse(idToItem, itemToId) && KeepsReferenced(before, idToItem, itemIdToTracker)
    {
      var lower, upper := EqualRange(itemIdToTracker, itemId);
      var proc := FindSecond(itemIdToTracker, lower, upper, tracker, itemId);
      assert proc != upper;
      var lastTrackerForItemId := proc == lower && proc + 1 == upper;
      assert itemIdToTracker[proc..proc + 1] == [Pair(itemId, tracker)];
      itemIdToTracker := EraseRange(itemIdToTracker, proc, proc + 1);
      EraseReference(before, idToItem, old(itemIdToTracker), proc, lower, upper, itemIdToTracker);
      if lastTrackerForItemId {
        RemoveInternal(itemId);
      }
    }

    /** One round of the removal loop. */
    method RemoveNext(first: nat, ids: nat, tracker: int, ghost before: map<int, Item>)
      requires Distinct(trackerToItemId) && ids < |trackerToItemId| && trackerToItemId[ids].key == tracker
      requires HalfRemoved(trackerToItemId, first, ids, itemIdToTracker)
      requires Inverse(idToItem, itemToId) && KeepsReferenced(before, idToItem, itemIdToTracker)
      modifies this`itemIdToTracker, this`idToItem, this`itemToId
      ensures HalfRemoved(trackerToItemId, first, ids + 1, itemIdToTracker)
      ensures Inverse(idToItem, itemToId) && KeepsReferenced(before, idToItem, itemIdToTracker)
    {
      var itemId := trackerToItemId[ids].value;
      VisitedOnce(trackerToItemId, first, ids, itemIdToTracker, tracker);
      RemoveReference(itemId, tracker, before);
      VisitPair(trackerToItemId, first, ids, old(itemIdToTracker), tracker, itemIdToTracker);
    }

    /** The removal loop: visits the pairs of the tracker, and takes each out of the transpose. */
    method RemoveReferences(first: nat, last: nat, tracker: int, ghost before: map<int, Item>)
      requires Distinct(trackerToItemId) && IsEqualRange(trackerToItemId, tracker, first, last)
      requires HalfRemoved(trackerToItemId, first, first, itemIdToTracker)
      requires Inverse(idToItem, itemToId) && KeepsReferenced(before, idToItem, itemIdToTracker)
      modifies this`itemIdToTracker, this`idToItem, this`itemToId
      ensures HalfRemoved(trackerToItemId, first, last, itemIdToTracker)
      ensures Inverse(idToItem, itemToId) && KeepsReferenced(before, idToItem, itemIdToTracker)
    {
      var ids := first;
      while ids != last
        invariant first <= ids <= last
        invariant HalfRemoved(trackerToItemId, first, ids, itemIdToTracker)
        invariant Inverse(idToItem, itemToId) && KeepsReferenced(before, idToItem, itemIdToTracker)
        decreases last - ids
      {
        RemoveNext(first, ids, tracker, before);
        ids := ids + 1;
      }
    }

    /** Removes every item that only this tracker refers to. */
    method RemoveForRequestTracker(tracker: int)
      requires Valid()
      modifies this
      ensures Valid()
      ensures Contents() == Removed(old(Contents()), tracker)
    {
      var first, last := EqualRange(trackerToItemId, tracker);
      BeginRemoval(trackerToItemId, itemIdToTracker, idToItem, itemToId, first);
      RemoveReferences(first, last, tracker, idToItem);
      if first != last {
        trackerToItemId := EraseRange(trackerToItemId, first, last);
      }
      EndRemoval(old(trackerToItemId), first, last, trackerToItemId, itemIdToTracker,
                 idToItem, itemToId, tracker, old(Contents()));
    }
  }

  // ---------- How the four maps hang together ----------

  ghost predicate Transposed(m: seq<Pair>, n: seq<Pair>) {
    forall x, y :: Pair(x, y) in m <==> Pair(y, x) in n
  }

  /** `id_to_item_` and `item_to_id_` are inverse to each other and hold the same pointers. */
  ghost predicate Inverse(idToItem: map<int, Item>, itemToId: map<int, Entry>) {
    && (forall id :: id in idToItem ==>
      idToItem[id].rank in itemToId && itemToId[idToItem[id].rank] == Entry(idToItem[id], id))
    && (forall rank :: rank in itemToId ==>
      && itemToId[rank].item.rank == rank
      && itemToId[rank].id in idToItem && idToItem[itemToId[rank].id] == itemToId[rank].item)
  }

  ghost predicate MapsAgree(m: seq<Pair>, n: seq<Pair>, idToItem: map<int, Item>, itemToId: map<int, Entry>) {
    && WellFormed(m) && WellFormed(n) && Transposed(m, n)
    && Inverse(idToItem, itemToId)
    && forall id :: id in idToItem <==> Referenced(Entries(m), id)
  }

  lemma SomeEntry(m: seq<Pair>)
    ensures m == [] || exists p :: p in m
  {
    if m != [] {
      assert m[0] in m;
    }
  }

  /** Maps that agree represent a consistent table, in which `item_to_id_` finds the live items. */
  lemma KnownByRank(m: seq<Pair>, n: seq<Pair>, idToItem: map<int, Item>, itemToId: map<int, Entry>,
                    issued: nat, rank: int)
    requires MapsAgree(m, n, idToItem, itemToId)
    ensures Consistent(Table(Entries(m), idToItem, issued))
    ensures rank in itemToId <==> Known(Table(Entries(m), idToItem, issued), rank)
    ensures rank in itemToId ==> IdFor(Table(Entries(m), idToItem, issued), rank) == itemToId[rank].id
  {
    if rank in itemToId {
      assert idToItem[itemToId[rank].id].rank == rank;
    }
  }

  /** What `Store` leaves behind if its look-up finds an equivalent item. */
  lemma StoreKnownOutcome(m: seq<Pair>, n: seq<Pair>, idToItem: map<int, Item>, itemToId: map<int, Entry>,
                          issued: nat, item: Item, tracker: int, m': seq<Pair>, n': seq<Pair>)
    requires MapsAgree(m, n, idToItem, itemToId) && item.rank in itemToId
    requires WellFormed(m') && WellFormed(n')
    requires Entries(m') == Entries(m) + {Pair(tracker, itemToId[item.rank].id)}
    requires Entries(n') == Entries(n) + {Pair(itemToId[item.rank].id, tracker)}
    ensures MapsAgree(m', n', idToItem, itemToId)
    ensures Table(Entries(m'), idToItem, issued) == Stored(Table(Entries(m), idToItem, issued), item, tracker)
  {
    var id := itemToId[item.rank].id;
    KnownByRank(m, n, idToItem, itemToId, issued, item.rank);
    TransposedUpdate(m, n, tracker, id, m', n');
    ReferencedUpdate(m, tracker, id, m');
    assert id in idToItem;
  }

  /** And if it does not: the maps agree exactly if the next id is free. */
  lemma StoreNewOutcome(m: seq<Pair>, n: seq<Pair>, idToItem: map<int, Item>, itemToId: map<int, Entry>,
                        issued: nat, item: Item, tracker: int, m': seq<Pair>, n': seq<Pair>)
    requires MapsAgree(m, n, idToItem, itemToId) && item.rank !in itemToId
    requires WellFormed(m') && WellFormed(n')
    requires Entries(m') == Entries(m) + {Pair(tracker, IdAt(issued))}
    requires Entries(n') == Entries(n) + {Pair(IdAt(issued), tracker)}
    ensures var id, was := IdAt(issued), Table(Entries(m), idToItem, issued);
      && (MapsAgree(m', n', idToItem[id := item], itemToId[item.rank := Entry(item, id)])
          <==> CanStore(was, item.rank))
      && Table(Entries(m'), idToItem[id := item], issued + 1) == Stored(was, item, tracker)
  {
    var id := IdAt(issued);
    KnownByRank(m, n, idToItem, itemToId, issued, item.rank);
    TransposedUpdate(m, n, tracker, id, m', n');
    ReferencedUpdate(m, tracker, id, m');
    InverseAfterAdd(idToItem, itemToId, item, id);
  }

  /** A new id keeps the two item maps inverse; a live id would be claimed by two items. */
  lemma InverseAfterAdd(idToItem: map<int, Item>, itemToId: map<int, Entry>, item: Item, id: int)
    requires Inverse(idToItem, itemToId) && item.rank !in itemToId
    ensures Inverse(idToItem[id := item], itemToId[item.rank := Entry(item, id)]) <==> id !in idToItem
  {
    var items, ids := idToItem[id := item], itemToId[item.rank := Entry(item, id)];
    if id in idToItem {
      var rank := idToItem[id].rank;
      assert rank in ids && ids[rank] == Entry(idToItem[id], id) && items[id] == item;
    } else {
      forall r | r in ids
        ensures ids[r].item.rank == r && ids[r].id in items && items[ids[r].id] == ids[r].item
      {
        if r != item.rank { assert itemToId[r].id in idToItem; }
      }
    }
  }

  lemma TransposedUpdate(m: seq<Pair>, n: seq<Pair>, x: int, y: int, m': seq<Pair>, n': seq<Pair>)
    requires Transposed(m, n)
    requires Entries(m') == Entries(m) + {Pair(x, y)} && Entries(n') == Entries(n) + {Pair(y, x)}
    ensures Transposed(m', n')
  {
    forall a, b ensures Pair(a, b) in m' <==> Pair(b, a) in n' {
      assert Pair(a, b) in m' <==> Pair(a, b) in Entries(m');
      assert Pair(b, a) in n' <==> Pair(b, a) in Entries(n');
    }
  }

  lemma ReferencedUpdate(m: seq<Pair>, x: int, y: int, m': seq<Pair>)
    requires Entries(m') == Entries(m) + {Pair(x, y)}
    ensures forall id :: Referenced(Entries(m'), id) <==> id == y || Referenced(Entries(m), id)
  {
    assert Pair(x, y) in Entries(m');
    forall id ensures Referenced(Entries(m'), id) <==> id == y || Referenced(Entries(m), id) {
      if Referenced(Entries(m), id) {
        var p :| p in Entries(m) && p.value == id;
        assert p in Entries(m');
      }
    }
  }

  // ---------- The state inside the removal loop ----------

  /** `n` is the transpose of `m` but for the pairs m[first..ids], which it has lost. */
  ghost predicate HalfRemoved(m: seq<Pair>, first: nat, ids: nat, n: seq<Pair>) {
    && WellFormed(n)
    && first <= ids <= |m|
    && forall x, y :: Pair(y, x) in n <==> Pair(x, y) in m && Pair(x, y) !in m[first..ids]
  }

  ghost predicate HasKey(m: seq<Pair>, key: int) {
    exists p :: p in m && p.key == key
  }

  /** Of the items there were, those some tracker still refers to are left. */
  ghost predicate KeepsReferenced(before: map<int, Item>, items: map<int, Item>, n: seq<Pair>) {
    && (forall id :: id in items <==> HasKey(n, id))
    && (forall id :: id in items ==> id in before && items[id] == before[id])
  }

  lemma BeginRemoval(m: seq<Pair>, n: seq<Pair>, idToItem: map<int, Item>, itemToId: map<int, Entry>, first: nat)
    requires MapsAgree(m, n, idToItem, itemToId) && first <= |m|
    ensures HalfRemoved(m, first, first, n)
    ensures KeepsReferenced(idToItem, idToItem, n)
  {
    KeysAreReferences(m, n);
  }

  /** No pair is visited twice, so the pair being visited is still there in the transpose. */
  lemma VisitedOnce(m: seq<Pair>, first: nat, ids: nat, n: seq<Pair>, tracker: int)
    requires Distinct(m) && HalfRemoved(m, first, ids, n)
    requires ids < |m| && m[ids].key == tracker
    ensures Pair(m[ids].value, tracker) in n
  {
    assert m[ids] == Pair(tracker, m[ids].value);
    assert forall i :: 0 <= i < ids - first ==> m[first..ids][i] == m[first + i];
  }

  lemma VisitPair(m: seq<Pair>, first: nat, ids: nat, n: seq<Pair>, tracker: int, r: seq<Pair>)
    requires HalfRemoved(m, first, ids, n)
    requires ids < |m| && m[ids].key == tracker
    requires WellFormed(r) && Entries(r) == Entries(n) - {Pair(m[ids].value, tracker)}
    ensures HalfRemoved(m, first, ids + 1, r)
  {
    assert m[first..ids + 1] == m[first..ids] + [m[ids]];
    forall x, y ensures Pair(y, x) in r <==> Pair(x, y) in m && Pair(x, y) !in m[first..ids + 1] {
      assert Pair(y, x) in r <==> Pair(y, x) in Entries(r);
      assert Pair(y, x) in n <==> Pair(y, x) in Entries(n);
      assert Pair(x, y) == m[ids] <==> Pair(y, x) == Pair(m[ids].value, tracker);
    }
  }

  /**
   The adjacency test is a reference count of one: erasing the pair leaves the item
   unreferenced exactly when the pair was alone in its equal range.
   */
  lemma EraseReference(before: map<int, Item>, items: map<int, Item>, n: seq<Pair>, proc: nat,
                       lower: nat, upper: nat, r: seq<Pair>)
    requires WellFormed(n) && KeepsReferenced(before, items, n)
    requires proc < |n| && IsEqualRange(n, n[proc].key, lower, upper)
    requires Entries(r) == Entries(n) - {n[proc]}
    ensures n[proc].key in items
    ensures KeepsReferenced(before, if proc == lower && proc + 1 == upper then items - {n[proc].key} else items, r)
  {
    var id := n[proc].key;
    var sole := proc == lower && proc + 1 == upper;
    AdjacencyMeansSole(n, proc, lower, upper);
    assert forall p :: p in r <==> p in Entries(r);
    assert forall p :: p in n <==> p in Entries(n);
    assert n[proc] in n;
    forall k ensures HasKey(r, k) <==> HasKey(n, k) && (k == id ==> !sole) {
      if HasKey(n, k) && k != id {
        var p :| p in n && p.key == k;
        assert p in r;
      }
      if k == id && !sole {
        var p :| p in Entries(n) && p.key == id && p != n[proc];
        assert p in r;
      }
      if HasKey(r, k) {
        var p :| p in r && p.key == k;
        assert p in n && p in Entries(n);
      }
    }
  }

  lemma EndRemoval(m: seq<Pair>, first: nat, last: nat, r: seq<Pair>, n: seq<Pair>, items: map<int, Item>,
                   itemToId: map<int, Entry>, tracker: int, was: Table)
    requires WellFormed(m) && IsEqualRange(m, tracker, first, last) && HalfRemoved(m, first, last, n)
    requires WellFormed(r)
    requires Entries(r) == Entries(m) - Entries(m[first..last]) || (r == m && first == last)
    requires Inverse(items, itemToId) && KeepsReferenced(was.live, items, n)
    requires was.refs == Entries(m) && Consistent(was)
    ensures MapsAgree(r, n, items, itemToId)
    ensures Table(Entries(r), items, was.issued) == Removed(was, tracker)
  {
    RangeRemoved(m, first, last, tracker);
    RestTransposed(m, first, last, r, n, tracker);
    KeysAreReferences(r, n);
    ItemsLeft(Entries(r), n, items, tracker, was);
  }

  lemma ItemsLeft(refs: set<Pair>, n: seq<Pair>, items: map<int, Item>, tracker: int, was: Table)
    requires KeepsReferenced(was.live, items, n) && Consistent(was)
    requires refs == Removed(was, tracker).refs
    requires forall id :: HasKey(n, id) <==> Referenced(refs, id)
    ensures items == Removed(was, tracker).live
  {
    RemovedConsistent(was, tracker);
    assert forall id :: id in items <==> id in Removed(was, tracker).live;
  }

  lemma RestTransposed(m: seq<Pair>, first: nat, last: nat, r: seq<Pair>, n: seq<Pair>, tracker: int)
    requires HalfRemoved(m, first, last, n)
    requires forall p :: p in m[first..last] <==> p in m && p.key == tracker
    requires Entries(r) == set p | p in Entries(m) && p.key != tracker
    ensures Transposed(r, n)
  {
    forall x, y ensures Pair(x, y) in r <==> Pair(y, x) in n {
      assert Pair(x, y) in r <==> Pair(x, y) in Entries(r);
    }
  }

  /** The equal range holds exactly what the tracker refers to. */
  lemma RangeRemoved(m: seq<Pair>, first: nat, last: nat, tracker: int)
    requires IsEqualRange(m, tracker, first, last)
    ensures forall p :: p in m[first..last] <==> p in m && p.key == tracker
    ensures Entries(m) - Entries(m[first..last]) == set p | p in Entries(m) && p.key != tracker
  {
    forall p ensures p in m[first..last] <==> p in m && p.key == tracker {
      if p in m && p.key == tracker {
        var i :| 0 <= i < |m| && m[i] == p;
        assert m[first..last][i - first] == p;
      }
    }
  }

  lemma KeysAreReferences(m: seq<Pair>, n: seq<Pair>)
    requires Transposed(m, n)
    ensures forall id :: HasKey(n, id) <==> Referenced(Entries(m), id)
  {
    forall id ensures HasKey(n, id) <==> Referenced(Entries(m), id) {
      if HasKey(n, id) {
        var p :| p in n && p.key == id;
        assert p == Pair(id, p.value) && Pair(p.value, id) in m;
        assert Pair(p.value, id) in Entries(m);
      }
      if Referenced(Entries(m), id) {
        var p :| p in Entries(m) && p.value == id;
        assert p == Pair(p.key, id) && Pair(id, p.key) in n;
      }
    }
  }
}
