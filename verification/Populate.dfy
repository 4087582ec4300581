/** What preloading leaves in a new cache. */
module Populating {
  import opened Orders
  import opened Slots
  import opened Tables
  import opened OrderRepository
  import opened Recent
  import Lru
  import LruCache

  ghost predicate Loadable(db: Database, uids: seq<string>, ios: seq<ReadIo>, uid: string)
    requires |ios| == |uids|
  {
    exists i :: 0 <= i < |uids| && uids[i] == uid && ReadOrder(db, uid, None, ios[i]).Ok?
  }

  ghost predicate Contains(loaded: seq<Order>, uid: string) {
    exists i :: 0 <= i < |loaded| && loaded[i].uid == uid
  }

  lemma OneMoreLoadable(db: Database, uids: seq<string>, ios: seq<ReadIo>, uid: string)
    requires |ios| == |uids| && uids != []
    ensures var n := |uids| - 1;
            Loadable(db, uids, ios, uid) <==>
            Loadable(db, uids[..n], ios[..n], uid) || (uid == uids[n] && ReadOrder(db, uid, None, ios[n]).Ok?)
  {
    var n := |uids| - 1;
    assert forall i :: 0 <= i < n ==> uids[..n][i] == uids[i] && ios[..n][i] == ios[i];
  }

  lemma OneMoreContained(loaded: seq<Order>, o: Order, uid: string)
    ensures Contains(loaded + [o], uid) <==> Contains(loaded, uid) || o.uid == uid
  {
    assert (loaded + [o])[|loaded|] == o;
    assert forall i :: 0 <= i < |loaded| ==> (loaded + [o])[i] == loaded[i];
  }

  /** Loading drops exactly the UIDs that fail, and loads none twice. */
  lemma {:induction false} LoadedOrders(db: Database, uids: seq<string>, ios: seq<ReadIo>)
    requires WellFormed(db) && |ios| == |uids|
    requires forall i :: 0 <= i < |uids| ==> uids[i] in db.orders
    requires forall i, j :: 0 <= i < j < |uids| ==> uids[i] != uids[j]
    ensures |LoadAll(db, uids, ios)| <= |uids|
    ensures Lru.DistinctUids(LoadAll(db, uids, ios))
    ensures forall uid :: Contains(LoadAll(db, uids, ios), uid) <==> Loadable(db, uids, ios, uid)
  {
    if uids != [] {
      var n := |uids| - 1;
      var before := LoadAll(db, uids[..n], ios[..n]);
      LoadedOrders(db, uids[..n], ios[..n]);
      var r := ReadOrder(db, uids[n], None, ios[n]);
      assert r.Ok? ==> r.value.uid == uids[n];
      hide ReadOrder, WellFormed;
      forall uid
        ensures Contains(LoadAll(db, uids, ios), uid) <==> Loadable(db, uids, ios, uid)
      {
        OneMoreLoadable(db, uids, ios, uid);
        if r.Ok? {
          OneMoreContained(before, r.value, uid);
        }
      }
      assert !Loadable(db, uids[..n], ios[..n], uids[n]);
      assert !Contains(before, uids[n]);
    }
  }

  /** The slots after preloading: every loaded order live, the last one loaded first. */
  function Reversed(loaded: seq<Order>): (slots: seq<Slot>)
    ensures |slots| == |loaded|
    ensures forall i :: 0 <= i < |slots| ==> slots[i] == Slot(loaded[|loaded| - 1 - i], true)
  {
    seq(|loaded|, i requires 0 <= i < |loaded| => Slot(loaded[|loaded| - 1 - i], true))
  }

  lemma ReversedIsTight(capacity: int, loaded: seq<Order>)
    requires |loaded| <= capacity && Lru.DistinctUids(loaded)
    ensures Lru.Tight(capacity, Reversed(loaded))
    ensures forall uid :: Present(Reversed(loaded), uid) <==> Contains(loaded, uid)
  {
    var slots := Reversed(loaded);
    forall uid
      ensures Present(slots, uid) <==> Contains(loaded, uid)
    {
      if i :| 0 <= i < |slots| && Holds(slots[i], uid) {
        assert loaded[|loaded| - 1 - i].uid == uid;
      }
      if i :| 0 <= i < |loaded| && loaded[i].uid == uid {
        assert Holds(slots[|loaded| - 1 - i], uid);
      }
    }
  }

  lemma {:induction false} SetAllFillsUp(capacity: int, loaded: seq<Order>)
    requires |loaded| <= capacity && Lru.DistinctUids(loaded)
    ensures SetAll(capacity, [], loaded) == Reversed(loaded)
  {
    if loaded != [] {
      var before, o := loaded[..|loaded| - 1], loaded[|loaded| - 1];
      SetAllFillsUp(capacity, before);
      ReversedIsTight(capacity, before);
      assert !Contains(before, o.uid);
      Lru.AddEvicts(capacity, Reversed(before), o);
      hide SetSlots, Lru.Tight, Slots.Find, Present, Contains;
      assert [Slot(o, true)] + Reversed(before) == Reversed(loaded);
    }
  }

  /**
   * Preloading a new cache evicts nothing. It caches exactly the loadable among the most recent UIDs, in
   * reverse query order; and the size is the load count.
   */
  lemma PopulateFresh(db: Database, capacity: nat, recent: seq<string>, ios: seq<ReadIo>, uid: string)
    requires WellFormed(db) && IsRecent(db, capacity, recent) && |ios| == |recent|
    ensures var loaded := LoadAll(db, recent, ios);
            var slots := SetAll(capacity, [], loaded);
            && slots == Reversed(loaded)
            && LiveCount(slots) == |loaded| <= capacity
            && (Slots.Lookup(slots, uid).Some? <==> Loadable(db, recent, ios, uid))
  {
    var loaded := LoadAll(db, recent, ios);
    LoadedOrders(db, recent, ios);
    SetAllFillsUp(capacity, loaded);
    ReversedIsTight(capacity, loaded);
    LiveCountBound(Reversed(loaded));
    FindsPresent(Reversed(loaded), uid);
  }

  /** So the first order to go from a cache filled by preloading is the first loaded, the newest of all. */
  lemma NewestIsEvictedFirst(db: Database, capacity: nat, recent: seq<string>, ios: seq<ReadIo>, o: Order)
    requires WellFormed(db) && IsRecent(db, capacity, recent) && |ios| == |recent| && capacity > 0
    requires |LoadAll(db, recent, ios)| == capacity && !Contains(LoadAll(db, recent, ios), o.uid)
    ensures var loaded := LoadAll(db, recent, ios);
            && SetSlots(capacity, SetAll(capacity, [], loaded), o) == [Slot(o, true)] + Reversed(loaded[1..])
            && loaded[0].uid == recent[0]
            && forall k :: k in db.orders ==> db.orders[k].dateCreated <= db.orders[recent[0]].dateCreated
  {
    LoadedOrders(db, recent, ios);
    FullEvictsFirst(capacity, LoadAll(db, recent, ios), o);
    AllLoaded(db, recent, ios);
    FirstIsNewest(db, capacity, recent);
  }

  lemma FullEvictsFirst(capacity: nat, loaded: seq<Order>, o: Order)
    requires |loaded| == capacity > 0 && Lru.DistinctUids(loaded) && !Contains(loaded, o.uid)
    ensures SetSlots(capacity, SetAll(capacity, [], loaded), o) == [Slot(o, true)] + Reversed(loaded[1..])
  {
    SetAllFillsUp(capacity, loaded);
    ReversedIsTight(capacity, loaded);
    Lru.AddEvicts(capacity, Reversed(loaded), o);
    hide SetAll, SetSlots;
    assert ([Slot(o, true)] + Reversed(loaded))[..capacity] == [Slot(o, true)] + Reversed(loaded[1..]);
  }

  lemma FirstIsNewest(db: Database, limit: nat, uids: seq<string>)
    requires IsRecent(db, limit, uids) && uids != []
    ensures forall k :: k in db.orders ==> db.orders[k].dateCreated <= db.orders[uids[0]].dateCreated
  {
    forall k | k in db.orders ensures db.orders[k].dateCreated <= db.orders[uids[0]].dateCreated {
      if k in uids {
        var i :| 0 <= i < |uids| && uids[i] == k;
      }
    }
  }

  /** If as many orders are loaded as asked for, each is the one asked for at its place. */
  lemma {:induction false} AllLoaded(db: Database, uids: seq<string>, ios: seq<ReadIo>)
    requires WellFormed(db) && |ios| == |uids| && forall i :: 0 <= i < |uids| ==> uids[i] in db.orders
    ensures |LoadAll(db, uids, ios)| <= |uids|
    ensures |LoadAll(db, uids, ios)| == |uids| ==>
              forall i :: 0 <= i < |uids| ==> LoadAll(db, uids, ios)[i].uid == uids[i]
  {
    if uids != [] {
      var n := |uids| - 1;
      AllLoaded(db, uids[..n], ios[..n]);
      assert forall i :: 0 <= i < n ==> uids[..n][i] == uids[i];
      var r := ReadOrder(db, uids[n], None, ios[n]);
      assert r.Ok? ==> r.value.uid == uids[n];
    }
  }

  /** As the service starts: a new cache, preloaded from the repository, and its size. */
  method PreloadedCache(capacity: nat, metrics: LruCache.Metrics, st: Repository, listing: ListIo, ios: seq<ReadIo>)
    returns (cache: LruCache.Cache, ok: bool, size: nat)
    requires WellFormed(st.db) && Arranges(st.db, listing.heap)
    requires var uids := Newest(st.db, listing.heap, capacity);
             |ios| == |uids| && forall i :: 0 <= i < |uids| ==> Streams(st.db, uids[i], ios[i].rows)
    modifies metrics
    ensures fresh(cache) && cache.Valid() && cache.capacity == capacity && cache.metrics == metrics
    ensures ok ==>
              var uids := Newest(st.db, listing.heap, capacity);
              var loaded := LoadAll(st.db, uids, ios);
              && IsRecent(st.db, capacity, uids)
              && cache.slots == Reversed(loaded)
              && metrics.ordersInCache == size == |loaded| <= capacity
              && forall uid :: Slots.Lookup(cache.slots, uid).Some? <==> Loadable(st.db, uids, ios, uid)
    ensures !ok ==> cache.slots == [] && size == 0
  {
    hide LruCache.Cache.Linked, LruCache.Cache.Labelled, LruCache.Cache.Mapped, WellFormed, Newest, IsRecent;
    cache := new LruCache.Cache(capacity, metrics);
    ok := cache.Populate(st, listing, ios);
    size := cache.Size();
    if ok {
      var uids := Newest(st.db, listing.heap, capacity);
      NewestIsRecent(st.db, listing.heap, capacity);
      forall uid ensures Slots.Lookup(cache.slots, uid).Some? <==> Loadable(st.db, uids, ios, uid) {
        PopulateFresh(st.db, capacity, uids, ios, uid);
      }
      PopulateFresh(st.db, capacity, uids, ios, "");
    }
  }
}
