/** The cache itself: a hash map into a doubly linked list between two sentinels, changed in place. */
module LruCache {
  import opened Orders
  import opened Slots
  import opened OrderRepository
  import opened Recent
  import Tables

  class Metrics {
    var ordersProcessed: nat
    var ordersInCache: int
    var cacheHits: nat
    var cacheMisses: nat

    constructor ()
      ensures ordersProcessed == 0 && ordersInCache == 0 && cacheHits == 0 && cacheMisses == 0
    {
      ordersProcessed, ordersInCache, cacheHits, cacheMisses := 0, 0, 0, 0;
    }

    /** The three metrics the cache keeps. */
    function CacheCounters(): Counters
      reads this
    {
      Counters(ordersInCache, cacheHits, cacheMisses)
    }
  }

  class Node {
    var key: string
    var value: Option<Order>
    var prev: Node?
    var next: Node?

    constructor (key: string, value: Option<Order>)
      ensures this.key == key && this.value == value && prev == null && next == null
    {
      this.key, this.value := key, value;
      prev, next := null, null;
    }
  }

  class Cache {
    const capacity: int
    var elems: map<string, Node>
    const head: Node
    const tail: Node
    const metrics: Metrics?

    /** All linked nodes, sentinels included, and what the nodes between them mean. */
    ghost var chain: seq<Node>
    ghost var slots: seq<Slot>
    ghost var repr: set<Node>

    /** The forward and backward pointers run along the chain, which has no repetitions. */
    ghost predicate Linked()
      reads this`chain, this`repr, repr
    {
      && (forall i :: 0 <= i < |chain| ==> chain[i] in repr)
      && |chain| >= 2 && chain[0] == head && chain[|chain| - 1] == tail
      && (forall i, j :: 0 <= i < j < |chain| ==> chain[i] != chain[j])
      && (forall i {:trigger chain[i].next} :: 0 <= i < |chain| - 1 ==> chain[i].next == chain[i + 1])
      && (forall i {:trigger chain[i].prev} :: 0 < i < |chain| ==> chain[i].prev == chain[i - 1])
    }

    /** Each inner node carries the order of the slot at its position. */
    ghost predicate Labelled(chain: seq<Node>, slots: seq<Slot>)
      reads chain
    {
      && |chain| == |slots| + 2
      && (forall i {:trigger slots[i]} :: 0 <= i < |slots| ==>
            chain[i + 1].value == Some(slots[i].order) && chain[i + 1].key == slots[i].order.uid)
    }

    /** The keys of the map are those of the live slots, and it points at their nodes. */
    static ghost predicate Mapped(elems: map<string, Node>, chain: seq<Node>, slots: seq<Slot>) {
      && |chain| == |slots| + 2
      && elems.Keys == LiveKeys(slots)
      && (forall i {:trigger slots[i]} :: 0 <= i < |slots| && slots[i].live ==>
            slots[i].order.uid in elems && elems[slots[i].order.uid] == chain[i + 1])
    }

    ghost predicate Valid()
      reads this, repr
    {
      Linked() && Labelled(chain, slots) && Mapped(elems, chain, slots)
    }

    /** Slots and counters together, the state that runs are about. */
    ghost function View(): State
      requires metrics != null
      reads this, metrics
    {
      State(slots, metrics.CacheCounters())
    }

    constructor (capacity: int, metrics: Metrics?)
      ensures Valid() && slots == [] && this.capacity == capacity && this.metrics == metrics
      ensures fresh(repr)
    {
      this.capacity := capacity;
      this.metrics := metrics;
      elems := map[];
      var h := new Node("", None);
      var t := new Node("", None);
      head, tail := h, t;
      chain, slots, repr := [h, t], [], {h, t};
      new;
      head.next := tail;
      tail.prev := head;
    }

    /** Link a node in front. */
    method AddNode(n: Node)
      requires Linked() && n !in chain
      modifies this`chain, this`repr, repr, n
      ensures Linked() && chain == [head, n] + old(chain)[1..] && repr == old(repr) + {n}
      ensures forall m :: m in repr ==> m.key == old(m.key) && m.value == old(m.value)
    {
      assert chain[0].next == chain[1];
      repr := repr + {n};
      n.prev := head;
      n.next := head.next;
      head.next.prev := n;
      head.next := n;
      chain := [head, n] + chain[1..];
    }

    /** Unlink the node at position i. */
    method RemoveNode(n: Node, ghost i: nat)
      requires Linked() && 0 < i < |chain| - 1 && chain[i] == n
      modifies this`chain, repr
      ensures Linked() && chain == old(chain)[..i] + old(chain)[i + 1..] && n !in chain && n in repr
      ensures forall m :: m in repr ==> m.key == old(m.key) && m.value == old(m.value)
    {
      assert chain[i].prev == chain[i - 1] && chain[i].next == chain[i + 1];
      var prev, next := n.prev, n.next;
      prev.next := next;
      next.prev := prev;
      chain := chain[..i] + chain[i + 1..];
    }

    method MoveToHead(n: Node, ghost i: nat)
      requires Valid() && i < |slots| && chain[i + 1] == n
      modifies this`chain, this`slots, this`repr, repr
      ensures Valid() && slots == [old(slots)[i]] + Remove(old(slots), i) && repr == old(repr)
      ensures n.value == old(n.value)
    {
      ChainInRepr();
      hide Linked, Mapped;
      RemoveNode(n, i + 1);
      AddNode(n);
      MovedSlots(elems, old(chain), chain, slots, i);
      assert Labelled(old(chain), slots);
      slots := [slots[i]] + Remove(slots, i);
    }

    /** Where each node and its slot go when one moves to the front. */
    static lemma MovedSlots(elems: map<string, Node>, was: seq<Node>, now: seq<Node>, slots: seq<Slot>, i: nat)
      requires Mapped(elems, was, slots) && i < |slots|
      requires now == [was[0], was[i + 1]] + (was[..i + 1] + was[i + 2..])[1..]
      ensures var moved := [slots[i]] + Remove(slots, i);
              && Mapped(elems, now, moved)
              && (forall j {:trigger moved[j]} :: 0 <= j < |moved| ==>
                    var k := Before(i, j); 0 <= k < |slots| && now[j + 1] == was[k + 1] && moved[j] == slots[k])
    {
      LiveKeysRemove(slots, i);
      var moved := [slots[i]] + Remove(slots, i);
      forall j | 0 <= j < |moved|
        ensures var k := Before(i, j); 0 <= k < |slots| && now[j + 1] == was[k + 1] && moved[j] == slots[k]
      {
      }
    }

    /** The position before the move of what is now at position j. */
    static ghost function Before(i: nat, j: nat): nat {
      if j == 0 then i else if j <= i then j - 1 else j
    }

    /** Unlink the node before the tail sentinel; there must be one. */
    method PopTail() returns (res: Node)
      requires Linked() && |chain| > 2
      modifies this`chain, repr
      ensures Linked() && chain == old(chain)[..|old(chain)| - 2] + [tail]
      ensures res == old(chain)[|old(chain)| - 2]
      ensures forall m :: m in repr ==> m.key == old(m.key) && m.value == old(m.value)
    {
      assert chain[|chain| - 1].prev == chain[|chain| - 2];
      res := tail.prev;
      RemoveNode(res, |chain| - 2);
    }

    /** Two live slots of one key would be one node at two places. */
    lemma LiveAreUnique()
      requires Valid()
      ensures UniqueLive(slots)
    {
      forall i, j | 0 <= i < j < |slots| && slots[i].live && slots[j].live
        ensures slots[i].order.uid != slots[j].order.uid
      {
        assert chain[i + 1] != chain[j + 1];
      }
    }

    lemma KeyPosition(k: string)
      requires Valid()
      ensures k in elems <==> Find(slots, k) < |slots|
      ensures k in elems ==> elems[k] == chain[Find(slots, k) + 1]
    {
      LiveKeysFind(slots, k);
    }

    /** The map has one live node for each key, so its size is the number of live slots. */
    lemma MapIsLiveSlots()
      requires Valid()
      ensures UniqueLive(slots)
      ensures |elems| == LiveCount(slots)
    {
      LiveAreUnique();
      LiveKeysCount(slots);
      assert |elems| == |elems.Keys|;
    }

    /** Move the OrdersInCache gauge, if there are metrics. */
    method Gauge(delta: int)
      modifies metrics
      ensures metrics != null ==>
                && metrics.ordersProcessed == old(metrics.ordersProcessed)
                && metrics.CacheCounters() ==
                   old(metrics.CacheCounters()).(inCache := old(metrics.ordersInCache) + delta)
    {
      if metrics != null {
        metrics.ordersInCache := metrics.ordersInCache + delta;
      }
    }

    /** Add or update an order, evicting one node if the map has become too large. */
    method Set(order: Option<Order>)
      requires Valid()
      modifies this, repr, metrics
      ensures Valid()
      ensures order == None ==> slots == old(slots)
      ensures order.Some? ==> slots == SetSlots(capacity, old(slots), order.value)
      ensures metrics != null ==>
                && metrics.ordersProcessed == old(metrics.ordersProcessed)
                && View() == if order == None then old(View()) else Step(capacity, old(View()), Op.Set(order.value))
      ensures fresh(repr - old(repr))
    {
      hide Linked, Labelled, Mapped;
      if order == None {
        return;
      }
      var o := order.value;
      KeyPosition(o.uid);
      if o.uid in elems {
        Update(elems[o.uid], o, Find(slots, o.uid));
        return;
      }

      Insert(o);
      MapIsLiveSlots();
      LiveAreUnique();
      LiveCountPush(Slot(o, true), old(slots));
      if |elems| > capacity {
        EvictTail();
      }
    }

    /** Set for a key already mapped: replace the value, move to the front. */
    method Update(n: Node, o: Order, ghost i: nat)
      requires Valid() && i < |slots| && slots[i].live && slots[i].order.uid == o.uid && chain[i + 1] == n
      modifies this`chain, this`slots, this`repr, repr
      ensures Valid() && slots == [Slot(o, true)] + Remove(old(slots), i) && repr == old(repr)
    {
      LiveKeysReplace(slots, i, Slot(o, true));
      n.value := Some(o);
      slots := slots[i := Slot(o, true)];
      MoveToHead(n, i);
    }

    /** The first half of Set for a new key: map it, link it, count it. */
    method Insert(o: Order)
      requires Valid() && o.uid !in elems
      modifies this, repr, metrics
      ensures Valid()
      ensures slots == [Slot(o, true)] + old(slots)
      ensures metrics != null ==>
                && metrics.ordersProcessed == old(metrics.ordersProcessed)
                && metrics.CacheCounters() == old(metrics.CacheCounters()).(inCache := old(metrics.ordersInCache) + 1)
      ensures fresh(repr - old(repr))
    {
      hide Linked, Mapped;
      ChainInRepr();
      var n := new Node(o.uid, Some(o));
      elems := elems[o.uid := n];
      AddNode(n);
      AddedSlot(old(elems), old(chain), slots, n, o);
      assert Labelled(old(chain), slots);
      AddedLabel(old(chain), slots, n, o);
      slots := [Slot(o, true)] + slots;
      Gauge(1);
    }

    /** The second half: pop the tail, drop its key from the map, count it. */
    method EvictTail()
      requires Valid() && slots != []
      modifies this, repr, metrics
      ensures Valid()
      ensures slots == Evict(old(slots)) && repr == old(repr)
      ensures metrics != null ==>
                && metrics.ordersProcessed == old(metrics.ordersProcessed)
                && metrics.CacheCounters() == old(metrics.CacheCounters()).(inCache := old(metrics.ordersInCache) - 1)
    {
      ChainInRepr();
      hide Linked, Mapped;
      var last := PopTail();
      elems := elems - {last.key};
      EvictedSlot(old(elems), old(chain), slots, last.key, tail);
      assert Labelled(old(chain), slots);
      EvictedLabel(old(chain), slots);
      slots := Evict(slots);
      Gauge(-1);
    }

    lemma ChainInRepr()
      requires Linked()
      ensures chain != [] && chain[0] == head
      ensures forall i :: 0 <= i < |chain| ==> chain[i] in repr
    {
    }

    lemma AddedLabel(was: seq<Node>, slots: seq<Slot>, n: Node, o: Order)
      requires Labelled(was, slots) && n.key == o.uid && n.value == Some(o)
      ensures Labelled([was[0], n] + was[1..], [Slot(o, true)] + slots)
    {
    }

    lemma EvictedLabel(was: seq<Node>, slots: seq<Slot>)
      requires Labelled(was, slots) && slots != []
      ensures Labelled(was[..|was| - 2] + [tail], Evict(slots))
    {
    }

    static lemma AddedSlot(elems: map<string, Node>, was: seq<Node>, slots: seq<Slot>, n: Node, o: Order)
      requires Mapped(elems, was, slots) && o.uid !in elems
      ensures Mapped(elems[o.uid := n], [was[0], n] + was[1..], [Slot(o, true)] + slots)
    {
    }

    static lemma EvictedSlot(elems: map<string, Node>, was: seq<Node>, slots: seq<Slot>, key: string, tail: Node)
      requires Mapped(elems, was, slots) && slots != [] && key == slots[|slots| - 1].order.uid
      ensures Mapped(elems - {key}, was[..|was| - 2] + [tail], Evict(slots))
    {
      LiveKeysEvict(slots);
      var n := |slots| - 1;
      assert forall i :: 0 <= i < n ==> slots[..n][i] == slots[i];
    }

    /** Look a key up and mark it as recently used. */
    method Get(key: string) returns (order: Option<Order>, ok: bool)
      requires Valid()
      modifies this`chain, this`slots, this`repr, repr, metrics
      ensures Valid()
      ensures order == Lookup(old(slots), key) && ok == order.Some?
      ensures slots == GetSlots(old(slots), key) && repr == old(repr)
      ensures metrics != null ==>
                && metrics.ordersProcessed == old(metrics.ordersProcessed)
                && View() == Step(capacity, old(View()), Op.Get(key))
    {
      KeyPosition(key);
      if key in elems {
        var n := elems[key];
        MoveToHead(n, Find(slots, key));
        if metrics != null {
          metrics.cacheHits := metrics.cacheHits + 1;
        }
        return n.value, true;
      }
      if metrics != null {
        metrics.cacheMisses := metrics.cacheMisses + 1;
      }
      return None, false;
    }

    /** Drop a key from the map. The node stays linked, and the gauge goes down whether or not there was one. */
    method Delete(key: string)
      requires Valid()
      modifies this`elems, this`slots, metrics
      ensures Valid()
      ensures slots == Kill(old(slots), key)
      ensures metrics != null ==>
                && metrics.ordersProcessed == old(metrics.ordersProcessed)
                && View() == Step(capacity, old(View()), Op.Delete(key))
    {
      LiveKeysKill(slots, key);
      elems := elems - {key};
      slots := Kill(slots, key);
      Gauge(-1);
    }

    method Size() returns (n: nat)
      requires Valid()
      ensures n == LiveCount(slots)
    {
      MapIsLiveSlots();
      n := |elems|;
    }

    /**
     * Preload the most recent orders, skipping those that fail to load. Its last statement uses the metrics
     * without asking whether there are any, so the method needs them.
     */
    method Populate(st: Repository, listing: ListIo, ios: seq<ReadIo>) returns (ok: bool)
      requires Valid() && metrics != null && Arranges(st.db, listing.heap)
      requires capacity >= 0 ==>
                 var uids := Newest(st.db, listing.heap, capacity);
                 |ios| == |uids| && forall i :: 0 <= i < |uids| ==> Streams(st.db, uids[i], ios[i].rows)
      modifies this, repr, metrics
      ensures Valid() && fresh(repr - old(repr))
      ensures ok <==>
                capacity >= 0 && listing.Healthy(if capacity < |st.db.orders| then capacity else |st.db.orders|)
      ensures !ok ==> slots == old(slots) && metrics.CacheCounters() == old(metrics.CacheCounters())
      ensures ok ==>
                var loaded := LoadAll(st.db, Newest(st.db, listing.heap, capacity), ios);
                && slots == SetAll(capacity, old(slots), loaded)
                && metrics.CacheCounters() == old(metrics.CacheCounters()).(inCache := |loaded|)
    {
      hide Linked, Labelled, Mapped, Newest, IsRecent;
      var uids := st.GetRecentOrdersUID(capacity, listing);
      if !uids.Ok? {
        return false;
      }
      var loadCount := Preload(st, uids.value, ios);
      metrics.ordersInCache := loadCount;
      return true;
    }

    /** The loop of Populate. */
    method Preload(st: Repository, uids: seq<string>, ios: seq<ReadIo>)
      returns (loadCount: nat)
      requires Valid() && metrics != null && |ios| == |uids|
      requires forall i :: 0 <= i < |uids| ==> Streams(st.db, uids[i], ios[i].rows)
      modifies this, repr, metrics
      ensures Valid() && fresh(repr - old(repr))
      ensures slots == SetAll(capacity, old(slots), LoadAll(st.db, uids, ios))
      ensures loadCount == |LoadAll(st.db, uids, ios)|
      ensures metrics.cacheHits == old(metrics.cacheHits) && metrics.cacheMisses == old(metrics.cacheMisses)
    {
      hide Linked, Labelled, Mapped, SetSlots, ReadOrder;
      loadCount := 0;
      ghost var db := st.db;
      for i := 0 to |uids|
        invariant Valid() && fresh(repr - old(repr)) && st.db == db
        invariant slots == SetAll(capacity, old(slots), LoadAll(db, uids[..i], ios[..i]))
        invariant loadCount == |LoadAll(db, uids[..i], ios[..i])|
        invariant metrics.cacheHits == old(metrics.cacheHits) && metrics.cacheMisses == old(metrics.cacheMisses)
      {
        var order := st.GetOrderByUID(uids[i], ios[i]);
        LoadOneMore(db, uids, ios, i, slots, old(slots));
        if !order.Ok? {
          continue;
        }
        Set(Some(order.value));
        loadCount := loadCount + 1;
      }
      assert uids[..|uids|] == uids && ios[..|ios|] == ios;
    }

    lemma LoadOneMore(db: Tables.Database, uids: seq<string>, ios: seq<ReadIo>, i: nat,
                      now: seq<Slot>, before: seq<Slot>)
      requires i < |uids| == |ios|
      requires now == SetAll(capacity, before, LoadAll(db, uids[..i], ios[..i]))
      ensures var r := ReadOrder(db, uids[i], None, ios[i]);
              var more := LoadAll(db, uids[..i + 1], ios[..i + 1]);
              var less := LoadAll(db, uids[..i], ios[..i]);
              if r.Ok? then
                |more| == |less| + 1 && SetAll(capacity, before, more) == SetSlots(capacity, now, r.value)
              else more == less
    {
      var less := LoadAll(db, uids[..i], ios[..i]);
      assert uids[..i + 1][..i] == uids[..i] && ios[..i + 1][..i] == ios[..i];
      var r := ReadOrder(db, uids[i], None, ios[i]);
      if r.Ok? {
        assert (less + [r.value])[..|less|] == less;
      }
    }
  }

  /** One call; only Get returns anything. */
  method Perform(cache: Cache, op: Op) returns (r: Option<Order>)
    requires cache.Valid() && cache.metrics != null
    modifies cache, cache.repr, cache.metrics
    ensures cache.Valid() && fresh(cache.repr - old(cache.repr))
    ensures cache.View() == Step(cache.capacity, old(cache.View()), op)
    ensures r == if op.Get? then Lookup(old(cache.slots), op.key) else None
  {
    hide Cache.Linked, Cache.Labelled, Cache.Mapped, Step, Lookup;
    r := None;
    match op {
      case Set(o) => cache.Set(Some(o));
      case Get(k) => var order, _ := cache.Get(k); r := order;
      case Delete(k) => cache.Delete(k);
    }
  }

  /**
   * Any sequence of calls on a new cache is a run, its end state and every value returned, so what is proved of runs
   * holds of the linked list.
   */
  method Drive(capacity: int, ops: seq<Op>) returns (cache: Cache, returned: seq<Option<Order>>)
    ensures fresh(cache) && cache.Valid() && cache.capacity == capacity
    ensures cache.metrics != null && cache.View() == Run(capacity, ops)
    ensures |returned| == |ops|
    ensures forall i :: 0 <= i < |ops| ==>
              returned[i] == if ops[i].Get? then Lookup(Run(capacity, ops[..i]).slots, ops[i].key) else None
  {
    hide Cache.Valid, Step, Lookup;
    var metrics := new Metrics();
    cache := new Cache(capacity, metrics);
    returned := [];
    for i := 0 to |ops|
      invariant cache.Valid() && fresh(cache) && fresh(cache.repr)
      invariant cache.capacity == capacity && cache.metrics == metrics && fresh(metrics)
      invariant cache.View() == Run(capacity, ops[..i])
      invariant |returned| == i
      invariant forall j :: 0 <= j < i ==>
                  returned[j] == if ops[j].Get? then Lookup(Run(capacity, ops[..j]).slots, ops[j].key) else None
    {
      assert ops[..i + 1][..i] == ops[..i];
      var r := Perform(cache, ops[i]);
      returned := returned + [r];
    }
    assert ops[..|ops|] == ops;
  }
}
