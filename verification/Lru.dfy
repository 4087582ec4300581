/** The textbook LRU list, and the proof that a cache whose Delete is never called is exactly that. */
module Lru {
  import opened Orders
  import opened Slots
  import DeleteRuns

  function Take<T>(s: seq<T>, n: int): seq<T> {
    if n <= 0 then [] else if n < |s| then s[..n] else s
  }

  function Without(list: seq<Order>, key: string): seq<Order> {
    if list == [] then []
    else if list[0].uid == key then Without(list[1..], key)
    else [list[0]] + Without(list[1..], key)
  }

  function Cached(list: seq<Order>, key: string): Option<Order> {
    if list == [] then None else if list[0].uid == key then Some(list[0]) else Cached(list[1..], key)
  }

  /** Newest first, cut to the capacity. */
  function LruSet(capacity: int, list: seq<Order>, o: Order): seq<Order> {
    Take([o] + Without(list, o.uid), capacity)
  }

  function LruGet(list: seq<Order>, key: string): seq<Order> {
    match Cached(list, key)
    case None => list
    case Some(o) => [o] + Without(list, key)
  }

  predicate NoDelete(ops: seq<Op>) {
    forall op :: op in ops ==> !op.Delete?
  }

  function LruRun(capacity: int, ops: seq<Op>): seq<Order>
    requires NoDelete(ops)
  {
    if ops == [] then []
    else
      var before := LruRun(capacity, ops[..|ops| - 1]);
      match ops[|ops| - 1]
      case Set(o) => LruSet(capacity, before, o)
      case Get(k) => LruGet(before, k)
      case Delete(_) => before
  }

  ghost predicate DistinctUids(list: seq<Order>) {
    forall i, j :: 0 <= i < j < |list| ==> list[i].uid != list[j].uid
  }

  // ---------- Refinement ----------

  function OrdersOf(slots: seq<Slot>): (list: seq<Order>)
    ensures |list| == |slots|
    ensures forall i :: 0 <= i < |list| ==> list[i] == slots[i].order
  {
    seq(|slots|, i requires 0 <= i < |slots| => slots[i].order)
  }

  /** The shape of the slots in Delete-free runs: all live, one per key, no more than the capacity. */
  ghost predicate Tight(capacity: int, slots: seq<Slot>) {
    && (forall i :: 0 <= i < |slots| ==> slots[i].live)
    && UniqueLive(slots)
    && (capacity >= 0 ==> |slots| <= capacity)
    && (capacity < 0 ==> slots == [])
  }

  lemma {:induction false} WithoutAbsent(list: seq<Order>, key: string)
    requires forall i :: 0 <= i < |list| ==> list[i].uid != key
    ensures Without(list, key) == list
  {
    if list != [] {
      WithoutAbsent(list[1..], key);
    }
  }

  lemma {:induction false} WithoutAt(list: seq<Order>, i: nat)
    requires i < |list| && DistinctUids(list)
    ensures Without(list, list[i].uid) == list[..i] + list[i + 1..]
  {
    if i == 0 {
      WithoutAbsent(list[1..], list[0].uid);
    } else {
      WithoutAt(list[1..], i - 1);
      assert list[1..][..i - 1] == list[1..i];
      assert list[..i] == [list[0]] + list[1..i];
    }
  }

  lemma {:induction false} CachedIsLookup(slots: seq<Slot>, key: string)
    requires forall i :: 0 <= i < |slots| ==> slots[i].live
    ensures Cached(OrdersOf(slots), key) == Slots.Lookup(slots, key)
  {
    if slots != [] {
      assert OrdersOf(slots)[1..] == OrdersOf(slots[1..]);
      CachedIsLookup(slots[1..], key);
    }
  }

  lemma MoveRefines(capacity: int, slots: seq<Slot>, i: nat, o: Order)
    requires Tight(capacity, slots) && i < |slots| && o.uid == slots[i].order.uid
    ensures Tight(capacity, [Slot(o, true)] + Remove(slots, i))
    ensures OrdersOf([Slot(o, true)] + Remove(slots, i)) == [o] + Without(OrdersOf(slots), o.uid)
  {
    RemoveKeepsUnique(slots, i);
    PushKeepsUnique(Slot(o, true), Remove(slots, i));
    WithoutAt(OrdersOf(slots), i);
    assert OrdersOf(Remove(slots, i)) == OrdersOf(slots)[..i] + OrdersOf(slots)[i + 1..];
    assert OrdersOf([Slot(o, true)] + Remove(slots, i)) == [o] + OrdersOf(Remove(slots, i));
  }

  lemma AddEvicts(capacity: int, slots: seq<Slot>, o: Order)
    requires Tight(capacity, slots) && !Present(slots, o.uid)
    ensures SetSlots(capacity, slots, o) == Take([Slot(o, true)] + slots, capacity)
  {
    FindsPresent(slots, o.uid);
    var added := [Slot(o, true)] + slots;
    LiveCountBound(added);
    if LiveCount(added) > capacity {
      assert forall i :: 0 <= i < |slots| ==> Holds(slots[i], slots[i].order.uid);
      PushKeepsUnique(Slot(o, true), slots);
      assert Evict(added) == added[..|slots|];
    }
  }

  lemma AddRefines(capacity: int, slots: seq<Slot>, o: Order)
    requires Tight(capacity, slots) && !Present(slots, o.uid)
    ensures Tight(capacity, Take([Slot(o, true)] + slots, capacity))
    ensures OrdersOf(Take([Slot(o, true)] + slots, capacity)) == LruSet(capacity, OrdersOf(slots), o)
  {
    assert forall j :: 0 <= j < |slots| ==> slots[j].live && !Holds(slots[j], o.uid);
    PushKeepsUnique(Slot(o, true), slots);
    WithoutAbsent(OrdersOf(slots), o.uid);
    assert OrdersOf([Slot(o, true)] + slots) == [o] + OrdersOf(slots);
  }

  lemma SetRefines(capacity: int, slots: seq<Slot>, o: Order)
    requires Tight(capacity, slots)
    ensures Tight(capacity, SetSlots(capacity, slots, o))
    ensures OrdersOf(SetSlots(capacity, slots, o)) == LruSet(capacity, OrdersOf(slots), o)
  {
    var i := Find(slots, o.uid);
    FindsPresent(slots, o.uid);
    if i < |slots| {
      MoveRefines(capacity, slots, i, o);
    } else {
      AddEvicts(capacity, slots, o);
      AddRefines(capacity, slots, o);
    }
  }

  lemma GetRefines(capacity: int, slots: seq<Slot>, key: string)
    requires Tight(capacity, slots)
    ensures Tight(capacity, GetSlots(slots, key))
    ensures OrdersOf(GetSlots(slots, key)) == LruGet(OrdersOf(slots), key)
  {
    var i := Find(slots, key);
    CachedIsLookup(slots, key);
    if i < |slots| {
      assert Slot(slots[i].order, true) == slots[i];
      MoveRefines(capacity, slots, i, slots[i].order);
    }
  }

  /** Without Delete the linked list, the map and the textbook list agree. */
  lemma {:induction false} RunRefinesLru(capacity: int, ops: seq<Op>)
    requires NoDelete(ops)
    ensures Tight(capacity, Run(capacity, ops).slots)
    ensures OrdersOf(Run(capacity, ops).slots) == LruRun(capacity, ops)
  {
    if ops != [] {
      var before, op := ops[..|ops| - 1], ops[|ops| - 1];
      RunRefinesLru(capacity, before);
      if op.Set? {
        SetRefines(capacity, Run(capacity, before).slots, op.order);
      } else {
        GetRefines(capacity, Run(capacity, before).slots, op.key);
      }
    }
  }

  /** And the gauge is the size. */
  lemma {:induction false} GaugeIsSize(capacity: int, ops: seq<Op>)
    requires NoDelete(ops)
    ensures Run(capacity, ops).counters.inCache == LiveCount(Run(capacity, ops).slots)
  {
    DeleteRuns.CounterLaws(capacity, ops);
    NoDeletes(ops);
    RunRefinesLru(capacity, ops);
    LiveCountBound(Run(capacity, ops).slots);
  }

  lemma {:induction false} NoDeletes(ops: seq<Op>)
    ensures NoDelete(ops) <==> DeleteRuns.Deletes(ops) == 0
  {
    if ops != [] {
      NoDeletes(ops[..|ops| - 1]);
      assert ops == ops[..|ops| - 1] + [ops[|ops| - 1]];
    }
  }

  lemma FullDropsLast(capacity: int, slots: seq<Slot>, o: Order)
    requires Tight(capacity, slots) && |slots| == capacity > 0 && !Present(slots, o.uid)
    ensures OrdersOf(SetSlots(capacity, slots, o)) == [o] + OrdersOf(slots)[..capacity - 1]
  {
    AddEvicts(capacity, slots, o);
    hide SetSlots, Tight, Present;
    assert ([Slot(o, true)] + slots)[..capacity] == [Slot(o, true)] + slots[..capacity - 1];
  }

  /** A Set of a new key on a full cache drops exactly the least recently used order. */
  lemma EvictsLeastRecentlyUsed(capacity: int, ops: seq<Op>, o: Order)
    requires NoDelete(ops) && capacity > 0
    requires |Run(capacity, ops).slots| == capacity && Slots.Lookup(Run(capacity, ops).slots, o.uid) == None
    ensures OrdersOf(SetSlots(capacity, Run(capacity, ops).slots, o)) ==
            [o] + OrdersOf(Run(capacity, ops).slots)[..capacity - 1]
  {
    var slots := Run(capacity, ops).slots;
    RunRefinesLru(capacity, ops);
    FindsPresent(slots, o.uid);
    hide Run, SetSlots, Tight, OrdersOf, Present;
    FullDropsLast(capacity, slots, o);
  }
}
