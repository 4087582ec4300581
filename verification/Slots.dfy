/**
 * The cache as a sequence of slots, newest first: one slot for each node linked between the sentinels.
 * A slot is live while the map points at its node. Delete only drops the map entry, so a dead slot stays
 * in the list until it reaches the tail and is popped. The functions say what each operation makes of
 * the slots, and class Cache is proved against them; the lemmas are about runs that may use Delete.
 */
module Slots {
  import opened Orders

  datatype Slot = Slot(order: Order, live: bool)

  predicate Holds(s: Slot, key: string) {
    s.live && s.order.uid == key
  }

  ghost predicate Present(slots: seq<Slot>, key: string) {
    exists i :: 0 <= i < |slots| && Holds(slots[i], key)
  }

  /** The map has one node for a key. */
  ghost predicate UniqueLive(slots: seq<Slot>) {
    forall i, j :: 0 <= i < j < |slots| && slots[i].live && slots[j].live ==> slots[i].order.uid != slots[j].order.uid
  }

  /** Position of the live slot of a key, or the length if the key is absent. */
  function Find(slots: seq<Slot>, key: string): (i: nat)
    ensures i <= |slots|
    ensures i < |slots| ==> Holds(slots[i], key)
    ensures forall j :: 0 <= j < i ==> !Holds(slots[j], key)
  {
    if slots == [] || Holds(slots[0], key) then 0 else 1 + Find(slots[1..], key)
  }

  function Lookup(slots: seq<Slot>, key: string): Option<Order> {
    var i := Find(slots, key);
    if i < |slots| then Some(slots[i].order) else None
  }

  /** Number of map entries. */
  function LiveCount(slots: seq<Slot>): nat {
    if slots == [] then 0 else (if slots[0].live then 1 else 0) + LiveCount(slots[1..])
  }

  function Orphans(slots: seq<Slot>): int {
    |slots| - LiveCount(slots)
  }

  // ---------- The operations ----------

  function Remove(slots: seq<Slot>, i: nat): seq<Slot>
    requires i < |slots|
  {
    slots[..i] + slots[i + 1..]
  }

  /** Drop a key from the map; its node, if any, stays linked. */
  function Kill(slots: seq<Slot>, key: string): (r: seq<Slot>)
    ensures |r| == |slots|
    ensures forall i :: 0 <= i < |r| ==> r[i] == Slot(slots[i].order, slots[i].live && slots[i].order.uid != key)
  {
    seq(|slots|, i requires 0 <= i < |slots| => Slot(slots[i].order, slots[i].live && slots[i].order.uid != key))
  }

  /** Pop the tail node and drop its key, whichever node the map holds under that key. */
  function Evict(slots: seq<Slot>): seq<Slot>
    requires slots != []
  {
    Kill(slots[..|slots| - 1], slots[|slots| - 1].order.uid)
  }

  function SetSlots(capacity: int, slots: seq<Slot>, o: Order): seq<Slot> {
    var i := Find(slots, o.uid);
    if i < |slots| then [Slot(o, true)] + Remove(slots, i)
    else
      var added := [Slot(o, true)] + slots;
      if LiveCount(added) > capacity then Evict(added) else added
  }

  function GetSlots(slots: seq<Slot>, key: string): seq<Slot> {
    var i := Find(slots, key);
    if i < |slots| then [slots[i]] + Remove(slots, i) else slots
  }

  /** Setting several orders one after the other. */
  function SetAll(capacity: int, slots: seq<Slot>, orders: seq<Order>): seq<Slot> {
    if orders == [] then slots
    else SetSlots(capacity, SetAll(capacity, slots, orders[..|orders| - 1]), orders[|orders| - 1])
  }

  // ---------- Runs with metrics ----------

  datatype Op = Set(order: Order) | Get(key: string) | Delete(key: string)

  datatype Counters = Counters(inCache: int, hits: nat, misses: nat)

  const ZERO := Counters(0, 0, 0)

  datatype State = State(slots: seq<Slot>, counters: Counters)

  function SetCounters(capacity: int, slots: seq<Slot>, o: Order, c: Counters): Counters {
    if Find(slots, o.uid) < |slots| then c
    else if LiveCount(slots) + 1 > capacity then c.(inCache := c.inCache + 1 - 1)
    else c.(inCache := c.inCache + 1)
  }

  function GetCounters(slots: seq<Slot>, key: string, c: Counters): Counters {
    if Find(slots, key) < |slots| then c.(hits := c.hits + 1) else c.(misses := c.misses + 1)
  }

  function DeleteCounters(c: Counters): Counters {
    c.(inCache := c.inCache - 1)
  }

  function Step(capacity: int, st: State, op: Op): State {
    match op
    case Set(o) => State(SetSlots(capacity, st.slots, o), SetCounters(capacity, st.slots, o, st.counters))
    case Get(k) => State(GetSlots(st.slots, k), GetCounters(st.slots, k, st.counters))
    case Delete(k) => State(Kill(st.slots, k), DeleteCounters(st.counters))
  }

  /** A run of a new cache. */
  function Run(capacity: int, ops: seq<Op>): State {
    if ops == [] then State([], ZERO)
    else Step(capacity, Run(capacity, ops[..|ops| - 1]), ops[|ops| - 1])
  }

  // ---------- Slot arithmetic ----------

  lemma {:induction false} LiveCountConcat(a: seq<Slot>, b: seq<Slot>)
    ensures LiveCount(a + b) == LiveCount(a) + LiveCount(b)
  {
    if a == [] {
      assert a + b == b;
    } else {
      assert (a + b)[1..] == a[1..] + b;
      LiveCountConcat(a[1..], b);
    }
  }

  lemma {:induction false} LiveCountRemove(slots: seq<Slot>, i: nat)
    requires i < |slots|
    ensures LiveCount(Remove(slots, i)) == LiveCount(slots) - (if slots[i].live then 1 else 0)
  {
    if i == 0 {
      assert Remove(slots, 0) == slots[1..];
    } else {
      assert Remove(slots, i)[1..] == Remove(slots[1..], i - 1);
      LiveCountRemove(slots[1..], i - 1);
    }
  }

  lemma LiveCountPush(s: Slot, slots: seq<Slot>)
    ensures LiveCount([s] + slots) == (if s.live then 1 else 0) + LiveCount(slots)
  {
    LiveCountConcat([s], slots);
  }

  lemma {:induction false} LiveCountKill(slots: seq<Slot>, key: string)
    requires UniqueLive(slots)
    ensures LiveCount(Kill(slots, key)) == LiveCount(slots) - (if Present(slots, key) then 1 else 0)
  {
    if slots != [] {
      var rest := slots[1..];
      assert Kill(slots, key)[1..] == Kill(rest, key);
      LiveCountKill(rest, key);
      assert Present(rest, key) <==> exists i :: 1 <= i < |slots| && Holds(slots[i], key) by {
        forall i | 1 <= i < |slots| ensures rest[i - 1] == slots[i] {}
      }
    }
  }

  lemma LiveCountBound(slots: seq<Slot>)
    ensures LiveCount(slots) <= |slots|
    ensures LiveCount(slots) == |slots| <==> forall i :: 0 <= i < |slots| ==> slots[i].live
  {
    if slots != [] {
      LiveCountBound(slots[1..]);
      assert forall i :: 1 <= i < |slots| ==> slots[i] == slots[1..][i - 1];
    }
  }

  lemma FindsPresent(slots: seq<Slot>, key: string)
    ensures Find(slots, key) < |slots| <==> Present(slots, key)
  {
  }

  /** After Set, a live slot is the order just set or was live before under another key. */
  lemma SetOrigin(capacity: int, slots: seq<Slot>, o: Order, s: Slot)
    requires UniqueLive(slots) && s in SetSlots(capacity, slots, o) && s.live
    ensures s.order == o || (s in slots && s.order.uid != o.uid)
  {
    var i := Find(slots, o.uid);
    if i < |slots| {
      assert s == Slot(o, true) || s in Remove(slots, i);
      if s in Remove(slots, i) {
        var j :| 0 <= j < |slots| && j != i && slots[j] == s;
      }
    } else if LiveCount([Slot(o, true)] + slots) > capacity {
      var added := [Slot(o, true)] + slots;
      var j :| 0 <= j < |added| - 1 && Evict(added)[j] == s;
      assert added[j] == s;
    }
  }

  lemma RemoveKeepsUnique(slots: seq<Slot>, i: nat)
    requires UniqueLive(slots) && i < |slots|
    ensures UniqueLive(Remove(slots, i))
    ensures slots[i].live ==> forall j :: 0 <= j < |slots| - 1 && Remove(slots, i)[j].live ==>
              Remove(slots, i)[j].order.uid != slots[i].order.uid
  {
    var r := Remove(slots, i);
    forall j, k | 0 <= j < k < |r| && r[j].live && r[k].live
      ensures r[j].order.uid != r[k].order.uid
    {
      assert r[j] == slots[if j < i then j else j + 1] && r[k] == slots[if k < i then k else k + 1];
    }
  }

  lemma PushKeepsUnique(s: Slot, slots: seq<Slot>)
    requires UniqueLive(slots)
    requires s.live ==> forall j :: 0 <= j < |slots| && slots[j].live ==> slots[j].order.uid != s.order.uid
    ensures UniqueLive([s] + slots)
  {
  }

  lemma SetKeepsUnique(capacity: int, slots: seq<Slot>, o: Order)
    requires UniqueLive(slots)
    ensures UniqueLive(SetSlots(capacity, slots, o))
  {
    var i := Find(slots, o.uid);
    if i < |slots| {
      RemoveKeepsUnique(slots, i);
      PushKeepsUnique(Slot(o, true), Remove(slots, i));
    } else {
      PushKeepsUnique(Slot(o, true), slots);
    }
  }

  lemma GetKeepsUnique(slots: seq<Slot>, key: string)
    requires UniqueLive(slots)
    ensures UniqueLive(GetSlots(slots, key))
  {
    var i := Find(slots, key);
    if i < |slots| {
      RemoveKeepsUnique(slots, i);
      PushKeepsUnique(slots[i], Remove(slots, i));
    }
  }

  lemma KillKeepsUnique(slots: seq<Slot>, key: string)
    requires UniqueLive(slots)
    ensures UniqueLive(Kill(slots, key))
  {
  }

  /** The keys of the map. */
  ghost function LiveKeys(slots: seq<Slot>): set<string> {
    if slots == [] then {} else (if slots[0].live then {slots[0].order.uid} else {}) + LiveKeys(slots[1..])
  }

  lemma {:induction false} LiveKeysConcat(a: seq<Slot>, b: seq<Slot>)
    ensures LiveKeys(a + b) == LiveKeys(a) + LiveKeys(b)
  {
    if a == [] {
      assert a + b == b;
    } else {
      assert (a + b)[1..] == a[1..] + b;
      LiveKeysConcat(a[1..], b);
    }
  }

  lemma {:induction false} LiveKeysFind(slots: seq<Slot>, key: string)
    ensures key in LiveKeys(slots) <==> Find(slots, key) < |slots|
  {
    if slots != [] {
      LiveKeysFind(slots[1..], key);
    }
  }

  lemma {:induction false} LiveKeysCount(slots: seq<Slot>)
    requires UniqueLive(slots)
    ensures |LiveKeys(slots)| == LiveCount(slots)
  {
    if slots != [] {
      var rest := slots[1..];
      LiveKeysCount(rest);
      LiveKeysFind(rest, slots[0].order.uid);
    }
  }

  lemma {:induction false} LiveKeysRemove(slots: seq<Slot>, i: nat)
    requires i < |slots|
    ensures LiveKeys(slots) == LiveKeys(Remove(slots, i)) + (if slots[i].live then {slots[i].order.uid} else {})
  {
    if i == 0 {
      assert Remove(slots, 0) == slots[1..];
    } else {
      assert Remove(slots, i)[1..] == Remove(slots[1..], i - 1);
      LiveKeysRemove(slots[1..], i - 1);
    }
  }

  lemma {:induction false} LiveKeysReplace(slots: seq<Slot>, i: nat, s: Slot)
    requires i < |slots| && s.live && slots[i].live && s.order.uid == slots[i].order.uid
    ensures LiveKeys(slots[i := s]) == LiveKeys(slots)
  {
    if i == 0 {
      assert slots[0 := s][1..] == slots[1..];
    } else {
      assert slots[i := s][1..] == slots[1..][i - 1 := s];
      LiveKeysReplace(slots[1..], i - 1, s);
    }
  }

  lemma {:induction false} LiveKeysKill(slots: seq<Slot>, key: string)
    ensures LiveKeys(Kill(slots, key)) == LiveKeys(slots) - {key}
  {
    if slots != [] {
      assert Kill(slots, key)[1..] == Kill(slots[1..], key);
      LiveKeysKill(slots[1..], key);
    }
  }

  lemma LiveKeysEvict(slots: seq<Slot>)
    requires slots != []
    ensures LiveKeys(Evict(slots)) == LiveKeys(slots) - {slots[|slots| - 1].order.uid}
  {
    var n := |slots| - 1;
    assert slots == slots[..n] + [slots[n]];
    LiveKeysConcat(slots[..n], [slots[n]]);
    LiveKeysKill(slots[..n], slots[n].order.uid);
  }
}
