/** What holds of every run of the cache, Delete included, and what Delete as written breaks. */
module DeleteRuns {
  import opened Orders
  import opened Slots

  function Max(a: int, b: int): int { if a < b then b else a }

  function Gets(ops: seq<Op>): nat {
    if ops == [] then 0 else Gets(ops[..|ops| - 1]) + (if ops[|ops| - 1].Get? then 1 else 0)
  }

  function Deletes(ops: seq<Op>): nat {
    if ops == [] then 0 else Deletes(ops[..|ops| - 1]) + (if ops[|ops| - 1].Delete? then 1 else 0)
  }

  /** How many of the run's Delete calls found their key in the map. */
  function DeletesOfPresent(capacity: int, ops: seq<Op>): nat {
    if ops == [] then 0
    else
      var before, op := ops[..|ops| - 1], ops[|ops| - 1];
      DeletesOfPresent(capacity, before)
      + (if op.Delete? && Lookup(Run(capacity, before).slots, op.key).Some? then 1 else 0)
  }

  /** The order last set under a key and not deleted since, read off the operations alone. */
  function LatestSet(ops: seq<Op>, key: string): Option<Order> {
    if ops == [] then None
    else match ops[|ops| - 1]
      case Set(o) => if o.uid == key then Some(o) else LatestSet(ops[..|ops| - 1], key)
      case Delete(k) => if k == key then None else LatestSet(ops[..|ops| - 1], key)
      case Get(_) => LatestSet(ops[..|ops| - 1], key)
  }

  lemma {:induction false} RunsKeepUnique(capacity: int, ops: seq<Op>)
    ensures UniqueLive(Run(capacity, ops).slots)
  {
    if ops != [] {
      var before := Run(capacity, ops[..|ops| - 1]).slots;
      RunsKeepUnique(capacity, ops[..|ops| - 1]);
      match ops[|ops| - 1]
      case Set(o) => SetKeepsUnique(capacity, before, o);
      case Get(k) => GetKeepsUnique(before, k);
      case Delete(_) =>
    }
  }

  /** A hit returns the order most recently set under its key, and never one deleted since. */
  lemma {:induction false} HitsReturnLatestSet(capacity: int, ops: seq<Op>, key: string)
    ensures var found := Lookup(Run(capacity, ops).slots, key);
            found.Some? ==> found == LatestSet(ops, key)
  {
    if ops != [] {
      var before := Run(capacity, ops[..|ops| - 1]).slots;
      var after := Run(capacity, ops).slots;
      HitsReturnLatestSet(capacity, ops[..|ops| - 1], key);
      RunsKeepUnique(capacity, ops[..|ops| - 1]);
      if Present(after, key) {
        var s := after[Find(after, key)];
        match ops[|ops| - 1]
        case Set(o) => SetOrigin(capacity, before, o, s); LiveLookup(before, s, o.uid);
        case Get(k) => LiveLookup(before, s, k);
        case Delete(k) => LiveLookup(before, Slot(s.order, true), k);
      }
    }
  }

  lemma LiveLookup(slots: seq<Slot>, s: Slot, key: string)
    requires UniqueLive(slots) && s.live
    ensures s in slots ==> Lookup(slots, s.order.uid) == Some(s.order)
  {
  }

  lemma StepCounts(capacity: int, st: State, op: Op)
    ensures var after := Step(capacity, st, op);
            && |after.slots| - |st.slots| ==
               after.counters.inCache - st.counters.inCache + (if op.Delete? then 1 else 0)
            && after.counters.hits + after.counters.misses ==
               st.counters.hits + st.counters.misses + (if op.Get? then 1 else 0)
  {
    if op.Set? {
      LiveCountPush(Slot(op.order, true), st.slots);
    }
  }

  /** The gauge plus the Delete calls is the length of the linked list; every Get is a hit or a miss. */
  lemma {:induction false} CounterLaws(capacity: int, ops: seq<Op>)
    ensures var st := Run(capacity, ops);
            && |st.slots| == st.counters.inCache + Deletes(ops)
            && st.counters.hits + st.counters.misses == Gets(ops)
  {
    hide Step;
    if ops != [] {
      CounterLaws(capacity, ops[..|ops| - 1]);
      StepCounts(capacity, Run(capacity, ops[..|ops| - 1]), ops[|ops| - 1]);
    }
  }

  /** How many of the run's Get calls found their key in the map. */
  function FoundGets(capacity: int, ops: seq<Op>): nat {
    if ops == [] then 0
    else
      var before, op := ops[..|ops| - 1], ops[|ops| - 1];
      FoundGets(capacity, before)
      + (if op.Get? && Lookup(Run(capacity, before).slots, op.key).Some? then 1 else 0)
  }

  /** The hit counter counts these, and the miss counter the other Get calls. */
  lemma {:induction false} HitsAreFound(capacity: int, ops: seq<Op>)
    ensures var c := Run(capacity, ops).counters;
            c.hits == FoundGets(capacity, ops) && c.misses == Gets(ops) - FoundGets(capacity, ops)
  {
    if ops != [] {
      HitsAreFound(capacity, ops[..|ops| - 1]);
    }
  }

  lemma PresentAtEnd(slots: seq<Slot>, t: Slot, key: string)
    ensures Present(slots + [t], key) <==> Present(slots, key) || Holds(t, key)
  {
    assert (slots + [t])[|slots|] == t;
    if i :| 0 <= i < |slots| && Holds(slots[i], key) {
      assert Holds((slots + [t])[i], key);
    }
  }

  lemma LiveCountEvict(slots: seq<Slot>)
    requires slots != [] && UniqueLive(slots)
    ensures LiveCount(Evict(slots)) ==
            LiveCount(slots) - (if Present(slots, slots[|slots| - 1].order.uid) then 1 else 0)
  {
    var rest, t := slots[..|slots| - 1], slots[|slots| - 1];
    assert slots == rest + [t];
    LiveCountConcat(rest, [t]);
    LiveCountKill(rest, t.order.uid);
    PresentAtEnd(rest, t, t.order.uid);
  }

  /** What one Set does to the number of map entries. */
  lemma SetSize(capacity: int, slots: seq<Slot>, o: Order)
    requires UniqueLive(slots)
    ensures var added := [Slot(o, true)] + slots;
            var t := added[|added| - 1];
            LiveCount(SetSlots(capacity, slots, o)) ==
            if Present(slots, o.uid) then LiveCount(slots)
            else if LiveCount(slots) < capacity then LiveCount(slots) + 1
            else LiveCount(slots) + (if Present(added, t.order.uid) then 0 else 1)
  {
    var i := Find(slots, o.uid);
    FindsPresent(slots, o.uid);
    if i < |slots| {
      LiveCountRemove(slots, i);
      LiveCountPush(Slot(o, true), Remove(slots, i));
    } else {
      LiveCountPush(Slot(o, true), slots);
      PushKeepsUnique(Slot(o, true), slots);
      LiveCountEvict([Slot(o, true)] + slots);
    }
  }

  lemma GetSize(slots: seq<Slot>, key: string)
    ensures LiveCount(GetSlots(slots, key)) == LiveCount(slots)
  {
    var i := Find(slots, key);
    if i < |slots| {
      LiveCountRemove(slots, i);
      LiveCountPush(slots[i], Remove(slots, i));
    }
  }

  /** Orphans, plus the map entries or the capacity, whichever is more. */
  function Load(capacity: int, slots: seq<Slot>): int {
    Max(LiveCount(slots), Max(capacity, 0)) + Orphans(slots)
  }

  lemma SetLoad(capacity: int, slots: seq<Slot>, o: Order)
    requires UniqueLive(slots)
    ensures Load(capacity, SetSlots(capacity, slots, o)) <= Load(capacity, slots)
  {
    SetSize(capacity, slots, o);
    FindsPresent(slots, o.uid);
    LiveCountPush(Slot(o, true), slots);
    LiveCountBound(slots);
    LiveCountBound(SetSlots(capacity, slots, o));
  }

  lemma KillLoad(capacity: int, slots: seq<Slot>, key: string)
    requires UniqueLive(slots)
    ensures Load(capacity, Kill(slots, key)) <= Load(capacity, slots) + (if Lookup(slots, key).Some? then 1 else 0)
  {
    LiveCountKill(slots, key);
    FindsPresent(slots, key);
  }

  /**
   * Map entries beyond the capacity, and orphans, are paid for by Delete calls that found their key.
   * In particular a run without such calls never exceeds its capacity.
   */
  lemma {:induction false} SizeBound(capacity: int, ops: seq<Op>)
    ensures var slots := Run(capacity, ops).slots;
            && Load(capacity, slots) <= Max(capacity, 0) + DeletesOfPresent(capacity, ops)
            && LiveCount(slots) <= Max(capacity, 0) + DeletesOfPresent(capacity, ops)
  {
    LiveCountBound(Run(capacity, ops).slots);
    if ops != [] {
      var before := Run(capacity, ops[..|ops| - 1]).slots;
      SizeBound(capacity, ops[..|ops| - 1]);
      RunsKeepUnique(capacity, ops[..|ops| - 1]);
      match ops[|ops| - 1]
      case Set(o) => SetLoad(capacity, before, o);
      case Get(k) => GetSize(before, k);
      case Delete(k) => KillLoad(capacity, before, k);
    }
  }

  lemma PresentAfterPush(s: Slot, slots: seq<Slot>, key: string)
    ensures Present([s] + slots, key) <==> Holds(s, key) || Present(slots, key)
  {
    var added := [s] + slots;
    assert added[0] == s;
    assert forall i :: 0 <= i < |slots| ==> added[i + 1] == slots[i];
    if Present(slots, key) {
      var i :| 0 <= i < |slots| && Holds(slots[i], key);
      assert Holds(added[i + 1], key);
    }
  }

  /** Exactly when a Set takes the map over its capacity: the tail is an orphan whose key is nowhere live. */
  lemma ExceedsCapacityIff(capacity: int, slots: seq<Slot>, o: Order)
    requires UniqueLive(slots) && LiveCount(slots) <= capacity
    ensures LiveCount(SetSlots(capacity, slots, o)) > capacity <==>
            && !Present(slots, o.uid)
            && LiveCount(slots) == capacity
            && slots != []
            && slots[|slots| - 1].order.uid != o.uid
            && !Present(slots, slots[|slots| - 1].order.uid)
  {
    SetSize(capacity, slots, o);
    var added := [Slot(o, true)] + slots;
    PresentAfterPush(Slot(o, true), slots, added[|added| - 1].order.uid);
  }

  lemma FrontIsFound(slots: seq<Slot>, key: string)
    requires slots != [] && Holds(slots[0], key)
    ensures Lookup(slots, key) == Some(slots[0].order)
  {
  }

  lemma KilledIsAbsent(slots: seq<Slot>, key: string)
    ensures Lookup(Kill(slots, key), key) == None
  {
  }

  /** Exactly when an order just set can be read back: unless its own orphan, or itself, is what gets evicted. */
  lemma ReadBackIff(capacity: int, slots: seq<Slot>, o: Order)
    ensures Lookup(SetSlots(capacity, slots, o), o.uid) == Some(o) <==>
            || Present(slots, o.uid)
            || LiveCount(slots) < capacity
            || (slots != [] && slots[|slots| - 1].order.uid != o.uid)
    ensures Lookup(SetSlots(capacity, slots, o), o.uid) != Some(o) ==>
            Lookup(SetSlots(capacity, slots, o), o.uid) == None
  {
    var added := [Slot(o, true)] + slots;
    FindsPresent(slots, o.uid);
    LiveCountPush(Slot(o, true), slots);
    var evicted := !Present(slots, o.uid) && LiveCount(slots) >= capacity;
    if evicted && (slots == [] || slots[|slots| - 1].order.uid == o.uid) {
      KilledIsAbsent(added[..|added| - 1], o.uid);
    } else {
      var after := SetSlots(capacity, slots, o);
      hide Lookup, Find, LiveCount;
      FrontIsFound(after, o.uid);
    }
  }

  /** Three operations that leave a cache for one order full, with an orphan at the tail. */
  lemma OrphanAtTail(a: Order, b: Order)
    requires a.uid != b.uid
    ensures Run(1, [Set(a), Delete(a.uid), Set(b)]).slots == [Slot(b, true), Slot(a, false)]
  {
    var ops := [Set(a), Delete(a.uid), Set(b)];
    assert ops[..2][..1] == [Set(a)] && ops[..1][..0] == [];
    assert Run(1, [Set(a)]).slots == SetSlots(1, [], a) == [Slot(a, true)];
    assert Run(1, ops[..2]).slots == Kill([Slot(a, true)], a.uid) == [Slot(a, false)];
    assert LiveCount([Slot(b, true), Slot(a, false)]) == 1 by {
      LiveCountPush(Slot(b, true), [Slot(a, false)]);
    }
  }

  /** A cache for one order can end up holding two. */
  lemma CapacityCanBeExceeded(a: Order, b: Order, c: Order)
    requires a.uid != b.uid && a.uid != c.uid && b.uid != c.uid
    ensures LiveCount(Run(1, [Set(a), Delete(a.uid), Set(b), Set(c)]).slots) == 2
  {
    var ops := [Set(a), Delete(a.uid), Set(b), Set(c)];
    OrphanAtTail(a, b);
    assert ops[..3] == [Set(a), Delete(a.uid), Set(b)];
    SetSize(1, [Slot(b, true), Slot(a, false)], c);
    LiveCountPush(Slot(b, true), [Slot(a, false)]);
  }

  /** An order can be lost by the very Set that stores it. */
  lemma SetCanLoseItsOwnOrder(a: Order, b: Order)
    requires a.uid != b.uid
    ensures Lookup(Run(1, [Set(a), Delete(a.uid), Set(b), Set(a)]).slots, a.uid) == None
  {
    var ops := [Set(a), Delete(a.uid), Set(b), Set(a)];
    OrphanAtTail(a, b);
    assert ops[..3] == [Set(a), Delete(a.uid), Set(b)];
    ReadBackIff(1, [Slot(b, true), Slot(a, false)], a);
    LiveCountPush(Slot(b, true), [Slot(a, false)]);
  }

  // ---------- The gauge ----------

  /**
   * The calls that take the gauge below the size: a Delete that finds no key, and a Set of a new key on a full
   * cache whose tail is an orphan with no key left to drop.
   */
  predicate Drifts(capacity: int, slots: seq<Slot>, op: Op) {
    match op
    case Delete(k) => Find(slots, k) == |slots|
    case Get(_) => false
    case Set(o) =>
      && Find(slots, o.uid) == |slots| && LiveCount(slots) >= capacity
      && slots != [] && slots[|slots| - 1].order.uid != o.uid
      && Find(slots, slots[|slots| - 1].order.uid) == |slots|
  }

  /** The number of such calls in a run. */
  function DriftCount(capacity: int, ops: seq<Op>): nat {
    if ops == [] then 0
    else
      var before, op := ops[..|ops| - 1], ops[|ops| - 1];
      DriftCount(capacity, before) + (if Drifts(capacity, Run(capacity, before).slots, op) then 1 else 0)
  }

  lemma SetDrift(capacity: int, slots: seq<Slot>, o: Order, c: Counters)
    requires UniqueLive(slots)
    ensures LiveCount(SetSlots(capacity, slots, o)) - SetCounters(capacity, slots, o, c).inCache ==
            LiveCount(slots) - c.inCache + (if Drifts(capacity, slots, Set(o)) then 1 else 0)
  {
    SetSize(capacity, slots, o);
    FindsPresent(slots, o.uid);
    if slots != [] {
      var t := slots[|slots| - 1].order.uid;
      PresentAfterPush(Slot(o, true), slots, t);
      FindsPresent(slots, t);
    } else {
      assert Holds(([Slot(o, true)] + slots)[0], o.uid);
    }
  }

  lemma StepDrift(capacity: int, st: State, op: Op)
    requires UniqueLive(st.slots)
    ensures var after := Step(capacity, st, op);
            LiveCount(after.slots) - after.counters.inCache ==
            LiveCount(st.slots) - st.counters.inCache + (if Drifts(capacity, st.slots, op) then 1 else 0)
  {
    match op
    case Set(o) => SetDrift(capacity, st.slots, o, st.counters);
    case Get(k) => GetSize(st.slots, k);
    case Delete(k) => LiveCountKill(st.slots, k); FindsPresent(st.slots, k);
  }

  /** The gauge falls short of the size by exactly the number of drifting calls. */
  lemma {:induction false} GaugeDrift(capacity: int, ops: seq<Op>)
    ensures var st := Run(capacity, ops);
            LiveCount(st.slots) - st.counters.inCache == DriftCount(capacity, ops)
  {
    hide Step, Drifts;
    if ops != [] {
      var before := ops[..|ops| - 1];
      GaugeDrift(capacity, before);
      RunsKeepUnique(capacity, before);
      StepDrift(capacity, Run(capacity, before), ops[|ops| - 1]);
    } else {
      assert LiveCount([]) == 0;
    }
  }

  /** So it never exceeds the size, and shows it exactly if no call of the run drifted. */
  lemma GaugeIsSizeIff(capacity: int, ops: seq<Op>)
    ensures var st := Run(capacity, ops);
            && st.counters.inCache <= LiveCount(st.slots)
            && (st.counters.inCache == LiveCount(st.slots) <==>
                  forall i :: 0 <= i < |ops| ==> !Drifts(capacity, Run(capacity, ops[..i]).slots, ops[i]))
  {
    GaugeDrift(capacity, ops);
    DriftCountZero(capacity, ops);
  }

  lemma {:induction false} DriftCountZero(capacity: int, ops: seq<Op>)
    ensures DriftCount(capacity, ops) == 0 <==>
            forall i :: 0 <= i < |ops| ==> !Drifts(capacity, Run(capacity, ops[..i]).slots, ops[i])
  {
    hide Drifts, Run;
    if ops != [] {
      var n := |ops| - 1;
      DriftCountZero(capacity, ops[..n]);
      assert forall i :: 0 <= i < n ==> ops[..n][i] == ops[i] && ops[..n][..i] == ops[..i];
    }
  }

  /** One Delete on a new cache makes the gauge negative. */
  lemma DeleteSpoilsGauge(capacity: int, key: string)
    ensures var st := Run(capacity, [Delete(key)]);
            st.counters.inCache == -1 && LiveCount(st.slots) == 0
  {
    assert [Delete(key)][..0] == [];
  }
}
