/** With Delete as written no number bounds the size of a cache, whatever its capacity. */
module Unbounded {
  import opened Orders
  import opened Slots

  /** As many different orders as needed. */
  ghost predicate Supplies(supply: nat -> Order) {
    forall i: nat, j: nat :: i < j ==> supply(i).uid != supply(j).uid
  }

  lemma RunPlus(capacity: int, ops: seq<Op>, op: Op)
    ensures Run(capacity, ops + [op]) == Step(capacity, Run(capacity, ops), op)
  {
    assert (ops + [op])[..|ops|] == ops;
  }

  /** The same orders, the first n of them orphaned. */
  ghost predicate OrphanedUpTo(n: nat, before: seq<Slot>, after: seq<Slot>) {
    && |after| == |before|
    && (forall i :: 0 <= i < |after| ==> after[i].order == before[i].order)
    && (forall i :: 0 <= i < n && i < |after| ==> !after[i].live)
  }

  /** Deleting the keys of all slots one after the other turns them all into orphans. */
  lemma {:induction false} DeleteEach(capacity: int, ops: seq<Op>, n: nat) returns (longer: seq<Op>)
    requires n <= |Run(capacity, ops).slots|
    ensures OrphanedUpTo(n, Run(capacity, ops).slots, Run(capacity, longer).slots)
  {
    hide Run;
    longer := ops;
    if n > 0 {
      var shorter := DeleteEach(capacity, ops, n - 1);
      var key := Run(capacity, ops).slots[n - 1].order.uid;
      longer := shorter + [Delete(key)];
      RunPlus(capacity, shorter, Delete(key));
      assert Run(capacity, longer).slots == Kill(Run(capacity, shorter).slots, key);
    }
  }

  /** Live slots in front of orphans, which are what a full cache evicts. */
  function Over(live: seq<Slot>, dead: seq<Slot>, gone: nat): seq<Slot>
    requires gone <= |dead|
  {
    live + dead[..|dead| - gone]
  }

  lemma SetOverOrphans(capacity: nat, live: seq<Slot>, dead: seq<Slot>, gone: nat, o: Order)
    requires gone <= |dead| && (|live| >= capacity ==> gone < |dead|)
    requires forall i :: 0 <= i < |live| ==> live[i].live && live[i].order.uid != o.uid
    requires forall i :: 0 <= i < |dead| ==> !dead[i].live && dead[i].order.uid != o.uid
    requires forall i, j :: 0 <= i < |live| && 0 <= j < |dead| ==> live[i].order.uid != dead[j].order.uid
    ensures SetSlots(capacity, Over(live, dead, gone), o) ==
            Over([Slot(o, true)] + live, dead, if |live| >= capacity then gone + 1 else gone)
  {
    var slots := Over(live, dead, gone);
    var added := [Slot(o, true)] + slots;
    OnlyLiveCount(live, dead[..|dead| - gone]);
    LiveCountPush(Slot(o, true), slots);
    if |live| >= capacity {
      var rest := added[..|added| - 1];
      assert rest == [Slot(o, true)] + live + dead[..|dead| - gone - 1];
      assert Kill(rest, added[|added| - 1].order.uid) == rest;
    }
    assert added == [Slot(o, true)] + live + dead[..|dead| - gone];
  }

  lemma OnlyLiveCount(live: seq<Slot>, dead: seq<Slot>)
    requires forall i :: 0 <= i < |live| ==> live[i].live
    requires forall i :: 0 <= i < |dead| ==> !dead[i].live
    ensures LiveCount(live + dead) == |live|
  {
    LiveCountConcat(live, dead);
    LiveCountBound(live);
    NoneLive(dead);
  }

  lemma {:induction false} NoneLive(dead: seq<Slot>)
    requires forall i :: 0 <= i < |dead| ==> !dead[i].live
    ensures LiveCount(dead) == 0
  {
    if dead != [] {
      NoneLive(dead[1..]);
    }
  }

  /** k orders of the supply, all live, the last one newest. */
  function Batch(supply: nat -> Order, first: nat, k: nat): (live: seq<Slot>)
    ensures |live| == k
    ensures forall i :: 0 <= i < k ==> live[i] == Slot(supply(first + k - 1 - i), true)
  {
    seq(k, i requires 0 <= i < k => Slot(supply(first + k - 1 - i), true))
  }

  /** None of these orders is in the supply from the given point on. */
  ghost predicate Avoids(slots: seq<Slot>, supply: nat -> Order, first: nat) {
    forall i, j: nat :: 0 <= i < |slots| && first <= j ==> slots[i].order.uid != supply(j).uid
  }

  /** New orders fill the cache to its capacity, and from then on each takes the place of an orphan. */
  lemma {:induction false} SetBatch(capacity: nat, ops: seq<Op>, supply: nat -> Order, first: nat, k: nat)
    returns (longer: seq<Op>)
    requires Supplies(supply) && Avoids(Run(capacity, ops).slots, supply, first)
    requires forall i :: 0 <= i < |Run(capacity, ops).slots| ==> !Run(capacity, ops).slots[i].live
    requires k <= capacity + |Run(capacity, ops).slots|
    ensures Run(capacity, longer).slots ==
            Over(Batch(supply, first, k), Run(capacity, ops).slots, if k > capacity then k - capacity else 0)
  {
    var dead := Run(capacity, ops).slots;
    if k == 0 {
      longer := ops;
      assert Batch(supply, first, 0) == [];
      assert Over([], dead, 0) == dead;
    } else {
      hide Run, Supplies, Over;
      var shorter := SetBatch(capacity, ops, supply, first, k - 1);
      longer := shorter + [Set(supply(first + k - 1))];
      RunPlus(capacity, shorter, Set(supply(first + k - 1)));
      SetOne(capacity, dead, supply, first, k);
    }
  }

  lemma BatchAvoids(dead: seq<Slot>, supply: nat -> Order, first: nat, k: nat)
    requires Supplies(supply) && Avoids(dead, supply, first)
    ensures var live := Batch(supply, first, k);
            && (forall i :: 0 <= i < k ==> live[i].order.uid != supply(first + k).uid)
            && (forall j :: 0 <= j < |dead| ==> dead[j].order.uid != supply(first + k).uid)
            && (forall i, j :: 0 <= i < k && 0 <= j < |dead| ==> live[i].order.uid != dead[j].order.uid)
  {
  }

  lemma SetOne(capacity: nat, dead: seq<Slot>, supply: nat -> Order, first: nat, k: nat)
    requires Supplies(supply) && Avoids(dead, supply, first) && 0 < k <= capacity + |dead|
    requires forall i :: 0 <= i < |dead| ==> !dead[i].live
    ensures var gone := if k - 1 > capacity then k - 1 - capacity else 0;
            SetSlots(capacity, Over(Batch(supply, first, k - 1), dead, gone), supply(first + k - 1)) ==
            Over(Batch(supply, first, k), dead, if k > capacity then k - capacity else 0)
  {
    hide SetSlots, Over;
    var live, o := Batch(supply, first, k - 1), supply(first + k - 1);
    BatchAvoids(dead, supply, first, k - 1);
    hide Supplies, Avoids;
    SetOverOrphans(capacity, live, dead, if k - 1 > capacity then k - 1 - capacity else 0, o);
    assert [Slot(o, true)] + live == Batch(supply, first, k);
  }

  lemma OrphansAvoid(supply: nat -> Order, base: nat, k: nat, dead: seq<Slot>)
    requires Supplies(supply) && OrphanedUpTo(k, Batch(supply, base, k), dead)
    ensures |dead| == k && Avoids(dead, supply, base + k) && forall i :: 0 <= i < k ==> !dead[i].live
  {
    forall i, j: nat | 0 <= i < |dead| && base + k <= j ensures dead[i].order.uid != supply(j).uid {
      assert dead[i].order == supply(base + k - 1 - i);
    }
  }

  /** Deleting everything and refilling makes room for a whole capacity more. */
  lemma Round(capacity: nat, before: seq<Op>, supply: nat -> Order, base: nat, k: nat) returns (ops: seq<Op>)
    requires Supplies(supply) && Run(capacity, before).slots == Batch(supply, base, k)
    ensures Run(capacity, ops).slots == Batch(supply, base + k, capacity + k)
  {
    hide Run, Supplies;
    var deleted := DeleteEach(capacity, before, k);
    var dead := Run(capacity, deleted).slots;
    OrphansAvoid(supply, base, k, dead);
    ops := SetBatch(capacity, deleted, supply, base + k, capacity + k);
    assert Over(Batch(supply, base + k, capacity + k), dead, k) == Batch(supply, base + k, capacity + k);
  }

  lemma NothingRun(capacity: nat, supply: nat -> Order)
    ensures Run(capacity, []).slots == Batch(supply, 0, 0)
  {
  }

  lemma {:induction false} Grown(capacity: nat, supply: nat -> Order, rounds: nat)
    returns (ops: seq<Op>, base: nat, k: nat)
    requires Supplies(supply) && capacity > 0
    ensures k >= rounds && Run(capacity, ops).slots == Batch(supply, base, k)
  {
    hide Run, Supplies, Batch;
    if rounds == 0 {
      ops, base, k := [], 0, 0;
      NothingRun(capacity, supply);
    } else {
      var before, b, m := Grown(capacity, supply, rounds - 1);
      ops := Round(capacity, before, supply, b, m);
      base, k := b + m, capacity + m;
    }
  }

  const BLANK := Order("", "", "", "", "", "", "", "", 0, Timestamp(0, Local), "", Delivery("", "", "", "", "", "", ""),
                       Payment("", "", "", "", 0, 0, "", 0, 0, 0), [])

  function Numbered(n: nat): Order {
    BLANK.(uid := seq(n, _ => '1'))
  }

  /** For every capacity and every number there is a run after which the cache holds at least that many orders. */
  lemma SizeIsUnbounded(capacity: nat, n: nat) returns (ops: seq<Op>)
    requires capacity > 0
    ensures LiveCount(Run(capacity, ops).slots) >= n
  {
    assert forall i: nat :: |Numbered(i).uid| == i;
    var base, k;
    ops, base, k := Grown(capacity, Numbered, n);
    LiveCountBound(Run(capacity, ops).slots);
  }
}
