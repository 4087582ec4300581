/** The same operations on a smaller and a larger cache. */
module Inclusion {
  import opened Orders
  import opened Slots
  import opened Lru

  /** a is obtained from b by leaving out elements. */
  predicate Subsequence(a: seq<Order>, b: seq<Order>) {
    a == [] || (b != [] && ((a[0] == b[0] && Subsequence(a[1..], b[1..])) || Subsequence(a, b[1..])))
  }

  lemma {:induction false} SubsequenceWithout(a: seq<Order>, b: seq<Order>, key: string)
    requires Subsequence(a, b)
    ensures Subsequence(Without(a, key), Without(b, key))
  {
    if a != [] {
      if a[0] == b[0] && Subsequence(a[1..], b[1..]) {
        SubsequenceWithout(a[1..], b[1..], key);
      } else {
        SubsequenceWithout(a, b[1..], key);
      }
    }
  }

  lemma {:induction false} SubsequenceCut(a: seq<Order>, b: seq<Order>)
    requires Subsequence(a, b) && a != []
    ensures b != []
    ensures Subsequence(a[..|a| - 1], b[..|b| - 1])
    ensures Subsequence(a[..|a| - 1], b)
  {
    if a[0] == b[0] && Subsequence(a[1..], b[1..]) {
      if |a| > 1 {
        SubsequenceCut(a[1..], b[1..]);
        assert a[..|a| - 1][1..] == a[1..][..|a| - 2];
        assert b[..|b| - 1][1..] == b[1..][..|b| - 2];
      }
    } else {
      SubsequenceCut(a, b[1..]);
      assert b[..|b| - 1][1..] == b[1..][..|b| - 2];
    }
  }

  lemma {:induction false} SubsequenceIn(a: seq<Order>, b: seq<Order>, key: string)
    requires Subsequence(a, b) && DistinctUids(b) && Cached(a, key).Some?
    ensures Cached(b, key) == Cached(a, key)
  {
    if a[0] == b[0] && Subsequence(a[1..], b[1..]) {
      if a[0].uid != key {
        SubsequenceIn(a[1..], b[1..], key);
      }
    } else {
      SubsequenceIn(a, b[1..], key);
      CachedMember(b[1..], key);
    }
  }

  lemma {:induction false} CachedMember(list: seq<Order>, key: string)
    ensures Cached(list, key).Some? ==> Cached(list, key).value in list && Cached(list, key).value.uid == key
  {
    if list != [] {
      CachedMember(list[1..], key);
    }
  }

  /** What relates the two lists all along: inclusion, and equality until the smaller has filled. */
  ghost predicate Included(c1: int, small: seq<Order>, large: seq<Order>) {
    Subsequence(small, large) && (|small| < c1 ==> small == large)
  }

  lemma {:induction false} WithoutMissing(list: seq<Order>, key: string)
    requires Cached(list, key) == None
    ensures Without(list, key) == list
  {
    if list != [] {
      WithoutMissing(list[1..], key);
    }
  }

  lemma SubsequencePush(o: Order, a: seq<Order>, b: seq<Order>)
    requires Subsequence(a, b)
    ensures Subsequence([o] + a, [o] + b)
  {
  }

  lemma SetIncluded(c1: int, c2: int, small: seq<Order>, large: seq<Order>, o: Order)
    requires 0 < c1 <= c2 && Included(c1, small, large) && |small| <= c1 && |large| <= c2
    requires DistinctUids(small) && DistinctUids(large)
    ensures Included(c1, LruSet(c1, small, o), LruSet(c2, large, o))
  {
    var a, b := [o] + Without(small, o.uid), [o] + Without(large, o.uid);
    SubsequenceWithout(small, large, o.uid);
    SubsequencePush(o, Without(small, o.uid), Without(large, o.uid));
    WithoutLength(small, o.uid);
    WithoutLength(large, o.uid);
    SubsequenceCut(a, b);
    if Cached(small, o.uid).Some? {
      SubsequenceIn(small, large, o.uid);
    }
  }

  lemma {:induction false} WithoutLength(list: seq<Order>, key: string)
    requires DistinctUids(list)
    ensures |Without(list, key)| == |list| - (if Cached(list, key).Some? then 1 else 0)
  {
    if list != [] {
      if list[0].uid == key {
        WithoutAbsent(list[1..], key);
      } else {
        WithoutLength(list[1..], key);
      }
    }
  }

  lemma GetIncluded(c1: int, small: seq<Order>, large: seq<Order>, key: string)
    requires Included(c1, small, large) && DistinctUids(small) && DistinctUids(large)
    ensures Included(c1, LruGet(small, key), LruGet(large, key))
  {
    SubsequenceWithout(small, large, key);
    WithoutLength(small, key);
    match Cached(small, key)
    case Some(o) =>
      SubsequenceIn(small, large, key);
      SubsequencePush(o, Without(small, key), Without(large, key));
    case None =>
      WithoutMissing(small, key);
  }

  lemma {:induction false} ListsIncluded(c1: int, c2: int, ops: seq<Op>)
    requires 0 < c1 <= c2 && NoDelete(ops)
    ensures Included(c1, LruRun(c1, ops), LruRun(c2, ops))
  {
    if ops != [] {
      var before, op := ops[..|ops| - 1], ops[|ops| - 1];
      ListsIncluded(c1, c2, before);
      TightRun(c1, before);
      TightRun(c2, before);
      if op.Set? {
        SetIncluded(c1, c2, LruRun(c1, before), LruRun(c2, before), op.order);
      } else {
        GetIncluded(c1, LruRun(c1, before), LruRun(c2, before), op.key);
      }
    }
  }

  lemma TightRun(capacity: int, ops: seq<Op>)
    requires NoDelete(ops) && capacity > 0
    ensures DistinctUids(LruRun(capacity, ops)) && |LruRun(capacity, ops)| <= capacity
    ensures OrdersOf(Run(capacity, ops).slots) == LruRun(capacity, ops)
  {
    RunRefinesLru(capacity, ops);
    var slots := Run(capacity, ops).slots;
    assert forall i :: 0 <= i < |slots| ==> slots[i].order == LruRun(capacity, ops)[i];
  }

  lemma HitInBoth(c1: int, c2: int, ops: seq<Op>, key: string)
    requires 0 < c1 <= c2 && NoDelete(ops)
    ensures var found := Slots.Lookup(Run(c1, ops).slots, key);
            found.Some? ==> Slots.Lookup(Run(c2, ops).slots, key) == found
  {
    ListsIncluded(c1, c2, ops);
    RunRefinesLru(c1, ops);
    RunRefinesLru(c2, ops);
    CachedIsLookup(Run(c1, ops).slots, key);
    CachedIsLookup(Run(c2, ops).slots, key);
    TightRun(c2, ops);
    if Cached(LruRun(c1, ops), key).Some? {
      SubsequenceIn(LruRun(c1, ops), LruRun(c2, ops), key);
    }
  }

  lemma {:induction false} HitsMonotone(c1: int, c2: int, ops: seq<Op>)
    requires 0 < c1 <= c2 && NoDelete(ops)
    ensures Run(c1, ops).counters.hits <= Run(c2, ops).counters.hits
  {
    if ops != [] {
      HitsMonotone(c1, c2, ops[..|ops| - 1]);
      if ops[|ops| - 1].Get? {
        HitInBoth(c1, c2, ops[..|ops| - 1], ops[|ops| - 1].key);
      }
    }
  }

  /**
   * Inclusion across capacities, for any operations without Delete: the smaller cache's recency list is
   * a subsequence of the larger's, the two are equal until the smaller has filled, a hit in the smaller is
   * a hit on the same order in the larger, and hits are monotone in the capacity.
   */
  lemma CapacityInclusion(c1: int, c2: int, ops: seq<Op>, key: string)
    requires 0 < c1 <= c2 && NoDelete(ops)
    ensures var small, large := Run(c1, ops), Run(c2, ops);
            && Subsequence(OrdersOf(small.slots), OrdersOf(large.slots))
            && (|small.slots| < c1 ==> small.slots == large.slots)
            && (Slots.Lookup(small.slots, key).Some? ==>
                  Slots.Lookup(large.slots, key) == Slots.Lookup(small.slots, key))
            && small.counters.hits <= large.counters.hits
  {
    ListsIncluded(c1, c2, ops);
    TightRun(c1, ops);
    TightRun(c2, ops);
    HitInBoth(c1, c2, ops, key);
    HitsMonotone(c1, c2, ops);
    RunRefinesLru(c1, ops);
    RunRefinesLru(c2, ops);
    var small, large := Run(c1, ops).slots, Run(c2, ops).slots;
    if |small| < c1 {
      assert |small| == |OrdersOf(small)| == |OrdersOf(large)| == |large|;
      assert forall i :: 0 <= i < |small| ==>
               small[i] == Slot(OrdersOf(small)[i], true) && large[i] == Slot(OrdersOf(large)[i], true);
    }
  }
}
