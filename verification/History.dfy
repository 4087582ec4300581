/** Which keys a cache holds after a Delete-free run, read off the history of operations alone. */
module History {
  import opened Orders
  import opened Slots
  import opened Lru
  import DeleteRuns

  /** The keys touched since the last touch of the given one. */
  function Newer(touched: seq<string>, key: string): set<string> {
    if touched == [] || touched[|touched| - 1] == key then {}
    else Newer(touched[..|touched| - 1], key) + {touched[|touched| - 1]}
  }

  /** The key has been touched, and fewer than capacity other keys have been touched since. */
  predicate InWindow(capacity: int, touched: seq<string>, key: string) {
    key in touched && |Newer(touched, key)| < capacity
  }

  /** The keys touched by a run: every Set, and every Get of a key still in the window. */
  function Touched(capacity: int, ops: seq<Op>): seq<string> {
    if ops == [] then []
    else
      var before := Touched(capacity, ops[..|ops| - 1]);
      match ops[|ops| - 1]
      case Set(o) => before + [o.uid]
      case Get(k) => if InWindow(capacity, before, k) then before + [k] else before
      case Delete(_) => before
  }

  // ---------- The unbounded last-touch order ----------

  function WithoutKey(keys: seq<string>, key: string): seq<string> {
    if keys == [] then []
    else if keys[0] == key then WithoutKey(keys[1..], key)
    else [keys[0]] + WithoutKey(keys[1..], key)
  }

  /** Each touched key once, the most recently touched first. */
  function RecentKeys(touched: seq<string>): seq<string> {
    if touched == [] then []
    else
      var k := touched[|touched| - 1];
      [k] + WithoutKey(RecentKeys(touched[..|touched| - 1]), k)
  }

  ghost predicate Distinct(keys: seq<string>) {
    forall i, j :: 0 <= i < j < |keys| ==> keys[i] != keys[j]
  }

  lemma {:induction false} WithoutKeyConcat(a: seq<string>, b: seq<string>, key: string)
    ensures WithoutKey(a + b, key) == WithoutKey(a, key) + WithoutKey(b, key)
  {
    if a == [] {
      assert a + b == b;
    } else {
      assert (a + b)[1..] == a[1..] + b;
      WithoutKeyConcat(a[1..], b, key);
    }
  }

  lemma {:induction false} WithoutKeyFacts(keys: seq<string>, key: string)
    ensures forall k :: k in WithoutKey(keys, key) <==> k in keys && k != key
    ensures Distinct(keys) ==>
              && Distinct(WithoutKey(keys, key))
              && |WithoutKey(keys, key)| == |keys| - (if key in keys then 1 else 0)
  {
    if keys != [] {
      assert keys == [keys[0]] + keys[1..];
      WithoutKeyFacts(keys[1..], key);
      if Distinct(keys) {
        assert Distinct(keys[1..]);
        assert keys[0] !in keys[1..];
      }
    }
  }

  lemma {:induction false} RecentKeysDistinct(touched: seq<string>)
    ensures Distinct(RecentKeys(touched))
    ensures forall k :: k in RecentKeys(touched) <==> k in touched
  {
    if touched != [] {
      var before, k := touched[..|touched| - 1], touched[|touched| - 1];
      assert touched == before + [k];
      RecentKeysDistinct(before);
      WithoutKeyFacts(RecentKeys(before), k);
    }
  }

  lemma SplitStep(n: seq<string>, key: string, o: seq<string>, last: string)
    requires key != last
    ensures [last] + WithoutKey(n + [key] + o, last) ==
            ([last] + WithoutKey(n, last)) + [key] + WithoutKey(o, last)
  {
    WithoutKeyConcat(n + [key], o, last);
    WithoutKeyConcat(n, [key], last);
  }

  lemma DistinctPrefix(a: seq<string>, b: seq<string>)
    requires Distinct(a + b)
    ensures Distinct(a)
  {
    assert forall i :: 0 <= i < |a| ==> a[i] == (a + b)[i];
  }

  /** The keys ahead of a key in the last-touch order are those touched since it was. */
  lemma {:induction false} RecentSplit(touched: seq<string>, key: string)
    returns (newer: seq<string>, older: seq<string>)
    requires key in touched
    ensures RecentKeys(touched) == newer + [key] + older
    ensures Newer(touched, key) == set k | k in newer
    ensures |Newer(touched, key)| == |newer|
  {
    var before, last := touched[..|touched| - 1], touched[|touched| - 1];
    assert touched == before + [last];
    if last == key {
      newer, older := [], WithoutKey(RecentKeys(before), last);
    } else {
      var n, o := RecentSplit(before, key);
      newer, older := [last] + WithoutKey(n, last), WithoutKey(o, last);
      SplitStep(n, key, o, last);
      RecentKeysDistinct(before);
      assert RecentKeys(before) == n + ([key] + o);
      DistinctPrefix(n, [key] + o);
      SetOfNewer(n, last, Newer(before, key), newer);
    }
  }

  lemma SetOfNewer(n: seq<string>, last: string, since: set<string>, newer: seq<string>)
    requires since == (set k | k in n) && |since| == |n| && Distinct(n)
    requires newer == [last] + WithoutKey(n, last)
    ensures since + {last} == (set k | k in newer) && |since + {last}| == |newer|
  {
    WithoutKeyFacts(n, last);
  }

  lemma InWindowIsPrefix(capacity: int, touched: seq<string>, key: string)
    ensures InWindow(capacity, touched, key) <==> key in Take(RecentKeys(touched), capacity)
  {
    RecentKeysDistinct(touched);
    if key in touched {
      var newer, older := RecentSplit(touched, key);
      var all := RecentKeys(touched);
      assert all[|newer|] == key;
      if |newer| < capacity {
        assert Take(all, capacity)[|newer|] == key;
      }
    }
  }

  /** Touching a key on the cut list is touching it on the uncut one and cutting again. */
  lemma TouchThenCut(capacity: int, keys: seq<string>, key: string)
    requires Distinct(keys)
    ensures Take([key] + WithoutKey(Take(keys, capacity), key), capacity) ==
            Take([key] + WithoutKey(keys, key), capacity)
    ensures key in Take(keys, capacity) ==> |[key] + WithoutKey(Take(keys, capacity), key)| <= capacity
  {
    if 0 < capacity {
      var cut := Take(keys, capacity);
      var rest := keys[|cut|..];
      assert keys == cut + rest;
      WithoutKeyConcat(cut, rest, key);
      WithoutKeyFacts(cut, key);
      assert rest != [] ==> |WithoutKey(cut, key)| >= capacity - 1;
    }
  }

  // ---------- The cache is a window on the last-touch order ----------

  function KeysOf(list: seq<Order>): seq<string> {
    seq(|list|, i requires 0 <= i < |list| => list[i].uid)
  }

  lemma {:induction false} KeysOfWithout(list: seq<Order>, key: string)
    ensures KeysOf(Without(list, key)) == WithoutKey(KeysOf(list), key)
    ensures Cached(list, key).Some? <==> key in KeysOf(list)
    ensures Cached(list, key).Some? ==> Cached(list, key).value.uid == key
  {
    if list != [] {
      assert KeysOf(list) == [list[0].uid] + KeysOf(list[1..]);
      KeysOfWithout(list[1..], key);
      if list[0].uid != key {
        assert KeysOf(Without(list, key)) == [list[0].uid] + KeysOf(Without(list[1..], key));
      }
    }
  }

  lemma KeysOfSet(capacity: int, list: seq<Order>, o: Order)
    ensures KeysOf(LruSet(capacity, list, o)) == Take([o.uid] + WithoutKey(KeysOf(list), o.uid), capacity)
  {
    KeysOfWithout(list, o.uid);
    assert KeysOf([o] + Without(list, o.uid)) == [o.uid] + KeysOf(Without(list, o.uid));
  }

  lemma KeysOfGet(list: seq<Order>, key: string)
    requires key in KeysOf(list)
    ensures KeysOf(LruGet(list, key)) == [key] + WithoutKey(KeysOf(list), key)
  {
    KeysOfWithout(list, key);
    assert KeysOf([Cached(list, key).value] + Without(list, key)) == [key] + KeysOf(Without(list, key));
  }

  /** The recency list is the last-touch order of everything ever touched, cut to the capacity. */
  lemma {:induction false} RunIsWindow(capacity: int, ops: seq<Op>)
    requires NoDelete(ops)
    ensures KeysOf(LruRun(capacity, ops)) == Take(RecentKeys(Touched(capacity, ops)), capacity)
  {
    if ops != [] {
      var before, op := ops[..|ops| - 1], ops[|ops| - 1];
      var list, touched := LruRun(capacity, before), Touched(capacity, before);
      RunIsWindow(capacity, before);
      RecentKeysDistinct(touched);
      if op.Set? {
        assert (touched + [op.order.uid])[..|touched|] == touched;
        TouchThenCut(capacity, RecentKeys(touched), op.order.uid);
        KeysOfSet(capacity, list, op.order);
      } else if InWindow(capacity, touched, op.key) {
        assert (touched + [op.key])[..|touched|] == touched;
        InWindowIsPrefix(capacity, touched, op.key);
        TouchThenCut(capacity, RecentKeys(touched), op.key);
        KeysOfGet(list, op.key);
      } else {
        InWindowIsPrefix(capacity, touched, op.key);
        KeysOfWithout(list, op.key);
      }
    }
  }

  /**
   * A key is cached exactly when it has been touched and fewer than capacity other keys have been touched
   * since; and what is cached under it is the order last set under it.
   */
  lemma CachedIffInWindow(capacity: int, ops: seq<Op>, key: string)
    requires NoDelete(ops)
    ensures var found := Slots.Lookup(Run(capacity, ops).slots, key);
            && (found.Some? <==> InWindow(capacity, Touched(capacity, ops), key))
            && (found.Some? ==> found == DeleteRuns.LatestSet(ops, key))
  {
    RunRefinesLru(capacity, ops);
    CachedIsLookup(Run(capacity, ops).slots, key);
    KeysOfWithout(LruRun(capacity, ops), key);
    RunIsWindow(capacity, ops);
    InWindowIsPrefix(capacity, Touched(capacity, ops), key);
    DeleteRuns.HitsReturnLatestSet(capacity, ops, key);
  }

  /** How many Get calls asked for a key in the window of what was touched before them. */
  function WindowGets(capacity: int, ops: seq<Op>): nat {
    if ops == [] then 0
    else
      var before, op := ops[..|ops| - 1], ops[|ops| - 1];
      WindowGets(capacity, before) + (if op.Get? && InWindow(capacity, Touched(capacity, before), op.key) then 1 else 0)
  }

  /** The hit counter can be read off the history. */
  lemma {:induction false} HitsAreWindowGets(capacity: int, ops: seq<Op>)
    requires NoDelete(ops)
    ensures Run(capacity, ops).counters.hits == WindowGets(capacity, ops)
    ensures Run(capacity, ops).counters.misses == DeleteRuns.Gets(ops) - WindowGets(capacity, ops)
  {
    hide InWindow, Touched;
    if ops != [] {
      var before, op := ops[..|ops| - 1], ops[|ops| - 1];
      HitsAreWindowGets(capacity, before);
      if op.Get? {
        CachedIffInWindow(capacity, before, op.key);
      }
    }
  }
}
