/** The query for the most recent orders: ORDER BY date_created DESC LIMIT n over rows in any arrangement. */
module Recent {
  import opened Orders
  import opened Tables

  function Date(db: Database, k: string): int {
    if k in db.orders then db.orders[k].dateCreated else 0
  }

  /** Some arrangement of the keys of the orders table. Which one decides how the query breaks ties. */
  predicate Arranges(db: Database, heap: seq<string>) {
    multiset(heap) == multiset(db.orders.Keys)
  }

  function Place(db: Database, k: string, sorted: seq<string>): seq<string> {
    if sorted == [] || Date(db, sorted[0]) <= Date(db, k) then [k] + sorted
    else [sorted[0]] + Place(db, k, sorted[1..])
  }

  function NewestFirst(db: Database, heap: seq<string>): seq<string> {
    if heap == [] then [] else Place(db, heap[0], NewestFirst(db, heap[1..]))
  }

  function Newest(db: Database, heap: seq<string>, limit: nat): seq<string> {
    var sorted := NewestFirst(db, heap);
    if limit < |sorted| then sorted[..limit] else sorted
  }

  /** A list of distinct stored UIDs, as many as the limit allows, newest first, none left out newer than one listed. */
  ghost predicate IsRecent(db: Database, limit: nat, uids: seq<string>) {
    && (forall i, j :: 0 <= i < j < |uids| ==> uids[i] != uids[j])
    && (forall i :: 0 <= i < |uids| ==> uids[i] in db.orders)
    && |uids| == (if limit < |db.orders| then limit else |db.orders|)
    && (forall i, j :: 0 <= i < j < |uids| ==>
          db.orders[uids[j]].dateCreated <= db.orders[uids[i]].dateCreated)
    && (forall k, i :: k in db.orders && k !in uids && 0 <= i < |uids| ==>
          db.orders[k].dateCreated <= db.orders[uids[i]].dateCreated)
  }

  ghost predicate Descending(db: Database, keys: seq<string>) {
    forall i, j :: 0 <= i < j < |keys| ==> Date(db, keys[j]) <= Date(db, keys[i])
  }

  lemma DescendingCons(db: Database, k: string, rest: seq<string>)
    requires Descending(db, rest) && forall x :: x in rest ==> Date(db, x) <= Date(db, k)
    ensures Descending(db, [k] + rest)
  {
    assert forall i :: 0 <= i < |rest| ==> rest[i] in rest;
  }

  lemma {:induction false} PlaceKeeps(db: Database, k: string, sorted: seq<string>)
    requires Descending(db, sorted)
    ensures Descending(db, Place(db, k, sorted))
    ensures multiset(Place(db, k, sorted)) == multiset{k} + multiset(sorted)
  {
    if sorted == [] || Date(db, sorted[0]) <= Date(db, k) {
      DescendingCons(db, k, sorted);
    } else {
      var rest := Place(db, k, sorted[1..]);
      PlaceKeeps(db, k, sorted[1..]);
      assert sorted == [sorted[0]] + sorted[1..];
      forall x | x in rest ensures Date(db, x) <= Date(db, sorted[0]) {
        assert x in multiset(rest);
        assert x == k || x in sorted[1..];
      }
      DescendingCons(db, sorted[0], rest);
    }
  }

  lemma {:induction false} NewestFirstSorts(db: Database, heap: seq<string>)
    ensures Descending(db, NewestFirst(db, heap))
    ensures multiset(NewestFirst(db, heap)) == multiset(heap)
  {
    if heap != [] {
      assert heap == [heap[0]] + heap[1..];
      NewestFirstSorts(db, heap[1..]);
      PlaceKeeps(db, heap[0], NewestFirst(db, heap[1..]));
    }
  }

  lemma NoRepeats(keys: seq<string>, i: nat, j: nat)
    requires i < j < |keys| && keys[i] == keys[j]
    ensures multiset(keys)[keys[i]] >= 2
  {
    assert keys == keys[..j] + keys[j..];
    assert multiset(keys) == multiset(keys[..j]) + multiset(keys[j..]);
    assert keys[i] == keys[..j][i] && keys[j] == keys[j..][0];
    assert keys[i] in multiset(keys[..j]) && keys[i] in multiset(keys[j..]);
  }

  lemma SortedKeys(db: Database, heap: seq<string>)
    requires Arranges(db, heap)
    ensures var sorted := NewestFirst(db, heap);
            && |sorted| == |db.orders|
            && (forall k :: k in sorted <==> k in db.orders)
            && (forall i, j :: 0 <= i < j < |sorted| ==> sorted[i] != sorted[j])
  {
    var sorted := NewestFirst(db, heap);
    NewestFirstSorts(db, heap);
    assert |sorted| == |multiset(sorted)| == |db.orders.Keys| == |db.orders|;
    forall k ensures k in sorted <==> k in db.orders {
      assert k in sorted <==> k in multiset(sorted);
    }
    forall i, j | 0 <= i < j < |sorted| ensures sorted[i] != sorted[j] {
      if sorted[i] == sorted[j] {
        NoRepeats(sorted, i, j);
      }
    }
  }

  lemma LeftOutIsLater(sorted: seq<string>, n: nat, k: string) returns (j: nat)
    requires n <= |sorted| && k in sorted && k !in sorted[..n]
    ensures n <= j < |sorted| && sorted[j] == k
  {
    assert sorted == sorted[..n] + sorted[n..];
    var i :| 0 <= i < |sorted[n..]| && sorted[n..][i] == k;
    j := n + i;
  }

  lemma CutIsRecent(db: Database, sorted: seq<string>, limit: nat, n: nat)
    requires n == (if limit < |sorted| then limit else |sorted|) && |sorted| == |db.orders| && Descending(db, sorted)
    requires forall k :: k in sorted <==> k in db.orders
    requires forall i, j :: 0 <= i < j < |sorted| ==> sorted[i] != sorted[j]
    ensures IsRecent(db, limit, sorted[..n])
  {
    var uids := sorted[..n];
    assert forall i :: 0 <= i < n ==> uids[i] == sorted[i] && sorted[i] in sorted;
    forall k, i | k in db.orders && k !in uids && 0 <= i < n ensures Date(db, k) <= Date(db, uids[i]) {
      var j := LeftOutIsLater(sorted, n, k);
      assert Date(db, sorted[j]) <= Date(db, sorted[i]);
    }
  }

  /** However the rows are arranged, what the query returns is a list of the most recent orders. */
  lemma NewestIsRecent(db: Database, heap: seq<string>, limit: nat)
    requires Arranges(db, heap)
    ensures IsRecent(db, limit, Newest(db, heap, limit))
  {
    var sorted := NewestFirst(db, heap);
    NewestFirstSorts(db, heap);
    SortedKeys(db, heap);
    CutIsRecent(db, sorted, limit, if limit < |sorted| then limit else |sorted|);
    hide IsRecent, Descending, Arranges, NewestFirst;
    assert sorted[..|sorted|] == sorted;
  }

  lemma PlacedFirst(db: Database, k: string, sorted: seq<string>)
    requires forall x :: x in sorted ==> Date(db, x) <= Date(db, k)
    ensures Place(db, k, sorted) == [k] + sorted
  {
    if sorted != [] {
      assert sorted[0] in sorted;
    }
  }

  /** No key of rest is newer than a key of uids. */
  ghost predicate Above(db: Database, uids: seq<string>, rest: seq<string>) {
    forall u, k :: u in uids && k in rest ==> Date(db, k) <= Date(db, u)
  }

  lemma {:induction false} PlacedInFront(db: Database, uids: seq<string>, rest: seq<string>)
    requires Descending(db, uids) && Above(db, uids, rest)
    ensures NewestFirst(db, uids + rest) == uids + NewestFirst(db, rest)
  {
    if uids == [] {
      assert uids + rest == rest;
    } else {
      var tail := uids[1..];
      var sorted := tail + NewestFirst(db, rest);
      assert (uids + rest)[1..] == tail + rest;
      assert Above(db, tail, rest);
      PlacedInFront(db, tail, rest);
      RestIsBelow(db, uids, rest);
      hide Descending, Above;
      PlacedFirst(db, uids[0], sorted);
      hide Place;
      assert NewestFirst(db, uids + rest) == Place(db, uids[0], sorted);
      assert uids + NewestFirst(db, rest) == [uids[0]] + sorted;
    }
  }

  lemma RestIsBelow(db: Database, uids: seq<string>, rest: seq<string>)
    requires uids != [] && Descending(db, uids) && Above(db, uids, rest)
    ensures forall x :: x in uids[1..] + NewestFirst(db, rest) ==> Date(db, x) <= Date(db, uids[0])
  {
    NewestFirstSorts(db, rest);
    hide NewestFirst;
    assert uids[0] in uids;
    forall x | x in NewestFirst(db, rest) ensures Date(db, x) <= Date(db, uids[0]) {
      assert x in multiset(NewestFirst(db, rest));
    }
  }

  ghost function Arranged(keys: set<string>): (heap: seq<string>)
    ensures multiset(heap) == multiset(keys)
  {
    if keys == {} then []
    else
      var k :| k in keys;
      assert multiset(keys) == multiset{k} + multiset(keys - {k});
      [k] + Arranged(keys - {k})
  }

  lemma {:induction false} DistinctIsSet(keys: seq<string>)
    requires forall i, j :: 0 <= i < j < |keys| ==> keys[i] != keys[j]
    ensures multiset(keys) == multiset(set k | k in keys)
    ensures |set k | k in keys| == |keys|
  {
    if keys != [] {
      var rest := keys[1..];
      DistinctIsSet(rest);
      assert keys == [keys[0]] + rest;
      assert keys[0] !in rest;
      assert (set k | k in keys) == {keys[0]} + set k | k in rest;
    }
  }

  lemma ListedIsAbove(db: Database, limit: nat, uids: seq<string>, rest: seq<string>)
    requires IsRecent(db, limit, uids) && forall k :: k in rest ==> k in db.orders && k !in uids
    ensures Descending(db, uids) && Above(db, uids, rest)
  {
  }

  /** And every such list is what the query returns for some arrangement of the rows. */
  lemma EveryRecentListIsPossible(db: Database, limit: nat, uids: seq<string>) returns (heap: seq<string>)
    requires IsRecent(db, limit, uids)
    ensures Arranges(db, heap) && Newest(db, heap, limit) == uids
  {
    var listed := set k | k in uids;
    var rest := Arranged(db.orders.Keys - listed);
    heap := uids + rest;
    DistinctIsSet(uids);
    assert multiset(db.orders.Keys) == multiset(listed) + multiset(db.orders.Keys - listed);
    assert |db.orders.Keys - listed| == |db.orders.Keys| - |listed|;
    assert |rest| == |multiset(rest)| == |db.orders| - |uids|;
    forall k | k in rest ensures k in db.orders && k !in uids {
      assert k in multiset(rest);
    }
    ListedIsAbove(db, limit, uids, rest);
    hide IsRecent, Descending, Above;
    PlacedInFront(db, uids, rest);
    NewestFirstSorts(db, rest);
    assert |NewestFirst(db, rest)| == |multiset(NewestFirst(db, rest))| == |rest|;
  }
}
