/** Admin lookups one after the other, mixed with consumed messages, on caches of different capacities. */
module ClosedLoop {
  import opened Orders
  import opened Slots
  import opened Tables
  import opened OrderRepository
  import opened Coherence
  import Lru
  import History
  import OrderConsumer
  import OrderHandler

  datatype Demand =
    | Ask(uid: string, readIo: ReadIo)
    | Feed(e: OrderConsumer.Event, writeIo: OrderConsumer.WriteIo, base: nat)

  /** Database, cache, and how many lookups had to ask the database. */
  datatype World = World(db: Database, slots: seq<Slot>, queries: nat)

  function Serve(capacity: int, codec: OrderConsumer.Codec, w: World, d: Demand): World {
    match d
    case Ask(uid, io) =>
      World(w.db,
            OrderHandler.AdminLookup(capacity, w.slots, w.db, OrderHandler.Text("admin"), uid, io).slots,
            w.queries + (if uid != "" && Slots.Lookup(w.slots, uid) == None then 1 else 0))
    case Feed(e, io, base) =>
      var shop := OrderConsumer.ConsumeOne(capacity, codec, OrderConsumer.Shop(w.db, w.slots, 0), e, io, base);
      World(shop.db, shop.slots, w.queries)
  }

  function ServeAll(capacity: int, codec: OrderConsumer.Codec, db: Database, demands: seq<Demand>): World {
    if demands == [] then World(db, [], 0)
    else Serve(capacity, codec, ServeAll(capacity, codec, db, demands[..|demands| - 1]), demands[|demands| - 1])
  }

  // ---------- What the demands mean without any cache ----------

  function Accepted(codec: OrderConsumer.Codec, db: Database, d: Demand): Option<Order> {
    if !d.Feed? || !d.e.Message? then None
    else match codec.Process(d.e.value)
      case None => None
      case Some(o) => if Admissible(db, o) && d.writeIo.Healthy(o) then Some(o) else None
  }

  function DatabaseAfter(codec: OrderConsumer.Codec, db: Database, demands: seq<Demand>): Database {
    if demands == [] then db
    else
      var before := DatabaseAfter(codec, db, demands[..|demands| - 1]);
      var d := demands[|demands| - 1];
      match Accepted(codec, before, d)
      case Some(o) => Inserted(before, o, d.base)
      case None => before
  }

  /** The UIDs in demand: each stored order, and each lookup of an order there is. */
  function Demanded(codec: OrderConsumer.Codec, db: Database, demands: seq<Demand>): seq<string> {
    if demands == [] then []
    else
      var rest, d := demands[..|demands| - 1], demands[|demands| - 1];
      Demanded(codec, db, rest) + Touch(codec, DatabaseAfter(codec, db, rest), d)
  }

  function Touch(codec: OrderConsumer.Codec, db: Database, d: Demand): seq<string> {
    match d
    case Ask(uid, _) =>
      (match ParseUuid(uid)
       case Some(k) => if k in db.orders then [k] else []
       case None => [])
    case Feed(_, _, _) =>
      (match Accepted(codec, db, d)
       case Some(o) => [o.uid]
       case None => [])
  }

  /** The database fails no lookup. */
  ghost predicate Healthy(codec: OrderConsumer.Codec, db: Database, demands: seq<Demand>) {
    demands == [] ||
    var rest, d := demands[..|demands| - 1], demands[|demands| - 1];
    && Healthy(codec, db, rest)
    && (d.Ask? ==> d.readIo.Healthy() && Streams(DatabaseAfter(codec, db, rest), d.uid, d.readIo.rows))
  }

  /** In other words, each lookup is healthy and streams the rows there are at the time. */
  lemma {:induction false} HealthyIff(codec: OrderConsumer.Codec, db: Database, demands: seq<Demand>)
    ensures Healthy(codec, db, demands) <==>
            forall i {:trigger demands[i]} :: 0 <= i < |demands| && demands[i].Ask? ==>
              && demands[i].readIo.Healthy()
              && Streams(DatabaseAfter(codec, db, demands[..i]), demands[i].uid, demands[i].readIo.rows)
  {
    if demands != [] {
      var n := |demands| - 1;
      HealthyIff(codec, db, demands[..n]);
      assert forall i {:trigger demands[i]} :: 0 <= i < n ==>
               demands[..n][i] == demands[i] && demands[..n][..i] == demands[..i];
    }
  }

  // ---------- One demand ----------

  function KeysIn(slots: seq<Slot>): seq<string> {
    History.KeysOf(Lru.OrdersOf(slots))
  }

  ghost predicate Sound(capacity: int, db: Database, slots: seq<Slot>) {
    WellFormed(db) && Lru.Tight(capacity, slots) && Coherent(slots, db)
  }

  lemma SetTouches(capacity: int, slots: seq<Slot>, o: Order, touched: seq<string>)
    requires Lru.Tight(capacity, slots)
    requires KeysIn(slots) == Lru.Take(History.RecentKeys(touched), capacity)
    ensures KeysIn(SetSlots(capacity, slots, o)) == Lru.Take(History.RecentKeys(touched + [o.uid]), capacity)
    ensures Lru.Tight(capacity, SetSlots(capacity, slots, o))
  {
    Lru.SetRefines(capacity, slots, o);
    History.KeysOfSet(capacity, Lru.OrdersOf(slots), o);
    History.RecentKeysDistinct(touched);
    History.TouchThenCut(capacity, History.RecentKeys(touched), o.uid);
    assert (touched + [o.uid])[..|touched|] == touched;
  }

  lemma HitTouches(capacity: int, slots: seq<Slot>, key: string, touched: seq<string>)
    requires Lru.Tight(capacity, slots) && Slots.Lookup(slots, key).Some?
    requires KeysIn(slots) == Lru.Take(History.RecentKeys(touched), capacity)
    ensures KeysIn(GetSlots(slots, key)) == Lru.Take(History.RecentKeys(touched + [key]), capacity)
    ensures Lru.Tight(capacity, GetSlots(slots, key))
  {
    Lru.GetRefines(capacity, slots, key);
    Lru.CachedIsLookup(slots, key);
    History.KeysOfWithout(Lru.OrdersOf(slots), key);
    History.KeysOfGet(Lru.OrdersOf(slots), key);
    History.RecentKeysDistinct(touched);
    History.TouchThenCut(capacity, History.RecentKeys(touched), key);
    assert (touched + [key])[..|touched|] == touched;
  }

  lemma AskServed(capacity: int, db: Database, slots: seq<Slot>, uid: string, io: ReadIo, touched: seq<string>)
    requires Sound(capacity, db, slots) && io.Healthy() && Streams(db, uid, io.rows)
    requires KeysIn(slots) == Lru.Take(History.RecentKeys(touched), capacity)
    ensures var after := OrderHandler.AdminLookup(capacity, slots, db, OrderHandler.Text("admin"), uid, io).slots;
            && Sound(capacity, db, after)
            && KeysIn(after) == Lru.Take(History.RecentKeys(
                 if ParseUuid(uid).Some? && ParseUuid(uid).value in db.orders then touched + [ParseUuid(uid).value]
                 else touched), capacity)
  {
    OrderHandler.AdminLookupIsDirect(capacity, slots, db, OrderHandler.Text("admin"), uid, io);
    NoBrokenJoin(db, uid, None);
    if uid != "" {
      if Slots.Lookup(slots, uid).Some? {
        HitIsLookup(slots, db, uid);
        HitTouches(capacity, slots, uid, touched);
      } else {
        ReadIsLookup(db, uid, None, io);
        var r := ReadOrder(db, uid, None, io);
        if r.Ok? {
          SetTouches(capacity, slots, r.value, touched);
        }
      }
    }
  }

  lemma FeedServed(capacity: int, codec: OrderConsumer.Codec, db: Database, slots: seq<Slot>, d: Demand,
                   touched: seq<string>)
    requires Sound(capacity, db, slots) && codec.ChecksUuid() && d.Feed?
    requires KeysIn(slots) == Lru.Take(History.RecentKeys(touched), capacity)
    ensures var shop := OrderConsumer.Shop(db, slots, 0);
            var after := OrderConsumer.ConsumeOne(capacity, codec, shop, d.e, d.writeIo, d.base);
            && Sound(capacity, after.db, after.slots)
            && after.db == (match Accepted(codec, db, d) case Some(o) => Inserted(db, o, d.base) case None => db)
            && KeysIn(after.slots) == Lru.Take(History.RecentKeys(touched + Touch(codec, db, d)), capacity)
  {
    var shop := OrderConsumer.Shop(db, slots, 0);
    OrderConsumer.ConsumeKeepsCoherent(capacity, codec, shop, d.e, d.writeIo, d.base);
    OrderConsumer.OneEvent(capacity, codec, shop, d.e, d.writeIo, d.base);
    match Accepted(codec, db, d)
    case Some(o) => SetTouches(capacity, slots, o, touched);
    case None => assert touched + [] == touched;
  }

  // ---------- Whole runs ----------

  /**
   * Whatever its capacity, the cache holds the first so many UIDs of one and the same order: that in which
   * they were last demanded. And the database does not notice the cache.
   */
  lemma {:induction false} CacheIsCutDemand(capacity: int, codec: OrderConsumer.Codec, db: Database,
                                            demands: seq<Demand>)
    requires WellFormed(db) && codec.ChecksUuid() && Healthy(codec, db, demands)
    ensures var w := ServeAll(capacity, codec, db, demands);
            && w.db == DatabaseAfter(codec, db, demands)
            && Sound(capacity, w.db, w.slots)
            && KeysIn(w.slots) == Lru.Take(History.RecentKeys(Demanded(codec, db, demands)), capacity)
  {
    hide WellFormed, OrderHandler.AdminLookup, OrderConsumer.ConsumeOne, Admissible, Inserted;
    hide KeysIn, History.RecentKeys, Lru.Take;
    if demands == [] {
      EmptyIsSound(capacity, db);
    } else {
      var rest, d := demands[..|demands| - 1], demands[|demands| - 1];
      CacheIsCutDemand(capacity, codec, db, rest);
      var w := ServeAll(capacity, codec, db, rest);
      var touched := Demanded(codec, db, rest);
      match d
      case Ask(uid, io) =>
        AskServed(capacity, w.db, w.slots, uid, io, touched);
        assert touched + [] == touched;
      case Feed(_, _, _) =>
        FeedServed(capacity, codec, w.db, w.slots, d, touched);
    }
  }

  lemma EmptyIsSound(capacity: int, db: Database)
    requires WellFormed(db)
    ensures Sound(capacity, db, [])
    ensures KeysIn([]) == Lru.Take(History.RecentKeys([]), capacity)
  {
  }

  lemma LookupIsKey(capacity: int, slots: seq<Slot>, key: string)
    requires Lru.Tight(capacity, slots)
    ensures Slots.Lookup(slots, key).Some? <==> key in KeysIn(slots)
  {
    Lru.CachedIsLookup(slots, key);
    History.KeysOfWithout(Lru.OrdersOf(slots), key);
  }

  /** A smaller cache's recency list is a prefix of a larger one's, key by key and with equivalent orders. */
  lemma SmallerIsPrefix(c1: int, c2: int, codec: OrderConsumer.Codec, db: Database, demands: seq<Demand>)
    requires 0 < c1 <= c2 && WellFormed(db) && codec.ChecksUuid() && Healthy(codec, db, demands)
    ensures var small, large := ServeAll(c1, codec, db, demands), ServeAll(c2, codec, db, demands);
            && small.db == large.db
            && |small.slots| == |KeysIn(small.slots)| <= |large.slots|
            && KeysIn(small.slots) == Lru.Take(KeysIn(large.slots), c1)
            && forall i :: 0 <= i < |small.slots| ==> Equivalent(small.slots[i].order, large.slots[i].order)
  {
    CacheIsCutDemand(c1, codec, db, demands);
    CacheIsCutDemand(c2, codec, db, demands);
    CutTwice(History.RecentKeys(Demanded(codec, db, demands)), c1, c2);
    var small, large := ServeAll(c1, codec, db, demands), ServeAll(c2, codec, db, demands);
    forall i | 0 <= i < |small.slots| && i < |large.slots|
      ensures Equivalent(small.slots[i].order, large.slots[i].order)
    {
      SameKeySameOrder(c1, c2, small.db, small.slots, large.slots, i);
    }
  }

  lemma CutTwice(keys: seq<string>, c1: int, c2: int)
    requires c1 <= c2
    ensures Lru.Take(Lru.Take(keys, c2), c1) == Lru.Take(keys, c1)
  {
  }

  lemma SameKeySameOrder(c1: int, c2: int, db: Database, small: seq<Slot>, large: seq<Slot>, i: nat)
    requires Sound(c1, db, small) && Sound(c2, db, large) && i < |small| && i < |large|
    requires KeysIn(small) == Lru.Take(KeysIn(large), c1)
    ensures Equivalent(small[i].order, large[i].order)
  {
    assert KeysIn(small)[i] == KeysIn(large)[i];
    assert Backed(db, small[i].order) && Backed(db, large[i].order);
  }

  /** The lookups, going by the demands alone, of a UID that is not among the first so many of those in demand. */
  function Misses(capacity: int, codec: OrderConsumer.Codec, db: Database, demands: seq<Demand>): nat {
    if demands == [] then 0
    else
      var rest, d := demands[..|demands| - 1], demands[|demands| - 1];
      var cached := Lru.Take(History.RecentKeys(Demanded(codec, db, rest)), capacity);
      Misses(capacity, codec, db, rest) + (if d.Ask? && d.uid != "" && d.uid !in cached then 1 else 0)
  }

  /** These are the lookups that ask the database. */
  lemma {:induction false} QueriesAreMisses(capacity: int, codec: OrderConsumer.Codec, db: Database,
                                            demands: seq<Demand>)
    requires WellFormed(db) && codec.ChecksUuid() && Healthy(codec, db, demands)
    ensures ServeAll(capacity, codec, db, demands).queries == Misses(capacity, codec, db, demands)
  {
    if demands != [] {
      var rest, d := demands[..|demands| - 1], demands[|demands| - 1];
      QueriesAreMisses(capacity, codec, db, rest);
      CacheIsCutDemand(capacity, codec, db, rest);
      if d.Ask? {
        LookupIsKey(capacity, ServeAll(capacity, codec, db, rest).slots, d.uid);
      }
    }
  }

  /** So a larger cache never asks the database more often. */
  lemma {:induction false} QueriesFallWithCapacity(c1: int, c2: int, codec: OrderConsumer.Codec, db: Database,
                                                   demands: seq<Demand>)
    requires 0 < c1 <= c2 && WellFormed(db) && codec.ChecksUuid() && Healthy(codec, db, demands)
    ensures ServeAll(c2, codec, db, demands).queries <= ServeAll(c1, codec, db, demands).queries
  {
    if demands != [] {
      var rest, d := demands[..|demands| - 1], demands[|demands| - 1];
      QueriesFallWithCapacity(c1, c2, codec, db, rest);
      if d.Ask? {
        SmallerIsPrefix(c1, c2, codec, db, rest);
        CacheIsCutDemand(c1, codec, db, rest);
        CacheIsCutDemand(c2, codec, db, rest);
        LookupIsKey(c1, ServeAll(c1, codec, db, rest).slots, d.uid);
        LookupIsKey(c2, ServeAll(c2, codec, db, rest).slots, d.uid);
      }
    }
  }
}
