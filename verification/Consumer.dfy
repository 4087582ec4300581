/** The event loop that stores orders read from a log, and what it amounts to as a fold over the log. */
module OrderConsumer {
  import opened Orders
  import opened Slots
  import opened Tables
  import opened OrderRepository
  import opened Coherence
  import LruCache

  type Bytes = seq<bv8>

  datatype ReadError = Canceled | DeadlineExceeded | OtherError

  /** What one call of ReadMessage returns. */
  datatype Event = ReadFails(error: ReadError) | Message(value: Bytes)

  predicate IsShutdown(e: Event) {
    e == ReadFails(Canceled) || e == ReadFails(DeadlineExceeded)
  }

  /** How the database treats one attempt to store an order. */
  datatype WriteIo = WriteIo(checkFails: bool, fails: nat -> bool)
  {
    predicate Healthy(o: Order) {
      !checkFails && forall i: nat :: i < |o.items| + 5 ==> !fails(i)
    }
  }

  /** JSON decoding and struct validation, both library code. */
  datatype Codec = Codec(unmarshal: Bytes -> Option<Order>, validate: Order -> bool)
  {
    function Process(value: Bytes): Option<Order> {
      match unmarshal(value)
      case None => None
      case Some(o) => if validate(o) then Some(o) else None
    }

    /** The uuid4 rule of the validator admits the lower-case spelling only. */
    ghost predicate ChecksUuid() {
      forall o {:trigger validate(o)} :: validate(o) ==> IsCanonical(o.uid)
    }
  }

  /** Everything the consumer changes. */
  datatype Shop = Shop(db: Database, slots: seq<Slot>, processed: nat)

  function ConsumeOne(capacity: int, codec: Codec, shop: Shop, e: Event, io: WriteIo, base: nat): Shop {
    match e
    case ReadFails(_) => shop
    case Message(value) =>
      match codec.Process(value)
      case None => shop
      case Some(o) =>
        if Admissible(shop.db, o) && io.Healthy(o) then
          Shop(Inserted(shop.db, o, base), SetSlots(capacity, shop.slots, o), shop.processed + 1)
        else shop
  }

  function ConsumeAll(capacity: int, codec: Codec, shop: Shop, events: seq<Event>, ios: seq<WriteIo>,
                      bases: seq<nat>): Shop
    requires |ios| == |bases| == |events|
  {
    if events == [] then shop
    else
      var n := |events| - 1;
      ConsumeOne(capacity, codec, ConsumeAll(capacity, codec, shop, events[..n], ios[..n], bases[..n]),
                 events[n], ios[n], bases[n])
  }

  class Consumer {
    const repo: Repository
    const cache: LruCache.Cache
    const metrics: LruCache.Metrics?
    const codec: Codec

    constructor (repo: Repository, cache: LruCache.Cache, metrics: LruCache.Metrics?, codec: Codec)
      ensures this.repo == repo && this.cache == cache && this.metrics == metrics && this.codec == codec
    {
      this.repo, this.cache, this.metrics, this.codec := repo, cache, metrics, codec;
    }

    method ProcessMessage(value: Bytes) returns (order: Option<Order>)
      ensures order.Some? <==> codec.unmarshal(value).Some? && codec.validate(codec.unmarshal(value).value)
      ensures order.Some? ==> order == codec.unmarshal(value)
    {
      var decoded := codec.unmarshal(value);
      if decoded == None || !codec.validate(decoded.value) {
        return None;
      }
      return decoded;
    }

    /**
     * Read until a read reports cancellation or a deadline. The events are those seen so far, so the method
     * also returns when they run out, where the program would wait for more.
     */
    method Consume(events: seq<Event>, ios: seq<WriteIo>) returns (taken: nat, ghost bases: seq<nat>)
      requires repo.Valid() && cache.Valid() && |ios| == |events|
      modifies repo, cache, cache.repr, cache.metrics, metrics
      ensures repo.Valid() && cache.Valid() && fresh(cache.repr - old(cache.repr))
      ensures taken <= |events|
      ensures taken < |events| ==> events[taken] in {ReadFails(Canceled), ReadFails(DeadlineExceeded)}
      ensures forall i :: 0 <= i < taken ==> events[i] !in {ReadFails(Canceled), ReadFails(DeadlineExceeded)}
      ensures |bases| == taken
      ensures var before := Shop(old(repo.db), old(cache.slots), 0);
              var after := ConsumeAll(cache.capacity, codec, before, events[..taken], ios[..taken], bases);
              && repo.db == after.db
              && cache.slots == after.slots
              && (metrics != null ==> metrics.ordersProcessed == old(metrics.ordersProcessed) + after.processed)
    {
      hide LruCache.Cache.Linked, LruCache.Cache.Labelled, LruCache.Cache.Mapped;
      ghost var before := Shop(repo.db, cache.slots, 0);
      ghost var shop := before;
      taken, bases := 0, [];
      while taken < |events|
        invariant repo.Valid() && cache.Valid() && fresh(cache.repr - old(cache.repr))
        invariant taken <= |events| && |bases| == taken
        invariant forall i :: 0 <= i < taken ==> events[i] !in {ReadFails(Canceled), ReadFails(DeadlineExceeded)}
        invariant shop == ConsumeAll(cache.capacity, codec, before, events[..taken], ios[..taken], bases)
        invariant repo.db == shop.db && cache.slots == shop.slots
        invariant metrics != null ==> metrics.ordersProcessed == old(metrics.ordersProcessed) + shop.processed
      {
        if IsShutdown(events[taken]) {
          return;
        }
        ghost var base := repo.nextItem;
        OneMoreEvent(cache.capacity, codec, before, events, ios, bases, base, taken);
        shop := ConsumeOne(cache.capacity, codec, shop, events[taken], ios[taken], base);
        bases := bases + [base];
        Handle(events[taken], ios[taken]);
        taken := taken + 1;
      }
    }

    /** The body of the loop, for an event that does not end it. */
    method Handle(e: Event, io: WriteIo)
      requires repo.Valid() && cache.Valid()
      modifies repo, cache, cache.repr, cache.metrics, metrics
      ensures repo.Valid() && cache.Valid() && fresh(cache.repr - old(cache.repr))
      ensures var before := Shop(old(repo.db), old(cache.slots), 0);
              var after := ConsumeOne(cache.capacity, codec, before, e, io, old(repo.nextItem));
              && repo.db == after.db
              && cache.slots == after.slots
              && (metrics != null ==> metrics.ordersProcessed == old(metrics.ordersProcessed) + after.processed)
    {
      hide LruCache.Cache.Linked, LruCache.Cache.Labelled, LruCache.Cache.Mapped;
      if e.ReadFails? {
        return;
      }
      var order := ProcessMessage(e.value);
      if order == None {
        return;
      }
      var r := repo.AddOrderIfNotExists(order.value, io.checkFails, io.fails);
      if r == Added {
        cache.Set(order);
        if metrics != null {
          metrics.ordersProcessed := metrics.ordersProcessed + 1;
        }
      }
    }

    static lemma OneMoreEvent(capacity: int, codec: Codec, shop: Shop, events: seq<Event>, ios: seq<WriteIo>,
                              bases: seq<nat>, base: nat, n: nat)
      requires n < |events| == |ios| && |bases| == n
      ensures ConsumeAll(capacity, codec, shop, events[..n + 1], ios[..n + 1], bases + [base]) ==
              ConsumeOne(capacity, codec, ConsumeAll(capacity, codec, shop, events[..n], ios[..n], bases),
                         events[n], ios[n], base)
    {
      assert events[..n + 1][..n] == events[..n];
      assert ios[..n + 1][..n] == ios[..n];
      assert (bases + [base])[..n] == bases;
    }
  }

  // ---------- The consumer as a fold ----------

  /** The order a message stands for if it parses, validates and fits the schema. */
  function Storing(codec: Codec, e: Event): (o: Option<Order>)
    ensures o.Some? ==> Storable(o.value) && ParseUuid(o.value.uid).Some?
  {
    if !e.Message? then None
    else match codec.Process(e.value)
      case None => None
      case Some(o) => if Storable(o) then Some(o) else None
  }

  /** The first order in a log that can be stored under a UID. */
  function FirstStorable(codec: Codec, events: seq<Event>, k: string): (first: Option<Order>)
    ensures first.Some? ==> Storable(first.value) && ParseUuid(first.value.uid) == Some(k)
  {
    if events == [] then None
    else
      var n := |events| - 1;
      var first := FirstStorable(codec, events[..n], k);
      if first.Some? then first
      else match Storing(codec, events[n])
        case Some(o) => if ParseUuid(o.uid) == Some(k) then Some(o) else None
        case None => None
  }

  /** The database has no failures of its own: it only rejects what the schema forbids. */
  ghost predicate AllHealthy(ios: seq<WriteIo>) {
    forall i, o :: 0 <= i < |ios| ==> ios[i].Healthy(o)
  }

  lemma NothingFails(n: nat)
    ensures AllHealthy(seq(n, _ => WriteIo(false, (i: nat) => false)))
  {
  }

  lemma OneInsert(db: Database, o: Order, base: nat)
    requires WellFormed(db) && Admissible(db, o)
    ensures var after := Inserted(db, o, base);
            WellFormed(after) && Grows(db, after) && |after.orders| == |db.orders| + 1
  {
    InsertedIsLater(db, o, base);
    OneMoreKey(db.orders, ParseUuid(o.uid).value, RowOfOrder(o));
  }

  lemma OneEvent(capacity: int, codec: Codec, shop: Shop, e: Event, io: WriteIo, base: nat)
    requires WellFormed(shop.db)
    ensures var after := ConsumeOne(capacity, codec, shop, e, io, base);
            WellFormed(after.db) && Grows(shop.db, after.db)
            && |after.db.orders| - |shop.db.orders| == after.processed - shop.processed
  {
    hide WellFormed, Grows, Inserted, Admissible, SetSlots;
    GrowsReflexive(shop.db);
    if e.Message? && codec.Process(e.value).Some? && Admissible(shop.db, codec.Process(e.value).value) {
      OneInsert(shop.db, codec.Process(e.value).value, base);
    }
  }

  /** OrdersProcessed counts the growth of the orders table, whatever the database fails. */
  lemma {:induction false} ProcessedIsGrowth(capacity: int, codec: Codec, shop: Shop, events: seq<Event>,
                                             ios: seq<WriteIo>, bases: seq<nat>)
    requires WellFormed(shop.db) && |ios| == |bases| == |events|
    ensures var after := ConsumeAll(capacity, codec, shop, events, ios, bases);
            && WellFormed(after.db) && Grows(shop.db, after.db)
            && after.processed - shop.processed == |after.db.orders| - |shop.db.orders|
  {
    if events != [] {
      var n := |events| - 1;
      var before := ConsumeAll(capacity, codec, shop, events[..n], ios[..n], bases[..n]);
      ProcessedIsGrowth(capacity, codec, shop, events[..n], ios[..n], bases[..n]);
      OneEvent(capacity, codec, before, events[n], ios[n], bases[n]);
      GrowsTransitive(shop.db, before.db, ConsumeOne(capacity, codec, before, events[n], ios[n], bases[n]).db);
    }
  }

  /** What a client may expect to be told about a UID after a log, going by the log alone. */
  function Expected(db: Database, codec: Codec, events: seq<Event>, k: string): Outcome<Order> {
    if k in db.orders then Tables.Lookup(db, k, None)
    else match FirstStorable(codec, events, k)
      case Some(o) => Ok(Stored(o))
      case None => NoRows
  }

  /**
   * With a database that only rejects what the schema forbids, the log leaves the old orders as they were
   * and adds, for each new UID, the first order in the log that can be stored under it, and nothing else.
   */
  lemma {:induction false} FirstOccurrenceWins(capacity: int, codec: Codec, shop: Shop, events: seq<Event>,
                                               ios: seq<WriteIo>, bases: seq<nat>, k: string)
    requires WellFormed(shop.db) && |ios| == |bases| == |events| && AllHealthy(ios) && IsCanonical(k)
    ensures Tables.Lookup(ConsumeAll(capacity, codec, shop, events, ios, bases).db, k, None) ==
            Expected(shop.db, codec, events, k)
  {
    hide Tables.Lookup, WellFormed, ConsumeOne, Expected;
    if events == [] {
      ExpectedOfNothing(shop.db, codec, k);
    } else {
      var n := |events| - 1;
      var before := ConsumeAll(capacity, codec, shop, events[..n], ios[..n], bases[..n]);
      ProcessedIsGrowth(capacity, codec, shop, events[..n], ios[..n], bases[..n]);
      HealthyPrefix(ios, n);
      FirstOccurrenceWins(capacity, codec, shop, events[..n], ios[..n], bases[..n], k);
      OneStored(capacity, codec, before, events[n], ios[n], bases[n], k);
      ExpectedOfOneMore(shop.db, codec, events, k);
    }
  }

  lemma ExpectedOfNothing(db: Database, codec: Codec, k: string)
    requires WellFormed(db) && IsCanonical(k)
    ensures Expected(db, codec, [], k) == Tables.Lookup(db, k, None)
  {
    NoBrokenJoin(db, k, None);
  }

  lemma ExpectedOfOneMore(db: Database, codec: Codec, events: seq<Event>, k: string)
    requires WellFormed(db) && IsCanonical(k) && events != []
    ensures var before := Expected(db, codec, events[..|events| - 1], k);
            var o := Storing(codec, events[|events| - 1]);
            Expected(db, codec, events, k) ==
            if before == NoRows && o.Some? && ParseUuid(o.value.uid) == Some(k) then Ok(Stored(o.value)) else before
  {
    NoBrokenJoin(db, k, None);
  }

  lemma HealthyPrefix(ios: seq<WriteIo>, n: nat)
    requires AllHealthy(ios) && n < |ios|
    ensures AllHealthy(ios[..n])
    ensures forall o :: ios[n].Healthy(o)
  {
    assert forall i :: 0 <= i < n ==> ios[..n][i] == ios[i];
  }

  /** One event: an order that can be stored is stored if its UID is free; every other answer stays. */
  lemma OneStored(capacity: int, codec: Codec, shop: Shop, e: Event, io: WriteIo, base: nat, k: string)
    requires WellFormed(shop.db) && IsCanonical(k) && forall o :: io.Healthy(o)
    ensures var after := ConsumeOne(capacity, codec, shop, e, io, base).db;
            var o := Storing(codec, e);
            Tables.Lookup(after, k, None) ==
            if Tables.Lookup(shop.db, k, None) == NoRows && o.Some? && ParseUuid(o.value.uid) == Some(k)
            then Ok(Stored(o.value))
            else Tables.Lookup(shop.db, k, None)
  {
    NoBrokenJoin(shop.db, k, None);
    var o := Storing(codec, e);
    if o.Some? && Admissible(shop.db, o.value) {
      if ParseUuid(o.value.uid) == Some(k) {
        RoundTrip(shop.db, o.value, base);
      } else {
        InsertedLeavesOthers(shop.db, o.value, base, k, None);
      }
    }
  }

  /** This event carries bytes that decode to the order, and the order validates. */
  predicate Carries(codec: Codec, e: Event, o: Order) {
    e.Message? && codec.unmarshal(e.value) == Some(o) && codec.validate(o)
  }

  /**
   * Whatever the log holds and whatever the database fails, an order new to the tables is one that some message
   * of the log decodes to and that validates, stored as it is.
   */
  lemma {:induction false} OnlyValidOrdersEnter(capacity: int, codec: Codec, shop: Shop, events: seq<Event>,
                                                ios: seq<WriteIo>, bases: seq<nat>, k: string)
    returns (i: nat, o: Order)
    requires WellFormed(shop.db) && |ios| == |bases| == |events|
    requires k !in shop.db.orders && k in ConsumeAll(capacity, codec, shop, events, ios, bases).db.orders
    ensures i < |events| && Carries(codec, events[i], o) && ParseUuid(o.uid) == Some(k)
    ensures Tables.Lookup(ConsumeAll(capacity, codec, shop, events, ios, bases).db, k, None) == Ok(Stored(o))
  {
    hide WellFormed, Grows, Tables.Lookup, Inserted, Storable, ConsumeOne;
    var n := |events| - 1;
    var before := ConsumeAll(capacity, codec, shop, events[..n], ios[..n], bases[..n]);
    ProcessedIsGrowth(capacity, codec, shop, events[..n], ios[..n], bases[..n]);
    if k in before.db.orders {
      i, o := OnlyValidOrdersEnter(capacity, codec, shop, events[..n], ios[..n], bases[..n], k);
      OneEvent(capacity, codec, before, events[n], ios[n], bases[n]);
      FoundStaysFound(before.db, ConsumeAll(capacity, codec, shop, events, ios, bases).db, k, None);
    } else {
      i := n;
      o := NewFromEvent(capacity, codec, before, events[n], ios[n], bases[n], k);
    }
  }

  lemma NewFromEvent(capacity: int, codec: Codec, shop: Shop, e: Event, io: WriteIo, base: nat, k: string)
    returns (o: Order)
    requires WellFormed(shop.db) && k !in shop.db.orders
    requires k in ConsumeOne(capacity, codec, shop, e, io, base).db.orders
    ensures Carries(codec, e, o) && ParseUuid(o.uid) == Some(k)
    ensures Tables.Lookup(ConsumeOne(capacity, codec, shop, e, io, base).db, k, None) == Ok(Stored(o))
  {
    o := codec.Process(e.value).value;
    ParsedIsCanonical(o.uid);
    RoundTrip(shop.db, o, base);
  }

  // ---------- Replay ----------

  /** Nothing in this log is left to be stored: every storable order's UID is taken. */
  ghost predicate Exhausted(codec: Codec, events: seq<Event>, db: Database) {
    forall i :: 0 <= i < |events| ==>
      var o := Storing(codec, events[i]);
      o.Some? ==> ParseUuid(o.value.uid).value in db.orders
  }

  lemma {:induction false} ConsumedIsExhausted(capacity: int, codec: Codec, shop: Shop, events: seq<Event>,
                                               ios: seq<WriteIo>, bases: seq<nat>)
    requires WellFormed(shop.db) && |ios| == |bases| == |events| && AllHealthy(ios)
    ensures Exhausted(codec, events, ConsumeAll(capacity, codec, shop, events, ios, bases).db)
  {
    hide WellFormed, Storable, ConsumeOne;
    if events != [] {
      var n := |events| - 1;
      var before := ConsumeAll(capacity, codec, shop, events[..n], ios[..n], bases[..n]);
      HealthyPrefix(ios, n);
      ConsumedIsExhausted(capacity, codec, shop, events[..n], ios[..n], bases[..n]);
      ProcessedIsGrowth(capacity, codec, shop, events[..n], ios[..n], bases[..n]);
      OneEvent(capacity, codec, before, events[n], ios[n], bases[n]);
      OneExhausted(capacity, codec, before, events[n], ios[n], bases[n]);
      StillExhausted(codec, events, before.db, ConsumeOne(capacity, codec, before, events[n], ios[n], bases[n]).db);
    }
  }

  lemma StillExhausted(codec: Codec, events: seq<Event>, a: Database, b: Database)
    requires events != [] && Exhausted(codec, events[..|events| - 1], a) && Grows(a, b)
    requires var o := Storing(codec, events[|events| - 1]);
             o.Some? ==> ParseUuid(o.value.uid).value in b.orders
    ensures Exhausted(codec, events, b)
  {
    forall i | 0 <= i < |events| && Storing(codec, events[i]).Some?
      ensures ParseUuid(Storing(codec, events[i]).value.uid).value in b.orders
    {
      if i < |events| - 1 {
        assert events[..|events| - 1][i] == events[i];
      }
    }
  }

  lemma OneExhausted(capacity: int, codec: Codec, shop: Shop, e: Event, io: WriteIo, base: nat)
    requires forall o :: io.Healthy(o)
    ensures var o := Storing(codec, e);
            o.Some? ==> ParseUuid(o.value.uid).value in ConsumeOne(capacity, codec, shop, e, io, base).db.orders
  {
  }

  lemma {:induction false} ExhaustedIsNoop(capacity: int, codec: Codec, shop: Shop, events: seq<Event>,
                                           ios: seq<WriteIo>, bases: seq<nat>)
    requires |ios| == |bases| == |events| && Exhausted(codec, events, shop.db)
    ensures ConsumeAll(capacity, codec, shop, events, ios, bases) == shop
  {
    if events != [] {
      var n := |events| - 1;
      assert forall i :: 0 <= i < n ==> events[..n][i] == events[i];
      ExhaustedIsNoop(capacity, codec, shop, events[..n], ios[..n], bases[..n]);
      assert Storing(codec, events[n]).Some? ==> ParseUuid(Storing(codec, events[n]).value.uid).value in shop.db.orders;
    }
  }

  lemma {:induction false} ConsumeConcat(capacity: int, codec: Codec, shop: Shop, a: seq<Event>, b: seq<Event>,
                                         aios: seq<WriteIo>, bios: seq<WriteIo>, abases: seq<nat>, bbases: seq<nat>)
    requires |aios| == |abases| == |a| && |bios| == |bbases| == |b|
    ensures ConsumeAll(capacity, codec, shop, a + b, aios + bios, abases + bbases) ==
            ConsumeAll(capacity, codec, ConsumeAll(capacity, codec, shop, a, aios, abases), b, bios, bbases)
  {
    if b == [] {
      assert a + b == a && aios + bios == aios && abases + bbases == abases;
    } else {
      var n := |b| - 1;
      assert (a + b)[..|a| + n] == a + b[..n];
      assert (aios + bios)[..|a| + n] == aios + bios[..n];
      assert (abases + bbases)[..|a| + n] == abases + bbases[..n];
      ConsumeConcat(capacity, codec, shop, a, b[..n], aios, bios[..n], abases, bbases[..n]);
    }
  }

  /**
   * Reading a log a second time, as a consumer without a group does after every restart, changes no table,
   * no cache entry, no recency order and no count, whatever the database fails the second time.
   */
  lemma ReplayChangesNothing(capacity: int, codec: Codec, shop: Shop, log: seq<Event>, ios: seq<WriteIo>,
                             ios': seq<WriteIo>, bases: seq<nat>, bases': seq<nat>)
    requires WellFormed(shop.db) && |ios| == |ios'| == |bases| == |bases'| == |log| && AllHealthy(ios)
    ensures ConsumeAll(capacity, codec, shop, log + log, ios + ios', bases + bases') ==
            ConsumeAll(capacity, codec, shop, log, ios, bases)
  {
    ConsumeConcat(capacity, codec, shop, log, log, ios, ios', bases, bases');
    ConsumedIsExhausted(capacity, codec, shop, log, ios, bases);
    ExhaustedIsNoop(capacity, codec, ConsumeAll(capacity, codec, shop, log, ios, bases), log, ios', bases');
  }

  /** The consumer keeps the cache coherent. */
  lemma ConsumeKeepsCoherent(capacity: int, codec: Codec, shop: Shop, e: Event, io: WriteIo, base: nat)
    requires WellFormed(shop.db) && UniqueLive(shop.slots) && Coherent(shop.slots, shop.db) && codec.ChecksUuid()
    ensures var after := ConsumeOne(capacity, codec, shop, e, io, base);
            UniqueLive(after.slots) && Coherent(after.slots, after.db)
  {
    if e.Message? && codec.Process(e.value).Some? && Admissible(shop.db, codec.Process(e.value).value) {
      var o := codec.Process(e.value).value;
      InsertedIsLater(shop.db, o, base);
      CoherentStaysCoherent(shop.slots, shop.db, Inserted(shop.db, o, base));
      InsertedIsBacked(shop.db, o, base);
      SetKeepsUnique(capacity, shop.slots, o);
      SetKeepsCoherent(capacity, shop.slots, Inserted(shop.db, o, base), o);
    }
  }
}
