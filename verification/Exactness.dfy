/**
 * Agreement of cache and database elsewhere is up to storage precision and item order. Here is when a client
 * sees a cached order, a reply, or a whole run just as the database would have it, and a run in which replies differ.
 */
module Exactness {
  import opened Orders
  import opened Slots
  import opened Tables
  import opened OrderRepository
  import opened Coherence
  import opened OrderHandler
  import opened OrderConsumer
  import Protocol

  // ---------- What a client sees ----------

  /**
   * How an order is written out: by a process with this local zone, at each instant, and as a page, which prints the
   * offset and the name of a timestamp's zone, or as JSON, which prints the offset.
   */
  datatype View = View(page: bool, offset: int -> int, name: int -> string)

  function Stamp(v: View, t: Timestamp): Timestamp {
    var zone := if t.zone.Local? then Written(v.offset(t.nanos), v.name(t.nanos)) else t.zone;
    t.(zone := if v.page then zone else zone.(name := ""))
  }

  function Seen(v: View, o: Order): Order {
    o.(dateCreated := Stamp(v, o.dateCreated))
  }

  function SeenReply(v: View, r: Reply): Reply {
    if r.body.TheOrder? then r.(body := TheOrder(Seen(v, r.body.order))) else r
  }

  /** Whole microseconds, in a zone that is written as the local zone is at that instant. */
  predicate AtStoragePrecision(v: View, t: Timestamp) {
    && t.nanos % 1000 == 0
    && match t.zone
       case Local => true
       case Written(offset, name) => offset == v.offset(t.nanos) && (v.page ==> name == v.name(t.nanos))
  }

  predicate AsStored(v: View, db: Database, o: Order) {
    AtStoragePrecision(v, o.dateCreated) && o.items == ItemsOf(db.item, o.uid)
  }

  /** An order comes back from storage to be seen as it arrived iff nothing about it needs rounding. */
  lemma StoredIsSameIff(v: View, o: Order)
    requires ParseUuid(o.uid).Some?
    ensures Seen(v, Stored(o)) == Seen(v, o) <==> IsCanonical(o.uid) && AtStoragePrecision(v, o.dateCreated)
  {
    StampIsSameIff(v, Stored(o).dateCreated, o.dateCreated);
    assert Seen(v, Stored(o)) == Seen(v, o) ==> Seen(v, Stored(o)).uid == Seen(v, o).uid;
  }

  /** A timestamp of whole microseconds in the local zone, and another of the same microsecond. */
  lemma StampIsSameIff(v: View, s: Timestamp, t: Timestamp)
    requires s == Timestamp(Micros(t) * 1000, Local)
    ensures Stamp(v, s) == Stamp(v, t) <==> AtStoragePrecision(v, t)
  {
    assert s.nanos == t.nanos <==> t.nanos % 1000 == 0;
  }

  /** What the database answers for an order it backs differs from it in precision and item order at most. */
  lemma BackedIsSameIff(v: View, db: Database, o: Order)
    requires WellFormed(db) && Backed(db, o)
    ensures Tables.Lookup(db, o.uid, None).Ok?
    ensures Seen(v, Tables.Lookup(db, o.uid, None).value) == Seen(v, o) <==> AsStored(v, db, o)
  {
    var d := Tables.Lookup(db, o.uid, None).value;
    assert Essence(d) == Essence(o);
    LookupIsAsStored(db, o.uid, None);
    hide Tables.Lookup, WellFormed;
    assert Micros(d.dateCreated) == Micros(o.dateCreated);
    StampIsSameIff(v, d.dateCreated, o.dateCreated);
    hide Stamp, AtStoragePrecision;
    if AsStored(v, db, o) {
      EssenceAndDetails(v, d, o);
    }
  }

  lemma EssenceAndDetails(v: View, a: Order, b: Order)
    requires Essence(a) == Essence(b) && a.uid == b.uid && a.items == b.items
    requires Stamp(v, a.dateCreated) == Stamp(v, b.dateCreated)
    ensures Seen(v, a) == Seen(v, b)
  {
    var x, y := Essence(a).0, Essence(b).0;
    assert x.(uid := a.uid, dateCreated := Stamp(v, a.dateCreated), items := a.items) == Seen(v, a);
    assert y.(uid := a.uid, dateCreated := Stamp(v, a.dateCreated), items := a.items) == Seen(v, b);
  }

  lemma LookupIsAsStored(db: Database, uid: string, owner: Option<string>)
    requires WellFormed(db) && Tables.Lookup(db, uid, owner).Ok?
    ensures var d := Tables.Lookup(db, uid, owner).value;
            && ParseUuid(uid) == Some(d.uid)
            && d.dateCreated == Timestamp(Micros(d.dateCreated) * 1000, Local)
            && d.items == ItemsOf(db.item, d.uid)
  {
  }

  /** A hit is seen as the order the database would have returned iff it was cached at storage precision. */
  lemma HitIsSameIff(v: View, slots: seq<Slot>, db: Database, uid: string)
    requires WellFormed(db) && Coherent(slots, db) && Slots.Lookup(slots, uid).Some?
    ensures Tables.Lookup(db, uid, None).Ok?
    ensures var o := Slots.Lookup(slots, uid).value;
            Seen(v, Tables.Lookup(db, uid, None).value) == Seen(v, o) <==>
            AtStoragePrecision(v, o.dateCreated) && o.items == ItemsOf(db.item, uid)
  {
    HitIsLookup(slots, db, uid);
    BackedIsSameIff(v, db, Slots.Lookup(slots, uid).value);
  }

  // ---------- Whole replies, texts included ----------

  /** The reply of a handler that asks the database every time, with the text it uses for an absent order. */
  function DirectReply(db: Database, uid: string, owner: Option<string>, missing: string): Reply {
    if uid == "" then NO_UID else FromDatabase(Tables.Lookup(db, uid, owner), missing)
  }

  ghost predicate SameToClient(v: View, a: Reply, b: Reply) {
    SeenReply(v, a) == SeenReply(v, b)
  }

  /** The item rows of an order that will be found arrive in table order. */
  predicate RowsInOrder(db: Database, uid: string, owner: Option<string>, io: ReadIo) {
    Tables.Lookup(db, uid, owner).Ok? ==> io.rows == ItemsOf(db.item, ParseUuid(uid).value)
  }

  /** The order that is cached, or else the rows that arrive, are as in the tables. */
  predicate Undistorted(v: View, slots: seq<Slot>, db: Database, uid: string, owner: Option<string>, io: ReadIo) {
    match Slots.Lookup(slots, uid)
    case Some(o) => AsStored(v, db, o)
    case None => RowsInOrder(db, uid, owner, io)
  }

  predicate SomebodyElses(slots: seq<Slot>, uid: string, name: string) {
    Slots.Lookup(slots, uid).Some? && Slots.Lookup(slots, uid).value.customerId != name
  }

  lemma ColdIsSameIff(v: View, db: Database, uid: string, owner: Option<string>, io: ReadIo, missing: string)
    requires WellFormed(db) && Streams(db, uid, io.rows) && io.Healthy()
    ensures SameToClient(v, FromDatabase(ReadOrder(db, uid, owner, io), missing),
                         FromDatabase(Tables.Lookup(db, uid, owner), missing))
            <==> RowsInOrder(db, uid, owner, io)
  {
    if Tables.Lookup(db, uid, owner).Ok? {
      LookupIsAsStored(db, uid, owner);
      var d, r := Tables.Lookup(db, uid, owner).value, ReadOrder(db, uid, owner, io).value;
      assert r == d.(items := io.rows);
      assert Seen(v, r).items == io.rows && Seen(v, d).items == d.items;
    }
  }

  lemma NoUidIsSame(v: View, db: Database, owner: Option<string>, io: ReadIo)
    ensures RowsInOrder(db, "", owner, io) && SameToClient(v, NO_UID, NO_UID)
  {
  }

  lemma WarmIsSameIff(v: View, slots: seq<Slot>, db: Database, uid: string, name: string, missing: string)
    requires WellFormed(db) && Coherent(slots, db) && Slots.Lookup(slots, uid).Some? && missing != NOT_YOURS.body.text
    ensures var o := Slots.Lookup(slots, uid).value;
            var all := FromDatabase(Tables.Lookup(db, uid, None), missing);
            var own := FromDatabase(Tables.Lookup(db, uid, Some(name)), missing);
            && uid != ""
            && (SameToClient(v, Found(o), all) <==> AsStored(v, db, o))
            && (o.customerId == name ==> own == all)
            && (o.customerId != name ==>
                  !SameToClient(v, NOT_YOURS, all) && !SameToClient(v, NOT_YOURS, own))
  {
    HitIsLookup(slots, db, uid);
    BackedIsSameIff(v, db, Slots.Lookup(slots, uid).value);
    UserLookupFilters(db, uid, name);
    hide Seen, AsStored, Tables.Lookup, WellFormed, Coherent, Slots.Lookup;
  }

  /** The admin API's reply is the database's own iff what is cached, or what arrives, is as stored. */
  lemma AdminReplyIsSameIff(v: View, capacity: int, slots: seq<Slot>, db: Database, userId: Claim, uid: string,
                            io: ReadIo)
    requires WellFormed(db) && Coherent(slots, db) && Streams(db, uid, io.rows) && io.Healthy() && userId != Absent
    ensures SameToClient(v, AdminLookup(capacity, slots, db, userId, uid, io).reply,
                         DirectReply(db, uid, None, NOT_FOUND))
            <==> Undistorted(v, slots, db, uid, None, io)
  {
    hide WellFormed, Tables.Lookup, Slots.Lookup, ReadOrder, AsStored, RowsInOrder, SameToClient;
    ColdIsSameIff(v, db, uid, None, io, NOT_FOUND);
    NoUidIsSame(v, db, None, io);
    if Slots.Lookup(slots, uid).Some? {
      WarmIsSameIff(v, slots, db, uid, "", NOT_FOUND);
    }
  }

  /**
   * The user API's reply is the database's own iff that holds and no order of somebody else is cached under the UID:
   * the text of that refusal tells the caller that there is such an order.
   */
  lemma UserReplyIsSameIff(v: View, capacity: int, slots: seq<Slot>, db: Database, userId: Claim, name: string,
                           uid: string, io: ReadIo)
    requires WellFormed(db) && Coherent(slots, db) && Streams(db, uid, io.rows) && io.Healthy() && userId != Absent
    ensures SameToClient(v, UserLookup(capacity, slots, db, userId, Text(name), uid, io).reply,
                         DirectReply(db, uid, Some(name), NOT_FOUND))
            <==> Undistorted(v, slots, db, uid, Some(name), io) && !SomebodyElses(slots, uid, name)
  {
    hide WellFormed, Tables.Lookup, Slots.Lookup, ReadOrder, AsStored, RowsInOrder, SameToClient;
    ColdIsSameIff(v, db, uid, Some(name), io, NOT_FOUND);
    NoUidIsSame(v, db, Some(name), io);
    if Slots.Lookup(slots, uid).Some? {
      WarmIsSameIff(v, slots, db, uid, name, NOT_FOUND);
    }
  }

  /** The page likewise, for every role. */
  lemma PageReplyIsSameIff(v: View, capacity: int, slots: seq<Slot>, db: Database, userId: Claim, name: string,
                           role: string, uid: string, io: ReadIo)
    requires WellFormed(db) && Coherent(slots, db) && Streams(db, uid, io.rows) && io.Healthy() && userId != Absent
    ensures var owner := if role == "admin" then None else Some(name);
            SameToClient(v, PageLookup(capacity, slots, db, userId, Text(name), Text(role), uid, io).reply,
                         DirectReply(db, uid, owner, PAGE_NOT_FOUND))
            <==> Undistorted(v, slots, db, uid, owner, io) && !SomebodyElses(slots, uid, name)
  {
    hide WellFormed, Tables.Lookup, Slots.Lookup, ReadOrder, AsStored, RowsInOrder, SameToClient;
    var owner := if role == "admin" then None else Some(name);
    ColdIsSameIff(v, db, uid, owner, io, PAGE_NOT_FOUND);
    NoUidIsSame(v, db, owner, io);
    if Slots.Lookup(slots, uid).Some? {
      WarmIsSameIff(v, slots, db, uid, name, PAGE_NOT_FOUND);
    }
  }

  // ---------- A run in which two replies differ ----------

  /**
   * However an order stored by the consumer comes to be asked for uncached, at any later time, the reply is the
   * order as it arrived iff it arrived at storage precision and its item rows come back in their old order.
   */
  lemma LoadedAsArrivedIff(v: View, capacity: int, db: Database, o: Order, base: nat, later: Database,
                           slots: seq<Slot>, userId: Claim, io: ReadIo)
    requires WellFormed(db) && Admissible(db, o) && IsCanonical(o.uid) && Grows(Inserted(db, o, base), later)
    requires Slots.Lookup(slots, o.uid) == None && userId != Absent
    requires Streams(later, o.uid, io.rows) && io.Healthy()
    ensures var r := AdminLookup(capacity, slots, later, userId, o.uid, io).reply;
            && r.status == 200
            && (SameToClient(v, r, Found(o)) <==> AtStoragePrecision(v, o.dateCreated) && io.rows == o.items)
  {
    RoundTrip(db, o, base);
    FoundStaysFound(Inserted(db, o, base), later, o.uid, None);
    hide Slots.Lookup, Grows, Inserted, Admissible;
    assert ReadOrder(later, o.uid, None, io) == Ok(Stored(o).(items := io.rows));
    StoredIsSameIff(v, o);
    var d := Stored(o).(items := io.rows);
    assert Seen(v, d) == Seen(v, Stored(o)).(items := io.rows);
    assert Seen(v, d) == Seen(v, o) <==> Seen(v, Stored(o)) == Seen(v, o) && io.rows == o.items;
  }

  /** A message is consumed, its order looked up, another message consumed, and the order looked up again. */
  function TwoReplies(codec: Codec, db: Database, a: Bytes, b: Bytes, caller: Option<string>, uid: string, wio: WriteIo,
                      base: nat, base': nat, io: ReadIo): (Reply, Reply)
  {
    var s1 := ConsumeOne(1, codec, Shop(db, [], 0), Message(a), wio, base);
    var first := Ask(s1, caller, uid, io);
    var s2 := ConsumeOne(1, codec, Shop(s1.db, first.slots, 1), Message(b), wio, base');
    (first.reply, Ask(s2, caller, uid, io).reply)
  }

  /** An admin asks, or a user of this name. */
  function Ask(shop: Shop, caller: Option<string>, uid: string, io: ReadIo): Served {
    match caller
    case None => AdminLookup(1, shop.slots, shop.db, Text("1"), uid, io)
    case Some(name) => UserLookup(1, shop.slots, shop.db, Text("1"), Text(name), uid, io)
  }

  lemma TwoInserts(db: Database, x: Order, y: Order, base: nat, base': nat)
    requires WellFormed(db) && IsCanonical(x.uid) && IsCanonical(y.uid) && x.uid != y.uid
    requires Admissible(db, x) && Admissible(db, y)
    ensures var db1 := Inserted(db, x, base);
            && Admissible(db1, y)
            && Grows(db1, Inserted(db1, y, base'))
            && ItemsOf(Inserted(db1, y, base').item, x.uid) == x.items
  {
    var db1 := Inserted(db, x, base);
    InsertedIsLater(db, x, base);
    InsertedItems(db, x, base, x.uid);
    InsertedIsLater(db1, y, base');
    LaterItems(db1, Inserted(db1, y, base'), x.uid);
  }

  lemma Consumed(codec: Codec, shop: Shop, v: Bytes, o: Order, io: WriteIo, base: nat)
    requires codec.Process(v) == Some(o) && Admissible(shop.db, o) && io.Healthy(o)
    ensures ConsumeOne(1, codec, shop, Message(v), io, base) ==
            Shop(Inserted(shop.db, o, base), SetSlots(1, shop.slots, o), shop.processed + 1)
  {
  }

  /** The two shops that are asked, the second message having evicted the first order. */
  lemma TwoShops(codec: Codec, db: Database, a: Bytes, b: Bytes, x: Order, y: Order, caller: Option<string>,
                 wio: WriteIo, base: nat, base': nat, io: ReadIo)
    requires WellFormed(db) && codec.Process(a) == Some(x) && codec.Process(b) == Some(y)
    requires IsCanonical(x.uid) && IsCanonical(y.uid) && x.uid != y.uid && Admissible(db, x) && Admissible(db, y)
    requires wio.Healthy(x) && wio.Healthy(y)
    ensures var db1 := Inserted(db, x, base);
            var db2 := Inserted(db1, y, base');
            TwoReplies(codec, db, a, b, caller, x.uid, wio, base, base', io) ==
            (Ask(Shop(db1, [Slot(x, true)], 1), caller, x.uid, io).reply,
             Ask(Shop(db2, [Slot(y, true)], 2), caller, x.uid, io).reply)
  {
    hide ConsumeOne, Inserted, Admissible, SetSlots, GetSlots, Slots.Lookup, WellFormed, ReadOrder;
    TwoInserts(db, x, y, base, base');
    OneSlot(x, y);
    assert x.uid != "";
    Consumed(codec, Shop(db, [], 0), a, x, wio, base);
    Consumed(codec, Shop(Inserted(db, x, base), [Slot(x, true)], 1), b, y, wio, base');
  }

  lemma BothFound(db: Database, x: Order, y: Order, base: nat, base': nat)
    requires WellFormed(db) && IsCanonical(x.uid) && IsCanonical(y.uid) && x.uid != y.uid
    requires Admissible(db, x) && Admissible(db, y)
    requires Admissible(Inserted(db, x, base), y)
    ensures var db1 := Inserted(db, x, base);
            var db2 := Inserted(db1, y, base');
            && WellFormed(db1) && WellFormed(db2)
            && Tables.Lookup(db1, x.uid, None) == Tables.Lookup(db2, x.uid, None) == Ok(Stored(x))
  {
    hide Admissible, Inserted, WellFormed, Tables.Lookup, Grows;
    var db1 := Inserted(db, x, base);
    InsertedIsLater(db, x, base);
    InsertedIsLater(db1, y, base');
    RoundTrip(db, x, base);
    FoundStaysFound(db1, Inserted(db1, y, base'), x.uid, None);
  }

  /** To the customer of an order the user API says what the admin API says. */
  lemma OwnerIsAnswered(shop: Shop, o: Order, io: ReadIo)
    requires WellFormed(shop.db) && Tables.Lookup(shop.db, o.uid, None).Ok?
    requires Tables.Lookup(shop.db, o.uid, None).value.customerId == o.customerId
    requires Slots.Lookup(shop.slots, o.uid) in {None, Some(o)}
    ensures Ask(shop, Some(o.customerId), o.uid, io) == Ask(shop, None, o.uid, io)
  {
    hide Slots.Lookup, SetSlots, GetSlots;
    assert ReadOrder(shop.db, o.uid, Some(o.customerId), io) == ReadOrder(shop.db, o.uid, None, io);
  }

  /** The second message evicts the first order. An admin, or its customer, is given the same reply exactly when: */
  lemma RepliesAgreeIff(v: View, codec: Codec, db: Database, a: Bytes, b: Bytes, x: Order, y: Order,
                        caller: Option<string>, wio: WriteIo, base: nat, base': nat, io: ReadIo)
    requires WellFormed(db) && codec.Process(a) == Some(x) && codec.Process(b) == Some(y)
    requires IsCanonical(x.uid) && IsCanonical(y.uid) && x.uid != y.uid && Admissible(db, x) && Admissible(db, y)
    requires wio.Healthy(x) && wio.Healthy(y) && io.Healthy() && multiset(io.rows) == multiset(x.items)
    requires caller == None || caller == Some(x.customerId)
    ensures var replies := TwoReplies(codec, db, a, b, caller, x.uid, wio, base, base', io);
            && replies.0 == Found(x) && replies.1.status == 200
            && (SameToClient(v, replies.1, replies.0) <==>
                  AtStoragePrecision(v, x.dateCreated) && io.rows == x.items)
  {
    var db1 := Inserted(db, x, base);
    var db2 := Inserted(db1, y, base');
    TwoShops(codec, db, a, b, x, y, caller, wio, base, base', io);
    TwoInserts(db, x, y, base, base');
    BothFound(db, x, y, base, base');
    OneSlot(x, y);
    LoadedAsArrivedIff(v, 1, db, x, base, db2, [Slot(y, true)], Text("1"), io);
    hide TwoReplies, Inserted, Admissible, GetSlots, Slots.Lookup, WellFormed, Grows, Tables.Lookup, ReadOrder;
    OwnerIsAnswered(Shop(db1, [Slot(x, true)], 1), x, io);
    OwnerIsAnswered(Shop(db2, [Slot(y, true)], 2), x, io);
  }

  lemma StrangerFindsNothing(db: Database, o: Order, name: string, io: ReadIo)
    requires Tables.Lookup(db, o.uid, None).Ok? && !io.headerFails
    requires Tables.Lookup(db, o.uid, None).value.customerId != name
    ensures ReadOrder(db, o.uid, Some(name), io) == NoRows
  {
  }

  /** Anybody else is refused in two ways, the order of the customer being cached at first and evicted then. */
  lemma RefusalTellsOfTheOrder(codec: Codec, db: Database, a: Bytes, b: Bytes, x: Order, y: Order, name: string,
                               wio: WriteIo, base: nat, base': nat, io: ReadIo)
    requires WellFormed(db) && codec.Process(a) == Some(x) && codec.Process(b) == Some(y)
    requires IsCanonical(x.uid) && IsCanonical(y.uid) && x.uid != y.uid && Admissible(db, x) && Admissible(db, y)
    requires wio.Healthy(x) && wio.Healthy(y) && !io.headerFails && name != x.customerId
    ensures TwoReplies(codec, db, a, b, Some(name), x.uid, wio, base, base', io) ==
            (NOT_YOURS, Reply(404, Error(NOT_FOUND)))
  {
    var db1 := Inserted(db, x, base);
    var db2 := Inserted(db1, y, base');
    TwoShops(codec, db, a, b, x, y, Some(name), wio, base, base', io);
    TwoInserts(db, x, y, base, base');
    BothFound(db, x, y, base, base');
    OneSlot(x, y);
    hide TwoReplies, Inserted, Admissible, GetSlots, SetSlots, Slots.Lookup, WellFormed, Tables.Lookup, ReadOrder;
    StrangerFindsNothing(db2, x, name, io);
  }

  lemma OneSlot(x: Order, y: Order)
    requires x.uid != y.uid
    ensures SetSlots(1, [], x) == [Slot(x, true)] && Slots.Lookup([Slot(x, true)], x.uid) == Some(x)
    ensures GetSlots([Slot(x, true)], x.uid) == [Slot(x, true)]
    ensures SetSlots(1, [Slot(x, true)], y) == [Slot(y, true)] && Slots.Lookup([Slot(y, true)], x.uid) == None
  {
    LiveCountPush(Slot(y, true), [Slot(x, true)]);
    LiveCountPush(Slot(x, true), []);
    assert [Slot(y, true)] + [Slot(x, true)] == [Slot(y, true), Slot(x, true)];
  }

  /** For the digit 1, 11111111-1111-4111-8111-111111111111. */
  function Uuid4(digit: char): string {
    seq(36, i => if i in {8, 13, 18, 23} then '-' else if i == 14 then '4' else if i == 19 then '8' else digit)
  }

  lemma Uuid4IsCanonical(digit: char)
    requires '0' <= digit <= '9'
    ensures IsCanonical(Uuid4(digit))
  {
    var s := Uuid4(digit);
    assert IsUuidText(s);
    assert seq(36, i requires 0 <= i < 36 => Lower(s[i])) == s;
  }

  /** An order as it may arrive, created one nanosecond after a full second. */
  const ARRIVING := Order(
    Uuid4('1'), "TRACK123", "TEST", "en", "", "cust1", "dhl", "1", 1,
    Timestamp(1700000000_000000001, Written(0, "UTC")), "1",
    Delivery("John", "+79991234567", "12345", "City", "Addr", "Reg", "test@example.com"),
    Payment("b1e8a5d2-3c4f-4a1b-9d6e-7f8c0a1b2c3d", "", "USD", "stripe", 1000, 1700000000, "bank", 200, 800, 10),
    [Item(1, "T1", 100, "r1", "Item", 0, "M", 100, 1, "B", 200)])

  const NEXT := ARRIVING.(uid := Uuid4('2'))

  lemma SamplesAreStorable()
    ensures IsCanonical(ARRIVING.uid) && IsCanonical(NEXT.uid) && ARRIVING.uid != NEXT.uid
    ensures Storable(ARRIVING) && Storable(NEXT)
  {
    Uuid4IsCanonical('1');
    Uuid4IsCanonical('2');
    assert Uuid4('1')[0] != Uuid4('2')[0];
    hide ParseUuid, Uuid4;
    assert OrderFits(ARRIVING) && DeliveryFits(ARRIVING.delivery) && PaymentFits(ARRIVING.payment);
    assert ItemFits(ARRIVING.items[0]);
  }

  lemma SampleCodec() returns (codec: Codec)
    ensures codec.ChecksUuid() && codec.Process([1]) == Some(ARRIVING) && codec.Process([2]) == Some(NEXT)
    ensures codec.Process([]) == None
  {
    SamplesAreStorable();
    codec := Codec((v: Bytes) => if v == [1] then Some(ARRIVING) else if v == [2] then Some(NEXT) else None,
                   (o: Order) => IsCanonical(o.uid));
  }

  /**
   * From an empty database, without a failure anywhere, the same order is answered twice in two ways that any client
   * can tell apart, and is refused to a stranger in two ways.
   */
  lemma RepliesCanDiffer(v: View, codec: Codec, a: Bytes, b: Bytes, stranger: string)
    requires codec.Process(a) == Some(ARRIVING) && codec.Process(b) == Some(NEXT) && stranger != ARRIVING.customerId
    ensures var wio := WriteIo(false, (i: nat) => false);
            var io := ReadIo(false, false, (i: nat) => false, false, ARRIVING.items);
            var replies := TwoReplies(codec, EMPTY, a, b, None, ARRIVING.uid, wio, 0, 1, io);
            var refusals := TwoReplies(codec, EMPTY, a, b, Some(stranger), ARRIVING.uid, wio, 0, 1, io);
            && replies.0 == Found(ARRIVING) && replies.1.status == 200 && !SameToClient(v, replies.1, replies.0)
            && refusals == (NOT_YOURS, Reply(404, Error(NOT_FOUND)))
  {
    var wio := WriteIo(false, (i: nat) => false);
    var io := ReadIo(false, false, (i: nat) => false, false, ARRIVING.items);
    SamplesAreStorable();
    hide TwoReplies, Storable, IsCanonical;
    RepliesAgreeIff(v, codec, EMPTY, a, b, ARRIVING, NEXT, None, wio, 0, 1, io);
    RefusalTellsOfTheOrder(codec, EMPTY, a, b, ARRIVING, NEXT, stranger, wio, 0, 1, io);
  }

  // ---------- Whole runs ----------

  ghost predicate Answers(v: View, r: Outcome<Order>, o: Order) {
    r.Ok? && Seen(v, r.value) == Seen(v, o)
  }

  ghost predicate Same(v: View, db: Database, o: Order) {
    Answers(v, Tables.Lookup(db, o.uid, None), o)
  }

  ghost predicate SameAsAsked(v: View, db: Database, q: Protocol.Query, o: Order) {
    Answers(v, Tables.Lookup(db, q.uid, q.OwnerOnMiss()), o)
  }

  /** Every order at hand, cached, committed, loaded or shown, is seen as the one the database would return. */
  ghost predicate ExactInv(v: View, s: Protocol.System) {
    && (forall x :: x in s.slots && x.live ==> Same(v, s.db, x.order))
    && (forall w :: w in s.writers ==> WriterExact(v, s.db, s.writers[w]))
    && (forall r :: r in s.readers ==> ReaderExact(v, s.db, s.readers[r]))
  }

  ghost predicate WriterExact(v: View, db: Database, w: Protocol.Writer) {
    match w
    case Checked(o) => AtStoragePrecision(v, o.dateCreated)
    case Committed(o) => Same(v, db, o)
  }

  ghost predicate ReaderExact(v: View, db: Database, r: Protocol.Reader) {
    match r
    case Loaded(q, o) => SameAsAsked(v, db, q, o) && Same(v, db, o)
    case Done(q, Shown(o)) => SameAsAsked(v, db, q, o)
    case _ => true
  }

  /** Orders arrive at storage precision, and item rows come back in table order. */
  predicate Tidy(v: View, s: Protocol.System, step: Protocol.Step) {
    match step
    case Check(_, o) => AtStoragePrecision(v, o.dateCreated)
    case ReadItems(r, rows) =>
      r in s.readers && s.readers[r].HeaderRead? ==> rows == ItemsOf(s.db.item, s.readers[r].header.uid)
    case _ => true
  }

  lemma SameStaysSame(v: View, a: Database, b: Database, o: Order)
    requires Grows(a, b) && Same(v, a, o)
    ensures Same(v, b, o)
  {
    FoundStaysFound(a, b, o.uid, None);
  }

  lemma ExactStaysExact(v: View, a: Database, b: Database, w: Protocol.Writer, r: Protocol.Reader)
    requires Grows(a, b)
    ensures WriterExact(v, a, w) ==> WriterExact(v, b, w)
    ensures ReaderExact(v, a, r) ==> ReaderExact(v, b, r)
  {
    if w.Committed? && Same(v, a, w.order) {
      SameStaysSame(v, a, b, w.order);
    }
    if Tables.Lookup(a, r.q.uid, r.q.OwnerOnMiss()).Ok? {
      FoundStaysFound(a, b, r.q.uid, r.q.OwnerOnMiss());
    }
    if r.Loaded? && Same(v, a, r.order) {
      SameStaysSame(v, a, b, r.order);
    }
  }

  lemma InsertKeepsExact(v: View, capacity: int, s: Protocol.System, step: Protocol.Step)
    requires Protocol.Inv(s) && ExactInv(v, s) && Protocol.Inserts(s, step)
    ensures ExactInv(v, Protocol.Next(capacity, s, step))
  {
    var o := s.writers[step.w].order;
    var after := Protocol.Next(capacity, s, step);
    assert Protocol.WriterOk(s.db, s.writers[step.w]) && WriterExact(v, s.db, s.writers[step.w]);
    InsertedIsLater(s.db, o, step.base);
    RoundTrip(s.db, o, step.base);
    StoredIsSameIff(v, o);
    hide Tables.Lookup, WellFormed, Grows, Inserted, Admissible, Protocol.Inv;
    forall x | x in after.slots && x.live ensures Same(v, after.db, x.order) {
      SameStaysSame(v, s.db, after.db, x.order);
    }
    forall w | w in after.writers ensures WriterExact(v, after.db, after.writers[w]) {
      if w != step.w {
        ExactStaysExact(v, s.db, after.db, s.writers[w], Protocol.Asked(Protocol.AdminApi("")));
      }
    }
    forall r | r in after.readers ensures ReaderExact(v, after.db, after.readers[r]) {
      ExactStaysExact(v, s.db, after.db, s.writers[step.w], s.readers[r]);
    }
  }

  lemma ReaderMovesExactly(v: View, capacity: int, s: Protocol.System, step: Protocol.Step)
    requires Protocol.Inv(s) && ExactInv(v, s) && Protocol.Enabled(s, step) && Tidy(v, s, step)
    requires step.ReadCache? || step.ReadHeader? || step.ReadItems? || step.FillCache?
    ensures ReaderExact(v, s.db, Protocol.Next(capacity, s, step).readers[step.r])
    ensures step.FillCache? ==> Same(v, s.db, s.readers[step.r].order)
  {
    var q := s.readers[step.r].q;
    assert Protocol.ReaderOk(s.db, s.readers[step.r]) && ReaderExact(v, s.db, s.readers[step.r]);
    if step.ReadCache? && Slots.Lookup(s.slots, q.uid).Some? {
      var x := s.slots[Find(s.slots, q.uid)];
      assert x in s.slots && Same(v, s.db, x.order);
      OwnIsSame(s.db, q);
    } else if step.ReadItems? {
      ParsedIsCanonical(q.uid);
      OwnIsSame(s.db, q);
    }
  }

  /** What the restricted query finds the plain one finds, and the other way round for the customer's orders. */
  lemma OwnIsSame(db: Database, q: Protocol.Query)
    requires WellFormed(db)
    ensures var plain, own := Tables.Lookup(db, q.uid, None), Tables.Lookup(db, q.uid, q.OwnerOnMiss());
            && (own.Ok? ==> own == plain)
            && (plain.Ok? && (q.OwnerOnMiss() == None || q.OwnerOnMiss() == Some(plain.value.customerId)) ==>
                  own == plain)
  {
    if q.OwnerOnMiss().Some? {
      UserLookupFilters(db, q.uid, q.OwnerOnMiss().value);
    }
  }

  lemma SetKeepsSame(v: View, capacity: int, db: Database, slots: seq<Slot>, o: Order)
    requires UniqueLive(slots) && Same(v, db, o) && forall x :: x in slots && x.live ==> Same(v, db, x.order)
    ensures forall x :: x in SetSlots(capacity, slots, o) && x.live ==> Same(v, db, x.order)
  {
    hide Same;
    forall x | x in SetSlots(capacity, slots, o) && x.live ensures Same(v, db, x.order) {
      SetOrigin(capacity, slots, o, x);
    }
  }

  lemma GetAndKillKeepSame(v: View, db: Database, slots: seq<Slot>, key: string)
    requires forall x :: x in slots && x.live ==> Same(v, db, x.order)
    ensures forall x :: x in GetSlots(slots, key) && x.live ==> Same(v, db, x.order)
    ensures forall x :: x in Kill(slots, key) && x.live ==> Same(v, db, x.order)
  {
    hide Same;
    assert forall x :: x in GetSlots(slots, key) ==> x in slots;
    forall x | x in Kill(slots, key) && x.live ensures Same(v, db, x.order) {
      var i :| 0 <= i < |slots| && Kill(slots, key)[i] == x;
      assert slots[i] == x;
    }
  }

  lemma StepKeepsExact(v: View, capacity: int, s: Protocol.System, step: Protocol.Step)
    requires Protocol.Inv(s) && ExactInv(v, s) && Protocol.Enabled(s, step) && Tidy(v, s, step)
    ensures ExactInv(v, Protocol.Next(capacity, s, step))
  {
    hide Tables.Lookup, Tables.Header, Slots.Lookup, SetSlots, GetSlots, Kill;
    hide Same, SameAsAsked, WellFormed, UniqueLive;
    match step
    case Commit(_, _) => InsertKeepsExact(v, capacity, s, step);
    case CommitUnreported(_, _) => InsertKeepsExact(v, capacity, s, step);
    case Publish(w) =>
      assert WriterExact(v, s.db, s.writers[w]);
      SetKeepsSame(v, capacity, s.db, s.slots, s.writers[w].order);
    case ReadCache(r) =>
      ReaderMovesExactly(v, capacity, s, step);
      GetAndKillKeepSame(v, s.db, s.slots, s.readers[r].q.uid);
    case ReadHeader(_) => ReaderMovesExactly(v, capacity, s, step);
    case ReadItems(_, _) => ReaderMovesExactly(v, capacity, s, step);
    case FillCache(r) =>
      ReaderMovesExactly(v, capacity, s, step);
      SetKeepsSame(v, capacity, s.db, s.slots, s.readers[r].order);
    case DeleteKey(k) => GetAndKillKeepSame(v, s.db, s.slots, k);
    case _ =>
  }

  /** A cache preloaded with item rows in table order starts exact, over any reachable database. */
  lemma ServiceStartsExact(v: View, capacity: nat, history: seq<Transaction>, recent: seq<string>, ios: seq<ReadIo>)
    requires |ios| == |recent|
    requires forall i :: 0 <= i < |recent| ==>
               recent[i] in Commits(EMPTY, history).orders
               && ios[i].rows == ItemsOf(Commits(EMPTY, history).item, recent[i])
    ensures var db := Commits(EMPTY, history);
            ExactInv(v, Protocol.System(db, SetAll(capacity, [], LoadAll(db, recent, ios)), map[], map[]))
  {
    var db := Commits(EMPTY, history);
    CommitsGrow(EMPTY, history);
    LoadedAreSame(v, db, recent, ios);
    SetAllKeepsSame(v, capacity, db, LoadAll(db, recent, ios));
  }

  lemma {:induction false} LoadedAreSame(v: View, db: Database, uids: seq<string>, ios: seq<ReadIo>)
    requires WellFormed(db) && |ios| == |uids|
    requires forall i :: 0 <= i < |uids| ==> uids[i] in db.orders && ios[i].rows == ItemsOf(db.item, uids[i])
    ensures forall o :: o in LoadAll(db, uids, ios) ==> Same(v, db, o)
  {
    if uids != [] {
      var n := |uids| - 1;
      LoadedAreSame(v, db, uids[..n], ios[..n]);
      var r := ReadOrder(db, uids[n], None, ios[n]);
      assert r.Ok? ==> Same(v, db, r.value);
    }
  }

  lemma {:induction false} SetAllKeepsSame(v: View, capacity: int, db: Database, orders: seq<Order>)
    requires forall o :: o in orders ==> Same(v, db, o)
    ensures UniqueLive(SetAll(capacity, [], orders))
    ensures forall x :: x in SetAll(capacity, [], orders) && x.live ==> Same(v, db, x.order)
  {
    hide Same;
    if orders != [] {
      var n := |orders| - 1;
      SetAllKeepsSame(v, capacity, db, orders[..n]);
      SetKeepsUnique(capacity, SetAll(capacity, [], orders[..n]), orders[n]);
      SetKeepsSame(v, capacity, db, SetAll(capacity, [], orders[..n]), orders[n]);
    }
  }

  /**
   * If every order arrives at storage precision and item rows come back in table order, then in every state of
   * every interleaving each cached order, and each order ever shown, is seen as the one the database returns.
   */
  lemma {:induction false} RunsStayExact(v: View, capacity: int, run: seq<Protocol.System>,
                                         steps: seq<Protocol.Step>, j: nat)
    requires Protocol.Behaviour(capacity, run, steps) && Protocol.Inv(run[0]) && ExactInv(v, run[0]) && j < |run|
    requires forall i :: 0 <= i < j ==> Tidy(v, run[i], steps[i])
    ensures ExactInv(v, run[j])
  {
    hide ExactInv, Protocol.Inv, Protocol.Next, Protocol.Enabled, Tidy, Grows;
    if j > 0 {
      RunsStayExact(v, capacity, run, steps, j - 1);
      Protocol.RunsStayCoherent(capacity, run, steps, j - 1, j - 1);
      StepKeepsExact(v, capacity, run[j - 1], steps[j - 1]);
      assert run[j] == Protocol.Next(capacity, run[j - 1], steps[j - 1]);
    }
  }
}
