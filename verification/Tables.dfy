/**
 * The four order tables of the schema, the statements run against them, and the laws that follow
 * from orders only ever being inserted, each in one atomic transaction.
 */
module Tables {
  import opened Orders

  datatype OrderRow = OrderRow(trackNumber: string, entry: string, locale: string,
                               internalSignature: Option<string>, customerId: string,
                               deliveryService: string, shardkey: string, smId: int,
                               dateCreated: int, oofShard: string)

  datatype DeliveryRow = DeliveryRow(name: string, phone: string, zip: string, city: string,
                                     address: string, region: string, email: string)

  datatype PaymentRow = PaymentRow(transaction: string, requestId: Option<string>, currency: string,
                                   provider: string, amount: int, paymentDt: int, bank: string,
                                   deliveryCost: int, goodsTotal: int, customFee: int)

  datatype ItemRow = ItemRow(id: nat, orderUid: string, item: Item)

  /** Three tables keyed by order_uid, their primary key, and the item table with its serial id. */
  datatype Database = Database(orders: map<string, OrderRow>, delivery: map<string, DeliveryRow>,
                               payment: map<string, PaymentRow>, item: seq<ItemRow>)

  const EMPTY := Database(map[], map[], map[], [])

  /** A query or scan: a value, pgx.ErrNoRows, or any other error. */
  datatype Outcome<+T> = Ok(value: T) | NoRows | Failed

  // ---------- Column types ----------

  predicate Varchar(n: nat, s: string) { |s| <= n }

  predicate Int4(n: int) { -0x8000_0000 <= n < 0x8000_0000 }

  predicate Int8(n: int) { -0x8000_0000_0000_0000 <= n < 0x8000_0000_0000_0000 }

  predicate OrderFits(o: Order) {
    && Varchar(50, o.trackNumber) && Varchar(10, o.entry) && Varchar(2, o.locale)
    && Varchar(100, o.internalSignature) && Varchar(50, o.customerId) && Varchar(50, o.deliveryService)
    && Varchar(10, o.shardKey) && Int4(o.smId) && Varchar(10, o.oofShard)
  }

  predicate DeliveryFits(d: Delivery) {
    && Varchar(100, d.name) && Varchar(16, d.phone) && Varchar(10, d.zip) && Varchar(100, d.city)
    && Varchar(100, d.address) && Varchar(100, d.region) && Varchar(100, d.email)
  }

  predicate PaymentFits(p: Payment) {
    && Varchar(100, p.transaction) && Varchar(100, p.requestId) && Varchar(3, p.currency)
    && Varchar(50, p.provider) && Int4(p.amount) && Int8(p.paymentDt) && Varchar(20, p.bank)
    && Int4(p.deliveryCost) && Int4(p.goodsTotal) && Int4(p.customFee)
  }

  predicate ItemFits(i: Item) {
    && Int4(i.chrtId) && Varchar(50, i.trackNumber) && Int4(i.price) && Varchar(50, i.rid)
    && Varchar(50, i.name) && Int4(i.sale) && Varchar(10, i.size) && Int4(i.totalPrice)
    && Int4(i.nmId) && Varchar(50, i.brand) && Int4(i.status)
  }

  /** The schema holds nothing against this order: every value fits its column. */
  predicate Storable(o: Order) {
    && ParseUuid(o.uid).Some? && OrderFits(o) && DeliveryFits(o.delivery) && PaymentFits(o.payment)
    && forall i :: i in o.items ==> ItemFits(i)
  }

  // ---------- Statements; None is a constraint violation ----------

  function InsertOrder(db: Database, o: Order): Option<Database> {
    match ParseUuid(o.uid)
    case None => None
    case Some(k) =>
      if k in db.orders || !OrderFits(o) then None
      else Some(db.(orders := db.orders[k := RowOfOrder(o)]))
  }

  function InsertDelivery(db: Database, uid: string, d: Delivery): Option<Database> {
    match ParseUuid(uid)
    case None => None
    case Some(k) =>
      if k !in db.orders || k in db.delivery || !DeliveryFits(d) then None
      else Some(db.(delivery := db.delivery[k := RowOfDelivery(d)]))
  }

  function InsertPayment(db: Database, uid: string, p: Payment): Option<Database> {
    match ParseUuid(uid)
    case None => None
    case Some(k) =>
      if k !in db.orders || k in db.payment || !PaymentFits(p) then None
      else Some(db.(payment := db.payment[k := RowOfPayment(p)]))
  }

  function InsertItem(db: Database, id: nat, uid: string, i: Item): Option<Database> {
    match ParseUuid(uid)
    case None => None
    case Some(k) =>
      if k !in db.orders || (exists r :: r in db.item && r.id == id) || !ItemFits(i) then None
      else Some(db.(item := db.item + [ItemRow(id, k, i)]))
  }

  function RowOfOrder(o: Order): OrderRow {
    OrderRow(o.trackNumber, o.entry, o.locale, Some(o.internalSignature), o.customerId,
             o.deliveryService, o.shardKey, o.smId, Micros(o.dateCreated), o.oofShard)
  }

  function RowOfDelivery(d: Delivery): DeliveryRow {
    DeliveryRow(d.name, d.phone, d.zip, d.city, d.address, d.region, d.email)
  }

  function RowOfPayment(p: Payment): PaymentRow {
    PaymentRow(p.transaction, Some(p.requestId), p.currency, p.provider, p.amount, p.paymentDt,
               p.bank, p.deliveryCost, p.goodsTotal, p.customFee)
  }

  // ---------- Queries ----------

  /**
   * The joined query for one order, without its items. A LEFT JOIN that finds no delivery or payment,
   * and a NULL signature or request id, reach a scan into a Go string and fail there.
   * With an owner, rows of other customers are filtered out.
   */
  function Header(db: Database, uid: string, owner: Option<string>): Outcome<Order> {
    match ParseUuid(uid)
    case None => Failed
    case Some(k) =>
      if k !in db.orders || (owner.Some? && db.orders[k].customerId != owner.value) then NoRows
      else if k !in db.delivery || k !in db.payment then Failed
      else
        var r, d, p := db.orders[k], db.delivery[k], db.payment[k];
        if r.internalSignature.None? || p.requestId.None? || !Unsigned(r, p) then Failed
        else Ok(Order(k, r.trackNumber, r.entry, r.locale, r.internalSignature.value, r.customerId,
                      r.deliveryService, r.shardkey, r.smId, Timestamp(r.dateCreated * 1000, Local),
                      r.oofShard,
                      Delivery(d.name, d.phone, d.zip, d.city, d.address, d.region, d.email),
                      Payment(p.transaction, p.requestId.value, p.currency, p.provider, p.amount,
                              p.paymentDt, p.bank, p.deliveryCost, p.goodsTotal, p.customFee),
                      []))
  }

  /** The integer columns that are scanned into unsigned fields hold no negative number. */
  predicate Unsigned(r: OrderRow, p: PaymentRow) {
    r.smId >= 0 && p.paymentDt >= 0 && p.deliveryCost >= 0 && p.goodsTotal >= 0 && p.customFee >= 0
  }

  /** The item query: the item rows of one order, here in table order. */
  function ItemsOf(rows: seq<ItemRow>, k: string): seq<Item> {
    if rows == [] then []
    else if rows[0].orderUid == k then [rows[0].item] + ItemsOf(rows[1..], k)
    else ItemsOf(rows[1..], k)
  }

  /** What a client that could see one snapshot of the database would be told. */
  function Lookup(db: Database, uid: string, owner: Option<string>): Outcome<Order> {
    match Header(db, uid, owner)
    case Ok(h) => Ok(h.(items := ItemsOf(db.item, h.uid)))
    case NoRows => NoRows
    case Failed => Failed
  }

  // ---------- Committed transactions ----------

  /** The rows one successful transaction adds; item ids come from the serial, starting at base. */
  function Inserted(db: Database, o: Order, base: nat): Database
    requires ParseUuid(o.uid).Some?
  {
    var k := ParseUuid(o.uid).value;
    Database(db.orders[k := RowOfOrder(o)],
             db.delivery[k := RowOfDelivery(o.delivery)],
             db.payment[k := RowOfPayment(o.payment)],
             db.item + ItemRows(k, o.items, base))
  }

  function ItemRows(k: string, items: seq<Item>, base: nat): (rows: seq<ItemRow>)
    ensures |rows| == |items|
    ensures forall i :: 0 <= i < |rows| ==> rows[i] == ItemRow(base + i, k, items[i])
  {
    seq(|items|, i requires 0 <= i < |items| => ItemRow(base + i, k, items[i]))
  }

  predicate Admissible(db: Database, o: Order) {
    ParseUuid(o.uid).Some? && Storable(o) && ParseUuid(o.uid).value !in db.orders
  }

  datatype Transaction = Transaction(order: Order, base: nat)

  /** Any history of attempted transactions: a rejected one leaves no trace. */
  function Commits(db: Database, txs: seq<Transaction>): Database {
    if txs == [] then db
    else
      var before := Commits(db, txs[..|txs| - 1]);
      var t := txs[|txs| - 1];
      if Admissible(before, t.order) then Inserted(before, t.order, t.base) else before
  }

  /** Referential integrity as the application leaves it, which is more than the schema demands. */
  ghost predicate WellFormed(db: Database) {
    && db.orders.Keys == db.delivery.Keys == db.payment.Keys
    && (forall k :: k in db.orders ==>
          IsCanonical(k) && db.orders[k].internalSignature.Some? && db.payment[k].requestId.Some?
          && Unsigned(db.orders[k], db.payment[k]))
    && (forall i :: 0 <= i < |db.item| ==> db.item[i].orderUid in db.orders)
  }

  /** b is a later state than a: old rows are kept as they are, new item rows belong to new orders. */
  ghost predicate Grows(a: Database, b: Database) {
    && (forall k :: k in a.orders ==> k in b.orders && b.orders[k] == a.orders[k])
    && (forall k :: k in a.delivery ==> k in b.delivery && b.delivery[k] == a.delivery[k])
    && (forall k :: k in a.payment ==> k in b.payment && b.payment[k] == a.payment[k])
    && a.item <= b.item
    && (forall i :: |a.item| <= i < |b.item| ==> b.item[i].orderUid !in a.orders)
  }

  lemma InsertedIsLater(db: Database, o: Order, base: nat)
    requires WellFormed(db) && Admissible(db, o)
    ensures WellFormed(Inserted(db, o, base))
    ensures Grows(db, Inserted(db, o, base))
  {
    InsertedWellFormed(db, o, base);
    InsertedGrows(db, o, base);
  }

  lemma InsertedGrows(db: Database, o: Order, base: nat)
    requires ParseUuid(o.uid).Some?
    requires var k := ParseUuid(o.uid).value; k !in db.orders && k !in db.delivery && k !in db.payment
    ensures Grows(db, Inserted(db, o, base))
  {
    InsertedItemRows(db, ParseUuid(o.uid).value, o.items, base);
  }

  lemma InsertedWellFormed(db: Database, o: Order, base: nat)
    requires WellFormed(db) && Admissible(db, o)
    ensures WellFormed(Inserted(db, o, base))
  {
    var k := ParseUuid(o.uid).value;
    hide Storable;
    ParsedIsCanonical(o.uid);
    InsertedItemRows(db, k, o.items, base);
    var after := Inserted(db, o, base);
    assert after.orders.Keys == after.delivery.Keys == after.payment.Keys == db.orders.Keys + {k};
    assert Unsigned(RowOfOrder(o), RowOfPayment(o.payment));
  }

  lemma InsertedItemRows(db: Database, k: string, items: seq<Item>, base: nat)
    ensures forall i :: 0 <= i < |db.item| ==> (db.item + ItemRows(k, items, base))[i] == db.item[i]
    ensures forall i :: |db.item| <= i < |db.item| + |items| ==>
              (db.item + ItemRows(k, items, base))[i].orderUid == k
  {
  }

  /** A committed order adds one row to each of three tables and one per item, and touches no other row. */
  lemma ExactlyTheseRows(db: Database, o: Order, base: nat, other: string)
    requires WellFormed(db) && Admissible(db, o)
    ensures var after := Inserted(db, o, base);
            var k := ParseUuid(o.uid).value;
            && |after.orders| == |db.orders| + 1
            && |after.delivery| == |db.delivery| + 1
            && |after.payment| == |db.payment| + 1
            && |after.item| == |db.item| + |o.items|
            && after.orders.Keys - db.orders.Keys == {k}
            && after.item[..|db.item|] == db.item
            && (forall i :: |db.item| <= i < |after.item| ==> after.item[i].orderUid == k)
            && (other in db.orders ==>
                  && other in after.orders && after.orders[other] == db.orders[other]
                  && after.delivery[other] == db.delivery[other]
                  && after.payment[other] == db.payment[other])
  {
    var k := ParseUuid(o.uid).value;
    OneMoreKey(db.orders, k, RowOfOrder(o));
    OneMoreKey(db.delivery, k, RowOfDelivery(o.delivery));
    OneMoreKey(db.payment, k, RowOfPayment(o.payment));
  }

  lemma OneMoreKey<V>(m: map<string, V>, k: string, v: V)
    requires k !in m
    ensures |m[k := v]| == |m| + 1
    ensures m[k := v].Keys - m.Keys == {k}
  {
  }

  lemma GrowsReflexive(a: Database)
    ensures Grows(a, a)
  {
  }

  lemma GrowsTransitive(a: Database, b: Database, c: Database)
    requires Grows(a, b) && Grows(b, c)
    ensures Grows(a, c)
  {
    forall i | |a.item| <= i < |c.item|
      ensures c.item[i].orderUid !in a.orders
    {
      if i < |b.item| {
        assert c.item[i] == b.item[i];
      }
    }
  }

  /** Every state reachable from a well-formed one is well formed and later. */
  lemma {:induction false} CommitsGrow(db: Database, txs: seq<Transaction>)
    requires WellFormed(db)
    ensures WellFormed(Commits(db, txs)) && Grows(db, Commits(db, txs))
  {
    if txs != [] {
      var before := Commits(db, txs[..|txs| - 1]);
      var t := txs[|txs| - 1];
      CommitsGrow(db, txs[..|txs| - 1]);
      if Admissible(before, t.order) {
        InsertedIsLater(before, t.order, t.base);
        GrowsTransitive(db, before, Inserted(before, t.order, t.base));
      }
    }
  }

  /** The first order of a history that the schema admits under a UID. */
  function FirstOf(txs: seq<Transaction>, k: string): (first: Option<Order>)
    ensures first.Some? ==> Storable(first.value) && ParseUuid(first.value.uid) == Some(k)
  {
    if txs == [] then None
    else
      var first := FirstOf(txs[..|txs| - 1], k);
      var o := txs[|txs| - 1].order;
      if first == None && Storable(o) && ParseUuid(o.uid) == Some(k) then Some(o) else first
  }

  // ---------- What a query finds ----------

  lemma {:induction false} ItemsOfConcat(a: seq<ItemRow>, b: seq<ItemRow>, k: string)
    ensures ItemsOf(a + b, k) == ItemsOf(a, k) + ItemsOf(b, k)
  {
    if a == [] {
      assert a + b == b;
    } else {
      assert (a + b)[1..] == a[1..] + b;
      ItemsOfConcat(a[1..], b, k);
    }
  }

  lemma {:induction false} ItemsOfOthers(rows: seq<ItemRow>, k: string)
    requires forall i :: 0 <= i < |rows| ==> rows[i].orderUid != k
    ensures ItemsOf(rows, k) == []
  {
    if rows != [] {
      ItemsOfOthers(rows[1..], k);
    }
  }

  lemma {:induction false} ItemsOfOwn(k: string, items: seq<Item>, base: nat)
    ensures ItemsOf(ItemRows(k, items, base), k) == items
  {
    if items != [] {
      ItemsOfOwn(k, items[1..], base + 1);
      assert ItemRows(k, items, base)[1..] == ItemRows(k, items[1..], base + 1);
    }
  }

  /** Rows of an order that was there before are found unchanged in any later state. */
  lemma LaterItems(a: Database, b: Database, k: string)
    requires Grows(a, b) && k in a.orders
    ensures ItemsOf(b.item, k) == ItemsOf(a.item, k)
  {
    var more := b.item[|a.item|..];
    assert b.item == a.item + more;
    ItemsOfConcat(a.item, more, k);
    ItemsOfOthers(more, k);
  }

  /** A found order stays found, with the same answer, in every later state. */
  lemma FoundStaysFound(a: Database, b: Database, uid: string, owner: Option<string>)
    requires Grows(a, b) && Lookup(a, uid, owner).Ok?
    ensures Lookup(b, uid, owner) == Lookup(a, uid, owner)
    ensures Header(b, uid, owner) == Header(a, uid, owner)
  {
    LaterItems(a, b, ParseUuid(uid).value);
  }

  /** In a well-formed database a parsable UID is either found or absent: no join comes up empty. */
  lemma NoBrokenJoin(db: Database, uid: string, owner: Option<string>)
    requires WellFormed(db)
    ensures Lookup(db, uid, owner) == Failed <==> ParseUuid(uid) == None
    ensures Lookup(db, uid, None).Ok? <==> ParseUuid(uid).Some? && ParseUuid(uid).value in db.orders
    ensures Lookup(db, uid, owner).Ok? ==> Lookup(db, uid, owner).value.uid == ParseUuid(uid).value
  {
  }

  /**
   * An order is read in two queries without a transaction. Whatever transactions commit in between,
   * the two answers put together are one snapshot's answer, both the earlier and the later one.
   */
  lemma TwoQueryRead(history: seq<Transaction>, between: seq<Transaction>, uid: string, owner: Option<string>)
    ensures var first := Commits(EMPTY, history);
            var second := Commits(first, between);
            && (Header(first, uid, owner) == Failed <==> ParseUuid(uid) == None)
            && (Header(first, uid, owner).Ok? ==>
                  var h := Header(first, uid, owner).value;
                  && Ok(h.(items := ItemsOf(second.item, h.uid))) == Lookup(first, uid, owner)
                  && Lookup(second, uid, owner) == Lookup(first, uid, owner))
  {
    var first := Commits(EMPTY, history);
    var second := Commits(first, between);
    CommitsGrow(EMPTY, history);
    CommitsGrow(first, between);
    NoBrokenJoin(first, uid, owner);
    if Header(first, uid, owner).Ok? {
      LaterItems(first, second, ParseUuid(uid).value);
      FoundStaysFound(first, second, uid, owner);
    }
  }

  lemma InsertedItems(db: Database, o: Order, base: nat, k: string)
    requires WellFormed(db) && Admissible(db, o)
    ensures ItemsOf(Inserted(db, o, base).item, k) ==
            if ParseUuid(o.uid) == Some(k) then o.items else ItemsOf(db.item, k)
  {
    var own := ParseUuid(o.uid).value;
    var rows := ItemRows(own, o.items, base);
    ItemsOfConcat(db.item, rows, k);
    if k == own {
      ItemsOfOthers(db.item, k);
      ItemsOfOwn(k, o.items, base);
    } else {
      ItemsOfOthers(rows, k);
    }
  }

  /** How an order comes back: canonical UID, whole microseconds, the local zone. */
  function Stored(o: Order): Order
    requires ParseUuid(o.uid).Some?
  {
    o.(uid := ParseUuid(o.uid).value, dateCreated := Timestamp(Micros(o.dateCreated) * 1000, Local))
  }

  lemma StoredIsEquivalent(o: Order)
    requires ParseUuid(o.uid).Some?
    ensures Equivalent(Stored(o), o)
  {
    ParsedIsCanonical(o.uid);
  }

  lemma InsertedHeader(db: Database, o: Order, base: nat)
    requires WellFormed(db) && Admissible(db, o)
    ensures Header(Inserted(db, o, base), o.uid, None) == Ok(Stored(o).(items := []))
  {
    var k := ParseUuid(o.uid).value;
    var after := Inserted(db, o, base);
    assert after.orders[k] == RowOfOrder(o);
    assert after.delivery[k] == RowOfDelivery(o.delivery);
    assert after.payment[k] == RowOfPayment(o.payment);
  }

  /** Storing an order and loading it again gives the same order ... */
  lemma RoundTrip(db: Database, o: Order, base: nat)
    requires WellFormed(db) && Admissible(db, o)
    ensures Lookup(Inserted(db, o, base), o.uid, None) == Ok(Stored(o))
    ensures Equivalent(Stored(o), o) && 0 <= o.dateCreated.nanos - Stored(o).dateCreated.nanos < 1000
  {
    InsertedHeader(db, o, base);
    InsertedItems(db, o, base, ParseUuid(o.uid).value);
    StoredIsEquivalent(o);
  }

  /** ... and changes no other answer. */
  lemma InsertedLeavesOthers(db: Database, o: Order, base: nat, uid: string, owner: Option<string>)
    requires WellFormed(db) && Admissible(db, o) && ParseUuid(uid) != ParseUuid(o.uid)
    ensures Lookup(Inserted(db, o, base), uid, owner) == Lookup(db, uid, owner)
  {
    if ParseUuid(uid).Some? {
      InsertedItems(db, o, base, ParseUuid(uid).value);
      assert Header(Inserted(db, o, base), uid, owner) == Header(db, uid, owner);
    }
  }

  /**
   * A history leaves old orders as they were, and under each new UID the first order that can be stored; nothing
   * else is found.
   */
  lemma {:induction false} CommitsHold(db: Database, txs: seq<Transaction>, k: string)
    requires WellFormed(db) && IsCanonical(k)
    ensures Lookup(Commits(db, txs), k, None) ==
            if k in db.orders then Lookup(db, k, None)
            else match FirstOf(txs, k)
              case Some(o) => Ok(Stored(o))
              case None => NoRows
  {
    NoBrokenJoin(db, k, None);
    hide Storable, WellFormed, Lookup, Inserted, Admissible, ParseUuid;
    if txs != [] {
      var rest, t := txs[..|txs| - 1], txs[|txs| - 1];
      CommitsHold(db, rest, k);
      CommitsGrow(db, rest);
      OneCommit(Commits(db, rest), t, k);
    }
  }

  /** One transaction adds its order if it can be stored and the UID is free, and changes no other answer. */
  lemma OneCommit(db: Database, t: Transaction, k: string)
    requires WellFormed(db) && IsCanonical(k)
    ensures var after := if Admissible(db, t.order) then Inserted(db, t.order, t.base) else db;
            Lookup(after, k, None) ==
            if Lookup(db, k, None) == NoRows && Storable(t.order) && ParseUuid(t.order.uid) == Some(k)
            then Ok(Stored(t.order)) else Lookup(db, k, None)
  {
    NoBrokenJoin(db, k, None);
    hide OrderFits, DeliveryFits, PaymentFits, ItemFits;
    if Admissible(db, t.order) {
      hide WellFormed, Inserted, Header;
      if ParseUuid(t.order.uid) == Some(k) {
        RoundTrip(db, t.order, t.base);
      } else {
        InsertedLeavesOthers(db, t.order, t.base, k, None);
      }
    }
  }

  /** Every order of a history that the schema admits is found afterwards, or another was there first. */
  lemma {:induction false} NoTransactionIsLost(db: Database, txs: seq<Transaction>, i: nat)
    requires WellFormed(db) && i < |txs| && Storable(txs[i].order)
    ensures Lookup(Commits(db, txs), txs[i].order.uid, None).Ok?
  {
    var n := |txs| - 1;
    CommitsGrow(db, txs);
    NoBrokenJoin(Commits(db, txs), txs[i].order.uid, None);
    hide Storable, WellFormed, Lookup;
    if i < n {
      NoTransactionIsLost(db, txs[..n], i);
      CommitsGrow(db, txs[..n]);
      NoBrokenJoin(Commits(db, txs[..n]), txs[i].order.uid, None);
    }
  }

  /** What makes an order row unreadable: a missing delivery or payment, a NULL, or a negative number. */
  lemma ReadableIff(db: Database, uid: string, owner: Option<string>)
    ensures Lookup(db, uid, owner) == NoRows <==>
            && ParseUuid(uid).Some?
            && (ParseUuid(uid).value in db.orders && owner.Some? ==>
                  db.orders[ParseUuid(uid).value].customerId != owner.value)
            && (owner == None ==> ParseUuid(uid).value !in db.orders)
    ensures Lookup(db, uid, None).Ok? <==>
            && ParseUuid(uid).Some?
            && var k := ParseUuid(uid).value;
            && k in db.orders && k in db.delivery && k in db.payment
            && db.orders[k].internalSignature != None && db.payment[k].requestId != None
            && db.orders[k].smId >= 0 && db.payment[k].paymentDt >= 0 && db.payment[k].deliveryCost >= 0
            && db.payment[k].goodsTotal >= 0 && db.payment[k].customFee >= 0
  {
  }

  /** Two orders are equivalent iff, stored in an empty database, they differ in the order of their items at most. */
  lemma EquivalentIff(a: Order, b: Order)
    requires ParseUuid(a.uid).Some? && ParseUuid(b.uid).Some?
    ensures Equivalent(a, b) <==>
            && Stored(a).(items := []) == Stored(b).(items := [])
            && multiset(a.items) == multiset(b.items)
  {
    var x, y := Essence(a).0, Essence(b).0;
    var at, bt := Stored(a).dateCreated, Stored(b).dateCreated;
    if Equivalent(a, b) {
      assert x.dateCreated == y.dateCreated;
      assert x.(dateCreated := at) == Stored(a).(items := []);
      assert y.(dateCreated := bt) == Stored(b).(items := []);
    } else if Stored(a).(items := []) == Stored(b).(items := []) {
      assert at == bt && Micros(at) == Micros(a.dateCreated) && Micros(bt) == Micros(b.dateCreated);
      assert x == Stored(a).(items := []).(dateCreated := x.dateCreated);
      assert y == Stored(b).(items := []).(dateCreated := y.dateCreated);
    }
  }

  /** The per-user query is the plain one with other customers' orders hidden. */
  lemma UserLookupFilters(db: Database, uid: string, user: string)
    requires WellFormed(db)
    ensures Lookup(db, uid, Some(user)) ==
            var all := Lookup(db, uid, None);
            if all.Ok? && all.value.customerId != user then NoRows else all
  {
  }
}
