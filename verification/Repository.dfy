/** The repository: one transaction per write, two queries per read, and an oracle that may fail any of them. */
module OrderRepository {
  import opened Orders
  import opened Tables
  import opened Recent
  import Schema

  datatype AddResult = Added | AlreadyExists | Rejected

  /** What the server does to one order read: which steps fail, and in which order the item rows arrive. */
  datatype ReadIo = ReadIo(headerFails: bool, itemsFail: bool, scanFails: nat -> bool, iterationFails: bool,
                           rows: seq<Item>)
  {
    predicate Healthy() {
      !headerFails && !itemsFail && !iterationFails && forall i: nat :: i < |rows| ==> !scanFails(i)
    }
  }

  /** The item query has no ORDER BY: any arrangement of the order's rows may arrive. */
  predicate Streams(db: Database, uid: string, rows: seq<Item>) {
    ParseUuid(uid).Some? ==> multiset(rows) == multiset(ItemsOf(db.item, ParseUuid(uid).value))
  }

  /** The result of reading one order, for a given behaviour of the server. */
  function ReadOrder(db: Database, uid: string, owner: Option<string>, io: ReadIo): Outcome<Order> {
    if io.headerFails then Failed
    else match Header(db, uid, owner)
      case NoRows => NoRows
      case Failed => Failed
      case Ok(h) => if io.Healthy() then Ok(h.(items := io.rows)) else Failed
  }

  /** The same answer up to storage precision and item order; see module Exactness for when it is the very same. */
  ghost predicate SameAnswer(a: Outcome<Order>, b: Outcome<Order>) {
    match (a, b)
    case (Ok(x), Ok(y)) => Equivalent(x, y) && x.uid == y.uid && x.customerId == y.customerId
    case (NoRows, NoRows) => true
    case (Failed, Failed) => true
    case _ => false
  }

  /** A read either answers as one snapshot would or reports a failure, and a healthy server never fails it. */
  lemma ReadIsLookup(db: Database, uid: string, owner: Option<string>, io: ReadIo)
    requires Streams(db, uid, io.rows)
    ensures ReadOrder(db, uid, owner, io) != Failed ==>
              SameAnswer(ReadOrder(db, uid, owner, io), Lookup(db, uid, owner))
    ensures io.Healthy() ==> SameAnswer(ReadOrder(db, uid, owner, io), Lookup(db, uid, owner))
  {
  }

  /** What the server does to the query for recent UIDs, and how its rows happen to be arranged. */
  datatype ListIo = ListIo(queryFails: bool, scanFails: nat -> bool, iterationFails: bool, heap: seq<string>)
  {
    predicate Healthy(rows: nat) {
      !queryFails && !iterationFails && forall i: nat :: i < rows ==> !scanFails(i)
    }
  }

  /** The orders among uids that could be read, in the order they were asked for. */
  function LoadAll(db: Database, uids: seq<string>, ios: seq<ReadIo>): seq<Order>
    requires |ios| == |uids|
  {
    if uids == [] then []
    else
      var n := |uids| - 1;
      var before := LoadAll(db, uids[..n], ios[..n]);
      match ReadOrder(db, uids[n], None, ios[n])
      case Ok(o) => before + [o]
      case _ => before
  }

  datatype TxState = Open | Committed | RolledBack

  /** A database transaction: its statements see its own changes, which reach the tables when it is committed. */
  class Tx {
    var staged: Database
    var state: TxState

    constructor (db: Database)
      ensures staged == db && state == Open
    {
      staged, state := db, Open;
    }

    /** Run a statement: it fails of its own, or by violating a constraint, and then changes nothing. */
    method Exec(result: Option<Database>, fails: bool) returns (err: bool)
      requires state == Open
      modifies this`staged
      ensures err <==> fails || result == None
      ensures staged == if err then old(staged) else result.value
    {
      err := fails || result.None?;
      if !err {
        staged := result.value;
      }
    }

    method Commit(fails: bool) returns (err: bool)
      requires state == Open
      modifies this`state
      ensures err == fails && state == if err then Open else Committed
    {
      err := fails;
      if !err {
        state := Committed;
      }
    }

    method Rollback()
      requires state == Open
      modifies this`state
      ensures state == RolledBack
    {
      state := RolledBack;
    }
  }

  class Repository {
    var db: Database
    /** The item id sequence; like any PostgreSQL sequence it is not rolled back. */
    var nextItem: nat

    /** What the schema itself guarantees: foreign keys and serial ids. */
    ghost predicate Valid()
      reads this
    {
      && db.delivery.Keys <= db.orders.Keys && db.payment.Keys <= db.orders.Keys
      && (forall i :: 0 <= i < |db.item| ==> db.item[i].orderUid in db.orders && db.item[i].id < nextItem)
    }

    constructor ()
      ensures Valid() && db == EMPTY
    {
      db, nextItem := EMPTY, 0;
    }

    /**
     * Insert an order with everything that belongs to it in one transaction. Statement i fails for reasons
     * of its own when fails(i): 0 is BEGIN, 1 to 3 the three single rows, 4 + i item i, the last COMMIT.
     * No transaction is left open: it is committed, or rolled back by the deferred handler on any error.
     */
    method AddOrder(order: Order, fails: nat -> bool) returns (ok: bool, tx: Tx?)
      requires Valid()
      modifies this
      ensures Valid()
      ensures ok <==> Admissible(old(db), order) && forall i: nat :: i < |order.items| + 5 ==> !fails(i)
      ensures ok ==> db == Inserted(old(db), order, old(nextItem))
      ensures !ok ==> db == old(db)
      ensures Schema.Satisfied(old(db)) ==> Schema.Satisfied(db)
      ensures tx == null <==> fails(0)
      ensures tx != null ==> fresh(tx) && tx.state == if ok then Committed else RolledBack
      ensures nextItem >= old(nextItem)
    {
      if fails(0) {
        return false, null;
      }
      tx := new Tx(db);
      var err := Store(tx, order, fails);
      if err {
        tx.Rollback();
        return false, tx;
      }
      if Schema.Satisfied(db) {
        Schema.InsertedKeepsSchema(db, order, old(nextItem));
      }
      db := tx.staged;
      return true, tx;
    }

    /** The statements of AddOrder on an open transaction, up to the first error. */
    method Store(tx: Tx, order: Order, fails: nat -> bool) returns (err: bool)
      requires Valid() && tx.state == Open && tx.staged == db && !fails(0)
      modifies tx, this`nextItem
      ensures nextItem >= old(nextItem)
      ensures !err <==> Admissible(db, order) && forall i: nat :: i < |order.items| + 5 ==> !fails(i)
      ensures tx.state == if err then Open else Committed
      ensures !err ==> tx.staged == Inserted(db, order, old(nextItem)) && nextItem == old(nextItem) + |order.items|
    {
      err := tx.Exec(InsertOrder(tx.staged, order), fails(1));
      if err {
        return;
      }
      err := tx.Exec(InsertDelivery(tx.staged, order.uid, order.delivery), fails(2));
      if err {
        return;
      }
      err := tx.Exec(InsertPayment(tx.staged, order.uid, order.payment), fails(3));
      if err {
        return;
      }
      SinglesInserted(db, order, nextItem);
      err := InsertItems(tx, order, fails);
      if err {
        return;
      }
      err := tx.Commit(fails(4 + |order.items|));
    }

    /** After the three single rows the transaction is the order stored without items. */
    lemma SinglesInserted(db: Database, o: Order, base: nat)
      requires db.delivery.Keys <= db.orders.Keys && db.payment.Keys <= db.orders.Keys
      requires InsertOrder(db, o).Some?
      ensures var tx := InsertOrder(db, o).value;
              InsertDelivery(tx, o.uid, o.delivery).Some? ==>
                var tx' := InsertDelivery(tx, o.uid, o.delivery).value;
                InsertPayment(tx', o.uid, o.payment).Some? ==>
                  InsertPayment(tx', o.uid, o.payment).value == Inserted(db, o.(items := []), base)
    {
      assert db.item + [] == db.item;
    }

    /** The loop over the items, on the open transaction. */
    method InsertItems(tx: Tx, order: Order, fails: nat -> bool) returns (err: bool)
      requires Valid() && tx.state == Open && ParseUuid(order.uid).Some?
      requires tx.staged == Inserted(db, order.(items := []), nextItem)
      modifies tx, this`nextItem
      ensures nextItem >= old(nextItem) && tx.state == Open
      ensures !err <==>
              && (forall j: nat :: 4 <= j < 4 + |order.items| ==> !fails(j))
              && (forall i :: 0 <= i < |order.items| ==> ItemFits(order.items[i]))
      ensures !err ==> tx.staged == Inserted(db, order, old(nextItem)) && nextItem == old(nextItem) + |order.items|
    {
      ghost var k := ParseUuid(order.uid).value;
      ghost var base := nextItem;
      for i := 0 to |order.items|
        invariant nextItem == base + i && tx.state == Open
        invariant forall j: nat :: 4 <= j < 4 + i ==> !fails(j)
        invariant forall j :: 0 <= j < i ==> ItemFits(order.items[j])
        invariant tx.staged == Inserted(db, order.(items := order.items[..i]), base)
      {
        var id := nextItem;
        nextItem := nextItem + 1;
        FreshId(db, k, order.items[..i], base, id);
        err := tx.Exec(InsertItem(tx.staged, id, order.uid, order.items[i]), fails(4 + i));
        if err {
          return;
        }
        assert ItemRows(k, order.items[..i + 1], base) ==
               ItemRows(k, order.items[..i], base) + [ItemRow(id, k, order.items[i])];
        assert tx.staged.item == db.item + ItemRows(k, order.items[..i + 1], base);
      }
      assert order.items[..|order.items|] == order.items;
      return false;
    }

    lemma FreshId(db: Database, k: string, items: seq<Item>, base: nat, id: nat)
      requires forall i :: 0 <= i < |db.item| ==> db.item[i].id < base
      requires id == base + |items|
      ensures forall r :: r in db.item + ItemRows(k, items, base) ==> r.id != id
    {
    }

    method OrderExists(uid: string, fails: bool) returns (r: Outcome<bool>)
      ensures r == Failed <==> fails || ParseUuid(uid) == None
      ensures r.Ok? ==> r.value == (ParseUuid(uid).value in db.orders)
      ensures r != NoRows
    {
      match ParseUuid(uid)
      case None => return Failed;
      case Some(k) => return if fails then Failed else Ok(k in db.orders);
    }

    method AddOrderIfNotExists(order: Order, checkFails: bool, fails: nat -> bool) returns (r: AddResult)
      requires Valid()
      modifies this
      ensures Valid()
      ensures r == Added <==>
              !checkFails && Admissible(old(db), order) && forall i: nat :: i < |order.items| + 5 ==> !fails(i)
      ensures r == AlreadyExists <==>
              !checkFails && ParseUuid(order.uid).Some? && ParseUuid(order.uid).value in old(db).orders
      ensures r == Added ==> db == Inserted(old(db), order, old(nextItem))
      ensures r != Added ==> db == old(db)
      ensures nextItem >= old(nextItem)
    {
      var exists_ := OrderExists(order.uid, checkFails);
      if exists_ == Failed {
        return Rejected;
      }
      if exists_.value {
        return AlreadyExists;
      }
      var ok, _ := AddOrder(order, fails);
      return if ok then Added else Rejected;
    }

    /** Read one order: the joined row, then the item rows one by one. */
    method GetOrder(uid: string, owner: Option<string>, io: ReadIo) returns (r: Outcome<Order>)
      requires Streams(db, uid, io.rows)
      ensures r == ReadOrder(db, uid, owner, io)
      ensures r.Ok? <==>
              && Header(db, uid, owner).Ok? && !io.headerFails && !io.itemsFail && !io.iterationFails
              && forall i: nat :: i < |io.rows| ==> !io.scanFails(i)
      ensures r == NoRows <==> !io.headerFails && Header(db, uid, owner) == NoRows
      ensures r.Ok? ==> r.value == Header(db, uid, owner).value.(items := io.rows)
    {
      if io.headerFails {
        return Failed;
      }
      var header := Header(db, uid, owner);
      if !header.Ok? {
        return header;
      }
      if io.itemsFail {
        return Failed;
      }
      var items := [];
      for i := 0 to |io.rows|
        invariant items == io.rows[..i]
        invariant forall j: nat :: j < i ==> !io.scanFails(j)
      {
        if io.scanFails(i) {
          return Failed;
        }
        items := items + [io.rows[i]];
      }
      if io.iterationFails {
        return Failed;
      }
      assert items == io.rows;
      return Ok(header.value.(items := items));
    }

    method GetOrderByUID(uid: string, io: ReadIo) returns (r: Outcome<Order>)
      requires Streams(db, uid, io.rows)
      ensures r == ReadOrder(db, uid, None, io)
    {
      r := GetOrder(uid, None, io);
    }

    method GetOrderByUIDAndUser(uid: string, user: string, io: ReadIo) returns (r: Outcome<Order>)
      requires Streams(db, uid, io.rows)
      ensures r == ReadOrder(db, uid, Some(user), io)
    {
      r := GetOrder(uid, Some(user), io);
    }

    /** The newest orders first, no more than the limit; PostgreSQL rejects a negative limit. */
    method GetRecentOrdersUID(limit: int, io: ListIo) returns (r: Outcome<seq<string>>)
      requires Arranges(db, io.heap)
      ensures r.Ok? ==> limit >= 0 && IsRecent(db, limit, r.value) && r.value == Newest(db, io.heap, limit)
      ensures r.Ok? <==>
              && limit >= 0 && !io.queryFails && !io.iterationFails
              && forall i: nat :: i < limit && i < |db.orders| ==> !io.scanFails(i)
      ensures r != NoRows
    {
      hide NewestFirst;
      if limit < 0 || io.queryFails {
        return Failed;
      }
      var rows := Newest(db, io.heap, limit);
      NewestIsRecent(db, io.heap, limit);
      hide Newest, Descending, Arranges;
      var uids := [];
      for i := 0 to |rows|
        invariant uids == rows[..i]
        invariant forall j: nat :: j < i ==> !io.scanFails(j)
      {
        if io.scanFails(i) {
          return Failed;
        }
        uids := uids + [rows[i]];
      }
      if io.iterationFails {
        return Failed;
      }
      assert uids == rows;
      return Ok(uids);
    }
  }
}
