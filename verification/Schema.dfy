/** The constraints of the schema as a property of the tables, and the statements that are refused for breaking it. */
module Schema {
  import opened Orders
  import opened Tables

  predicate OrderTyped(r: OrderRow) {
    && |r.trackNumber| <= 50 && |r.entry| <= 10 && |r.locale| <= 2
    && (r.internalSignature.Some? ==> |r.internalSignature.value| <= 100)
    && |r.customerId| <= 50 && |r.deliveryService| <= 50 && |r.shardkey| <= 10
    && -2147483648 <= r.smId <= 2147483647 && |r.oofShard| <= 10
  }

  predicate DeliveryTyped(r: DeliveryRow) {
    && |r.name| <= 100 && |r.phone| <= 16 && |r.zip| <= 10 && |r.city| <= 100 && |r.address| <= 100
    && |r.region| <= 100 && |r.email| <= 100
  }

  predicate PaymentTyped(r: PaymentRow) {
    && |r.transaction| <= 100 && (r.requestId.Some? ==> |r.requestId.value| <= 100) && |r.currency| <= 3
    && |r.provider| <= 50 && -2147483648 <= r.amount <= 2147483647
    && -9223372036854775808 <= r.paymentDt <= 9223372036854775807 && |r.bank| <= 20
    && -2147483648 <= r.deliveryCost <= 2147483647 && -2147483648 <= r.goodsTotal <= 2147483647
    && -2147483648 <= r.customFee <= 2147483647
  }

  predicate ItemTyped(i: Item) {
    && i.chrtId <= 2147483647 && |i.trackNumber| <= 50 && i.price <= 2147483647 && |i.rid| <= 50
    && |i.name| <= 50 && i.sale <= 2147483647 && |i.size| <= 10 && i.totalPrice <= 2147483647
    && i.nmId <= 2147483647 && |i.brand| <= 50 && i.status <= 2147483647
  }

  /** Every row fits its columns and belongs to an order, and no item id occurs twice. */
  ghost predicate Satisfied(db: Database) {
    && (forall k :: k in db.orders ==> OrderTyped(db.orders[k]))
    && (forall k :: k in db.delivery ==> k in db.orders && DeliveryTyped(db.delivery[k]))
    && (forall k :: k in db.payment ==> k in db.orders && PaymentTyped(db.payment[k]))
    && (forall i :: 0 <= i < |db.item| ==> db.item[i].orderUid in db.orders && ItemTyped(db.item[i].item))
    && (forall i, j :: 0 <= i < j < |db.item| ==> db.item[i].id != db.item[j].id)
  }

  lemma OrderInsertIff(db: Database, o: Order)
    requires Satisfied(db)
    ensures InsertOrder(db, o).Some? <==>
            && ParseUuid(o.uid).Some? && ParseUuid(o.uid).value !in db.orders
            && Satisfied(db.(orders := db.orders[ParseUuid(o.uid).value := RowOfOrder(o)]))
    ensures InsertOrder(db, o).Some? ==> Satisfied(InsertOrder(db, o).value)
  {
    if ParseUuid(o.uid).Some? {
      var k := ParseUuid(o.uid).value;
      var after := db.(orders := db.orders[k := RowOfOrder(o)]);
      assert after.orders[k] == RowOfOrder(o);
    }
  }

  lemma DeliveryInsertIff(db: Database, uid: string, d: Delivery)
    requires Satisfied(db)
    ensures InsertDelivery(db, uid, d).Some? <==>
            && ParseUuid(uid).Some? && ParseUuid(uid).value !in db.delivery
            && Satisfied(db.(delivery := db.delivery[ParseUuid(uid).value := RowOfDelivery(d)]))
    ensures InsertDelivery(db, uid, d).Some? ==> Satisfied(InsertDelivery(db, uid, d).value)
  {
    if ParseUuid(uid).Some? {
      var k := ParseUuid(uid).value;
      var after := db.(delivery := db.delivery[k := RowOfDelivery(d)]);
      assert after.delivery[k] == RowOfDelivery(d);
    }
  }

  lemma PaymentInsertIff(db: Database, uid: string, p: Payment)
    requires Satisfied(db)
    ensures InsertPayment(db, uid, p).Some? <==>
            && ParseUuid(uid).Some? && ParseUuid(uid).value !in db.payment
            && Satisfied(db.(payment := db.payment[ParseUuid(uid).value := RowOfPayment(p)]))
    ensures InsertPayment(db, uid, p).Some? ==> Satisfied(InsertPayment(db, uid, p).value)
  {
    if ParseUuid(uid).Some? {
      var k := ParseUuid(uid).value;
      var after := db.(payment := db.payment[k := RowOfPayment(p)]);
      assert after.payment[k] == RowOfPayment(p);
    }
  }

  lemma ItemInsertIff(db: Database, id: nat, uid: string, i: Item)
    requires Satisfied(db)
    ensures InsertItem(db, id, uid, i).Some? <==>
            && ParseUuid(uid).Some?
            && Satisfied(db.(item := db.item + [ItemRow(id, ParseUuid(uid).value, i)]))
    ensures InsertItem(db, id, uid, i).Some? ==> Satisfied(InsertItem(db, id, uid, i).value)
  {
    if ParseUuid(uid).Some? {
      var row := ItemRow(id, ParseUuid(uid).value, i);
      var after := db.(item := db.item + [row]);
      assert after.item[|db.item|] == row;
      assert forall j :: 0 <= j < |db.item| ==> after.item[j] == db.item[j];
    }
  }

  /** A statement succeeds iff its row has a key of its own and leaves the schema satisfied. */
  lemma StatementsKeepSchema(db: Database, o: Order, id: nat, i: Item)
    requires Satisfied(db)
    ensures InsertOrder(db, o).Some? <==>
            && ParseUuid(o.uid).Some? && ParseUuid(o.uid).value !in db.orders
            && Satisfied(db.(orders := db.orders[ParseUuid(o.uid).value := RowOfOrder(o)]))
    ensures InsertDelivery(db, o.uid, o.delivery).Some? <==>
            && ParseUuid(o.uid).Some? && ParseUuid(o.uid).value !in db.delivery
            && Satisfied(db.(delivery := db.delivery[ParseUuid(o.uid).value := RowOfDelivery(o.delivery)]))
    ensures InsertPayment(db, o.uid, o.payment).Some? <==>
            && ParseUuid(o.uid).Some? && ParseUuid(o.uid).value !in db.payment
            && Satisfied(db.(payment := db.payment[ParseUuid(o.uid).value := RowOfPayment(o.payment)]))
    ensures InsertItem(db, id, o.uid, i).Some? <==>
            && ParseUuid(o.uid).Some?
            && Satisfied(db.(item := db.item + [ItemRow(id, ParseUuid(o.uid).value, i)]))
  {
    hide Satisfied;
    OrderInsertIff(db, o);
    DeliveryInsertIff(db, o.uid, o.delivery);
    PaymentInsertIff(db, o.uid, o.payment);
    ItemInsertIff(db, id, o.uid, i);
  }

  lemma RowsTyped(o: Order)
    requires Storable(o)
    ensures OrderTyped(RowOfOrder(o)) && DeliveryTyped(RowOfDelivery(o.delivery))
    ensures PaymentTyped(RowOfPayment(o.payment))
    ensures forall i :: i in o.items ==> ItemTyped(i)
  {
    assert forall i :: i in o.items ==> ItemFits(i);
  }

  /** A committed transaction whose item ids are new leaves the schema satisfied. */
  lemma InsertedKeepsSchema(db: Database, o: Order, base: nat)
    requires Satisfied(db) && Admissible(db, o)
    requires forall i :: 0 <= i < |db.item| ==> db.item[i].id < base
    ensures Satisfied(Inserted(db, o, base))
  {
    var after := Inserted(db, o, base);
    var k := ParseUuid(o.uid).value;
    assert after.orders[k] == RowOfOrder(o);
    hide OrderTyped, DeliveryTyped, PaymentTyped, ItemTyped, OrderFits, DeliveryFits, PaymentFits, ItemFits, ParseUuid;
    RowsTyped(o);
    forall i | 0 <= i < |after.item|
      ensures after.item[i].orderUid in after.orders && ItemTyped(after.item[i].item)
      ensures i < |db.item| ==> after.item[i] == db.item[i]
      ensures i >= |db.item| ==> after.item[i].id == base + i - |db.item|
    {
      if i >= |db.item| {
        assert after.item[i] == ItemRow(base + i - |db.item|, k, o.items[i - |db.item|]);
        assert o.items[i - |db.item|] in o.items;
      }
    }
  }
}
