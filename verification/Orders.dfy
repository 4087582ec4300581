/** The order entity, UUID texts, and when two orders are equal up to storage precision and item order. */
module Orders {

  datatype Option<+T> = None | Some(value: T)

  /** The local zone of the process, looked up when a timestamp is written out; or an offset in seconds and its name. */
  datatype Zone = Local | Written(offset: int, name: string)

  /** An instant in nanoseconds together with the zone it is to be written in. */
  datatype Timestamp = Timestamp(nanos: int, zone: Zone)

  datatype Delivery = Delivery(name: string, phone: string, zip: string, city: string,
                               address: string, region: string, email: string)

  datatype Payment = Payment(transaction: string, requestId: string, currency: string, provider: string,
                             amount: int, paymentDt: nat, bank: string, deliveryCost: nat,
                             goodsTotal: nat, customFee: nat)

  datatype Item = Item(chrtId: nat, trackNumber: string, price: nat, rid: string, name: string, sale: nat,
                       size: string, totalPrice: nat, nmId: nat, brand: string, status: nat)

  datatype Order = Order(uid: string, trackNumber: string, entry: string, locale: string,
                         internalSignature: string, customerId: string, deliveryService: string,
                         shardKey: string, smId: nat, dateCreated: Timestamp, oofShard: string,
                         delivery: Delivery, payment: Payment, items: seq<Item>)

  // ---------- UUID texts ----------

  predicate IsHex(c: char) {
    '0' <= c <= '9' || 'a' <= c <= 'f' || 'A' <= c <= 'F'
  }

  function Lower(c: char): char {
    if 'A' <= c <= 'Z' then c - 'A' + 'a' else c
  }

  predicate IsUuidText(s: string) {
    |s| == 36 && forall i :: 0 <= i < 36 ==> if i in {8, 13, 18, 23} then s[i] == '-' else IsHex(s[i])
  }

  /** What a UUID column makes of a text: its lower-case spelling, or nothing. */
  function ParseUuid(s: string): Option<string> {
    if IsUuidText(s) then Some(seq(|s|, i requires 0 <= i < |s| => Lower(s[i]))) else None
  }

  lemma ParsedIsCanonical(s: string)
    requires ParseUuid(s).Some?
    ensures IsCanonical(ParseUuid(s).value)
  {
    var low := ParseUuid(s).value;
    assert seq(|low|, i requires 0 <= i < |low| => Lower(low[i])) == low;
  }

  predicate SameLetter(a: char, b: char) {
    a == b || ('A' <= a <= 'Z' && b == a + 32 as char) || ('A' <= b <= 'Z' && a == b + 32 as char)
  }

  predicate SameUpToCase(a: string, b: string) {
    |a| == |b| && forall i :: 0 <= i < |a| ==> SameLetter(a[i], b[i])
  }

  /** What is stored has lower-case digits and dashes only, and is the text that was given but for case. */
  lemma ParsedText(s: string)
    requires ParseUuid(s).Some?
    ensures var k := ParseUuid(s).value;
            && SameUpToCase(s, k) && |k| == 36
            && forall i :: 0 <= i < 36 ==>
                 if i in {8, 13, 18, 23} then k[i] == '-' else '0' <= k[i] <= '9' || 'a' <= k[i] <= 'f'
  {
  }

  /** So two texts name one order iff they differ in case at most. */
  lemma SameUuidIff(a: string, b: string)
    requires ParseUuid(a).Some?
    ensures ParseUuid(b) == ParseUuid(a) <==> SameUpToCase(a, b)
  {
    if ParseUuid(b) == ParseUuid(a) {
      var k := ParseUuid(a).value;
      assert forall i :: 0 <= i < 36 ==> k[i] == Lower(a[i]) && k[i] == Lower(b[i]);
    }
    if SameUpToCase(a, b) {
      assert forall i :: 0 <= i < 36 ==> SameLetter(a[i], b[i]) && Lower(a[i]) == Lower(b[i]);
      assert ParseUuid(b).value == ParseUuid(a).value;
    }
  }

  /** True of the spelling under which an order is stored and cached. */
  predicate IsCanonical(s: string) {
    ParseUuid(s) == Some(s)
  }

  // ---------- Equivalence ----------

  /** TIMESTAMPTZ keeps whole microseconds. */
  function Micros(t: Timestamp): int {
    t.nanos / 1000
  }

  /**
   * What survives storage: everything except the order of the items, the digits of the
   * timestamp below a microsecond, its zone, and the letter case of the UID.
   */
  ghost function Essence(o: Order): (Order, multiset<Item>) {
    var uid := match ParseUuid(o.uid) case Some(k) => k case None => o.uid;
    (o.(uid := uid, dateCreated := Timestamp(Micros(o.dateCreated), Local), items := []), multiset(o.items))
  }

  /**
   * Equal up to storage precision and item order; an equivalence relation, being the kernel of Essence. A client
   * that is shown the timestamp can tell two equivalent orders apart: module Exactness says when.
   */
  ghost predicate Equivalent(a: Order, b: Order) {
    Essence(a) == Essence(b)
  }
}
