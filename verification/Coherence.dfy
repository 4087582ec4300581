/** What it means for the cache to agree with the database, and which steps keep it so. */
module Coherence {
  import opened Orders
  import opened Slots
  import opened Tables
  import opened OrderRepository

  /** The database has this order under its UID, which is spelled canonically. */
  ghost predicate Backed(db: Database, o: Order) {
    IsCanonical(o.uid) && SameAnswer(Ok(o), Tables.Lookup(db, o.uid, None))
  }

  ghost predicate Coherent(slots: seq<Slot>, db: Database) {
    forall s :: s in slots && s.live ==> Backed(db, s.order)
  }

  lemma BackedStaysBacked(a: Database, b: Database, o: Order)
    requires Grows(a, b) && Backed(a, o)
    ensures Backed(b, o)
  {
    FoundStaysFound(a, b, o.uid, None);
  }

  lemma CoherentStaysCoherent(slots: seq<Slot>, a: Database, b: Database)
    requires Grows(a, b) && Coherent(slots, a)
    ensures Coherent(slots, b)
  {
    forall s | s in slots && s.live ensures Backed(b, s.order) {
      BackedStaysBacked(a, b, s.order);
    }
  }

  /** An order just inserted is backed, although the database rounds its timestamp. */
  lemma InsertedIsBacked(db: Database, o: Order, base: nat)
    requires WellFormed(db) && Admissible(db, o) && IsCanonical(o.uid)
    ensures Backed(Inserted(db, o, base), o)
  {
    RoundTrip(db, o, base);
  }

  /** An order a read has returned is backed. */
  lemma ReadIsBacked(db: Database, uid: string, owner: Option<string>, io: ReadIo)
    requires WellFormed(db) && Streams(db, uid, io.rows) && ReadOrder(db, uid, owner, io).Ok?
    ensures var o := ReadOrder(db, uid, owner, io).value;
            && Backed(db, o) && ParseUuid(uid) == Some(o.uid) && (owner.Some? ==> o.customerId == owner.value)
  {
    var o := ReadOrder(db, uid, owner, io).value;
    ReadIsLookup(db, uid, owner, io);
    ParsedIsCanonical(uid);
    assert Tables.Lookup(db, o.uid, None) == Tables.Lookup(db, uid, owner);
  }

  lemma SetKeepsCoherent(capacity: int, slots: seq<Slot>, db: Database, o: Order)
    requires UniqueLive(slots) && Coherent(slots, db) && Backed(db, o)
    ensures Coherent(SetSlots(capacity, slots, o), db)
  {
    forall s | s in SetSlots(capacity, slots, o) && s.live ensures Backed(db, s.order) {
      SetOrigin(capacity, slots, o, s);
    }
  }

  lemma GetKeepsCoherent(slots: seq<Slot>, db: Database, key: string)
    requires Coherent(slots, db)
    ensures Coherent(GetSlots(slots, key), db)
  {
    assert forall s :: s in GetSlots(slots, key) ==> s in slots;
  }

  lemma KillKeepsCoherent(slots: seq<Slot>, db: Database, key: string)
    requires Coherent(slots, db)
    ensures Coherent(Kill(slots, key), db)
  {
    forall s | s in Kill(slots, key) && s.live ensures Backed(db, s.order) {
      var i :| 0 <= i < |slots| && Kill(slots, key)[i] == s;
      assert slots[i] == s;
    }
  }

  /** A hit is what the database would have answered. */
  lemma HitIsLookup(slots: seq<Slot>, db: Database, key: string)
    requires Coherent(slots, db) && Slots.Lookup(slots, key).Some?
    ensures var o := Slots.Lookup(slots, key).value;
            && o.uid == key && Backed(db, o)
            && SameAnswer(Ok(o), Tables.Lookup(db, key, None))
  {
    assert slots[Find(slots, key)] in slots;
  }
}
