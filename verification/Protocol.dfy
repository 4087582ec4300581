/**
 * Any number of consumers and request handlers running at once over one database and one cache.
 * A step is one database statement, one committed transaction or one call of a cache method, which holds
 * the mutex throughout; steps of different requests interleave freely.
 */
module Protocol {
  import opened Orders
  import opened Slots
  import opened Tables
  import opened OrderRepository
  import opened Coherence
  import Lru
  import OrderConsumer
  import OrderHandler

  datatype Query =
    | AdminApi(uid: string)
    | UserApi(uid: string, name: string)
    | Page(uid: string, name: string, admin: bool)
  {
    /** The customer a cached order is checked against. */
    function OwnerOnHit(): Option<string> {
      match this
      case AdminApi(_) => None
      case UserApi(_, n) => Some(n)
      case Page(_, n, _) => Some(n)
    }

    /** The customer the database query is restricted to. */
    function OwnerOnMiss(): Option<string> {
      match this
      case AdminApi(_) => None
      case UserApi(_, n) => Some(n)
      case Page(_, n, admin) => if admin then None else Some(n)
    }
  }

  datatype Answer = Shown(order: Order) | NotFound | Broken

  /** How far a request has come. */
  datatype Reader =
    | Asked(q: Query)
    | Missed(q: Query)
    | HeaderRead(q: Query, header: Order)
    | Loaded(q: Query, order: Order)
    | Done(q: Query, answer: Answer)

  /** How far a consumer has come with the order in hand; between orders it has no entry. */
  datatype Writer = Checked(order: Order) | Committed(order: Order)

  datatype System = System(db: Database, slots: seq<Slot>, readers: map<nat, Reader>, writers: map<nat, Writer>)

  datatype Step =
    | Check(w: nat, order: Order)
    | Commit(w: nat, base: nat)
    | CommitUnreported(w: nat, base: nat)  // takes effect, but the error path is taken
    | Abort(w: nat)
    | Publish(w: nat)
    | Ask(r: nat, q: Query)
    | ReadCache(r: nat)
    | ReadHeader(r: nat)
    | ReadItems(r: nat, rows: seq<Item>)
    | DatabaseError(r: nat)
    | FillCache(r: nat)
    | DeleteKey(key: string)

  predicate Inserts(s: System, step: Step) {
    (step.Commit? || step.CommitUnreported?) && step.w in s.writers && s.writers[step.w].Checked?
    && Admissible(s.db, s.writers[step.w].order)
  }

  predicate Enabled(s: System, step: Step) {
    match step
    case Check(w, o) => w !in s.writers && IsCanonical(o.uid)
    case Commit(_, _) => Inserts(s, step)
    case CommitUnreported(_, _) => Inserts(s, step)
    case Abort(w) => w in s.writers && s.writers[w].Checked?
    case Publish(w) => w in s.writers && s.writers[w].Committed?
    case Ask(r, _) => r !in s.readers
    case ReadCache(r) => r in s.readers && s.readers[r].Asked?
    case ReadHeader(r) => r in s.readers && s.readers[r].Missed?
    case ReadItems(r, rows) => r in s.readers && s.readers[r].HeaderRead? && Streams(s.db, s.readers[r].q.uid, rows)
    case DatabaseError(r) => r in s.readers && (s.readers[r].Missed? || s.readers[r].HeaderRead?)
    case FillCache(r) => r in s.readers && s.readers[r].Loaded?
    case DeleteKey(_) => true
  }

  function OnHit(q: Query, o: Order): Answer {
    if q.OwnerOnHit().Some? && o.customerId != q.OwnerOnHit().value then NotFound else Shown(o)
  }

  function OnHeader(q: Query, header: Outcome<Order>): Reader {
    match header
    case Ok(h) => HeaderRead(q, h)
    case NoRows => Done(q, NotFound)
    case Failed => Done(q, Broken)
  }

  function Next(capacity: int, s: System, step: Step): System
    requires Enabled(s, step)
  {
    match step
    case Check(w, o) => if o.uid in s.db.orders then s else s.(writers := s.writers[w := Checked(o)])
    case Commit(w, base) =>
      var o := s.writers[w].order;
      s.(db := Inserted(s.db, o, base), writers := s.writers[w := Writer.Committed(o)])
    case CommitUnreported(w, base) =>
      s.(db := Inserted(s.db, s.writers[w].order, base), writers := s.writers - {w})
    case Abort(w) => s.(writers := s.writers - {w})
    case Publish(w) =>
      s.(slots := SetSlots(capacity, s.slots, s.writers[w].order), writers := s.writers - {w})
    case Ask(r, q) => s.(readers := s.readers[r := Asked(q)])
    case ReadCache(r) =>
      var q := s.readers[r].q;
      (match Slots.Lookup(s.slots, q.uid)
       case Some(o) => s.(slots := GetSlots(s.slots, q.uid), readers := s.readers[r := Done(q, OnHit(q, o))])
       case None => s.(readers := s.readers[r := Missed(q)]))
    case ReadHeader(r) =>
      var q := s.readers[r].q;
      s.(readers := s.readers[r := OnHeader(q, Header(s.db, q.uid, q.OwnerOnMiss()))])
    case ReadItems(r, rows) =>
      s.(readers := s.readers[r := Loaded(s.readers[r].q, s.readers[r].header.(items := rows))])
    case DatabaseError(r) => s.(readers := s.readers[r := Done(s.readers[r].q, Broken)])
    case FillCache(r) =>
      var o := s.readers[r].order;
      s.(slots := SetSlots(capacity, s.slots, o), readers := s.readers[r := Done(s.readers[r].q, Shown(o))])
    case DeleteKey(k) => s.(slots := Kill(s.slots, k))
  }

  /** A run: each state follows from the one before by an enabled step. */
  ghost predicate Behaviour(capacity: int, run: seq<System>, steps: seq<Step>) {
    && |run| == |steps| + 1
    && forall i {:trigger steps[i]} :: 0 <= i < |steps| ==>
         Enabled(run[i], steps[i]) && run[i + 1] == Next(capacity, run[i], steps[i])
  }

  /** Any enabled step continues a run, and a single state is one. */
  lemma RunsGoOn(capacity: int, run: seq<System>, steps: seq<Step>, step: Step)
    requires Behaviour(capacity, run, steps) && Enabled(run[|run| - 1], step)
    ensures Behaviour(capacity, run + [Next(capacity, run[|run| - 1], step)], steps + [step])
    ensures Behaviour(capacity, [run[0]], [])
  {
    hide Next, Enabled;
    var longer := run + [Next(capacity, run[|run| - 1], step)];
    forall i | 0 <= i < |steps| + 1
      ensures Enabled(longer[i], (steps + [step])[i]) && longer[i + 1] == Next(capacity, longer[i], (steps + [step])[i])
    {
      if i < |steps| {
        assert Enabled(run[i], steps[i]);
      }
    }
  }

  /** What a client asking the database alone would be answered. */
  function AnswerOf(r: Outcome<Order>): Answer {
    match r
    case Ok(o) => Shown(o)
    case NoRows => NotFound
    case Failed => Broken
  }

  ghost predicate Agrees(a: Answer, db: Database, q: Query) {
    match (a, AnswerOf(Tables.Lookup(db, q.uid, q.OwnerOnMiss())))
    case (Shown(x), Shown(y)) => SameAnswer(Ok(x), Ok(y))
    case (NotFound, NotFound) => true
    case (Broken, Broken) => true
    case _ => false
  }

  // ---------- The invariant ----------

  ghost predicate WriterOk(db: Database, w: Writer) {
    match w
    case Checked(o) => IsCanonical(o.uid)
    case Committed(o) => Backed(db, o)
  }

  ghost predicate ReaderOk(db: Database, r: Reader) {
    match r
    case HeaderRead(q, h) => Header(db, q.uid, q.OwnerOnMiss()) == Ok(h)
    case Loaded(q, o) => Backed(db, o) && Agrees(Shown(o), db, q)
    case Done(q, Shown(o)) => Agrees(Shown(o), db, q)
    case _ => true
  }

  ghost predicate Inv(s: System) {
    && WellFormed(s.db) && UniqueLive(s.slots) && Coherent(s.slots, s.db)
    && (forall w :: w in s.writers ==> WriterOk(s.db, s.writers[w]))
    && (forall r :: r in s.readers ==> ReaderOk(s.db, s.readers[r]))
  }

  lemma ReaderStaysOk(a: Database, b: Database, r: Reader)
    requires Grows(a, b) && ReaderOk(a, r)
    ensures ReaderOk(b, r)
  {
    var uid, owner := r.q.uid, r.q.OwnerOnMiss();
    if Tables.Lookup(a, uid, owner).Ok? {
      FoundStaysFound(a, b, uid, owner);
    }
    if r.Loaded? {
      BackedStaysBacked(a, b, r.order);
    }
  }

  lemma WriterStaysOk(a: Database, b: Database, w: Writer)
    requires Grows(a, b) && WriterOk(a, w)
    ensures WriterOk(b, w)
  {
    if w.Committed? {
      BackedStaysBacked(a, b, w.order);
    }
  }

  lemma InsertKeepsInv(capacity: int, s: System, step: Step)
    requires Inv(s) && Inserts(s, step)
    ensures Inv(Next(capacity, s, step)) && Grows(s.db, Next(capacity, s, step).db)
  {
    var o := s.writers[step.w].order;
    var after := Next(capacity, s, step);
    assert WriterOk(s.db, s.writers[step.w]);
    InsertedIsLater(s.db, o, step.base);
    InsertedIsBacked(s.db, o, step.base);
    hide Tables.Header, Tables.Lookup, WellFormed, Grows, Inserted, Admissible, Backed, UniqueLive;
    CoherentStaysCoherent(s.slots, s.db, after.db);
    forall w | w in after.writers ensures WriterOk(after.db, after.writers[w]) {
      if w != step.w {
        WriterStaysOk(s.db, after.db, s.writers[w]);
      }
    }
    forall r | r in after.readers ensures ReaderOk(after.db, after.readers[r]) {
      ReaderStaysOk(s.db, after.db, s.readers[r]);
    }
  }

  /** The new state of the one request that moves. */
  lemma ReaderMoves(capacity: int, s: System, step: Step)
    requires Inv(s) && Enabled(s, step) && (step.ReadCache? || step.ReadHeader? || step.ReadItems? || step.FillCache?)
    ensures ReaderOk(s.db, Next(capacity, s, step).readers[step.r])
    ensures step.FillCache? ==> Backed(s.db, s.readers[step.r].order)
  {
    var q := s.readers[step.r].q;
    assert ReaderOk(s.db, s.readers[step.r]);
    match step
    case ReadCache(r) =>
      if Slots.Lookup(s.slots, q.uid).Some? {
        HitAgrees(s, q);
      }
    case ReadHeader(r) =>
    case ReadItems(r, rows) =>
      var io := ReadIo(false, false, _ => false, false, rows);
      ReadIsLookup(s.db, q.uid, q.OwnerOnMiss(), io);
      ReadIsBacked(s.db, q.uid, q.OwnerOnMiss(), io);
    case FillCache(r) =>
  }

  /** A hit shows what the database has; a hit refused to a user is one the database would refuse. */
  lemma HitAgrees(s: System, q: Query)
    requires Inv(s) && Slots.Lookup(s.slots, q.uid).Some?
    ensures var a := OnHit(q, Slots.Lookup(s.slots, q.uid).value);
            a.Shown? || q.OwnerOnHit() == q.OwnerOnMiss() ==> Agrees(a, s.db, q)
  {
    HitIsLookup(s.slots, s.db, q.uid);
    if q.OwnerOnMiss().Some? {
      UserLookupFilters(s.db, q.uid, q.OwnerOnMiss().value);
    }
  }

  lemma StepKeepsInv(capacity: int, s: System, step: Step)
    requires Inv(s) && Enabled(s, step)
    ensures Inv(Next(capacity, s, step)) && Grows(s.db, Next(capacity, s, step).db)
  {
    GrowsReflexive(s.db);
    hide WellFormed, UniqueLive, Coherent, Backed, Grows, Agrees, Tables.Header, Tables.Lookup, Slots.Lookup, SetSlots,
      GetSlots, Kill, Inserted, Admissible, Streams;
    match step
    case Commit(_, _) => InsertKeepsInv(capacity, s, step);
    case CommitUnreported(_, _) => InsertKeepsInv(capacity, s, step);
    case Publish(w) =>
      assert WriterOk(s.db, s.writers[w]);
      SetKeepsUnique(capacity, s.slots, s.writers[w].order);
      SetKeepsCoherent(capacity, s.slots, s.db, s.writers[w].order);
    case ReadCache(r) =>
      ReaderMoves(capacity, s, step);
      GetKeepsUnique(s.slots, s.readers[r].q.uid);
      GetKeepsCoherent(s.slots, s.db, s.readers[r].q.uid);
    case ReadHeader(_) => ReaderMoves(capacity, s, step);
    case ReadItems(_, _) => ReaderMoves(capacity, s, step);
    case FillCache(r) =>
      ReaderMoves(capacity, s, step);
      SetKeepsUnique(capacity, s.slots, s.readers[r].order);
      SetKeepsCoherent(capacity, s.slots, s.db, s.readers[r].order);
    case DeleteKey(k) =>
      KillKeepsCoherent(s.slots, s.db, k);
      KillKeepsUnique(s.slots, k);
    case _ =>
  }

  /** The state in which the service starts: any reachable database, and a cache preloaded from it. */
  lemma ServiceStart(capacity: nat, history: seq<Transaction>, recent: seq<string>, ios: seq<ReadIo>)
    requires |ios| == |recent|
    requires forall i :: 0 <= i < |recent| ==> Streams(Commits(EMPTY, history), recent[i], ios[i].rows)
    ensures var db := Commits(EMPTY, history);
            Inv(System(db, SetAll(capacity, [], LoadAll(db, recent, ios)), map[], map[]))
  {
    var db := Commits(EMPTY, history);
    CommitsGrow(EMPTY, history);
    LoadedAreBacked(db, recent, ios);
    SetAllKeepsCoherent(capacity, db, [], LoadAll(db, recent, ios));
  }

  lemma {:induction false} LoadedAreBacked(db: Database, uids: seq<string>, ios: seq<ReadIo>)
    requires WellFormed(db) && |ios| == |uids|
    requires forall i :: 0 <= i < |uids| ==> Streams(db, uids[i], ios[i].rows)
    ensures forall o :: o in LoadAll(db, uids, ios) ==> Backed(db, o)
  {
    if uids != [] {
      var n := |uids| - 1;
      LoadedAreBacked(db, uids[..n], ios[..n]);
      if ReadOrder(db, uids[n], None, ios[n]).Ok? {
        ReadIsBacked(db, uids[n], None, ios[n]);
      }
    }
  }

  lemma {:induction false} SetAllKeepsCoherent(capacity: int, db: Database, slots: seq<Slot>, orders: seq<Order>)
    requires UniqueLive(slots) && Coherent(slots, db) && forall o :: o in orders ==> Backed(db, o)
    ensures UniqueLive(SetAll(capacity, slots, orders)) && Coherent(SetAll(capacity, slots, orders), db)
  {
    if orders != [] {
      var n := |orders| - 1;
      SetAllKeepsCoherent(capacity, db, slots, orders[..n]);
      SetKeepsUnique(capacity, SetAll(capacity, slots, orders[..n]), orders[n]);
      SetKeepsCoherent(capacity, SetAll(capacity, slots, orders[..n]), db, orders[n]);
    }
  }

  // ---------- Whole runs ----------

  lemma InvIsCoherent(s: System)
    ensures Inv(s) ==> Coherent(s.slots, s.db)
  {
  }

  /** In every state of every run the cache agrees with the database, and no stored row ever changes. */
  lemma {:induction false} RunsStayCoherent(capacity: int, run: seq<System>, steps: seq<Step>, i: nat, j: nat)
    requires Behaviour(capacity, run, steps) && Inv(run[0]) && i <= j < |run|
    ensures Inv(run[j]) && Coherent(run[j].slots, run[j].db)
    ensures Inv(run[i]) && Grows(run[i].db, run[j].db)
    decreases j
  {
    hide Next, Enabled, Inv, Grows;
    GrowsReflexive(run[j].db);
    assert Inv(run[j]) ==> Coherent(run[j].slots, run[j].db) by { InvIsCoherent(run[j]); }
    if j > 0 {
      if i < j {
        RunsStayCoherent(capacity, run, steps, i, j - 1);
        StepKeepsInv(capacity, run[j - 1], steps[j - 1]);
        assert run[j] == Next(capacity, run[j - 1], steps[j - 1]);
        GrowsTransitive(run[i].db, run[j - 1].db, run[j].db);
      } else {
        RunsStayCoherent(capacity, run, steps, j - 1, j - 1);
        StepKeepsInv(capacity, run[j - 1], steps[j - 1]);
        assert run[j] == Next(capacity, run[j - 1], steps[j - 1]);
      }
    }
  }

  /** Without Delete every interleaving keeps the cache within its capacity, each linked node live and unique. */
  lemma {:induction false} RunsStayBounded(capacity: int, run: seq<System>, steps: seq<Step>, j: nat)
    requires Behaviour(capacity, run, steps) && j < |run| && Lru.Tight(capacity, run[0].slots)
    requires forall i :: 0 <= i < j ==> !steps[i].DeleteKey?
    ensures Lru.Tight(capacity, run[j].slots)
    ensures |run[j].slots| == LiveCount(run[j].slots) <= if capacity < 0 then 0 else capacity
  {
    hide Next;
    LiveCountBound(run[j].slots);
    if j > 0 {
      RunsStayBounded(capacity, run, steps, j - 1);
      StepKeepsTight(capacity, run[j - 1], steps[j - 1]);
      assert run[j] == Next(capacity, run[j - 1], steps[j - 1]);
    }
  }

  lemma StepKeepsTight(capacity: int, s: System, step: Step)
    requires Enabled(s, step) && !step.DeleteKey? && Lru.Tight(capacity, s.slots)
    ensures Lru.Tight(capacity, Next(capacity, s, step).slots)
  {
    match step
    case Publish(w) => Lru.SetRefines(capacity, s.slots, s.writers[w].order);
    case ReadCache(r) => Lru.GetRefines(capacity, s.slots, s.readers[r].q.uid);
    case FillCache(r) => Lru.SetRefines(capacity, s.slots, s.readers[r].order);
    case _ =>
  }

  ghost predicate IsDone(s: System, r: nat) {
    r in s.readers && s.readers[r].Done?
  }

  /** The step that answers a request answers as the database would at that moment. */
  lemma AnsweredRight(capacity: int, s: System, step: Step, r: nat)
    requires Inv(s) && Enabled(s, step) && !IsDone(s, r) && IsDone(Next(capacity, s, step), r)
    ensures var d := Next(capacity, s, step).readers[r];
            step != DatabaseError(r) && (d.answer.Shown? || d.q.OwnerOnHit() == d.q.OwnerOnMiss()) ==>
              Agrees(d.answer, s.db, d.q)
  {
    if r in s.readers && s.readers[r].Asked? && Slots.Lookup(s.slots, s.readers[r].q.uid).Some? {
      HitAgrees(s, s.readers[r].q);
    }
    if r in s.readers {
      assert ReaderOk(s.db, s.readers[r]);
    }
  }

  lemma DoneStaysDone(capacity: int, s: System, step: Step, r: nat)
    requires Enabled(s, step) && IsDone(s, r)
    ensures IsDone(Next(capacity, s, step), r) && Next(capacity, s, step).readers[r] == s.readers[r]
  {
  }

  /**
   * Linearizable reads: a request not yet answered at i and answered at j, without a database error, was
   * answered, up to storage precision and item order, as the database alone would have answered at some moment
   * in between. This covers every reply but one: an admin's page that is refused, where the cache checks an
   * owner the database query does not.
   */
  lemma {:induction false} ReadsAreLinearizable(capacity: int, run: seq<System>, steps: seq<Step>, i: nat, j: nat,
                                                r: nat)
    returns (m: nat)
    requires Behaviour(capacity, run, steps) && Inv(run[0]) && i <= j < |run|
    requires !IsDone(run[i], r) && IsDone(run[j], r)
    requires run[j].readers[r].answer.Shown? ||
             run[j].readers[r].q.OwnerOnHit() == run[j].readers[r].q.OwnerOnMiss()
    requires forall k :: i <= k < j ==> steps[k] != DatabaseError(r)
    ensures i <= m < j && Agrees(run[j].readers[r].answer, run[m].db, run[j].readers[r].q)
    decreases j
  {
    hide Next, Enabled, Inv, Agrees;
    assert run[j] == Next(capacity, run[j - 1], steps[j - 1]);
    if IsDone(run[j - 1], r) {
      DoneStaysDone(capacity, run[j - 1], steps[j - 1], r);
      m := ReadsAreLinearizable(capacity, run, steps, i, j - 1, r);
    } else {
      RunsStayCoherent(capacity, run, steps, j - 1, j - 1);
      AnsweredRight(capacity, run[j - 1], steps[j - 1], r);
      m := j - 1;
    }
  }

  /**
   * Monotone reads: once a request of any kind has been shown an order, every request for it that may see it and is
   * answered later without a database error is shown an equivalent order. The page of an admin is left out where
   * it is refused, as above.
   */
  lemma ReadsAreMonotone(capacity: int, run: seq<System>, steps: seq<Step>, i: nat, j: nat, r1: nat, r2: nat)
    requires Behaviour(capacity, run, steps) && Inv(run[0]) && i <= j < |run|
    requires IsDone(run[i], r1) && run[i].readers[r1].answer.Shown?
    requires !IsDone(run[i], r2) && IsDone(run[j], r2)
    requires run[j].readers[r2].q.OwnerOnMiss() in {None, Some(run[i].readers[r1].answer.order.customerId)}
    requires run[j].readers[r2].answer.Shown? ||
             run[j].readers[r2].q.OwnerOnHit() == run[j].readers[r2].q.OwnerOnMiss()
    requires ParseUuid(run[j].readers[r2].q.uid) == ParseUuid(run[i].readers[r1].q.uid)
    requires forall k :: i <= k < j ==> steps[k] != DatabaseError(r2)
    ensures var a1, a2 := run[i].readers[r1].answer, run[j].readers[r2].answer;
            a2.Shown? && Equivalent(a2.order, a1.order)
  {
    hide Next, Enabled, Agrees, Grows;
    var m := ReadsAreLinearizable(capacity, run, steps, i, j, r2);
    RunsStayCoherent(capacity, run, steps, i, m);
    assert ReaderOk(run[i].db, run[i].readers[r1]);
    ShownAgain(run[i].db, run[m].db, run[i].readers[r1].q, run[j].readers[r2].q,
               run[i].readers[r1].answer, run[j].readers[r2].answer);
  }

  lemma ShownAgain(a: Database, b: Database, q1: Query, q2: Query, a1: Answer, a2: Answer)
    requires WellFormed(a) && WellFormed(b) && Grows(a, b) && ParseUuid(q1.uid) == ParseUuid(q2.uid)
    requires a1.Shown? && Agrees(a1, a, q1) && Agrees(a2, b, q2)
    requires q2.OwnerOnMiss() in {None, Some(a1.order.customerId)}
    ensures a2.Shown? && Equivalent(a2.order, a1.order)
  {
    if q1.OwnerOnMiss().Some? {
      UserLookupFilters(a, q1.uid, q1.OwnerOnMiss().value);
    }
    FoundStaysFound(a, b, q1.uid, None);
    assert Tables.Lookup(b, q2.uid, None) == Tables.Lookup(b, q1.uid, None);
    if q2.OwnerOnMiss().Some? {
      UserLookupFilters(b, q2.uid, q2.OwnerOnMiss().value);
    }
  }

  /** In every state of every interleaving, what a user has been shown is the user's own. */
  lemma UsersAreShownTheirOwn(capacity: int, run: seq<System>, steps: seq<Step>, i: nat, r: nat)
    requires Behaviour(capacity, run, steps) && Inv(run[0]) && i < |run|
    requires IsDone(run[i], r) && run[i].readers[r].answer.Shown? && run[i].readers[r].q.OwnerOnMiss().Some?
    ensures run[i].readers[r].q.OwnerOnMiss() == Some(run[i].readers[r].answer.order.customerId)
  {
    RunsStayCoherent(capacity, run, steps, i, i);
    assert ReaderOk(run[i].db, run[i].readers[r]);
  }

  /** The order a step stores. */
  function StoredBy(s: System, step: Step): Order
    requires Inserts(s, step)
  {
    s.writers[step.w].order
  }

  /** However existence checks and inserts interleave, one UID is stored by at most one step of a run. */
  lemma AtMostOneInsert(capacity: int, run: seq<System>, steps: seq<Step>, i: nat, j: nat)
    requires Behaviour(capacity, run, steps) && Inv(run[0]) && i < j < |steps|
    requires Inserts(run[i], steps[i]) && Inserts(run[j], steps[j])
    ensures ParseUuid(StoredBy(run[i], steps[i]).uid) != ParseUuid(StoredBy(run[j], steps[j]).uid)
  {
    assert run[i + 1] == Next(capacity, run[i], steps[i]);
    assert ParseUuid(StoredBy(run[i], steps[i]).uid).value in run[i + 1].db.orders;
    RunsStayCoherent(capacity, run, steps, i + 1, j);
  }

  /** What the first insert stores is what every later lookup of that UID finds, for good. */
  lemma FirstInsertIsKept(capacity: int, run: seq<System>, steps: seq<Step>, i: nat, j: nat)
    requires Behaviour(capacity, run, steps) && Inv(run[0]) && i < j < |run|
    requires Inserts(run[i], steps[i])
    ensures var o := StoredBy(run[i], steps[i]);
            Tables.Lookup(run[j].db, o.uid, None) == Ok(Stored(o))
  {
    var o := StoredBy(run[i], steps[i]);
    assert run[i + 1] == Next(capacity, run[i], steps[i]);
    RunsStayCoherent(capacity, run, steps, i, i);
    RunsStayCoherent(capacity, run, steps, i + 1, j);
    RoundTrip(run[i].db, o, steps[i].base);
    FoundStaysFound(run[i + 1].db, run[j].db, o.uid, None);
  }

  /** The check alone would not do: two consumers can both be past it with orders of one UID. */
  lemma BothCanPassTheCheck(capacity: int, s: System, a: Order, b: Order)
    requires IsCanonical(a.uid) && b.uid == a.uid && a.uid !in s.db.orders && s.writers == map[]
    ensures var s1 := Next(capacity, s, Check(0, a));
            Enabled(s, Check(0, a)) && Enabled(s1, Check(1, b)) &&
            var s2 := Next(capacity, s1, Check(1, b));
            && s2.writers == map[0 := Checked(a), 1 := Checked(b)]
            && (Storable(a) ==> Enabled(s2, Commit(0, 0)) && !Enabled(Next(capacity, s2, Commit(0, 0)), Commit(1, 0)))
  {
  }

  // ---------- One request left alone ----------

  function StepsLeft(r: Reader): nat {
    match r
    case Asked(_) => 4
    case Missed(_) => 3
    case HeaderRead(_, _) => 2
    case Loaded(_, _) => 1
    case Done(_, _) => 0
  }

  /** The steps a request still has to take, run without interruption and without a database error. */
  function Alone(capacity: int, s: System, r: nat, rows: seq<Item>): (after: System)
    requires r in s.readers && Streams(s.db, s.readers[r].q.uid, rows)
    ensures r in after.readers && after.readers[r].Done? && after.db == s.db
    decreases StepsLeft(s.readers[r])
  {
    match s.readers[r]
    case Asked(_) => Alone(capacity, Next(capacity, s, ReadCache(r)), r, rows)
    case Missed(_) => Alone(capacity, Next(capacity, s, ReadHeader(r)), r, rows)
    case HeaderRead(_, _) => Alone(capacity, Next(capacity, s, ReadItems(r, rows)), r, rows)
    case Loaded(_, _) => Next(capacity, s, FillCache(r))
    case Done(_, _) => s
  }

  predicate Matches(a: Answer, reply: OrderHandler.Reply) {
    match a
    case Shown(o) => reply == OrderHandler.Found(o)
    case NotFound => reply.status == 404
    case Broken => reply.status == 500
  }

  /** The handler a query goes to. */
  function Handled(capacity: int, slots: seq<Slot>, db: Database, q: Query, io: ReadIo): OrderHandler.Served {
    var user := OrderHandler.Text("1");
    match q
    case AdminApi(uid) => OrderHandler.AdminLookup(capacity, slots, db, user, uid, io)
    case UserApi(uid, n) => OrderHandler.UserLookup(capacity, slots, db, user, OrderHandler.Text(n), uid, io)
    case Page(uid, n, admin) =>
      OrderHandler.PageLookup(capacity, slots, db, user, OrderHandler.Text(n),
                              OrderHandler.Text(if admin then "admin" else "user"), uid, io)
  }

  /** The steps of a request, run without interruption, are its handler: same cache, same reply. */
  lemma AloneIsHandler(capacity: int, s: System, r: nat, q: Query, io: ReadIo)
    requires r !in s.readers && q.uid != "" && io.Healthy() && Streams(s.db, q.uid, io.rows)
    ensures var after := Alone(capacity, Next(capacity, s, Ask(r, q)), r, io.rows);
            var served := Handled(capacity, s.slots, s.db, q, io);
            after.slots == served.slots && Matches(after.readers[r].answer, served.reply)
  {
    hide Header, SetSlots, GetSlots, Slots.Lookup, Streams;
    var s1 := Next(capacity, s, Ask(r, q));
    var s2 := Next(capacity, s1, ReadCache(r));
    if s2.readers[r].Missed? {
      MissIsHandler(capacity, s2, r, io);
    }
  }

  lemma MissIsHandler(capacity: int, s: System, r: nat, io: ReadIo)
    requires r in s.readers && s.readers[r].Missed?
    requires io.Healthy() && Streams(s.db, s.readers[r].q.uid, io.rows)
    ensures var after := Alone(capacity, s, r, io.rows);
            var q := s.readers[r].q;
            var read := ReadOrder(s.db, q.uid, q.OwnerOnMiss(), io);
            && after.slots == OrderHandler.Fill(capacity, s.slots, read)
            && after.readers[r].answer == AnswerOf(read)
  {
    hide SetSlots, Streams;
    var s3 := Next(capacity, s, ReadHeader(r));
    if s3.readers[r].HeaderRead? {
      var s4 := Next(capacity, s3, ReadItems(r, io.rows));
      assert Alone(capacity, s3, r, io.rows) == Next(capacity, s4, FillCache(r));
    }
  }

  /** So are those of a request that the database fails, at either query: the cache is left alone. */
  lemma FailedIsHandler(capacity: int, s: System, r: nat, q: Query, io: ReadIo)
    requires r !in s.readers && q.uid != "" && Slots.Lookup(s.slots, q.uid) == None && !io.Healthy()
    ensures var s2 := Next(capacity, Next(capacity, s, Ask(r, q)), ReadCache(r));
            Enabled(s2, DatabaseError(r)) &&
            var s3 := if io.headerFails then s2 else Next(capacity, s2, ReadHeader(r));
            var after := if s3.readers[r].Done? then s3 else Next(capacity, s3, DatabaseError(r));
            var served := Handled(capacity, s.slots, s.db, q, io);
            && IsDone(after, r) && Matches(after.readers[r].answer, served.reply)
            && after.slots == served.slots == s.slots && after.db == s.db
  {
    hide Header, SetSlots, GetSlots, Slots.Lookup;
  }

  /** A consumer whose write fails, or seems to, forgets the order without caching it. */
  lemma FailedWriteIsDropped(capacity: int, s: System, step: Step)
    requires Enabled(s, step) && (step.Abort? || step.CommitUnreported?)
    ensures var after := Next(capacity, s, step);
            && after.slots == s.slots && after.readers == s.readers
            && step.w !in after.writers && !Enabled(after, Publish(step.w))
            && (step.Abort? ==> after.db == s.db)
            && (step.CommitUnreported? ==>
                  after.db == Next(capacity, s, Commit(step.w, step.base)).db)
  {
  }

  /** A deleted key is not found any more; every other key is found as before, and nothing else changes. */
  lemma DeletedIsGone(capacity: int, s: System, k: string, other: string)
    requires other != k
    ensures var after := Next(capacity, s, DeleteKey(k));
            && Slots.Lookup(after.slots, k) == None
            && Slots.Lookup(after.slots, other) == Slots.Lookup(s.slots, other)
            && after == s.(slots := after.slots)
  {
    FoundAfterKill(s.slots, k, k);
    FoundAfterKill(s.slots, k, other);
  }

  lemma {:induction false} FoundAfterKill(slots: seq<Slot>, k: string, key: string)
    ensures Slots.Lookup(Kill(slots, k), key) == if key == k then None else Slots.Lookup(slots, key)
  {
    if slots != [] {
      assert Kill(slots, k)[1..] == Kill(slots[1..], k);
      FoundAfterKill(slots[1..], k, key);
    }
  }

  /** Whatever is in flight can go on: no request and no consumer waits for another. */
  lemma NothingIsStuck(s: System, id: nat) returns (ask: Step, store: Step)
    ensures id in s.readers && !IsDone(s, id) ==>
              Enabled(s, ask) && (ask.ReadCache? || ask.ReadHeader? || ask.ReadItems? || ask.FillCache?) && ask.r == id
    ensures id in s.writers ==> Enabled(s, store) && (store.Abort? || store.Publish?) && store.w == id
    ensures id in s.writers && s.writers[id].Checked? && Admissible(s.db, s.writers[id].order) ==>
              forall base :: Enabled(s, Commit(id, base)) && Enabled(s, CommitUnreported(id, base))
    ensures forall k :: Enabled(s, DeleteKey(k))
    ensures id !in s.readers ==> forall q :: Enabled(s, Step.Ask(id, q))
    ensures id !in s.writers ==> forall o: Order :: IsCanonical(o.uid) ==> Enabled(s, Check(id, o))
  {
    ask, store := ReadCache(id), if id in s.writers && s.writers[id].Committed? then Publish(id) else Abort(id);
    if id in s.readers {
      match s.readers[id]
      case Asked(_) =>
      case Missed(_) => ask := ReadHeader(id);
      case HeaderRead(q, _) =>
        ask := ReadItems(id, if ParseUuid(q.uid).Some? then ItemsOf(s.db.item, ParseUuid(q.uid).value) else []);
      case Loaded(_, _) => ask := FillCache(id);
      case Done(_, _) =>
    }
  }

  /** The steps of a consumer, run without interruption, are the body of its loop. */
  lemma AloneIsConsumer(capacity: int, codec: OrderConsumer.Codec, s: System, w: nat, value: OrderConsumer.Bytes,
                        io: OrderConsumer.WriteIo, base: nat)
    requires w !in s.writers && codec.Process(value).Some?
    requires var o := codec.Process(value).value; IsCanonical(o.uid) && Storable(o) && io.Healthy(o)
    ensures var o := codec.Process(value).value;
            var shop := OrderConsumer.ConsumeOne(capacity, codec, OrderConsumer.Shop(s.db, s.slots, 0),
                                                 OrderConsumer.Message(value), io, base);
            var s1 := Next(capacity, s, Check(w, o));
            if o.uid in s.db.orders then s1 == s && shop == OrderConsumer.Shop(s.db, s.slots, 0)
            else
              Enabled(s1, Commit(w, base)) &&
              var s3 := Next(capacity, Next(capacity, s1, Commit(w, base)), Publish(w));
              s3 == System(shop.db, shop.slots, s.readers, s.writers)
  {
    var o := codec.Process(value).value;
    if o.uid !in s.db.orders {
      assert (s.writers[w := Checked(o)])[w := Writer.Committed(o)] - {w} == s.writers;
    }
  }
}
