/** The three order lookups: cache first, then the database, compared with asking the database directly. */
module OrderHandler {
  import opened Orders
  import opened Slots
  import opened Tables
  import opened OrderRepository
  import opened Coherence
  import Lru
  import DeleteRuns
  import LruCache

  /** A value in the request context: missing, a string, or something a string assertion panics on. */
  datatype Claim = Absent | Text(text: string) | NotText

  datatype Body = TheOrder(order: Order) | Error(text: string) | Empty

  datatype Reply = Reply(status: nat, body: Body)

  /** What the recovery middleware makes of a panic. */
  const PANICKED := Reply(500, Empty)

  function Found(o: Order): Reply { Reply(200, TheOrder(o)) }

  function FromDatabase(r: Outcome<Order>, missing: string): Reply {
    match r
    case Ok(o) => Found(o)
    case NoRows => Reply(404, Error(missing))
    case Failed => Reply(500, Error("Internal server error"))
  }

  const NOT_FOUND := "Failed to find order"
  const PAGE_NOT_FOUND := "Orders not found"
  const NOT_LOGGED := Reply(401, Error("User is not logged"))
  const NO_ROLE := Reply(401, Error("User has no role"))
  const NO_UID := Reply(400, Error("No UID received"))
  const NOT_YOURS := Reply(404, Error("Cached order doesn't belong to user"))

  /** A hit, shown to its owner only. */
  function OwnersOnly(o: Order, username: Claim): Reply {
    match username
    case Text(name) => if o.customerId == name then Found(o) else NOT_YOURS
    case _ => PANICKED
  }

  function Fill(capacity: int, slots: seq<Slot>, r: Outcome<Order>): seq<Slot> {
    if r.Ok? then SetSlots(capacity, slots, r.value) else slots
  }

  /** Reply and cache contents after each of the three handlers. */
  datatype Served = Served(reply: Reply, slots: seq<Slot>)

  function Cold(capacity: int, slots: seq<Slot>, r: Outcome<Order>, missing: string): Served {
    Served(FromDatabase(r, missing), Fill(capacity, slots, r))
  }

  function AdminLookup(capacity: int, slots: seq<Slot>, db: Database, userId: Claim, uid: string, io: ReadIo): Served {
    if userId.Absent? then Served(NOT_LOGGED, slots)
    else if uid == "" then Served(NO_UID, slots)
    else match Slots.Lookup(slots, uid)
      case Some(o) => Served(Found(o), GetSlots(slots, uid))
      case None => Cold(capacity, slots, ReadOrder(db, uid, None, io), NOT_FOUND)
  }

  function UserLookup(capacity: int, slots: seq<Slot>, db: Database, userId: Claim, username: Claim, uid: string,
                      io: ReadIo): Served
  {
    if userId.Absent? || username.Absent? then Served(NOT_LOGGED, slots)
    else if uid == "" then Served(NO_UID, slots)
    else match Slots.Lookup(slots, uid)
      case Some(o) => Served(OwnersOnly(o, username), GetSlots(slots, uid))
      case None =>
        if !username.Text? then Served(PANICKED, slots)
        else Cold(capacity, slots, ReadOrder(db, uid, Some(username.text), io), NOT_FOUND)
  }

  function PageLookup(capacity: int, slots: seq<Slot>, db: Database, userId: Claim, username: Claim, role: Claim,
                      uid: string, io: ReadIo): Served
  {
    if userId.Absent? then Served(NOT_LOGGED, slots)
    else if role.Absent? then Served(NO_ROLE, slots)
    else if uid == "" then Served(NO_UID, slots)
    else match Slots.Lookup(slots, uid)
      case Some(o) => Served(OwnersOnly(o, username), GetSlots(slots, uid))
      case None =>
        if !role.Text? || (role.text != "admin" && !username.Text?) then Served(PANICKED, slots)
        else
          var owner := if role.text == "admin" then None else Some(username.text);
          Cold(capacity, slots, ReadOrder(db, uid, owner, io), PAGE_NOT_FOUND)
  }

  class Handler {
    const repo: Repository
    const cache: LruCache.Cache

    constructor (repo: Repository, cache: LruCache.Cache)
      ensures this.repo == repo && this.cache == cache
    {
      this.repo, this.cache := repo, cache;
    }

    method GetOrderByUIDHandle(userId: Claim, uid: string, io: ReadIo) returns (r: Reply)
      requires cache.Valid() && Streams(repo.db, uid, io.rows)
      modifies cache, cache.repr, cache.metrics
      ensures cache.Valid() && fresh(cache.repr - old(cache.repr))
      ensures Served(r, cache.slots) == AdminLookup(cache.capacity, old(cache.slots), repo.db, userId, uid, io)
    {
      hide LruCache.Cache.Linked, LruCache.Cache.Labelled, LruCache.Cache.Mapped;
      if userId == Absent {
        return NOT_LOGGED;
      }
      if uid == "" {
        return NO_UID;
      }
      var cached, hit := cache.Get(uid);
      if hit {
        return Found(cached.value);
      }
      var order := repo.GetOrderByUID(uid, io);
      if !order.Ok? {
        return FromDatabase(order, NOT_FOUND);
      }
      cache.Set(Some(order.value));
      return Found(order.value);
    }

    method GetUserOrderByUIDHandle(userId: Claim, username: Claim, uid: string, io: ReadIo) returns (r: Reply)
      requires cache.Valid() && Streams(repo.db, uid, io.rows)
      modifies cache, cache.repr, cache.metrics
      ensures cache.Valid() && fresh(cache.repr - old(cache.repr))
      ensures Served(r, cache.slots) == UserLookup(cache.capacity, old(cache.slots), repo.db, userId, username, uid, io)
    {
      hide LruCache.Cache.Linked, LruCache.Cache.Labelled, LruCache.Cache.Mapped;
      if userId == Absent || username == Absent {
        return NOT_LOGGED;
      }
      if uid == "" {
        return NO_UID;
      }
      var cached, hit := cache.Get(uid);
      if hit {
        return OwnersOnly(cached.value, username);
      }
      if !username.Text? {
        return PANICKED;
      }
      var order := repo.GetOrderByUIDAndUser(uid, username.text, io);
      if !order.Ok? {
        return FromDatabase(order, NOT_FOUND);
      }
      cache.Set(Some(order.value));
      return Found(order.value);
    }

    method OrderPageHandle(userId: Claim, username: Claim, role: Claim, uid: string, io: ReadIo) returns (r: Reply)
      requires cache.Valid() && Streams(repo.db, uid, io.rows)
      modifies cache, cache.repr, cache.metrics
      ensures cache.Valid() && fresh(cache.repr - old(cache.repr))
      ensures Served(r, cache.slots) ==
              PageLookup(cache.capacity, old(cache.slots), repo.db, userId, username, role, uid, io)
    {
      hide LruCache.Cache.Linked, LruCache.Cache.Labelled, LruCache.Cache.Mapped;
      if userId == Absent {
        return NOT_LOGGED;
      }
      if role == Absent {
        return NO_ROLE;
      }
      if uid == "" {
        return NO_UID;
      }
      var cached, hit := cache.Get(uid);
      if hit {
        return OwnersOnly(cached.value, username);
      }
      if !role.Text? {
        return PANICKED;
      }
      var order: Outcome<Order>;
      if role.text == "admin" {
        order := repo.GetOrderByUID(uid, io);
      } else {
        if !username.Text? {
          return PANICKED;
        }
        order := repo.GetOrderByUIDAndUser(uid, username.text, io);
      }
      if !order.Ok? {
        return FromDatabase(order, PAGE_NOT_FOUND);
      }
      cache.Set(Some(order.value));
      return Found(order.value);
    }
  }

  // ---------- What is answered, case by case ----------

  /** How the outcome of the database query is answered. */
  predicate ColdAnswer(s: Served, slots: seq<Slot>, r: Outcome<Order>, missing: string) {
    && (r == NoRows ==> s == Served(Reply(404, Error(missing)), slots))
    && (r == Failed ==> s == Served(Reply(500, Error("Internal server error")), slots))
    && (r.Ok? ==> s.reply == Reply(200, TheOrder(r.value)))
  }

  /** Every case but that of a hit, which the comparison below covers. A refusal leaves the cache alone. */
  lemma AdminAnswers(capacity: int, slots: seq<Slot>, db: Database, userId: Claim, uid: string, io: ReadIo)
    ensures var s := AdminLookup(capacity, slots, db, userId, uid, io);
            && (userId == Absent ==> s == Served(Reply(401, Error("User is not logged")), slots))
            && (userId != Absent && uid == "" ==> s == Served(Reply(400, Error("No UID received")), slots))
            && (userId != Absent && uid != "" && Slots.Lookup(slots, uid) == None ==>
                  ColdAnswer(s, slots, ReadOrder(db, uid, None, io), "Failed to find order"))
            && (s.reply.body.TheOrder? <==> s.reply.status == 200)
  {
    hide Slots.Lookup, ReadOrder, SetSlots, GetSlots;
  }

  lemma UserAnswers(capacity: int, slots: seq<Slot>, db: Database, userId: Claim, username: Claim, uid: string,
                     io: ReadIo)
    ensures var s := UserLookup(capacity, slots, db, userId, username, uid, io);
            var logged := userId != Absent && username != Absent;
            && (!logged ==> s == Served(Reply(401, Error("User is not logged")), slots))
            && (logged && uid == "" ==> s == Served(Reply(400, Error("No UID received")), slots))
            && (logged && uid != "" && username == NotText ==> s.reply == Reply(500, Empty))
            && (logged && uid != "" && username.Text? && Slots.Lookup(slots, uid) == None ==>
                  ColdAnswer(s, slots, ReadOrder(db, uid, Some(username.text), io), "Failed to find order"))
            && (s.reply.body.TheOrder? <==> s.reply.status == 200)
  {
    hide Slots.Lookup, ReadOrder, SetSlots, GetSlots;
  }

  lemma PageAnswers(capacity: int, slots: seq<Slot>, db: Database, userId: Claim, username: Claim, role: Claim,
                     uid: string, io: ReadIo)
    ensures var s := PageLookup(capacity, slots, db, userId, username, role, uid, io);
            var cached := Slots.Lookup(slots, uid);
            var logged := userId != Absent && role != Absent;
            && (userId == Absent ==> s == Served(Reply(401, Error("User is not logged")), slots))
            && (userId != Absent && role == Absent ==> s == Served(Reply(401, Error("User has no role")), slots))
            && (logged && uid == "" ==> s == Served(Reply(400, Error("No UID received")), slots))
            && (logged && uid != "" && cached.Some? && !username.Text? ==> s.reply == Reply(500, Empty))
            && (logged && uid != "" && cached == None ==>
                  && (role == NotText || (role != Text("admin") && !username.Text?) ==>
                        s == Served(Reply(500, Empty), slots))
                  && (role == Text("admin") ==>
                        ColdAnswer(s, slots, ReadOrder(db, uid, None, io), "Orders not found"))
                  && (role.Text? && role.text != "admin" && username.Text? ==>
                        ColdAnswer(s, slots, ReadOrder(db, uid, Some(username.text), io), "Orders not found")))
            && (s.reply.body.TheOrder? <==> s.reply.status == 200)
  {
    hide Slots.Lookup, ReadOrder, SetSlots, GetSlots;
  }

  /** Who is not logged in is shown no order, whatever is cached, and leaves no trace in the cache. */
  lemma OnlyTheLoggedInSee(capacity: int, slots: seq<Slot>, db: Database, userId: Claim, username: Claim, role: Claim,
                           uid: string, io: ReadIo)
    ensures var admin := AdminLookup(capacity, slots, db, userId, uid, io);
            var user := UserLookup(capacity, slots, db, userId, username, uid, io);
            var page := PageLookup(capacity, slots, db, userId, username, role, uid, io);
            && (userId == Absent ==> admin.reply.status == 401 && admin.slots == slots)
            && (userId == Absent || username == Absent ==> user.reply.status == 401 && user.slots == slots)
            && (userId == Absent || role == Absent ==> page.reply.status == 401 && page.slots == slots)
            && (admin.reply.body.TheOrder? ==> userId != Absent && uid != "")
            && (user.reply.body.TheOrder? ==> userId != Absent && username.Text? && uid != "")
            && (page.reply.body.TheOrder? ==>
                  && userId != Absent && role != Absent && uid != ""
                  && (username.Text? || (role == Text("admin") && Slots.Lookup(slots, uid) == None)))
  {
    hide Slots.Lookup, ReadOrder, SetSlots, GetSlots;
  }

  // ---------- Compared with no cache at all ----------

  /** Same status, and an equivalent order if there is one; error texts may differ. Module Exactness compares them. */
  ghost predicate SameReply(a: Reply, b: Reply) {
    && a.status == b.status
    && (a.body.TheOrder? <==> b.body.TheOrder?)
    && (a.body.TheOrder? && b.body.TheOrder? ==> Equivalent(a.body.order, b.body.order))
  }

  /** The reply of a handler that asks the database every time and is never failed by it. */
  function Direct(db: Database, uid: string, owner: Option<string>): Reply {
    if uid == "" then NO_UID else FromDatabase(Tables.Lookup(db, uid, owner), NOT_FOUND)
  }

  lemma SameReplyReflexive(r: Reply)
    ensures SameReply(r, r)
  {
  }

  lemma SameAnswerSameReply(a: Outcome<Order>, b: Outcome<Order>, missing: string)
    requires SameAnswer(a, b)
    ensures SameReply(FromDatabase(a, missing), FromDatabase(b, NOT_FOUND))
  {
  }

  /** On a miss the read itself is compared with one snapshot. */
  lemma ColdReply(db: Database, uid: string, owner: Option<string>, io: ReadIo, missing: string)
    requires Streams(db, uid, io.rows)
    ensures var r := FromDatabase(ReadOrder(db, uid, owner, io), missing);
            io.Healthy() || r.status != 500 ==> SameReply(r, FromDatabase(Tables.Lookup(db, uid, owner), NOT_FOUND))
  {
    ReadIsLookup(db, uid, owner, io);
    if io.Healthy() || ReadOrder(db, uid, owner, io) != Failed {
      SameAnswerSameReply(ReadOrder(db, uid, owner, io), Tables.Lookup(db, uid, owner), missing);
    }
  }

  /** On a hit the cached order is compared with the order of the database, and so is its owner. */
  lemma WarmReply(slots: seq<Slot>, db: Database, uid: string, name: string)
    requires WellFormed(db) && Coherent(slots, db) && Slots.Lookup(slots, uid).Some?
    ensures var o := Slots.Lookup(slots, uid).value;
            && SameReply(Found(o), FromDatabase(Tables.Lookup(db, uid, None), NOT_FOUND))
            && SameReply(OwnersOnly(o, Text(name)), FromDatabase(Tables.Lookup(db, uid, Some(name)), NOT_FOUND))
            && (o.customerId != name ==> OwnersOnly(o, Text(name)).status == 404)
            && FromDatabase(Tables.Lookup(db, uid, None), NOT_FOUND).status == 200
            && uid != ""
  {
    HitIsLookup(slots, db, uid);
    UserLookupFilters(db, uid, name);
    SameAnswerSameReply(Ok(Slots.Lookup(slots, uid).value), Tables.Lookup(db, uid, None), NOT_FOUND);
  }

  lemma ServedKeepsCoherent(capacity: int, slots: seq<Slot>, db: Database, uid: string, owner: Option<string>,
                            io: ReadIo)
    requires WellFormed(db) && UniqueLive(slots) && Coherent(slots, db) && Streams(db, uid, io.rows)
    ensures UniqueLive(GetSlots(slots, uid)) && Coherent(GetSlots(slots, uid), db)
    ensures var after := Fill(capacity, slots, ReadOrder(db, uid, owner, io));
            UniqueLive(after) && Coherent(after, db)
  {
    GetKeepsUnique(slots, uid);
    GetKeepsCoherent(slots, db, uid);
    var r := ReadOrder(db, uid, owner, io);
    if r.Ok? {
      ReadIsBacked(db, uid, owner, io);
      SetKeepsUnique(capacity, slots, r.value);
      SetKeepsCoherent(capacity, slots, db, r.value);
    }
  }

  /** The admin API with a cache is the admin API without one, and keeps the cache coherent. */
  lemma AdminLookupIsDirect(capacity: int, slots: seq<Slot>, db: Database, userId: Claim, uid: string, io: ReadIo)
    requires WellFormed(db) && UniqueLive(slots) && Coherent(slots, db)
    requires Streams(db, uid, io.rows) && userId != Absent
    ensures var s := AdminLookup(capacity, slots, db, userId, uid, io);
            && (io.Healthy() || s.reply.status != 500 ==> SameReply(s.reply, Direct(db, uid, None)))
            && UniqueLive(s.slots) && Coherent(s.slots, db)
  {
    hide SameReply, Tables.Lookup, ReadOrder, SetSlots, GetSlots, Slots.Lookup, UniqueLive, Coherent, WellFormed;
    SameReplyReflexive(NO_UID);
    ServedKeepsCoherent(capacity, slots, db, uid, None, io);
    ColdReply(db, uid, None, io, NOT_FOUND);
    if Slots.Lookup(slots, uid).Some? {
      WarmReply(slots, db, uid, "");
    }
  }

  /** The user API likewise, for the caller's own orders. */
  lemma UserLookupIsDirect(capacity: int, slots: seq<Slot>, db: Database, userId: Claim, name: string, uid: string,
                           io: ReadIo)
    requires WellFormed(db) && UniqueLive(slots) && Coherent(slots, db)
    requires Streams(db, uid, io.rows) && userId != Absent
    ensures var s := UserLookup(capacity, slots, db, userId, Text(name), uid, io);
            && (io.Healthy() || s.reply.status != 500 ==> SameReply(s.reply, Direct(db, uid, Some(name))))
            && UniqueLive(s.slots) && Coherent(s.slots, db)
  {
    hide SameReply, Tables.Lookup, ReadOrder, SetSlots, GetSlots, Slots.Lookup, UniqueLive, Coherent, WellFormed;
    SameReplyReflexive(NO_UID);
    ServedKeepsCoherent(capacity, slots, db, uid, Some(name), io);
    ColdReply(db, uid, Some(name), io, NOT_FOUND);
    if Slots.Lookup(slots, uid).Some? {
      WarmReply(slots, db, uid, name);
    }
  }

  /** Whatever is cached and whatever the server does, a user is only ever shown orders of their own. */
  lemma UsersSeeOnlyTheirOwn(capacity: int, slots: seq<Slot>, db: Database, userId: Claim, username: Claim, role: Claim,
                             uid: string, io: ReadIo)
    ensures var r := UserLookup(capacity, slots, db, userId, username, uid, io).reply;
            r.body.TheOrder? ==> username == Text(r.body.order.customerId)
    ensures var r := PageLookup(capacity, slots, db, userId, username, role, uid, io).reply;
            r.body.TheOrder? && role != Text("admin") ==> username == Text(r.body.order.customerId)
  {
  }

  /**
   * The page agrees with the database for everyone, except that an admin is refused an order of somebody
   * else's exactly when it is cached.
   */
  lemma PageLookupIsDirectIff(capacity: int, slots: seq<Slot>, db: Database, userId: Claim, name: string, role: string,
                              uid: string, io: ReadIo)
    requires WellFormed(db) && UniqueLive(slots) && Coherent(slots, db)
    requires Streams(db, uid, io.rows) && userId != Absent && io.Healthy()
    ensures var s := PageLookup(capacity, slots, db, userId, Text(name), Text(role), uid, io);
            var cached := Slots.Lookup(slots, uid);
            && (SameReply(s.reply, Direct(db, uid, if role == "admin" then None else Some(name))) <==>
                  !(role == "admin" && cached.Some? && cached.value.customerId != name))
            && UniqueLive(s.slots) && Coherent(s.slots, db)
  {
    hide SameReply, Tables.Lookup, ReadOrder, SetSlots, GetSlots, Slots.Lookup, UniqueLive, Coherent, WellFormed;
    var owner := if role == "admin" then None else Some(name);
    SameReplyReflexive(NO_UID);
    ServedKeepsCoherent(capacity, slots, db, uid, owner, io);
    ColdReply(db, uid, owner, io, PAGE_NOT_FOUND);
    if Slots.Lookup(slots, uid).Some? {
      WarmReply(slots, db, uid, name);
      var o := Slots.Lookup(slots, uid).value;
      StatusDecides(OwnersOnly(o, Text(name)), FromDatabase(Tables.Lookup(db, uid, None), NOT_FOUND));
    }
  }

  lemma StatusDecides(a: Reply, b: Reply)
    ensures SameReply(a, b) ==> a.status == b.status
  {
  }

  lemma FirstLoad(db: Database, uid: string, io: ReadIo)
    requires WellFormed(db) && IsCanonical(uid) && uid in db.orders
    requires Streams(db, uid, io.rows) && io.Healthy()
    ensures var r := ReadOrder(db, uid, None, io);
            r.Ok? && r.value.uid == uid && r.value.customerId == db.orders[uid].customerId
  {
  }

  /** Without Delete, an order just set on a cache with room for any is there. */
  lemma SetIsReadBack(capacity: int, slots: seq<Slot>, o: Order)
    requires Lru.Tight(capacity, slots) && capacity > 0
    ensures Slots.Lookup(SetSlots(capacity, slots, o), o.uid) == Some(o)
  {
    DeleteRuns.ReadBackIff(capacity, slots, o);
    LiveCountBound(slots);
    if slots != [] && slots[|slots| - 1].order.uid == o.uid {
      assert Holds(slots[|slots| - 1], o.uid);
    }
  }

  /** An admin who loads the page of a customer's order twice is shown it once and refused it after. */
  lemma SecondPageLoadIsRefused(capacity: int, slots: seq<Slot>, db: Database, userId: Claim, name: string, uid: string,
                                io: ReadIo, io': ReadIo)
    requires WellFormed(db) && Lru.Tight(capacity, slots) && capacity > 0
    requires IsCanonical(uid) && uid in db.orders && db.orders[uid].customerId != name
    requires Slots.Lookup(slots, uid) == None && userId != Absent
    requires Streams(db, uid, io.rows) && io.Healthy()
    ensures var first := PageLookup(capacity, slots, db, userId, Text(name), Text("admin"), uid, io);
            var second := PageLookup(capacity, first.slots, db, userId, Text(name), Text("admin"), uid, io');
            first.reply.status == 200 && second.reply == NOT_YOURS
  {
    hide ReadOrder, SetSlots, GetSlots, Slots.Lookup, WellFormed;
    FirstLoad(db, uid, io);
    SetIsReadBack(capacity, slots, ReadOrder(db, uid, None, io).value);
  }
}
