# Gorder: the cache, the store and what runs between them

Gorder reads orders from a Kafka topic, stores them in four PostgreSQL tables, keeps recently used ones in an
in-memory LRU cache, and serves them over two JSON APIs and an HTML page. This project models that path and proves
what it promises.

| file | models |
|---|---|
| `Orders.dfy` | orders, UUID texts, when two orders are equal up to storage precision and item order |
| `Tables.dfy` | the four tables, the statements run against them, atomic inserts, the two-query read |
| `Schema.dfy` | the constraints of the schema as a property of the tables, and the statements they refuse |
| `Recent.dfy` | the query for the most recent orders, whatever the arrangement of the rows |
| `Repository.dfy` | class `Repository`: `AddOrder` on a transaction (class `Tx`) whose statements may each fail, reads whose rows arrive in any order |
| `Slots.dfy` | the cache as a sequence of slots, one for each linked node, and what each operation makes of them |
| `Cache.dfy` | class `Cache`: hash map, doubly linked list with two sentinels, counters, all changed in place |
| `DeleteRuns.dfy`, `Unbounded.dfy` | runs of the cache that use `Delete` |
| `Lru.dfy`, `History.dfy`, `Inclusion.dfy` | runs that do not: the textbook LRU, what is cached by history, caches of two sizes |
| `Populate.dfy` | what preloading leaves in a new cache |
| `Coherence.dfy` | agreement of cache and database |
| `Handler.dfy` | class `Handler`: the three order lookups, compared with asking the database directly |
| `Consumer.dfy` | class `Consumer`: the event loop, as a fold over the log |
| `Protocol.dfy` | any number of consumers and requests interleaved, one database statement or cache call a step |
| `Exactness.dfy` | when a cached order, a whole reply or a whole run is the very same as the database's, and when not |
| `ClosedLoop.dfy` | lookups and messages one after the other, on caches of two capacities |

How the parts fit. The methods of `Cache` are proved against the functions of `Slots.dfy`, metrics included, so any
sequence of calls on a new cache, with what it returns, is a `Slots.Run` (`Drive`); the theorems about runs are about
those. The handlers and the consumer are proved against functions over slots and tables (`AdminLookup`, `UserLookup`,
`PageLookup`, `ConsumeOne`), which are then compared with a handler that has no cache and with a reading of the log alone.
`Protocol.dfy` takes them apart into the steps that can interleave, and shows that the steps run without interruption
are the handler (`AloneIsHandler`) and the consumer (`AloneIsConsumer`) again. Every cache method
holds the mutex for its whole body, which is why each is one step; `Populate` takes it once for each order.

What is not in the repository is a parameter: which statements the database fails, the order in which it returns item
rows, the arrangement of the orders table that decides among equally recent orders, the events of the log, JSON decoding
and validation. Of the validator one thing is assumed where it is needed (`Codec.ChecksUuid`): its `uuid4` rule
admits lower-case UIDs only.

## Findings

- `Delete` drops the map entry and leaves the node linked. Two `Set` calls after a `Delete` a cache for one order can
  hold two (`CapacityCanBeExceeded`), a `Set` can evict the very order it stores (`SetCanLoseItsOwnOrder`), and for every
  capacity there are runs past any size (`SizeIsUnbounded`). `SizeBound`, `ExceedsCapacityIff` and `ReadBackIff` say
  how far this goes and exactly when it happens. Nothing outside the tests calls `Delete`.
- `Delete` lowers the gauge `orders_in_cache` whether or not it finds the key: one call on a new cache makes it -1
  (`DeleteSpoilsGauge`). A `Set` of a new key on a full cache spoils it too if the tail is an orphan with no key left to
  drop. The gauge is below the size by exactly the number of such calls (`GaugeDrift`), so never above it, and equal
  iff there was none (`GaugeIsSizeIff`).
- README.md:82 of the repository says an admin sees all orders. On the order page the cached branch checks the owner
  for admins too, so an admin who opens a customer's order twice sees it once (`SecondPageLoadIsRefused`);
  `PageLookupIsDirectIff` is the exact condition.
- `Populate` sets the most recent order first, so the newest order is the first to be evicted (`NewestIsEvictedFirst`).
- One UID is stored at most once because `order_uid` is a primary key; two consumers can both pass the existence check
  (`BothCanPassTheCheck`).
- An order is cached by the consumer with the timestamp it arrived with and by the handlers with the microseconds the
  database keeps, in the local zone of the process; the item query has no ORDER BY. So the same order can be answered in
  two ways: `RepliesCanDiffer` is such a run, and `RepliesAgreeIff`, `LoadedAsArrivedIff` and `HitIsSameIff` are the
  exact conditions, over what a client sees (`View`: any local zone, JSON or page). An order written in UTC with whole
  microseconds is unchanged where the process runs in UTC. Agreement elsewhere is up to `Equivalent`, equality up to
  storage precision and item order; where every order arrives at storage precision and item rows come back in table
  order, clients see no difference (`RunsStayExact`).
- The user API's text for a cached order of somebody else differs from its text for an order that is not there, which
  tells the caller that there is one: `RefusalTellsOfTheOrder`, at an input in `RepliesCanDiffer`. `UserReplyIsSameIff`
  and `PageReplyIsSameIff` compare whole replies, texts included.

## Model

| member | source | states |
|---|---|---|
| LruCache.Cache.constructor | internal/cache/cache.go:34-50 | a new cache is two linked sentinels and holds nothing |
| LruCache.Cache.AddNode | internal/cache/cache.go:52-57 | the node becomes the first between the sentinels; forward and backward chains stay inverse to each other |
| LruCache.Cache.RemoveNode | internal/cache/cache.go:59-64 | exactly that node leaves both chains |
| LruCache.Cache.MoveToHead | internal/cache/cache.go:66-69 | the node's slot becomes the newest, the others keep their order |
| LruCache.Cache.PopTail | internal/cache/cache.go:71-75 | the last node before the tail sentinel is unlinked and returned; a sentinel never is |
| LruCache.Cache.Set | internal/cache/cache.go:78-106 | slots and counters become those of one `Set` step; nil changes nothing |
| LruCache.Cache.Update | internal/cache/cache.go:86-90 | a mapped key keeps its node, with the new order, in front |
| LruCache.Cache.Insert | internal/cache/cache.go:92-97 | a new key gets a live slot in front and the gauge goes up by one |
| LruCache.Cache.EvictTail | internal/cache/cache.go:99-105 | the tail node goes and its key leaves the map, whichever node the map held under it |
| LruCache.Cache.Get | internal/cache/cache.go:109-125 | returns the live order of the key, makes it the newest, counts a hit iff there is one and a miss otherwise (`DeleteRuns.HitsAreFound`) |
| LruCache.Cache.Delete | internal/cache/cache.go:128-135 | the key's slot turns dead and stays linked; the gauge goes down even for an absent key |
| LruCache.Cache.Size | internal/cache/cache.go:138-142 | the number of live slots |
| LruCache.Cache.MapIsLiveSlots | internal/cache/cache.go:15-31 | the map has exactly one linked node for each live slot and no others |
| LruCache.Drive | internal/cache/cache.go:34-135 | any sequence of calls on a new cache leaves the slots and counters of that run, and each call returned what the run up to it holds |
| LruCache.Cache.Populate | internal/cache/cache.go:145-165 | sets the orders that load, in query order; the gauge becomes their number; on error nothing changes |
| LruCache.Cache.Preload | internal/cache/cache.go:151-160 | the loop skips exactly the orders that fail to load |
| DeleteRuns.HitsReturnLatestSet | internal/cache/cache.go:109-118 | in any run a hit returns the order last set under the key, never one deleted since |
| DeleteRuns.CounterLaws | internal/cache/cache.go:95-134 | in any run, list length = gauge + Delete calls, and hits + misses = Get calls |
| DeleteRuns.HitsAreFound | internal/cache/cache.go:113-123 | in any run the hit counter is the number of Get calls whose key was in the map, the miss counter that of the others |
| DeleteRuns.GaugeIsSizeIff | internal/cache/cache.go:99-135 | the gauge never exceeds the size, and is the size iff no call of the run was a Delete of an absent key or a Set that evicted an orphan without a key to drop |
| DeleteRuns.GaugeDrift | internal/cache/cache.go:92-135 | the gauge falls short of the size by the number of those calls |
| DeleteRuns.DeleteSpoilsGauge | internal/cache/cache.go:128-135 | one Delete on a new cache leaves the gauge at -1 and the size at 0 |
| DeleteRuns.SetSize | internal/cache/cache.go:92-105 | what one Set does to the number of map entries, in every case |
| DeleteRuns.SizeBound | internal/cache/cache.go:99-105 | map entries over the capacity, and orphans, are bounded by the Delete calls that found their key |
| DeleteRuns.ExceedsCapacityIff | internal/cache/cache.go:99-105 | the exact state in which a Set takes the map over its capacity |
| DeleteRuns.ReadBackIff | internal/cache/cache.go:78-106 | the exact state in which an order just set can be read back |
| DeleteRuns.CapacityCanBeExceeded | internal/cache/cache.go:128-135 | a run after which a cache of capacity one holds two orders |
| DeleteRuns.SetCanLoseItsOwnOrder | internal/cache/cache.go:99-105 | a run after which the order just set is not cached |
| Unbounded.SizeIsUnbounded | internal/cache/cache.go:99-135 | for every capacity there is a run after which the cache holds any number of orders |
| Lru.SetRefines | internal/cache/cache.go:78-106 | without Delete, Set puts the order in front of the textbook list and cuts it to the capacity |
| Lru.GetRefines | internal/cache/cache.go:109-118 | without Delete, Get moves the order to the front of the textbook list |
| Lru.RunRefinesLru | internal/cache/cache.go:22-125 | after any run without Delete the linked list, all of it live, is the textbook LRU list |
| Lru.GaugeIsSize | internal/cache/cache.go:95-104 | after any run without Delete the gauge is the size |
| Lru.EvictsLeastRecentlyUsed | internal/cache/cache.go:99-105 | a Set of a new key on a full cache drops exactly the least recently used order |
| History.CachedIffInWindow | internal/cache/cache.go:78-125 | a key is cached iff it was touched and fewer than capacity other keys were touched since; its value is the last one set |
| History.RunIsWindow | internal/cache/cache.go:78-125 | the recency list is the last-touch order of all keys cut to the capacity |
| History.HitsAreWindowGets | internal/cache/cache.go:113-123 | without Delete both counters can be read off the history: a Get is a hit iff fewer than capacity other keys were touched since its own |
| Inclusion.ListsIncluded | internal/cache/cache.go:78-125 | on one trace the smaller cache's recency list is a subsequence of the larger's, and equal until it has filled |
| Inclusion.CapacityInclusion | internal/cache/cache.go:78-125 | the same for the linked list itself; a hit in the smaller is the same hit in the larger; hits grow with capacity |
| Populating.PopulateFresh | internal/cache/cache.go:145-165 | preloading a new cache evicts nothing, caches exactly what loads, in reverse query order |
| Populating.PreloadedCache | internal/app/app.go:90-97 | a new cache after Populate: gauge, size and load count are one number within the capacity, the linked list holds exactly what loads, in reverse query order; after an error it is empty |
| Populating.NewestIsEvictedFirst | internal/cache/cache.go:152-160 | from a cache filled by preloading the next new order evicts the first loaded, whose date_created no stored order exceeds |
| Populating.LoadedOrders | internal/cache/cache.go:152-160 | no order is loaded twice and exactly the loadable UIDs are |
| OrderRepository.Repository.AddOrder | internal/repository/repository.go:277-386 | succeeds iff the schema admits the order and no statement fails; all rows of the order on success, no change on failure; the schema stays satisfied; a transaction that was begun ends committed on success and rolled back on failure, never open |
| OrderRepository.Repository.Store | internal/repository/repository.go:291-383 | the statements on the open transaction commit iff all succeed, all rows of the order then being in it; at the first error it is left open |
| OrderRepository.Repository.InsertItems | internal/repository/repository.go:362-380 | the item loop inserts every item with a fresh id, or stops at the first failure; the transaction stays open |
| Schema.StatementsKeepSchema | migrations/000001_create_tables.up.sql:1-54 | each of the four INSERT statements succeeds iff its key is free and the tables with its row satisfy every column width, foreign key and unique id |
| OrderRepository.Repository.OrderExists | internal/repository/repository.go:389-399 | tells whether the UID is stored; fails on a text that is no UUID |
| OrderRepository.Repository.AddOrderIfNotExists | internal/repository/repository.go:402-412 | which of three outcomes, each with its exact condition; only success changes the tables |
| OrderRepository.Repository.GetOrder | internal/repository/repository.go:99-185 | header and streamed items make up the order; the read succeeds iff the header is there and neither query, no scan and not the iteration fails |
| OrderRepository.Repository.GetOrderByUID | internal/repository/repository.go:99-185 | the read without an owner |
| OrderRepository.Repository.GetOrderByUIDAndUser | internal/repository/repository.go:188-274 | the read restricted to one customer |
| OrderRepository.Repository.GetRecentOrdersUID | internal/repository/repository.go:463-486 | distinct stored UIDs, as many as the limit allows, by descending date_created, none left out with a later date than one listed; fails iff the limit is negative or the query, a scan or the iteration fails |
| Recent.NewestIsRecent | internal/repository/repository.go:464 | whatever the arrangement of the rows, the query returns such a list |
| Recent.EveryRecentListIsPossible | internal/repository/repository.go:464 | every such list, ties broken in any way, is what the query returns for some arrangement |
| OrderRepository.ReadIsLookup | internal/repository/repository.go:152-182 | whatever order the rows arrive in, a read that does not fail answers as one snapshot would |
| Tables.RoundTrip | internal/repository/repository.go:99-386 | a stored order is loaded back equivalent, its timestamp rounded down by less than a microsecond |
| Tables.InsertedLeavesOthers | internal/repository/repository.go:277-386 | storing an order changes no answer about any other UID, for any customer |
| Tables.ExactlyTheseRows | internal/repository/repository.go:277-386 | one row more in three tables, one per item in the fourth, all of that UID; every other row untouched |
| Tables.CommitsGrow | internal/repository/repository.go:277-386 | in any history of transactions rows are only added and the tables stay consistent |
| Tables.CommitsHold | internal/repository/repository.go:277-386 | after any history each old order is found as it was, each new UID with the first order that can be stored under it, and nothing else |
| Tables.NoTransactionIsLost | internal/repository/repository.go:277-386 | the UID of every storable order of a history is found after it |
| Tables.TwoQueryRead | internal/repository/repository.go:99-185 | header and items read at two moments, with any commits in between, are one snapshot's answer |
| Tables.NoBrokenJoin | migrations/000001_create_tables.up.sql:15-54 | in a consistent database a UUID is found or absent; no LEFT JOIN comes up empty |
| Orders.SameUuidIff | migrations/000001_create_tables.up.sql:2 | two UID texts name the same order iff they differ in letter case at most |
| Tables.UserLookupFilters | internal/repository/repository.go:188-274 | the per-user read is the plain one with other customers' orders hidden |
| Coherence.ReadIsBacked | internal/repository/repository.go:99-185 | an order a read returns is the one stored under its own UID, and the restricted read's is the customer's |
| Coherence.SetKeepsCoherent | internal/cache/cache.go:78-106 | caching an order the database has keeps every cached order backed |
| Coherence.InsertedIsBacked | internal/consumer/consumer.go:72-76 | the order the consumer caches is the one the database has, rounding aside |
| OrderHandler.Handler.GetOrderByUIDHandle | internal/handler/handler.go:129-169 | reply and cache are those of the admin lookup, every branch |
| OrderHandler.Handler.GetUserOrderByUIDHandle | internal/handler/handler.go:182-237 | reply and cache are those of the user lookup, every branch and the panic of the string assertion |
| OrderHandler.Handler.OrderPageHandle | internal/handler/handler.go:348-413 | reply and cache are those of the page, every branch and both possible panics |
| OrderHandler.AdminLookupIsDirect | internal/handler/handler.go:147-168 | with any coherent cache the reply is that of a handler without one, and the cache stays coherent |
| OrderHandler.UserLookupIsDirect | internal/handler/handler.go:208-236 | the same for the user API |
| OrderHandler.OnlyTheLoggedInSee | internal/handler/handler.go:129-413 | a caller without a user, a user name or a role where one is needed gets 401 from each of the three handlers, is shown no order and leaves the cache as it was |
| OrderHandler.UsersSeeOnlyTheirOwn | internal/handler/handler.go:208-237 | whatever is cached, a user is only shown orders whose customer is the caller |
| OrderHandler.PageLookupIsDirectIff | internal/handler/handler.go:376-412 | the page agrees with the database unless an admin asks for a cached order of somebody else |
| OrderHandler.SecondPageLoadIsRefused | internal/handler/handler.go:376-412 | an admin loading a customer's order twice gets 200, then 404 |
| OrderConsumer.OnlyValidOrdersEnter | internal/consumer/consumer.go:66-104 | whatever the log holds and the database fails, an order new to the tables is one some message decodes to and that validates, stored as it is |
| OrderConsumer.Consumer.Handle | internal/consumer/consumer.go:66-80 | one event's effect on tables, cache and OrdersProcessed |
| OrderConsumer.Consumer.Consume | internal/consumer/consumer.go:53-82 | stops at the first read that reports cancellation or a deadline and at no other event, having applied every event before it |
| OrderConsumer.FirstOccurrenceWins | internal/consumer/consumer.go:66-80 | a log leaves old orders alone and adds, per new UID, the first order in it that can be stored, and nothing else |
| OrderConsumer.ReplayChangesNothing | internal/consumer/consumer.go:66-80 | reading a log again changes no table, no cache entry, no recency order and no count |
| OrderConsumer.ProcessedIsGrowth | internal/consumer/consumer.go:72-80 | OrdersProcessed counts the growth of the orders table, whatever the database fails |
| OrderConsumer.ConsumeKeepsCoherent | internal/consumer/consumer.go:72-76 | every event leaves the cache coherent with the tables |
| Protocol.ServiceStart | internal/app/app.go:82-97 | from any reachable database, the preloaded cache is coherent |
| Protocol.StepKeepsInv | internal/handler/handler.go:147-168 | every step of every request and consumer keeps cache, requests in flight and tables in agreement |
| Protocol.RunsStayCoherent | internal/consumer/consumer.go:72-76 | in every state of every interleaving each cached order is the database's, and no stored row ever changes |
| Protocol.ReadsAreLinearizable | internal/handler/handler.go:129-237 | a reply is what the database would have said at some moment between request and reply |
| Protocol.RunsStayBounded | internal/cache/cache.go:78-125 | without Delete every interleaving keeps the cache within its capacity |
| Protocol.ReadsAreMonotone | internal/handler/handler.go:129-237 | an order once shown to a request of any kind is shown, equivalent, to every later request that may see it: an admin's, or its customer's |
| Protocol.UsersAreShownTheirOwn | internal/handler/handler.go:208-237 | in every state of every interleaving, an order shown to a user has that user as its customer |
| Protocol.AtMostOneInsert | internal/repository/repository.go:389-412 | however checks and inserts interleave, one UID is stored by at most one of them |
| Protocol.FirstInsertIsKept | migrations/000001_create_tables.up.sql:1-13 | the first order stored under a UID is what every later state holds |
| Protocol.BothCanPassTheCheck | internal/repository/repository.go:402-412 | two consumers can be past the check with one UID; the second insert is then impossible |
| Protocol.AloneIsHandler | internal/handler/handler.go:129-413 | the separate steps of a request, run without interruption, leave the cache and give the reply of its handler |
| Protocol.FailedIsHandler | internal/handler/handler.go:152-165 | a request whose query the database fails, at either query, ends as its handler does, and leaves the cache alone |
| Protocol.AloneIsConsumer | internal/consumer/consumer.go:66-80 | the separate steps of a consumer, run without interruption, are the body of its loop |
| Protocol.FailedWriteIsDropped | internal/consumer/consumer.go:72-76 | an order whose write fails, or commits unreported, is not cached by the consumer |
| Protocol.NothingIsStuck | internal/handler/handler.go:129-413 | every request and consumer in flight has a step of its own to take, whatever the others do |
| Protocol.DeletedIsGone | internal/cache/cache.go:128-135 | in the interleaving model too, a deleted key is not found and every other key is found as before |
| Exactness.StoredIsSameIff | internal/repository/repository.go:99-386 | an order comes back from storage to be seen as it arrived iff its UID is canonical and its timestamp has whole microseconds and is written as the process writes its local zone at that instant |
| Exactness.HitIsSameIff | internal/handler/handler.go:147-150 | a hit is seen as the order the database would return iff timestamp and item order are as stored |
| Exactness.AdminReplyIsSameIff | internal/handler/handler.go:147-168 | the admin API's whole reply is the database's own iff the cached order, or on a miss the arriving rows, are as stored |
| Exactness.UserReplyIsSameIff | internal/handler/handler.go:208-236 | the same for the user API, provided also that no order of somebody else is cached under the UID; both directions |
| Exactness.PageReplyIsSameIff | internal/handler/handler.go:376-412 | the same for the page, for every role |
| Exactness.LoadedAsArrivedIff | internal/consumer/consumer.go:72-76 | an order stored by the consumer and asked for uncached is seen as it arrived iff nothing was rounded or reordered and its zone is written as the local one |
| Exactness.RepliesAgreeIff | internal/handler/handler.go:147-168 | consume, look up, evict, look up: an admin and the customer see the two replies the same under exactly that condition |
| Exactness.RefusalTellsOfTheOrder | internal/handler/handler.go:208-236 | in the same run any other user is refused with one text while the order is cached and with another when it is not |
| Exactness.RepliesCanDiffer | internal/handler/handler.go:147-236 | two orders and a run, without any failure and whatever the bytes, local zone and medium, whose two replies can be told apart, and whose two refusals differ |
| Exactness.ServiceStartsExact | internal/app/app.go:82-97 | a service preloaded from any reachable database, item rows in table order, starts with every cached order exact |
| Exactness.RunsStayExact | internal/handler/handler.go:129-237 | with orders at storage precision and item rows in table order, every interleaving shows and caches what is seen as the orders the database returns |
| ClosedLoop.CacheIsCutDemand | internal/handler/handler.go:147-168 | a cache of any capacity holds the first so many UIDs of one common order, that of their last demand |
| ClosedLoop.SmallerIsPrefix | internal/handler/handler.go:147-168 | a smaller cache's recency list is a prefix of a larger one's, with equivalent orders |
| ClosedLoop.QueriesAreMisses | internal/handler/handler.go:147-152 | the number of database lookups is that of the demands for a UID not among the last so many demanded before it |
| ClosedLoop.QueriesFallWithCapacity | internal/handler/handler.go:147-168 | a larger cache never asks the database more often |

## Left out

- ParseUuid: reads the hyphenated spelling in either letter case; the braces and other groupings PostgreSQL also accepts are treated as no UUID.
- Storable: VARCHAR columns reject every longer text, where PostgreSQL would cut off trailing spaces, and text content (NUL, encoding) is not looked at.
- OrderRepository.Repository.AddOrder: a failed COMMIT has not taken effect; the COMMIT that takes effect and still reports an error is the step `CommitUnreported` of `Protocol.dfy`.
- OrderRepository.Repository.GetOrder: the two exported reads are one method with an optional owner, since their bodies differ in the WHERE clause only.
- OrderConsumer.Consumer.Consume: returns when the given events run out, where the program waits for the next one.
- Protocol.ReadsAreLinearizable: says nothing of an admin's page that is refused, which is the divergence of `PageLookupIsDirectIff`.
- Inclusion.CapacityInclusion: for capacities above zero, which the configuration demands (internal/config/config.go:136-138).
- Exactness.View: JSON and page differ in whether the name of a zone is printed; every other detail of rendering is left out.
- Transactions in `Protocol.dfy` take effect at one moment, their COMMIT; locks and isolation levels of PostgreSQL are not modelled.
- Item ids in `Protocol.dfy` are not kept distinct, since no read returns them; in `Repository` they come from a sequence that is not rolled back.
- The order_uid and id fields of Delivery, Payment and Item, which the application neither writes nor reads.
- Orders are values: a pointer shared by cache and caller is never written through, so aliasing is not modelled.
- Log lines, request contexts and timeouts; a cancelled request is a database error.
- Lists of all UIDs, users, login, tokens, rate limits, configuration, health checks and migrations as a process.
