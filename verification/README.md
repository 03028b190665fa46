# Verification of glibs

This project models the stateful core of the `glibs` Go library in Dafny and proves what that
core is for. It covers seven components.

1. **Two-level query cache** (`mdb/gm2c.go` over `mdb/storage.go` and `mdb/storage-redis.go`). A search
   key maps one SQL text to a primary id, a primary key maps an id to its row, and both levels
   remember "no such row". A run through the cache gives the answers of a run against the database, on either
   store. `RedisStore` lays flat keys out as hashes and fields and still acts as a flat map.
2. **Retry scheduler** (`util/queue.go`). Dispatcher, watcher, bounded channel, worker groups and shared
   pool as a labelled transition system. A run is any sequence of enabled steps, so every statement about
   runs is about every interleaving.
3. **Closeable channel** (`util/closeable.go`), as a labelled transition system with any number of threads, any capacity
   and receivers that come when they like.
4. **Optimistic versioning** (`mdb/version.go`, `mdb/curd.go`) between any number of clients.
5. **RPC handler chain and server** (`j2rpc2`). Handlers are arbitrary finite programs of context actions.
6. **Batched retention** (`mdb/db.go`).
7. **Sessions, envelope, names** (`jwt`, `crypto/aesCBC.go`, `j2rpc/functions.go`, `j2rpc/j2rpc.go`).

## How it is organised

| files | component |
|---|---|
| `CacheKeys`, `Casts`, `WhereClauses`, `FreeStores`, `QueryCache`, `CacheConditions` | keys, coherence and invalidation, and where they fail |
| `RedisLayout`, `RedisStores` | hash layout, Redis store, its garbage collection |
| `RedisCaches`, `CacheStores`, `CachePlugins` | the cache over either store |
| `RetryQueue`, `RetryQueueLimits`, `RetryQueueOrder`, `RetryQueueRuns`, `QueueWorkers` | retry scheduler |
| `CloseableChannels` | closeable channel |
| `VersionClauses`, `VersionedRows`, `CurdUpdates` | versioning |
| `HandlerChain`, `RpcServer`, `RpcGroups`, `RpcAnswers`, `RpcResponses` | RPC chain and server |
| `Retention` | batched deletion |
| `Sessions`, `TokenStores`, `JwtService` | sessions |
| `Encodings`, `Envelope` | encrypted envelope |
| `NameMapping`, `MethodLookup` | names and method lookup |
| `Wrappers`, `Sequences`, `Strings` | shared result types, a regrouping lemma, finding texts in texts |

Code that changes an object is a class whose methods are proved against functions on values; the properties are
then lemmas about those functions and about runs. `dafny verify dfyconfig.toml` checks everything.

## What turned out false, and when it holds

* **Mixed conditions.** `findPrimaryCacheKey` builds a read's key from the last condition it looked at. The key stands
  for the row the conditions select, whatever the unrecognised ones mean, if and only if the conditions are not mixed
  (`KeyDenotesIffNotMixed`). `FindByID.FindByID` (`mdb/curd.go:206-226`) with a condition builds a mixed WHERE (`ConditionalLookupIsMixed`):
  where the row fails the condition, a later look-up by id alone answers that there is no such row, and otherwise the row
  (`HiddenByConditionIff`).
* **Ids with leading zeros.** A condition `id = 007` gets a cache key of its own. An update pinned to row 7 leaves that entry
  (`EntrySurvivesIff`; a write pinned to no row drops it), so reading `id = 007` again answers the old row. This run
  is stale if and only if the id has leading zeros (`StaleReadIff`), which is when the condition is not recognised as
  what it means (`WrittenIdRecognisedIff`, `WrittenIdFaithfulIff`).
* **Ids read from texts.** A number's base is taken from its prefix, so an update with id `"010"` is one of row 8. Decimal digits are
  read as what they say if and only if they have no leading zeros or are below eight (`WrittenIdReadIff`).
* **An update that moves a row to another id.** If it is pinned to the row, a remembered "no such row" under the new id stays.
  Invalidation suffices for every cache if and only if the write is not pinned, or moves no row (`InvalidationSufficesIff`).
* **A table called `sep`.** Splitting `...:p:sep:sep:id=7` at `:sep:` cuts too early, so dropping that table's prefixes from
  Redis leaves its rows, and its search entries unless their SQL text holds `:sep:`. Among colon-free names this is the only one
  (`RowDroppedIff`, `RowFoundIff`, `SearchFoundIff`).
* **A closeable channel jams** when `SendWithTimeout` with a negative timeout meets a full channel that nobody reads: it keeps the
  read lock, so `Close` waits for ever (`JamReachable`, `StuckUntilReceived`). Without receivers a state is stuck if and only if
  it is such a jam (`StuckIffJammed`); without negative timeouts no run gets stuck (`NeverStuck`).
* **A scheduler without workers.** Other users of the shared pool can occupy every worker. A scheduler with work can move if and only if it
  is not starved in this way (`DeadlockFreeIff`).
* **Deleting all of a table.** `BatchDeleteFromTop` removes exactly the `count` smallest ids if and only if more than `count`
  rows are there (`ExactIffMore`). So when every row is old, `deleteByDays` leaves the last batch, and when old rows come behind
  young ones in id order, young rows go. It leaves exactly the young rows if and only if nothing is old, or the old rows come
  first and are not all (`DaysExactIff`, `DaysExactIffSomeYoung`).
* **A version supplied by the caller** of an update is trusted. Such an update was computed from the value it replaces if
  and only if the version is not beyond the one read (`ClaimedVersionIsCurrentIff`, `FutureClaimOverwrites`).
* **Sliding expiry** tolerates gaps of half the lifetime plus one second, and no longer ones (`SteadyNeverExpires`, `LongerGapExpires`).
* **A condition that begins with a lone alternative.** gorm moves it behind the next ordinary expression, or behind the version
  condition. The rewritten clause selects the original rows at the given version, for all clauses of a shape, if and only if no
  alternative is misplaced so (`VersionGuardsIff`); a stale update gets through if and only if the clause is a lone
  alternative and nothing else (`NoLostUpdateIff`, `LoneAlternativeLosesUpdate`).
* **A function named by a dotted prefix** of another may answer in its place: the first such function, in the order in which the
  groups are visited, answers (`WinnerAnswers`), and each is the first in some order (`PrefixFunctionAnswers`). The method's own
  function answers if and only if there is none (`NameWinsIff`). A call whose method names a group of middlewares only
  is not answered at all (`AnsweredIffFunctionOrUnknown`).
* **An empty, non-nil result** makes a response without result and without error (`OneOfResultAndError`), and a request that
  carries an `error` of its own gets that back instead of the result (`PayloadDeliveredIff`).
* **Names** survive camel and snake form exactly if no capitals are adjacent, respectively if words before separators are
  long enough (`CamelOfSnakeIff`, `SnakeOfCamelIff`). A namespace given explicitly is not formatted when it is registered
  and is reachable exactly if it is its own snake name and holds no dot (`GivenNamespaceReachableIff`).

## Preconditions of cache transparency

Operations run one after another. Reads are single-row reads that raise not-found, as Take and First do, and not-found is the
only database error. Whole rows are selected, by exactly the top-level conditions. In tables with a single primary column
these are, for reads, either all recognised primary-key equalities or none is, and ids in recognised conditions are
written in canonical decimal (the first two points of the list above). Writes may mix conditions but have no top-level OR, creates
carry no WHERE, and an update pinned to one row keeps its id (a later point of that list). Table names hold no colon. JSON round-trips rows and
never produces the bare word `null`. Expiry and eviction are steps that remove any set of entries at any time, on Redis whole hashes.
A Redis store starts without live keys, takes the JSON that the cache stores, and serves reads of tables not called `sep`.

## Model

| member | source | states |
|---|---|---|
| `CacheKeys.DecimalRoundTrip` | mdb/gm2c.go:411-421 | an id printed in decimal reads back as itself |
| `CacheKeys.PrintedFormIff` | mdb/gm2c.go:400-407 | a text of digits is the printed form of its value iff it has no leading zeros |
| `Casts.ToUint64OfDecimal` | mdb/gm2c.go:279-282 | the id text of a search entry identifies its row, or is unusable from 2^63 on |
| `Casts.WrittenIdReadIff` | mdb/curd.go:361-366 | an id given as decimal digits is read as what it says iff it has no leading zeros or is below eight |
| `CacheKeys.DecimalIsNotNull` | mdb/gm2c.go:274-278 | an id text is never mistaken for the mark of an absent row |
| `CacheKeys.IdTextInjective` | mdb/gm2c.go:407-408 | two ids never share an id text |
| `CacheKeys.PrimaryKeysDistinct` | mdb/gm2c.go:451-457 | equal primary keys come from the same table and the same id text |
| `CacheKeys.SearchKeysDistinct` | mdb/gm2c.go:459-465 | equal search keys come from the same table and the same SQL text |
| `CacheKeys.KeyKindsDisjoint` | mdb/gm2c.go:451-465 | no primary key is a search key |
| `CacheKeys.KeysUnderPrefixes` | mdb/gm2c.go:451-465 | every key of a table lies under the prefix that invalidation drops |
| `WhereClauses.PlaceholderEqualityRecognised` | mdb/gm2c.go:387-400 | the hand-written form "id = ?" is recognised as the key of that row |
| `WhereClauses.WrittenIdRecognisedIff` | mdb/gm2c.go:387-407 | a written-out id is recognised as the key of its row iff it has no leading zeros |
| `WhereClauses.OtherColumnNotRecognised` | mdb/gm2c.go:387-395 | a raw condition on any other plain column is not recognised, whatever the two names have in common |
| `WhereClauses.FirstFoundMeaning` | mdb/gm2c.go:155-163 | a write finds no key iff no condition is recognised, otherwise one of the recognised ids |
| `WhereClauses.KeyForReadMeaning` | mdb/gm2c.go:152-169 | on conditions that are not mixed, a read finds a key iff they all name that one id |
| `FreeStores.FreeStore.DropPrefix` | mdb/storage.go:84-98 | exactly the keys under one of the prefixes are gone, the others unchanged, in any iteration order |
| `FreeStores.FreeStore.Get` | mdb/storage.go:100-108 | the entry if there is one |
| `FreeStores.FreeStore.Set` | mdb/storage.go:112-119 | the entry is replaced, nothing else changes |
| `FreeStores.FreeStore.Del` | mdb/storage.go:80-82 | the entry is gone, nothing else changes |
| `FreeStores.FreeStore.ClearAll` | mdb/storage.go:76-78 | no entry is left |
| `QueryCache.CoherentAfterLoss` | mdb/gm2c.go:172-192 | losing any entries keeps every remaining entry true |
| `QueryCache.CoherentAfterPrimarySet` | mdb/gm2c.go:315-341 | storing a true primary entry makes no other entry false |
| `QueryCache.CoherentAfterSearchSet` | mdb/gm2c.go:319-330 | storing a true search entry makes no other entry false |
| `QueryCache.OnlyTargetTouched` | mdb/gm2c.go:114-125 | a write pinned to one key by its conditions or its argument, that moves no row, touches no other row |
| `QueryCache.InvalidationRestoresCoherence` | mdb/gm2c.go:98-132 | after the selective invalidation of any create, update or delete that is not pinned, or moves no row, every entry left agrees with the new rows |
| `QueryCache.TargetMeaning` | mdb/gm2c.go:134-170 | recognised conditions that resolve to one id select exactly the row with that id |
| `QueryCache.ReadTargetAnswer` | mdb/gm2c.go:194-201 | what the database answers to such a read is what its primary entry must say |
| `QueryCache.HitIsReference` | mdb/gm2c.go:172-192 | whatever coherent entries answer to a read, directly or over both levels, is the database's own answer |
| `QueryCache.RememberedIsCoherent` | mdb/gm2c.go:315-341 | storing the database's answer at its level or both keeps every entry true |
| `QueryCache.RememberedIsHitIff` | mdb/gm2c.go:315-341 | the answer stored after a miss is a hit, iff the read had a primary key, found nothing, or found a usable id |
| `CacheConditions.KeyDenotesIffNotMixed` | mdb/gm2c.go:152-169 | the chosen key denotes the selected row, whatever unrecognised conditions mean, iff the conditions are not mixed |
| `CacheConditions.MixedKeyFails` | mdb/gm2c.go:164-169 | for every mixed WHERE some meaning of the unrecognised conditions makes the key wrong |
| `CacheConditions.ConditionalLookupIsMixed` | mdb/curd.go:217-221 | a look-up by id under any condition that is not recognised uses the row's key even where the row fails the condition |
| `CacheConditions.HiddenByConditionIff` | mdb/curd.go:217-221 | after a look-up by id under an unrecognised condition, one by id alone answers the row iff the row met the condition, otherwise that there is none |
| `CacheConditions.EntrySurvivesIff` | mdb/gm2c.go:102-128 | a primary entry survives a write of its table iff the write is pinned to another id text |
| `CacheConditions.InvalidationSufficesIff` | mdb/gm2c.go:102-128 | a write keeps every coherent cache coherent iff it is not pinned to one row, or moves no row to another id |
| `CacheConditions.MovedRowIsMissed` | mdb/gm2c.go:114-125 | for every pinned write that moves a row some coherent cache goes wrong |
| `CacheConditions.WrittenIdFaithfulIff` | mdb/gm2c.go:387-407 | a written-out id is recognised as what it means iff it has no leading zeros |
| `CacheConditions.StaleReadIff` | mdb/gm2c.go:102-128 | read by a written-out id, update that row, read again: the old row is answered iff the id has leading zeros |
| `CachePlugins.CachePlugin.FindPrimaryCacheKey` | mdb/gm2c.go:134-170 | the loop computes the first recognised id for writes, and the read rule for reads |
| `CachePlugins.CachePlugin.GetCacheKey` | mdb/gm2c.go:194-201 | a primary key when the conditions resolve to one id, otherwise the search key of the SQL text |
| `CachePlugins.CachePlugin.QueryCachePk` | mdb/gm2c.go:248-265 | absent, known missing, a row, or an undecodable row |
| `CachePlugins.CachePlugin.QueryCacheSearch` | mdb/gm2c.go:267-290 | miss, known absent, or the primary key of the remembered id |
| `CachePlugins.CachePlugin.LookUp` | mdb/gm2c.go:172-192 | asks the search key, then the primary key it points to, and answers what is left of the entries |
| `CachePlugins.CachePlugin.GetCache` | mdb/gm2c.go:172-192 | what the two levels answer from what is left of the entries, and any hit is the database's own answer |
| `CachePlugins.CachePlugin.SetCache` | mdb/gm2c.go:315-341 | stores the database's answer at the right levels and keeps every entry true |
| `CachePlugins.CachePlugin.QueryWithCache` | mdb/gm2c.go:292-313 | a read through the cache answers what the database would, from what is left of the entries or by storing the answer |
| `CachePlugins.CachePlugin.AfterDelete` | mdb/gm2c.go:98-132 | removes the table's search entries and one primary entry, or all of the table when no key can be found |
| `CachePlugins.CachePlugin.Execute` | mdb/gm2c.go:98-132 | a write followed by its invalidation keeps every entry true |
| `CachePlugins.CachePlugin.Run` | mdb/gm2c.go:98-341 | cache transparency, on the memory store and on Redis, over every sequence of cached and uncached reads, writes and losses of entries |
| `RedisCaches.HashHoldsPrefix` | mdb/storage-redis.go:31-42 | a key of a table not called "sep" that starts with a table's prefix lies in a hash whose name holds that prefix |
| `RedisCaches.RedisCache.DropPrefix` | mdb/storage-redis.go:31-42 | dropping a table's prefix by containment leaves no key that starts with it, whatever else goes |
| `RedisCaches.RedisCache.Get` | mdb/storage-redis.go:44-67 | a hit is the entry; a miss means the entry was lost |
| `RedisCaches.RedisCache.Set` | mdb/storage-redis.go:91-110 | the entry is replaced, no other changes |
| `RedisCaches.RedisCache.Del` | mdb/storage-redis.go:23-29 | the entry is gone, no other changes |
| `CacheStores.CacheStore.Get` | mdb/gm2c.go:172-192 | either store answers from its entries, and a miss loses at most that one |
| `CacheStores.CacheStore.DropPrefix` | mdb/gm2c.go:102-112 | on either store exactly the entries under the prefix are gone |
| `CacheStores.CacheStore.Meanwhile` | mdb/storage.go:112-119 | eviction, expiry and collection only lose entries |
| `RedisLayout.JoinOfSplit` | mdb/storage-redis.go:69-79 | splitting at the separator and joining gives back the text |
| `RedisLayout.Rejoin` | mdb/storage-redis.go:69-79 | hash, separator and field make up the key again |
| `RedisLayout.LayoutInjective` | mdb/storage-redis.go:69-79 | distinct keys never share hash and field |
| `RedisLayout.LaidOutIffSeparated` | mdb/storage-redis.go:69-79 | a key is stored at all iff it holds the separator |
| `RedisLayout.SplitAfterHead` | mdb/storage-redis.go:69-79 | unless it ends in ":sep", a head and what follows its separator are split independently |
| `RedisLayout.HashKeepsHead` | mdb/storage-redis.go:69-79 | then the hash starts with the head, and is just the head iff no separator follows |
| `RedisLayout.TableHashesFound` | mdb/storage-redis.go:31-42 | every hash with a key of a colon-free table not called "sep" carries that table's prefix |
| `RedisLayout.TableCalledSepIsMissed` | mdb/storage-redis.go:69-79 | for a table called "sep" the hash of every row's key lacks the table's prefix |
| `RedisLayout.RowFoundIff` | mdb/gm2c.go:451-457 | the hash of a row's key is found by its table's prefix iff the table is not called "sep" |
| `RedisLayout.SearchFoundIff` | mdb/gm2c.go:459-465 | the hash of a search key is found by its table's prefix iff the table is not called "sep" or the SQL text holds the separator |
| `RedisStores.RedisServer.HScan` | mdb/storage.go:152-163 | a scan lists every field of the hash with its value, in any order |
| `RedisStores.HDeleter.Call` | mdb/storage.go:135-150 | buffers fields and deletes them all at 100 or on a call without fields |
| `RedisStores.RedisStore.Get` | mdb/storage-redis.go:44-67 | answers the live value of the key, and deletes it when it has expired |
| `RedisStores.RedisStore.Set` | mdb/storage-redis.go:91-110 | changes exactly this key, with its expiry time; keys without separator and unencodable payloads are dropped |
| `RedisStores.RedisStore.Del` | mdb/storage-redis.go:23-29 | removes exactly this key |
| `RedisStores.RedisStore.DropPrefix` | mdb/storage-redis.go:31-42 | removes exactly the hashes whose name contains one of the prefixes |
| `RedisStores.RedisStore.TableDropped` | mdb/storage-redis.go:31-42 | dropping the two prefixes of a table not called "sep" reaches every key of that table, of either kind |
| `RedisStores.RedisStore.RowDroppedIff` | mdb/storage-redis.go:31-42 | dropping a table's two prefixes removes its rows' entries iff the table is not called "sep" |
| `RedisStores.RedisStore.Run` | mdb/storage-redis.go:23-133 | any sequence of Get, Set, Del, DropPrefix and garbage collection, with time passing, answers as a flat map does |
| `RedisStores.RedisStore.CollectHash` | mdb/storage-redis.go:122-131 | scanning one hash in pairs deletes exactly its expired or undecodable fields |
| `RedisStores.RedisStore.HScanCallback` | mdb/storage.go:152-163 | walking a scan in pairs hands exactly the dead fields to the batching deleter |
| `RedisStores.RedisStore.StoreGC` | mdb/storage-redis.go:112-133 | garbage collection removes exactly the dead fields of the hashes it covers and changes no answer |
| `RedisStores.RedisStore.ClearAll` | mdb/storage-redis.go:21 | no key is left |
| `RetryQueue.StepMovesTasks` | util/queue.go:82-148 | a step moves a task from one place to another; only a producer adds one |
| `RetryQueue.StepConserves` | util/queue.go:53-137 | a step keeps every accepted task in exactly one place, and a retry replaces its parent |
| `RetryQueue.RunConserves` | util/queue.go:27-148 | accepted tasks are the disjoint union of queued, held, in channel, with the watcher, running and the four ends, in every run |
| `RetryQueueLimits.StepCounts` | util/queue.go:188-206 | a step keeps slots and wait groups equal to the jobs that hold them |
| `RetryQueueLimits.RunWithinLimits` | util/queue.go:127-137 | a group, the fallback included, never executes more than its slots, and its wait group counts unfinished submissions |
| `RetryQueueLimits.DeadlockFreeIff` | util/queue.go:82-148 | with work left and the task looked at due, a step of the scheduler that makes progress is enabled iff other users of the pool do not starve it |
| `RetryQueueLimits.IdlePoolMoves` | util/queue.go:193-203 | with no job of its own in the pool and not starved, the pipeline from queue to worker can move |
| `RetryQueueLimits.StepLowersWork` | util/queue.go:97-125 | every step of the scheduler lowers remaining retries and stages; finding a task early raises them by two, and others of the pool change nothing |
| `RetryQueueLimits.BoundedWork` | util/queue.go:97-125 | without new tasks the steps of a run are bounded by the work at its start and twice its rotations, whatever other users of the pool do |
| `RetryQueueOrder.StepKeepsOrder` | util/queue.go:82-95 | a step keeps due tasks in enqueue order across sent, held and queued, also when a task becomes due while it is put back |
| `RetryQueueOrder.RunIsFifo` | util/queue.go:82-95 | tasks due when enqueued are sent in exactly that order, however many others are rotated between them |
| `RetryQueueOrder.StartKeepsLog` | util/queue.go:97-125 | starting a waiting task keeps attempts within budget, not early, after a failure of the attempt before and its delay later |
| `RetryQueueOrder.FailureKeepsLog` | util/queue.go:105-124 | a failure comes after its attempt's start and before any start of the next |
| `RetryQueueOrder.RetryWaits` | util/queue.go:120-124 | a failed attempt with budget left waits at least the delay of its retry number, counted from the failure |
| `RetryQueueOrder.StepIsTimely` | util/queue.go:82-125 | a step keeps all attempts within budget, not before runAt, and each retry its delay after the failure before it |
| `RetryQueueOrder.RunIsTimely` | util/queue.go:82-125 | the same over every run |
| `RetryQueueOrder.RetryAfterFailure` | util/queue.go:120-124 | between two consecutive attempts of a task lies a failure of the first, and the second starts its delay later at the earliest |
| `RetryQueueRuns.EveryRun` | util/queue.go:27-148 | conservation, limits, order and timing in every reachable state of a fresh queue |
| `RetryQueueRuns.StuckMeansDone` | util/queue.go:82-148 | a scheduler that cannot move, and is not starved of workers, has brought every accepted task to exactly one end |
| `RetryQueueRuns.EventuallyDone` | util/queue.go:27-148 | every fair endless behaviour with finitely many new tasks and rotations, and no starvation in the end, brings every accepted task to exactly one end, for good |
| `RetryQueueRuns.AttemptsBounded` | util/queue.go:105-124 | a task's handler is invoked at most its retry limit plus one times |
| `QueueWorkers.NumberFromPercent` | util/queue.go:298-307 | every group gets at least one slot |
| `QueueWorkers.ShareHonoured` | util/queue.go:298-307 | a group gets its share of the workers rounded down, but at least one slot |
| `QueueWorkers.OddShareCountsAsOne` | util/queue.go:299-301 | a share outside 1..10 counts as one tenth |
| `QueueWorkers.NewGQueue` | util/queue.go:215-250 | for every option the configuration is valid: group 1 exists, all capacities are at least 1, the channel holds MaxWorkers |
| `QueueWorkers.MakeWorkers` | util/queue.go:238-241 | the loop gives every group the slots of its share, in any order |
| `QueueWorkers.RoundedUp` | util/queue.go:298-307 | one slot for each group, or at most the shares plus one slot of rounding for all groups but one |
| `QueueWorkers.SumRounded` | util/queue.go:238-241 | by induction over the groups, roundings of one slot or none add up to at most one slot for all groups but one |
| `QueueWorkers.SlotsBounded` | util/queue.go:238-241 | k groups with shares in 1..10 that sum to at most 10 have at most MaxWorkers + k - 1 slots |
| `CloseableChannels.StepKeepsLock` | util/closeable.go:54-78 | the lock is held by exactly the threads past their acquisition, one writer or some readers, and announced by at most one |
| `CloseableChannels.StepIsSafe` | util/closeable.go:24-29 | a step keeps: nobody is inside an operation once the flag is set |
| `CloseableChannels.StepIsGood` | util/closeable.go:24-133 | a step keeps lock, close safety, order and the fate of every removed value together |
| `CloseableChannels.ClosedStaysQuiet` | util/closeable.go:54-78 | once the flag is set no step accepts, removes or sends anything |
| `CloseableChannels.RunIsGood` | util/closeable.go:24-133 | all of these in every state of every run |
| `CloseableChannels.CloseIsSafe` | util/closeable.go:24-133 | for any number of threads and every interleaving nothing is sent on a closed channel and it is closed at most once |
| `CloseableChannels.QueueIsFifo` | util/closeable.go:31-50 | removed values are a prefix of the accepted ones, each sent, handed out or timed out, and sent and received in queue order |
| `CloseableChannels.StepIsBuffered` | util/closeable.go:120-132 | a step keeps the buffer within its capacity, and what was carried equal to what was received and what is buffered |
| `CloseableChannels.StuckIffJammed` | util/closeable.go:54-78 | without a receiver threads under way are stuck iff a send with negative timeout waits on a full channel and all others wait behind such sends |
| `CloseableChannels.StuckUntilReceived` | util/closeable.go:120-124 | until somebody receives, such a send keeps the lock in every run and the channel is never closed |
| `CloseableChannels.JamReachable` | util/closeable.go:85-87 | for every capacity a run reaches such a jam with Close waiting |
| `CloseableChannels.NeverStuck` | util/closeable.go:120-132 | if no send is given a negative timeout, in every run some thread under way can step without a receiver |
| `VersionClauses.Statement.ModifyStatement` | mdb/version.go:62-123 | the rewritten WHERE, assigned columns and version bump; a second call changes nothing |
| `VersionClauses.VersionGuardsWhere` | mdb/version.go:67-89 | unless a lone alternative is misplaced, the rewritten WHERE selects what the original did at the given version, alternatives included |
| `VersionClauses.ParenthesesKeepWhere` | mdb/version.go:67-78 | the added parentheses alone change nothing |
| `VersionClauses.RewrittenMeaning` | mdb/version.go:67-89 | unless it is one lone alternative, the rewritten WHERE selects the rows at the version for which the expressions hold in their order |
| `VersionClauses.VersionGuardsIff` | mdb/version.go:67-89 | for all clauses of a shape the version condition guards them exactly iff no lone alternative is misplaced |
| `VersionClauses.LoneAlternativeIsUnguarded` | mdb/version.go:67-89 | a lone alternative lets rows of every version through |
| `VersionClauses.UnparenthesisedIsUnguarded` | mdb/version.go:67-78 | without the added parentheses an alternative escapes the version condition |
| `VersionedRows.StepIsGood` | mdb/version.go:41-123 | a step keeps version = first version + effective updates, and never gives a version number a second value |
| `VersionedRows.StepBumpsVersion` | mdb/version.go:121 | versions rise by one per effective update, unversioned ones too, and otherwise not at all |
| `VersionedRows.RunIsGood` | mdb/version.go:41-123 | both over every run |
| `VersionedRows.EffectiveMeansVersion` | mdb/version.go:80-89 | a conditional update takes effect only on the row at that version, unless its clause is a lone alternative |
| `VersionedRows.UnconditionalIff` | mdb/version.go:67-89 | an update without a version takes effect on exactly what its own clause selects |
| `VersionedRows.EffectiveIsCurrent` | mdb/curd.go:175-185 | an update that takes effect under its copy's version was computed from the value it replaces |
| `VersionedRows.NoLostUpdate` | mdb/curd.go:134-185 | the same in every reachable state, however old the copy: no update is lost |
| `VersionedRows.NoLostUpdateIff` | mdb/version.go:67-89 | for the clauses of a shape no update is ever lost iff the shape is not a lone alternative |
| `VersionedRows.LoneAlternativeLosesUpdate` | mdb/version.go:67-89 | a run in which a stale update with a lone alternative overwrites a committed value |
| `VersionedRows.ClaimedVersionIsCurrentIff` | mdb/curd.go:139-185 | with a version supplied by the caller that holds iff the version is not beyond the one read |
| `VersionedRows.FutureClaimOverwrites` | mdb/curd.go:175-185 | an instance in which another client's committed value is overwritten |
| `CurdUpdates.CopyStays` | mdb/curd.go:134-138 | a client's copy stays what it read, whatever other clients do |
| `CurdUpdates.UpdateLosesNothing` | mdb/curd.go:120-186 | an update of the API that takes effect leaves the row as it was at that moment with the changes over it |
| `CurdUpdates.CurdParams.Update` | mdb/curd.go:120-186 | missing id, missing row, rejected, or the merged or forced conditional write, with other clients acting in between |
| `HandlerChain.Exec` | j2rpc2/context.go:85-103 | interpreting a handler never adds more work than its program holds, so every chain ends |
| `HandlerChain.RunNext` | j2rpc2/context.go:85-103 | one Next, with all it leads to, uses up pending handlers and never passes the handler count |
| `HandlerChain.ExecIsDisciplined` | j2rpc2/context.go:33-103 | for every program: handlers start in index order without gaps, none after Abort, at most one response is written |
| `HandlerChain.NextIsDisciplined` | j2rpc2/context.go:85-103 | the same for one call of Next |
| `HandlerChain.ArgsMeaning` | j2rpc2/context.go:204-215 | an error iff the request or an argument carries one; the last payload wins; the rest of the message is unchanged |
| `HandlerChain.OneOfResultAndError` | j2rpc2/context.go:199-242 | a response carries exactly one of result and error iff something failed or the payload is not an empty non-nil one |
| `HandlerChain.PayloadDeliveredIff` | j2rpc2/context.go:203-223 | a payload is delivered iff the request carried no error of its own |
| `HandlerChain.RpcContext.Next` | j2rpc2/context.go:85-103 | the method runs the next handler as the specification does |
| `HandlerChain.RpcContext.Run` | j2rpc2/context.go:33-242 | a handler's code on the context object computes what its interpretation says |
| `HandlerChain.RpcContext.Act` | j2rpc2/context.go:33-242 | every action that concerns no handler does to the object what the specification says |
| `HandlerChain.RpcContext.AddHandler` | j2rpc2/context.go:40-50 | handlers are appended, nothing else changes |
| `HandlerChain.RpcContext.StopWriteStringStatus` | j2rpc2/context.go:188-196 | unless something was written, aborts and writes this text |
| `HandlerChain.RpcContext.WriteResponse` | j2rpc2/context.go:199-242 | unless something was written, writes the answer or an encoding error |
| `RpcServer.Server.Use` | j2rpc2/server.go:75-86 | middlewares are appended to their group and functions stay placed |
| `RpcServer.Server.GetOrNewGroup` | j2rpc2/server.go:79-86 | the group of a path, made empty when it is new |
| `RpcServer.Server.constructor` | j2rpc2/server.go:184-195 | a new server holds the root group with body reading first |
| `RpcServer.Server.RegisterFunc` | j2rpc2/server.go:36-39 | a function goes to the group of its name; a name already taken keeps its first function |
| `RpcServer.Server.Collect` | j2rpc2/server.go:167-180 | visiting the groups in any order collects the prefix groups' handlers, then the method's own |
| `RpcServer.Server.Handle` | j2rpc2/server.go:26-32 | a request is served as the specification says, for some order of the groups |
| `RpcAnswers.NextAnswers` | j2rpc2/server.go:88-182 | Next leads through passing handlers to the function, whose answer is the one response |
| `RpcAnswers.PassesOn` | j2rpc2/context.go:85-103 | a program that passes on, whatever it does afterwards, answers or leaves the function to come |
| `RpcGroups.GroupsContiguous` | j2rpc2/server.go:173-180 | every applying group's handlers stay together and in order, the method's own come last |
| `RpcGroups.WinnerMeaning` | j2rpc2/server.go:173-180 | the winner is the first function visited whose name is a dotted prefix, else the name itself |
| `RpcGroups.NameWinsIff` | j2rpc2/server.go:173-180 | the name itself wins iff no function's name is a dotted prefix of it |
| `RpcGroups.AnyPrefixFunctionMayWin` | j2rpc2/server.go:173-178 | each function named by a dotted prefix wins in some order of the groups |
| `RpcGroups.WinnerInLine` | j2rpc2/server.go:167-180 | only middlewares stand between reading the body and the winner's handler |
| `RpcAnswers.WinnerAnswers` | j2rpc2/server.go:88-182 | a call gets exactly one response, that of the winner, for every set of functions and every order of the groups |
| `RpcAnswers.OneAnswerPerCall` | j2rpc2/server.go:88-182 | a registered function without dotted prefixes among the functions answers its calls itself, once, for every order of the groups |
| `RpcAnswers.PrefixFunctionAnswers` | j2rpc2/server.go:173-178 | each function whose name is a dotted prefix of the method's answers instead in some order of the groups |
| `RpcAnswers.AnswerIsWellFormed` | j2rpc2/context.go:199-242 | the answer keeps id and version and carries exactly one of result and error (section 5 of the JSON-RPC 2.0 specification) |
| `RpcAnswers.OneWellFormedAnswer` | j2rpc2/server.go:88-182 | a call gets exactly one response, a well-formed answer iff encoding and the hook before writing accept it, otherwise an internal error |
| `RpcAnswers.BadRequestAnsweredOnce` | j2rpc2/server.go:153-172 | refused, malformed and unknown requests are answered exactly once, and a refused one starts nothing more |
| `RpcAnswers.QuietRuns` | j2rpc2/context.go:188-242 | programs that do not write leave the response unwritten |
| `RpcAnswers.NoFunctionNoAnswer` | j2rpc2/server.go:167-181 | a call of a group of quiet middlewares, with no function among its dotted prefixes, is never answered |
| `RpcAnswers.AnsweredIffFunctionOrUnknown` | j2rpc2/server.go:167-181 | with quiet passing middlewares a call is answered iff its method or a dotted prefix of it is a function, or it is no group at all |
| `RpcResponses.RespondsRuns` | j2rpc2/context.go:85-103 | a program that passes on or writes on every path, and writes if it aborts, responds or leaves the function to come |
| `RpcResponses.NextResponds` | j2rpc2/context.go:85-103 | Next on such a chain before a function's handler always ends with a response |
| `RpcResponses.ExactlyOneResponse` | j2rpc2/server.go:88-182 | with middlewares that pass on or answer themselves, every request for a function or no group gets exactly one response |
| `Retention.Table.BatchDeleteFromTop` | mdb/db.go:600-625 | the loop with quotient and remainder offsets computes the batches one after another, with rows arriving in between |
| `Retention.Table.SplitCount` | mdb/db.go:604-609 | quotient and remainder give each turn of the loop the rows of its batch, and none are left after the last |
| `Retention.Table.Batch` | mdb/db.go:610-623 | one batch leaves the suffix from its offset, or nothing is deleted and the loop ends when no row is there |
| `Retention.Table.CountWhere` | mdb/db.go:554-556 | counts the rows that satisfy a condition |
| `Retention.BatchOffset` | mdb/db.go:604-618 | the loop's offsets are the steps of the simple form |
| `Retention.DeleteBelowPosition` | mdb/db.go:620-623 | deleting below the id at an offset leaves exactly the suffix from it |
| `Retention.BatchesRemovePrefix` | mdb/db.go:600-625 | whatever arrives meanwhile, what is removed is a prefix in id order, never with a gap |
| `Retention.ExactIffEnough` | mdb/db.go:600-625 | exactly count rows are removed iff every batch finds a row behind those it deletes |
| `Retention.MoreIsEnough` | mdb/db.go:600-625 | a table with more rows than are to go has enough for every batch, whatever arrives |
| `Retention.EnoughIffMore` | mdb/db.go:600-625 | with nothing arriving, more rows than are to go is also necessary |
| `Retention.ExactDespiteArrivals` | mdb/db.go:600-625 | with more than count rows, exactly the count smallest ids go, even if larger ids arrive between batches |
| `Retention.ExactIffMore` | mdb/db.go:600-625 | undisturbed, exactly the count smallest ids go iff more than count rows are there |
| `Retention.Table.DeleteByCount` | mdb/db.go:545-560 | leaves exactly the saveCount largest ids, or all when there are no more |
| `Retention.OlderThanSaved` | mdb/db.go:549-559 | the rows counted by the query are all but the saveCount largest, and exactly they go |
| `Retention.Table.DeleteByDays` | mdb/db.go:562-576 | removes batches of as many rows as lie before the cutoff |
| `Retention.DaysExactIffSomeYoung` | mdb/db.go:562-576 | where rows are created in id order, exactly the old rows go iff some row is young |
| `Retention.DaysExactIff` | mdb/db.go:562-576 | for any creation order, exactly the young rows stay iff nothing is old, or the old rows come first in id order and are not all; with old rows behind young ones young rows go |
| `Sessions.ClearingIsInvisible` | jwt/store.go:64-72 | clearing any expired tokens at any time never changes what is accepted |
| `Sessions.StoredIsCurrent` | jwt/jwt.go:40-49 | the stored token is that of the latest login with no later logout |
| `Sessions.AcceptedIff` | jwt/jwt.go:57-97 | after any run a token is accepted iff it is that one, its deadline has not passed and the user is known |
| `Sessions.SteadyNeverExpires` | jwt/jwt.go:117-123 | a session verified at gaps of at most half the lifetime plus one second never expires |
| `Sessions.SteadySession` | jwt/jwt.go:40-123 | the same from a login on |
| `Sessions.LongerGapExpires` | jwt/jwt.go:117-123 | every longer gap can expire a session |
| `TokenStores.DefaultTokenStore.ClearExpiredToken` | jwt/store.go:64-72 | exactly the expired tokens go, in any iteration order |
| `TokenStores.DefaultTokenStore.SetToken` | jwt/store.go:87-91 | the token is replaced, no other changes |
| `TokenStores.DefaultTokenStore.GetToken` | jwt/store.go:80-85 | the token if there is one |
| `TokenStores.DefaultTokenStore.DelToken` | jwt/store.go:74-78 | the token is gone, no other changes |
| `TokenStores.RedisTokenStore.SetToken` | jwt/store.go:52-56 | sets the token in the one map that memory and Redis stand for |
| `TokenStores.RedisTokenStore.GetToken` | jwt/store.go:34-50 | answers what that map holds, from memory or through it |
| `TokenStores.RedisTokenStore.ReadThrough` | jwt/store.go:34-50 | fetching and remembering keeps memory equal to Redis |
| `TokenStores.RedisTokenStore.WriteThrough` | jwt/store.go:52-56 | the text is in Redis, without expiry, and in memory, and no other changes |
| `TokenStores.RedisTokenStore.DelToken` | jwt/store.go:29-32 | removes the token from that map |
| `TokenStores.RedisTokenStore.ClearExpiredToken` | jwt/store.go:24-27 | garbage collection and clearing memory leave that map as it is: no token expires in Redis |
| `TokenStores.RedisTokenStore.Evict` | jwt/store.go:34-42 | losing memory entries leaves that map as it is |
| `JwtService.JWT.AfterLogin` | jwt/jwt.go:40-46 | stores a token that expires one lifetime from now |
| `JwtService.JWT.Logout` | jwt/jwt.go:49 | removes the id's token |
| `JwtService.JWT.Verify` | jwt/jwt.go:57-97 | the verdict of the session model, in the order of its checks, with the renewal on success only |
| `JwtService.JWT.RefreshToken` | jwt/jwt.go:117-123 | renews a token of which at most half the lifetime is left |
| `JwtService.JWT.ClearExpiredToken` | jwt/jwt.go:125 | clears some of the expired tokens and nothing else: all of them from memory, none from Redis |
| `JwtService.JWT.constructor` | jwt/jwt.go:100-114 | a lifetime of 0 becomes a week |
| `JwtService.JWT.Run` | jwt/jwt.go:40-123 | on either store, whatever memory loses and whenever expired tokens are cleared, a run accepts what the model without clearing accepts |
| `Encodings.HexRoundTrip` | crypto/aesCBC.go:90-100 | decoding an upper-case base16 text gives back the bytes (section 8 of RFC 4648) |
| `Encodings.Base64RoundTrip` | crypto/aesCBC.go:64-74 | decoding an unpadded base64url text gives back the bytes (section 5 of RFC 4648) |
| `Encodings.EncodingRoundTrip` | crypto/aesCBC.go:76-88 | the same through the choice of encoding |
| `Envelope.Pkcs5Padding` | crypto/aesCBC.go:102-108 | the loop appends the padding (section 6.3 of RFC 5652) |
| `Envelope.Pkcs5UnPadding` | crypto/aesCBC.go:110-132 | the loop computes unpadding with its three errors |
| `Envelope.UnPaddedIff` | crypto/aesCBC.go:110-132 | unpadding succeeds with an output iff the input is that output and n copies of its last byte n |
| `Envelope.PaddingRoundTrip` | crypto/aesCBC.go:102-132 | unpadding undoes padding for every block size below 256 |
| `Envelope.PaddedToBlocks` | crypto/aesCBC.go:102-108 | padding fills up to whole blocks and always adds something |
| `Envelope.ChainRoundTrip` | crypto/aesCBC.go:32-34 | CBC decryption undoes CBC encryption for any block permutation (section 6.2 of NIST SP 800-38A) |
| `Envelope.AesCbcEncrypt` | crypto/aesCBC.go:39-54 | the entry point refuses other key lengths and otherwise produces the envelope |
| `Envelope.AesCbcDecrypt` | crypto/aesCBC.go:15-36 | the entry point with its errors in order |
| `Envelope.EnvelopeRoundTrip` | crypto/aesCBC.go:15-54 | for every plaintext, key, IV and encoding, decrypting an encryption returns the plaintext |
| `Envelope.EnvelopeInjective` | crypto/aesCBC.go:39-54 | equal envelopes come from equal IVs and plaintexts, so a new login makes a new token unless the IV repeats |
| `NameMapping.SnakeString` | j2rpc/functions.go:159-179 | the loop computes the snake form |
| `NameMapping.CamelString` | j2rpc/functions.go:36-58 | the loop computes the camel form |
| `NameMapping.SnakeIdempotent` | j2rpc/functions.go:159-179 | a snake name is its own snake name |
| `NameMapping.SnakeLength` | j2rpc/functions.go:159-179 | a snake name is at most one and a half times as long as the name |
| `NameMapping.CamelOfSnakeIff` | j2rpc/functions.go:36-58 | a Go name without underscores comes back from its snake form iff no capitals are adjacent |
| `NameMapping.SnakeOfCamelIff` | j2rpc/functions.go:36-58 | a lower-case name comes back from its camel form iff its words before separators are long |
| `NameMapping.WordsRoundTrip` | j2rpc/functions.go:159-179 | on names of words whose non-final ones have two characters both forms are the expected ones and invert each other |
| `MethodLookup.Server.Collect` | j2rpc/j2rpc.go:317-366 | the loop computes the callbacks, skipping excluded and unsuitable methods |
| `MethodLookup.Server.Register` | j2rpc/j2rpc.go:104-149 | registers, refuses a taken namespace, or does nothing without suitable methods |
| `MethodLookup.Server.GetCallBack` | j2rpc/j2rpc.go:257-269 | splits and formats the method name and finds the callback or the right error |
| `MethodLookup.KeyFoundIff` | j2rpc/j2rpc.go:358 | a key is found iff some eligible method formats to it |
| `MethodLookup.WinnerFound` | j2rpc/j2rpc.go:358 | the callback under a key is that of the last eligible method with it |
| `MethodLookup.FoundByBothNames` | j2rpc/j2rpc.go:202-266 | a method is found by its Go name and its snake name iff no later method has the same key |
| `MethodLookup.GivenNamespaceReachableIff` | j2rpc/j2rpc.go:104-118 | an explicit namespace is reachable iff it is its own snake name and holds no dot |

## Left out

- CachePlugins.CachePlugin: concurrent reads that share one flight (`mdb/gm2c.go:219-232`) and invalidation before commit; the claim is about sequential runs.
- CachePlugins.CachePlugin.Run: statistics counters, the expiry of memory entries in seconds (it is a loss of entries), reads into slices and reads marked uncached beyond answering from the database.
- WhereClauses: regular-expression characters in the primary column's name, and arguments of other kinds than texts and numbers.
- FreeStores.FreeStore.DropPrefix: assumes that an iteration which deletes what it visits visits every entry once. The library behind the store (freecache) is not part of this model, and its iterator counts slots that a deletion may shift (`mdb/storage.go:84-98`).
- Casts.ToUint64: numbers beyond what the conversion from floating point defines, and fractions that a floating-point id may lose.
- RetryQueue: modelled as labelled steps on values rather than as objects and goroutines, because the claims are about interleavings; update in place and aliasing of the queue are not captured. A failing handler's error, its runAt and its return to the queue are one step.
- RetryQueue: tasks enqueued by hand with a positive retry count, handlers that edit it, reuse of one task value, and releasing the pool; `Wait` is represented by the wait-group counts. Handlers of running jobs are taken to return; other users of the pool may keep their workers.
- RetryQueueRuns.EventuallyDone: that the scheduler moves when it can, and that rotations end, are hypotheses; the clock and the goroutines' scheduling are outside the model.
- QueueWorkers.NewGQueue: writes the default share into the caller's own map; the model returns the groups instead. The logger is left out.
- CloseableChannels: modelled as labelled steps on values for the same reason; the owner closing the raw channel itself, fairness of the lock and wall-clock timeouts are not captured. A value that is handed to a waiting receiver passes through the buffer.
- VersionedRows: an update whose condition misses reports no error to its caller in the code either; the model keeps the row. A lone alternative also lets the update reach other rows; the model follows the row it was meant for. SQL text and reuse of ids are not modelled.
- CurdUpdates.CurdParams.Update: model look-up, the hook that may edit the decoded bean, and conversion errors; how values become columns is a parameter.
- HandlerChain: panics and the recovering middleware, writing to the raw response writer, request headers; conditions of handlers see flags, message and stored values.
- RpcServer: a registered function that itself uses the context it receives, argument decoding by reflection, and registration of whole types; a call's outcome is a function of its message. `RegisterFunc` with an empty name falls back to the Go function's own name, which is never empty.
- Retention: other deletions running between batches, and failing statements; calendar arithmetic is a parameter that says which rows are old.
- RedisStores.RedisServer: characters of a prefix that are special in a Redis pattern, other clients of the server, and time passing during one garbage collection.
- RedisStores.RedisStore.Run: covers keys that hold the separator and payloads that are JSON, as the cache builds them; what happens to others is in the contract of `Set`.
- TokenStores: entries too large for the memory cache, where an older text may stay, and callers that change a token they received from the default store.
- JwtService.JWT: reading the token from headers and parameters, concurrent requests, and the ticker that clears expired tokens (a clearing may happen at any point of a run).
- Envelope: the block cipher itself, the random source and spare capacity of the caller's slice; the IV is an input and the cipher any permutation per key.
- NameMapping: characters beyond ASCII.
- MethodLookup: reflection over receivers; a method's suitability is an input.
- `mdb.CCStore`, `j2rpc/context.go`, `giris`, `giris2`, `gemq`, `boot`, `cmd`, `config` and the other packages: process control, configuration and plumbing, or weaker variants of what is modelled.
