# Segment lookup service: a Dafny model of its resolution caches

The service translates client-supplied segment IDs into the identifiers of
the `Segment` nodes that carry them in a graph database, for a whole batch of
IDs at a time. It has three endpoints in `Service.java`:

- `/lookup` resolves every ID against the database's `segmentId` index. It
  collects the node IDs it finds, in request order, and skips IDs that have
  no node.
- `/cachedlookup2` goes through `segmentMap`, an unbounded primitive
  `int -> long` map. On a miss, `computeIfAbsent` runs the resolver and stores
  its answer.
- `/cachedlookup` goes through `segments`, a loading cache whose loader is the
  same resolver.

The model has these parts:

- The database is a fixed partial map `Store` from segment ID to node ID
  (`GraphStore`). A node is known only by its identifier, so
  `GetNodeById(h).id == h`.
- The resolver is `Resolver.GetSegmentNodeId`. The source has it twice with
  the same code: the static `getSegmentNodeId` and
  `GetSegmentNodeId.applyAsLong`. When no node carries the ID, asking the
  null node for its identifier throws. The model returns
  `Err(NodeNotFound(id))` instead.
- Both caches are one class, `ResolutionCache.SegmentCache`:
  - `entries` is the table.
  - A ghost counter `resolverCalls` counts resolver runs.
  - `ComputeIfAbsent` is the per-key contract. On a hit it returns the stored
    value and does not call the resolver. On a miss it calls the resolver once
    and stores the answer. On a failure it stores nothing.
  - `BatchLookup` is the loop both cached endpoints run.
- The functions `Compute` and `CachedBatch` state what one cache call and one
  cached batch do to a table. The lemmas beside them prove how a batch
  behaves.
- `UncachedLookup.Uncached` is what `/lookup` answers.
- `Service.Service` stands for the class's static state over the life of the
  process: the database and the two caches, which are distinct objects. Its
  invariant says that every cached entry agrees with the database.

Two behaviours of the code shape the model:

- **Cached batches abort.** An ID with no node makes the resolver throw
  (`Service.java:48` and `:146`). The whole request then fails at the first
  such ID. No ID after it is resolved, the cache gains exactly the IDs before
  it (so none for the failing ID), and entries stored earlier in that batch
  stay.
- **Order is kept.** All three loops keep request order, and duplicates are
  looked up once per occurrence.

## Model

| member | source | states |
|---|---|---|
| `Resolver.GetSegmentNodeId` | src/main/java/com/maxdemarzi/Service.java:46-49 | the resolver (code shared with `applyAsLong`, lines 145-146) succeeds exactly when the index has a node for the ID and then returns that node's ID; otherwise it fails with `NodeNotFound(id)` |
| `ResolutionCache.SegmentCache.constructor` | src/main/java/com/maxdemarzi/Service.java:51 | a cache starts empty with no resolver runs |
| `ResolutionCache.SegmentCache.ComputeIfAbsent` | src/main/java/com/maxdemarzi/Service.java:126-127 | hit: returns the stored ID, table and resolver count unchanged; miss with a node: one resolver run, the table gains exactly `id := store[id]` and that ID is returned; miss without a node: one resolver run, table unchanged, failure |
| `ResolutionCache.SegmentCache.BatchLookup` | src/main/java/com/maxdemarzi/Service.java:124-138 | the loop's answer, new table and resolver count are those of `CachedBatch` on the table it started from |
| `ResolutionCache.BatchKeepsEntries` | src/main/java/com/maxdemarzi/Service.java:124-138 | a batch, successful or not, never removes or overwrites an entry and adds entries only for requested IDs |
| `ResolutionCache.BatchCallBound` | src/main/java/com/maxdemarzi/Service.java:124-138 | a batch runs the resolver at most once per distinct requested ID that was not cached before |
| `ResolutionCache.BatchFailure` | src/main/java/com/maxdemarzi/Service.java:125-127 | a batch succeeds if and only if every requested ID is cached or has a node; a failing batch names a requested ID that is neither cached nor in the store, and the table gets no entry for it (no negative caching) |
| `ResolutionCache.BatchFailureIndex` | src/main/java/com/maxdemarzi/Service.java:125-127 | a failing batch fails on the first requested ID that is neither cached nor in the store: it returns that position, every ID before it is cached or has a node, and the failure names that ID |
| `ResolutionCache.BatchFailurePrefix` | src/main/java/com/maxdemarzi/Service.java:125-127 | if position j holds the first ID that is neither cached nor in the store, the batch fails naming it, with the table of the successful batch of the IDs before j and one more resolver run; no later ID is resolved or cached |
| `ResolutionCache.BatchFailureStops` | src/main/java/com/maxdemarzi/Service.java:124-138 | at the failing position j it returns: every ID before j is cached or has a node, the table's keys are the old keys plus the IDs before j, and the resolver ran once per distinct new ID before j plus once for the failing ID |
| `ResolutionCache.AbortExample` | src/main/java/com/maxdemarzi/Service.java:125-127 | with no node for 1 and a node for 2, the batch [1, 2] on an empty table fails on 1 after one resolver run and leaves the table empty |
| `ResolutionCache.BatchSuccessKeys` | src/main/java/com/maxdemarzi/Service.java:124-138 | after a successful batch the table's keys are exactly the old keys plus the requested IDs |
| `ResolutionCache.BatchSuccessCalls` | src/main/java/com/maxdemarzi/Service.java:124-138 | a successful batch ran the resolver exactly once per distinct requested ID that was not already a key |
| `ResolutionCache.BatchSuccessValues` | src/main/java/com/maxdemarzi/Service.java:126-134 | a successful batch answers, position by position, the final table's entry for each requested ID |
| `ResolutionCache.WarmBatch` | src/main/java/com/maxdemarzi/Service.java:126-127 | a batch of IDs that are all cached returns the cached values, leaves the table unchanged and runs the resolver zero times |
| `ResolutionCache.RepeatBatch` | src/main/java/com/maxdemarzi/Service.java:124-138 | repeating a successful batch on the table it left returns the same answer with no resolver runs and no table change |
| `ResolutionCache.RetryAfterFailure` | src/main/java/com/maxdemarzi/Service.java:143-147 | after a batch failed on an ID, looking that ID up again runs the resolver again, and if the store now has a node for it, that node's ID is returned and cached |
| `ResolutionCache.BatchConsistent` | src/main/java/com/maxdemarzi/Service.java:126-127 | if every entry of the table is the store's answer for its key before a batch against that store, the same holds after it, whether the batch succeeds or fails |
| `ResolutionCache.ElementsMembership` | src/main/java/com/maxdemarzi/Service.java:81 | the set of distinct requested IDs used in the counting lemmas holds exactly the IDs occurring in the request |
| `UncachedLookup.UncachedAppend` | src/main/java/com/maxdemarzi/Service.java:81-87 | the answer for a concatenated request is the concatenation of the answers: request order is kept and each occurrence is looked up on its own |
| `UncachedLookup.UncachedLength` | src/main/java/com/maxdemarzi/Service.java:75-87 | the answer is never longer than the request (so an empty request answers empty), and it is exactly as long precisely when every ID has a node |
| `UncachedLookup.UncachedAllFound` | src/main/java/com/maxdemarzi/Service.java:81-87 | when every ID has a node, position i of the answer is the node ID of request position i |
| `UncachedLookup.UncachedMembers` | src/main/java/com/maxdemarzi/Service.java:81-87 | a node ID appears in the answer if and only if some requested ID has that node; IDs without a node contribute nothing |
| `UncachedLookup.DuplicatesAndMisses` | src/main/java/com/maxdemarzi/Service.java:81-87 | with 5 -> A, 9 -> B and no node for 404, the request [5, 9, 5, 404] answers [A, B, A] |
| `Service.CachedAgreesWithUncached` | src/main/java/com/maxdemarzi/Service.java:104-107 | over a table that agrees with the store, a cached batch succeeds exactly when every requested ID has a node, and then answers what the uncached lookup answers |
| `Service.CachedBatchFacts` | src/main/java/com/maxdemarzi/Service.java:124-138 | for a table that agrees with the store: agreement and old entries are kept; success iff all IDs have nodes; on success the cached answer equals the uncached one, the keys are the old keys plus the requested IDs, and the resolver count is the number of new distinct IDs; on failure the named ID has no node and gets no entry |
| `Service.CachedFailureFacts` | src/main/java/com/maxdemarzi/Service.java:124-138 | over a table that agrees with the store, a failing batch stopped at a position j (`StoppedAt`): the failing ID is there, every ID before it has a node, the keys grew by exactly the IDs before j, and the resolver ran once per distinct new ID before j plus once |
| `Service.Service.constructor` | src/main/java/com/maxdemarzi/Service.java:31-33 | the service holds the given database; both caches are fresh, distinct and empty, as the static initialisers at lines 37-44 and 51 make them when the class loads |
| `Service.Service.Lookup` | src/main/java/com/maxdemarzi/Service.java:80-89 | `/lookup` answers `Uncached(db, segmentIds)` |
| `Service.Service.CachedLookup` | src/main/java/com/maxdemarzi/Service.java:102-111 | `/cachedlookup` runs the cached batch on `segments` only and keeps the invariant. It succeeds iff every ID has a node, and then answers what `/lookup` answers. On success the keys grow by exactly the requested IDs and the resolver ran once per new distinct ID. On failure the request stopped at the first ID without a node (`StoppedAt`): nothing after it was resolved, the keys grew by exactly the IDs before it, and the resolver ran once per new distinct ID before it plus once |
| `Service.Service.CachedLookup2` | src/main/java/com/maxdemarzi/Service.java:124-138 | `/cachedlookup2`: the same promises as `/cachedlookup`, on `segmentMap` only, including the stop at the first failing ID; `segments` is unchanged |

## Left out

- JSON parsing of the request body and rendering of the answer with `toString()` are not modelled. The request is the sequence of segment IDs and the answer is a sequence of node IDs. A body without a `segmentIds` key, or with a null element, fails in Java and is not modelled.
- Service.Service.constructor: the Dafny `Service` object stands for the class's static state over the life of the process and is built once. The caches' empty start comes from the static initialisers at lines 37-44 and 51 of `Service.java`, not from the constructor. A second `new Service(db)` in Java keeps both caches and their contents; the model does not build a second service.
- HTTP routing and injection are plumbing and are not modelled. The database parameter of each endpoint and the static `db` set by the constructor are taken to be one database, the `db` the `Service` object holds for its lifetime.
- Transactions, the database's `findNode`/`getNodeById` internals and the `migrate` provisioning endpoint are external store I/O and are not modelled. The store is a fixed map.
- The checks `node != null` after `getNodeById` in the cached endpoints are not modelled. A missing node makes `getNodeById` throw rather than return null, and every cached node ID comes from the store.
- The loading cache's size-bounded eviction (`maximumSize(1000000)`) is not modelled. Its policy lives inside a library that is not part of this model.
- Service.Service.CachedLookup: its statements that the table keeps every old entry, that its keys grow by exactly the requested IDs and that the resolver count equals the new distinct IDs hold for the loading cache only as long as nothing is evicted.
- Concurrency is left out because the model is sequential. This covers the single-flight loading of the loading cache and the thread safety of both caches.
- Exceptions become a `Failure` value. Java throws a `NullPointerException`, or an unchecked execution exception from the loading cache, neither naming the segment. The model's `NodeNotFound` carries the failing segment ID so that properties can name it.
- Integer widths are not modelled. Segment IDs are Java `int` and node IDs are Java `long`. The model uses `int` and `nat` for them because the code does no arithmetic on them.
- Staleness is left out. The service invariant assumes the store does not change while the service lives. Only `RetryAfterFailure` looks at a later, different store.
