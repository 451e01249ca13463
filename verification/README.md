# Verified model of the LLM gateway

A Dafny model of the self-contained state machines of the gateway: the three-level agent cache with
its dependency graph, the weighted round robin balancer, the streaming parser of upstream responses,
the workflow engine, rate limiting, the agent registry, call routing and the lock-free maximum.

Verify it with `dafny verify dfyconfig.toml`.

## How it is arranged

Each component that the program updates in place is a class whose methods say, with `old`, which
function of the old state the new state is. What the gateway promises is then proved about those
functions, mostly over whole runs of operations.

| files | component |
|---|---|
| `ReverseIndex`, `Cascade`, `L2Model`, `L2Cache`, `L2Disk`, `L2Runs`, `L2Effects` | second-level cache: reverse dependency index, cascading invalidation, persistence, runs |
| `Lru`, `LinkedStore`, `L1Cache`, `ResponseCache` | the two in-memory LRU stores |
| `Sessions` | per-session turn buffer |
| `CoordinatorModel`, `CoordinatorRuns`, `CoordinatorAnswers`, `CacheKeys`, `Coordinator` | the three levels together |
| `LoadBalancing`, `Fairness`, `NameFairness` | backend selection |
| `SseModel`, `SseParsing`, `SseRoundTrip`, `SseToolCalls` | event-stream parsing |
| `DagModel`, `DagEngine` | workflows of stages |
| `Auth`, `Admission` | keys and token buckets |
| `Registry` | agents and capabilities |
| `CallRouting`, `ExecutorTurns` | tool and agent calls waiting for results |
| `AgentCalls` | the cache lookup before an agent call and the caching of its result |
| `MetricMax` | the compare-and-swap maximum |
| `AgentTypes`, `ColonKeys`, `Sequences`, `Wrappers` | shared records and helpers |

## Conventions

- Clocks are parameters. The first level reads a steady clock and the second a system clock
  (`day01/llm_gateway/src/agent_cache.cpp:28-29`, `212-213`), so a query takes both.
- Confidence, decay rates, tokens and times of the rate limiter are reals. The power function of the
  decay is a parameter of which only its range on a base in [0,1] is used.
- Each operation is one atomic step, as its own lock makes it. A coordinator operation spans two locks
  in the program; it is one step here.
- Iteration over an unordered map picks the next key arbitrarily, so what is proved holds for every order.
- Connections are numbers, and which of them are connected is given to each step.
- The JSON library is a parsing function; the branches taken on its result are modelled on JSON values.

## Where the code falls short of its purpose

- A write of 4096 characters or more leaves an older first-level copy of the key in place, which then
  masks it. `CoordinatorRuns.WriteIsSeen` says exactly when a write displaces what was there, and
  `LongWriteIsMasked` shows the masking.
- A cascade leaves first-level copies of the entries it reaches, and first-level hits carry no stale flag:
  `CoordinatorRuns.CascadedIsUnflaggedInFirstLevel` says exactly when the flag is missing, and
  `FlagIsLostByPromotion` that one flagged hit is enough to lose it.
- Soft invalidation revives an INVALIDATED entry as STALE (`L2Runs.SoftInvalidationOrder`).
- Loading without an index file, or after it broke off, gives a wrong reverse index in cases that
  `L2Disk.MissingIndexConsistency` and `L2Disk.RebuiltConsistency` state exactly.
- Saving and loading refiles an entry that is not stored under its own key (`L2Disk.SaveLoadRoundTrip`).
- The key of a pending tool call does not determine the call when one request id continues another
  with a colon. `CallRouting.ResultsFindTheirCallers` says exactly when every result finds its caller.
- The cache key does not tell two services apart when one's agent and capability continue the other's with a
  colon or join to the same text. `CacheKeys.KeysIdentify` says exactly when every key tells its request.
- A negative weight, which the configuration accepts, makes the shares unattainable (`Fairness.FullCycleExactly`).
- A workflow with a failed stage that others need is never complete (`DagModel.CompletionWithFailures`).

## Model

| member | source | states |
|---|---|---|
| `L2Model.CascadeExact` | day01/llm_gateway/src/agent_cache.cpp:285-333 | The exact effect of a cascading hard invalidation on any graph, cyclic or not: the root becomes INVALIDATED with confidence 0; an entry becomes STALE exactly when it depends on the root through entries that were not INVALIDATED, and its confidence is multiplied by 0.3 once per distinct dependency that is the root or is itself reached; every other entry is unchanged |
| `L2Cache.L2PersistentCache.HardInvalidate` | day01/llm_gateway/src/agent_cache.cpp:285-304 | The in-place update terminates and its new state, with the cascade and without it, is the order-free specification that CascadeExact and InvalidationExact explain |
| `L2Effects.InvalidationExact` | day01/llm_gateway/src/agent_cache.cpp:285-304 | A hard invalidation of an unknown key does nothing; otherwise the root is voided, the index stays, and another entry changes only with the cascade and if it depends on the root through live entries |
| `L2Effects.StepExact` | day01/llm_gateway/src/agent_cache.cpp:206-389 | What each operation does to each single entry, told without the reverse index and without an order of traversal: which entry comes, goes, or changes how |
| `L2Effects.RunStepExact` | day01/llm_gateway/src/agent_cache.cpp:206-389 | The same for the last operation of any run from the empty cache, with no premise on the index |
| `L2Effects.ReadExact` | day01/llm_gateway/src/agent_cache.cpp:206-226 | A read serves exactly what is present, not INVALIDATED and not past its time to live, that millisecond included, and counts one access |
| `L2Cache.L2PersistentCache.CascadeInvalidateInternal` | day01/llm_gateway/src/agent_cache.cpp:306-333 | One visit of the recursion: the visited list only grows and stays free of repeats, what it adds is reachable and closed under live edges, and each added key has sent one hit along every index position out of it |
| `L2Cache.L2PersistentCache.InvalidateDependent` | day01/llm_gateway/src/agent_cache.cpp:317-331 | One edge of the recursion: the dependent is hit before the visited test, so once per incoming edge, and a live dependent is visited afterwards |
| `L2Cache.TraversalIsCascade` | day01/llm_gateway/src/agent_cache.cpp:306-333 | A closed, reachable, repeat-free traversal has hit every entry once per edge out of the reachable set, in whatever order it went |
| `L2Model.ReachesIsDependsOnRoot` | day01/llm_gateway/src/agent_cache.cpp:314-331 | Reachability through the reverse index and dependency chains through the entries themselves are the same relation |
| `Cascade.ClosedContainsReached` | day01/llm_gateway/src/agent_cache.cpp:310-331 | A visited set that holds the root and is closed under live edges holds everything reachable |
| `Cascade.ReachesExtends` | day01/llm_gateway/src/agent_cache.cpp:317-331 | Following one more live edge from a reached key reaches its target |
| `Cascade.HitsCountEdges` | day01/llm_gateway/src/agent_cache.cpp:317-323 | Visiting each key once counts exactly the index positions that lead from the visited set into an entry |
| `Cascade.EdgesAreKeys` | day01/llm_gateway/src/agent_cache.cpp:243-248 | With repeat-free lists those positions are distinct keys |
| `Cascade.HitTwice` | day01/llm_gateway/src/agent_cache.cpp:321-323 | Hits accumulate: m hits and then n hits are m+n hits |
| `Cascade.DampedBounds` | day01/llm_gateway/src/agent_cache.cpp:323 | Damping never raises a confidence and strictly lowers a positive one |
| `Cascade.DampedExactly` | day01/llm_gateway/src/agent_cache.cpp:323 | Each hit leaves three tenths of the confidence |
| `L2Runs.IndexAlwaysAgrees` | day01/llm_gateway/src/agent_cache.cpp:228-389 | After any run of get, set, remove, soft and hard invalidation, decay and purge, key k is in the list of d exactly when k is an entry that depends on d, and it is there once |
| `L2Model.StoredConsistent` | day01/llm_gateway/src/agent_cache.cpp:228-248 | Storing keeps index and entries in agreement, replaced dependencies included |
| `L2Model.RemovedConsistent` | day01/llm_gateway/src/agent_cache.cpp:255-267 | Removing keeps index and entries in agreement |
| `L2Model.RemovedAllConsistent` | day01/llm_gateway/src/agent_cache.cpp:373-382 | Purging any set of keys keeps index and entries in agreement |
| `L2Model.HardInvalidatedConsistent` | day01/llm_gateway/src/agent_cache.cpp:285-333 | Invalidation changes no dependency, so the index stays right |
| `ReverseIndex.DropAgrees` | day01/llm_gateway/src/agent_cache.cpp:231-238 | Erasing an owner from the lists of all it points at leaves an index that agrees with the remaining owners, for each of the three ways the code erases |
| `ReverseIndex.AddAgrees` | day01/llm_gateway/src/agent_cache.cpp:243-248 | Appending an owner to the lists of all it points at, unless present, leaves an index that agrees with the owners including it |
| `ReverseIndex.AgreementIsUnique` | day01/llm_gateway/src/agent_cache.cpp:353-359 | What the reverse query lists is settled by the entries up to order |
| `ReverseIndex.EraseFromLists` | day01/llm_gateway/src/agent_cache.cpp:234-237 | The loop over operator[] erases the key from every target list and creates missing ones |
| `ReverseIndex.EraseFromExistingLists` | day01/llm_gateway/src/agent_cache.cpp:259-265 | The loop over find erases the key from the target lists that exist |
| `ReverseIndex.EraseAndPruneLists` | day01/llm_gateway/src/agent_cache.cpp:751-758 | The loop also deletes each target list that becomes empty |
| `ReverseIndex.AppendToLists` | day01/llm_gateway/src/agent_cache.cpp:244-248 | The loop appends the key to each target list that does not hold it |
| `L2Runs.RunNoFresher` | day01/llm_gateway/src/agent_cache.cpp:206-389 | Over any run without set and soft invalidation, an entry with confidence in [0,1] and decay rate in [0,1] never gains confidence, its status only moves FRESH to STALE to INVALIDATED, and nothing else but its access counter changes |
| `L2Runs.StepNoFresher` | day01/llm_gateway/src/agent_cache.cpp:285-351 | The same for each single operation |
| `L2Runs.SoftInvalidationOrder` | day01/llm_gateway/src/agent_cache.cpp:272-284 | Soft invalidation respects that order exactly when the entry was not INVALIDATED |
| `L2Runs.FreshStaysTrusted` | day01/llm_gateway/src/agent_cache.cpp:335-351 | If no entry is stored FRESH with confidence below 0.3, no run ever leaves one that is |
| `L2Cache.L2PersistentCache.Get` | day01/llm_gateway/src/agent_cache.cpp:206-226 | Serves an entry exactly when it is present, not past its time to live and not INVALIDATED, counting the access |
| `L2Cache.L2PersistentCache.Set` | day01/llm_gateway/src/agent_cache.cpp:228-253 | New entry map and index, old dependencies dropped first |
| `L2Cache.L2PersistentCache.Remove` | day01/llm_gateway/src/agent_cache.cpp:255-270 | New entry map and index after a removal |
| `L2Cache.L2PersistentCache.SoftInvalidate` | day01/llm_gateway/src/agent_cache.cpp:272-284 | Marks STALE whatever the status was, and damps once |
| `L2Cache.L2PersistentCache.ApplyConfidenceDecay` | day01/llm_gateway/src/agent_cache.cpp:335-351 | Every entry that is not INVALIDATED is decayed exactly once, in any iteration order |
| `L2Cache.L2PersistentCache.DependentsOf` | day01/llm_gateway/src/agent_cache.cpp:353-359 | With a consistent index, exactly the entries that name the key as a dependency, each once |
| `L2Cache.L2PersistentCache.PurgeExpired` | day01/llm_gateway/src/agent_cache.cpp:361-389 | Removes exactly the INVALIDATED entries older than twice their time to live, with their index entries |
| `L2Cache.L2PersistentCache.RemoveAll` | day01/llm_gateway/src/agent_cache.cpp:373-382 | Removing keys one by one, in any order, is removing them at once |
| `L2Disk.SaveLoadRoundTrip` | day01/llm_gateway/src/agent_cache.cpp:396-434 | Saving and loading restores the entry map, for every order of writing, exactly when each entry is stored under its own key |
| `L2Disk.RestartRestores` | day01/llm_gateway/src/agent_cache.cpp:187-204 | Shutting down and initialising again restores entries and index exactly under that condition |
| `L2Cache.L2PersistentCache.Init` | day01/llm_gateway/src/agent_cache.cpp:187-196 | Takes in the two files, whichever of them is missing or broken |
| `L2Cache.L2PersistentCache.Shutdown` | day01/llm_gateway/src/agent_cache.cpp:198-204 | Writes every entry and the index, then is empty |
| `L2Disk.SaveToDisk` | day01/llm_gateway/src/agent_cache.cpp:429-434 | Writes each entry once, in some order |
| `L2Disk.LoadFromDisk` | day01/llm_gateway/src/agent_cache.cpp:396-427 | Later lines win; the index file is taken whole, missing, or rebuilt after it broke off |
| `L2Disk.LinesExact` | day01/llm_gateway/src/agent_cache.cpp:396-410 | A blank or garbled line is as good as absent, a record replaces what earlier lines said of its key |
| `L2Disk.RebuildIndex` | day01/llm_gateway/src/agent_cache.cpp:419-425 | The rebuilding loop appends every key to each of its dependencies |
| `L2Disk.MissingIndexConsistency` | day01/llm_gateway/src/agent_cache.cpp:412-427 | Loading without an index file is consistent exactly when no entry has dependencies |
| `L2Disk.RebuiltConsistency` | day01/llm_gateway/src/agent_cache.cpp:416-425 | A rebuilt index is consistent exactly when the broken file delivered no listing and no entry names a dependency twice |
| `AgentTypes.JsonRoundTrip` | day01/llm_gateway/include/agent_types.h:142-186 | A persisted entry reads back as itself |
| `AgentTypes.DefaultsOfEmptyObject` | day01/llm_gateway/include/agent_types.h:163-186 | Every default of a missing member |
| `CoordinatorRuns.InvalidatedStaysGone` | day01/llm_gateway/src/agent_cache.cpp:559-683 | In any run from empty caches, restarts included, after invalidating k no query returns an entry with key k, from any layer, until k is written again |
| `CoordinatorRuns.ReadsSeeLatestWrite` | day01/llm_gateway/src/agent_cache.cpp:559-639 | Over any run from empty caches every hit is under a key that was written. A second-level hit carries the latest write of its key, payload and archive reference included, in the form the second level keeps; a first-level hit carries it, whole or in that form, if that write was shorter than 4096 or found no first-level copy of its key; across eviction, promotion, decay and restarts only status, confidence and access count differ. First-level hits, and second-level hits without a usable session turn, are under the queried key |
| `CoordinatorRuns.WriteIsSeen` | day01/llm_gateway/src/agent_cache.cpp:619-639 | At any point of a run a write leaves nothing else under its key at either level, whatever reference the archive returns, exactly when its output is shorter than 4096 or the first level holds no copy of the key |
| `CoordinatorRuns.LongWriteIsMasked` | day01/llm_gateway/src/agent_cache.cpp:627-629 | At any point of a run and for any capacity, after a long write behind a short one the first level keeps answering with the older entry |
| `CoordinatorRuns.CascadedIsReportedStale` | day01/llm_gateway/src/agent_cache.cpp:577-613 | After a cascade reached k, every second-level result for k is flagged stale until k is written |
| `CoordinatorRuns.CascadedIsUnflaggedInFirstLevel` | day01/llm_gateway/src/agent_cache.cpp:569-613 | After a cascade reached an entry and until it is written, a query for it is answered with it and without the stale flag exactly when the first level still serves it |
| `CoordinatorRuns.FlagIsLostByPromotion` | day01/llm_gateway/src/agent_cache.cpp:603-613 | A second-level hit, flagged or not, promotes its entry, and asking the same again is answered from the first level without a flag |
| `CoordinatorRuns.PurgeChangesNoAnswer` | day01/llm_gateway/src/agent_cache.cpp:361-382 | A purge changes the answer of no query |
| `CoordinatorRuns.RunKeepsCurrent` | day01/llm_gateway/src/agent_cache.cpp:559-683 | Over any run the second level holds only the latest write of each key, and so does the first level for a key whose latest write left no older copy there |
| `CoordinatorRuns.RunKeepsSmall` | day01/llm_gateway/src/agent_cache.cpp:626-637 | Over any run the first level holds no output of 4096 or more and the second none over 2048 |
| `CoordinatorRuns.RestartAfterRun` | day01/llm_gateway/src/agent_cache.cpp:187-204 | After any run, a shutdown and a new start restore the second level exactly, in whatever order its lines were written, and lose the first level and the sessions; all results over runs hold across restarts |
| `CoordinatorRuns.RunKeepsIndex` | day01/llm_gateway/src/agent_cache.cpp:559-711 | Over any coordinator run the reverse index agrees with the entries |
| `CoordinatorModel.RunKeepsWellKeyed` | day01/llm_gateway/src/agent_cache.cpp:559-683 | Over any run every copy at either level is filed under its own key and the first level stays within capacity without duplicate keys |
| `Coordinator.CacheCoordinator.constructor` | day01/llm_gateway/include/agent_cache.h:192-240 | Starts empty with a first level of 4096 |
| `Coordinator.CacheCoordinator.Query` | day01/llm_gateway/src/agent_cache.cpp:559-617 | First level, then the session path, then the exact second-level entry; the whole new state, and the result that AnswerExact tells in terms of keys, clocks and contents; list nodes are old or new |
| `Coordinator.CacheCoordinator.PastL1` | day01/llm_gateway/src/agent_cache.cpp:577-616 | What follows a first-level miss |
| `Coordinator.CacheCoordinator.FromSession` | day01/llm_gateway/src/agent_cache.cpp:578-597 | The second-level entry behind the latest turn of the session with that capability, if readable |
| `Coordinator.CacheCoordinator.FromL2` | day01/llm_gateway/src/agent_cache.cpp:599-614 | The exact second-level hit, promoted to the first level |
| `Coordinator.CacheCoordinator.Write` | day01/llm_gateway/src/agent_cache.cpp:619-639 | Stamping, the 4096 and 2048 limits, and both levels updated; list nodes are old or new |
| `Coordinator.CacheCoordinator.Invalidate` | day01/llm_gateway/src/agent_cache.cpp:678-683 | First level dropped, second level invalidated, as one step |
| `Coordinator.CacheCoordinator.BufferFor` | day01/llm_gateway/src/agent_cache.cpp:641-651 | The session's own buffer, made empty on first use |
| `Coordinator.CacheCoordinator.AppendTurn` | day01/llm_gateway/src/ws_chat_controller.cpp:583-595 | The turn goes through the pruned buffer of its session and no other session changes |
| `Coordinator.CacheCoordinator.CloseSession` | day01/llm_gateway/src/agent_cache.cpp:653-656 | The session and its buffer are gone, nothing else changes |
| `Coordinator.CacheCoordinator.MaintainOnce` | day01/llm_gateway/src/agent_cache.cpp:705-711 | One round is a decay followed by a purge |
| `Coordinator.CacheCoordinator.Shutdown` | day01/llm_gateway/src/agent_cache.cpp:544-557 | Every session is closed one by one, then the second level is written out and emptied |
| `Coordinator.CacheCoordinator.Init` | day01/llm_gateway/src/agent_cache.cpp:537-542 | The second level takes in the files, the rest is untouched |
| `Coordinator.Restarted` | day01/llm_gateway/src/agent_cache.cpp:537-557 | A shutdown and a new coordinator that takes in what it wrote are the restart step of the runs |
| `CoordinatorAnswers.AnswerExact` | day01/llm_gateway/src/agent_cache.cpp:559-617 | The answer to every query: an in-time first-level copy unmarked; else the session's entry, marked when STALE; else the exact entry, marked when STALE or below 0.7; else a miss |
| `CoordinatorAnswers.SessionReferenceIsLatest` | day01/llm_gateway/src/agent_cache.cpp:583-590 | A session answers from its latest turn of the capability, and from none exactly if it has none |
| `CoordinatorAnswers.QueryChanges` | day01/llm_gateway/src/agent_cache.cpp:559-617 | A query changes at the second level only the access count of the entry it returns from there, and at the first level nothing under other keys unless an exact hit is promoted |
| `CoordinatorAnswers.ShortWriteReadsBack` | day01/llm_gateway/src/agent_cache.cpp:619-629 | An output below 4096 is answered from the first level exactly as written, stamped if it had no creation time |
| `CoordinatorAnswers.WriteReadsBackFromSecondLevel` | day01/llm_gateway/src/agent_cache.cpp:631-639 | Else from the second level: up to 2048 as written, longer ones as the archive reference without output |
| `CoordinatorAnswers.WrittenIsAnswered` | day01/llm_gateway/src/agent_cache.cpp:559-711 | Over any run a written result goes on being answered until its time to live has passed, whatever else is queried, written, invalidated, aged, purged or restarted, unless it is itself written again or invalidated |
| `CoordinatorAnswers.ExactHitIsForTheRequest` | day01/llm_gateway/src/agent_cache.cpp:559-639 | Over any run a first-level hit, or a hit without a usable session turn, is the content of a write for that very agent, capability and input, if the services in use are separate |
| `CoordinatorAnswers.InvalidationIsLocal` | day01/llm_gateway/src/agent_cache.cpp:678-683 | An invalidation changes no answer but those with the root's own entry and, with the cascade, second-level ones with an entry that depends on it |
| `CoordinatorAnswers.PlainInvalidationIsLocal` | day01/llm_gateway/src/agent_cache.cpp:678-683 | At any point of a run, an invalidation without cascade changes no answer but those with the root's own entry |
| `CoordinatorAnswers.SessionIsItsHistory` | day01/llm_gateway/src/agent_cache.cpp:641-676 | Over any run a session's buffer is the one-shot pruning of its own turns since it was last closed, whatever other sessions do |
| `CoordinatorAnswers.StepFootprint` | day01/llm_gateway/src/agent_cache.cpp:559-711 | Which steps leave which level alone |
| `CacheKeys.CacheKeysCollide` | day01/llm_gateway/src/agent_cache.cpp:566 | Two services, each an agent and a capability, can have a cache key in common exactly when their parts of it are equal or one continues the other with a colon |
| `CacheKeys.KeysIdentify` | day01/llm_gateway/src/agent_cache.cpp:566 | Among given services every key tells service and input hash if and only if no two of them have a key in common |
| `CacheKeys.CacheKeyDetermines` | day01/llm_gateway/src/agent_cache.cpp:566 | Without colons in agent ids and capabilities equal keys mean equal agent, capability and input hash |
| `AgentCalls.AnswerFromCache` | day01/llm_gateway/src/ws_chat_controller.cpp:563-604 | Before an agent call: the query step, and on a hit the turn appended to the caller's session |
| `AgentCalls.StoreResult` | day01/llm_gateway/src/ws_chat_controller.cpp:685-718 | After an agent result: the write step of the entry made from it, and the turn appended to the session of a caller that has one |
| `AgentCalls.NextCallGetsLatestResult` | day01/llm_gateway/src/ws_chat_controller.cpp:563-604 | The session's next agent call gets the result just stored for it, whichever agent and input it names, unless the first level serves that very call |
| `AgentCalls.StoredResult` | day01/llm_gateway/src/ws_chat_controller.cpp:687-699 | The stored form of a result, every field written out |
| `AgentCalls.ResultIsRemembered` | day01/llm_gateway/src/ws_chat_controller.cpp:702-715 | The caller's session gains a turn that names the entry stored, and refers to it next |
| `AgentCalls.HitIsRemembered` | day01/llm_gateway/src/ws_chat_controller.cpp:583-595 | A call answered from the cache leaves a turn that names the served entry, and that entry is what the session refers to next for the capability |
| `AgentCalls.KeptEndsWith` | day01/llm_gateway/src/agent_cache.cpp:98-111 | Pruning never drops the turn just appended |
| `Lru.Residency` | day01/llm_gateway/src/agent_cache.cpp:22-62 | A key just set or hit stays resident while fewer than capacity distinct other keys are set or hit, unless it is invalidated or found expired |
| `Lru.FullStoreLosesLeastRecent` | day01/llm_gateway/src/agent_cache.cpp:53-61 | A new key in a full store replaces the least recent key and no other |
| `Lru.SetKeepsProper` | day01/llm_gateway/src/agent_cache.cpp:44-62 | Storing keeps keys distinct and the list within capacity, and the stored value is found |
| `Lru.GetKeepsProper` | day01/llm_gateway/src/agent_cache.cpp:22-42 | Reading keeps keys distinct and the list within capacity |
| `Lru.GetExactly` | day01/llm_gateway/src/agent_cache.cpp:22-42 | A read drops an expired item, renews a live one in front, and leaves the others as they are |
| `Lru.TruncationKeepsBehind` | day01/llm_gateway/src/agent_cache.cpp:54-58 | Eviction cannot reach a key that has too few others in front of it |
| `LinkedStore.UnlinkAt` | day01/llm_gateway/src/agent_cache.cpp:33-34 | Taking a node out of list and map leaves both in agreement |
| `LinkedStore.LinkAtFront` | day01/llm_gateway/src/agent_cache.cpp:60-61 | Putting a new node in front leaves both in agreement |
| `LinkedStore.LookupThroughIndex` | day01/llm_gateway/src/agent_cache.cpp:24-27 | The map finds exactly the list's item |
| `LinkedStore.LinkedList.Renew` | day01/llm_gateway/src/agent_cache.cpp:46-50 | Splicing to the front with a new value: the same nodes, the new order, list and map still in agreement |
| `LinkedStore.LinkedList.PopBack` | day01/llm_gateway/src/agent_cache.cpp:54-58 | Dropping the least recent node from list and map |
| `LinkedStore.LinkedList.Size` | day01/llm_gateway/src/agent_cache.cpp:73-76 | The map's size is the list's length |
| `L1Cache.L1CacheStore.Get` | day01/llm_gateway/src/agent_cache.cpp:22-42 | Expired nodes are dropped, a hit is counted and moves to the front |
| `L1Cache.L1CacheStore.Set` | day01/llm_gateway/src/agent_cache.cpp:44-62 | A known key is replaced in front, a new one after eviction |
| `L1Cache.L1CacheStore.EvictTo` | day01/llm_gateway/src/agent_cache.cpp:54-58 | The eviction loop keeps the most recent ones |
| `L1Cache.L1CacheStore.Invalidate` | day01/llm_gateway/src/agent_cache.cpp:64-71 | The key is gone, the others keep their order |
| `L1Cache.L1CacheStore.SetMaxSize` | day01/llm_gateway/src/agent_cache.cpp:84-92 | Shrinking keeps the most recent ones |
| `ResponseCache.CacheStore.Get` | day01/llm_gateway/include/common.h:158-170 | The same discipline for the response cache |
| `ResponseCache.CacheStore.Set` | day01/llm_gateway/include/common.h:172-184 | One eviction is enough, and the store stays within 10000 |
| `ResponseCache.ServedUntilItExpires` | day01/llm_gateway/include/common.h:158-184 | A stored value is served up to and including the moment it expires and not after |
| `Sessions.KeptIsLongestFitting` | day01/llm_gateway/src/agent_cache.cpp:103-111 | Pruning leaves the longest suffix with at most 50 turns and either at most 50000 estimated tokens or at most 3 turns |
| `Sessions.KeptIsLongestWithinLimits` | day01/llm_gateway/src/agent_cache.cpp:103-111 | The same with the limits written out: 50 turns, 50000 estimated tokens or 3 turns, a token for four characters and 10 a turn |
| `Sessions.IncrementalIsOneShot` | day01/llm_gateway/src/agent_cache.cpp:98-111 | After any appends the buffer is the one-shot pruning of the whole history |
| `Sessions.KeptAppend` | day01/llm_gateway/src/agent_cache.cpp:98-111 | Pruning before an append loses nothing that pruning afterwards would keep |
| `Sessions.MatchingHeadIsLatest` | day01/llm_gateway/src/agent_cache.cpp:113-123 | The first recent turn is the latest of that capability, and there is one exactly when any turn has it |
| `Sessions.SessionBuffer.Append` | day01/llm_gateway/src/agent_cache.cpp:98-101 | Append and prune |
| `Sessions.SessionBuffer.Prune` | day01/llm_gateway/src/agent_cache.cpp:103-111 | Both pruning loops together compute the pruning of the buffer |
| `Sessions.SessionBuffer.Recent` | day01/llm_gateway/src/agent_cache.cpp:113-123 | The latest matching turns, at least one even for a count below 1 |
| `Sessions.SessionBuffer.EstimatedTokens` | day01/llm_gateway/src/agent_cache.cpp:160-165 | The sum of the turns' estimates |
| `Fairness.EveryWindowIsFair` | day01/llm_gateway/include/router.h:23-39 | With a fixed healthy set of positive total weight W and no negative weight, the pick sequence has period W and every window of W consecutive picks chooses each node exactly weight times |
| `Fairness.FullCycle` | day01/llm_gateway/include/router.h:23-39 | The first W picks choose each node exactly weight times and return all current weights to zero |
| `Fairness.FullCycleExactly` | day01/llm_gateway/include/router.h:23-39 | With a positive total weight, the first W picks choose each node exactly weight times if and only if no healthy node has a negative weight |
| `Fairness.IdleIsNeverChosen` | day01/llm_gateway/include/router.h:29-37 | An unhealthy node or one of weight 0 is never chosen |
| `Fairness.LevelBounds` | day01/llm_gateway/include/router.h:23-39 | At every prefix each current weight lies in [-(W-1), (h-1)(W-1)], a node is never a full pick ahead of its share and never more than (h-1)(W-1)/W picks behind |
| `Fairness.LevelIsLag` | day01/llm_gateway/include/router.h:30-37 | After t picks a current weight is t times the weight minus W per pick received |
| `Fairness.LowerBound` | day01/llm_gateway/include/router.h:30-37 | No current weight drops below 1-W |
| `Fairness.UpperBound` | day01/llm_gateway/include/router.h:30-37 | No current weight of a healthy node exceeds (h-1)(W-1) |
| `Fairness.SumStaysZero` | day01/llm_gateway/include/router.h:17-51 | The values of the name-keyed map sum to zero through any interleaving of picks, health changes and new nodes, also with shared names and any weights |
| `Fairness.PaidKeepsTotal` | day01/llm_gateway/include/router.h:28-37 | One pick keeps the sum of the map, also when nodes share a counter |
| `Fairness.MapRunFollowsLevels` | day01/llm_gateway/include/router.h:23-39 | With distinct names the balancer's own map and choices follow the analysed machine for ever |
| `NameFairness.EveryWindowIsFairByName` | day01/llm_gateway/include/router.h:23-39 | With names shared or not, the picks on the balancer's own map repeat with period W, and every W consecutive ones choose each name exactly as often as its healthy nodes weigh together |
| `NameFairness.FullCycleByName` | day01/llm_gateway/include/router.h:23-39 | After the first W picks every counter of the map is zero and every name got its share |
| `NameFairness.ScannedIsHighest` | day01/llm_gateway/include/router.h:28-36 | Though candidates are compared while counters are still being raised, the chosen name has the highest counter in the end |
| `NameFairness.NameLevelIsLag` | day01/llm_gateway/include/router.h:30-37 | Every counter is t shares of its name minus W per pick of the name |
| `NameFairness.NameLowerBound` | day01/llm_gateway/include/router.h:30-37 | No counter of the map drops below 1-W |
| `NameFairness.NameIsNode` | day01/llm_gateway/include/router.h:30-37 | With distinct names a pick of a name is a pick of its one node, and their shares are the same |
| `LoadBalancing.MapFollowsLevels` | day01/llm_gateway/include/router.h:23-39 | One pick on the name-keyed map is one pick on the list of weights when names are distinct |
| `LoadBalancing.BestIsFirstMaximum` | day01/llm_gateway/include/router.h:34-35 | The choice is the first healthy node with the largest raised weight, and none exactly when nothing is healthy |
| `LoadBalancing.ScannedHealth` | day01/llm_gateway/include/router.h:29-38 | A healthy node is chosen whenever there is one; otherwise no weight moves |
| `LoadBalancing.LoadBalancer.Pick` | day01/llm_gateway/include/router.h:23-39 | The loop over nodes and map, also with shared names |
| `LoadBalancing.LoadBalancer.Mark` | day01/llm_gateway/include/router.h:41-51 | Sets the health of the first node with that name only |
| `LoadBalancing.MarkedExactly` | day01/llm_gateway/include/router.h:41-51 | The health of the first node with that name, and nothing else, is set |
| `LoadBalancing.LoadBalancer.AddNode` | day01/llm_gateway/include/router.h:17-20 | Appends the node |
| `LoadBalancing.Router.Route` | day01/llm_gateway/include/router.h:75-85 | The model's group answers if it has a healthy node, else the default group if it has one, else nobody; only the answering group's weights move |
| `LoadBalancing.Router.RegisterNode` | day01/llm_gateway/include/router.h:68-71 | The node joins the group of its route key, a new group on first use; every other group keeps its nodes and weights |
| `SseModel.ChunkingIsInvisible` | day01/llm_gateway/src/remote_upstream.cpp:14-30 | Cutting the same bytes differently changes neither the callbacks nor the residual buffer nor the pending tool call |
| `SseModel.FedAllIsFed` | day01/llm_gateway/src/remote_upstream.cpp:14-17 | Feeding chunks one after the other is feeding their concatenation |
| `SseParsing.SSEParser.Feed` | day01/llm_gateway/src/remote_upstream.cpp:14-17 | The buffering parser agrees with a machine that takes one character at a time, and keeps no complete line |
| `SseParsing.SSEParser.FlushLines` | day01/llm_gateway/src/remote_upstream.cpp:19-30 | Every complete line is processed in order and the rest is kept |
| `SseParsing.SSEParser.ProcessLine` | day01/llm_gateway/src/remote_upstream.cpp:32-46 | Which lines carry a payload, and what a payload does |
| `SseParsing.SSEParser.HandleDelta` | day01/llm_gateway/src/remote_upstream.cpp:47-81 | Fragments are absorbed before the finish test, then either the call is emitted and cleared or a content token is passed on |
| `SseParsing.FindNewline` | day01/llm_gateway/src/remote_upstream.cpp:22-23 | The next newline, or none |
| `SseRoundTrip.FramingRoundTrip` | day01/llm_gateway/src/main.cpp:96-110 | Reading the gateway's frames recovers the sent payloads, exactly when each fits on a line: no line feed inside and no carriage return at its end |
| `SseRoundTrip.FrameDelivers` | day01/llm_gateway/src/main.cpp:96-110 | One frame delivers at least its first line, and exactly its payload under that condition |
| `SseRoundTrip.GatewayStreamRoundTrip` | day01/llm_gateway/src/main.cpp:96-110 | If the chunk of each sent token is one line of JSON that reads back, a client with this parser sees exactly the tokens sent and then the end, under any chunking |
| `SseToolCalls.ToolCallStreamRoundTrip` | day01/llm_gateway/src/remote_upstream.cpp:14-81 | A tool call streamed as chunks reaches the callback once with its id, name and all pieces of its arguments in order, under any chunking; the end is signalled at its last chunk and at the end of the stream |
| `SseToolCalls.OtherPayloads` | day01/llm_gateway/src/remote_upstream.cpp:36-88 | One framed payload: text that is not JSON, or choices the library refuses, is passed on as a token; JSON without choices does nothing; the end mark signals the end |
| `SseRoundTrip.CrLfIsLf` | day01/llm_gateway/src/remote_upstream.cpp:24-26 | A line may end in CR LF as well |
| `SseRoundTrip.OtherLinesAreIgnored` | day01/llm_gateway/src/remote_upstream.cpp:32-36 | A line that does not start with the exact prefix has no effect |
| `SseRoundTrip.FramedStreamIsHandled` | day01/llm_gateway/src/remote_upstream.cpp:14-46 | Under any chunking a parser at a line start handles exactly the framed payloads, in order, with nothing left over, whatever JSON they hold |
| `SseRoundTrip.FedIsPayloads` | day01/llm_gateway/src/remote_upstream.cpp:19-44 | Feeding a text is handling its payloads in order and keeping the text after the last newline |
| `SseRoundTrip.PendingIsAssembled` | day01/llm_gateway/src/remote_upstream.cpp:47-70 | The pending call has the last id and name and the in-order concatenation of all fragments since the last finish |
| `SseRoundTrip.FinishEmitsAssembledCall` | day01/llm_gateway/src/remote_upstream.cpp:62-71 | A finishing payload adds exactly the call and the end if a callback is set and the last id since the previous finish is not empty, else exactly the end; the call has that id, the last name and all fragments joined |
| `DagModel.OfferedAfterAllItNeeds` | day01/llm_gateway/plugins/orchestrator_dag.lua:119-133 | A stage is offered only after everything it needs, transitively, has completed |
| `DagModel.RecordedAfterAllItNeeds` | day01/llm_gateway/plugins/orchestrator_dag.lua:241-276 | Whatever the stage of a record needs, transitively, had completed before that record |
| `DagModel.RunsFollowOffers` | day01/llm_gateway/plugins/orchestrator_dag.lua:241-276 | Recording stages in any order, any time after some earlier call offered them, gives exactly the runs in which each stage is on offer when recorded |
| `DagModel.OfferStands` | day01/llm_gateway/plugins/orchestrator_dag.lua:241-276 | A stage once offered stays on offer until it is recorded |
| `DagModel.Quiescence` | day01/llm_gateway/plugins/orchestrator_dag.lua:241-276 | When nothing is on offer the pending stages are exactly those that need a failed or unknown stage |
| `DagModel.ProgressToCompletion` | day01/llm_gateway/plugins/orchestrator_dag.lua:241-289 | Without failures a well-formed acyclic workflow has a stage on offer until it is complete, which is after exactly as many records as stages |
| `DagModel.CompletionWithFailures` | day01/llm_gateway/plugins/orchestrator_dag.lua:278-289 | At quiescence the workflow counts as complete exactly when nothing needs a lost stage |
| `DagModel.CompleteExactly` | day01/llm_gateway/plugins/orchestrator_dag.lua:279-289 | A workflow counts as complete exactly when every stage is done or failed |
| `DagModel.DoomedStaysPending` | day01/llm_gateway/plugins/orchestrator_dag.lua:119-133 | What needs a failed or unknown stage is never offered |
| `DagModel.SomeoneIsFree` | day01/llm_gateway/plugins/orchestrator_dag.lua:119-133 | In an acyclic workflow every nonempty set of stages has one that waits for none of the others |
| `DagModel.RunIsSound` | day01/llm_gateway/plugins/orchestrator_dag.lua:261-276 | Completed means done, nothing is running, recorded stages had their dependencies, and pending plus recorded is all |
| `DagModel.RecordedOnce` | day01/llm_gateway/plugins/orchestrator_dag.lua:241-276 | No run records a stage twice |
| `DagModel.RecordedExactly` | day01/llm_gateway/plugins/orchestrator_dag.lua:261-276 | A result changes the status of its own stage only and completes it only on success; for an unknown stage it changes nothing |
| `DagModel.RankedIsAcyclic` | day01/llm_gateway/plugins/orchestrator_dag.lua:10-85 | A numbering with dependencies first rules out cycles |
| `DagEngine.ShippedWorkflowsAreWellFormed` | day01/llm_gateway/plugins/orchestrator_dag.lua:13-85 | The three shipped workflows are acyclic and name only their own stages |
| `DagEngine.ForwardWorkflow` | day01/llm_gateway/plugins/orchestrator_dag.lua:10-85 | A workflow whose stages only name earlier ones is well formed |
| `DagEngine.DagRun.constructor` | day01/llm_gateway/plugins/orchestrator_dag.lua:92-117 | Every stage id pending, nothing completed |
| `DagEngine.DagRun.DepsSatisfied` | day01/llm_gateway/plugins/orchestrator_dag.lua:120-133 | The first stage with the id decides; an unknown id is never satisfied |
| `DagEngine.DagRun.NextStages` | day01/llm_gateway/plugins/orchestrator_dag.lua:241-258 | Exactly the pending stages with completed dependencies, each once, in any order |
| `DagEngine.DagRun.RecordResult` | day01/llm_gateway/plugins/orchestrator_dag.lua:261-276 | Done or failed, and the stored result |
| `DagEngine.DagRun.IsComplete` | day01/llm_gateway/plugins/orchestrator_dag.lua:279-289 | No stage is pending or running |
| `Auth.AdmissionBound` | day01/llm_gateway/include/auth.h:23-68 | In any window of any run with an ascending clock, the checks of a non-empty key that pass number at most q + q*T, q being the qps of its first registration, and none pass if q is negative; whatever qps other keys, or the key itself later, are registered with |
| `Admission.ChecksPassExactly` | day01/llm_gateway/include/auth.h:23-68 | A check of an enabled key with first qps q of at least 1 passes if and only if at no earlier moment of the run the passes from then to now, this one included, would exceed q plus q per second |
| `Admission.RefusalLeavesNone` | day01/llm_gateway/include/auth.h:23-68 | A rate-limited check points to such a moment |
| `Admission.SomeFullMoment` | day01/llm_gateway/include/auth.h:23-54 | There is always a moment at which the bucket was full and since which every token earned is still there or paid for a pass |
| `Admission.BurstPasses` | day01/llm_gateway/include/auth.h:19-31 | Of n checks at the moment of registration the first q pass, and so all exactly if n is at most q |
| `Admission.RefusalsExact` | day01/llm_gateway/include/auth.h:57-68 | The empty key passes; another is invalid exactly if never registered, disabled exactly if its latest registration says so, and otherwise its bucket decides |
| `Auth.TokensStayInRange` | day01/llm_gateway/include/auth.h:23-55 | A key has a bucket exactly once it was registered, and if the qps q of its first registration is at least 0 its tokens stay in [0, q] |
| `Auth.PassesArePaid` | day01/llm_gateway/include/auth.h:23-31 | Calls that pass plus tokens left never exceed the tokens at the start plus those earned |
| `Auth.PassesInWindow` | day01/llm_gateway/include/auth.h:23-31 | From its first to its last call a bucket passes at most q + q*T |
| `Auth.OneKeysView` | day01/llm_gateway/include/auth.h:57-68 | Whatever happens to other keys, and whatever the key is registered with again, one key sees a series of calls on one bucket |
| `Auth.PoliteClientIsNeverLimited` | day01/llm_gateway/include/auth.h:23-68 | In any run of the manager, a check of a key whose checks are at least 1/q apart, q at least 1 being the qps of its first registration, is never rate limited, whatever other keys, re-registrations and disabling do in between |
| `Auth.NoQpsNeverPasses` | day01/llm_gateway/include/auth.h:23-68 | A key first registered with qps 0 or less never passes, whatever the clock does, so q at least 1 is what a client needs |
| `Auth.BucketOfFirstQps` | day01/llm_gateway/include/auth.h:48-54 | In any run, whatever its clock, a bucket has the capacity and rate of the first registration of its key |
| `Auth.TokenBucket.constructor` | day01/llm_gateway/include/auth.h:19-21 | Starts full |
| `Auth.TokenBucket.Consume` | day01/llm_gateway/include/auth.h:23-31 | Refill up to capacity, then pay one token or refuse |
| `Auth.AuthManager.AddKey` | day01/llm_gateway/include/auth.h:48-54 | The record is replaced, an existing bucket is kept |
| `Auth.AuthManager.Verify` | day01/llm_gateway/include/auth.h:57-68 | The verdict in the order of the checks, and only the key's own bucket moves |
| `Registry.IndexIsExact` | day01/llm_gateway/src/agent_cache.cpp:718-761 | Through any registrations, re-registrations and removals a session is listed under a capability exactly when it is registered with it, once |
| `Registry.BestListedIsLeastBusy` | day01/llm_gateway/src/agent_cache.cpp:763-780 | Routing finds a healthy provider whenever there is one, with the fewest active calls of all |
| `Registry.BestListedIsMinimal` | day01/llm_gateway/src/agent_cache.cpp:771-779 | The loop's running best is the first with the fewest active calls of what it has seen |
| `Registry.AgentRegistry.RegisterAgent` | day01/llm_gateway/src/agent_cache.cpp:718-744 | Record and index after a first or repeated registration |
| `Registry.AgentRegistry.UnregisterAgent` | day01/llm_gateway/src/agent_cache.cpp:746-761 | Record and index after a removal, empty lists deleted |
| `Registry.AgentRegistry.Route` | day01/llm_gateway/src/agent_cache.cpp:763-780 | None exactly when nobody provides the capability, else a provider with the fewest active calls |
| `Registry.FoundIsLatestRegistration` | day01/llm_gateway/src/agent_cache.cpp:718-797 | Over any run what is found under a session is the record of its latest registration with the time of the latest heartbeat since; nothing is found exactly when it was never registered or was removed since |
| `Registry.AgentRegistry.Heartbeat` | day01/llm_gateway/src/agent_cache.cpp:789-797 | Only the heartbeat of a known session changes |
| `CallRouting.DeliveryGoesToLatestCaller` | day01/llm_gateway/src/ws_chat_controller.cpp:510-546 | A result is delivered to a connection exactly when that one stored the key most recently, unanswered since, and is connected; it is refused exactly when nothing is stored |
| `CallRouting.PendingIsLatestStore` | day01/llm_gateway/src/ws_chat_controller.cpp:487-528 | What waits under a key is the latest store of it that nothing touched since |
| `CallRouting.CallsAreConserved` | day01/llm_gateway/src/ws_chat_controller.cpp:487-546 | Stored calls are delivered, dropped with their caller, overwritten or still pending, and these add up |
| `CallRouting.ToolKeysCollide` | day01/llm_gateway/src/ws_chat_controller.cpp:487 | Calls of two different requests can share a key exactly when one request id continues the other with a colon |
| `CallRouting.ToolKeyDetermines` | day01/llm_gateway/src/ws_chat_controller.cpp:487 | Otherwise the key determines request and call, and within one request it always does |
| `CallRouting.ResultsFindTheirCallers` | day01/llm_gateway/src/ws_chat_controller.cpp:487-546 | Over all runs on a set of request ids every result goes exactly to the connected connection that last made that call, if and only if none of the ids continues another with a colon |
| `CallRouting.ChosenExecutor` | day01/llm_gateway/src/ws_chat_controller.cpp:462-484 | The executor is registered and connected, and knows the tool whenever any connected executor does |
| `CallRouting.RoundVisitsAll` | day01/llm_gateway/src/ws_chat_controller.cpp:483-484 | On an unchanging pool n consecutive calls go to n different positions |
| `ExecutorTurns.EachExecutorOncePerRound` | day01/llm_gateway/src/ws_chat_controller.cpp:452-484 | While registrations and connections do not change, any n consecutive calls for a tool with a pool of n distinct executors go to each of them once |
| `ExecutorTurns.CallsGoAround` | day01/llm_gateway/src/ws_chat_controller.cpp:483-484 | Call number i of a series goes to the executor that many places on in the pool, counted around it |
| `ExecutorTurns.ConnectedInOrder` | day01/llm_gateway/src/ws_chat_controller.cpp:462-465 | Forgetting executors keeps the others in order and number, and all of them if all are connected |
| `ExecutorTurns.CapableInOrder` | day01/llm_gateway/src/ws_chat_controller.cpp:467-475 | So does choosing those that announced the tool |
| `CallRouting.WsChatController.RouteToolCall` | day01/llm_gateway/src/ws_chat_controller.cpp:452-504 | Pruned pool, next in turn, sender stored, as the turns of ExecutorTurns; nothing stored without an executor |
| `CallRouting.WsChatController.RouteToolResult` | day01/llm_gateway/src/ws_chat_controller.cpp:506-546 | The outcome and the table after a tool result |
| `CallRouting.WsChatController.RouteAgentCall` | day01/llm_gateway/src/ws_chat_controller.cpp:607-642 | Stored and forwarded when a target was found |
| `CallRouting.WsChatController.RouteAgentResult` | day01/llm_gateway/src/ws_chat_controller.cpp:649-682 | The outcome and the table after an agent result |
| `CallRouting.WsChatController.ConnectionClosed` | day01/llm_gateway/src/ws_chat_controller.cpp:781-812 | Executor pool and session map after a close; waiting calls stay |
| `CallRouting.WsChatController.Connect` | day01/llm_gateway/src/ws_chat_controller.cpp:115-119 | The session map gains the connection |
| `CallRouting.WsChatController.RegisterExecutor` | day01/llm_gateway/src/ws_chat_controller.cpp:176-209 | Tools are added to those announced before and the pool gains the connection |
| `CallRouting.WsChatController.DropDisconnected` | day01/llm_gateway/src/ws_chat_controller.cpp:462-465 | The connected executors, in order |
| `CallRouting.WsChatController.CapableExecutors` | day01/llm_gateway/src/ws_chat_controller.cpp:467-475 | The executors that announced the tool, in order |
| `MetricMax.CounterIsMaximum` | day01/llm_gateway/include/metrics.h:74-78 | Under every interleaving of any number of threads, with spurious failures, the counter never decreases, is the initial or a submitted value, and is at least the value of every finished thread from then on |
| `MetricMax.QuietCounterIsExact` | day01/llm_gateway/include/metrics.h:74-78 | When all threads have finished the counter is the maximum of the initial and all submitted values |
| `MetricMax.StepKeepsSound` | day01/llm_gateway/include/metrics.h:74-78 | Each single step of each thread keeps that |
| `MetricMax.ThreadCanMove` | day01/llm_gateway/include/metrics.h:74-78 | No thread is ever stuck: it can load, leave when its value is no larger, else retry, and puts its value in if nobody came in between |

## Left out

- HTTP, WebSocket, curl and event-loop plumbing, the llama.cpp backend, configuration and logging: foreign calls and I/O.
- Lua sandbox, plugin loading, hot reload and the request and token pipelines: what they do is decided by scripts.
- `LuaVMPool`, `ToolRegistry`, `eviction_score`, `build_context_for`, `recent_all`, `to_summary`: they would only add easy members.
- Third-level archive: a write receives the reference the archive returned; paths, partitions and `expand_context` are not modelled.
- `invalid_reason`: the recursion passes a reference to a field that it may overwrite, so the text is not part of this model.
- Building a stage's input from its template, `collect_results`, and the table of active workflows by id: string templates and lookups.
- When the files are written: each mutating operation rewrites them, here only a shutdown does, so a restart after a crash is not modelled.
- Arguments of a tool or agent call that do not parse as JSON: the program throws after the call was stored.
- CallRouting.WsChatController.ConnectionClosed: covers the executor pool and the session map; what closing an agent's connection does beside them is other members' work: its registration and its session buffer are removed by `Registry.AgentRegistry.UnregisterAgent` and `Coordinator.CacheCoordinator.CloseSession`.
- Interleavings inside one coordinator operation: the program takes the locks of the two levels one after the other.
- Integer widths: times, counters and weights are unbounded. `Fairness.LevelBounds` bounds the balancer's counters for any number of picks.
- Floating-point rounding, and the exact value of the power function.
- AgentTypes.JsonRoundTrip: a persisted status code other than 0, 1 or 2 reads as FRESH here, while the program keeps the unknown number; arrays with members that are not strings are not represented.
- SseParsing.SSEParser.ProcessLine: a choice without a `delta` member is undefined behaviour of the JSON library and is read as an empty delta here; the token and done callbacks are taken to be set and not to throw, and log lines and token metrics are left out.
- SseRoundTrip.GatewayStreamRoundTrip: the JSON library is opaque, so that the chunks sent are written on one line and read back is its premise; `SseRoundTrip.FramedStreamIsHandled` needs none.
- Lru.Residency: runs do not clear the store or change its size.
- L1Cache.L1CacheStore.Set: requires a capacity of at least 1, since with 0 the program takes the back of an empty list.
- Fairness.MapRunFollowsLevels: needs distinct node names, because the program keeps one counter per name; with shared names the shares are settled per name (`NameFairness.EveryWindowIsFairByName`), not which of its nodes is picked.
- Auth.AdmissionBound: for a clock that does not go back, as a steady clock does not.
- CallRouting.WsChatController.RouteAgentCall: the cache lookup before it is `AgentCalls.AnswerFromCache`, the registry lookup of the target is `Registry.AgentRegistry`; the target found is a parameter.
- AgentCalls.StoreResult: the hash of the output is a parameter.
- CallRouting.CallsAreConserved: the done callback can fire twice for one request, so nothing is said about the number of active requests.
