# Models of the Dapr development dashboard

Dafny models of the parts of the dashboard that are hard to get right, with proofs about all
inputs, all runs and all interleavings:

- `ConnPool.dfy`, `PoolOwnership.dfy`: the connection pool as steps of concurrent openers, evictors
  and one closer, and who will close each store they open.
- `SummaryCache.dfy`, `WorkflowList.dfy`, `Loader.dfy`, `Keys.dfy`, `Cursor.dfy`: the workflow read
  model, from key layout to the validated summary cache.
- `StateKeys.dfy`, `StateBrowser.dfy`, `Like.dfy`, `ForceDelete.dfy`, `Utf8.dfy`, `Base64.dfy`: the
  state browser, LIKE patterns, force removal, value rendering.
- `Registry.dfy`, `Election.dfy`, `Reconcile.dfy`, `Fingerprint.dfy`: the connection registry with
  its tombstones, active-store election, reconciliation and its gate.
- `Lifecycle.dfy`: stopped apps, the overlay over process scans, dismissals.
- `Pairing.dfy`: history pairing. `LineSplit.dfy`, `LogTail.dfy`, `TailRuns.dfy`: the log tailer.
  `News.dfy`: the news cache. `SeedReset.dfy`: the demo apps' seed and reset protocol.
- `Text.dfy`, `Options.dfy`: shared string operations, order and sorting.

Objects that the program updates in place are classes whose methods are tied to specification
functions; protocols are state machines whose steps are the program's critical sections. `dafny
verify dfyconfig.toml` checks everything.

## What the proofs found

- The two unconditional deletes in the connection pool (`cmd/connpool.go:82` and `:97`) can drop a
  slot another caller has published; its store is then never closed. `PoolOwnership.LeaksIff` says
  exactly when, `PoolOwnership.AsWrittenLosesAStore` shows a run. Line 97's comment calls the delete
  harmless. With the comparison of line 95 guarding them nothing leaks. A second Close returns
  before the first has finished; "Close returned" is about the first.
- The summary cache needs metadata and first entry read at one store state. Its reader asks for both
  in one bulk read (`pkg/workflow/service.go:113`), which is cut into chunks of 100 keys
  (`pkg/statestore/store.go:162-205`). So on backends that answer a chunk with one query the pair can
  straddle two reads from 51 instances on, and on Redis, where every key is read for itself, with a
  single one (`SummaryCache.PairsTogetherIff`). `SummaryCache.CanServeStaleIff` says exactly what a
  torn entry needs to do harm later. A history itself read in pieces does none.
- A `/` in an app id can hide an instance from a page (`WorkflowList.SlashHidesInstance`); nothing is
  hidden exactly when different instances have different dedup keys within each call
  (`WorkflowList.CallHidesNothingIff`). A key that a cursor repeats is dropped within a call and
  returned again by the next (`WorkflowList.LoadedOnceIffNamedByOneCall`).
- The instance key pattern is not escaped. An `_` in an id lets force removal take siblings' keys
  (`ForceDelete.UnderscoreTakesSibling`) and lets the scan load an absent instance as an empty one; in a
  prefix without `%`, a backslash keeps the scan from finding any of the instance's own keys, so that
  the two load paths differ (`Loader.ScanCoversIff`, `Loader.NothingScannedMeansAbsentIff`). A key the
  scan picks up from an app whose id starts with `history-` is even decoded as an event of the
  instance (`Loader.SiblingEventsMixIn`; `Loader.ForeignScannedIff` says exactly when). The pattern
  that lists an app's instances has the same flaw (`Like.MetaPatternExactIff`).
- The ids of auto and manual entries are kept apart by the marker `manual:`, but an auto entry whose
  path started with it would share the id of a manual one, whatever the hash
  (`Registry.TwinsShareId`); detection makes paths absolute.
- The create route rejects `||` but not an app id ending in `|` before a key starting with `|`,
  which becomes a three-segment actor key (`StateKeys.AcceptedWriteIsAppIff`).
- The reconcile gate ignores the order of the apps, on which detection and election depend; it relies
  on discovery sorting them (`Fingerprint.SwappedAppsFoolTheGate`).
- A store deleted after the reconciler's undismissal of it and before the publication of the election
  is judged against the outgoing election (`Reconcile.HiddenAmongUndismissalsIff`); so is one whose deletion was
  checked before a reconcile and happens after it (`Reconcile.LateDeletionHidesIff`).
- Stopping an app does not lift an earlier dismissal (`Lifecycle.StopDoesNotUnsuppress`).
- The comment on the reset workers' second clearing of `seeded` describes a race that cannot
  happen (`SeedReset.ReclearIsNoOp`).
- A log file whose last line is unterminated at open has that line split in two
  (`TailRuns.EmitsFileLinesIff`).

## Model

| member | source | states |
|---|---|---|
| `ConnPool.ClosedAtMostOnce` | cmd/connpool.go:60-161 | in every interleaving of openOrGet, evict and Close, with the deletes as written or compared, no store is closed twice and a slot's done is closed exactly once, by the time its opener returned |
| `ConnPool.OutcomeIsFinal` | cmd/connpool.go:69-73 | once done is closed the slot never changes, so every waiter reads the same entry or error |
| `ConnPool.OutcomeIsEither` | cmd/connpool.go:65-76 | what a waiter reads then is the store the opener got, or an error and no store |
| `ConnPool.SingleFlight` | cmd/connpool.go:56-76 | as long as an identity itself is not evicted, whatever is evicted of others and with or without Close, it is dialed again only after its dial before has failed |
| `ConnPool.SingleFlightInv` | cmd/connpool.go:69-86 | the invariant behind it: of an identity's slots all but the last belong to failed opens, and until Close the live one is in the table |
| `ConnPool.RunKeepsInv` | cmd/connpool.go:60-161 | ownership invariant of all runs: the table, one evictor and the closer hold disjoint slots, stores belong to their slots, a closed store is out of reach |
| `PoolOwnership.StepAccountsFor` | cmd/connpool.go:78-112 | a step that deletes no slot but its own leaves no accepted store without a holder |
| `PoolOwnership.GuardedRunAccounts` | cmd/connpool.go:93-98 | with the deletes guarded by line 95's comparison, in every run every open accepted store is held by the table, an evict call or Close |
| `PoolOwnership.CarefulRunAccounts` | cmd/connpool.go:82-97 | the same as written, for runs in which no delete hits another caller's accepted slot |
| `PoolOwnership.AcceptedDropOrphans` | cmd/connpool.go:82-97 | as written, such a delete orphans the published store at once |
| `PoolOwnership.OrphanStaysInRun` | cmd/connpool.go:115-161 | nothing later in the run recovers an orphaned store |
| `PoolOwnership.AccountedIff` | cmd/connpool.go:82-97 | as written, a run has lost a store if and only if one of its unconditional deletes hit a slot somebody else had filled |
| `PoolOwnership.OpenStoreHasOwner` | cmd/connpool.go:101-161 | with the guard, a store open after Close returned is in the hands of its opener or of an evict call that will close it |
| `PoolOwnership.QuietAccounting` | cmd/connpool.go:140-161 | when Close and every other call has returned, all stores are closed exactly once if and only if none was orphaned |
| `PoolOwnership.NothingLeaks` | cmd/connpool.go:139-161 | with the guard, after Close and all other calls returned every store ever opened has been closed exactly once |
| `PoolOwnership.LeaksIff` | cmd/connpool.go:82-161 | as written, that holds if and only if no unconditional delete hit another caller's accepted slot |
| `PoolOwnership.SomeoneCanStep` | cmd/connpool.go:126-137 | no deadlock: while a call runs, some running call can take a step |
| `PoolOwnership.Drain` | cmd/connpool.go:60-161 | from every reachable state the running calls can all finish |
| `PoolOwnership.CloseCompletes` | cmd/connpool.go:140-161 | with the guard, once Close began there is a completion in which every store ends closed exactly once |
| `PoolOwnership.AsWrittenLosesAStore` | cmd/connpool.go:82-98 | a concrete run as written: a slow open is evicted, another caller publishes, the slow re-check deletes that slot, Close finds nothing, the published store stays open |
| `ConnPool.Pool.Find` | cmd/connpool.go:63-76 | first critical section: rejected after Close, else wait on the present slot, else reserve a new one; equals the machine's Reserve |
| `ConnPool.Pool.Forget` | cmd/connpool.go:81-83 | critical section after a failed open; equals the machine's step |
| `ConnPool.Pool.StillMine` | cmd/connpool.go:93-99 | re-check after the open: evicted exactly when the pool is closed or the slot is not the current one; equals the machine's step |
| `ConnPool.Pool.Take` | cmd/connpool.go:117-122 | evict takes the slot of its identity, if any, out of the table |
| `ConnPool.Pool.TakeAll` | cmd/connpool.go:141-149 | Close takes every slot, once |
| `SummaryCache.HeadDetermines` | pkg/workflow/summary_cache.go:15-23 | metadata and first entry identify the history: equal at two moments of any writer run (create, append, continue-as-new, purge) they were the same throughout |
| `SummaryCache.HitIsFresh` | pkg/workflow/summary_cache.go:45-56 | a hit returns what an uncached load of the same call could have read, entry by entry, in an order its backend allows |
| `SummaryCache.RunKeepsInv` | pkg/workflow/summary_cache.go:24-80 | over every interleaving of writes, chunked or key-by-key reads, stale puts, overflow clears and prunes every cache entry is what one bulk read could find, and every reader's answer what an uncached one could give |
| `SummaryCache.CacheIsTransparent` | pkg/workflow/service.go:99-138 | metadata and first entry read at one state: every returned answer is one an uncached reader with the same metadata could have put together from reads during the same call, in the same chunk order, also when writes fall between them |
| `SummaryCache.QuietReadIsExact` | pkg/workflow/service.go:117-133 | if the instance is unchanged since its metadata was read, the answer is its full current history |
| `SummaryCache.PairsTogetherIff` | pkg/workflow/service.go:104-119 | a call for n instances reads every metadata and first-entry pair at one state, whatever is written, if and only if the backend answers a chunk with one query and n is at most 50 (or n is 0) |
| `SummaryCache.CanServeStaleIff` | pkg/workflow/service.go:119-132 | exactly when a filed entry can, now or after further writes, answer a reader whose own two reads are consistent with another history than the stored one: either its first entry can still begin an instance of its generation (and more entries are declared, or something else was filed), or the current instance has it first in that generation and is shorter than declared, or as long and not what was filed |
| `SummaryCache.AtomicNeverStale` | pkg/workflow/service.go:99-138 | with both reads at one state no entry ever satisfies that |
| `SummaryCache.TornPut` | pkg/workflow/service.go:113-131 | any purge and re-create between a reader's two reads, from any reachable state: what is filed, and that it can mislead exactly when the new instance can still grow to the declared length |
| `SummaryCache.TornReadGoesStale` | pkg/workflow/service.go:113-131 | from every reachable state whose entry satisfies the condition the run goes on to a consistent reader who is not answered with the stored history |
| `SummaryCache.CacheKeyIsUnique` | pkg/workflow/summary_cache.go:41 | two instances never share a cache key when namespaces and app ids hold no NUL |
| `SummaryCache.Cache.Get` | pkg/workflow/summary_cache.go:45-56 | hits exactly on an entry whose two byte strings are the caller's; nil metadata always misses |
| `SummaryCache.Cache.Put` | pkg/workflow/summary_cache.go:58-65 | the new entry is stored; every other one is kept, unless a new key overflows the cache and all others go |
| `SummaryCache.Cache.Prune` | pkg/workflow/summary_cache.go:69-80 | removes exactly the entries of the namespace and app that the scan did not see |
| `SummaryCache.GetIsProbe` | pkg/workflow/summary_cache.go:45-56 | seen at one key, Get hits exactly when the machine's probe does, with the summary of the same entries |
| `SummaryCache.PutIsFinish` | pkg/workflow/summary_cache.go:58-65 | Put files the machine's entry under its key; for any other instance it changes nothing or forgets its entry |
| `SummaryCache.PruneIsForget` | pkg/workflow/summary_cache.go:69-80 | Prune changes nothing for an instance or forgets its entry, and never for a key to keep |
| `SummaryCache.FilesIff` | pkg/workflow/service.go:125-132 | an entry is filed exactly when a fetch finishes under metadata declaring 1 to 1,000,000 entries, with the bytes of both head reads and of the entries read |
| `SummaryCache.HitsIff` | pkg/workflow/summary_cache.go:45-56 | a probe hits if and only if the entry has both head reads, and returns what was filed |
| `SummaryCache.BeginsWith` | pkg/workflow/service.go:427-455 | a miss loads the entries its metadata declares, or those a scan finds, or nothing |
| `Keys.ParseBack` | pkg/statestore/keys.go:37-63 | ParseAppID and ParseInstanceID give back the ids a key was built from (empty ones are refused) |
| `Keys.ParsedFrom` | pkg/statestore/keys.go:37-63 | of a key with at least three segments the first is the app id and the third the instance id, unless empty; of any other neither |
| `Keys.PrefixReads` | pkg/statestore/keys.go:10-34 | split at the delimiters, a prefix is the app id, dapr.internal.<namespace>.<app id>.workflow, the instance id, and what follows |
| `Keys.HistoryKeyReads` | pkg/statestore/keys.go:65-74 | a history key is history- and its number in at least six digits |
| `Keys.PrefixIdentifiesInstance` | pkg/statestore/keys.go:27-29 | no key lies under two instances' prefixes |
| `Keys.HistoryKeyMonotone` | pkg/statestore/keys.go:65-74 | byte order of history keys is numeric order below 1,000,000 |
| `Keys.HistoryKeysOrderedIff` | pkg/statestore/keys.go:65-74 | the first n history keys are in byte order if and only if n is at most 1,000,000 |
| `Loader.BulkGetChunked` | pkg/statestore/store.go:182-205 | for every chunk size above zero and every response order: the pointwise read of all requested keys, or failure exactly when one of them cannot be read |
| `Loader.DecodeInstance` | pkg/workflow/service.go:460-484 | events of the non-empty history entries in byte order of their keys, undecodable ones skipped, whatever the map order, and the custom status (of two keys that read as one, either) |
| `Loader.CollectHistory` | pkg/workflow/service.go:461-473 | the history keys and status found by the loop over any map, in whatever order |
| `Loader.HistoryKeysIff` | pkg/workflow/service.go:461-470 | which keys those are: of non-empty values, whose text after the prefix, or whole for a key without it, starts with history- |
| `Loader.DecodesToStored` | pkg/workflow/service.go:457-484 | any read covering the instance's entries decodes to its stored history in numeric order, foreign keys ignored unless, outside the prefix, they start with history- |
| `Loader.DecodesToStoredIff` | pkg/workflow/service.go:457-484 | while every entry decodes, what comes out is the stored history if and only if the read brings no such foreign event |
| `Loader.StoredInOrder` | pkg/workflow/service.go:457-484 | the stored history event by event: entry n after those before it, if there, not empty and decodable |
| `Loader.HoldsHistoryIff` | pkg/workflow/service.go:427-433 | what a whole stored history is, in terms of the keys in the store |
| `Loader.LoadWithMeta` | pkg/workflow/service.go:427-437 | the fast path: keys built from the declared length and one bulk read give the stored history, or fail exactly when a read fails |
| `Loader.ScanKeys` | pkg/workflow/service.go:443 | the key scan: every key the pattern matches, once |
| `Loader.LoadByScan` | pkg/workflow/service.go:442-455 | not found exactly when nothing matches the pattern; for a prefix without backslash not found means no key of the instance is stored, and a whole stored history is loaded unless the scan brings a foreign event; in every case the events of all scanned keys that read as history keys are loaded |
| `Loader.ScanCoversIff` | pkg/statestore/keys.go:32-34 | the scan finds an instance's own keys, whatever they are, if and only if its prefix (percent-free) holds no backslash; with one it finds none of them |
| `Loader.NothingScannedMeansAbsentIff` | pkg/workflow/service.go:442-449 | on all stores, a scan that finds nothing means no key of the instance is stored, and conversely, if and only if the prefix holds no metacharacter |
| `Loader.BackslashPathsDiffer` | pkg/workflow/service.go:421-455 | an instance whose prefix holds a backslash and no percent has its history stored and nothing for the scan to find |
| `Loader.ForeignScannedIff` | pkg/workflow/service.go:442-468 | for every prefix: on some store the scan brings a foreign event if and only if the prefix holds a metacharacter and its pattern can match something that starts with history- |
| `Loader.ForeignAppIff` | pkg/statestore/keys.go:26-34 | for app ids without percent and backslash: if and only if the prefix holds a metacharacter and the app id's first eight characters are history- up to underscores |
| `Loader.SiblingEventsMixIn` | pkg/workflow/service.go:442-484 | the scan of app history_x's instance takes the events of app history-x's instance of the same id for its own, and what it loads is not the stored history |
| `Loader.Load` | pkg/workflow/service.go:421-438 | on the declared length alone: from 1 to 1,000,000 the declared keys and the status are read, and when all are there the result is the stored execution, fromMeta telling whether all could be read; for a missing, zero or larger length the answer is the scan's, and fromMeta is false |
| `WorkflowList.RefsFromKeys` | pkg/workflow/service.go:50-71 | the instances named by the keys, malformed keys and known dedup keys skipped, and the extended seen set |
| `WorkflowList.DedupKeyUnique` | pkg/workflow/service.go:59-66 | the app/instance dedup key is unambiguous for app ids without a slash |
| `WorkflowList.SlashHidesInstance` | pkg/workflow/service.go:50-71 | for all a, b, c: of app a's instance b/c and app a/b's instance c on one page, the second is hidden from the page |
| `WorkflowList.NothingHiddenIff` | pkg/workflow/service.go:50-71 | deduplication hides no instance if and only if different instances named have different dedup keys, however often each is named |
| `WorkflowList.CallHidesNothingIff` | pkg/workflow/service.go:281-309 | one call of List leaves out no instance named on the pages it scans if and only if different ones have different dedup keys |
| `WorkflowList.CoversAllIff` | pkg/workflow/service.go:281-309 | a client's calls load an instance for every key listed that names one, each key counted for itself, if and only if within each call no two such keys share a dedup key |
| `WorkflowList.LoadedOnceIffDistinctPerCall` | pkg/workflow/service.go:281-309 | when the keys listed name pairwise different instances: the calls load each instance exactly once if and only if within each call no two share a dedup key |
| `WorkflowList.LoadedOnceIffNamedByOneCall` | pkg/workflow/service.go:281-309 | when dedup keys are unambiguous: the calls load each instance exactly once if and only if no two calls scan keys of one instance, since what a call has seen is forgotten by the next |
| `WorkflowList.ReturnedTimes` | pkg/workflow/service.go:281-309 | for all inputs, the matches of what the calls cover hold each accepted summary as often as calls load its instance, that is, scan it before anything else with its dedup key |
| `WorkflowList.EachOnceIff` | pkg/workflow/service.go:262-322 | every loadable accepted instance is among the results exactly once, and nothing else is, if and only if exactly one call loads each of them |
| `WorkflowList.MetaKeysDiffer` | pkg/workflow/service.go:50-71 | metadata keys listed once each name pairwise different instances |
| `WorkflowList.MetaKeysAreDistinct` | pkg/workflow/service.go:50-71 | without slashes in app ids they also have pairwise different dedup keys |
| `WorkflowList.MetaListedOnce` | pkg/workflow/service.go:262-322 | from a listing of each metadata key once the calls load every instance exactly once, however it is cut into pages and calls, when no app id holds a slash; for any app ids, if and only if within each call no two instances share a dedup key |
| `WorkflowList.ShownIff` | pkg/workflow/service.go:486-510 | what the filter accepts, in the summary's fields: loads, status among those asked for, no parent unless children are included, and the search in id or name whatever the case of letters |
| `WorkflowList.Collect` | pkg/workflow/service.go:283-309 | the bounded loop-fill: all and only the matches among the keys scanned, with the scan and size bounds |
| `WorkflowList.List` | pkg/workflow/service.go:262-322 | one page, newest first: an instance scanned is returned if and only if it loads and its status, parent, id and name meet the query; unfiltered truncation drops nothing, a filtered page has fewer than twice the page size, at most maxScan+pageSize-1 keys are scanned, and a filtered page stops early only when full or exhausted |
| `WorkflowList.FollowTokens` | pkg/workflow/service.go:262-322 | following NextToken from empty to empty terminates and returns each instance that loads and meets the query, in its fields, as often as calls load it; from a listing of each metadata key once that is exactly once and nothing else, when no app id holds a slash or dedup keys differ within each call |
| `Like.EscapeLike` | pkg/state/pattern.go:16-30 | the builder loop produces the escaped fragment |
| `Like.EscapedIsLiteral` | pkg/state/pattern.go:8-30 | an escaped fragment in front of any pattern matches itself literally and nothing else |
| `Like.PercentSkips` | pkg/state/pattern.go:34-43 | a leading percent matches exactly after skipping some characters |
| `Like.BuildListPattern` | pkg/state/pattern.go:34-43 | the pattern for an app filter and a search |
| `Like.ListPatternIsLiteral` | pkg/state/pattern.go:32-43 | for all app ids, searches and keys: the pattern matches if and only if the key starts with app and delimiter (when app is set) and the rest contains the search literally |
| `Like.PrefixPatternExactIff` | pkg/statestore/keys.go:32-34 | the unescaped instance pattern matches exactly the keys under its prefix if and only if the prefix holds no metacharacter |
| `Like.MetaPrefixOvermatches` | pkg/statestore/keys.go:32-34 | for any prefix with a metacharacter, a key outside it that the pattern matches |
| `Like.MetaPatternTakesSibling` | pkg/statestore/keys.go:20-24 | listing an app whose id holds an underscore also lists every instance of the sibling apps that differ from it in that character |
| `Like.MetaPatternExactIff` | pkg/statestore/keys.go:20-24 | listing an app's instances finds exactly its metadata keys, whatever is stored, if and only if neither app id nor namespace holds a metacharacter |
| `ForceDelete.ForceDelete` | pkg/workflow/remove.go:122-141 | succeeds exactly when no matching key refuses deletion, and then exactly the matching keys are gone; a failure has touched matching keys only, and refusing keys stay |
| `ForceDelete.RemoveMany` | pkg/workflow/remove.go:77-90 | each result says exactly whether no key matching its target refused deletion at the start, whatever became of earlier targets; refusing keys and keys no pattern matches survive |
| `ForceDelete.RemovesExactlyTheInstance` | pkg/workflow/remove.go:122-141 | for ids free of LIKE metacharacters and bars: exactly the instance's keys go, and none of any other instance |
| `ForceDelete.ConfinedIff` | pkg/workflow/remove.go:131 | removal stays within the instance's prefix on all stores if and only if the prefix holds no metacharacter |
| `ForceDelete.UnderscoreTakesSibling` | pkg/workflow/remove.go:131 | an underscore in the id also removes every sibling that differs from it in that one character |
| `StateKeys.ClassifyComposedIff` | pkg/state/classify.go:20-60 | classify(ComposeKey(a,k)) is (a,k) as an app record if and only if neither holds a delimiter and a does not end in a bar |
| `StateKeys.ComposeClassifiedIff` | pkg/state/classify.go:42-60 | recomposing a classified key gives the key back if and only if it has at least two segments |
| `StateKeys.ClassifyIs` | pkg/state/classify.go:20-60 | what each split of a key is classified as: app record, workflow or actor key |
| `StateKeys.AcceptedWriteIsAppIff` | pkg/server/state.go:88-119 | a write the route accepts becomes an app record if and only if not both the app id ends and the key starts with a bar |
| `StateBrowser.Collect` | pkg/state/service.go:180-212 | the loop-fill: every surviving key among the pages scanned, once, with the scan and size bounds |
| `StateBrowser.ClassifyPage` | pkg/state/service.go:188-203 | the loop over one page of keys: survivors appended once |
| `StateBrowser.List` | pkg/state/service.go:166-233 | one page of rows: exactly the surviving keys scanned whose record still exists |
| `StateBrowser.FollowTokens` | pkg/state/service.go:166-233 | paging to the end returns every selected surviving key |
| `StateBrowser.AllOnce` | pkg/state/service.go:166-233 | each of them exactly once |
| `StateBrowser.AppIDs` | pkg/state/service.go:49-75 | the non-empty prefixes of the surviving keys, once each, sorted |
| `StateBrowser.OfferedIffListed` | pkg/state/service.go:49-75 | a prefix is offered if and only if it has no delimiter and no trailing bar and its filtered listing under the same internal-keys setting has a row |
| `StateBrowser.RecordStore.Set` | pkg/state/service.go:107-122 | writes the composed key unless it exists and overwriting was not asked for; no other key changes |
| `StateBrowser.RecordStore.Delete` | pkg/state/service.go:80-98 | one outcome per key in order; exactly the deleted keys are gone |
| `StateBrowser.CreatedRecordListedIff` | pkg/state/service.go:107-122 | a created record always matches its own app filter, and is in the default listing if and only if not both the app id ends and the key starts with a bar |
| `StateBrowser.CreatedRecordOfferedIff` | pkg/state/service.go:49-75 | a created record makes its app id one of the dropdown's choices if and only if the id does not end in a bar |
| `Election.Elect` | cmd/workflow.go:65-116 | the six passes elect the least component by rank, then by position; none exactly for an empty list |
| `Election.ElectedPrecedence` | cmd/workflow.go:48-116 | the elected store is in the first non-empty class of: provided by a running app and marked as actor state store, provided, loaded and marked, loaded, marked, any |
| `Election.ElectedIsFirst` | cmd/workflow.go:65-116 | within its class it is the first |
| `Election.PathUnderIff` | cmd/workflow.go:34-46 | a path is under a directory if and only if it is the directory or continues it after a separator |
| `Election.ElectedUnique` | cmd/workflow.go:48-60 | that index is unique |
| `Election.ElectedIsWinner` | cmd/workflow.go:65-116 | so the election is a function of its inputs |
| `Election.ElectionNeedsOnlySets` | cmd/workflow.go:34-46 | the election depends on the path list only as a set |
| `Registry.PreimagesEqualIff` | cmd/registry.go:46-54 | what entryID hashes differs for different entries, except for an auto key that is manual: and a manual entry's name |
| `Registry.TwinsShareId` | cmd/registry.go:46-54 | such two have the same id, whatever the hash |
| `Registry.IdsUniqueIff` | cmd/registry.go:46-54 | while the hash does not collide on the entries' preimages, their ids are unique if and only if there are no such two |
| `Registry.UpsertKeeps` | cmd/registry.go:135-168 | UpsertAuto keeps keys unique and ids derived from them |
| `Registry.AddKeeps` | cmd/registry.go:172-185 | so does Add |
| `Registry.UpdateKeeps` | cmd/registry.go:193-217 | so does Update, also when it renames |
| `Registry.DeleteKeeps` | cmd/registry.go:223-243 | so does Delete, whatever ids collide |
| `Registry.UndismissKeeps` | cmd/registry.go:249-262 | so does Undismiss |
| `Registry.AutoSurvives` | cmd/registry.go:219-243 | a deletion keeps every auto entry, dismissed exactly when its id is the one deleted, whatever ids collide |
| `Registry.DeletedIs` | cmd/registry.go:219-243 | a deletion drops the manual entries with the id, dismisses the auto ones with it, and keeps everything else as it was, in order |
| `Registry.AddedIs` | cmd/registry.go:172-185 | refused exactly for a taken manual name; otherwise that entry is appended |
| `Registry.UpdatedIs` | cmd/registry.go:193-217 | refused exactly when another manual entry has the name; otherwise only the entry with the id is replaced |
| `Registry.UpsertedNothing` | cmd/registry.go:138-145 | next to a manual entry at the path nothing changes |
| `Registry.UpsertedAt` | cmd/registry.go:146-165 | an auto entry at the path takes the detected name, type and path, keeps its tombstone, and its time if nothing else changed |
| `Registry.UpsertedNew` | cmd/registry.go:166-168 | with no entry at the path one is appended, shown |
| `Registry.UndismissedIs` | cmd/registry.go:249-262 | exactly the first tombstone at the path is cleared |
| `Registry.UpsertRespectsTombstones` | cmd/registry.go:135-168 | re-discovery neither clears nor sets a tombstone, for any path |
| `Registry.ConnRegistry.UpsertAuto` | cmd/registry.go:135-168 | the new entries: unchanged next to a manual entry at the path, else refreshed in place with the tombstone kept, else appended |
| `Registry.ConnRegistry.Add` | cmd/registry.go:172-185 | appends a manual entry unless the name is taken |
| `Registry.ConnRegistry.Update` | cmd/registry.go:193-217 | replaces the manual entry with the id in place, refused when absent or when another manual entry has the name; returns the recomputed id |
| `Registry.ConnRegistry.Delete` | cmd/registry.go:223-243 | compaction over the slice being read: no manual entry with the id is left, auto ones with it are dismissed, every other entry is kept as it was and in order, and nothing else is there |
| `Registry.ConnRegistry.Undismiss` | cmd/registry.go:249-262 | clears the first tombstone at the path |
| `Reconcile.ReconcileShows` | cmd/reconciler.go:179-224 | after a reconcile the elected store and every app-provided store are shown, whatever had been dismissed |
| `Reconcile.ReconcileHidesIff` | cmd/reconciler.go:179-234 | and a store hidden before stays hidden if and only if it is neither elected nor provided by a running app |
| `Reconcile.RefusedIff` | cmd/reconciler.go:479-488 | a deletion of a detected store's entry is refused if and only if it is the elected connection |
| `Reconcile.RefusedExactly` | cmd/reconciler.go:479-488 | for any entry: refused if and only if the identity it makes, from its own metadata or its file, is that of the elected store |
| `Reconcile.IdentityIff` | cmd/reconciler.go:126-131 | two stores have one identity if and only if name, type and connection agree, for names and types without a bar |
| `Reconcile.DeleteSparesElected` | cmd/reconciler.go:479-496 | an accepted deletion leaves the elected store shown |
| `Reconcile.StepKeepsInv` | cmd/reconciler.go:179-496 | each of reconcile, AddStore, UpdateStore and DeleteStore, as one step, keeps unique keys and ids and the elected store shown |
| `Reconcile.RunKeepsInv` | cmd/reconciler.go:179-496 | the same over every run |
| `Reconcile.GapDismissesIff` | cmd/reconciler.go:224-233 | with no discovery in between, an auto entry becomes dismissed exactly by a deletion of it while the published election is another connection |
| `Reconcile.ElectedHiddenIff` | cmd/reconciler.go:225-233 | panel edits after the last undismissal and before the publication leave the newly elected store hidden if and only if one deletes its entry and the outgoing elected store is another connection |
| `Reconcile.HiddenAmongUndismissalsIff` | cmd/reconciler.go:217-233 | panel edits anywhere between persisting and publication, among the undismissals too, leave the newly elected store hidden if and only if its entry is deleted after the last undismissal of its path and the outgoing elected store is another connection |
| `Reconcile.UndisturbedPlay` | cmd/reconciler.go:217-233 | with no edit among them the undismissals and the publication are those of reconcile |
| `Reconcile.DeletionInTheGapHidesElected` | cmd/reconciler.go:225-233 | a run in which that happens, for any two stores with different first letters |
| `Reconcile.LateDeletionHidesIff` | cmd/reconciler.go:479-496 | with check and deletion in two sections and anything in between, an accepted deletion hides the store elected by then if and only if it is of that store's entry |
| `Reconcile.CheckedBeforeReconcile` | cmd/reconciler.go:479-496 | a whole reconcile in between is enough: the check before it lets the deletion through exactly when another connection was elected |
| `Reconcile.Reconciler.PersistAll` | cmd/reconciler.go:199-217 | every detected store is upserted, in order |
| `Reconcile.Reconciler.UndismissProvided` | cmd/reconciler.go:267-281 | exactly the app-provided stores are undismissed |
| `Reconcile.Reconciler.Reconcile` | cmd/reconciler.go:179-234 | registry, election and fingerprint after a reconcile, and what a Close before or in the middle leaves undone |
| `Reconcile.Reconciler.AddStore` | cmd/reconciler.go:445-455 | the run's step; fails exactly for a taken manual name |
| `Reconcile.Reconciler.UpdateStore` | cmd/reconciler.go:460-473 | the run's step, and the returned id |
| `Reconcile.Reconciler.DeleteStore` | cmd/reconciler.go:479-496 | with check and deletion in one step: refused exactly for the elected connection, and then nothing changes; otherwise no manual entry with the id is left, auto ones with it are dismissed, and every other entry is kept, in order |
| `Fingerprint.DerivePaths` | cmd/derive.go:28-77 | loaded names and app paths come from exactly the running apps; scan and resource paths from all apps, in order, with the explicit store path overriding the scan |
| `Fingerprint.ElectionInputs` | cmd/derive.go:29-53 | the loop over running apps |
| `Fingerprint.StateStores` | cmd/derive.go:42-46 | the state-store names of one app |
| `Fingerprint.FingerprintBytes` | cmd/derive.go:96-132 | the bytes hashed are the encoding of the four sorted lists, and equal those of another discovery of clean apps exactly when ids, paths to scan, loaded state stores and running ids agree with their multiplicities |
| `Fingerprint.WriteGroups` | cmd/derive.go:117-132 | the writing loops produce the encoding |
| `Fingerprint.DecodeEncode` | cmd/derive.go:117-132 | the bytes determine the lists when items contain no byte 0 and do not start with byte 1 |
| `Fingerprint.UncleanItemsCollide` | cmd/derive.go:117-132 | both conditions are needed: two colliding pairs |
| `Fingerprint.OrderDoesNotMatter` | cmd/derive.go:85-95 | the same apps in any order have the same lists |
| `Fingerprint.EqualBytesEqualLists` | cmd/derive.go:96-134 | equal bytes come from equal lists |
| `Fingerprint.EqualFingerprintsIff` | cmd/derive.go:96-134 | whatever else changes: fingerprints of clean apps are equal if and only if the multisets of app ids, of resource paths and config files, of state-store names and of running ids, counted from the fields, are |
| `Fingerprint.EqualFingerprintsEqualInputs` | cmd/reconciler.go:643-658 | the gate skips no needed reconcile: apps strictly sorted by id, with paths and stores fixed by id and running state, and equal fingerprints give the same election inputs and scan paths, in the same order |
| `Fingerprint.EqualFingerprintsSameElection` | cmd/reconciler.go:643-658 | so with unchanged files detection finds the same components and the same one is elected |
| `Fingerprint.EqualFingerprintsEqualSets` | cmd/reconciler.go:643-658 | for apps in any order with unique ids, the same inputs and paths as sets |
| `Fingerprint.SwappedAppsFoolTheGate` | cmd/derive.go:85-114 | order is needed: two apps the other way round keep the fingerprint and are scanned the other way round |
| `Fingerprint.SwappedStoresFoolTheGate` | cmd/derive.go:96-114 | a running and a stopped app that swap stores keep the fingerprint and change what is loaded |
| `Lifecycle.SnapshotSurvivesIff` | pkg/lifecycle/overlay.go:78-107 | over one scan a captured snapshot survives if and only if no scanned process outside containers shows its target under a different nonzero PID |
| `Lifecycle.SnapshotLostIff` | pkg/lifecycle/registry.go:31-81 | one operation loses a snapshot if and only if it sees the process restarted, dismisses the key, or captures the target again |
| `Lifecycle.SnapshotSurvivesRun` | pkg/lifecycle/overlay.go:78-107 | over every run without those, the snapshot is still there |
| `Lifecycle.ListExact` | pkg/lifecycle/overlay.go:26-61 | a row is listed if and only if it is not both suppressed and fully stopped, no key twice, and a suppression ends exactly when its key is seen not fully stopped |
| `Lifecycle.EverythingKeys` | pkg/lifecycle/overlay.go:31-40 | one row a key: every live instance, and a ghost for exactly the other entries |
| `Lifecycle.LiveRow` | pkg/lifecycle/overlay.go:85-107 | the row of a scanned instance, field by field: stopped and without pid exactly when its app was stopped and has not come back under another pid |
| `Lifecycle.GhostRow` | pkg/lifecycle/overlay.go:116-144 | the row of an entry without one, field by field |
| `Lifecycle.OutdatedIff` | pkg/lifecycle/overlay.go:87-104 | which snapshots a scanned instance outdates: each target by its own pid, never in a container |
| `Lifecycle.ListedIff` | pkg/lifecycle/overlay.go:41-61 | the same in the two status fields: a row is hidden exactly when suppressed with both Stopped, and a suppressed key with a row in another state is listed and loses its suppression |
| `Lifecycle.ClearedIff` | pkg/lifecycle/manager.go:142-160 | a clear dismisses a key if and only if it is listed with both statuses Stopped |
| `Lifecycle.StopRecords` | pkg/lifecycle/registry.go:31-43 | a stop records the instance and its snapshots over those of earlier stops, and changes nothing else |
| `Lifecycle.DismissedIs` | pkg/lifecycle/manager.go:127-140 | which key a dismissal drops and hides: its own entry's, else that of the first entry by key with that app id, else itself |
| `Lifecycle.EntryStaysListed` | pkg/lifecycle/overlay.go:36-40 | a registry entry that is not suppressed keeps its key listed, live or ghost |
| `Lifecycle.SuppressedReappearsIff` | pkg/lifecycle/overlay.go:41-52 | a suppressed key reappears if and only if it is seen not fully stopped |
| `Lifecycle.SuppressedOnlyByDismissal` | pkg/lifecycle/registry.go:82-97 | only a dismissal suppresses a key |
| `Lifecycle.UndismissedStaysListed` | pkg/lifecycle/overlay.go:26-61 | after every run without a dismissal of it, a key in the registry is listed, exactly once |
| `Lifecycle.ClearIsComplete` | pkg/lifecycle/manager.go:142-160 | ClearInactive and then List on an unchanged scan shows nothing fully stopped |
| `Lifecycle.SecondClearIsEmpty` | pkg/lifecycle/manager.go:142-160 | after every run, a second ClearInactive dismisses nothing |
| `Lifecycle.StopDoesNotUnsuppress` | pkg/lifecycle/registry.go:29-43 | an app dismissed while running and stopped before the next scan has an entry and no row |
| `Lifecycle.Registry.RecordStop` | pkg/lifecycle/registry.go:31-43 | merges the snapshots into the key's entry and replaces its display instance |
| `Lifecycle.Registry.Keys` | pkg/lifecycle/registry.go:117-124 | the sorted keys, from whatever map order |
| `Lifecycle.Registry.Find` | pkg/lifecycle/registry.go:45-58 | own entry first, else the first in key order with that app id |
| `Lifecycle.Registry.DropTarget` | pkg/lifecycle/registry.go:60-73 | one snapshot goes, and the entry with its last one |
| `Lifecycle.ApplyOne` | pkg/lifecycle/overlay.go:85-107 | shown instance and registry after one live instance |
| `Lifecycle.HideSuppressed` | pkg/lifecycle/overlay.go:41-53 | the in-place filter and the suppressions it ends |
| `Lifecycle.ListGhosts` | pkg/lifecycle/overlay.go:36-40 | ghosts of the entries without a live instance, in key order |
| `Lifecycle.ListInstances` | pkg/lifecycle/overlay.go:26-61 | the whole of List: rows and new registry, also in the two status fields, rows in order of app id and key |
| `Lifecycle.DismissKey` | pkg/lifecycle/manager.go:127-140 | resolves the key, drops the entry, suppresses the key |
| `Lifecycle.ClearAllInactive` | pkg/lifecycle/manager.go:142-160 | dismisses every listed row with both statuses Stopped; the count is the number of those rows |
| `Lifecycle.Capture` | pkg/lifecycle/manager.go:203-249 | the snapshot set of a stop: each target the stop may take down, with a nonzero PID and a readable process |
| `Lifecycle.StandaloneStop` | pkg/lifecycle/manager.go:164-266 | refused exactly when there is no process to signal; otherwise the capture is recorded, and nothing for an orphan |
| `Pairing.BuildPairIndex` | web/src/lib/pairing.ts:35-71 | covers exactly the start rows with a valid id and the end rows with a scheduled id; partners are symmetric, start before end, same id; pairs nest per id, nothing unmatched lies inside one, no unmatched start precedes an orphan end, and a pair's duration is the difference of its times unless negative or unknown |
| `Pairing.PairRows` | web/src/lib/pairing.ts:39-62 | the same for the settled rows after the stack loop, with the still open starts on their stacks |
| `Pairing.CloseOne` | web/src/lib/pairing.ts:46-61 | one completion pops the top of its stack, or is left over when there is none |
| `Pairing.PairingIsUnique` | web/src/lib/pairing.ts:24-33 | only one assignment has those properties |
| `Pairing.OneOpenIff` | web/src/lib/pairing.ts:27-31 | no id ever has two open starts if and only if ids are reused only after a completion |
| `LineSplit.LinesUnique` | pkg/logs/tail.go:28-32 | the lines and rest of a text are its only division into newline-free terminated lines and a newline-free rest |
| `LineSplit.LinesRebuild` | pkg/logs/tail.go:83-103 | terminating the lines and adding the rest gives the text back |
| `LineSplit.LinesOfConcat` | pkg/logs/tail.go:79-103 | a text may be cut anywhere if the rest of the first part is carried into the second |
| `LineSplit.BackfillLines` | pkg/logs/tail.go:26-37 | the last backfillLines lines, as many as there are, an unterminated last line included |
| `LineSplit.EmitParts` | pkg/logs/tail.go:83-103 | all parts but the last are sent, the last is carried |
| `LineSplit.PartialLineIsSplit` | pkg/logs/tail.go:28-41 | a partial last line at open and its completion come out as two lines where the file has one |
| `LogTail.Tailer.constructor` | pkg/logs/tail.go:26-41 | the state after open |
| `LogTail.Tailer.Tick` | pkg/logs/tail.go:66-103 | the state after one poll, truncation reset and short reads included |
| `TailRuns.TickRestarts` | pkg/logs/tail.go:66-72 | a truncation seen starts a new base: what follows is the lines of the new file |
| `TailRuns.Follow` | pkg/logs/tail.go:61-106 | ticking the tailer object poll by poll gives the state of the run |
| `TailRuns.EmitsAppendedLines` | pkg/logs/tail.go:54-103 | appended file: emitted is the backfill, then exactly the terminated lines of the appended bytes, carry the rest, however reads cut them |
| `TailRuns.EmitsFileLinesIff` | pkg/logs/tail.go:28-103 | with a backfill of at least the lines there at open, emitted equals the lines of the file if and only if it was empty at open or ended in a newline |
| `TailRuns.CatchesUp` | pkg/logs/tail.go:74-81 | full reads reach the end of a file that stopped growing |
| `TailRuns.ReadsAllIff` | pkg/logs/tail.go:62-90 | where full reads are: all that is there from the offset, or from the start of a shrunken file, up to 32 KiB |
| `News.RunKeepsInv` | pkg/news/news.go:82-152 | the invariant of every run of Get callers |
| `News.SingleFlight` | pkg/news/news.go:88-131 | at most one fetch is in flight, exactly while inflight is set |
| `News.ClosedOnce` | pkg/news/news.go:135-152 | every channel is closed at most once |
| `News.FetchesAreSpaced` | pkg/news/news.go:85-97 | a fetch starts no sooner than ttl after a success or the negative ttl after a failure, and the cache always holds the last good response |
| `News.FetchStartsIff` | pkg/news/news.go:82-131 | a caller starts a fetch if and only if none was ever made, or the last has ended and its pause is over: the ttl after a success, after a failure half of it and at most 30 seconds |
| `News.AnswersWithLastGood` | pkg/news/news.go:82-131 | what callers get is the response of the last fetch that succeeded, if any |
| `News.LastGoodIs` | pkg/news/news.go:138-146 | which response that is |
| `News.SuccessIsServed` | pkg/news/news.go:138-148 | a fetch that succeeds is what is served next |
| `News.FailureKeepsGood` | pkg/news/news.go:138-146 | a failed fetch never changes the last-good response |
| `News.BlocksOnlyWithoutGood` | pkg/news/news.go:99-117 | a caller blocks exactly when nothing good exists and a fetch is under way |
| `News.WaitersProgress` | pkg/news/news.go:108-116 | whoever waits has its channel closed, or the step leading there is possible |
| `News.Service.constructor` | pkg/news/news.go:61-75 | the negative ttl is half the ttl, at most 30 seconds |
| `News.Service.Get` | pkg/news/news.go:82-131 | the critical section of Get equals the machine's step and answer |
| `News.Service.Finish` | pkg/news/news.go:138-148 | the critical section of refresh equals the machine's step |
| `SeedReset.RunKeepsInv` | demo/engineering/control.go:88-184 | the invariant of every interleaving, for all three versions |
| `SeedReset.PendingReadsFalse` | demo/engineering/control.go:85-184 | while an accepted reset has not reseeded, seeded reads false; seeded implies the data is seeded |
| `SeedReset.AtMostOneWorker` | demo/bridge/Seed/DemoController.cs:90-144 | at most one reset worker exists, only while resetting is set |
| `SeedReset.WorkNeverOverlaps` | demo/sickbay/app/seed.py:82-139 | seed and reset work never overlap, nor do two seeds |
| `SeedReset.ReclearIsNoOp` | demo/engineering/control.go:112-115 | the worker's second clearing of seeded changes nothing in any reachable state |
| `SeedReset.NeverJams` | demo/sickbay/app/seed.py:82-149 | whatever is under way, some step other than a new request can be taken, without any worker giving up its wait |
| `SeedReset.SeedCompletes` | demo/engineering/control.go:88-106 | undisturbed, a seed attempt that succeeds runs to its end and leaves seeded set and both mutexes free |
| `SeedReset.RequestStartsWorker` | demo/bridge/Seed/DemoController.cs:90-101 | undisturbed, a request clears seeded, sets resetting and starts its worker |
| `SeedReset.WorkerCompletes` | demo/sickbay/app/seed.py:108-139 | undisturbed, a worker whose attempt succeeds ends with the data seeded again, seeded set, resetting clear and the mutex free, in all three versions |
| `SeedReset.WorkerGivesUp` | demo/engineering/control.go:108-134 | a worker that gives up only clears resetting |
| `SeedReset.Controller.CommitSeed` | demo/engineering/control.go:91-104 | flags after a seed attempt, as the machine's steps |
| `SeedReset.Controller.AcceptReset` | demo/bridge/Seed/DemoController.cs:90-101 | flags after a reset request; it starts a worker exactly when none is pending |
| `SeedReset.Controller.ResetWithRetry` | demo/sickbay/app/seed.py:108-139 | flags after a worker's attempts: resetting clear, seeded exactly when one succeeded |
| `Utf8.TruncateValue` | pkg/state/value.go:32-44 | the longest valid UTF-8 prefix within the cap; for valid text at most three bytes are lost; the flag tells exactly whether anything was cut |
| `Utf8.CutNearBoundary` | pkg/state/value.go:32-44 | every cut of valid text is at most three bytes past a valid prefix |
| `Utf8.ValidIff` | pkg/state/value.go:12-17 | valid text is exactly the encodings of sequences of Unicode scalar values |
| `Base64.RenderLossless` | pkg/state/value.go:9-17 | text exactly for valid UTF-8, and every rendering reads back to its bytes |
| `Base64.RoundTripWith` | pkg/state/value.go:16 | base64 decoding inverts encoding, for any invertible group code |
| `Base64.GroupInverse` | pkg/state/value.go:16 | the standard alphabet and padding are such a code |
| `Base64.AlphabetIsStandard` | pkg/state/value.go:16 | the alphabet, character by character |
| `Base64.ThreeByteBits` | pkg/state/value.go:16 | four characters are the group of three bytes if and only if they hold the same 24 bits |
| `Base64.TwoByteBits` | pkg/state/value.go:16 | two bytes: filled up with zero bits, one padding character |
| `Base64.OneByteBits` | pkg/state/value.go:16 | one byte: two padding characters |
| `Base64.DecodesIff` | web/src/lib/base64.ts:21-30 | which groups decode, padding at the end only |
| `Base64.SpacesAre` | pkg/state/value.go:24 | white space, code point by code point |
| `Base64.CollapseIsJoin` | pkg/state/value.go:24 | however a text is written as words between white space, it collapses to the words with one space between them |
| `Base64.PreviewIs` | pkg/state/value.go:23-30 | the preview is that line, cut to 200 characters and an ellipsis when longer |
| `Base64.PreviewKeepsPrefix` | web/src/lib/base64.ts:21-30 | rendering, the 200-character preview and group-aligned decoding recover exactly the first min(length, 150) bytes |

## Left out

- Reconcile.Reconciler.DeleteStore: the check of the election and the deletion are one step of the method; what can happen between them is `Reconcile.LateDeletionHidesIff`.
- Reconcile.RunKeepsInv: one state component per file, unchanged YAML during a run, a hash that does not collide on the strings hashed in the run (the program keeps 12 hex digits of SHA-256), and detected paths that do not start with `manual:` (they are absolute) are assumptions; secrets resolution and the connection pre-warm and evictions around these operations are not part of this model.
- Fingerprint.EqualFingerprintsEqualInputs: compares the bytes hashed; SHA-256 is taken as injective on them. Two apps with one id are outside it; the files scanned are unchanged. Path joining under the home directory is given as two finished directories.
- Lifecycle.SecondClearIsEmpty: scans are assumed to have distinct keys (two standalone apps with one app id share a key), entries are made only for non-container instances, whose key is their app id; signals, escalation and starting processes are not modelled, nor the display-only fields a ghost blanks out.
- Lifecycle.StandaloneStop: the registry's map is a value replaced as a whole; pointer sharing with callers is not captured (the program hands out clones).
- Pairing.BuildPairIndex: event types are an enumeration and timestamps are parsed beforehand to a number or nothing; the stacks are sequences in a map that the loop replaces rather than arrays it mutates.
- LogTail.Tailer.Tick: bytes are characters; a truncation that regrows past the offset between two polls is not seen, as in the program; cancellation and read errors only end the stream.
- SeedReset.PendingReadsFalse: seeding already seeded data is assumed to keep it seeded; lastErr and deadlines are not modelled.
- News.FetchesAreSpaced: the clock never goes back; the HTTP fetch, the derivation of slots and the UTM tagging are not part of this model.
- SummaryCache.CacheIsTransparent: a writer gives every creation a fresh first entry and rewrites the metadata with every change, as the cache's comment says Dapr does; a summary is a function of the history entries read; the key scan used without usable metadata counts the entries at one moment.
- SummaryCache.TornPut: the run has the metadata read before the first entry; reads key by key may also come the other way round, for which the general statement is `SummaryCache.CanServeStaleIff`.
- SummaryCache.PairsTogetherIff: keys of one chunk are read either by one query or each for itself; a backend's own consistency within one query is assumed.
- WorkflowList.FollowTokens: a load that fails counts as not loadable; the store is fixed while paging; case folding in searches is ASCII only; the namespace resolver and the concurrency of summary loading are left out.
- WorkflowList.List: a page that does not fit what was asked for (a backend ignoring the page size) can be truncated when unfiltered; the statement says so.
- Loader.Load: the two paths are compared on one store state; protobuf decoding is a partial function of bytes. On the scan path a prefix with a backslash gets no promise: without a percent its own keys are not found (`Loader.ScanCoversIff`).
- Loader.ScanCoversIff: leaves out prefixes with a percent, before a backslash of which own keys can be found again.
- Loader.LoadByScan: the later step of a detail request that reports an execution without history and name as not found (`pkg/workflow/service.go:398-400`) is not part of this model.
- StateBrowser.OfferedIffListed: the store is fixed; reading values for the rows is left out beyond their existence.
- ForceDelete.ForceDelete: graceful terminate and purge over HTTP are left out; target resolution is done beforehand.
- Like.EscapeLike: strings are sequences of characters, so search bytes that are not valid UTF-8, each of which the program writes as U+FFFD, are not modelled.
- Like.ListPatternIsLiteral: strings are valid UTF-8, for the same reason; LIKE with backslash escapes is modelled directly, not its translation to other backends.
- Base64.PreviewKeepsPrefix: stops at the decoded bytes; the later collapse of unprintable runs and trimming for display is left out.
- Stats in pkg/workflow/service.go: counting over the same listing would only add easy members.
- HTTP routing, streaming, the pages, container and process discovery, the store backends, file writing of the registry, secrets and self-update: plumbing or unseen libraries.
