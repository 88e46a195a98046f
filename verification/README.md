# Verification of go-cachex

This project models the state machines of go-cachex in Dafny and proves what they are for. Each component is a pair:
a module of values (its state, its atomic steps as functions, and the theorems about whole runs) and a module with a
class whose fields are updated in place, as the Go code does, and whose methods are proved to compute those steps.

| component | values and theorems | updated in place |
|---|---|---|
| Sharded CLOCK cache (`lru_optimized.go`) | `ClockRows`, `ClockRuns`, `ShardCount` | `ClockShard` (linked entries, map, pool), `ShardedCache` |
| Strict LRU with TTL (`lru.go`) | `LruSpec`, `LruRuns` | `LruHandler` |
| Delayed queue (`delay_queue.go`) | `ZSets`, `DelayQueueSpec`, `RetrySpec` | `DelayQueue` |
| Distributed lock (`distributed_lock.go`) | `LockSpec` | `DistributedLock` |
| Singleflight (`cache_builder.go`, `ctxcache.go`, `lru_optimized.go`) | `Singleflight` | `FlightGroup` |
| Durable channel (`durable_channel.go`) | `DurablePipe` | `DurableChannel` |
| Hot-key cache (`hotkey.go`) | `HotKeySpec` | `HotKeyCache` |
| Expiring map (`expiring.go`) | `ExpiringSpec` | `ExpiringHandler` |
| Three-tier K-V cache (`kv_cache.go`) | `KvSpec`, `KvRuns` | `KvCache` |
| ID generator (`id_generator.go`) | `IdSpec` | `IdGenerator` |

`dafny verify dfyconfig.toml` checks everything.

## How the code is modelled

- A locked section, a Redis command and a Lua script are one atomic step each. Concurrency is any interleaving of such
  steps: threads, consumers, handles and workers are unbounded in number, and one that stops simply takes no further
  step.
- The clock is a parameter of every step that reads it. Theorems that need it monotone say so; the delayed queue's
  theorems do not, since its times come from the clients.
- A request to Redis that changes something has a fate: answered, executed but unheard, or not executed. For the lock,
  the K-V cache's writes, the durable channel and the ID generator the methods take it as a parameter; a consumer of the
  delayed queue, which ignores what its acknowledgement and its follow-up answer, is told only whether each was
  executed, and a poll whose reply is lost is a script run that gives nobody a task. Replies of scripts that only read
  are either complete or an error.
- A method of a class runs its own sections and requests one after the other. Where the program lets others in between,
  the module of values has each of them as a step of its own, and its theorems hold for every interleaving; "Left out"
  lists these methods.
- Random or unspecified choices (map iteration order, sampled keys, fresh tokens, recycled entries) are arbitrary.
- The key hash is an arbitrary function to natural numbers. The clock of `lru_optimized.go` is positive, so that a stamp
  of 0 can mean "never".

## What was found

Places where the code does not do what its comments or its callers may expect. Each is stated as a theorem with the
exact condition.

- Delayed queue: a key enqueued again while it is leased sits in both sets, and the acknowledgement of the first
  hand-out deletes the body of the second task (`StepKeepsTidy`, `AckLosesRescheduled`, `RescheduleWhileLeasedIsLost`).
- Delayed queue: the comment at delay_queue.go:743-744 says that requeueStale picks up a failed task even when its
  acknowledgement, retry and burial all fail. That is so when none of them was executed: the lease is still there. The
  task is lost exactly when the acknowledgement was executed and the request after it was not, as when a consumer stops
  between the two or the queue is closed by then (`FailureKeepsTask`, `AckedIsNowhere`, `NowhereStaysNowhere`,
  `HandleTask`).
- Delayed queue: retries are counted and a task is buried once exactly as long as every failing handler still holds its
  lease when it acknowledges, the body has the retry count it was handed, and both its requests are executed
  (`RetryAccounting`, an equivalence over every run; `PromptFailureIsSound` says when a failure is of this kind). A
  handler that outlives its lease while another consumer has the task can bury it twice, or fail without being counted
  (`BuriedTwice`, `CountedOnce`, on the state `TwoPolls` reaches). From right books the burial can always be reached
  (`BurialCanBeReached`).
- CLOCK cache: a new entry is evicted by its own write when every other entry has been read since the last scan
  (`NewRowIsVictim`, `StoreThenLookup`); that is the price of the second chance (`HitSurvivesNextWrite`).
- Strict LRU: a value of more than 100 MiB is accepted and served as nil, in a batch as an empty slice (`NeverLies`).
- Distributed lock: before its end a reservation is lost exactly at the holder's own executed Unlock, or executed Extend
  to an earlier end, even if the holder heard an error (`ReservationHolds`, `UnheardExtendGivesBack`); from every such
  step the run can go on so that another handle locks before that end (`GivingBackLetsOthersIn`).
- Hot-key cache: the one step that makes eviction other than first in, first out is setting a key that is not live but
  still has an entry in the order (`StepKeepsAscending`, an equivalence; `RunsAscend`, `VictimsAreOldest` over whole
  runs). A key deleted and set again keeps its old place and is evicted as if it were old (`ResetKeyIsEvictedFirst`).
- Durable channel: a pop that Redis executes but the consumer does not hear of loses the message; without one the pipe
  is an exact queue, and with one it is not (`ExactFifo`, an equivalence over every run).
- Expiring map: GetTTL does not test expiry, so it reports a negative time until the sweeper comes by
  (`TimeLeftSeesSweeping`). The comment at expiring.go:169 says that ttl <= 0 does not expire; the code lets ttl 0 expire
  at once, and the model follows the code.
- K-V cache: a write that takes place between a read's load and its filling of the tiers is undone by the read: the
  older value is put back, although every request was executed (`OvertakenFill`); two writes of one key that cross leave
  the hash with the older one (`CrossedSets`). On the keys nobody is writing, the tiers agree with the source all along
  exactly when no step puts in, or leaves at the end of a write, a pair the source no longer has (`RunsAgree`, an
  equivalence over every interleaving; `PromptFillsAreSound` and `LoneWritesAreSound` say which reads and writes are
  never the cause, `WrongShows` that a wrong key is served wrong).
- K-V cache: a string value that is itself a JSON string literal loses its quotes on the way through Redis
  (`StringSafe`, `QuotedStringIsUnsafe`); a write or deletion that Redis did not get leaves the older field to be read
  later (`SetAgrees`, `DeleteAgrees`).
- ID generator: an expiry below one second becomes a time to live of 0 (`ZeroTTLRepeats`); a batch that creates a key
  with a start of at most 1 gives it no time to live at all (`FreshRunIsConsecutive`).

## Model

| member | source | states |
|---|---|---|
| ClockShard.Shard.AddToHead | lru_optimized.go:258-263 | links one unlinked entry first; the two-way chain between the sentinels stays one duplicate-free sequence, and its rows are the old ones behind the new one |
| ClockShard.Shard.RemoveEntry | lru_optimized.go:266-269 | unlinks exactly the given entry, the others keeping their order and both their links |
| ClockShard.Shard.MoveToHead | lru_optimized.go:272-275 | the entry leads, the others keep their order, no node is lost |
| ClockShard.Shard.RemoveTail | lru_optimized.go:278-285 | unlinks the last entry, or answers null on an empty list |
| ClockRows.ScanClosedForm | lru_optimized.go:287-313 | as many scan rounds as there are rows end in a closed form: the victim is the last row whose bit is 0, the rows behind it lead with their bits cleared, and the rows before it follow untouched; with every bit 1 the last row goes |
| ClockShard.Shard.EvictVictim | lru_optimized.go:296-313 | the pointer loop terminates, leaves the closed form of the scan, unlinks the victim and nothing else, and gets past its loop to the fallback exactly when no bit is 0 |
| ClockRows.EvictionTakesVictim | lru_optimized.go:287-313 | after an eviction a key is there if and only if it was there and is not the victim's |
| ClockRows.EvictionOnlyOld | lru_optimized.go:287-313 | what an eviction leaves are old rows, at most with a cleared bit |
| ClockRows.EvictionClearsPassed | lru_optimized.go:299-307 | the scan takes away the mark of exactly the rows it passes |
| ClockRows.NewRowIsVictim | lru_optimized.go:487-522 | a write that evicts meets a row whose bit is 0, its own, and that new row is itself the victim exactly when every other bit is 1 |
| ClockRows.StoreWithinCapacity | lru_optimized.go:472-525 | a write always frees a slot: the shard stays within its capacity with distinct keys |
| ClockRows.StoreKeeps | lru_optimized.go:472-525 | exactly which keys are there after a write: all but the victim, and the written key unless it is the victim |
| ClockRows.StoreOnlyWrites | lru_optimized.go:472-525 | a write changes nothing stored under another key |
| ClockRows.StoreThenLookup | lru_optimized.go:352-405 | Set then Get: hits the written value exactly when the entry survived its own write and is unexpired |
| ClockRows.WriteLeads | lru_optimized.go:472-512 | a write that evicts nothing puts its row first, marked exactly if the key was there, and leaves the others in order |
| ClockRows.TouchMarks | lru_optimized.go:383-404 | a read that hits marks its row, a read that misses none, and nothing else changes |
| ClockRows.MarkedSurvives | lru_optimized.go:296-313 | second chance: a write never evicts another key whose row is marked |
| ClockRows.HitSurvivesWrite | lru_optimized.go:383-525 | a key that a read has hit reads the same after the next write of any other key, however full the shard |
| ClockRows.PurgeAndDelete | lru_optimized.go:373-381 | a purge removes the key exactly when a read would miss it, a deletion always, and no other row goes |
| ClockRows.TimeLeftWhenReadable | lru_optimized.go:408-441 | GetTTL reports a time exactly when Get would hit, except in the one instant at the stamp itself |
| ClockRows.TimeLeftIsExact | lru_optimized.go:430-440 | the time GetTTL reports is exact: the key is readable until that much later and no longer, 0 means for ever |
| ClockShard.IndexedInsert | lru_optimized.go:510-512 | mapping a new key to a new first entry keeps map and list in bijection by key |
| ClockShard.IndexedEviction | lru_optimized.go:515-522 | unmapping the victim's key keeps map and list in bijection by key |
| ClockShard.IndexedWithout | lru_optimized.go:542-547 | unmapping one listed key keeps map and list in bijection by key |
| ClockShard.Unlinked | lru_optimized.go:266-269 | the neighbours of an inner node of a chain, and what is left without it |
| ClockShard.Shard.NewEntry | lru_optimized.go:242-255 | an entry from the recycle pool is never a listed one and comes with its bit at 0 |
| ClockShard.Shard.Read | lru_optimized.go:359-404 | the read-locked half of Get computes the answer and the marking of the row model, keeping the invariant |
| ClockShard.Shard.PurgeIfExpired | lru_optimized.go:373-381 | the write-locked recheck removes the key's entry exactly when it is still expired, keeping the whole heap invariant |
| ClockShard.Shard.Overwrite | lru_optimized.go:472-485 | a write that finds its key overwrites it in place, raises its bit and moves it first |
| ClockShard.Shard.Insert | lru_optimized.go:487-512 | a write of a new key fills a clean entry, maps and lists it first, size grows by one |
| ClockShard.Shard.Evict | lru_optimized.go:514-522 | the capacity branch: exactly the scan's victim is unmapped, unlinked and recycled |
| ClockShard.Shard.Put | lru_optimized.go:469-525 | the locked section of SetWithTTL computes the write of the row model, keeps the invariant (links, map, size, capacity and pool), and never reaches the scan's fallback |
| ClockShard.Shard.Remove | lru_optimized.go:539-549 | the locked section of Del computes the row model's deletion and keeps the invariant |
| ClockShard.Shard.Clear | lru_optimized.go:581-589 | the emptying loop, in any map order, leaves a valid empty shard with every entry recycled |
| ShardCount.MaskIsMod | lru_optimized.go:236-239 | masking with a power of two minus one is the remainder |
| ShardCount.ChooseShards | lru_optimized.go:166-193 | both doubling loops stop at the least power of two that meets its bound or the cap, and the slots together are between the limit and the limit plus the shard count less one |
| ShardedCache.LRUOptimizedHandler.constructor | lru_optimized.go:163-210 | a new handler has disjoint, valid, empty shards of one capacity and an empty history |
| ShardedCache.LRUOptimizedHandler.GetShard | lru_optimized.go:236-239 | the masked hash is hash mod shard count and always an index |
| ShardedCache.LRUOptimizedHandler.TotalBound | lru_optimized.go:192-196 | in every valid state all entries together are at most the limit plus the shard count less one |
| ShardedCache.TotalAtMost | lru_optimized.go:514-522 | shards within a capacity hold at most count times capacity entries together |
| ShardedCache.LRUOptimizedHandler.Set | lru_optimized.go:449-525 | validation order; otherwise the write enters the handler's history, which every valid state is the outcome of |
| ShardedCache.LRUOptimizedHandler.Get | lru_optimized.go:352-405 | the answer of the key's shard; its sections enter the history; and a hit is the key's last write there, unexpired, if the clock has not run backwards |
| ShardedCache.LRUOptimizedHandler.GetTTL | lru_optimized.go:408-441 | validation and the time left of the key's last write in the history, changing nothing |
| ShardedCache.LRUOptimizedHandler.Del | lru_optimized.go:528-550 | validation; otherwise the deletion enters the history |
| ShardedCache.LRUOptimizedHandler.Clear | lru_optimized.go:575-590 | every shard is emptied unless the handler is closed, one section of the history for each shard |
| ShardedCache.LRUOptimizedHandler.Close | lru_optimized.go:553-571 | the first call empties all shards so, later calls do nothing |
| ShardedCache.LRUOptimizedHandler.BatchGet | lru_optimized.go:593-673 | each position is answered as Get would in this state, so that hits are last writes, for any order of the shard groups and repeated keys, with no access bit raised |
| ShardedCache.LRUOptimizedHandler.HitsAreLastWrites | lru_optimized.go:352-550 | in every valid state: a hit is the value of the key's last write in the handler's history, unexpired, if the clock has not run backwards |
| ClockRuns.NeverLies | lru_optimized.go:352-550 | over any run with a monotone clock, a hit is the value of the key's last write that no later Del, Clear or Close undid, and that write is unexpired |
| ClockRuns.RunsAreHonest | lru_optimized.go:352-550 | every reachable row is its key's last write |
| ClockRuns.ExactWithoutEviction | lru_optimized.go:352-550 | in a run without evictions a read hits exactly when the last write is live |
| ClockRuns.StepKeeps | lru_optimized.go:449-550 | the only steps that lose a live row are deletion, emptying and eviction |
| ClockRuns.HitSurvivesNextWrite | lru_optimized.go:352-525 | over runs: after a Get that hits, the next write of another key to the shard does not evict the key, whatever happens before that but its removal |
| ClockRuns.TimeLeftOfLastWrite | lru_optimized.go:408-441 | over runs: GetTTL reports what is left of the time given by the key's last write, which is live |
| ClockRuns.RemovedIsGone | lru_optimized.go:373-381 | over runs: a purge after expiry, a deletion and an emptying leave nothing of the key |
| LruSpec.StepOk | lru.go:144-325 | every operation keeps the list duplicate-free, in step with the map and within the capacity |
| LruSpec.SortedByLastUse | lru.go:144-325 | in every reachable state the list is sorted by last use, so what a write over capacity drops is the least recently used key |
| LruSpec.BiggerNeverLosesHits | lru.go:58-325 | two handlers of capacities n at most m fed the same operations: every hit of the smaller is the same hit of the larger, time left included |
| LruSpec.RunWithin | lru.go:58-325 | the smaller list is a subsequence of the larger with equal items, and shorter by at most m - n |
| LruSpec.StepWithin | lru.go:144-325 | one operation keeps that relation |
| LruSpec.TrimWithin | lru.go:247-255 | the larger cache never evicts a key the smaller keeps |
| LruRuns.NeverLies | lru.go:144-325 | over any run: a Get or batch hit is the value of the key's last Set not undone by a Del, still within its ttl (nil, in a batch empty, above 100 MiB), and GetTTL reports what is left of that ttl |
| LruRuns.ItemsAreLastSets | lru.go:196-258 | everything stored has the value and the lifetime of its key's last Set |
| LruRuns.StepKeepsKey | lru.go:144-325 | a key goes exactly by a Del, by an operation that reads it after its time, or by a Set of a new key when the cache is full and the key is last |
| LruRuns.EvictsLeastRecent | lru.go:247-255 | what is evicted was used less recently than everything else |
| LruRuns.ExactWithoutEviction | lru.go:144-258 | in a run that never evicts the key, a Get hits exactly when its last Set is live |
| LruHandler.LRUHandler.PurgeExpired | lru.go:87-99 | removes the element from list and map exactly when it is expired |
| LruHandler.LRUHandler.Get | lru.go:144-162 | validation; the operation enters the history that every valid state is the outcome of; and a hit is the key's last Set there, live, if the clock has not run backwards |
| LruHandler.LRUHandler.GetTTL | lru.go:165-188 | what is left of the time given by the key's last Set in the history, with the lazy purge and without promotion |
| LruHandler.LRUHandler.Set | lru.go:196-258 | validation order; otherwise the write enters the history |
| LruHandler.LRUHandler.Del | lru.go:259-275 | validation; otherwise the deletion enters the history |
| LruHandler.LRUHandler.BatchGet | lru.go:278-325 | position after position as single rounds on the evolving state, the empty key refused |
| LruHandler.LRUHandler.Close | lru.go:389-399 | drops everything once |
| ZSets.RangeIsFirst | delay_queue.go:201-204 | a range query answers the first members by score and then member, as many as there are and the limit allows |
| ZSets.ZRangeByScore | delay_queue.go:201-204 | evaluating the query member by member gives exactly that answer |
| ZSets.LeastExists | delay_queue.go:201-204 | score and member order every non-empty due set, so the query's next member exists |
| DelayQueue.DelayQueueStore.EnqueueAt | delay_queue.go:317-348 | refusals; otherwise the key is ready at the given time with this task, whatever was there before |
| DelayQueue.DelayQueueStore.DequeueScript | delay_queue.go:193-221 | due members move to processing until visibleAt and the bodies found are the reply; no body at all replies false |
| DelayQueue.DelayQueueStore.AckScript | delay_queue.go:225-234 | removes the lease and, only if there was one, the body |
| DelayQueue.DelayQueueStore.RequeueScript | delay_queue.go:239-258 | overdue leases become ready at now |
| DelayQueue.DelayQueueStore.PollScript | delay_queue.go:263-299 | poll equals requeueStale followed by dequeue, in state and in reply |
| DelayQueue.DelayQueueStore.CancelScript | delay_queue.go:302-311 | removes the key from both sets and the bodies, and counts the sets it was in |
| DelayQueue.DelayQueueStore.HandleTask | delay_queue.go:730-771 | success acknowledges; failure acknowledges, then buries or re-enqueues with one more retry; each request may go unexecuted, and a re-enqueue the queue refuses is not sent |
| DelayQueue.DelayQueueStore.PutBackRefused | delay_queue.go:706-721 | a task the pool refuses is acknowledged and ready again at once, its retry count unchanged; each request may go unexecuted |
| DelayQueueSpec.LeaseExclusive | delay_queue.go:178-299 | between two hand-outs of a key, in any run, lies an enqueue of it or a poll or requeueStale at a time not before the first lease's end |
| DelayQueueSpec.LeaseKept | delay_queue.go:193-299 | a handed-out key stays leased until then |
| DelayQueueSpec.NoBodyStranded | delay_queue.go:178-311 | in every reachable state each stored body belongs to a ready or leased key |
| DelayQueueSpec.StepKeepsTidy | delay_queue.go:178-311 | ready and processing stay disjoint and together equal the bodies' keys exactly unless the step enqueues a leased key |
| DelayQueueSpec.RunsStayTidy | delay_queue.go:178-311 | hence over every run that never does that |
| DelayQueueSpec.AckLosesRescheduled | delay_queue.go:225-234 | an ack leaves a ready key without its body exactly when the key was ready and leased at once |
| DelayQueueSpec.BodilessYieldsNothing | delay_queue.go:206-215 | a key without a body is never part of a reply |
| DelayQueueSpec.RescheduleWhileLeasedIsLost | delay_queue.go:176-234 | a concrete run: enqueue, poll, enqueue again, ack, and the second task is gone |
| DelayQueueSpec.PollProgress | delay_queue.go:263-299 | a poll hands out min(pending, batch) keys once each, in order, and the rest stays pending |
| DelayQueueSpec.PollsDrain | delay_queue.go:263-299 | n polls at one time hand out exactly min(p, n * batch) of p pending keys, no key twice |
| DelayQueueSpec.PollReplies | delay_queue.go:263-299 | in a tidy queue the reply is the bodies of the handed-out keys, in that order |
| DelayQueueSpec.AckedIsNowhere | delay_queue.go:225-234 | after an executed acknowledgement nothing of a leased task is in a tidy queue, so a consumer that stops there loses it |
| DelayQueueSpec.NowhereStaysNowhere | delay_queue.go:239-299 | and no script but an enqueue of it brings it back |
| DelayQueueSpec.NowhereIsNotHandedOut | delay_queue.go:193-299 | and nobody is handed it before that |
| DelayQueueSpec.CancelledIsNowhere | delay_queue.go:302-311 | a cancelled key is in no set and has no body, waiting or leased as it was, and no other key and no dead task is touched |
| DelayQueueSpec.CancelledIsNotHandedOut | delay_queue.go:302-311 | over any run after a cancellation nobody is handed the key until somebody enqueues it |
| DelayQueueSpec.EnqueueSchedules | delay_queue.go:175-187 | an enqueue makes the key due exactly from the given time on, with the given body, whatever was there before; nothing else is touched, not even a lease |
| DelayQueueSpec.AckTouches | delay_queue.go:225-234 | an acknowledgement touches one key, only if it is leased, and never its place in ready |
| DelayQueueSpec.MovedKeys | delay_queue.go:193-258 | a requeued key is ready exactly from then on, a handed-out one leased until visibleAt, and all others stay where they are |
| RetrySpec.FailureKeepsTask | delay_queue.go:740-770 | after a failure the task is still stored and listed, or newly buried, exactly when the acknowledgement was not executed or the follow-up was; when neither was, nothing changed and the lease can be reclaimed |
| RetrySpec.FollowUps | delay_queue.go:750-789 | a refused task is due at once as it was; a failed one base * 2^(retries+1) later with one more retry, or first among the dead; no other key is touched |
| RetrySpec.DataIsKept | delay_queue.go:696-806 | over any run: what a task carries is what was enqueued, in the queue, in every hand and among the dead |
| RetrySpec.HappeningAccounted | delay_queue.go:696-806 | for any number of consumers: one step keeps the books of an always failing task right (its count, its places, its burials) exactly when an acknowledgement of it was executed on its lease with the hand's own count, or a follow-up was executed |
| RetrySpec.RetryAccounting | delay_queue.go:696-806 | over every run of scripts, hand-outs, failures and refusals the books are right all along exactly when every step on the task was of that kind |
| RetrySpec.RightBooks | delay_queue.go:750-759 | what right books mean: at most maxRetries + 1 failures, and buried exactly after that many, once, with the count at the limit and nothing left in the queue |
| RetrySpec.BurialCanBeReached | delay_queue.go:696-806 | every run with right books can go on, with right books, to the burial after maxRetries + 1 failures |
| RetrySpec.HandOutStands | delay_queue.go:193-299 | a hand-out leaves the task leased until its own visibleAt with the body it handed out, and a new hand works on that body |
| RetrySpec.PromptFailureIsSound | delay_queue.go:239-299 | after a hand-out, as long as no other hand acts on the task and no poll or requeueStale comes at or after the lease's end, the failure's acknowledgement is of that kind |
| RetrySpec.TwoPolls | delay_queue.go:263-299 | a concrete run: one task is polled, its lease runs out, and a second poll hands it out again |
| RetrySpec.BuriedTwice | delay_queue.go:743-754 | there both handlers fail at the limit, and the task is in the dead queue twice |
| RetrySpec.CountedOnce | delay_queue.go:743-762 | below the limit both fail, and the task is on its first retry |
| RetrySpec.DelaysDouble | delay_queue.go:756-762 | over every run with right books the r retries so far were scheduled base * (2^(r+1) - 2) ahead of their failures in sum, and a buried task's maxRetries retries likewise |
| DistributedLock.DistributedLock.TryLock | distributed_lock.go:132-180 | Acquired exactly if the store answered the handle's own token, or else SET NX was answered and the key was free; then the store holds the handle's token, else the handle is no holder; a taken key stays as it is |
| DistributedLock.DistributedLock.Unlock | distributed_lock.go:215-255 | the compare-and-delete and its reply; NoError means that exactly this key is gone; the handle is no holder in any case |
| DistributedLock.DistributedLock.Extend | distributed_lock.go:258-300 | the compare-and-pexpire and its reply; the handle stays a holder exactly on NoError, with the new deadline |
| DistributedLock.DistributedLock.IsLocked | distributed_lock.go:303-330 | true exactly on an answered match; a mismatch resets, an error does not |
| LockSpec.StepKeepsValid | distributed_lock.go:132-330 | tokens stay unique per handle, and a handle in lease owns its key in the store |
| LockSpec.OnlyTheOwnerChanges | distributed_lock.go:215-300 | Unlock and Extend of a non-owner leave the store as it is; an owner's Unlock frees its key, its Extend sets the deadline, and no other key is touched |
| LockSpec.LockingMeansOwning | distributed_lock.go:132-180 | either half of a TryLock returns true exactly when it leaves the handle a holder, and then the store holds its token |
| LockSpec.WhatTheHandleBelieves | distributed_lock.go:215-330 | after Unlock the handle is no holder; after Extend and IsLocked it is one exactly if it was and the answer confirmed it (IsLocked keeps it on an error) |
| LockSpec.OneLeasePerKey | distributed_lock.go:132-300 | no two handles hold one key in lease |
| LockSpec.LockExcludes | distributed_lock.go:132-180 | a TryLock returns true only when no other handle is in lease on the key |
| LockSpec.LeaseSpans | distributed_lock.go:132-300 | from a successful acquire or extend for its time, unless the handle lets go, the handle is in lease throughout |
| LockSpec.ReservationHolds | distributed_lock.go:132-300 | before its end, a key reserved for a token is lost at a step exactly when the step is the holder's own executed Unlock, or executed Extend to an earlier end |
| LockSpec.LockSafety | distributed_lock.go:132-300 | from a successful acquire or extend for its time, unless the handle so gives time back, no distinct handle's TryLock on the key returns true, over all interleavings, lost replies included |
| LockSpec.GivingBackLetsOthersIn | distributed_lock.go:215-300 | the converse over runs: after any step that gives time back the run can go on so that another handle's TryLock returns true before the reservation's end |
| LockSpec.UnheardExtendGivesBack | distributed_lock.go:258-300 | a concrete run showing that an executed but unheard shorter Extend ends the guarantee early |
| LockSpec.AcquireOpensSection | distributed_lock.go:132-180 | a TryLock that returns true opens a critical section that lasts the handle's ttl unless it gives time back |
| LockSpec.SectionExcludes | distributed_lock.go:258-300 | while a section lasts, its handle extending and hearing only some of the replies, no other handle's TryLock on the key returns true |
| LockSpec.SectionsNeverOverlap | distributed_lock.go:621-636 | two sections of distinct handles on one key, each counted from the TryLock that opened it, never overlap |
| LockSpec.RunsStayValid | distributed_lock.go:132-330 | the invariant holds in every reachable world |
| Singleflight.StepKeepsValid | cache_builder.go:204-239 | every step of any number of threads keeps the flight invariant, for removal at once and by timer |
| Singleflight.OneLoaderPerKey | ctxcache.go:205-236 | at most one loader per key is running |
| Singleflight.JoinsTheCallInFlight | cache_builder.go:204-223 | who finds a call in flight joins it and starts nothing; who finds none starts one, or on the fast path goes on to try |
| Singleflight.TimerFindsItsOwnCall | cache_builder.go:225-235 | the delayed delete by key finds the call that set it, never a newer one |
| Singleflight.CompletionFindsItsOwnCall | ctxcache.go:227-233 | so does the delete on completion |
| Singleflight.NoKeyIsStuck | cache_builder.go:204-239 | every call in the map has a timer or a thread that will remove it |
| Singleflight.SharedReply | lru_optimized.go:737-775 | waiters of one call that did not give up return one reply |
| Singleflight.RepliesComeFromLoaders | cache_builder.go:225-238 | every published reply is what that call's loader produced |
| Singleflight.WaiterGetsItsCallsReply | ctxcache.go:205-236 | over any run a waiter that does not time out returns precisely the result of the call it joined, for its key |
| FlightGroup.Group.DoBegin | ctxcache.go:206-223 | the first locked section: join the call under the key or store a new one, as the specification's step |
| FlightGroup.Group.DoEnd | ctxcache.go:228-235 | the second locked section: publish, close and remove |
| FlightGroup.Group.LoadOrStoreCall | cache_builder.go:212-223 | the second chance to join before storing |
| FlightGroup.Group.FireTimer | cache_builder.go:231-233 | the timer, which knows only its key, removes what is there, and that is the call that set it |
| DurablePipe.RunsStayInOrder | durable_channel.go:560-657 | PersistSync producer and one worker, from any backlog and through recovery: sent = popped + list and what arrived = received + buffer + hand, in order, at every step; the recovery's put-back never happens |
| DurablePipe.ExactFifo | durable_channel.go:560-657 | sent = received + buffer + hand + list at a point of a run exactly when no pop before it was executed unheard |
| DurablePipe.StepKeepsOrder | durable_channel.go:560-607 | one step keeps these equations, lost pops and failed recovery pops included |
| DurablePipe.ReceivedIsPrefix | durable_channel.go:290-374 | what was received is a prefix of what arrived, and of what was sent if no pop was lost; all of it once nothing is on the way |
| DurablePipe.RunsStayBalanced | durable_channel.go:290-374 | Hybrid and Async, from any backlog, with recovery and any number of workers: the pipe and what was lost together hold every accepted message once, once more if both its writes took place, and each message of a write executed unheard |
| DurablePipe.ReceivedOnceOrTwice | durable_channel.go:352-369 | when drained, receptions and losses of a message add up to that, so without lost pops and unheard writes each accepted message was received once or twice |
| DurablePipe.MovesKeepCount | durable_channel.go:560-607 | workers, recovery and receivers neither lose nor copy a message, but for a pop executed unheard, which is counted |
| DurableChannel.Channel.RecoverMessages | durable_channel.go:613-657 | a failed LLEN changes nothing; else messages move in order until a pop fails, which loses its message if it was executed, or until list or buffer size is reached; the put-back needs a buffer already in use, and may fail |
| DurableChannel.Channel.Send | durable_channel.go:290-374 | the three modes, for every fate of the write and a cancelled wait |
| DurableChannel.Channel.WorkerRound | durable_channel.go:578-597 | one pull and push keep the order, for every fate of the pop |
| DurableChannel.Channel.constructor | durable_channel.go:239-287 | recovery precedes the workers and only consumers recover |
| HotKeySpec.RunsStayCovered | hotkey.go:165-298 | in every reachable state each live key is in the insertion order |
| HotKeySpec.EvictExactly | hotkey.go:393-409 | a walk over a covered order, stale and repeated entries included, removes exactly the wanted number of live keys and leaves a covered suffix |
| HotKeySpec.CleanupMeetsQuota | hotkey.go:378-416 | in every reachable state an over-limit tick removes exactly a fifth of the live keys, at least one, nothing else, and the order left is a suffix |
| HotKeySpec.CleanupsReachLimit | hotkey.go:378-416 | repeated ticks reach the limit and never empty the cache |
| HotKeySpec.ItemsAreLastValues | hotkey.go:124-256 | over any run: a live key's item is the value of its last Set, or of the last map that replaced everything, unless deleted since; and it is live unless a cleanup took it |
| HotKeySpec.StepKeepsAscending | hotkey.go:216-228 | a step keeps the order sorted by insertion, each key listed once, exactly unless it sets a key that is not live and still has an entry |
| HotKeySpec.RunsAscend | hotkey.go:165-298 | hence over every run without such a step, deletions included |
| HotKeySpec.DeleteFreeRunsAscend | hotkey.go:216-228 | runs without deletions are of this kind |
| HotKeySpec.VictimsAreOldest | hotkey.go:393-409 | in such runs, whatever stale entries the walk passes, no key that goes was inserted after one that stays |
| HotKeySpec.ResetKeyIsEvictedFirst | hotkey.go:216-256 | a concrete run: a key deleted and set again is evicted first although it is the newest |
| HotKeyCache.HotKeyCache.Fill | hotkey.go:231-240 | the refill loop, in any map order, lists every key once |
| HotKeyCache.HotKeyCache.LoadAll | hotkey.go:165-213 | the Redis value if readable, else the loader's; the answer replaces the local state and stamps the refresh time, a failed or empty load leaves both alone |
| HotKeyCache.HotKeyCache.Get | hotkey.go:124-143 | a local hit is the key's last value in the history and changes nothing; a miss answers from what LoadAll returned and leaves what it leaves |
| HotKeyCache.HotKeyCache.GetAll | hotkey.go:146-162 | within the refresh interval the local map is the answer and nothing changes; later it is LoadAll |
| HotKeyCache.HotKeyCache.Set | hotkey.go:216-224 | the write enters the history that every valid state is the outcome of |
| HotKeyCache.HotKeyCache.Delete | hotkey.go:248-252 | the deletion enters the history; the order is left alone |
| HotKeyCache.HotKeyCache.CleanupTick | hotkey.go:384-409 | over the limit one tick removes a fifth of the live keys, at least one; it enters the history |
| HotKeyCache.HotKeyCache.EvictOldest | hotkey.go:393-409 | the loop with its counter and rebuilt order computes the walk |
| ExpiringSpec.SweepingIsInvisible | expiring.go:60-125 | for every interleaving and every choice of swept keys, all Get and BatchGet answers equal those of the run without sweeps and lazy deletes |
| ExpiringSpec.GetTellsLastWrite | expiring.go:193-217 | a Get answers the value of the last Set before its read section, exactly while it is within its ttl by the clock at the end, whatever happens between its sections |
| ExpiringSpec.BatchTellsLastWrites | expiring.go:250-292 | every batch position answers its key's last Set, exactly while it is within its ttl |
| ExpiringSpec.ItemsAreLastWrites | expiring.go:170-217 | the map is the last writes less some that have expired |
| ExpiringSpec.TimeLeftSeesSweeping | expiring.go:220-235 | GetTTL differs from the unswept run exactly when the key's last write has expired and the entry is gone |
| ExpiringSpec.TimeLeftOfLastSet | expiring.go:220-235 | GetTTL reports exactly what is left of the ttl of the key's last Set, 0 for one without end |
| ExpiringSpec.ZeroTTLThenSweep | expiring.go:170-235 | a concrete pair of runs in which GetTTL sees a sweep |
| ExpiringHandler.ExpiringHandler.Set | expiring.go:170-190 | validation order (closed before value and ttl) and the stored expiry |
| ExpiringHandler.ExpiringHandler.Get | expiring.go:193-217 | the answer, and the second look that deletes only a still expired entry |
| ExpiringHandler.ExpiringHandler.GetTTL | expiring.go:220-235 | the time left, negative for an expired entry that is still there |
| ExpiringHandler.ExpiringHandler.Del | expiring.go:238-247 | removes the key |
| ExpiringHandler.ExpiringHandler.BatchGet | expiring.go:250-292 | each position against one clock reading, the empty key refused |
| ExpiringHandler.ExpiringHandler.SweepSample | expiring.go:109-125 | looks at min(limit, size) entries of any choice and removes exactly the expired ones among them |
| ExpiringHandler.ExpiringHandler.SweepIncremental | expiring.go:90-105 | 1 to 16 rounds of at most 256 entries; stops early exactly on an empty or sparse sample or a passed deadline; removes only what had expired at the last scan made, and everything expired at the start when all fits one sample |
| ExpiringHandler.SweptFacts | expiring.go:90-125 | by induction over the rounds: what they remove had expired by the last of their scans |
| KvSpec.ReadsAreTransparent | kv_cache.go:373-518 | if the tiers agree with the source, a read answers exactly the source restricted to the keys, even with Redis unreadable, unless the loader is needed and fails |
| KvSpec.ReadsKeepAgreement | kv_cache.go:373-518 | back-filling keeps the agreement when no write comes between |
| KvSpec.ReadsWarmTheLocalMap | kv_cache.go:373-518 | what a read answers is in the local map afterwards, and everything else stays |
| KvSpec.ReadsWarmTheHash | kv_cache.go:499-518 | what a read answers was in a tier or is in the hash afterwards, if the request got there |
| KvSpec.GetIsGetManyOfOne | kv_cache.go:373-495 | Get is GetMany of one key, in answer and effect |
| KvSpec.SetAgrees | kv_cache.go:521-583 | a write keeps the agreement with the updated source exactly when it reached Redis with values that survive encoding, or failed over no differing older field |
| KvSpec.DeleteAgrees | kv_cache.go:634-680 | a deletion keeps it exactly when it reached Redis or nothing readable was there |
| KvSpec.WritesTouchTheirKeys | kv_cache.go:521-680 | a write is read back whatever became of its request, a deletion takes the key away, and no other key is touched |
| KvRuns.StepSettles | kv_cache.go:373-680 | for any number of reads and writes, each in separate sections and requests: a step keeps the agreement, on the keys nobody is writing, exactly when it puts in no pair the source no longer has and, ending a write, leaves none |
| KvRuns.RunsAgree | kv_cache.go:373-680 | over every interleaving of such reads and writes of values that survive their encoding, with lost writes, invalidation and expiry, the tiers agree all along on those keys exactly when every step is of that kind |
| KvRuns.QuietReadsTellTheSource | kv_cache.go:373-518 | in such a run a read whose keys nobody was writing meanwhile answers exactly what the source has, unless its loader failed |
| KvRuns.PromptFillsAreSound | kv_cache.go:383-418 | a pair loaded, or fetched while nobody was writing its key, goes into local map and hash soundly as long as nobody has written the key since |
| KvRuns.LoneWritesAreSound | kv_cache.go:521-680 | an executed write ends soundly on a key that no other write touched and no read filled after it had |
| KvRuns.WrongShows | kv_cache.go:373-420 | a key that is wrong in a tier is answered wrong, at once or after the local map has lost it |
| KvRuns.OvertakenFill | kv_cache.go:409-411 | a concrete run from any world: load, a whole Set, fill; every request is executed and later reads answer the older value |
| KvRuns.CrossedSets | kv_cache.go:521-546 | a concrete run from any world: two Sets of one key cross and the hash keeps the older value |
| KvRuns.ReadAlone | kv_cache.go:426-518 | the steps of a GetMany with nothing in between are the one-step read, answer and tiers |
| KvRuns.WriteAlone | kv_cache.go:521-680 | the steps of a Set or Delete with nothing in between are the one-step write |
| KvSpec.UnsafeValueComesBackChanged | kv_cache.go:338-370 | every value that does not survive its encoding is served changed after the local copy is lost |
| KvSpec.StringSafe | kv_cache.go:338-370 | a string survives exactly when it has no leading quote, or is not JSON, or means itself |
| KvSpec.QuotedStringIsUnsafe | kv_cache.go:356-362 | the quoted string "x" reads back as x |
| KvCache.KVCache.EncodeAll | kv_cache.go:748-757 | all values encoded, or none written |
| KvCache.KVCache.WriteManyToRedis | kv_cache.go:744-761 | one script run writes all fields or none; errors as the caller hears them |
| KvCache.KVCache.Get | kv_cache.go:373-420 | local, then hash, then loader, with the back-fills of each |
| KvCache.KVCache.FillFromHash | kv_cache.go:467-488 | fields that decode fill the local map, the others stay missed, order and repetitions kept |
| KvCache.KVCache.BatchLoadAndFill | kv_cache.go:499-518 | the loader's items join the local map and the result; a failed Redis write is ignored |
| KvCache.KVCache.GetMany | kv_cache.go:426-495 | the three tiers in one pass, with Redis readable or not |
| KvCache.KVCache.Set | kv_cache.go:521-546 | local first, then the script; the caller hears encoding and request errors |
| KvCache.KVCache.SetMany | kv_cache.go:549-583 | the same for many keys, in any map order |
| KvCache.KVCache.Delete | kv_cache.go:634-649 | local first, then the hash |
| KvCache.KVCache.DeleteMany | kv_cache.go:652-680 | the same for many keys |
| IdSpec.ConsecutiveIffSeamless | id_generator.go:118-245 | any mix of executed GenerateID and GenerateIDs calls issues consecutive numbers from the one due, heard or not, exactly when each finds the key before its deadline, or creates it anew with max(start, 1) the next number and a time to live that SET accepts |
| IdSpec.FreshRunIsConsecutive | id_generator.go:118-245 | from max(start, 1) on, while the first call's time to live lasts |
| IdSpec.FreshRunIDsAreDistinct | id_generator.go:118-245 | all IDs of such a run for one time prefix are distinct |
| IdSpec.ZeroTTLRepeats | id_generator.go:126-148 | a sub-second expiry: nothing is issued from a start above 1, and 1 again and again otherwise |
| IdSpec.KeyLifetime | id_generator.go:126-206 | a call that finds the key leaves its deadline alone; one that creates it gives it the configured time, or none if it is a batch from a start of at most 1 |
| IdSpec.PaddedValue | id_generator.go:163-164 | the padded print of a number reads back as the number |
| IdSpec.IDParts | id_generator.go:163-178 | an ID is the prefix, the time, the separator, the number and the suffix, in this order; the number reads back and is filled with zeros to the width and no further |
| IdSpec.FormatIsInjective | id_generator.go:163-178 | an ID determines its number, and its time prefix among those of one length |
| IdSpec.IDsSortByNumber | id_generator.go:163-178 | below 10^width IDs sort as their numbers |
| IdSpec.OrderBreaksAtWidth | id_generator.go:163-178 | at 10^width the order breaks, for every width |
| IdGenerator.IDGenerator.SingleScript | id_generator.go:126-140 | the number and the key left, for a live, expired or absent key and any time to live |
| IdGenerator.IDGenerator.BatchScript | id_generator.go:191-206 | the same for a batch, whose script sends no EXPIRE |
| IdGenerator.IDGenerator.GenerateID | id_generator.go:118-160 | the printed number, or the error; a run whose reply is lost uses its number up |
| IdGenerator.IDGenerator.GenerateIDs | id_generator.go:181-245 | the printed numbers in order, or the error; a run whose reply is lost uses its n numbers up; n must be positive |

## Left out

- Key and value buffers: the model's byte strings are values, so aliasing of caller buffers and the in-place reuse of an
  entry's value buffer are not captured.
- `container/list` in `lru.go` is a sequence of keys; its element pointers are not modelled.
- Integer widths: times, sizes and counters are unbounded; overflow of durations, of `1 << retry`, of int32 sizes and of
  Redis counters, and the precision of Lua numbers above 2^53, are not captured. Negative durations given to locks on
  acquire and negative sequence widths are not modelled.
- Statistics, logging, metrics, tickers, worker pools and Redis client plumbing.
- Lock: the watchdog, `stopChan` and `expireTime` (bookkeeping of the local clock), the retry loops of `Lock` and the lock
  manager; `LockWithRetry` and `MutexLock` appear as critical sections between a TryLock and an Unlock.
- Loaders that panic, and the surrounding cache lookups of `GetOrCompute`.
- Durable channel: `Close`, the list's time to live, and a message that cannot be decompressed. Panics in workers.
- Delayed queue: JSON encoding of tasks, the backlog warning, and consumer start and stop. `RetryAccounting` is about a
  task whose handler never succeeds and whose key only its consumers write; whether a step is one of those depends on
  the caller alone.
- Hot-key cache: the JSON text in Redis and `SaveToRedis`; the local state changes of every operation are modelled.
- K-V cache: reads without a BatchLoader (`LoadAll`), other nodes' writes and the broadcast, which appears only as
  arbitrary invalidation of local keys; `encode` and `decode` are parameters, and so is JSON unquoting. Keys stand for
  their hash fields, so a key type whose string form is not injective is not covered. The caller updates the source
  before it calls Set or Delete. `Refresh` and `RefreshAndSwap` are not modelled.
- ID generator: `ResetSequence`, `ForceResetSequence` (not atomic) and the read-only getters.
- ExpiringHandler.ExpiringHandler.SweepIncremental: the method runs its rounds without other threads between them;
  `ExpiringSpec` interleaves rounds with everything else.
- ExpiringHandler.ExpiringHandler.Get: likewise its two sections are adjacent in the method and separate steps in
  `ExpiringSpec`.
- ShardedCache.LRUOptimizedHandler.Get: its read-locked and write-locked sections are adjacent in the method and
  separate steps in `ClockRuns`, whose theorems hold for any steps between them.
- ShardedCache.LRUOptimizedHandler.Clear: the shards are emptied one after the other with nothing in between in the
  method, and by separate steps in `ClockRuns`.
- ShardedCache.LRUOptimizedHandler.Close: likewise; that the flag is set before the shards are emptied is not seen.
- DelayQueue.DelayQueueStore.HandleTask: its two requests are adjacent in the method and separate steps in `RetrySpec`.
- DelayQueue.DelayQueueStore.PutBackRefused: likewise.
- DistributedLock.DistributedLock.TryLock: its GET and SET NX are adjacent in the method and separate steps in
  `LockSpec`.
- KvCache.KVCache.Get: its lookup, HGET, loader and fills are adjacent in the method and separate steps in `KvRuns`.
- KvCache.KVCache.GetMany: likewise.
- KvCache.KVCache.BatchLoadAndFill: likewise.
- KvCache.KVCache.Set: its local write and its script are adjacent in the method and separate steps in `KvRuns`.
- KvCache.KVCache.SetMany: likewise.
- KvCache.KVCache.Delete: likewise.
- KvCache.KVCache.DeleteMany: likewise.
- HotKeyCache.HotKeyCache.LoadAll: its Redis read, loader and refill are adjacent in the method; `HotKeySpec` has the
  refill as a step of its own with any data, so its theorems hold whatever happens before it.
- HotKeyCache.HotKeyCache.Get: likewise its lookup and its load.
- HotKeyCache.HotKeyCache.GetAll: likewise its freshness test and its load.
- Other files: `wrapper.go`, `multi_level_cache.go`, `twolevel.go`, `sharded.go`, `generic_cache.go` and `client.go`
  delegate to handlers; `model_kv.go` and `model_cache.go` map the fields of a struct to the K-V cache; `ristretto.go`
  and `redis.go` adapt other stores; `queue.go`, `dead_letter_queue.go` and `scheduler.go` are plain lists, alerts and a
  loop over the delayed queue; `pubsub.go` carries messages; `object_pool.go`, `cache_index.go`,
  `resource_version.go` and `advanced_cache.go` keep pools, key sets, version counters and compression settings.
