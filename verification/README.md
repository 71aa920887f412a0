# CentralOps collection and delivery, verified in Dafny

CentralOps collects security events from vendors and delivers them to destinations. Between the two sits
a set of small stateful protocols meant to guarantee that no event is lost in silence, none is repeated
without need, and memory, request rates and concurrency stay bounded, across crashes, retries and concurrent
workers. This project models those protocols and proves what they keep over every run.

| file | component |
|---|---|
| `Cycle.dfy`, `CycleRuns.dfy`, `CycleLedger.dfy` | a polling cycle: claim, divert or batch, hand off, settle, save the cursor, release; sequences of cycles; what became of each event and where the cursor stands |
| `CycleOverlap.dfy`, `OverlapRuns.dfy` | cycles interleaved over one store, when they lose an event, and what they keep all the same |
| `CycleLock.dfy` | the token lock around a cycle |
| `Boundary.dfy`, `BoundaryRuns.dfy`, `Ranking.dfy` | the cursor's memory of what was emitted at an inclusive window start; runs of cycles over it |
| `Chunking.dfy`, `Dispatch.dfy` | splitting a batch for a destination; retrying a chunk; dispatching a batch |
| `DeadLetters.dfy` | the dead-letter table of rejected events |
| `Breaker.dfy`, `BreakerRuns.dfy` | the circuit breaker, command by command, for any number of processes |
| `CaptureRing.dfy`, `RedisLists.dfy` | the capture ring bounded by count and bytes; the Redis list commands |
| `PushBuffer.dfy` | the drop-oldest buffer behind the push endpoint |
| `DomainLimiter.dfy`, `LimiterRuns.dfy` | the per-domain semaphore of leases |
| `TokenBucket.dfy` | the per-session token bucket |
| `Counters.dfy` | windowed counters in a hash with one time to live |
| `Masking.dfy` | masking of personal data on export |

What the code updates in place is a class here, and each method is proved against a function of the old
state; the properties of whole runs are lemmas about those functions. Protocols shared by several processes
are state machines with one step per Redis command or script, explicit time, and faults that may strike
before or after a command took effect. Instants are integers, sizes are naturals, and everything a component
does not decide itself (what a source returns, what a sink answers, when a hand-off raises) is a parameter.

## Where the code and its comments part

The model follows the code. These are the places where it does something else than its comments say, or where
a promise needs a condition; each has its lemma.

- The comment at `pipeline.py:936-938` says that no claim is pending after a good cycle. Ids that were
  quarantined, suppressed or dropped by policy never settle and are released at the end: no claim is pending if
  and only if the cycle diverted nothing (`CycleRuns.PendingIff`, `CycleRuns.GoodCycleWithPendingClaim`). What
  holds always is that a claim left standing is of an id that a hand-off disposed of
  (`CycleRuns.CycleLosesNothing`).
- A cycle that fails before it reads the cursor (`pipeline.py:1242`) saves the empty cursor over the stored one
  (`CycleRuns.CursorRestoredIff`, `CycleLedger.CursorOfLastSuccess`). The next cycle then starts at its collector's own lookback with no memory: it
  repeats what was emitted at or after that start (`BoundaryRuns.RepeatsNothingUnsavedIff`,
  `BoundaryRuns.EarlyFailureRepeats`), and what lies between the lost start and a later lookback is never asked for
  again (`BoundaryRuns.EarlyFailureSkipsBacklog`).
- A hand-off that returns counts as durable (`pipeline.py:936-938`), but the fan-out also returns after shedding a
  sub-batch (`pipeline.py:2594`) or after failing to write unrouted events to the dead-letter table; those ids are
  settled and are nowhere. Of the ids a successful cycle was given, nothing else is lost in silence
  (`CycleRuns.NoSilentLoss`, `CycleRuns.NothingLost`).
- Losing the cycle lock is described as never losing data (`pipeline.py:828-831`). Overlapping cycles can lose: one
  drops an event as a duplicate of the other's claim, which a failure then releases, and moves the cursor past it
  (`OverlapRuns.OverlappingCyclesLose`). This is the only way (`CycleOverlap.LostIff`), and it takes both an overlap
  and a cycle that did not succeed (`CycleOverlap.NoOverlapNoLoss`, `CycleOverlap.NoFailureNoLoss`). Overlap never hands an id off twice
  (`OverlapRuns.HandedOffOnceOverlapping`).
- A cycle that is answered nothing but saves a later window start forgets what it remembered
  (`cursor_boundary.py:188-189`), and a full answer with more than MAX_KEYS events at the next start forgets the
  excess. Uncapped cycles against a source that keeps its rules emit every event exactly once as long as neither
  happens and no cycle starts, after an early failure, at or before what was emitted (`BoundaryRuns.ExactlyOnce`).
  At the end of a cycle and at its start the condition is exact (`BoundaryRuns.RepeatsNothingIff`,
  `BoundaryRuns.RepeatsNothingUnsavedIff`); runs that break it are `BoundaryRuns.MovedStartRepeats` and
  `BoundaryRuns.EarlyFailureRepeats`, and `BoundaryRuns.RepeatsAtMostExcess` bounds the second case.
- The breaker's failure window is described as fixed from the first failure (`circuit_breaker.py:244-245`); the
  EXPIRE at line 256 makes it slide on every failure. The counts agree if and only if the streak lies within one
  window (`BreakerRuns.SlidingIsFixedIff`, `BreakerRuns.SlidingOpens`).
- Counting a failure and setting the breaker's open key are two commands, so a success in between can leave the
  breaker open with no sufficient streak on record (`BreakerRuns.OpensOnlyForCause`, `BreakerRuns.OpenWithoutCause`,
  `BreakerRuns.OpenForLaterCause`); if no success ever does, a cause is always on record
  (`BreakerRuns.CauseAlwaysOnRecord`). And a slow process can open it long after the failures
  (`BreakerRuns.RecoversIff`, `BreakerRuns.LateOpening`).
- The push buffer's cap holds only for `max_len >= 1`: LTRIM reads the stop index -1 as the tail and keeps
  everything (`PushBuffer.CapHoldsIff`).
- A counter window raises a warning when it exceeds the time to live (`observability_store.py:231`), but the time to
  live covers the whole hash: reads are right for every log if and only if it has room for the whole buckets of the
  window and one more (`Counters.ExactIff`).
- Every rejected event gets a dead-letter row, but an event without an id is reported as `?`, shares its row with
  all such events, and the row has no payload (`DeadLetters.PayloadIsEventIff`).
- Masking by path is described as belonging to the `normalized` block (`capture_export.py:80-83`); the code
  compares paths from the root of the event, so it applies outside as well, exactly where a path on the way is
  listed (`Masking.PathsMatterOutside`, `Masking.PathsHitOutsideNormalized`).

## Model

| member | source | states |
|---|---|---|
| Cycle.Pipeline.Claim | backend/app/collectors/pipeline.py:1274-1295 | a claim answers True exactly for an id not yet claimed, and leaves it claimed |
| Cycle.Pipeline.EnqueueDispatch | backend/app/collectors/pipeline.py:2420-2620 | the hand-off returns with the batch passed on but for what the fan-out lost, which is logged, or raises having passed on any part of it |
| Cycle.Pipeline.FlushBatch | backend/app/collectors/pipeline.py:1772-1806 | a hand-off that returns settles exactly the ids of the batch and empties it; one that raises settles nothing and keeps it |
| Cycle.Pipeline.TakeEvent | backend/app/collectors/pipeline.py:1267-1806 | an event claimed before changes nothing; a new one is claimed, and raises, is set aside, or joins the batch and is counted; the batch is handed off exactly if it then holds batch_size events or the time is up, and settled exactly if that hand-off returns |
| Cycle.Pipeline.CollectAll | backend/app/collectors/pipeline.py:1266-1806 | the loop does so for the events in order, up to the first failure |
| Cycle.Pipeline.RunCollectionOnce | backend/app/collectors/pipeline.py:906-2006 | the cycle, early returns and early failures included, leaves the claims, the cursor and the logs that the specification RunOnce gives for any script, and returns its event count; after a success the cursor is where the collector ended, after an early failure it is empty, and after every other cycle it is as before |
| CycleRuns.CycleLosesNothing | backend/app/collectors/pipeline.py:1266-1295 | after any cycle every claim left is of an id a hand-off disposed of; a successful cycle has handed off or diverted every id it was given, but for those a returning hand-off lost |
| CycleRuns.ClaimsAreSettled | backend/app/collectors/pipeline.py:1980-2006 | the claim invariant over every sequence of cycles and claim expiries |
| CycleRuns.PendingIff | backend/app/collectors/pipeline.py:936-938 | after a good cycle no claim is pending if and only if the cycle diverted nothing |
| CycleRuns.GoodCycleWithPendingClaim | backend/app/collectors/pipeline.py:936-938 | a good cycle with a quarantined event ends with its claim pending, and releases it |
| CycleRuns.NoSilentLoss | backend/app/collectors/pipeline.py:1755-1890 | over every sequence of cycles, an id yielded to a cycle that moved the cursor was handed off by then and stays so, or was diverted on purpose, or is on the log of what returning hand-offs lost |
| CycleRuns.NothingLost | backend/app/collectors/pipeline.py:1772-1806 | that log stays empty if every returning hand-off disposed of its batch |
| CycleRuns.HandedOffOnce | backend/app/collectors/pipeline.py:1274-1295 | if a raising hand-off passes nothing on and claims do not expire, no id is handed off twice over any sequence of cycles |
| CycleRuns.ExpiredRepeats | backend/app/collectors/pipeline.py:1274-1295 | a claim that expires between two cycles lets the second hand the same id off again |
| CycleRuns.RaisedRepeats | backend/app/collectors/pipeline.py:1772-1806 | a hand-off that passed an id on before it raised lets the next cycle hand it off again |
| CycleRuns.Conservation | backend/app/collectors/pipeline.py:1755-1860 | a successful cycle yields exactly its arrivals, and as multisets they are deduplicated + diverted + handed off + lost; the event count is the size of the batches enqueued |
| CycleRuns.CursorRestoredIff | backend/app/collectors/pipeline.py:1924-1946 | a cycle that does not succeed leaves the stored cursor if and only if it did not fail before reading it, or the cursor was empty |
| CycleLedger.ClaimsEveryArrival | backend/app/collectors/pipeline.py:1274-1295 | while nothing has failed the claims are the old ones and every id the cycle was given |
| CycleLedger.LedgerIs | backend/app/collectors/pipeline.py:1267-1806 | the ids that were claimed before or come again are dropped as duplicates, in order; the first arrivals set aside are diverted, in order; and the first arrivals batched are, as a multiset, passed on, lost by a returning hand-off or waiting |
| CycleLedger.HandedInOrder | backend/app/collectors/pipeline.py:1755-1806 | if no returning hand-off loses anything, what is handed off and what waits are the batched first arrivals in the order they arrived |
| CycleLedger.BatchNeverOverdue | backend/app/collectors/pipeline.py:1762-1806 | less than a full batch waits after every event, and nothing waits after one that joined when the time was up |
| CycleLedger.SucceedsIff | backend/app/collectors/pipeline.py:1266-1946 | a cycle succeeds if and only if it reads the cursor, no event and no hand-off of it fails, the stream ends and the cursor is saved |
| CycleLedger.CursorOfLastSuccess | backend/app/collectors/pipeline.py:1882-1946 | after every sequence of cycles and claim expiries the stored cursor is where the last successful cycle ended, or empty if a cycle failed early since |
| CycleLedger.CursorWithoutSuccess | backend/app/collectors/pipeline.py:1924-1946 | as long as no cycle succeeded it is empty |
| CycleOverlap.AloneIsRunOnce | backend/app/collectors/pipeline.py:906-2006 | a cycle whose steps no other interrupts leaves the store, verdict and ledger of RunOnce |
| CycleOverlap.Invariants | backend/app/collectors/pipeline.py:1266-2006 | in every interleaving, each claim is of an id disposed of or held unsettled by a cycle under way, and every cycle knows where what it was given went |
| CycleOverlap.LostIff | backend/app/collectors/pipeline.py:815-831 | in every interleaving of claims, hand-offs, cursor saves, releases and expiries, a cycle that succeeded lost an id if and only if it dropped it as a duplicate while another cycle held the claim, that cycle gave the claim up without success, and no step disposes of the id |
| CycleOverlap.NeverDisposedIff | backend/app/collectors/pipeline.py:1266-1890 | an id is on none of the logs if and only if no step of the run diverts it or hands its batch off |
| CycleOverlap.HolderGivesUp | backend/app/collectors/pipeline.py:1980-2006 | a cycle that holds a claim on an id nobody ever disposes of fails and releases it, or holds it to the end without success |
| CycleOverlap.NoFailureNoLoss | backend/app/collectors/pipeline.py:815-831 | if every cycle that began has closed and succeeded, overlapping lost nothing |
| CycleOverlap.NoOverlapNoLoss | backend/app/collectors/pipeline.py:815-831 | with at most one cycle under way at any moment nothing is lost, whatever fails |
| OverlapRuns.OverlappingCyclesLose | backend/app/collectors/pipeline.py:815-831 | a run of two overlapping cycles ends with the cursor past an id that nobody disposed of |
| OverlapRuns.ExclusiveAlways | backend/app/collectors/pipeline.py:1266-1295 | without expiries, and with hand-offs that pass on all or nothing, each unsettled claim belongs to one cycle and none to an id handed off |
| OverlapRuns.HandedOffOnceOverlapping | backend/app/collectors/pipeline.py:1274-1295 | so no id is handed off twice in any interleaving of cycles |
| OverlapRuns.ExpiryRepeats | backend/app/collectors/pipeline.py:1274-1295 | a claim that expires under a cycle lets even that cycle hand the id off again |
| OverlapRuns.CursorOfLastWrite | backend/app/collectors/pipeline.py:1882-1946 | in every interleaving the stored cursor is what the last step that writes it wrote: where a successful cycle ended, what a failed one had read, or nothing after an early failure |
| OverlapRuns.ReadAtBegin | backend/app/collectors/pipeline.py:1242-1250 | what a cycle puts back is the cursor as it stood when that cycle began |
| CycleLock.LockKey.SetNxEx | backend/app/collectors/pipeline.py:843-851 | SET NX EX acquires exactly when there is no lock or its time is over, and then holds the lock for the caller from now; otherwise it leaves the lock |
| CycleLock.LockKey.ReleaseIfMine | backend/app/collectors/pipeline.py:770-775 | the release script deletes the key exactly if a live lock holds the caller's token, which frees the lock; otherwise it leaves the lock |
| CycleLock.OnlyTheOwnerReleases | backend/app/collectors/pipeline.py:768-775 | in any step, a live lock changes only when the cycle whose token it holds leaves |
| CycleLock.MutualExclusion | backend/app/collectors/pipeline.py:843-903 | in every interleaving of cycles, expiries and faults, at most one cycle is in its body under the lock and within its time to live |
| CycleLock.AtMostOneCycle | backend/app/collectors/pipeline.py:843-903 | with no fault on entry and no cycle outliving its time to live, at most one cycle is in its body |
| CycleLock.EntersIff | backend/app/collectors/pipeline.py:843-851 | after any run a cycle with a fresh token gets into its body exactly if no lock is held or its time is over, and then holds the lock |
| CycleLock.LeavingLetsTheNextIn | backend/app/collectors/pipeline.py:770-903 | after any run, once a cycle within its time to live leaves, the next one with a fresh token is in its body at once |
| CycleLock.LostReleaseBlocksUntilExpiry | backend/app/collectors/pipeline.py:886-903 | a release lost on the way keeps the others out until the time to live is over, and no longer |
| CycleLock.OrphanLockBlocks | backend/app/collectors/pipeline.py:852-903 | after any run that leaves the lock free, a cycle whose SET took effect but whose reply was lost leaves the lock behind: with nobody in a body the others are refused until its time to live is over |
| CycleLock.NextBesideOverrun | backend/app/collectors/pipeline.py:843-851 | after any run, once the lock has run out the next cycle joins those in their body |
| CycleLock.FaultBesideAny | backend/app/collectors/pipeline.py:852-876 | after any run, a cycle that enters on a fault joins those in their body |
| CycleLock.BothConditionsNeeded | backend/app/collectors/pipeline.py:843-876 | dropping either condition admits two cycles at once |
| Boundary.BoundaryKeys.Load | backend/app/collectors/cursor_boundary.py:97-117 | the memory applies only to the window start it was saved for, as written, and then holds its non-empty keys; otherwise it is empty |
| Boundary.BoundaryKeys.Seen | backend/app/collectors/cursor_boundary.py:119-129 | an event is skipped exactly if its non-empty key was remembered, and is recorded either way |
| Boundary.BoundaryKeys.Observe | backend/app/collectors/cursor_boundary.py:131-141 | an event with a key and a readable time joins the history and the buffer, which is cut to its MAX_KEYS greatest entries when it exceeds twice the cap; any other event changes nothing |
| Boundary.BoundaryKeys.Carry | backend/app/collectors/cursor_boundary.py:143-152 | the memory of the current window, for a cursor that resumes it |
| Boundary.BoundaryKeys.Dump | backend/app/collectors/cursor_boundary.py:154-190 | nothing is saved without a readable next start; if something was seen at or after it, its greatest keys are; otherwise the loaded memory if the window did not move; and for distinct keys this is what would be saved from the whole history |
| Boundary.ChooseGreatest | backend/app/collectors/cursor_boundary.py:168-187 | even with repeated keys, a dump chooses as many keys as fit, each with an event not less than every event of a key left out |
| Ranking.KeyLeqIff | backend/app/collectors/cursor_boundary.py:168-170 | keys are ordered by the first character in which they differ, or by length |
| Boundary.BufferBounded | backend/app/collectors/cursor_boundary.py:137-141 | after any history the buffer holds at most twice MAX_KEYS entries |
| Boundary.BufferAgrees | backend/app/collectors/cursor_boundary.py:137-141 | the pruned buffer and the whole history have the same MAX_KEYS greatest entries |
| Boundary.PruningRefinesHistory | backend/app/collectors/cursor_boundary.py:131-190 | pruning changes nothing a dump saves |
| Boundary.DumpKeepsTheGreatest | backend/app/collectors/cursor_boundary.py:168-190 | a dump keeps exactly the MAX_KEYS greatest (instant, key) pairs at or after the next start, or all of them if fewer |
| BoundaryRuns.Sweep | backend/app/collectors/cursor_boundary.py:119-129 | a collector's loop emits exactly the events whose key the memory does not hold, in order |
| BoundaryRuns.Collect | backend/app/collectors/cursor_boundary.py:97-190 | load, sweep and save amount to one step of the run; an early failure saves nothing, a failed cycle keeps what was saved, and a capped one leaves its window the memory it had |
| BoundaryRuns.CappedKeepsMemory | backend/app/collectors/cursor_boundary.py:143-152 | a cycle that resumes the window of a capped one loads the memory the capped one had loaded |
| BoundaryRuns.FreshParts | backend/app/collectors/cursor_boundary.py:119-129 | what is emitted is decided event by event, in order |
| BoundaryRuns.MemoryWasEmitted | backend/app/collectors/cursor_boundary.py:97-190 | in every run the memory holds only keys that committed cycles emitted |
| BoundaryRuns.SkippedWasEmitted | backend/app/collectors/cursor_boundary.py:119-129 | with no assumption on the source, a key is skipped only if an earlier committed cycle emitted it |
| BoundaryRuns.AtMostOnce | backend/app/collectors/cursor_boundary.py:154-190 | against a well-behaved source, what a committed cycle emitted no later cycle emits |
| BoundaryRuns.ExactlyOnce | backend/app/collectors/cursor_boundary.py:97-190 | in a run that keeps its memory, failed cycles early or late included, every event returned to a committed cycle is emitted by exactly one committed cycle, late arrivals at the boundary instant included |
| BoundaryRuns.FullAnswerCovers | backend/app/collectors/cursor_boundary.py:154-190 | after a full answer everything emitted and still returnable is remembered if and only if what may return fits MAX_KEYS |
| BoundaryRuns.CoversStep | backend/app/collectors/cursor_boundary.py:154-190 | a cycle leaves everything emitted and still returnable at the saved start in the memory, exactly if it was answered in full and what may return fits, or was answered nothing and kept a saved start or moved it past what was emitted |
| BoundaryRuns.RepeatsNothingIff | backend/app/collectors/cursor_boundary.py:154-190 | that condition at the end of a cycle is exact: the next full answer repeats nothing if and only if the last cycle met it |
| BoundaryRuns.RepeatsNothingUnsavedIff | backend/app/collectors/pipeline.py:1924-1946 | where an early failure left no saved start, a full answer repeats nothing if and only if the cycle starts past everything emitted |
| BoundaryRuns.EarlyFailureInWorld | backend/app/collectors/pipeline.py:1924-1946 | a run with an early failure that the rules of the source allow and that breaks the condition at the start only |
| BoundaryRuns.EarlyFailureRepeats | backend/app/collectors/pipeline.py:1924-1946 | in that run an event is emitted twice |
| BoundaryRuns.BehindIsNotReturned | backend/app/collectors/cursor_boundary.py:1-30 | what lies before the start of a committed cycle is returned to no cycle from there to the next early failure |
| BoundaryRuns.EarlyFailureSkipsBacklog | backend/app/collectors/pipeline.py:1924-1946 | an event between the start an early failure lost and the start the next cycle falls back on is returned to no later cycle |
| BoundaryRuns.SkippedBacklogInWorld | backend/app/collectors/pipeline.py:1924-1946 | such a run exists |
| BoundaryRuns.RepeatsAtMostExcess | backend/app/collectors/cursor_boundary.py:179-187 | after a full answer, whatever the run before it, the next full answer repeats at most the excess of what may return over MAX_KEYS |
| BoundaryRuns.MovedStartInWorld | backend/app/collectors/cursor_boundary.py:188-190 | the run that breaks the condition is one the source's rules allow |
| BoundaryRuns.MovedStartRepeats | backend/app/collectors/cursor_boundary.py:188-190 | in that run an event is emitted twice |
| Chunking.ChunkBatch | backend/app/collectors/pipeline.py:2825-2859 | the chunks concatenate to the batch; each holds at most max_items events and max_bytes bytes, or one event; and each but the last is full or would exceed the bytes with the next event; an empty batch gives one empty chunk |
| Chunking.GreedyStaysAhead | backend/app/collectors/pipeline.py:2845-2856 | the greedy split of what is left never needs more chunks than any acceptable split of at least as much |
| Chunking.GreedyIsOptimal | backend/app/collectors/pipeline.py:2825-2859 | no split into consecutive acceptable chunks uses fewer chunks |
| Chunking.GreedyIsUnique | backend/app/collectors/pipeline.py:2845-2859 | the contract of the splitter determines its result |
| Dispatch.SendChunkWithRetry | backend/app/collectors/pipeline.py:2898-3025 | verdict, number of sends and breaker bookkeeping are those of the specification Sent, for every behaviour of sink, breaker, clock and database; the table changes only by the rejections of a definite last answer, written as RejectedWritten says |
| Dispatch.SendsBounded | backend/app/collectors/pipeline.py:2898-2910 | at most max_retries + 1 sends, one if retrying is disabled; at most one recorded failure per send |
| Dispatch.TimeoutsUseEveryRetry | backend/app/collectors/pipeline.py:2898-2952 | a sink that only times out is sent the chunk exactly max_retries + 1 times, once if retrying is disabled, unless breaker or budget stop it |
| Dispatch.SendsProceed | backend/app/collectors/pipeline.py:2911-2938 | every attempt made was allowed by the breaker and the time budget |
| Dispatch.ResendsOnlyWhenSafe | backend/app/collectors/pipeline.py:2941-3016 | a chunk is sent again only after a timeout or a retryable answer with nothing accepted or rejected |
| Dispatch.DeliveredMeans | backend/app/collectors/pipeline.py:2970-3022 | a delivered chunk ended in a non-retryable answer whose rejections are in the table; success was recorded exactly if something was accepted |
| Dispatch.UndeliveredMeans | backend/app/collectors/pipeline.py:2907-3025 | a chunk not delivered was stopped by the breaker or the time budget before an allowed attempt, all replies so far permitting another send, or its last reply raised, was partial and retryable, could not be recorded, or was the last attempt's; every failed reply was recorded as a failure and no success |
| Dispatch.DeliveredIff | backend/app/collectors/pipeline.py:2907-3022 | attempt j delivers the chunk if and only if every attempt up to it is made, every earlier one may be repeated, and j settles it |
| Dispatch.CompletedIff | backend/app/collectors/pipeline.py:3214-3271 | the chunk loop gets through its first chunks if and only if each of them is delivered |
| Dispatch.DispatchBatch | backend/app/collectors/pipeline.py:3214-3271 | the chunk loop completes exactly if every chunk is delivered and stops at the first that is not; on completion, for an accounting sink, the totals add up to the batch and every event is accounted for |
| Dispatch.ChunkKeepsRecords | backend/app/collectors/pipeline.py:2970-3000 | a row on record stays on record, under its answer or a later one that rejected the same id |
| Dispatch.EveryEventAccounted | backend/app/collectors/pipeline.py:3214-3271 | on completion, for a sink that accounts for its chunks, every event was taken by the sink or has a dead-letter row whose kind and reason a rejection of this dispatch reported under its id, no row was lost, and accepted_total + rejected_total is the number of events |
| DeadLetters.Table.BuildEventMap | backend/app/collectors/delivery.py:148-156 | the id map is that of the specification EventMap |
| DeadLetters.EventMapIs | backend/app/collectors/delivery.py:148-156 | an id maps to the last envelope that carries it |
| DeadLetters.EventMapIds | backend/app/collectors/delivery.py:148-156 | the map holds exactly the non-empty ids of the batch |
| DeadLetters.Table.PersistRejected | backend/app/collectors/delivery.py:159-265 | after a commit the table is as RejectedWritten says, after an error as before; True exactly if nothing was rejected or the commit was confirmed |
| DeadLetters.RejectedRows | backend/app/collectors/delivery.py:159-249 | a write of rejections gives every rejected id a row with the last kind and reason reported for it and touches no other; an old row keeps payload and organisation; a new one has the payload of the last event of the batch with its id, if that serialises, and that event's organisation if it carries one, the destination's otherwise |
| DeadLetters.Table.PersistBatch | backend/app/collectors/delivery.py:296-377 | after a commit the table is as BatchWritten says, after an error as before; True exactly if the batch is empty or the commit was confirmed |
| DeadLetters.BatchRows | backend/app/collectors/delivery.py:296-368 | a whole-batch write gives every event a row under its own id or a drawn one, with this kind and reason, and touches no other; an old row keeps payload and organisation; a new one has the payload of the first event with its key, if that serialises |
| DeadLetters.UpsertKeys | backend/app/collectors/delivery.py:215-249 | a write adds exactly the rows of its events, deletes none and touches no other |
| DeadLetters.LatestReason | backend/app/collectors/delivery.py:219-246 | the row of a key shows the last reason written for it |
| DeadLetters.PresentPayload | backend/app/collectors/delivery.py:234-246 | a row already there keeps its payload and organisation |
| DeadLetters.FirstPayload | backend/app/collectors/delivery.py:206-218 | a new row keeps those of the first entry with its key |
| DeadLetters.WriteIsIdempotent | backend/app/collectors/delivery.py:166-176 | a redelivered write leaves the table as it was |
| DeadLetters.PayloadIsEventIff | backend/app/collectors/delivery.py:188-213 | a rejected event can be read back from its new row if and only if it has an id, serialises and is the last of its chunk with that id |
| DeadLetters.BatchKept | backend/app/collectors/delivery.py:324-368 | every event of the batch has a row under its own id, or the drawn one if it has none, with the given reason; a new key not used by an earlier event gets its payload and the given organisation |
| Breaker.BreakerKeys.Check | backend/app/collectors/circuit_breaker.py:160-191 | a check denies exactly if both keys are live and no command failed; it sets the probe key only when open |
| Breaker.BreakerKeys.RecordSuccess | backend/app/collectors/circuit_breaker.py:208-221 | a success clears the three keys, a fault leaves them |
| Breaker.BreakerKeys.RecordFailure | backend/app/collectors/circuit_breaker.py:251-276 | a failure counts from one or from the live count, renews the window from now, and sets the open key for a cooldown from now once the count reaches the threshold |
| BreakerRuns.Invariants | backend/app/collectors/circuit_breaker.py:160-276 | in every interleaving at command granularity the three keys are a function of the log of events, and every opening, probe and denial in it has its reason |
| BreakerRuns.ProbeSpacing | backend/app/collectors/circuit_breaker.py:167-170 | two settings of the probe key with no effective success between them are at least the probe time to live apart |
| BreakerRuns.DenialHasProbe | backend/app/collectors/circuit_breaker.py:188-191 | every denial has a probe within the preceding probe time to live, with no success since |
| BreakerRuns.OnlyAnsweredProbeDenies | backend/app/collectors/circuit_breaker.py:171-178 | a Redis fault never denies |
| BreakerRuns.OpensOnlyForCause | backend/app/collectors/circuit_breaker.py:251-276 | while the open key is live it was set less than a cooldown ago for a streak of at least threshold failures with gaps below the window; such a streak is on record since the last success if and only if no success came between that count and the setting, or a later failure reached the threshold too |
| BreakerRuns.HealedThenOpened | backend/app/collectors/circuit_breaker.py:251-276 | a success between the two commands leaves the breaker open with no failure on record |
| BreakerRuns.OpenWithoutCause | backend/app/collectors/circuit_breaker.py:251-276 | such a run exists |
| BreakerRuns.OpenForLaterCause | backend/app/collectors/circuit_breaker.py:251-276 | a run where a success came in between and a later failure reached the threshold |
| BreakerRuns.CauseAlwaysOnRecord | backend/app/collectors/circuit_breaker.py:251-276 | in a run where no success falls between a count and its setting, an open breaker always has a sufficient streak on record since the last success |
| BreakerRuns.SlidingIsFixedIff | backend/app/collectors/circuit_breaker.py:238-256 | in every run the sliding count equals that of a window fixed by its first failure if and only if the whole streak lies within one window; otherwise it is higher |
| BreakerRuns.SlidingOpens | backend/app/collectors/circuit_breaker.py:238-256 | three failures 50 seconds apart open a breaker with threshold three and a 60 second window, where a fixed window counts one |
| BreakerRuns.UninterruptedOperations | backend/app/collectors/circuit_breaker.py:160-276 | without interruption the command steps of a check and of a failure amount to the methods on the keys |
| BreakerRuns.FaultsLetThrough | backend/app/collectors/circuit_breaker.py:171-191 | a fault in a check passes the send or sets the probe key unseen; a failure whose reply is lost is counted; a failed setting of the open key leaves the keys |
| BreakerRuns.RecoversIff | backend/app/collectors/circuit_breaker.py:160-165 | a check passes without a probe if and only if a cooldown has passed since the open key was set, or a success came after it |
| BreakerRuns.QuietCooldownRecovers | backend/app/collectors/circuit_breaker.py:251-276 | if each opening was set at the instant of its failure, a cooldown without failures suffices |
| BreakerRuns.DelayedOpening | backend/app/collectors/circuit_breaker.py:267-270 | without that, from any state a late setting opens the breaker after a whole cooldown without failures |
| BreakerRuns.LateOpening | backend/app/collectors/circuit_breaker.py:267-270 | such a run exists |
| CaptureRing.Ring.Append | backend/app/collectors/capture_session.py:391-421 | one run of the script leaves the longest newest-first prefix of everything ever appended that fits both limits, the byte counter equal to the resident bytes, and the event count equal to the history and to the sum of the outcome counters |
| CaptureRing.Ring.EvictByCount | backend/app/collectors/capture_session.py:407-411 | the first loop stops at the largest prefix within the count limit |
| CaptureRing.Ring.EvictByBytes | backend/app/collectors/capture_session.py:412-416 | the second loop stops at the longest prefix that fits both limits |
| CaptureRing.Refit | backend/app/collectors/capture_session.py:401-416 | evicting from a ring that already forgot its oldest entries gives what evicting from the full history gives |
| CaptureRing.LongestFitIsUnique | backend/app/collectors/capture_session.py:407-416 | the ring is a function of its history |
| CaptureRing.SplittingDoesNotMatter | backend/app/collectors/capture_session.py:401-416 | two appends leave the ring that one append of both batches leaves |
| CaptureRing.IterEvents | backend/app/collectors/capture_session.py:830-859 | the paged read yields, in order and once each, the readable entries among the newest max_events, whatever the page size |
| PushBuffer.Buffer.PushEvents | backend/app/collectors/ingest_buffer.py:50-101 | the queue, oldest first, is appended to and loses from its front exactly what is reported dropped; its length after a push is at most the cap |
| PushBuffer.Buffer.PopOldest | backend/app/collectors/ingest_buffer.py:119-122 | a chunk pop takes the oldest entries, oldest first |
| PushBuffer.Buffer.DrainChunk | backend/app/collectors/ingest_buffer.py:118-138 | one chunk yields its decodable entries in order and removes the chunk from the front |
| PushBuffer.Buffer.DrainEvents | backend/app/collectors/ingest_buffer.py:104-138 | a drain interleaved with pushes ends within budget, on a full budget or an empty buffer, with the decodable part of what it took, in push order |
| PushBuffer.Conservation | backend/app/collectors/ingest_buffer.py:64-138 | in every interleaving, pushed = drained + reported dropped + resident in push order, so the buffer is a suffix of the push history, and the cap holds |
| PushBuffer.PushKeepsNewest | backend/app/collectors/ingest_buffer.py:64-86 | a push keeps the newest entries of queue and batch, as many as the cap allows, and reports exactly how many of the oldest it dropped |
| PushBuffer.PopTakesOldest | backend/app/collectors/ingest_buffer.py:116-122 | a pop takes the oldest entries, as many as asked for, in push order |
| PushBuffer.CapHoldsIff | backend/app/collectors/ingest_buffer.py:72-86 | cap and drop report are right if and only if the cap is at least one; a cap of zero keeps everything and a negative one drops that many |
| DomainLimiter.Semaphore.Eval | backend/app/collectors/domain_limiter.py:31-45 | the script grants exactly if fewer than the limit of the visible entries are younger than one lease at the caller's reading; what stays are those entries, and on a grant the caller's token under its reading, with the key renewed for a lease |
| DomainLimiter.Semaphore.Slot | backend/app/collectors/domain_limiter.py:70-95 | polling ends with the slot, or after the whole wait and less than one poll and one call later; if nobody else takes a slot, a wait of one lease plus the slowest call always gets it, whatever earlier holders failed to release |
| LimiterRuns.Invariants | backend/app/collectors/domain_limiter.py:31-95 | bound, stored holders and time invariants over every interleaving with stale clock readings, lost replies and failed releases |
| LimiterRuns.NeverOverLimit | backend/app/collectors/domain_limiter.py:37-43 | the set never exceeds the limit |
| LimiterRuns.HolderKeepsToken | backend/app/collectors/domain_limiter.py:37-43 | a holder younger than one lease keeps its entry |
| LimiterRuns.HoldersWithinLimit | backend/app/collectors/domain_limiter.py:70-95 | at most limit requests within their lease run at once |
| LimiterRuns.OutlivedLeaseExceeds | backend/app/collectors/domain_limiter.py:27-28 | once all holders outlived their lease, the next caller runs beside all of them |
| LimiterRuns.NextAttemptSucceeds | backend/app/collectors/domain_limiter.py:37-43 | if nothing was granted for one lease, the next attempt succeeds even if nobody released |
| LimiterRuns.AttemptIff | backend/app/collectors/domain_limiter.py:37-43 | an attempt gets the slot exactly if fewer than the limit of the visible entries are younger than one lease at its reading |
| LimiterRuns.RoomAfterFewGrants | backend/app/collectors/domain_limiter.py:37-43 | in every run an attempt succeeds if fewer than the limit of the grants fell within one lease before its reading, whatever was released |
| LimiterRuns.QuietLeaseSucceeds | backend/app/collectors/domain_limiter.py:70-95 | after any run, one lease without other steps gives a polling caller its slot |
| LimiterRuns.ReleaseMakesRoom | backend/app/collectors/domain_limiter.py:90-95 | after any run, once a holder within its lease gives its slot back, the next attempt succeeds |
| TokenBucket.Throttler.Throttle | backend/app/collectors/capture_admission.py:67-85 | a limited call passes all it can of what was asked out of the tokens it finds (refilled at min(max_eps, 5000) since the last call, at most two seconds' worth), takes exactly that from them and counts the rest as skipped, so a rejection keeps the fraction and leaves less than one; a rate of zero or less lets everything through |
| TokenBucket.Throttler.Reset | backend/app/collectors/capture_admission.py:93-101 | a reset forgets one session or all |
| TokenBucket.Allowed | backend/app/collectors/capture_admission.py:80-80 | the largest whole number of events within the request and the tokens |
| TokenBucket.RateBound | backend/app/collectors/capture_admission.py:67-85 | over any run with other sessions interleaved, while a session is not reset and its clamped rates stay at or below r, the events let through in any interval of length d number at most 2r + r*d |
| TokenBucket.NothingUncounted | backend/app/collectors/capture_admission.py:67-90 | over any stretch without resets of a session, allowed + newly skipped = requested |
| TokenBucket.NeverSkipsIff | backend/app/collectors/capture_admission.py:67-85 | the limit is exact: at a fixed rate r a session is never skipped if and only if between any two of its calls it asks for at most 2r + r*d |
| TokenBucket.RateReached | backend/app/collectors/capture_admission.py:67-85 | while a session asks at least once a second for more than it gets, more than r*d - 1 events pass over a stretch of length d |
| Counters.Series.RecordCounter | backend/app/collectors/observability_store.py:96-139 | the write is in the log unless the value is zero or the transaction did not take effect; True exactly if there was nothing to write or it was acknowledged |
| Counters.Series.ReadWindowTotalStrict | backend/app/collectors/observability_store.py:266-296 | the sum of the fields at or after the cutoff, or the failure passed on |
| Counters.Series.ReadWindowTotal | backend/app/collectors/observability_store.py:240-263 | the same sum, a failed read being zero |
| Counters.IncrementedSum | backend/app/collectors/observability_store.py:123-132 | an increment adds to a window's sum exactly if its bucket is in the window |
| Counters.WindowAgrees | backend/app/collectors/observability_store.py:266-296 | if the whole buckets of the window and one more fit the time to live, every read equals the log sum over the buckets of the window, whatever expired before |
| Counters.ExactIff | backend/app/collectors/observability_store.py:223-237 | for every window, bucket and time to live, that room is exactly what is needed for reads to be right for every log |
| Counters.CoversIff | backend/app/collectors/observability_store.py:292-296 | the buckets read cover the whole window if and only if the bucket divides it |
| Counters.ReadBetween | backend/app/collectors/observability_store.py:266-296 | for non-negative values a read lies between the true sums over the last window and over less than one bucket more |
| Masking.MaskPii | backend/app/collectors/capture_export.py:70-111 | the recursion computes the specification Masked |
| Masking.MaskingKeepsShape | backend/app/collectors/capture_export.py:89-110 | the output has the same keys, containers and order |
| Masking.MaskingIsIdempotent | backend/app/collectors/capture_export.py:70-111 | masking twice is masking once |
| Masking.MaskedIff | backend/app/collectors/capture_export.py:90-111 | a scalar is masked if and only if its own field or one that encloses it is a hit; all others are unchanged |
| Masking.MaskedExactly | backend/app/collectors/capture_export.py:70-111 | a scalar of an event is replaced by [PII] if and only if it or an enclosing field has a listed name, a container inside normalized excepted, or a listed dotted path, read without a leading normalized.; every other scalar is unchanged |
| Masking.InsideNormalized | backend/app/collectors/capture_export.py:96-103 | inside normalized a scalar is masked if and only if its own field has a listed name or a field on the way has a path that is a listed one below normalized |
| Masking.PathsHitInsideNormalized | backend/app/collectors/capture_export.py:90-108 | with only user.name listed, that leaf inside normalized is masked and its neighbour is not |
| Masking.OutsideNormalized | backend/app/collectors/capture_export.py:94-104 | outside normalized a scalar is masked if and only if its field or an enclosing one has a listed name or a listed path |
| Masking.PathsMatterOutside | backend/app/collectors/capture_export.py:94-104 | the path list changes a scalar outside normalized exactly if a path on the way is listed, no name on the way is, and the value is not the mask already |
| Masking.PathsHitOutsideNormalized | backend/app/collectors/capture_export.py:94-104 | an event masked outside normalized for its path alone |

## Left out

- HTTP, Celery, Kafka, OAuth, the database session layer and the worker runtime: outside libraries, not modelled.
- Routing, mapping, enrichment, detection, metrics, tracing and lineage inside a cycle: observers, or parts that only decide whether an event is diverted.
- state/dedupe.py and state/cursor.py are not part of this model: a claim is a set insertion, a release a removal, a save an assignment.
- A claim whose reply is lost, a failed release of claims, a failed restoring save, killed workers and evictions by Redis: assumed away in the cycle.
- The backfill loop, which claims without releasing on failure: only polling cycles are modelled.
- Cycle.Pipeline.EnqueueDispatch: the fan-out to destinations is one hand-off per id; an event that reached some of its destinations counts as handed off, and one that a route drops on purpose counts as handed off too.
- Boundary: the parsing of timestamps is a given instant or none, `is_later` is left out, and the start a collector falls back on without a cursor is any start.
- BoundaryRuns.ExactlyOnce: uncapped cycles only, and starts that parse; a run with capped cycles keeps only that nothing is skipped unemitted.
- The dispatch paths for a missing or foreign destination, shadow mode and aggregation, which end before the chunk loop.
- Redelivery of a failed dispatch: a batch that failed after some chunks is sent again from its start.
- DeadLetters.Table.PersistRejected: runs alone on its table; a concurrent deletion of the same row between the conflict and the update is not modelled.
- Dispatch.EveryEventAccounted: assumes that every definite answer of the sink counts what it took and reports the rest.
- The capture ring's fallback without scripts and the asynchronous recorder, which do not keep the byte counter.
- PushBuffer.Buffer.DrainEvents: the fallback for servers without RPOP counts is not modelled; other writers act between chunks.
- CaptureRing.IterEvents: reads a ring that does not change meanwhile.
- DomainLimiter.Semaphore.Slot: what others do falls between a caller's clock reading and its script; the state machine of LimiterRuns has every interleaving.
- The choice of the limit by domain, sampling by event id (`admit`) and session parameters: single comparisons.
- Floating point: counters and tokens are reals, so rounding is not modelled.
- Counters: readers and writers share one clock; a read sees one series, and synthetic averages are left out.
- Masking: the two lists and the lower-casing are parameters, so the results hold for every list; CSV and NDJSON rendering is left out.
