# Niadra SDK: a verified model of its protocols

The Niadra Python SDK keeps an agent running while answers are slow, late or lost. This project models the
protocols that do it and proves what they guarantee over every run, together with the arithmetic the SDK and
its local mock rely on. Each module models one source file, or states what every run of one model keeps:

| module | what it is |
|---|---|
| `EventQueue`, `Flusher` | the bounded event buffer, the heartbeat, the doubling pause and the sender (`_queue.py`) |
| `QueueRuns`, `Wakeup` | every interleaving of puts and sends; the handshake between a put and the sleeping sender |
| `AgentState`, `AgentStateRuns` | the copies of working state, the outbox and the reference server; every run of them |
| `VoiceLine`, `VoiceRuns` | one voice conversation's reads, and every interleaving of its settlers and speculative reads |
| `Resolvers` | a resolver's circuit breaker and the worker's rate (`resolvers.py`) |
| `OrderedDict`, `PackCache`, `CacheRuns`, `CacheEpochs`, `CacheServing`, `Session` | the context cache, every sequence of calls to it, its epochs, what it serves, and a conversation's chunks |
| `Transport`, `WarmthRuns` | retries within a budget, and the connection allowance over every run |
| `Prefetch` | the prefetch mailbox and every interleaving of its senders |
| `Binomials`, `Replay`, `SignTest` | Fisher's exact test with the verdicts built on it, and the two-sided sign test |
| `Text`, `ExposureToken` | the exposure token over base64url (sections 3.5 and 5 of RFC 4648) |
| `Uuid7` | UUIDv7 values (section 5.7 of RFC 9562) |
| `SchemaGraph` | the depth-first order and the worklist closure of `sync_spec.py` |
| `Coordination`, `CoordinationRuns` | effects, claims and contact budgets of the mock, over every sequence of calls |
| `Backing`, `CardNumber`, `Amounts` | spans, sums of amounts, card check digits and amounts in text (`backing.py`) |

Objects that the source updates in place are classes with the same fields, and each of their methods is proved
against a function from the old state to the new one. The claims about runs are lemmas about those functions.
A lock makes one method one step. Where the source takes no lock around a whole operation, as between the append
of `track()` and its `notify`, or between picking up a settled text and judging it, each part is a step of its own and
anything may come in between; working state is the exception, with one caller at a time (`CrossedAnswersExactly` says
what two can do). Clock readings, jitter, random bits, digests, answers of the API and what regular expressions match are parameters, with no
assumption but the one a lemma names. Times are real numbers.

## What the source does and its texts do not say

- `_outbox.py:4` says that each waiting write carries an `Idempotency-Key`; the state writes put there carry none. The
  model lets the server apply a resent write again, and convergence holds all the same for merges.
- A direct state write answered after the outbox popped the last resent write, but before that write's callback, makes
  the callback count one pending write too few. With an empty outbox as the only condition, the copy stays the server's
  state with the waiting writes folded in exactly until a read replaces it with a body that differs from that
  (`LawHoldsExactly`, and `LawBreaksExactly` for one step); a read that does is reached from that gap
  (`AnswerBeforeCallbackLosesAWrite`), and none is in a run where no direct answer falls into one (`CopyConverges`).
- A cache epoch is forgotten once 4096 other scopes were purged after its scope's latest purge, and starts over. An answer
  to a read begun before a purge is kept out as long as that did not happen in between (`LateAnswerIsNotStored`); in
  every run it is stored exactly when the epoch, counted from the last time it was forgotten, is what it was
  (`StoredExactly`, and `ForgettingLetsALateAnswerIn` for the latest purge).
- A 401 empties the cache without moving an epoch, so a pack for an earlier read is stored after it
  (`EmptyingLetsALateAnswerIn`). `get` and `fallback` keep to `max_stale` (`ServedWithinMaxStale`); a degraded answer
  serves its pack whatever the age, so it does exactly when the pack happens to be young enough
  (`AbsorbedServedExactly`).
- `_voice.py:15` promises one speculative read at a time, with the newest text next. Two things break that. A finished read picks up the waiting text under the lock and judges it in a later hold of it; in between a newer
  text may have been read and a still newer one be waiting, and then the older one takes its place (`NewestMayBeLost`).
  And `verify()` or `identify()` forgets the line's read without its waiting text: a text that waited then is left with no
  read to follow (`NewestMayBeLeft`), and a second read may start beside the first (`TwoMayFly`). In every run these are
  the only causes (`EndsExactly`, `LostExactly`, `JoinedIsCutOff`, `SecondFliesExactly`), and without them the promise
  holds (`OneAtATime`, `CalmReadsNewest`).
- A session forgets the order of a chunk that comes again after twenty newer ones (`LastTwentyDistinct` gives the exact
  condition), and drops the chunk that arrives with a new etag.
- A heartbeat lost with a refused batch is in no drop count, and its items are never reported (`RunsAreSafe` accounts
  for it).
- The wake-up bound holds up to the time between the sender's own clock readings: `remaining`, `wait_hint` and the one
  that starts the sleep are three. A sleep that long is reached (`LagIsReached`).
- `cents` raises on a token such as `3.5x`, and reads `1.-5` as 95 cents (`TokensThatMisread`); `RaisesExactly` and
  `MisreadExactly` say when.
- Swapping a 0 and a 9 beside each other is the one swap of different neighbours that a card's check digit misses
  (`NeighbourSwap`).

## Model

| member | source | states |
|---|---|---|
| `EventQueue.EventBuffer.Put` | src/niadra/_queue.py:105-118 | takes the item at the back, or counts it as `queue_full` at capacity; the due-time marks stay exact, the counts add up |
| `EventQueue.PutRefusesOnlyWhenFull` | src/niadra/_queue.py:105-118 | a put is refused exactly at capacity, under `queue_full`; the first item and the first turn start the marks |
| `EventQueue.EventBuffer.Requeue` | src/niadra/_queue.py:120-131 | puts back in front as much of the batch as fits, oldest first, counts the rest as dropped, keeps capacity and marks |
| `EventQueue.RequeueKeepsAllThatFits` | src/niadra/_queue.py:120-131 | a failed batch comes back whole when it fits, otherwise its oldest items up to capacity, so an item is lost only when the queue ends full |
| `EventQueue.EventBuffer.Take` | src/niadra/_queue.py:133-140 | hands out the oldest items up to the limit; what is left is timed from now |
| `EventQueue.TakesAllOrTheLimit` | src/niadra/_queue.py:133-140 | a batch is everything that waits, or exactly the limit |
| `EventQueue.EventBuffer.Drop` | src/niadra/_queue.py:91-103 | `dropped` stays the sum of the counts by reason |
| `Wakeup.DueExactly` | src/niadra/_queue.py:142-159 | something is due exactly when the oldest item waited an interval, the oldest turn a turn interval, or a batch is full |
| `Wakeup.DueStaysDue` | src/niadra/_queue.py:105-159 | what is due stays due whatever is put |
| `Flusher.PauseDoubles` | src/niadra/_queue.py:218-235 | n + 1 failures in a row pause for the interval doubled n times, never past 30 seconds |
| `Flusher.Pacing.Failed` | src/niadra/_queue.py:226-228 | one failure takes the pause one such step on and sets its end |
| `Flusher.Heartbeat.DueItem` | src/niadra/_queue.py:191-199 | a heartbeat carries every item counted since the last one, which starts a new window |
| `Flusher.SyncFlusher.Prepare` | src/niadra/_queue.py:249-257 | a batch is the oldest 500 items, with the heartbeat if it fits and the heartbeat back in the queue if not |
| `Flusher.SyncFlusher.Report` | src/niadra/_queue.py:202-215 | each item error of a 207 is dropped under its own code, except one about a heartbeat |
| `Flusher.SyncFlusher.SendOne` | src/niadra/_queue.py:353-371 | one send with nothing in between: answered items counted, a failed batch back in front with a pause, a refused one dropped |
| `Flusher.SyncFlusher.Flush` | src/niadra/_queue.py:301-319 | sends batch after batch until one fails or the time is up, and nothing else; nothing at all, and false, while another send stays busy |
| `Flusher.FlushEmpties` | src/niadra/_queue.py:301-319 | a flush is true exactly when it emptied the queue, and always is without a deadline or a failed send |
| `Flusher.SendShrinks` | src/niadra/_queue.py:249-257 | a send that does not fail leaves fewer items, with a heartbeat put back counted, so a flush ends |
| `QueueRuns.RunsAreSafe` | src/niadra/_queue.py:105-270 | in every state of every interleaving: answered, in flight, queued is in put order with no repeats; each item is in exactly one of answered, in flight, queued, lost; capacity and marks hold, and every drop is a lost item, an item error or an item never serialized; every answered item is counted for a heartbeat once |
| `QueueRuns.LosesExactly` | src/niadra/_queue.py:105-270 | in every state, exactly which steps lose something: a put or a heartbeat on a full queue, a failed batch that does not fit, a refused one; but for the last the queue is full then |
| `QueueRuns.DropsUnderTheirReason` | src/niadra/_queue.py:91-270 | how many drops each step adds under each reason, the item errors of a 207 one by one |
| `QueueRuns.PauseInRuns` | src/niadra/_queue.py:218-235 | in every run the pause is none after an answer, and after n failures in a row the interval doubled n - 1 times, 30 seconds at most |
| `QueueRuns.PauseEndsWithAnAnswer` | src/niadra/_queue.py:260-270 | only a failed send pauses, from the moment it failed, and only an answered one ends the pause |
| `QueueRuns.BeatLeavesWithTheBatch` | src/niadra/_queue.py:249-257 | a heartbeat that is due leaves at the end of a batch with room, carrying the count, and otherwise goes to the front of the queue |
| `QueueRuns.NothingOvertakes` | src/niadra/_queue.py:120-140 | no item is answered before one put earlier, whatever failed in between |
| `QueueRuns.SendIsThreeSteps` | src/niadra/_queue.py:353-371 | the proved method `SendOne` is the run's take, heartbeat and settle steps in a row |
| `Wakeup.NoLostWakeUp` | src/niadra/_queue.py:238-246 | with no put between its append and its notify, the sender sleeps no later than the due time of what waits, the end of the pause, or 10 ms |
| `Wakeup.SleepsUntilThen` | src/niadra/_queue.py:238-246 | with no time between its readings the sender sleeps until just that moment, and not at all exactly when something is due and nothing pauses |
| `Wakeup.LagIsReached` | src/niadra/_queue.py:338-351 | a run that sleeps past that bound by exactly the time between the sender's readings, for any such time that leaves 10 ms to sleep |
| `Wakeup.RunsAreTracked` | src/niadra/_queue.py:291-351 | the same while puts are on their way: too long a sleep always has a put left that will ring in time |
| `Wakeup.PutNeverDelays` | src/niadra/_queue.py:105-155 | a put never makes what waits due later |
| `Wakeup.SenderWorks` | src/niadra/_queue.py:249-270 | every step of the sender on the buffer is one the wake-up runs allow |
| `AgentState.ApplyWrite` | src/niadra/agent_state.py:213-222 | a replacement is the body; a merge leaves each field as the write says, or removed, or as it was |
| `AgentState.AgentStates.Read` | src/niadra/agent_state.py:131-141 | takes the answer only when it is no older and nothing is pending; serves the copy |
| `AgentState.AgentStates.Unread` | src/niadra/agent_state.py:143-153 | serves what is held, or nothing at version 0, marked degraded |
| `AgentState.AgentStates.Written` | src/niadra/agent_state.py:155-164 | a stored write changes the copy unless its version is lower |
| `AgentState.AgentStates.Later` | src/niadra/agent_state.py:174-188 | refuses a replacement whose version does not match; otherwise the copy takes the write as one more pending, and the outbox gets it last |
| `AgentState.AgentStates.Resent` | src/niadra/agent_state.py:190-198 | one pending write less, and the higher version |
| `AgentState.AgentStates.ResentRefused` | src/niadra/agent_state.py:200-206 | drops the copy and keeps a conflict for the code |
| `AgentState.Outbox.Put` | src/niadra/_outbox.py:49-55 | the write goes last; past capacity exactly the oldest goes, and is counted |
| `AgentState.Outbox.Remove` | src/niadra/_outbox.py:65-82 | takes out the write that was sent, and only while it is still the oldest, even among equal writes |
| `AgentState.Outbox.Flush` | src/niadra/_outbox.py:109-122 | settles a prefix in order and stops at the first attempt without an answer or past the deadline; true exactly when it got its turn and emptied the outbox |
| `AgentStateRuns.LawHoldsExactly` | src/niadra/agent_state.py:131-222 | in every run of one caller's merges with direct answers only on an empty outbox, the copy is the server's body with the waiting writes folded in order, also when the server took attempts whose answer was lost, exactly as long as no read replaces it with another body while it counts nothing pending |
| `AgentStateRuns.LawBreaksExactly` | src/niadra/agent_state.py:131-141 | the step that ends it is exactly a read with some field that is neither what the last waiting write to it wrote nor, without one, what the server holds |
| `AgentStateRuns.CopyConverges` | src/niadra/agent_state.py:131-222 | it holds throughout every run in which each direct answer finds the last callback run, though the caller reads and writes between a resend's arrival, its answer, its removal and its callback |
| `AgentStateRuns.CrossedAnswersExactly` | src/niadra/agent_state.py:155-164 | of two callers' writes answered in the other order, exactly when the copy is right all the same |
| `AgentStateRuns.DrainingConverges` | src/niadra/agent_state.py:190-242 | while it holds, draining the outbox makes the server's body the copy's; with every callback counted, version and pending agree too |
| `AgentStateRuns.FoldHead` | src/niadra/agent_state.py:213-222 | applying the oldest waiting write at the server, once or again, changes nothing in the fold |
| `AgentStateRuns.FoldUnheard` | src/niadra/agent_state.py:174-222 | a write the server took unheard that waits behind others is as if it had not arrived |
| `AgentStateRuns.DirectAnswerAmongWaiting` | src/niadra/agent_state.py:155-164 | exactly when a direct write answered while others wait leaves the copy right |
| `AgentStateRuns.AnswerBeforeCallbackLosesAWrite` | src/niadra/_outbox.py:65-82 | from every state with that gap open, and any two later writes that differ in a field, a run whose read undoes the second, which still waits |
| `AgentStateRuns.ReadYourWrites` | src/niadra/agent_state.py:131-206 | for any answers at all, no read is below a version an earlier read or stored write returned until a refused resend drops the copy; a pending write keeps reads from replacing it |
| `AgentStateRuns.ReplacementIsServed` | src/niadra/agent_state.py:131-188 | after any history, a replacement taken during an outage is what every read serves until it is resent, whatever the copy held and those reads bring |
| `AgentStateRuns.ReplacementIsTheBody` | src/niadra/agent_state.py:213-242 | a replacement leaves its own body in the copy, offline and online, and at the server |
| `AgentStateRuns.AcceptedExactly` | src/niadra/agent_state.py:174-188 | offline, a write is taken exactly when it is a merge, names no version, or names the one last shown; it counts as one more pending |
| `AgentStateRuns.ServerTakesExactly` | src/niadra/agent_state.py:235-242 | the server takes a write exactly when it names no version or the current one, as the next one, field by field for a merge |
| `AgentStateRuns.ResendCounts` | src/niadra/agent_state.py:190-198 | a resend's answer takes one off what is pending and keeps the higher version and the body |
| `PackCache.ContextCache.Get` | src/niadra/_cache.py:96-113 | fresh, stale or expired by age; hands out the pending deltas unless expired, and makes the key the newest |
| `PackCache.ContextCache.Absorb` | src/niadra/_cache.py:138-190 | stores nothing under a moved epoch; a 304 or a degraded answer folds into the entry, a new pack replaces it and evicts the oldest |
| `PackCache.ContextCache.Fallback` | src/niadra/_cache.py:192-213 | a 401 empties the cache, a 403 drops the key, anything else serves the last good pack with its deltas |
| `PackCache.ContextCache.PurgeScope` | src/niadra/_cache.py:231-239 | drops the scope's entries and no others, and moves its epoch, forgetting the oldest past 4096 |
| `PackCache.ContextCache.BeginRefresh` | src/niadra/_cache.py:215-221 | one refresh of a key at a time |
| `CacheRuns.DeltasExactlyOnce` | src/niadra/_cache.py:71-200 | while a pack keeps its etag, what was handed out and then what is pending is what was pending and then folded in: in order, each once |
| `CacheRuns.ShownIsHandedOut` | src/niadra/_cache.py:71-75 | what a caller is shown is what was handed out, joined |
| `CacheRuns.StoredPackHasNoDelta` | src/niadra/_cache.py:138-190 | no stored pack ever carries a delta |
| `CacheRuns.ServedWithinMaxStale` | src/niadra/_cache.py:96-213 | over any calls, what `get` and `fallback` serve is the last pack stored for that key, with its own etag, stored or confirmed at most `max_stale` before |
| `CacheServing.FreshnessExactly` | src/niadra/_cache.py:96-113 | in every run, a hit is fresh, stale or expired by the time since its pack was last stored or confirmed, with the origin each has, and there is one exactly while that is within `max_stale` |
| `CacheServing.AbsorbShows` | src/niadra/_cache.py:138-190 | what each kind of answer shows: the held pack brought up to date and marked as cached, the last good one marked degraded, or the answer as it came |
| `CacheServing.FallbackServesExactly` | src/niadra/_cache.py:192-213 | a failure serves a held pack within `max_stale` as the last good one, exactly when access was not refused |
| `CacheServing.TooOldIsDropped` | src/niadra/_cache.py:125-131 | a pack past `max_stale` goes when it is asked for, and no other with it |
| `CacheServing.RefusalsDropExactly` | src/niadra/_cache.py:202-243 | what a 401, a 403 and a purged scope drop, and that they drop no more |
| `CacheServing.OldestAreEvicted` | src/niadra/_cache.py:170-182 | a hit or a stored answer makes its key the newest; only a new pack evicts, the oldest keys, down to `max_entries` |
| `CacheRuns.EntriesWereAnswered` | src/niadra/_cache.py:138-190 | an entry holds the last whole pack stored for its key, and the moment of the last answer that stored or confirmed it |
| `CacheRuns.AbsorbedServedExactly` | src/niadra/_cache.py:153-168 | in every run, what a degraded answer serves is within `max_stale` exactly when the entry is; what a 304 serves it confirms itself |
| `CacheEpochs.EpochIsRemembered` | src/niadra/_cache.py:120-239 | in every run an epoch is the number of its scope's purges since it was last forgotten, 4096 other scopes after its latest purge |
| `CacheEpochs.KeptExactly` | src/niadra/_cache.py:231-239 | an epoch is kept exactly when its scope was purged and fewer than 4096 others since |
| `CacheEpochs.StoredExactly` | src/niadra/_cache.py:138-182 | in every run an answer is stored exactly when that number is what it was as its read began, and it brings a pack or finds an entry; otherwise nothing changes |
| `CacheEpochs.LateAnswerIsNotStored` | src/niadra/_cache.py:120-152 | while its scope's epoch is not forgotten, an answer to a read begun before a purge of the scope changes nothing, over any calls in between |
| `CacheEpochs.FewScopesAreKept` | src/niadra/_cache.py:231-239 | no epoch is forgotten as long as no more than 4096 scopes were purged in all |
| `CacheEpochs.PurgedScopeStaysEmpty` | src/niadra/_cache.py:138-239 | a purged scope stays empty until an answer to a read begun later is absorbed, or its epoch is forgotten after an earlier one began |
| `CacheEpochs.ForgettingLetsALateAnswerIn` | src/niadra/_cache.py:120-239 | exactly when a pack is stored although the scope was purged after its read began: with 4096 other scopes purged since, when there was no epoch then; with fewer, only when the epoch was forgotten in between and came back to its number |
| `CacheEpochs.EmptyingLetsALateAnswerIn` | src/niadra/_cache.py:202-243 | the first answer for a key after a 401 emptied the cache, to a read begun before, is stored exactly when it brings a pack and no purge moved its epoch |
| `Session.Session.Absorb` | src/niadra/conversation.py:431-442 | an empty context or a new etag starts over; otherwise a new chunk is kept, and the kept ones are served joined |
| `Session.SessionKeeps` | src/niadra/conversation.py:431-442 | for one pack, what is kept depends on the chunks alone |
| `Session.NewPackStartsOver` | src/niadra/conversation.py:431-442 | after any history, once another pack comes what is kept are the chunks after the context that brought it |
| `Session.LastTwentyDistinct` | src/niadra/conversation.py:431-442 | always the last twenty distinct chunks, exactly when no chunk comes back after it was pushed out |
| `Session.KeptIsShortAndDistinct` | src/niadra/conversation.py:431-442 | at most twenty, none twice |
| `Transport.RetryState.AttemptTimeout` | src/niadra/_transport.py:127-136 | never past the deadline, and none when the budget is spent |
| `Transport.RetryState.Decide` | src/niadra/_transport.py:138-171 | tries again exactly for a retryable reply, below `max_attempts`, when the delay ends before the deadline |
| `Transport.Warmth.Begin` | src/niadra/_transport.py:275-300 | grants the allowance only when no idle connection is likely left and the outage's allowance is not over |
| `Transport.Warmth.Answered` | src/niadra/_transport.py:307-315 | an answer ends the outage and counts the connections in use as open |
| `Transport.BudgetGiven` | src/niadra/_transport.py:275-300 | what is given lies between the budget and the budget plus the allowance, under the ceiling unless the budget was past it |
| `Transport.GivenExactly` | src/niadra/_transport.py:275-300 | exactly which requests are given more, and how much: as many live connections as requests out at most, the outage's allowance not over, and room below the ceiling |
| `Transport.BeginRemembers` | src/niadra/_transport.py:275-300 | every budgeted request is counted, and an outage's first grant is remembered from the first that finds no idle connection |
| `Transport.AnswerRenews` | src/niadra/_transport.py:307-315 | after an answer as many connections as requests are out, one at least, are the newest, the other live ones stay, and the outage is over |
| `Transport.SyncTransport.Attempts` | src/niadra/_transport.py:378-411 | for any answers and delays: an attempt follows exactly while the last reply is worth it, attempts are left and the wait ends before the deadline; each takes its time, ends within the budget, and says what it does of the connections |
| `Transport.CalledInTime` | src/niadra/_transport.py:378-411 | so a call with a budget ends within it, and no attempt after a wait starts at or past the deadline |
| `Transport.DelaysByReply` | src/niadra/_transport.py:138-171 | no wait after a 421, what a 429 asks, otherwise part of 0.2 seconds doubled with each attempt, at most 8 |
| `Transport.BackoffIsHalfToAll` | src/niadra/_transport.py:169-171 | that part is half to all of it |
| `Transport.PoolBetween` | src/niadra/_transport.py:378-474 | an attempt without an answer says nothing of the connections, and a retry after a 421 starts with none |
| `Transport.SyncTransport.Call` | src/niadra/_transport.py:369-376 | the same for the request `begin` gave, ending within the budget and the allowance, and within the ceiling; the in-flight count is as before |
| `WarmthRuns.RunsAreBounded` | src/niadra/_transport.py:253-329 | in every run: in flight is begins less ends; the open list is latest first and no longer than the most out at once, or 1; each grant lies within one allowance of the outage's first |
| `WarmthRuns.OneAllowancePerOutage` | src/niadra/_transport.py:275-300 | any two requests given the allowance for one outage started within one allowance of each other |
| `WarmthRuns.ColdStartIsGiven` | src/niadra/_transport.py:253-300 | in every run the first request to find no connection live is given the allowance, as far as its ceiling leaves room |
| `Prefetch.Mailbox.Offer` | src/niadra/_client.py:1250-1254 | starts a sender exactly when the scope has none; otherwise the text replaces the one waiting |
| `Prefetch.Mailbox.Pop` | src/niadra/_client.py:1271-1276 | gives the waiting text, or frees the scope |
| `Prefetch.BoxIsTheMailbox` | src/niadra/_client.py:1250-1276 | the steps of the runs do to a scope's place what the two methods do to the map |
| `Prefetch.NewestIsSent` | src/niadra/_client.py:1246-1276 | in every interleaving: at most one sender per scope, texts sent in accepted order and none twice, and the last accepted was attempted whenever no sender runs |
| `VoiceLine.VoiceLine.Hear` | src/niadra/_client.py:1624-1640 | the newest partial is kept, and a settler started only when none runs |
| `VoiceLine.VoiceLine.Settle` | src/niadra/_client.py:1642-1654 | the settled partial leaves the line once |
| `VoiceLine.VoiceLine.Speculate` | src/niadra/_client.py:1656-1668 | nothing for a closed line or words already read; behind a read in flight the text waits; otherwise it is read |
| `VoiceLine.VoiceLine.Done` | src/niadra/_client.py:1616-1622 | a finished speculative read takes the waiting text along |
| `VoiceLine.VoiceLine.Answering` | src/niadra/_voice.py:115-121 | the remembered reads that answer a turn, newest first, without failed ones |
| `VoiceLine.ReadWordsAreCovered` | src/niadra/_voice.py:63-124 | a turn whose words were read finds that read |
| `VoiceLine.LongerStartCovers` | src/niadra/_voice.py:63-68 | a longer start of a turn covers it too |
| `VoiceLine.CoversExactly` | src/niadra/_voice.py:63-68 | a read answers a turn exactly when the turn goes on from its words and those are enough of it |
| `VoiceLine.CoveringExactly` | src/niadra/_voice.py:115-121 | a turn is answered by exactly the remembered reads that cover it and were not lost |
| `VoiceLine.CoveringFromTheLatest` | src/niadra/_voice.py:115-121 | the latest first |
| `VoiceRuns.ReadsExactly` | src/niadra/_client.py:1656-1668 | exactly when a settled partial is read, left waiting or passed over |
| `VoiceRuns.RemembersTheLatest` | src/niadra/_voice.py:107-110 | in every run a line remembers at most its four latest reads, in order |
| `VoiceRuns.HeardIsTaken` | src/niadra/_client.py:1624-1654 | a partial heard on an open line becomes the newest settled one |
| `VoiceRuns.DoneTakesTheWaiting` | src/niadra/_client.py:1616-1622 | the line's own read takes the waiting text along as it ends, another takes nothing |
| `VoiceLine.VoiceLine.ForgetReads` | src/niadra/_client.py:1434-1438 | the line's read and the remembered ones are gone, its waiting text and the running read are not |
| `VoiceRuns.ReadOnce` | src/niadra/_client.py:1624-1668 | in every interleaving: one settler, and no settled partial read twice |
| `VoiceRuns.JoinedIsCutOff` | src/niadra/_client.py:1427-1668 | in every interleaving two speculative reads fly at once only when the reads were forgotten while the older one flew, before the younger started |
| `VoiceRuns.SecondFliesExactly` | src/niadra/_client.py:1656-1668 | the step that lets a second fly is exactly one that starts a read while one cut off still flies |
| `VoiceRuns.OneAtATime` | src/niadra/_client.py:1596-1668 | so one at a time, as long as the reads are forgotten only while none flies |
| `VoiceRuns.EndsExactly` | src/niadra/_client.py:1427-1668 | in every interleaving, in a quiet line, a settled partial was read, had nothing new or was forgotten on closing, exactly when no other was left waiting in its place and the reads were not forgotten while it waited, with nothing moving it since |
| `VoiceRuns.NothingStranded` | src/niadra/_client.py:1596-1668 | so none is left waiting, as long as the reads are forgotten only while no text waits |
| `VoiceRuns.NewestIsDisplacedByOlder` | src/niadra/_client.py:1656-1668 | what takes the place of the newest is always an older one |
| `VoiceRuns.NewestIsNext` | src/niadra/_client.py:1427-1668 | with texts taken up in turn, partials are read in order, and the newest has ended in a quiet line exactly when the reads were not forgotten while it waited |
| `VoiceRuns.CalmReadsNewest` | src/niadra/_client.py:1427-1668 | with no text taken up while an older one is on its way, nor the reads forgotten while one waits, texts are in turn and the promise holds |
| `VoiceRuns.OrderBreaksExactly` | src/niadra/_client.py:1656-1668 | the first step out of order is exactly one that starts a read of a text older than one already read |
| `VoiceRuns.LostExactly` | src/niadra/_client.py:1427-1668 | the step that loses the newest is exactly one that leaves an older text waiting in its place, or forgets the reads while it waits |
| `VoiceRuns.NewestMayBeLost` | src/niadra/_client.py:1616-1668 | for any four different texts, a run that forgets no reads and ends quiet with the newest never read |
| `VoiceRuns.NewestMayBeLeft` | src/niadra/_client.py:1427-1438 | for any two, a run with nothing overtaken that ends quiet with the newest still waiting |
| `VoiceRuns.TwoMayFly` | src/niadra/_client.py:1427-1668 | for any three, a run with nothing overtaken in which two reads fly at once, and one in which they are out of order |
| `Resolvers.Breaker.Failed` | src/niadra/resolvers.py:104-107 | one failure: those of the window kept, and the circuit opened at the fifth |
| `Resolvers.OpensExactly` | src/niadra/resolvers.py:97-110 | over any outcomes, a failure opens the circuit exactly when the fourth before it, since the last success or opening, came less than 30 seconds ago |
| `Resolvers.Entry.Wait` | src/niadra/resolvers.py:152-161 | gives the wait to the next slot and takes it; none without a rate |
| `Resolvers.CallsAreSpaced` | src/niadra/resolvers.py:152-161 | for any clock readings, calls start a period apart and never before they were asked for |
| `Resolvers.RateHolds` | src/niadra/resolvers.py:131-161 | so any stretch of time holds at most one call and its length times the rate |
| `Resolvers.NoNeedlessWait` | src/niadra/resolvers.py:152-161 | no call waits longer than the rate needs |
| `Binomials.Vandermonde` | src/niadra_mock/replay.py:42-50 | the terms of the exact test, over every count, add up to its denominator |
| `Binomials.HeadsMakeRow` | src/niadra_mock/measure.py:114-120 | the two tails of the sign test make `2**n` |
| `Replay.FisherIsProbability` | src/niadra_mock/replay.py:42-50 | for any baseline the exact value is above 0 and at most 1 |
| `Replay.MoreFailures` | src/niadra_mock/replay.py:42-50 | more failures among as many checks never raise the value, for any baseline |
| `Replay.AgainstRecording` | src/niadra_mock/replay.py:42-50 | against the recording it is C(2n-f, n-f) / C(2n, n) |
| `Replay.AtMostTwoToMinus` | src/niadra_mock/replay.py:42-50 | and at most 2^-f |
| `Replay.WorsenedStats` | src/niadra_mock/replay.py:57-74 | when passed checks turn into failed ones, a regression stays one and a flaky assertion stays flaky or becomes one |
| `Replay.CountsExecutions` | src/niadra_mock/replay.py:57-90 | what counts for an assertion is each completed execution that checked it, once |
| `Replay.RegressedExactly` | src/niadra_mock/replay.py:57-74 | an assertion regressed exactly when it failed twice, its rate fell by a fifth and chance is below one in twenty, and is flaky exactly when it failed otherwise |
| `Replay.VerdictExactly` | src/niadra_mock/replay.py:77-106 | which executions give which verdict |
| `Replay.MoreFailuresNeverHelp` | src/niadra_mock/replay.py:77-106 | nor does a scenario's verdict become less severe, for any baseline and any rounding that keeps order |
| `SignTest.IsSymmetricProbability` | src/niadra_mock/measure.py:114-120 | the two-sided value is above 0, at most 1, and the same with the counts exchanged |
| `SignTest.ClampOnlyWhenEqual` | src/niadra_mock/measure.py:114-120 | the clamp changes it exactly when the counts are equal |
| `SignTest.NeverGrowsApart` | src/niadra_mock/measure.py:114-120 | it never grows as the counts move apart |
| `SignTest.OutOfAll` | src/niadra_mock/measure.py:114-120 | it is twice the ways to draw at most the rarer side's cases, out of `2**n` |
| `SignTest.AllOnOneSide` | src/niadra_mock/measure.py:114-120 | two in `2**n` with every case on one side, and none without cases |
| `ExposureToken.DecodeEncode` | src/niadra/exposure.py:71-72 | decoding undoes the unpadded base64url encoding of any bytes |
| `ExposureToken.SameBits` | src/niadra/exposure.py:71-72 | three bytes and their four symbols are the same 24 bits |
| `ExposureToken.LastBits` | src/niadra/exposure.py:71-72 | one or two last bytes are padded with zero bits, without the symbols for those alone |
| `ExposureToken.SymbolsInOrder` | src/niadra/exposure.py:71-72 | the alphabet of Table 2 of RFC 4648 |
| `ExposureToken.PrintedIsAccepted` | src/niadra/exposure.py:35-64 | a printed token parses to its id and position and has 33 to 36 characters, for any digest |
| `ExposureToken.AcceptedIsPrinted` | src/niadra/exposure.py:45-64 | what parses is the one printed token of what it names |
| `ExposureToken.AcceptedExactlyWhenPrinted` | src/niadra/exposure.py:35-72 | both ways: accepted exactly when it is the printed token of the pair returned |
| `ExposureToken.VerifierIsOfTheDigest` | src/niadra/exposure.py:67-68 | the verifier is the first three bytes of the digest of what it verifies |
| `ExposureToken.PrintedText` | src/niadra/exposure.py:35-42 | a token is the version, the id's 22 symbols, the position and the verifier of the three |
| `ExposureToken.RefusedExactly` | src/niadra/exposure.py:45-64 | which refusal a token meets |
| `Text.JoinedSplit` | src/niadra/exposure.py:45-50 | joining what a split gave is the text again |
| `Text.DecimalOfNumber` | src/niadra/exposure.py:45-60 | digits without a leading zero are the only writing of their number |
| `Uuid7.Generator.Next` | src/niadra/_ids.py:19-35 | one call's new time and counter, and its value |
| `Uuid7.IdsIncrease` | src/niadra/_ids.py:19-35 | for any clock readings, even backwards, later values are larger while the millisecond fits 48 bits |
| `Uuid7.TicksStayClose` | src/niadra/_ids.py:19-35 | after n calls, 4096 times the millisecond plus the counter is at most 4096 times the largest reading plus 2047 plus n |
| `Uuid7.VersionAndVariant` | src/niadra/_ids.py:30-35 | version 7, variant 2, 128 bits |
| `Uuid7.TimeCounterAndRandom` | src/niadra/_ids.py:30-35 | the millisecond, the counter and the random bits stand in their fields |
| `Uuid7.FollowsTheClock` | src/niadra/_ids.py:22-32 | a later reading is taken with eleven random bits to count from, any other counts one more, into the next millisecond after 4096 |
| `SchemaGraph.Ordering.Visit` | scripts/sync_spec.py:331-336 | one visit adds what it reaches and no name twice, and in a graph without cycles the name comes after all it refers to |
| `SchemaGraph.Ordered` | scripts/sync_spec.py:327-340 | every schema exactly once; without cycles, each after all it refers to |
| `SchemaGraph.Reach` | scripts/sync_spec.py:228-236 | exactly the names reachable from the roots |
| `Coordination.CoordinationStore.Check` | src/niadra_mock/coordinate.py:79-132 | the first rule that applies decides; an allowed effect is reserved under its next attempt, an allowed contact is spent |
| `CoordinationRuns.AllowedExactly` | src/niadra_mock/coordinate.py:99-132 | a contact is allowed exactly when it is inbound, or its key is free, it is not suppressed, no other holder has a live claim and no budget is used up; deferred exactly when the claim is the first to fail |
| `CoordinationRuns.ReasonIsTheFirst` | src/niadra_mock/coordinate.py:99-132 | the reason is the first obstacle |
| `CoordinationRuns.EffectShown` | src/niadra_mock/coordinate.py:104-116 | the effect a decision shows |
| `CoordinationRuns.CheckChangesExactly` | src/niadra_mock/coordinate.py:79-116 | in every run, what a check reserves and spends, and that it changes nothing else |
| `CoordinationRuns.SuppressedIsNeverAllowed` | src/niadra_mock/coordinate.py:79-118 | in every run no suppressed outbound check is allowed or spends |
| `Coordination.CoordinationStore.Declare` | src/niadra_mock/coordinate.py:162-169 | settles the key; a key seen before keeps its attempt |
| `Coordination.CoordinationStore.ClaimTarget` | src/niadra_mock/coordinate.py:171-196 | granted exactly when no other holder has a live claim on the target |
| `Coordination.CoordinationStore.Release` | src/niadra_mock/coordinate.py:198-205 | ends the claim and no other |
| `CoordinationRuns.DeclarationSettles` | src/niadra_mock/coordinate.py:162-169 | a declaration settles its key and no other, and which attempt that then has |
| `CoordinationRuns.ClaimsLastTheirLease` | src/niadra_mock/coordinate.py:171-205 | exactly when a claim is granted, that it lasts its lease from the reading, and that a released one ends |
| `CoordinationRuns.ClaimsAreExclusive` | src/niadra_mock/coordinate.py:171-205 | two holders never hold live claims on one target, even when a claim read its clock long before |
| `CoordinationRuns.ReservationsIncrease` | src/niadra_mock/coordinate.py:106-169 | per key the attempts strictly increase, and a second reservation needs a declaration in between that frees the key |
| `CoordinationRuns.BudgetHolds` | src/niadra_mock/coordinate.py:71-132 | allowed contacts are what the store counts as spent, and never pass a budget that is not lowered |
| `Backing.ValuesIn` | src/niadra/backing.py:215-275 | for any candidates: kept spans are disjoint and in order, and are the first `limit` values that took their span |
| `Backing.TakenUnlessOverlapped` | src/niadra/backing.py:222-227 | a candidate takes its span exactly when no earlier taker overlaps it |
| `Backing.KeptAreDisjoint` | src/niadra/backing.py:215-275 | sorting the takers keeps each of them, and they are disjoint |
| `Backing.ValuesExactly` | src/niadra/backing.py:222-253 | of what took its span, every value is kept, and no time of day |
| `Backing.Sources.AddAmount` | src/niadra/backing.py:317-320 | each amount once, at the place it first came |
| `Backing.Sources.BacksAmount` | src/niadra/backing.py:355-369 | backed exactly when it is a source amount or, over the newest 64, a sum, a difference, a sum of three with two distinct, or a known count from 2 to 60 times one |
| `Backing.BackedExactly` | src/niadra/backing.py:355-369 | the same over values: three of which two differ, among the 64 newest distinct amounts |
| `CardNumber.Card` | src/niadra/backing.py:469-478 | the loop from the right decides by the weighted total, the length and the first digit |
| `CardNumber.WeighedFromTheRight` | src/niadra/backing.py:473-477 | every second digit from the last is doubled, and adds the digits of its double |
| `CardNumber.OneDigitIsCaught` | src/niadra/backing.py:469-478 | no change of one digit of a card number is a card number |
| `CardNumber.NeighbourSwap` | src/niadra/backing.py:469-478 | a swap of neighbours passes exactly when they are equal or 0 and 9, and a first digit of 2 to 6 stays in front |
| `Amounts.WholeReadsBack` | src/niadra/backing.py:186-199 | a whole amount of up to fifteen digits reads back, grouped by comma, point or not at all |
| `Amounts.DecimalsReadBack` | src/niadra/backing.py:186-199 | so does one with two decimals after either mark, grouped by either |
| `Amounts.RaisesExactly` | src/niadra/backing.py:186-199 | reading raises exactly when one or two characters after the last separator are no number to `int` |
| `Amounts.NotAnAmountExactly` | src/niadra/backing.py:186-198 | no amount without a digit in front, or with more than fifteen before the decimal part, and only then |
| `Amounts.PartsExactly` | src/niadra/backing.py:191-195 | one or two characters after the last comma or point are the decimal part, and no others |
| `Amounts.FractionExactly` | src/niadra/backing.py:199 | what a decimal part is worth: tenths, hundredths, and what white space and signs make of it |
| `Amounts.CentsExactly` | src/niadra/backing.py:196-199 | an amount is the number its whole part writes and its decimal part's worth |
| `Amounts.DigitsNeverRaise` | src/niadra/backing.py:186-199 | with digits there it never raises, and the part before it gives the whole units |
| `Amounts.MisreadExactly` | src/niadra/backing.py:186-199 | an amount that is read has the whole units of its text, except exactly where a minus and a digit that is not zero follow the last separator; then that digit is taken off in cents |
| `Amounts.TokensThatMisread` | src/niadra/backing.py:186-199 | one token that raises, and one whose sign is read |

## Left out

- HTTP, TLS, thread pools, asyncio and atexit: an attempt ends answered, failed or refused after any delay, or is applied by the server without an answer.
- The asynchronous flusher, its send gate, the asynchronous outbox and transport: they follow the synchronous ones under an event loop.
- Starting and stopping the background threads; the sender's run ends nowhere in the model.
- The outbox's own pause and its background loop; `flush` and the steps of a send are modelled.
- A direct state write that the server applies only after a later one (an answer lost and the request still on its way), replacements resent from the outbox, and outbox overflow are outside the convergence law; `ReadYourWrites` holds with any of them.
- Deep copies and `updated_at` of a working state; values are compared by their canonical text.
- More than one caller of one agent's working state at once: setting the copy and putting into the outbox are two holds of two locks, and so are the server's step and what the copy makes of it.
- Stripping the ends of a text before it is read as an amount: `Amounts` starts from the stripped text.
- Aliasing of a cache entry: the source changes entries in place, and no entry leaves the cache, so an entry is a value here. `age_ms` and the other fields of a pack that no branch reads are not kept.
- A negative `max_entries`, for which the source's eviction loop would fail on an empty cache.
- Pydantic models, JSON, request builders, the generated API and route modules: plumbing with no state.
- The regular expressions of `backing.py`, the dates, codes and numbers of `backs`, guards and conflicts; CPF and CNPJ check digits, whose remainder rule does not catch every single change; digits and white space outside ASCII.
- The branch of the sign test for more than a thousand cases, `summarize` and the engagement counters; rounding to six digits, except that verdicts hold for any rounding that keeps order.
- Storage of replay scenarios and runs, how a baseline is chosen, and the cases of a run.
- The text form of a UUID, SHA-256 and signatures: a digest is any function to at least three bytes.
- A schema reference with no schema: the source raises `KeyError`, so `SchemaGraph.Ordered` and `SchemaGraph.Reach` ask for a graph whose references all exist; the Python recursion limit is not modelled.
- Contact tokens, suppression reads and the HTTP surface of the mock.
- The prefetch executor's shutdown, after which an accepted text may stay unsent.
- The voice line's least-recently-used list, its waits and budgets, the text folding of `words_of`, and how the pinned body and a read's slots are composed; the asynchronous voice path; a settler the pool refuses while the client closes.
- What a resolver returns and how verdicts are read from it, and registering a type again, which starts a new breaker and a new rate; a rate of zero, on which the source divides.
- The rest of `conversation.py`: not part of this model.
