# skialith: verified model

skialith writes every agent event to a NATS JetStream log before it batches it into a database, ingests the
log into a second table, and resumes agents from that table. This project models its four stateful protocols
and proves what they keep over all runs.

**Write-behind pipeline** (`AgentEvents`, `WriterMachine`, `BatchWriter`, `Refinement`, `EventStore`,
`EventStoreTheorems`, `EventStoreSignals`, `SaveEvent`). `BatchWriter` and `SaveEvent` hold the loop, the two flush
functions, `save_event` and `with_dead_letter` in their imperative form. Each is proved equal to steps of two
machines. `WriterMachine` is one writer; `EventStore` adds any callers, the log, any number of writers (a
dead-letter swap leaves the old one draining) and the shared table. Database outcomes, ticks, closes, crashes and
abandoned calls are chosen by the environment. A transaction may also commit and report an error.

**Rate limiter** (`LimiterMachine`, `LimiterBounds`, `RateLimiter`, `LimiterClocks`). `wait` for any number of
tasks, one atomic operation a step. `RateLimiter` holds the loop itself, and runs whose iterations are not
interleaved; four uninterrupted steps are proved to be one iteration. `LimiterClocks` says what such a run admits
under any clock.

**Instance lease** (`LeaseMachine`, `InstanceLock`). Acquire, heartbeat and drop over a compare-and-swap key
with a 30 s time to live, for any number of processes. The heartbeat starts from the constant revision 1, as
`src/instance_lock.rs` line 81 has it.

**Ingest and resume** (`AgentTraces`, `TraceIngest`, `IngestLoop`, `Resurrection`, `EndToEnd`). At-least-once
delivery with redelivery, reordering and crashes between insert and acknowledgement. `IngestLoop` is the nested
loop with its error exits. `EndToEnd` joins the write path at one end and `resume_agent` at the other.

## What the code does and its documentation does not say

- `README.md` line 22 promises that duplicate events are ignored at the database layer. The batch INSERT has
  no IGNORE: `AgentEvents.DuplicateBlocksInnocentEvent` gives a batch whose new event is lost because of a stored
  one. `AgentEvents.RetryIgnoresDuplicatesIff` says exactly when the claim holds of a flush, and
  `Refinement.IgnoresDuplicatesIff` that it holds of a writer exactly when its batch size is at most 1.
- `src/instance_lock.rs` lines 1 to 17 promise a single instance. `LeaseMachine.ExclusionIffFirstRevision` proves
  that a holder that does all its part excludes others exactly when it acquired at revision 1 of the bucket.
- `src/limits.rs` lines 52 and 53 mention a reset race. `LimiterMachine.EveryTaskCountsOnce` shows it grow with the
  number of tasks, and `LimiterBounds` bounds it.
- `src/limits.rs` line 40 promises a limit per second. Apart from that race, `LimiterClocks.ClockKeepsLimitIff`
  proves that a clock keeps it under all traffic exactly when it shows no second in two separate blocks.
- `resume_agent` returns the last ingested trace. Checkpoints are published on another subject
  (`src/agent_manager.rs` line 45) than ingest reads (`src/trace_ingest.rs` line 51).
- An agent id with a dot in it is logged and batched but never ingested (`EndToEnd.DottedIdIsNeverIngested`).

## Assumptions about the surroundings

The stream is append-only with sequences from 1, delivers only messages that match the consumer's filter, and
gives the consumer their sequence. A bounded channel is first-in first-out and reports closed only when drained.
A transaction is atomic and enforces its UNIQUE key, comparing text by its code points. KV revisions are the
bucket's message sequence. Atomics are sequentially consistent. Channels, log, tables and processes start
as `Init` and `START` say.

## Model

| member | source | states |
|---|---|---|
| AgentEvents.FlushIsAtomic | src/durable_event_store.rs:254-357 | For every sequence of attempt outcomes, keys stay unique, the batch is stored wholly or not at all, and reported success means wholly |
| AgentEvents.RetryIsDecidedByFirstReached | src/durable_event_store.rs:262-278 | The four-attempt loop is decided by the first attempt that reached the database: it alone stores the batch, and the flush succeeds exactly if its result was reported |
| AgentEvents.FailedYetStoredIffAmbiguous | src/durable_event_store.rs:262-296 | A failed flush left its rows in the table exactly when an attempt committed but reported an error before any other got through |
| AgentEvents.PoisonBatch | src/durable_event_store.rs:262-296 | Without ambiguous commits, a flush succeeds exactly if the batch is legal and some attempt is healthy; otherwise no row of it is stored |
| AgentEvents.InsertKeepsKeysDistinct | migrations/20260325000001_create_agent_events.sql:8 | An accepted multi-row INSERT keeps the UNIQUE key |
| AgentEvents.KeysClashIff | migrations/20260325000001_create_agent_events.sql:8 | Two events clash in the UNIQUE key exactly if they agree in agent id and event id |
| AgentEvents.AttemptByColumns | src/durable_event_store.rs:337-357 | Column by column: a transaction stores the whole batch exactly if it has a row, no two rows agree in both ids, none agrees in both with a stored row, and the database gets it; it succeeds exactly if that is also reported |
| AgentEvents.DuplicatesIgnoredIff | src/durable_event_store.rs:341-352 | The plain INSERT leaves the table as INSERT IGNORE would exactly when the batch has no duplicate, or only stored keys |
| AgentEvents.RetryIgnoresDuplicatesIff | README.md:22 | Under every sequence of outcomes, a flush leaves the table as INSERT IGNORE would exactly when all its keys are stored already, or it is legal and some attempt reached the database |
| AgentEvents.DuplicateBlocksInnocentEvent | README.md:22 | The claim fails: one stored key keeps a new event out under every sequence of outcomes |
| WriterMachine.FlushAllIsRetry | src/durable_event_store.rs:254-297 | Attempts that nobody interrupts are the retry loop; the batch is empty afterwards and went to commit, dead-letter or loss |
| WriterMachine.AttemptKeepsInv | src/durable_event_store.rs:262-296 | One transaction step keeps conservation, the batch bound, and what a finished flush says about its outcomes |
| WriterMachine.ReceiveKeepsInv | src/durable_event_store.rs:309-333 | The receive and tick branches keep the same invariant, with the batch below its bound between rounds |
| WriterMachine.CrashKeepsInv | src/durable_event_store.rs:305-333 | A crash discards exactly the batch and the channel |
| WriterMachine.TickFlushesBatch | src/durable_event_store.rs:328-332 | A tick with a partial batch finishes exactly one flush, of that batch, and leaves it empty; its rows, its fate and its attempts are given by the outcomes. Without a batch it does nothing |
| WriterMachine.ReceiveTakesOldest | src/durable_event_store.rs:313-318 | A receive moves the oldest queued event to the batch and flushes exactly if the batch is full with it |
| WriterMachine.ReceiveOnEmptyChannel | src/durable_event_store.rs:320-325 | An empty channel that is open is waited for; once it is closed, a partial batch is flushed and the loop ends |
| WriterMachine.BurstFillsChannel | src/durable_event_store.rs:112 | Of any burst of sends the channel takes, in order, exactly as many as it has room for, and none once it is closed |
| WriterMachine.SendAndAttemptCommute | src/durable_event_store.rs:222-225 | A running flush does not hold up senders: a send and an attempt may go in either order |
| WriterMachine.ClosedWriterStops | src/durable_event_store.rs:309-334 | A closed writer drains: as many receives as it has events queued, and one more, end the loop with nothing held, whatever the database does |
| BatchWriter.BatchWriter.FlushBatch | src/durable_event_store.rs:337-357 | One transaction; the batch is cleared only after a reported commit |
| BatchWriter.BatchWriter.FlushBatchWithRetry | src/durable_event_store.rs:254-297 | The loop over attempts is the machine's flush; it returns with an empty batch, and dead-letters the whole batch exactly on failure with an open channel |
| BatchWriter.BatchWriter.Select | src/durable_event_store.rs:310-332 | One round of the select loop is one signal of the machine |
| BatchWriter.BatchWriter.Run | src/durable_event_store.rs:299-335 | The writer task over any schedule is the machine's run |
| Refinement.SignalKeepsInv | src/durable_event_store.rs:299-335 | After every signal, everything accepted is in a finished flush, the batch or the channel, in order |
| Refinement.SignalSimulates | src/durable_event_store.rs:299-335 | Each signal keeps table, batch and channel together equal to what synchronous insertion has made |
| Refinement.BatchedEqualsSynchronous | src/durable_event_store.rs:299-335 | With distinct new keys and every flush reaching the database, the drained writer's table is the sent sequence in send order, for every batch size, capacity and schedule |
| Refinement.IgnoresDuplicatesIff | README.md:22 | Whatever keys repeat, every drained schedule whose flushes reach the database leaves the INSERT IGNORE of what the channel took, exactly when the batch size is at most 1 |
| SaveEvent.SkialithStore.constructor | src/durable_event_store.rs:89-126 | `new` caps the batch size, raises a flush interval below 100 ms to it, and starts one writer without dead-letter |
| SaveEvent.SkialithStore.WithDeadLetter | src/durable_event_store.rs:128-139 | The swap starts a writer with dead-letter and the unclamped default and closes the old channel, leaving its contents to drain |
| SaveEvent.SkialithStore.SaveEvent | src/durable_event_store.rs:192-228 | Wait, publish, enqueue: the call gets a slot of the limiter first, each outcome is the corresponding steps of the machine, only an acknowledged event reaches the channel, and no second lets more than max(1, limit) events through |
| SaveEvent.SkialithStore.AwaitSlot | src/durable_event_store.rs:198-200 | The call takes the first slot of a new window or the next one of the old, in a second in which it waited; without a limit it changes nothing |
| SaveEvent.SkialithStore.PublishAndSend | src/durable_event_store.rs:202-227 | What follows the wait is the machine's steps, with the result and the new stream and channel for each outcome |
| SaveEvent.SecondPublishesAtMost | src/limits.rs:40-46 | Any sequence of calls on a clock that only moves on publishes at most max(1, limit) events in a second |
| SaveEvent.PublishThenEnqueue | src/durable_event_store.rs:210-225 | An acknowledged event ends in the channel, refused because the queue is closed, or waiting for room |
| EventStore.StepKeepsWriters | src/durable_event_store.rs:128-335 | Every step of any participant keeps every writer's invariant |
| EventStore.StepKeepsLog | src/durable_event_store.rs:210-225 | Every step keeps the log equal, as a multiset, to events in flight, refused, and taken by channels |
| EventStore.StepKeepsTable | src/durable_event_store.rs:254-357 | Every step keeps the table as whole batches, each writer's in its own order, with unique keys |
| EventStoreTheorems.Conservation | src/durable_event_store.rs:128-139 | In every reachable state each writer's accepted events are its flushes, a crash's discards, the batch and the channel, in order and once; a crash discards at most a channel and a batch; a stopped writer nothing |
| EventStoreTheorems.FirstWriterKeepsItsCap | src/durable_event_store.rs:96-113 | No flush of the writer started by `new` exceeds its clamped batch size, in any run |
| EventStoreTheorems.LogAccountsForEverything | src/durable_event_store.rs:210-225 | Whatever a channel, batch, flush, discard or the table holds has its own message in the log |
| EventStoreTheorems.TableIsWholeBatches | src/durable_event_store.rs:337-357 | The table is its initial rows followed by whole batches, each writer's own in the order it took them, whatever interleaves |
| EventStoreTheorems.DistinctKeysNeverPoison | src/durable_event_store.rs:262-296 | With distinct keys, a flush of any writer is stored exactly when one of its attempts reached the database |
| EventStoreTheorems.DrainedStoreIsSynchronous | src/durable_event_store.rs:299-335 | Over all interleavings with callers, one drained writer leaves the table that synchronous insertion in channel order makes |
| EventStoreTheorems.DrainedStoresHoldEverything | src/durable_event_store.rs:128-139 | With any number of writers after swaps, the drained table has every taken event once, no other new row, and each writer's rows in channel order |
| EventStoreSignals.RoundIsASignal | src/durable_event_store.rs:309-334 | Uninterrupted, a writer among callers and other writers does what the writer machine does on that signal, and nothing else in the store changes |
| EventStoreSignals.SwapLeavesOldToDrain | src/durable_event_store.rs:128-139 | A swap or a drop waits for callers in flight, then closes the current channel with its contents; a swap adds an empty writer with dead-letter |
| EventStoreSignals.AbandonAndCrash | src/durable_event_store.rs:222-225 | A caller that goes away leaves its event refused; a crash discards one writer's batch and channel and touches nothing else |
| EventStoreSignals.EveryStateCanBeDrained | src/durable_event_store.rs:299-335 | Nothing gets stuck: from every reachable state, whatever the database does to every flush from then on, the callers can go away, the store be dropped and every writer end |
| LimiterMachine.NextKeepsCounter | src/limits.rs:63-102 | Each atomic step keeps the counter equal to admissions since the last reset and within max(1, limit) |
| LimiterMachine.CounterIsExact | src/limits.rs:74-91 | In every run of any tasks the counter is exact, c + 1 stays within the limit, and all admissions fit max(1, limit) times (1 + resets) |
| LimiterMachine.StepReturnsWithSlot | src/limits.rs:63-102 | In every interleaving a call returns only by the step that admits it, once and in the current second; a call without limit is admitted by its first step |
| LimiterMachine.CallsAreAdmittedOrInside | src/limits.rs:42-44 | Over every run, each call begun has been admitted exactly once or is still inside |
| LimiterMachine.TwoResetsCountOnce | src/limits.rs:74-79 | The documented race: two tasks that both saw an old window are both admitted and counted once |
| LimiterMachine.EveryTaskCountsOnce | src/limits.rs:67-79 | From the start, any number of tasks calling in one second can all be admitted while the counter shows 1, whatever the limit |
| LimiterBounds.StepPaysAt | src/limits.rs:67-79 | While the clock shows a second, each reset is paid for by a potential over the tasks' positions |
| LimiterBounds.ResetsAreBounded | src/limits.rs:67-79 | With n tasks and a forward clock, at most n(n + 2) resets happen in any second, and at most as many with any one reading |
| LimiterBounds.SecondAdmitsAtMost | src/limits.rs:40-53 | No clock second sees more than max(1, limit) times (n + 1) squared admissions, in any interleaving |
| LimiterBounds.AdmissionsAreOccurrences | src/limits.rs:40-46 | The admissions counted for a second are the entries of the history that are that second |
| RateLimiter.IterationIsFourSteps | src/limits.rs:67-100 | Four uninterrupted atomic steps are one iteration: reset, claim, or sleep |
| RateLimiter.EveryCallCanFinish | src/limits.rs:67-101 | Nobody waits for another task: from any state of the others, a call inside is admitted once by its own steps and at most one passing of a second |
| RateLimiter.SleepReachesNextSecond | src/limits.rs:95-100 | The sleep is 2 to 1001 ms and ends 1 ms into the next second, exactly while the cast to 64 bits loses nothing |
| RateLimiter.RateLimiter.Wait | src/limits.rs:63-102 | A lone caller terminates, is admitted by one iteration on the window it found, and sleeps at most once |
| RateLimiter.BlockAdmitsAtMost | src/limits.rs:67-92 | Under any clock, a second admits at most max(1, limit) for each maximal block of equal readings |
| RateLimiter.ForwardClockKeepsTheLimit | src/limits.rs:40-46 | With a forward clock and whole iterations, each second admits at most max(1, limit), and a span at most that for each of its seconds |
| RateLimiter.BackwardClockDoublesTheLimit | src/limits.rs:67-79 | After any run, a clock that shows a second, any other, and the second again can admit it twice the limit at least |
| RateLimiter.ReadingsAreARun | src/limits.rs:67-101 | Every sequence of readings is a run of the machine from its start, with that window and those admissions, so what holds of readings is reached |
| LimiterClocks.AdmissionsAreTheShare | src/limits.rs:67-92 | Under any clock, a second is admitted exactly those of its readings that are among the first max(1, limit) of their block of equal readings, and the window left behind is given |
| LimiterClocks.TrafficIsBounded | src/limits.rs:67-92 | Whatever the traffic, a second is admitted at most max(1, limit) for each separate block of the clock that shows it |
| LimiterClocks.FullTrafficTakesTheQuota | src/limits.rs:67-92 | Traffic that reads each showing max(1, limit) times is admitted exactly that |
| LimiterClocks.ClockKeepsLimitIff | src/limits.rs:40-46 | For runs of whole iterations, a clock keeps every second within max(1, limit) under all traffic exactly when it shows no second in two separate blocks; with a limit of 0, showings of second 0 before any other are not counted |
| LimiterClocks.ClockKeepsLimitIffNoReturn | src/limits.rs:40-46 | The same for a positive limit in terms of the showings: none comes back after another second was shown |
| LimiterClocks.ForwardClocksKeepLimit | src/limits.rs:40-46 | Every clock that does not run back keeps the limit, and one that runs back without coming back does too |
| LeaseMachine.StepKeepsInv | src/instance_lock.rs:55-94 | Every step keeps the entry the last write, and each guard tied to revisions it wrote itself |
| LeaseMachine.HeartbeatIsFenced | src/instance_lock.rs:77-89 | Revisions only grow, and a heartbeat writes only over an entry its own process wrote last |
| LeaseMachine.BeatWritesIff | src/instance_lock.rs:82-88 | What a heartbeat of any holder leaves: it writes exactly if the live revision is the one it remembers, and beats on with the new one exactly if it hears so; any failure ends the loop |
| LeaseMachine.EndedHeartbeatStaysSilent | src/instance_lock.rs:84-87 | After the loop has ended its process never writes again, over every run |
| LeaseMachine.AcquireWaitsForTtl | src/instance_lock.rs:72-75 | An acquire succeeds exactly if the key is absent and the network answers, and then the last write is at least 30 s old |
| LeaseMachine.AcquireWritesIff | src/instance_lock.rs:55-94 | What an acquire leaves in every field: with HA nothing but a skipped process; otherwise it writes exactly if the key is absent and the request arrives, and guards exactly if it hears so |
| LeaseMachine.RecoveryAfterTtl | src/instance_lock.rs:97-102 | 30 s without a refresh and an expiry, and the next acquire succeeds |
| LeaseMachine.FirstHolderExcludes | src/instance_lock.rs:13-17 | While the first holder of a bucket does its part it stays the only guard, over every run |
| LeaseMachine.DiligentStepKeepsHolder | src/instance_lock.rs:82-88 | For such a holder every heartbeat matches and every other acquire is refused |
| LeaseMachine.LaterHolderNeverRefreshes | src/instance_lock.rs:81-88 | A holder that acquired at another revision never refreshes, and its first heartbeat ends the loop |
| LeaseMachine.LaterHolderIsJoined | src/instance_lock.rs:81-88 | From every state where such a holder has just acquired, a run with it doing all its part reaches two guards |
| LeaseMachine.ExclusionIffFirstRevision | src/instance_lock.rs:72-89 | A run with a diligent holder and two guards exists exactly when the holder acquired at a revision other than 1 |
| LeaseMachine.SecondAcquirerIsLater | src/instance_lock.rs:72-81 | Every acquirer after an expiry is such a holder: its revision is one more than all writes so far |
| InstanceLock.Bucket.Update | src/instance_lock.rs:72-73 | Compare-and-swap on the live revision, 0 meaning absent |
| InstanceLock.InstanceLock.Acquire | src/instance_lock.rs:55-94 | Acquire is the machine's step; a guard with a heartbeat is returned exactly if it guards |
| InstanceLock.InstanceLock.Heartbeat | src/instance_lock.rs:77-89 | The loop's local revision is what the machine says the process remembers, over every schedule of ticks and other processes; for a first holder ticking on time the loop does not end |
| InstanceLock.OnTimeKeepsHolder | src/instance_lock.rs:77-89 | With a first tick at once and the next ones at most 10 s apart, the first holder refreshes at every tick and stays the only guard, whatever other processes do |
| InstanceLock.InstanceLock.Drop | src/instance_lock.rs:97-102 | Dropping the guard ends the heartbeat and leaves the entry |
| AgentTraces.DbNamesRoundTrip | src/agent_trace.rs:14-22 | The database name determines the event type, and ingest reads it back |
| AgentTraces.NarrowingKeepsResidue | src/trace_ingest.rs:85-92 | The narrowing to 32 bits identifies exactly values that differ by a multiple of 2^32 |
| AgentTraces.NarrowingIsInjectiveOnWindows | src/trace_ingest.rs:85-92 | It is injective on any 2^32 consecutive values and the identity below 2^31 |
| TraceIngest.SubjectRoundTrip | src/trace_ingest.rs:71-77 | A saved event matches the filter exactly if its id is one non-empty part, and then ingest reads that id |
| TraceIngest.SplitRoundTrip | src/trace_ingest.rs:72-77 | Splitting a subject loses nothing, and no part has a dot |
| TraceIngest.FilterIff | src/trace_ingest.rs:51 | The consumer is given exactly the subjects `agent.trace.<id>` with an id of one part, and reads that id |
| TraceIngest.FirstWriterWins | src/agent_trace.rs:35-66 | The table holds, for each key, the row of the first message processed for it |
| TraceIngest.AckedMessageHasRow | src/trace_ingest.rs:104-114 | In every reachable state an acknowledged message has a row at its key, with the first processed content; its own is absent exactly if another message of its key was processed before any with its content |
| TraceIngest.CrashNeedsRedelivery | src/trace_ingest.rs:111-114 | After a crash nothing inserted before it is acknowledged without another delivery, over every run |
| TraceIngest.ConfluentIff | src/trace_ingest.rs:22-30 | All schedules covering the same messages agree exactly if messages of the same key have the same row |
| TraceIngest.RunsAgree | src/trace_ingest.rs:59-116 | Two runs that processed the same such messages end with the same table |
| TraceIngest.FallbackStepsAreOrdered | src/trace_ingest.rs:81-92 | Steps taken from the stream sequence are distinct, ordered and non-negative below 2^31 |
| TraceIngest.OwnFieldsBecomeTheRow | src/trace_ingest.rs:85-109 | A payload's own step_index is the row's step if it fits 32 bits, and its event_type the row's type if recognised; a step outside 64 bits falls back to the sequence, and a missing sequence is 0 |
| IngestLoop.IngestTask.InsertTrace | src/agent_trace.rs:35-66 | A duplicate key counts as success and changes nothing; any other error is returned |
| IngestLoop.IngestTask.HandleMessage | src/trace_ingest.rs:69-115 | Decode, derive, insert, then acknowledge; each error ends the loop before the next step |
| IngestLoop.IngestTask.IngestStream | src/trace_ingest.rs:59-116 | The nested loops over any schedule of fetches, messages published between them included |
| IngestLoop.IngestAllIsARun | src/trace_ingest.rs:59-116 | Every state the loops reach is a state of the ingest machine |
| IngestLoop.IngestStopsAtFirstFailure | src/trace_ingest.rs:59-116 | Over every schedule of fetches: all deliveries before the first failure have rows and are acknowledged; that one decides the error and is not acknowledged; nothing after it has any effect |
| Resurrection.ResumeIsTheMaximum | src/resurrection.rs:62-92 | The query is a function of the table: step and payload of the row no thought of the agent exceeds, a placeholder for a NULL payload, or a new agent at step 0 exactly if there is none |
| Resurrection.OtherRowsDoNotMatter | src/resurrection.rs:62-70 | Rows of other agents and rows that are no thoughts never change the answer |
| Resurrection.ResumeIsMonotone | src/resurrection.rs:62-92 | Under insertion the resumed step never decreases, except exactly from a new agent to only negative steps |
| EndToEnd.TracesMirrorTheLog | src/trace_ingest.rs:22-30 | Exactly once from at least once: with all deliverable messages acknowledged, the traces table and the log of single-part ids are in bijection |
| EndToEnd.ResumeReturnsLastPublished | src/resurrection.rs:37-57 | Then an agent resumes with its last published event at its stream sequence, exactly if its id is a single part |
| EndToEnd.MirrorStartsNew | src/resurrection.rs:88-91 | An agent that published nothing starts new |
| EndToEnd.IngestCanCatchUp | src/trace_ingest.rs:59-116 | From every reachable state ingest alone can acknowledge every deliverable message |
| EndToEnd.RowsHaveTheirTraces | src/durable_event_store.rs:210-225 | Once everything deliverable is acknowledged, each event with a single-part id has at least as many rows of its own in `agent_traces` as were added to `agent_events` for it |
| EndToEnd.DrainedTablesAgree | src/trace_ingest.rs:22-30 | And exactly as many, plus those that never reached a channel, when keys are distinct and all writers have drained |
| EndToEnd.ResumeCoversAcked | src/trace_ingest.rs:111-114 | Before that, an agent resumes at or after each of its acknowledged events, with an event of its own |
| EndToEnd.ResumeNeverGoesBack | src/resurrection.rs:62-92 | Over any continuation of any run the resumed step does not decrease |
| EndToEnd.SequenceSurvivesIff | src/trace_ingest.rs:85-92 | A saved event keeps its stream sequence as its step exactly below 2^31 |
| EndToEnd.DottedIdIsNeverIngested | src/durable_event_store.rs:202 | An id that is not a single part is never processed or acknowledged |

## Left out

- HTTP server, SDKs, LangGraph adapter, benchmark, `src/main.rs`, `src/managed/*`: no state of their own beyond the four protocols.
- License parsing and signatures: the rate limit is an arbitrary number and HA a boolean.
- Checkpoint publishing in `src/agent_manager.rs`: no code in this repository ingests it.
- JSON text, UTF-8 conversion, headers and logging: a payload is a value with an optional step and event type, and whether it decodes.
- Retry delays and the pace of the flush ticker: attempts and ticks may come at any time, so only their number and order matter.
- The managed build: the constants of `src/limits.rs` are those of the community build.
- Text collation and column lengths: keys compare exactly, and a value too long for its column is an attempt that fails.
- A channel of capacity 0, for which `new` panics: the model's channel then never has room.
- Weak memory: the limiter's relaxed loads and stores are sequentially consistent here.
- Subject characters other than the dot: NATS refuses some, which the model treats as ordinary text.
- Deletion and purging of the stream, the bucket or the tables by an administrator.
- RateLimiter.RateLimiter.Wait: other tasks do not run during the call, whose interleavings are `LimiterMachine`; timer and clock are one, and only move forward.
- SaveEvent.SkialithStore.SaveEvent: a full channel returns `Blocked` instead of awaiting; the send that follows is the machine's `Enqueue`.
- LimiterMachine.CounterIsExact: a sleeping task may wake at any time, which adds runs and removes none.
- InstanceLock.InstanceLock.Heartbeat: ticks may come at any time; `OnTime` is the 10 s schedule.
- EndToEnd.TracesMirrorTheLog: only saved events are on the stream, which holds fewer than 2^31 messages; `TraceIngest` treats other messages.
