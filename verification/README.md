# A model of calvera in Dafny

Calvera is a disruptor: one ring of slots with a power-of-two size, sequence counters, one or many
producers, and groups of consumers in stages. This project models it in Dafny and proves what its
correctness rests on, for every ring size, any number of producers and consumers, every wiring that the
builder can make, and every run.

`dafny verify dfyconfig.toml` checks the whole project.

## How the model is built

**The availability bits.** `Bits.dfy` defines words and the bit operations on them, `Indexing.dfy` slots,
rounds and parity flags of sequences, with the mask and shift forms that the code computes.
`Availability.dfy` says what the bits mean, and `BitScans.dfy` what scans of fixed words return.
`MultiProducerBarrier.dfy` is the class with its array of words, the masked range publication and the
scanning loop, proved against that meaning.

**The protocol.** `Topology.dfy` is the graph of consumers, and `Protocol.dfy` a system of actors that take
turns. A step is at most one load, store, compare-and-swap or XOR of shared memory; everything else is local
and may be stale: the cursor value that a producer has read, the part of the consumers that it has looked
at, its cached bound, and the shifted word, bit index and flag of a scan. Handlers and pollers, batches of
any size, one word of a range flipped at a time, clones, drops and joins are all in it. `Mode` selects the
single-producer or the multi-producer disruptor. Besides shared memory and actors, a state carries history:
for every claimed sequence the contents of its slot, who claimed it, and whether it has been published.
`Invariant.dfy`, `ProducerSteps.dfy` and `ConsumerSteps.dfy` hold the inductive invariant and its
preservation; the results are in `Safety.dfy`, `Stages.dfy`, `Refinement.dfy`, `Runs.dfy`, `Events.dfy`,
`Claims.dfy`, `Scans.dfy`, `ScanRuns.dfy`, `Answers.dfy`, `Grants.dfy` and `Shutdown.dfy`, and on progress
in `Progress.dfy`, `Completion.dfy`, `Requests.dfy`, `Closing.dfy` and `WaitFree.dfy`. `HandlerRuns.dfy`
connects the loop of a handler's thread with the steps of the protocol.

**Progress.** A poller that nobody polls any more, or that is dropped, keeps its cursor in its group, because
`EventPoller` has no `Drop` (`src/consumer/unmanaged.rs:65-70`); a closure of a handler or producer may never
return. So what can come to happen is stated relative to any set of producers and consumers that stand still,
that is, take no step any more (`Progress.Still`), and exactly: what the others can bring about, if and only
if which condition on the present state. For a resting poller, not being polled is standing still
(`Completion.UnpolledStandsStill`). What an actor reaches by its own steps, in every run and whatever the
others do, is in `WaitFree.dfy`.

**The sequential parts.** `Cursors.dfy`, `Rings.dfy`, `UniProducer.dfy`, `MultiProducer.dfy`, `Managed.dfy`,
`Poller.dfy` and `Builder.dfy` are the classes of the code with their fields, loops and methods;
`Moments.dfy` says what the memory of a multi-producer disruptor looks like at any turn. Where the code only
makes sense while others run (the fold of a barrier over cursors that advance, the compare-and-swap loop of
`MultiProducer`, the thread of a handler), what the others do is a script that the code under proof cannot
look into.

Sequences are integers and `NONE` is -1. Words are naturals below 2^64; masks, shifts and the conversion of
a negative sequence to an unsigned number are modelled as the code computes them.

## What the code promises and what holds

- `src/_periphery/barrier.rs:23` tells callers of `get_after` to pass the last sequence that was returned.
  For the multi-producer barrier that is one too early: `BitScans.LastReturnedIsTooEarly` is a concrete case
  of words, `Scans.EarlyScansDoFail` a reachable state of a concrete disruptor, `Scans.ScanFromCursor` says
  exactly when it makes a difference, and `Scans.EarlyScanFailsExactly` when it can come to. The callers in
  the code pass the sequence after their cursor, and the model follows them.
- `src/consumer/unmanaged.rs:193` says that `poll_take(0)` gives an empty guard and not `NoEvents`. It gives
  `NoEvents` if nothing was available when it was called (`Answers.PollsAreTrue`), and
  `Grants.ZeroLimitFindsNothing` is a run in which it does.
- A request for more slots than the ring has is never granted, so `batch_publish` with such a number spins
  for ever. A request that fits the ring can come to be granted if and only if no consumer that stands still
  is too far behind and no producer that stands still holds back what consumers need to make room
  (`Requests.RequestsSucceedExactly`). One dropped poller is enough to block every request in the end
  (`Requests.OneStandstillBlocks`), and, before a handler, the drop of the last handle
  (`Closing.DropsReturnExactly`). A request for zero slots succeeds without moving the cursor.
- The size of the ring is checked to be a power of two by `RingBuffer::new`, which the builders call with
  the same size; `MultiProducerBarrier::new` itself only checks that it is at least 64. The class of the
  model requires both.

## Model

| member | source | states |
|---|---|---|
| Indexing.SlotIsMasked | src/ring_buffer.rs:86-91 | `sequence & mask` is the slot of the sequence counted round the ring, for every power of two and also for negative sequences |
| Indexing.RoundIsShifted | src/producer/multi.rs:360-363 | the arithmetic shift of a sequence is its round |
| Indexing.DistinctInWindow | src/ring_buffer.rs:29-35 | sequences less than a lap apart have different slots |
| Indexing.OneLapOn | src/producer/multi.rs:279-283 | one lap later the slot is the same and the flag is the opposite |
| Availability.ChunkIsSingles | src/producer/multi.rs:377-398 | one XOR with the mask of a run of sequences in a word leaves the same words as publishing them singly |
| Availability.NextChunk | src/producer/multi.rs:384-393 | flipping the next word continues the publication of a range, over word ends and laps |
| Availability.ScanResultIsUnique | src/producer/multi.rs:414-450 | for any bit contents there is at most one place where a scan can stop, and it is within one lap |
| Availability.OneBitTest | src/producer/multi.rs:279-290 | while a slot is in the round of a sequence or the one before, its one bit tells whether the sequence is published |
| Availability.FlipEachCounts | src/producer/multi.rs:372-399 | every bit stays the parity of the number of publications of its slot |
| MultiBarrier.MultiProducerBarrier.constructor | src/producer/multi.rs:309-332 | a new barrier encodes zero publications: all ones read as round -1 |
| MultiBarrier.MultiProducerBarrier.CalculateAvailabilityIndices | src/producer/multi.rs:346-356 | the mask arithmetic gives the word and the bit of the slot |
| MultiBarrier.MultiProducerBarrier.CalculateAvailabilityFlag | src/producer/multi.rs:360-363 | the shift arithmetic gives the parity of the round |
| MultiBarrier.MultiProducerBarrier.Publish | src/producer/multi.rs:402-409 | flips the bit of one slot and counts one more publication of it |
| MultiBarrier.MultiProducerBarrier.FlipRange | src/producer/multi.rs:372-399 | the loop with the collected mask leaves the same words as `n` single publications, for every `from` and `n`, also more than the ring has |
| MultiBarrier.MultiProducerBarrier.PublishRange | src/producer/multi.rs:372-399 | a range counts one publication for every sequence in it |
| MultiBarrier.MultiProducerBarrier.GetAfter | src/producer/multi.rs:414-450 | the scan ends for any bits, and returns one less than the first sequence from `prev` whose own bit and flag disagree |
| Scans.NextMatches | src/producer/multi.rs:430-448 | in every iteration the shifted word, the bit index and the flag belong to the sequence under test |
| Scans.QuietScan | src/producer/multi.rs:414-450 | the scan steps of the protocol return the same as the loop if no bit changes meanwhile, after at most a lap |
| Scans.QuietScanFromStart | src/producer/multi.rs:414-450 | a whole scan from its first load to its result, over fixed words |
| BitScans.ScanAfterPublishing | src/producer/multi.rs:414-450 | after the first `n` publications a scan from anywhere in the lap up to `n` finds all of them |
| BitScans.LastReturnedIsTooEarly | src/_periphery/barrier.rs:23-30 | a case in which a scan from the last sequence returned finds nothing although everything is published |
| Scans.ScanFromCursor | src/_periphery/barrier.rs:23-30 | in every reachable state, scanning from the cursor instead of right after it gives the same answer if and only if the sequence a lap after the cursor is not published |
| Scans.EarlyScansFailInRuns | src/_periphery/barrier.rs:23-30 | if nobody stands still, from every reachable state with a live handle some run leads to a state in which a scan from any cursor takes back even the cursor, while a scan from right after it finds a full lap |
| Scans.EarlyScanFailsExactly | src/_periphery/barrier.rs:23-30 | while a consumer stays where it is, a scan from its cursor can come to fail if and only if no consumer that stands still is further behind and the sequence one lap after the cursor is not held back |
| Scans.EarlyScansDoFail | src/_periphery/barrier.rs:23-30 | a disruptor with 64 slots, one handle and one handler, and a reachable state of it in which the scan from the cursor fails |
| Safety.InitHolds | src/producer/multi.rs:169-192 | a new disruptor satisfies the invariant |
| ProducerSteps.ClaimKeeps | src/producer/multi.rs:218-223 | a successful compare-and-swap keeps the invariant, although cursor, rear and bound were read earlier |
| ProducerSteps.FlipKeeps | src/producer/multi.rs:386-397 | flipping one word of a range keeps the invariant |
| ProducerSteps.WriteKeeps | src/producer/multi.rs:253-264 | writing a claimed slot disturbs nothing that any consumer may still read |
| ProducerSteps.ProducerStepKeeps | src/producer/multi.rs:119-269 | every step of a producer keeps the invariant |
| ConsumerSteps.FoldIsGranted | src/consumer/mod.rs:97-102 | a minimum of cursors that were read at different moments never exceeds what every consumer of the group has passed |
| ConsumerSteps.NextBitInNextWord | src/producer/multi.rs:435-448 | the scan stays right when it loads the next word while producers flip bits |
| ConsumerSteps.ConsumerStepKeeps | src/consumer/managed.rs:70-88 | every step of a handler or poller keeps the invariant |
| Safety.ReachableHolds | src/producer/multi.rs:288-291 | the invariant holds in every reachable state |
| Safety.NoTwoWriters | src/producer/multi.rs:241-248 | no slot is ever held by two producers |
| Safety.NoWriterWithReader | src/consumer/managed.rs:79-83 | no slot is ever held by a producer while a consumer of any stage may still be reading it |
| Safety.ClaimTakesEffect | src/producer/multi.rs:195-232 | a claim is one interval right after all earlier claims, owned by nobody else, and within a lap of every consumer at the moment of the exchange |
| Safety.ClaimsFitTheRing | src/producer/multi.rs:202-210 | more slots than the ring has are never claimed |
| Safety.ScanIsSound | src/producer/multi.rs:414-450 | what a scan returns while words change is published without a gap and at most a lap after the cursor |
| ScanRuns.ScanIsComplete | src/producer/multi.rs:414-450 | while producers flip bits, a scan returns at least everything that was published when it started, up to a lap after the cursor, and nothing that is unpublished when it ends |
| Safety.HandlerSeesTheLog | src/consumer/managed.rs:71-88 | a handler has been called for 0, 1, 2, ... without gap or repeat, each time with the event of that sequence, which is published |
| Safety.PollerSeesTheLog | src/consumer/unmanaged.rs:98-109 | a poller has yielded events in increasing order, each the event of its sequence |
| Safety.StagesAreOrdered | src/consumer/managed.rs:177-187 | what a consumer has been given, every consumer of the group before has passed |
| Safety.GateProtectsEveryStage | src/builder/multi.rs:271-281 | gating the producers on the last group keeps them within a lap of every consumer of every stage |
| Safety.ParityEncodesHistory | src/producer/multi.rs:294-301 | in the lap after any cursor the number of publications of a slot is the round of the sequence, plus one if it is published, and its bit is the parity of that number |
| Refinement.LogStepOk | src/lib.rs:20-22 | the abstract log keeps its lag bound, and committed entries are final |
| Refinement.LogRunOk | src/lib.rs:16-22 | the same over whole runs of the log |
| Refinement.StepRefines | src/consumer/managed.rs:70-88 | every step of the protocol is a step of the append-only log, or no step of it |
| Refinement.ProtocolRefinesLog | src/producer/multi.rs:195-269 | every run of the protocol is a run of an append-only log of bounded lag with one offset for every consumer, which at every moment has exactly what the protocol has claimed, published, passed and delivered |
| Runs.RunIsLater | src/producer/multi.rs:195-269 | over any stretch of a run the log, the claims and all cursors only go forward |
| Runs.PublishedForever | src/producer/multi.rs:288-291 | what is published stays published, with the same event and owner |
| Runs.ProgramOrder | src/producer/multi.rs:218-223 | of two claims in a run the later one has the later sequences, so every producer's events keep their order |
| Runs.ClaimsPartition | src/producer/multi.rs:218-223 | in any run the sequences up to the cursor are exactly those that some successful exchange has claimed, every one in exactly one claim |
| Events.EventsComeFromTheirProducers | src/producer/multi.rs:236-269 | every event of the log is what was last written for its sequence, by the producer that claimed it |
| Events.CallersMay | src/producer/multi.rs:253-264 | in every reachable state a closure may write any event to the sequences of its batch and to no others, and an idle handle may begin any request, be cloned or be dropped |
| Claims.RefusalTakesEffect | src/producer/multi.rs:202-210 | if a request is refused, by whatever step, there was a moment during the call at which too few slots were really free; the error says at most what was missing then, and at least what is missing at the end if nobody else claims |
| Claims.RequestEnds | src/producer/multi.rs:200-229 | a request ends in two ways only: by the exchange that claims the sequences after all that is claimed, or by a refusal after a look at the consumers; a lost exchange never ends it |
| Claims.LooksOnlyWhenNeeded | src/producer/multi.rs:201-205 | in every reachable state, a producer that reads the cursor of a consumer has a cached bound that does not suffice |
| Claims.BoundIsRenewed | src/producer/multi.rs:202-216 | the cached bound changes only when it does not suffice, and then to a lap after the slowest consumer as it was during the call |
| Claims.CallsReportTheirClaims | src/producer/multi.rs:253-269 | in any run, a call whose exchange has succeeded next answers with the last sequence that it claimed, when all of them are published |
| Claims.FailuresArePaidFor | src/producer/multi.rs:218-228 | in any run a producer loses at most as many exchanges as others have won non-empty claims |
| Claims.SingleProducerNeverFails | src/producer/uni.rs:165-195 | a single producer's claim never meets a rival |
| Topology.GateIsBehind | src/builder/multi.rs:271-281 | some cursor of the gate is at or behind any given consumer, through any number of stages |
| Topology.PrecedingIsAhead | src/builder/uni.rs:163-179 | a consumer is never ahead of one that it waits for through any number of stages |
| Shutdown.NothingPendingWithoutHandles | src/producer/multi.rs:149-163 | without live handles everything claimed is published |
| Shutdown.OnlyTheLastDropCloses | src/producer/multi.rs:149-156 | the counter is the number of live handles, and exactly the drop of the last one closes the disruptor |
| Shutdown.ClosedIsFinal | src/producer/multi.rs:149-163 | after the last drop nothing more is claimed |
| Shutdown.StopSequenceIsExact | src/producer/multi.rs:154-156 | a stop sequence that is set is the number of claimed sequences, all of them published |
| Shutdown.ExitIsExact | src/consumer/managed.rs:177-187 | a handler that has exited has handled exactly all of the log |
| Shutdown.ExitDecision | src/consumer/managed.rs:180-182 | a handler that found nothing exits if and only if the stop sequence is set and its cursor is at the last claim |
| Shutdown.PollShutdownIsExact | src/consumer/unmanaged.rs:222-227 | a poll returns `Shutdown` if and only if the stop sequence is set and everything was granted |
| Shutdown.DropWaitsForHandlers | src/producer/multi.rs:157-160 | when the joins of the last drop return, every handler has handled the whole log |
| Grants.GrantsTile | src/consumer/unmanaged.rs:221-243 | in any run, with any dependency and any limits, the grants of a consumer cover the sequences up to the last one granted, each exactly once, each taking exactly as much as the limit asked for and the barrier's answer allow, and all of them published and passed by the group before |
| Answers.AnswersAreTrue | src/consumer/managed.rs:177-187 | the answer of any barrier in any run: all of it is published and passed by the group before when it is given, and nothing is left out that was so when the consumer had not looked yet |
| Answers.PollsAreTrue | src/consumer/unmanaged.rs:221-243 | over a whole call of `poll_take`: `NoEvents` only if nothing was there when it was called, a guard only if something is there when it returns, of at most the limit, with everything up to the limit that was there when it was called, and empty with limit zero |
| Answers.OnlyPollsFindNothing | src/consumer/unmanaged.rs:229-232 | a poller comes to answer `NoEvents` only when its barrier has been asked and had nothing after the cursor |
| Grants.ZeroLimit | src/consumer/unmanaged.rs:229-242 | at the last step of a poll with limit zero, the answer of the barrier decides between an empty guard and `NoEvents` |
| Grants.ZeroLimitFindsNothing | src/consumer/unmanaged.rs:193-231 | a run in which a poll with limit zero returns `NoEvents` |
| Progress.NeverStuck | src/producer/multi.rs:201-229 | whoever stands still: as long as a call, a publication or the way of a consumer is unfinished that does not need them, some other actor has a step after which a well-founded measure is smaller |
| Progress.SomebodyCanMove | src/consumer/managed.rs:177-187 | if a consumer of any stage is behind what is published, it or a consumer that precedes it, no further than it, has something to take |
| Completion.UnpolledStandsStill | src/consumer/unmanaged.rs:65-70 | a resting poller that is not polled takes no step, whatever the others do |
| Completion.EverythingFinishes | src/consumer/managed.rs:71-88 | whoever stands still, the others can continue every state, without new calls of producers, to one in which nothing is unfinished that does not need those who stand still; pollers that do not stand still are polled in it |
| Completion.FreeWaysPass | src/consumer/managed.rs:177-187 | any consumers can all come to pass any claimed sequence if and only if no consumer that stands still is before one of them on its way, and no producer that stands still holds back a sequence up to it |
| Completion.EverythingIsDelivered | src/consumer/managed.rs:71-88 | every handler whose way is free can come to have handled, in order, everything claimed now, without new calls of producers |
| Requests.RequestsSucceedExactly | src/producer/multi.rs:195-232 | a request on an idle handle can come to be granted by the actors that do not stand still if and only if the ring has that many slots, no consumer that stands still is too far behind, and no producer that stands still holds back what consumers need |
| Requests.OneStandstillBlocks | src/consumer/unmanaged.rs:65-70 | with one consumer that stands still, the others can always come to a state in which not even one slot can ever be granted again |
| Requests.EveryRequestCanSucceed | src/producer/multi.rs:195-232 | if nobody stands still, every live handle can obtain any number of slots that the ring has, with all consumers right before them |
| Requests.RequestsThatFitSucceed | src/producer/multi.rs:195-232 | if nobody stands still, a live handle can get `n` slots if and only if `n` is at most the size of the ring |
| Requests.ProducersCanBeALapAhead | src/producer/multi.rs:288-291 | if nobody stands still, producers can come to have published everything up to a lap after every cursor |
| Requests.LappedExactly | src/producer/multi.rs:288-291 | the window of one lap is tight: while a consumer stays where it is, the sequence one lap after its cursor can come to be published if and only if no consumer that stands still is further behind and it is not held back |
| Closing.DropsReturnExactly | src/producer/multi.rs:149-163 | the drop of the last handle can come to return if and only if every handler has exited, or goes on and no consumer that stands still is before it on its way to the last claim |
| Closing.ShutdownCompletes | src/producer/multi.rs:149-163 | in that case a run leads to a reachable state in which every handler has exited with everything handled |
| WaitFree.ConsumersAreWaitFree | src/consumer/managed.rs:71-88 | in every run, whatever the others do: once what a consumer waits for is ahead of it, its cursor has moved when it has taken more steps of its own than a bound in the size of the ring and of the group, polls with limit zero excluded |
| WaitFree.RequestsAreLockFree | src/producer/multi.rs:195-232 | in every run, a request is over before it has taken more steps of its own than one attempt has, for itself and for each claim of others since it began |
| WaitFree.SingleRequestsAreWaitFree | src/producer/uni.rs:165-195 | with a single producer, a request is over within the steps of one attempt |
| WaitFree.PublicationsAreWaitFree | src/producer/multi.rs:372-399 | in every run, publishing a batch takes at most one step of the producer for every sequence of it |
| Cursors.Cursor.CompareExchange | src/_periphery/cursor.rs:43-46 | the exchange succeeds exactly if the counter is as expected, and reports what it found |
| Cursors.Cursor.Store | src/_periphery/cursor.rs:50-52 | the counter becomes the stored sequence |
| Cursors.ConsumerBarrier.GetAfter | src/consumer/mod.rs:97-102 | a fold over cursors that advance between the loads; its result is between the slowest consumer at its start and the slowest at its end |
| Cursors.ConsumerHandle.Join | src/consumer/mod.rs:43-47 | the handle is given up; the stop sequence has to be set before |
| Rings.FreeSlotsAreExact | src/ring_buffer.rs:64-79 | at least `n` slots are free if and only if claiming `n` sequences reuses no slot that is still needed |
| Rings.RingBuffer.constructor | src/ring_buffer.rs:44-58 | every slot holds what the event source made for it |
| Rings.RingBuffer.Index | src/ring_buffer.rs:86-91 | the masked index is the slot and is in bounds |
| Rings.RingBuffer.Put | src/ring_buffer.rs:86-91 | a write through `get` changes the slot of the sequence and no other |
| Rings.RingBuffer.GetRef | src/ring_buffer.rs:100-104 | reads the slot of the sequence |
| Rings.BatchSlotsAreDistinct | src/producer/mod.rs:91-99 | the slots of a batch that fits the ring are pairwise different |
| Rings.MutBatchIter.Next | src/producer/mod.rs:123-133 | yields the slots of the claimed sequences in order, each once, and ends exactly after the last |
| Rings.MutBatchIter.Remaining | src/producer/mod.rs:115-138 | the size hint is the number of slots still to be yielded |
| Rings.MutBatchIter.FillNext | src/producer/multi.rs:263-264 | a closure that writes to the slot it is given changes the slot of the next claimed sequence and no other |
| Rings.WrittenSlots | src/producer/multi.rs:253-264 | a batch that fits is in its slots afterwards and the rest of the lap before it is unchanged |
| UniProducers.CachedAgreesWithUncached | src/producer/uni.rs:165-195 | over every interleaving of publications and progress of the consumers, the cached producer accepts and refuses as one that looks every time, with the same shortfall, and is never more than a lap ahead |
| UniProducers.UncachedIsExact | src/producer/uni.rs:177-194 | a request is granted if and only if it reuses no slot that is still needed, with the last of the next `n` sequences; a refusal gives exactly the number of sequences that the slowest consumer must still pass |
| UniProducers.CachedIsExact | src/producer/uni.rs:165-195 | after every such interleaving, the cached producer grants a request if and only if it reuses no slot that is still needed, right after what is published, and a refusal changes nothing |
| UniProducers.UniProducer.constructor | src/producer/uni.rs:138-155 | the initial bound is right |
| UniProducers.UniProducer.ConsumersMayAdvance | src/producer/uni.rs:50-67 | the cached bound stays right when consumers advance, at any time |
| UniProducers.UniProducer.ConsumersTakeTurn | src/producer/uni.rs:205-224 | whatever a consumer passes, at any turn during a call, it finds the event of the log in the slot |
| UniProducers.UniProducer.NextSequences | src/producer/uni.rs:165-195 | a request is granted if and only if it reuses no slot that was needed at a moment of the call, whether or not the cache is used, although consumers advance while their cursors are read; the refusal says how many slots are missing; the bound changes only when it does not suffice |
| UniProducers.UniProducer.ApplyUpdates | src/producer/uni.rs:225-242 | the batch joins the log, and at every turn of the consumers, which come before and after every write, every event of the log that some consumer still has to read is in its slot |
| UniProducers.UniProducer.TryBatchPublish | src/producer/uni.rs:100-112 | a granted batch joins the log and leaves what consumers still have to read as it was; a refused one changes nothing; consumers advance meanwhile |
| UniProducers.UniProducer.Drop | src/producer/uni.rs:126-132 | sets the stop sequence to the one after the last published, and then joins every consumer |
| MultiProducers.Disruptor.TryClaim | src/producer/multi.rs:218-223 | one attempt: either the next `n` sequences are claimed, or the value found is reported |
| MultiProducers.Disruptor.LoadRear | src/consumer/mod.rs:97-102 | with turns of the others between the loads, the fold lies between the rear at its start and the rear at its end |
| MultiProducers.Disruptor.Others | src/producer/multi.rs:288-291 | whatever rivals claim, write and publish and consumers pass in a turn, what this thread has claimed and not published keeps its slots, and every published sequence of the last lap has its event in its slot, for good |
| MultiProducers.Disruptor.ConsumerPasses | src/producer/multi.rs:414-450 | a consumer that goes as far as the bits say passes only what is published, and finds the event of the log in the slot |
| Moments.ScanFindsPublished | src/producer/multi.rs:414-450 | in the last lap the bits say exactly what is published, so a scan from the sequence after a cursor finds nothing else |
| Moments.PublicationIsOk | src/producer/multi.rs:253-269 | flipping the bits of written sequences keeps the slots, the log and the number of publications of every slot in agreement |
| MultiProducers.MultiProducer.constructor | src/producer/multi.rs:169-192 | the initial bound is right |
| MultiProducers.MultiProducer.NextSequences | src/producer/multi.rs:195-232 | the loop ends for every script; a granted claim takes exactly the sequences after everything claimed at its exchange, within a lap of every consumer; a refusal was true at a moment of the call, and its number is between what was missing then and what is missing now; the bound changes only by a look during the call; each lost exchange costs the others a turn |
| MultiProducers.MultiProducer.Clone | src/producer/multi.rs:119-147 | one live handle more, counted, whose bound 0 is right at any time |
| MultiProducers.MultiProducer.Drop | src/producer/multi.rs:149-163 | the counter is the number of live handles; exactly the last drop sets the stop sequence, to the one after the last claim, and then joins every consumer |
| MultiProducers.MultiProducer.ApplyUpdates | src/producer/multi.rs:253-269 | while others claim, pass, write and publish: the log has the events at the claimed sequences, their slots hold them, each slot has been published once in every round so far, and at every turn of the others the slots of what is published hold the log; if rivals neither write nor publish, nothing else changes |
| MultiProducers.MultiProducer.TryBatchPublish | src/producer/multi.rs:94-106 | the same for a whole call, at a claim that was granted; a refused one claims and publishes nothing |
| Managed.Processor.WaitForEvents | src/consumer/managed.rs:167-188 | waits through the looks that find nothing, and stops at the first look that finds the stop sequence |
| Managed.Processor.HandleBatch | src/consumer/managed.rs:77-85 | handles every event of a batch once, in order, with the mark on the last one only, while the cursor stays right before the batch |
| Managed.FoldMakesItsCalls | src/consumer/managed.rs:137-145 | a handler whose state shows the calls it gets has got exactly the given calls, in order and each once |
| Managed.Processor.Run | src/consumer/managed.rs:70-88 | the calls are exactly the log up to the cursor with the marks at the ends of the batches, and the handler has made exactly these calls, as any state that records them shows; during each call the cursor is at the end of the batch before; the thread ends at the first look that stops it, with the whole log handled |
| HandlerRuns.LooksAreSound | src/consumer/managed.rs:167-188 | in every run of the protocol the looks of a handler at shared memory show the log and the true stop sequence, as the loop relies on |
| HandlerRuns.HandlerRunsItsLoop | src/consumer/managed.rs:70-88 | in every run the calls of a handler, the marks at the ends of batches included, are those that the loop makes of these looks, and the handler has exited if and only if they stop the loop |
| Pollers.GrantsPartition | src/consumer/unmanaged.rs:221-243 | the grants of any history of polls cover 0 up to the cursor, every sequence exactly once |
| Pollers.ReachGrows | src/consumer/unmanaged.rs:235-242 | every grant takes exactly as much as its limit and the dependency allow |
| Pollers.EventPoller.PollTake | src/consumer/unmanaged.rs:221-243 | says exactly when a poll gives a guard, `NoEvents` or `Shutdown`, on cursors that advance meanwhile or on availability bits; a guard continues the tiling with as much as was found, up to the limit |
| Pollers.EventPoller.Poll | src/consumer/unmanaged.rs:184-186 | the saturating limit grants everything that was found |
| Pollers.EventGuard.Next | src/consumer/unmanaged.rs:98-109 | yields the events of the grant in order, each once, and then nothing |
| Pollers.EventGuard.Len | src/consumer/unmanaged.rs:114-116 | the number of events still to be yielded |
| Pollers.EventGuard.Drop | src/consumer/unmanaged.rs:119-125 | the cursor moves to the end of the grant, however much was read |
| Builders.CallsAreDense | src/builder/mod.rs:26-37 | no sequence of calls that the types admit leaves a stage without a consumer |
| Builders.WiredIsWellWired | src/builder/multi.rs:254-281 | staged wiring has all that the protocol asks of a graph |
| Builders.EarlierLevelsAreAhead | src/builder/uni.rs:163-179 | where neighbouring stages are in order, all stages are |
| Stages.EarlierStagesAreAhead | src/builder/uni.rs:163-179 | in every reachable state of a disruptor that was built, a consumer is never ahead of any consumer of any earlier stage, and has been given nothing that one of them has not finished |
| Stages.LastStageIsBehind | src/builder/uni.rs:281-291 | for every sequence of calls, in every reachable state, some cursor of the last group is at or behind any given cursor of any stage, and the producers are within a lap of it |
| Builders.Builder.HandleEventsWith | src/builder/mod.rs:253-260 | a handler waits for the group before, joins the current group and leaves a handle |
| Builders.Builder.EventPoller | src/builder/mod.rs:262-272 | a poller waits for the group before and joins the current group, without a handle |
| Builders.Builder.AndThen | src/builder/multi.rs:180-191 | closes the group, by removing its one cursor or replacing the list of several |
| Builders.Builder.Build | src/builder/multi.rs:194-205 | for every sequence of calls, each consumer waits for exactly the stage before its own and the producers for exactly the last stage |
| Builders.InHandles | src/builder/mod.rs:190-193 | the handles that a drop joins are exactly those of the handlers |

## Left out

- Hardware memory ordering, fences and the Loom shims (`src/sync.rs`): the steps are interleaved under sequential consistency.
- Starting, naming and pinning threads, wait strategies: a handler is an actor, and joining it means that it has exited.
- Cache padding, `Arc`, unsafe accesses and lifetimes: sharing is direct, and a clone or drop under the mutex is one step.
- Sequences beyond `i64::MAX` and batch sizes beyond `i64`: sequences are unbounded, except that a limit of a poll saturates as in the code.
- Panics in closures, guards that are forgotten, and the abort when the handle counter is huge. A producer that is forgotten, or whose closure does not return, is one that stands still.
- The `PowerOfTwo` trait of `src/disruptor.rs` and the texts of errors: nothing to prove.
- The spinning `publish` and `batch_publish`: they repeat the modelled request; whether it can still come to be granted is `Requests.RequestsSucceedExactly`. Fair scheduling is not modelled, so progress is stated as what the others can bring about, how a measure falls, and how many own steps an actor needs.
- The single-event calls `try_publish` and `apply_update`: they are the batch calls with one event, except that the multi-producer one flips its bit with `publish`, which is modelled.
- Cursors in `Builders.Builder` are numbers in the order of creation, not shared objects; one class stands for the builders of both producers and for its three type parameters, whose restrictions are `Admitted` and `Buildable`.
- Pollers.EventPoller.PollTake: in the class, bits do not change during a call, while cursors do; a poller on bits that change is `Answers.PollsAreTrue` and `Grants.GrantsTile` in the protocol. A poll of an empty group does not occur, since the builder makes none.
- Pollers.EventPoller.Poll: the same as `PollTake`.
- Cursors.ConsumerBarrier.GetAfter: the barrier holds the counters of its consumers as values that the script moves, not the `Cursor` objects that they share with it; the limit of the script is not a parameter of the code.
- Cursors.ConsumerHandle.Join: waiting is not modelled, only that it can end once the stop sequence is set; that the handlers then have exited is `Shutdown.DropWaitsForHandlers`.
- MultiProducers.MultiProducer.TryBatchPublish: rivals take turns between the writes, and before the bits are flipped, not between the flips of two words; the protocol interleaves these too.
- MultiProducers.MultiProducer.ApplyUpdates: as for `TryBatchPublish`.
- Managed.Processor.Run: one loop stands for the handlers with and without state. That its script shows the log is a precondition here and holds in every run of the protocol by `HandlerRuns.LooksAreSound`; that the slots of a batch keep their events while it is handled is `ConsumerSteps.ReadsTheLog`.
- Calls recorded for a poller in the protocol carry a mark for the end of the batch that guards do not have; nothing is stated about it.
