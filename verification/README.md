# Arcon in Dafny

A model of the Arcon stream processor and proofs about it. Arcon runs a dataflow graph of
nodes that exchange batches of events. The model covers the parts that decide whether the
results are right:

- **The node protocol** (`NodeModel`, `NodeObject`, `NodeInvariants`, `NodeChain`, `EpochMarkers`,
  `QuietSteps`, `Completions`, `EpochProgress`, `AlignedSnapshots`, `AlignedDelivery`, `RunAhead`,
  `NodeCalls`, `Recovery`). A node merges several
  channels. It keeps one watermark a channel and forwards the minimum, and it aligns epoch markers
  by blocking channels, buffering their messages, checkpointing, and replaying the buffer.
  `NodeModel` gives every step as a function on values, `NodeObject` has the object whose methods
  update fields in loops, proved equal to those functions, and the other files prove what holds of
  every run; the histories a state carries (events taken, elements dropped, operator calls) are
  there for that.
- **Timers and windows** (`TimerContract`, `EventTimers`, `NodeTimerContract`, `WindowModel`,
  `WindowAssigner`). A timer that skips over idle time on a timing wheel, proved against a contract
  that says what leaves and what stays; on top of it the sliding event-time windows.
- **Batching, buffers, memory** (`Strategies`, `KeyRanges`, `KeyedStrategy`, `BufferPool`,
  `EventBuffers`, `AllocatorModel`, `AllocatorObject`). The four channel strategies, the ring of
  reusable buffers with concurrent readers, and the accounting of the allocator.
- **State backends** (`Bytes`, `VecState`, `MergeTrees`, `AggregatorState`, `ReducerState`,
  `FixedBytes`, `FlatKeys`, `InMemoryMaps`, `RocksPrefixes`, `SledDump`, `CheckpointNames`,
  `Checkpoints`). Byte formats, merge operators in any grouping, many maps in one flat store, the
  dump with back-patched lengths, and the choice of the checkpoint to restore.
- **NEXMark** (`NumberTheory`, `NexmarkEvents`). The shuffle of event numbers and the closed
  formulas for ids.

Every file holds one module of the same name. `Streams` and `Arithmetic` hold shared vocabulary and
order facts about division.

User code is a parameter everywhere: operators are four arbitrary functions, aggregators,
reducers, key functions and message codecs are arbitrary functions too. Integers are unbounded,
and 32- and 64-bit limits are written out where the program meets them.

## Properties that hold only under a condition

These promises are false in some cases; each is stated with its exact condition.

- *Checkpoints are aligned.* The replay after a checkpoint handles buffered messages without
  looking at the blocked channels again. A channel that has run ahead past its next marker
  therefore gets elements of the next epoch into the wrong checkpoint (`RunAheadIsMisaligned`).
  `AlignedIffInStep` gives the condition, on the messages as they are delivered.
- *A range delete removes a prefix.* Only if the last byte of the prefix is below 255
  (`RangeDeletesPrefixIff`, `ClearIsExactIff`).
- *Merge trees agree with the fold.* Only if the user's merge is a homomorphism, or the reducer is
  associative (`GroupingsAgreeIffHomomorphic`, `GroupingsAgreeIffAssociative`).
- *Checkpoint names parse back.* Only if the id has no underscore (`NameRoundTripIff`), and a listed
  name is looked up under the same name only if its epoch is canonical (`NameIsExactIffCanonical`).
- *The shuffle permutes.* Only if the group size is no multiple of 953, and only if the product with
  953 does not wrap around at 2^32 in the middle of the group, unless the size divides 2^32
  (`ShufflePermutesIff`).
- *Auction ids are unique.* With a first event id other than zero only under the condition of
  `AuctionIdsAreUniqueIff`.
- *The total number of allocations.* Only up to the second epoch (`TotalIsRightIff`).

## Model

| member | source | states |
|---|---|---|
| NodeInvariants.EveryRun | execution-plane/arcon/src/stream/node/mod.rs:240-461 | In every run of a node on FIFO channels: the invariant holds, the blocked channels are a proper subset of the (distinct) input channels, and for every channel the events handled followed by the events still buffered are the events received, in order |
| NodeInvariants.RunConserves | execution-plane/arcon/src/stream/node/mod.rs:268-290 | The same conservation law from any state that satisfies the invariant, so also after a restart |
| NodeInvariants.RunKeepsInv | execution-plane/arcon/src/stream/node/mod.rs:309-461 | Every run keeps the invariant: the current watermark is the minimum over all channels although two early returns skip its computation, the timer clock equals it, wheel and stored timeouts agree, buffered senders are blocked, forwarded watermarks and epochs strictly increase |
| NodeInvariants.MessageConserves | execution-plane/arcon/src/stream/node/mod.rs:488-508 | One message, with all the nested replay it may start, loses and reorders nothing on any channel |
| NodeInvariants.WatermarkShortcut | execution-plane/arcon/src/stream/node/mod.rs:337-367 | The soundness of the two early returns: after any stored watermark the minimum is what the code keeps |
| NodeInvariants.StepInv | execution-plane/arcon/src/stream/node/mod.rs:409-449 | Each single event, completing an epoch or not, keeps the invariant |
| NodeInvariants.FlatReplay | execution-plane/arcon/src/stream/node/mod.rs:488-508 | The mutual recursion of replay and event loop ends, because the buffer is cleared first, and equals taking the buffered events one after the other |
| NodeInvariants.HandedElementIsNotLate | execution-plane/arcon/src/stream/node/mod.rs:312-327 | An element reaches the operator only if it is later than every watermark the node has forwarded; otherwise it is dropped and nothing else changes |
| NodeInvariants.ForwardedExactlyOnChange | execution-plane/arcon/src/stream/node/mod.rs:370-449 | A watermark leaves exactly when the minimum has risen and an epoch exactly when the last channel reached it, in each case as the last output of the step |
| NodeInvariants.DuplicateChannelNeverCompletes | execution-plane/arcon/src/stream/node/mod.rs:418-422 | If an input channel is listed twice, no epoch ever completes |
| NodeInvariants.ExpireIsExact | execution-plane/arcon/src/stream/node/mod.rs:382-393 | Advancing the node's timer takes exactly the timeouts due by the new time and leaves the others with their deadlines |
| NodeModel.MinOf | execution-plane/arcon/src/stream/node/mod.rs:353-367 | The new watermark is a least one: it is stored for some channel and none is smaller |
| NodeCalls.ElementStep | execution-plane/arcon/src/stream/node/mod.rs:312-327 | An element later than its channel's watermark leads to exactly one call of the operator, at the current clock, and its outputs are sent; any other is dropped and nothing else changes |
| NodeCalls.WatermarkStep | execution-plane/arcon/src/stream/node/mod.rs:328-406 | The stored watermark, and exactly when the minimum w over the channels rises: one call with w at the old clock, then, at clock w and in the order of deadlines, one call of the timeout callback for every timeout that is due at w, of those stored before and those the first call asked for, and for no other; the outputs of all these calls in order, then the watermark |
| NodeCalls.EpochStep | execution-plane/arcon/src/stream/node/mod.rs:409-449 | What an epoch changes in each of its three cases; a completing one leads to one call, its outputs, then the epoch, and a checkpoint of the state after the call with the blocked channels and the buffer as they were |
| NodeCalls.DeathStep | execution-plane/arcon/src/stream/node/mod.rs:451-457 | A death is forwarded and nothing else changes |
| NodeCalls.RunAccounts | execution-plane/arcon/src/stream/node/mod.rs:240-461 | In every run from any state of the invariant, replays included: what the operator asked for at a later time, or had stored before, has been handed to its timeout callback once, not before its time, or is stored afterwards; every call was answered by the callback of its kind and saw the operator state the call before it left |
| NodeCalls.EveryRequestIsHonoured | execution-plane/arcon/src/stream/node/mod.rs:382-393 | So from a fresh node on: requests for later times are, as a multiset, the ones handed back together with those still stored, which lie after the current watermark |
| NodeObject.Node.constructor | execution-plane/arcon/src/stream/node/mod.rs:164-205 | Start-up on whatever the backend stored, field by field: missing watermarks, current watermark and epoch become zero, nothing stored is overwritten, and the timer is replayed, which fails if and only if a stored timeout has expired |
| NodeObject.Node.HandleEvent | execution-plane/arcon/src/stream/node/mod.rs:309-459 | The method updates the fields as the specification function of one event does, which the four step lemmas characterise, and calls the operator as its history says |
| NodeObject.Node.HandleEvents | execution-plane/arcon/src/stream/node/mod.rs:300-461 | The event loop over a batch, against its specification |
| NodeObject.Node.AfterSave | execution-plane/arcon/src/stream/node/mod.rs:488-508 | Unblocking and replay after a checkpoint, against its specification |
| NodeObject.Node.HandleMessage | execution-plane/arcon/src/stream/node/mod.rs:268-290 | A message from a blocked channel is appended to the buffer and nothing else changes, one from an unknown channel changes nothing, any other one is handled |
| NodeObject.Node.LowestWatermark | execution-plane/arcon/src/stream/node/mod.rs:353-367 | The search over the stored watermarks returns their minimum |
| NodeObject.Node.OnStart | execution-plane/arcon/src/stream/node/mod.rs:535-539 | A restored node unblocks and replays before it takes messages |
| NodeObject.Node.CompleteEpoch | execution-plane/arcon/src/stream/node/mod.rs:424-443 | Operator call, checkpoint, then forwarding of the epoch, in this order |
| NodeChain.RunSendsNothingLate | execution-plane/arcon/src/stream/node/mod.rs:312-406 | In every run a node whose operator keeps time stamps sends no element at or below a watermark it has sent before |
| NodeChain.RunDropsNothing | execution-plane/arcon/src/stream/node/mod.rs:312-327 | A node with any number of channels that are each fed such a stream, in any interleaving, drops no element as late |
| NodeChain.ChainDropsNothing | execution-plane/arcon/src/stream/node/mod.rs:312-406 | In a linear chain of such nodes of any length, connected by Forward strategies, whatever the batches, only the first node ever drops an element |
| NodeChain.ForwardCarriesPrefix | execution-plane/arcon/src/stream/channel/strategy/forward.rs:55-98 | What a node receives through a Forward strategy is a prefix of what was given to the strategy |
| NodeChain.OnlyTheFirstNodeDrops | execution-plane/arcon/src/stream/node/mod.rs:312-406 | One link of the chain: a node fed a prefix of what such a node has sent drops nothing |
| NodeChain.FlatMapOperator | execution-plane/arcon/src/stream/operator/function/flatmap.rs:90-110 | A flat map, for any user function, outputs what the function returns, in order and with the time stamp of the input, keeps the state it returns, and does nothing on watermarks, epochs and timeouts |
| NodeChain.MapOperator | execution-plane/arcon/src/stream/operator/function/map.rs:85-102 | A map outputs one element, with the function's value and the time stamp of the input |
| NodeChain.FilterOperator | execution-plane/arcon/src/stream/operator/function/filter.rs:83-102 | A filter outputs the element itself if and only if the function says so |
| AlignedDelivery.AlignedIffInStep | execution-plane/arcon/src/stream/node/mod.rs:240-290 | With batches that end at a control event and markers that rise, all checkpoints of a run are aligned if and only if the messages keep in step: whenever a message brings marker k from the last channel, and marker k + 1 is to come from every channel, no channel has delivered anything past its marker k + 1 |
| AlignedSnapshots.AlignedIffClean | execution-plane/arcon/src/stream/node/mod.rs:488-508 | The step towards it, in terms of the run: every checkpoint but the last was taken while no channel had buffered anything past its next marker; the replay does not look at the blocked channels again |
| AlignedSnapshots.AlignedIsExact | execution-plane/arcon/src/stream/node/mod.rs:409-449 | An aligned checkpoint has absorbed, of all that a channel ever delivers, exactly the events up to and including its first marker for the epoch |
| AlignedDelivery.NoEarlyMarkerMeansAligned | execution-plane/arcon/src/stream/node/mod.rs:488-508 | In particular all checkpoints are aligned when no channel delivers a marker before the one before it has come from every channel |
| RunAhead.RunAheadIsMisaligned | execution-plane/arcon/src/stream/node/mod.rs:501-504 | A concrete run of five messages on two channels in which a checkpoint is not aligned |
| EpochProgress.RunKeepsProgress | execution-plane/arcon/src/stream/node/mod.rs:409-449 | The invariant behind it: how many markers each channel has passed, and which are blocked right at their marker, between any two checkpoints |
| Recovery.RestoreEqualsContinue | execution-plane/arcon/src/stream/node/mod.rs:418-449 | Restarting from the checkpoint just written, replay included, leads to the state the original node reaches after finishing the epoch |
| Completions.ReplayCompletesNothing | execution-plane/arcon/src/stream/node/mod.rs:488-508 | The replay after a checkpoint completes no further epoch and takes the whole buffer in order |
| Completions.OneCheckpointAMessage | execution-plane/arcon/src/stream/node/mod.rs:409-449 | A message writes at most one checkpoint, and what the checkpoint has absorbed and what it holds in its buffer are together all that was delivered |
| Completions.TakenInOrder | execution-plane/arcon/src/stream/node/mod.rs:488-508 | The order across channels: a message that is not held back is taken at once, and after one that completes an epoch the messages held back follow in the order in which they came |
| Recovery.RestoredRunEnds | execution-plane/arcon/src/stream/node/mod.rs:535-539 | Every checkpoint of a run, restored and fed the messages after the one that wrote it, ends with the persisted state, the wheel, the output, the operator calls and the dropped elements of the original run |
| Recovery.RestoredRunsOn | execution-plane/arcon/src/stream/node/mod.rs:535-539 | The same from right after the completing event, for any further messages |
| Recovery.NewRebuilds | execution-plane/arcon/src/timer/event_timer.rs:131-149 | Replaying the stored timeouts never finds one expired and rebuilds the wheel that was lost |
| TimerContract.AdvancedTwice | execution-plane/arcon/src/timer/event_timer.rs:256-272 | Advancing in two steps is advancing once, and the firings follow each other |
| TimerContract.AdvancedUnique | execution-plane/arcon/src/timer/event_timer.rs:164-200 | What fires and what stays is determined; only equal deadlines may change places |
| TimerContract.FastIsSlow | execution-plane/arcon/src/timer/event_timer.rs:164-200 | Every result of advancing with skips is a result of ticking once a millisecond |
| TimerContract.SlowIsFast | execution-plane/arcon/src/timer/event_timer.rs:164-200 | and the other way round: ticking yields exactly the entries due, by deadline |
| EventTimers.EventTimer.constructor | execution-plane/arcon/src/timer/event_timer.rs:283-297 | The clock starts at the stored time, or at zero |
| EventTimers.EventTimer.ReplayEvents | execution-plane/arcon/src/timer/event_timer.rs:131-149 | Replay succeeds if and only if every stored deadline is in the future (and fits 64 bits), and then the wheel agrees with the store |
| EventTimers.EventTimer.TickAndCollect | execution-plane/arcon/src/timer/event_timer.rs:164-200 | The skip and tick loop, with its shortcut for an empty wheel, takes exactly the entries that are due |
| EventTimers.EventTimer.AdvanceTo | execution-plane/arcon/src/timer/event_timer.rs:256-272 | Advancing in 32-bit chunks returns exactly the entries with deadlines up to the new time, by deadline, leaves the rest, and sets the clock; a lower time changes nothing |
| EventTimers.EventTimer.ScheduleAfter | execution-plane/arcon/src/timer/event_timer.rs:221-237 | A zero delay is refused; any other adds one entry with its deadline |
| EventTimers.EventTimer.ScheduleAt | execution-plane/arcon/src/timer/event_timer.rs:238-246 | A time that is not in the future is refused |
| EventTimers.SaveAndReplay | execution-plane/arcon/src/timer/event_timer.rs:131-149 | A timer built from what another one has stored is that timer again: same clock, entries and remaining ticks |
| NodeTimerContract.NodeTimerAdvances | execution-plane/arcon/src/timer/event_timer.rs:256-272 | The queue that stands for the timer in the node model meets the contract the timer is proved to meet |
| WindowModel.ExactlyOnce | execution-plane/arcon/src/stream/operator/window/event_time.rs:179-288 | Over every run, in numbers: a window fires at most once and not before its end and the lateness; its result is over exactly the accepted elements that lie in it, in arrival order, including all accepted later; the pending triggers are exactly one for each active window, for its end and the lateness, all in the future; and no window with elements is neither fired nor active |
| WindowModel.ArriveJoins | execution-plane/arcon/src/stream/operator/window/event_time.rs:179-253 | An element at most the lateness behind the clock is accepted and joins exactly the windows of its key that cover its time stamp; one further behind changes nothing |
| WindowModel.TakesIff | execution-plane/arcon/src/stream/operator/window/event_time.rs:189-253 | The source gets through an element exactly when it is late, or is not older than its key's first element and every window that covers it, with the lateness, ends within 64 bits |
| WindowModel.EveryRunKeepsInv | execution-plane/arcon/src/stream/operator/window/event_time.rs:226-252 | The invariant over every run, in particular that a fired window is never opened again |
| WindowModel.IndexRangeIsExact | execution-plane/arcon/src/stream/operator/window/event_time.rs:203-221 | The computed index range is exactly the set of windows that cover the time stamp |
| WindowModel.TriggerIsInTheFuture | execution-plane/arcon/src/stream/operator/window/event_time.rs:246-250 | Every window an accepted element falls into has its trigger in the future, so the unreachable branch is never taken |
| WindowModel.FiredStaysShut | execution-plane/arcon/src/stream/operator/window/event_time.rs:193-196 | No accepted element falls into a window that has fired |
| WindowAssigner.EventTimeWindowAssigner.constructor | execution-plane/arcon/src/stream/operator/window/event_time.rs:106-125 | The assigner starts in the initial state of a run |
| WindowAssigner.EventTimeWindowAssigner.HandleElement | execution-plane/arcon/src/stream/operator/window/event_time.rs:179-253 | In numbers over time stamp, lateness and clock: which elements are dropped, for which the source fails, and that every other one joins the windows of its key that cover it; the key is the key function's, or zero without one |
| WindowAssigner.EventTimeWindowAssigner.HandleTimeout | execution-plane/arcon/src/stream/operator/window/event_time.rs:258-288 | A trigger outputs the materialized buffer with the window's end as time stamp, clears the buffer and deactivates the window |
| WindowAssigner.EventTimeWindowAssigner.ReachTime | execution-plane/arcon/src/stream/operator/window/event_time.rs:258-288 | Advancing the clock fires the due windows as a step of a run |
| WindowAssigner.EventTimeWindowAssigner.PutInto | execution-plane/arcon/src/stream/operator/window/mod.rs:90-112 | Appends the element to one window's buffer and opens the window when needed |
| Strategies.Forward.Add | execution-plane/arcon/src/stream/channel/strategy/forward.rs:55-79 | Sent batches and open buffer are the events added, in order; no batch exceeds the capacity; an element sends nothing while there is room and the full buffer otherwise, and a control event is the last of its batch and leaves at once |
| Strategies.Forward.Flush | execution-plane/arcon/src/stream/channel/strategy/forward.rs:81-98 | Sends the open buffer as one batch |
| Strategies.Broadcast.Add | execution-plane/arcon/src/stream/channel/strategy/broadcast.rs:64-83 | The same for every channel: all of them carry the stream that was added, in the same batches |
| Strategies.Broadcast.Flush | execution-plane/arcon/src/stream/channel/strategy/broadcast.rs:86-120 | Every channel is sent a copy of the buffer, the last one the buffer itself |
| Strategies.RoundRobin.Add | execution-plane/arcon/src/stream/channel/strategy/round_robin.rs:63-85 | Messages carry the events in order, in the same batches, and message k goes to channel k mod n |
| Strategies.NextIndex | execution-plane/arcon/src/stream/channel/strategy/round_robin.rs:105-114 | The wrapping index is the message number modulo the number of channels |
| KeyedStrategy.KeyBy.Add | execution-plane/arcon/src/stream/channel/strategy/key_by.rs:78-125 | An element goes to one channel only, the one whose key range holds its key, and a control event to every channel; each channel's batches and buffer are exactly what it was given, once, in order; a product that does not fit 64 bits is told apart |
| KeyedStrategy.KeyBy.AddElement | execution-plane/arcon/src/stream/channel/strategy/key_by.rs:83-105 | The stream of the channel with First(i) <= key < First(i + 1) grows by the element and no other channel changes |
| KeyRanges.RangesAreIntervals | execution-plane/arcon/src/stream/channel/strategy/key_by.rs:84-87 | Key ranges are contiguous, and the index stays below their number |
| KeyRanges.RangesCover | execution-plane/arcon/src/stream/channel/strategy/key_by.rs:84-87 | The ranges cover the key space |
| KeyRanges.RangesAreEven | execution-plane/arcon/src/stream/channel/strategy/key_by.rs:84-87 | The sizes of two ranges differ by at most one |
| BufferPool.DoKeepsInv | execution-plane/arcon/src/buffer/event/mod.rs:68-170 | Every action keeps the ownership invariant: one live owner for each taken buffer, and every owner sees its own events |
| BufferPool.Ownership | execution-plane/arcon/src/buffer/event/mod.rs:364-400 | In every interleaving of probing, pushing, copying, publishing and dropping: no buffer has two live owners, a buffer is free exactly when it has none, and the cursor is in range |
| BufferPool.ReaderIsStable | execution-plane/arcon/src/buffer/event/mod.rs:196-235 | What a reader sees does not change until it is dropped |
| BufferPool.FailedRotation | execution-plane/arcon/src/buffer/event/mod.rs:364-400 | A full rotation of failed probes means that each buffer was taken when it was probed |
| BufferPool.LargerRingOverruns | execution-plane/arcon/src/buffer/event/mod.rs:394-400 | The cursor wraps at the vector's capacity: were that larger than the pool, a probe would be out of range |
| EventBuffers.EventBufferPool.constructor | execution-plane/arcon/src/buffer/event/mod.rs:339-358 | A new pool: all blocks allocated, distinct and free |
| EventBuffers.EventBufferPool.TryGet | execution-plane/arcon/src/buffer/event/mod.rs:364-400 | Probing reserves the block under the cursor when it is free, for a new writer with nothing in it, and moves the cursor on, around the end |
| EventBuffers.EventBufferPool.Push | execution-plane/arcon/src/buffer/event/mod.rs:68-77 | A push adds the value behind what the writer has pushed and touches nothing else; a full block gives the value back and nothing changes |
| EventBuffers.EventBufferPool.CopyFromWriter | execution-plane/arcon/src/buffer/event/mod.rs:162-170 | Copying replaces what the writer holds by what the other one holds, length included |
| EventBuffers.EventBufferPool.Reader | execution-plane/arcon/src/buffer/event/mod.rs:153-159 | Generating the reader changes only whether the claim is a writer or a reader |
| EventBuffers.EventBufferPool.Release | execution-plane/arcon/src/buffer/event/mod.rs:231-235 | Dropping a reader frees its block and no other |
| EventBuffers.EventBufferPool.AsSlice | execution-plane/arcon/src/buffer/event/mod.rs:204-215 | A reader sees exactly what was pushed or copied through its writer |
| VecState.VecStateIsASequence | execution-plane/arcon/arcon_state/src/rocks/vec_ops.rs:23-178 | For any mix of append, add-all, set and clear, and any merging of operands in between: reading yields the vector, the check of the count never fails, and the length is right |
| VecState.MergeIsAssociative | execution-plane/arcon/arcon_state/src/rocks/vec_ops.rs:188-236 | Merging is associative on any operands that have a length in front |
| VecState.MergeConcatenates | execution-plane/arcon/arcon_state/src/rocks/vec_ops.rs:188-236 | Merging stored vectors stores their concatenation |
| VecState.VecMerge | execution-plane/arcon/arcon_state/src/rocks/vec_ops.rs:188-236 | The merge loop adds up the counts and joins the bodies; an operand of less than eight bytes makes it fail, and it panics if and only if leading counts add up beyond 64 bits |
| VecState.SledVecMerge | execution-plane/arcon/arcon_state/src/sled/vec_ops.rs:183-227 | The two-operand merge loop computes the same |
| VecState.VecGet | execution-plane/arcon/arcon_state/src/rocks/vec_ops.rs:45-66 | Reading decodes all elements and panics when their number is not the stored one |
| VecState.Serialize | execution-plane/arcon/arcon_state/src/rocks/vec_ops.rs:104-157 | Set and add-all write the elements behind a placeholder and fill in the count |
| VecState.VecRoundTrip | execution-plane/arcon/arcon_state/src/rocks/vec_ops.rs:45-66 | A stored vector decodes to itself |
| VecState.CountIsChecked | execution-plane/arcon/arcon_state/src/rocks/vec_ops.rs:45-66 | Any elements behind any count are read if the count is right and panic if it is not |
| AggregatorState.GroupingsAgreeIffHomomorphic | execution-plane/arcon/arcon_state/src/rocks/aggregator_ops.rs:64-118 | Every grouping a store can make of marked operands yields the left fold if and only if merging the accumulators of some inputs each is folding the concatenated inputs |
| AggregatorState.Merge | execution-plane/arcon/arcon_state/src/rocks/aggregator_ops.rs:64-118 | The merge loop against its specification |
| AggregatorState.MergeFailsIff | execution-plane/arcon/arcon_state/src/rocks/aggregator_ops.rs:64-118 | Merging fails if and only if some operand is neither byte 0xAC and an accumulator nor byte 0 and a value that decode; otherwise it yields an accumulator |
| AggregatorState.InMemoryAggregate | execution-plane/arcon/arcon_state/src/in_memory/aggregator_ops.rs:36-52 | The in-memory backend holds the left fold |
| AggregatorState.TwoNodesMerge | execution-plane/arcon/arcon_state/src/rocks/aggregator_ops.rs:64-118 | Merging two stored accumulators stores the merge of the folds of their inputs |
| AggregatorState.SledMerge | execution-plane/arcon/arcon_state/src/sled/aggregator_ops.rs:60-109 | The two-operand merge loop computes the same as the general one |
| AggregatorState.SledStoresTheFold | execution-plane/arcon/arcon_state/src/sled/aggregator_ops.rs:44-58 | Aggregating one value after the other, as Sled does, stores the fold for every aggregator, without a condition |
| ReducerState.GroupingsAgreeIffAssociative | execution-plane/arcon/arcon_state/src/rocks/reducer_ops.rs:51-87 | Every grouping of reducer operands yields the left fold if and only if the reducer is associative |
| ReducerState.MergeFailsIff | execution-plane/arcon/arcon_state/src/rocks/reducer_ops.rs:51-87 | Merging fails if and only if there is no operand or one that does not decode |
| FlatKeys.KeyRoundTrip | execution-plane/arcon/arcon_state/src/handles.rs:145-178 | A stored key reads back as the item key, namespace and key it was made of |
| FlatKeys.KeysAreInjective | execution-plane/arcon/arcon_state/src/handles.rs:160-178 | Different triples have different stored keys |
| FlatKeys.PrefixIsTheMap | execution-plane/arcon/arcon_state/src/handles.rs:145-157 | A stored key starts with given metakeys if and only if it belongs to their map |
| FixedBytes.NumberIsExact | execution-plane/arcon/arcon_state/src/serialization.rs:99-142 | A number type of any width has a fixed size, reads back, and is refused from a shorter buffer |
| FixedBytes.IntegersAreExact | execution-plane/arcon/arcon_state/src/serialization.rs:143-143 | So all integers from 8 to 128 bits, unsigned and in two's complement |
| FixedBytes.BasicBytesAreExact | execution-plane/arcon/arcon_state/src/serialization.rs:192-230 | and unit and booleans |
| FixedBytes.PairIsExact | execution-plane/arcon/arcon_state/src/serialization.rs:145-190 | Tuples of such types do, too |
| FixedBytes.ArrayIsExact | execution-plane/arcon/arcon_state/src/serialization.rs:232-268 | and arrays |
| FixedBytes.ShortArrayFails | execution-plane/arcon/arcon_state/src/serialization.rs:232-268 | A buffer without room for all elements of an array is refused |
| FixedBytes.SignedAreTwosComplement | execution-plane/arcon/arcon_state/src/serialization.rs:103-114 | A signed integer is written as the number from zero on that is the same modulo 256 to its width |
| FixedBytes.TupleBytes | execution-plane/arcon/arcon_state/src/serialization.rs:317-327 | The eleven bytes of a tuple of three numbers, one of them negative |
| Bytes.VarintRoundTrip | execution-plane/arcon/arcon_state/src/serialization.rs:10-27 | The length in front of a message reads back |
| Bytes.DelimitedRoundTrip | execution-plane/arcon/arcon_state/src/serialization.rs:10-27 | A length-prefixed message reads back, whatever follows it |
| Bytes.LowestByteFirst | execution-plane/arcon/arcon_state/src/serialization.rs:103-114 | Byte i of a number is its digit for 256 to the i |
| Bytes.VarintIsBase128 | execution-plane/arcon/arcon_state/src/serialization.rs:10-27 | A varint has the value as its base-128 digits, the lowest first, with the highest bit set in all bytes but the last, and no needless byte |
| InMemoryMaps.InMemoryMap.Clear | execution-plane/arcon/arcon_state/src/in_memory/map_ops.rs:13-21 | Removes the current map's entries and no others, and never slices a key that is too short |
| InMemoryMaps.InMemoryMap.Get | execution-plane/arcon/arcon_state/src/in_memory/map_ops.rs:23-39 | Looks up one key of the current map |
| InMemoryMaps.InMemoryMap.Insert | execution-plane/arcon/arcon_state/src/in_memory/map_ops.rs:54-74 | Sets one key of the current map and returns its old value |
| InMemoryMaps.InMemoryMap.InsertAll | execution-plane/arcon/arcon_state/src/in_memory/map_ops.rs:76-86 | Sets several: each listed key has the value of its last pair, every other key and every other map is as before |
| InMemoryMaps.InMemoryMap.Remove | execution-plane/arcon/arcon_state/src/in_memory/map_ops.rs:88-102 | Removes one key of the current map and returns its old value |
| InMemoryMaps.InMemoryMap.Iter | execution-plane/arcon/arcon_state/src/in_memory/map_ops.rs:124-149 | Lists every entry of the current map once, in whatever order, and every key decodes |
| InMemoryMaps.InMemoryMap.Len | execution-plane/arcon/arcon_state/src/in_memory/map_ops.rs:200-211 | Counts the current map's entries |
| InMemoryMaps.InMemoryMap.Contains | execution-plane/arcon/arcon_state/src/in_memory/map_ops.rs:115-122 | Whether the current map has a key |
| InMemoryMaps.InMemoryMap.IsEmpty | execution-plane/arcon/arcon_state/src/in_memory/map_ops.rs:213-225 | Whether the current map is empty |
| InMemoryMaps.InsertActsOnOneMap | execution-plane/arcon/arcon_state/src/in_memory/map_ops.rs:41-74 | Inserting acts on the map of the current metakeys and leaves all others as they are |
| InMemoryMaps.RemoveActsOnOneMap | execution-plane/arcon/arcon_state/src/in_memory/map_ops.rs:88-113 | So does removing |
| InMemoryMaps.ClearActsOnOneMap | execution-plane/arcon/arcon_state/src/in_memory/map_ops.rs:13-21 | So does clearing |
| RocksPrefixes.RangeDeletesPrefixIff | execution-plane/arcon/arcon_state/src/rocks/mod.rs:102-120 | The range delete covers exactly the keys with the prefix if and only if the prefix's last byte is below 255 |
| RocksPrefixes.ClearIsExactIff | execution-plane/arcon/arcon_state/src/rocks/mod.rs:84-121 | With a number of w bytes as namespace that is so if and only if the namespace, read as unsigned, is below 255 * 256^(w - 1) |
| RocksPrefixes.RemovePrefix | execution-plane/arcon/arcon_state/src/rocks/mod.rs:84-121 | What remains for an empty prefix, a prefix below 255, and one ending in 255 |
| SledDump.ExportRoundTrip | execution-plane/arcon/arcon_state/src/sled/mod.rs:217-264 | Reading a dump gives back the exported structure, for any sizes |
| SledDump.Writer.Dump | execution-plane/arcon/arcon_state/src/sled/mod.rs:111-158 | The writer, which seeks back to overwrite each placeholder, produces the encoding of the export |
| SledDump.Writer.WriteVVecs | execution-plane/arcon/arcon_state/src/sled/mod.rs:139-156 | The lists behind their number, although it is written last |
| SledDump.Parse | execution-plane/arcon/arcon_state/src/sled/mod.rs:217-264 | The nested read loops return what the encoding holds; a short file is an error |
| SledDump.CheckpointAndRestore | execution-plane/arcon/arcon_state/src/sled/mod.rs:77-158 | Dump and parse together return the export |
| SledDump.CutOffDumpFails | execution-plane/arcon/arcon_state/src/sled/mod.rs:217-264 | A dump cut off at any byte cannot be read |
| SledDump.SmallDump | execution-plane/arcon/arcon_state/src/sled/mod.rs:111-158 | The bytes of a small dump |
| Checkpoints.RestoreOrCreate | execution-plane/arcon/arcon_state/src/lib.rs:53-138 | The epoch restored is the largest one present for every known id, a fresh backend is created if and only if there is none; it fails if and only if some entry is no directory whose name spells a known id and an epoch, and reports the first such entry and what is wrong with it |
| Checkpoints.Collect | execution-plane/arcon/arcon_state/src/lib.rs:64-110 | The epochs of every backend, from a listing in any order |
| Checkpoints.Intersect | execution-plane/arcon/arcon_state/src/lib.rs:112-120 | The intersection over all backends, taken in any order |
| CheckpointNames.NameRoundTripIff | execution-plane/arcon/arcon_state/src/lib.rs:80-102 | A name parses back to its id and epoch if and only if the id has no underscore |
| CheckpointNames.ParseNameIff | execution-plane/arcon/arcon_state/src/lib.rs:80-102 | A name parses to an id and an epoch exactly when it is the prefix, the id without underscore, one underscore and a number that parses |
| CheckpointNames.ParseU64Iff | execution-plane/arcon/arcon_state/src/lib.rs:93-98 | What parses as the epoch: digits, after a plus sign or not, whose value fits 64 bits |
| CheckpointNames.SavedStateIsFound | execution-plane/arcon/src/stream/node/mod.rs:466-475 | What a node writes always parses back, since node ids are numbers |
| Checkpoints.NameIsExactIffCanonical | execution-plane/arcon/arcon_state/src/lib.rs:90-132 | A listed name is the one looked for if and only if its epoch has no sign and no leading zero |
| Checkpoints.ChosenDirectoryIsListed | execution-plane/arcon/arcon_state/src/lib.rs:125-134 | In a listing of canonical names the directory chosen for a known id exists |
| Checkpoints.LeadingZeroIsLost | execution-plane/arcon/arcon_state/src/lib.rs:93-132 | A concrete listing with a leading zero for which it does not |
| NexmarkEvents.ShufflePermutesIff | execution-plane/arcon/experiments/src/nexmark/config.rs:177-181 | With groups of at most 2^32 / 953 numbers, a group is permuted if and only if its size is no multiple of 953 and either divides 2^32 or the products with 953 wrap around equally often at the first and the last number of the group |
| NexmarkEvents.HarmlessGroupsPermute | execution-plane/arcon/experiments/src/nexmark/config.rs:177-181 | The sufficient half for groups of any size |
| NexmarkEvents.PermutationIsOnto | execution-plane/arcon/experiments/src/nexmark/config.rs:177-181 | and then every number of the group is hit |
| NexmarkEvents.WrapAroundCollides | execution-plane/arcon/experiments/src/nexmark/config.rs:177-181 | A concrete group of three in which wrap-around maps two numbers to one |
| NexmarkEvents.LastPersonCounts | execution-plane/arcon/experiments/src/nexmark/mod.rs:77-84 | One more than the last id is the number of persons so far |
| NexmarkEvents.LastAuctionCounts | execution-plane/arcon/experiments/src/nexmark/mod.rs:161-173 | Likewise for auctions; the formula underflows if and only if there is no auction so far |
| NexmarkEvents.CreateNeverUnderflows | execution-plane/arcon/experiments/src/nexmark/mod.rs:244-268 | From event creation it never underflows, whatever the first event id, provided there are auctions |
| NexmarkEvents.AuctionIdsAreUniqueIff | execution-plane/arcon/experiments/src/nexmark/mod.rs:244-262 | Auction ids are unique if and only if there is at most one auction in a round, or nothing else, or the first event id lies at the start or the end of a round |
| NexmarkEvents.AuctionIdsAreDense | execution-plane/arcon/experiments/src/nexmark/mod.rs:132-141 | With the first event id at the start of a round, every number from the first auction's id on is the id of some auction |
| AllocatorModel.EveryRunAccounts | execution-plane/arcon/src/allocator/mod.rs:61-103 | After any run the current allocation is the sum of the live blocks, never above the limit, and the number of ids given out is the number of successes |
| AllocatorModel.IdsAreNeverReused | execution-plane/arcon/src/allocator/mod.rs:85-95 | No id is given out twice, across any number of counter wraps |
| AllocatorModel.StaleStaysStale | execution-plane/arcon/src/allocator/mod.rs:85-103 | An id that was freed never becomes live again |
| AllocatorModel.SecondFreeIsHarmless | execution-plane/arcon/src/allocator/mod.rs:98-103 | so freeing it again, at any later time, frees nobody's block |
| AllocatorModel.TotalIsRightIff | execution-plane/arcon/src/allocator/mod.rs:109-118 | The computed total of allocations is right if and only if the epoch is at most two; beyond, the 64-bit product overflows |
| AllocatorObject.ArconAllocator.Allocate | execution-plane/arcon/src/allocator/mod.rs:61-96 | When each of the five answers is given, in terms of the sizes of the live blocks, and what a success changes; every other answer changes nothing |
| AllocatorObject.ArconAllocator.Deallocate | execution-plane/arcon/src/allocator/mod.rs:98-103 | Removes that block and no other |
| AllocatorObject.ArconAllocator.BytesRemaining | execution-plane/arcon/src/allocator/mod.rs:120-122 | What is live and what remains add up to the limit |

## Left out

- The `NodeMetrics` cell of a node: the borrow at node/mod.rs line 436 is still held during the replay, where a replayed watermark that raises the minimum would borrow again at line 395; the model describes the protocol without it.
- Actors, sockets, files, pipeline set-up, compiler and code generation: a channel is a FIFO sequence of messages, a checkpoint a copy of the stored state.
- Errors of the state backend inside a node: the stored maps and values are assumed readable.
- Stopping after a `Death` event: the event is forwarded, and the loop goes on as in the source; that the component is stopped later is not modelled.
- The timing wheel: a library, modelled by its contract (which entries a tick returns, when ticks may be skipped).
- Unique ids of timeouts: a fresh id is a parameter of scheduling.
- Timeouts with equal deadlines: the order in which they fire depends on the wheel and on hash maps. The timer's contract leaves it open; the queue inside the node model fires them in order of insertion, which `Recovery.RestoreEqualsContinue` relies on.
- Operators that send watermarks, epochs or deaths themselves: an operator of the model outputs elements only.
- WindowAssigner.EventTimeWindowAssigner.HandleElement: says when an unsigned subtraction or addition of the source fails, but not how far the source had got by then; in an optimised build, which wraps around instead, nothing is claimed for those elements.
- NodeObject.Node.constructor: a stored message of a sender that is no input channel any more makes the source's replay stop with an error; the invariant is promised only without such messages.
- EventTimers.EventTimer.ReplayEvents: a deadline of 2^64 or later counts as a failed replay; the source's addition overflows there.
- `IncrementalWindow` and its aggregator: its merge is not implemented in the source; the appender window is modelled.
- BufferPool.Ownership: interleavings are those of whole actions, so memory ordering is not captured, nor is the busy-waiting `get`, which ends only if a reader is dropped; the precondition of each action is the discipline its callers keep, and readers are named by numbers, not by pointers.
- RoundRobin sends a control event to one channel only; no delivery of watermarks or epochs to all channels is claimed for it.
- Chains with a keyed or round-robin strategy between nodes: `NodeChain.RunDropsNothing` is about each channel's stream, and `NodeChain.OnlyTheFirstNodeDrops` about a downstream node that is fed a prefix of the whole output, as `Strategies.Forward` sends it.
- Recovery across nodes: what upstream sends again after a failure is not decided by the code that is modelled, so no exactly-once claim over several nodes is made.
- Bodies of Protocol Buffers messages: a codec with a round trip is assumed.
- Floating-point metakeys: their fixed-size bytes are those of an unsigned integer of the same width.
- The map operations of RocksDB and Sled beyond clearing by prefix, and `map_keys` and `map_values` of the in-memory backend: they repeat the lookups and the listing that are modelled.
- Dumps with lengths too large for memory: the reader would abort on allocation; the model reads lengths of any size.
- Reading the checkpoint directory itself, and removing old live state, in `restore_or_create`: the listing is a parameter.
- NexmarkEvents.ShufflePermutesIff: is about groups of at most 2^32 / 953 numbers, in which a product wraps around at most once; for larger ones `HarmlessGroupsPermute` gives the sufficient half, and the adding up of `first_event_number` and the events so far is assumed not to overflow.
- Random draws, time stamps and floating-point rates of NEXMark.
- Zero-sized types in the allocator: the system allocator's behaviour on them is undefined.
- The Faster backend, which stores closures as raw bytes, and `processing_time.rs`, which is not part of the built module.
