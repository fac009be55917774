# A verified model of jvmScout's core

jvmScout watches a JVM for exceptions. A bytecode transform makes methods record their locals on a
per-thread shadow stack; a native agent samples the throws, folds repeated ones into counts,
serializes events to JSON and ships them in batches; a collector stores, limits and charts them.
This project models that core in Dafny and proves what each part promises, over every input, every
run and every interleaving.

| part | modules |
|---|---|
| bytecode transform, its machine and the shadow store | `Bytecode`, `ShadowTransform`, `ShadowMachine`, `ShadowLayout`, `ShadowTracking`, `ShadowKnown`, `ShadowPreservation`, `ShadowTheorems`, `ShadowStore` |
| event queue | `AsyncQueue`, `QueueProtocol`, `QueueTheorems`, `WireBatch` |
| adaptive sampler | `Sampler`, `SamplerHistory`, `SamplerTiers`, `SamplerCapacity` |
| counts and the exception callback | `CountAggregator`, `CapturePipeline`, `CaptureMessages`, `CaptureProtocol` |
| JSON | `JsonText`, `JsonString`, `JsonParser`, `JsonWriter`, `EventSerializer`, `EventReader` |
| class bytes | `Base64`, `SourceCache` |
| wildcard match | `Glob` |
| collector | `RateLimiter`, `Bucketing` |
| shared | `Wrappers`, `Sequences`, `Sums` |

`dafny verify dfyconfig.toml` checks the whole project.

## How the parts are modelled

**Transform.** A method is a list of elements (labels, stores, increments, branches, invokes, field
and array accesses, returns, throws, anything else) and an exception table. One small-step machine
runs original and transformed programs alike; what opaque elements do to the heap, and which
exceptions a handler's type catches, is an arbitrary pair of functions (`Semantics`), so the theorems
hold for all of them. A step that the verifier would forbid, such as loading an unassigned or
wrongly typed local, is `Stuck`; a transformed program is never stuck where the original is not
(`ShadowTheorems.TransformedNeverStuck`), so every inserted load is legal. Assumed of the original: every label that its branches and its
table name is bound, and no element is an inserted one (`OriginalProgram`); its handlers come ahead of
the catch-all in the table (section 2.10 of the JVM Specification); returns do not throw; and no
uninitialised reference or return address is stored in a local. The store of 64 rows by 32 slots is
proved to be a window on an unbounded stack of slot maps.

**Queue.** Every lock-protected section and every read of an atomic is one step; producers, the
worker, `stop()` and the transport's answers interleave arbitrarily. An event is the number of its
enqueue attempt. The worker may take a batch at any time, which covers its timed wait, early wakeups
and missed notifications.

**Sampler, aggregator, callback.** Classes with the source's fields. What the JVM reports about a
throw, and the clock values read on the way, are parameters. `CaptureProtocol` interleaves any number
of throwing threads, and `CaptureProtocol.EndToEndOf` joins any of its runs with any run of the queue,
fingerprint by fingerprint.
Without a queue the callback keeps suppressed throws only, which its contract says.

**JSON.** The tree grammar, its text, and an independent parser of the whole RFC 8259 grammar (white
space, fractions, exponents, all escapes). `JsonWriter.Writer` carries a ghost context: inside which
open arrays and objects it stands and what they hold so far. `EventReader` looks fields up by name and
finds every field of every event again.

**Collector.** Times are real numbers; the rows that a query groups are given, in any grouping order.

Three things that one would expect do not hold everywhere. Each has a counterexample and its exact
condition:

- The drop counter counts a batch twice when it is permanently refused while stopping
  (`QueueTheorems.CounterExact`, `QueueTheorems.CounterCanExceed`).
- `glob_match` turns down some texts that match when both the pattern and the text hold a `*`, because
  it tries the literal comparison first (`Glob.RightExactlyWithoutStars`, `Glob.MissedPattern`,
  `Glob.MissedText`).
- Charts with buckets of a minute or more put a row into the bucket before its own when a bucket begins
  inside a minute (`Bucketing.ExactCharts`, `Bucketing.ShiftedRow`).

The sampler's five-minute rule, which its comment presents as what guarantees fresh full captures,
changes no answer unless stamps lag by more than 240 000 ms: the window rule already gives them
(`SamplerTiers.ResampleInvisibleExactly`).

## Model

| member | source | states |
|---|---|---|
| ShadowTransform.ComputeParamSlots | bci-classfile/src/main/java/ShadowClassTransform.java:43-58 | the loop yields the slots of the receiver and the parameters, two per long or double |
| ShadowTransform.ParamSlotsDisjoint | bci-classfile/src/main/java/ShadowClassTransform.java:43-58 | no two parameter slots overlap, counting both halves of wide ones, so the initial captures never read a high half |
| ShadowTracking.ParamSlotIs | bci-classfile/src/main/java/ShadowClassTransform.java:43-70 | the j-th parameter's slot is counted after the receiver and the earlier parameters, two for each long and double, and its kind is its type's own or int |
| ShadowTransform.ShadowCodeTransform.Accept | bci-classfile/src/main/java/ShadowCodeTransform.java:89-119 | one element's expansion and what is known after it: labels forget everything, captures go before throw-capable elements, an exit call before returns |
| ShadowTransform.ShadowCodeTransform.NoteStore | bci-classfile/src/main/java/ShadowCodeTransform.java:124-133 | the bookkeeping of a store, which the next rows read off the body |
| ShadowTracking.RecordStoreExactly | bci-classfile/src/main/java/ShadowCodeTransform.java:124-133 | after a store the table holds the stored slot and exactly the entries that no half of the store overwrote |
| ShadowTracking.KnownExactly | bci-classfile/src/main/java/ShadowCodeTransform.java:89-133 | before any element the table holds (slot, kind) if and only if an earlier element of the block set it, or it is a parameter in the first block, and nothing in between wrote to a half of it |
| ShadowTracking.CapturedExactly | bci-classfile/src/main/java/ShadowCodeTransform.java:113-140 | the transformed code loads a slot for capture before an element if and only if the element is a call, a field access or an array access and the body determines the slot there |
| ShadowTracking.StoreIsCaptured | bci-classfile/src/main/java/ShadowCodeTransform.java:68-119 | the whole transformed code of a small method: a slot stored before a call is captured before it, after receiver and parameter |
| ShadowTransform.ShadowCodeTransform.AtStart | bci-classfile/src/main/java/ShadowCodeTransform.java:68-74 | the prologue: the try label, the enter call, one capture per parameter |
| ShadowTransform.ShadowCodeTransform.AtEnd | bci-classfile/src/main/java/ShadowCodeTransform.java:77-86 | the epilogue and the catch-all entry, last in the exception table |
| ShadowTransform.ShadowCodeTransform.EmitCapture | bci-classfile/src/main/java/ShadowCodeTransform.java:142-151 | one capture: the slot's number, a load of the tracked kind, the call for that kind |
| ShadowTransform.TransformCode | bci-classfile/src/main/java/ShadowClassTransform.java:22-29 | the imperative transform as a whole yields exactly the code whose runs the theorems are about, and leaves methods that are not eligible alone |
| ShadowKnown.RecordStoreHolds | bci-classfile/src/main/java/ShadowCodeTransform.java:124-133 | after any store, each tracked slot still holds a low half of the tracked kind (sections 2.6.1 and 4.10 of the JVM Specification) |
| ShadowKnown.AdvanceHolds | bci-classfile/src/main/java/ShadowCodeTransform.java:89-119 | what is known stays true of the locals across every element that continues in the frame |
| ShadowKnown.ParamsHold | bci-classfile/src/main/java/ShadowCodeTransform.java:60-65 | at entry every tracked parameter slot holds its argument with the tracked kind, whatever the parameter list |
| ShadowKnown.CapturesRun | bci-classfile/src/main/java/ShadowCodeTransform.java:142-151 | an inserted capture sequence runs to its end without getting stuck, touches nothing but the shadow row, and writes each tracked slot there |
| ShadowLayout.HandlerLookup | bci-classfile/src/main/java/ShadowCodeTransform.java:76-86 | an exception at an original element finds the same original handler in the transformed table, and the catch-all when there is none |
| ShadowLayout.RethrowEscapes | bci-classfile/src/main/java/ShadowCodeTransform.java:76-86 | what the catch-all rethrows leaves the method: no entry covers it, the catch-all itself included |
| ShadowPreservation.CatchAllRuns | bci-classfile/src/main/java/ShadowCodeTransform.java:76-86 | an exception without a handler runs the catch-all, pops exactly one row and leaves with the same exception |
| ShadowPreservation.StepMatched | bci-classfile/src/main/java/ShadowCodeTransform.java:68-119 | the simulation: every step of the original is matched by one or more steps of the transformed program, keeping the relation and the rows below |
| ShadowTheorems.MeaningPreserved | bci-classfile/src/main/java/ShadowCodeTransform.java:68-151 | for every program, semantics, arguments and length, the transformed run passes a point with the same activations, locals, operand stacks, world and executed original instructions |
| ShadowTheorems.RunMatched | bci-classfile/src/main/java/ShadowCodeTransform.java:68-119 | from any related pair of states, runs of any length stay matched |
| ShadowTheorems.SameOutcome | bci-classfile/src/main/java/ShadowCodeTransform.java:25-29 | one program finishes with a result or escaping exception if and only if the other does with the same one, and the shadow stack is then what it was |
| ShadowTheorems.TransformedNeverStuck | bci-classfile/src/main/java/ShadowCodeTransform.java:31-41 | if the original never gets stuck, neither does the transformed program: every inserted load and call is legal on every path |
| ShadowTheorems.DepthBalanced | bci-classfile/src/main/java/__JvmtiShadow.java:35-67 | at every matched point the depth is that of the start plus the live eligible activations, to any depth, so a handler resumes at its own method's depth |
| ShadowTheorems.CallersUntouched | bci-classfile/src/main/java/__JvmtiShadow.java:35-67 | while callees call, return, throw and catch, the rows of an activation's callers do not change |
| ShadowTheorems.CapturedValuesCurrent | bci-classfile/src/main/java/ShadowCodeTransform.java:113-133 | when a throw-capable element is about to execute, every tracked slot is legal to load and the live row holds its current value |
| ShadowTheorems.DeterminedSlotsCurrent | bci-classfile/src/main/java/ShadowCodeTransform.java:113-133 | when a call, a field access or an array access is about to execute, the live row holds the current value of every slot that the body determines there |
| ShadowTheorems.CallerRowsCurrent | bci-classfile/src/main/java/ShadowCodeTransform.java:113-118 | each suspended activation's row is at that activation's depth and holds the values its tracked slots had at the call |
| ShadowTheorems.EveryRowShows | bci-classfile/src/main/java/ShadowCodeTransform.java:113-133 | when a throw-capable element is about to execute, each live eligible activation has its row as many places from the top as there are eligible activations above it, with the current value of every tracked slot |
| ShadowTheorems.CallerShows | bci-classfile/src/main/java/__JvmtiShadow.java:98-104 | the same for a caller at any matched point |
| ShadowTheorems.AgentReads | bci-classfile/src/main/java/__JvmtiShadow.java:98-120 | `getFrame(k)` and `getSlotTypes(k)` give back the current value of every slot the body determines in the k-th instrumented activation, exactly when its depth is below 64 and the slot below 32 |
| ShadowStore.ThreadShadow.EnterMethod | bci-classfile/src/main/java/__JvmtiShadow.java:35-49 | entering opens a row empty of values, names and tags, counted past 64 as well |
| ShadowStore.ThreadShadow.ExitMethod | bci-classfile/src/main/java/__JvmtiShadow.java:51-67 | leaving clears and closes the last row and never underflows |
| ShadowStore.ThreadShadow.Write | bci-classfile/src/main/java/__JvmtiShadow.java:82-94 | a capture sets one slot of the last row; outside 64x32 nothing is stored |
| ShadowStore.ThreadShadow.CaptureObject | bci-classfile/src/main/java/__JvmtiShadow.java:69-69 | captures a reference with tag 1, null as null |
| ShadowStore.ThreadShadow.CaptureInt | bci-classfile/src/main/java/__JvmtiShadow.java:70-70 | captures an int with tag 2 |
| ShadowStore.ThreadShadow.CaptureLong | bci-classfile/src/main/java/__JvmtiShadow.java:71-71 | captures a long with tag 3 |
| ShadowStore.ThreadShadow.CaptureFloat | bci-classfile/src/main/java/__JvmtiShadow.java:72-72 | captures a float with tag 4 |
| ShadowStore.ThreadShadow.CaptureDouble | bci-classfile/src/main/java/__JvmtiShadow.java:73-73 | captures a double with tag 5 |
| ShadowStore.ThreadShadow.GetFrame | bci-classfile/src/main/java/__JvmtiShadow.java:98-104 | frame k is the live row of the k-th activation below the current one, cut to 32 slots, and none outside the stored rows |
| ShadowStore.ThreadShadow.GetSlotTypes | bci-classfile/src/main/java/__JvmtiShadow.java:114-120 | the same for the type tags |
| ShadowStore.ThreadShadow.GetMetadata | bci-classfile/src/main/java/__JvmtiShadow.java:106-112 | the same for the names |
| ShadowStore.ThreadShadow.SetSlotMetadata | bci-classfile/src/main/java/__JvmtiShadow.java:75-80 | names one slot of the last row, within the stored rows only |
| ShadowStore.ReadsBack | bci-classfile/src/main/java/__JvmtiShadow.java:69-73 | cell and tag together give back exactly what was captured, null references included, and nothing for slots never captured |
| AsyncQueue.Queue.Enqueue | agent/src/async_queue.cpp:31-42 | accepts at the back, or counts a drop when full |
| AsyncQueue.Queue.TakeBatch | agent/src/async_queue.cpp:107-110 | takes the first 20 events, or all if there are fewer, in order |
| AsyncQueue.Queue.RequeueFront | agent/src/async_queue.cpp:73-84 | the whole batch goes back in front of the queue when it fits into 10000; otherwise as many of its first events as do not fit are counted as dropped, and no more |
| AsyncQueue.Queue.DropBatchAndQueue | agent/src/async_queue.cpp:86-95 | empties batch and queue and counts both |
| AsyncQueue.Queue.SendWithRetry | agent/src/async_queue.cpp:57-71 | makes between one and four sends: goes on after retryable answers only, and stops at the first other one, at stop, or after the last; each wait doubles up to its maximum |
| AsyncQueue.WaitTimes | agent/src/async_queue.cpp:58-68 | the waits are 200, 400, 800, 1600 and 3200 ms, then 5000 ms |
| QueueProtocol.StepKeeps | agent/src/async_queue.cpp:97-166 | every step of every thread keeps the invariant: bound, order, exactly-once placement, counting, and what the worker may hold in each phase |
| QueueProtocol.RunKeeps | agent/src/async_queue.cpp:97-166 | so does every run, in every interleaving |
| QueueTheorems.DeliveredInOrder | agent/src/async_queue.cpp:31-42 | in every interleaving the queue is bounded, and delivered, in flight and queued together are the accepted events in order with some left out |
| QueueTheorems.ExactlyOnce | agent/src/async_queue.cpp:97-166 | every offered event is delivered, in flight, queued or lost, in exactly one place, once |
| QueueTheorems.DropAccounting | agent/src/async_queue.cpp:86-95 | attempts are conserved, and the drop counter exceeds the true losses by exactly the batches refused for good while stopping |
| QueueTheorems.CounterExact | agent/src/async_queue.cpp:128-143 | the counter equals the losses if and only if no batch took that branch |
| QueueTheorems.RefusalCountsTwice | agent/src/async_queue.cpp:133-141 | on that branch the batch is lost once and counted twice, from any state |
| QueueTheorems.CounterCanExceed | agent/src/async_queue.cpp:133-141 | a run of one event that is lost once and counted twice |
| QueueTheorems.TakesTheFirst | agent/src/async_queue.cpp:107-110 | a worker that wakes to a queue takes its first twenty events, or all |
| QueueTheorems.GiveBackLoses | agent/src/async_queue.cpp:144-148 | a batch that failed while the agent runs loses exactly what exceeds 10000, from its front |
| QueueTheorems.LossCauses | agent/src/async_queue.cpp:31-155 | events are lost only at a full queue, by a permanent refusal, or in shutdown |
| QueueTheorems.FailuresLoseNothing | agent/src/async_queue.cpp:57-148 | however often sends fail, without stop and permanent refusal and with room for failed batches nothing accepted is ever lost, in order |
| QueueTheorems.GivesUpAfterFour | agent/src/async_queue.cpp:57-71 | while the agent runs a batch is given up after a retryable answer exactly when it was sent four times; once stopped, at once |
| QueueTheorems.AllDelivered | agent/src/async_queue.cpp:97-166 | if the transport takes every batch and the drain deadline is not passed, nothing accepted is lost: it is delivered, in flight or queued, in order |
| QueueTheorems.DrainedAtExit | agent/src/async_queue.cpp:97-166 | if producers are quiet from stop on, an exited worker leaves an empty queue, and on such runs everything ever accepted is delivered, in order |
| QueueTheorems.StepDescends | agent/src/async_queue.cpp:97-166 | after stop every worker step lowers a measure of pending events and phase |
| QueueTheorems.ShutdownTerminates | agent/src/async_queue.cpp:21-29 | once stop is published and producers are quiet, the worker makes boundedly many steps and always has one until it has exited |
| QueueTheorems.FailedSendIsLast | agent/src/async_queue.cpp:144-155 | a send begun after the worker saw stop and not answered with success is its last |
| QueueTheorems.SendsBounded | agent/src/async_queue.cpp:57-71 | in every run, at most four sends are made from the decision to send a batch until the worker is done with it |
| QueueTheorems.AttemptsBounded | agent/src/async_queue.cpp:57-71 | at any send the attempt number is at most three and the batch holds between one and twenty events |
| WireBatch.BuildBatch | agent/src/async_queue.cpp:44-55 | the body is the messages, separated by commas, in brackets |
| WireBatch.BatchParses | agent/src/async_queue.cpp:44-55 | the body of a batch of JSON messages parses as the array of exactly these messages, in order |
| Sampler.Stripe.Decide | agent/src/sampling.cpp:53-99 | the stripe's next state and the answer, keeping map and recency list consistent and within capacity |
| Sampler.AdaptiveSampler.Decide | agent/src/sampling.cpp:53-99 | only the fingerprint's own stripe changes, as that stripe's rule says |
| Sampler.AdaptiveSampler.constructor | agent/src/sampling.cpp:29-38 | the stripes are as many and as large as the next rows say, all empty |
| SamplerCapacity.StripesAre | agent/src/sampling.cpp:29-32 | one stripe for each 256 entries, at least one and at most sixteen, and 4096 entries by default |
| SamplerCapacity.NearlyAllEntries | agent/src/sampling.cpp:33-33 | the stripes' capacity is the configured limit but for less than one entry to a stripe |
| SamplerCapacity.AtLeast256 | agent/src/sampling.cpp:33-33 | from 256 entries on, and by default, each stripe holds 256 or more |
| SamplerCapacity.CountGoesOn | agent/src/sampling.cpp:53-76 | in a stripe a fingerprint's count goes on from its last hit if fewer others than the capacity came since |
| SamplerCapacity.SamplerCountGoesOn | agent/src/sampling.cpp:53-76 | the same in the whole sampler, for the others that hash to its stripe |
| SamplerCapacity.CountGoesOnFor256 | agent/src/sampling.cpp:29-76 | by default, and for any limit of 256 or more, a fingerprint outlives 255 others of its stripe |
| Sampler.Stripe.Touch | agent/src/sampling.cpp:58-73 | the fingerprint becomes resident and most recent, evicting the least recent one if the stripe is full |
| Sampler.Stripe.Count | agent/src/sampling.cpp:75-98 | one hit is counted, the window rolled and the tier picked |
| Sampler.AdaptiveSampler.Tracked | agent/src/sampling.cpp:44-51 | the number of resident fingerprints, never above the configured limit |
| Sampler.StripesWithinLimit | agent/src/sampling.cpp:29-38 | stripes times entries per stripe never exceed the configured limit, for every positive limit |
| Sampler.DecidedConsistent | agent/src/sampling.cpp:58-73 | every decision keeps the list duplicate-free, within capacity and equal to the map's keys |
| SamplerHistory.RecencyByLastUse | agent/src/sampling.cpp:58-73 | the reference list orders fingerprints by their last use |
| SamplerHistory.TakeMoveToFront | agent/src/sampling.cpp:58-73 | evicting and moving to the front on a bounded list is moving to the front on the unbounded list, then cutting |
| SamplerHistory.StripeRefinesHistory | agent/src/sampling.cpp:53-99 | after any calls a stripe holds exactly the most recently used distinct fingerprints, and each total counts the hits since its last insertion |
| SamplerHistory.StripesApart | agent/src/sampling.cpp:40-42 | after any calls to the sampler, each stripe is what the calls that hash to it make of it |
| SamplerHistory.SamplerRefinesHistory | agent/src/sampling.cpp:53-99 | so in the whole sampler each stripe holds exactly the most recently used distinct fingerprints hashed there, with totals since their last insertion |
| SamplerTiers.TierByWindowHits | agent/src/sampling.cpp:78-98 | for stamps lagging at most 240 000 ms the answer depends on the window's hits alone: ten full, forty reduced, then counted |
| SamplerTiers.TiersOfAMinute | agent/src/sampling.cpp:78-98 | of a fingerprint's hits in one minute the first ten are full, the next forty reduced, the others counted |
| SamplerTiers.FullAfterAMinute | agent/src/sampling.cpp:78-94 | after a minute without a hit the next one is full |
| SamplerTiers.ResampleInvisibleExactly | agent/src/sampling.cpp:85-89 | the five-minute rule is invisible for a lag if and only if the lag is at most 240 000 ms |
| SamplerTiers.LagMatters | agent/src/sampling.cpp:54-56 | eleven stamps lagging one millisecond more for which it is visible |
| SamplerTiers.CapturesPerMinute | agent/src/sampling.cpp:78-98 | with a clock that does not go back, any span under a minute holds at most 20 full and 80 reduced captures of a resident fingerprint |
| SamplerTiers.VerdictIsAnswer | agent/src/sampling.cpp:75-98 | a stripe's answer, mode and count, is that of the fingerprint's hits since its last insertion |
| SamplerTiers.AnswersPerMinute | agent/src/sampling.cpp:53-99 | of a stripe's own answers in any span under a minute, at most 20 are full and 80 reduced for a fingerprint that stays resident |
| SamplerTiers.SpanUses | agent/src/sampling.cpp:78-98 | in such a span the window rolls at most once, which bounds what it can hold |
| CountAggregator.CountAggregator.Record | agent/src/count_aggregator.cpp:16-34 | one throw more is held, in its fingerprint's entry or as overflow, with the entries within bounds |
| CountAggregator.CountAggregator.Drain | agent/src/count_aggregator.cpp:36-56 | when forced, at first, or 5000 ms or more after the last time, hands over one summary per entry in any order and leaves none; otherwise changes nothing |
| CountAggregator.SerializeAll | agent/src/count_aggregator.cpp:51-55 | the summaries of the swapped-out entries, each exactly once |
| CountAggregator.RecordedCounts | agent/src/count_aggregator.cpp:16-34 | recording conserves throws and bounds: at most 4096 entries, each with at least one throw |
| CountAggregator.RecordingIs | agent/src/count_aggregator.cpp:16-34 | the latest event is kept and the count goes up by one, a new fingerprint gets an entry unless there are 4096, and the first throw starts the clock |
| CountAggregator.FlushTimes | agent/src/count_aggregator.cpp:40-49 | what a flush takes, in milliseconds |
| CountAggregator.SummariesCount | agent/src/count_aggregator.cpp:52-55 | the occurrences that a reader of the summaries finds add up to the counts they replace, so the serializer's zero fallback never applies |
| CapturePipeline.Agent.FlushPendingCounts | agent/src/exception_handler.cpp:221-228 | a flush that is due hands over exactly one summary per entry and loses no throw; without a queue nothing changes |
| CapturePipeline.Agent.ExceptionCallback | agent/src/exception_handler.cpp:259-350 | each sampled throw adds exactly one to what messages, counts and overflow stand for; what is handed over is exactly the classes of a full capture, the captured event and the due summaries, in this order; no count stays pending 5000 ms after the last flush |
| CapturePipeline.Agent.HandOver | agent/src/exception_handler.cpp:327-348 | the classes of a full capture, then the event, standing for one throw |
| CapturePipeline.Agent.ShipClasses | agent/src/exception_handler.cpp:327-344 | hands over one message for each class that ships, with the class's encoding, in the order of first frames, marks exactly these as shipped, and changes no number of throws |
| CapturePipeline.ShippingIs | agent/src/exception_handler.cpp:328-333 | a class ships if and only if an application frame is in it, it is cached and it was not shipped before, and then once |
| CapturePipeline.WriteClass | agent/src/exception_handler.cpp:334-342 | the text of a class message, as written through the JSON writer |
| CapturePipeline.ClassesCountNothing | agent/src/exception_handler.cpp:334-342 | a reader finds no occurrences in a class message |
| CaptureMessages.CapturedRead | agent/src/exception_handler.cpp:281-322 | a reader of a captured throw's message finds all that the runtime told, each under its own name, the metrics with full captures only |
| CaptureMessages.SummaryRead | agent/src/exception_handler.cpp:261-276 | a reader of a summary finds the identity of the latest throw and the number of throws, and nothing else |
| CaptureMessages.ClassRead | agent/src/exception_handler.cpp:334-342 | a reader of a class message finds deployment, class name and bytes under their names |
| CaptureMessages.SlashedIs | agent/src/exception_handler.cpp:330-331 | a class name's dots become slashes and nothing else changes |
| CaptureMessages.ShippedBytes | agent/src/exception_handler.cpp:332-333 | what a class message carries decodes to the bytes that were stored for the class |
| CaptureMessages.MessagesAre | agent/src/exception_handler.cpp:327-348 | which messages a full, a reduced and a suppressed throw hand over |
| CaptureProtocol.StepConserves | agent/src/exception_handler.cpp:259-350 | every step of every throwing thread conserves throws and bounds |
| CaptureProtocol.RunConserves | agent/src/exception_handler.cpp:259-350 | so does every run of them |
| CaptureProtocol.ThrowsConserved | agent/src/count_aggregator.cpp:16-56 | in every interleaving: throws equal the occurrences handed over, in hand and pending, plus overflow |
| CaptureProtocol.FlushedInTime | agent/src/count_aggregator.cpp:36-50 | in every run a flush that is forced, the first, or 5000 ms after the last takes all pending counts in hand; at any other less than 5000 ms have passed |
| CaptureProtocol.ClockIsOfTheRun | agent/src/count_aggregator.cpp:18-18 | the time that flushes are measured from is that of a record or flush of the run |
| CaptureProtocol.StepConservesOf | agent/src/exception_handler.cpp:259-350 | every step conserves the throws of every fingerprint by itself, and files each entry under its own fingerprint |
| CaptureProtocol.FingerprintsConserved | agent/src/count_aggregator.cpp:16-56 | in every interleaving, for every fingerprint: its throws equal the occurrences under its name handed over, in hand and pending, plus those that overflowed |
| CaptureProtocol.QueueConserves | agent/src/async_queue.cpp:31-42 | whatever messages weigh, what the queue was given is delivered, in flight, queued or lost, weight for weight |
| CaptureProtocol.EndToEnd | agent/src/exception_handler.cpp:259-350 | any run of the threads with any run of the queue: throws equal those delivered, in flight, queued, lost, in hand, pending and overflowed |
| CaptureProtocol.EndToEndOf | agent/src/exception_handler.cpp:259-350 | the same for every fingerprint by itself, as a reader of the messages tells them apart |
| JsonString.AppendUnit | agent/src/json_utils.cpp:11-28 | the text that one code unit adds, which the parser's `FirstPiece` reads back |
| JsonString.Escape | agent/src/json_utils.cpp:38-64 | the loop writes the text of the units that the reference decoder finds, for every byte string |
| JsonString.LeadBytes | agent/src/json_utils.cpp:45-60 | the masks on lead and continuation bytes pick exactly the bytes that the reference forms have, and U+FFFD otherwise |
| JsonString.DecodeEncode | agent/src/json_utils.cpp:32-37 | decoding modified UTF-8 undoes encoding, for every sequence of code units (section 4.4.7 of the JVM Specification) |
| JsonString.EscapingIsExact | agent/src/json_utils.cpp:32-64 | for every byte string the escaped text is printable ASCII and unescapes to exactly the decoded units |
| JsonString.EscapingIsInjective | agent/src/json_utils.cpp:32-64 | texts escape alike if and only if they decode alike, and well-formed ones only if they are equal |
| JsonParser.ParseUndoesText | agent/src/json_utils.cpp:66-151 | the RFC 8259 parser maps every tree's text back to the tree |
| JsonWriter.PlacedRendered | agent/src/json_utils.cpp:66-151 | at any nesting, what a value adds to the text is its separator and its own text |
| JsonWriter.WriterRoundTrip | agent/src/json_utils.cpp:66-151 | from any comma state the text added for a tree parses back to it, and two trees are never written alike |
| JsonWriter.Emit | agent/src/json_utils.cpp:74-151 | the calls that write a tree, from any state, place exactly that tree |
| JsonWriter.Writer.BeginObject | agent/src/json_utils.cpp:74-79 | opens an empty object where the writer stands |
| JsonWriter.Writer.EndObject | agent/src/json_utils.cpp:81-85 | closes the open object and places it, with all its members, in what encloses it |
| JsonWriter.Writer.BeginArray | agent/src/json_utils.cpp:87-92 | opens an empty array |
| JsonWriter.Writer.EndArray | agent/src/json_utils.cpp:94-98 | closes the open array and places it |
| JsonWriter.Writer.Key | agent/src/json_utils.cpp:100-107 | names the next value |
| JsonWriter.Writer.ValueString | agent/src/json_utils.cpp:109-116 | places the string of the decoded units |
| JsonWriter.Writer.ValueInt | agent/src/json_utils.cpp:118-130 | places the number, signed or unsigned |
| JsonWriter.Writer.ValueBool | agent/src/json_utils.cpp:132-137 | places the boolean |
| JsonWriter.Writer.ValueNull | agent/src/json_utils.cpp:139-144 | places null |
| JsonWriter.Writer.ValueRaw | agent/src/json_utils.cpp:146-151 | appends any text as a value, and places the tree if the text is one as this writer writes it |
| JsonWriter.Writer.FieldString | agent/src/json_utils.cpp:153-155 | adds a string member to the open object |
| JsonWriter.Writer.FieldChars | agent/src/json_utils.cpp:156-158 | the same for C strings, with a null pointer as the empty text |
| JsonWriter.Writer.FieldInt | agent/src/json_utils.cpp:159-167 | adds a number member |
| JsonWriter.Writer.FieldBool | agent/src/json_utils.cpp:168-170 | adds a boolean member |
| JsonWriter.Writer.FieldNull | agent/src/json_utils.cpp:171-173 | adds a null member |
| EventSerializer.WriteLocation | agent/src/event_serializer.cpp:7-17 | adds the location, or null when it is not valid, with an unknown line as null |
| EventSerializer.WriteCauses | agent/src/event_serializer.cpp:19-29 | adds the array of all causes, in order |
| EventSerializer.WriteMetrics | agent/src/event_serializer.cpp:31-41 | adds the metrics object |
| EventSerializer.WriteFrame | agent/src/event_serializer.cpp:83-104 | adds one stack frame with all its locals, an unknown line as null |
| EventSerializer.WriteLocal | agent/src/event_serializer.cpp:93-102 | adds one local, leaving out an empty name, signature or type |
| EventSerializer.SerializeEvent | agent/src/event_serializer.cpp:45-110 | for every event the calls nest properly and the text is that of the event's tree, in which the reader of the next row finds every field |
| EventReader.EventRead | agent/src/event_serializer.cpp:45-110 | who parses any event's text and looks every field up by its name, in the nested objects and lists too, finds the event's own value there, with null or nothing for missing parts |
| EventReader.LocationRead | agent/src/event_serializer.cpp:7-17 | class, method, line and file of a location, each under its name |
| EventReader.LocalRead | agent/src/event_serializer.cpp:93-102 | the fields of a local, an absent one as empty |
| EventReader.FrameRead | agent/src/event_serializer.cpp:83-104 | the fields of a frame with all its locals |
| EventReader.MetricsRead | agent/src/event_serializer.cpp:31-41 | the seven metrics, each under its name |
| EventReader.CausesRead | agent/src/event_serializer.cpp:19-29 | types and messages of all causes, in order |
| EventReader.NameIs | agent/src/json_utils.cpp:100-107 | a field's name, as a reader gets it, is its letters |
| EventSerializer.EventRoundTrip | agent/src/event_serializer.cpp:45-110 | the text of every event parses back to the event's tree |
| EventSerializer.OccurrencesRead | agent/src/event_serializer.cpp:53-56 | who parses the text and looks up the occurrences finds the event's, or one for zero |
| EventSerializer.FingerprintRead | agent/src/event_serializer.cpp:49-50 | who parses the text and looks up the fingerprint finds the event's |
| Base64.Base64Encode | agent/src/source_cache.cpp:8-30 | the loop and its tail yield the encoding that the decoder inverts |
| Base64.DecodeExactly | agent/src/source_cache.cpp:8-30 | a strict RFC 4648 decoder yields a byte string if and only if the text is its encoding, so padding and unused bits are canonical |
| Base64.EncodingLength | agent/src/source_cache.cpp:10-10 | the length is four times the number of started triples |
| SourceCache.SourceCache.Store | agent/src/source_cache.cpp:32-42 | stores the first bytes of a class within both budgets and ignores everything else |
| SourceCache.SourceCache.TakeUnshipped | agent/src/source_cache.cpp:44-51 | gives a stored class's encoding out once |
| SourceCache.StoringIs | agent/src/source_cache.cpp:34-41 | data is stored if and only if there is some, the class is new, fewer than 8192 are stored and the total stays within 33554432 bytes |
| SourceCache.StoredBalanced | agent/src/source_cache.cpp:37-41 | the total is the sum of the stored sizes, within the byte and class budgets |
| SourceCache.RunBalanced | agent/src/source_cache.cpp:32-51 | and stays so over any run of calls |
| SourceCache.ShipsExactlyOnce | agent/src/source_cache.cpp:44-51 | a call ships if and only if the class was stored before and not shipped before |
| SourceCache.ShipsStoredBytes | agent/src/source_cache.cpp:32-51 | what is shipped decodes to the bytes of the call that stored the class |
| SourceCache.StoresAtMostOnce | agent/src/source_cache.cpp:36-36 | no class is stored twice in any run |
| Glob.Match | agent/src/system_info.cpp:50-66 | the loop ends, by a lexicographic measure, with the greedy answer |
| Glob.Sound | agent/src/system_info.cpp:50-66 | a positive answer is a match, whatever the pattern and the text |
| Glob.Exact | agent/src/system_info.cpp:50-66 | the answer is right both ways unless both pattern and text hold a star |
| Glob.IgnoresCase | agent/src/system_info.cpp:51-56 | patterns and texts that differ in the case of letters only are answered alike |
| Glob.OneCharacter | agent/src/system_info.cpp:59-60 | a one-character pattern matches a character when it is a wildcard or the same letter |
| Glob.MissedPattern | agent/src/system_info.cpp:59-60 | for every text with a star a matching pattern is turned down |
| Glob.MissedText | agent/src/system_info.cpp:59-60 | for every pattern with a star a matching text is turned down |
| Glob.RightExactlyWithoutStars | agent/src/system_info.cpp:59-60 | a text is answered right for every pattern, and a pattern for every text, if and only if it holds no star |
| RateLimiter.RateLimiter.Allow | collector/src/collector/security.py:235-247 | the answer and the new windows after dropping old hits |
| RateLimiter.RateLimiter.MaybePrune | collector/src/collector/security.py:249-259 | when due, drops exactly the keys without a hit in the last minute |
| RateLimiter.AnswerIsRule | collector/src/collector/security.py:235-247 | with a clock that does not go back, a call is accepted if and only if fewer than the limit were accepted in the closed last minute |
| RateLimiter.PruningInvisible | collector/src/collector/security.py:249-259 | every answer is that of a limiter that never prunes |
| RateLimiter.NoBurst | collector/src/collector/security.py:235-247 | no minute, wherever it begins, holds more accepted calls of a client than the limit |
| RateLimiter.OnlyRecentClientsKept | collector/src/collector/security.py:249-259 | after any call, every remembered client had a call accepted within a minute before the last pruning, itself less than a minute ago |
| Bucketing.TimeSeries | collector/src/collector/storage.py:437-465 | every slot begins where its label says and is the sum of the groups that fall into it, caught and uncaught apart |
| Bucketing.ChartCovers | collector/src/collector/storage.py:437-441 | a chart begins the given hours ago and its buckets reach up to now, ending with it unless they would be shorter than a second |
| Bucketing.LabelIsBoundary | collector/src/collector/storage.py:452-455 | a slot's label is within a millisecond of where its bucket begins |
| Bucketing.IndexAtLeast | collector/src/collector/storage.py:462-463 | a time is in the k-th bucket or later if and only if it is not before where that begins |
| Bucketing.EventSeries | collector/src/collector/storage.py:480-521 | exactly the fingerprints with a readable time have an entry; its total and each bucket are the sums of their groups; start and width are in milliseconds |
| Bucketing.GroupsAreRows | collector/src/collector/storage.py:409-415 | a sum over groups is the sum over the rows they stand for, in whatever order they come |
| Bucketing.TotalsKept | collector/src/collector/storage.py:458-464 | the buckets add up to the total, and to the occurrences of all selected rows with a time: every group lands in range |
| Bucketing.NoLowerClamp | collector/src/collector/storage.py:462-463 | the lower clamp never fires, with either granularity |
| Bucketing.RowsBucket | collector/src/collector/storage.py:413-423 | a row's group is in the row's own bucket with keys of a second, and there or one earlier with keys of a minute |
| Bucketing.ShiftedRow | collector/src/collector/storage.py:409-415 | for every bucket that begins inside a minute, a second whose row lands one bucket early |
| Bucketing.ChartFollowsRows | collector/src/collector/storage.py:437-464 | cumulatively the chart lies between bucketing row by row and the same one bucket later, and equals it with keys of a second |
| Bucketing.ExactCharts | collector/src/collector/storage.py:409-415 | all rows are in their own buckets if and only if keys are seconds or every bucket begins with a minute, to the second |

## Left out

- Native stack depth: `getFrame` counts instrumented activations only; uninstrumented frames in between are not mapped, as in the code.
- `clearFrame` of the shadow store, which nothing calls: it leaves the type tags behind.
- Stack overflow and asynchronous exceptions inside inserted code, and overflow of the depth counter.
- Class-file parsing, the class-file library and its verifier, max-stack computation: a method is a list of elements, and which methods are eligible is given with it.
- A row may hold older values of slots that are not tracked at a call; nothing is claimed of them.
- A queue without a transport, which discards each batch silently; restarting a stopped queue; the log line for refused batches.
- The clock and the drain deadline of the queue: whether the deadline has passed is an arbitrary answer.
- 64-bit wrap-around of counters and the width of integers in JSON numbers: numbers are unbounded.
- JVMTI and JNI calls, stack walking, filters, the re-entrance guard, console output and C++ exceptions in the callback: what they yield is a parameter.
- The hash behind stripes: any function. Fingerprint collisions are not modelled.
- JsonWriter.Writer.ValueRaw: for text that is valid JSON but not as this writer writes it, such as with white space, only the text is promised, not its place in the tree; nothing in the agent calls it.
- `std::to_string`: taken to print decimal digits.
- JsonString.Escape: masks and shifts are written as division and remainder, which they equal on bytes.
- Letter case outside ASCII in the wildcard match.
- RateLimiter.RateLimiter.Allow: times are real numbers, so rounding of floating point is not modelled.
- Bucketing.TimeSeries: times are real numbers; the calendar text of a time is taken to name its second or minute.
- SQL, tenant filters and the other queries of the collector; HTTP transports; tokens, redaction, alerts and configuration; the frontend.
- Thread memory order: each atomic access and each locked section is one step.
