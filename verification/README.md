# A verified model of the module bus, the learning lifecycle, the evidence ranking and the escaper

This Dafny project models three parts of the repository and proves what they are for.

**The shared-memory bus (`server-go/bus`).** From the bytes of a ring to a remote call:

- `Words`: fixed-width words, masks, wrapping counters, little-endian stores.
- `FrameCodec`, `ModuleCodec`: the 64-byte frame header and the 40-byte module header. `FrameRules`, `LayoutRules`: what
  their tests, and those of rings and regions, accept, in bits, offsets and numbers.
- `RingSteps`: the single-producer/single-consumer ring as a machine of single atomic loads, stores and byte
  writes, with unbounded ghost counters. `RingCalls`: the calls are runs of that machine. `RingMemory`: the
  ring object over mapped bytes. `Region`: control region and queue pair, their layout and isolation.
- `BusClient`: `emit` and `Poll` on top of two rings, call by call. `BusSteps`: the same two as programs of single
  atomic steps, one process emitting and one polling, in any interleaving. `BusProgress`: that they come to an end.
  `BusAnswers`: the header a receiver decodes, and the answer to every situation.
- `Fragments`: cutting bodies into trains and joining them. `TrainDelivery`: whole trains through a ring, with and
  without a reader at the other end. `Caller`, `CallerLoops`: the calling side. `CallerSession`: many calls in turn.
  `CallerAnswers`: what a call puts on the wire and what each poll means to it.
- `Runtime`: the serving side as a transition system in which the loop, the handlers, cancellation and shutdown
  take turns in any order. `RuntimeSafety`, `RuntimeHistory`, `RuntimeCancel`: what all its runs satisfy.
  `RuntimeLoop`: the imperative runtime, step by step equal to that system. `RuntimeAnswers`: what it answers to every
  request fragment, decoded. `ModuleConfig`: its stage table.
- `EndToEnd`: one exchange through caller and server. `RemoteCall`: the whole call over four rings, from `Call` to its
  answer. `SampleCall`: a call that meets all its premises.

The host daemon between caller and server is represented by one assumption: it forwards the messages of the call in
order and changes none. Everything else on the rings is arbitrary. The Go atomics are taken as sequentially
consistent and Go's `int` as 64 bits wide.

**The proposal lifecycle (`src/modules/learning/learning_router.c`).** `LearningStore` is the proposal table with
the contracts the router relies on, a clock that may advance by any amount at every call, and calls that may fail.
`LearningRouter` is what the router does to it, `LearningSafety` what holds over every run, `LearningProgress` what
is achieved when calls succeed, `LearningSignals` what a signal adds and commits in its own fields, `LearningCalls` the
router's own code over a mutable table object. The router runs in one agent loop (lines 21-24 of the file), so calls do
not overlap.

**Two algorithms.** `Cosine` and `Bundle` are the similarity ranking of `learning_bundle.c` over exact reals;
`Escape` is the bounded JSON escaper of `learning_evidence.c` with the payload it feeds, `PayloadReader` what a JSON
reader gets back from that payload.

Scripts (`inbox`, `fates`, `attempts`, `inputs`) stand for whatever the environment does: all results are for every
script.

## What the code does not do

Each point has the exact condition and an input on which it fails.

- `AttachControl` checks `inlineBudget <= slotSize`, while a full fragment needs `inlineBudget + 64 <= slotSize`:
  `TrainDelivery.TrainFits`. `Region.TightControl` are control bytes that pass and do not have it, and
  `TrainDelivery.BudgetMayNotFit` a request such a geometry refuses.
- `send` gives up at the first full ring, so a train longer than the free slots fails although every fragment fits:
  `TrainDelivery.SendsAll`, with the train of `TrainDelivery.RoomMayNotSuffice`.
- `Ring.Count` called by a third observer leaves `[0, capacity]` once the consumer has passed the head it loaded:
  `RingSteps.CountInRange`, with the run of `RingCalls.CountLeavesRange`.
- `Poll` panics on a slot whose payload reference wraps around 2^64: `BusClient.PanicCondition`, with the slot of
  `BusClient.PollPanics`.
- Attaching does not compare the slot size a client is told with the ring's. Told more, `emit` cuts off what does not
  fit and reports success, and `Poll` returns bytes from behind the slot, which Go's slicing allows up to the end of
  the mapping; beyond it panics. `BusSteps.WholeWhenContained` and `BusSteps.PanicsWhenBeyond` say exactly when, with
  the two clients of `BusProgress.SlotSizesDiffer`.
- The size of a queue pair is computed with wrap-around: `Region.QpairBytesIsTotal`, with the geometry of
  `Region.LargestPairWraps`.
- A commit whose mark is lost leaves its proposal pending although the sink was applied, so a sink may be applied
  again: `LearningSafety.AppliedAtMostOnce`, with the run of `LearningProgress.AppliedTwice`.
- The scope fields of an evidence payload go in unescaped; a JSON reader gets the five fields back exactly when they
  need no escaping: `PayloadReader.ReadBack`, with the quote of `PayloadReader.QuotedScopeIsLost`.
- `Call` compares the length of a request modulo 2^32 with the limit: `CallerSession.GuardIsModular`, with the
  request of 4 GiB of `CallerSession.LongRequestPasses`.

## Model

| member | source | states |
|---|---|---|
| Words.SingleBitIsOneOne | server-go/bus/wire.go:111 | `v != 0 && v&(v-1) == 0` holds exactly for numbers with one 1 in binary |
| Words.SingleBitIsPow2 | server-go/bus/ring.go:58 | what passes the capacity test is a power of two |
| Words.WrappedIndex | server-go/bus/ring.go:88-91 | masking a counter that wrapped at 2^64 selects the slot of the unbounded counter |
| Words.DistinctSlots | server-go/bus/ring.go:88-91 | counters less than a capacity apart never share a slot |
| Words.GapOfWrapped | server-go/bus/ring.go:96-103 | `head - tail` on wrapping counters is the true number of occupied slots |
| Words.StoreLoad | server-go/bus/ring.go:106-109 | a stored counter is what a load returns and no other word changes |
| LayoutRules.LowByteFirst | server-go/bus/wire.go:175-187 | words are stored low byte first |
| FrameCodec.OnePattern | server-go/bus/wire.go:111-126 | the bit trick on the pattern mask holds exactly when one of the four pattern flags is set |
| FrameRules.ValidExactly | server-go/bus/wire.go:114-158 | which frames are valid: version 3, no unknown flag, exactly one pattern, one place for a payload of at most 1 MiB or none, FMore only on inline requests and replies, a generation only in the arena, correlation 0 exactly for notifications |
| FrameRules.RefusedWith | server-go/bus/wire.go:114-158 | the error of every refused frame, the first of the rules it breaks |
| FrameCodec.DecodeOfBytes | server-go/bus/wire.go:164-218 | decoding the bytes of any valid frame, with anything behind them, gives that frame |
| FrameCodec.BytesOfDecode | server-go/bus/wire.go:193-218 | every accepted header is the encoding of what it decodes to, so the codec is a bijection |
| FrameRules.DecodeExactly | server-go/bus/wire.go:193-218 | which bytes decode, to which field at which offset, and with which error otherwise |
| FrameCodec.PlacementInBounds | server-go/bus/wire.go:223-246 | a placement that passes names bytes inside its slot or arena |
| FrameCodec.Encode | server-go/bus/wire.go:164-188 | writes exactly the header bytes in place when the frame is valid and there is room, otherwise nothing |
| ModuleCodec.DecodeOfBytes | server-go/bus/module_protocol.go:58-95 | decoding an encoded valid message, followed by its body, gives the message back |
| ModuleCodec.BytesOfDecode | server-go/bus/module_protocol.go:76-95 | every accepted module header is the encoding of what it decodes to |
| ModuleCodec.Encode | server-go/bus/module_protocol.go:58-74 | exactly the valid messages that fit overwrite the header bytes; nothing else in the buffer changes |
| LayoutRules.MessageExactly | server-go/bus/module_protocol.go:76-95 | which bytes are a module header, with every field at its offset |
| RingSteps.AttachedInv | server-go/bus/ring.go:46-75 | a ring adopted with `head - tail <= capacity` starts in the invariant |
| RingSteps.StepInv | server-go/bus/ring.go:88-126 | every single atomic step of either side, in any interleaving, keeps 0 <= H-T <= capacity, slot ownership and conservative stale reads |
| RingSteps.RunInv | server-go/bus/ring.go:88-126 | the invariant holds after every interleaving, across counter wrap-around |
| RingSteps.CommitEnqueues | server-go/bus/ring.go:106-109 | the head store appends exactly the slot written to the abstract queue |
| RingSteps.ReleaseDequeues | server-go/bus/ring.go:123-126 | the tail store removes exactly the oldest element |
| RingSteps.OtherStepsStutter | server-go/bus/ring.go:88-121 | no other step changes the queue: the ring refines a bounded FIFO |
| RingSteps.PublishedSlotsAreNotWritten | server-go/bus/ring.go:96-103 | no write ever lands in a published, unreleased slot |
| RingSteps.RunHistory | server-go/bus/ring.go:88-126 | over a run the published and the taken history only grow: nothing is lost, duplicated or reordered |
| RingSteps.LeaseIsStable | server-go/bus/ring.go:88-121 | a slot held by the consumer keeps its bytes under any number of producer steps |
| RingSteps.CountInRange | server-go/bus/ring.go:84-86 | an observer's count is right until the consumer passes the loaded head; the exact condition for staying in range afterwards |
| RingSteps.EndpointCount | server-go/bus/ring.go:84-86 | called by either endpoint, `Count` is the true difference and at most the capacity |
| RingCalls.QueueOfShared | server-go/bus/ring.go:88-126 | the queue can be read off the shared bytes and counters alone |
| RingCalls.PublishRun | server-go/bus/ring.go:96-109 | begin, fill, commit is a run of atomic steps that publishes exactly the image |
| RingCalls.PublishEnqueues | server-go/bus/ring.go:96-109 | a produce call with room appends its image |
| RingCalls.ConsumeRun | server-go/bus/ring.go:113-121 | `ConsumeBegin` as a run: it holds a slot exactly when the queue is not empty |
| RingCalls.ReleaseDrops | server-go/bus/ring.go:113-126 | what is shown is the head of the queue and what is released is that head |
| RingCalls.CountLeavesRange | server-go/bus/ring.go:84-86 | on every empty ring, one item passing between an observer's two loads makes its count 2^64 - 1 |
| RingMemory.ViewOfWrite | server-go/bus/ring.go:88-91 | writing inside one slot of the mapped bytes changes that slot only |
| RingMemory.ViewOfStoreHead | server-go/bus/ring.go:106-109 | storing the head in the mapped bytes changes the head only |
| RingMemory.ViewOfStoreTail | server-go/bus/ring.go:123-126 | storing the tail in the mapped bytes changes the tail only |
| RingMemory.AcceptedIsAttachable | server-go/bus/ring.go:46-75 | bytes that pass the checks form a well-formed ring |
| LayoutRules.RingExactly | server-go/bus/ring.go:46-75 | which bytes are accepted as a ring header, in offsets and numbers |
| LayoutRules.ViewExactly | server-go/bus/ring.go:88-91 | which bytes are a ring's slots and counters |
| RingMemory.AttachRing | server-go/bus/ring.go:46-75 | a ring is returned exactly for the accepted headers, and it fits its bytes |
| RingMemory.Ring.Slot | server-go/bus/ring.go:88-91 | the slot of any counter lies inside the ring |
| RingMemory.Ring.ProduceBegin | server-go/bus/ring.go:96-103 | nil exactly when the queue is full |
| RingMemory.Ring.ProduceCommit | server-go/bus/ring.go:106-109 | the queue grows by the begun slot; nothing outside the ring changes |
| RingMemory.Ring.ConsumeBegin | server-go/bus/ring.go:113-121 | nil exactly when the queue is empty, otherwise the bytes of its head |
| RingMemory.Ring.ConsumeCommit | server-go/bus/ring.go:123-126 | the queue loses its head; nothing outside the ring changes |
| Region.QpairBytesIsTotal | server-go/bus/client.go:328-335 | the computed size is the true size exactly when that fits a signed 64-bit integer |
| Region.LargestPairWraps | server-go/bus/client.go:328-335 | a geometry both rings may have, whose computed size is wrong |
| Region.PairGeometry | server-go/bus/client.go:328-335 | both rings are 64-aligned, behind the header, disjoint, and end exactly at the size |
| Region.NeedNeverWraps | server-go/bus/ring.go:62 | the size `AttachRing` computes never wraps for an accepted capacity |
| Region.LaidOutIsAccepted | server-go/bus/region.go:92-113 | a region laid out at the computed offsets attaches exactly when its geometry is one a ring may have |
| Region.AttachControl | server-go/bus/region.go:52-70 | a control region is returned exactly for the accepted bytes |
| LayoutRules.ControlExactly | server-go/bus/region.go:52-70 | which bytes are accepted as a control region |
| Region.TightControl | server-go/bus/region.go:52-70 | accepted control bytes under which a full fragment and its header do not fit a slot |
| Region.AttachQueuePair | server-go/bus/region.go:92-113 | a pair is returned exactly when header and both rings are accepted, with the rings the header names |
| LayoutRules.PairExactly | server-go/bus/region.go:92-113 | which bytes are accepted as a queue pair |
| LayoutRules.PairPlaces | server-go/bus/client.go:328-335 | where header words and both rings lie, the inbound one first, at 128 |
| LayoutRules.FreshExactly | server-go/bus/ring.go:130-150 | the words of a fresh ring header |
| Region.AttachLaidOut | server-go/bus/client.go:139-157 | a region of the computed size attaches to two empty rings, apart from each other and the header |
| Region.InitRing | server-go/bus/ring.go:130-150 | an empty ring of the geometry exactly when it is valid and fits, else nothing is written |
| Region.ElsewhereUntouched | server-go/bus/region.go:92-113 | what lies outside a changed byte range is unchanged |
| Region.QueuePair.SetHeartbeat | server-go/bus/region.go:121-123 | the heartbeat word changes and neither ring does |
| Region.QueuePair.OutboundOnly | server-go/bus/region.go:92-113 | an operation on the outbound ring changes neither the inbound queue nor the header |
| Region.QueuePair.InboundOnly | server-go/bus/region.go:92-113 | an operation on the inbound ring changes neither the outbound queue nor the header |
| BusClient.PanicCondition | server-go/bus/client.go:299-302 | the slots on which the slice of `Poll` goes out of bounds: exactly the accepted ones whose reference wraps |
| BusClient.PollPanics | server-go/bus/client.go:299-302 | a 128-byte slot with a valid inline header on which `Poll` slices beyond the slot |
| BusClient.PollOfCarried | server-go/bus/client.go:203-216 | every frame `emit` builds passes `CheckPlacement` and is polled back with the same flags, kind, correlation and payload |
| BusClient.DoConserves | server-go/bus/client.go:188-305 | a whole emit, poll or harmless foreign publication keeps: delivered plus queued events are the accepted ones |
| BusClient.WholeCallsDeliver | server-go/bus/client.go:188-305 | over any sequence of whole calls, one after another, delivered events are a prefix of the accepted ones, all of them when nothing is queued; refused slots are skipped |
| BusClient.EmitAddsItsEvent | server-go/bus/client.go:188-220 | a failed emit changes nothing; a successful one adds exactly its own event |
| BusClient.FreshConserves | server-go/bus/client.go:139-157 | a channel over an attached empty ring starts conserved |
| BusClient.FragmentFrameIsValid | server-go/bus/client.go:234-275 | request, reply and cancel headers are valid exactly within the payload limit, and carry just their own flags |
| BusClient.Client.Emit | server-go/bus/client.go:188-220 | the error for every situation, an unchanged mapping on failure, the queue grown by the frame and payload on success |
| BusClient.Client.Fragment | server-go/bus/client.go:234-275 | refuses correlation 0 and empty fragments that announce another, otherwise emits with its flags |
| BusClient.Client.Publish | server-go/bus/client.go:222-225 | emits a notification of correlation 0 |
| BusAnswers.EmittedHeader | server-go/bus/client.go:205-214 | the header a receiver decodes from an emitted slot, field by field: the sender's handle is the source, a payload is inline behind the header, nothing else is set |
| BusAnswers.FragmentWord | server-go/bus/client.go:234-275 | the flag word of request, reply and cancel fragments |
| BusAnswers.NotificationIsValid | server-go/bus/client.go:222-225 | a notification is valid exactly with correlation 0 and within 1 MiB |
| BusAnswers.NotificationIsPolled | server-go/bus/client.go:279-305 | a published notification is polled with its kind and payload |
| BusAnswers.EmitAnswers | server-go/bus/client.go:188-220 | each answer of `emit` exactly in its situations, in numbers |
| BusAnswers.PollExactly | server-go/bus/client.go:289-303 | which slots are skipped, which panic, and which events and payloads the others yield |
| BusClient.Client.Poll | server-go/bus/client.go:279-305 | releases the held slot, consumes the next one, and returns a payload lying inside the inbound ring |
| BusSteps.PublishedAreSent | server-go/bus/client.go:188-220 | in every interleaving with a poller, exactly the successful emits are published, in order, each slot with every byte written to it, and every emit gets the answer its tests give |
| BusSteps.ReadAreWhole | server-go/bus/client.go:279-305 | in every interleaving with an emitter and for any slot size the poller was told, the events delivered show the slots passed, in order, each once: the header published and every payload byte that lies in the slot; for the ring's slot size, exactly the events of those slots |
| BusSteps.WholeWhenContained | server-go/bus/client.go:299-302 | an event is the slot's own exactly when the payload its header names ends within the ring's slot; otherwise the poller was told more |
| BusSteps.PanicsWhenBeyond | server-go/bus/client.go:299-302 | the poller panics exactly when the reference wraps or the payload ends behind everything mapped |
| BusSteps.DeliveredAreAccepted | server-go/bus/client.go:188-305 | in every interleaving of atomic steps, what is delivered is the unread start and then the events of exactly the successful emits, in order, each once; what is missing is still queued |
| BusSteps.BlockedWhenFull | server-go/bus/client.go:199-202 | an emit is told to wait exactly when the queue is full at its deciding load |
| BusAnswers.SameTests | server-go/bus/client.go:188-220 | the step-wise emitter makes the tests of the whole call |
| BusSteps.EventStays | server-go/bus/client.go:279-305 | until the next poll every byte of the event's slot stays as published, whatever the emitter does step by step |
| BusSteps.FreshIsQuiet | server-go/bus/client.go:139-157 | a ring just attached is a state the results above start from |
| BusProgress.UnreadArrive | server-go/bus/client.go:279-305 | whatever the emitter does meanwhile, everything unread is passed after a number of the poller's own turns bounded by queue length and slot size |
| BusProgress.AllArrive | server-go/bus/client.go:188-305 | with enough turns of the emitter and then of the poller every emit is answered, and what was delivered is exactly the unread start and the successful emits |
| BusProgress.RoomSuffices | server-go/bus/client.go:199-202 | emits that fit behind the queue are never told to wait, in any interleaving |
| BusProgress.SlotSizesDiffer | server-go/bus/client.go:299-302 | two clients told 256 on a ring of 128: an emit of 100 bytes succeeds and is delivered with 36 bytes that are not the slot's |
| TrainDelivery.FragmentOutcome | server-go/bus/client.go:188-275 | what `emit` answers to a fragment within the budget, case by case |
| TrainDelivery.SendsAll | server-go/bus/module_caller.go:141-162 | one emit after another, without a reader: the whole train goes out exactly when every fragment fits a slot and the train is no longer than the free slots |
| TrainDelivery.TrainFits | server-go/bus/region.go:52-70 | every fragment of a body fits a slot exactly when header plus largest fragment does |
| TrainDelivery.TrainLeaves | server-go/bus/module_caller.go:141-162 | so for a body: `send` succeeds exactly when header plus largest fragment fit a slot and there are as many free slots as pieces |
| TrainDelivery.RepliesAll | server-go/bus/module_runtime.go:235-274 | with retries and a reader in any order: once the loop is done, has failed or waits on a full ring, the train is out exactly when every fragment fits and free plus released slots are enough |
| TrainDelivery.TryingMoves | server-go/bus/module_runtime.go:248-268 | otherwise the next attempt sends a fragment or settles the loop |
| TrainDelivery.BudgetMayNotFit | server-go/bus/module_caller.go:141-162 | with budget 100 and slots of 128 bytes a full request is refused by an empty ring |
| TrainDelivery.RoomMayNotSuffice | server-go/bus/module_caller.go:156-158 | three fragments that each fit do not get through an empty ring of two slots |
| TrainDelivery.RetrySucceeds | server-go/bus/module_runtime.go:248-268 | a fragment that met a full ring leaves unchanged as soon as one slot is released |
| Fragments.JoinOfChunks | server-go/bus/module_caller.go:141-162 | cutting and joining is the identity for every body and piece size |
| Fragments.ChunkShape | server-go/bus/module_caller.go:141-162 | there are max(1, ceil(len/chunk)) pieces, all full but the last |
| Fragments.TrainShape | server-go/bus/module_runtime.go:235-274 | every fragment is within the budget and all but the last carry FMore |
| Fragments.FragmentReads | server-go/bus/module_caller.go:150-158 | what a receiver decodes from one fragment |
| Caller.AwaitDependsOnOwn | server-go/bus/module_caller.go:169-222 | the answer of a call depends only on the polls that are its own: foreign traffic can be removed |
| Caller.AnswerIsOwnBytes | server-go/bus/module_caller.go:169-222 | a returned body is the concatenation of the result fragments of this kind and correlation among the polls consumed, and nothing else |
| Caller.EmittedIsCarried | server-go/bus/client.go:188-220 | what `emit` puts in a slot carries the fragment it was given |
| CallerAnswers.SentReads | server-go/bus/module_caller.go:107-162 | every fragment a call sends decodes to an invocation of its stage, trace and body piece, with the caller's clock plus the deadline as a uint64, or no deadline |
| CallerAnswers.DeadlineIsInstant | server-go/bus/module_caller.go:110-113 | the deadline sent is the instant meant unless the sum passes 2^64 |
| CallerAnswers.SendFailures | server-go/bus/module_caller.go:96-149 | why a call fails without awaiting, and that nobody is told to stop then |
| CallerAnswers.SendsStop | server-go/bus/module_caller.go:156-158 | a bus error ends the sending at the fragment that met it |
| CallerAnswers.AnswerOfPolls | server-go/bus/module_caller.go:119-130 | what a call awaits, up to 16 MiB, expiring exactly if it has a deadline |
| CallerAnswers.NoEvent | server-go/bus/module_caller.go:173-185 | a failed poll, the end of the context and the deadline, in this order |
| CallerAnswers.ControlEnds | server-go/bus/module_caller.go:190-197 | a control frame of kind 4 means an absent capability, of kind 3 a refusal by the host |
| CallerAnswers.ForeignIsPassed | server-go/bus/module_caller.go:198-204 | what is skipped |
| CallerAnswers.ResultIsTaken | server-go/bus/module_caller.go:205-221 | a result fragment fails with its status, fails above the limit, or adds its bytes |
| Caller.AwaitTrain | server-go/bus/module_caller.go:169-222 | a whole reply train among any other traffic is reassembled to exactly its body, or answered with its status |
| CallerSession.NoCrossTalk | server-go/bus/module_caller.go:96-223 | over up to 2^64 calls on one caller, whatever earlier ones left in the inbox: correlations are distinct, each body is made of its own correlation's fragments, no poll is used twice, and exactly the calls that failed while awaiting are cancelled, once each |
| CallerSession.CorrelationsDiffer | server-go/bus/module_caller.go:107-108 | two calls of a session that take a correlation take different ones |
| CallerSession.GuardIsModular | server-go/bus/module_caller.go:100-103 | a call goes ahead exactly when the length of its request modulo 2^32 is within the limit |
| CallerSession.LongRequestPasses | server-go/bus/module_caller.go:100-106 | a request of 2^32 bytes passes the guard and is sent whole |
| CallerLoops.ModuleCaller.Send | server-go/bus/module_caller.go:134-163 | sends a prefix of the request train, all of it exactly on success, and stops at the first emit that fails |
| CallerLoops.ModuleCaller.AwaitReply | server-go/bus/module_caller.go:169-222 | the loop returns the answer its polls determine and consumes no more of them |
| CallerLoops.ModuleCaller.Call | server-go/bus/module_caller.go:96-130 | takes a new correlation, sends, awaits, and cancels exactly once, exactly when awaiting failed; with a budget of at most 40 it fails, sends nothing and cancels nothing |
| CallerLoops.ModuleCaller.CallAll | server-go/bus/module_caller.go:96-130 | calls in turn on one caller are the session whose isolation is proved |
| ModuleConfig.ValidateModuleConfig | server-go/bus/module_runtime.go:112-128 | a table is returned exactly for complete configurations with named, distinct kinds, and it holds just those stages |
| ModuleConfig.StagesAreNamed | server-go/bus/module_runtime.go:118-126 | stage 0 stands for exactly the kinds not configured |
| RuntimeAnswers.UnsoundIsInvalid | server-go/bus/module_runtime.go:357-374 | a fragment that is unreadable, of an unknown or other stage, of a running correlation or at odds with its assembly is answered INVALID_REQUEST (4), decoded |
| RuntimeAnswers.NoRoomIsInternal | server-go/bus/module_runtime.go:375-394 | one without room for its assembly or its bytes is answered INTERNAL (5) |
| RuntimeAnswers.MoreIsAbsorbed | server-go/bus/module_runtime.go:383-398 | one that announces another is added to its assembly, and nothing is answered |
| RuntimeAnswers.ExpiredIsRefused | server-go/bus/module_runtime.go:400-406 | a complete request with `0 < deadline <= now` is answered DEADLINE_EXCEEDED (3) under its stage and trace, and no job begins |
| RuntimeAnswers.NoHandlerIsAbsent | server-go/bus/module_runtime.go:407-413 | in time but without a handler: CAPABILITY_ABSENT (1) |
| RuntimeAnswers.FullIsInternal | server-go/bus/module_runtime.go:414-420 | in time but with 16 jobs: INTERNAL (5) |
| RuntimeAnswers.LiveIsLaunched | server-go/bus/module_runtime.go:421-427 | with `deadline == 0` or `now < deadline`, a handler and room, the job is launched on the whole body and nothing is answered |
| RuntimeAnswers.CancelMarks | server-go/bus/module_runtime.go:345-352 | a cancellation marks the job and drops the assembly |
| RuntimeAnswers.OthersAreSkipped | server-go/bus/module_runtime.go:353-355 | other events change nothing |
| RuntimeAnswers.FinishedIsAnswered | server-go/bus/module_runtime.go:286-291 | a result ends its job and begins the reply under the job's kind, stage and trace |
| RuntimeAnswers.ReplyReads | server-go/bus/module_runtime.go:223-275 | every fragment of a reply decodes to its status, stage and trace, and together they hold the body |
| RuntimeAnswers.SettlesOn | server-go/bus/module_runtime.go:196-221 | cancelled (2) before expired (3) before INTERNAL (5) for an unknown status or an oversized body before the handler's own |
| RuntimeAnswers.EndsExactly | server-go/bus/module_runtime.go:313-343 | exactly which inputs end the serving, and which of them drain |
| RuntimeAnswers.HandlersExactly | server-go/bus/module_runtime.go:196-221 | when a handler's outcome is settled and when it goes to the channel |
| RuntimeAnswers.SendsExactly | server-go/bus/module_runtime.go:248-268 | an accepted fragment is out; one that met a full ring stays |
| RuntimeSafety.StepTables | server-go/bus/module_runtime.go:293-427 | every step keeps: jobs are in bijection with running handlers plus queued results, at most 16 jobs and 16 assemblies, no correlation in both |
| RuntimeSafety.RunTables | server-go/bus/module_runtime.go:293-427 | the table invariant holds in every reachable state, after the loop has exited too |
| RuntimeSafety.SendNeverBlocks | server-go/bus/module_runtime.go:196-221 | a running handler always finds room in the 16-slot channel |
| RuntimeHistory.BodiesAreConcatenations | server-go/bus/module_runtime.go:345-427 | from the start, over any run, an assembly holds exactly its fragments since the last reset and a handler exactly the fragments of its request |
| RuntimeHistory.RunAssembled | server-go/bus/module_runtime.go:345-427 | those fragments agree on kind, stage, deadline and trace and stay within 16 MiB |
| RuntimeHistory.ReplyTrainComplete | server-go/bus/module_runtime.go:223-275 | every reply is a complete readable train within the budget, with no body unless its status is OK |
| RuntimeHistory.RunTrains | server-go/bus/module_runtime.go:223-291 | the outbound stream of any run is whole replies one after another; fragments of different replies never interleave |
| RuntimeHistory.RunBalanced | server-go/bus/module_runtime.go:286-427 | request events = absorbed + answered at once + launched; launched = answered + drained + outstanding; one reply per answer |
| RuntimeHistory.FromStart | server-go/bus/module_runtime.go:293-427 | every state reached from the start has its tables in bijection, its assemblies accounted for, its replies whole and its counts balanced |
| RuntimeHistory.ShutdownBegins | server-go/bus/module_runtime.go:313-321 | context cancellation exits without jobs and otherwise drains with every job cancelled |
| RuntimeHistory.DrainProgress | server-go/bus/module_runtime.go:317-320 | the drain is never stuck |
| RuntimeHistory.DrainCounts | server-go/bus/module_runtime.go:313-321 | the drain ends after exactly as many receives as there were jobs, leaving no handler, no result and no further fragment |
| RuntimeCancel.CancelDooms | server-go/bus/module_runtime.go:345-350 | a cancellation that finds the handler running leaves only the cancelled outcome |
| RuntimeCancel.CancelledIsAnswered | server-go/bus/module_runtime.go:196-221 | over any run such a job either still owes its reply or was ended by exactly one cancelled, empty reply, or by the drain |
| RuntimeCancel.OkIsEarned | server-go/bus/module_runtime.go:196-221 | cancellation goes ahead of the deadline ahead of the handler; only OK keeps a body |
| RuntimeLoop.ReplyModuleResult | server-go/bus/module_runtime.go:223-275 | sends a prefix of the reply train, all of it exactly on success, and stops only for the reason its attempts give; stage 0 fails to encode and correlation 0 is refused with nothing sent, and encoding never fails for a named stage |
| RuntimeLoop.PatientSend | server-go/bus/module_runtime.go:248-268 | however often the ring is full, the whole train goes out, each fragment once |
| RuntimeLoop.SendRetrying | server-go/bus/module_runtime.go:248-268 | repeats a refused attempt until it is accepted or waiting must end, and never sends a fragment twice |
| RuntimeLoop.RetryExactly | server-go/bus/module_runtime.go:248-268 | which attempt decides a fragment and what it makes of it, the context's end going ahead of a new epoch |
| RuntimeLoop.ModuleRuntime.HandleEvent | server-go/bus/module_runtime.go:344-427 | the event handling code takes exactly the step of the transition system |
| RuntimeLoop.ModuleRuntime.Accept | server-go/bus/module_runtime.go:375-426 | behind the validity test: the assembly grows, the job starts, or the refusal of the transition system is sent |
| RuntimeLoop.ModuleRuntime.SelectDone | server-go/bus/module_runtime.go:286-311 | a finished result ends its job and begins its reply |
| RuntimeLoop.ModuleRuntime.Stop | server-go/bus/module_runtime.go:313-317 | every job is cancelled and none is lost |
| RuntimeLoop.ModuleRuntime.DrainOne | server-go/bus/module_runtime.go:317-320 | one receive of the drain |
| RuntimeLoop.ModuleRuntime.HandlerReturns | server-go/bus/module_runtime.go:196-219 | the checks after the handler |
| RuntimeLoop.ModuleRuntime.HandlerSends | server-go/bus/module_runtime.go:220 | the send on the channel |
| RuntimeLoop.ModuleRuntime.Serve | server-go/bus/module_runtime.go:293-427 | the runtime object, driven by any sequence of inputs, ends where the run of the transition system ends |
| EndToEnd.TrackStep | server-go/bus/module_runtime.go:345-427 | one exchange keeps its course through every step of everyone else |
| EndToEnd.TrackRun | server-go/bus/module_runtime.go:293-427 | one exchange keeps its course through every run, interleaved with any other correlations |
| EndToEnd.ServesExactly | server-go/bus/module_runtime.go:293-427 | an admitted, uncancelled, unexpired request runs the handler once on exactly its bytes and sends exactly its reply |
| EndToEnd.CallReturnsResponse | server-go/bus/module_caller.go:169-223 | if the caller's own polls begin with what the server sent, the answer is the handler's response, or fails with the status settled on; that they do is `RemoteCall.CallOverRings` |
| RemoteCall.ReadIsWritten | server-go/bus/client.go:188-305 | the messages of one correlation read from a ring are those written to it, up to what is on its way |
| RemoteCall.NeverRefused | server-go/bus/client.go:188-220 | with `inlineBudget + 64 <= slotSize` and `inlineBudget <= MaxPayload` a fragment is sent or told to wait, never refused |
| RemoteCall.CallerWrites | server-go/bus/module_caller.go:141-162 | in that geometry the request train is on the caller's ring, among other traffic |
| RemoteCall.ServerGoesOn | server-go/bus/module_runtime.go:235-274 | in that geometry the serving loop never stops on a refused reply fragment |
| RemoteCall.CallOverRings | server-go/bus/module_caller.go:96-223 | over four rings, for all bodies up to 16 MiB, all budgets above 40 whose full fragments fit, and all interleavings of atomic steps: the handler runs once on exactly the request, and awaiting gives exactly its response or fails with its status |
| RemoteCall.CallReturns | server-go/bus/module_caller.go:96-130 | so `Call` sends exactly the request on the ring, and its answer is that response or status |
| RemoteCall.CallReturnsInTime | server-go/bus/module_caller.go:110-113 | with a deadline it is enough that the last fragment arrives before the caller's clock at the call plus the deadline |
| SampleCall.PremisesMeet | server-go/bus/module_caller.go:96-223 | all premises hold together: for any request and outcome of one fragment, rings, turns and inputs on which the call is answered so |
| LearningSafety.MarkWindows | src/modules/learning/learning_router.c:248-258 | checking the cap at one instant and stamping at a later one keeps the bound for every seven-day window |
| LearningSafety.ApplyMarkInv | src/modules/learning/learning_router.c:254-258 | applying and marking keep every invariant, whether or not the mark is lost |
| LearningSafety.CommitSafe | src/modules/learning/learning_router.c:229-259 | committing an entitled proposal keeps every invariant and reports what the table holds |
| LearningSafety.QueueSinkSafe | src/modules/learning/learning_router.c:261-303 | queueing keeps every invariant, and what it reports as committed was committed by this call |
| LearningSafety.RecordSafe | src/modules/learning/learning_router.c:400-549 | recording a signal for all its sinks keeps every invariant and reports only commits it made |
| LearningSafety.AcceptSafe | src/modules/learning/learning_router.c:579-590 | accepting keeps every invariant |
| LearningSafety.RejectSafe | src/modules/learning/learning_router.c:592-607 | rejecting commits nothing and leaves settled proposals as they were |
| LearningSafety.RunSafe | src/modules/learning/learning_router.c:229-607 | every invariant holds after every sequence of record, accept, reject, get and list |
| LearningSafety.SlidingWindow | src/modules/learning/learning_router.c:248-258 | in every run, for every sink and every instant, at most `cap` commits in the seven days before, with any delays and any failures of the calls that can fail |
| LearningSafety.SevenDays | src/modules/learning/learning_router.c:248-258 | however they are chosen, commits of one sink stamped within 604800 seconds of one another are at most `cap` |
| LearningSafety.FromEmpty | src/modules/learning/learning_router.c:229-607 | in particular from an empty table: all invariants and all windows |
| LearningSafety.SettledIsFinal | src/modules/learning/learning_router.c:235-246 | committed and archived are absorbing; a proposal's target and action never change |
| LearningSafety.AppliedAtMostOnce | src/modules/learning/learning_router.c:254-258 | how often a sink is applied for a proposal, always with the stored action; at most once exactly when no mark was lost, or one and no commit |
| LearningSafety.CommitsAreEarned | src/modules/learning/learning_router.c:261-303 | without an explicit accept, one signal commits only a confident rule; every other commit has corroboration of at least 2 |
| LearningSignals.CommitsAreTraced | src/modules/learning/learning_router.c:261-303 | every commit of every run from an empty table is traced to an acceptance of that proposal, to corroboration of at least 2, or to the recorded signal that inserted it, an explicit rule or a preference of high confidence |
| LearningSafety.PendingIsUnique | src/modules/learning/learning_router.c:266-288 | at most one pending proposal per sink, key and memory |
| LearningProgress.CommitDecides | src/modules/learning/learning_router.c:229-259 | a live proposal is committed now below the cap and archived as `weekly_cap` at it; nothing else changes but what expired |
| LearningProgress.AcceptDecides | src/modules/learning/learning_router.c:579-590 | accepting settles a live proposal: committed below the cap, archived at it |
| LearningProgress.AppliedTwice | src/modules/learning/learning_router.c:254-258 | a run of two accepts that applies one proposal twice: the first mark is lost |
| LearningProgress.SecondSignalDecides | src/modules/learning/learning_router.c:266-281 | the second signal settles a pending proposal and lists it as committed exactly when it is |
| LearningProgress.FirstSignalWaits | src/modules/learning/learning_router.c:283-302 | the first signal only adds a pending proposal with corroboration 1 |
| LearningProgress.RejectArchives | src/modules/learning/learning_router.c:592-607 | rejecting a live proposal archives it and nothing more |
| LearningProgress.SinkReports | src/modules/learning/learning_router.c:261-303 | queueing reports exactly one id, that of a proposal for this sink and target |
| LearningProgress.RouteReports | src/modules/learning/learning_router.c:475-541 | a routed signal reports one proposal per sink that wants it, and never overflows the report |
| LearningSignals.RecordAdds | src/modules/learning/learning_router.c:400-549 | every proposal a recorded signal adds has one of four forms given in the signal's fields: sink, target, action with its texts; nothing is added without a type, admission or classification |
| LearningSignals.UnsureWaits | src/modules/learning/learning_router.c:475-541 | with nothing pending for its targets, a signal that is neither an explicit rule nor a preference of high confidence commits nothing and reports nothing as committed |
| LearningSignals.SureCommits | src/modules/learning/learning_router.c:517-530 | one that is commits its rule at once, below the cap and with calls that succeed |
| LearningSignals.SweepExactly | src/modules/learning/learning_router.c:574 | the sweep archives exactly what is pending and over, as `expired` |
| LearningSignals.ExpiredIsNotAccepted | src/modules/learning/learning_router.c:579-590 | a proposal whose time is over at the first call is not committed by accepting it |
| LearningSignals.RecordSweeps | src/modules/learning/learning_router.c:460-470 | recording archives what is over first |
| LearningSignals.GetExactly | src/modules/learning/learning_router.c:567-577 | reading answers the row as it is after the sweep |
| LearningSignals.UnknownIsRefused | src/modules/learning/learning_router.c:579-607 | ids below 1 are refused at once, unknown ones commit nothing |
| LearningCalls.Store.ProposalFindPending | src/modules/learning/learning_router.c:266 | a pending match is returned exactly when there is one |
| LearningCalls.Store.ProposalsArchiveExpired | src/modules/learning/learning_router.c:574 | only pending proposals are archived |
| LearningCalls.Store.CommitsInLast7Days | src/modules/learning/learning_router.c:248 | the number of commits of a sink in the seven days up to now |
| LearningCalls.Router.CommitProposal | src/modules/learning/learning_router.c:229-259 | leaves table, clock and answer as specified, and all invariants intact, so every run-level result above applies to the code |
| LearningCalls.Router.QueueForSink | src/modules/learning/learning_router.c:261-303 | one signal for one sink: corroborates the pending proposal or proposes anew, as specified |
| LearningCalls.Router.RecordSignal | src/modules/learning/learning_router.c:400-549 | gate, sweep, signal, routing, in the order specified |
| LearningCalls.Router.RouteSignal | src/modules/learning/learning_router.c:475-541 | every sink that wants the signal is queued for, in order, with its own target, action and confidence |
| LearningCalls.Router.AcceptProposal | src/modules/learning/learning_router.c:579-590 | an explicit acceptance entitles the proposal and settles it |
| LearningCalls.Router.RejectProposal | src/modules/learning/learning_router.c:592-607 | a rejection archives only what is pending |
| LearningCalls.Router.GetProposal | src/modules/learning/learning_router.c:567-577 | reading sweeps out expired proposals first |
| Cosine.CauchySchwarz | src/modules/learning/learning_bundle.c:52-63 | the square of the dot product is at most the product of the squared norms, in every dimension |
| Cosine.ScoreInRange | src/modules/learning/learning_bundle.h:32 | every score lies in [-1, 1] |
| Cosine.SelfScore | src/modules/learning/learning_bundle.c:52-63 | a vector that is not tiny scores 1 against itself |
| Cosine.ScoreExactly | src/modules/learning/learning_bundle.c:52-63 | the score times the product of the norms is the dot product above 1e-9, and the score is 0 otherwise |
| Cosine.BundleCosine | src/modules/learning/learning_bundle.c:52-63 | the loop computes the score its sums define |
| Bundle.ScoredOne | src/modules/learning/learning_bundle.c:123-133 | the scored entries are the rows of the query's dimension, each once |
| Bundle.SortDescending | src/modules/learning/learning_bundle.c:71-80 | sorts in place, a permutation in falling order |
| Bundle.RearrangedScored | src/modules/learning/learning_bundle.c:135 | any permutation of the scored entries is as good |
| Bundle.FrontIsTop | src/modules/learning/learning_bundle.c:137-147 | the front of the sorted entries is a correct top-k: no row left out scores higher, no row appears twice |
| Bundle.CountKinds | src/modules/learning/learning_bundle.c:149-164 | `distinct_kinds` is the size of the set of returned kinds |
| Bundle.Build | src/modules/learning/learning_bundle.c:82-168 | the error cases, and otherwise a correct top-k with `k` clamped to [1, 32], every item field by field, and the kinds of its rows counted |
| Bundle.ShownInRange | src/modules/learning/learning_bundle.h:32 | every returned score lies in [-1, 1] |
| Escape.UnescapeOne | src/modules/learning/learning_evidence.c:69-82 | one escape is read back as its byte under section 7 of RFC 8259, whatever follows |
| Escape.EscapeExactly | src/modules/learning/learning_evidence.c:72-81 | exactly the quote, the backslash and the bytes below 32 are escaped, each as written here: only what may not stand alone in a JSON string |
| Escape.UnescapeOfEscape | src/modules/learning/learning_evidence.c:69-82 | unescaping gives the input back, so no raw quote or control byte is written |
| Escape.EscapeIsInjective | src/modules/learning/learning_evidence.c:69-82 | different contents have different escapes |
| Escape.JsonEscapeInto | src/modules/learning/learning_evidence.c:67-84 | at most `len - 1` bytes and the NUL, whole escapes only, a prefix of the input and all of it unless room ran out |
| Escape.EvidenceKindAllowed | src/modules/learning/learning_evidence.c:51-63 | accepts exactly the eight listed kinds |
| Escape.AdmittedIsListed | src/modules/learning/learning_evidence.c:51-63 | which kinds are listed |
| Escape.TakenFits | src/modules/learning/learning_evidence.c:95-96 | with a 1024-byte buffer at most 1022 bytes are written |
| Escape.PayloadIsWhole | src/modules/learning/learning_evidence.c:98-102 | with scope fields of at most 145 bytes together the payload is never cut, for any kind and content |
| Escape.PayloadIsCut | src/modules/learning/learning_evidence.c:98-102 | with longer ones it is cut for some content: the bound is exact |
| Escape.BuildPayload | src/modules/learning/learning_evidence.c:86-102 | which events have a payload, and which one |
| PayloadReader.BackWhenPlain | src/modules/learning/learning_evidence.c:98-102 | a text put between quotes as it is is read back exactly when it needs no escaping |
| PayloadReader.ReadBack | src/modules/learning/learning_evidence.c:86-102 | a JSON reader gets source kind, both scope fields, hash and content back from the payload, exactly when the scope fields need no escaping |
| PayloadReader.QuotedScopeIsLost | src/modules/learning/learning_evidence.c:98-102 | a scope field with a quote is not read back |

## Left out

- The host daemon and the C client: only the relay assumption above; nothing is claimed about admission or reaping.
- Sockets, mapping, descriptor passing, signals, connecting and reconnecting, the heartbeat goroutine.
- The Go memory model below sequential consistency, and platforms where Go's `int` has 32 bits.
- Time: clocks are inputs of a step or advance by any amount at a call; sleeps are steps that do nothing.
- BusClient.Client.Poll: a payload is bounded by the ring's slot size, the client's being taken as equal; `BusSteps` keeps the two apart.
- BusSteps.DeliveredAreAccepted: both clients were told the ring's slot size (`SameSlots`), which attaching does not check, and no foreign slot makes the poller panic (`Harmless`). `PublishedAreSent` and `ReadAreWhole` need neither; without `SameSlots` they speak of the bytes inside the slot.
- BusClient.WholeCallsDeliver: calls do not overlap; overlapping ones are in `BusSteps`. A foreign slot that would make the poller panic is excluded, as there.
- TrainDelivery.RepliesAll: one whole emit or one whole release at a time; epoch changes and cancelled contexts, which end the retries, are in `RuntimeLoop`.
- RemoteCall.CallOverRings: the caller's ring has room for the request when it is sent, the server is not shut down, and no error or deadline ends the caller's polls; refusals along the way are in the modules of each side.
- EndToEnd.ServesExactly: the premise that the exchange is admitted, unexpired and not cancelled is stated per step (`Smooth`, and `Undisturbed` in `RemoteCall`), because fragments left over after a reset begin a new assembly.
- CallerLoops.ModuleCaller.Call: a nil client is not modelled, and a poll script that ends leaves the call waiting.
- Region.QueuePair.SetHeartbeat: isolation is claimed for rings that lie apart, which attaching itself does not check.
- LearningStore.ArchiveExpired: what counts as expired is a comparison of times; the table's SQL is not part of this model.
- LearningSafety.SlidingWindow: counting commits and finding a pending proposal cannot fail in the model; a negative count would pass the test at line 248 of `learning_router.c` and the proposal would be committed.
- LearningCalls.Store.CommitsInLast7Days: always answers; the C call returns an `int` that may signal an error.
- LearningSafety.AppliedAtMostOnce: proposals queued by other modules are part of the initial table only.
- The sinks themselves, JSON parsing and printing of actions, their buffer limits, and the evidence references of a proposal.
- The integrity gate, the signal classifier and the lookup of a memory's key: their answers are inputs of `Record`.
- Latency counters, commit-ratio and cap metrics, proposal JSON fields, dogfood logging, implicit detectors.
- Promotion, judging, review and rollback (`learning_evidence.c` from line 139 on), and the other evidence writers.
- Bundle.SortDescending: stands in for `qsort`; the order of equal scores is left open, as it is there.
- Cosine.BundleCosine: exact reals, with a square root that is a parameter; floating-point rounding, `strtof` and allocation failures are not modelled.
- PayloadReader.ReadBack: the reader takes objects of strings without white space, the only ones the payload is; a payload cut at 1279 bytes is none.
- Escape.UnescapeOfEscape: the reader refuses surrogate escapes, which the escaper never writes.
- The content hash: a 16-character parameter.
