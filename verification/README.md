# Horovod's coordination core in Dafny

Horovod runs the same training program on many ranks. Every rank asks for collective operations on
named tensors, in its own order, and a background thread on every rank has to start the same
collectives in the same order everywhere. This project models the code that makes the ranks agree,
and proves what it promises.

## What is modelled

**Negotiation with a replicated response cache.** `Protocol.Cluster` is the state of any number of
ranks: tensor table, message queue, cache replica, stall inspection, and the coordinator's message
table. A step is one rank enqueueing a tensor, or one cycle (`Protocol.Cycle`) of the background
loop on all ranks: classification against the cache, agreement on cache bits, requeueing, and then
early return, fast path or slow path. `Cycle` is `None` wherever the code would fail an assertion,
throw, index out of range or wait for a collective that other ranks do not enter. The specification
(`ProtocolSpec`) has no cache, no queues and no coordinator: for each rank a map from names to
outstanding requests, of which a cycle removes the names common to all ranks and answers each of
them with the response that negotiation gives to the ranks' requests. `ProtocolCycle.CycleRefines`
says that no cycle fails and that every cycle meets this specification; `ProtocolRuns` carries it
over whole runs. The two halves underneath are proved on their own: `CacheSync` shows that packing
sets into 64-bit words, combining the words bitwise and searching for set bits computes the set
algebra used by `Protocol`, and `ResponseCache` shows that the linked list with its iterators
implements the cache used by `Protocol`. `Controller` has the loops of ComputeResponseList, phase
by phase, on these objects. `RunLoop` puts them together: `RunLoop.RunLoopOnce` runs a pass of the
background loop on the tensor queues, caches, cache coordinators and stall inspectors of all ranks
and on the coordinator's message table, and ends exactly in the state and with the lists of `Cycle`.
`BackgroundLoop.Run` starts from nothing, handles tensors submitted and passes made in any order,
and is a run in the sense of `ProtocolRuns`, so that what is proved of runs holds of the objects.

**Negotiation of one tensor.** `Negotiation` has ConstructResponse, check by check, and shows that
the verdict and the response depend on the requests only, not on their arrival order.

**Fusion.** `Fusion` has the greedy packing with look-ahead and the splitting that undoes it.
`Packing` bounds what it packs from both sides: never more than the buffer holds, and two
collectives that could have been one stay apart only when the rest of the list does not fit.

**What the cache is for.** `Recency` says exactly which responses a bounded LRU list holds after any
uses, and where. `ProtocolCaching` says that what was negotiated once is cached, is a hit when it is
asked for again, and then needs no coordinator: `ProtocolCaching.SteadyState` is about runs that
submit the same tensors step after step.

**Stalled tensors.** `StallClock` and `WaitingTimes` say which tensors are under stall inspection and
since when: `BackgroundLoop.Run` keeps, for every waiting message, the clock of the first pass since
its tensor was submitted, and gives up a cache entry exactly when that is longer ago than the limit.

**Process sets.** `ProcessSets`, `ProcessSetAgreement` and `ProcessSetTable` model the second
agreement protocol: on each process a user thread that makes blocking add and remove calls one at a
time, and rounds in which the background threads exchange counts and marks.

**Autotuning.** `Autotuner` and `ParameterManager` model the search over the parameter chain.

**Half precision.** `Rounding`, `Half` and `HalfSum` model the conversions between half and single
precision and the summation loop, against roundTiesToEven of section 4.3.1 of IEEE 754-2019.

Two claims one might make of this code are not true of it, and are settled exactly.

First, the checks of ProcessSet::Initialize do not always have the same outcome on all processes. A
process with an empty rank list skips them, so the length check has one verdict exactly when all
lists are empty or none is (`ProcessSetTable.LengthVerdict`). The MAX reduction has one verdict
exactly when the lists are equal or none dominates the others (`ProcessSetTable.MaxVerdict`). Both
together are `ProcessSetTable.OneVerdictIff`. Runs of two processes in which one throws or goes on
while the other waits are in `ProcessSetTable.MaxVerdictSplits` and
`ProcessSetTable.LengthVerdictSplits`. The checks still succeed everywhere exactly when all
processes registered the same list (`ProcessSetTable.SucceedsIffEqual`).

Second, the comment at horovod/common/operations.cc:328-330 promises that adding ranks which already
have a set gives that set. In every reachable state an add call makes a second set for the same
ranks exactly when it is given the empty list, which means all ranks
(`ProcessSetAgreement.DuplicatesIffEmpty`). Over whole runs only the set of all ranks is ever
repeated (`ProcessSetAgreement.RepeatsAreGlobal`).

A request for a gather or an alltoall that carries scale factors never hits the cache, since the
response has none; `ProtocolCaching.RepeatedRequestHits` has the exact condition.

Modelling choices: sizes and dimensions are unbounded naturals; scale factors are reals compared
for equality; error texts are not kept; the collectives CrossRankBitwiseAnd, CrossRankBitwiseOr,
Allgather2Ints, gather and broadcast are their mathematical results; clocks, the optimizer's
proposals and the single precision adder are inputs.

## Model

| member | source | states |
|---|---|---|
| Negotiation.ConstructResponse | horovod/common/controller.cc:483-763 | the checks run in arrival order, yet the result is the response the specification gives to the requests put in rank order; it names the device of every rank's request, and carries their common operation and, for a reduction, type, size and scale factors, or for an allgather the first dimension of every rank |
| Negotiation.ChecksMeanAgreement | horovod/common/controller.cc:493-716 | comparing everything with the first request to arrive is the same as mutual agreement in rank order on what the operation must share |
| Negotiation.ArrivalOrderIrrelevant | horovod/common/controller.cc:483-763 | any two arrival orders of one request per rank give the same verdict and the same response |
| Negotiation.CountIsAllRanks | horovod/common/controller.cc:976-978 | with at most one request per rank, as many requests as ranks means one from every rank |
| Negotiation.CheckGather | horovod/common/controller.cc:587-661 | an error exactly when a gathered tensor is a scalar or differs beyond its first dimension; otherwise the first dimensions by rank, every write in bounds |
| Negotiation.CheckDevices | horovod/common/controller.cc:700-721 | an error exactly when host and device requests are mixed; in any case the device of every rank's request, at its rank |
| Negotiation.ResponseMeans | horovod/common/controller.cc:483-763 | in terms of the requests alone: every rank's device; an error exactly when two requests differ in type, operation, host or device placement, or in what their operation shares, or a gathered tensor is a scalar; otherwise the operation with its sizes, type and scale factors, and the default values in all other fields |
| Fusion.FusionThreshold | horovod/common/controller.cc:463-481 | on homogeneous clusters the least multiple of the unit that is not below the proposal, and otherwise the proposal |
| Fusion.GroupsAreGood | horovod/common/controller.cc:796-930 | every fused group is an in-order selection of the input, compatible with its head and, with two or more members, within the fusion buffer; heads keep the input order |
| Fusion.GroupsCover | horovod/common/controller.cc:796-930 | every input response is in exactly one group |
| Fusion.FuseResponses | horovod/common/controller.cc:793-930 | the deque loops end and produce the groups of the specification, merged; splitting gives back the input, only reductions and allgathers are fused, all parts of a fused response agree on type, operation, devices and scale factors, and all tensors of a fused allgather have one data type in the tensor table |
| Fusion.PackReduction | horovod/common/controller.cc:813-865 | one look-ahead pass for reductions takes and leaves what the specification says, with skipped responses back in their places, and takes only reductions that agree with the first in operation, devices, data type and scale factors |
| Fusion.PackGather | horovod/common/controller.cc:876-924 | the same for allgather, sized from the tensor table: it takes only allgathers on the same devices whose tensors have the data type of the first |
| Fusion.FusedAlike | horovod/common/controller.cc:827-894 | of every response of a fused list: what its tensors have in common |
| Packing.BytesMean | horovod/common/controller.cc:804-825 | the bytes counted for a response: elements times element size, in whole units of 16 when copies are batched, or for an allgather the rows of all ranks times slice and element size |
| Packing.SizesMean | horovod/common/controller.cc:932-952 | the size of a shape in two parts is the product of the parts, and the rows of two lists are their sum |
| Packing.LeftOver | horovod/common/controller.cc:827-858 | a response that goes with the head is left for later only when what was packed and what was left up to it exceed the threshold |
| Packing.SeparateOnlyIfFull | horovod/common/controller.cc:793-930 | two responses of a fused list with the same operation, devices, type and scale factors are separate only when the responses from the first of them on do not fit the threshold together |
| Packing.FitsBuffer | horovod/common/operations.cc:268-278 | with the threshold of TensorFusionThresholdBytes, which is also the buffer's size, every fused operation on more than one tensor fits the fusion buffer, and the buffer exceeds the proposal by less than one unit |
| Fusion.AllgatherOutputBytes | horovod/common/controller.cc:932-952 | the loops compute the sum of first dimensions times slice size times element size |
| Fusion.SplitUndoesMerge | horovod/common/response_cache.cc:195-223 | splitting a fused response gives back its parts, field by field and in order |
| Fusion.SplitUndoesFuse | horovod/common/response_cache.cc:195-234 | splitting the fused list gives back the responses that were fused, as a multiset, and every name once |
| LruCache.PutFacts | horovod/common/response_cache.cc:126-179 | inserting keeps names and bits in bijection and the size within capacity; nothing but the new response is added |
| LruCache.EraseFacts | horovod/common/response_cache.cc:273-291 | erasing removes exactly the entry of the bit and keeps all other bits |
| LruCache.RenumberFacts | horovod/common/response_cache.cc:293-316 | afterwards the bits are 0 to size-1 without holes, given out from the least recently used entry on, list and names unchanged |
| Recency.PutOrder | horovod/common/response_cache.cc:140-179 | after a put the name put is in front, the others keep their order, and only the last entry of a full cache is dropped |
| Recency.PutBits | horovod/common/response_cache.cc:140-179 | cached names keep their bits; a new one takes over the bit of the dropped entry or the next bit |
| Recency.EraseOrder | horovod/common/response_cache.cc:273-291 | erasing leaves the others in their order |
| Recency.CachedIffRecent | horovod/common/response_cache.cc:126-179 | after any insertions into any cache, a name is cached exactly when it was used and fewer than capacity other names were used since; as many entries are before it |
| Recency.TouchedByRecency | horovod/common/controller.cc:239-241 | after the fast path as many entries are before a name as names were used since, counting the common hits in bit order |
| Recency.ListedStay | horovod/common/controller.cc:443-458 | every part of a response list that is no error and no broadcast is cached afterwards, if the cache can hold the names of the list |
| Recency.InsertionsInOrder | horovod/common/controller.cc:443-458 | what is inserted are parts of the list, in its order |
| ResponseCache.ResponseCache.Cached | horovod/common/response_cache.cc:69-88 | the state of a request, read through bit and iterator, is a miss exactly for a name that is not cached, and a hit exactly when device, type, shape, scale factors and operation are those of the entry |
| ResponseCache.ResponseCache.CachedResponse | horovod/common/response_cache.cc:90-124 | the same for a response about to be inserted |
| ResponseCache.ResponseCache.GetResponse | horovod/common/response_cache.cc:237-249 | returns the entry of the bit and moves it to the front of the LRU list, bits unchanged, the others in their order |
| ResponseCache.ResponseCache.PeekResponse | horovod/common/response_cache.cc:251-254 | returns the entry of the bit |
| ResponseCache.ResponseCache.PeekCacheBit | horovod/common/response_cache.cc:256-263 | the bit of a cached name, and that it is live |
| ResponseCache.ResponseCache.PutOne | horovod/common/response_cache.cc:126-179 | refuses exactly a name whose entry differs in parameters, scale factors or operation; otherwise the name is in front afterwards: refreshes, evicts or appends as a bounded LRU list does, with the evicted entry's bit taken over |
| ResponseCache.ResponseCache.PutResponse | horovod/common/response_cache.cc:181-235 | fails exactly when a split part is refused or not in the tensor table; the cache then holds the parts before it, and otherwise all parts, inserted in turn |
| ResponseCache.StoredPrefix | horovod/common/response_cache.cc:181-235 | what a put stores, failing or not, are the parts before the first conflict |
| ResponseCache.ResponseCache.EraseResponse | horovod/common/response_cache.cc:273-291 | the LRU list without the entry, a hole at its bit |
| ResponseCache.ResponseCache.UpdateCacheBits | horovod/common/response_cache.cc:293-316 | the in-place loop numbers the entries from the least recently used one |
| ResponseCache.ResponseCache.InsertAll | horovod/common/controller.cc:443-458 | inserting a response list is inserting the parts of its cacheable responses in order, up to the first conflict; without one, every part that is no error and no broadcast is cached if the names fit |
| ResponseCache.ResponseCache.SetCapacity | horovod/common/response_cache.cc:54-63 | a change of capacity empties the cache, anything else keeps it |
| ResponseCache.ResponseCache.Clear | horovod/common/response_cache.cc:47-52 | the empty cache, capacity kept |
| CacheSync.SetBits | horovod/common/response_cache.cc:428-437 | the find-first-set loop ends with exactly the set bits of the word |
| CacheSync.SyncAll | horovod/common/response_cache.cc:372-498 | after sync every rank holds the intersection of the ranks' hits without invalid ones, the union of the invalid bits, the disjunction of each flag, and as timeline bits the union of hits without invalid ones |
| Protocol.TouchAll | horovod/common/controller.cc:239-241 | using the common hits keeps the cached responses and their bits, whatever their number |
| ProtocolAgreement.WatchedAreHits | horovod/common/stall_inspector.cc:114-128 | whenever the stall check runs, every inspected name is a hit of this cycle, so its cache bit is defined |
| ProtocolAgreement.VoteIsSound | horovod/common/controller.cc:93-150 | bits recorded by a rank are live bits of its cache and the invalid flag tells whether there are invalid ones |
| ProtocolAgreement.SyncedSame | horovod/common/response_cache.cc:422-473 | the agreement leaves the same hits, invalid bits and flags on all ranks |
| ProtocolAgreement.RanksAgree | horovod/common/controller.cc:145-200 | in every related state all ranks take the same branch, and the shutdown flag is the disjunction of the requests |
| ProtocolAgreement.QuietMeansHits | horovod/common/controller.cc:188-200 | on the paths without communication no entry was invalidated, so no bits are left outdated, and all queued messages are hits |
| ProtocolAgreement.HitMeansOutstanding | horovod/common/controller.cc:93-121 | a rank votes for a cached name exactly when it has that name outstanding |
| ProtocolSpec.HitsEverywhereMeanAnswer | horovod/common/response_cache.cc:69-88 | if every rank's own request matches the parameters it kept, the cached response is, field for field, what negotiation would build from those requests |
| ProtocolSpec.FreshIsCertified | horovod/common/response_cache.cc:181-235 | a response cached together with each rank's own parameters has that property |
| ProtocolSpec.EnqueueRelated | horovod/common/tensor_queue.cc:27-36 | enqueueing on one rank, duplicates included, keeps implementation and specification related |
| ProtocolAnswers.ReadyOnce | horovod/common/controller.cc:958-981 | no name becomes ready twice in a cycle |
| ProtocolAnswers.ReadyInOrder | horovod/common/controller.cc:958-981 | names become ready in the order in which their last request arrives |
| ProtocolAnswers.SentOncePerRank | horovod/common/controller.cc:255-304 | the coordinator receives at most one request per rank for a name |
| ProtocolAnswers.CollectedCount | horovod/common/controller.cc:958-981 | a count equal to the number of ranks means one request from every rank, so the rank-indexed writes are in bounds, and they are the outstanding ones |
| ProtocolAnswers.FastAnswers | horovod/common/controller.cc:202-245 | on the fast path the common hits answer exactly the common names, each with the right response |
| ProtocolAnswers.SlowAnswers | horovod/common/controller.cc:376-411 | on the slow path common hits and completed tensors together answer exactly the common names |
| ProtocolAnswers.NoOneWaitsAlone | horovod/common/controller.cc:156-200 | when nobody sends a message, no uncached name is outstanding everywhere |
| ProtocolUpdate.PutParamsFacts | horovod/common/response_cache.cc:130-138 | inserting the responses of a cycle never meets an entry with other parameters, and leaves every rank with its own parameters of each cached name |
| ProtocolCycle.SameFusion | horovod/common/controller.cc:867-925 | ranks that fuse alone get the same list, although the first dimensions of their own tensors may differ |
| ProtocolCycle.FusedAnswers | horovod/common/controller.cc:793-930 | fusing keeps every answer, and names every common tensor once |
| ProtocolCycle.EarlyRefines | horovod/common/controller.cc:188-198 | the early return meets the specification: no name was outstanding everywhere |
| ProtocolCycle.FastRefines | horovod/common/controller.cc:202-245 | the fast path succeeds on every rank and meets the specification |
| ProtocolCycle.SlowRefines | horovod/common/controller.cc:246-458 | the slow path succeeds on every rank and meets the specification |
| ProtocolCycle.CycleRefines | horovod/common/controller.cc:73-461 | every cycle from a related state succeeds on all ranks: identical lists, the right answer for every common name, each once, coherent caches and related states afterwards |
| ProtocolRuns.RunsRefine | horovod/common/controller.cc:73-461 | every run of enqueues and cycles on any number of ranks succeeds and stays related to its specification |
| ProtocolRuns.ReplicasCoherent | horovod/common/controller.cc:443-458 | after any run all ranks cache the same responses in the same order under the same bits, within capacity and without holes |
| ProtocolRuns.CycleAnswers | horovod/common/controller.cc:73-461 | after any run the next cycle gives every rank the same list, naming exactly the tensors that are in every rank's table, each once and rightly answered, with the device of every rank's outstanding request and their common operation, and the disjunction of the shutdown requests |
| ProtocolRuns.OneRequestUnderWay | horovod/common/controller.cc:156-177 | after any run a tensor in a rank's table has exactly one request, in its queue or at the coordinator, other names have none, and no name is both cached and waiting |
| ProtocolRuns.Conservation | horovod/common/tensor_queue.cc:85-110 | over any run, a rank has been told to process a name as often as it accepted it, less one if the tensor is still in its table |
| ProtocolCaching.AnswersAreCached | horovod/common/controller.cc:443-458 | after a cycle every answered tensor but errors and broadcasts is in every rank's cache, with that answer and that rank's parameters, if the cache has room for the names of one cycle |
| ProtocolCaching.RepeatedRequestHits | horovod/common/response_cache.cc:69-88 | the same request again is a hit, for a reduction always, and otherwise exactly when it has no scale factors |
| ProtocolCaching.FastIffAllHit | horovod/common/controller.cc:182-200 | while no tensor is reported stalled, a cycle with something to answer takes the fast path and sends nothing exactly when every queued request of every rank is a hit |
| ProtocolCaching.RepeatIsFast | horovod/common/controller.cc:202-245 | when all outstanding tensors are common and fit the cache, then after the cycle the same requests again are answered from the caches alone |
| ProtocolCaching.SteadyState | horovod/common/controller.cc:73-461 | the same over runs: any run, a cycle, the same requests submitted again in any order, and the next cycle sends no message |
| StallClock.WatchedIffHit | horovod/common/stall_inspector.cc:145-157 | when the stall check runs, exactly the hits in the queue are under inspection |
| StallClock.MessagesInOrder | horovod/common/controller.cc:156-177 | messages that are put back and messages that are sent keep their order |
| StallClock.WatchedAreQueued | horovod/common/controller.cc:156-177 | after a cycle exactly the messages it put back are under inspection, and they are in their old order |
| StallClock.StalledIsNegotiated | horovod/common/controller.cc:133-175 | when one rank finds a cached tensor stalled, the requests for it leave all queues, and unless the cycle answers it they are with the coordinator and no rank caches it |
| WaitingTimes.LateMeans | horovod/common/stall_inspector.cc:114-128 | a name is late exactly when the check is due, its message is a hit, and its recorded start, or now, is more than the limit ago |
| WaitingTimes.ClockAfterPass | horovod/common/controller.cc:93-177 | a pass keeps, for every message it puts back, the clock of the first pass since its tensor was submitted |
| WaitingTimes.ClockAfterSubmit | horovod/common/tensor_queue.cc:27-35 | a newly submitted tensor is not timed before a pass has seen it |
| TensorQueue.AcceptsAll | horovod/common/tensor_queue.cc:37-50 | a group is accepted as a whole exactly when its names are new and distinct |
| TensorQueue.TensorQueue.Add | horovod/common/tensor_queue.cc:27-35 | a name in use is refused without effect; otherwise tensor and message are added, one message per tensor |
| TensorQueue.TensorQueue.AddMulti | horovod/common/tensor_queue.cc:37-50 | the members before the first name in use are added and stay, also when the call fails |
| TensorQueue.TensorQueue.Finalize | horovod/common/tensor_queue.cc:52-61 | every accepted tensor gets its callback once, and table and queue are emptied |
| TensorQueue.TensorQueue.GetEntries | horovod/common/tensor_queue.cc:85-110 | succeeds exactly when the names are distinct and present; then returns their entries in order and removes just those |
| TensorQueue.TensorQueue.Perform | horovod/common/operations.cc:756-770 | the loop over a response list succeeds exactly when all its names are distinct and in the table, and then removes just those |
| TensorQueue.TensorQueue.PopMessages | horovod/common/tensor_queue.cc:144-152 | all messages in order, queue empty |
| TensorQueue.TensorQueue.PushMessages | horovod/common/tensor_queue.cc:161-169 | the messages appended in order |
| Controller.Classify | horovod/common/controller.cc:93-121 | the recorded hits, invalid bits, uncached flag, inspected names and their start times are those of the whole queue |
| Controller.TimedAreWatched | horovod/common/stall_inspector.cc:145-157 | recording and removing start times message by message times exactly the names under inspection |
| Controller.TimesAged | horovod/common/stall_inspector.cc:145-157 | a start time is never changed, and a new one is the clock of the pass |
| Controller.InvalidateStalled | horovod/common/stall_inspector.cc:114-128 | exactly the bits of the names that waited too long become invalid |
| Controller.CheckStalled | horovod/common/controller.cc:133-145 | classification plus stall check give the rank's vote |
| Controller.BeginCycle | horovod/common/controller.cc:88-145 | the rank's vote is the one the protocol gives it |
| Controller.EraseInvalid | horovod/common/controller.cc:771-775 | erasing the invalid bits one by one leaves the cache without their entries, and the parameters of what is left |
| Controller.Requeue | horovod/common/controller.cc:156-177 | rotating the deque keeps the messages for the coordinator in order, puts back exactly the hits that are not common, ends the inspection of all others, and changes no other start time |
| Controller.EndAgreement | horovod/common/controller.cc:152-177 | the rank settles as the protocol says, and the start time of every name that stays is the old one |
| Controller.GetHits | horovod/common/controller.cc:239-241 | the responses the cache holds for the common hits, in bit order, each moved to the front when it is read |
| Controller.FastPath | horovod/common/controller.cc:202-245 | list and cache of a rank on the fast path are the protocol's |
| Controller.Coordinator.IncrementTensorCount | horovod/common/controller.cc:958-981 | the request joins those with its name, and ready means as many as ranks |
| Controller.Coordinator.CountAll | horovod/common/controller.cc:255-304 | counting rank by rank gives the message table and the ready names of the protocol |
| Controller.TallyConcat | horovod/common/controller.cc:255-304 | counting in two batches is counting all at once |
| Controller.FlattenIsSentAll | horovod/common/controller.cc:277-304 | the messages gathered list by list are those the ranks kept for the coordinator, rank 0 first |
| Controller.Coordinator.ConstructReady | horovod/common/controller.cc:391-402 | a response for every ready name, and no request of a ready name is left |
| Controller.SlowPath | horovod/common/controller.cc:246-430 | the coordinator's list and message table are the protocol's |
| Controller.UpdateCache | horovod/common/controller.cc:443-458 | a rank's cache and parameters after the coordinator's list are the protocol's, and every part of the list that is no error and no broadcast is cached if the names fit |
| ProtocolOutcome.CycleEnds | horovod/common/controller.cc:73-461 | from every related state the cycle has an outcome, reached by the votes, the agreement and the settling of all ranks |
| ProtocolOutcome.EarlyEnds | horovod/common/controller.cc:188-198 | on the early return every rank ends as it settled, with an empty list |
| ProtocolOutcome.FastEnds | horovod/common/controller.cc:202-245 | on the fast path every rank alone can compute, perform and end as the outcome says |
| ProtocolOutcome.SlowEnds | horovod/common/controller.cc:246-458 | on the slow path the coordinator can assemble the list, and every rank can perform and cache it and ends as the outcome says |
| RunLoop.BeginRank | horovod/common/controller.cc:73-145 | on a rank's objects: the messages are popped and the protocol's vote is recorded |
| RunLoop.SettleRank | horovod/common/controller.cc:147-177 | on a rank's objects: invalid entries are erased and messages put back as the protocol says, start times kept |
| RunLoop.FastRank | horovod/common/controller.cc:202-245 | on a rank's objects: the list and the state that the fast path ends in |
| RunLoop.SlowRank | horovod/common/controller.cc:443-458 | on a rank's objects: the state that the slow path ends in |
| RunLoop.RunLoopOnce | horovod/common/operations.cc:687-786 | a pass of all ranks over their objects, from every related state: state and lists are exactly those of one cycle of the protocol, which meets its specification; the cycle's input is what clocks, start times and shutdown requests make it; afterwards every watched name of every rank has its old start time, or the rank's clock if it had none |
| RunLoop.RelatedQueues | horovod/common/tensor_queue.cc:27-35 | in every related state each queued message has its own entry in the tensor table |
| BackgroundLoop.SubmitTensor | horovod/common/tensor_queue.cc:27-35 | submitting a tensor on one rank is the protocol's enqueueing step |
| BackgroundLoop.Run | horovod/common/operations.cc:630-636 | any tensors submitted and passes made, in any order from start-up on, leave objects and lists as a run of the protocol with one step per event does; a queued message is timed exactly when a pass has been made since its tensor was submitted, from the clock of the first such pass, and every pass finds late exactly the hits for which that is more than the limit ago |
| ProcessSets.SortFacts | horovod/common/process_set.cc:307-311 | sorting gives an increasing list of the same ranks |
| ProcessSets.EnterFacts | horovod/common/process_set.cc:326-341 | registering keeps live and free ids a partition of 0 to next-1 |
| ProcessSets.DeregisterFacts | horovod/common/process_set.cc:344-357 | so does deregistering any set but the global one |
| ProcessSets.RegisterMeans | horovod/common/process_set.cc:304-342 | which rank lists are refused; otherwise a new set of the same ranks in increasing order, not initialized, under the id that has been free for longest or else the next number, after all other sets, which stay |
| ProcessSets.DeregisterMeans | horovod/common/process_set.cc:344-357 | the other sets stay in order, and freed ids wait in the order of removal |
| ProcessSets.InitMeans | horovod/common/process_set.cc:76-80 | every set is initialized, with its own ranks, or all ranks if it had none |
| ProcessSets.FirstFacts | horovod/common/process_set.cc:373-381 | the id found is the first in table order with these ranks, and -1 means there is none |
| ProcessSetAgreement.ProcessesAgree | horovod/common/process_set.cc:176-235 | in every run, an initialized id has the same proper ranks on every process, the global set is live, ids are partitioned, and an id about to be returned is initialized everywhere |
| ProcessSetAgreement.EqualCountsEqualIds | horovod/common/process_set.cc:189-203 | equal registration counts mean the same live ids in the same order, with the same ones pending |
| ProcessSetAgreement.RoundFailsIff | horovod/common/process_set.cc:206-216 | a round fails exactly when the counts agree and two processes hold different ranks under one id |
| ProcessSetAgreement.RemovedTogether | horovod/common/process_set.cc:218-231 | a set disappears from all processes in the same round or from none, only when all marked it, and never the global one |
| ProcessSetAgreement.AddReturns | horovod/common/operations.cc:1194-1229 | when all processes wait for the same ranks, the next round lets every call return the same id |
| ProcessSetAgreement.RemoveReturns | horovod/common/operations.cc:1231-1260 | when all processes have marked a set, the next round removes it, frees its id and lets every call return |
| ProcessSetAgreement.RanksUnique | horovod/common/operations.cc:328-340 | in every run, no two sets of a process that never adds the empty list have the same ranks, whatever the others add |
| ProcessSetAgreement.DuplicatesIffEmpty | horovod/common/operations.cc:328-340 | in every reachable state, an add call makes a second set for ranks that have one exactly when it is given the empty list |
| ProcessSetAgreement.RepeatsAreGlobal | horovod/common/process_set.cc:304-342 | in every run, two sets of a process with the same ranks are both sets of all ranks |
| ProcessSetAgreement.EmptyAddDuplicates | horovod/common/process_set.cc:76-79 | adding the empty rank list always registers a second set of all ranks |
| ProcessSetTable.ChecksMeanEqual | horovod/common/process_set.cc:60-68 | a process passes both reductions exactly when all rank lists equal its own |
| ProcessSetTable.LengthVerdict | horovod/common/process_set.cc:47-59 | the length check, which a process with an empty list skips, has one verdict on all processes exactly when all lists are empty or none is; then it passes exactly for lists of one length |
| ProcessSetTable.MaxVerdict | horovod/common/process_set.cc:60-68 | the MAX check has one verdict on all processes exactly when the lists are equal or none dominates the others |
| ProcessSetTable.SucceedsIffEqual | horovod/common/process_set.cc:47-68 | the checks succeed on all processes exactly when the lists are equal |
| ProcessSetTable.OneVerdictIff | horovod/common/process_set.cc:47-68 | all processes fare the same exactly when all lists are empty, or none is and they differ in length, are equal, or none dominates the others |
| ProcessSetTable.RoundChecks | horovod/common/process_set.cc:206-216 | the condition under which a round initializes its pending sets is that all checks succeed on all processes |
| ProcessSetTable.MaxVerdictSplits | horovod/common/process_set.cc:60-68 | a run of two processes that add {1} and {0}: one waits in the MIN reduction, the other throws |
| ProcessSetTable.LengthVerdictSplits | horovod/common/process_set.cc:47-59 | a run of two processes that add the empty list and {0}: one skips the checks, the other waits |
| ProcessSetTable.Initialize | horovod/common/process_set.cc:38-82 | on one process, throws, waits, skips or passes as the checks say, and makes the set ready exactly when it skips or passes, with all ranks for the empty list |
| ProcessSetTable.ProcessSetTable.RegisterProcessSet | horovod/common/process_set.cc:304-342 | duplicate or invalid ranks are refused without effect; otherwise the sorted ranks are entered under the longest free id |
| ProcessSetTable.ProcessSetTable.FindId | horovod/common/process_set.cc:373-381 | the first id in table order with these ranks, or -1 |
| ProcessSetTable.ProcessSetTable.DeregisterProcessSet | horovod/common/process_set.cc:344-357 | the id leaves the live ids, in place, and joins the free ones |
| ProcessSetTable.ProcessSetTable.MarkProcessSetForRemoval | horovod/common/process_set.cc:383-390 | any set but the global one can be marked; nothing else changes |
| ProcessSetTable.ProcessSetTable.ProcessSetHasJustBeenRemoved | horovod/common/process_set.cc:392-399 | reports a removal once |
| ProcessSetTable.ProcessSetTable.Compare | horovod/common/process_set.cc:189-203 | the loop with early exit finds both agreements exactly |
| ProcessSetTable.ProcessSetTable.RoundStep | horovod/common/process_set.cc:176-235 | comes through except when the counts agree and a check of this process throws or waits; then the table is the protocol's, and the count is the number of sets that were pending |
| ProcessSetTable.GatheredTells | horovod/common/process_set.cc:181-203 | every process reads the same verdicts from the gathered pairs |
| Autotuner.Decompose | horovod/common/parameter_manager.cc:189-205 | a chain is its first parameter, and the rest run on the best scores it hands on after each sweep |
| Autotuner.Odometer | horovod/common/parameter_manager.cc:366-395 | after t rounds the positions of the parameters are the digits of t in the radix of their value counts |
| Autotuner.DigitsInjective | horovod/common/parameter_manager.cc:366-395 | within a pass no combination of positions comes twice |
| Autotuner.FinishesIff | horovod/common/parameter_manager.cc:189-205 | the chain is finished exactly after whole passes over all combinations |
| Autotuner.BestIsFirstMax | horovod/common/parameter_manager.cc:308-331 | after a pass with a positive score, the best values of all parameters together are the combination of the first round with the highest score |
| Autotuner.NothingPositive | horovod/common/parameter_manager.cc:325-331 | without a positive score the configured values stay |
| Autotuner.ReportsFirstBest | horovod/common/parameter_manager.cc:176-215 | tuning stops after exactly the warmup plus one round per combination, and reports the first best round of those |
| Autotuner.ValuesInUse | horovod/common/parameter_manager.cc:366-472 | after any rounds a fixed parameter has its configured value, a categorical one the value at its digit of the round number, and a Bayesian one the test point at its digit or, past them, what the optimizer proposed when the parameter was last tuned |
| Autotuner.EveryCombination | horovod/common/parameter_manager.cc:189-205 | every combination of positions comes in some round of a pass |
| Autotuner.EveryChoiceTried | horovod/common/parameter_manager.cc:176-215 | every combination of values of the categorical parameters is in use in some round of a pass |
| Autotuner.ReportsValues | horovod/common/parameter_manager.cc:208-215 | what is reported at the end are the values that the first best round used |
| Autotuner.SourceChain | horovod/common/parameter_manager.cc:41-61 | for Horovod's chain that is max samples plus one, times two for each on/off parameter that is not fixed |
| ParameterManager.TunableParameter.constructor | horovod/common/parameter_manager.cc:300-306 | the first value is in use and reported, at the first position and without a score |
| ParameterManager.TunableParameter.Tune | horovod/common/parameter_manager.cc:308-331 | one parameter's fields after a round and whether its sweep ended, as the theorems about values in use, positions and best values assume |
| ParameterManager.TunableParameter.SetValue | horovod/common/parameter_manager.cc:334-340 | a fixed value is used, reported and not tuned; another one is only reported; tuning still starts at the first value |
| ParameterManager.ParameterManager.TuneAll | horovod/common/parameter_manager.cc:189-205 | the loop with early exit has the effect of the chain function on all parameters |
| ParameterManager.ParameterManager.Tune | horovod/common/parameter_manager.cc:176-215 | warmup, tuning and switching off as the run theorems assume |
| Rounding.Round | horovod/common/half.h:128-134 | searching down from the top gives a nearest number of the list, ties to even |
| Rounding.NearestUnique | horovod/common/half.h:128-134 | there is only one nearest number, ties to even |
| Rounding.NearestIsClosest | horovod/common/half.h:128-134 | no other number of the list is nearer |
| Half.HalfBits2Float | horovod/common/half.h:43-77 | exact: sign and magnitude are kept, the normalizing loop ends, infinity stays, NaN becomes NaN |
| Half.Float2HalfBits | horovod/common/half.h:79-139 | the nearest half with ties to even for every single, subnormal results included, overflow to infinity from half way to 2^16, NaN to NaN |
| Half.RoundTrip | horovod/common/half.h:43-139 | a half that is not NaN, converted to single and back, is unchanged |
| Half.ConvertsMonotone | horovod/common/half.h:79-139 | the conversion to half preserves order, across signs and infinities |
| Half.Float16Sum | horovod/common/half.cc:68-75 | every element up to the length becomes the converted single precision sum of the two old elements; the rest stays |
| HalfSum.DoubleRounding | horovod/common/half.cc:68-75 | rounding the exact sum of two halves to single first does not change the nearest half |
| HalfSum.SumRoundsOnce | horovod/common/half.cc:68-75 | for finite halves and a correctly rounded single precision sum, the converted half is the nearest to the exact sum, with its sign; a zero sum is negative only when both summands have the sign bit |
| HalfSum.StoresHalfSum | horovod/common/half.cc:44-75 | with a correctly rounding adder, what float16_sum stores for finite halves is their exact sum rounded once, sign of zero included |
| HalfSum.IdealIsCorrect | horovod/common/half.cc:68-75 | there is a correctly rounding single precision adder |

## Left out

- Join: joined ranks, zero-filled entries and the shape comparison for joined ranks are not modelled; all claims are about runs in which every rank takes part.
- Grouped tensors: the branches for disable_group_fusion and the group table are not modelled; the option is off by default.
- RunLoop.RunLoopOnce: the background threads of the ranks are advanced phase by phase in one method, one process set is active, and the pause between passes is not modelled; with a disabled cache the code skips the agreement, which here runs without effect.
- BackgroundLoop.Run: passes after a shutdown are allowed, where the code stops.
- Enqueueing in the middle of a cycle: a cycle is one step, so that a message enqueued while a cycle runs counts as enqueued before or after it.
- Changing the cache capacity during a run: the runs have a fixed capacity, which may be zero; `SetCapacity` is stated for the object only.
- Machine integers: sizes, counts and byte totals do not overflow, except that the 32-bit wrap-around of status bits in the agreement is modelled; scale factors are never NaN.
- ProcessSetTable.ProcessSetTable.RoundStep: the rank lists that the collectives bring together are an input; communicators and controllers are not modelled.
- Exceptions in process set calls: duplicate or invalid ranks and marking the global set leave horovod_add_process_set and horovod_remove_process_set (horovod/common/operations.cc:1194-1260) as exceptions that nothing there catches; the model lets the call return and the process go on.
- Shutdown of blocking process set calls, process sets registered at start-up, and ProcessSetTable::Finalize are not modelled.
- ParameterManager.TunableParameter.SetValue: fixing one variable of the joint Bayesian parameter, which removes it from the vectors (horovod/common/parameter_manager.cc:413-435), is not modelled; the test points are those that are left.
- Autotuner.BestIsFirstMax: the Gaussian process optimizer is an arbitrary input, and the collection of scores from byte counts and times is not modelled.
- Half.Float16Sum: the AVX path is not modelled, and single precision addition is a parameter.
- Timeline, logging, serialization, MPI, Gloo and GPU operations, and the language bindings are not modelled.
