# Hexagon backend: verified models

Dafny models of the parts of the Hexagon MLIR backend and its runtime whose
correctness rests on an argument rather than on a line of code. Each model does
what the code does, branch by branch; the lemmas say what that achieves. `dafny
verify dfyconfig.toml` checks the whole project.

- **Software pipelining.** `DoubleBuffer` recognises the tile loop and holds
  the rewritten loop; `DoubleBufferStage1` proves that the ping-pong loop
  leaves the same memory and `DoubleBufferOverlap` exactly when it does for
  overlapping tiles; `DmaMachine` is a host beside an engine that moves
  elements at any moment between a transfer's start and its wait;
  `DmaTransfers` says for which buffer types a start is created, and when it
  moves the right elements, in a compiler built with assertions and in one
  without; `DoubleBufferStage2` proves exactly when the DMA program is
  race-free and joins both stages; `DoubleBufferFaults` is what happens otherwise.
- **StringMap.** `Probing` is the arithmetic of triangular probing; `StringMap`
  is the table, a class with the source's fields and loops, refining a finite map.
- **User DMA.** `DmaDescriptors` is the descriptor's bit fields; `UserDma` is the
  ring of descriptors with 32-bit tokens, beside an engine that follows the
  links between descriptors and completes them in any order.
- **Async runtime and thread pool.** `AsyncRuntime` and `ThreadPool` are state
  machines over atomic steps at lock granularity; results hold for every
  interleaving of any number of threads.
- **Layouts.** `PackLayout` is pack and unpack of constants at any rank;
  `Crouton` builds the image and filter layouts on it and adds packed slices;
  `WhLayout` is the in-place weight layout.
- **Transformations.** `TiledMatmul` is the tile loop emitted for a matmul, on
  shared VTCM slots; `HoistScalar` and `HoistScalarFixpoint` move scalar
  operations out of `linalg.generic`; `HmxLocks` brackets matmuls with the HMX
  lock; `VtcmOffsets` places allocations and composes them with the launcher's
  slices.
- `Arith`, `Basics` and `Sequences` hold what several modules share.

Where a promise turned out not to hold of the code as it is, the code is
modelled as it is, and the exact condition is a lemma: copies that get no DMA
transfer, or one of other places (`RaceFreeIff`, `AlwaysRightIff`; with
assertions `AssertedRaceFreeIff`, `SameSpaceStoreIsLost`; without,
`PlainRaceFreeIff`, `SameSpaceLoadIsLost`, `ColumnTilesNeedAssertions`),
overlapping tiles (`SameMemoryIff`, `AccumulationIsLost`), load copies between
other values than their view and alloc (`RewriteRewires`,
`OtherSourceIsDropped`), 2-D transfers wider than 16 bits (`BoxProgrammedIff`,
`WideBoxIsLost`), a ring of one descriptor (`ChainEndsIff`), tables beyond 2^30
buckets (`GrowthTestWidth`), tasks enqueued after the last worker has gone
(`RestMeansDone`, `LateTaskNeverRuns`), padding and dynamic shapes kept by an
eliminated unpack/pack pair (`EliminationIsExactIff`,
`EliminationCanChangePadding`, `EliminationCanChangeShape`), slices that start
or end inside a tile (`ShiftIffAligned`, `NothingClobberedIff`), operands the
hoisting analysis misreads (`KeepsMeaningIff`), matmuls forked inside a
bracketed loop (`BracketsAreRightIff`), and hand-written scratch arguments
(`KeptScratchFitsIff`, `HandWrittenScratchCanOverflow`). The comment at line 28
of StringMap.cpp says 401 buckets for 48 entries; the code gives 128, and the
model follows the code.

## Model

| member | source | states |
|---|---|---|
| Probing.SlotStep | qcom_hexagon_backend/bin/runtime/multithreading/StringMap.cpp:137-141 | one step of the probe loop reaches the next triangular slot of the key, from the home bucket on |
| Probing.SlotInjective | qcom_hexagon_backend/bin/runtime/multithreading/StringMap.cpp:137-141 | over a power-of-two table no two of the first NumBuckets probes of a key hit the same bucket |
| Probing.ProbeVisitsAll | qcom_hexagon_backend/bin/runtime/multithreading/StringMap.cpp:137-141 | within NumBuckets probes every bucket is visited, so each probe loop ends at an empty bucket when there is one |
| StringMaps.StringMap.constructor | qcom_hexagon_backend/bin/runtime/multithreading/StringMap.cpp:49-66 | an empty map; a requested size gets the least power of two above 4/3 of it and one, so that it stays within the 3/4 load |
| StringMaps.StringMap.Init | qcom_hexagon_backend/bin/runtime/multithreading/StringMap.cpp:68-80 | a fresh empty power-of-two table, 16 buckets when no size is given |
| StringMaps.StringMap.LookupBucketFor | qcom_hexagon_backend/bin/runtime/multithreading/StringMap.cpp:87-143 | returns the key's bucket, or else the first tombstone or empty bucket of its probe sequence, with the key's hash stored; contents unchanged; the loop ends |
| StringMaps.StringMap.FindKey | qcom_hexagon_backend/bin/runtime/multithreading/StringMap.cpp:148-190 | -1 exactly for absent keys, otherwise the bucket holding the key and its value; the loop ends |
| StringMaps.StringMap.RemoveKey | qcom_hexagon_backend/bin/runtime/multithreading/StringMap.cpp:203-215 | removes exactly that key and returns its value, leaving one more tombstone; the table stays sound around it |
| StringMaps.StringMap.RehashTable | qcom_hexagon_backend/bin/runtime/multithreading/StringMap.cpp:219-267 | both rehashes keep the contents, clear tombstones, restore the load thresholds, and return where the entry of the given bucket now is; below both thresholds nothing moves |
| StringMaps.StringMap.Rebuild | qcom_hexagon_backend/bin/runtime/multithreading/StringMap.cpp:234-266 | growing or not, the contents move to a fresh table without tombstones, and the entry of the given bucket is where the result says |
| StringMaps.StringMap.MoveEntry | qcom_hexagon_backend/bin/runtime/multithreading/StringMap.cpp:241-258 | an entry lands in a bucket that was free, reached by its own probe sequence; all entries moved so far stay where they were |
| StringMaps.StringMap.TryInsert | qcom_hexagon_backend/bin/runtime/multithreading/StringMap.cpp:87-267 | the header's insertion step: inserts exactly when the key was absent, never changes another key, and leaves at least one empty bucket |
| StringMaps.StringMap.Run | qcom_hexagon_backend/bin/runtime/multithreading/StringMap.cpp:87-267 | any sequence of inserts, finds and removes gives the answers and the final contents of a finite map |
| StringMaps.StringMap.FillReserved | qcom_hexagon_backend/bin/runtime/multithreading/StringMap.cpp:49-58 | a map built for n entries takes any n insertions without moving its table |
| StringMaps.GetMinBucketToReserveForEntries | qcom_hexagon_backend/bin/runtime/multithreading/StringMap.cpp:23-30 | no buckets for no entries, otherwise the least power of two above 4/3 of the entries and one; so 4 * entries < 3 * buckets, and that many entries never make the table grow |
| StringMaps.AbsentKey | qcom_hexagon_backend/bin/runtime/multithreading/StringMap.cpp:105-115 | meeting an empty bucket before the key proves the key is nowhere in the table |
| StringMaps.PlaceEntry | qcom_hexagon_backend/bin/runtime/multithreading/StringMap.cpp:105-115 | filling the first free bucket keeps keys unique and every entry reachable with no empty bucket before it |
| StringMaps.GrowthTestWidth | qcom_hexagon_backend/bin/runtime/multithreading/StringMap.cpp:224-231 | the 32-bit growth test agrees with the exact one for every load an insertion can produce if and only if the table has at most 2^30 buckets |
| StringMaps.ReserveWidth | qcom_hexagon_backend/bin/runtime/multithreading/StringMap.cpp:23-30 | the 32-bit reservation size is the exact one if and only if there are fewer than 2^30 entries |
| DoubleBuffer.GenerateSchedule | qcom_hexagon_backend/lib/Transforms/DoubleBufferGenericS1.cpp:278-351 | accepts exactly the loops with no iteration arguments, constant bounds from zero with a dividing step, and a body of view/alloc/copy triplets, one computation (an scf.forall, or an scf.for if the loop is marked tiled and all parallel), at least one store, and the yield; returns those very operations |
| DoubleBuffer.RunHost | qcom_hexagon_backend/lib/Transforms/DoubleBufferGenericS1.cpp:164-275 | the rewritten loop as it runs: exactly one sub-kernel per iteration, ping on even and pong on odd ones, prefetching exactly when a next tile exists |
| DoubleBufferStage1.SubKernelEffect | qcom_hexagon_backend/lib/Transforms/DoubleBufferGenericS1.cpp:102-161 | what a ping or pong kernel does to any memory: to main memory what its compute and stores alone would do, and to the other side's buffers the next tile as it was when the iteration began, or nothing when there is no next tile |
| DoubleBufferStage1.AcceptedHasWholeTiles | qcom_hexagon_backend/lib/Transforms/DoubleBufferGenericS1.cpp:67-74 | an accepted loop that counts upwards has only complete tiles |
| DoubleBufferStage1.NextExistsIff | qcom_hexagon_backend/lib/Transforms/DoubleBufferGenericS1.cpp:246-254 | the prefetch test holds exactly when a next iteration exists |
| DoubleBufferStage1.OneIteration | qcom_hexagon_backend/lib/Transforms/DoubleBufferGenericS1.cpp:102-161 | the loop invariant: same main memory as the single-buffered loop, and the buffers the toggle selects hold the current tile, carried to the next |
| DoubleBufferStage1.LoopAgrees | qcom_hexagon_backend/lib/Transforms/DoubleBufferGenericS1.cpp:233-274 | from any iteration on both loops leave the same main memory |
| DoubleBufferStage1.DoubleBufferingPreservesMemory | qcom_hexagon_backend/lib/Transforms/DoubleBufferGenericS1.cpp:164-275 | for every trip count, 0 and 1 included, and any stores between allocs, views and values from outside the loop that spare what the next tile loads, the ping-pong program leaves the main memory of the loop it replaces, whose loads fill their own alloc from their own view (RewriteRewires for the others) |
| DoubleBufferStage1.RewriteRewires | qcom_hexagon_backend/lib/Transforms/DoubleBufferGenericS1.cpp:120-134 | whatever values the load copies connect, the ping-pong program leaves the memory of the loop whose copies fill their own alloc from their own view; so it is right exactly when that loop and the original leave the same |
| DoubleBufferOverlap.SameMemoryIff | qcom_hexagon_backend/lib/Transforms/DoubleBufferGenericS1.cpp:164-275 | tiles may overlap: for all kernels and memory contents the ping-pong program leaves the memory of the loop it replaces, if and only if no address was last stored by a stale tile, one that loaded an address before the tile ahead of it stored there; a condition on addresses alone |
| DoubleBufferOverlap.NoHazardNothingDiffers | qcom_hexagon_backend/lib/Transforms/DoubleBufferGenericS1.cpp:120-134 | when no store hits what the next tile loads, no tile is ever stale |
| DoubleBufferOverlap.AccumulationIsLost | qcom_hexagon_backend/lib/Transforms/DoubleBufferGenericS1.cpp:278-351 | a concrete two-tile loop the recogniser accepts, which adds one to an address twice; the ping-pong program adds one only once |
| DoubleBufferOverlap.OtherSourceIsDropped | qcom_hexagon_backend/lib/Transforms/DoubleBufferGenericS1.cpp:120-134 | a concrete one-tile loop the recogniser accepts whose copy loads another value than its view; the loop stores that value, the ping-pong program what the view held |
| DmaMachine.EngineUnobservable | qcom_hexagon_backend/lib/Transforms/DoubleBufferGenericS2.cpp:127-221 | for a race-free host, however the engine times each element move between start and wait, the final memory is that of copying at once and nothing is outstanding |
| DmaMachine.NeverStuck | qcom_hexagon_backend/lib/Transforms/DoubleBufferGenericS2.cpp:127-221 | a race-free host can always go on, or an awaited transfer still has elements to move |
| DmaMachine.RunsAreBounded | qcom_hexagon_backend/lib/Transforms/DoubleBufferGenericS2.cpp:127-221 | every step of host or engine takes exactly one unit of work, so every run is as long as the work it has done |
| DmaMachine.EveryRunCompletes | qcom_hexagon_backend/lib/Transforms/DoubleBufferGenericS2.cpp:127-221 | a run of a race-free host that has stopped has done everything, leaves nothing outstanding and the memory of copying at once, and no run is longer than the work there was |
| DmaMachine.QuickRun | qcom_hexagon_backend/lib/Conversion/DMAToLLVM/DMAToLLVMPass.cpp:305-343 | any host program, race-free or not, has a run that passes every wait, ends, and leaves what copying at each start leaves: a wait for a tag never started reads any word and may return |
| DmaMachine.SparedStays | qcom_hexagon_backend/lib/Conversion/DMAToLLVM/DMAToLLVMPass.cpp:305-343 | a run that has not gone past a given action has left alone every place that neither the actions before it nor the transfers outstanding write |
| DmaTransfers.ContiguousPlaces | qcom_hexagon_backend/lib/Common/Common.cpp:37-44 | a linear transfer over a buffer the contiguity test accepts takes its elements in their order, whatever the rank, layout and strides |
| DmaTransfers.ContiguousIff | qcom_hexagon_backend/lib/Common/Common.cpp:37-44 | of buffers with elements, known strides and no identity layout the test accepts exactly those whose elements lie one after the other, save a column of single elements whose inner stride is not one |
| DmaTransfers.BoxPlacesIff | qcom_hexagon_backend/lib/Conversion/DMAToLLVM/DMAToLLVMPass.cpp:211-241 | the box the lowering programs visits exactly the elements of a buffer, in order, if and only if the buffer has whole rows as far apart as the stride given to its side |
| DmaTransfers.CreateDmaStartOp | qcom_hexagon_backend/lib/Common/DMATransferUtil.cpp:53-105 | a start is created exactly for two ranked buffers of static shape and rank 2 at most, with strides, in different memory spaces given by integers or left out; which start it is, in a build with assertions and in one without |
| DmaTransfers.RightStartIff | qcom_hexagon_backend/lib/Conversion/DMAToLLVM/DMAToLLVMPass.cpp:195-262 | the condition the whole-program results use holds exactly when the start, as created and lowered, fits a descriptor and moves, element by element, what the copy moves |
| DoubleBufferStage2.DmaProgramIsRaceFree | qcom_hexagon_backend/lib/Transforms/DoubleBufferGenericS2.cpp:195-220 | either build: for every trip count, when each load and store becomes a transfer that moves what the copy moved, no transfer starts on a buffer another outstanding transfer or the running compute uses, every start is awaited exactly once before use, and none is outstanding at the end |
| DoubleBufferStage2.RaceFreeIff | qcom_hexagon_backend/lib/Common/DMATransferUtil.cpp:53-105 | either build: the protocol is kept, wherever transfers of unset shape go, if and only if the loop runs no iteration, or every load and store gets a start that moves what the copy moved and no store hits what the next tile loads |
| DoubleBufferStage2.AssertedRaceFreeIff | qcom_hexagon_backend/lib/Transforms/DoubleBufferGenericS2.cpp:97-122 | compiler with assertions, for programs that pass them all, stores from allocs to views: the protocol is kept if and only if no iteration runs, or each store is between different memory spaces, no box or length exceeds what a descriptor holds or differs from the buffers' rows, and no store hits what the next tile loads |
| DoubleBufferStage2.PlainRaceFreeIff | qcom_hexagon_backend/lib/Common/DMATransferUtil.cpp:97-104 | compiler without assertions, which leaves stride and width unset: the protocol is kept if and only if no iteration runs, or each load and store is between contiguous buffers of one shape and different memory spaces, short enough for a descriptor, and no store hits what the next tile loads |
| DoubleBufferStage2.AssertedStoreStartsIff | qcom_hexagon_backend/lib/Transforms/DoubleBufferGenericS2.cpp:115-122 | compiler with assertions: a store from an alloc to a view is started if and only if the two are in different memory spaces, which nothing asserts |
| DoubleBufferStage2.EraseProgram | qcom_hexagon_backend/lib/Transforms/DoubleBufferGenericS2.cpp:127-221 | forgetting waits and reading starts as copies gives back the first stage's program |
| DoubleBufferStage2.DmaRunsLikeTheLoop | qcom_hexagon_backend/lib/Transforms/DoubleBufferGenericS2.cpp:127-221 | both passes together, either build: when each load and store becomes a transfer that moves what the copy moved, every run of the DMA program is finite, and once it can go no further it has finished, with the main memory of the original single-buffered loop |
| DoubleBufferFaults.DroppedLoad | qcom_hexagon_backend/lib/Transforms/DoubleBufferGenericS2.cpp:195-204 | compiler without assertions (with them it stops here): when a load gets no start, every run is still before its first wait, or gets just past it with the load's buffer as it was before the program, if no transfer of unset shape writes there |
| DoubleBufferFaults.DroppedStore | qcom_hexagon_backend/lib/Transforms/DoubleBufferGenericS2.cpp:115-122 | either build, since nothing asserts it: when a store gets no start, every run is still before its first wait, or gets just past it with the store's target as it was before the program, if no transfer of unset shape and no earlier store of the tile writes there |
| DoubleBufferFaults.LostLoadChangesMemory | qcom_hexagon_backend/lib/Transforms/DoubleBufferGenericS2.cpp:195-220 | without assertions for a load that gets no start, either build for one that moves other places: for some kernel and memory a completed run leaves another main memory than the loop |
| DoubleBufferFaults.LostStoreChangesMemory | qcom_hexagon_backend/lib/Transforms/DoubleBufferGenericS2.cpp:107-123 | the same, in either build, for a store with a target in the last tile that no store that does move has |
| DoubleBufferFaults.AlwaysRightIff | qcom_hexagon_backend/lib/Transforms/DoubleBufferGenericS2.cpp:127-221 | either build, for a loop the first stage gets right that writes non-empty buffers back, each store to a target of its own: every completed run leaves the loop's main memory, for all kernels, memories and timings, if and only if no iteration runs or each load and store becomes a transfer that moves what the copy moved |
| DoubleBufferFaults.SameSpaceStoreIsLost | qcom_hexagon_backend/lib/Transforms/DoubleBufferGenericS2.cpp:115-122 | compiler with assertions: a concrete loop both stages accept and every assertion passes, whose store is between two buffers of one memory space: not race-free, and a completed run leaves another memory |
| DoubleBufferFaults.SameSpaceLoadIsLost | qcom_hexagon_backend/lib/Transforms/DoubleBufferGenericS2.cpp:195-204 | compiler without assertions: a concrete loop whose input is in the memory space of its buffer already, all stores startable: not race-free, and a completed run leaves another memory |
| DoubleBufferFaults.ColumnTilesNeedAssertions | qcom_hexagon_backend/lib/Common/DMATransferUtil.cpp:97-104 | a tile of rows 64 elements apart and its contiguous copy in VTCM: transfers between them are right from a compiler with assertions and of unset shape from one without |
| DmaDescriptors.DmaDesc2D.SetNext | qcom_hexagon_backend/bin/runtime/UserDMA/UserDMADescriptors.h:156-160 | only the address of the successor changes, and none is left when that is null |
| DmaDescriptors.DmaDesc2D.SetLength | qcom_hexagon_backend/bin/runtime/UserDMA/UserDMADescriptors.h:163-170 | only the length field changes, to the low 24 bits of the value |
| DmaDescriptors.DmaDesc2D.SetDescType | qcom_hexagon_backend/bin/runtime/UserDMA/UserDMADescriptors.h:171-179 | only the descriptor type changes |
| DmaDescriptors.DmaDesc2D.SetDone | qcom_hexagon_backend/bin/runtime/UserDMA/UserDMADescriptors.h:221-228 | only the done bit changes |
| DmaDescriptors.DmaDesc2D.SetRoiWidth | qcom_hexagon_backend/bin/runtime/UserDMA/UserDMADescriptors.h:273-280 | only the width half of the region word changes |
| DmaDescriptors.DmaDesc2D.SetDstStride | qcom_hexagon_backend/bin/runtime/UserDMA/UserDMADescriptors.h:297-304 | only the destination half of the stride word changes |
| DmaDescriptors.DmaDesc2D.ProgramLinear | qcom_hexagon_backend/bin/runtime/UserDMA/UserDMA.cc:59-77 | whatever the slot held before, the descriptor asks for exactly the requested linear transfer, is not done, is ready for the engine, and has no successor |
| DmaDescriptors.DmaDesc2D.ProgramBox | qcom_hexagon_backend/bin/runtime/UserDMA/UserDMA.cc:124-147 | the descriptor asks for the requested box with each dimension cut to 16 bits, is not done, is ready for the engine, and has no successor |
| DmaDescriptors.BoxProgrammedIff | qcom_hexagon_backend/bin/runtime/UserDMA/UserDMA.cc:134-137 | the requested box is the programmed one if and only if width, height and both strides are below 2^16 |
| UserDma.SlotOfToken | qcom_hexagon_backend/bin/runtime/UserDMA/RingBuffer.h:98-102 | masking a wrapped token gives the slot of the unbounded count, across any number of wraps |
| UserDma.SlotsDiffer | qcom_hexagon_backend/bin/runtime/UserDMA/RingBuffer.h:98-102 | live tokens have different slots |
| UserDma.UserDma.constructor | qcom_hexagon_backend/bin/runtime/UserDMA/RingBuffer.h:52-65 | an empty ring of power-of-two capacity |
| UserDma.UserDma.Size | qcom_hexagon_backend/bin/runtime/UserDMA/RingBuffer.h:67-74 | the number of live tokens, tail minus head unwrapped, never above capacity |
| UserDma.UserDma.IsFull | qcom_hexagon_backend/bin/runtime/UserDMA/RingBuffer.h:77 | full exactly when capacity tokens are live |
| UserDma.UserDma.GetDataPtr | qcom_hexagon_backend/bin/runtime/UserDMA/RingBuffer.h:98-102 | the slot of the token |
| UserDma.UserDma.InFlight | qcom_hexagon_backend/bin/runtime/UserDMA/UserDMA.cc:18-23 | the done bit as it is now, with the engine free to finish any transfers first |
| UserDma.UserDma.FreeFinished | qcom_hexagon_backend/bin/runtime/UserDMA/RingBuffer.h:83-90 | frees only completed entries, at least one if the oldest is complete, and stops at an unfinished one |
| UserDma.UserDma.Alloc | qcom_hexagon_backend/bin/runtime/UserDMA/RingBuffer.h:81-95 | the slot handed out belongs to no transfer still in flight |
| UserDma.DmaEngine.DmLink | qcom_hexagon_backend/bin/runtime/UserDMA/UserDMAInstructions.h:30-33 | the first descriptor leads to the second and is otherwise as it was; an engine that had come to its end goes on there |
| UserDma.UserDma.Submit | qcom_hexagon_backend/bin/runtime/UserDMA/UserDMA.cc:79-91 | the engine starts at the first descriptor; every later one is what the previous token's descriptor, not yet reused, now leads to; those are different slots if and only if the capacity is at least 2 |
| UserDma.UserDma.EngineReachesAll | qcom_hexagon_backend/bin/runtime/UserDMA/UserDMA.cc:79-91 | at any time, in a ring of at least 2: following successors from the descriptor the engine is at meets the slot of every transfer it has not finished, in token order, and ends behind the last |
| UserDma.UserDma.ChainEndsIff | qcom_hexagon_backend/bin/runtime/UserDMA/UserDMA.cc:79-91 | the chain from the engine's descriptor ends if and only if the capacity is at least 2 or there was one transfer; in a ring of one the descriptor leads to itself |
| UserDma.UserDma.Copy | qcom_hexagon_backend/bin/runtime/UserDMA/UserDMA.cc:27-92 | refuses long or unaddressable requests without touching the ring, otherwise issues the next token for exactly that transfer |
| UserDma.UserDma.Copy2D | qcom_hexagon_backend/bin/runtime/UserDMA/UserDMA.cc:94-165 | refuses unaddressable requests, otherwise issues the next token for the box cut to its fields |
| UserDma.WideBoxIsLost | qcom_hexagon_backend/bin/runtime/UserDMA/UserDMA.cc:94-165 | a concrete call: on a new ring a box 65536 wide is accepted and its descriptor asks for one 0 wide |
| UserDma.UserDma.Wait | qcom_hexagon_backend/bin/runtime/UserDMA/UserDMA.cc:167-172 | when wait returns the token's transfer is complete, even if its slot was recycled and the engine finished out of order; it returns at once when everything is complete |
| AsyncRuntime.StepKeeps | qcom_hexagon_backend/bin/runtime/multithreading/AsyncRuntime.cpp:123-438 | every atomic step keeps the invariant on counts, awaiters, registrations and resumptions |
| AsyncRuntime.RunInv | qcom_hexagon_backend/bin/runtime/multithreading/AsyncRuntime.cpp:123-438 | the invariant holds in every reachable state of every interleaving |
| AsyncRuntime.GroupAwaiterRunsOnce | qcom_hexagon_backend/bin/runtime/multithreading/AsyncRuntime.cpp:427-438 | a coroutine awaiting a group is resumed at most once, and has been exactly when no token is pending |
| AsyncRuntime.AwaitedGroupResumes | qcom_hexagon_backend/bin/runtime/multithreading/AsyncRuntime.cpp:427-438 | in every run, a coroutine that asked to await a group is resumed once by the time nothing is pending there, and not at all before, whether it had to wait or not |
| AsyncRuntime.TokenAwaiterRunsOnce | qcom_hexagon_backend/bin/runtime/multithreading/AsyncRuntime.cpp:401-412 | a coroutine awaiting a token is resumed at most once and only after the token's state is set |
| AsyncRuntime.AwaitedTokenResumes | qcom_hexagon_backend/bin/runtime/multithreading/AsyncRuntime.cpp:401-412 | in every run, a coroutine that asked to await a token is resumed at most once, not before the token is set, and by the time the token is let go of |
| AsyncRuntime.GroupCountsTokensOnce | qcom_hexagon_backend/bin/runtime/multithreading/AsyncRuntime.cpp:256-302 | each added token is counted exactly once, ready or not when added; the group reports an error if and only if a counted token failed |
| AsyncRuntime.StateIsWhatWasSet | qcom_hexagon_backend/bin/runtime/multithreading/AsyncRuntime.cpp:306-352 | in every run, a token is available or failed if and only if an earlier step set it to that, and it stays so |
| AsyncRuntime.AddedTokenIsRegistered | qcom_hexagon_backend/bin/runtime/multithreading/AsyncRuntime.cpp:256-302 | from the step that adds a token to a group on, that token is registered with that group |
| AsyncRuntime.QuietGroupReports | qcom_hexagon_backend/bin/runtime/multithreading/AsyncRuntime.cpp:256-302 | whenever no token is just being set: a group has nothing pending if and only if it is full and each token added to it was set, and reports an error if and only if one of them was set to an error |
| AsyncRuntime.AsManyAsAsked | qcom_hexagon_backend/bin/runtime/multithreading/AsyncRuntime.cpp:239-302 | tokens, groups, registrations, coroutines and each group's rank are as many as the steps that asked for them |
| AsyncRuntime.CreatedGroupSize | qcom_hexagon_backend/bin/runtime/multithreading/AsyncRuntime.cpp:251-254 | a group keeps the size it was created with |
| AsyncRuntime.CountsFollowCallers | qcom_hexagon_backend/bin/runtime/multithreading/AsyncRuntime.cpp:227-236 | a token's count is its creator's reference, those callers took less those they dropped, and the producer's until it lets go; a group's likewise, with one for each unfinished registration |
| AsyncRuntime.StillPending | qcom_hexagon_backend/bin/runtime/multithreading/AsyncRuntime.cpp:269-271 | the source's own assertion: a token not yet counted keeps the pending count above zero |
| AsyncRuntime.PendingBeforeAdd | qcom_hexagon_backend/bin/runtime/multithreading/AsyncRuntime.cpp:269-283 | and the same assertion where a token that is ready already is added: a group waits for at least as many tokens as it has room for |
| AsyncRuntime.FullGroupCompletes | qcom_hexagon_backend/bin/runtime/multithreading/AsyncRuntime.cpp:264-279 | once a full group's tokens are all set, nothing is pending and each awaiter has run once |
| AsyncRuntime.GroupHeld | qcom_hexagon_backend/bin/runtime/multithreading/AsyncRuntime.cpp:285-298 | a group with an unfinished registration is alive |
| AsyncRuntime.NoUseAfterFree | qcom_hexagon_backend/bin/runtime/multithreading/AsyncRuntime.cpp:138-145 | no step of any interleaving touches a destroyed token or group |
| AsyncRuntime.NoLeaks | qcom_hexagon_backend/bin/runtime/multithreading/AsyncRuntime.cpp:51-55 | when callers hold nothing and every token was set, the count of live objects is zero |
| ThreadPool.StepKeeps | qcom_hexagon_backend/bin/runtime/multithreading/HexagonThreadPool.cpp:19-68 | every atomic step of enqueuers, workers, waiters and the destructor keeps the invariant, lost wake-ups excluded |
| ThreadPool.ActiveCountsTasks | qcom_hexagon_backend/bin/runtime/multithreading/HexagonThreadPool.cpp:30-45 | activeTasks is queued plus running tasks whenever no enqueuer is inside its critical section, and one less inside it |
| ThreadPool.NeverTwice | qcom_hexagon_backend/bin/runtime/multithreading/HexagonThreadPool.cpp:54-68 | no interleaving runs a task twice, and a task that has not run is queued or in exactly one worker's hands |
| ThreadPool.WaitReturnsIff | qcom_hexagon_backend/bin/runtime/multithreading/HexagonThreadPool.cpp:47-50 | a thread comes back from wait exactly by testing when no worker is at a task and nothing but an uncounted task is queued; every task counted so far has then run exactly once |
| ThreadPool.BackForGood | qcom_hexagon_backend/bin/runtime/multithreading/HexagonThreadPool.cpp:47-50 | a thread that is back stays back |
| ThreadPool.CallsAreKept | qcom_hexagon_backend/bin/runtime/multithreading/HexagonThreadPool.cpp:12-50 | tasks, counted tasks, waiting threads and the stop flag are exactly what the calls made them, and no worker is lost |
| ThreadPool.InternalStepProgresses | qcom_hexagon_backend/bin/runtime/multithreading/HexagonThreadPool.cpp:30-68 | every step of the pool itself lowers a measure |
| ThreadPool.RunsAreBounded | qcom_hexagon_backend/bin/runtime/multithreading/HexagonThreadPool.cpp:30-68 | without new calls and spurious wake-ups the pool comes to rest within a bounded number of steps, under any schedule |
| ThreadPool.StrandedIff | qcom_hexagon_backend/bin/runtime/multithreading/HexagonThreadPool.cpp:30-68 | a queue is left without workers if and only if some task of the run was pushed when every worker had gone |
| ThreadPool.RestMeansDone | qcom_hexagon_backend/bin/runtime/multithreading/HexagonThreadPool.cpp:30-68 | when the pool has come to rest every task ran exactly once and every waiting thread is back, if and only if no task was pushed in a state in which every worker had gone |
| ThreadPool.DestructorRunsEverything | qcom_hexagon_backend/bin/runtime/multithreading/HexagonThreadPool.cpp:19-28 | when the joined destructor is done every task has run exactly once, under that same condition |
| ThreadPool.LateTaskNeverRuns | qcom_hexagon_backend/bin/runtime/multithreading/HexagonThreadPool.cpp:19-28 | a concrete run: destruction begins, the worker leaves, a task is enqueued and waited for; the pool comes to rest with the task never run and the waiter asleep |
| PackLayout.ComputeLinearIndex | qcom_hexagon_backend/lib/Transforms/FoldPackUnpackConstantsPass.cpp:186-195 | the stride loop computes the row-major position, at any rank |
| PackLayout.LinearStride | qcom_hexagon_backend/lib/Transforms/FoldPackUnpackConstantsPass.cpp:186-195 | a step along a dimension moves the position by the product of the dimensions inside it |
| PackLayout.ComputeMultiDimIndices | qcom_hexagon_backend/lib/Transforms/FoldPackUnpackConstantsPass.cpp:198-206 | the digit loop computes the mixed-radix digits of a position |
| PackLayout.LinearInBounds | qcom_hexagon_backend/lib/Transforms/FoldPackUnpackConstantsPass.cpp:186-206 | an index inside the shape has a position inside the tensor, and its digits give the index back |
| PackLayout.MultiDimInBounds | qcom_hexagon_backend/lib/Transforms/FoldPackUnpackConstantsPass.cpp:186-206 | a position inside the tensor has digits inside the shape, and they give the position back |
| PackLayout.ComputePackedIndices | qcom_hexagon_backend/lib/Transforms/FoldPackUnpackConstantsPass.cpp:137-183 | the j-th outer index is that of source dimension perm[j], divided by its tile if it has one; the inner indices are the remainders, in the order of the tiled dimensions |
| PackLayout.ComputeUnpackedIndices | qcom_hexagon_backend/lib/Transforms/FoldPackUnpackConstantsPass.cpp:263-299 | the element a packed cell stands for |
| PackLayout.UnpackOfPack | qcom_hexagon_backend/lib/Transforms/FoldPackUnpackConstantsPass.cpp:137-299 | reading a packed index apart gives back the element's index |
| PackLayout.PackOfUnpack | qcom_hexagon_backend/lib/Transforms/FoldPackUnpackConstantsPass.cpp:137-299 | and packing that index again gives the packed one, so the two maps are inverse |
| PackLayout.PackedInBounds | qcom_hexagon_backend/lib/Transforms/FoldPackUnpackConstantsPass.cpp:137-183 | an element's packed index lies inside any packed shape that holds the tiles |
| PackLayout.FoldPackConstant | qcom_hexagon_backend/lib/Transforms/FoldPackUnpackConstantsPass.cpp:212-327 | folds to linalg.pack of the constant; gives up exactly for unsupported attributes, a pad operand that is not a constant, or padding cells without a pad value |
| PackLayout.FoldUnpackConstant | qcom_hexagon_backend/lib/Transforms/FoldPackUnpackConstantsPass.cpp:333-392 | folds to linalg.unpack of the constant; gives up exactly for unsupported attributes or a cell outside the source |
| PackLayout.UnpackFoldSucceeds | qcom_hexagon_backend/lib/Transforms/FoldPackUnpackConstantsPass.cpp:377-380 | the out-of-range exit is never taken when the packed shape holds the tiles |
| PackLayout.PackPlaces | qcom_hexagon_backend/lib/Transforms/FoldPackUnpackConstantsPass.cpp:255-316 | every source element is found at its own packed cell |
| PackLayout.UnpackAfterPack | qcom_hexagon_backend/lib/Transforms/FoldPackUnpackConstantsPass.cpp:212-392 | for any rank, shape, positive tiles, distinct tiled dimensions, permutation and pad value, unpack after pack is the original constant |
| PackLayout.PackAfterUnpack | qcom_hexagon_backend/lib/Transforms/EliminateRedundantUnpackPackPass.cpp:83-126 | pack after unpack agrees with the source on every cell that is not padding, and is the source if and only if each padding cell held the pad value |
| PackLayout.AreOpFoldResultsEqual | qcom_hexagon_backend/lib/Transforms/EliminateRedundantUnpackPackPass.cpp:54-77 | equality of mixed static and SSA tile sizes |
| PackLayout.CanEliminate | qcom_hexagon_backend/lib/Transforms/EliminateRedundantUnpackPackPass.cpp:83-115 | the rewrite fires exactly when positions, mixed tiles, permutation and packed type, dynamic dimensions included, all agree |
| PackLayout.EliminationIsExactIff | qcom_hexagon_backend/lib/Transforms/EliminateRedundantUnpackPackPass.cpp:107-117 | whenever the rewrite fires, for all run-time tile sizes and shapes, it is exact if and only if the source and the pack's result have one shape at run time, as they have when the type is static, and each padding cell of the source holds the pad value |
| PackLayout.EliminationCanChangePadding | qcom_hexagon_backend/lib/Transforms/EliminateRedundantUnpackPackPass.cpp:107-117 | a concrete tensor on which dropping the pair changes a padding cell |
| PackLayout.EliminationCanChangeShape | qcom_hexagon_backend/lib/Transforms/EliminateRedundantUnpackPackPass.cpp:107-117 | with a dynamic packed type, 3x2 cells unpacked to four elements and packed to 2x2 pass every check, and the rewrite changes the result's shape, whatever the padding holds |
| WhLayout.MatrixBlockLinearize | qcom_hexagon_backend/lib/Transforms/PreprocessWeightsForHMXPass.cpp:39-77 | in place: moves every element to the position of its block, or changes nothing when the blocks do not divide the matrix |
| WhLayout.IndexExpressions | qcom_hexagon_backend/lib/Transforms/PreprocessWeightsForHMXPass.cpp:56-71 | the loop's old and new index expressions stay in range and are the block linearization map |
| WhLayout.DestInjective | qcom_hexagon_backend/lib/Transforms/PreprocessWeightsForHMXPass.cpp:56-71 | block linearization sends no two elements to one position |
| WhLayout.DestOnto | qcom_hexagon_backend/lib/Transforms/PreprocessWeightsForHMXPass.cpp:56-71 | and leaves no position without an element |
| WhLayout.TransformRmToWh | qcom_hexagon_backend/lib/Transforms/PreprocessWeightsForHMXPass.cpp:90-117 | -1 and no change for odd dimensions; otherwise element (i, j) ends at (j/32)*32K + (i/2)*64 + 2*(j%32) + i%2 when N is a multiple of 32, the skipped second step at N = 32 included, and at the first step's position for every other even N |
| WhLayout.WhIndexInjective | qcom_hexagon_backend/lib/Transforms/PreprocessWeightsForHMXPass.cpp:90-117 | the final layout gives different elements different places |
| WhLayout.WhIndexOnto | qcom_hexagon_backend/lib/Transforms/PreprocessWeightsForHMXPass.cpp:90-117 | and every place an element: a permutation |
| Crouton.FirstFits | qcom_hexagon_backend/lib/Transforms/PackUnpackUtils.cpp:59-73 | the temporary packed shape holds every tile of the image |
| Crouton.SecondFits | qcom_hexagon_backend/lib/Transforms/PackUnpackUtils.cpp:77-91 | the final packed shape holds every tile of the temporary one |
| Crouton.TwoStagesAreCrouton | qcom_hexagon_backend/lib/Transforms/PackUnpackUtils.cpp:174-192 | the two pack stages together put (n, h, w, c) at (n, h/8, w/4, c/32, h%8, (w%4)/2, c%32, w%2) |
| Crouton.SecondStageFull | qcom_hexagon_backend/lib/Transforms/PackUnpackUtils.cpp:187-190 | the second stage has no padding cell, so its missing pad value is never needed |
| Crouton.ImageRoundTrip | qcom_hexagon_backend/lib/Transforms/PackUnpackUtils.cpp:174-213 | unpacking the packed image gives the image back, whatever it was padded with |
| Crouton.TwoStageUnpack | qcom_hexagon_backend/lib/Transforms/PackUnpackUtils.cpp:194-213 | the two unpack stages read each element from its crouton cell |
| Crouton.ReshapeKeepsPosition | qcom_hexagon_backend/lib/Transforms/SeedLayoutConversions.cpp:88-105 | the padded filter and its seven-dimensional reshape agree on row-major positions |
| Crouton.FilterClosedForm | qcom_hexagon_backend/lib/Transforms/SeedLayoutConversions.cpp:64-112 | pad, reshape and transpose by {0,4,2,3,5,1,6} put (f, h, w, c) at [f/32, c/32, h, w, (c/2)%16, f%32, c%2], and the pad value in the cells of the padding |
| Crouton.FilterCellSource | qcom_hexagon_backend/lib/Transforms/SeedLayoutConversions.cpp:64-112 | every packed filter cell is the cell of exactly one padded element |
| Crouton.PackedFilterUnpacks | qcom_hexagon_backend/lib/Transforms/SeedLayoutConversions.cpp:64-112 | so a packed filter holds its filter, cell by cell |
| Crouton.PackedImageSliceOffsets | qcom_hexagon_backend/lib/Transforms/PreprocessTiledConv2D.cpp:153-190 | the packed offsets are the first cell of the tile the slice starts in, and for an aligned slice the distance from each element's cell in the slice to its cell in the image |
| Crouton.PackedImageSliceSizes | qcom_hexagon_backend/lib/Transforms/PreprocessTiledConv2D.cpp:194-210 | the packed sizes hold the cell of every element of the slice in whole croutons, and reach along each outer dimension just to the cell of the last element |
| Crouton.PackedFilterSliceOffsets | qcom_hexagon_backend/lib/Transforms/PreprocessTiledConv2D.cpp:252-282 | the first cell of the filter tile the slice starts in, and for an aligned slice the distance between cells in the slice and in the filter |
| Crouton.PackedFilterSliceSizes | qcom_hexagon_backend/lib/Transforms/PreprocessTiledConv2D.cpp:286-297 | the packed sizes hold the cell of every filter element of the slice, and reach just to the cell of the last one |
| Crouton.ShiftIffAligned | qcom_hexagon_backend/lib/Transforms/PreprocessTiledConv2D.cpp:153-190 | packed offsets line the cells of a slice up with the cells of the tensor if and only if the slice starts on a tile |
| Crouton.PackedSliceFits | qcom_hexagon_backend/lib/Transforms/PreprocessTiledConv2D.cpp:217-245 | the packed slice of an aligned slice is inside the packed tensor |
| Crouton.SliceCommutes | qcom_hexagon_backend/lib/Transforms/PreprocessTiledConv2D.cpp:217-340 | for images and filters, unpacking the packed slice is the slice of the unpacked tensor |
| Crouton.InsertionIsExactIff | qcom_hexagon_backend/lib/Transforms/PreprocessTiledConv2D.cpp:610-638 | packed insertion is unpacked insertion if and only if each element overwritten outside the slice keeps its value; always so when every tiled dimension ends on a tile or at the edge |
| Crouton.NothingClobberedIff | qcom_hexagon_backend/lib/Transforms/PreprocessTiledConv2D.cpp:610-638 | a packed insertion overwrites no element outside the slice if and only if along every tiled dimension the slice ends on a tile or at the tensor's edge |
| TiledMatmul.TileAddsStretch | qcom_hexagon_backend/lib/Transforms/DecomposeHexKLMatmulPass.cpp:181-196 | one weight tile against one activation tile adds exactly its stretch of the inner product; past K the zero padding cancels whatever the weight tile holds |
| TiledMatmul.LoadActivation | qcom_hexagon_backend/lib/Transforms/DecomposeHexKLMatmulPass.cpp:150-168 | all activation tiles of a row end up laid out in their slots, though scratch slots are reused |
| TiledMatmul.AccumulateTile | qcom_hexagon_backend/lib/Transforms/DecomposeHexKLMatmulPass.cpp:170-197 | the accumulator ends with the full inner products, while weight tiles overwrite one shared slot and every activation tile survives |
| TiledMatmul.StoreTile | qcom_hexagon_backend/lib/Transforms/DecomposeHexKLMatmulPass.cpp:199-212 | the tile reaches the output, clipped at its edges, through slots shared with weights and scratch; nothing else of the output changes |
| TiledMatmul.Matmul | qcom_hexagon_backend/lib/Transforms/DecomposeHexKLMatmulPass.cpp:98-225 | the whole program computes A*B for any M, K and N; every slot is inside the allocation, is read only as what it was last written for, and the configuration slots stay intact |
| HoistScalar.KeepsMeaningIff | qcom_hexagon_backend/lib/Transforms/HoistScalarOps.cpp:183-206 | an operand the analysis calls invariant keeps its meaning outside the region, in every environment, if and only if it is neither another block's argument with a number below the input count nor a constant left behind |
| HoistScalar.SelectionCloneable | qcom_hexagon_backend/lib/Transforms/HoistScalarOps.cpp:163-212 | under that condition every selected operation can be cloned in order, its operands already outside |
| HoistScalar.HoistMeans | qcom_hexagon_backend/lib/Transforms/HoistScalarOps.cpp:214-260 | after the emitted extracts and clones each hoisted value sits in its own rank-0 tensor, and nothing that existed before has changed |
| HoistScalar.RegionsAgree | qcom_hexagon_backend/lib/Transforms/HoistScalarOps.cpp:262-346 | the rebuilt region, run beside the old one from any point on, yields the same values |
| HoistScalar.HoistKeepsYield | qcom_hexagon_backend/lib/Transforms/HoistScalarOps.cpp:348-391 | at every point of the iteration space, for all total scalar operations, the new generic yields what the old one did |
| HoistScalar.HoistKeepsGeneric | qcom_hexagon_backend/lib/Transforms/HoistScalarOps.cpp:348-391 | the emitted operations and the new generic compute the same result tensors, for any iteration order |
| HoistScalarFixpoint.FindHoistableOps | qcom_hexagon_backend/lib/Transforms/HoistScalarOps.cpp:163-212 | the loop collects, in order, exactly the arith and math operations with one float or integer result whose operands come from outside, from a constant, or from an input of rank 0 |
| HoistScalarFixpoint.HoistOperations | qcom_hexagon_backend/lib/Transforms/HoistScalarOps.cpp:214-260 | the cloning loops emit the operations the results above are about |
| HoistScalarFixpoint.BuildNewGenericOp | qcom_hexagon_backend/lib/Transforms/HoistScalarOps.cpp:262-346 | the rebuilding loop produces the generic the results above are about |
| HoistScalarFixpoint.RunOnGenericOp | qcom_hexagon_backend/lib/Transforms/HoistScalarOps.cpp:348-391 | changes the function exactly when something is hoistable |
| HoistScalarFixpoint.NewGenericReady | qcom_hexagon_backend/lib/Transforms/HoistScalarOps.cpp:262-346 | a rewritten generic is again well formed and fit for the next round, with exactly the hoisted operations fewer; what is asked of operands is asked only of operations hoisted in some round |
| HoistScalarFixpoint.HoistBelow | qcom_hexagon_backend/lib/Transforms/HoistScalarOps.cpp:214-260 | every emitted operation refers to values already defined outside the region |
| HoistScalarFixpoint.RewriteMeans | qcom_hexagon_backend/lib/Transforms/HoistScalarOps.cpp:130-161 | rewriting one generic keeps every value the function had, through all later operations |
| HoistScalarFixpoint.RewriteLowersWork | qcom_hexagon_backend/lib/Transforms/HoistScalarOps.cpp:130-161 | each rewrite lowers the number of region operations |
| HoistScalarFixpoint.RunOnOperation | qcom_hexagon_backend/lib/Transforms/HoistScalarOps.cpp:130-161 | the fixpoint loop terminates, keeps the meaning of every value for every meaning of the scalar operations, and leaves nothing hoistable |
| HoistScalarFixpoint.ForeignArgumentMisread | qcom_hexagon_backend/lib/Transforms/HoistScalarOps.cpp:233-244 | a concrete generic whose clone reads input 0 instead of another block's argument 0 |
| HoistScalarFixpoint.IndexConstantLeftBehind | qcom_hexagon_backend/lib/Transforms/HoistScalarOps.cpp:176-189 | a concrete generic whose clone refers to an index constant still inside the region |
| HmxLocks.GetOutermostLoop | qcom_hexagon_backend/lib/Transforms/LowerHexKLMatmulToMacroPass.cpp:229-241 | the parent walk finds the outermost scf.for around an op |
| HmxLocks.CollectedLoops | qcom_hexagon_backend/lib/Transforms/LowerHexKLMatmulToMacroPass.cpp:264-271 | the loops collected from the matmuls upwards are exactly the outermost loops with a matmul inside |
| HmxLocks.AreConsecutive | qcom_hexagon_backend/lib/Transforms/LowerHexKLMatmulToMacroPass.cpp:243-255 | true exactly when nothing between two matmuls is a matmul or produces a result |
| HmxLocks.GroupEnd | qcom_hexagon_backend/lib/Transforms/LowerHexKLMatmulToMacroPass.cpp:273-298 | a group is a whole row of directly adjacent matmuls |
| HmxLocks.InsertBrackets | qcom_hexagon_backend/lib/Transforms/LowerHexKLMatmulToMacroPass.cpp:257-326 | the insertion, block by block, gives the bracketed program the results are about; without its calls that is the program given, and the calls are tight |
| HmxLocks.EraseBracketed | qcom_hexagon_backend/lib/Transforms/LowerHexKLMatmulToMacroPass.cpp:299-326 | taking the four calls out again at every depth gives back the program |
| HmxLocks.BracketedTight | qcom_hexagon_backend/lib/Transforms/LowerHexKLMatmulToMacroPass.cpp:257-326 | the calls stand in pairs right before and right after a matmul or an outermost loop with one inside, none is inside such a loop, and no bracket is closed and opened again between two adjacent matmuls |
| HmxLocks.PieceExec | qcom_hexagon_backend/lib/Transforms/LowerHexKLMatmulToMacroPass.cpp:301-326 | a bracketed loop or a matmul in a group runs with the unit locked, and the bracket is closed after it |
| HmxLocks.BracketsAreRight | qcom_hexagon_backend/lib/Transforms/LowerHexKLMatmulToMacroPass.cpp:257-326 | in every run, zero-trip loops included, each matmul finds the unit locked by its own thread, brackets never nest, and every thread ends with the unit released |
| HmxLocks.BracketsAreRightIff | qcom_hexagon_backend/lib/Transforms/LowerHexKLMatmulToMacroPass.cpp:257-326 | that holds for all runs if and only if no matmul is under an scf.forall that is under an scf.for |
| VtcmOffsets.AlignToLeast | qcom_hexagon_backend/lib/Transforms/MemoryOffsetsPass.cpp:160-163 | alignment goes to the least multiple that is not below |
| VtcmOffsets.ComputeFlatOffsets | qcom_hexagon_backend/lib/Transforms/MemoryOffsetsPass.cpp:153-166 | each allocation starts at the first aligned offset after the one before |
| VtcmOffsets.TotalRequiredSize | qcom_hexagon_backend/lib/Transforms/MemoryOffsetsPass.cpp:230-234 | the total is the end of the last assigned offset |
| VtcmOffsets.OffsetsAreDisjoint | qcom_hexagon_backend/lib/Transforms/MemoryOffsetsPass.cpp:153-166 | offsets are aligned, ranges do not overlap, and the last one ends exactly at the total |
| VtcmOffsets.PlaceAllocations | qcom_hexagon_backend/lib/Transforms/MemoryOffsetsPass.cpp:216-302 | each of the seven outcomes if and only if its condition holds: untouched, one of the four errors, the function's own buffer of the total size, or the scratch argument; and in the last two the assigned offsets |
| VtcmOffsets.InsertScratchArg | qcom_hexagon_backend/lib/Transforms/InsertScratchArgPass.cpp:54-99 | the option is accepted exactly when the launcher's slice is that very size; an argument already there is kept, a kernel without one gets one of that size, and other functions get none |
| VtcmOffsets.PerInstanceBytes | qcom_hexagon_backend/backend/triton_hexagon_launcher.py:184-204 | rounds the slice down to a multiple of 2048, and raises exactly when nothing is left |
| VtcmOffsets.FlatPidIsBijection | qcom_hexagon_backend/backend/triton_hexagon_launcher.py:65-77 | flat pids number the three-dimensional grid 0 .. programs-1 without gaps or repeats |
| VtcmOffsets.NextFlat | qcom_hexagon_backend/backend/triton_hexagon_launcher.py:65-77 | they count along z first, then y, then x |
| VtcmOffsets.SetupClosures | qcom_hexagon_backend/backend/triton_hexagon_launcher.py:65-77 | the triple loop fills every closure, with its own pid and its own slice |
| VtcmOffsets.AllocationsAreSeparate | qcom_hexagon_backend/backend/triton_hexagon_launcher.py:418-427 | end to end: any two allocations of any two programs are apart, aligned from the VTCM base, and inside the acquired total |
| VtcmOffsets.InsideIffTotalFits | qcom_hexagon_backend/lib/Transforms/MemoryOffsetsPass.cpp:286-293 | all allocations of all programs stay inside the acquired block if and only if the kernel's total fits the rounded slice |
| VtcmOffsets.InsertedScratchFits | qcom_hexagon_backend/lib/Transforms/InsertScratchArgPass.cpp:54-99 | for an argument InsertScratchArg added, what the pass checks against is the launcher's slice, so every accepted kernel stays inside the acquired block |
| VtcmOffsets.KeptScratchFitsIff | qcom_hexagon_backend/lib/Transforms/InsertScratchArgPass.cpp:69-74 | an argument that was already there is kept whatever the option; a kernel the pass accepts stays inside the acquired block if and only if its total fits the option |
| VtcmOffsets.HandWrittenScratchCanOverflow | qcom_hexagon_backend/lib/Transforms/MemoryOffsetsPass.cpp:286-293 | a concrete case: a hand-written 3000-byte argument under the accepted option 2048 passes the check and runs past the block |

## Left out

- Integer widths: indices, offsets and sizes are unbounded, except the 32-bit tokens, descriptor fields, hashes and growth test; overflow of loop index arithmetic, of i32 VTCM offsets and of int64 sizes is not modelled.
- Masks with a power of two minus one are modelled as remainders.
- Element values are integers and scalar operations total functions; floating-point rounding, NaN and trapping division are not modelled.
- scf.for steps are positive, as the dialect requires at run time; a negative constant step is not modelled.
- DoubleBuffer: the recogniser does not look at what each copy connects; RewriteRewires says what becomes of any loop, and the other results are about loops whose loads fill their own alloc from their own view. Copies are taken to be valid (same number of elements, no overlap of source and target, no target twice). The rewritten programs are syntax with a meaning, not rewriter calls.
- DoubleBufferOverlap.SameMemoryIff: about loops whose stores write tile buffers back to memory outside the buffers; where a store copies memory to memory, both programs may come to equal values by copying equal ones, and only the sufficient condition of DoubleBufferingPreservesMemory is given.
- DmaTransfers: sub-byte elements, and element types other than by their width; addresses are not 32-bit words. A start that moves anything else than its copy - of unset shape, or cut or refused by the runtime for its size - is a transfer of arbitrary places, which may be none.
- DmaMachine: the engine is the abstract one; a wait that returns has its transfer complete, which UserDma.UserDma.Wait proves of the ring. The words in tag cells are not modelled: a wait for a tag never started may return or not, and a start that waits for room in the ring is not distinguished from one that does not.
- DoubleBufferStage2: the abort of a compiler with assertions is the predicate AssertionsHold and has no run.
- DoubleBufferFaults.AlwaysRightIff: stores of one tile that all write the same addresses can hide each other's loss, and are left out by the premise that each has a target of its own in the last tile.
- DoubleBufferGenericS2 reads the loop's own db_generic attribute again where it means to read the prologue's; harmless on the first stage's output, and not modelled.
- StringMap: the sentinel bucket, iteration, entry memory and the hash function itself; the insertion step of the header is not in the repository and is modelled from LLVM's.
- StringMaps.StringMap.RehashTable: the growth test is exact arithmetic; the source multiplies in 32 bits, which is the same up to 2^30 buckets and no further (GrowthTestWidth). Such a table does not fit the 32-bit address space of the target.
- StringMaps.GetMinBucketToReserveForEntries: exact arithmetic; the 32-bit product is the same below 2^30 entries and no further (ReserveWidth).
- UserDma: RingBuffer and UserDMA are one class; the patience parameters bound polling loops that the source runs until the engine makes progress; of the engine the model has the descriptor it is at, the links it follows and the done bits it sets, in any order among the transfers of its chain; the words of addresses are any that are not null; copy2D ignores isOrdered and cacheAllocationPolicy, and so does the model.
- AsyncRuntime: a state machine on values with steps at lock granularity under sequential consistency; coroutine bodies resumed from awaiters are events; AsyncValue, whose code repeats the token's, and the blocking await functions are not modelled; callers add no more tokens to a group than its size, which the source asserts.
- ThreadPool: a state machine on values; task bodies are events that finish; a task that never returns is not modelled.
- PackLayout: element types and encodings of tensor types; transpose, expand_shape, collapse_shape, pad and reshape folding, and resource-backed constants.
- Crouton: the unrealized casts between packed and unpacked tensors are read as unpack and pack; the loop rebuilding around the slices, the convolution itself and the single-stage 8-bit pack, which is an instance of PackLayout, are not modelled.
- Crouton slices: the slice helpers take the strides of the unpacked slice and do not use them; they are taken to be 1.
- WhLayout: elements are of any type; reading and writing the resource blob.
- TiledMatmul: micro operations are one-line contracts on 32x32 tiles; the configuration block is taken to fit the three slots reserved for it; matched static shapes are assumed where the pass checks them, and equal inner dimensions where it does not.
- HoistScalar: SSA order is a premise (OpsScoped); rank-0 inputs have maps without results. Of operations hoisted in some round, operands that are other blocks' arguments are assumed to have numbers from the sum of inputs and such operations on, so that no round misreads one, and operands that are constants to be of scalar type (exact per operand by KeepsMeaningIff).
- HoistScalarFixpoint: the function is a flat list of operations; generics nested in other regions are not modelled.
- HmxLocks: initialize and finalize calls other than the inserted ones, early exits, and the lowering of each matmul to its macro call; between matmuls only plain operations carry result counts.
- VtcmOffsets: which allocations are eligible, the removal of deallocations, the views' types, and acquisition failures; the pass's alignment must divide the slice, as its default of 2048 does.
- VtcmPool, HexagonBuffer and BufferSet: only headers are in the repository.
- FastInversePass, DivToMulOptimizationPass, LowerTmTensor, AddFastMathPass: approximate by design.
- CopyCanonicalizationPass, RVO, PuntBufferPass: they rest on aliasing facts the code does not establish itself.
- SmallExponentToMultiplyPass, SCFLoopUnrollPass, LinkRuntimeModules, LowerTTX: easier than what is modelled.
- Python drivers, executors, profilers and code templates other than the grid and slice arithmetic.
