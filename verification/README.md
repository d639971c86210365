# A model of the runtime's stateful components

This project models the parts of the runtime that carry real algorithms behind little input and
output, and proves what each promises over all inputs and all runs. One file models one component; a
component that the source keeps as an object with fields is a class here, specified by functions on
its state, and the results about runs are lemmas on those functions. Where runs have an invariant, the
class keeps it in every method.

- `FrameWorker.dfy`: the two-thread handshake between the thread that records frames and the frame
  worker. Each critical section is one method on the control flags; a run is any interleaving.
- `PresentationSchedule.dfy`: slot deadlines, the recovery of late frame groups, and the presenter's
  queue.
- `GuestMemory.dfy`, `GuestQueues.dfy`, `CrowdedQueue.dfy`: the guest scheduler's doubly linked thread
  queues and pending mask, kept in guest memory words.
- `FiberOwnership.dfy`: who owns the host contexts behind guest threads.
- `FunctionRegistry.dfy`, `IndirectDispatch.dfy`: the priority registry of functions, its index, the
  generated table, the native overlay, finalization and the lookup memos.
- `RegisterGuard.dfy`: saving and restoring nonvolatile registers around a call.
- `DynamicModules.dfy`, `ModuleAttachment.dfy`, `AddressTranslation.dfy`: relocated code instances, their generations, and
  address translation. Template validators are arbitrary functions that may change at every step.
- `MemoryCard.dfy`, `MemoryCardDevice.dfy`, `FlashProgram.dfy`, `CardCommands.dfy`: the memory card's byte
  protocol, write batching and checkpoints.
- `CardImage.dfy`, `CardBytes.dfy`: the formatter and importer, and the image they build byte by byte.
- `PlaybackContinuity.dfy`, `AudioRing.dfy`, `AudioRefill.dfy`, `AudioDevice.dfy`: the fade filter and the
  host audio queue.
- `WriteGuard.dfy`, `WriteGuardTables.dfy`, `WriteGuardExact.dfy`: the bitmap guard over executable memory
  and the fast store path.
- `GuestWrites.dfy`, `CacheWriteback.dfy`: write generations for graphics caches and the publication
  of flushed cache lines.
- `CarryArithmetic.dfy`: add and subtract with carry, chained over numbers of any length.
- `Arithmetic.dfy`, `Bits.dfy`, `AddressSpace.dfy`, `Wrappers.dfy`: what the components share:
  arithmetic facts, words and their bits, guest addresses, optional values.

Some promises do not hold of the code as it stands. Each has the exact condition under which the code
keeps the promise, and an input that breaks it:

- An end that follows an end waits for ever: `FrameWorker.ReleasedExactlyAfterBegin`,
  `FrameWorker.EndAfterEndIsReachable`.
- Waking leaves sleepers behind past 256: `GuestQueues.WakeOutcome`, `CrowdedQueue.OneIsLeftBehind`.
- Different registrations with one winning key make order matter:
  `FunctionRegistry.OrderIsInvisibleExactly`, `FunctionRegistry.EqualKeysKeepTheFirst`.
- Two dissenting claimants of a publication show the registration order:
  `DynamicModules.OrderIsInvisibleExactly`, `DynamicModules.DissentHappens`.
- Two frame groups may meet at one deadline: `PresentationSchedule.GroupsMeetExactly`,
  `PresentationSchedule.LeavingThirtyToSixtyMayTouch`.
- A write notification that starts outside RAM may be lost: `GuestWrites.SkipIsSoundExactly`,
  `GuestWrites.NotificationsFromOutsideAreLost`.
- A flush whose line count overflows to one reaches one line: `CacheWriteback.FlushReachesExactly`,
  `CacheWriteback.OverflowHappens`.
- Code registered by a cached address is open through its physical one:
  `WriteGuard.PhysicalViewStaysOpen`, `WriteGuard.CachedCodeIsOpenBelow`.
- SO may be set although the whole sum fits: `CarryArithmetic.SummaryOverflowIsSticky`,
  `CarryArithmetic.LowerWordMaySetSummaryOverflow`.

Inputs that the model takes as parameters: the current time, validator answers, whether the audio
device accepts a chunk, the handle a new host context gets, which host context is running, and the
mapped memory regions.

## Model

| member | source | states |
|---|---|---|
| `FrameWorker.SafeInEveryRun` | aurora-main/lib/aurora.cpp:527-571 | Safety over every interleaving: DONE implies SEALED; one job at most is between posting and DONE, none is lost, taken twice or posted over another; the two threads never prepare a frame together; while SEALED shows, the worker is off the producer's state |
| `FrameWorker.PermissionComesFromLaterBegin` | aurora-main/lib/aurora.cpp:2135-2148 | When the worker passes the preparation gate, an earlier begin came after the posting of that very job and no job was posted since |
| `FrameWorker.BeginReturnsWorkerResult` | aurora-main/lib/aurora.cpp:2257-2263 | A begin that waits out a surface change returns the result of the worker's own preparation, never a stale one |
| `FrameWorker.BeginDecides` | aurora-main/lib/aurora.cpp:2240-2270 | With no worker cycle open a begin reports an active frame at once exactly if the last report for the frame was a success and otherwise prepares it; with one open it waits exactly during a surface change |
| `FrameWorker.FrameIsPreparedOnce` | aurora-main/lib/aurora.cpp:2265-2277 | In every interleaving the producer prepares a frame only if no thread has reported success for it |
| `FrameWorker.BlockedWorkerAdvances` | aurora-main/lib/aurora.cpp:598-644 | While the producer waits on a frame it asked for, only the worker can move, it can move, and each of its steps lowers a measure |
| `FrameWorker.EveryScheduleReleasesProducer` | aurora-main/lib/aurora.cpp:616-644 | Progress: every schedule of at most six further steps releases a producer that waits for SEALED or DONE on a frame it asked for |
| `FrameWorker.ReleasedExactlyAfterBegin` | aurora-main/lib/aurora.cpp:2280-2309 | A waiting producer can be released if and only if a begin was called since the last end (or no end has posted yet) |
| `FrameWorker.EndAfterEndIsReachable` | aurora-main/lib/aurora.cpp:2280-2309 | The other case happens: begin, end, end reaches a state from which the second end never returns |
| `FrameWorker.Controller.constructor` | aurora-main/lib/aurora.cpp:460-474 | The control block starts both threads of a run, both phases visible and nothing pending |
| `FrameWorker.Controller.WorkerTakeJob` | aurora-main/lib/aurora.cpp:545-552 | A step of a reachable run; a job is there to take exactly when one is outstanding, and then neither phase is visible |
| `FrameWorker.Controller.WorkerTakePermission` | aurora-main/lib/aurora.cpp:2135-2142 | A step of a reachable run; the gate opens exactly if a begin asked for the frame since the last end, and the producer is not preparing |
| `FrameWorker.Controller.WorkerPublishSealed` | aurora-main/lib/aurora.cpp:2151-2156 | A step of a reachable run; result and SEALED show together, before DONE, with the worker off the producer's state |
| `FrameWorker.Controller.WorkerPublishDone` | aurora-main/lib/aurora.cpp:2168-2172 | A step of a reachable run; with DONE every posted job is finished and SEALED shows too |
| `FrameWorker.Controller.ProducerBegin` | aurora-main/lib/aurora.cpp:2241-2255 | A step of a reachable run; the verdict says whether a job is outstanding, and if so the worker may prepare it or already has |
| `FrameWorker.Controller.ProducerStorePrepared` | aurora-main/lib/aurora.cpp:2272-2277 | A step of a reachable run; no job is outstanding and the worker is out of its cycle, so nobody else prepared the frame |
| `FrameWorker.Controller.ProducerPostJob` | aurora-main/lib/aurora.cpp:2299-2309 | A step of a reachable run; no job was outstanding before, exactly one is after, and only a later begin can ask for it |
| `GuestMemory.WriteQueue` | runtime/src/fiber_manager.cpp:70-78 | A store to a thread's queue word changes exactly that field of the guest state as read back (words of different fields never overlap) |
| `GuestQueues.SoundInWords` | runtime/src/fiber_manager.cpp:90-134 | The scheduler invariant in guest words by offset: every queue is a doubly linked list from its header, each thread names the queue that holds it, and a pending bit is set exactly when that run queue has a first thread |
| `GuestQueues.UnlinkRepresents` | runtime/src/fiber_manager.cpp:108-134 | Unlinking removes one thread, and only it, from its doubly linked queue; every other queue keeps its links |
| `GuestQueues.RemoveKeepsSound` | runtime/src/fiber_manager.cpp:108-134 | After a removal the guest memory again represents well-formed disjoint queues, and a pending bit is set exactly when that run queue is non-empty |
| `GuestQueues.AppendRepresents` | runtime/src/fiber_manager.cpp:172-182 | Linking a free thread at a tail appends it to that queue and touches no other |
| `GuestQueues.WakeStepSound` | runtime/src/fiber_manager.cpp:141-189 | One turn of the wake loop keeps queues well formed and disjoint and the pending mask exact |
| `GuestQueues.WakeOutcome` | runtime/src/fiber_manager.cpp:136-194 | Waking empties the queue if and only if it held at most 256 threads; each run queue becomes its old contents followed by the live, unsuspended sleepers of that clamped priority in order; other queues stay |
| `GuestQueues.WakeSettles` | runtime/src/fiber_manager.cpp:136-190 | In guest words alone: a woken sleeper with a state other than 0 and 8 gets state 1; one with a suspend count below 1 joins the run queue of its priority clamped to 0 to 31, with that pending bit and the reschedule flag set; any other belongs to no queue |
| `GuestQueues.WokenKeepsOrder` | runtime/src/fiber_manager.cpp:172-182 | Sleepers woken to one run queue keep their order |
| `GuestQueues.Scheduler.ClearPendingMaskForEmptyGuestQueue` | runtime/src/fiber_manager.cpp:90-106 | Clears the bit of an empty run queue and leaves every other word of guest memory alone |
| `GuestQueues.Scheduler.RemoveGuestThreadFromQueue` | runtime/src/fiber_manager.cpp:108-134 | In guest memory: the thread leaves its queue, everything else stays, soundness is kept |
| `GuestQueues.Scheduler.WakeGuestThreadsOnQueueNoSwitch` | runtime/src/fiber_manager.cpp:136-194 | In guest memory: the first 256 sleepers are woken in order, each settled as its words demand, with the fiber states the source gives them |
| `GuestQueues.FibersAfterWake` | runtime/src/fiber_manager.cpp:305-322 | A fiber becomes ready exactly if its thread was a runnable sleeper and it has not terminated; no other fiber changes |
| `CrowdedQueue.OneIsLeftBehind` | runtime/src/fiber_manager.cpp:136-147 | A sound guest memory with 257 runnable sleepers on one queue: every wake of it leaves the last one there |
| `FunctionRegistry.BetterIsStrictOrder` | runtime/src/abi_bridge.cpp:110-140 | Better-than is a strict order that compares any two candidates of one address unless they are the same registration |
| `FunctionRegistry.WinnerIsUnique` | runtime/src/abi_bridge.cpp:126-140 | An address has at most one winner |
| `FunctionRegistry.WinnerOutranks` | runtime/src/abi_bridge.cpp:97-140 | Of everything registered for an address the winner is exactly what outranks all of it: the higher priority (its own, or 0, 100 and 10000 for base, mod and native code), then native before mod before base, then the higher module number |
| `FunctionRegistry.EveryKeyIsHeldOnce` | runtime/src/abi_bridge.cpp:142-147 | No registration is lost: each has exactly one entry with its address, kind, module and priority in force, and nothing else is held |
| `FunctionRegistry.RegisterAllHolds` | runtime/src/abi_bridge.cpp:321-363 | Registration keeps, normalized, exactly the first function given for each key |
| `FunctionRegistry.WinnerIsFirstOfBest` | runtime/src/abi_bridge.cpp:126-147 | The winner at an address is the first function given for the best key there |
| `FunctionRegistry.WinnerIsOrderIndependent` | runtime/src/abi_bridge.cpp:126-147 | Every order of the same registrations, repeated or not, gives the same winner at every address when the registrations with each winning key are one function |
| `FunctionRegistry.OrderIsInvisibleExactly` | runtime/src/abi_bridge.cpp:321-340 | That condition is exact: otherwise two orders have different winners |
| `FunctionRegistry.EqualKeysKeepTheFirst` | runtime/src/abi_bridge.cpp:321-340 | The smallest case in which order matters: of two different registrations with one key the first stays |
| `FunctionRegistry.IndexedIsExact` | runtime/src/abi_bridge.cpp:341-363 | The index kept on each registration points at the winner of every address |
| `FunctionRegistry.IndexIsUnique` | runtime/src/abi_bridge.cpp:149-173 | The kept index equals the one rebuilt from scratch |
| `IndirectDispatch.FindStaticIndirectDispatchEntry` | runtime/include/abi_bridge.h:140-178 | The paged search with its halving loop finds the slot of an address or nothing |
| `IndirectDispatch.ListedIsFound` | runtime/include/abi_bridge.h:140-178 | In an ascending table the search finds exactly the records listed on the page of their own address |
| `IndirectDispatch.WellBuiltTableIsComplete` | runtime/include/abi_bridge.h:140-178 | A table that lists every record answers each address with its record and every other address with nothing |
| `IndirectDispatch.OverlayFindIsExact` | runtime/src/abi_bridge.cpp:202-209 | The overlay search finds a record exactly when the sorted overlay holds one at that address |
| `IndirectDispatch.RawLookupAgreesWithWinner` | runtime/src/abi_bridge.cpp:416-431 | Dispatch agreement: after finalization the raw lookup gives the priority winner with its own entry and register guards when it can be dispatched raw, and nothing otherwise |
| `IndirectDispatch.RawLookupOfUnknownAddress` | runtime/src/abi_bridge.cpp:416-431 | An address nobody registered is never dispatched raw |
| `IndirectDispatch.IndirectCallRunsWinner` | runtime/include/abi_bridge.h:787-803 | The raw path cannot be observed: an indirect call runs the winner's invoker, guarding the registers f14 to f31 it writes and, around native code other than the context loader, the general ones, or falls through |
| `IndirectDispatch.AcceptedMeansConsistent` | runtime/src/abi_bridge.cpp:211-264 | A table record passes validation exactly when it agrees with the registry |
| `IndirectDispatch.Registry.Register` | runtime/src/abi_bridge.cpp:321-363 | Refused once frozen; otherwise adds the normalized function unless its key is taken, keeping indices exact |
| `IndirectDispatch.Registry.RegisterTable` | runtime/src/abi_bridge.cpp:281-300 | Links one generated table; refused when frozen or when another is linked |
| `IndirectDispatch.Registry.RebuildIndices` | runtime/src/abi_bridge.cpp:149-200 | Rebuilding yields the same index and an overlay of exactly the native winners the table does not serve |
| `IndirectDispatch.Registry.ValidateGeneratedIndirectDispatch` | runtime/src/abi_bridge.cpp:211-279 | Validation accepts exactly the tables consistent with the registry |
| `IndirectDispatch.Registry.Finalize` | runtime/src/abi_bridge.cpp:365-395 | The registry freezes exactly when the table is consistent; on an error nothing is published |
| `IndirectDispatch.Registry.FindByAddressSlow` | runtime/src/abi_bridge.cpp:397-414 | The winner of an address from the index |
| `IndirectDispatch.Registry.FindByAddress` | runtime/include/abi_bridge.h:379-395 | The memoized lookup answers like the slow one whatever was looked up before |
| `IndirectDispatch.Registry.FindRawByAddressSlow` | runtime/src/abi_bridge.cpp:416-431 | Overlay first, then the table, and nothing before the registry is frozen |
| `IndirectDispatch.Registry.FindRawByAddress` | runtime/include/abi_bridge.h:399-426 | The memoized raw lookup answers like the slow one after any history of lookups |
| `RegisterGuard.RunIsExact` | runtime/include/abi_bridge.h:207-214 | A mask that passes the test on mask plus lowest bit has exactly the bits from its lowest up to the computed end |
| `RegisterGuard.ConsecutiveBitsPass` | runtime/include/abi_bridge.h:207-214 | Every mask of consecutive bits passes the test |
| `RegisterGuard.RunIsGuarded` | runtime/include/abi_bridge.h:196-219 | A run of the masked registers lies in f14 to f31 and is exactly the set of guarded registers |
| `RegisterGuard.PpcNonvolatileFprGuard.constructor` | runtime/include/abi_bridge.h:196-225 | Saves every guarded register, by block for a run and bit by bit otherwise |
| `RegisterGuard.PpcNonvolatileFprGuard.Leave` | runtime/include/abi_bridge.h:227-245 | Restores exactly the guarded registers to their values at entry and keeps the others as the call left them, on both paths |
| `DynamicModules.OverlapMeansSharedAddress` | runtime/src/dynamic_module.cpp:193-197 | The overlap test on non-empty ranges holds exactly when they share an address |
| `DynamicModules.RangesAreDisjointInEveryRun` | runtime/src/dynamic_module.cpp:209-284 | Over every run with arbitrary validators, no guest address lies in two live instances or in image and BSS of one, and every one-past end is representable |
| `DynamicModules.FindFunctionIsExact` | runtime/src/dynamic_module.cpp:199-207 | The binary search finds exactly the function that starts at an offset |
| `DynamicModules.ResolveAt` | runtime/src/dynamic_module.cpp:353-388 | Resolution depends only on the one instance whose image holds the target, so iteration order is irrelevant |
| `DynamicModules.LazyCheckIsEnough` | runtime/src/dynamic_module.cpp:353-388 | Validating only that instance gives the answer of validating all of them first |
| `DynamicModules.RepublicationRefusesOlderGenerations` | runtime/src/dynamic_module.cpp:305-351 | Once a base is published again, every older token and running context there is refused for ever |
| `DynamicModules.EnteredContextIsCurrent` | runtime/src/dynamic_module.cpp:390-422 | A running context keeps resolving exactly while its own instance is attached and valid |
| `DynamicModules.PublishNeedsOneClaimant` | runtime/src/dynamic_module.cpp:320-351 | A publication attaches only when exactly one template claims the address |
| `DynamicModules.PublishIsOrderIndependent` | runtime/src/dynamic_module.cpp:320-351 | Its outcome never depends on registration order, nor do the instances left when at most one claimant dissents from each live claimed base |
| `DynamicModules.OrderIsInvisibleExactly` | runtime/src/dynamic_module.cpp:320-351 | For the instances left that condition is exact over all registration orders |
| `DynamicModules.DissentHappens` | runtime/src/dynamic_module.cpp:320-351 | The other case is reached: three modules claim three bases and the first is live |
| `DynamicModules.ModuleRegistry.ValidateTemplate` | runtime/src/dynamic_module.cpp:153-186 | Accepts exactly the structurally valid templates |
| `DynamicModules.ModuleRegistry.RegisterTemplate` | runtime/src/dynamic_module.cpp:288-298 | Registers a valid template once |
| `DynamicModules.ModuleRegistry.PruneStale` | runtime/src/dynamic_module.cpp:214-224 | Erasing while iterating, in any order, keeps exactly the instances still reported at their layout |
| `DynamicModules.ModuleRegistry.AttachInstanceLocked` | runtime/src/dynamic_module.cpp:209-284 | Attaches with a fresh generation unless the template is unknown or unfit or a range conflicts |
| `ModuleAttachment.AttachSucceedsExactly` | runtime/src/dynamic_module.cpp:209-284 | An attachment succeeds if and only if the template is registered, guest memory shows it with room for image and BSS, and nothing else still shown shares an address with it; it then keeps exactly the instances still shown and adds its own |
| `ModuleAttachment.StaleInstancesGo` | runtime/src/dynamic_module.cpp:214-224 | An instance that guest memory no longer shows is gone after any attachment that gets as far as looking |
| `ModuleAttachment.SoleClaimantIsAttached` | runtime/src/dynamic_module.cpp:320-351 | A publication that exactly one registered template claims attaches it where it was found, replacing what was at that base, and succeeds exactly if it can be attached there |
| `ModuleAttachment.OtherPublicationsFail` | runtime/src/dynamic_module.cpp:320-351 | Any other publication fails: unclaimed, it changes nothing; claimed by several, it adds nothing and the instances at two of the claimed bases are gone |
| `DynamicModules.ModuleRegistry.DetachInstance` | runtime/src/dynamic_module.cpp:305-318 | Succeeds exactly if the very instance the token was issued for is attached; soundness is kept and the token is retired |
| `DynamicModules.DetachedTokenIsSpent` | runtime/src/dynamic_module.cpp:305-318 | After a detach the token and every context of its generation are refused for ever |
| `DynamicModules.ModuleRegistry.NotifyCodePublication` | runtime/src/dynamic_module.cpp:320-351 | Publishes the single claimant or retires the first two claimed bases and refuses |
| `DynamicModules.ModuleRegistry.TryResolveTarget` | runtime/src/dynamic_module.cpp:353-388 | The visiting loop, in any order, computes the resolution function |
| `DynamicModules.ModuleRegistry.TryResolveCurrentFunction` | runtime/src/dynamic_module.cpp:390-422 | Answers exactly if the instance the context runs in is attached, unreplaced and valid and a function starts at the offset, and then with that function |
| `AddressTranslation.EnteredContextIsWellPlaced` | runtime/src/dynamic_module.cpp:429-455 | A context entered through any resolved target of any run has disjoint, in-range, linked and loaded ranges |
| `AddressTranslation.TranslationsAreOffsets` | runtime/include/dynamic_module.h:110-158 | Both translations move whole ranges by one offset and leave every other address |
| `AddressTranslation.RebaseIsUndone` | runtime/include/dynamic_module.h:110-158 | Translating back undoes rebasing exactly for linked addresses and for those outside the loaded ranges |
| `AddressTranslation.CanonicalizationIsUndone` | runtime/include/dynamic_module.h:110-158 | And conversely |
| `AddressTranslation.LinkFollowsBranch` | runtime/include/dynamic_module.h:160-171 | The link address of any branch in the image, the last instruction included, moves with the branch |
| `AddressTranslation.LinkDiffersOnlyPastImage` | runtime/include/dynamic_module.h:160-171 | The link translation differs from the plain one at most one past the image end, and exactly when stated |
| `MemoryCard.FileFollowsCard` | runtime/include/gamecube_memory_card.h:278-287 | Over any sequence of protocol, DMA, flush, poll, mode, capture and restore steps, card and file bytes agree outside the dirty interval, which is empty unless writes are batched |
| `MemoryCard.FlushMakesDurable` | runtime/include/gamecube_memory_card.h:84-89 | A flush after any run leaves file and card equal |
| `MemoryCard.PollAfterWriteDoesNotCommit` | runtime/include/gamecube_memory_card.h:90-104 | In batch mode neither a recorded write nor a poll straight after it touches the file |
| `MemoryCard.TwoQuietPollsCommit` | runtime/include/gamecube_memory_card.h:90-104 | Two polls with no recorded write between them leave nothing dirty, whatever else happened in between |
| `MemoryCard.RestoreUndoesNoSave` | runtime/include/gamecube_memory_card.h:135-145 | A checkpoint restore that succeeds, after any run, leaves card and file equal and the file unchanged |
| `MemoryCard.RestoreSucceedsIffNoWrite` | runtime/include/gamecube_memory_card.h:135-145 | A restore succeeds if and only if no step of the run since the capture recorded a write, and then changes no byte of the card |
| `MemoryCard.RestoreBringsBack` | runtime/include/gamecube_memory_card.h:135-145 | A restore succeeds exactly at the write generation of the capture, and then brings back every protocol field and byte of that moment and leaves the file alone |
| `MemoryCard.CaptureKeepsCheckpoint` | runtime/include/gamecube_memory_card.h:135-145 | A capture keeps one more checkpoint, of the card as it is, exactly if nothing is dirty |
| `MemoryCard.MaskingKeepsThePage` | runtime/include/gamecube_memory_card.h:168-176 | Masking an address by the card size keeps its place in the 512-byte page and masks the page |
| `MemoryCard.ProgramStaysInPage` | runtime/include/gamecube_memory_card.h:168-176 | The program loop changes no byte outside the page it persists |
| `MemoryCardDevice.GameCubeMemoryCard.constructor` | runtime/include/gamecube_memory_card.h:59-69 | An opened image is card and file, clean and unbatched |
| `MemoryCard.PersistKeepsCoherent` | runtime/include/gamecube_memory_card.h:278-287 | Recording a write restores agreement of card and file outside the dirty interval after any bytes changed, and in batch mode leaves the file alone |
| `MemoryCardDevice.GameCubeMemoryCard.FlushPendingWrites` | runtime/include/gamecube_memory_card.h:84-89 | Leaves file equal to card with nothing dirty, the card's bytes unchanged and every checkpoint faithful |
| `MemoryCardDevice.GameCubeMemoryCard.FlushPendingWritesIfIdle` | runtime/include/gamecube_memory_card.h:90-104 | Commits everything if the last poll saw every write; otherwise the file stays and this poll has seen them |
| `MemoryCardDevice.GameCubeMemoryCard.SetBatchWrites` | runtime/include/gamecube_memory_card.h:79-83 | The new mode starts with file equal to card and nothing dirty |
| `MemoryCardDevice.GameCubeMemoryCard.ProgramLoop` | runtime/include/gamecube_memory_card.h:168-176 | The byte loop computes the programmed bytes and the final address |
| `MemoryCardDevice.GameCubeMemoryCard.Select` | runtime/include/gamecube_memory_card.h:159-184 | Keeps card, file and checkpoints coherent: a command carried out is one recorded write, anything else leaves the bytes alone; which bytes an erase or a program changes is in CardCommands.EraseWipesOneBlock and FlashProgram.ProgramWritesPayload |
| `MemoryCardDevice.GameCubeMemoryCard.Transfer` | runtime/include/gamecube_memory_card.h:186-219 | A protocol byte never touches card, file or dirty interval; a read replies with the card's byte and moves on in its page |
| `MemoryCardDevice.GameCubeMemoryCard.DmaRead` | runtime/include/gamecube_memory_card.h:221-226 | The bytes at the address, exactly when the command allows it and they lie on the card |
| `MemoryCardDevice.GameCubeMemoryCard.DmaWrite` | runtime/include/gamecube_memory_card.h:228-236 | Stores the bytes at the address and no others as one recorded write, or refuses and changes nothing |
| `MemoryCardDevice.GameCubeMemoryCard.CaptureState` | runtime/include/gamecube_memory_card.h:135-145 | A checkpoint exactly when nothing is dirty; it holds what is in the file |
| `MemoryCardDevice.GameCubeMemoryCard.RestoreState` | runtime/include/gamecube_memory_card.h:135-145 | Succeeds exactly if no write was recorded since, and for a checkpoint of this card then leaves card and file equal and unchanged |
| `FlashProgram.AddressBytesAdd` | runtime/include/gamecube_memory_card.h:204-209 | The or-ed address bytes never overlap, so the four bytes spell one sum |
| `FlashProgram.ProgramWritesPayload` | runtime/include/gamecube_memory_card.h:159-219 | A program command over the bus writes its payload, of any length, from the address on, wrapping in the page, and nothing else; of a payload longer than the 128-byte buffer the last 128 bytes count |
| `FlashProgram.ReadReturnsBytes` | runtime/include/gamecube_memory_card.h:186-219 | A read command replies with the bytes from the address on, wrapping in the page, and changes no byte |
| `FlashProgram.ProgramThenRead` | runtime/include/gamecube_memory_card.h:159-219 | Reading where a program command wrote returns a payload of up to 128 bytes |
| `CardCommands.EraseWipesOneBlock` | runtime/include/gamecube_memory_card.h:159-168 | An erase over the bus turns exactly the 8 KiB block its two address bytes name, modulo the card, into 0xFF bytes, completes the status and raises the interrupt |
| `CardCommands.ShortEraseIsHarmless` | runtime/include/gamecube_memory_card.h:163 | An erase without its second address byte changes no byte of card or file and raises no interrupt |
| `CardCommands.CardAnswers` | runtime/include/gamecube_memory_card.h:195-199 | Asked for size, status or identity the card answers byte by byte, the size as a big-endian word of megabits, and changes nothing else |
| `CardCommands.ClearStatusIsHeard` | runtime/include/gamecube_memory_card.h:189-193 | Clearing the status makes the card ready and unlocked and takes its interrupt back |
| `CardCommands.SetInterruptIsHeard` | runtime/include/gamecube_memory_card.h:200 | The interrupt is enabled exactly by a byte other than zero |
| `CardImage.FormattedImageWithSave` | runtime/include/gamecube_memory_card.h:111-133 | Succeeds exactly for saves of 1 to 251 blocks of the right length, with the right error otherwise, and builds the image block by block |
| `CardImage.NewFormattedImage` | runtime/include/gamecube_memory_card.h:249-276 | The blank card: header, two directories, two tables and an erased user area |
| `CardImage.Checksum` | runtime/include/gamecube_memory_card.h:239-248 | The loop stores the folded word sum and inverse sum |
| `CardImage.SumsAreComplementary` | runtime/include/gamecube_memory_card.h:239-248 | The two sums of n words add up to minus n modulo 65536 |
| `CardBytes.SumsOfWords` | runtime/include/gamecube_memory_card.h:239-248 | The sums are the plain sums of the big-endian words and of their complements, modulo 65536 |
| `CardBytes.StoredSumsAreSums` | runtime/include/gamecube_memory_card.h:239-276 | All five checksums of an imported card are the sums of the words they cover, 65535 written as zero |
| `CardImage.CardWithHolds` | runtime/include/gamecube_memory_card.h:111-133 | The image is the header, two equal directories, two equal tables, the payload and erased blocks |
| `CardBytes.CardByteByByte` | runtime/include/gamecube_memory_card.h:111-133 | Every byte of the imported card but the checksums: id and size in the header, the save entry with 5 for its first block in both directories, counts and chain in both tables, the payload from block 5 on, erased bytes elsewhere |
| `CardBytes.ImportableExactly` | runtime/include/gamecube_memory_card.h:111-115 | A save can be imported exactly if its stored block count is 1 to 251 and its length is 64 bytes and that many blocks |
| `CardImage.ImportRoundTrip` | runtime/include/gamecube_memory_card.h:111-133 | Reading the save back through either directory copy and either table copy gives the original header, except the first-block field, and payload |
| `CardImage.TableHolds` | runtime/include/gamecube_memory_card.h:123-130 | Each table entry links to the next block, ends the chain at 0xFFFF or is free; counts and checksum are right |
| `CardImage.ChainIsFollowed` | runtime/include/gamecube_memory_card.h:127-128 | Following the chain lists the blocks of the file in order and stops |
| `CardImage.BlocksAreAccountedFor` | runtime/include/gamecube_memory_card.h:123-130 | Chain length plus stored free count is 251, and the free count is the number of free entries |
| `CardImage.ChecksumsAndCopiesAgree` | runtime/include/gamecube_memory_card.h:117-130 | Every stored checksum is the recomputed one and both copies of directory and table agree |
| `CardImage.FlashId` | runtime/include/gamecube_memory_card.h:147-157 | The loop removes the serial's mask from the first twelve bytes |
| `CardImage.FormattedCardHasTheFlashId` | runtime/include/gamecube_memory_card.h:249-262 | The id derived from any card formatted here is the one masked into it |
| `CardBytes.IdFromSerial` | runtime/include/gamecube_memory_card.h:147-157 | The id is the first twelve bytes less the congruential sequence that starts at the big-endian serial, with a 15-bit cut between bytes |
| `PlaybackContinuity.MixIsBetween` | runtime/include/audio_playback_continuity.h:91-99 | With truncating division a mixed sample lies between anchor and target, so it fits 16 bits |
| `PlaybackContinuity.MixIsOnTheLine` | runtime/include/audio_playback_continuity.h:97-100 | A mixed sample is the point on the straight line between anchor and target, truncated toward zero |
| `PlaybackContinuity.FadeFollowsTheLine` | runtime/include/audio_playback_continuity.h:80-105 | Frame k of a run into or out of a gap lies k fade lengths along the straight line from the sample last played to the one due, silence in a gap, truncated toward zero |
| `PlaybackContinuity.ThirtyTwoBitsSuffice` | runtime/include/audio_playback_continuity.h:95-98 | The 32-bit products overflow for no samples if and only if the fade is at most 65536 frames |
| `PlaybackContinuity.SplitIsHarmless` | runtime/include/audio_playback_continuity.h:80-105 | Filtering in two calls gives the samples and state of one |
| `PlaybackContinuity.PassThroughIsExact` | runtime/include/audio_playback_continuity.h:88-91 | The pass-through shortcut plays and leaves exactly what mixing would |
| `PlaybackContinuity.ChunkingIsHarmless` | runtime/include/audio_playback_continuity.h:80-105 | Any cut of a stream into calls gives the samples and state of frame-by-frame filtering |
| `PlaybackContinuity.GapIgnoresSamples` | runtime/include/audio_playback_continuity.h:96-97 | What a gap plays does not depend on the samples handed in |
| `PlaybackContinuity.OutputIsBetween` | runtime/include/audio_playback_continuity.h:91-104 | Every output sample lies between the fade's anchor and its target |
| `PlaybackContinuity.GapNeverGetsLouder` | runtime/include/audio_playback_continuity.h:83-104 | Whatever a stream has played since it was opened, no channel of a gap frame is louder than the frame before, and a gap before any frame is silent |
| `PlaybackContinuity.GapFadesGently` | runtime/include/audio_playback_continuity.h:83-104 | No clicks: in any stream each gap frame differs from the frame before it in each channel by at most one fade step of the sample the gap began at, rounded up |
| `PlaybackContinuity.GapEndsInSilence` | runtime/include/audio_playback_continuity.h:83-104 | Once the fade has run, at the latest after its length, a gap plays exact zeros |
| `PlaybackContinuity.AudioPlaybackContinuity.constructor` | runtime/include/audio_playback_continuity.h:71-78 | Clamped channels, a fade of three milliseconds but at least one frame, no history |
| `PlaybackContinuity.FadeIsThreeMilliseconds` | runtime/include/audio_playback_continuity.h:71-78 | The fade is three milliseconds in whole frames, one at least, and a stream opens silent and out of any gap |
| `PlaybackContinuity.AudioPlaybackContinuity.MixFrame` | runtime/include/audio_playback_continuity.h:92-103 | Mixes one frame in place, each channel on the fade line of its anchor, and remembers it |
| `PlaybackContinuity.AudioPlaybackContinuity.Process` | runtime/include/audio_playback_continuity.h:80-105 | Filters in place exactly like frame-by-frame filtering, and touches nothing else in the array |
| `AudioRing.RingIsAFifo` | runtime/src/audio_backend.cpp:185-223 | Over any interleaving of enqueues and feeds, with any number of channels, the queue holds exactly the accepted items not yet taken, in order, in whole frames and within its limit |
| `AudioRing.FilterIsBehindTheQueue` | runtime/src/audio_backend.cpp:272-350 | The filter never disturbs the queue: runs with it move the same items |
| `AudioRing.OutputIsTheFilteredStream` | runtime/src/audio_backend.cpp:272-350 | Over every run the output is one pass of the filter over what was heard; gaps carry no sample, so stale ring contents never reach it |
| `AudioRing.StaleFramesAreCountedOnce` | runtime/src/audio_backend.cpp:415-426 | Silence since the last resolution covers stale frames first, up to the limit, the rest is queued, and the lock-free shortcut agrees |
| `AudioRing.BlocksAreNeverSplit` | runtime/src/audio_backend.cpp:185-223 | A block is queued whole or dropped whole; refused exactly when malformed or closed; accepted whenever it fits |
| `AudioRefill.ChunkPlaysOrWaits` | runtime/src/audio_backend.cpp:288-328 | A chunk plays from the queue exactly if something is queued and, while refilling, at least the refill threshold; otherwise it is silence, credited |
| `AudioRefill.RefillingBeganDry` | runtime/src/audio_backend.cpp:288-328 | In every run the player refills only because a chunk found the queue empty and nothing was played since |
| `AudioRefill.SilenceEnds` | runtime/src/audio_backend.cpp:185-223 | Once blocks that leave room for the refill threshold amount to it, whatever chunks came in between, the queue has played or the next chunk plays from it |
| `AudioRefill.LongBlocksStarve` | runtime/src/audio_backend.cpp:198-205 | The room is needed: while every block is too long for it a refilling queue stays silent for ever |
| `AudioRefill.OpenedLimits` | runtime/src/audio_backend.cpp:153-183 | A stream queues 256 ms in whole frames, refills to 96 ms and always has room for that |
| `AudioRing.FeedFillsRequest` | runtime/src/audio_backend.cpp:272-350 | Unless the device refuses, a callback delivers every whole frame it asked for |
| `AudioRing.FeedIsARun` | runtime/src/audio_backend.cpp:272-350 | A callback is a run of atomic chunks, so the results over runs cover callbacks interleaved with producers |
| `AudioDevice.AudioBackend.constructor` | runtime/src/audio_backend.cpp:61-76 | The ring holds whole frames of 256 ms and starts empty |
| `AudioDevice.AudioBackend.EnqueueSamples` | runtime/src/audio_backend.cpp:185-223 | The wrapped copy into the two arrays appends the block to the queue, or drops or refuses it |
| `AudioDevice.AudioBackend.PushGapFrames` | runtime/src/audio_backend.cpp:410-413 | Queues gap frames without samples |
| `AudioDevice.AudioBackend.TakeChunk` | runtime/src/audio_backend.cpp:287-323 | The wrapped copy out, or credited silence while empty or refilling |
| `AudioDevice.Smooth` | runtime/src/audio_backend.cpp:333-341 | The run-by-run loop over the scratch buffer plays the items frame by frame, whatever lies under gap flags |
| `AudioDevice.AudioBackend.PullChunk` | runtime/src/audio_backend.cpp:280-341 | One chunk: taken and filtered |
| `AudioDevice.AudioBackend.FeedAudioStream` | runtime/src/audio_backend.cpp:272-350 | The whole callback loop terminates and delivers the specified samples |
| `AudioDevice.AudioBackend.ResolveStaleDmaFrames` | runtime/src/audio_backend.cpp:415-426 | Splits stale frames into covered and queued and clears the credit |
| `AudioDevice.AudioBackend.ResetGapAccounting` | runtime/src/audio_backend.cpp:428-435 | Drops credit and rebuffering, keeps the queue |
| `PresentationSchedule.GroupIsPlaced` | aurora-main/lib/aurora.cpp:1963-2001 | A scheduled group is shown no earlier than it was placed, all slots shift equally, and it keeps one or two periods off its predecessor |
| `PresentationSchedule.AnchorIsLeast` | aurora-main/lib/aurora.cpp:1975-1988 | No group is delayed for nothing: source time, next grid point, or the predecessor decides |
| `PresentationSchedule.SlotsStayInPeriod` | aurora-main/lib/presentation_schedule.hpp:7-16 | Slot deadlines of a group never decrease and stay within a period of its anchor, a full one only in 30-to-60 mode |
| `PresentationSchedule.SlotsDivideThePeriod` | aurora-main/lib/presentation_schedule.hpp:7-16 | Slots divide the time to the next source frame evenly, to the nanosecond below; a group without inserted frames runs 6.5 ms after the period before; no source time or period means no deadline |
| `PresentationSchedule.DeadlinesNeverGoBack` | aurora-main/lib/aurora.cpp:1959-2001 | Over every uninterrupted run deadlines never decrease across groups, and two coincide exactly where consecutive groups meet at a midpoint |
| `PresentationSchedule.GroupsMeetExactly` | aurora-main/lib/aurora.cpp:1975-1990 | Two consecutive groups share a deadline if and only if the second leaves 30-to-60 mode and, recovered to its grid, is due within one period of the first |
| `PresentationSchedule.LeavingThirtyToSixtyMayTouch` | aurora-main/lib/aurora.cpp:1981-1985 | That exception happens |
| `PresentationSchedule.AnchorsStayOnGrid` | aurora-main/lib/aurora.cpp:1975-2000 | Source times on one display grid give anchors on it, and each slide is exactly its counted whole periods |
| `PresentationSchedule.GroupScheduler.PlaceGroup` | aurora-main/lib/aurora.cpp:1959-2007 | Slides the jobs in place and keeps the cursor as specified |
| `PresentationSchedule.Presenter.EnqueuePresentations` | aurora-main/lib/aurora.cpp:1444-1541 | The queue update with its clears, erasures and overflow drop |
| `PresentationSchedule.QueueStaysBounded` | aurora-main/lib/aurora.cpp:1446-1480 | After an enqueue no queued repeat lies in covered time, a flood never grows the queue past its bound, and an immediate batch stands alone |
| `PresentationSchedule.OlderJobsStayExactly` | aurora-main/lib/aurora.cpp:1446-1541 | Covered repeats go, an immediate job clears the queue, and otherwise the older jobs stay before the batch unless both exceed eight and three times the batch |
| `PresentationSchedule.CoverageIsExact` | aurora-main/lib/aurora.cpp:1462-1470 | Covered time ends at the latest timed producer job, 6.5 ms later for a batch led by a midpoint, and never moves back |
| `PresentationSchedule.NewestGroupSurvives` | aurora-main/lib/aurora.cpp:1478-1538 | A producer group is always queued whole, last and in order |
| `WriteGuard.RegisterKeepsAgreement` | runtime/src/recomp_mod_loader.cpp:359-381 | Registration keeps all three bitmaps equal to the pages the ranges touch, and the fast path off guarded pages |
| `WriteGuard.CoarserScanMissesNothing` | runtime/include/recomp_mod_loader.h:99-146 | A set 4 KiB page shows on both coarser levels over the pages the write covers, also clamped at the end of memory |
| `WriteGuard.GuardNeverMisses` | runtime/include/recomp_mod_loader.h:99-148 | No write that meets a registered range is missed |
| `WriteGuard.HitMeansGuardedPage` | runtime/include/recomp_mod_loader.h:99-148 | A hit means exactly that a covered page holds registered code |
| `WriteGuard.GateIsExact` | runtime/src/recomp_mod_loader.cpp:403-414 | Gating the range search by the bitmaps changes no answer |
| `WriteGuard.AliasesAreGuarded` | runtime/src/recomp_mod_loader.cpp:123-171 | Code registered through any view of MEM1 or MEM2 is guarded through its cached and uncached views |
| `WriteGuard.CachedCodeIsOpenBelow` | runtime/src/recomp_mod_loader.cpp:123-144 | A cached registration leaves the physical bytes writable |
| `WriteGuard.PhysicalViewStaysOpen` | runtime/src/recomp_mod_loader.cpp:123-144 | The physical view is guarded by a registration if and only if the code was registered by its physical address |
| `WriteGuard.EveryRunIsGuarded` | runtime/include/recomp_mod_loader.h:99-148 | After any sequence of registrations the check is the flat scan, exact on pages, and misses no write that meets a registered range |
| `WriteGuard.NoStoreMeetsCodeInAnyRun` | runtime/include/memory_access.h:224-281 | After any sequence of registrations no store given a pointer writes at an address of a registered range |
| `WriteGuard.NoStoreReachesCode` | runtime/include/memory_access.h:224-281 | Nor at the cached or uncached address of code registered through any view of a bank, nor at its physical one if it was registered there |
| `WriteGuardExact.CodeIsGuardedThroughViews` | runtime/src/recomp_mod_loader.cpp:123-171 | Registering code guards each physical byte of it through the cached and the uncached view, whatever view the range names |
| `WriteGuardExact.PhysicalBytesAreGuardedExactly` | runtime/src/recomp_mod_loader.cpp:123-171 | Through the physical view a byte of code is guarded exactly if the range names that view or it was guarded before |
| `WriteGuardExact.OtherRangesHaveNoAliases` | runtime/src/recomp_mod_loader.cpp:123-171 | A range in no view of main RAM is registered as it is, without aliases |
| `WriteGuardExact.NoStoreReachesCodeBytes` | runtime/include/memory_access.h:224-281 | Over every run no store given a pointer reaches a physical byte of registered code through its cached or uncached view, nor through the physical one if registered there |
| `WriteGuardExact.TouchedPagesHoldBytes` | runtime/src/recomp_mod_loader.cpp:76-99 | A range touches a page of any level exactly if it has a byte on it |
| `WriteGuardExact.StoreIsHandedAPointerExactly` | runtime/include/memory_access.h:224-281 | Over every run a store of one to eight bytes inside a 1 MiB page is given a pointer, to its mapped bytes, if and only if they are mapped and its first and last byte are on unguarded pages; the scalar path answers alike |
| `WriteGuardExact.CrossingStoreExactly` | runtime/include/memory_access.h:224-281 | A store across a 1 MiB boundary is given one if and only if the host bytes go on into the next page and its first and last byte are on unguarded pages |
| `WriteGuard.StoreIsMappedAndUnguarded` | runtime/include/memory_access.h:224-281 | A pointer given to a store leads to the mapped bytes themselves, none on a guarded page |
| `WriteGuard.ScalarStoreIsMappedAndUnguarded` | runtime/include/memory_access.h:429-456 | So no native scalar store touches a guarded page |
| `WriteGuard.FirstHitIsARange` | runtime/src/recomp_mod_loader.cpp:173-187 | The range search finds a range exactly when the write meets one |
| `WriteGuardTables.ExecutableWriteGuard.constructor` | runtime/src/memory.cpp:262-284 | Empty bitmaps, and biases taken from the page table |
| `WriteGuardTables.ExecutableWriteGuard.SetPages` | runtime/src/recomp_mod_loader.cpp:76-99 | The marking loop sets exactly the pages a range touches |
| `WriteGuardTables.ExecutableWriteGuard.AddExecutableRange` | runtime/src/recomp_mod_loader.cpp:101-121 | Adds a range once, marks all levels and clears its coarse biases |
| `WriteGuardTables.ExecutableWriteGuard.AddBankAliases` | runtime/src/recomp_mod_loader.cpp:123-171 | Adds the cached and uncached aliases of a range inside one bank view |
| `WriteGuardTables.ExecutableWriteGuard.RefreshFastPathTables` | runtime/src/memory.cpp:286-324 | Rebuilds writable biases and sub-page tables from the bitmaps |
| `WriteGuardTables.ExecutableWriteGuard.RegisterExecutableRange` | runtime/src/recomp_mod_loader.cpp:359-381 | The whole registration |
| `WriteGuardTables.ExecutableWriteGuard.ScanPages` | runtime/include/recomp_mod_loader.h:104-145 | A scan finds a set bit among the covered pages or says there is none |
| `WriteGuardTables.ExecutableWriteGuard.MayHit` | runtime/include/recomp_mod_loader.h:99-148 | The three-level check equals a flat scan of the 4 KiB pages |
| `WriteGuardTables.ExecutableWriteGuard.FindExecutableRange` | runtime/src/recomp_mod_loader.cpp:179-187 | The first registered range the write meets |
| `WriteGuardTables.ExecutableWriteGuard.CheckExecutableWrite` | runtime/src/recomp_mod_loader.cpp:403-414 | A real write is refused exactly for the first registered range it meets |
| `WriteGuardTables.ExecutableWriteGuard.TryGetWritablePointer` | runtime/include/memory_access.h:224-281 | The three-tier pointer lookup |
| `WriteGuardTables.ExecutableWriteGuard.TryWriteGuestScalar` | runtime/include/memory_access.h:429-456 | The scalar fast path with its fallback |
| `GuestWrites.CurrentIffUntouched` | runtime/include/gx_guest_write.h:62-106 | Absent wrap, a stored generation is accepted if and only if no notification since touched a granule of the range |
| `GuestWrites.ViewsAgree` | runtime/include/gx_guest_write.h:18-43 | The physical, cached and uncached addresses of each byte of MEM1 and MEM2 have that byte as their one canonical address |
| `GuestWrites.NotifyBumps` | runtime/include/gx_guest_write.h:81-98 | A notification through any view bumps, by one, exactly the 64 KiB granules from the physical byte it names on; one from outside RAM and above it bumps nothing |
| `GuestWrites.GenerationCounts` | runtime/include/gx_guest_write.h:59-79 | Through any view a range is tracked if its physical bytes end by the end of MEM2, and then sums the counters of their granules |
| `GuestWrites.SkippingIsSound` | runtime/include/gx_guest_write.h:100-106 | While a stored generation is accepted no complete notification wrote a byte of main RAM that the range holds, each through any of the three views |
| `GuestWrites.SkipIsSoundExactly` | runtime/include/gx_guest_write.h:81-106 | A notification makes every range it writes into, through any views, re-digest if and only if it is complete |
| `GuestWrites.UntouchedRangesAreSkipped` | runtime/include/gx_guest_write.h:100-106 | A range is re-digested only after a notification within its 64 KiB granules |
| `GuestWrites.CompleteIsExact` | runtime/include/gx_guest_write.h:18-43 | The complete notifications, by a check on start and length, are exactly those that bump the granule of every RAM byte they write |
| `GuestWrites.NotificationsFromOutsideAreLost` | runtime/include/gx_guest_write.h:81-98 | A notification that starts outside RAM and runs into it bumps nothing, and the skip goes wrong |
| `GuestWrites.Generations.NotifyWrite` | runtime/include/gx_guest_write.h:81-98 | Bumps exactly the granules of the physical bytes behind the address, through any view, cut off at the end of RAM |
| `GuestWrites.Generations.GenerationForRange` | runtime/include/gx_guest_write.h:59-79 | The folded sum of the covered counters, or untracked |
| `CacheWriteback.SmallestCoverIsLeast` | runtime/include/data_cache_writeback.h:10-12 | The smallest cover is inside every aligned cover |
| `CacheWriteback.PublishedIffNoOverflow` | runtime/include/data_cache_writeback.h:10-25 | What is published is the smallest aligned cover if and only if the 32-bit count does not overflow |
| `CacheWriteback.ContainedIsComplete` | runtime/src/memory.cpp:2915-2923 | A write inside one mapped region is a complete notification |
| `CacheWriteback.ConsoleMaps` | runtime/src/memory.cpp:514-607 | Both consoles map memory so that no region mixes views of main RAM |
| `CacheWriteback.BackedRangesArePublished` | runtime/include/data_cache_writeback.h:17-25 | A range that does not overflow or wrap is published at once exactly when its cover lies in one region |
| `CacheWriteback.OverflowPublishesOneLine` | runtime/include/data_cache_writeback.h:10-25 | An overflowing count falls back or publishes one line and claims success |
| `CacheWriteback.OverflowHappens` | runtime/include/data_cache_writeback.h:10-25 | The latter happens |
| `CacheWriteback.FlushForcesRedigest` | projects/meteor/runtime_native/cache_hle.cpp:11-41 | A flush, at once or by the line loop, makes every consumer of every backed byte of its range re-digest, for ever, through whatever views |
| `CacheWriteback.FlushReachesExactly` | runtime/include/data_cache_writeback.h:10-25 | It does so if and only if length and misalignment together are no longer than the address space |
| `CacheWriteback.PublishSdkCacheRange` | projects/meteor/runtime_native/cache_hle.cpp:11-41 | The flush with its fallback loop computes the specified counters and final address |
| `CarryArithmetic.FlagsAreBits` | runtime/src/ppc_helpers.cpp:144-156 | SO, OV and CA are the three highest bits of XER |
| `CarryArithmetic.FlagsAfter` | runtime/src/ppc_helpers.cpp:144-156 | Updating CA, OV and SO sets each as meant and keeps every other bit of XER |
| `CarryArithmetic.AddChainIsExact` | runtime/src/ppc_helpers.cpp:232-266 | addco then addeo over any number of words: the sum modulo 2^(32n), CA the final carry, OV the signed overflow of the whole |
| `CarryArithmetic.SubfChainIsExact` | runtime/src/ppc_helpers.cpp:245-271 | subfco then subfeo, or subfeo alone: the difference less the borrow modulo 2^(32n), CA no borrow, OV the signed overflow of the whole |
| `CarryArithmetic.SignTestIsOverflow` | runtime/src/ppc_helpers.cpp:232-266 | The sign test on the top words is exactly two's-complement overflow of the whole numbers |
| `CarryArithmetic.SummaryOverflowIsSticky` | runtime/src/ppc_helpers.cpp:213-230 | SO ends up set exactly if it was, or if the sum of some leading words does not fit that many words |
| `CarryArithmetic.SummaryOverflowOfDifference` | runtime/src/ppc_helpers.cpp:213-230 | Likewise for a subtraction |
| `CarryArithmetic.LowerWordMaySetSummaryOverflow` | runtime/src/ppc_helpers.cpp:213-230 | So SO may be set although the whole sum fits |
| `CarryArithmetic.Cpu.UpdateCarryAdd` | runtime/src/ppc_helpers.cpp:144-156 | CA becomes the carry out; other bits stay |
| `CarryArithmetic.Cpu.UpdateOverflow` | runtime/src/ppc_helpers.cpp:213-230 | OV follows the overflow, SO only ever rises, CA and every other bit stay |
| `CarryArithmetic.Cpu.Add` | runtime/src/ppc_helpers.cpp:232-243 | The sum modulo 2^32, with OV exactly when the signed sum does not fit and CA the carry out when asked for |
| `CarryArithmetic.Cpu.Subf` | runtime/src/ppc_helpers.cpp:245-262 | The difference less the borrow modulo 2^32, with OV exactly when it does not fit and CA no borrow when asked for |
| `CarryArithmetic.Cpu.Adde` | runtime/src/ppc_helpers.cpp:266 | addeo: result and new carry are the exact sum with the old carry, so words can be chained |
| `CarryArithmetic.Cpu.Subfe` | runtime/src/ppc_helpers.cpp:271 | subfeo: result and new borrow are the exact difference less the old borrow |
| `FiberOwnership.EveryHandleIsOwnedOnce` | runtime/src/fiber_manager.cpp:242-303 | Over every run, with any context running at each step: each live handle is owned once, by map or pending list; none is destroyed twice, while running, or as the scheduler's |
| `FiberOwnership.RunningContextSurvives` | runtime/src/fiber_manager.cpp:27-45 | Over every run no step destroys the context that is running |
| `FiberOwnership.CreatedContextIsOwned` | runtime/src/fiber_manager.cpp:242-303 | In any run an address for which a new context is created owns exactly that one, live and not terminated, whatever it owned before |
| `FiberOwnership.PurgeReapsAllButCurrent` | runtime/src/fiber_manager.cpp:27-45 | A purge destroys every pending context but the running one |
| `FiberOwnership.RetiredContextsAreReaped` | runtime/src/fiber_manager.cpp:27-45 | A context retired while running is destroyed by the first purge from another one |
| `FiberOwnership.GuestFiberManager.PurgePendingFibers` | runtime/src/fiber_manager.cpp:27-45 | The swap-and-reap loop destroys every pending context but the running one, keeping ownership sound |
| `FiberOwnership.GuestFiberManager.CreateGuestFiber` | runtime/src/fiber_manager.cpp:242-303 | Ownership stays sound; the address owns exactly the new context, and what it owned is destroyed or, if running, pending |
| `FiberOwnership.GuestFiberManager.ExitGuestThread` | runtime/src/fiber_manager.cpp:336-358 | Ownership stays sound; the thread is terminated and owns nothing, its context destroyed or, if running, pending |
| `FiberOwnership.GuestFiberManager.RegisterMainThreadAsFiber` | runtime/src/fiber_manager.cpp:532-563 | Ownership stays sound and no context changes owner: the scheduler's is never owned |

## Left out

- Stopping and resizing the frame worker, `g_rendererGpuMutex`, and the body of the FIFO drain, which
  appears here only as its wait for SEALED.
- Weak memory order: critical sections are atomic steps and published flags are seen at once.
- Wrap-around of generations, write counters and 64-bit times: they are unbounded here.
- Graphics, window, telemetry and logging calls; the presenter thread's own waiting.
- FiberProc, SwitchToThread, Shutdown and the operating-system calls around them: the running context is
  an arbitrary parameter of each step instead.
- Host file errors, `fsync`, and the file handling of `Open`: host writes succeed, and an opened image
  has a power-of-two size from 512 KiB to 16 MiB.
- FindByHostAddress and FindNearestByAddress: diagnostics beside the dispatch path.
- Sorting of the overlay by the standard library: modelled as an insertion into sorted order.
- Iteration order of hash maps: any order, with every key visited once.
- AudioDevice.AudioBackend.constructor: streams of more than eight channels, for which the filter clamps
  its channel count and the ring does not.
- AudioDevice.AudioBackend.EnqueueSamples: starting the device once the prebuffer is reached, which is a
  call on the device.
- AudioDevice.AudioBackend.PullChunk: the playback thread's part of a chunk, outside the queue lock, is one
  step with the part inside it.
- Conversion of big-endian stereo input and of paced or repeated DMA blocks: easy members.
- WriteGuardTables.ExecutableWriteGuard.RegisterExecutableRange: the fallback name of an unnamed range and
  the host page protections.
- Deferred reads and the readable fast path, which the write path does not consult.
- HandleExecutableWrite's exemption for the base module loader: it reads the processor state and the range
  name, and only drops a report.
- CacheWriteback.Contains: the page table in front of the region list, which answers yes only for bytes of
  one region.
- WriteGuard.GateIsExact: writes of length zero, which the bitmap check never reports.
- CarryArithmetic.Cpu.Add: the wrappers for addo, addmeo and addzeo are this member with fixed arguments.
- CarryArithmetic.Cpu.Subf: likewise for subfo, subfmeo, subfzeo and nego.
- RegisterGuard.PpcNonvolatileFprGuard.constructor: a missing processor context, for which the guard does
  nothing; the general-purpose guard, which is the same without a mask.
- String loads and stores, multiplication, division, paired singles and floating point: easy members or
  bodies that are not shown.
- Tracing in the dynamic module registry, and the test hook that resets its generations.
