# A model of the smallishtalk virtual machine

smallishtalk is a Smalltalk virtual machine written in Rust: tagged words, a moving two-generation collector, frames that
overlap inside a growable stack object, an unwinder that runs ensure blocks, green threads on intrusive queues, two layers of
method caches, an image format, and a few primitives and codecs. This project models those parts in Dafny and proves what they
are for. Code that works in place is modelled by classes, arrays and loops (`Collector`, `Interpreter`, `Scheduler`,
`LookupCaches`, `ImageLoader`, `BitBlt`, `ChunkChecksum`, `StreamChecksum`, `Png`), each method proved against a specification
on values; the theorems are about those specifications.

- **Collector.** Memory is a map from header addresses, in words, to objects or forwarding words. Scavenger and compactor run
  phase by phase over it (`Collector`). `Scavenge`, `ScavengeSteps` and `ScavengeResult` hold the invariant of a scavenge and
  what it has done at the end; `Compaction` and `CompactionResult` do the same for the sliding compactor, `CompactionExact` says
  exactly when its slide destroys nothing; `Renaming` says what preserving the graph means; `Mutator` and `HeapSteps` are the
  program's side, up to the theorem over whole runs, `HeapSteps.RememberedAlways`; `OldReferences` is about dead old objects.
- **Frames.** `Frames` is the machine as the interpreter sees it, words in one growable stack. `Activations` adds the ghost
  history that tells activations apart, `Unwinder` what every operation keeps, `UnwindRuns` and `FrameRuns` the theorems over
  runs, `Interpreter` the operations as they update registers and stack.
- **Scheduler.** `Scheduling` is the state machine on queues as sequences, `Timers` the requests for a signal, `Scheduler` the
  intrusive links that refine them.
- **Method caches.** `MethodLookup` is the superclass walk, `LookupCaches` the caches in front of it; `CacheSteps` and
  `CacheRuns` say over whole runs, saves and loads included, which send sites are up to date.
- **Images.** `ObjectFormat` lays objects out in words, `ImageRelocation` moves them, `ImageFile` is the file,
  `ImageLoader` writes and reads it, `ImageGraph` says that the graph survives, `ImageRoundTrip` puts all of this together, and
  `ImageSource` shows that what a snapshot's collections leave is what an image can be written from.
- **Primitives and codecs.** `BitBlt`, `SmallIntegers`, `Png` with `ChunkChecksum` and `StreamChecksum`, `Codec`.

## Where code and promise differ

The code is modelled as it is. Where it does not do what its documents promise, the exact condition is proved.

- The plan of a compaction advances by the overflow word twice (src/gc.rs:305, src/heap.rs:267-270). The slide destroys no
  object still to be moved and ends below the old top exactly under `CompactionResult.RoomForOverflow`, a condition on live
  words, overflow words and dead words (`CompactionExact.SlidesIff`); under it the graph is preserved and what was moved is a
  heap in order (`Collector.Collector.CompactOld`). `CompactionExact.OverflowOverwrites` is a heap in order on which a live object is
  destroyed. `Compaction.NeverRightIff` and `Compaction.GapFreeIff` say exactly when nothing moves right and when no gap is left.
- Installing a method registers its own send-site table only (src/vm.rs:504-508), so sites of nested blocks are never flushed.
  `MethodLookup.StaleIff` says exactly when such a site goes stale, `MethodLookup.StaleSite` is one that does.
- By design the inline caches saved in an image remain valid when it is loaded. A load registers the tables of all
  methods and blocks as they were saved (src/image.rs:139-145), stale ones too. `CacheRuns.LoadCoherentOverRuns` says exactly
  which installs before the save break it, `CacheRuns.StaleAfterLoad` is an input.
- `transferTo:` does not unlink its target (src/prims.rs:1174-1182): `Scheduling.TransferOkIff`, and
  `Scheduling.TransferQueued` for an input.
- An ensure method with more than 251 frame slots has its block run inside its own frame: `Unwinder.EnsureSlotsIff`, and
  `Unwinder.WideEnsure` for an input.
- A home offset that is no frame base can fool the serial test of a non-local return (src/interp.rs:1060-1070):
  `FrameRuns.NlrPromiseIff` says exactly when, `FrameRuns.StrayHome` is an input.
- The length of an IDAT chunk is truncated to 32 bits (src/png.rs:54), which the arithmetic on width and height does not rule
  out: `Png.RoundTrip`, and `Png.TooTall` for an input.

## Model

| member | source | states |
|---|---|---|
| `Collector.Collector.Bare` | src/vm.rs:147-166 | a machine starts with nil, true and false as the first objects of old space, in order |
| `Collector.Collector.Copy` | src/gc.rs:170-221 | copies one young object, to old space when its age reaches the threshold and it fits there, else to to-space, ages it, and leaves a forwarding word; everything else stays |
| `Collector.Collector.Forward` | src/gc.rs:153-221 | a young reference becomes the address of its one copy, made now or earlier; the invariant of a scavenge holds again, and whatever was copied is queued |
| `Collector.Collector.ForwardRoots` | src/gc.rs:48-82 | every root and the running process are replaced by their forwards, and all copies are queued |
| `Collector.Collector.ScanRunningStack` | src/gc.rs:84-103 | after it the running stack has no young reference left, wherever it lives; an old one is listed for rechecking |
| `Collector.Collector.ScanBuffer` | src/gc.rs:105-111 | after it no buffered old object has a reference into from-space |
| `Collector.Collector.Drain` | src/gc.rs:113-116 | the work loop ends, with every copy scanned and nothing else changed but further copies |
| `Collector.Collector.ScanObject` | src/gc.rs:224-237 | all slots of a pointer object are forwarded, byte objects are left alone |
| `Collector.Collector.Rebuild` | src/gc.rs:122-143 | an object to be rechecked ends up remembered, and buffered once, exactly when it still refers to a young object |
| `Collector.Collector.Trace` | src/gc.rs:48-116 | every object that can be reached has been copied or scanned |
| `Collector.Collector.CollectYoung` | src/gc.rs:28-147 | a scavenge ends in a heap that is in order, is a renaming of what could be reached before, conserves words, and empties young space when everything may be tenured and fits |
| `Collector.Collector.ObjectPointsYoung` | src/gc.rs:426-436 | true exactly when some slot refers to a young object |
| `Scavenge.RoomToCopy` | src/gc.rs:191-207 | whenever an object is about to be copied there is room for it in to-space: what was copied and what is about to be never exceed what from-space holds |
| `Scavenge.CopyOutKeeps` | src/gc.rs:170-221 | copying one object keeps the invariant of a scavenge |
| `Scavenge.CopyOutConserves` | src/heap.rs:133-140 | the words of a copy are charged to exactly one space, so words copied equal words allocated |
| `Scavenge.NoForwardingChains` | src/gc.rs:160-169 | a forward is final: forwarding it again gives the same address |
| `ScavengeSteps.SlotQueue` | src/gc.rs:224-237 | forwarding one slot leaves every unscanned copy on the work list |
| `ScavengeResult.AllSaved` | src/gc.rs:48-116 | once nothing is left to scan, everything that could be reached before has an image whose slots are its old slots, forwarded |
| `ScavengeResult.ScavengeRenames` | src/gc.rs:28-147 | class, hash, format, size, bytes, immutable and pinned bits and every slot up to forwarding are those of before, distinct objects stay distinct, no word is lost or used twice |
| `ScavengeResult.ScavengeKeepsHeapOk` | src/gc.rs:118-143 | afterwards nothing overlaps or dangles, nothing is marked, and every old object with a young reference is remembered or the running stack |
| `ScavengeResult.EndTotals` | src/gc.rs:191-207 | the words copied never exceed from-space use; with everything tenured to-space stays empty |
| `Renaming.ScavengePreserves` | src/gc.rs:28-147 | a scavenge preserves the graph the program sees |
| `Renaming.PreservesAlive` | src/gc.rs:153-221 | forwarding is a bijection from the objects alive before to the objects alive after |
| `Renaming.PreservesTrans` | src/gc.rs:245-256 | two collections in a row preserve the graph |
| `Collector.Collector.MarkValue` | src/gc.rs:410-424 | marks and stacks the object unless it is marked; unmarked objects and stack entries together do not grow, so marking ends |
| `Collector.Collector.Mark` | src/gc.rs:259-285 | exactly the objects alive are marked, in both generations, and nothing else changes |
| `Collector.Collector.Walk` | src/heap.rs:285-293 | the walk lists exactly the objects of a gap-free space in ascending order, overflow words included |
| `Collector.Collector.ComputeForwarding` | src/gc.rs:287-306 | the marked objects, in order, get the addresses the sliding plan assigns, with the overflow word counted as the code counts it |
| `Collector.Collector.FixAll` | src/gc.rs:346-368 | every slot of a marked object goes through the forwarding table, once |
| `Collector.Collector.Slide` | src/gc.rs:370-387 | each object is copied to its target in ascending order and unmarked, and the store buffer rebuilt; the answer is false when an object was written over before its turn, which its missing mark shows |
| `Collector.Collector.Truncate` | src/gc.rs:395-406 | the new top is where the plan ended and nothing is left above it |
| `Collector.Collector.CompactOld` | src/gc.rs:257-406 | every object arrives, and the new top is not above the old one, exactly under `RoomForOverflow`; then the graph is preserved, old objects keep their order, what was moved together with young space is a heap in order, and it is free of gaps, with nothing left behind in them, exactly when no live old object has an overflow word |
| `Collector.Collector.CollectOld` | src/gc.rs:245-408 | after the scavenge every object arrives at its target exactly when the heap the scavenge leaves has room for its overflow words, and then the two together preserve the graph; without live overflow words that are old or about to be tenured there is always room, and the heap is in order and gap-free afterwards |
| `Compaction.MarkComplete` | src/gc.rs:275-285 | when the mark stack is empty exactly the live objects are marked |
| `Compaction.NeverRightIff` | src/gc.rs:295-306 | as written, no object moves right exactly when every live object has at least as many dead words below it as there are live overflow words before it |
| `Compaction.GapFreeIff` | src/gc.rs:295-306 | as written, the slid objects leave no gap exactly when none has an overflow word |
| `Compaction.MissesIff` | src/gc.rs:295-306 | the target of one object misses another exactly when, in live words, overflow words and dead words, it ends before that one starts or starts after it ends |
| `CompactionResult.RoomIff` | src/gc.rs:295-387 | the planned slide touches no object still to be moved and ends below the old top exactly when there is room for the overflow words counted twice |
| `CompactionExact.SlidesIff` | src/gc.rs:287-406 | the move loop gets to its end with every object intact when its turn comes, and the new top is not above the old one, exactly when the heap has `RoomForOverflow` |
| `CompactionExact.SlideNext` | src/gc.rs:370-387 | when the turn of an object comes it is intact if its header still carries a mark, and otherwise it is gone |
| `CompactionExact.OverflowOverwrites` | src/gc.rs:295-387 | a heap in order, all its objects roots, on which moving the third object destroys the fourth before that has moved |
| `Compaction.PlanClears` | src/gc.rs:370-387 | the target of an object that does not move right never touches an object still to be moved |
| `Compaction.PlanApart` | src/gc.rs:295-306 | targets lie in old space and do not overlap |
| `CompactionResult.CompactEnds` | src/gc.rs:257-406 | the finished compaction preserves the graph and the order of old objects; with enough dead words below them none moves right, and without overflow words each lands right after the live words below it; what was moved is a heap in order, gap-free exactly without live overflow words |
| `CompactionResult.CompactKeeps` | src/gc.rs:370-406 | what was moved and young space are a heap in order with the same graph, gap-free exactly when nothing moved has an overflow word |
| `CompactionResult.LivePrefixStays` | src/gc.rs:287-306 | a fully live prefix of old space, that is nil, true and false, stays in place |
| `CompactionResult.NoOverflowRoom` | src/gc.rs:287-306 | without live overflow words the room a compaction needs is always there, and nothing moves right |
| `CompactionResult.CompactInjective` | src/gc.rs:308-356 | distinct live objects get distinct addresses |
| `Collector.Collector.WriteBarrier` | src/vm.rs:363-373 | an old object that is given a young reference becomes remembered and buffered, once |
| `Collector.Collector.StoreSlot` | src/vm.rs:377-381 | a barriered store changes the slot and keeps the heap in order |
| `Collector.Collector.PutStack` | src/interp.rs:113-115 | a store into the running stack skips the barrier and keeps the heap in order |
| `Collector.Collector.TransferTo` | src/interp.rs:154-180 | a process switch remembers the outgoing stack, tells the scheduler and keeps the heap in order |
| `Collector.Collector.AllocSlots` | src/heap.rs:368-442 | an allocation succeeds exactly when its space has room and adds one nil-filled object; a large one goes to old space |
| `Collector.Collector.GrowStack` | src/interp.rs:910-947 | growing the running stack keeps its words, gives at least the slots needed, takes over its exemption from the barrier, or fails without effect |
| `Mutator.StoreKeeps` | src/vm.rs:363-381 | a barriered store keeps the invariant |
| `Mutator.PutKeeps` | src/interp.rs:113-115 | an unbarriered store into the running stack keeps it |
| `Mutator.TransferKeeps` | src/interp.rs:154-180 | remembering the outgoing stack and switching keeps it |
| `Mutator.AllocKeeps` | src/heap.rs:413-486 | allocating keeps it |
| `Mutator.GrowKeeps` | src/interp.rs:910-947 | replacing the running stack keeps it |
| `Mutator.DropStackKeeps` | src/vm.rs:694-747 | letting go of a stack keeps it |
| `HeapSteps.RunKeeps` | src/gc.rs:84-143 | over any run of stores, switches, allocations, stack growths, scavenges and compactions of a gap-free old space, overflow words or not, the heap stays in order |
| `HeapSteps.RememberedAlways` | src/vm.rs:363-381 | after any such run every reachable old object with a young reference, but for the running stack, is remembered and in the store buffer exactly once, and none is marked |
| `HeapSteps.FullCollection` | src/gc.rs:245-408 | a full collection preserves the graph |
| `HeapSteps.CompactStepKeeps` | src/gc.rs:257-406 | a compaction keeps the heap in order and leaves old space gap-free exactly when it finds no live overflow word there |
| `OldReferences.OldNamesAlways` | src/gc.rs:84-143 | over any run in which the running stack is a stack, every old object that is no stack, dead or alive, refers to old objects that are there or is in the store buffer |
| `OldReferences.BareNames` | src/vm.rs:147-166 | and so it is on a machine that starts |
| `HeapWalk.WalkStep` | src/heap.rs:285-293 | from the end of one object the walk finds the next and comes to its end |
| `StackSizes.NewSize` | src/interp.rs:911-915 | the size is doubled at least once and until what is needed fits |
| `ObjectMemory.ReachableWithin` | src/gc.rs:113-116 | what can be reached lies in every set that holds the roots and is closed under references |
| `Interpreter.Interpreter.Spawn` | src/vm.rs:694-747 | a new process has one well-formed frame with the receiver and the arguments in its first slots |
| `Interpreter.Interpreter.BumpSerial` | src/interp.rs:857-866 | serials count up and start again at 1, never 0 |
| `Interpreter.Interpreter.NilFrame` | src/interp.rs:898-904 | the current frame is cleared and nothing else |
| `Interpreter.Interpreter.GrowStack` | src/interp.rs:910-925 | the stack grows by doubling within its limit and keeps its words, or fails without effect |
| `Interpreter.Interpreter.PushFrame` | src/interp.rs:795-855 | lays the frame of the callee over the staged arguments: caller, return information, method, flags with the next serial, temporaries nil; grows the stack if it must, or overflows |
| `Interpreter.Interpreter.DoReturn` | src/interp.rs:869-893 | pops to the caller and stores the value in its destination slot, ends the process at the base frame, or resumes the unwind an ensure block interrupted |
| `Interpreter.Interpreter.UnwindAndReturnFrom` | src/interp.rs:1103-1143 | pops to the target and returns there, or stops at the first armed ensure frame and runs its block, as the unwinder specification says |
| `Interpreter.Interpreter.RunEnsureBlock` | src/interp.rs:1151-1203 | disarms the ensure frame, stores the pending unwind in it and activates its block above it |
| `Interpreter.Interpreter.ContinueUnwind` | src/interp.rs:1204-1235 | the return of an ensure block resumes the unwind stored in the ensure frame, if its target is still that activation; what the block answers is dropped |
| `Interpreter.Interpreter.DoNlr` | src/interp.rs:1051-1098 | goes to the home activation if the serial test finds it alive, else sends the error or fails |
| `Interpreter.Interpreter.DoMkClosure` | src/interp.rs:997-1047 | a closure records home process, offset and serial; inside a block it takes them from the enclosing closure |
| `Interpreter.Interpreter.UnwindTo` | src/prims.rs:1522-1539 | unwinds when the target lies on the chain and answers false otherwise |
| `Frames.FlagsWordReads` | src/interp.rs:795-855 | the four flags and the serial packed in a frame word read back |
| `Frames.SerialDistinct` | src/interp.rs:857-866 | within fewer than 2^30 - 1 pushes two serials are equal exactly when the activations are |
| `Unwinder.PushKeeps` | src/interp.rs:795-855 | a push adds one well-formed frame and changes no word below it, or reports stack overflow |
| `Unwinder.ResumeKeeps` | src/interp.rs:869-893 | a return to a caller changes one word below the callee: the destination slot |
| `Unwinder.ScanKeeps` | src/interp.rs:1103-1143 | the scan stops at the target or at an armed ensure frame above it, never anywhere else, and leaves what is below alone |
| `Unwinder.EnsureKeeps` | src/interp.rs:1151-1203 | activating an ensure block keeps the frames in order and the pending unwind where it can be found |
| `Unwinder.EnsureSlotsIff` | src/interp.rs:1180-1200 | the block runs above the slots of the ensure method exactly when that method has at most 251 frame slots |
| `Unwinder.WideEnsure` | src/interp.rs:1180-1200 | an input on which it does not: with 252 slots the frame of the block is laid over the ensure frame itself |
| `Unwinder.PendingReads` | src/interp.rs:1204-1235 | a finished ensure block finds an unwind whose target is an activation still on the stack |
| `Unwinder.UnwindKeeps` | src/interp.rs:1103-1235 | an unwind to a frame on the chain never meets a fatal error of the unwinder |
| `Unwinder.ReturnKeeps` | src/interp.rs:869-893 | nor does a return |
| `UnwindRuns.BlockReturnResumes` | src/interp.rs:1204-1235 | when the block of an intercepted unwind returns, the pending unwind goes on, whatever the block answers |
| `UnwindRuns.RoundResumes` | src/interp.rs:1151-1235 | while an ensure block ran, its frame kept target, serial and value of the pending unwind |
| `UnwindRuns.RoundArmed` | src/interp.rs:1103-1203 | after a round the armed frames above the target are those that were below the one that ran |
| `UnwindRuns.EveryArmedBlockOnce` | src/interp.rs:1103-1235 | an unwind in which each activated block returns activates exactly the armed ensure blocks strictly above its target, innermost first, once each; then the target, untouched, returns the value |
| `FrameRuns.StepKeeps` | src/interp.rs:795-1235 | every step keeps the frames in order and everything below the surviving ones, or fails for want of stack, for an ensure block with arguments, or for a dead home in a base frame |
| `FrameRuns.FramesIsolated` | src/interp.rs:795-947 | while an activation is on the stack no step changes a word below its slots, but for the states of handler frames |
| `FrameRuns.ReturnRestores` | src/interp.rs:795-893 | from a push to its matching return, frame, pc and method of the caller are restored, the destination slot holds the value, and every other word below the callee is as before but for handler states |
| `FrameRuns.StepsRan` | src/interp.rs:795-1235 | steps of the process from the activation of a block until it is on top again are a run of that block in the sense of a whole unwind |
| `FrameRuns.StepsRound` | src/interp.rs:1103-1203 | an interception followed by such steps is one round of a whole unwind |
| `FrameRuns.SerialTestIff` | src/interp.rs:1051-1098 | for a frame base on the chain the serial test succeeds exactly when the frame is the home activation |
| `FrameRuns.NlrFindsHome` | src/interp.rs:1051-1098 | a non-local return whose home is on the chain goes to exactly that activation and meets no fatal error |
| `FrameRuns.PassingUnwindReplaces` | src/interp.rs:1151-1235 | an unwind started in an ensure block that passes its ensure frame replaces the one pending there |
| `FrameRuns.NlrPromiseIff` | src/interp.rs:1051-1098 | within the window of serials a non-local return does what it is for (goes to its home activation if that is on the stack, else reports that it cannot return) exactly when no SmallInteger carrying the serial of the home stands where the flags of the home were, its offset being no frame base |
| `FrameRuns.StrayHome` | src/interp.rs:1060-1085 | an input on which it does not: a well-formed stack whose slot 4 holds such a SmallInteger; the dead home passes the test and the unwinder fails |
| `Scheduler.Scheduler.Idle` | src/vm.rs:234-263 | empty queues and one running process are in order, and nothing outranks it |
| `Scheduler.Scheduler.NewProcess` | src/vm.rs:694-747 | a new process is suspended, on no queue, and changes nothing else |
| `Scheduler.Scheduler.EnqueueProcess` | src/prims.rs:1018-1032 | appends to the queue and to no other, keeping heads, tails and back links |
| `Scheduler.Scheduler.DequeueProcess` | src/prims.rs:1034-1049 | takes the first process of the queue, or nothing from an empty one |
| `Scheduler.Scheduler.RemoveFromItsList` | src/prims.rs:1060-1088 | takes the process out of whatever queue holds it, keeping the order of the others |
| `Scheduler.Scheduler.MakeRunnable` | src/prims.rs:1090-1095 | appends to the run queue of its priority |
| `Scheduler.Scheduler.TakeNextRunnable` | src/prims.rs:1097-1106 | takes the head of the highest non-empty run queue |
| `Scheduler.Scheduler.RunnableCeiling` | src/prims.rs:1108-1118 | the highest priority with a runnable process |
| `Scheduler.Scheduler.ServiceTimers` | src/prims.rs:1146-1161 | exactly the timers due at the reading of the clock signal, in order, and the others stay |
| `Scheduler.Scheduler.PickNextOrWait` | src/prims.rs:1123-1143 | the next process is the one taken after the signals of the timers that came due while none was runnable, each once and none early; without process and timer it is a deadlock |
| `Scheduler.Scheduler.SemaphoreSignalInternal` | src/prims.rs:1164-1172 | wakes the first waiter without preemption, else adds an excess signal |
| `Scheduler.Scheduler.SemaphoreWait` | src/prims.rs:1184-1203 | takes an excess signal, or appends the process to the waiters and switches |
| `Scheduler.Scheduler.SemaphoreSignal` | src/prims.rs:1205-1225 | wakes the first waiter, which runs at once if its priority is higher, else adds an excess signal |
| `Scheduler.Scheduler.Yield` | src/prims.rs:1227-1238 | the process goes to the end of its run queue and the highest runs |
| `Scheduler.Scheduler.Resume` | src/prims.rs:1240-1258 | succeeds exactly for a live process that is not running and on no queue; a higher one runs at once |
| `Scheduler.Scheduler.Suspend` | src/prims.rs:1260-1273 | the running process gives way, any other leaves its queue, waiters included |
| `Scheduler.Scheduler.TerminateOther` | src/prims.rs:1347-1387 | the process leaves its queue and becomes runnable to unwind itself |
| `Scheduler.Scheduler.TransferTo` | src/prims.rs:1174-1182 | switches to a live target that is on no queue |
| `Scheduler.Scheduler.ServiceSafepoint` | src/interp.rs:973-993 | due timers signal, then a runnable process of higher priority takes over |
| `Scheduler.Scheduler.BaseFrameReturned` | src/interp.rs:514-527 | the process ends and another runs |
| `Scheduler.Scheduler.SignalAt` | src/prims.rs:71-85 | adds the request of a semaphore for a deadline, and fails for what is none |
| `Timers.FiredMore` | src/prims.rs:1123-1161 | polling the timers again fires exactly those due since, each once |
| `Scheduling.TakeNextIs` | src/prims.rs:1097-1106 | the process taken is the head of the highest non-empty queue |
| `Scheduling.StepOk` | src/prims.rs:1018-1387 | every completed step keeps all queues disjoint, duplicate-free and without the active process, and excess counts in order |
| `Scheduling.TransferOkIff` | src/prims.rs:1174-1182 | a direct transfer keeps the queues in order exactly when its target is on none |
| `Scheduling.PickingTop` | src/prims.rs:1123-1273 | after a step that picks the next process its priority is the highest of all runnable ones |
| `Scheduling.StepTop` | src/prims.rs:1184-1273 | apart from direct transfers and terminations the active priority stays at least that of every runnable process |
| `Scheduling.RunTop` | src/prims.rs:1184-1273 | so it does over any run of such steps |
| `Scheduling.StepConserves` | src/prims.rs:1060-1225 | one step accounts for every signal: excess, waits that went through, waiters woken |
| `Scheduling.RunConserves` | src/prims.rs:1060-1225 | over any run initial excess plus signals equals final excess plus immediate waits plus waiters woken; excess is never negative and positive only without waiters |
| `Scheduling.TransferQueued` | src/prims.rs:1174-1182 | an input on which a transfer does not: the target runs and is still on its run queue |
| `Scheduling.StepWaiters` | src/prims.rs:1018-1387 | one step accounts for every waiter: blocked, woken, or taken off by suspension or termination |
| `Scheduling.RunWaiters` | src/prims.rs:1018-1387 | over any run the first waiters and the waits that blocked equal the waiters woken, those suspended or terminated, and those still on the queue |
| `Scheduling.StepFixes` | src/prims.rs:1008-1010 | no step changes a priority |
| `LookupCaches.LookupCaches.constructor` | src/image.rs:159-194 | a loaded machine starts with an empty global cache, the sites as saved and the tables of all methods and blocks of the image registered; its caches are coherent exactly when every registered site holds nothing or what the slow lookup finds |
| `LookupCaches.LookupCaches.MDictLookup` | src/vm.rs:445-455 | finds the method of the first entry under a selector, and nothing exactly when there is none |
| `LookupCaches.LookupCaches.LookupMethod` | src/vm.rs:413-432 | the walk finds the nearest definition up the superclass chain |
| `LookupCaches.LookupCaches.LookupMethodAbove` | src/vm.rs:435-443 | the walk that starts above the given class |
| `LookupCaches.LookupCaches.LookupCached` | src/interp.rs:705-724 | the global cache answers what the walk would; what is found replaces the entry |
| `LookupCaches.LookupCaches.LookupAtSite` | src/interp.rs:655-702 | a hit answers the cached method, a miss what the slow lookup finds, and fills the site with it; at a fresh site, and so at any registered one of coherent caches, the answer is that of the slow lookup |
| `LookupCaches.LookupCaches.FlushCaches` | src/vm.rs:514-530 | empties the global cache and every registered site, and no other site |
| `LookupCaches.LookupCaches.InstallMethod` | src/vm.rs:459-510 | the class has the method, its own site table is registered, and no cache or registered site answers anything stale afterwards, whatever they held before |
| `LookupCaches.LookupCaches.NewClass` | src/vm.rs:549-556 | a new class leaves the caches coherent |
| `LookupCaches.LookupCaches.RegisterClass` | src/vm.rs:534-542 | the class gets the next index, and the flush leaves the caches coherent, whatever they held before |
| `LookupCaches.LookupCaches.Collected` | src/gc.rs:39-47 | a collection empties the global cache and keeps sites coherent |
| `MethodLookup.LookupAboveWalks` | src/vm.rs:435-443 | looking up by the index of the superclass is walking from the superclass |
| `MethodLookup.FindIs` | src/vm.rs:445-455 | a dictionary lookup answers the value of the first entry under the selector, and nothing exactly when there is none |
| `MethodLookup.FindInstalled` | src/vm.rs:459-496 | an installed method is found under its selector, everything else as before, whether overwritten or appended |
| `MethodLookup.WalkInstalled` | src/vm.rs:459-496 | an install changes exactly the lookups of its selector that come to its class |
| `MethodLookup.StaleIff` | src/vm.rs:498-510 | a site that is not flushed goes stale exactly when its own lookup comes to the class of the install and finds another method there |
| `MethodLookup.StaleSite` | src/vm.rs:498-510 | an input on which one does |
| `MethodLookup.NewClassCoherent` | src/vm.rs:549-556 | a new class below a registered one needs no flush |
| `MethodLookup.FlushedCoherent` | src/vm.rs:514-530 | empty caches are coherent |
| `CacheSteps.StepSite` | src/vm.rs:498-556 | any one step of the machine leaves a site fresh exactly when it flushes or fills it or installs again what it holds, or the site was fresh and no install that its lookup comes to changed the method there |
| `CacheRuns.FreshIff` | src/vm.rs:498-530 | over any run, saves and loads included, a site is fresh exactly when every install that made it stale was followed by a step that mended it |
| `CacheRuns.LoadedCoherentIff` | src/image.rs:139-194 | with an empty global cache the caches are coherent exactly when every registered site is fresh |
| `CacheRuns.LoadCoherentOverRuns` | src/image.rs:139-194 | a machine loaded from an image is coherent exactly when, for each site the load registers, every install before the save that made it stale was followed by a step that mended it |
| `CacheRuns.StaleAfterLoad` | src/image.rs:139-145 | an input on which it is not: the stale site of a block, out of reach before the save, is registered and stale after the load |
| `ObjectFormat.ValueRoundTrip` | src/value.rs:27-67 | a tagged word gives back its SmallInteger or pointer, and the tags tell them apart |
| `ObjectFormat.HeaderReads` | src/heap.rs:20-84 | class index, hash, slot count, format and collector bits of a header read back |
| `ObjectFormat.LowBitIsMark` | src/gc.rs:160-169 | a header is odd exactly when it is marked and a forwarding word always is, so the test in the scavenger is unambiguous when no mark is left |
| `ObjectFormat.ObjectRoundTrip` | src/heap.rs:243-309 | an object laid out in memory, overflow-sized or not, reads back |
| `ObjectFormat.WalkLayout` | src/heap.rs:285-293 | the walk over laid-out objects visits exactly their headers, in order |
| `ImageRelocation.WordShift` | src/image.rs:127-138 | relocating a word shifts a pointer and leaves an integer |
| `ImageRelocation.RelocateObject` | src/image.rs:122-138 | relocating an object shifts its pointer slots by the delta, clears mark and remembered bits, and touches nothing else, byte bodies included |
| `ImageRelocation.RelocateNext` | src/image.rs:119-152 | so does the pass, object by object |
| `ImageRelocation.RelocatedShape` | src/image.rs:119-152 | every pointer to an object leads to the same object as before; dead words may hold anything |
| `ImageRelocation.SiteTablesShift` | src/image.rs:139-145 | the send-site tables found after the move are those of before |
| `ImageRelocation.SymbolsShift` | src/image.rs:146-149 | and so are the symbols |
| `ImageLoader.AllocArray` | src/image.rs:33-54 | an array is added at the top of old space, or there is no room for it |
| `ImageLoader.WriteImage` | src/image.rs:33-80 | the file holds the header and the words of old space with class list and special objects; it fails exactly for want of room or an active process outside old space |
| `ImageLoader.WalkRegion` | src/heap.rs:285-293 | the loop lists the headers in address order |
| `ImageLoader.RelocateInPlace` | src/image.rs:122-138 | the loop relocates one object in place |
| `ImageLoader.Collect` | src/image.rs:139-151 | what one object adds to the registries |
| `ImageLoader.RelocateAll` | src/image.rs:119-152 | one pass relocates everything and collects tables and symbols, though some headers it looks at are relocated and some are not |
| `ImageLoader.LoadImage` | src/image.rs:85-195 | a bad file is refused with its reason; otherwise the heap, the roots, the active process, the registry and the symbols are those saved, moved |
| `ImageFile.HeaderFields` | src/image.rs:64-98 | the header fields read back |
| `ImageFile.WordsReadBack` | src/image.rs:75-113 | so do the words |
| `ImageGraph.GraphMoves` | src/image.rs:119-152 | moving a heap whose reachable part is closed gives an isomorphic graph: what can be reached at the new base is exactly what could be reached, every address shifted by the delta, although the words of dead objects are relocated modulo 2^64 |
| `ImageSource.OldSpaceSaveable` | src/image.rs:33-80 | the old space of a heap in order with an empty young space, whose old objects other than stacks refer to old objects, can be saved; its layout is the memory itself and its reachable part is closed |
| `ImageSource.SnapshotSaveable` | src/prims.rs:338-362 | so can what the scavenges of a snapshot leave, once they have tenured everything, after any run in which the running stack is a stack |
| `ImageRoundTrip.SaveThenLoad` | src/image.rs:33-195 | saving at one base and loading at another gives the same objects, roots, active process, registry and symbols, shifted, and, when the reachable part was closed, the same graph |
| `BitBlt.PrimBitBlt` | src/prims.rs:745-847 | either every pixel in rectangle, clip and form becomes rule(source as before, old bit) and every other bit stays, and the count is the area; or the primitive fails for the reason it names and nothing changes |
| `BitBlt.BlitRows` | src/prims.rs:799-842 | the rows of the rectangle one after the other make the whole copy, and their counts add up |
| `BitBlt.BlitRow` | src/prims.rs:810-841 | the covered pixels of one row are combined, nothing else changes, and they are counted |
| `BitBlt.BlitPixel` | src/prims.rs:815-840 | one covered pixel is combined with its source sample and no other bit changes |
| `BitBlt.PixelsBlitted` | src/prims.rs:745-847 | pixel by pixel, the destination afterwards is what the rule defines |
| `BitBlt.InBounds` | src/prims.rs:774-793 | a pixel of an accepted form lies in its buffer |
| `BitBlt.CoveredArea` | src/prims.rs:789-842 | the pixels counted are the area of the intersection |
| `BitBlt.WithBitReads` | src/prims.rs:831-837 | setting or clearing a bit changes that bit alone |
| `ChunkChecksum.Crc32` | src/png.rs:9-19 | the bit-serial loop computes the table-driven CRC-32 of the PNG specification |
| `ChunkChecksum.BitwiseIsTable` | src/png.rs:12-17 | eight branch-free steps with the byte mixed in are one table step |
| `StreamChecksum.Adler32` | src/png.rs:22-30 | the running sums are the closed form of Adler-32 |
| `Png.ZlibStored` | src/png.rs:33-51 | the stream of stored blocks, the last one final |
| `Png.BlocksInflate` | src/png.rs:38-49 | stored blocks inflate to what was stored, whatever follows them, so LEN and its complement are right |
| `Png.BlocksPrefix` | src/png.rs:38-49 | no proper prefix of the blocks inflates: only the last block is final |
| `Png.ZlibInflates` | src/png.rs:33-51 | the zlib stream inflates to what was stored and no proper prefix of it inflates at all |
| `Png.Chunk` | src/png.rs:53-61 | length, name, data and checksum are appended |
| `Png.ChunkReads` | src/png.rs:53-61 | a chunk reads back when its length fits 32 bits; else a reader sees a proper prefix of its data at most |
| `Png.RowsUnfilter` | src/png.rs:67-73 | rows with filter 0 read back |
| `Png.EncodeRgb` | src/png.rs:64-84 | the file for every size the arithmetic admits, a panic for the others |
| `Png.TooTall` | src/png.rs:53-84 | an input on which it does not: a picture one pixel wide and 2^30 high is accepted |
| `Png.RoundTrip` | src/png.rs:64-84 | the file reads back as width, height and pixels exactly when the compressed rows take less than 2^32 bytes |
| `SmallIntegers.PrimitiveExact` | src/prims.rs:567-623 | the primitive answers the mathematical result and fails exactly on a zero divisor, a left shift of 63 or more, or a result outside 63 bits |
| `SmallIntegers.BinaryExact` | src/prims.rs:574-618 | what the 64-bit arithmetic computes is the mathematical result |
| `SmallIntegers.OpcodeIsPrimitive` | src/interp.rs:386-432 | the opcode takes its fast path exactly when the primitive answers, with the same value |
| `SmallIntegers.FlooredIsFloor` | src/interp.rs:1279-1287 | quotient and remainder are floored |
| `SmallIntegers.ShiftLeftExact` | src/prims.rs:602-610 | shifting back finds the operand exactly when no bit was lost |
| `SmallIntegers.BitwiseBits` | src/prims.rs:599-601 | and, or and xor work bit by bit in two's complement |
| `SmallIntegers.BitwiseFits` | src/prims.rs:599-601 | their results never leave the width of the operands |
| `SmallIntegers.ResultOnce` | src/prims.rs:567-623 | the mathematical result is unique |
| `Codec.InsnRoundTrip` | src/asm.rs:68-166 | decoding an encoded instruction gives it back |
| `Codec.ProgramRoundTrip` | src/asm.rs:218-227 | disassembling an assembled program gives it back |
| `Codec.EncodersAgree` | st/compiler/Encoder.st:12-105 | the image-side encoder, dispatching on mnemonic keys, produces the word the virtual machine's encoder produces |
| `Codec.BytesForAll` | st/compiler/Encoder.st:113-124 | the bytes of a program, each word lowest byte first, or the error of an unknown mnemonic |
| `Codec.StreamDecodes` | st/compiler/Encoder.st:113-124 | the bytes of any program regroup into the words the virtual machine assembles and decode to that program |

## Left out

- Collector.Collector.CompactOld: answers false where the code goes on with memory destroyed, and says nothing of what then follows. Old space is free of gaps before it, because a walk over the gaps an earlier compaction left reads what is no object.
- Collector.Collector.CollectOld: likewise; in `Swept` the headers left behind in gaps are no objects.
- HeapSteps.RunKeeps: a compaction of a run finds old space free of gaps, for the same reason.
- HeapSteps.RememberedAlways: likewise.
- Collector.Collector.GrowStack: the branch that collects when neither space has room (src/interp.rs:926-935) answers that memory is out instead, because its callers hold Rust locals across it; and the program holds no other reference to the running stack.
- Collector.Collector.Bare: describes nil, true and false; the class objects and special objects built after them are allocations like any other.
- Mutator.GrowKeeps: the program holds no other reference to the stack that is replaced, as the interpreter sees to.
- Mutator.DropStackKeeps: likewise for the stack that is let go.
- Collector.Collector.TransferTo: the scheduler object is a root and no process itself.
- Scheduler.Scheduler.TransferTo: asks for a target on no queue; `Scheduling.TransferOkIff` says what happens otherwise.
- Scheduler.Scheduler.TerminateOther: what the trampoline frame runs is not modelled, nor is a process terminating itself (src/prims.rs:1280-1342).
- LookupCaches.LookupCaches.NewClass: superclass links are fixed afterwards and dictionaries change by installs alone; image code that rewrites those slots is left out.
- ImageLoader.LoadImage: a file with an intact header is taken to be one the writer wrote; the code does not check its contents either.
- ImageSource.OldSpaceSaveable: every object fits the fields of a header, code objects have a send-sites slot, symbols hold bytes.
- ImageSource.SnapshotSaveable: the same, and what a process runs on is an object of the class of stacks, as the interpreter sees to.
- BitBlt.PrimBitBlt: an overflow of the unsigned size computation is a panic, as in a build with overflow checks; a build without them wraps. A byte object passed where a form is expected fails with a wrong type, where the code reads its raw words as slots.
- Png.EncodeRgb: an overflow of 32-bit arithmetic is a panic, as in a build with overflow checks.
- Png.RoundTrip: is about a reader that takes a single IDAT chunk.
- SmallIntegers.PrimitiveExact: the comparisons and the conversions to floats are left out, they would add easy members only.
- Codec.BytesForAll: operands out of range are outside the model; the encoder does not check them either.
- FrameRuns.StepKeeps: a step assumes what the compiler guarantees of its code: operands and destinations are slots of the frame, pushes leave the reserved slots of handler and ensure frames alone, no method is both, offsets handed to the unwinding and handler primitives are frame bases, ensure methods have at most 251 frame slots. A non-local return comes within 2^30 - 2 activations of its home, and no stray word passes for its flags; `FrameRuns.NlrPromiseIff` says that this is needed. A block that loses its enclosing closure from slot 0 is left out.
- FrameRuns.FramesIsolated: makes the same assumptions at each step.
- FrameRuns.ReturnRestores: makes the same assumptions at each step.
- Interpreter.Interpreter.PushFrame: full bytecode dispatch, `doesNotUnderstand:`, `mustBeBoolean` and primitive activation around it are left out.
- Addresses: the frame, scheduler and cache modules name objects by values that do not change; the collector modules say that a collection only renames.
- Direct changes of the active process by `run_rooted` (src/interp.rs:195-230) are left out, as are handle scopes other than as roots.
- Class-table lookups of a receiver's class, argument counts of sends and the activation of what a lookup finds are left out of the cache model.
- Files, windows, standard streams and the clock are parameters: a file is its bytes, the clock any reading that does not go back.
- The end of the process a host call waits for, which ends the run loop instead of choosing another process (src/interp.rs:521-523), is left out.
- Counters, the profiler and its thread, float arithmetic, benchmarks and generators: nothing modelled depends on them.
- Parser, code generator and the image-side image writer: not part of this model.
