# ChenixOS: proofs about its boot code and its ACPI core

The modules model seven parts of the system and prove what those parts are for.

- **Boot memory map** (`MemoryMap`, `SegmentList`): the UEFI memory map (section 7.2 of the UEFI Specification) is
  classified, coalesced and compacted in place, then a linked list is threaded through the memory it describes.
- **Page tables** (`Paging`): the table that the boot loader fills, judged against a hardware walk.
- **Kernel image** (`Elf`, `ElfLayout`, `LittleEndian`): what is read from the file, segment loading and relative
  relocation, and position independence.
- **AML expressions** (`Evaluation`): the walk state with its chunked result stack against a recursive evaluator.
- **ACPI Global Lock** (`GlobalLock`): requester, release-interrupt handler and firmware, interleaved access by access.
- **Control methods** (`ControlMethods`, `OwnerIds`, `Deadlock`, `MethodObjects`): entry and exit by many threads, as a
  state machine and as the code that updates its objects in place; owner IDs; which systems of methods can deadlock.
- **Address spaces** (`RegionLists`, `Scoping`, `AddressSpaces`): the handler cached in each operation region against
  the scoping rule, over an arbitrary finite namespace.
- **General-purpose events** (`Gpe`, `GpeLists`, `GpeNumbering`) and **notify handlers** (`NotifyHandlers`): reference
  counts, masks and shared registers; the nested lists of blocks; numbering; handler round trips.

Each part has the same shape. Values and specification functions come first; the in-place code of the source is a class
or a method on arrays whose contract equates the new state with such a function; lemmas then prove what the source
promises about the function, over all inputs and all runs. C structures are Dafny classes, except in `RegionLists` and
`AddressSpaces`, where each structure is an entry of a map from its object to its fields, so that the intrusive region
lists are threaded through those maps. `MachineWords` has the unsigned types, their wrap-around and bitwise OR;
`Wrappers` and `Sequences` have what the other modules share.

Conventions and assumptions:

- Hardware, firmware, the OS services and allocation appear as parameters (`access`, `clears`, `installs`, `removes`,
  `newOwner`) or as steps of a state machine.
- The FACS word follows section 5.2.10.1 of the ACPI Specification. The default macros that apply when a platform
  defines none (`dep/acpica/include/acpica/platform/acenv.h`) always report the lock as acquired; the model is about the
  handshake of the specification, which those macros leave trivial.
- A release of the Global Lock is made once for every acquire that has returned; semaphore calls succeed.
- A thread's outermost method invocation starts at the level of its method, as `dep/acpica/parser/psparse.c:599-607` sets it.
- The walk of `dep/acpica/namespace/nswalk.c` is written as a recursion over the children of a node.
- Operators of the interpreter are uninterpreted partial functions of their operands and a store, giving a result and a
  new store; a failing operator's effects on the store are not modelled.
- In `Elf`, an access outside the file or the buffer, a division by a zero entry size and a relocation count that the
  32-bit loop counter never reaches are one outcome, `Fault`; the loader requires that it does not occur.

Where the code does not do what its documentation or its shape suggests, the model follows the code and a lemma gives the
exact condition:

- Handlers on processors and thermal zones are honoured by the search upward but not by the walk downward, and the walk
  does not get to regions behind temporary nodes (`InstallKeepsIndex`, `ProcessorIsOvertaken`, `TemporaryIsMissed`).
- The order check of method mutexes does not exclude deadlock. Any thread may call any method. Among methods that take
  part in the order a deadlock can arise exactly if two of them have the same sync level, and in general exactly if two
  methods are `Prone`: the same level, or auto-serialized ones, which the check lets pass, or methods that a name
  collision may still make auto-serialized (`LeveledDeadlockExactly`, `DeadlockExactly`).
- `GlobalLockAcquired` outlives ownership by the last accesses of a release; the pending flag outlives its signal by one
  access of the handler (`AcquiredMeansOwned`, `WakeupsAreCounted`).
- A failing hardware access leaves the run mask changed while the reference count is rolled back (`AddReferenceKeeps`,
  `RemoveReferenceKeeps`); masking, finishing and dispatching ignore some failing accesses (`MaskOnKeeps`,
  `MaskOffKeeps`, `FinishKeeps`, `DispatchKeeps`).
- A descriptor whose interrupt handler the OS has refused stays listed, and a later block is added to it without a
  handler and without an error (`GpeLists.GpeLists.InstallGpeBlock`).
- The 8-bit GPE number of an event yields the right register bit only in blocks that end below 256, which is where the
  objects of `Gpe` are numbered; and the stored numbers of the two FADT blocks collide when GPE1 reaches past 255
  (`RegisterBitIsRight`, `StoredNumbersCollide`).
- The event table of a block is too short for its own loops from 8192 registers on (`TableIsLongEnough`).
- The running sum of the index walk wraps at 2^32, as does the count it is checked against (`AnswersForHolder`,
  `WrappedWalk`).
- A refused installation of a handler for all objects may leave one of its two types installed
  (`NotifyHandlers.GlobalNotify.Install`).
- An unused result that finds no room would take an older one with it, but that needs a result stack that was full
  before the statement; from an empty one it does not happen (`OlderResultsStay`).

## Model

| member | source | states |
|---|---|---|
| `MemoryMap.CleanupMemMap` | kernel/Bootloader/physicalMap.cpp:9-84 | every kept entry is live, for any map at all; for a page-aligned map of non-empty, disjoint, non-wrapping usable entries the result covers exactly the usable memory, stays disjoint and has no two adjacent entries; the restarts at zero terminate |
| `MemoryMap.CleanIsMaximal` | kernel/Bootloader/physicalMap.cpp:29-66 | each entry of the cleaned map is a maximal run of usable pages: the bytes just before and just after it are not usable |
| `MemoryMap.UsableTypes` | kernel/Bootloader/physicalMap.cpp:14-19 | usable memory is that of UEFI types 1, 2, 3, 4 and 7 |
| `MemoryMap.Classify` | kernel/Bootloader/physicalMap.cpp:11-27 | the first loop marks every entry usable or unused, in place |
| `MemoryMap.ClassifiedDescribes` | kernel/Bootloader/physicalMap.cpp:11-27 | marking loses and adds no usable memory |
| `MemoryMap.JoinNeighbour` | kernel/Bootloader/physicalMap.cpp:37-65 | the inner loop joins entry s with one later live neighbour, before or after it, or reports that there is none |
| `MemoryMap.JoinedDescribes` | kernel/Bootloader/physicalMap.cpp:52-64 | a join keeps the described memory and the disjointness |
| `MemoryMap.JoinedSettled` | kernel/Bootloader/physicalMap.cpp:40-64 | a join brings no entry that was already passed back into contact with a later one, so comparing with later entries only is enough |
| `MemoryMap.JoinedKeeps` | kernel/Bootloader/physicalMap.cpp:53-63 | every join shrinks the set of live entries, which is why s-- cannot run for ever, and keeps what the loop has established |
| `MemoryMap.SettledNext` | kernel/Bootloader/physicalMap.cpp:30-66 | an entry without later neighbours is settled for good |
| `MemoryMap.Coalesce` | kernel/Bootloader/physicalMap.cpp:30-66 | with unsigned wrap-around of s-- at zero, the loop ends with all entries settled and the same memory described |
| `MemoryMap.Compact` | kernel/Bootloader/physicalMap.cpp:68-83 | the last phase leaves exactly the entries in use, in their order |
| `MemoryMap.InUsePositions` | kernel/Bootloader/physicalMap.cpp:68-83 | the filter is stable: kept entries come from strictly increasing positions and none in use is missing |
| `MemoryMap.InUseClean` | kernel/Bootloader/physicalMap.cpp:68-83 | dropping unused entries keeps the cleaned map what it is |
| `SegmentList.BuildFromMap` | kernel/Bootloader/physicalMap.cpp:86-126 | cleanup and list building on one map: following next from the result yields exactly the memory usable in the original map, in runs that neither overlap nor touch |
| `SegmentList.CleanIsUsableMemory` | kernel/Bootloader/physicalMap.cpp:29-83 | the extents of a cleaned map are the usable memory of the original |
| `SegmentList.Build` | kernel/Bootloader/physicalMap.cpp:90-125 | from a cleaned map on: the list threaded through memory has the entries in order, null-terminated both ways, and the map read from the same memory is unharmed |
| `SegmentList.AddSegment` | kernel/Bootloader/physicalMap.cpp:96-123 | one entry: its node joins the end of the list and no other node and no descriptor changes |
| `SegmentList.NodeExtendsList` | kernel/Bootloader/physicalMap.cpp:104-121 | writing a node in the page it describes extends a list of earlier nodes |
| `SegmentList.NodeMissesMap` | kernel/Bootloader/physicalMap.cpp:101-121 | no node overwrites the map, because its buffer is not usable memory |
| `SegmentList.ForwardFrom` | kernel/Bootloader/physicalMap.cpp:93-125 | following next from any node yields exactly the remaining extents in order |
| `SegmentList.LinksAreInverse` | kernel/Bootloader/physicalMap.cpp:104-121 | next and prev of neighbouring nodes are inverse pointers |
| `SegmentList.NodeLayout` | kernel/Kernel/include/global/KernelHeader.h:10-16 | the nodes as the kernel reads them: base, page count, next and previous pointer in consecutive words |
| `SegmentList.DescriptorLayout` | dep/gnu-efi/inc/efidef.h:184-191 | the map as firmware stores it: where type, physical start and page count of a descriptor lie |
| `SegmentList.FindTail` | kernel/Bootloader/main.cpp:183-186 | the walk along next ends at the last entry |
| `SegmentList.CleanIsPlaced` | kernel/Bootloader/efiutil.cpp:42 | a map cleaned by CleanupMemMap satisfies what Build needs when its buffer is allocated from memory that is not usable |
| `Paging.Pager.Init` | kernel/Bootloader/paging.cpp:43-71 | the loops fill every word of the 4-level table as specified, set cr3 and the high memory base and hand out the high address of the table |
| `Paging.TableRealisesIntended` | kernel/Bootloader/paging.cpp:48-66 | the hardware walk (section 4.5 of the Intel SDM, Volume 3A) of the table maps every canonical address as intended: identity below 512 GB, the second view at the top, nothing else |
| `Paging.BothViews` | kernel/Bootloader/paging.cpp:73-77 | every physical address below 512 GB is reached both as itself and through ConvertPtr |
| `Paging.WalkThroughPointers` | kernel/Bootloader/paging.cpp:53-59 | from an entry of the page-directory-pointer table the walk reaches the page that row and column name |
| `Paging.LargePageEntry` | kernel/Bootloader/paging.cpp:57-59 | the bit the source names PML1 PAT is the page-size bit of a page-directory entry, so that each one maps 2 MB |
| `Paging.TopEntry` | kernel/Bootloader/paging.cpp:48-51 | slots 0 and 511 point to the one pointer table, all others are not present |
| `Paging.HighMemBaseBits` | kernel/Bootloader/paging.cpp:66 | the shift and OR of the source give the base that ConvertPtr adds |
| `Paging.FlagsAreAdded` | kernel/Bootloader/paging.cpp:9-32 | OR-ing the flag bits into a page-aligned address adds them, which is what every entry of the table needs |
| `Paging.EntrySums` | kernel/Bootloader/paging.cpp:48-59 | the words of a page-aligned table, built by OR, as sums |
| `MachineWords.OrSplits` | kernel/Bootloader/paging.cpp:9-32 | bitwise OR with low bits leaves the high bits alone |
| `Elf.GetELFSize` | kernel/Bootloader/ELF.cpp:5-23 | the largest end of a loaded segment, attained, with 64-bit wrap-around |
| `Elf.PrepareELF` | kernel/Bootloader/ELF.cpp:65-142 | the buffer, the result and the entry point are those of the specification run, for every image whose run makes no access outside file or buffer |
| `Elf.PrepareOne` | kernel/Bootloader/ELF.cpp:70-138 | one program header: a segment loaded, an image linked, or nothing |
| `Elf.LoadSegment` | kernel/Bootloader/ELF.cpp:71-81 | data copied, rest zero-filled, everything else kept |
| `Elf.ReadDynamic` | kernel/Bootloader/ELF.cpp:91-109 | the table of the last entries of each kind before the null entry |
| `Elf.ApplyRelocations` | kernel/Bootloader/ELF.cpp:115-136 | the relocations in order, each entry read from the buffer that the earlier ones have changed; stops at the first that is not relative |
| `Elf.RelocateApplies` | kernel/Bootloader/ELF.cpp:115-136 | with targets that overlap neither each other nor the table, the loop has the effect of applying the table as loaded: each target holds addend plus base, every other byte is kept |
| `Elf.PrepareApplies` | kernel/Bootloader/ELF.cpp:65-142 | a well-formed image is prepared without a stray access in a buffer of GetELFSize bytes, as the loaded segments with the relocations applied |
| `Elf.PositionIndependent` | kernel/Bootloader/ELF.cpp:65-142 | images at bases A and B differ by B minus A modulo 2^64 in the relocated words and the entry point, and in nothing else |
| `Elf.PreparedContents` | kernel/Bootloader/ELF.cpp:70-136 | with disjoint segments every byte that no relocation hits is that of the file or zero, every relocated word is addend plus base |
| `Elf.SizeHoldsLoads` | kernel/Bootloader/ELF.cpp:5-23 | a buffer of the computed size holds every loaded segment |
| `ElfLayout.ImageRead` | kernel/Bootloader/ELF.h:19-39 | from a file that stores an ELF header and program headers field by field, little-endian and without gaps, the loader reads the segments they describe and the entry point |
| `ElfLayout.ImageSize` | kernel/Bootloader/ELF.cpp:5-23 | the size of such an image is the largest virtual address plus memory size, modulo 2^64, of a header of type 1, or zero |
| `ElfLayout.SegmentRead` | kernel/Bootloader/ELF.h:90-99 | a stored program header is read back field by field |
| `ElfLayout.HeaderRead` | kernel/Bootloader/ELF.h:19-39 | so are entry point, offset and number of program headers |
| `ElfLayout.RelasRead` | kernel/Bootloader/ELF.h:156-160 | a stored relocation table is read back entry by entry, and the entries of type 8 are the relative ones |
| `ElfLayout.DynamicRead` | kernel/Bootloader/ELF.cpp:91-109 | from stored tag and value pairs up to a null tag the loader gets the last value of each of tags 7, 8 and 9, or 0, 0 and 24 |
| `LittleEndian.Put64Bytes` | kernel/Bootloader/ELF.cpp:133 | an 8-byte store changes its own eight bytes only and is read back |
| `Evaluation.PostOrderIsEval` | dep/acpica/dispatcher/dswexec.c:555-625 | for every tree, result stack and store, the end-op callbacks in post-order have the effects of the recursive evaluator in its order and leave its value on top of the stack if the parent uses it, or the stack as it was; they fail exactly when the tree does not fit |
| `Evaluation.PostOrderAllIsEval` | dep/acpica/dispatcher/dswexec.c:555-625 | the same for a list of arguments: one result for each operator among them, in order, and effects from left to right |
| `Evaluation.OlderResultsStay` | dep/acpica/dispatcher/dsutils.c:467-502 | when the arguments of an operator have been run from some stack, its result lacks room exactly if that stack was full; only then, and only if nobody uses the result, does a failure remove an older one; so never for a statement run on an empty stack |
| `Evaluation.CollectReturnsValues` | dep/acpica/dispatcher/dsutils.c:861-933 | operands filled in reverse from the result stack are the arguments in source order |
| `Evaluation.Evaluate` | dep/acpica/dispatcher/dswexec.c:555-899 | the in-place machine computes the recursive evaluator; it succeeds exactly if that does, no operator has more than eight arguments and 248 results suffice; the value stays on the stack for a parent that uses it, by kind of parent, and represents what the handler returned |
| `Evaluation.EvalRepresents` | dep/acpica/executer/exutils.c:286-312 | the value of an operator is what its handler returned, except that on a table of 32-bit integers a number becomes the one below 2^32 that is congruent to it |
| `Evaluation.NarrowIsWidest` | dep/acpica/dispatcher/dsutils.c:861-933 | the operand array suffices exactly if no operator of the tree has more than eight arguments |
| `Evaluation.Execute` | dep/acpica/dispatcher/dswexec.c:555-899 | the in-place machine follows the specification run callback by callback |
| `Evaluation.WalkState.ExecEndOp` | dep/acpica/dispatcher/dswexec.c:555-899 | one callback: create operands, dispatch, clear operands, push, dispose of an unused result; after a failure the stack is what is stated, with an older result removed when an unused one found no room |
| `Evaluation.WalkState.DispatchOperator` | dep/acpica/dispatcher/dswexec.c:555-625 | operands, operator and push; the operand array is empty afterwards in every case |
| `Evaluation.WalkState.RunOperator` | dep/acpica/dispatcher/dswexec.c:574-615 | the handler is called on the operands in source order, and the operand array is emptied whatever it returns |
| `Evaluation.WalkState.CreateOperands` | dep/acpica/dispatcher/dsutils.c:861-933 | the operand array holds the collected arguments in source order, or is empty after a failure |
| `Evaluation.WalkState.CreateOperand` | dep/acpica/dispatcher/dsutils.c:790-836 | a constant, or the value popped from the result stack |
| `Evaluation.WalkState.DeleteResultIfNotUsed` | dep/acpica/dispatcher/dsutils.c:467-502 | the result is popped exactly when nobody uses it |
| `Evaluation.WalkState.ClearOperands` | dep/acpica/dispatcher/dsutils.c:561-584 | the operand array is emptied |
| `Evaluation.WalkState.ResultPush` | dep/acpica/dispatcher/dswstate.c:268-329 | append to the plain stack, refused exactly when another frame would exceed the maximum |
| `Evaluation.WalkState.ResultPop` | dep/acpica/dispatcher/dswstate.c:186-251 | drop-last of the plain stack, reported when it is empty |
| `Evaluation.WalkState.ResultStackPush` | dep/acpica/dispatcher/dswstate.c:345-381 | a new frame of eight slots, or overflow |
| `Evaluation.WalkState.ResultStackPop` | dep/acpica/dispatcher/dswstate.c:397-433 | the top frame goes |
| `Evaluation.WalkState.ObjStackPush` | dep/acpica/dispatcher/dswstate.c:450-481 | one operand slot filled, or overflow |
| `Evaluation.WalkState.ObjStackPopAndDelete` | dep/acpica/dispatcher/dswstate.c:549-585 | the operands filled so far are removed |
| `Evaluation.ChunksPushed` | dep/acpica/dispatcher/dswstate.c:268-329 | writing slot ResultCount modulo eight of the top frame appends to the sequence that all frames together hold |
| `Evaluation.ChunksPopped` | dep/acpica/dispatcher/dswstate.c:222-243 | clearing the top slot, and dropping the frame when that was its first, removes the last element |
| `Evaluation.ChunksExtended` | dep/acpica/dispatcher/dswstate.c:345-381 | an empty frame adds room and no element |
| `GlobalLock.NoLostWakeup` | dep/acpica/events/evglock.c:276-422 | in every reachable interleaving a requester blocked on an empty semaphore has GlobalLockPending set, and firmware that was told owns the lock, or a release interrupt is raised or in its handler |
| `GlobalLock.WakeupProgress` | dep/acpica/events/evglock.c:276-422 | the party responsible for that wake-up can always take its step, each such step comes closer to the signal, and no step of anyone goes back |
| `GlobalLock.Exclusion` | dep/acpica/events/evglock.c:338-485 | one thread at a time is inside; OS and firmware never own the hardware lock together, and the FACS word says who does |
| `GlobalLock.HoldingIsOwning` | dep/acpica/events/evglock.c:338-425 | a returned acquire means the lock is held |
| `GlobalLock.AcquiredMeansOwned` | dep/acpica/events/evglock.c:386-483 | GlobalLockAcquired means ownership exactly outside the last accesses of a release |
| `GlobalLock.AcquiredOutlivesOwnership` | dep/acpica/events/evglock.c:453-478 | a run that reaches one of those accesses |
| `GlobalLock.WakeupsAreCounted` | dep/acpica/events/evglock.c:290-305 | semaphore units plus pending flag are at most one, exactly outside the moment between signal and clearing the flag; both are zero when nobody is in the acquire loop |
| `GlobalLock.FlagOutlivesSignal` | dep/acpica/events/evglock.c:299-305 | a run that reaches that moment |
| `GlobalLock.FirmwareIsTold` | dep/acpica/events/evglock.c:453-467 | firmware that waits is recorded in the word the OS owns, or is being told, or has been |
| `GlobalLock.ReleaseBitWritten` | dep/acpica/events/evglock.c:470-474 | GBL_RLS becomes set by a release that was told of a waiter, by every such release, and by nothing else |
| `GlobalLock.ToldByPendingBit` | dep/acpica/events/evglock.c:460-474 | a release is told of a waiter exactly if the pending bit of the FACS word was set when it gave the word back |
| `GlobalLock.ToldMeansWaiting` | dep/acpica/events/evglock.c:460-474 | in every reachable state that bit, seen by a release, means that firmware has tried in vain |
| `GlobalLock.NoReleaseBitFromStart` | dep/acpica/events/evglock.c:460-474 | no run in which firmware does not try for the lock ever reaches GBL_RLS |
| `GlobalLock.FlagAlreadyClear` | dep/acpica/events/evglock.c:421 | the last clearing of GlobalLockPending in an acquire call finds it clear |
| `GlobalLock.HandleCounts` | dep/acpica/events/evglock.c:362-371 | over any run the handle is the number of acquires in the cycle from 1 to 65535 |
| `GlobalLock.OnlyEventsWhileBlocked` | dep/acpica/events/evglock.c:399-414 | while the requester is blocked no other thread can move |
| `GlobalLock.NextHandle` | dep/acpica/events/evglock.c:362-371 | the handle is never zero |
| `GlobalLock.StepKeepsInv` | dep/acpica/events/evglock.c:276-485 | every access of requester, handler and firmware keeps the invariant |
| `GlobalLock.RunKeepsInv` | dep/acpica/events/evglock.c:276-485 | so does every run |
| `GlobalLock.AdvanceKeeps` | dep/acpica/events/evglock.c:338-485 | each access of a thread in an acquire or release call keeps what lock word, flag, semaphore and spin lock must agree on |
| `GlobalLock.HappenKeeps` | dep/acpica/events/evglock.c:276-312 | so does each access of handler and firmware, and a spurious interrupt |
| `ControlMethods.ThreadCountIsExact` | dep/acpica/dispatcher/dsmethod.c:474-609 | in every reachable state ThreadCount is the number of invocations in progress and at most 255, also for threads that passed the limit check before they blocked |
| `ControlMethods.SerializedMeansOneThread` | dep/acpica/dispatcher/dsmethod.c:482-587 | the invocations of a serialized method belong to one thread, which holds the mutex, and number AcquisitionDepth |
| `ControlMethods.OwnerWhileRunning` | dep/acpica/dispatcher/dsmethod.c:589-609 | a running method has an owner ID; one that is not module-level has none when it is idle |
| `ControlMethods.AcquisitionOrder` | dep/acpica/dispatcher/dsmethod.c:517-573 | the sync levels of the method mutexes a thread holds, auto-serialized ones aside, never decrease in the order of acquisition |
| `ControlMethods.CallsRestoreLevel` | dep/acpica/dispatcher/dsmethod.c:552-959 | over any properly nested sequence of calls, with any interleaving of other threads, the CurrentSyncLevel returns to its starting value |
| `ControlMethods.StepKeepsInv` | dep/acpica/dispatcher/dsmethod.c:460-1042 | every step keeps the invariant |
| `ControlMethods.RunKeepsInv` | dep/acpica/dispatcher/dsmethod.c:460-1042 | so does every run |
| `ControlMethods.BeginKeepsInv` | dep/acpica/dispatcher/dsmethod.c:460-621 | entry, as far as it goes without blocking, keeps the invariant |
| `ControlMethods.GrantKeepsInv` | dep/acpica/dispatcher/dsmethod.c:545-547 | handing a free mutex to a waiting thread keeps the invariant |
| `ControlMethods.ResumeKeepsInv` | dep/acpica/dispatcher/dsmethod.c:552-609 | so does the rest of the entry after blocking |
| `ControlMethods.TerminateKeepsInv` | dep/acpica/dispatcher/dsmethod.c:887-1036 | exit, with release of mutex and owner ID and conversion to serialized by the last thread |
| `ControlMethods.MarkKeepsInv` | dep/acpica/parser/psparse.c:697-706 | marking a running method as pending serialized |
| `ControlMethods.LevelCovers` | dep/acpica/dispatcher/dsmethod.c:552-573 | inside a method with a sync level the thread's level is no lower |
| `ControlMethods.LevelAboveFloor` | dep/acpica/dispatcher/dsmethod.c:552-959 | calls above an invocation leave the level that belongs to it alone |
| `OwnerIds.OwnerThroughout` | dep/acpica/dispatcher/dsmethod.c:589-609 | throughout an invocation the method has the owner ID it was entered with, over any run, whatever the thread calls and the others do |
| `OwnerIds.OwnerKeptWhileRunning` | dep/acpica/dispatcher/dsmethod.c:589-609 | no step changes the owner ID of a method that runs before and after it |
| `OwnerIds.FirstEntryAllocates` | dep/acpica/dispatcher/dsmethod.c:595-602 | an entry allocates an owner ID exactly if the method has none |
| `OwnerIds.ModuleKeepsOwner` | dep/acpica/dispatcher/dsmethod.c:1030-1035 | module-level code keeps, over any run, the owner ID of its first entry |
| `OwnerIds.ConvertedByLastExit` | dep/acpica/dispatcher/dsmethod.c:1000-1027 | a method becomes serialized exactly when the last thread leaves and it has been marked |
| `OwnerIds.RefusedExactly` | dep/acpica/dispatcher/dsmethod.c:474-547 | a call is refused exactly if 255 invocations are in progress, or if it is nested, above the level of a serialized method that takes part in the order; nothing else changes then |
| `Deadlock.DeadlockExactly` | dep/acpica/dispatcher/dsmethod.c:517-573 | from any start, a state with a cycle of threads, each blocked on a method mutex that the next one holds, can be reached exactly if there are two threads and two methods such that both are or may become auto-serialized, or one is or may and another method gives a caller a level no higher than that of the second, or neither may and their sync levels are equal |
| `Deadlock.LeveledDeadlockExactly` | dep/acpica/dispatcher/dsmethod.c:502-573 | a cycle among methods that all take part in the level order can be reached exactly if there are two threads and two serialized, not auto-serialized methods of one sync level |
| `Deadlock.DeadlockHasOneLevel` | dep/acpica/dispatcher/dsmethod.c:502-531 | in every reachable state such a cycle is among methods of one single sync level and has two threads at least |
| `Deadlock.HeldIsNoHigher` | dep/acpica/dispatcher/dsmethod.c:517-531 | a blocked thread holds no mutex of a higher level than the one it waits for, auto-serialized methods aside |
| `Deadlock.DeadlockIsProne` | dep/acpica/dispatcher/dsmethod.c:517-573 | a reachable deadlock of any length shows two such methods in the system it started from |
| `Deadlock.ProneDeadlocks` | dep/acpica/dispatcher/dsmethod.c:517-573 | two such methods deadlock any two threads, by a run from the start that first converts what has to be converted |
| `Deadlock.RunKeepsSystem` | dep/acpica/dispatcher/dsmethod.c:1003-1027 | no run changes the level or the kind of a serialized method, and only auto-serialized ones are added |
| `MethodObjects.BeginIsStep` | dep/acpica/dispatcher/dsmethod.c:460-621 | outcome and effect of the in-place code are those of the state machine's step |
| `MethodObjects.ResumeIsStep` | dep/acpica/dispatcher/dsmethod.c:552-609 | so is the effect of the rest of the entry |
| `MethodObjects.TerminateIsStep` | dep/acpica/dispatcher/dsmethod.c:887-1036 | and that of the exit |
| `MethodObjects.BeginAllocates` | dep/acpica/dispatcher/dsmethod.c:474-609 | what the entry code does to owner ID and count, for each outcome |
| `MethodObjects.MethodObject.BeginMethodExecution` | dep/acpica/dispatcher/dsmethod.c:474-609 | limit check, lazy mutex, order check, acquisition, owner ID and count, in place |
| `MethodObjects.MethodObject.ResumeExecution` | dep/acpica/dispatcher/dsmethod.c:552-609 | the rest of the entry once the mutex has been handed over |
| `MethodObjects.MethodObject.TerminateControlMethod` | dep/acpica/dispatcher/dsmethod.c:942-1036 | exit in place: depth, sync level, mutex, count, conversion, owner ID |
| `MethodObjects.MethodObject.CreateMethodMutex` | dep/acpica/dispatcher/dsmethod.c:409-439 | the mutex is created once, with the method's level |
| `RegionLists.AttachKeeps` | dep/acpica/events/evregion.c:649-667 | linking a region at the front keeps every list well formed and disjoint, each region on the list of exactly the handler it names, references one plus the length |
| `RegionLists.DetachKeeps` | dep/acpica/events/evregion.c:504-610 | so does unlinking one |
| `RegionLists.DetachKeepsOwnList` | dep/acpica/events/evregion.c:508-590 | the list it leaves: its neighbours meet |
| `RegionLists.DetachKeepsOtherList` | dep/acpica/events/evregion.c:508-590 | the other lists stay as they are |
| `AddressSpaces.Interpreter.AttachRegion` | dep/acpica/events/evregion.c:638-668 | refused for a region that has a handler; otherwise only that region gets the handler |
| `AddressSpaces.Interpreter.DetachRegion` | dep/acpica/events/evregion.c:468-619 | the region loses its handler and nothing else changes |
| `AddressSpaces.Interpreter.FindInList` | dep/acpica/events/evregion.c:504-605 | the search ends at the region and never takes the circular-list exit |
| `AddressSpaces.Interpreter.FindRegionHandler` | dep/acpica/events/evhandler.c:454-476 | the first handler of the list for the address space |
| `AddressSpaces.Interpreter.InitializeRegion` | dep/acpica/events/evrgnini.c:694-759 | an uninitialized region without a handler gets that of the nearest ancestor with one; one initialized before is left alone |
| `AddressSpaces.Interpreter.SearchUpward` | dep/acpica/events/evrgnini.c:709-751 | the loop upward is the nearest-handler search |
| `AddressSpaces.Interpreter.InstallHandler` | dep/acpica/events/evhandler.c:328-436 | the walk callback moves a region of the address space and turns back exactly at devices with a handler of their own |
| `AddressSpaces.Interpreter.WalkNamespace` | dep/acpica/namespace/nswalk.c:298-489 | the pruned walk moves exactly the regions it reaches past no blocking device and no temporary node |
| `AddressSpaces.Interpreter.InstallSpaceHandler` | dep/acpica/events/evhandler.c:585-710 | the status is decided by the handler found at the node for the space; otherwise the new handler heads the list and exactly the regions reached move to it |
| `AddressSpaces.Interpreter.Existing` | dep/acpica/events/evhandler.c:585-610 | the check for a handler already installed |
| `AddressSpaces.Interpreter.LinkHandler` | dep/acpica/events/evhandler.c:620-690 | a new handler object at the head, the device object created if missing |
| `AddressSpaces.Interpreter.CreateRegion` | dep/acpica/executer/excreate.c:396-462 | a new region has no handler and is not initialized; nothing happens if the node has a region |
| `AddressSpaces.Interpreter.Perform` | dep/acpica/events/evhandler.c:585-710 | one creation, initialization or installation has exactly its stated effect on regions, handlers and lists, and its status |
| `AddressSpaces.Interpreter.Run` | dep/acpica/events/evrgnini.c:694-759 | a history goes through snapshots, each made from the one before by its operation, and the index agrees at every one of them if handlers are on devices and regions are not temporary |
| `AddressSpaces.RunKeepsIndex` | dep/acpica/events/evrgnini.c:694-759 | in every such history, at all times, every initialized region has the handler of its nearest ancestor with one for its space, null if none, and any other region has that one or null |
| `AddressSpaces.PerformedKeepsIndex` | dep/acpica/events/evhandler.c:585-710 | one operation keeps that agreement |
| `AddressSpaces.InstallKeepsIndex` | dep/acpica/events/evhandler.c:692-710 | exactly when an installation keeps the whole index, for handlers and regions anywhere |
| `AddressSpaces.InstallKeepsAgreement` | dep/acpica/events/evhandler.c:692-710 | exactly when an installation keeps a region in agreement: unless the walk down overtakes a nearer handler on a processor or thermal zone, or misses the region behind a temporary node |
| `AddressSpaces.InstalledExactly` | dep/acpica/events/evhandler.c:517-610 | an installation succeeds exactly on a device, processor or thermal zone that has no handler for the space |
| `AddressSpaces.InstalledOnce` | dep/acpica/events/evhandler.c:585-610 | a second one for the same node and space is refused without effect, as the same handler exactly if its address is the same |
| `AddressSpaces.DevicesAreNotOvertaken` | dep/acpica/events/evhandler.c:365-407 | with handlers on devices only neither happens to a permanent node |
| `AddressSpaces.ProcessorIsOvertaken` | dep/acpica/events/evrgnini.c:716-725 | a history of three operations in which it does, after which region and scoping rule disagree |
| `AddressSpaces.TemporaryIsMissed` | dep/acpica/namespace/nswalk.c:350-362 | a history of three operations after which the initialized region of a running method lacks the handler installed above it |
| `Scoping.NearestAfterInstall` | dep/acpica/events/evhandler.c:692-710 | a new handler becomes the nearest one for exactly the nodes it reaches past the existing ones |
| `Scoping.VisitedAll` | dep/acpica/events/evhandler.c:698-707 | a pre-order walk that skips temporary nodes, and what is below blocking ones, visits exactly the nodes reached |
| `Scoping.SkippingTemporary` | dep/acpica/namespace/nswalk.c:350-362 | skipping temporary nodes makes no difference to permanent ones |
| `Scoping.VisitedNext` | dep/acpica/events/evhandler.c:698-707 | what one more child adds to the walk |
| `Gpe.RunKeepsGood` | dep/acpica/events/evgpe.c:187-416 | after any sequence of operations on the eight events of a register, with successful accesses to the enable register: the run bit is set exactly for events with references; an enabled event has references and is unmasked; a referenced, unmasked event not disabled for dispatch is enabled |
| `Gpe.StepKeeps` | dep/acpica/events/evgpe.c:187-416 | one operation keeps its event right and the other seven bits of every mask alone |
| `Gpe.QuietHardware` | dep/acpica/events/evgpe.c:207-216 | with nothing in dispatch the hardware register is the run mask without the masked bits |
| `Gpe.AddReferenceKeeps` | dep/acpica/events/evgpe.c:329-367 | a first reference keeps the masks right exactly when the hardware access succeeds |
| `Gpe.RemoveReferenceKeeps` | dep/acpica/events/evgpe.c:384-416 | dropping the last reference keeps them right exactly when the access succeeds |
| `Gpe.RunCounts` | dep/acpica/events/evgpe.c:329-416 | over any run RuntimeCount follows the references added and removed, between 0 and 255, and only a handler change moves it otherwise |
| `Gpe.MaskOnKeeps` | dep/acpica/events/evgpe.c:285-297 | masking an event keeps its masks right, and the other seven events, exactly if the hardware access succeeds or the event was off; its result is otherwise ignored |
| `Gpe.MaskOffKeeps` | dep/acpica/events/evgpe.c:298-308 | unmasking keeps them right exactly if the access succeeds or none is needed, for an event without references or in dispatch |
| `Gpe.FinishKeeps` | dep/acpica/events/evgpe.c:778-806 | the end of a dispatch leaves the event enabled exactly if it is referenced and unmasked, unless the enabling access fails, with the exact condition; nothing changes when clearing a level-triggered event fails |
| `Gpe.DispatchKeeps` | dep/acpica/events/evgpe.c:956-1059 | whichever accesses fail, dispatch keeps the masks right exactly unless the event should be on, cannot be enabled again, and either its handler asks for that or an edge-triggered event could not be cleared |
| `Gpe.DispatchEnds` | dep/acpica/events/evgpe.c:956-1059 | after a plain handler that asks for it the event is out of dispatch, and enabled exactly if referenced and unmasked; in every other case it is in dispatch and disabled |
| `Gpe.DispatchFails` | dep/acpica/events/evgpe.c:975-1000 | which failing accesses leave the event unhandled and unchanged; a level-triggered event that cannot be cleared stays in dispatch |
| `Gpe.InstallKeeps` | dep/acpica/events/evxface.c:1029-1065 | installing a handler, with the reference that auto-enabling held dropped, keeps the masks right |
| `Gpe.UninstallKeeps` | dep/acpica/events/evxface.c:1238-1259 | removing a handler, with that reference restored, keeps the masks right |
| `Gpe.HandlerRoundTrip` | dep/acpica/events/evxface.c:1029-1259 | installing and removing a handler on a handler-free event restores flags, target, RuntimeCount and run bit, whatever happens to the other seven events in between and however often the event itself is dispatched, finished or masked; only these decide the dispatch flag and mask bit |
| `Gpe.RoundTripEvent` | dep/acpica/events/evxface.c:1029-1259 | removal undoes installation on the event itself for any later register |
| `Gpe.InstalledEvent` | dep/acpica/events/evxface.c:1029-1065 | the installed event: dispatch and trigger bits, handler record, and one reference less exactly if a method or notification was enabled |
| `Gpe.HandlerIsExclusive` | dep/acpica/events/evxface.c:1013-1026 | a second handler is refused, and one is removed by its own address only; refusals change nothing |
| `Gpe.BitIsShift` | dep/acpica/hardware/hwgpe.c:189-195 | the register bit of an event |
| `Gpe.EventInfo.HwLowSetGpe` | dep/acpica/hardware/hwgpe.c:214-282 | one bit of the register read from hardware changes; not while masked; conditionally only if the enable mask has it |
| `Gpe.EventInfo.UpdateGpeEnableMask` | dep/acpica/events/evgpe.c:187-218 | the run bit follows the reference count |
| `Gpe.EventInfo.AddGpeReference` | dep/acpica/events/evgpe.c:329-367 | count, masks and hardware after a reference is added, with the count rolled back on failure |
| `Gpe.EventInfo.RemoveGpeReference` | dep/acpica/events/evgpe.c:384-416 | the same when one is dropped |
| `Gpe.EventInfo.MaskGpe` | dep/acpica/events/evgpe.c:264-311 | status and masks after masking or unmasking, with a failing access ignored, and the cases refused |
| `Gpe.EventInfo.FinishGpe` | dep/acpica/events/evgpe.c:778-806 | conditional enable and the dispatch flag cleared, or an early return when the status of a level-triggered event cannot be cleared |
| `Gpe.EventInfo.GpeDispatch` | dep/acpica/events/evgpe.c:956-1059 | hardware disabled and flag set, and finished at once if an installed handler answers so; early returns when disabling fails, or clearing an edge-triggered event |
| `Gpe.EventInfo.InstallGpeHandler` | dep/acpica/events/evxface.c:968-1078 | flags, saved original flags, target and reference after installation, and the cases refused |
| `Gpe.EventInfo.RemoveGpeHandler` | dep/acpica/events/evxface.c:1179-1287 | flags, target and reference after removal, and the cases refused |
| `Gpe.GpeRegisterBlock.Perform` | dep/acpica/events/evgpe.c:187-416 | the objects of one register follow the specification step |
| `GpeLists.GpeLists.CreateGpeBlock` | dep/acpica/events/evgpeblk.c:475-567 | both levels of doubly linked lists stay well formed with distinct interrupts, the block joins the walk at one position, and AcpiCurrentGpeCount is the sum of all GpeCounts modulo 2^32 |
| `GpeLists.GpeLists.DeleteGpeBlock` | dep/acpica/events/evgpeblk.c:256-319 | one block leaves the walk, with its interrupt if it was the last and not the SCI; nothing is freed when the OS keeps the handler; the count stays the sum |
| `GpeLists.GpeLists.InstallGpeBlock` | dep/acpica/events/evgpeblk.c:189-240 | appended to the list of its interrupt, which is created if missing; on success the OS has the handler of that interrupt exactly if it is not the SCI and its descriptor, if listed before, was accepted when it was made |
| `GpeLists.GpeLists.GetXruptBlock` | dep/acpica/events/evgpeutil.c:286-361 | found by number, or a new descriptor at the end; it stays in the list when the OS refuses the handler, and only accepted descriptors ever have theirs installed |
| `GpeLists.GpeLists.AppendXrupt` | dep/acpica/events/evgpeutil.c:323-338 | append to a doubly linked list |
| `GpeLists.GpeLists.DeleteGpeXrupt` | dep/acpica/events/evgpeutil.c:378-429 | the SCI descriptor is only emptied; any other is unlinked if the OS removes the handler |
| `GpeLists.GpeLists.UnlinkXrupt` | dep/acpica/events/evgpeutil.c:408-424 | unlink from a doubly linked list |
| `GpeLists.XruptInfo.Append` | dep/acpica/events/evgpeblk.c:217-230 | append to the block list of an interrupt |
| `GpeLists.XruptInfo.Unlink` | dep/acpica/events/evgpeblk.c:286-304 | unlink a block that is not the only one |
| `GpeLists.GpeLists.WalkGpeList` | dep/acpica/events/evgpeutil.c:175-221 | the nested walk with the counting callback ends at the first block whose running sum exceeds the index |
| `GpeLists.GpeLists.GetGpeDevice` | dep/acpica/events/evxfgpe.c:1250-1286 | status and device for an index, those of the block that Answer names |
| `GpeLists.AnswersForHolder` | dep/acpica/events/evxfgpe.c:1265-1286 | the answer is the block that holds the index exactly when the index is below the wrapped count and the range of that block ends below 2^32 |
| `GpeLists.StopsAtHolder` | dep/acpica/events/evgpeutil.c:246-262 | the walk stops at the block whose prefix-sum interval holds the index, exactly when that interval ends below 2^32 |
| `GpeLists.WrappedWalk` | dep/acpica/events/evgpeutil.c:246-262 | 131089 distinct blocks and an index below the count for which the answer is not the block that holds it |
| `GpeLists.HeldBelowTotal` | dep/acpica/events/evgpeutil.c:246-262 | an index is held by some block exactly when it is below the sum |
| `GpeLists.HeldOnce` | dep/acpica/events/evgpeutil.c:246-262 | by at most one |
| `GpeNumbering.CreateGpeInfoBlocks` | dep/acpica/events/evgpeblk.c:335-452 | both tables filled by nested loops with one running pointer: each register and each event has its number and address |
| `GpeNumbering.RegistersInHalves` | dep/acpica/events/evgpeblk.c:394-403 | status registers in the lower half of the block, each enable register one register count above, numbered by eights |
| `GpeNumbering.EventsAreNumbered` | dep/acpica/events/evgpeblk.c:411-418 | events are numbered on from the base of the block modulo 256, eight to a register |
| `GpeNumbering.TableIsLongEnough` | dep/acpica/events/evgpeblk.c:356-364 | the event table is long enough for those loops exactly below 8192 registers |
| `GpeNumbering.RegisterBitIsRight` | dep/acpica/hardware/hwgpe.c:189-195 | the bit computed from the 8-bit event number is right for all events of a block exactly when the block ends below number 256 |
| `GpeNumbering.GpeInitialize` | dep/acpica/events/evgpeinit.c:192-326 | which FADT blocks are created; no GPE number lies in both; the largest number bounds them, although it wraps for an empty GPE0 |
| `GpeNumbering.LowGetGpeInfo` | dep/acpica/events/evgpe.c:435-459 | found exactly for a number within the block, at its index |
| `GpeNumbering.GetGpeEventInfo` | dep/acpica/events/evgpe.c:480-523 | the block of the device if one is given, or else the first FADT block that has the number |
| `GpeNumbering.StoredNumbersCollide` | dep/acpica/events/evgpeblk.c:413-418 | the stored 8-bit numbers of the two blocks collide exactly when GPE1 reaches past 255 |
| `NotifyHandlers.Device.Install` | dep/acpica/events/evxface.c:265-352 | one new object at the head of the system list for types 1 and 3 and of the device list for types 2 and 3; refused without change for a wrong type or if the handler is on any of them; references equal the number of lists |
| `NotifyHandlers.Device.Remove` | dep/acpica/events/evxface.c:443-506 | each list loses the handler; gives up at the first list without it, keeping what was already removed |
| `NotifyHandlers.Device.RoundTrip` | dep/acpica/events/evxface.c:204-516 | installing puts one new object on the lists, removing takes it off and frees it, and both succeed |
| `NotifyHandlers.RoundTripAmongOthers` | dep/acpica/events/evxface.c:204-516 | installing a handler and removing it leaves a list as if neither had happened, whatever is done with other handlers in between |
| `NotifyHandlers.RemovalPasses` | dep/acpica/events/evxface.c:443-506 | removing one handler before or after changes to others comes to the same |
| `NotifyHandlers.GlobalNotify.Install` | dep/acpica/events/evxface.c:237-256 | handlers for all objects: refused at the first type that has one, with what was set before kept; a refusal changes something exactly when both types are asked for and the first is free |
| `NotifyHandlers.GlobalNotify.Remove` | dep/acpica/events/evxface.c:406-437 | gives up at the first type with another handler or none |
| `NotifyHandlers.Device.RemoveFrom` | dep/acpica/events/evxface.c:455-504 | unlinking from one list drops one reference |
| `NotifyHandlers.Device.Present` | dep/acpica/events/evxface.c:300-318 | the check over the lists |
| `NotifyHandlers.Device.Search` | dep/acpica/events/evxface.c:459-469 | the search for a handler and its predecessor |

## Left out

- GlobalLock.StepKeepsInv: the code of `evglock.c` is cut into single accesses of a state machine on values, because its property is about interleavings; there is no class with these fields.
- ControlMethods.StepKeepsInv: likewise a state machine on values; `MethodObjects` has the in-place code of each uninterrupted stretch.
- AddressSpaces.Interpreter.WalkNamespace: the iteration by parent and peer pointers, written as a recursion, and nodes that come and go while a walk is under way.
- AddressSpaces.Interpreter.DetachRegion: does not model a missing secondary object, on which the source returns at once and which every region created by AML has, nor `_REG` methods and region setup, taken as opaque calls that change no association.
- AddressSpaces.Interpreter.InstallSpaceHandler: the choice of a default handler and setup routine, and the PCI root-bridge rehoming.
- Evaluation.Evaluate: predicates of If and While, method calls and name lookup inside expressions, implicit return, package, buffer and field creation, and null results.
- Evaluation.WalkState.ExecEndOp: the opcode classes other than constants and execute-class operators with a result.
- Evaluation.WalkState.CreateOperand: arguments that are names, which the source looks up, and optional names that are null.
- Gpe.EventInfo.RemoveGpeHandler: polling for an edge-triggered event that is pending when the handler goes.
- Elf.PrepareELF: pointer arithmetic that wraps around the address space; addresses in the buffer are offsets from its base. Writes of 1, 2 and 4 bytes, which no relocation type selects.
- Elf.PositionIndependent: images with a loaded segment after the dynamic one, or with overlapping relocation targets.
- SegmentList.BuildFromMap: memory above 512 GB, which ConvertPtr cannot reach; the cleanup works on an array view of the buffer, whose entries are stored back before the list is built.
- SegmentList.FindTail: an empty list, whose head the source would dereference.
- GpeNumbering.CreateGpeInfoBlocks: 8192 registers and more, and the hardware writes that disable and clear each register.
- GpeLists.GpeLists.DeleteGpeBlock: the disabling of the block's registers.
- NotifyHandlers.Device.Install: failed allocations; the root object is `NotifyHandlers.GlobalNotify`.
- ControlMethods.BeginKeepsInv: failed allocation of an owner ID or mutex, after which the source releases the OS mutex without undoing the depth.
- MethodObjects.MethodObject.TerminateControlMethod: termination without a walk state, and deletion of namespace objects.
- AML Acquire and Release of mutex objects, which share the thread's sync level with method mutexes.
- AcpiEvMatchGpeMethod, wake masks and raw-handler bodies; polling in AcpiEvGpeDetect.
- Header magic, section headers and GetELFTextAddr; the decoding of the UEFI map beyond its descriptor fields.
- EFI I/O, video mode, console, file reading, the kernel proper, system calls and the C library.
