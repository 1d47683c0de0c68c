# Granary: a verified model of its protocols, mangling pass and core data structures

Granary is a dynamic binary translator: it runs a program from a code cache, translating blocks
of x86-64 instructions on demand. This project models the parts of it whose correctness does not
show in any one function, and proves what they are for.

* **Locks.** The CAS-level reader/writer lock and the ticket lock are machines of atomic steps
  over any number of threads. The reader/writer lock refines the abstract lock of
  `LockSpec.dfy`, which the edge and type-id machines use. Its invariant needs no bound on the
  number of threads: the compare-exchange of a reader fails once the count reaches 2^31. The
  ticket lock excludes exactly when there are no more threads than 32-bit tickets, and then it
  refines the mutex of `LockSpec.dfy`.
* **Edges.** Threads enter Granary through direct edges, translated at most once, and indirect
  edges, whose chain of compare-and-jump stubs is followed without a lock while it is extended
  under one. The code cache of the model holds the instantiated templates themselves, and a
  dispatching thread executes them instruction by instruction, so that where it ends follows
  from the emitted MOV, CMP and JNZ. Both kinds of edge run inside the exit lock, which
  `granary_exit` takes and keeps.
* **Early mangling.** A compiler pass, over a machine with 64-bit registers, virtual registers
  and byte memory. The reference semantics of PUSH, POP, ENTER, LEAVE and XLAT are those of the
  Intel 64 and IA-32 Software Developer's Manual, Volume 2. The pass preserves the native state
  of every instruction that decoding delivers if and only if the instruction is not one of two:
  XLAT with a segment override, and a POP to `[RSP + disp]` whose `disp + 8` leaves 32 bits.
* **Tools, sets and ranges.** Recursive tool activation over any dependency graph, union-find
  with path compression, and the linked list of a module's address ranges, edited in place.
* **Allocators and indexes.** The page allocator's lock-free and locked paths, the code caches
  on top of it, the two-level block index, the concurrent type-id table, the wrapper list, and
  the encoding of pointer operands.

State that the source updates in place is a class here, with its loops; concurrent code is a
machine whose steps are the source's atomic operations. A method that changes state is proved
against a function or a step, and what the source promises is proved about that function or over
every run. `dafny verify dfyconfig.toml` checks the whole project.

Where the code does less than it sets out to do, the model follows the code, and a theorem gives
the exact condition: `SpinLock.ExclusionIffEnoughTickets`, `RangeList.RemoveIsExactIff`,
`RangeList.RunsMapExactly`, `Tools.AllRequestsHonouredIff`, `CodeCacheIndex.FoundIsBestIff`,
`PointerEncoding.EncodePtr`, `MangledCode.PopMeansIff`, `MangledCode.XlatMeansIff`.

Facts of the source that the model builds in:

* Splitting a range drops the ranges after it, because the zipper's `InsertAfter` does not
  relink the tail (granary/base/list.h:440-442); the comment on `AddRange` does not say so.
* `AddRange` never returns when its bounds are equal (os/module.cc:176-183), so they differ here.
* `dest_block_meta` and `next_patchable` of a direct edge share one word, and are one field here.
* Between the stores to `out_edges` and `out_edge_pc` the map is ahead of the chain
  (granary/entry.cc:90-91); the theorem on the current head names that window.
* Block matching asks how well the search unifies with the bucket's newest block, not with the
  block at hand (granary/index.cc:111).
* Decoding keeps `[RSP]` as a compound operand (arch/x86-64/decode.cc:185-188); a plain one is
  only made by `BaseDispMemOp`, which gives it no segment.
* An operand copied into a new instruction is no longer sticky (arch/x86-64/operand.cc:261-273).

## Model

| member | source | states |
|---|---|---|
| `ReaderWriterLock.StepRefines` | granary/base/lock.cc:23-78 | Each atomic step of each thread is one step of the abstract lock by that thread, or none. |
| `ReaderWriterLock.RunRefines` | granary/base/lock.cc:23-78 | Every run, of any number of threads, follows a run of the abstract lock, state by state. |
| `ReaderWriterLock.RunIsSafe` | granary/base/lock.cc:23-78 | In every reachable state the word is the claim bit plus the reader count, at most one writer has claimed, and a writer inside is alone. |
| `ReaderWriterLock.ReadersOnlyLeaveUnderClaim` | granary/base/lock.cc:57-78 | While a writer keeps its claim the readers only leave, and the word it overwrites on release is the claim alone. |
| `ReaderWriterLock.DrainedWriterEnters` | granary/base/lock.cc:70-72 | A writer that has claimed enters at its next load if and only if no reader is inside. |
| `ReaderWriterLock.TryReadFailsOnlyIfClaimed` | granary/base/lock.cc:23-34 | A try gives up only on a claim, or with 2^31 readers inside. |
| `ReaderWriterLock.ReaderAloneEnters` | granary/base/lock.cc:37-41 | From any reachable state without a claim, a thread left alone gets in for reading. |
| `ReaderWriterLock.WriterAloneEnters` | granary/base/lock.cc:57-73 | From any reachable state without a claim or a reader, a thread left alone gets in for writing. |
| `SpinLock.RunKeepsInv` | granary/base/lock.cc:12-20 | With at most 2^32 threads, tickets stay distinct and consecutive across the wrap, and only the served ticket holds. |
| `SpinLock.FirstComeFirstServed` | granary/base/lock.cc:12-20 | A thread queued behind another does not hold the lock before the other has left. |
| `SpinLock.FirstInQueueEnters` | granary/base/lock.cc:12-15 | A waiting thread enters at its next load if and only if it is first in the queue. |
| `SpinLock.TicketsRunOut` | granary/base/lock.cc:12-20 | With more threads than tickets there is a run in which two hold the lock. |
| `SpinLock.ExclusionIffEnoughTickets` | granary/base/lock.cc:12-20 | Every run of n threads is mutually exclusive if and only if n is at most 2^32. |
| `SpinLock.StepRefines` | granary/base/lock.cc:12-20 | With at most 2^32 threads, each atomic step of each thread is an acquire or release of an abstract mutex by that thread, or none. |
| `SpinLock.RunRefines` | granary/base/lock.cc:12-20 | Every such run follows a run of the mutex, state by state. |
| `DirectEdge.StepKeepsInv` | granary/entry.cc:54-76 | Every step of every thread keeps the invariant of edges, locks, list and exit lock. |
| `DirectEdge.TranslatedAtMostOnce` | granary/entry.cc:54-76 | In every run Translate is called at most once per edge, with the edge's own non-null meta-data, and an edge has a translation only if it was called. |
| `DirectEdge.UnpatchedListIsAcyclic` | granary/context.cc:101-105 | In every run, walking the list of edges to patch visits each linked edge once, each translated, and ends. |
| `DirectEdge.RestingEdgesAreLinkedIff` | granary/entry.cc:68-75 | In every run, an edge nobody is at work on is on the list if and only if it is translated and was not patched at once, which takes the flag; and its meta-data is gone exactly when it is translated. |
| `DirectEdge.EntryLeavesTranslation` | granary/entry.cc:64-76 | A thread that is done with an edge leaves it translated. |
| `DirectEdge.InsideThreadsGoOn` | granary/entry.cc:64-76 | No thread gets stuck inside: it can go on, or another holds the lock it waits for. |
| `DirectEdge.OwnCodeIsNoTranslation` | granary/entry.cc:54-58 | A target within 48 bytes of the edge's code is no translation, any other is. |
| `DirectEdge.ExitFreezesEdges` | granary/exit.cc:26-27 | Once the exit lock is held no thread is ever again inside the entry routine, and no edge or list link changes. |
| `IndirectEdge.StepKeepsInv` | granary/entry.cc:79-93 | Every step of every thread, single instructions of a dispatch included, keeps the invariant of the stub code, the map, the locks and the dispatching threads. |
| `IndirectEdge.OldHeadsDispatchCorrectly` | arch/x86-64/edge.cc:340-377 | From any value the head ever had, with any registers and flags, executing the code found there ends within the chain, in its own target's block or on the miss path, and hits exactly the targets added before that value. |
| `IndirectEdge.CurrentHeadHitsExactly` | granary/entry.cc:84-92 | Executing the code at the current head hits exactly the targets in the map, but for one whose head is about to be stored. |
| `IndirectEdge.ThreadsReachTheirTargets` | granary/entry.cc:79-93 | The emitted code never takes a thread to the block of another target, and always with the RSI the transfer began with; no target has two stubs. |
| `IndirectEdge.ExecutionAdvances` | arch/x86-64/edge.cc:349-377 | Each instruction of a stub keeps a dispatch on its way: into the block of its own target, or down to the head below. |
| `IndirectEdge.DispatchesStayInChain` | arch/x86-64/edge.cc:340-377 | A dispatching thread is always at or in code of this edge, and never gets lost. |
| `IndirectEdge.DispatchMeetsItsDestiny` | arch/x86-64/edge.cc:340-377 | However threads interleave, a dispatch goes instruction by instruction to what following the code from where it stands gives: into that block, or into the entry routine if that was a miss. |
| `IndirectEdge.ResolvedDispatchHits` | granary/entry.cc:79-93 | A thread back from the entry routine, at whatever instruction of its dispatch, is on its way to its target. |
| `IndirectEdge.ResolvedDispatchNeverMisses` | granary/entry.cc:79-93 | In the rest of the run it leaves that dispatch only for the block of its target. |
| `IndirectEdge.ThreadsGoOn` | granary/entry.cc:79-93 | No thread is stuck in a dispatch or inside: it can go on, or another holds the edge's lock. |
| `IndirectEdge.ExitFreezesEdge` | granary/exit.cc:26-27 | Once the exit lock is held the edge never changes and no thread is in the entry routine. |
| `StubTemplate.InstantiateTemplate` | arch/x86-64/edge.cc:349-377 | The fragment is the template, instruction by instruction, but for a move of the target into RSI before the compare and the failing branch, which goes to the head. |
| `StubTemplate.InstantiatedTemplateIsStub` | arch/x86-64/edge.cc:311-327 | From any registers and flags, executing an instantiated template falls through exactly for the stub's own target, with RSI restored, and otherwise jumps to the head it was made over. |
| `MangledCode.AgreesLonger` | arch/x86-64/early_mangle.cc:165-193 | Code that sets up one operand disturbs neither the operands before it nor those after it. |
| `MangledCode.LeaAgrees` | arch/x86-64/early_mangle.cc:100-109 | An operand addressed through the LEA'd register, under its own segment, is the operand. |
| `MangledCode.StackPointerAgrees` | arch/x86-64/early_mangle.cc:140-147 | A read of RSP or of its low bytes is the read of a register that holds RSP. |
| `MangledCode.MoveIsLea` | arch/x86-64/early_mangle.cc:115-122 | Moving RSP to a register and the LEA that replaces the move do the same. |
| `MangledCode.DefaultMeans` | arch/x86-64/early_mangle.cc:165-193 | Any instruction with mangled operands leaves the native state of the original, on every machine state. |
| `MangledCode.PushMeans` | arch/x86-64/early_mangle.cc:206-216 | PUSH m64, and CALL or JMP through memory, keep their meaning when the value is loaded first. |
| `MangledCode.TransferMeans` | arch/x86-64/early_mangle.cc:65-68 | CALL or JMP through a register keeps its meaning when the register is copied first. |
| `MangledCode.PopDestResolves` | arch/x86-64/early_mangle.cc:280-290 | The adjusted destination, before the increment, is the original one after it. |
| `MangledCode.PopGoesWrong` | arch/x86-64/early_mangle.cc:280-290 | For every destination whose displacement wraps there is a state in which POP stores elsewhere. |
| `MangledCode.PopMeansIff` | arch/x86-64/early_mangle.cc:268-296 | POP m64 keeps its meaning on every state if and only if `disp + 8` stays in 32 bits for an RSP base. |
| `MangledCode.PopStackPointerMeans` | arch/x86-64/early_mangle.cc:299-311 | POP RSP and a load of RSP from the top of the stack do the same. |
| `MangledCode.LeaveMeans` | arch/x86-64/early_mangle.cc:446-454 | LEAVE is MOV RSP, RBP and POP RBP. |
| `MangledCode.XlatMeansIff` | arch/x86-64/early_mangle.cc:360-369 | XLAT keeps its meaning on every state if and only if it has no segment override. |
| `MangledCode.PushSegMeans` | arch/x86-64/early_mangle.cc:242-253 | PUSH FS or GS is a 16-bit read, a zero extension and a push, whatever the register held before. |
| `MangledCode.PopSegMeans` | arch/x86-64/early_mangle.cc:318-342 | POP FS or GS is a pop and a load of the low 16 bits. |
| `MangledCode.FramesCopiedAre` | arch/x86-64/early_mangle.cc:395-416 | The manual's frame copying, step by step, is a sequence of eight-byte copies in order, so overlapping frames are covered. |
| `MangledCode.CopyRoundsDo` | arch/x86-64/early_mangle.cc:395-416 | The emitted rounds make the same copies in the same order. |
| `MangledCode.EnterMeans` | arch/x86-64/early_mangle.cc:372-440 | For every frame size, nesting level and machine state, the emitted code leaves the native state that ENTER leaves. |
| `EarlyMangle.EarlyMangler.AllocateVirtualRegister` | arch/early_mangle.cc:28-35 | Successive registers are distinct, and the pool of 64 is not exhausted. |
| `EarlyMangle.EarlyMangler.MangleExplicitMemOp` | arch/x86-64/early_mangle.cc:76-111 | One LEA exactly for a compound operand that is not sticky; the code changes only new virtual registers, and the new operand means what the old one did, in its segment. |
| `EarlyMangle.EarlyMangler.MangleExplicitStackPointerRegOp` | arch/x86-64/early_mangle.cc:129-151 | The same, for a register operand that reads RSP. |
| `EarlyMangle.EarlyMangler.MangleSegmentOffset` | arch/x86-64/early_mangle.cc:154-161 | The same, for an offset from a segment. |
| `EarlyMangle.EarlyMangler.MangleExplicitOps` | arch/x86-64/early_mangle.cc:165-193 | After the code in front, the rewritten instruction does what the original does with its operands, and its operands are simple; a 64-bit MOV of RSP becomes a LEA alone. |
| `EarlyMangle.EarlyMangler.ManglePushMemOp` | arch/x86-64/early_mangle.cc:206-216 | PUSH m64 is preserved. |
| `EarlyMangle.EarlyMangler.ManglePopMemOp` | arch/x86-64/early_mangle.cc:268-296 | POP m64 is preserved under exactly the stated condition. |
| `EarlyMangle.EarlyMangler.ManglePopStackPointer` | arch/x86-64/early_mangle.cc:299-311 | POP RSP is preserved. |
| `EarlyMangle.EarlyMangler.MangleXLAT` | arch/x86-64/early_mangle.cc:360-369 | XLAT is preserved exactly without a segment override. |
| `EarlyMangle.EarlyMangler.MangleEnter` | arch/x86-64/early_mangle.cc:372-440 | ENTER is preserved, and what is emitted contains no ENTER. |
| `EarlyMangle.EarlyMangler.MangleLeave` | arch/x86-64/early_mangle.cc:446-454 | LEAVE is preserved. |
| `EarlyMangle.EarlyMangler.MangleIndirectCFI` | arch/x86-64/early_mangle.cc:52-68 | An indirect CALL or JMP is preserved and goes through a virtual register. |
| `EarlyMangle.EarlyMangler.ManglePushSegReg` | arch/x86-64/early_mangle.cc:242-253 | PUSH FS or GS is preserved. |
| `EarlyMangle.EarlyMangler.ManglePopSegReg` | arch/x86-64/early_mangle.cc:318-342 | POP FS or GS is preserved. |
| `EarlyMangle.EarlyMangler.ManglePushFlags` | arch/x86-64/early_mangle.cc:458-469 | PUSHF is preserved with its reserved register. |
| `EarlyMangle.EarlyMangler.MangleDecodedInstruction` | arch/x86-64/early_mangle.cc:475-556 | For every decoded instruction the emitted code leaves the native state of the original on every machine state if and only if it is a faithful one. Nothing emitted has a form the pass removes, operands are simple but for LEA, PUSH RSP, a copied target in RSP and sticky ones, annotations are there exactly when called for, and 64 virtual registers suffice. |
| `Tools.ToolManager.ActivateTool` | granary/tool.cc:141-162 | On any graph, cycles included, it terminates, activates only what its argument reaches, visits dependencies in order, and keeps the order, the layout and the largest alignment. |
| `Tools.ToolManager.ActivateFirst` | granary/tool.cc:208-211 | From no active tools: exactly the registered tools reachable from the argument, each once, dependencies first, in disjoint aligned byte ranges. |
| `Tools.AcyclicMeansTopological` | granary/tool.cc:141-162 | Without cycles between different tools every registered dependency precedes its dependent. |
| `Tools.LayoutGrows` | granary/tool.cc:157-161 | Placing a tool at the next aligned offset keeps the byte ranges aligned and disjoint. |
| `Tools.ToolManager.Place` | granary/tool.cc:157-161 | A tool gets the first aligned bytes, and the largest alignment so far is kept. |
| `Tools.AddInstrumentationTool` | granary/tool.cc:189-206 | A tool's dependencies are itself and then what it requires, in order, by ids that stand for those names. |
| `Tools.IdForName` | granary/tool.cc:99-111 | A name keeps its id, and different names have different ids. |
| `Tools.RequestTools` | granary/tool.cc:124-137 | The request loop skips unknown names and gives each tool requested after another that one as first dependency, leaving the rest of every tool as it was. |
| `Tools.RequestedKeepsRest` | granary/tool.cc:133-135 | Requests change no size, no alignment and no dependency but the first, and nothing of a tool that is not requested after another. |
| `Tools.AllRequestsHonouredIff` | granary/tool.cc:124-137 | Every requested tool is activated, whatever the registry, if and only if every one occurs in the longest repeat-free suffix of the request list. |
| `Tools.InitToolManager` | granary/tool.cc:209-211 | The active tools are exactly those the request list honours, in order and laid out by their own sizes and alignments; with a tool, everything registered that it requires is active. |
| `DisjointSet.Node.Find` | granary/base/disjoint_set.h:71-76 | It returns the root, and path compression changes no element's root. |
| `DisjointSet.Node.Union` | granary/base/disjoint_set.h:47-63 | The new forest is the old one with exactly the two classes merged under the winning root. |
| `DisjointSet.Node.Value` | granary/base/disjoint_set.h:88-90 | The value is the class root's. |
| `DisjointSet.MergedIsSound` | granary/base/disjoint_set.h:47-63 | Merging keeps the forest acyclic, so that Find terminates. |
| `DisjointSet.NewNodesAreSingletons` | granary/base/disjoint_set.h:21-23 | Nodes as the constructor leaves them are each alone in their class, where runs start. |
| `DisjointSet.RunsBuildTheEquivalence` | granary/base/disjoint_set.h:47-76 | After any run two nodes share a root if and only if they are related by the least equivalence containing the united pairs. |
| `DisjointSet.RunsKeepTheLowestValue` | granary/base/disjoint_set.h:53-62 | After any run a class's value is that of its lowest-addressed member with a non-default value, and the default only if all have it. |
| `RangeList.RemoveKeepsSorted` | os/module.cc:219-252 | Removal keeps ranges non-empty, sorted, disjoint and as long in offsets as in addresses, and leaves nothing in the removed interval. |
| `RangeList.RemovedMap` | os/module.cc:219-252 | The address map afterwards: the old one outside the interval, minus exactly the ranges after a split one. |
| `RangeList.RemoveIsExactIff` | os/module.cc:226-232 | Removal takes exactly the interval out of the map if and only if the interval does not lie strictly inside a range followed by another. |
| `RangeList.InsertKeepsSorted` | os/module.cc:255-265 | Inserting a range that conflicts with none keeps the list sorted and disjoint. |
| `RangeList.InsertedMap` | os/module.cc:255-265 | Insertion adds exactly the range's addresses to the map. |
| `RangeList.RunsKeepSorted` | os/module.cc:174-211 | Over every run of AddRange and RemoveRange the list stays sorted, disjoint and consistent. |
| `RangeList.AppliedMap` | os/module.cc:174-211 | What one call of either does to the offset of every address. |
| `RangeList.RunsMapExactly` | os/module.cc:174-252 | Over every run an address has the offset and permissions of the last call that covers it, unless a later call split a range before it; then it has none. |
| `RangeList.RunsMapAsIntended` | os/module.cc:174-211 | So no address ever gets a wrong offset, and none is lost when no call splits a range with others after it. |
| `RangeList.RemovalLosesRange` | granary/base/list.h:440-442 | A run of three calls that loses a range that was added and never removed. |
| `ModuleRanges.Module.FindRange` | os/module.cc:79-89 | The search with an early exit finds what an exhaustive search finds. |
| `ModuleRanges.Module.OffsetOfPC` | os/module.cc:79-89 | The offset of an address is the one the map gives. |
| `ModuleRanges.Module.RemoveRangeConflicts` | os/module.cc:219-252 | The in-place edit through the zipper computes the removal and reports whether anything overlapped. |
| `ModuleRanges.ConflictsIsExhaustive` | os/module.cc:221-251 | On a sorted list, leaving the loop early misses no overlap. |
| `ModuleRanges.Module.InsertAfter` | granary/base/list.h:440-442 | The new element replaces everything after the current one. |
| `ModuleRanges.Module.Unlink` | granary/base/list.h:446-451 | The current element leaves the list, and the rest stays linked. |
| `ModuleRanges.Module.AddRangeNoConflict` | os/module.cc:255-265 | The in-place insertion computes the insertion on sequences. |
| `ModuleRanges.Module.AddRange` | os/module.cc:174-184 | With bounds in either order, a call does what the map of a call says. |
| `ModuleRanges.Module.RemoveRange` | os/module.cc:187-190 | The same for a removal, with its result. |
| `FreePages.ScanSlot` | os/memory.h:100-121 | The scan finds the lowest bit of a slot that starts enough set bits, or none. |
| `FreePages.FitsIff` | os/memory.h:84-92 | A run of pages fits if and only if all of them are free and it crosses no multiple of 64. |
| `FreePages.FreePageSet.AllocatePagesSlow` | os/memory.h:92-132 | First fit: the lowest slot and bit, exactly those bits cleared; failure exactly when no single slot has such a run. |
| `FreePages.FreePageSet.FreePage` | os/memory.h:136-142 | Exactly the page's bit is set. |
| `FreePages.FreePageSet.FreePages` | os/memory.h:165-176 | Exactly the pages' bits are set. |
| `PageAllocator.StepKeepsInv` | os/memory.h:91-176 | Every atomic step of every thread keeps live and reserved blocks apart, inside the heap and free of set bits. |
| `PageAllocator.LiveBlocksAreApart` | os/memory.h:147-161 | In every interleaving live blocks are pairwise disjoint and inside the heap. |
| `PageAllocator.ReturnedBlockIsApart` | os/memory.h:147-161 | What either path returns is disjoint from every live block. |
| `PageAllocator.FreeBitsAreDead` | os/memory.h:91-176 | A set bit never names a live or never-issued page. |
| `PageAllocator.NoPageIsLost` | os/memory.h:91-176 | With no call under way, an issued page is free if and only if it is in no live block. |
| `PageAllocator.BumpNeverSucceedsAgain` | os/memory.h:147-154 | After one bump past the heap no later one succeeds, however small. |
| `PageAllocator.PageHeap.AllocatePages` | os/memory.h:147-161 | A whole call is a sequence of the machine's steps: the counter's old value if the block ends before the last page, and the first fit otherwise. |
| `PageAllocator.PageHeap.FreePages` | os/memory.h:165-176 | A call on any run of live pages, of one block or several, is the machine's freeing step. |
| `CodeCaches.CodeCache.AllocateCode` | granary/cache.cc:136-152 | A call is the machine's steps; it takes a slab exactly when the request would reach the end of the current one, and hands out the next bytes. |
| `CodeCaches.ServeKeepsInv` | granary/cache.cc:136-152 | Handing out bytes of the newest slab keeps all code disjoint and below the free bytes. |
| `CodeCaches.RefillKeepsInv` | granary/cache.cc:88-90 | Taking a slab keeps slabs of all caches apart. |
| `CodeCaches.CodeBlocksAreApart` | granary/cache.cc:136-166 | In every interleaving of all caches with the page allocator, all code ever returned is pairwise disjoint and inside the code heap. |
| `MetaData.Equals` | granary/metadata.cc:139-152 | Two blocks are equal if and only if all their indexable parts are. |
| `MetaData.CanUnifyWith` | granary/metadata.cc:155-171 | The status of two blocks is that of their worst part. |
| `MetaData.WorstIsAttained` | granary/metadata.cc:155-171 | That status is attained by a part and bettered by none. |
| `CodeCacheIndex.BucketSuffices` | granary/index.cc:57-63 | Despite dropped bits and aliasing, the newest equal block of the bucket is the newest equal block of all. |
| `CodeCacheIndex.SameBucketIff` | granary/index.cc:57-63 | Two pcs share a bucket if and only if they agree on bits 3 to 23. |
| `CodeCacheIndex.MatchMetaData` | granary/index.cc:106-129 | The loop returns the newest equal block, under the status of the list's head. |
| `CodeCacheIndex.Index.FindMetaDataInIndex` | granary/index.cc:160-177 | The two-level search is a search of the flat list of all insertions. |
| `CodeCacheIndex.Index.AddMetaDataToIndex` | granary/index.cc:180-199 | Insertion puts the block at the head of the flat list. |
| `CodeCacheIndex.FoundIsNewestEqual` | granary/index.cc:106-177 | Without unifiable meta-data: Accept with the newest equal block, Reject exactly when there is none. |
| `CodeCacheIndex.FoundIsBestIff` | granary/index.cc:106-129 | With it: the best equal block is found if and only if there is none, or the newest equal block and the bucket's head both unify as well as any equal one. |
| `CodeCacheIndex.HeadDecidesWrongly` | granary/index.cc:111-115 | A block that does not unify can be accepted on the word of the bucket's head. |
| `TypeIds.StepKeepsInv` | clients/watchpoints/type_id.cc:35-95 | Every atomic step of every TypeIdFor call keeps lists, ids, locks and answers consistent. |
| `TypeIds.ResultsAreAFunction` | clients/watchpoints/type_id.cc:76-95 | In every interleaving the result depends only on return address and size order, also once ids run out, and different pairs get different ids. |
| `TypeIds.AnswersAreFinal` | clients/watchpoints/type_id.cc:76-95 | Once the answer for a pair is settled, every call for it that returns later gets that answer. |
| `TypeIds.LatePairsGetTheMaximum` | clients/watchpoints/type_id.cc:54-61 | A pair first created after the ids ran out always gets 32767, in the rest of every run. |
| `TypeIds.IdsBoundSizes` | clients/watchpoints/type_id.cc:110-112 | An assigned id's size is at most the bytes asked for, which are less than twice it; 1 for no bytes. |
| `TypeIds.SizeOrderBounds` | clients/watchpoints/type_id.cc:77-81 | The size order is the binary logarithm, rounded down. |
| `TypeIds.FailureMeansExhaustion` | clients/watchpoints/type_id.cc:54-61 | A call fails only when every id is published or about to be. |
| `TypeIds.CallsGoOn` | clients/watchpoints/type_id.cc:76-95 | No call gets stuck: it can go on, or waits for its bucket's lock. |
| `FunctionWrappers.FunctionWrapperInsertPoint` | clients/wrap_func/client.cc:42-67 | The place found keeps offsets sorted and groups whole, and the id follows the group's last. |
| `FunctionWrappers.PlaceKeepsList` | clients/wrap_func/client.cc:42-67 | Placing a wrapper there keeps the list sorted and contiguous, and each group equal to the numbered registrations. |
| `FunctionWrappers.NumberedIds` | clients/wrap_func/client.cc:60-62 | The k-th registration of a function has id k modulo 256. |
| `FunctionWrappers.WrapperList.AddFunctionWrapper` | clients/wrap_func/client.cc:90-97 | Registration extends the history and keeps the list, with offsets sorted in each module. |
| `FunctionWrappers.WrapperList.FunctionWrapperFor` | clients/wrap_func/client.cc:70-85 | Looking up (module, offset, k) finds exactly the k-th registered wrapper, or none if there are fewer, for any number of registrations. |
| `PointerEncoding.ReachableIsNearIff` | arch/util.h:31-51 | A reachable address is within a signed 32-bit displacement unless it is exactly 2^31 past the next instruction. |
| `PointerEncoding.FarByOne` | arch/util.h:31-51 | An address exactly 2^31 past the next instruction is called reachable and is out of range. |
| `PointerEncoding.ReachableExactly` | arch/util.h:31-51 | Exactly the addresses at most 2^31 ahead of the next instruction, or at most 2^31 - 2^27 behind it, are reachable. |
| `PointerEncoding.EncodePtr` | arch/x86-64/encode.cc:180-234 | The processor computes the operand's address back from the encoding if and only if: an annotation is near; a hard-coded address is its own sign extension or not exactly 2^31 away. A full-width displacement is used exactly for addresses that are neither sign extensions nor within 2^31 ahead or 2^31 - 2^27 behind. |

## Left out

- XED decoding, selection and encoding, instruction tables and register enumerations: a foreign library.
- Compilation, traces, fragments and register scheduling: Translate is a step that returns a fresh address.
- C++ memory orderings and fences: steps are sequentially consistent.
- `TryAtomicPatchEdge`: its outcome is nondeterministic in the direct-edge machine; the patching itself is cross-modifying code.
- `os::Lock` is the abstract mutex; the spin locks that guard the bitset and the slabs appear as whole critical sections in their clients.
- The direct-edge machine assumes that translations lie outside the edge's own 48 bytes of code, as in user space.
- PageAllocator.StepKeepsInv: does not model wrap-around of the page counter, and a call that finds no pages returns none where the source asserts.
- TypeIds.StepKeepsInv: does not model wrap-around of the 64-bit id counter, which takes 2^64 calls.
- FreePages.FreePageSet.AllocatePagesSlow: a slot's word is the sequence of its 64 bits.
- CodeCacheIndex.Index.AddMetaDataToIndex: models the index sequentially; the source locks by the second index and allocates by the first, so concurrent insertions are not safe there.
- CodeCacheIndex.Index.FindMetaDataInIndex: buckets are lists of values, so sharing between a bucket and a caller's block is not captured.
- FunctionWrappers.WrapperList.AddFunctionWrapper: the list is a sequence that the method reassigns; the splicing of pointers is shown for module ranges instead.
- DisjointSet.Node.Value: returns the value, where the source returns a reference through which a caller may change it.
- DisjointSet.RunsKeepTheLowestValue: values are those the nodes were constructed with; runs in which callers change them are not covered.
- Memory faults: ENTER's final probing write and partial effects before a fault are not modelled.
- EarlyMangle.EarlyMangler.MangleDecodedInstruction: models stack operations of 64 bits and 64-bit addressing, not the 16-bit stack operations or 32-bit addressing that prefixes select; the result of the stack analysis is a parameter.
- Tools.RequestTools: works on ids; the bounded tables of names and tools, whose overflow the source asserts against, are unbounded here.
- Doubly linked lists of granary/base/list.h, meta-data and slab layout, bloom filters and other small bit tricks: they would only add easy members.
- Shadow memory, exception recovery, logging, system calls, and the GDB, strace and valgrind clients.
