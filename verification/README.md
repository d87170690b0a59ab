# A verified model of the operating system's core

The repository is a small distributed operating system in C: a Kernel, a Memory server and
CPUs that exchange messages over sockets. This project models its five stateful cores and
proves what they keep over every run:

- the **kernel heap**: a first-fit allocator whose eight-byte headers live inside the pages it
  divides, with lazy compaction, a free-byte counter per page and an account per process;
- the **memory server**: an inverted page table stored in the first frames of the very memory
  it describes, a hash-started lookup, and a write-through cache with least-recently-used
  replacement and a quota per process;
- the **PCB codec** that carries a process between the Kernel and the CPUs;
- the **scheduler**: process queues, CPUs, the POSIX semaphores that wake its threads, and the
  ANSISOP semaphores that block programs;
- the **CPU's stack placement and the paged program image**.

Each core comes in two forms. Functions on values say what one request does; over them stand
the invariants and the theorems about whole runs. Classes and loops do the same work in place,
as the C code does (arrays of bytes, cursors, list removals at an index), and each method is
proved to do exactly what its function says. The kernel heap class calls the memory server
class, so its headers really travel through page table, frames and cache.

One request, or one turn of a thread, is one atomic step. Integers are unbounded except where a
C width matters: the codec and every header and table entry are 32-bit two's complement,
comparisons with `sizeof` are made on `size_t`, `programCounter` is unsigned and wraps.

| files | contents |
|---|---|
| `bytes`, `lists` | C integers in memory, memcpy, removal from a list |
| `heap_page`, `page_ops` | one heap page: blocks and bytes together |
| `heap`, `heap_runs`, `heap_theorems`, `heap_laws`, `heap_witnesses` | the heap as a state machine, its runs, what each request takes and leaves, and runs on which it falls short |
| `kernel_heap` | the kernel's heap routines over the memory server |
| `memory_table`, `memory_spec`, `memory_theorems`, `memory_laws` | page table in memory, requests, cache, their runs, and what each request does slot by slot |
| `memory_server` | the memory server over byte arrays |
| `pcb`, `pcb_wire`, `layouts` | the encoding of a PCB, the loops and messages that use it, and at which byte every field lies |
| `scheduler`, `scheduler_theorems`, `scheduler_runs`, `scheduler_lines` | the scheduler as a state machine, its runs, and which step touches which queue, CPU and token |
| `scheduler_kills`, `scheduler_witnesses` | what becomes of a process killed on its CPU, and a run on which a unit is lost |
| `scheduler_kernel` | the scheduler's queues and counters changed in place |
| `stack`, `stack_theorems`, `stack_cpu` | where variables go, calls and returns, and the CPU's primitives |
| `program` | storing a program page by page, and fetching its instructions |
| `program_overrun`, `program_cached`, `program_witnesses` | what a fetch past its second page reads, from memory and through the cache, and servers on which it goes wrong |

## Where the code does less than one would expect

Each of these is proved: the exact condition under which the code does meet the property, and an
input or a run on which it does not.

- A request refused for lack of a page is still charged to the process. The leak report at its end
  is exact in blocks iff nothing was refused, and in bytes iff only requests of size 0 were
  (`HeapTheorems.LeakReportExactIff`); when a request is refused is `HeapTheorems.NoPageIff`. A run
  with a wrong report: `HeapWitnesses.LeakReportCanBeWrong`.
- Loops that remove by index and still advance skip the element after each removal. At the end of a
  process all its heap entries go iff no two of them are neighbours (`HeapTheorems.FinishClearsIff`);
  a run that leaves one: `HeapWitnesses.EntryLeftBehind`. No other process is affected
  (`FinishCorrect`). The sweep over the processes to end takes every other one; the tokens left
  always suffice for the rest (`NoLostWakeUp`, `ServedInTurn`).
- Compaction leaves no two free neighbours iff the page, of three blocks or more, does not end in an
  empty free block behind a free one (`PageOps.CompactPageLeavesPairIff`); a run that leads to such
  a page: `HeapWitnesses.PairReached`.
- Killing a process queued in an ANSISOP semaphore does not give its unit back. A queue that equals the
  debt goes on doing so all along a run iff no process queued in that semaphore is killed
  (`SchedulerRuns.DebtOverRuns`). After a kill the debt exceeds the queue until a signal that finds
  the queue empty pays for it and wakes nobody (`SchedulerWitnesses.KilledWaiter`).
- An argument defined in a frame that already has variables gets a word that the next definition
  gets as well, and only such an argument does (`StackTheorems.NextWordIsFresh`, `WordShared`).
- Storing a program uses `strncpy`, which copies a page as it is iff only NULs follow its first NUL
  (`ProgramImage.StrNCpyFaithful`; a piece it changes: `StrNCpyLoses`).
- The guard of the instruction fetch looks at the length alone. From memory, an instruction it lets
  through is fetched exactly, whatever is written elsewhere, iff it ends within the next page, or the
  frame behind that page holds a page of the same program that begins as the instruction ends
  (`ProgramOverrun.AlwaysExactIff`); when no other page of the process can be there, that is iff the
  three pages lie in a row (`InARowIff`). A server on which it is fetched wrong:
  `ProgramWitnesses.ReadsAnotherProcess`.
- The cache cannot be told from memory as long as reads end within their page
  (`MemoryTheorems.RunTransparent`, `RawWithin`). A fetch past its second page reads the next cache
  entry when that page is cached, and is exact iff that entry holds the rest
  (`ProgramCached.PastExactIff`, `BehindInCache`), which no text of four bytes or more does
  (`CachedNeverExact`). A server that answers the same fetch rightly and then wrongly:
  `ProgramWitnesses.AnswersTwice`.

## Model

| member | source | states |
|---|---|---|
| `HeapPage.LiveDisjoint` | Kernel/src/heap.h:258-304 | two live payloads of a tiled page are at least a header apart, and the later one ends inside the page |
| `HeapPage.LiveAt` | Kernel/src/heap.h:258-304 | every block in use owns exactly the bytes that follow its header, for as long as its size says |
| `HeapPage.ReplaceRun` | Kernel/src/heap.h:189-225 | rewriting the headers of a stretch of blocks by other blocks of the same extent keeps the tiling and the live payloads outside it |
| `HeapPage.ReadMeta` | Kernel/src/heap.h:342-368 | a header read at a block boundary gives that block's mark and size |
| `PageOps.CompactPageCorrect` | Kernel/src/heap.h:189-225 | compaction of a page with at least two blocks keeps the tiling, every live payload byte for byte at its offset, and frees exactly eight bytes per merge |
| `PageOps.CompactPageLeavesPairIff` | Kernel/src/heap.h:189-225 | compaction leaves no two free neighbours iff the page it is given, of three blocks or more, does not end in an empty free block behind another free block |
| `PageOps.PairRemains` | Kernel/src/heap.h:200 | a family of pages that compaction leaves as they are, with two free neighbours |
| `HeapWitnesses.PairReached` | Kernel/src/heap.h:189-225 | a run of four requests after which a page between requests has two free neighbours that compaction will not merge |
| `PageOps.CompactCorrect` | Kernel/src/heap.h:200-225 | the same from any point of the walk: what lies behind it is not touched |
| `PageOps.SplitCorrect` | Kernel/src/heap.h:258-304 | splitting the chosen block adds one live payload of exactly the requested size, keeps all others and takes size plus one header from the free bytes |
| `PageOps.FreeCorrect` | Kernel/src/heap.h:388-434 | freeing a live block removes its payload and no other, and gives its size back to the free bytes |
| `PageOps.WriteCorrect` | Kernel/src/heap.h:248-251 | a store inside a live payload changes that payload only, and no header |
| `PageOps.FirstFit` | Kernel/src/heap.h:342-368 | the block found is free and can be split for the size; every earlier one is not; -1 means none is |
| `Heap.CompactPageKeeps` | Kernel/src/heap.h:189-241 | compaction keeps the page tiled, its counter exact and its live payloads as they were |
| `Heap.SingleBlockFits` | Kernel/src/Kernel.c:512-515 | a page with one block serves every request within the limit at once, which is why a page between requests has at least two blocks |
| `Heap.CarveKeeps` | Kernel/src/heap.h:258-304 | reserving in a block leaves the page with at least two blocks and its counter exact, with one new payload of exactly the size asked for |
| `Heap.FreeKeeps` | Kernel/src/heap.h:388-434 | releasing keeps tiling and counter, and drops that payload alone |
| `Heap.FreshTiled` | Kernel/src/heap.h:157-186 | a new page is one free block from its first byte to its last, whatever the frame held before |
| `Heap.SearchCorrect` | Kernel/src/heap.h:122-154 | the search touches only pages of the process; a page it returns has a fit; a page it passes over was short of free bytes or, once compacted, has no single block that fits |
| `HeapRuns.OverLimitIff` | Kernel/src/Kernel.c:512-515 | the limit is compared on size_t: a request is refused iff its size is negative or leaves no room for two headers |
| `HeapRuns.LiveBlock` | Kernel/src/heap.h:388-402 | a live pointer leads back to the header of a block in use whose size is the payload's length |
| `HeapTheorems.AllocateCorrect` | Kernel/src/heap.h:64-109 | an allocation that is placed gives a pointer nobody had, inside its page, with exactly the size asked for, and changes no other live byte of any page; a refused one changes no live byte; the invariant holds after either |
| `HeapTheorems.ReleaseCorrect` | Kernel/src/Kernel.c:535-547 | liberar on a live pointer ends that payload only, and adds its length to the process's freed bytes |
| `HeapTheorems.StoreCorrect` | Kernel/src/heap.h:248-251 | a program's store into a block it owns changes that payload and nothing else |
| `HeapTheorems.FinishCorrect` | Kernel/src/heap.h:324-340 | the end of a process leaves the heap of every other process as it was, whatever the removal loop skips |
| `HeapTheorems.FinishClearsIff` | Kernel/src/heap.h:324-340 | the end of a process clears all its entries iff no two of them are neighbours in listaAdmHeap |
| `HeapWitnesses.EntryLeftBehind` | Kernel/src/heap.h:324-340 | a run in which a process fills two pages, ends, and leaves one entry behind |
| `HeapTheorems.StepInv` | Kernel/src/heap.h:64-434 | every request keeps the tiling, the counters, the page numbers and the accounts in step |
| `HeapTheorems.ReachableWellFormed` | Kernel/src/heap.h:157-434 | in every reachable state the headers tile each page from 0 to its end, there are at least two, and sizeDisponible is the exact free total |
| `HeapTheorems.RunIsolated` | Kernel/src/heap.h:64-434 | over every run of starts, allocations, compactions, frees, stores and ends, a live payload that no request names keeps every byte at its offset |
| `HeapTheorems.LivePayloadsApart` | Kernel/src/heap.h:258-304 | in every reachable state the live payloads of a page are disjoint, a header apart, and inside the page |
| `HeapTheorems.NoPageIff` | Kernel/src/heap.h:64-91 | a request is refused for lack of a page iff it is within the limit, no page of the process is of use for it, and the memory server grants none |
| `Heap.SearchFailsIff` | Kernel/src/heap.h:122-154 | the search fails iff every page of the process is short of free bytes or, once compacted, has no single block that fits |
| `HeapTheorems.LeakReportIff` | Kernel/src/planificacion.h:279-298 | cantAlocar - cantLiberar and the byte difference exceed what is live by what the process was refused for lack of a page; a report exact in blocks is exact in bytes |
| `HeapTheorems.RunLeakReport` | Kernel/src/contabilidad.h:89-105 | over every run the report exceeds the live blocks by the number of refusals of that run, and the live bytes by the sum of their sizes |
| `HeapTheorems.LeakReportExactIff` | Kernel/src/planificacion.h:279-298 | from the start of a process on, its report is exact in blocks iff the run refuses it nothing for lack of a page, and in bytes iff it refuses only requests of size 0 |
| `HeapWitnesses.LeakReportCanBeWrong` | Kernel/src/Kernel.c:517-526 | a run with one refused request whose report is one block and that many bytes too high |
| `HeapTheorems.PageNumbersAgree` | Kernel/src/planificacion.h:687-711 | after any run, refusals included, the page the kernel computes for the next heap page is the number of pages the memory server has given the process |
| `Lists.DropsAllIff` | Kernel/src/heap.h:324-340 | a removal loop that advances past what it removes clears everything it should iff no two such elements are neighbours |
| `Lists.DropTurn` | Kernel/src/heap.h:331-338 | one turn of that loop is one unfolding of its specification |
| `Lists.DropsEveryOther` | Kernel/src/heap.h:324-340 | of elements to remove that stand in a row that loop removes the first, the third and so on, and leaves everything else in order |
| `KernelHeap.Kernel.constructor` | Kernel/src/heap.h:45 | a kernel over a memory server that has given no page out starts with an empty, valid heap |
| `KernelHeap.Kernel.CompactHeapPage` | Kernel/src/heap.h:189-241 | the loop over headers in memory ends with the page and its counter as compaction specifies; every header it reads lies in the page |
| `KernelHeap.Kernel.FindFit` | Kernel/src/heap.h:342-368 | the walk over headers in memory returns the offset of the first block that fits, or -1 |
| `KernelHeap.Kernel.ReserveBlock` | Kernel/src/heap.h:258-304 | the two headers written and the counter update make the page what the split specifies |
| `KernelHeap.Kernel.SearchPages` | Kernel/src/heap.h:122-154 | the loop over listaAdmHeap finds the page and offset the specification finds, having compacted the pages the specification compacts |
| `KernelHeap.Kernel.GrantPages` | Kernel/src/conexionMemoria.h:60-71 | the memory server's answer: on success the process has that many pages more, numbered on from what it had, and every other count is unchanged; on failure its table is unchanged and too few frames were free |
| `KernelHeap.Kernel.ReserveHeapPage` | Kernel/src/heap.h:157-186 | the new page exists in the memory server under the number the kernel computed and holds one free block |
| `KernelHeap.Kernel.ReserveSpace` | Kernel/src/heap.h:64-109 | the whole request does to memory, to listaAdmHeap and to the account what the state machine says, and answers what it answers |
| `KernelHeap.Kernel.Allocate` | Kernel/src/Kernel.c:505-527 | gestionarAlocar refines one step of the heap state machine; it answers that there is no page iff the request is within the limit, no page of the process is of use for it and no frame of the memory server is free; code and stack pages keep their bytes |
| `KernelHeap.Kernel.FreeBlock` | Kernel/src/heap.h:388-434 | the header rewritten in memory, the counter and the account end as releasing specifies |
| `KernelHeap.Kernel.Release` | Kernel/src/Kernel.c:535-547 | gestionarLiberar refines one step of the heap state machine; code and stack pages keep their bytes |
| `KernelHeap.Kernel.StoreOwn` | Kernel/src/conexionMemoria.h:24-40 | a store into a code or stack page changes that page as written, no other one, and nothing of the heap |
| `KernelHeap.Kernel.Store` | CPU/src/Lecto-EscrituraMemoria.h:23-37 | a program's store through the memory server refines one step of the heap state machine |
| `KernelHeap.Kernel.Admit` | Kernel/src/conexionMemoria.h:80-95 | a process is admitted, with all its code and stack pages, iff that many frames are free; if not, nothing changes |
| `KernelHeap.Kernel.Finish` | Kernel/src/planificacion.h:270-298 | the end of a process refines one step: its frames go back, other processes keep theirs |
| `KernelHeap.Kernel.DropAdmin` | Kernel/src/heap.h:324-340 | the removal loop leaves exactly the entries the skipping specification leaves |
| `KernelHeap.AllocateCharges` | Kernel/src/contabilidad.h:89-96 | whatever the answer, an allocation moves only the caller's account and page count, by exactly one request of that size |
| `HeapLaws.AllocateWhere` | Kernel/src/heap.h:64-154 | where a request goes: into the first fitting block of the first page of the process that can serve it, once compacted, and no page is asked for; otherwise to the start of a new page numbered behind the others; which pages are compacted, and which bytes are written |
| `HeapLaws.SearchExact` | Kernel/src/heap.h:122-154 | the search compacts the pages of the process with enough free bytes up to the one it takes, and touches no other |
| `HeapLaws.PageTouches` | Kernel/src/heap.h:189-241 | compaction writes headers of the blocks it leaves, and no other byte |
| `HeapLaws.ReleaseWhere` | Kernel/src/Kernel.c:535-547 | freeing marks one block, merges nothing, and charges the process one system call and one release of that size |
| `HeapLaws.StoreWhere` | Kernel/src/heap.h:248-251 | a store changes bytes of one page and nothing the kernel keeps |
| `HeapLaws.StartWhere` | Kernel/src/planificacion.h:118-160 | a process starts with nothing charged and its first heap page numbered behind its code and stack |
| `HeapLaws.FinishWhere` | Kernel/src/planificacion.h:279-298 | a process that ends is gone from the books, and nothing of any other changes |
| `MemoryTable.CountUpdate` | Memoria/src/Memoria.c:752-769 | changing one entry moves the frame counts of its old and new owner by one each, and no other |
| `MemoryTable.FrameAfterTable` | Memoria/src/Memoria.c:178-209 | a page of a process exists iff its number is below the process's frame count, and its frame lies beyond those of the table |
| `MemoryTable.FrameIs` | Memoria/src/Memoria.c:663-691 | an entry that holds a pair is at the frame a scan from the start finds for it |
| `MemoryTable.AssignOneInv` | Memoria/src/Memoria.c:255-259 | giving a free frame to a process keeps entry i at frame i, pairs unique and pages 0 to n-1, and adds page n |
| `MemoryTable.AssignKeepsFrame` | Memoria/src/Memoria.c:255-259 | every page mapped before stays in its frame |
| `MemoryTable.WipeInv` | Memoria/src/Memoria.c:644-661 | ending a process frees all its frames and leaves the others', the table staying well formed |
| `MemoryTable.DecodeEncodeEntry` | Memoria/src/Memoria.c:627-642 | a table entry written to memory is read back the same |
| `MemoryTable.WriteEntry` | Memoria/src/Memoria.c:627-642 | writing entry i in memory changes that entry of the table and no frame of any process |
| `MemoryTable.WriteData` | Memoria/src/Memoria.c:237-253 | a write inside a frame of a process changes that frame and never a byte of the table |
| `MemorySpec.SlotOf` | Memoria/src/Memoria.c:1074-1091 | the first cache slot that holds the page, or -1 when none does |
| `MemorySpec.Oldest` | Memoria/src/Memoria.c:1183-1196 | the slot chosen has the least stamp of all |
| `MemorySpec.LastTouch` | Memoria/src/Memoria.c:1130-1132 | when a slot was last inserted, hit or written through, from the history of the run |
| `MemoryTheorems.InitTableInv` | Memoria/src/Memoria.c:178-209 | the table as built at the start is well formed and gives no process a frame |
| `MemoryTheorems.AssignManyInv` | Memoria/src/Memoria.c:424-457 | a request for n pages takes n free frames, numbers them on from what the process had, and moves nobody else's |
| `MemoryTheorems.PagesAreAPrefix` | Memoria/src/Memoria.c:663-691 | a process with n frames has exactly the pages 0 to n-1 |
| `MemoryTheorems.FramesDiffer` | Memoria/src/Memoria.c:735-750 | two different pages lie in two different frames |
| `MemoryTheorems.CoreWriteCorrect` | Memoria/src/Memoria.c:237-253 | a write changes the bytes named in the page named, and no other page, no other byte, nor the table; it fails iff the page does not exist |
| `MemoryTheorems.CoreAssignCorrect` | Memoria/src/Memoria.c:424-457 | a request for pages succeeds iff enough frames are free; all mapped pages keep their bytes |
| `MemoryTheorems.CoreFinishCorrect` | Memoria/src/Memoria.c:261-269 | after the end of a process it has no page, and every other process has the pages and bytes it had |
| `MemoryTheorems.ReadStep` | Memoria/src/Memoria.c:356-395 | a read, hit or miss, gives the bytes of the page in memory, fails iff the page does not exist, and keeps the cache sound |
| `MemoryTheorems.WriteStep` | Memoria/src/Memoria.c:397-423 | a write goes to memory and, if the page is cached, to the cache, which stays equal to memory |
| `MemoryTheorems.AssignStep` | Memoria/src/Memoria.c:424-457 | giving out pages keeps the cache sound |
| `MemoryTheorems.FinishStep` | Memoria/src/Memoria.c:458-467 | ending a process empties its slots and keeps the cache sound |
| `MemoryTheorems.FlushStep` | Memoria/src/Memoria.c:988-1013 | flushing empties every slot and keeps the cache sound |
| `MemoryTheorems.TouchInv` | Memoria/src/Memoria.c:1111-1133 | filling a slot with a page as it is in memory keeps keys unique, quotas respected and stamps equal to the history |
| `MemoryTheorems.RunTransparent` | Memoria/src/Memoria.c:356-467 | over every run of assign, read, write, finish and flush, the answers and the memory left are those of a server with no cache that scans its table from the start |
| `MemoryTheorems.ReachableSound` | Memoria/src/Memoria.c:1111-1217 | in every reachable state an occupied slot is a mapped page equal to its frame, no page is cached twice, no process is over its quota, and pages 0 to n-1 of each process lie beyond the table |
| `MemoryTheorems.ReadAfterWrite` | Memoria/src/Memoria.c:356-423 | a read after a write to the same place gives what was written |
| `MemoryTheorems.VictimIsOldest` | Memoria/src/Memoria.c:1166-1198 | the slot given up was never used, if there is such a slot; if not, its last insertion, hit or write-through is strictly the oldest |
| `MemoryTheorems.StampsDiffer` | Memoria/src/Memoria.c:1130-1163 | stamps in use are pairwise different and below the counter |
| `MemoryLaws.ReadUses` | Memoria/src/Memoria.c:356-395 | which slot a read uses, fills or gives up, and its answer: the page is cached afterwards iff it was or the process had room, no other slot changes, 0 from the cache and the frame from memory |
| `MemoryLaws.WriteUses` | Memoria/src/Memoria.c:397-424 | a write uses the slot of its page, if there is one, and touches no other; it answers the frame |
| `MemoryLaws.AssignUses` | Memoria/src/Memoria.c:424-457 | giving out pages leaves the cache and the frames' bytes alone |
| `MemoryLaws.FinishUses` | Memoria/src/Memoria.c:1200-1217 | the end of a process empties its slots and no other; pages of others are found where they were |
| `MemoryLaws.OtherAnswer` | Memoria/src/Memoria.c:261-269 | and reading them answers what it would have, code and bytes |
| `MemoryLaws.FlushUses` | Memoria/src/Memoria.c:988-1012 | flushing empties every slot and stamp, and leaves memory as it is |
| `MemoryLaws.VictimIsFirst` | Memoria/src/Memoria.c:1166-1198 | of several slots never used the first is given up |
| `MemoryLaws.FirstFrames` | Memoria/src/Memoria.c:424-457 | a process gets the first free frames, its pages in their order |
| `MemoryTable.LeastFrames` | Memoria/src/Memoria.c:180 | the table takes no frame more than it needs |
| `MemoryTheorems.StoreBytesInPlace` | Memoria/src/Memoria.c:237-253 | the memcpy at frame times size plus offset does to the bytes of memory what the write specifies |
| `MemoryServer.Memory.constructor` | Memoria/src/Memoria.c:140-209 | the server starts with the table built in its first frames and every cache slot empty |
| `MemoryServer.Memory.InitTableEntries` | Memoria/src/Memoria.c:178-209 | the loop writes the initial table and touches no frame of a process |
| `MemoryServer.Memory.HashStart` | Memoria/src/Memoria.c:1219-1221 | the hash is a frame number, wrapping below the table included |
| `MemoryServer.Memory.HashWalks` | Memoria/src/Memoria.c:1219-1221 | the first page of the first process is looked for right behind the table, every further page and process one frame on, around the end |
| `MemoryServer.Memory.FindFrame` | Memoria/src/Memoria.c:663-691 | the two-segment probe from the hash returns a frame iff a scan of the whole table finds one, and then that frame |
| `MemoryServer.Memory.FindFree` | Memoria/src/Memoria.c:735-750 | the first free frame, or none |
| `MemoryServer.Memory.CountPages` | Memoria/src/Memoria.c:752-769 | how many frames a process has, counted from the bytes of the table |
| `MemoryServer.Memory.FindSlot` | Memoria/src/Memoria.c:1074-1091 | the loop over the cache finds the slot of the page, or none |
| `MemoryServer.Memory.CountSlots` | Memoria/src/Memoria.c:1093-1109 | how many slots a process holds |
| `MemoryServer.Memory.FindVictim` | Memoria/src/Memoria.c:1166-1198 | the loop over the stamps finds the never-used or oldest slot |
| `MemoryServer.Memory.InsertSlot` | Memoria/src/Memoria.c:1111-1133 | the victim slot becomes the page, copied from its frame, with the next stamp |
| `MemoryServer.Memory.RefreshSlot` | Memoria/src/Memoria.c:1135-1153 | a cached page is copied again from its frame, with the next stamp |
| `MemoryServer.Memory.EvictSlots` | Memoria/src/Memoria.c:1200-1217 | exactly the slots of the process are emptied, every other slot is as it was; stamps stay |
| `MemoryServer.Memory.ClearCache` | Memoria/src/Memoria.c:988-1013 | every slot is emptied and every stamp reset |
| `MemoryServer.Memory.RequestBytes` | Memoria/src/Memoria.c:356-395 | the request on arrays, of any size, refines the specified read, cache and stamps included |
| `MemoryTheorems.RawWithin` | Memoria/src/Memoria.c:356-395 | a read that ends within its page is the read that the cache does not show in |
| `MemoryTheorems.RawStep` | Memoria/src/Memoria.c:356-395 | a read of any size keeps the cache sound and memory as it was, and succeeds iff the page exists |
| `MemoryTheorems.FrameRunIs` | Memoria/src/Memoria.c:224-235 | the memcpy of a miss gives the bytes of the frame and then of the frame behind it |
| `MemoryServer.Memory.StoreInFrame` | Memoria/src/Memoria.c:237-253 | the bytes go to the page's frame, or nowhere with -1; the table is not touched |
| `MemoryServer.Memory.StoreBytes` | Memoria/src/Memoria.c:397-423 | the request on arrays refines the specified write, write-through included |
| `MemoryServer.Memory.WriteAdmin` | Memoria/src/Memoria.c:627-642 | n entries in a row are written for the process, numbered on, and no other entry changes |
| `MemoryServer.Memory.AssignPages` | Memoria/src/Memoria.c:424-457 | the loop over free frames refines the specified assignment, all pages or none |
| `MemoryServer.Memory.WipeTable` | Memoria/src/Memoria.c:644-661 | the loop frees the frames of the process and no other |
| `MemoryServer.Memory.FinishProgram` | Memoria/src/Memoria.c:261-269 | ending a process on arrays refines the specified end; the cached pages of the others stay in their slots |
| `MemoryServer.Memory.FlushCache` | Memoria/src/Memoria.c:857-861 | flushing on arrays refines the specified flush |
| `Bytes.DecodeEncodeInt` | Kernel/src/pcb.h:118-186 | an int copied into a buffer is read back the same, negative ones included |
| `Pcb.RoundTrip` | Kernel/src/pcb.h:107-288 | for every PCB, whatever follows it in the stream, decoding its encoding gives back that PCB and leaves just what followed |
| `Pcb.PrefixFree` | Kernel/src/pcb.h:107-288 | no two PCBs share an encoding and none begins another's |
| `Pcb.NodeInverts` | Kernel/src/pcb.h:138-181 | the same for one stack node, with its arguments and variables |
| `Layouts.PcbLayout` | Kernel/src/pcb.h:107-187 | at which byte of the message each field lies |
| `Layouts.CodeLayout` | Kernel/src/pcb.h:125-130 | start and length of instruction i, eight bytes further on for each |
| `Layouts.NodesLayout` | Kernel/src/pcb.h:148-177 | the frames follow each other, the oldest first |
| `Layouts.NodeLayout` | Kernel/src/pcb.h:148-177 | the fields of a frame, counts before their elements, return data last |
| `Layouts.NodeItems` | Kernel/src/pcb.h:153-167 | argument and variable i of a frame, twelve and thirteen bytes further on for each |
| `Layouts.PositionLayout` | Kernel/src/pcb.h:16-21 | page, offset, size |
| `Layouts.VariableLayout` | Kernel/src/pcb.h:161-167 | the name, then its place |
| `Layouts.UintBytes` | Kernel/src/pcb.h:118-119 | an unsigned int is four bytes, the least significant first |
| `Layouts.IntBytes` | Memoria/src/Memoria.c:178-209 | an int is four bytes, the least significant first, in two's complement |
| `Layouts.EntryLayout` | Memoria/src/Memoria.c:58-63 | frame, pid, page |
| `Layouts.HeaderLayout` | Kernel/src/heap.h:28-32 | 1 or -1 for the use mark, then the size |
| `Layouts.SlotLayout` | Memoria/src/Memoria.c:1127-1129 | pid, page, content |
| `PcbWire.StackSize` | Kernel/src/pcb.h:339-348 | the loop over the frames gives the bytes the stack takes |
| `PcbWire.SerializedSize` | CPU/src/PCB.h:322-342 | the size computed beforehand is exactly the length of the encoding |
| `PcbWire.Serialize` | Kernel/src/pcb.h:107-187 | the cursor loops fill a buffer of the computed size with the encoding, no byte past it and none left over |
| `PcbWire.Deserialize` | CPU/src/PCB.h:178-276 | the reading loops give the PCB that the bytes decode to, and stop where the decoding stops |
| `PcbWire.Send` | Kernel/src/pcb.h:107-187 | the message is the size followed by that many bytes of encoding |
| `PcbWire.Receive` | CPU/src/PCB.h:178-276 | what the other program takes off the stream is the same PCB, and what comes behind the message is left |
| `Scheduler.EnabledMeans` | Kernel/src/planificacion.h:388-401 | a token of sem_procesoListo means a process in colaListos, and a pid queued in a semaphore is in colaBloqueados: no step takes from an empty queue |
| `SchedulerTheorems.DispatchKeeps` | Kernel/src/planificacion.h:388-448 | a dispatch finds an idle CPU and keeps the invariant |
| `SchedulerTheorems.LeaveCpuKeeps` | Kernel/src/excepciones.h:270-290 | a process off its CPU leaves exactly one place in colaEjecucion, and its CPU is idle behind all CPUs that are idle |
| `SchedulerTheorems.QuantumEndKeeps` | Kernel/src/Kernel.c:215-239 | the end of a quantum keeps the invariant |
| `SchedulerTheorems.TakeOffKeeps` | Kernel/src/excepciones.h:183-254 | finishing and every exception keep the invariant, the one that posts its token twice included |
| `SchedulerTheorems.ExpropriatedKeeps` | Kernel/src/Kernel.c:475-502 | handing over a killed process keeps the invariant |
| `SchedulerTheorems.WaitKeeps` | Kernel/src/semaforosAnsisop.h:91-145 | a wait, blocking or not, keeps the invariant |
| `SchedulerTheorems.SignalKeeps` | Kernel/src/semaforosAnsisop.h:147-249 | a signal, waking or not, keeps the invariant |
| `SchedulerTheorems.EndSweepKeeps` | Kernel/src/planificacion.h:176-197 | the sweep that takes every other process keeps the invariant: tokens left are never fewer than processes left |
| `SchedulerTheorems.KillKeeps` | Kernel/src/Kernel.c:369-448 | killing an admitted process wherever it is keeps the invariant |
| `SchedulerTheorems.AdmitKeeps` | Kernel/src/planificacion.h:118-160 | a turn of the admission thread keeps the invariant, the degree never passing the configured one |
| `SchedulerTheorems.ExecutingIsRunning` | Kernel/src/planificacion.h:403-411 | a CPU marked EJECUTANDO always executes a process of colaEjecucion |
| `SchedulerTheorems.ForgetPids` | Kernel/src/planificacion.h:231-247 | the nested removal loops take the killed pid out of every semaphore and no other pid |
| `SchedulerTheorems.StepInv` | Kernel/src/planificacion.h:118-448 | every step keeps the queues a partition of the pids, CPUs and queues in step, and each thread's semaphore equal to what it counts |
| `SchedulerRuns.InitialInv` | Kernel/src/Kernel.c:559-584 | the kernel starts within the invariant, for any configuration of semaphores |
| `SchedulerRuns.OnePlaceEach` | Kernel/src/planificacion.h:118-448 | in every reachable state a pid found in two places of the six queues is the same place twice, and was given out |
| `SchedulerRuns.EveryPidHasAPlace` | Kernel/src/planificacion.h:118-448 | in every reachable state every pid given out is in some queue |
| `SchedulerRuns.RunningMatchesCpus` | Kernel/src/planificacion.h:403-430 | in every reachable state a pid is in colaEjecucion iff some CPU executes it, and no two CPUs execute the same one |
| `SchedulerRuns.BlockedMatchesSemaphores` | Kernel/src/semaforosAnsisop.h:127-227 | in every reachable state a pid is blocked iff a semaphore queues it; only one does, and once |
| `SchedulerRuns.NoLostWakeUp` | Kernel/src/planificacion.h:118-228 | in every reachable state tokens of admission are at least min(newcomers, room); a thread sleeps only when it has nothing to do: no newcomer below the degree, nobody to end, no idle CPU while something is ready; the degree counts the admitted processes not ended and is within the configuration |
| `SchedulerRuns.DispatchStartsTheFirst` | Kernel/src/planificacion.h:396-441 | the branch that puts the process back in colaListos is unreachable: every dispatch starts the process that has been ready longest |
| `SchedulerLines.IdleStep` | Kernel/src/excepciones.h:270-290 | idle CPUs are a line: a CPU that connects or is vacated goes to its end, a dispatch takes its first, no other step moves any |
| `SchedulerLines.IdleInTurn` | Kernel/src/planificacion.h:388-448 | over every run the idle CPU at position k gets a process at exactly dispatch number k + 1 |
| `SchedulerLines.CpuStep` | Kernel/src/excepciones.h:270-290 | through the rotations of listaCPU a CPU reacts only to the dispatch that takes it and to its own requests |
| `SchedulerLines.WaitingSteps` | Kernel/src/planificacion.h:118-448 | who enters and leaves colaNuevos, colaListos and colaBloqueados, and at which end |
| `SchedulerLines.RunningSteps` | Kernel/src/planificacion.h:388-448 | the same of colaEjecucion and of the words left for processes |
| `SchedulerLines.EndingSteps` | Kernel/src/planificacion.h:176-197 | the same of listaEspera and colaTerminados |
| `SchedulerLines.TokenSteps` | Kernel/src/planificacion.h:118-228 | what each step posts and takes, two tokens after a stack overflow included |
| `SchedulerLines.TokensOverRuns` | Kernel/src/planificacion.h:118-228 | over every run tokens are conserved: arrivals and ends against turns of admission, processes handed over against turns of the sweep |
| `SchedulerLines.SemOrder` | Kernel/src/semaforosAnsisop.h:163-281 | a wait or a signal moves its semaphore to the end of colaSemaforos, the others keep their order |
| `SchedulerRuns.SemStep` | Kernel/src/semaforosAnsisop.h:163-281 | through the rotations of the list a semaphore reacts only to its own waits and signals and to the end of a process it queues |
| `SchedulerRuns.LineStep` | Kernel/src/planificacion.h:388-401 | whoever waits in a line is served or never moves back, and moves up when others of the line are served |
| `SchedulerRuns.ServedMeans` | Kernel/src/planificacion.h:176-228 | being served means admitted, put on a CPU, woken or ended |
| `SchedulerRuns.ServedInTurn` | Kernel/src/planificacion.h:118-448 | over every run, whoever waits at position k for admission, for a CPU, in a semaphore or to be ended is served within k + 1 services of that line, unless killed |
| `SchedulerRuns.KillReachesItsProcess` | Kernel/src/Kernel.c:451-502 | over every run, word left for a process killed on its CPU stays until a CPU hands that process over |
| `SchedulerKills.FateStep` | Kernel/src/Kernel.c:369-502 | a step ends an admitted process iff it hands it over on its word, takes it off its CPU for good, or kills it where it waits; a word comes only with a kill on the CPU and goes only when it is used |
| `SchedulerKills.FateOverRuns` | Kernel/src/Kernel.c:369-502 | over every run an admitted process is over iff the run ends it in one of these ways, and of all words there were and came, one is used iff it was ended by its word |
| `SchedulerKills.WordsOfTheDead` | Kernel/src/Kernel.c:475-502 | a word left for a process that is over stays for good; the process never runs again and gets no further word |
| `SchedulerKills.KilledOnItsCpu` | Kernel/src/excepciones.h:217-254 | a process killed once, on its CPU: its word is gone iff it ended the process, left behind iff the process finished or raised an exception first, and waiting iff the process still goes on |
| `SchedulerKills.EitherMayCome` | Kernel/src/Kernel.c:451-502 | from every state with a process on its CPU, both a run that ends it by its word and one that leaves the word behind are possible |
| `SchedulerRuns.ValueCounts` | Kernel/src/semaforosAnsisop.h:163-249 | over every run a semaphore's value is its initial value minus waits plus signals |
| `SchedulerRuns.DebtStep` | Kernel/src/planificacion.h:231-247 | a step keeps a queue equal to max(0, -value) iff it does not kill a process queued there |
| `SchedulerRuns.DebtOverRuns` | Kernel/src/semaforosAnsisop.h:163-249 | the queue of a semaphore holds exactly max(0, -value) processes in every state of a run iff it does at the start and no step kills a process queued in that semaphore |
| `SchedulerRuns.DebtAtStart` | Kernel/src/semaforosAnsisop.h:61-80 | at the start it does iff the configured value is not negative |
| `SchedulerWitnesses.KilledWaiter` | Kernel/src/planificacion.h:231-247 | a run that kills a queued process: the semaphore owes one wake-up nobody waits for, the next signal wakes nobody, and the process that signalled and then waits is blocked for good |
| `SchedulerRuns.QueueWithinDebt` | Kernel/src/semaforosAnsisop.h:163-249 | in every reachable state, kills included, a queue is never longer than max(0, -value) |
| `SchedulerKernel.Kernel.constructor` | Kernel/src/semaforosAnsisop.h:61-80 | the lists start empty, each configured semaphore with its value and nobody queued, and the state is valid |
| `SchedulerKernel.Kernel.NewProgram` | Kernel/src/Kernel.c:153-183 | the program gets a pid that is in no queue, waits with the newcomers, and the state stays valid |
| `SchedulerKernel.Kernel.AdmitNewProcess` | Kernel/src/planificacion.h:118-160 | the longest-waiting newcomer is ready and no longer new iff there is one and the degree has room; the degree stays within the configuration; the state stays valid |
| `SchedulerKernel.TakePid` | Kernel/src/excepciones.h:282-290 | the search loop takes the first occurrence of a pid out of a list, and leaves the list alone when it is not there |
| `SchedulerTheorems.OneQueue` | Kernel/src/planificacion.h:118-448 | in a valid state a pid is in one queue only, and one not given out is in none |
| `SchedulerKernel.Kernel.TerminateListed` | Kernel/src/planificacion.h:186-191 | the loop that removes at a growing index ends every other process and leaves the rest in order |
| `SchedulerKernel.Kernel.EndProcesses` | Kernel/src/planificacion.h:176-197 | whoever has waited longest is ended, everyone left still has a token, and the state stays valid |
| `SchedulerKernel.Kernel.NewCpu` | Kernel/src/Kernel.c:203-213 | the CPU is idle behind all CPUs that are idle, and the state stays valid |
| `SchedulerKernel.Kernel.WaitForCpu` | Kernel/src/planificacion.h:393 | past sem_CPU some CPU is idle |
| `SchedulerKernel.Kernel.DispatchProcess` | Kernel/src/planificacion.h:388-448 | the process that has been ready longest is executing on the CPU that has been idle longest, the other idle CPUs keep their order, and the state stays valid |
| `SchedulerKernel.Kernel.QuantumOver` | Kernel/src/Kernel.c:215-239 | the process is behind everyone ready and no longer runs, its CPU is idle, and the state stays valid |
| `SchedulerKernel.Kernel.TakeOffCpu` | Kernel/src/excepciones.h:183-254 | for a process that finishes and for every exception: it waits to be ended and no longer runs, its CPU is idle, and the state stays valid, the token posted twice included |
| `SchedulerKernel.Kernel.MustStop` | Kernel/src/Kernel.c:451-473 | the CPU is told to stop iff word was left for the process it executes |
| `SchedulerKernel.Kernel.ReceiveExpropriated` | Kernel/src/Kernel.c:475-502 | one word left for the process is taken back, it waits to be ended, its CPU is idle, and the state stays valid |
| `SchedulerKernel.Kernel.WaitSemaphore` | Kernel/src/semaforosAnsisop.h:91-145 | the process blocks, last in the queue of the semaphore and with its CPU idle, iff no unit was left; two removals and re-insertions of the semaphore make one step; the state stays valid |
| `SchedulerKernel.Kernel.SignalSemaphore` | Kernel/src/semaforosAnsisop.h:147-249 | the first of the queue, if any, is ready behind the others, the rest keep their order, and the state stays valid |
| `SchedulerKernel.Kernel.ForgetInSemaphores` | Kernel/src/planificacion.h:231-247 | both loops together leave the semaphores as specified |
| `SchedulerKernel.Kernel.FindAndTerminate` | Kernel/src/Kernel.c:369-448 | an admitted process is ended at once wherever it waits, unless a CPU executes it: then it goes on and word is left for it; the state stays valid |
| `Stack.SlotsApart` | CPU/src/PrimitivasDeInstrucciones.h:54-76 | slots lie whole inside a page and do not overlap; slot k is within the stack pages iff k is below stackSize * (P / 4) |
| `Stack.LastIsLast` | CPU/src/PrimitivasDeInstrucciones.h:34-48 | the search from the topmost frame down finds the place of the last live argument or variable |
| `StackTheorems.DefineSane` | CPU/src/PrimitivasDeInstrucciones.h:3-150 | whatever the program does, a place handed out is a whole word inside one stack page |
| `StackTheorems.DefineTakesNextSlot` | CPU/src/PrimitivasDeInstrucciones.h:3-150 | with slots 0 to n-1 taken a definition takes slot n and returns its address; it overflows iff n = stackSize * (P / 4), changing nothing; the slots stay packed iff it is not an argument after variables of its frame |
| `StackTheorems.NextWordIsFresh` | CPU/src/PrimitivasDeInstrucciones.h:34-76 | the definition after it gets a word of its own iff the first was not an argument after variables; otherwise both share one word |
| `StackTheorems.WordShared` | CPU/src/PrimitivasDeInstrucciones.h:34-76 | a program that defines a variable, an argument and a variable from an empty stack on shares a word between the last two |
| `StackTheorems.LookupAfterDefine` | CPU/src/PrimitivasDeInstrucciones.h:155-194 | looking a name up right after defining it gives that word iff it is a variable, or the digit is the argument's position |
| `StackTheorems.LookupOfOthers` | CPU/src/PrimitivasDeInstrucciones.h:155-194 | a definition does not change what any other name found in the frame means |
| `StackTheorems.LookupIff` | CPU/src/PrimitivasDeInstrucciones.h:155-194 | which names are found, and where: a variable iff the frame has one of that name, at the last of them; a digit iff there are that many arguments |
| `StackTheorems.DefineAdds` | CPU/src/PrimitivasDeInstrucciones.h:3-150 | a definition adds one argument or variable of that name at the end of the topmost frame and changes no other; an overflow changes nothing but that an empty stack has its first frame |
| `StackTheorems.StepInterrupt` | CPU/src/PrimitivasDeInstrucciones.h:3-314 | which step raises which interrupt: a definition with every word taken, a jump or call to a missing label; no other |
| `StackTheorems.StepCounter` | CPU/src/PrimitivasDeInstrucciones.h:243-314 | where programCounter goes at every step, wrap-around and missing labels included |
| `StackTheorems.CallPushes` | CPU/src/PrimitivasDeInstrucciones.h:283-314 | a call pushes an empty frame with its return data, label or no label |
| `StackTheorems.SameBits` | CPU/src/PrimitivasDeInstrucciones.h:283-314 | programCounter copied to an int and back keeps its bits |
| `StackTheorems.StepSane` | CPU/src/PrimitivasDeInstrucciones.h:243-314 | every primitive keeps all places inside stack pages |
| `StackTheorems.RunPacked` | CPU/src/PrimitivasDeInstrucciones.h:3-314 | over every run that defines arguments before variables, calls and returns included, the live arguments and variables are exactly the slots 0 to n-1 |
| `StackTheorems.PlacesApart` | CPU/src/PrimitivasDeInstrucciones.h:3-314 | over every such run no two of them share a byte |
| `StackTheorems.CallReturns` | CPU/src/PrimitivasDeInstrucciones.h:243-314 | a call, any balanced body and a return restore the frames and programCounter, and the result goes to the address the call named |
| `StackTheorems.JumpLands` | CPU/src/PrimitivasDeInstrucciones.h:298-305 | after a jump or a call the next instruction is the label's, label 0 included |
| `StackCpu.Cpu.FindLast` | CPU/src/PrimitivasDeInstrucciones.h:34-48 | the loop that leaves by setting its own index finds what the specification finds |
| `StackCpu.Cpu.DefineVariable` | CPU/src/PrimitivasDeInstrucciones.h:3-150 | with words 0 to n-1 taken it answers the address of word n, or 0 with the interrupt raised iff there is none; it refines its step |
| `StackCpu.Cpu.FindVariable` | CPU/src/PrimitivasDeInstrucciones.h:155-194 | the address of the last variable of that name or of the argument with that number, iff the frame has one; otherwise -1 and direccionInvalida |
| `StackCpu.Cpu.CallWithReturn` | CPU/src/PrimitivasDeInstrucciones.h:283-314 | the primitive refines its step, the missing label included |
| `StackCpu.Cpu.Return` | CPU/src/PrimitivasDeInstrucciones.h:243-281 | the primitive refines its step, and the four bytes of the result are written, through the memory server, at the place the call named |
| `ProgramImage.StrNCpyFaithful` | Kernel/src/conexionMemoria.h:109 | strncpy copies a piece of program as it is iff nothing but NULs follows its first NUL |
| `ProgramImage.StrNCpyLoses` | Kernel/src/conexionMemoria.h:109 | a piece with a byte behind a NUL, which strncpy loses |
| `ProgramImage.StringsStop` | Kernel/src/conexionMemoria.h:109 | a string is what comes before the first NUL; strncpy keeps that and fills the rest with NULs |
| `ProgramImage.CodePagesCover` | Kernel/src/pcb.h:359-362 | the pages computed hold the whole program and none of them is empty |
| `ProgramImage.PartitionSize` | Kernel/src/conexionMemoria.h:118-127 | the next piece is a whole page or all that is left |
| `ProgramImage.StoreProgram` | Kernel/src/conexionMemoria.h:97-116 | storing succeeds iff the process has all its code pages; each then holds its piece, and no other page of any process changes |
| `ProgramImage.LoadProcess` | Kernel/src/planificacion.h:163-174 | a new process loads iff free frames suffice for its code and stack; it then has just those pages with its program stored, and no page of another process changes |
| `ProgramOverrun.RawReadIs` | Memoria/src/Memoria.c:224-235 | a read that runs past its page copies the page and then the frame that lies behind it |
| `ProgramOverrun.RawReadStaysIff` | Memoria/src/Memoria.c:224-235 | what a read copies depends on the frame it names alone iff it ends within that frame |
| `ProgramOverrun.FetchExactIff` | CPU/src/ManejoInstrucciones.h:17-58 | an instruction that passes the length guard is fetched exactly iff it ends within the next page, or the frame behind that page happens to hold the rest of it |
| `ProgramOverrun.FetchReadsOtherFrame` | CPU/src/ManejoInstrucciones.h:17-58 | when that frame is not one of the process, changing one byte of it changes what is fetched while every page of the process stays as it was |
| `ProgramOverrun.AlwaysExactIff` | CPU/src/ManejoInstrucciones.h:17-58 | an instruction that passes the length guard is fetched exactly from every memory with the same page table and program iff it ends within the next page, or the frame behind that page is a page of the program that begins as the instruction ends |
| `ProgramOverrun.InARowIff` | CPU/src/ManejoInstrucciones.h:17-58 | when only the next page can lie there, the condition is that the three pages lie in a row |
| `ProgramCached.PastExactIff` | Memoria/src/Memoria.c:356-395 | through the cache, a fetch past its second page is exact iff the rest is what lies behind that page where the second read finds it |
| `ProgramCached.BehindInMemory` | Memoria/src/Memoria.c:224-235 | that is the next frame, when the page is not cached |
| `ProgramCached.BehindInCache` | Memoria/src/Memoria.c:1155-1164 | and the next cache entry, its pid and page first, when it is |
| `ProgramCached.UncachedIsRaw` | Memoria/src/Memoria.c:356-395 | a server that does not hold the second page fetches exactly what the fetch from memory alone does |
| `ProgramCached.CachedNeverExact` | Memoria/src/Memoria.c:1155-1164 | text that runs four bytes past a cached page, or any number with a free entry behind it, is never fetched exactly |
| `ProgramCached.SecondTimeWrong` | Memoria/src/Memoria.c:356-395 | from an empty cache, a fetch past its second page of a program in adjacent frames is exact the first time and wrong the second |
| `ProgramWitnesses.OneOfTwoIsWrong` | CPU/src/ManejoInstrucciones.h:17-58 | with the page table of the next run, two memories that agree on every page of the process do not agree on an instruction |
| `ProgramWitnesses.ReadsAnotherProcess` | CPU/src/ManejoInstrucciones.h:17-58 | a run of the server, two processes ended or alive around a third, on which an instruction of the third is fetched wrong |
| `ProgramWitnesses.AnswersTwice` | CPU/src/ManejoInstrucciones.h:17-58 | a run of the server on which the same fetch gives the instruction and then not |
| `ProgramImage.AskMemory` | CPU/src/Lecto-EscrituraMemoria.h:7-21 | the CPU gets what the server read up to its first NUL, or an error iff the page does not exist; within the page, that is the page's bytes |
| `ProgramImage.Fetch` | CPU/src/ManejoInstrucciones.h:4-58 | fetching through the memory server and its cache leaves the frames as they were; an instruction that ends within the next page is what the frames hold, a longer one what the cache or memory has behind that page |
| `ProgramImage.FetchFailsIff` | CPU/src/ManejoInstrucciones.h:17-58 | direccionInvalida iff the instruction is longer than two pages or needs a page that does not exist |
| `ProgramImage.FetchesProgram` | CPU/src/ManejoInstrucciones.h:4-58 | any stretch of a stored NUL-free program that ends within the page after the one it starts in is fetched exactly, one that ends on a page boundary included; one longer than two pages is direccionInvalida |
| `ProgramImage.CodeSurvives` | Kernel/src/conexionMemoria.h:97-116 | through any run of memory requests that neither ends the process nor writes to its code pages the program stays stored |

## Left out

- Sockets, select loop, inotify, logging, configuration files, consoles and all printing. A request and its answer become a call.
- Mutexes and races inside one request: a request or a turn of a thread is one step. The dispatcher alone is two steps, one for each of its semaphores.
- The file system and the kernel's file tables.
- Killing a process that is still new, and an admission that the memory server refuses: both end a process that has no file table yet, and the routine that closes its files dereferences it (Kernel/src/planificacion.h:302-325). The scheduler's runs have neither.
- Pausing and resuming, changes of the configured degree, and a CPU that closes (also the flag a CPU sends with the end of its quantum).
- Exit codes, bursts and the system-call counter outside the heap; shared variables.
- The search of the heap is not complete with respect to full coalescing: pages are passed over by the free total they had before compaction.
- The result code that follows an allocation is sent uninitialised when the block was found in a page the process already had (Kernel/src/heap.h:66, 104); the answer modelled is the page and offset.
- liberarPaginaProceso and inicializarPrograma of the memory server, which no program shown asks for.
- Reads of pages that do not exist are covered only when the cache has no room for the process: otherwise the server caches a frame that is not there (Memoria/src/Memoria.c:1111-1133).
- MemoryServer.Memory.RequestBytes: the result code on success is 0 on a hit and the frame on a miss, as in the code; transparency is stated for success and for the bytes.
- The cache is an array of slots and an array of stamps; the bytes of an entry matter only to reads that run past the entry before it. The use counter does not wrap.
- Accounts are kept by pid in a map: the order of listaContable, which every update rotates, is not modelled.
- A name of a semaphore that is not configured, and two configured with the same name.
- PcbWire.Deserialize: like the code, it trusts the counts in the bytes; it is stated for bytes that hold a whole PCB. The size of a PCB must fit an int.
- Popping an empty stack index, and looking a name up in one: the code dereferences nothing there. Frees of list elements in retornar.
- StackCpu.Cpu.Return: the four bytes sent for the result are given; their decimal digits are not modelled, and the place must be a whole word inside a page, as every word the stack hands out is.
- The decimal encoding of values in asignar and dereferenciar, the cut of an instruction at its newline, the parser library and its label lookup (a label is given as found or not found).
- ProgramImage.Fetch: a second read that runs off the end of the server's memory or of its cache is outside, as is one that starts in a page which does not exist and could be cached.
- Pages smaller than four bytes, for which definirVariable only prints a message.
