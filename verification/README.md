# Verified models of an AM kernel and its libraries

These Dafny modules model the hard parts of a small teaching operating system: the 64-bit
division routines of its C library, the x86-64 page tables of its abstract machine, the
kernel's allocators, processes, scheduler, semaphores and device drivers, and two small
programs above it. Each model keeps the source's own branches and constants; what the
source promises is proved about every input, every run or every interleaving.

`dafny verify dfyconfig.toml` checks everything.

| module | models |
|---|---|
| Bits, Sums | bit operations on natural numbers, sums over sequences |
| Int64, UDivMod, SignedDiv | division and bit counting on split 64-bit words |
| Paging, VmSpec, Vme, VmRuns | 4-level page tables in raw memory (section 4.5 of the Intel SDM, Volume 3A), refined to plain maps |
| ProcMem, Uproc | page faults, fork and teardown on top of the page tables |
| Sched | one CPU's task cycle and its saved-context stacks |
| PmmLayout, PmmThreads, Pmm | the segregated free lists: layout, any number of threads, one processor |
| PmmHuge, PmmPages | blocks beyond the lists; the pages and tasks that the kernel takes from them |
| Buddy | the buddy tree of the older allocator, allocation side |
| Semaphores, InputRing | test-and-set lock, semaphores, bounded buffers, the keyboard ring |
| TtyQueue, TtyScreen | line editing, the screen buffer, incremental drawing |
| Disk | byte access through a block buffer |
| Snake, Decimal | the run-length snake, decimal printing and parsing |

## How to read the models

- Objects that the source updates in place are classes (`Mmu`, `Cpu`, `Kernel`, `Pools`,
  `Tty`, `Screen`, `Sd`, `Game`); their methods are proved against functions on values.
- Concurrency is a machine in which every access to shared memory is one step of one thread
  (`PmmThreads`, `Semaphores`, `InputRing`); a schedule is an arbitrary sequence of threads.
- Machine words are natural numbers with the wrap-around written out. Shifts right of
  unsigned sizes are divisions by powers of two.
- A panic or failed assertion ends a method with an outcome that says which one it was.

## Where the code does less than it seems to promise

- `__divdi3` wraps for (-2^63, -1); `SignedDiv.DivDi3` states truncation exactly for the rest.
- `sfree` compares with `<=` and cannot free the page that starts at PAGESTART
  (`PmmLayout.FreeRouteExact`, `PmmLayout.FreeRouteCanFail`, `PmmThreads.HaltsOnlyThere`),
  so a teardown halts if that page is a table of the space (`Vme.Mmu.Unprotect`).
- `hugealloc` moves its bound by the size alone, not counting what rounding skips: blocks can
  end outside the heap (`PmmHuge.HugeInside` says exactly when, `PmmHuge.HugeOutside` is an
  input) or overlap (`PmmHuge.HugeRun`, `PmmHuge.HugeOverlap`).
- The buddy allocator returns NULL without releasing its lock, after which no call returns, and
  grants the whole memory again and again without marking it (`Buddy.GrantsOfRun`; inputs are
  `Buddy.LockKept` and `Buddy.WholeTwice`).
- `%d` and `%0Nd` print negative numbers without a sign, in characters that are no digits, so
  that they do not read back (`Decimal.RoundTrip`).
- `pgmap` writes its arrays before it checks their bound (kernel/src/os.c:95-99); the model
  panics instead of writing the 65th element.
- `ucreate`, `fork` and the page fault handler do not check the allocator's result; the model
  stops there with `NoMemory`.
- `ucreate` writes `pidtables[pidrec]` without a check of the table's 32768 entries.
- PAGESTART is half of the heap, the eight smaller classes are rounded sixteenths, so that the bytes between
  them belong to no class if the heap's size modulo 16 is 2 or more (`PmmLayout.PartsTile`).
- `uteardown` frees the page tables but none of the data frames (`Uproc.Kernel.UTeardown`).

## Model

| member | source | states |
|---|---|---|
| Int64.Clzsi2 | abstract-machine/klib/src/int64.c:640-671 | for every nonzero word the result c < 32 has the highest one at bit 31 - c, through the four mask stages and the branch-free end |
| Int64.Ctzsi2 | abstract-machine/klib/src/int64.c:675-709 | the lowest one is at bit c |
| Int64.Clzdi2 | abstract-machine/klib/src/int64.c:725-731 | the same for 64 bits, looking at the half that holds the highest one |
| Int64.Ctzdi2 | abstract-machine/klib/src/int64.c:717-723 | the same for the lowest one of 64 bits |
| Int64.StageTest | abstract-machine/klib/src/int64.c:640-709 | what a stage's mask test decides, and the bounds of both outcomes |
| UDivMod.UDivModDi4 | abstract-machine/klib/src/int64.c:426-634 | all 64-bit a, all nonzero b, whichever special case or loop runs: a == q*b + rem, rem < b, q is a 64-bit number |
| UDivMod.ShiftSubtract | abstract-machine/klib/src/int64.c:605-633 | the shift-subtract loop, from any aligned start of the split 128-bit register, leaves quotient and remainder |
| UDivMod.DivisionRound | abstract-machine/klib/src/int64.c:612-629 | one round keeps the partial quotient and a remainder below the divisor |
| UDivMod.SubtractIfFits | abstract-machine/klib/src/int64.c:626-628 | the sign-shift comparison subtracts exactly when the divisor fits, for every reachable remainder and divisor |
| UDivMod.SignCompare | abstract-machine/klib/src/int64.c:626-628 | when the top bit of d - r - 1 decides r >= d, although the difference wraps |
| UDivMod.TopDivisor | abstract-machine/klib/src/int64.c:579-602 | a divisor above 2^63 reaches the loop only with an aligned dividend, so the comparison cannot wrap |
| UDivMod.DivideAligned | abstract-machine/klib/src/int64.c:587-602 | high words in both operands: align by the counts of leading zeros, then subtract |
| UDivMod.DivideShort | abstract-machine/klib/src/int64.c:541-572 | a one-word divisor that is no power of two, in the three positions of the alignment shift |
| UDivMod.DivideByHigh | abstract-machine/klib/src/int64.c:460-521 | a divisor with an empty low word: the exact, the power-of-two and the general branch |
| UDivMod.DivideByLow | abstract-machine/klib/src/int64.c:524-572 | a divisor of one word, powers of two by shift and mask |
| UDivMod.DivideByBoth | abstract-machine/klib/src/int64.c:573-603 | a divisor of two words; a longer divisor gives quotient 0 |
| UDivMod.UDivDi3 | abstract-machine/klib/src/int64.c:408-412 | q == a / b |
| UDivMod.UModDi3 | abstract-machine/klib/src/int64.c:416-422 | r == a % b |
| SignedDiv.DivDi3 | abstract-machine/klib/src/int64.c:369-379 | truncation toward zero if and only if not (a, b) == (-2^63, -1); there the result wraps to a |
| SignedDiv.ModDi3 | abstract-machine/klib/src/int64.c:393-404 | the remainder of the C standard, for every pair including (-2^63, -1) |
| SignedDiv.DivModDi4 | abstract-machine/klib/src/int64.c:383-388 | rem is the standard's remainder always; a == d*b + rem if and only if not (a, b) == (-2^63, -1), and there d == a |
| SignedDiv.TruncUnique | abstract-machine/klib/src/int64.c:369-404 | a == q*b + r with r smaller than b in magnitude and zero or of a's sign holds for the standard's quotient and remainder and for no other pair |
| Paging.IndexOfField | abstract-machine/am/src/x86/qemu/vme.c:6-13 | the four masks and shifts of the table select the four nine-bit fields of an address |
| Paging.IndicesInjective | abstract-machine/am/src/x86/qemu/vme.c:6-13 | addresses that agree on all four indices are in the same page |
| Paging.WalkIsEntry | abstract-machine/am/src/x86/qemu/vme.c:57-75 | the hardware walk from any table on an address's path ends at the leaf entry of the tree |
| Paging.TranslateIsEntry | abstract-machine/am/src/x86/qemu/vme.c:57-75 | with a space's root in CR3 the hardware translates every user-half address by that leaf entry |
| Paging.KernelHalf | abstract-machine/am/src/x86/qemu/vme.c:120-131 | every space translates the kernel half to itself, writable, supervisor only, through the shared entry |
| Paging.AddTable | abstract-machine/am/src/x86/qemu/vme.c:66-68 | hanging a zeroed free page into an empty slot keeps the tables a tree of distinct pages |
| Paging.SetLeafEntry | abstract-machine/am/src/x86/qemu/vme.c:146-154 | writing one leaf slot changes the entry of one page of one space and no other |
| Paging.EntryForTeardown | abstract-machine/am/src/x86/qemu/vme.c:79-83 | P and U are both set exactly in entries for the space's own tables and for mapped pages, never in the shared kernel entry |
| Paging.DropSpace | abstract-machine/am/src/x86/qemu/vme.c:77-87 | without one space's tables, and with their bytes arbitrary, the rest is still a tree |
| VmSpec.StoreKeepsTree | abstract-machine/am/src/x86/qemu/vme.c:40-75 | a store to a data page cannot touch the tables |
| Vme.Mmu.PgAllocz | abstract-machine/am/src/x86/qemu/vme.c:40-47 | a free page, zeroed word by word, or NULL when none is free |
| Vme.Mmu.PtWalk | abstract-machine/am/src/x86/qemu/vme.c:57-75 | returns the leaf slot of the address; it fails exactly if fewer pages are free than tables are missing on the path; no leaf entry of any space changes; a second walk allocates nothing |
| Vme.Mmu.Map | abstract-machine/am/src/x86/qemu/vme.c:141-156 | every outcome exactly in its case, in the source's order, NoMemory if and only if fewer pages are free than tables are missing, and then none is left; success installs frame and write flag (or 0) for one page of one space, everything else translates as before; a panic leaves every entry as it was |
| VmSpec.MapMeaning | abstract-machine/am/src/x86/qemu/vme.c:141-156 | which case each outcome is: an unmap succeeds on a mapped page and empties its entry, a map on an unmapped one and leaves the frame with present and user bits, anything else is refused |
| VmSpec.UnmapSucceeds | abstract-machine/am/src/x86/qemu/vme.c:141-156 | a mapped page can be unmapped however few pages are free |
| Vme.Mmu.constructor | abstract-machine/am/src/x86/qemu/vme.c:89-115 | from the boot tables and free pages: the tables are a tree, with no space yet |
| Vme.Mmu.Protect | abstract-machine/am/src/x86/qemu/vme.c:117-135 | a fresh root page that maps nothing in the user half and shares the kernel entry; other spaces as before |
| Vme.Mmu.ShareKernel | abstract-machine/am/src/x86/qemu/vme.c:120-131 | the root becomes exactly the boot table's kernel entry and zeros |
| Vme.Mmu.Teardown | abstract-machine/am/src/x86/qemu/vme.c:77-87 | frees the tables below (and at) one table, each once and never one that is already free; terminates by level |
| Vme.Mmu.Unprotect | abstract-machine/am/src/x86/qemu/vme.c:137-139 | completes if and only if the page at PAGESTART is not a table page of the space; then all and only its table pages go back to the allocator, and other spaces' entries are unchanged |
| Vme.Mmu.PgFree | abstract-machine/am/src/x86/qemu/vme.c:77-87 | the allocator takes a table page back unless it is the page at PAGESTART, whose free halts |
| VmRuns.StepRefines | abstract-machine/am/src/x86/qemu/vme.c:117-156 | each operation acts on one plain map per space as its specification says |
| VmRuns.RunRefines | abstract-machine/am/src/x86/qemu/vme.c:117-156 | after any run of creates, maps, unmaps, destroys, page takes and stores, over any number of spaces, the tables hold what a replay on plain maps holds |
| VmRuns.RunTranslates | abstract-machine/am/src/x86/qemu/vme.c:49-75 | so after any run the hardware walk of a page gives the frame and write flag installed last, or a fault, and the kernel half is the identity |
| VmRuns.BootRefines | abstract-machine/am/src/x86/qemu/vme.c:94-113 | the boot tables with no address space are a state from which such a run can start |
| VmRuns.RunBalanced | abstract-machine/am/src/x86/qemu/vme.c:77-87 | at every point free pages, table pages and held data pages partition the pages the run began with: none lost, none in two places |
| VmRuns.RunFromHeap | abstract-machine/am/src/x86/qemu/vme.c:40-47 | over any run every free page and table page stays a page block of the allocator's heap, which is what a teardown needs |
| VmRuns.AllReturned | abstract-machine/am/src/x86/qemu/vme.c:77-87 | once every space is destroyed again all table pages are back, and only the data pages are missing |
| ProcMem.OwnsKept | kernel/src/uproc.c:33-40 | steps on other spaces, their destruction included, and on other frames keep a process's pages and their bytes |
| ProcMem.EventKeepsProcs | kernel/src/uproc.c:22-53 | a table of all processes, each owning exactly the pages it has recorded and no two sharing a frame, is kept by every create, page fault, copied page, store, destroy, and page that the kernel takes or writes for itself |
| ProcMem.RunKeepsProcs | kernel/src/uproc.c:22-53 | and so by any run of them |
| ProcMem.RunIsolated | kernel/src/uproc.c:33-40 | over any run in which a process takes no step, whatever the others create, fault in, fork, write or destroy and the kernel does with its own pages, every load of it gives the same |
| ProcMem.CopyDone | kernel/src/uproc.c:33-40 | one turn of fork's loop: take a frame, copy, map is one event that extends the copied part by one page |
| ProcMem.CopiedIsForked | kernel/src/uproc.c:33-40 | with all pages copied parent and child have the same pages with equal bytes in different frames |
| ProcMem.TablesAtMost | abstract-machine/am/src/x86/qemu/vme.c:57-75 | a list of pages needs at most three tables for each page |
| ProcMem.MissingIsNew | abstract-machine/am/src/x86/qemu/vme.c:57-75 | the tables a walk finds missing are exactly those that no earlier page of the list needs |
| ProcMem.ForkSees | kernel/src/uproc.c:33-40 | wherever the parent can load, the child loads equal bytes with equal rights through a different frame; where the parent faults, so does the child |
| Uproc.Kernel.PgMap | kernel/src/os.c:94-103 | records the page and maps it; the 65th page is the assertion's panic, and every other outcome is exactly that of map |
| Uproc.Kernel.PageFault | kernel/src/os.c:105-115 | its outcome as a function of the free pages, the recorded pages, the missing tables and the address; on success the address that faulted is translated into a frame that was free, every other page is translated as before, the process table is kept, and no page in use changes a byte |
| ProcMem.FaultServed | kernel/src/os.c:105-115 | a page more in the list of a process: its addresses, which faulted, reach the new frame, and all others what they reached |
| Uproc.Kernel.UCreate | kernel/src/uproc.c:93-121 | fails exactly with no double page for the task or no free page for its root; else a new task with an empty space, one saved context, no relatives, its pid the next one, pidrec advanced and the task entered in pidtables, a place in the process table, linked right behind the current one |
| Uproc.RunRegisters | kernel/src/uproc.c:111-113 | over any run of creates and forks each task gets a pid of its own, the next one, and pidtables finds it under that pid from then on |
| Uproc.PidsDiffer | kernel/src/uproc.c:111-113 | so different tasks have different pids |
| Uproc.Kernel.CopyPages | kernel/src/uproc.c:33-40 | the loop copies every recorded page, and fails exactly if fewer pages are free than frames and new tables are needed; no other panic of map can occur |
| Uproc.Kernel.ForkContexts | kernel/src/uproc.c:24-31 | the child's context is the parent's last saved one except the return register, cr3 and rsp0 |
| Uproc.Kernel.Fork | kernel/src/uproc.c:22-53 | fails exactly if there is no double page for the child's task or fewer pages are free than its root, frames and tables; else same pages, equal bytes, frames that were free, contexts, the next pid with pidrec advanced and the child in pidtables, family links and no children of its own, the task ring; parent and child are processes of the table again and nothing in use has changed |
| Uproc.Kernel.OthersAfterFork | kernel/src/uproc.c:22-53 | every process there was, the parent too, has the same pages after a fork, frames that are none of the child's, and the same answer to every load |
| Uproc.Kernel.UTeardown | kernel/src/uproc.c:123-127 | completes if and only if the page at PAGESTART is no table of the space; then its tables and its task are freed, the process leaves the table, and the data frames of the task stay allocated |
| Sched.Cpu.Insert | kernel/src/kmt.c:99-109 | numTask and the links: the list stays one doubly linked cycle with the task behind the current one |
| Sched.Cpu.KCreate | kernel/src/kmt.c:87-112 | a thread with one context joins the cycle, its status running |
| Sched.Cpu.KTeardown | kernel/src/kmt.c:114-121 | unlinking a task other than the current one keeps the cycle of the others |
| Sched.Cpu.Exit | kernel/src/uproc.c:59-64 | the running task becomes a zombie and stays in the cycle |
| Sched.Cpu.TrapSave | kernel/src/os.c:44-48 | the context is pushed onto the running task's stack, nested traps included |
| Sched.Cpu.Advance | kernel/src/os.c:57-63 | the loop stops at the first task behind the current one whose status is neither ZOMBIE nor WAITING, within one lap; every task it passes is one or the other |
| Sched.Cpu.TrapSchedule | kernel/src/os.c:54-68 | the chosen task gives up exactly its most recently saved context; every task that is not running keeps at least one |
| Sched.FirstEligibleMeaning | kernel/src/os.c:57-63 | the distance gone is the least one at which a task is eligible |
| Sched.LapReaches | kernel/src/os.c:57-63 | in a list of eligible and other tasks, as many schedules as there are eligible ones up to distance d turn it by d |
| Sched.Cpu.Trap | kernel/src/os.c:44-68 | the list is turned to the first eligible task; if that is the interrupted one, it goes on with the context it was interrupted with; else that context is on the interrupted task's stack, the task chosen resumes with the last of its own, which leaves its stack, and no other stack changes |
| Sched.Cpu.Traps | kernel/src/os.c:44-68 | any number of traps turn the list by the sum of those distances; the stacks and the contexts resumed are those of a replay on plain lists |
| Sched.ResumesWhereInterrupted | kernel/src/os.c:44-68 | after any number of traps a task resumes with exactly the context of its last interruption, or with the last one it had saved if it was never interrupted |
| Sched.Cpu.TrapsUpTo | kernel/src/os.c:44-68 | an eligible task at distance d runs after as many traps as there are eligible tasks up to it, so within a lap |
| PmmLayout.BlocksDisjoint | kernel/src/pmm.c:64-115 | blocks of all ten classes never overlap |
| PmmLayout.PartsTile | kernel/src/pmm.c:64-115 | the parts of the classes follow one another from the start of the heap to HUGESTART: a sixteenth each of eight classes, a quarter for pages, an eighth for double pages; only in front of the pages some bytes are left over, exactly if size % 16 >= 2 |
| PmmLayout.OnePart | kernel/src/pmm.c:64-115 | so with size % 16 < 2 each address from the start up to HUGESTART is in exactly one class's part |
| PmmLayout.RoundSelf | kernel/src/lock.c:18-26 | count is the least exponent with size <= 2^count, up to 2^63 |
| PmmLayout.ClassFits | kernel/src/pmm.c:8-14 | the class of a request holds it |
| PmmLayout.ClassSmallest | kernel/src/pmm.c:8-14 | no smaller class would |
| PmmLayout.ClassExists | kernel/src/pmm.c:8-14 | a request has a class if and only if it fits into a double page; the rest goes to hugealloc |
| PmmLayout.FreeRouteExact | kernel/src/pmm.c:167-191 | sfree finds a block's own class if and only if the block is not the page at PAGESTART; for that one `<=` leads to the failing assertion |
| PmmLayout.FreeRouteCanFail | kernel/src/pmm.c:91-104 | that page is a real block exactly when PAGESTART is page-aligned and the page area holds one |
| PmmLayout.SmallId | kernel/src/pmm.c:172-175 | the search loop's last match, or -1 |
| PmmThreads.StepKeepsInv | kernel/src/pmm.c:118-155 | each single memory access of any thread, inside an allocation, a free or in user code, keeps lists, places, locks and loaded values right |
| PmmThreads.RunKeepsInv | kernel/src/pmm.c:118-197 | so does every interleaving of any number of threads |
| PmmThreads.Partition | kernel/src/pmm.c:118-197 | in every reachable state each block is in exactly one place: on its own class's acyclic list, in the hands of one thread, or with a user |
| PmmThreads.LiveApart | kernel/src/pmm.c:118-155 | blocks that users hold never overlap |
| PmmThreads.LiveFits | kernel/src/pmm.c:8-14 | a block a user holds is inside the heap, aligned to its power of two, and at least as large as asked for |
| PmmThreads.LocksExclude | kernel/src/lock.c:34-40 | at most one thread is between lock and unlock of a class, and the flag is set exactly then |
| PmmThreads.HaltsOnlyThere | kernel/src/pmm.c:167-176 | the assertion in sfree fails exactly at a free of the page at PAGESTART |
| PmmThreads.NullMeansEmpty | kernel/src/pmm.c:118-129 | an allocation gives up exactly when its list is empty while it holds the lock |
| PmmThreads.KeepWrite | kernel/src/pmm.c:118-129 | a user's store anywhere in its block reaches no link of a free block |
| Pmm.Pools.Carve | kernel/src/pmm.c:68-113 | the carving loop puts every aligned block that fits onto the list, and nothing else |
| Pmm.Pools.KInit | kernel/src/pmm.c:64-115 | from any memory: after start-up each class's list holds as many blocks as its share of the heap has room for, but for at most two at its ends; all are free, the huge bound is at HUGESTART, and the invariant holds for any number of threads |
| Pmm.Pools.KAlloc | kernel/src/pmm.c:8-14 | up to a double page the first free block of the class, or NULL with nothing changed when there is none; beyond, a huge block |
| Pmm.Pools.HugeAlloc | kernel/src/pmm.c:157-165 | NULL exactly if the end of the heap is less than the size behind the bound; else an address that is a multiple of the size, at or above the bound and less than the size above it; the bound moves by the size either way |
| PmmHuge.HugeAnswerUnique | kernel/src/pmm.c:157-165 | there is only one such address: the bound itself if it is aligned, else the next multiple |
| PmmHuge.HugeInside | kernel/src/pmm.c:157-165 | a block lies inside the heap if and only if the bound was aligned to it or two blocks fit behind the last aligned address below the bound |
| PmmHuge.HugeOutside | kernel/src/pmm.c:157-165 | an input: a heap of 16 times 2^k bytes answers its first request, for 2^(k+1), with a block that ends outside it |
| PmmHuge.HugeRun | kernel/src/pmm.c:157-165 | in any run of requests a NULL is followed by NULLs only, and two blocks that were handed out are disjoint if and only if the first is no larger than the second, or the bound was at the second request less than its size away from the end of the first |
| PmmHuge.HugeOverlap | kernel/src/pmm.c:157-165 | an input: a heap of 64 times 2^k bytes, whose first two requests, for 2^(k+1) and 2^k, get overlapping blocks |
| PmmHuge.HugeAboveClasses | kernel/src/pmm.c:64-65 | no huge block overlaps a block of a class |
| Pmm.Pools.KFree | kernel/src/pmm.c:16-19 | the block is in front of its class's list again; refused exactly for the page at PAGESTART; from HUGESTART on nothing happens |
| Pmm.Pools.ListAlloc | kernel/src/pmm.c:118-129 | an uninterrupted allocation is a run of the interleaved machine |
| Pmm.FreeUndoesAlloc | kernel/src/pmm.c:118-197 | an allocation followed by the free of its block restores lists, links and grants |
| PmmPages.PgAlloc | kernel/src/uproc.c:10-12 | a page from the single-page list is a free one and then no longer free, NULL only when there is none: the contract that the virtual memory manager's own page allocation has |
| PmmPages.PgFree | kernel/src/uproc.c:10-12 | the page is free again unless it is the one at PAGESTART; the double pages are untouched |
| PmmPages.PagesAreBlocks | kernel/src/pmm.c:86-99 | every free page is an aligned block of the page area and not NULL |
| PmmPages.TaskAlloc | kernel/src/uproc.c:94 | a task's memory is one double page less, NULL exactly when none is left, and no single page is touched |
| PmmPages.TaskFree | kernel/src/uproc.c:126 | and comes back, which never halts |
| Pmm.ChainUnique | kernel/src/pmm.c:118-197 | head and links determine the list |
| Buddy.DfsExact | kernel/pmm.c:156-166 | dfs from the root returns a free block of the wanted depth, and -1 if and only if there is none |
| Buddy.FullHasNoFree | kernel/pmm.c:161 | below a node marked 2 nothing is free |
| Buddy.BuddyTree.MarkPath | kernel/pmm.c:178-189 | marking the ancestors restores: 0 iff wholly free, 2 iff allocated or both children full |
| Buddy.BuddyTree.HugeAlloc | kernel/pmm.c:168-196 | needs the lock free; a block that was free, at its address, and the lock given back; NULL exactly when no block of the size is free, and exactly then the lock stays taken |
| Buddy.BuddyTree.constructor | kernel/pmm.c:22-25 | a cleared tree, nothing handed out, the lock free |
| Buddy.CallsNoted | kernel/pmm.c:168-196 | after any run of calls from there every grant is noted as a block of its own, and only the last answer can be NULL |
| Buddy.GrantsOfRun | kernel/pmm.c:168-196 | so two grants of a run overlap if and only if one of them is the whole memory, which is granted without being noted; a NULL is the last answer anyone gets |
| Buddy.GrantOfRun | kernel/pmm.c:192-194 | and every grant lies in the memory, aligned to its size |
| Buddy.WholeTwice | kernel/pmm.c:168-196 | an input: the whole memory asked for twice is granted twice |
| Buddy.LockKept | kernel/pmm.c:172-173 | an input: after both halves a third request for a half gets NULL and the lock stays taken |
| Buddy.BlocksSeparate | kernel/pmm.c:192-193 | address ranges of nodes of which neither contains the other are disjoint |
| Buddy.TakenDisjoint | kernel/pmm.c:168-196 | so all blocks handed out are disjoint and inside the managed memory |
| Semaphores.OneInside | kernel/src/lock.c:34-40 | N threads, each waiting, signalling and printing as it likes, under every schedule: at most one is inside a semaphore's critical section |
| Semaphores.ValueLaw | kernel/src/kmt.c:68-85 | for the same threads value == initial + signals - completed waits, and never negative, at every step |
| Semaphores.WaitAlone | kernel/src/kmt.c:68-79 | a thread that runs alone from outside a semaphore completes a wait and takes one if there is one, and is else left trying, with nothing changed |
| Semaphores.SignalAlone | kernel/src/kmt.c:81-85 | and completes a signal, which gives one |
| Semaphores.TestDecides | kernel/src/kmt.c:70-78 | in any run, whatever the others do meanwhile, a thread about to look at the value under the lock takes one if and only if the value is positive |
| Semaphores.AtMostN | kernel/src/kmt.c:68-85 | where no thread has signalled a semaphore of n more often than it has waited for it, at most n hold it; with 1 it is a mutual exclusion lock |
| Semaphores.UsersAtMostN | kernel/src/kmt.c:68-85 | which is so for any number of threads that wait, act and signal in a loop |
| Semaphores.RunAlong | kernel/src/os.c:7-10 | a thread that repeats a list of actions has done a prefix of the repeated list, whatever the others do |
| Semaphores.BracketsInRange | kernel/src/os.c:7-10 | any number of producers and consumers: opening minus closing brackets printed is always in 0..n |
| Semaphores.StepLocals | kernel/src/kmt.c:68-85 | a value loaded under the lock is still there when it is stored: no update is lost |
| InputRing.StepKeepsInv | kernel/src/dev/dev_input.c:22-40 | each single access of a push or a pop keeps ring, locks and count right |
| InputRing.Fifo | kernel/src/dev/dev_input.c:22-40 | events leave in the order in which they entered; none is lost or given twice |
| InputRing.PopAlone | kernel/src/dev/dev_input.c:30-40 | a pop that runs alone takes the event at the front if the count is positive, and is else left trying with nothing changed |
| InputRing.PushAlone | kernel/src/dev/dev_input.c:22-28 | a push that runs alone enters its event at the rear and counts it |
| InputRing.PopGivesOldest | kernel/src/dev/dev_input.c:22-40 | in every reachable state with free locks a pop that finds the count positive gives the oldest event not yet taken |
| InputRing.CountLaw | kernel/src/dev/dev_input.c:22-40 | semaphore value + poppers past the wait + pushers before the signal == events in the ring |
| InputRing.NeverEmptyPanic | kernel/src/dev/dev_input.c:31-34 | the queue-empty panic is unreachable |
| InputRing.PCheckKeeps | kernel/src/dev/dev_input.c:24-26 | the queue-full panic happens exactly when the 128th event goes in |
| TtyQueue.Tty.Enqueue | kernel/src/dev/dev_tty.c:17-24 | one more character in the ring, wrapped around; fails exactly when the ring is full |
| TtyQueue.Tty.PopBack | kernel/src/dev/dev_tty.c:26-37 | removes the last character unless the queue is empty or it ends a finished line |
| TtyQueue.Tty.Cook | kernel/src/dev/dev_tty.c:70-88 | after every key the ring holds the unread finished lines and the edited line of the whole typing history; cooked + claimed reads counts the lines |
| TtyQueue.Tty.Read | kernel/src/dev/dev_tty.c:229-248 | the oldest unread line of the history, with its edits, cut to count; the next read gets the next line |
| TtyQueue.LineAsTyped | kernel/src/dev/dev_tty.c:26-37 | what the lines of a history are: text with its last k characters taken back by backspaces, which do nothing once the line is empty, is finished by a newline as what is left of it |
| TtyQueue.Erased | kernel/src/dev/dev_tty.c:26-37 | k backspaces take exactly the last k characters of the edited line back and no finished line |
| TtyQueue.Tty.TakeLine | kernel/src/dev/dev_tty.c:233-245 | the loop consumes one line and its terminator and copies at most count characters |
| TtyQueue.CookStep | kernel/src/dev/dev_tty.c:70-88 | the change that a key makes to the ring is the one that it makes to the lines and the edited line |
| TtyScreen.RowsCell | kernel/src/dev/dev_tty.c:65-68 | a cell of the flat buffer is a cell of its row |
| TtyScreen.RowsScroll | kernel/src/dev/dev_tty.c:39-47 | moving the buffer up drops the first row and adds a blank one |
| TtyScreen.Screen.ScrollUp | kernel/src/dev/dev_tty.c:39-47 | memmove of buffer and marks, the last row cleared and its marks left, the cursor back inside |
| TtyScreen.Screen.PutC | kernel/src/dev/dev_tty.c:138-170 | for every character the new buffer and cursor, cell by cell: return goes to the start of the row; backspace steps back and empties the cell, at 0 nothing; line feed goes to the next row or moves the buffer up; any other character goes into its cell, with the buffer moved up at the end; so they follow a terminal of rows; the cursor stays inside; whatever looks different is marked |
| TtyScreen.BackspaceUndoes | kernel/src/dev/dev_tty.c:58-63 | a character put into a blank cell, not in the last place of the last row, and a backspace give the terminal back |
| TtyScreen.Screen.PutFeed | kernel/src/dev/dev_tty.c:149-158 | line feed: next row, or scroll at the bottom, with both rows or all marked |
| TtyScreen.Screen.PutChar | kernel/src/dev/dev_tty.c:159-168 | a character in place, with wrap and scroll, old and new cursor cell marked |
| TtyScreen.DrawCell | kernel/src/dev/dev_tty.c:101-108 | the two sprites of a cell draw that cell and touch no other |
| TtyScreen.Screen.Render | kernel/src/dev/dev_tty.c:93-117 | if everything that differs was marked, the display is a full redraw; unmarked cells are not drawn; at most two sprites per cell fit the buffer; marks are cleared |
| TtyScreen.Screen.Write | kernel/src/dev/dev_tty.c:250-259 | any text: the screen is the terminal after the text, and fully drawn if the display was consistent before |
| TtyScreen.Screen.Blink | kernel/src/dev/dev_tty.c:315-320 | toggling the cursor leaves no unmarked difference |
| TtyScreen.Screen.SwitchTo | kernel/src/dev/dev_tty.c:276-277 | marking all makes any display consistent |
| Disk.Sd.constructor | kernel/src/dev/dev_sd.c:8-19 | a device of whole blocks, and a buffer for one |
| Disk.Sd.SdRead | kernel/src/dev/dev_sd.c:30-43 | for every offset and count in range exactly that slice of the flat bytes; the disk is unchanged; terminates with pos == count |
| Disk.Sd.SdWrite | kernel/src/dev/dev_sd.c:45-61 | the flat bytes with exactly offset..offset+count replaced; terminates with pos == count |
| Disk.Sd.WriteChunk | kernel/src/dev/dev_sd.c:49-57 | part of a block by read, change and write back; a whole block without reading |
| Disk.FlatSplice | kernel/src/dev/dev_sd.c:25-28 | replacing a block replaces its bytes of the flat disk |
| Disk.SpliceMeaning | kernel/src/dev/dev_sd.c:45-61 | what is written reads back, and no other byte changes |
| Disk.SpliceElsewhere | kernel/src/dev/dev_sd.c:45-61 | a later write elsewhere leaves it |
| Snake.Game.GameProgress | amgame/src/keyboard.c:35-67 | a frame moves the whole snake one step or leaves it; the game ends exactly at Escape or when the next head would leave the field |
| Snake.Game.Play | amgame/src/keyboard.c:35-117 | for every key sequence the linked, run-length segments are the explicit list of points of the moves; the tail never becomes null and the lengths always sum to the initial length; from a head in the field the game ends at the first frame that brings Escape or leads off the field, and only there |
| Snake.SteerAndGo | amgame/src/keyboard.c:35-67 | what the moves are: W steers a snake that heads to a side up the field and S down, A one that heads up or down to the left and D to the right, and n frames without a key go n steps on |
| Snake.GoesOn | amgame/src/keyboard.c:54-66 | a frame without a key goes one step on along the way the snake heads |
| Snake.Game.NewSegCreate | amgame/src/keyboard.c:85-108 | a turn adds a one-step segment joined to the head and drops one step at the tail |
| Snake.Game.LogicForEnd | amgame/src/keyboard.c:110-117 | the tail loses one step, and its segment when that was the last |
| Snake.MoveOn | amgame/src/keyboard.c:54-66 | one point more at the head and one less at the tail is a move of the point list |
| Snake.PointsConnected | amgame/src/keyboard.c:85-108 | joined segments form one path without gaps |
| Snake.FramesKeep | amgame/src/keyboard.c:35-67 | whatever the keys, the path keeps its length and stays without gaps |
| Decimal.PrintD | abstract-machine/klib/src/stdio.c:46-63 | for every int %d appends the characters of its remainders by ten, most significant first, and 0 for zero |
| Decimal.Print0D | abstract-machine/klib/src/stdio.c:82-107 | for every int %0Nd pads those with zeros to N and never cuts; for zero it prints N zeros |
| Decimal.DecMeaning | abstract-machine/klib/src/stdio.c:46-63 | they are a numeral for n without leading zeros if n is not negative, and start with no digit and no sign if it is |
| Decimal.DigitCount | abstract-machine/klib/src/stdio.c:46-63 | a positive number has k digits exactly if it lies from the (k-1)th power of ten to below the kth |
| Decimal.DecUnique | abstract-machine/klib/src/stdio.c:46-63 | and the only one |
| Decimal.Atoi | abstract-machine/klib/src/stdlib.c:23-31 | the value of the leading digits after spaces |
| Decimal.ReadsBetween | abstract-machine/klib/src/stdlib.c:23-31 | digits behind any number of spaces and before anything that is no digit are read as their value |
| Decimal.RoundTrip | abstract-machine/klib/src/stdlib.c:23-31 | atoi gives back an n printed with %d or %0Nd if and only if n is not negative; then only digits are printed; the padded length is max(N, digits) |

## Left out

- Vme.Mmu.PgAlloc: takes an arbitrary free frame; PmmPages proves its contract of the list allocator on one processor, and the two states are not kept in one object.
- Uproc.Kernel.NewProcess: kernel stack and register contents of the first user context are one opaque context value.
- Uproc.Kernel.UCreate: pidtables is a map; the end of the source's array is not modelled.
- Uproc.Kernel.TaskAlloc: the double pages are a count, as PmmPages has it, not the list.
- Sched.Cpu.KTeardown: the memory of the torn-down thread is not freed in the model, and numTask stays as it is, as in the source.
- Sched.Cpu.TrapSave: the array of four contexts is not bounds-checked by the source; a fifth nested trap is excluded by a precondition.
- Sched.Cpu.constructor: the idle task's status, which the source leaves unset, is taken as running.
- Pmm.Pools.KAlloc: requests above 2^30 bytes, for which the source's int shift is not defined.
- Pmm.Pools.HugeAlloc: the source reads the bound again after it has released the lock, and the bound is a 64-bit word; the model runs without interruption on a natural number.
- PmmLayout.RoundSelf: for sizes above 2^63 the source's loop does not end; they are excluded.
- Buddy.BuddyTree.HugeAlloc: requests above 2^25 bytes, for which the wanted depth wraps around, and the other callers that wait for a lock that is never given back.
- Buddy.BuddyTree.constructor: clears the whole tree; global_init clears 2050 entries and relies on the rest being zero.
- The older allocator's hugefree and slab code are not modelled.
- Semaphores.BracketsInRange: printing one character is one step.
- InputRing.Fifo: the spinlock is used un-nested; its per-CPU nesting count and interrupt flag are not modelled.
- TtyQueue.Tty.Claim: the terminal's mutex semaphore is taken as held for a whole operation, so operations follow one another.
- TtyQueue.Tty.constructor: the ring starts zeroed, while tty_init takes it from the allocator as it is; with a last byte that is not zero a backspace on the empty queue would move rear back.
- TtyScreen.Screen.Render: sprite coordinates are natural numbers, not 16-bit fields; displays wider or higher than 65535 are not modelled, nor is drawing of a terminal that is not displayed.
- TtyScreen.Screen.Blink: the source has one cursor flag for all terminals; the model is of the terminal that is displayed, and a change of terminal marks all its cells.
- TtyScreen.Screen.MoveFront: stands for memmove as section 7.24.2.2 of C11 defines it, not for the library's own version.
- Disk.Sd.SdRead: offsets and counts are those in range of the disk; the wait for the device is left out.
- Decimal.PrintD: the string and hexadecimal formats of vsprintf are not modelled.
- Decimal.Atoi: the accumulator is a mathematical integer; no overflow.
- Snake.Game.Play: drawing and frame timing are not modelled; key names are an enumeration.
- The 32-bit page-table configuration and vme_init repeat the same argument or write control registers.
- CR3 switching, translation caches, interrupts, LAPIC, timers, getpid, sleep, kputc and the boot code are hardware or add only easy members.
- Cross-CPU insertion into another CPU's task ring, and locks nested through the per-CPU count, are not modelled.
- libco, the native page-table emulation, string.c, FAT tools, pstree, crepl and the graphics drivers are not modelled.
