# Verified models of the CapsuleOS kernel, file service and binary formats

CapsuleOS is an AArch64 microkernel with a user-space file service and its own binary toolchain. This
project models the parts of it that carry strong invariants and proves what those parts promise, with
Dafny 4.11. `dafny verify dfyconfig.toml` checks everything.

- **Frames and page tables** (`Phys`, `Descriptors`, `PageWalk`, `PageReach`, `PageSpace`, `PageRights`,
  `PageTable`, `PageAudit`). Four-level translation trees in physical memory with transparent splitting of
  1 GiB and 2 MiB blocks. `map_va` is a single-page update of the translation, or no change at all when it
  fails, and what becomes of every page's attributes is stated with it; tracked, reachable and freed tables are related exactly, and operations on one space leave another over
  the same allocator as it was.
- **Scheduler** (`SchedSpec`, `SchedEffects`, `SchedFairness`, `SchedFallback`, `Scheduler`). The array code
  computes the functions of `SchedSpec`, which `SchedEffects` describes record by record; over every run each ready thread is queued once, at its priority, and waits a
  bounded number of schedule calls.
- **Channels, handles and capabilities** (`HandleTables`, `WaiterArray`, `Kernel`, `Rendezvous`, `QuietSteps`,
  `IpcRuns`, `ChannelOutcomes`, `Capabilities`, `CapTransfers`, `CapRuns`, `Channels`, `ChannelCreation`,
  `ChannelRuns`). A step machine of system calls with a history of
  writes, reads and deliveries: rendezvous safety, first-in first-out matching and conservation of
  capabilities over every run, threads being created on the way included; and, call by call, the bytes
  returned, the partner woken and where each handle ends. `Channels` is the code that takes
  those steps on the scheduler's queues, the waiter arrays and the handle slots, and `ChannelRuns` carries the
  safety property over to the arrays.
- **Memory objects and user copies** (`VmoLayout`, `VmoSpec`, `VmoCreate`, `VmoObject`, `VmoFactory`,
  `UserCopy`, `LaunchedSpace`, `Vmar`). Lazily committed paged objects behave as flat byte arrays; chunked
  copies behave as plain ones, translating through page tables that may map far more than the range copied;
  region allocation is lowest-fit.
- **Kernel heap and pipes** (`SlabSpec`, `Slab`, `PipeRing`, `PipeTable`, `PipeEffects`, `PipeRuns`). Disjoint blocks and
  conservation in the slab; reference counts that cover the descriptors, and bytes that leave a pipe in the
  order they went in, over runs of all processes.
- **RAM file system** (`RamFsTree`, `RamFsSteps`, `RamFsPaths`, `RamFsEffects`, `RamFs`). Sibling lists in
  parallel arrays encode a tree, and every operation is an update of the map from paths to nodes.
- **Binary formats** (`Fdt`, `FdtNames`, `Crc32`, `OhlinkFormat`, `OhlinkImage`, `Ohlink`, `OhlinkContents`,
  `OhlinkBuilder`, `Hnxf`). The device tree reader against flattened trees of named properties, the checksum against its bitwise definition, the
  executable format's round trip, and the boot image across packer, boot loader and kernel.

`Common` and `Arith` hold shared types and two facts about division.

Reading conventions. Integers are unbounded; wrap-around is written out where the code meets it
(`ValidateRange`, 16-bit segment counts, descriptor fields, ring positions). System calls run with
interrupts masked on one core, so each is one step up to the point where it gives up the processor.
Where a class models code that works in place, its `View` is the value its methods are specified on.

## Where the code does not do what its text says

Each of these is stated as an exact condition, with a concrete instance where one is short.

- Splitting a block keeps translations only for aligned block addresses (`PageReach.SplitFaithfulIff`).
- Copying the parent's second 1 GiB entry keeps a tree only if the parent has not split that block: otherwise
  the two share a table (`PageSpace.StoreGoodIff`, `PageSpace.ClonedTableBreaks`).
- `track` stops at 64 tables, so tracked and reachable tables differ beyond that
  (`PageSpace.TrackedIsReachableIff`, `PageSpace.SixtyFiveTables`), and `free_tree` then frees fewer frames than
  `free_page_table_tree` (`PageAudit.SameFramesFreedIff`). `validate` does not notice repeated entries
  (`PageAudit.RepeatsGoUnnoticed`).
- Splitting a block opens all its pages to the user and lets everybody execute them
  (`PageRights.RelaxedGrants`, `PageRights.MapVaRights`), and a kernel page asked to be read-only gets the bits
  of a writable page that the user may access (`PageRights.GrantedIff`).
- The fallback scan can dispatch a thread that sleeps and that nobody woke (`SchedFallback.RunsSleeperIff`,
  `SchedFallback.TwoSleepersExample`); the channel results therefore ask for some other ready thread, which
  the loader's yield loop provides (userspace/services/loader/src/main.rs:40).
- Committing a page of a child slice replaces shared bytes by zeros (`VmoSpec.CommitUnobservableIff`,
  `VmoSpec.CommitShows`), and forking or slicing a slice loses the shared pages (`VmoFactory.ForkEqualIff`,
  `VmoFactory.ForkDiffers`).
- Slab blocks start eight bytes into a page, so alignments above 8 are never met
  (`SlabSpec.AlignmentMetIff`), although layouts up to 64 are accepted.
- The file service's slot allocator hands out a live slot after a reuse (`RamFsPaths.ReuseThenLiveIff`),
  which always breaks the tree (`RamFsSteps.CreateWellFormedIff`). A name is looked up in full but stored cut
  to 63 bytes, so two names that agree that far end up as two siblings of one name (same lemma,
  `RamFsEffects.LongNamesExample`).
- The descriptor search is documented to skip the console descriptors but wraps onto them
  (`PipeTable.ConsoleFdIff`). The two descriptors of a new pipe are meant to be adjacent; they can be one and
  the same, whose write end replaces the read end (`PipeEffects.EndsCoincideIff`,
  `PipeEffects.EndsCoincideExample`).
- The image builder rounds offsets with a mask, which aligns them for powers of two only
  (`OhlinkImage.AlignUpIff`); images come back whole for every alignment (`Ohlink.RoundTrip`).

## Model

| member | source | states |
|---|---|---|
| `Phys.PhysMemory.constructor` | kernel/src/arch/aarch64/phys.rs:289-329 | every frame starts free and the cursor stands at the first page past the kernel image |
| `Phys.PhysMemory.AllocPage` | kernel/src/arch/aarch64/phys.rs:341-443 | takes the lowest free frame at or above the cursor, zeroed and tagged, never a tracked page table; fails exactly when there is none, leaving tags and memory alone |
| `Phys.PhysMemory.FreePage` | kernel/src/arch/aarch64/phys.rs:445-472 | frees one tag and forgets exactly that live-table entry; a frame already free (the panic) is excluded by the precondition, so every caller below proves it cannot happen |
| `Phys.PhysMemory.RegisterPtPage` | kernel/src/arch/aarch64/phys.rs:35-48 | the first empty tracker slot takes the frame; a full tracker silently drops it; tracked frames stay distinct page tables |
| `Phys.PhysMemory.UnregisterPtPage` | kernel/src/arch/aarch64/phys.rs:50-59 | afterwards the frame is tracked nowhere and every other tracked frame still is |
| `Descriptors.DecodeEncode` | kernel/src/arch/aarch64/page_table.rs:26-100 | every well-formed set of descriptor fields survives encoding into a 64-bit word and decoding again |
| `Descriptors.EncodeDecode` | kernel/src/arch/aarch64/page_table.rs:26-100 | every 64-bit word is the encoding of its fields, so field records and words are in one-to-one correspondence |
| `Descriptors.TableDescWord` | kernel/src/arch/aarch64/page_table.rs:35-35 | the table descriptor is the masked address plus the two type bits |
| `Descriptors.UserDataWord` | kernel/src/arch/aarch64/page_table.rs:72-100 | the attribute word of user read-write data, bit for bit |
| `Descriptors.PieceFields` | kernel/src/arch/aarch64/page_table.rs:438-486 | piece i of a split block sits at the block's address plus i pieces when the address bits between block and piece size are clear |
| `PageWalk.LinkKeepsTree` | kernel/src/arch/aarch64/page_table.rs:213-290 | linking a fresh leaf table into a slot that linked none keeps the four-level tree: one owner per table, levels consistent, descriptors well-formed |
| `PageWalk.LinkKeepsWalk` | kernel/src/arch/aarch64/page_table.rs:213-290 | if the new table translates its slot's addresses as the slot did, no address translates differently from any table of the tree |
| `PageWalk.SplitTableWalk` | kernel/src/arch/aarch64/page_table.rs:438-486 | the 512 pieces of an aligned block translate every address of the block exactly as the block did |
| `PageWalk.SameIndicesIsSamePage` | kernel/src/arch/aarch64/page_table.rs:26-32 | two addresses share all four indices if and only if they lie in the same page of the 48-bit space |
| `PageWalk.PageUniform` | kernel/src/arch/aarch64/mmu.rs:960-1008 | the bytes of one page all translate, to consecutive addresses of one frame, or none of them does |
| `PageWalk.PathIsUnique` | kernel/src/arch/aarch64/page_table.rs:213-324 | two walks ending in the same level-3 table took the same path |
| `PageWalk.SamePathIff` | kernel/src/arch/aarch64/page_table.rs:213-324 | addresses reach the same level-3 table if and only if they share the upper three indices |
| `PageWalk.WritePageWalk` | kernel/src/arch/aarch64/page_table.rs:270-290 | writing one level-3 entry changes the translation of exactly one page of the lower half |
| `PageWalk.WritePageKeepsTree` | kernel/src/arch/aarch64/page_table.rs:270-290 | writing a page entry keeps the tree |
| `PageReach.TreeIsReachable` | kernel/src/arch/aarch64/page_table.rs:340-434 | the tables of the tree are exactly the tables reachable from the root's lower half |
| `PageReach.FoundDisjoint` | kernel/src/arch/aarch64/mmu.rs:81-107 | tables found below different slots are different and none is found twice, so a nested freeing loop meets each once |
| `PageReach.TreeIsClean` | kernel/src/arch/aarch64/page_table.rs:340-434 | a tree has no block at level 0 and no reserved word at level 3 anywhere reachable |
| `PageReach.CleanIff` | kernel/src/arch/aarch64/page_table.rs:340-400 | the recursive check passes if and only if no path of slot numbers, however it descends, ends at a slot malformed for its level |
| `PageReach.WalkFrame` | kernel/src/arch/aarch64/page_table.rs:291-324 | a translation depends on the tables of its own tree only |
| `PageReach.SplitFaithfulIff` | kernel/src/arch/aarch64/page_table.rs:438-486 | splitting a block keeps every translation if and only if the address bits between the block and piece sizes are clear |
| `PageReach.MisalignedBlockMoves` | kernel/src/arch/aarch64/page_table.rs:438-486 | a concrete misaligned 1 GiB descriptor whose addresses move by 2 MiB when it is split |
| `PageSpace.AddTableDescends` | kernel/src/arch/aarch64/page_table.rs:213-290 | adding a table that translates as its slot did keeps the space good, every translation, every earlier link and all memory outside the tree |
| `PageSpace.SplitDescends` | kernel/src/arch/aarch64/page_table.rs:438-486 | splitting a block of the tree is such a step |
| `PageSpace.EmptyDescends` | kernel/src/arch/aarch64/page_table.rs:213-290 | linking a zeroed table into an absent entry is such a step |
| `PageSpace.NewRoot` | kernel/src/arch/aarch64/page_table.rs:118-146 | the two tables of a new root form a good space that translates nothing |
| `PageSpace.WritePageMaps` | kernel/src/arch/aarch64/page_table.rs:213-290 | the last store of a mapping sends every byte of the page to the frame and every other lower-half address where it went before |
| `PageSpace.MapVaIsUpdate` | kernel/src/arch/aarch64/page_table.rs:213-290 | three descents and one store amount to a single-page update of the translation |
| `PageSpace.SpacesAreIsolated` | kernel/src/arch/aarch64/page_table.rs:213-290 | mapping in one address space leaves another over the same allocator good, with its tables, tags and translations as they were, and apart from the first |
| `PageSpace.NewSpaceIsIsolated` | kernel/src/arch/aarch64/page_table.rs:118-146 | so does allocating a root, whether it succeeds or runs out of frames half-way |
| `PageSpace.MappedFrameIff` | kernel/src/arch/aarch64/page_table.rs:35-35 | the frame mapped is the one asked for if and only if its address fits 48 bits |
| `PageSpace.TrackedIsReachableIff` | kernel/src/arch/aarch64/page_table.rs:159-167 | tracked and reachable tables coincide if and only if there are at most as many tables as the array holds |
| `PageSpace.SixtyFiveTables` | kernel/src/arch/aarch64/page_table.rs:159-167 | a good space of 65 tables whose tracked list misses a reachable one |
| `PageSpace.StoreGoodIff` | kernel/src/arch/aarch64/page_table.rs:186-211 | overwriting an entry above the last level keeps the space good if and only if the new descriptor is well-formed for its level and links exactly the table the old one linked |
| `PageSpace.ClonedTableBreaks` | kernel/src/arch/aarch64/page_table.rs:186-211 | a table of the parent copied into a fresh root spoils the new tree |
| `PageRights.LeafIffMapped` | kernel/src/arch/aarch64/page_table.rs:291-324 | an address has attributes if and only if it translates |
| `PageRights.GrantedIff` | kernel/src/arch/aarch64/page_table.rs:72-95 | the attribute bits grant the access asked for if and only if the page is for the user or writable; a kernel page asked to be read-only is writable and open to the user |
| `PageRights.RelaxedGrants` | kernel/src/arch/aarch64/page_table.rs:443-446 | what a split does to attributes opens the page to the user and lets everybody execute it, changes nothing else, is idempotent, and is invisible if and only if the block granted both already |
| `PageRights.LinkRights` | kernel/src/arch/aarch64/page_table.rs:438-486 | linking a table into a slot relaxes exactly the addresses whose walk passed that slot, and keeps the attributes of all others |
| `PageRights.ThroughBoth` | kernel/src/arch/aarch64/page_table.rs:213-324 | two walks that pass the same block share all indices down to it |
| `PageRights.StepLoosens` | kernel/src/arch/aarch64/page_table.rs:213-270 | one level of the descent keeps every page's attributes, or relaxes those of the block around the address |
| `PageRights.WriteRights` | kernel/src/arch/aarch64/page_table.rs:271-276 | the last store gives the page its attributes and no other page any |
| `PageRights.MapVaRights` | kernel/src/arch/aarch64/page_table.rs:213-290 | three descents and one store: the page has exactly the attributes asked for, the other pages of a block that had to be split are relaxed, and every other page keeps its own |
| `PageTable.PageTableTree.constructor` | kernel/src/arch/aarch64/page_table.rs:108-116 | an address space without a root |
| `PageTable.PageTableTree.AllocateRoot` | kernel/src/arch/aarch64/page_table.rs:118-146 | on success a good space of two new tables that translates nothing; in every case no frame handed out before changes content or tag, and no tag changes except from free to page table |
| `PageTable.PageTableTree.Track` | kernel/src/arch/aarch64/page_table.rs:159-167 | appends a new table below the 64-entry cap, otherwise changes nothing |
| `PageTable.PageTableTree.LinkEmpty` | kernel/src/arch/aarch64/page_table.rs:213-270 | creates a missing level without changing any translation |
| `PageTable.PageTableTree.SplitBlock` | kernel/src/arch/aarch64/page_table.rs:438-486 | replaces a block by a table of its pieces without changing any translation |
| `PageTable.PageTableTree.FillSplit` | kernel/src/arch/aarch64/page_table.rs:438-486 | the loop writes all 512 pieces and nothing else |
| `PageTable.PageTableTree.NextTable` | kernel/src/arch/aarch64/page_table.rs:213-270 | one level of the descent: follow, split or create; failure changes no translation |
| `PageTable.PageTableTree.Descend` | kernel/src/arch/aarch64/page_table.rs:221-269 | the three descents lead to the level-3 table of the address, or stop for want of a frame; no translation changes and attributes change only in the block around the address |
| `PageTable.PageTableTree.MapVa` | kernel/src/arch/aarch64/page_table.rs:213-290 | on success exactly the page of va changes and maps to the frame with the attributes asked for, other pages of a split block are relaxed and all others keep theirs; on failure no lower-half translation changes even if tables were linked; the space stays good; memory and tags outside the tree are kept |
| `PageTable.PageTableTree.TranslateVa` | kernel/src/arch/aarch64/page_table.rs:291-324 | returns what the four-level walk yields |
| `PageTable.PageTableTree.CloneIdentityBlock` | kernel/src/arch/aarch64/page_table.rs:186-211 | the entry read through the parent's root is stored in this tree's, which stays good if and only if it links what the old entry linked |
| `PageTable.PageTableTree.FreeTree` | kernel/src/arch/aarch64/page_table.rs:326-338 | frees every tracked table once, none twice, and forgets them |
| `PageTable.MapVaBeside` | kernel/src/arch/aarch64/page_table.rs:213-290 | of two trees over one allocator, mapping in one leaves the other valid and translating as before |
| `PageTable.AllocateRootBeside` | kernel/src/arch/aarch64/page_table.rs:118-146 | so does giving one of them its root |
| `PageTable.FreeTreeBeside` | kernel/src/arch/aarch64/page_table.rs:326-338 | so does freeing one of them |
| `PageAudit.Visit` | kernel/src/arch/aarch64/page_table.rs:340-400 | the nested walk collects exactly the tables found and reports exactly the malformed descriptors, up to the list's capacity |
| `PageAudit.Validate` | kernel/src/arch/aarch64/page_table.rs:340-434 | while the reachable tables fit the list, true if and only if tracked and reachable tables are the same set and all descriptors are well-formed |
| `PageAudit.GoodSpacePasses` | kernel/src/arch/aarch64/page_table.rs:340-434 | every space built by allocate_root and map_va is consistent in that sense up to the capacity of the array |
| `PageAudit.RepeatsGoUnnoticed` | kernel/src/arch/aarch64/page_table.rs:400-434 | appending a repeated entry to a consistent tracked list leaves it consistent: distinctness is not checked |
| `PageAudit.FreeBelow` | kernel/src/arch/aarch64/mmu.rs:81-107 | the freeing loops below a table free exactly the tables found there, each while still allocated |
| `PageAudit.FreePageTableTree` | kernel/src/arch/aarch64/mmu.rs:81-107 | frees every reachable table exactly once and nothing else, never reaching the double-free panic |
| `PageAudit.SameFramesFreedIff` | kernel/src/arch/aarch64/mmu.rs:81-107 | the frame tags left by `free_tree` and those left by `free_page_table_tree` are the same if and only if the tables fit the tracking array |
| `SchedSpec.RoomInQueue` | kernel/src/task/scheduler.rs:22-29 | a queue that lacks a slot has room for it, so no push ever drops a thread |
| `SchedSpec.PopNextCorrect` | kernel/src/task/scheduler.rs:158-196 | from sound queues the pick is never dead, is none exactly when every thread is dead, and removes no other live thread from its queue; sixteen attempts suffice |
| `SchedSpec.PopNextFromFull` | kernel/src/task/scheduler.rs:158-196 | the same from the full number of attempts |
| `SchedSpec.RequeueKeeps` | kernel/src/task/scheduler.rs:198-205 | queueing a ready, unqueued thread keeps the queues sound and loses nobody |
| `SchedSpec.ScheduleKeeps` | kernel/src/task/scheduler.rs:235-277 | schedule keeps the invariant: every non-current ready thread is exactly once in the queue of its current priority and the current thread in none |
| `SchedSpec.AddKeeps` | kernel/src/task/scheduler.rs:115-136 | adding a thread keeps it |
| `SchedSpec.WakeKeeps` | kernel/src/task/scheduler.rs:606-618 | waking a thread keeps it |
| `SchedSpec.StepKeeps` | kernel/src/task/scheduler.rs:115-277 | every enabled step (add, schedule, block, kill, wake, run) keeps it |
| `SchedSpec.InvOverRuns` | kernel/src/task/scheduler.rs:115-277 | it holds in every state of every run from the empty scheduler |
| `SchedSpec.PopNextReady` | kernel/src/task/scheduler.rs:158-196 | with a live thread queued, the thread picked was ready |
| `SchedSpec.ScheduleWakesNobody` | kernel/src/task/scheduler.rs:235-277 | while another thread is ready, scheduling leaves every blocked, sleeping and dead thread as it is and ends with a running current thread |
| `SchedEffects.WakeWakes` | kernel/src/task/scheduler.rs:606-618 | the sleeper of that identifier becomes ready with the rest of its record as it was, stands last in the queue of its priority, and every other slot and queue is unchanged |
| `SchedEffects.WakeNobody` | kernel/src/task/scheduler.rs:606-618 | if nobody of that identifier sleeps, nothing changes |
| `SchedEffects.AddAdds` | kernel/src/task/scheduler.rs:115-136 | a new thread stands ready in the lowest empty slot and last in the queue of its priority; nothing else changes |
| `SchedEffects.BlockBlocks` | kernel/src/ipc/channel.rs:164-168 | the current thread's state is set and nothing else |
| `SchedEffects.KillKills` | kernel/src/syscall/handlers/process.rs:78-82 | the thread is marked dead and nothing else |
| `SchedEffects.ScheduleRecords` | kernel/src/task/scheduler.rs:235-277 | after a schedule call: the old thread charged a tick or, with its slice used up, lowered one level with a full slice, the new one running with a full slice, every other record as it was |
| `SchedEffects.DispatchRecord` | kernel/src/task/scheduler.rs:243-277 | the thread dispatched runs with a full slice at the priority it was charged down to |
| `SchedEffects.PreemptedIsLast` | kernel/src/task/scheduler.rs:235-242 | a thread that gives up the processor while ready and is not picked again stands last in the queue of the priority it was charged down to |
| `SchedFallback.RunsSleeperIff` | kernel/src/task/scheduler.rs:158-277 | scheduling dispatches a thread that was neither ready nor running if and only if no other thread is ready, the current one is neither running nor ready, and some thread is alive; it is then the lowest live slot |
| `SchedFallback.TwoSleepersExample` | kernel/src/task/scheduler.rs:170-196 | two blocked threads, the second current: scheduling runs the first, which nobody woke |
| `SchedFallback.PopNextScans` | kernel/src/task/scheduler.rs:170-196 | with nobody alive in any queue the pick is the lowest live slot, whatever its state |
| `SchedFallback.OneRunningOverRuns` | kernel/src/task/scheduler.rs:115-277 | over every run from the empty scheduler no thread but the current one is marked running |
| `SchedFairness.PopNextFirst` | kernel/src/task/scheduler.rs:158-196 | with nobody alive above its level the pick comes from its own queue, and is the waiting thread or leaves it strictly further forward |
| `SchedFairness.ScheduleProgress` | kernel/src/task/scheduler.rs:235-277 | each schedule call dispatches the waiting thread or brings it at least one place forward |
| `SchedFairness.StepProgress` | kernel/src/task/scheduler.rs:115-277 | no calm step moves the waiting thread back |
| `SchedFairness.BoundedWaiting` | kernel/src/task/scheduler.rs:158-277 | a live thread at position k of queue p becomes current within k + 1 schedule calls of any run in which nobody above its level is or becomes ready |
| `Scheduler.ThreadQueue.Push` | kernel/src/task/scheduler.rs:22-29 | appends unless the sixteen slots are full |
| `Scheduler.ThreadQueue.Pop` | kernel/src/task/scheduler.rs:31-42 | takes the head and shifts the rest left |
| `Scheduler.Scheduler.Requeue` | kernel/src/task/scheduler.rs:198-205 | the arrays end as the specification says: the thread at the back of the queue of its current priority |
| `Scheduler.Scheduler.PopHighest` | kernel/src/task/scheduler.rs:158-170 | the head of the first non-empty queue leaves it |
| `Scheduler.Scheduler.PopNext` | kernel/src/task/scheduler.rs:158-196 | the loop over attempts and the fallback scan compute the specified pick |
| `Scheduler.Scheduler.FirstAlive` | kernel/src/task/scheduler.rs:178-196 | the fallback scan finds the lowest live slot |
| `Scheduler.Scheduler.Dispatch` | kernel/src/task/scheduler.rs:243-277 | the new state is the specified dispatch |
| `Scheduler.Scheduler.Schedule` | kernel/src/task/scheduler.rs:235-277 | accounting, requeueing and dispatch together give the specified state |
| `Scheduler.Scheduler.Add` | kernel/src/task/scheduler.rs:115-136 | the thread enters the lowest empty slot and the queue of its priority |
| `Scheduler.Scheduler.Wake` | kernel/src/task/scheduler.rs:606-618 | the loop computes the specified wake, which `SchedEffects.WakeWakes` and `SchedEffects.WakeNobody` describe: the sleeper of that identifier ready and last in its queue, or nothing |
| `HandleTables.HandleTable.Add` | kernel/src/object/handle_table.rs:133-146 | first empty slot, or refused when full |
| `HandleTables.HandleTable.RemoveWithRights` | kernel/src/object/handle_table.rs:290-307 | returns object and rights and empties exactly that slot, or reports a bad handle |
| `HandleTables.HandleTable.Duplicate` | kernel/src/object/handle_table.rs:246-281 | only memory objects can be copied; the copy has the same rights |
| `HandleTables.FirstFree` | kernel/src/object/handle_table.rs:133-146 | the lowest empty slot, none exactly when the table is full |
| `HandleTables.Find` | kernel/src/object/handle_table.rs:290-307 | the first slot that holds the value, none exactly when no slot does |
| `WaiterArray.Waiters.Push` | kernel/src/ipc/channel.rs:56-64 | the waiting ids are the old ones followed by the new one, or refused when all eight slots are taken |
| `WaiterArray.Waiters.Pop` | kernel/src/ipc/channel.rs:66-79 | the longest waiting id leaves and the array stays free of gaps |
| `Rendezvous.NoMissedRendezvous` | kernel/src/ipc/channel.rs:106-307 | under the invariant, one end's blocked senders and the other end's blocked receivers are never both non-empty |
| `Rendezvous.PairingWrite` | kernel/src/ipc/channel.rs:209-251 | a write that finds a receiver completes the oldest unpaired read with the common prefix, keeping the pairing |
| `Rendezvous.PairingRead` | kernel/src/ipc/channel.rs:116-158 | a read that finds a sender completes the oldest unpaired write, keeping the pairing |
| `Rendezvous.PairingJoinSend` | kernel/src/ipc/channel.rs:257-300 | a write that finds nobody queues behind the other senders |
| `Rendezvous.PairingJoinRecv` | kernel/src/ipc/channel.rs:164-182 | a read that finds nobody queues behind the other receivers |
| `Rendezvous.QuietKeeps` | kernel/src/ipc/channel.rs:106-307 | steps that neither queue nor serve a waiter keep the whole invariant |
| `QuietSteps.CloseQuiet` | kernel/src/ipc/channel.rs:422-451 | closing an end disturbs no waiter of any other channel and leaves both its lines empty; whom it wakes is `ChannelOutcomes.CloseWakes` |
| `QuietSteps.TransferAllQuiet` | kernel/src/ipc/channel.rs:220-240 | moving handles during a delivery disturbs no waiter |
| `IpcRuns.WriteKeeps` | kernel/src/ipc/channel.rs:199-307 | write keeps the rendezvous invariant on every path: delivery, blocking, full waiter array, closed peer |
| `IpcRuns.ReadKeeps` | kernel/src/ipc/channel.rs:106-197 | read keeps it on every path |
| `IpcRuns.CloseHandleKeeps` | kernel/src/object/handle_table.rs:283-311 | closing a handle keeps it |
| `IpcRuns.CreateChannelKeeps` | kernel/src/syscall/handlers/ipc.rs:82-103 | creating a linked pair of ends keeps it |
| `IpcRuns.YieldKeeps` | kernel/src/task/scheduler.rs:235-277 | giving up the processor keeps it while another thread is ready |
| `IpcRuns.AddThreadKeeps` | kernel/src/syscall/handlers/process.rs:514-533 | a thread created while channels are in use keeps the rendezvous invariant |
| `IpcRuns.StepKeeps` | kernel/src/ipc/channel.rs:106-451 | every enabled step keeps it: read, write, closing, creating channels, objects and threads, yielding, exiting |
| `IpcRuns.RendezvousOverRuns` | kernel/src/ipc/channel.rs:106-307 | over every run: linked ends never have a sender and a receiver both waiting, and the i-th delivery is the i-th write paired with the i-th read, its common prefix copied |
| `IpcRuns.InitialInv` | kernel/src/ipc/channel.rs:44-54 | a system without channels satisfies the invariant |
| `ChannelOutcomes.CloseWakes` | kernel/src/ipc/channel.rs:422-451 | closing an end makes ready every thread that slept in one of the four lines of the end and its peer, and changes no other record |
| `ChannelOutcomes.CloseRefuses` | kernel/src/ipc/channel.rs:422-451 | both ends are closed, unlinked and waited on by nobody, later reads and writes on them report a closed peer, and every other end is as it was |
| `ChannelOutcomes.CloseHandleCloses` | kernel/src/object/handle_table.rs:283-311 | closing a handle to a channel end empties exactly its slot and closes the end, waking whoever slept around it |
| `ChannelOutcomes.FullTableCloses` | kernel/src/object/handle_table.rs:133-146 | a channel end on its way to a full table is closed likewise |
| `ChannelOutcomes.WriteDelivers` | kernel/src/ipc/channel.rs:209-251 | a direct write returns the data delivered; the longest waiting receiver has that prefix in its buffer and its length as its count; the delivery is appended to the peer's record; the receiver, if it slept, is ready |
| `ChannelOutcomes.DeliveredReadIs` | kernel/src/ipc/channel.rs:209-251 | the read completed is the oldest one not yet answered on the peer and the data is the common prefix of this write and that read |
| `ChannelOutcomes.ReadPicksUp` | kernel/src/ipc/channel.rs:116-158 | a read that finds a sender returns the prefix of the message registered that fits, the same bytes it appends to the peer's record; the sender is told their number and, if it slept, is ready |
| `ChannelOutcomes.PickedUpWriteIs` | kernel/src/ipc/channel.rs:116-158 | the message picked up is that of the oldest write not yet answered on the peer, so what a read returns is the common prefix of the write and the read of that rank |
| `ChannelOutcomes.CallRefused` | kernel/src/ipc/channel.rs:106-113 | a call on a closed or unlinked end, or without a current thread, changes nothing and names the reason |
| `ChannelOutcomes.WriteOutcomes` | kernel/src/ipc/channel.rs:199-307 | a write on a linked end is done at once if and only if somebody waits to receive, and otherwise blocks or, behind eight others, is refused for memory |
| `ChannelOutcomes.BlockingWriteOutcome` | kernel/src/ipc/channel.rs:257-307 | the same split for the blocking half alone |
| `ChannelOutcomes.ReadOutcomes` | kernel/src/ipc/channel.rs:106-197 | the same for a read |
| `ChannelOutcomes.WriteJoins` | kernel/src/ipc/channel.rs:257-300 | a write that blocks is on record, its message is in the writer's buffer, and the writer is last among the senders of its end and asleep |
| `ChannelOutcomes.ReadJoins` | kernel/src/ipc/channel.rs:164-182 | a read that blocks registers its buffer, and the reader is last among the receivers of its end and asleep |
| `ChannelOutcomes.ReadRefused` | kernel/src/ipc/channel.rs:174-177 | a refused read leaves every line, record and thread as it was |
| `ChannelOutcomes.ChannelCreated` | kernel/src/syscall/handlers/ipc.rs:82-103 | with room for two handles both ends are open, each is the other's peer, and the table gains exactly the two handles that name them, in its two lowest empty slots |
| `Capabilities.TakeOutMoves` | kernel/src/ipc/channel.rs:220-240 | taking a handle out copies a memory object and moves anything else, which is then held nowhere |
| `Capabilities.GiveMoves` | kernel/src/object/handle_table.rs:133-146 | adding an object in transit keeps it exactly when the table has room, with the same rights |
| `Capabilities.TransferAllMoves` | kernel/src/ipc/channel.rs:220-240 | a delivery keeps single ownership and loses exactly the objects that met a full table |
| `Capabilities.StashMoves` | kernel/src/ipc/channel.rs:266-281 | stashing into empty transfer slots loses nothing |
| `Capabilities.ClearSlotsLoses` | kernel/src/ipc/channel.rs:263-265 | clearing stale transfer slots loses exactly what they held |
| `Capabilities.UnstashAllMoves` | kernel/src/ipc/channel.rs:127-138 | collecting a sender's slots loses exactly what met a full table |
| `CapTransfers.TwoTransfers` | kernel/src/ipc/channel.rs:223-239 | into a table with two empty slots the objects named by the first and second handle move with their rights, and slots named by neither stay as they were |
| `CapTransfers.WriteMoves` | kernel/src/ipc/channel.rs:220-240 | a direct delivery puts what its first two handles name into the receiver's table with the same rights; anything but a memory object is gone from the sender's; a third handle stays |
| `CapTransfers.WriteWithin` | kernel/src/ipc/channel.rs:220-240 | between two threads of one process every object stays in their table with its rights |
| `CapTransfers.StashBoth` | kernel/src/ipc/channel.rs:266-281 | the objects of the first and the second handle fill transfer slots 0 and 1 in this order with their rights, and no third one moves |
| `CapTransfers.StashOne` | kernel/src/ipc/channel.rs:266-281 | if only one of the two names an object, it fills slot 0 |
| `CapTransfers.WriteStashes` | kernel/src/ipc/channel.rs:258-281 | so a write that blocks holds exactly those objects in its transfer slots |
| `CapTransfers.WriteRefused` | kernel/src/ipc/channel.rs:283-295 | a refused write leaves every line, record and thread as it was |
| `CapTransfers.ReadCollects` | kernel/src/ipc/channel.rs:127-138 | a pick-up with room for two puts what stood in the sender's transfer slots into the reader's table with its rights, empties both slots and displaces nothing |
| `CapRuns.WriteCaps` | kernel/src/ipc/channel.rs:199-307 | a write keeps single ownership and everything but what the source drops on that path |
| `CapRuns.ReadCaps` | kernel/src/ipc/channel.rs:106-197 | a read keeps everything the reader's table has room for |
| `CapRuns.RestoreLosesNothing` | kernel/src/ipc/channel.rs:284-295 | a write refused for lack of a waiter slot gives every stashed object back |
| `CapRuns.LostOnlyWhenFull` | kernel/src/ipc/channel.rs:220-240 | a transfer loses an object only if the receiving table has fewer empty slots than handles sent |
| `CapRuns.CloseHandleCaps` | kernel/src/object/handle_table.rs:283-311 | closing a handle removes exactly the object it names |
| `CapRuns.AddThreadCaps` | kernel/src/syscall/handlers/process.rs:514-533 | creating a thread moves and duplicates no capability |
| `CapRuns.StepConserves` | kernel/src/ipc/channel.rs:106-451 | every step keeps single ownership, and whatever it does not lose is held afterwards with the same rights |
| `CapRuns.CapsOverRuns` | kernel/src/ipc/channel.rs:106-451 | over every run a non-memory object is held in at most one handle slot or transfer slot |
| `CapRuns.KeptOverRuns` | kernel/src/ipc/channel.rs:106-451 | a capability lost at no step of a run is held at its end with the same rights |
| `VmoLayout.LayoutIsTight` | kernel/src/memory/vmo.rs:14-18 | 249 slots end exactly at the table and the eight table entries are exactly what 2048 pages need |
| `VmoLayout.SlotInBounds` | kernel/src/memory/vmo.rs:45-51 | every slot of every object lies in one of its metadata pages between header and table, and at most nine pages are needed |
| `VmoLayout.SlotsDisjoint` | kernel/src/memory/vmo.rs:333-353 | two different slots in one metadata page do not overlap |
| `VmoLayout.PutSlotSlots` | kernel/src/memory/vmo.rs:333-353 | writing one slot changes that slot, no other slot and no table entry, for every page of every object |
| `VmoLayout.PutHeaderSlots` | kernel/src/memory/vmo.rs:163-170 | updating the header changes no slot |
| `VmoSpec.CommitEffect` | kernel/src/memory/vmo.rs:151-174 | committing a page in a fresh frame makes it read as zeros, leaves every other page and touches only the object's own or fresh frames |
| `VmoSpec.CommitUnobservableIff` | kernel/src/memory/vmo.rs:151-174 | a commit leaves the contents unchanged if and only if the page already read as zeros; it always does when its slot is empty, but not when a slice commits over a shared page |
| `VmoSpec.CommitShows` | kernel/src/memory/vmo.rs:151-174 | a slice over a shared page of ones, concretely: committing the page changes its contents |
| `VmoSpec.StoreEffect` | kernel/src/memory/vmo.rs:286-313 | storing into a page splices exactly those bytes into the flat contents |
| `VmoSpec.ApartIsIndependent` | kernel/src/memory/vmo.rs:184-216 | whatever is done to one object, an object sharing no frame with it keeps its bytes and stays apart |
| `VmoSpec.KeptGood` | kernel/src/memory/vmo.rs:257-284 | an object whose frames are unchanged keeps its slots, its bytes and its shape |
| `VmoSpec.ReachesTrans` | kernel/src/memory/vmo.rs:286-313 | confinement to own and fresh frames composes over any sequence of operations |
| `VmoSpec.SpliceAt` | kernel/src/memory/vmo.rs:286-313 | a write changes exactly the bytes written |
| `VmoCreate.TabledBlank` | kernel/src/memory/vmo.rs:131-137 | each further metadata page is fresh, blank, distinct and found through the table |
| `VmoCreate.BlankGood` | kernel/src/memory/vmo.rs:106-149 | a blank object is well-formed, owns nothing and reads as zeros throughout |
| `VmoCreate.FillStep` | kernel/src/memory/vmo.rs:235-249 | filling one slot changes only the object's own metadata |
| `VmoObject.MemoryObject.CommitPage` | kernel/src/memory/vmo.rs:151-174 | the four outcomes exactly, no-memory only when no frame is left, and on success the committed state; an owned object's contents never change |
| `VmoObject.MemoryObject.Read` | kernel/src/memory/vmo.rs:257-284 | the page-by-page loop copies exactly the requested part of the flat contents, cut at the end of the object, and nothing else of the buffer changes |
| `VmoObject.MemoryObject.Write` | kernel/src/memory/vmo.rs:286-313 | on success exactly the written bytes of the flat contents change; on failure, only when no frame is left, a prefix of them; only own and fresh frames are touched |
| `VmoObject.MemoryObject.StoreInPage` | kernel/src/memory/vmo.rs:286-313 | one page's part of a write, committing first if needed |
| `VmoObject.MemoryObject.PageOut` | kernel/src/memory/vmo.rs:257-284 | the bytes of one page, zeros if uncommitted |
| `VmoFactory.CreateWithSize` | kernel/src/memory/vmo.rs:106-149 | a zero-filled object of whole pages in fresh frames, refused exactly for size zero or more than 2048 pages |
| `VmoFactory.CreatePhysical` | kernel/src/memory/vmo.rs:58-104 | an object whose slots list the given pages in order, memory or not; it is sound if and only if every page is memory the allocator will not hand out and none is its own metadata; refused exactly for a bad size or when no frame is left |
| `VmoFactory.PhysicalGoodIff` | kernel/src/memory/vmo.rs:58-104 | the exact condition on the pages listed |
| `VmoFactory.Fork` | kernel/src/memory/vmo.rs:184-216 | the new object shares no frame with the parent and holds every page the parent owns or borrows; the parent is unchanged; fails only when no frame is left |
| `VmoFactory.ForkEqualIff` | kernel/src/memory/vmo.rs:184-216 | a fork equals its parent if and only if every page it skips reads as zeros |
| `VmoFactory.ForkDiffers` | kernel/src/memory/vmo.rs:184-216 | a fork of that slice differs from it |
| `VmoFactory.ForkOfOwnedIsEqual` | kernel/src/memory/vmo.rs:184-216 | forks of owned and of physical objects equal their parents |
| `VmoFactory.StaysSeparate` | kernel/src/memory/vmo.rs:184-216 | operations on the fork leave the parent's bytes alone and the two separate |
| `VmoFactory.ForkKeepsItsBytes` | kernel/src/memory/vmo.rs:184-216 | operations on the parent leave the fork's bytes alone |
| `VmoFactory.CreateChildSlice` | kernel/src/memory/vmo.rs:218-253 | the slice's bytes are the visible bytes of its range of the parent at creation; the parent is unchanged; refused exactly for misaligned, out-of-range or empty slices |
| `VmoFactory.SliceBytes` | kernel/src/memory/vmo.rs:235-249 | sharing the parent's frames page by page gives the slice those bytes |
| `UserCopy.ValidateRange` | kernel/src/syscall/validation.rs:46-86 | true if and only if there is a root, the range does not run over the top of the address space, and every byte of it (or the start of an empty one) translates by the four-level walk, although only one byte per page is probed |
| `UserCopy.SamePage` | kernel/src/arch/aarch64/mmu.rs:960-1008 | the addresses of a page are mapped together and to one frame |
| `UserCopy.HighBitsIgnored` | kernel/src/arch/aarch64/mmu.rs:960-1008 | an address and its lower 48 bits translate alike, from every table and level |
| `UserCopy.HitFolds` | kernel/src/arch/aarch64/mmu.rs:960-1008 | an address leads to a byte of a range exactly when its lower 48 bits do |
| `UserCopy.ApartRangesKept` | kernel/src/syscall/handlers/ipc.rs:48-80 | bytes of any range that shares no byte of memory with the range written are as they were |
| `UserCopy.SafeCopyFromUser` | kernel/src/syscall/handlers/ipc.rs:8-45 | where the range leads to memory that holds no page table, whatever else the space maps: succeeds if and only if there is a root and every byte translates, and then the buffer holds exactly those user bytes |
| `UserCopy.SafeCopyToUser` | kernel/src/syscall/handlers/ipc.rs:48-80 | under the same condition on the range: succeeds if and only if there is a root and every byte translates; then the range reads as the source if no two of its addresses lead to one byte, and in every case only bytes reached through the range change, at whatever address they are seen |
| `UserCopy.SysVmoRead` | kernel/src/syscall/handlers/memory.rs:39-112 | if only the range is apart from the object, the doubly chunked loop equals one object read followed by one user copy; the object's contents do not change although pages are committed on the way, whatever else is apart from the object and not reached through the range stays, and it fails only for an unmapped byte of the range or when no frame is left |
| `UserCopy.SysVmoWrite` | kernel/src/syscall/handlers/memory.rs:114-185 | if only the range is apart from the object, the doubly chunked loop equals fetching the user bytes and one object write; everything apart from the object stays, and a failure, for an unmapped byte or for lack of frames, leaves a prefix written |
| `UserCopy.StoreInUser` | kernel/src/syscall/handlers/ipc.rs:48-80 | storing into one page of memory changes, seen from every address of the space, exactly the bytes reached through that piece |
| `UserCopy.ObjectStepKeepsUser` | kernel/src/syscall/handlers/memory.rs:39-185 | work on an object leaves every byte apart from it alone, whatever else the space maps, and what is apart from it stays so |
| `UserCopy.UserStepKeepsObject` | kernel/src/syscall/handlers/memory.rs:39-185 | a store into memory apart from an object leaves its contents and what is apart from it alone |
| `LaunchedSpace.LaunchedIsBeside` | kernel/src/task/process.rs:232-250 | a space with the device page, the identity block, its mirror and one program page, concretely: the program's page meets what the copies ask beside an object, although the space also leads to the serial port, the object's frames, a free frame and a page table |
| `LaunchedSpace.Identity` | kernel/src/arch/aarch64/mmu.rs:798-806 | the block maps every address of its gigabyte to itself |
| `LaunchedSpace.Mirror` | kernel/src/arch/aarch64/mmu.rs:807-815 | the high half maps it once more |
| `LaunchedSpace.AlsoReached` | kernel/src/task/process.rs:232-250 | each byte of that page is also reached at its own address and through the mirror, so only bytes not reached through the range can be promised unchanged |
| `Vmar.Create` | kernel/src/memory/vmar.rs:68-83 | an empty region of whole pages with a metadata frame of its own; refused exactly for a misaligned base or size zero, and otherwise only when no frame is left |
| `Vmar.Vmar.Search` | kernel/src/memory/vmar.rs:93-113 | terminates with the lowest page-aligned address in range that touches no child and no mapping, or with none exactly when there is no such address |
| `Vmar.Vmar.AllocateSubregion` | kernel/src/memory/vmar.rs:85-122 | the new child is the lowest fit and apart from all children; with fewer than 32 children NoMemory means that nothing fits or that no metadata frame is left |
| `Vmar.Vmar.ReserveMapping` | kernel/src/memory/vmar.rs:126-146 | recorded unless malformed, out of range or past the cap; overlaps are not looked for |
| `SlabSpec.ClassIndex` | kernel/src/arch/aarch64/slab.rs:12-20 | the smallest class that holds the size and reaches the alignment, none exactly above 2048 |
| `SlabSpec.NoOverlap` | kernel/src/arch/aarch64/slab.rs:48-134 | two different blocks, live or free, of any classes, never overlap |
| `SlabSpec.Conservation` | kernel/src/arch/aarch64/slab.rs:22-24 | live plus free blocks of a class are its pages times the blocks per page |
| `SlabSpec.LiveIsNotFree` | kernel/src/arch/aarch64/slab.rs:88-134 | a live block is in no free list of any class |
| `SlabSpec.PopKeeps` | kernel/src/arch/aarch64/slab.rs:97-106 | handing out the head block keeps all free lists acyclic, disjoint chains |
| `SlabSpec.PushKeeps` | kernel/src/arch/aarch64/slab.rs:116-134 | taking a live block back keeps them |
| `SlabSpec.RefillKeeps` | kernel/src/arch/aarch64/slab.rs:48-86 | cutting a fresh page into an empty class keeps them |
| `SlabSpec.OwnerWriteKeeps` | kernel/src/arch/aarch64/slab.rs:97-106 | whatever bytes an owner writes inside a live block, and whichever eight-byte words they change, no free list is damaged |
| `SlabSpec.AlignmentMetIff` | kernel/src/arch/aarch64/slab.rs:88-91 | a block meets a power-of-two alignment up to 64 if and only if that alignment is at most 8, because blocks start eight bytes into a page |
| `SlabAllocation.SlabAllocator.constructor` | kernel/src/arch/aarch64/slab.rs:34-46 | empty lists, nothing live |
| `SlabAllocation.SlabAllocator.Refill` | kernel/src/arch/aarch64/slab.rs:48-86 | one more page for the class and a non-empty list, or nothing when no frame is left |
| `SlabAllocation.SlabAllocator.Thread` | kernel/src/arch/aarch64/slab.rs:61-81 | the loop links every block of the page to the next and writes nothing outside the page |
| `SlabAllocation.SlabAllocator.Allocate` | kernel/src/arch/aarch64/slab.rs:88-114 | a block that was not live becomes live in the layout's class; null only for layouts out of range or when the class is empty and no frame is left |
| `SlabAllocation.SlabAllocator.Deallocate` | kernel/src/arch/aarch64/slab.rs:116-134 | exactly that block stops being live |
| `RamFsTree.PathIsUnique` | userspace/services/fileagent/src/ramfs.rs:143-172 | a node is reached by one path only |
| `RamFsTree.EveryLiveReached` | userspace/services/fileagent/src/ramfs.rs:143-172 | every live node is reached from the root by some path |
| `RamFsTree.LookupLive` | userspace/services/fileagent/src/ramfs.rs:143-172 | lookup yields live nodes, as deep as the path is long |
| `RamFsTree.WellFormedFacts` | userspace/services/fileagent/src/ramfs.rs:54-90 | in every well-formed state child counts are the numbers of children, siblings have different names and no node is its own parent |
| `RamFsSteps.CreatedTree` | userspace/services/fileagent/src/ramfs.rs:54-90 | filling a free slot under a new name keeps acyclic disjoint sibling lists, counts, parents and unique names |
| `RamFsSteps.CreatedLookup` | userspace/services/fileagent/src/ramfs.rs:54-90 | a creation adds exactly one path, the parent's followed by the stored name |
| `RamFsSteps.CreateWellFormedIff` | userspace/services/fileagent/src/ramfs.rs:36-90 | a creation leaves a well-formed tree if and only if the slot handed out was free and no sibling is stored under the same cut name |
| `RamFsSteps.LiveSlotBreaks` | userspace/services/fileagent/src/ramfs.rs:36-52 | handing out a live slot always breaks the tree |
| `RamFsSteps.RemovedTree` | userspace/services/fileagent/src/ramfs.rs:278-317 | removing a leaf keeps the tree |
| `RamFsSteps.RemovedLookup` | userspace/services/fileagent/src/ramfs.rs:278-317 | removing a leaf takes away exactly its own path |
| `RamFsPaths.ComponentsOfJoin` | userspace/services/fileagent/src/ramfs.rs:143-153 | every sequence of names is what splitting some path yields |
| `RamFsPaths.ComponentsSplit` | userspace/services/fileagent/src/ramfs.rs:143-153 | splitting distributes over slashes, so empty pieces never matter |
| `RamFsPaths.LastComponent` | userspace/services/fileagent/src/ramfs.rs:365-373 | cutting at the last slash cuts off exactly the last component |
| `RamFsPaths.FreshAllocsOk` | userspace/services/fileagent/src/ramfs.rs:36-52 | with every slot at or above the cursor free, one allocation is safe, and so are as many as slots remain |
| `RamFsPaths.FreshKeptIff` | userspace/services/fileagent/src/ramfs.rs:36-52 | an allocation leaves every slot above the cursor free again if and only if the cursor had not reached the end or nothing lives above the reused slot |
| `RamFsPaths.ReuseThenLiveIff` | userspace/services/fileagent/src/ramfs.rs:38-48 | the allocation after a reuse hands out a live slot if and only if the slot right above the reused one is live |
| `RamFsPaths.ReuseOverwritesExample` | userspace/services/fileagent/src/ramfs.rs:38-48 | a concrete table in which the second of two allocations returns a live slot |
| `RamFsEffects.CreateEffect` | userspace/services/fileagent/src/ramfs.rs:54-120 | one path more, every live node's type, size, bytes and name unchanged, and the new file empty |
| `RamFsEffects.RemoveEffect` | userspace/services/fileagent/src/ramfs.rs:278-317 | one path less, every other node unchanged, the tree kept |
| `RamFsEffects.MadeWellFormedIff` | userspace/services/fileagent/src/ramfs.rs:36-90 | the exact condition again with the allocation cursor moved |
| `RamFsEffects.LongNamesExample` | userspace/services/fileagent/src/ramfs.rs:54-120 | two names that agree on 63 bytes, concretely: the second is not found, is created, and the arrays encode no tree any more |
| `RamFsEffects.StoredEffect` | userspace/services/fileagent/src/ramfs.rs:194-211 | a write lays its bytes over the file, zero-filled up to the offset, and touches nothing else |
| `RamFsEffects.GrowsStep` | userspace/services/fileagent/src/ramfs.rs:235-276 | one more directory along a path loses no path, adds only a prefix of that path and changes no node |
| `RamFsEffects.CreatedResolves` | userspace/services/fileagent/src/ramfs.rs:355-377 | a path that did not resolve before its last component was created resolves to the new node after |
| `RamFsEffects.DropIsUnlink` | userspace/services/fileagent/src/ramfs.rs:278-317 | freeing one node makes exactly one path unresolvable |
| `RamFsEffects.RemovalIs` | userspace/services/fileagent/src/vfs.rs:136-168 | the outcome of a removal in terms of paths: not found if the path leads nowhere, invalid for the root, refused if and only if some name below it resolves, and success otherwise |
| `RamFs.RamFs.constructor` | userspace/services/fileagent/src/ramfs.rs:25-34 | only the root path resolves |
| `RamFs.RamFs.FindChild` | userspace/services/fileagent/src/ramfs.rs:122-141 | the first child of that name in list order, none exactly when there is none |
| `RamFs.RamFs.AllocIdx` | userspace/services/fileagent/src/ramfs.rs:36-52 | the slot at the cursor, else the lowest free slot, else none; the cursor moves just past it |
| `RamFs.RamFs.SetNode` | userspace/services/fileagent/src/ramfs.rs:54-90 | the arrays after the slot is filled and hung at the end of the walked list, or in no list for a negative parent, for any well-formed state, even when the slot handed out is live |
| `RamFs.RamFs.Create` | userspace/services/fileagent/src/ramfs.rs:92-120 | refused exactly for a bad parent, a taken name or a full table; otherwise the result is well-formed if and only if the slot was free and the cut name is new, and then the tree grew by that leaf |
| `RamFs.RamFs.Resolve` | userspace/services/fileagent/src/ramfs.rs:143-172 | agrees with component-wise lookup for every path |
| `RamFs.RamFs.MkdirPath` | userspace/services/fileagent/src/ramfs.rs:235-276 | already-exists and wrong-type exactly when the path resolves or runs through a file, changing nothing; otherwise only prefixes of the path appear, all of it on success, and no-memory only when no slot is left |
| `RamFs.RamFs.Remove` | userspace/services/fileagent/src/ramfs.rs:278-317 | true exactly for a live childless member of the parent's list, and then exactly its path is gone and every other node unchanged |
| `RamFs.RamFs.CreateFilePath` | userspace/services/fileagent/src/ramfs.rs:355-377 | the file appears under the directory part's node, with the exact well-formedness condition; refusals change nothing |
| `RamFs.RamFs.Open` | userspace/services/fileagent/src/vfs.rs:41-61 | an existing node is returned and nothing changes; a created one leaves a well-formed tree if and only if its slot was free and its stored name is new, then it is empty and only its own path is new, and the path resolves to it unless the name was cut; with the flag nothing is returned only for a missing or wrong directory or a full table |
| `RamFs.RamFs.Rmdir` | userspace/services/fileagent/src/vfs.rs:136-151 | not found, invalid or not empty exactly for a path that leads nowhere, the root, or a path with an entry below it; on success exactly this path stops resolving and every other path's node, type, size and bytes are unchanged |
| `RamFs.RamFs.Unlink` | userspace/services/fileagent/src/vfs.rs:153-168 | the same with the refusal reported as a missing path |
| `RamFs.RamFs.Read` | userspace/services/fileagent/src/ramfs.rs:174-192 | copies the part of the file from the offset that fits and leaves the rest of the buffer |
| `RamFs.RamFs.Write` | userspace/services/fileagent/src/ramfs.rs:194-211 | the file's bytes are the old ones overlaid, zero-filled and cut at the capacity; no other node and no path changes |
| `RamFs.RamFs.ParentOf` | userspace/services/fileagent/src/ramfs.rs:319-326 | the parent entry, or -1 out of range |
| `Fdt.FindNodeProperty` | kernel/src/fdt.rs:118-196 | on arbitrary bytes the loop ends, reads inside the block only and computes the token-by-token reading; what it finds in a device tree is `FdtNames.FindsByName` |
| `Fdt.GetString` | kernel/src/fdt.rs:107-116 | the loop computes the string at the offset; by `FdtNames.StringIs` and `FdtNames.StringAtEnd` that is the name that stands there up to its zero or the end of the block, if it is UTF-8 |
| `Fdt.ScanInBounds` | kernel/src/fdt.rs:118-196 | whatever the bytes, a result is a slice of the structure block |
| `Fdt.ScanInside` | kernel/src/fdt.rs:154-186 | inside the node found, its own properties decide and those of descendants are skipped, over any flattened contents |
| `Fdt.ScanOutside` | kernel/src/fdt.rs:131-153 | before a node is found, the first match in preorder decides |
| `Fdt.FindsFirstInPreorder` | kernel/src/fdt.rs:118-196 | over trees that carry offsets: the result is the direct property with a matching offset of the first matching node in preorder, and none otherwise |
| `Fdt.ReadsNode` | kernel/src/fdt.rs:131-153 | a flattened node is read back: name, contents, end mark and what follows, across padding |
| `Fdt.ReadsProp` | kernel/src/fdt.rs:162-185 | a flattened property is read back and its padding stepped over |
| `FdtNames.Utf8Iff` | kernel/src/fdt.rs:115-115 | the check accepts exactly the byte strings that encode Unicode scalar values |
| `FdtNames.StringIs` | kernel/src/fdt.rs:107-116 | between any bytes before it and a zero behind it, a name without zeros is what its offset yields, or nothing if it is not UTF-8 |
| `FdtNames.StringAtEnd` | kernel/src/fdt.rs:107-116 | a last name without a closing zero is read to the end of the block; past the block there is none |
| `FdtNames.NodeNamed` | kernel/src/fdt.rs:139-149 | a node called base, or base, '@' and a unit address, matches if and only if its name is UTF-8 and the base is the name asked for |
| `FdtNames.FindsByName` | kernel/src/fdt.rs:118-196 | over device trees whose nodes and properties have names, flattened in any way with a strings block in which those names stand: the data of the first property of that name of the first node of that name in preorder, and none otherwise |
| `FdtNames.MemoryReg` | kernel/src/fdt.rs:217-217 | the `reg` bytes of a memory node whose strings block holds `device_type` first, whatever other nodes follow |
| `Crc32.TableIsStep8` | tools/ohlink-toolchain/crates/ohlink-format/src/crc32.rs:4-37 | every one of the 256 table entries is eight bitwise steps of its index |
| `Crc32.TableByteIsBitwise` | tools/ohlink-toolchain/crates/ohlink-format/src/crc32.rs:40-46 | one table step is eight bit steps of the reflected polynomial 0xEDB88320 |
| `Crc32.Crc32Ieee` | tools/ohlink-toolchain/crates/ohlink-format/src/crc32.rs:40-46 | the table-driven loop equals the bitwise checksum on every input |
| `Crc32.CheckValue` | tools/ohlink-toolchain/crates/ohlink-format/src/crc32.rs:40-46 | the checksum of the digits 1 to 9 is the published check value 0xCBF43926 |
| `Crc32.ByteStepInjective` | tools/ohlink-toolchain/crates/ohlink-format/src/crc32.rs:40-46 | the byte step is injective in the register and in the byte |
| `Crc32.OneByteChangesChecksum` | tools/ohlink-toolchain/crates/ohlink-format/src/crc32.rs:40-46 | changing exactly one byte changes the checksum |
| `OhlinkFormat.NumOfLe` | tools/ohlink-toolchain/crates/ohlink-format/src/header.rs:27-44 | little-endian bytes are read back for every value that fits |
| `OhlinkContents.LeDigit` | tools/ohlink-toolchain/crates/ohlink-format/src/header.rs:27-44 | byte i of a number in the file is its base-256 digit of weight 256 to the i |
| `OhlinkFormat.RegisterRoundTrip` | tools/ohlink-toolchain/crates/ohlink-format/src/header.rs:39-39 | a 32-bit register survives its four bytes |
| `OhlinkFormat.RegisterInjective` | tools/ohlink-toolchain/crates/ohlink-format/src/header.rs:68-68 | different checksum bytes give different checksums |
| `OhlinkFormat.HeaderSlices` | tools/ohlink-toolchain/crates/ohlink-format/src/header.rs:27-44 | every header field stands at its offset |
| `OhlinkFormat.HeaderRoundTrip` | tools/ohlink-toolchain/crates/ohlink-format/src/header.rs:27-92 | a header is read back from its bytes, whatever follows them |
| `OhlinkFormat.EntryRoundTrip` | tools/ohlink-toolchain/crates/ohlink-format/src/entry.rs:99-152 | an entry is read back from its bytes |
| `OhlinkImage.AlignUpIff` | tools/ohlink-toolchain/crates/ohlink-format/src/builder.rs:84-84 | the masking brings every position to a multiple of the alignment if and only if that is a power of two |
| `OhlinkImage.PayloadsApart` | tools/ohlink-toolchain/crates/ohlink-format/src/builder.rs:77-94 | whatever the alignments, payloads lie behind the entry table and do not overlap |
| `OhlinkImage.PayloadAligned` | tools/ohlink-toolchain/crates/ohlink-format/src/builder.rs:77-94 | a payload whose alignment is a power of two is aligned |
| `OhlinkImage.EntryInImage` | tools/ohlink-toolchain/crates/ohlink-format/src/builder.rs:101-106 | entry i stands at its place in the table, whatever follows the image |
| `OhlinkImage.PayloadInImage` | tools/ohlink-toolchain/crates/ohlink-format/src/builder.rs:77-94 | payload i stands at its recorded offset |
| `OhlinkBuilder.Builder.constructor` | tools/ohlink-toolchain/crates/ohlink-format/src/builder.rs:12-35 | an empty builder |
| `OhlinkBuilder.Builder.AddSegment` | tools/ohlink-toolchain/crates/ohlink-format/src/builder.rs:37-63 | the segments are the old ones followed by this one |
| `OhlinkBuilder.Builder.LayOut` | tools/ohlink-toolchain/crates/ohlink-format/src/builder.rs:65-96 | the padding loop produces the specified payload area, records every offset and makes the header, whose fields are the caller's by `OhlinkContents.HeaderComesBack` |
| `OhlinkBuilder.Builder.PatchEntries` | tools/ohlink-toolchain/crates/ohlink-format/src/builder.rs:101-106 | the patch loop turns the zeroed table into the entries and touches nothing else |
| `OhlinkBuilder.Builder.Build` | tools/ohlink-toolchain/crates/ohlink-format/src/builder.rs:65-113 | the bytes returned are the image of the segments added, checksum included; what the image says field by field is `OhlinkContents.HeaderComesBack` and `OhlinkContents.EntryComesBack` |
| `Ohlink.NewParser` | tools/ohlink-toolchain/crates/ohlink-format/src/parser.rs:9-42 | accepts or rejects exactly as header, size and checksum rules say |
| `Ohlink.MaskedChecksum` | tools/ohlink-toolchain/crates/ohlink-format/src/parser.rs:20-32 | the parser's loop is the checksum of the bytes with the checksum field zeroed |
| `Ohlink.ParseImage` | tools/ohlink-toolchain/crates/ohlink-format/src/parser.rs:9-42 | parsing a built image followed by any bytes succeeds and yields the header written; its fields are the caller's by `OhlinkContents.HeaderComesBack` |
| `Ohlink.RoundTrip` | tools/ohlink-toolchain/crates/ohlink-format/src/parser.rs:48-67 | every entry and every payload of a built image comes back unchanged, whatever its alignment and whatever bytes follow, and aligned where the alignment is a power of two |
| `Ohlink.NoFurtherEntries` | tools/ohlink-toolchain/crates/ohlink-format/src/parser.rs:48-51 | an index past the entries is refused |
| `Ohlink.OneByteRejected` | tools/ohlink-toolchain/crates/ohlink-format/src/parser.rs:18-39 | any accepted file is rejected after a change of exactly one of its bytes outside the eight that give its length |
| `Ohlink.AlteredImageRejected` | tools/ohlink-toolchain/crates/ohlink-format/src/parser.rs:18-39 | a built image with exactly one byte after the header altered is rejected |
| `OhlinkContents.AcceptedIff` | tools/ohlink-toolchain/crates/ohlink-format/src/parser.rs:9-42 | a file is accepted if and only if it has 64 bytes, starts with the magic bytes and major version 1, is as long as its length field says, and carries the checksum of that many bytes with the field as zero |
| `OhlinkContents.RefusedFor` | tools/ohlink-toolchain/crates/ohlink-format/src/parser.rs:9-42 | the first of these that fails names the error |
| `OhlinkContents.HeaderComesBack` | tools/ohlink-toolchain/crates/ohlink-format/src/builder.rs:12-113 | field by field against the caller's values: magic, version 1.1, architecture, file type, flags and entry point, the number of segments, the table and data offsets, and the file's length |
| `OhlinkContents.EntryComesBack` | tools/ohlink-toolchain/crates/ohlink-format/src/builder.rs:37-113 | entry i has the type, flags, address, memory size, alignment and length of the segment the caller added as the i-th, and its offset is where that segment's bytes stand |
| `OhlinkContents.FirstBytes` | tools/ohlink-toolchain/crates/ohlink-format/src/header.rs:27-44 | the image starts with the bytes KLHO and version 1.1, and bytes 38 to 45 are the entry point, lowest byte first |
| `OhlinkContents.PayloadsPacked` | tools/ohlink-toolchain/crates/ohlink-format/src/builder.rs:77-96 | less than one alignment of zeros stands between two payloads, and nothing behind the last |
| `PipeRing.Pipe.constructor` | kernel/src/vfs/pipe.rs:79-92 | an empty ring with one reader and one writer |
| `PipeRing.Pipe.EmptyAndFull` | kernel/src/vfs/pipe.rs:40-58 | head meets tail exactly when nothing is held, and one place is left exactly when 4095 bytes are |
| `PipeRing.Pipe.Write` | kernel/src/vfs/pipe.rs:171-198 | bytes accepted are appended up to 4095 held; peer-closed and full outcomes exactly; accepted so far equals read so far followed by held |
| `PipeRing.Pipe.Read` | kernel/src/vfs/pipe.rs:142-163 | the oldest bytes leave in order, as many as fit, and the rest stays |
| `PipeTable.AllocUserFd` | kernel/src/syscall/handlers/process.rs:1125-1140 | the loop computes the first free descriptor around the table |
| `PipeTable.AllocFdFinds` | kernel/src/syscall/handlers/process.rs:1125-1140 | a descriptor is found if and only if one is free |
| `PipeTable.ConsoleFdIff` | kernel/src/syscall/handlers/process.rs:1125-1140 | a console descriptor is handed out if and only if everything from the starting point to the end of the table is taken and a console one is free |
| `PipeTable.ConsoleFdExample` | kernel/src/syscall/handlers/process.rs:1125-1140 | thirteen user descriptors taken: the next pipe gets descriptor 0 |
| `PipeEffects.AllocFdIsFirst` | kernel/src/syscall/handlers/process.rs:1125-1140 | the descriptor is the first free one from the starting point to the end of the table and, if there is none, the first free one from 0 |
| `PipeEffects.SysPipeEffect` | kernel/src/syscall/handlers/process.rs:1081-1097 | a new pipe's reader is at the first descriptor found and its writer at the second, its pipe has one reader and one writer, and no other process, pipe or descriptor changes; without a free descriptor none does |
| `PipeEffects.EndsCoincideIff` | kernel/src/syscall/handlers/process.rs:1082-1097 | both searches end at one descriptor if and only if no other user descriptor is free and, besides, no console descriptor is, or it is a console descriptor itself or the last of the table |
| `PipeEffects.EndsCoincideExample` | kernel/src/syscall/handlers/process.rs:1082-1097 | with 15 the only free user descriptor and 0 free, the new pipe's only descriptor is its write end, and nobody holds its read end |
| `PipeTable.SysPipeKeeps` | kernel/src/syscall/handlers/process.rs:1068-1120 | making a pipe keeps every role count at least the number of descriptors holding the role, even when both ends land on one descriptor |
| `PipeTable.Dup2Keeps` | kernel/src/syscall/handlers/process.rs:1144-1186 | duplicating keeps it, including the close of what was there, for every call that does not panic on the table index |
| `PipeEffects.Dup2Effect` | kernel/src/syscall/handlers/process.rs:1144-1186 | the new descriptor holds what the old one holds and no other changes; the end copied gained one reference, the one displaced lost one, and a pipe is freed exactly when neither of its ends is left |
| `PipeEffects.Dup2Refusals` | kernel/src/syscall/handlers/process.rs:1144-1166 | a descriptor onto itself succeeds, a console descriptor or an empty source is refused, and nothing changes |
| `PipeEffects.InitEffect` | kernel/src/task/process.rs:126-157 | all sixteen descriptors of the slot are empty and nothing else changes |
| `PipeTable.InitKeeps` | kernel/src/task/process.rs:126-157 | setting up a process slot, which forgets its descriptors without lowering a count, keeps it |
| `PipeTable.InvOverRuns` | kernel/src/syscall/handlers/process.rs:1068-1186 | it holds along every run of pipe creations, duplications and process set-ups; nothing else in the source touches a descriptor or a count |
| `PipeTable.NumbersGrow` | kernel/src/vfs/pipe.rs:79-92 | along every run pipe numbers only grow, so no two pipes get the same one |
| `PipeTable.NoDanglingEnd` | kernel/src/vfs/pipe.rs:94-130 | so no descriptor ever names a freed pipe |
| `PipeTable.FreshInv` | kernel/src/vfs/pipe.rs:72-74 | it holds before any pipe is made |
| `PipeRuns.StepBalances` | kernel/src/syscall/handlers/process.rs:1195-1275 | each step balances every pipe: held before and accepted equals taken out and held after |
| `PipeRuns.BytesInOrder` | kernel/src/syscall/handlers/process.rs:1195-1275 | over every mixed run of pipe creation, duplication, reads and writes through descriptors of any processes: the bytes a pipe accepted are the bytes read from it followed by those it holds |
| `PipeEffects.WriteAppends` | kernel/src/syscall/handlers/process.rs:1228-1254 | a write through a writing end appends what fits under 4095 bytes, at most 4096 at a time, if a reader is counted |
| `PipeEffects.ReadTakes` | kernel/src/syscall/handlers/process.rs:1255-1275 | a read through a reading end yields the oldest bytes, at most 4096 at a time, and leaves the rest |
| `PipeEffects.WrittenIsRead` | kernel/src/syscall/handlers/process.rs:1195-1275 | what one process writes into an empty pipe another reads out of it whole, and everything is as before |
| `PipeEffects.NoEndNoBytes` | kernel/src/syscall/handlers/process.rs:1195-1275 | descriptors in the other role, of the console, empty or out of range move no byte |
| `Hnxf.Pack` | tools/xtask/src/pack.rs:14-60 | the output loops produce the specified image: superblock, records with running offsets, padded data |
| `Hnxf.FileAt` | tools/xtask/src/pack.rs:29-57 | every file lies in the data area at its recorded offset and before the next one |
| `Hnxf.OffsetAligned` | tools/xtask/src/pack.rs:25-51 | every file's data starts at a multiple of sixteen |
| `Hnxf.GetFileLoop` | kernel/src/rootfs.rs:11-77 | the scan computes the lookup, reading inside the image only |
| `Hnxf.BootSize` | bootloader/src/main.rs:107-140 | the loop computes the furthest end of any file |
| `Hnxf.MaxEndCovers` | bootloader/src/main.rs:107-140 | on a packed image that size reaches the end of every file and no further than the image |
| `Hnxf.FieldsReadBack` | kernel/src/rootfs.rs:28-54 | each record's name, offset and size are read back from any memory that starts with the table |
| `Hnxf.PackedFilesAreFound` | kernel/src/rootfs.rs:11-77 | packing, measuring in the boot loader and looking up in the kernel together: for every path exactly the first packed file of that name is returned, whatever follows the image in memory |
| `Hnxf.FoundUnder` | tools/xtask/src/pack.rs:33-42 | a path is found with slashes for its backslashes; of a path of 128 bytes or more the first 127 count |
| `Hnxf.EveryFileIsFound` | kernel/src/rootfs.rs:11-77 | files packed under different ordinary paths (UTF-8, below 128 bytes, no backslash) are each found under their own path with their own data, through packer, boot loader and kernel |
| `Channels.System.CloseEnd` | kernel/src/ipc/channel.rs:422-433 | on the real arrays: the slot-by-slot loop over both waiter arrays wakes everyone through the scheduler in the specified order and leaves the end closed and empty, touching no other end or table |
| `Channels.System.Close` | kernel/src/ipc/channel.rs:422-451 | both ends' arrays drained, closed and unlinked, as specified |
| `Channels.System.Give` | kernel/src/object/handle_table.rs:133-146 | on the slot array: the handle counter advances in any case; a full table drops the object, closing a channel end |
| `Channels.System.TakeOut` | kernel/src/ipc/channel.rs:223-239 | duplicate then remove on the slot array, or remove, as specified; only that table changes |
| `Channels.System.CloseHandle` | kernel/src/object/handle_table.rs:283-311 | the slot is emptied and the object dropped, as specified |
| `Channels.System.TransferAll` | kernel/src/ipc/channel.rs:223-239 | the loop over at most two handles computes the specified delivery |
| `Channels.System.ClearSlots` | kernel/src/ipc/channel.rs:263-265 | the loop empties both transfer slots, dropping what they held |
| `Channels.System.Stash` | kernel/src/ipc/channel.rs:266-281 | the loop fills transfer slots from the front with what could be taken out |
| `Channels.System.UnstashAll` | kernel/src/ipc/channel.rs:286-292 | the loop moves both slots into the table |
| `Channels.System.WriteBlocking` | kernel/src/ipc/channel.rs:257-300 | scheduler, waiter array, transfer slots and handle table end in the specified state, whether the writer queues and yields or is refused and restored |
| `Channels.System.Write` | kernel/src/ipc/channel.rs:199-307 | the scheduler's arrays, both ends' waiter arrays and the handle tables' slot arrays end in the state that write of the specification yields, with its outcome, on every path; what that is for the caller, the partner and the handles is `ChannelOutcomes.WriteDelivers`, `ChannelOutcomes.WriteJoins`, `CapTransfers.WriteMoves` and `CapTransfers.WriteStashes` |
| `Channels.System.ReadBlocking` | kernel/src/ipc/channel.rs:164-182 | blocking, queueing in the waiter array and yielding, or refusal, as specified |
| `Channels.System.Read` | kernel/src/ipc/channel.rs:106-197 | the same for read, with the bytes returned: `ChannelOutcomes.ReadPicksUp`, `ChannelOutcomes.ReadJoins` and `CapTransfers.ReadCollects` |
| `ChannelRuns.Perform` | kernel/src/ipc/channel.rs:106-451 | one system call on the arrays, creating channels, objects and threads included, takes one step of the specification and keeps the invariant |
| `ChannelRuns.PerformAll` | kernel/src/ipc/channel.rs:106-451 | every run of the specification is what the arrays go through, whatever is made on the way, and the rendezvous invariant holds of them at its end |
| `ChannelRuns.NoArraysFacing` | kernel/src/ipc/channel.rs:106-307 | so across a link the first slot of the senders' array or of the receivers' array is empty |
| `ChannelRuns.Boot` | kernel/src/ipc/channel.rs:44-54 | beside any sound scheduler, the system without channels and handle tables satisfies the invariant |
| `ChannelCreation.CreateChannel` | kernel/src/syscall/handlers/ipc.rs:82-103 | two new ends with arrays of their own enter the table one after the other and are linked, or the first refusal stops it, as specified |
| `ChannelCreation.OneMoreEndApart` | kernel/src/ipc/channel.rs:44-54 | a new end's arrays are shared with nothing that exists |
| `ChannelCreation.AddThread` | kernel/src/syscall/handlers/process.rs:514-533 | the thread enters the scheduler's arrays with clear fields, with a new empty slot array if its process is new, as specified |
| `PipeTable.PipeSystem.MakePipe` | kernel/src/syscall/handlers/process.rs:1068-1120 | the specified state, the counts invariant, and the descriptors returned hold the two ends (the write end if they coincide) |
| `PipeTable.PipeSystem.DupTo` | kernel/src/syscall/handlers/process.rs:1144-1186 | the specified state or error, keeping the counts invariant |
| `PipeTable.PipeSystem.AllocPipe` | kernel/src/vfs/pipe.rs:79-92 | the number handed out was never handed out before and no descriptor names it; its pipe has one reader and one writer, every other pipe is as it was; refused exactly once sixteen numbers are used up, changing no pipe |
| `PipeTable.PipeSystem.PipeCloseRole` | kernel/src/vfs/pipe.rs:109-130 | one reference of that role less and the other role as it was; the pipe is freed exactly when this was the last of its role and the other role has none; every other pipe is as it was |

## Left out

- Channels.System: works on the scheduler's, waiter and slot arrays; peers are named by number instead of pointed at, a thread's IPC fields (buffer, transfer slots, table number) are one map, and the record that lists ends and tables by number is made anew when one is added.
- Resumption of a blocked read or write: the value a woken thread returns with, and the handle numbers reported to a receiver, are not modelled; the bytes and objects delivered are.
- Phys.PhysMemory.RegisterPtPage: asks for a frame that is not tracked yet, as every caller passes a frame just allocated.
- Phys.PhysMemory.FreePage: frames outside the tag window, which the source ignores, are outside the model's memory; the free-page counter and the page cache are not modelled.
- PageTable.PageTableTree.MapVa: lower-half addresses only, and every block met on the way must be aligned; the attributes are the descriptor's bits, whose effect in the processor is taken from its manual; the shared upper half of the root is only stated untouched. `set_root_raw` and `clone_high_half` are not part of this model.
- PageTable.PageTableTree.CloneIdentityBlock: the first entry of this tree's root is empty or links a table, as every operation that writes it leaves it.
- PageAudit.Validate: says nothing beyond 64 reachable tables, where the bounded list of the source drops entries.
- SchedFairness.BoundedWaiting: for runs in which no thread of a higher level is ready or becomes ready; without that a thread can wait for ever by design.
- IpcRuns.RendezvousOverRuns: steps are taken while some other thread is ready; `sys_thread_start`, ports, futexes and `read_with_timeout` are not steps. A new thread has an identifier of its own, as the source's counter gives it.
- VmoObject.MemoryObject: pages are not returned when an object is dropped or a creation fails half-way; identifiers, `Vmo::clone` and copy-on-write flags are not modelled. A slot's presence word is taken to precede its address word.
- UserCopy.SysVmoRead: starts after the handle lookup and rights check. Where the range overlaps the object's own frames, a device or a page table, nothing is promised.
- UserCopy.SysVmoWrite: the same.
- UserCopy.SafeCopyFromUser: nothing is promised where the range itself leads to a device or a page table; the tables do not change during the call and the watch log is left out. Address sums are not wrapped at 2^64, which no translation can tell (`UserCopy.HighBitsIgnored`).
- UserCopy.SafeCopyToUser: the same.
- Vmar.Vmar.AllocateSubregion: address sums do not wrap.
- SlabAllocation.SlabAllocator: sequential use; physical and kernel addresses of a page are identified; `Deallocate` asks for a live block and its own layout, as the global allocator contract does.
- RamFs.RamFs.SetNode: for a parent index below the table's size; both callers check it before.
- RamFs.RamFs.MkdirPath: requires component names of at most 63 bytes and that the allocations it needs yield free slots (`RamFsPaths.AllocsOk`), since on a broken tree the source's list walks need not end.
- RamFs.RamFs.Write: requires offsets of at most 4096; beyond that the source's subtraction panics.
- RamFs.RamFs.Open: only the node behind the call: sessions, descriptor slots, offsets, `readdir` and `stat` would add easy members.
- Fdt: the header, and what `parse` does with the properties found, are left out; nesting depth is unbounded instead of 32 bits.
- Ohlink.GetSegmentData: offset plus size does not wrap; relocation and symbol records, and the segment and file type enumerations, are left out.
- OhlinkBuilder.Builder.Build: aligned offsets do not wrap at 2^64.
- PipeTable.PipeSystem: `dup2` onto a descriptor outside the table once its source is found valid, where the source panics, and copying the pair of numbers to the caller are left out.
- PipeTable.Dup2Keeps, PipeTable.PipeSystem.DupTo: the same restriction.
- PipeRuns.BytesInOrder: reads and writes after their bytes are in the kernel's buffer; what each accepts and yields is that of `PipeRing.Pipe.Write` and `PipeRing.Pipe.Read`, whose counts are those of the pipe table.
- Hnxf: which files the packer collects, and in which order, is given; the log lines are left out.
- Caches, address-space identifiers, context switches and interrupt handling.
- Process launching, signals, the shell and utilities, the emulator and the compiler backend.
