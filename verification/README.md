# The memory system and the hand-over protocols of a small x86-64 kernel

This project models the memory management of the kernel (page tables, page allocator, ranges, ELF
loading, portals) and four of its protocols and loops (processor boot chain, context switch with
notification handlers, choice of the next thread, MADT parsing), and proves what they do to every
page, in every run and in every interleaving.

Each part has two layers. Specification functions and step machines on values carry the theorems.
Where the source changes things in place, classes and methods with the source's own loops and
branches (`PmmModule`, `Memory`, `PageTable`, the range and loader methods, `AddressSpace`,
`CpuLocal`, `TraverseAndQueue`, `ParseTable`) are shown to compute exactly those functions.

## How the parts fit together

- `Words`: a 64-bit entry as three fields (no-execute bit, page number, twelve flag bits). `Of` reads
  the fields out of a 64-bit word, and the source's bit operations commute with it.
- `Physical`, `PhysicalAllocator`, `Machine`: bitmap modules, their chain, the live blocks, memory.
- `PageTables`, `PageOperations`: one generic walk, map, unmap and lookup for tables of any depth.
  The invariant is that the tables form a tree: each table hangs from the entry that its place
  names, and each entry that leads to a table leads to one placed there. Under it, a store
  changes one translation and no other.
- `TableIndices`, `Paging`: the unrolled four- and five-level routines refine the generic ones.
- `Rights`, `MemoryRuns`, `RightsHistory`: whole runs of map, unmap and foreign allocations.
- `RangeRights`: what the hardware grants in the default address space and on loaded segments.
- `AddressSpaces`: several address spaces over one memory.
- `Virtual`, `DirectMap`, `VirtualMemory`: page ranges and the default kernel address space.
- `Elf`, `ElfLoader`, `Portals`, `PortalOrder`, `PortalRuns`, `PortalGrants`, `DirectPortals`, `PortalSpace`:
  the clients of the memory system; a portal run records with each page the portal whose fault or request mapped it.
- `PagingWitnesses`, `PortalWitnesses`: concrete runs on a small memory, for the properties that do not
  hold of every input.
- `SmpBoot`, `ContextSwitch`, `DispatchRuns`, `ScheduleRuns`, `Scheduler`, `RunQueue`, `Madt`: the other cores.

## Assumptions

- The fayt library helpers are not part of this model. Locks are taken as mutual exclusion, so
  a routine that takes a lock and releases it is one step. Two locks are part of the state because they
  are not released where they are taken: the boot lock, which the started processor releases, and the
  lock of a notification queue, which dispatching keeps. A vector pops its last element. `ALIGN_UP`,
  `DIV_ROUNDUP` and the `BIT_*` macros compute what their names say. The tree insertion macro of the
  portals inserts at a leaf by `base` without rebalancing; the one of the scheduling server keeps a
  red-black tree.
- Sizes and addresses do not overflow 64 bits; page numbers are unbounded naturals, of which the
  tables look at 36 or 45 bits.
- The physical addresses in a direct portal request are page-aligned.
- A newly allocated handler frame is blank.
- A frame is seen either as a table of 512 entries or as 4096 bytes. The allocator zeroes both views.
- The map routines take flags that contain P and no address bits, do not map 4 KiB pages into a
  present 2 MiB slot (`kernel/arch/x86/paging.c:61` tests P only), and do not check their
  allocations. The methods therefore require that the allocations on the way succeed;
  `MapPageSucceeds` says exactly when they do, and `MapRangeBound`, `MapListBound`, `DefaultSpaceBound`,
  `LoadAllBound` and `ResolveAnonBound` how many free pages are enough for what is built on them.
- `place`, `live`, `wired`, `owner`, `ever`, the boot log and the records of registers are bookkeeping of the
  model; no branch depends on them.

## Where the code does not do what one would expect

- Freeing (`kernel/core/physical.c:188`): the guard compares the module's base, not the freed one. A free
  reaches its module, and undoes the allocation, exactly under the condition of `FreeUndoesAlloc`;
  `FreeCanMissItsModule` is a chain where it does not.
- Five-level unmap (`kernel/arch/x86/paging.c:241-246`): it looks into the root with the fourth-level
  index. It unmaps the page it is asked to exactly if the two top indices agree (`FiveLevelUnmapHits`),
  and mapping a range and unmapping it again restores the translations exactly if they agree for every
  page of the range (`MapThenUnmapRange`). `UnmapMissesItsPage` is a run in which it misses.
- Five-level map (`kernel/arch/x86/paging.c:194-234`): it does not add RW to new non-leaf entries, as the
  four-level map does. Whether a page can be written then also depends on the first mapping under
  each of its tables (`FiveLevelWriteRight`). `SecondPageNotWritable` is a run of two maps that ends with
  a writable mapping that cannot be written.
- Unmapping a range (`kernel/core/virtual.c:72-78`): the loop stops at the first page that has no entry.
  Without 2 MiB entries it clears its range exactly if no mapped page follows, in the range, a page
  that has none (`UnmapRangeClears`); `UnmapStopsEarly` is a space where one does.
- Direct map (`kernel/core/virtual.c:45-52`): the chunk count ignores the offset of a region in its
  first chunk, so the loop for a region can miss its last chunk. A region is reachable as a whole exactly
  if some loop maps that chunk (`RegionMapped`).
- ELF loading (`kernel/core/elf.c:114-141`): the remainder divides by zero unless the segment is a page
  long, or empty and page-aligned (`DividesIffLongEnough`). A misaligned segment can get pages past its
  end, and the copy for such a page can leave its frame; `CopiesStayInside` says exactly when all copies
  stay inside, `CopyCanLeaveFrame` is a segment for which one does not. From the second page on the
  misalignment is forgotten: a segment is loaded right whatever the file holds exactly if it is
  page-aligned (`LoadedRightIffAligned`). The flag bits R and X have each other's values
  (`kernel/core/elf.h:41-43`); the model keeps the code's names for them.
- Portals (`kernel/core/portal.c:99`): a portal also covers the address right behind it. Where portals
  touch, the descent finds the right one exactly if the portal that starts at the address lies above
  the one that ends there (`DescentFindsOwner`); `TouchingPortalsClash` is a tree where it does not. In a
  tree that requests have built, that is a matter of their order: exactly if the portal that starts at
  the address was requested before the one that ends there (`DescentByRequests`).
- Direct portals (`kernel/core/portal.c:73`): the page count ignores the offset of the base in its page. All
  addresses of a direct portal are mapped exactly if the offset does not push it over that many pages
  (`AllReachedIff`, `OpenServes`); `SecondHalfLeftOut` is a portal that loses its second half.
- Faults (`kernel/core/portal.c:130-140`): two frames are taken and one is used (`ResolveAnonTakes`).
- Portals (`kernel/core/portal.c:70-90`): a direct request maps whole pages and asks nobody. If one of
  them is in use by another portal, that portal loses it, unless it gets the same frame and rights
  (`OpenKeepsRecords`; `SharedPageIsLost` is such a run).
- Portals (`kernel/core/portal.c:99-145`): a fault maps a whole page with the rights of the portal that
  covers the faulting address, and only absent pages are faulted in (line 58). Another anonymous portal
  that shares the page has its own rights there exactly if they are the same (`EveryPortalHasItsRights`,
  `SharedPageGrants`). `WriterIsLockedOut` is a run in which a writable portal cannot write.
- Portals with five levels (`kernel/arch/x86/paging.c:194-234`): a writable portal can write a page exactly
  if the first portal that mapped a page under each table above it was writable too
  (`FiveLevelPortalWrite`).
- Notifications (`kernel/core/notification.c:69-119`): dispatching takes the queue lock and, once something
  is pending, never gives it back. So a context is dispatched to at most once, handlers never nest, and
  rescheduling to a context that has been dispatched to and is not muted never returns
  (`AtMostOneDispatch`, `HandlersNeverNest`, `RescheduleReturns`; `SecondDeliveryHangs` is such a run).
  `DESIGN.md` speaks of any number of nested notifications.
- Context switch (`kernel/core/scheduler.c:102-116`): notifications are dispatched before the current
  registers are saved. `InstallOnRunningContext` says exactly when a handler starts right, and
  `RunningThreadLosesHandler` is a run in which it does not.
- Scheduling server (`servers/sched/sched.c:105-112`): the descent picks the first or the second thread;
  order alone would not bound how many are ahead (`OrderIsNotEnough`).

## Model

| member | source | states |
|---|---|---|
| `Words.OfOr` | kernel/arch/x86/paging.c:44-67 | for all 64-bit words, `or` with a word that has no page number is `Or` on the fields, so entries may be modelled field by field |
| `Words.OfDirectoryMask` | kernel/arch/x86/paging.c:9-12 | the mask for non-leaf entries is `DirectoryFlags`: it clears NX, PS and G and nothing else |
| `Words.OfNextTable` | kernel/arch/x86/paging.c:47-66 | masking off the low twelve bits gives the frame `NextTable`, also for an entry with bit 63 set |
| `Words.OfClearPresent` | kernel/arch/x86/paging.c:93-107 | clearing P is `ClearPresent` on the fields |
| `Words.OfTests` | kernel/arch/x86/paging.c:43-56 | the tests of P and PS are those on the fields |
| `Words.OfFlags` | kernel/core/elf.c:129-131 | a 64-bit word of flags alone, with or without bit 63, has those flags as its fields and no page number |
| `Physical.FirstCandidateIsLowest` | kernel/core/physical.c:43-85 | the search yields the lowest aligned run of clear bits at or above the hint, and nothing exactly when there is no such run |
| `Physical.NextClear` | kernel/core/physical.c:66-73 | the new hint is the lowest clear bit from the end of the run on, or 0 if there is none |
| `Physical.ModuleAllocEffect` | kernel/core/physical.c:43-85 | a served block is aligned, lies in the module, was free and is the only thing that turns used; the new hint is the first free page behind it, or 0 if there is none; a failure changes nothing and means that no candidate exists |
| `Physical.DivRoundUpIsLeast` | kernel/core/elf.c:115 | rounding up gives the least number of blocks that hold the given length |
| `PhysicalAllocator.AlignUpIsLeast` | kernel/core/physical.c:46 | rounding up gives the least multiple at or above its argument |
| `PhysicalAllocator.StartOfSearch` | kernel/core/physical.c:46-47 | the aligned start lies at a whole page of the module, and no candidate lies before it |
| `PhysicalAllocator.PmmModule.constructor` | kernel/core/physical.c:30-41 | a new module has all its pages free and no hint |
| `PhysicalAllocator.PmmModule.IsClear` | kernel/core/physical.c:55-59 | answers whether a run of bits is clear, without changing any |
| `PhysicalAllocator.PmmModule.Mark` | kernel/core/physical.c:62-64 | sets exactly the bits of the run |
| `PhysicalAllocator.PmmModule.FindHint` | kernel/core/physical.c:66-73 | sets the hint to the next clear bit, or 0, and leaves the bitmap alone |
| `PhysicalAllocator.PmmModule.Alloc` | kernel/core/physical.c:43-85 | the nested loops hand out the lowest candidate, with the running address equal to base plus index times page size throughout, and fail only without a candidate |
| `PhysicalAllocator.PmmModule.Free` | kernel/core/physical.c:87-95 | clears exactly the bits of the block that lie in the bitmap and keeps the hint |
| `Physical.FirstFit` | kernel/core/physical.c:164-181 | the module that serves a request is the first of the chain that can |
| `Physical.Route` | kernel/core/physical.c:183-193 | a free goes to the first module whose guard accepts it |
| `Physical.RouteFinds` | kernel/core/physical.c:183-193 | a free reaches the module that holds the block if and only if no earlier module starts at or below it with at least as many pages |
| `Machine.Memory.AllocAt` | kernel/core/physical.c:164-181 | a request to one module changes that module as specified and no other |
| `Machine.Memory.AllocFromChain` | kernel/core/physical.c:164-181 | the walk along the chain serves from the first module that can, leaving all others as they are |
| `Machine.Memory.Alloc` | kernel/core/physical.c:164-181 | the block comes from the first module that can serve it, is recorded as live and is zeroed; failure changes nothing |
| `Machine.Memory.Zero` | kernel/core/physical.c:175 | zeroes the frames of the block and no others |
| `Machine.Memory.Free` | kernel/core/physical.c:183-193 | exactly the module that the guard picks changes, by the cleared run |
| `Physical.AllocKeepsOk` | kernel/core/physical.c:43-85 | an allocation keeps "a bit is set iff its page is in a live block" and "live blocks do not overlap"; the new block is aligned and apart from all live ones |
| `Physical.FreeKeepsOk` | kernel/core/physical.c:183-193 | a correctly routed free of a live block keeps both |
| `Physical.FreshPmmOk` | kernel/core/physical.c:30-41 | disjoint page-aligned modules with clear bitmaps satisfy the bookkeeping invariant |
| `Physical.RunKeepsOk` | kernel/core/physical.c:43-193 | over every run of allocations and correctly routed frees, a bit is set exactly when its page belongs to exactly one live block |
| `Physical.FreeUndoesAlloc` | kernel/core/physical.c:164-193 | freeing what was just allocated restores every bitmap if and only if no module before the serving one starts at or below the block with at least as many pages |
| `Physical.FreeUndoesAllocInOneModule` | kernel/core/physical.c:164-193 | with one module the round trip always holds |
| `Physical.FreeCanMissItsModule` | kernel/core/physical.c:188 | two modules from 1 MiB on for which it does not |
| `Physical.OnePageSucceeds` | kernel/core/physical.c:43-85 | a request for one page succeeds exactly if some page is free: the hint never hides one |
| `Physical.OnePageCounts` | kernel/core/physical.c:43-85 | a request for one page succeeds exactly while the chain has a clear bit, and takes exactly one |
| `TableIndices.IndicesAreDigits` | kernel/arch/x86/paging.c:27-37 | the computed indices are the nine-bit digits of the page number, for both depths |
| `TableIndices.SameIndicesSamePage` | kernel/arch/x86/paging.c:27-37 | two addresses share all indices if and only if they agree on the 36 or 45 page-number bits |
| `PageTables.WalkReaches` | kernel/arch/x86/paging.c:115-149 | in a tree, the walk of a page passes through every table placed on its path |
| `PageTables.StoreElsewhere` | kernel/arch/x86/paging.c:39-72 | in a tree, a store changes no walk but those through the stored entry |
| `PageTables.AllocBlockEffect` | kernel/core/physical.c:164-181 | taking frames keeps the tree and every translation; the frames were free, are zero and are not tables |
| `PageTables.LinkKeepsTree` | kernel/arch/x86/paging.c:43-65 | hanging an empty new table into an absent entry keeps the tree |
| `PageTables.EnsureTableEffect` | kernel/arch/x86/paging.c:43-65 | creating a missing table changes no translation, and afterwards the table is on the path |
| `PageTables.StoreLeafEffect` | kernel/arch/x86/paging.c:56-67 | storing a leaf changes the translations under that entry and no other |
| `PageOperations.MapPageEffect` | kernel/arch/x86/paging.c:39-72 | a map gives the old translations updated at exactly that page, or exactly that 2 MiB slot, whichever tables had to be created; frames in use keep their bytes, and new tables come from free frames |
| `PageOperations.LeafIsOr` | kernel/arch/x86/paging.c:56-67 | for all 64-bit words the stored leaf is the `or` of the address and the flags, bit for bit |
| `PageOperations.DirectoryIsMasked` | kernel/arch/x86/paging.c:43-65 | for all 64-bit flags a new non-leaf entry gets them without PS, G and NX, and with RW added exactly with four levels |
| `PageOperations.MapPageSucceeds` | kernel/arch/x86/paging.c:43-65 | the allocations of a map succeed if and only if the chain has as many clear bits as tables are missing on the path |
| `PageOperations.MapPageTakes` | kernel/arch/x86/paging.c:43-65 | a map takes exactly one free page for each table that was missing |
| `PageOperations.MapPageBound` | kernel/arch/x86/paging.c:43-65 | a map succeeds if one page less than there are levels is free, and takes no more than that |
| `PageOperations.UnmapPageEffect` | kernel/arch/x86/paging.c:74-113 | an unmap drops the page, or the whole 2 MiB slot it lies in, and nothing else; the answer is the size of the entry that decides the page, present or not, and 0 exactly if there is none |
| `PageOperations.UnmapClearsOneBit` | kernel/arch/x86/paging.c:93-107 | an unmap clears P in the one entry that decides the page and changes no other bit of any table |
| `PageOperations.EntryDecides` | kernel/arch/x86/paging.c:115-149 | the looked-up entry is the one that the walk ends at; no entry means unmapped |
| `PageOperations.ReferredOnce` | kernel/arch/x86/paging.c:43-67 | every table but the root is referred to by exactly one entry of one table, the root by none |
| `PageOperations.SamePlaceSameTable` | kernel/arch/x86/paging.c:43-67 | no two tables of a tree have the same level and the same part of the address space |
| `Paging.PageTable.Pml4MapPage` | kernel/arch/x86/paging.c:39-72 | the unrolled four-level map is the generic map of depth four, keeps the tree, and answers the entry that a lookup finds |
| `Paging.PageTable.Pml5MapPage` | kernel/arch/x86/paging.c:194-234 | the unrolled five-level map is the generic map of depth five |
| `Paging.PageTable.Map` | kernel/arch/x86/paging.c:288-300 | whichever depth is in use, the map is the generic one of that depth |
| `Paging.PageTable.Pml4PageEntry` | kernel/arch/x86/paging.c:115-149 | the unrolled lookup is the generic lookup of depth four |
| `Paging.PageTable.Pml5PageEntry` | kernel/arch/x86/paging.c:151-192 | the unrolled lookup is the generic lookup of depth five |
| `Paging.PageTable.Pml4UnmapPage` | kernel/arch/x86/paging.c:74-113 | the unrolled unmap is the generic unmap of depth four and keeps the tree |
| `Paging.PageTable.Pml5UnmapPage` | kernel/arch/x86/paging.c:236-282 | the five-level unmap is the generic unmap of the page whose top digit is the fourth-level index |
| `Paging.PageTable.Unmap` | kernel/arch/x86/paging.c:288-300 | whichever depth is in use, the unmap is the generic unmap of the page that routine works on |
| `Paging.FiveLevelUnmapHits` | kernel/arch/x86/paging.c:236-282 | a five-level unmap of a mapped page unmaps it if the two top indices agree, and leaves its translation as it was if they do not |
| `PagingWitnesses.UnmapMissesItsPage` | kernel/arch/x86/paging.c:236-282 | a run of a new five-level space after which unmapping a mapped address leaves it mapped |
| `Paging.FiveLevelsAreFourBelow` | kernel/arch/x86/paging.c:151-192 | the five-level walk of an address is the four-level walk of that address in the subtree that the fifth-level index selects |
| `Rights.GrantIsLeaf` | kernel/arch/x86/paging.c:44-65 | the right to execute is the leaf's; the rights to write and of user mode are the leaf's if all non-leaf entries carry RW and US (section 4.6 of the Intel SDM volume 3A) |
| `Rights.FirstMappingLimitsWrite` | kernel/arch/x86/paging.c:194-234 | after a read-only first mapping under a root entry, no page under that entry can be written in five-level tables |
| `MemoryRuns.ApplyKeepsOk` | kernel/arch/x86/paging.c:39-113 | every map, unmap and foreign allocation or free keeps the tree, the allocator's bookkeeping and the split of the live blocks between tables and others |
| `MemoryRuns.RunKeepsOk` | kernel/arch/x86/paging.c:39-113 | the same over every run |
| `MemoryRuns.NewSystemOk` | kernel/core/virtual.c:27 | a new root table starts such a run and translates nothing |
| `MemoryRuns.RunKeepsTree` | kernel/arch/x86/paging.c:43-67 | in every run each table is referred to by exactly one entry (the root by none), no two tables serve the same pages at the same level, and each is marked used and lies in no block of another user |
| `MemoryRuns.TablesNeverHandedOut` | kernel/core/physical.c:43-85 | a frame that ever was a table is marked used, and no later allocation contains it |
| `MemoryRuns.EverGrows` | kernel/arch/x86/paging.c:43-67 | no frame leaves the record of tables during a run |
| `MemoryRuns.RunIsTranslationMap` | kernel/arch/x86/paging.c:39-113 | after every run each page translates as the same calls on a plain map from pages to entries say |
| `MemoryRuns.RunCarries` | kernel/arch/x86/paging.c:44-65 | a flag that every mapping of a run passes on is on every non-leaf entry |
| `MemoryRuns.FourLevelLinks` | kernel/arch/x86/paging.c:44-65 | in every reachable four-level table a non-leaf entry carries P and RW and none of NX, PS and G, so masking its flags recovers exactly its table |
| `MemoryRuns.FourLevelRights` | kernel/arch/x86/paging.c:39-72 | in every reachable four-level table the effective rights to write and execute are the leaf's own bits, and that of user mode too if all mappings had US |
| `RightsHistory.MapPageLinks` | kernel/arch/x86/paging.c:39-72 | a map keeps every existing non-leaf entry on its path, makes the missing ones from its own flags, and only a 2 MiB leaf ends one |
| `RightsHistory.UnmapFromLinks` | kernel/arch/x86/paging.c:74-113 | an unmap changes no non-leaf entry on the path of any page |
| `RightsHistory.LinksAreHistory` | kernel/arch/x86/paging.c:39-113 | in every run the flags of each non-leaf entry are those of the first mapping made under it since it last was a 2 MiB leaf |
| `RightsHistory.RightsAreHistory` | kernel/arch/x86/paging.c:39-72 | after every run, for any depth, what the hardware grants on a page follows from the calls alone: its own mapping and the first mapping under each table above it |
| `RightsHistory.FiveLevelWriteRight` | kernel/arch/x86/paging.c:194-234 | with five levels the right to write a mapped page, 4 KiB or 2 MiB, is its mapping's if and only if that mapping is read-only or the first mapping under every table above it was a writable one |
| `PagingWitnesses.SecondPageNotWritable` | kernel/arch/x86/paging.c:194-234 | a run of two maps of a new five-level space after which a page with a writable mapping cannot be written |
| `AddressSpaces.OtherSpaceKept` | kernel/core/scheduler.c:23-24 | whatever is mapped, unmapped or allocated for one space, in every run, changes no translation of another space over the same allocator |
| `AddressSpaces.NewSpaceIsBeside` | kernel/core/scheduler.c:23-24 | a new space starts with tables of its own, and the other spaces translate as before |
| `Virtual.MapRangeEffect` | kernel/core/virtual.c:63-67 | a mapped range is translated injectively onto frames that were free, hold zeroes, are live and are not tables; all other pages keep their translation |
| `Virtual.MapRangeBound` | kernel/core/virtual.c:63-67 | a range can be mapped if as many pages are free as it has pages, times the number of levels, and takes no more |
| `Virtual.UnmapRangeEffect` | kernel/core/virtual.c:70-79 | on a range without 2 MiB entries exactly the pages up to the first one without an entry are dropped, mapped or not; memory and allocator stay |
| `Virtual.UnmapRangeClears` | kernel/core/virtual.c:70-79 | on such a range no page stays mapped if and only if no mapped page follows a page without an entry |
| `PagingWitnesses.UnmapStopsEarly` | kernel/core/virtual.c:70-79 | a run of one map after which unmapping a range that ends with the mapped page changes nothing |
| `Virtual.UnmapRangeUndoesMapRange` | kernel/core/virtual.c:56-79 | unmapping a range that was unmapped before it was mapped restores every translation |
| `VirtualMemory.VmmMapRange` | kernel/core/virtual.c:63-67 | the loop maps the range as specified, for both depths |
| `VirtualMemory.VmmUnmapRange` | kernel/core/virtual.c:70-79 | the loop steps by the answered sizes and stops at the first 0, for both depths |
| `VirtualMemory.UnmapVisitsRange` | kernel/core/virtual.c:70-79 | without 2 MiB entries, and where the unmap routine hits its pages, the loop that steps by answered sizes does what the loop by pages does, also where it stops early |
| `VirtualMemory.HitsIff` | kernel/arch/x86/paging.c:236-282 | the unmap routine works on the page it is asked for with four levels always, with five exactly if the two top indices agree |
| `VirtualMemory.LoopLeavesMissed` | kernel/core/virtual.c:70-79 | with five levels the loop never unmaps a page whose two top indices differ |
| `VirtualMemory.MapThenUnmapRange` | kernel/core/virtual.c:56-79 | mapping an unmapped range and unmapping it by address restores the translation of every page if and only if the unmap routine hits every page of the range |
| `DirectMap.NewSpaceEffect` | kernel/core/virtual.c:27 | a new root translates nothing and lies in a free frame |
| `DirectMap.MapChunksEffect` | kernel/core/virtual.c:38-53 | each listed 2 MiB chunk lies at its fixed place however often it is mapped; everything else is as before |
| `DirectMap.RegionCovered` | kernel/core/virtual.c:47-52 | the loop for a memory-map region covers all of it if and only if its offset in its first chunk plus its length fits in the chunks that its length alone rounds up to |
| `DirectMap.ChunksCover` | kernel/core/virtual.c:38-53 | a chunk is mapped exactly if it belongs to the first 4 GiB or to the loop of some region; every region with enough chunks is mapped |
| `DirectMap.DefaultSpaceEffect` | kernel/core/virtual.c:19-54 | the default space translates exactly the direct map and the kernel's pages not under it |
| `DirectMap.DefaultFlagsAre` | kernel/core/virtual.c:32-50 | the kernel's pages and the 2 MiB slots are mapped with exactly the words P, RW, G, US and P, RW, PS, G, US |
| `RangeRights.DefaultSpaceGrants` | kernel/core/virtual.c:19-54 | in the default space, for any depth, the hardware grants writing, user mode and execution on every page of the direct map and on each of the 0x6400 kernel pages, all are global, and nothing is granted anywhere else |
| `DirectMap.DefaultSpaceBound` | kernel/core/virtual.c:19-54 | the default space can be built if a page is free for the root and, for each kernel page and each chunk, one for each level below it |
| `DirectMap.DirectAddresses` | kernel/core/virtual.c:38-53 | a mapped direct-map address at offset p translates to p; no other direct-map address outside the kernel image is mapped |
| `DirectMap.RegionMapped` | kernel/core/virtual.c:38-53 | in the default space every direct-map address of a region translates to itself if and only if the region's last 2 MiB chunk is mapped by some loop |
| `DirectMap.RegionsBelowAreCovered` | kernel/core/virtual.c:38-53 | a region that its own loop does not cover but the first 4 GiB do, and one above 4 GiB that nothing covers |
| `VirtualMemory.MapFrames` | kernel/core/virtual.c:32-36 | maps consecutive pages to the given frames, in order |
| `Virtual.MapListBound` | kernel/core/virtual.c:32-36 | given frames can be mapped if as many pages are free as there are frames, times the levels below the root, and it takes no more |
| `VirtualMemory.MapChunkRun` | kernel/core/virtual.c:38-42 | a run of neighbouring chunks, leaving the rest of the list to be mapped |
| `VirtualMemory.MapRegions` | kernel/core/virtual.c:47-53 | the chunks of all regions, in order |
| `VirtualMemory.NewTableRoot` | kernel/core/virtual.c:27 | the root lies in a newly allocated, zeroed frame |
| `VirtualMemory.VmmDefaultTable` | kernel/core/virtual.c:19-54 | the three loops build exactly the default space, as a tree |
| `Elf.DividesIffLongEnough` | kernel/core/elf.c:136-138 | the remainder never divides by zero if and only if the segment is at least one page long, or empty and page-aligned |
| `Elf.CopyCountIs` | kernel/core/elf.c:136-138 | the remainder is what is left for the last page, but the whole file size for a page past the end |
| `Elf.CopiesStayInside` | kernel/core/elf.c:114-141 | every copy stays inside its frame if and only if the misalignment adds no page, or the segment is one page long, or the file ends soon enough |
| `Elf.CopyCanLeaveFrame` | kernel/core/elf.c:114-141 | a misaligned segment inside its file for which one copy is longer than a page |
| `Elf.PageCountIs` | kernel/core/elf.c:114-121 | a segment gets exactly the pages between its first and its last byte, and one more if and only if its last part is pushed over a page by the misalignment; an aligned one less than a page more than its file size |
| `Elf.SegmentFlagsAre` | kernel/core/elf.c:129-131 | the flags are the word P, US, NX with RW added for W and NX taken off for X, and no other bit |
| `Elf.LoadedRightIffAligned` | kernel/core/elf.c:136-142 | a segment is loaded right, whatever file holds it, if and only if it is page-aligned |
| `Elf.CopyPagesEffect` | kernel/core/elf.c:136-142 | the copy loop fills exactly the segment's frames and touches no other bytes and no translation, also for misaligned segments |
| `Elf.LoadSegmentEffect` | kernel/core/elf.c:112-142 | one segment is loaded; other pages keep their translation and frames in use their contents |
| `Elf.LoadedKept` | kernel/core/elf.c:107-143 | a loaded segment is not disturbed by what happens to other pages |
| `Elf.LoadAllEffect` | kernel/core/elf.c:104-146 | after loading, the pages of every loadable segment hold its bytes at once, and pages outside all segments translate as before |
| `Elf.LoadAllBound` | kernel/core/elf.c:104-146 | a file can be loaded if as many pages are free as its segments take, times the number of levels |
| `Elf.SegmentHolds` | kernel/core/elf.c:104-146 | what every virtual byte reads in all pages that the segment reaches into, by the header's fields, aligned or not: the start of the segment at its misalignment in the first page, and the file without it from the second page on |
| `Elf.SegmentBytes` | kernel/core/elf.c:104-146 | virtual byte k of a page-aligned segment reads file byte offset + k for every k below its file size, and zero in the rest of its last page |
| `Elf.NothingBehindSegments` | kernel/core/elf.c:104-146 | pages before a segment or behind its end (a page further, if it overhangs) translate as before |
| `RangeRights.SegmentRights` | kernel/core/elf.c:125-134 | on every page that a loaded segment's bytes lie in the hardware grants user mode, execution exactly if the header has X, and writing exactly if it has W and the non-leaf entries allow it, which with four levels they do |
| `ElfLoader.Elf64Read` | kernel/core/elf.c:163-177 | delivers byte offset + k of the file as byte k, as many as asked for or as many as there are, and nothing past the end |
| `ElfLoader.MapSegment` | kernel/core/elf.c:125-134 | maps the segment's pages onto new frames and answers those frames in page order |
| `ElfLoader.CopyInto` | kernel/core/elf.c:140-141 | overwrites one stretch of one frame and nothing else |
| `ElfLoader.CopyPage` | kernel/core/elf.c:137-141 | one round of the copy loop writes the page's part of the file |
| `ElfLoader.FillSegment` | kernel/core/elf.c:136-142 | the loop fills all frames of the segment and keeps the tables a tree |
| `ElfLoader.LoadHeader` | kernel/core/elf.c:108-142 | a header that is not loadable or covers no page is skipped, any other is loaded |
| `ElfLoader.Elf64FileLoad` | kernel/core/elf.c:107-143 | the loop over all headers loads the whole file as specified |
| `Portals.DescentIsScan` | kernel/core/portal.c:92-160 | on portals ordered by base with disjoint closed intervals the descent finds what a linear scan finds, although it skips non-anonymous nodes |
| `Portals.DescentIsExact` | kernel/core/portal.c:92-160 | the descent finds an anonymous portal exactly if one covers the address, and that portal is the only one of any kind that does |
| `Portals.DescentFindsOwner` | kernel/core/portal.c:92-160 | on ordered portals that may touch, the descent finds the anonymous portal whose half-open interval holds the address, or none, if and only if every anonymous portal that ends there has the portal that starts there above it |
| `Portals.TouchingPortalsClash` | kernel/core/portal.c:99 | two touching portals for which the descent takes the first address of the second for the first one's |
| `Portals.InsertKeepsSpread` | kernel/core/portal.c:280 | inserting a portal apart from all others keeps the order and the gaps, and adds just that portal |
| `PortalOrder.ShieldedIffEarlier` | kernel/core/portal.c:280 | in a tree that requests have built, a portal has the one that starts at its end above it if and only if that one was requested first |
| `PortalOrder.DescentByRequests` | kernel/core/portal.c:92-160 | after any sequence of requests for disjoint, possibly touching intervals the descent finds the anonymous portal that the address belongs to, or none, if and only if every anonymous portal that ends there was requested after the one that starts there |
| `PortalRuns.OpenKeepsOk` | kernel/core/portal.c:253-286 | opening a portal keeps every recorded page backed; a direct one maps its pages to the given frames and changes no other translation |
| `DirectPortals.OpenServes` | kernel/core/portal.c:70-90 | opening a direct portal maps each of its addresses that it reaches to the frame given for its page, with the portal's rights, and leaves its other addresses as they were; with a page-aligned base it reaches all, in order |
| `DirectPortals.AllReachedIff` | kernel/core/portal.c:73 | all addresses of a portal are reached if and only if its offset in its first page does not push it over the pages that its length rounds up to |
| `DirectPortals.RunServes` | kernel/core/portal.c:70-90 | after every run that contains the request its reached addresses still translate to the frames it gave, with its rights |
| `DirectPortals.DirectRights` | kernel/core/portal.c:38-45 | and the hardware grants the portal's rights there, writing only as far as the non-leaf entries allow, which with four levels they do |
| `PortalWitnesses.SecondHalfLeftOut` | kernel/core/portal.c:70-90 | a direct portal of one page's length from the middle of a page whose second half stays unmapped |
| `PortalRuns.OpenKeepsRecords` | kernel/core/portal.c:70-90 | opening a direct portal keeps the translation of every recorded page if and only if each recorded page in its range is given the frame and rights it has |
| `PortalRuns.PageApartSuffices` | kernel/core/portal.c:70-90 | a portal that shares no page with another disturbs none, whatever its alignment |
| `PortalWitnesses.SharedPageIsLost` | kernel/core/portal.c:70-90 | a run of one request and one fault after which a direct portal, apart from the first but sharing its page, can be opened with any frame, and the page then translates to that frame |
| `PortalRuns.FaultKeepsOk` | kernel/core/portal.c:92-150 | a resolved fault records the page with the anonymous portal that covers the address and with a frame that is mapped there with that portal's rights, and changes no other translation or record |
| `PortalRuns.RunKeepsOk` | kernel/core/portal.c:70-160 | over every run of requests and faults, a page that a fault brought in translates to its frame with the rights of the very portal whose fault that was, direct pages to the frames they were given, all others as at the start, and no record changes |
| `PortalRuns.SharedPageRights` | kernel/core/portal.c:92-150 | a portal that touches a page which another one's fault brought in has its own rights there if and only if the protections of the two are the same |
| `PortalRuns.EveryPortalHasItsRights` | kernel/core/portal.c:92-150 | after every run all anonymous portals that touch a recorded page have their own rights there if and only if they have the protections of the portal whose fault brought it in |
| `PortalRuns.ResolveAnonBound` | kernel/core/portal.c:130-145 | a fault can be resolved with one free page more than there are levels, and takes no more |
| `PortalRuns.ResolveAnonTakes` | kernel/core/portal.c:130-140 | a fault takes at least two pages besides the tables, though one is mapped |
| `PortalGrants.ProtectionBits` | kernel/core/portal.c:38-45 | the flags give write exactly if the portal does, no execution unless it does, and always user mode |
| `PortalRuns.ProtectionsAre` | kernel/core/portal.c:38-45 | the flags are the word P, US, NX with RW added if writable and NX taken off if executable, and no other bit |
| `PortalGrants.PortalRights` | kernel/core/portal.c:38-45 | after every run, for any depth, the hardware grants on each page that a fault brought in the rights of the portal whose fault that was, writing only as far as the non-leaf entries allow; with four levels exactly those rights |
| `PortalGrants.SharedPageGrants` | kernel/core/portal.c:92-150 | with four levels the hardware grants on such a page what another portal asks for if and only if that portal has the protections of the one whose fault brought it in |
| `PortalWitnesses.WriterIsLockedOut` | kernel/core/portal.c:92-150 | a run of two requests and a fault after which a writable portal covers an address that it can neither write nor fault in |
| `PortalGrants.RunLink` | kernel/arch/x86/paging.c:43-65 | in every run of requests and faults each non-leaf entry is the one of the start or what the first portal that mapped a page under it made it |
| `PortalGrants.FiveLevelPortalWrite` | kernel/arch/x86/paging.c:194-234 | from a space without mappings, with five levels, a page that a fault brought in can be written if and only if its portal is writable and so is the first portal that mapped a page under each table above it |
| `PortalSpace.AddressSpace.FindPortal` | kernel/core/portal.c:96-157 | the cursor loop finds what the recursive descent finds |
| `PortalSpace.AddressSpace.ResolvePage` | kernel/core/portal.c:130-145 | two frames are taken and the page is mapped onto the second |
| `PortalSpace.AddressSpace.PortalFaultAnon` | kernel/core/portal.c:92-160 | a fault does exactly one step of the run model; the answer is -1 exactly if no anonymous portal is found |
| `PortalSpace.AddressSpace.HandleDirect` | kernel/core/portal.c:70-90 | maps as many pages as the length rounds up to, each to its frame of the list, also where they are in use by another portal |
| `PortalSpace.AddressSpace.Portal` | kernel/core/portal.c:253-286 | a request makes exactly the state that opening the portal is in the run model, also where it takes over pages; the invariant stays if it takes over none |
| `SmpBoot.NextInv` | kernel/arch/x86/smp.c:25-111 | every step of every processor keeps the invariant of the boot chain |
| `SmpBoot.BootChainIsSafe` | kernel/arch/x86/smp.c:25-111 | in every interleaving: processors are started once each and in order; each trampoline reads only what its own starter wrote for it, each of the six items once and takes it for what it is, while that starter waits; no two processors are about to access the counter; the low page is unmapped only after all have left the trampoline |
| `SmpBoot.NeverStuck` | kernel/arch/x86/smp.c:64-121 | in every reachable state some step is possible, or all processors are done |
| `SmpBoot.RunsEnd` | kernel/arch/x86/smp.c:64-121 | every interleaving ends within 49 steps per processor |
| `ContextSwitch.SwitchKeeps` | kernel/core/scheduler.c:78-133 | a switch saves the running flow and loads exactly the recorded registers of the flow it resumes |
| `ContextSwitch.ReturnKeeps` | kernel/core/notification.c:182-216 | returning ends the handler's flow, frees its frame and loads the thread's recorded registers; without a queue nothing happens |
| `ContextSwitch.RunKeeps` | kernel/core/scheduler.c:78-133 | over every run the saved registers of all threads and live handlers are those they were switched out with |
| `ContextSwitch.ResumesExactly` | kernel/core/scheduler.c:78-133 | in every run in which no handler is installed on the running context, each resumed thread or handler gets back exactly the registers it was switched out with, or its entry registers |
| `ContextSwitch.LiveFramesKept` | kernel/core/notification.c:23-38 | over every run, a thread or live handler that does not run keeps its registers, and its frame is given to nobody else |
| `ContextSwitch.InstallOnRunningContext` | kernel/core/scheduler.c:102-133 | a new handler starts with its entry registers if and only if it is not installed on the running context (or the registers happen to be equal) |
| `DispatchRuns.RunningThreadLosesHandler` | kernel/core/scheduler.c:102-133 | a run in which a thread is delivered to while it runs and goes on with its interrupted registers in the handler's frame |
| `DispatchRuns.AtMostOneDispatch` | kernel/core/notification.c:69-119 | in every run at most one dispatch to a context goes past the look at its queue, and from then on its queue lock is held |
| `DispatchRuns.HandlersNeverNest` | kernel/core/notification.c:69-119 | in every run a context has as many handler frames as dispatches went past the look at its queue, at most one, a live frame is that of the handler it is in, and a handler is installed only on a context that never had one |
| `DispatchRuns.RescheduleReturns` | kernel/core/scheduler.c:78-133 | in every run rescheduling returns if and only if there is nothing to run, or the chosen context has no queue or a muted one, or no earlier dispatch to it went past the look at its queue |
| `DispatchRuns.SecondDeliveryHangs` | kernel/core/notification.c:69-119 | a run of one thread whose first handler has returned and whose second delivery is never dispatched |
| `DispatchRuns.DeliveriesFirst` | kernel/core/scheduler.c:83-100 | in every run the waiting deliveries are taken by the next reschedules, the last one first, and until all are taken no queued thread is popped and the server does not run |
| `ScheduleRuns.EveryReschedule` | kernel/core/scheduler.c:83-100 | every reschedule of every run serves the last delivery, else the last queued thread, else the server; it takes off just the served one, which becomes current unless the processor hangs on it |
| `ScheduleRuns.NobodyIsLost` | kernel/core/scheduler.c:83-133 | in every run whoever waited or arrived is still waiting or was made current by a reschedule, once for each time, except for one context if the processor hangs on it |
| `ScheduleRuns.ServedInOrder` | kernel/core/scheduler.c:83-100 | in every run without arrivals the reschedules go through the deliveries and then the queued threads, the last one first, and then only to the server |
| `ScheduleRuns.LastInFirstOut` | kernel/core/scheduler.c:83-100 | who arrives last is served first: a delivered context by the next reschedule, a queued thread by the next one that finds no delivery |
| `ScheduleRuns.HandlerEntered` | kernel/core/notification.c:101-116 | in every run a notice for an unmuted, unlocked context that does not run is entered by the reschedule that chooses it: the processor holds the notice's handler, stack, info, data and number plus one and the segments and flags of user mode, and the thread's own registers are kept |
| `ScheduleRuns.MutingKeepsAlive` | kernel/core/notification.c:228-236 | once a context has muted itself, whatever was dispatched to it before and until it unmutes itself, its queue stays as it is and no reschedule that chooses it hangs |
| `ScheduleRuns.MutedNeverHangs` | kernel/core/notification.c:62-68 | nothing is dispatched to a muted context in any run in which it stays muted: it gets no frame, and none of its frames becomes live |
| `Scheduler.CpuLocal.GetUcontext` | kernel/core/notification.c:23-38 | answers the first frame that is not live, adding one only if all are |
| `Scheduler.CpuLocal.NotificationDispatch` | kernel/core/notification.c:62-120 | returns exactly if the queue is missing, muted or unlocked; only the given context changes, and past the look at the queue its lock stays taken |
| `Scheduler.CpuLocal.Next` | kernel/core/scheduler.c:83-100 | takes the chosen context off its stack or queue and leaves the others alone |
| `Scheduler.CpuLocal.Reschedule` | kernel/core/scheduler.c:78-133 | the routine does exactly one reschedule of the run model; where dispatching does not return the processor hangs |
| `Scheduler.CpuLocal.NotificationReturn` | kernel/core/notification.c:182-216 | the system call does exactly one return of the run model |
| `Scheduler.CpuLocal.NotificationMute` | kernel/core/notification.c:218-236 | the system calls change the mute flag of the current context's queue and nothing else |
| `RunQueue.PickIsFirstOrSecond` | servers/sched/sched.c:100-117 | on every red-black tree ordered by vruntime the descent ends at the first thread, or at the second exactly if the leftmost node has a right child |
| `RunQueue.AtMostOneAhead` | servers/sched/sched.c:100-117 | at most one thread has a smaller vruntime than the chosen one |
| `RunQueue.OrderIsNotEnough` | servers/sched/sched.c:105-112 | an ordered tree that is not red-black on which the last thread is chosen |
| `RunQueue.TraverseAndQueue` | servers/sched/sched.c:100-117 | the loop terminates with the thread that the descent defines |
| `Madt.NumberOfBytes` | kernel/acpi/madt.h:13-42 | a field that fits its width is recovered from its little-endian bytes |
| `Madt.DecodePayload` | kernel/acpi/madt.h:13-42 | reading an entry's bytes through the packed structure of its kind gives its fields back, whatever follows |
| `Madt.ParseTable` | kernel/arch/x86/apic.c:108-129 | on the bytes of any sequence of well-formed entries the loop advances by each entry's size, terminates, and leaves in each of the five lists the entries of that kind in order |

## Left out

- Notification queue push, pop and send, and the choice of the notification: what dispatching finds in the queue is a parameter, since the pop loop does not advance past a second entry and its mask is off by one, so a queue proof would be about other code.
- `pmm_init`: the layout of the modules; disjoint page-aligned modules with clear bitmaps are the starting state.
- Shared, copy-on-write and `sp` portals, `portal_destroy`, and the failure branches for null requests: stubs or plumbing; shared frames are never set up by the fault handler.
- The 2 MiB path of `vmm_map_range`: it reserves one 4 KiB frame per 2 MiB mapping, so ownership of frames cannot be stated.
- `elf64_load_section` (`.bss`), header validation, the auxiliary vector, the missing file buffer, and segment rights measured against the standard.
- `acpi_find_sdt`, and MADT bytes that are not a sequence of well-formed entries: the loop reads past the table on those.
- Enqueueing and dequeueing in the scheduling server and its red-black rebalancing: the insertion macro belongs to the fayt library.
- FPU state, segment bases, MSRs, TLB invalidation, port I/O, HPET, serial line, GDT, IDT, assembly and printing.
- The vfs and nvme servers, `limine.h` and the internals of the fayt library.
- Several processors rescheduling at once: the context-switch runs are those of one processor.
- PhysicalAllocator.PmmModule.Free: bits past the end of a bitmap are outside the model; the source would clear memory behind it, which may be another bitmap.
- Machine.Memory.Free: the same, for a free that is not routed to its module.
- Physical.FreeUndoesAlloc: speaks of the bits inside the bitmaps; what a misrouted free clears behind one depends on the layout that `pmm_init` chose.
- Paging.PageTable.Pml4MapPage: requires the allocations on the way to succeed, since the source does not check them (the exact condition is `MapPageSucceeds`), and no 4 KiB map into a present 2 MiB slot, since the source would take the slot for a table.
- Paging.PageTable.Pml5MapPage: the same.
- Paging.PageTable.Map: the same.
- VirtualMemory.VmmMapRange: requires the allocations to succeed, as the map does; `MapRangeBound` says how many free pages are enough.
- VirtualMemory.MapFrames: the same, with `MapListBound`.
- VirtualMemory.MapChunkRun: the same, with `DefaultSpaceBound`.
- VirtualMemory.MapRegions: the same, with `DefaultSpaceBound`.
- VirtualMemory.NewTableRoot: the same, with `OnePageSucceeds`.
- VirtualMemory.VmmDefaultTable: the same, with `DefaultSpaceBound`.
- ElfLoader.MapSegment: the same, with `MapRangeBound`.
- ElfLoader.LoadHeader: the same, with `LoadAllBound`.
- PortalSpace.AddressSpace.ResolvePage: the same, with `ResolveAnonBound`.
- PortalSpace.AddressSpace.PortalFaultAnon: the same, with `ResolveAnonBound`.
- Virtual.UnmapRangeEffect: for ranges without 2 MiB entries; over those the loop steps by 2 MiB from where it stands, not from the start of the slot.
- VirtualMemory.UnmapVisitsRange: the same.
- Elf.LoadAllEffect: for files whose segments share no page; of two that do, the page of the later one replaces the other's.
- Elf.SegmentHolds: the same.
- Elf.SegmentBytes: the same.
- Paging.PageTable.Pml5UnmapPage: states the page that the code works on, which is the asked one only if the two top indices agree.
- ElfLoader.Elf64FileLoad: requires that no segment divides by zero or copies outside a frame; `DividesIffLongEnough` and `CopiesStayInside` say exactly when that is so. Segments share no page, and failed allocations are outside the model, as for the map (`LoadAllBound`).
- PortalRuns.RunKeepsOk: for portals with disjoint intervals, and direct portals whose pages are not in use; `OpenKeepsRecords` says exactly what happens otherwise. Anonymous portals may share pages; `EveryPortalHasItsRights` says exactly when each has its own rights there.
- SmpBoot.BootChainIsSafe: for distinct APIC ids with the boot processor first in the list.
- DispatchRuns.RescheduleReturns: speaks of waiting for the queue lock; the pop loop, which does not end if two notifications of one number are queued (`kernel/core/notification.h:52-55`), is outside the model.
- Madt.ParseTable: of the address entry only the byte that the source's structure holds is kept, not all eight.
- TableIndices.IndicesAreDigits: speaks of division and remainder on naturals; that shifts and masks of 64-bit words are these is not proved.
- TableIndices.SameIndicesSamePage: the same.
