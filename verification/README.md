# Verified models of the kernel's memory, scheduler and window list

The kernel keeps four data structures that have to stay in shape over its whole uptime. Each is
modelled here in the form the code has, method by method over mutable state, and each method is proved
against a function or relation on values; the lemmas beside it say what that function is good for.

**Physical frames and paging** (`FrameBitmap`, `PageTables`, `PageRegions`, `PageOwnership`, `Bootstrap`,
`PagingCode`, `SharedStorage`). The frame bitmap is an array of 32-bit words, worked on with shifts and
masks; its abstract value is the set of taken frames, and that set determines every word. On top of it,
directories and tables, keyed by the address they live at, implement a flat map from page to frame. A
directory is kept twice: `tables` is what the processor walks, `refs` is what the code walks. The layout is
the 32-bit paging of the Intel 64 and IA-32 Architectures Software Developer's Manual, Volume 3A, section
"32-Bit Paging". An invariant over all runs of mapping, freeing, copying and creating directories says that
no drawn frame is held by two table entries, that a drawn frame always has a bit with storage of its own,
that of these bits exactly the held ones are set, and that the processor's walk finds exactly what the
code's walk finds. The boot sequence is run on the model: a loop of first-fit draws produces the linear map
`address - 0xC0000000`, and the run invariant holds from there on.

Only a quarter of the bitmap's words is storage of its own; the rest is the memory that the placement
allocator hands out next, for the page directory first. `reserved` is the number of bits in front of it. The
model lets every bit from there on change in any way whenever the code writes anything else
(`FrameAllocator.Scribble`, the event `Overwrite`), and a draw is allowed only while a bit below is free.
`SharedStorage` says what happens after that, and exactly when it does harm.

**The scheduler** (`SchedulerModel`, `SchedulerRuns`, `TaskScheduler`). Timer tick, exit and task
creation as steps on values; the class with the scan loop that deletes while it iterates, and steps its
unsigned index back through zero, is proved to take exactly those steps. Over all runs: life cycle,
context preservation, no starvation, exact round robin.

**The heap** (`ByteMemory`, `HeapLayout`, `HeapCarving`, `HeapAlignment`, `HeapGrowth`, `HeapFreeing`,
`HeapService`, `HeapTables`, `BoundaryTagHeap`, `HeapScenarios`, `HeapRuns`). Headers and footers are bytes in a 4 GiB memory; a ghost
sequence of blocks says what they stand for. Four conjuncts are kept apart: the headers chain from
`heap_start` to `heap_end`; the index lists exactly the holes; the footers name their headers; the index is
in order of size. Each operation promises the ones it keeps. Growth goes through the pager, which may ask the
same heap for a page table in the middle of it: `linked` is the set of 4 MiB slots that have theirs, and an
`Outcome` says how an allocation ends. `HeapRuns` puts clients on the heap: over any run of allocations,
writes and frees their ranges lie apart and hold what they wrote.

**The window list** (`StableSorting`, `WindowModel`, `WindowStack`, `MouseInput`). Windows are objects
with a 16-bit z-index in one array. The bubble sort is proved to be a stable sort, focusing to move one
window to the top, and the mouse handler, which rearranges the list it is iterating over, to raise, drag
and release exactly the window it should.

## Where the code is not what it seems

- A right merge in `Free` re-aims a local variable at the far footer and never writes through it, so the
  merged hole keeps the footer of the hole it swallowed. The next free to its right then joins the wrong
  header. `Heap.Free` states exactly when this happens: the heap is represented by its memory and index
  afterwards unless the word in front of the block is the magic number and the header named behind it says
  hole and is not in the index (`Misled`, which a caller can check; footer and header alone look right, since
  the header of the swallowed hole still stands). `HeapScenarios.FreeMiddleOfFour` gets there from a new heap
  with four allocations and three frees.
- Growing picks the highest-addressed hole. If that hole does not touch `heap_end`, enlarging it swallows
  live blocks; `Heap.Grow` proves both halves, on the condition that the last block is a hole or there is
  no hole at all. `HeapScenarios.GrowOverBlock` gets there from a new heap with two allocations and a free.
- The lengths for growth are taken before and after `Expand`, and in between the pager takes a page table from
  this very heap for every 4 MiB slot that has none. `Heap.Alloc` gives what growth alone would give if and only
  if every slot up to the new end is linked, which can be checked before the call. Otherwise there is a table in
  front of the answer (`HeapScenarios.TableInTheWay`, a 4 MiB request on a new heap); or the table itself made
  the heap grow, and then the enlarged hole ends beyond `heap_end` and no reading of the memory keeps the live
  blocks (`TableOverrun`, the same request on a full heap); or the request for the table needs the page it is
  for, and never returns (`EndlessRequest`, eight bytes on a full heap that ends where its slot does).
- `(x & 0xFFFFF000) != 0` is used to ask whether `x` is unaligned, but it asks for the page number: an
  aligned length grows by one more page (`Words.RoundUp`).
- The aligned search subtracts without a check, so a hole too small to reach the next page boundary looks
  almost 4 GiB large (`HeapService.AlignedFit` gives the exact set of holes accepted). It does not ask for
  room for the front hole's header and footer either, nor for those of the hole left behind. `Heap.Alloc`
  serves an aligned request if and only if the hole found leaves at least 20 bytes in front and 0 or at
  least 20 behind (`Carvable`); otherwise no reading of the memory has the other blocks, a block for the
  caller and the indexed holes. `HeapScenarios.SliverBehindAligned` is an instance on a new heap.
- Growth for an aligned request comes in two rounds when there is no hole to extend and the size needed goes
  more than 12 bytes beyond whole pages (`HeapService.SecondRound`); for an unaligned one it is one round.
- The frame bitmap takes `memSize` words but `Clear` zeroes `memSize` bytes, a quarter of the bits, and
  the placement allocator reserves only those bytes. With the kernel's `pmm_size` these are 65536 frames of
  262144, and the page directory lies in the words behind them, `tables` first and `ref_tables` after it.
  Draws are first fit, so all is well while one of the first `8 * memSize` frames is free. A draw beyond them
  keeps the directory's two copies in step if and only if its bit is outside the directory or is one of an entry
  that nobody needs to agree on (`SharedStorage.DrawKeepsDirectory`). Whatever has run since boot, once every
  frame up to the directory is taken, thirteen draws at most leave its first entry out of step
  (`BreaksAfterBoot`; `FailingInput` is one such directory).
- The identity region passes frame number 0 for page 0, which means "draw a frame": page 0 is mapped to
  frame 0x401, not to itself.
- The loop bound of a region is inclusive, so 4 MiB of linear map are 0x401 pages.
- `ForceSort` returns before renumbering a list of one, so a lone window keeps whatever z-index it had.
- `99999` does not fit the 16-bit z-index; what is stored, 34463, is still above every position.

## Conventions

A `Paging` manager is represented by the address of its directory. `supply` is the list of table addresses
that the heap is going to hand out once it serves the tables. `drawn` is the set of table entries whose
frame came from the bitmap. The class `Scheduler` keeps task records in a map keyed by their address; 0 is
the null pointer. Ghost parameters and results of the heap's methods name the blocks involved. Signed sums
of window coordinates wrap around as the machine's do.

## Model

| member | source | states |
|---|---|---|
| Words.RoundUp | source/memory_management/heap.cpp:175-179 | the mask moves every length of a page or more to the next page boundary strictly above it, and leaves shorter ones alone |
| OrderedArrays.OrderedArray.Get | source/cpphelpers/ordered_array.cpp:24-29 | the entry at an index below the size; past the capacity, the last slot |
| OrderedArrays.OrderedArray.Remove | source/cpphelpers/ordered_array.cpp:32-38 | the contents without that entry, the others in order; an index past the end drops the last entry |
| OrderedArrays.OrderedArray.InsertAt | source/memory_management/heap.cpp:34-59 | the contents with the item at that index, the others in order |
| FrameBitmap.FrameParts | source/cpphelpers/bitmap.cpp:72-80 | word index and bit offset together identify a frame |
| FrameBitmap.UsedDetermines | source/cpphelpers/bitmap.cpp:72-80 | bitmaps of one length that mark the same set of frames are equal word by word |
| FrameBitmap.UsedAfterSet | source/kernel/memory_management/physical_memory_manager/physical_memory_manager.cpp:42-45 | setting a frame's bit, offset 31 included, adds that frame to the set and no other |
| FrameBitmap.UsedAfterClear | source/kernel/memory_management/physical_memory_manager/physical_memory_manager.cpp:51-54 | clearing a frame's bit removes that frame and no other |
| FrameBitmap.SetThenClear | source/kernel/memory_management/physical_memory_manager/physical_memory_manager.cpp:39-55 | freeing the frame just drawn restores every word |
| FrameBitmap.FirstFree | source/kernel/memory_management/physical_memory_manager/physical_memory_manager.cpp:57-63 | the least frame outside the set, or 0xFFFFFFFF exactly when there is none |
| FrameBitmap.FirstFreeLow | source/kernel/memory_management/physical_memory_manager/physical_memory_manager.cpp:57-63 | while a frame below some bound is free, the first free frame does not depend on the bits from there on |
| FrameBitmap.FrameAllocator.constructor | source/kernel/memory_management/physical_memory_manager/physical_memory_manager.cpp:27-37 | the frames below 8 * memSize are free; the words behind those bytes are as memory had them, and stay shared |
| FrameBitmap.FrameAllocator.Scribble | source/kernel/memory_management/physical_memory_manager/physical_memory_manager.cpp:32-34 | what writing to the directory and the tables can do to the bitmap: any change of bits from 8 * memSize on, none below |
| FrameBitmap.FrameAllocator.Clear | source/kernel/memory_management/physical_memory_manager/physical_memory_manager.cpp:22-25 | clears the first memSize bytes, that is 8 * memSize frames |
| FrameBitmap.FrameAllocator.GetFirstFreeBlock | source/kernel/memory_management/physical_memory_manager/physical_memory_manager.cpp:57-63 | the scan over words and bits answers the first free frame of the set |
| FrameBitmap.FrameAllocator.AllocateBlock | source/kernel/memory_management/physical_memory_manager/physical_memory_manager.cpp:39-48 | while a frame is free, takes the least free one and adds only it |
| FrameBitmap.FrameAllocator.FreeBlock | source/kernel/memory_management/physical_memory_manager/physical_memory_manager.cpp:50-55 | removes only its argument |
| PageTables.AllocateRefines | source/memory_management/paging.cpp:171-218 | mapping a present page changes nothing at all; mapping an absent one changes that page, in the directories that share its table, and no other page of any directory |
| PageTables.FreeRefines | source/memory_management/paging.cpp:220-244 | freeing unmaps that page, in the directories that share its table, and no other |
| PageTables.AllocateLow | source/memory_management/paging.cpp:171-218 | a draw below the reserved bound and its mapping do not depend on the shared bits |
| PageTables.FreeLow | source/memory_management/paging.cpp:220-244 | neither does freeing |
| PageTables.Aligned | source/memory_management/heap.cpp:503-507 | a multiple of 4096, the address itself if it is one, otherwise the next above it; 0 past the last page |
| PageTables.TablesFollow | source/memory_management/heap.cpp:501-519 | two page tables made one after the other lie behind everything placed before, on adjacent pages of their own |
| PageRegions.RegionRefines | source/memory_management/paging.cpp:61-73 | a region on the flat map: pages mapped before and pages outside stay, pages inside are mapped, an identity region maps each absent page but page 0 to itself, and another directory sees exactly the pages whose table it shares |
| PageRegions.RegionDrawsFresh | source/memory_management/paging.cpp:61-73 | the frames a region draws were free, are taken afterwards, and differ from page to page |
| PageRegions.RegionLow | source/memory_management/paging.cpp:61-73 | a region does not depend on the shared bits |
| PageRegions.RoomForRegion | source/memory_management/paging.cpp:61-73 | a region can be mapped when as many of the reserved frames are free as it can draw: all its pages, or for an identity region page 0 alone |
| PageOwnership.HardwareAgrees | source/memory_management/paging.cpp:148-159 | under the invariant a walk through `tables` from physical frame to physical frame, by the upper and lower ten bits of the page number, finds exactly what the walk through `ref_tables` finds |
| PageOwnership.HardwareTranslates | source/memory_management/paging.cpp:131-160 | and the address the code computes is that of the frame found there, with the offset in the page |
| PageOwnership.TablesApart | source/memory_management/paging.cpp:187-200 | no two page tables lie on the same physical frame |
| PageOwnership.TableKeepsInv | source/memory_management/paging.cpp:184-201 | linking a new table keeps both copies of the directory in step and every frame owned |
| PageOwnership.PageKeepsInv | source/memory_management/paging.cpp:203-217 | filling an absent entry, by a drawn or an explicit frame, keeps the invariant, and a drawn frame gets exactly one holder |
| PageOwnership.FreeKeepsInv | source/memory_management/paging.cpp:228-243 | giving back the frame of a drawn entry keeps the invariant, as long as the page holds no table |
| PageOwnership.StepInv | source/memory_management/paging.cpp:171-301 | every mapping, release, copy and creation of directories, and every change of the shared bits, keeps ownership and coherence, as long as a draw finds a frame below 8 * memSize |
| PageOwnership.RunInv | source/memory_management/paging.cpp:171-301 | so does every run of such steps: no drawn frame is held twice, and of the bits below 8 * memSize exactly the held ones are set |
| PageOwnership.FrameHeldOnce | source/memory_management/paging.cpp:203-217 | two pages on the same drawn frame are the same page of one shared table |
| PageOwnership.RunUserWritable | source/memory_management/paging.cpp:193-217 | over every run each entry that is present, of a table or of a directory, is writable and open to user mode, and none maps 4 MiB |
| PageOwnership.AllocateThenFree | source/memory_management/paging.cpp:203-244 | mapping an absent page on a drawn frame and freeing it restores the flat map of every directory and the set of taken frames |
| PageOwnership.CopyTranslatesAlike | source/memory_management/paging.cpp:277-290 | after a copy that shares every table both directories translate every address alike, and as before |
| PageOwnership.CopyLeavesOthers | source/memory_management/paging.cpp:277-290 | a copy changes what no directory but the copied-to one translates to, no table and no frame |
| PageOwnership.NewMapsNothing | source/memory_management/paging.cpp:31-44 | a new directory maps nothing and changes no other |
| PageOwnership.SharedForever | source/memory_management/paging.cpp:171-301 | over every run, a table linked at copy time stays common to both, so both keep translating its 4 MiB alike |
| PageOwnership.PrivateForever | source/memory_management/paging.cpp:184-201 | where there was no common table, none appears without a further copy |
| PageOwnership.PrivatePage | source/memory_management/paging.cpp:171-244 | what is mapped or freed in a private slot does not show in the other directory |
| SharedStorage.DrawKeepsDirectory | source/kernel/memory_management/physical_memory_manager/physical_memory_manager.cpp:32-48 | a draw whose bit may lie in the page directory keeps its two halves in step if and only if that bit is outside both, or in the processor's half and neither the presence bit of an empty entry nor a frame bit of a linked one |
| SharedStorage.DrawsBreak | source/kernel/memory_management/physical_memory_manager/physical_memory_manager.cpp:32-48 | with all frames up to an entry taken, the next thirteen draws at most leave that entry out of step |
| SharedStorage.RunBreaks | source/kernel/memory_management/physical_memory_manager/physical_memory_manager.cpp:32-48 | so it is at the end of every run of the paging code that began with that entry linked |
| SharedStorage.BreaksAfterBoot | source/kernel/memory_management/paging/paging.cpp:22-31 | and so it is from boot on with the first entry, that of the identity region |
| SharedStorage.FailingInput | source/kernel/memory_management/physical_memory_manager/physical_memory_manager.cpp:32-48 | a directory as boot leaves it, entries 0, 0x300 and 0x301 linked, behind a full reserved part: thirteen draws at most leave entry 0 out of step |
| Bootstrap.LinearStep | source/kernel/memory_management/paging/paging.cpp:25-25 | the k-th page of the first region gets frame k |
| Bootstrap.EnableTranslates | source/kernel/memory_management/paging/paging.cpp:27-28 | on the linear range the walk after paging is on agrees with the formula used before, and cr3 is the directory's address minus 0xC0000000 |
| Bootstrap.EnableKeepsInv | source/kernel/memory_management/paging/paging.cpp:27-28 | turning paging on keeps the invariant, because the tables are mapped where they already were |
| Bootstrap.IdentityStep | source/kernel/memory_management/paging/paging.cpp:30-30 | page k of the second region gets frame k, except page 0, which draws frame 0x401 |
| Bootstrap.BootTranslates | source/kernel/memory_management/paging/paging.cpp:22-31 | what every one of the 2^32 addresses translates to after boot, that the linear range was never disturbed, that every draw finds a reserved frame and which are taken, and that the run invariant holds |
| Bootstrap.FromBootOn | source/kernel/memory_management/paging/paging.cpp:22-31 | after boot every run that draws below 8 * memSize keeps ownership and coherence |
| Bootstrap.WritableFromBootOn | source/kernel/memory_management/paging/paging.cpp:22-31 | so does that every mapped page is writable and open to user mode |
| PagingCode.Paging.Place | source/memory_management/heap.cpp:501-519 | as long as nothing wraps, the answer is at or above the old placement address and less than a page further on, page aligned if asked for, and the placement address then lies behind it by the size, so that successive grants lie apart; past 4 GiB both wrap |
| PagingCode.Paging.Virtual2Physical | source/memory_management/paging.cpp:131-160 | reads the flat map at every offset, by the upper ten, middle ten and lower twelve bits of the address; subtracts 0xC0000000 before paging is on; 0 where nothing is mapped |
| PagingCode.Paging.LinkTable | source/memory_management/paging.cpp:184-201 | a zeroed table is linked in both copies of the directory; of the bitmap only shared bits can change |
| PagingCode.Paging.AllocatePage | source/memory_management/paging.cpp:171-218 | takes the state, up to shared bits, to the one the flat-map lemmas speak about |
| PagingCode.Paging.FreePage | source/memory_management/paging.cpp:220-244 | likewise for freeing |
| PagingCode.Paging.AllocateThenFree | source/memory_management/paging.cpp:203-244 | mapping and freeing through the code restores the flat map of every directory and every reserved word of the bitmap |
| PagingCode.Paging.AllocateRegion | source/memory_management/paging.cpp:61-73 | maps every page from start to end inclusive, in order, terminates when the end does not wrap, and refines the flat map with fresh and different frames; a frame is needed only for a page that draws one |
| PagingCode.Paging.SwitchToDirectory | source/memory_management/paging.cpp:104-129 | the value loaded into cr3 in all four cases, and the directory recorded as current |
| PagingCode.Paging.CopyDirectory | source/memory_management/paging.cpp:277-301 | copies both arrays entry by entry, from the directory given or the manager's own, when its tables are the kernel's |
| PagingCode.Paging.InitPaging | source/kernel/memory_management/paging/paging.cpp:22-31 | the directory is page aligned, at or above the old placement address, its tables behind it and apart; ends with the boot translation of every address and the run invariant, whatever the writes to directory and tables do to the shared bits |
| SchedulerModel.SwitchBackRestores | source/kernel/multitasking/context_switch.asm:8-45 | loading a saved frame by the assembly's offsets gives back the interrupted program's registers, with the user stack pointer |
| SchedulerModel.ScanKeeps | source/kernel/multitasking/scheduling/scheduling.cpp:110-136 | a scan only drops entries, and stops at a listed task that is not a zombie |
| SchedulerRuns.StepInv | source/kernel/multitasking/scheduling/scheduling.cpp:76-142 | tick, exit and creation keep the scheduler's invariant |
| SchedulerRuns.ExitKills | source/kernel/multitasking/syscall.cpp:27-31 | after an exit the current task is a zombie; its registers, directory and cr3, every other record, the list and all scheduler variables are unchanged |
| SchedulerRuns.CreatedFirst | source/kernel/multitasking/scheduling/scheduling_list/scheduling_list.cpp:13-57 | after a creation the new task is first, the old list follows in order, the record is the one given, and every other record and variable is unchanged |
| SchedulerRuns.ScanSweeps | source/kernel/multitasking/scheduling/scheduling.cpp:110-136 | a scan stops at the first task from its start that is neither a zombie nor the current one, and what it takes off the list are exactly the zombies before that |
| SchedulerRuns.TickPicks | source/kernel/multitasking/scheduling/scheduling.cpp:104-141 | which task a tick makes current, what becomes of the list and where the next search starts |
| SchedulerRuns.TickRecords | source/kernel/multitasking/scheduling/scheduling.cpp:76-142 | what a tick does to each record: the interrupted task is Ready with the interrupt frame, the one that takes over Running from its own registers and cr3, no other changes; a zombie just left is to be deleted until the next tick |
| SchedulerRuns.LifeCycle | source/kernel/multitasking/scheduling/scheduling.cpp:39-142 | from boot on, over every run: only the current task is Running, it is the one the next tick saves, cr3 is its own, and first-run set-up happened once for each task that ever ran |
| SchedulerRuns.DeadForever | source/kernel/multitasking/scheduling/scheduling.cpp:118-125 | a zombie stays one and is never dispatched again |
| SchedulerRuns.ExitedForGood | source/kernel/multitasking/syscall.cpp:27-31 | a task that exits while it runs is never current again once another task is, over every run |
| SchedulerRuns.ResumesWhereItStopped | source/kernel/multitasking/scheduling/scheduling.cpp:93-102 | whatever the others did in between, a task dispatched again has the registers and the address space it was interrupted with |
| SchedulerRuns.ScanFinds | source/kernel/multitasking/scheduling/scheduling.cpp:110-136 | a live task that is not current is still listed after the scan, which stopped at or before it or started behind it |
| SchedulerRuns.TickShortensWait | source/kernel/multitasking/scheduling/scheduling.cpp:104-141 | each tick dispatches a waiting task or strictly shortens its wait, deletions during the scan included |
| SchedulerRuns.CreationLengthensWait | source/kernel/multitasking/scheduling/scheduling_list/scheduling_list.cpp:13-57 | a task created meanwhile lengthens the wait by four at most |
| SchedulerRuns.NoStarvation | source/kernel/multitasking/scheduling/scheduling.cpp:104-141 | every live task of an n-entry list is current within n ticks and four more for each task created meanwhile, whatever other tasks exit |
| SchedulerRuns.CreatedRuns | source/kernel/multitasking/scheduling/scheduling.cpp:104-141 | from its creation on, a task is current within one tick for every entry of the list and four more for each later creation |
| SchedulerRuns.FirstDispatch | source/kernel/multitasking/scheduling/scheduling.cpp:39-74 | its first dispatch, whenever that is, loads the registers and the cr3 it was created with |
| SchedulerRuns.RoundRobin | source/kernel/multitasking/scheduling/scheduling.cpp:107-141 | among n live tasks the k-th tick makes the task k places further on current |
| SchedulerRuns.EachOnce | source/kernel/multitasking/scheduling/scheduling.cpp:107-141 | every window of n ticks makes each of the n tasks current exactly once |
| TaskScheduler.Scheduler.AddTask | source/kernel/multitasking/scheduling/scheduling_list/scheduling_list.cpp:13-57 | the list is the new task followed by the old list, the record is stored, and nothing else changes |
| TaskScheduler.Scheduler.Exit | source/kernel/multitasking/syscall.cpp:27-31 | the current task's record becomes a zombie, its other fields and everything else stay; without a current task nothing happens |
| TaskScheduler.Scheduler.ContextSwitch | source/kernel/multitasking/scheduling/scheduling.cpp:39-74 | the whole new state, including cr3, set-up, the task to delete and the registers loaded |
| TaskScheduler.Scheduler.ScanRound | source/kernel/multitasking/scheduling/scheduling.cpp:112-135 | one round of the loop: drop the entry and stay, pass over it, or stop at it |
| TaskScheduler.Scheduler.FindNext | source/kernel/multitasking/scheduling/scheduling.cpp:104-136 | the loop that removes while it scans, with its 32-bit index, terminates and agrees with the scan on values |
| TaskScheduler.Scheduler.Tick | source/kernel/multitasking/scheduling/scheduling.cpp:76-142 | one interrupt takes exactly the step that the run lemmas speak about |
| HeapLayout.WriteHeader | source/memory_management/heap.hpp:9-15 | the header stands (`HeaderBytes` says byte by byte what that means), and no byte outside it changed |
| HeapLayout.WriteFooter | source/memory_management/heap.hpp:17-21 | the footer stands, and no byte outside it changed |
| HeapLayout.HeaderBytes | source/memory_management/heap.hpp:9-15 | the twelve bytes of a header: 0xDEADBEEF, the hole flag, the size, little-endian |
| HeapLayout.FooterBytes | source/memory_management/heap.hpp:17-21 | the eight bytes of a footer: 0xDEADBEEF and the header's address |
| HeapLayout.LayoutUnique | source/memory_management/heap.hpp:9-21 | the bytes determine the blocks: two readings of the same memory between the same bounds are equal |
| HeapCarving.CarveLayout | source/memory_management/heap.cpp:316-375 | rewriting one hole as front hole, block and tail hole keeps the chain and the footers of the whole heap |
| HeapCarving.CarveIndex | source/memory_management/heap.cpp:340-375 | the index lists exactly the holes again |
| HeapCarving.CarvedPlain | source/memory_management/heap.cpp:308-375 | an unaligned request takes the front of the hole, and all of it when fewer than twenty bytes would remain |
| HeapCarving.CarvedAligned | source/memory_management/heap.cpp:316-375 | an aligned one leaves a hole up to the header before the page boundary, takes exactly what it needs, and leaves the rest a hole; when that can be done |
| HeapCarving.InsertOrdered | source/memory_management/heap.cpp:26-59 | inserting at the first entry not smaller keeps the index in order of size |
| HeapGrowth.StretchKeeps | source/memory_management/heap.cpp:284-296 | enlarging the hole that touches heap_end keeps the chain up to the new end |
| HeapGrowth.StretchLoses | source/memory_management/heap.cpp:284-296 | enlarging a hole that another block follows leaves that block in no reading of the memory |
| HeapGrowth.StretchOverruns | source/memory_management/heap.cpp:284-296 | enlarging a hole by more than the heap has grown leaves a live block in no reading of the memory |
| HeapTables.TabledAdds | source/memory_management/paging.cpp:184-187 | every table made during growth adds a block |
| HeapTables.AlongTable | source/memory_management/paging.cpp:184-201 | one more table on the way keeps the live blocks, and the old end of the heap exactly if a hole had room for it |
| HeapTables.PreparedStep | source/memory_management/heap.cpp:236-301 | a round of growth in front of the others: the blocks are those of growth alone exactly if every slot on the way was linked |
| HeapTables.RoomMade | source/memory_management/heap.cpp:299-301 | after a round of growth the retry fits, or is nearer to a fit |
| HeapTables.SmallestHole | source/memory_management/heap.cpp:130-167 | on an index in order of size the hole carved is a smallest one of the heap that is large enough |
| HeapTables.CarvesTheGrown | source/memory_management/heap.cpp:236-301 | after growth the hole carved is the last block |
| HeapFreeing.FreeLayout | source/memory_management/heap.cpp:392-427 | one hole over left hole, block and right hole keeps the chain |
| HeapFreeing.MergedBlocks | source/memory_management/heap.cpp:392-427 | what the free makes of block and neighbours in each of the four cases, position and size |
| HeapFreeing.FreedIndexExact | source/memory_management/heap.cpp:428-437 | the index lists exactly the holes again in all four neighbour cases |
| HeapFreeing.FreedLeaks | source/memory_management/heap.cpp:402-414 | with a stale footer on the left no reading of the memory has exactly the indexed holes |
| HeapFreeing.StaleIsMisled | source/memory_management/heap.cpp:402-408 | a stale footer on the left is exactly a footer whose header says hole and is not in the index |
| HeapFreeing.FreedOrdered | source/memory_management/heap.cpp:416-482 | a free that merges nothing on the left keeps the index in order of size |
| HeapAlignment.FitsUnaligned | source/memory_management/heap.cpp:158-166 | whatever hole an unaligned search finds can be carved |
| HeapAlignment.FitGivesRoom | source/memory_management/heap.cpp:139-157 | a hole the aligned search accepts, with room for a front hole, ends before the page boundary or has room for the request behind it |
| HeapAlignment.CarvedServes | source/memory_management/heap.cpp:303-378 | carving a carvable hole leaves the other blocks, a block for the caller and the indexed holes |
| HeapAlignment.NotServed | source/memory_management/heap.cpp:316-371 | after carving any other hole the search accepts no reading of the memory does: the gap in front is too small or wraps around, or 1 to 19 bytes remain behind |
| HeapService.FirstFitIsBest | source/memory_management/heap.cpp:130-167 | on an index in order of size, first fit is a smallest fitting hole |
| HeapService.AlignedFit | source/memory_management/heap.cpp:139-157 | the exact set of holes the aligned test accepts, wrap-around included; without alignment, those that are large enough |
| HeapService.SecondRound | source/memory_management/heap.cpp:236-300 | on a heap of whole pages without holes, one growth is enough for an aligned request exactly when its size goes at most 12 bytes beyond whole pages |
| HeapService.GrownFits | source/memory_management/heap.cpp:236-300 | a hole at the end that was too small fits once it has grown, aligned or not |
| HeapService.CarveGrants | source/memory_management/heap.cpp:303-378 | every live block keeps all its bytes, and the caller's bytes belong to no other live block |
| HeapService.AllocFreeRestores | source/memory_management/heap.cpp:227-438 | freeing what an unaligned allocation carved gives back the blocks there were, unless the hole lay beside another hole or at the end of the heap |
| HeapService.ClientKeepsSound | source/memory_management/heap.cpp:372-378 | what a client writes between header and footer of its block keeps chain, footers and pages |
| HeapService.ClientKeepsOrder | source/memory_management/heap.cpp:372-378 | and the order of the index |
| HeapService.CarvedSeparated | source/memory_management/heap.cpp:316-375 | carving leaves no two holes side by side if there were none |
| HeapService.MergedSeparated | source/memory_management/heap.cpp:401-438 | neither does freeing |
| BoundaryTagHeap.Heap.constructor | source/memory_management/heap.cpp:94-128 | one hole over the whole heap, in the chain and in the index, exactly the pages of the region requested and every slot of it linked |
| BoundaryTagHeap.Heap.FindSmallestHole | source/memory_management/heap.cpp:130-167 | -1 exactly when no entry fits, otherwise the first that does |
| BoundaryTagHeap.Heap.InsertHole | source/memory_management/heap.cpp:17-67 | the entry goes before the first that is not smaller |
| BoundaryTagHeap.Heap.Carve | source/memory_management/heap.cpp:303-378 | exactly one hole becomes front hole, block and tail hole, and no byte outside it changes; an unaligned request always gets that, an aligned one is served if and only if the hole is carvable |
| BoundaryTagHeap.Heap.MakeTable | source/memory_management/paging.cpp:184-201 | a request for a page table in the middle of growth: served from a hole, from further growth, or, exactly when nothing fits and that growth needs a table too, never |
| BoundaryTagHeap.Heap.AllocatePage | source/memory_management/paging.cpp:171-201 | in a slot that has its table nothing but the page changes; in one that has none a table is made first |
| BoundaryTagHeap.Heap.Expand | source/memory_management/heap.cpp:169-195 | every page up to the new end requested and its slot linked, no page requested that is not in the added part; nothing else changes exactly if every slot was linked before |
| BoundaryTagHeap.Heap.Grow | source/memory_management/heap.cpp:237-296 | with every slot linked the heap is the grown one if the last block is a hole or there is none, and loses a block otherwise; with a slot missing, the tables made on the way come first, and a block is lost if one of them made the heap grow |
| BoundaryTagHeap.Heap.Alloc | source/memory_management/heap.cpp:227-379 | which hole is carved: the first entry of the index that fits, on an index in order of size a smallest hole large enough, after growth the last block; from which blocks: the old ones, the grown ones exactly if every slot up to the new end was linked, or those with tables before; by how much the heap grew, and that only pages of the added part were requested; a page-aligned answer if asked for, live blocks untouched, the granted bytes disjoint from them, order of the index; and what is left of the heap when nobody is served |
| BoundaryTagHeap.Heap.MergeLeft | source/memory_management/heap.cpp:402-414 | what joining through the left footer does, right or stale |
| BoundaryTagHeap.Heap.MergeRight | source/memory_management/heap.cpp:416-427 | a hole on the right is absorbed and its footer left as it is |
| BoundaryTagHeap.Heap.IsMisled | source/memory_management/heap.cpp:402-405 | the caller's check, made on memory and index |
| BoundaryTagHeap.Heap.Free | source/memory_management/heap.cpp:381-483 | memory and index represent a heap afterwards if and only if that check is negative, and then the blocks are the merged ones and the index is, entry by entry, the old one without the hole on the right and, with no hole on the left, with the freed block where `Insert` puts it; the merged hole's footer is right exactly when nothing was merged on the right |
| BoundaryTagHeap.Heap.FreeMiddleFirst | source/memory_management/heap.cpp:401-438 | three frees of neighbours after which a block is lost |
| BoundaryTagHeap.Heap.ClientWrites | source/memory_management/heap.cpp:372-378 | a client's writes to its block between allocation and free leave a heap |
| HeapScenarios.FreeMiddleOfFour | source/memory_management/heap.cpp:401-438 | from a new heap, four allocations and three frees after which memory and index represent no heap |
| HeapScenarios.GrowOverBlock | source/memory_management/heap.cpp:284-296 | from a new heap, two allocations and a free after which growth loses the live block |
| HeapScenarios.SliverBehindAligned | source/memory_management/heap.cpp:346-371 | on a new heap, an aligned request that the search accepts and that no reading of the memory serves |
| HeapScenarios.TableInTheWay | source/memory_management/heap.cpp:169-195 | on a new heap, a 4 MiB request is answered 0x1014 bytes further up than growth alone would: a page table lies in front |
| HeapScenarios.TableOverrun | source/memory_management/heap.cpp:236-296 | on a full heap the same request ends in memory that is no heap |
| HeapScenarios.EndlessRequest | source/memory_management/heap.cpp:236-240 | on a full heap that ends at a slot boundary any request recurses without end |
| HeapRuns.HeldApart | source/memory_management/heap.cpp:372-378 | ranges granted at the same time lie apart, headers and footers included |
| HeapRuns.Clients.DoTake | source/memory_management/heap.cpp:227-379 | a served allocation is a new range, all others keep their bytes, and if something fitted it lies in the first hole of the index that did |
| HeapRuns.Clients.DoPut | source/memory_management/heap.cpp:372-378 | a client's write changes its own range and no other |
| HeapRuns.Clients.DoGive | source/memory_management/heap.cpp:381-438 | a free inside the heap keeps every other range if and only if the check before it is negative |
| HeapRuns.Clients.Run | source/memory_management/heap.cpp:227-438 | over any sequence of these requests, up to one that goes wrong or is not covered, the heap stays a heap and every range holds what was last written to it |
| StableSorting.SortSorts | source/usermode/graphics/windows/window_draw_list/window_draw_list.cpp:73-114 | the sort is sorted, a permutation, and keeps the order of equal keys |
| StableSorting.BubbleStep | source/usermode/graphics/windows/window_draw_list/window_draw_list.cpp:107-112 | swapping a strictly inverted pair of neighbours does not change the stable sort and removes an inversion |
| StableSorting.RaisedGoesLast | source/usermode/graphics/windows/window_draw_list/window_draw_list.cpp:10-19 | a numbered list with one key raised sorts to that entry last, the others in order |
| StableSorting.NewGoesTo | source/usermode/graphics/windows/window_draw_list/window_draw_list.cpp:36-51 | where a new entry of any key ends up in a numbered list |
| StableSorting.PlaceInList | source/usermode/graphics/windows/window_draw_list/window_draw_list.cpp:36-51 | that place: behind its own key, at the end past all keys, or directly below the top window when it has that one's key and is set under it |
| StableSorting.PlaceBesideOne | source/usermode/graphics/windows/window_draw_list/window_draw_list.cpp:36-51 | next to a single window the smaller key goes below, and of equal keys the one set under |
| WindowModel.Topmost | source/usermode/graphics/windows/windows.cpp:128-141 | the last window whose frame's four bounds enclose the pointer, edges included, with none above it |
| WindowModel.LoopAfterPress | source/usermode/graphics/windows/windows.cpp:221-244 | after the raise the loop goes on over the rearranged list and changes nothing more |
| WindowModel.LoopHandles | source/usermode/graphics/windows/windows.cpp:221-272 | the loop over the list it rearranges does, for every mouse state, what one press, hold or release should |
| WindowModel.PressRaises | source/usermode/graphics/windows/windows.cpp:228-244 | a press puts the topmost window whose frame encloses the pointer last and leaves the others in order; it is grabbed, where the pointer is, if that is no lower than the top of its viewport, and otherwise what was grabbed stays |
| WindowModel.PressOutside | source/usermode/graphics/windows/windows.cpp:221-272 | a press outside every frame changes nothing |
| WindowModel.ReleaseKeeps | source/usermode/graphics/windows/windows.cpp:246-251 | a release lets go of a listed window and changes nothing else; with the button up all along nothing changes |
| WindowModel.HoldWithoutGrab | source/usermode/graphics/windows/windows.cpp:246-270 | holding the button with nothing grabbed changes nothing |
| WindowModel.DragFollows | source/usermode/graphics/windows/windows.cpp:252-270 | along any path the grabbed window has moved by the pointer's distance from where it was grabbed, modulo 2^32 and whatever wrapped on the way, and nothing else has moved |
| WindowModel.GrabDragDrop | source/usermode/graphics/windows/windows.cpp:204-273 | a press on a title bar, any drag and a release: on top, moved by the pointer's distance, let go |
| WindowModel.DragMovesEdges | source/usermode/graphics/windows/windows.cpp:252-270 | edge by edge: left and right of frame and viewport have grown by the pointer's way to the right, top and bottom by its way down, modulo 2^32 and exactly where the sum fits; no other window has moved |
| WindowModel.DropMovesEdges | source/usermode/graphics/windows/windows.cpp:204-273 | the same from a press inside the frame no lower than the viewport's top, over any drag, to the release |
| WindowStack.WindowDrawList.ForceSort | source/usermode/graphics/windows/window_draw_list/window_draw_list.cpp:73-124 | terminates with the stable sort of the list and, for two windows or more, z-index equal to position |
| WindowStack.WindowDrawList.Pass | source/usermode/graphics/windows/window_draw_list/window_draw_list.cpp:81-113 | one pass keeps the stable sort and either removes an inversion or finds the list sorted |
| WindowStack.WindowDrawList.FocusWindow | source/usermode/graphics/windows/window_draw_list/window_draw_list.cpp:10-19 | the window comes out on top, all others in order, z-index equal to position; a window not listed changes no order |
| WindowStack.WindowDrawList.AddWindow | source/usermode/graphics/windows/window_draw_list/window_draw_list.cpp:21-54 | refused exactly when full or listed; otherwise where the window goes for any first z-index |
| WindowStack.WindowDrawList.Show | source/usermode/graphics/windows/windows.cpp:194-197 | a new window shown with focus comes out on top whatever its memory held |
| WindowStack.WindowDrawList.RemoveWindow | source/usermode/graphics/windows/window_draw_list/window_draw_list.cpp:56-60 | the others in order, renumbered |
| MouseInput.Handler.HoveringWindow | source/usermode/graphics/windows/windows.cpp:128-141 | true exactly of the topmost window whose frame encloses the pointer |
| MouseInput.Handler.Move | source/usermode/graphics/windows/windows.cpp:257-265 | both rectangles of the window, left and right by the first number, top and bottom by the second |
| MouseInput.Handler.HandleWindow | source/usermode/graphics/windows/windows.cpp:223-271 | one round over objects agrees with one round on values |
| MouseInput.Handler.HandleDragFocusInput | source/usermode/graphics/windows/windows.cpp:204-273 | the whole call does one press, hold or release, z-index stays equal to position, and a held window's edges go right and down with the pointer |

## Left out

- BoundaryTagHeap.Heap.Free: restricted to frees whose merged hole ends before heap_end; `Contract` masks with 0x1000 instead of rounding up and frees pages by offset instead of by address.
- BoundaryTagHeap.Heap.Alloc: stops where a live block is lost or a table is not served; the code goes on with the memory it has then. It also stops where sums come near 4 GiB (`Wraps`) and where the code recurses without end. The index must have room; `heap_max_address` is never checked by the code.
- BoundaryTagHeap.Heap.MakeTable: the entries that the pager writes into its tables are not written into their blocks here.
- BoundaryTagHeap.Heap.constructor: the index, which the code keeps at the start of the heap's memory, is an array of its own, and the word 8 bytes below the heap is taken not to be the magic number, as the code takes for granted.
- PagingCode.Paging.CopyDirectory: only directories all of whose tables are the kernel's, as in the one call there is; `CopyPageTable` is never reached from it and reads an uninitialised table.
- PagingCode.Paging.AllocatePage: a draw needs a free frame below 8 * memSize (what a draw beyond does is in `SharedStorage`, for the page directory), and a table from the initialised heap is fresh, aligned and mapped; the pages that a growing heap maps while it serves that table are in the heap model alone.
- PagingCode.Paging.LinkTable: likewise, the table comes from a list of answers.
- PagingCode.Paging.AllocateRegion: every page that draws must find such a frame, and the end must lie at least one page below the top of the address space, where the code's loop would not end.
- PagingCode.Paging.FreePage: a frame given back must have a bit of its own, which the invariant guarantees for drawn frames; the early return for the boot directory cannot happen because its first word reads as null after boot.
- PagingCode.Paging.SwitchToDirectory: the record of the current manager is not modelled; that of the current directory is.
- SharedStorage.DrawsBreak: follows the draws alone, without the entries written between them.
- SharedStorage.DrawKeepsDirectory: page tables that lie in the bitmap's words as well are not laid out.
- HeapRuns.Clients.Run: a free that reaches the end of the heap, and an index nearly full, end a run.
- TaskScheduler.Scheduler.ContextSwitch: the first-run set-up is recorded, its mappings and heap are not run; segment registers and the privilege change are left out.
- WindowStack.WindowDrawList.ForceSort: lists with null entries, which no caller creates.
- Per-process heaps inside shared user pages, and the reuse of task records, which the code never frees.
- The arguments `isKernel` and `isWritable` of the pager: the code ignores them.
- Drivers, descriptor tables, graphics, file systems, string helpers: hardware access or straight-line code.
