# A verified model of a small x86-64 kernel

This Dafny project models the parts of the kernel that work by changing data
structures in place, and proves that each of them behaves like the simple object
it stands for. Every operation that changes state is a method on a class or an
array with the source's own fields; what it computes is stated against a
specification on values, and the lemmas say what follows over all inputs, all
spaces or all runs.

- **Physical memory and page tables** (`Bits`, `Ram`, `PageEntry`, `Pmm`,
  `PageTables`, `BootPaging`, `Vmm`, `Elf`, `ElfLoader`, `ProgramImages`,
  `SharedPrograms`, `ClientModel`, `KernelRuns`). RAM is one array of 64-bit words
  that holds the allocator's bitmap, every page table, every program and every page.
  The bitmap refines a set of free frames; the tables refine, space by space, a
  partial map from pages to pages with rights, huge leaves included (`Walk`). The
  rights user code has are the AND along the walk (`Effective`); a space is *closed*
  when no user leaf lies below a supervisor pointer, and `Vmm.MapEffect` says what a
  map does to the rights of every page, in closed spaces and others.
  `AddressSpaces.Valid` says that tables form a tree (except for the shared slot 0),
  that tables, client pages, free frames and the bitmap are disjoint, and that the
  boot map is in place. `ElfLoader.Load` says when a program loads and which byte it
  sees at every address; `SharedPrograms` says what becomes of the programs loaded
  before it. `ClientModel` is the subsystem as a transition system on values and
  `KernelRuns.Client.Run` shows that the code takes exactly its steps.
- **Threads** (`StackMachine`, `ContextSwitch`, `Interrupts`, `Tasks`, `Processor`,
  `Suspension`, `RoundRobin`, `Dispatch`, `Scheduler`, `ThreadModel`, `ThreadSteps`,
  `ThreadHistory`, `ThreadRuns`). The CPU is its registers and a stack in RAM;
  context_switch and the interrupt stub are instruction sequences on it. The
  scheduler keeps the source's linked list; scheduler_start and task_yield run
  statement by statement (`Dispatch`), so that ticks may come in between. A history
  of suspensions and resumptions is *faithful* when every resumption continues the
  last suspension of the same thread. Between two calls into the kernel the running
  code may do anything except write the bitmap or the stack of another thread
  (`Threads.MayReach`). `ThreadModel` is the subsystem as a transition system on
  values, its invariant is `InOrder`, and `Threads.Run` shows that the code takes
  exactly its steps.
- **Both together** (`KernelSystem`, `KernelBoot`). `Kernel.Run` mixes requests to the
  memory manager with threads and ticks on one memory, and `KernelBoot.Boot` reaches
  the states in which the runs begin.
- **Heap** (`HeapBlocks`, `Heap`). The headers live inside the array they manage;
  they refine a list of blocks that tiles the area. Clients write their payloads
  between the calls, and `KernelHeap.Run` accounts for every pointer they hold.
- **Keyboard and console** (`Keyboard`, `Console`). A ring written by interrupts
  and read step by step, fed by a scancode state machine, refines a bounded queue
  (`Pipeline`); a scrolling screen is a window onto an endless transcript with a
  copy on the serial port; what is printed reads back.

Hypotheses the statements carry, because the code meets them only so:

- Address spaces are named by page-aligned addresses of their PML4.
- `vmm_map_page` returns nothing; whether it succeeded is a ghost result of
  `MapPage`, and its contract says exactly when that is.
- Spaces that copy PML4 slot 0 share everything below 512 GiB, so independence
  between spaces is stated outside that slot.
- The loader maps a page anew, and zeroes it, for every segment that touches it.
  So a page shows the last segment on it (`ElfLoader.Load`), and an earlier segment
  keeps its bytes exactly under the condition of `ProgramImages.ImageExactly`;
  `OverlapLosesByte` is a program that loses one. A failed load leaks what it has
  allocated; only the invariants and the other spaces are described then.
- The loader shares PML4 slot 0 with the kernel and maps programs between 1 GiB and
  512 GiB through it, so a program loaded later replaces the pages of earlier ones
  there (`SharedPrograms.SecondLoad`, `Survives`). In the kernel's own space the PML4
  entry stays a supervisor entry, so that space is not closed after such a load
  (`SharedPrograms.KernelNotClosed`), and a space that copies the slot is not closed
  either (`Vmm.SharedSlotClosed`) until a user map opens the slot
  (`Vmm.UserMapOpensSlot`).
- Nothing stops a client from giving user code any page, or from giving back a frame
  that user code still has (`ClientModel.GivenBackTooEarly`). User code reaches
  nothing but data frames in runs whose clients do neither (`ClientModel.CarefulRun`).
- In joint runs the running code writes its own stack, the frames its clients hold and
  the kernel's variables (`Kernel.image`), and nothing else.
- Every managed frame is RAM that reads back what was written. `kernel_main` leaves
  frames 1 to 255 free (kernel_os/src/kernel_main.cpp:97-102), which include
  addresses 0xA0000 to 0xFFFFF, where a PC has VGA memory and ROM.
- phys_to_virt reads a physical address as a virtual one, so every frame that the
  allocator hands out has to lie below 1 GiB, which the boot map maps to itself.
  `Fits` admits more frames; `kernel_main` manages 128 MiB.
- `scheduler_tick` without a current thread marks one as running but loads nothing
  (`ThreadSteps.FirstTickBreaks`). `kernel_main` enables interrupts right before it
  calls `scheduler_start` (kernel_os/src/kernel_main.cpp:124-125), and the call runs
  with interrupts on; up to its switch of stacks no tick may find somebody waiting
  (`ThreadHistory.BootWindow`). `LostStart` is the run that loses the first thread.
- `task_yield` called with interrupts on has the same window. A tick that finds
  somebody waiting in between its statements destroys what `ThreadHistory.TornTick`
  says; `LostYield` is a run that loses the caller, and `Dispatch.StaleCallLosesCaller`
  says what becomes of a call that goes on later. Runs are followed up to such a tick.
- Ticks run with interrupts off, behind an interrupt gate. Each of these is one step:
  the tests at the start of scheduler_start, the test and the store of READY in
  task_yield, the stores that link or unlink a task, and context_switch.
  `scheduler_add_task` and `task_create_kernel_thread` run uninterrupted: `kernel_main`
  calls them before it enables interrupts. In runs task_yield is called by a thread;
  `TaskScheduler.Yield` states what it does for the boot code, too.
- `scheduler_add_task` is called in runs for a thread that is neither queued nor
  current; `TaskScheduler.AddTask` states what it does for any other.
- A thread that a timer tick dispatches for the first time starts with interrupts
  masked: `ret` leaves rflags as the interrupt gate set them.
- `context_switch` does not save rflags; resumption covers the callee-saved
  registers, the return address, the stack pointer and the stack. Waiting is
  counted in turns, not in time.
- The code between the interrupt stub and context_switch keeps the calling
  convention of the System V AMD64 psABI, section 3.2.1, towards its caller
  whenever the function it calls does.
- Page-table entries and rights are read as in the Intel SDM, volume 3A,
  sections 4.5 and 4.6. Bit 63 is a right there only once EFER.NXE is set, which
  kernel_os/src/boot.S:166-170 does not do; the contracts say where the bit is stored.
- Strings and formats are the characters before the terminating NUL. `printk` reads
  past a format that ends in a lone `%`; `Printk` excludes it.

Two comments in the source say something else than the code. The ready queue is
called a ring list (kernel_os/src/scheduler.cpp:6), but the last thread's link is
null, and the model keeps that. scheduler_start is documented to need interrupts
enabled (kernel_os/include/scheduler.h:21-22), but it keeps its promise only if no
tick finds somebody waiting before it has switched stacks; `Tick`, `Start` and
`BootWindow` state what the code does.

Physical constants such as the amount of RAM, the place of the bitmap and the
frames of the boot tables are parameters, except in `KernelBoot`, which uses those of
`kernel_main`. Words are natural numbers below 2^64;
masks and shifts are defined on them by their binary digits, and wrap-around is
written out where the code relies on it or excludes it.

## Model

| member | source | states |
|---|---|---|
| `Pmm.MarkedMeaning` | kernel_os/src/pmm.cpp:14-16 | set_bit marks one frame used and leaves the bit of every other frame alone |
| `Pmm.ClearedMeaning` | kernel_os/src/pmm.cpp:17-19 | clear_bit frees one frame and leaves the bit of every other frame alone |
| `Pmm.MarkTouchesBitmapOnly` | kernel_os/src/pmm.cpp:14-19 | neither bit operation changes a byte outside the bitmap |
| `Pmm.MeetsMeaning` | kernel_os/src/pmm.cpp:47-55 | the frames that share a byte with [base, base + length) are exactly those from base / 4096 to (base + length - 1) / 4096 |
| `Pmm.ProbeVisits` | kernel_os/src/pmm.cpp:68-69 | the cyclic search looks at every managed frame, each at its own step |
| `Pmm.FirstProbeIsFirst` | kernel_os/src/pmm.cpp:68-75 | the first free frame probed is the first free frame in cyclic order from the hint |
| `Pmm.NoRun` | kernel_os/src/pmm.cpp:81-108 | when no run starts inside the managed frames there is no run of that many free frames at all |
| `Pmm.FreeSetReadsBitmap` | kernel_os/src/pmm.cpp:7-22 | memory writes off the bitmap do not change which frames are free |
| `Pmm.FrameAllocator.constructor` | kernel_os/src/pmm.cpp:24-45 | after pmm_init the free frames are all managed ones except frame 0 and the bitmap itself, the counter equals their number, and no byte off the bitmap has changed |
| `Pmm.FrameAllocator.SetBit` | kernel_os/src/pmm.cpp:14-16 | the free set loses exactly this frame |
| `Pmm.FrameAllocator.ClearBit` | kernel_os/src/pmm.cpp:17-19 | the free set gains exactly this frame |
| `Pmm.FrameAllocator.TestBit` | kernel_os/src/pmm.cpp:20-22 | true exactly for frames that are not free |
| `Pmm.FrameAllocator.MarkReserved` | kernel_os/src/pmm.cpp:47-63 | exactly the managed frames that meet the range leave the free set, also when base + length exceeds 64 bits; the counter stays exact |
| `Pmm.FrameAllocator.AllocPage` | kernel_os/src/pmm.cpp:65-78 | returns the first free frame at or after the hint in cyclic order and takes only it; 0 only when nothing is free, and then nothing changes |
| `Pmm.FrameAllocator.AllocPages` | kernel_os/src/pmm.cpp:80-109 | returns the lowest run of count free frames and takes only it; 0 (for a nonzero count) only when no run exists |
| `Pmm.FrameAllocator.FindRun` | kernel_os/src/pmm.cpp:85-108 | the run scan finds the lowest run, and finds one exactly when one exists |
| `Pmm.FrameAllocator.FreePage` | kernel_os/src/pmm.cpp:111-119 | an aligned, managed, nonzero frame becomes free, anything else is ignored, and a repeated free leaves the counter exact |
| `Pmm.FrameAllocator.FreePages` | kernel_os/src/pmm.cpp:121-137 | either the whole managed run becomes free or nothing does |
| `PageEntry.TableEntryMeaning` | kernel_os/src/vmm.cpp:43-44 | the new pointer is present, writable, not huge, names the new table and is a user entry exactly when asked |
| `PageEntry.AddUserMeaning` | kernel_os/src/vmm.cpp:48-51 | OR-ing the user bit in changes no other flag and not the target |
| `PageEntry.TableEntryPlain` | kernel_os/src/vmm.cpp:43-51 | a pointer to a new table sets no bit outside its address, present, writable and user, so not no-execute; OR-ing the user bit in leaves every other field of bits alone |
| `PageEntry.LeafEntryMeaning` | kernel_os/src/vmm.cpp:80 | the last-level entry is present, its address bits are those of the target and of the flags, and in every other field of bits, the no-execute bit among them, it has exactly what the flags have |
| `PageTables.PageNumberMeaning` | kernel_os/src/vmm.cpp:19-26 | two addresses have the same four indices exactly when they lie on the same page |
| `PageTables.WalkEnds` | kernel_os/src/vmm.cpp:115-144 | a look-up ends at the entry it gets to: with nothing if that is absent or a huge entry of the PML4, with its address if it is at the last level or huge, and otherwise it goes on to the table the entry names |
| `PageTables.OffsetInMeaning` | kernel_os/src/vmm.cpp:124-142 | the part of the address added at the three levels is the remainder by 4 KiB, 2 MiB and 1 GiB |
| `PageTables.GrowTable` | kernel_os/src/vmm.cpp:32-44 | hanging a zeroed table below an absent entry keeps the tables a tree and changes no translation and no rights |
| `PageTables.GrowUserBit` | kernel_os/src/vmm.cpp:48-51 | setting the user bit on a pointer keeps the tree and every translation |
| `PageTables.GrowRoot` | kernel_os/src/vmm.cpp:56-64 | a zeroed PML4 joins the tree, maps nothing and leaves every other space alone |
| `PageTables.MeetingPaths` | kernel_os/src/vmm.cpp:66-77 | two walks that meet in a table took the same turns, from one root or through a shared slot 0 |
| `PageTables.LeafEffect` | kernel_os/src/vmm.cpp:79-80 | writing one last-level entry changes exactly that page, in exactly the spaces that share it |
| `PageTables.WalkAfterShare` | kernel_os/src/elf.cpp:113-115 | copying PML4 slot 0 gives the space the first 512 GiB of the other and changes nothing else |
| `PageTables.ClosedSpaceRights` | kernel_os/src/vmm.cpp:43-51 | with writable pointers the AND of the rights along the walk is what the leaf says, exactly where a user leaf lies below user pointers only |
| `PageTables.LeafUserClosed` | kernel_os/src/vmm.cpp:71-80 | a user leaf below user pointers keeps the space closed |
| `PageTables.UserPathAfterMap` | kernel_os/src/vmm.cpp:43-51 | after a user map of v the way to another mapped page is open exactly if every pointer on it was a user pointer or lies on the way to v |
| `PageTables.OpenedBelowOneSlot` | kernel_os/src/vmm.cpp:48-51 | a way that a user map opened goes through the same PML4 entry of the same space, or through a shared slot 0 |
| `PageTables.NothingMissing` | kernel_os/src/vmm.cpp:71-77 | the last-level table is reached exactly when no table is missing |
| `PageTables.UnreachedIsUnmapped` | kernel_os/src/vmm.cpp:115-144 | no last-level table and no huge entry on the way: not mapped |
| `BootPaging.SetupPageTables` | kernel_os/src/boot.S:132-154 | writes the pointers and the 512 huge leaves and nothing else |
| `BootPaging.BootEstablishes` | kernel_os/src/boot.S:132-154 | the built tables satisfy the invariants that later operations keep |
| `BootPaging.OnlyIdentity` | kernel_os/src/boot.S:145-153 | right after boot the first GiB is mapped to itself and nothing else is mapped |
| `BootPaging.BootClosed` | kernel_os/src/boot.S:132-154 | the boot space has no user leaf above a supervisor pointer |
| `BootPaging.IdentityMapped` | kernel_os/src/boot.S:145-153 | any space that sees the boot map translates every address below 1 GiB to itself, writable and not for user code |
| `BootPaging.NoHugeAbove` | kernel_os/src/vmm.cpp:45-47 | outside the first GiB no huge leaf can block a mapping, in any space |
| `BootPaging.BootAfterLeaf` | kernel_os/src/vmm.cpp:66-107 | writing a last-level entry leaves the boot map in place |
| `BootPaging.BootAfterShare` | kernel_os/src/elf.cpp:113-115 | copying slot 0 leaves the boot map in place |
| `Vmm.AddressSpaces.constructor` | kernel_os/src/boot.S:132-154 | the boot tables are the first tables of the system and satisfy its invariant; the boot space is closed |
| `Vmm.AddressSpaces.GetOrCreateTable` | kernel_os/src/vmm.cpp:29-54 | returns the table below an entry, creating it when absent; 0 exactly when a huge entry blocks or no frame is free, and then nothing changes; no translation changes |
| `Vmm.AddressSpaces.TablesFor` | kernel_os/src/vmm.cpp:70-77 | the three levels together: reaches the last-level table exactly when the page can be mapped, changes no translation, and gives exactly the pointers on the way the user bit, if asked, also when it stops half-way |
| `Vmm.AddressSpaces.MapPage` | kernel_os/src/vmm.cpp:66-81 | succeeds exactly when no huge entry is on the way and enough frames are free; then the last-level entry of v is present, with the address asked for and every other bit as in the flags, the no-execute bit among them, and exactly the page of v changes, in the spaces that share it; otherwise no translation changes; in both cases exactly the pointers on the way get the user bit, if asked, and what was mapped stays mapped; success takes exactly one frame per missing table |
| `Vmm.AddressSpaces.UnmapPage` | kernel_os/src/vmm.cpp:83-107 | the last-level entry of v becomes 0 and exactly its 4 KiB page is removed; nothing at all changes when there is no last-level table, so a huge leaf is never removed |
| `Vmm.AddressSpaces.Translate` | kernel_os/src/vmm.cpp:115-144 | the address the look-up finds, 0 when it finds nothing |
| `Vmm.AddressSpaces.CreateAddressSpace` | kernel_os/src/vmm.cpp:56-64 | a new table of level 4 that maps nothing and is closed; every other look-up is unchanged; 0 exactly when no frame is free |
| `Vmm.AddressSpaces.ShareKernelSlot` | kernel_os/src/elf.cpp:113-115 | below 512 GiB the space now sees exactly what the other space sees, along the same pointers, the boot map included; nothing else changes |
| `Vmm.SharedSlotClosed` | kernel_os/src/elf.cpp:113-115 | a new space that copied slot 0 is closed exactly when the other space is closed below 512 GiB; all further spaces are closed exactly if they were |
| `Vmm.AddressSpaces.AllocFrame` | kernel_os/src/pmm.cpp:65-78 | a client gets a frame that is no table, no bitmap frame and nobody else's data, and no translation changes |
| `Vmm.AddressSpaces.FreeFrame` | kernel_os/src/pmm.cpp:111-119 | a client's data frame is free again and no translation changes |
| `Vmm.MappedPage` | kernel_os/src/vmm.cpp:79-80 | an aligned target and plain flags: v + offset translates to target + offset, for user code, writable and not executable exactly as the flags say |
| `Vmm.OtherSpacesUntouched` | kernel_os/src/vmm.cpp:66-107 | a map or unmap in one space is felt in another at most inside a shared PML4 slot 0 |
| `Vmm.MapRights` | kernel_os/src/vmm.cpp:71-80 | in a closed space the mapped page gets the rights of its flags and no other page's effective rights change |
| `Vmm.MapEffect` | kernel_os/src/vmm.cpp:66-81 | the effective rights of every page of every space after a map, closed or not: the page itself as its flags say (in a space that shares it, only if that space has a user PML4 entry), every other page as before except where the map opened the pointers that were still closed |
| `Vmm.RightsGained` | kernel_os/src/vmm.cpp:48-51 | a page whose effective rights change is a user leaf below the same PML4 entry as the mapped page, in the same space or in one that shares slot 0, and it gains exactly the rights of its leaf |
| `Vmm.UserMapOpensSlot` | kernel_os/src/vmm.cpp:48-51 | a user leaf that only the PML4 entry kept from user code, such as a program page seen through a copied slot 0, becomes user-accessible with any user map below that entry |
| `Vmm.KernelStaysSupervisor` | kernel_os/src/boot.S:145-153 | in every space that sees the boot map the first GiB is identity mapped and out of reach of user code |
| `Vmm.UserReach` | kernel_os/src/vmm.cpp:29-81 | if every user leaf leads to a data frame, what user code reaches is no table, no free frame and no part of the bitmap |
| `Vmm.FailureMeansUnmapped` | kernel_os/src/vmm.cpp:71-77 | above the first GiB a map fails only for lack of frames, and then the page was not mapped before |
| `Vmm.DataKeepsValid` | kernel_os/src/elf.cpp:142-161 | rewriting frames that are neither tables nor bitmap changes no translation and no free frame |
| `Elf.AlignedRange` | kernel_os/src/elf.cpp:46-77 | in a valid user range align_up does not wrap and the pages lie between 1 GiB and 2^47 |
| `Elf.SegmentInFile` | kernel_os/src/elf.cpp:101-120 | every program header read lies inside the file |
| `Elf.HeaderOkMeaning` | kernel_os/src/elf.cpp:85-106 | which files pass the header checks, in terms of the numbers that the bytes at the offsets of Elf64Header spell |
| `Elf.HeaderBytes` | kernel_os/src/elf.cpp:18-33 | entry point, offset of the program headers and their number are spelled by the bytes at offsets 24, 32 and 56 of the file |
| `Elf.SegmentBytes` | kernel_os/src/elf.cpp:35-44 | type, flags, offset, virtual address, file size and memory size are spelled by the bytes at offsets 0, 4, 8, 16, 32 and 40 of a program header |
| `Elf.SegmentFitsMeaning` | kernel_os/src/elf.cpp:122-128 | the checks on a segment hold exactly when its file bytes lie in the file and are no more than its memory, and its memory lies from 1 GiB up to below 2^47, without any wrap-around |
| `Elf.ZeroMemory` | kernel_os/src/elf.cpp:54-58 | exactly the bytes of the range become zero |
| `Elf.CopyMemory` | kernel_os/src/elf.cpp:60-64 | exactly the destination range changes; each byte becomes its source byte, or repeats the bytes before the destination where that begins inside the source |
| `Elf.PlainCopy` | kernel_os/src/elf.cpp:60-64 | where the destination does not begin inside the source this is a plain copy |
| `Elf.MapFreshPage` | kernel_os/src/elf.cpp:138-143 | one turn of the mapping loop: the page becomes a zero page with the given rights in a frame of its own, in reach of user code, or stays unmapped, which happens only when fewer than three frames are left; everything else that was mapped stays mapped, other pages and spaces unchanged; fails only when no frame is free, and takes at most four |
| `Elf.MapSegment` | kernel_os/src/elf.cpp:135-144 | the mapping loop: every page of the segment is a zero page of its own, in reach of user code; fails only for lack of frames |
| `Elf.CompleteAfterMap` | kernel_os/src/elf.cpp:138-143 | with three free frames a user page can always be mapped, so the silent early returns of vmm_map_page are not taken |
| `Elf.CopyStep` | kernel_os/src/elf.cpp:149-162 | one turn of the copying loop: the chunk stays on one page and inside the file, and its bytes arrive where the space translates them; it fails only if a page could not be mapped for lack of frames |
| `Elf.CopySegment` | kernel_os/src/elf.cpp:146-162 | after the copying loop all file-backed bytes are in place and the rest of the segment's pages is zero |
| `ElfLoader.HeadersBytes` | kernel_os/src/elf.cpp:117-120 | header i is spelled by the 56 bytes of entry i of the table, which starts where the bytes at offset 32 say and has as many entries as those at offset 56 say |
| `ElfLoader.TouchesMeaning` | kernel_os/src/elf.cpp:135-137 | the pages a segment loads are exactly those its memory range overlaps |
| `ElfLoader.LoadSegment` | kernel_os/src/elf.cpp:124-162 | one loadable segment: on success its pages are new zeroed frames with its rights that hold its file bytes, and no other page of the space has changed; it fails only for lack of frames, and what it had mapped stays |
| `ElfLoader.NextSegment` | kernel_os/src/elf.cpp:117-163 | a further segment takes over exactly the pages it touches: every other page keeps the bytes and rights of the last segment before it |
| `ElfLoader.LoadSegments` | kernel_os/src/elf.cpp:117-163 | the loop over the program headers: every page of the program holds what the last segment on it wants there, all file-backed bytes are mapped, and no page outside the segments has changed; it fails only for a malformed segment or for lack of frames |
| `ElfLoader.Load` | kernel_os/src/elf.cpp:80-168 | a well-formed executable whose segments pass the checks loads, with every page mapped, if four frames and four more per page are free before the call, and in any case unless fewer than three are left at the end; then the entry point is the number at offset 24 of the file, every page shows the bytes and rights of the last segment on it to user code, which may execute it, file-backed bytes are mapped, and elsewhere the space is slot 0 of the kernel and nothing else; in every case the invariants hold, user code gets nothing but data pages, no other PML4 is written and nothing outside the new space and slot 0 changes |
| `SharedPrograms.SharedBelow` | kernel_os/src/elf.cpp:113-115 | all spaces that see the boot map agree on every address below 512 GiB |
| `SharedPrograms.SecondLoad` | kernel_os/src/elf.cpp:113-163 | what a load does to a program loaded before it: below 512 GiB the new program's page replaces the old one's wherever it has one; every other page keeps its place and its bytes |
| `SharedPrograms.Survives` | kernel_os/src/elf.cpp:113-163 | the earlier program still reads its byte at an address if and only if the later one has no page there below 512 GiB, or wants the same byte |
| `SharedPrograms.KernelNotClosed` | kernel_os/src/elf.cpp:113-163 | a loaded page below 512 GiB leaves the kernel's own space with a user leaf under its supervisor PML4 entry: the space is not closed, though user code does not get there |
| `ProgramImages.ImageExactly` | kernel_os/src/elf.cpp:135-162 | after a load the memory range of a segment is right if and only if, at each of its addresses, the last segment on the page wants the same byte |
| `ProgramImages.NotOverwrittenIsUnspoiled` | kernel_os/src/elf.cpp:135-162 | that is so when no later segment loads a page with file bytes of this one or has file bytes in its range, a condition on the headers alone |
| `ProgramImages.WholePages` | kernel_os/src/elf.cpp:130-162 | a segment that shares no page with a later one has its bytes, zeros around them and its own rights on all its pages |
| `ProgramImages.SegmentBytesShown` | kernel_os/src/elf.cpp:146-162 | for such a segment byte offset + k of the file is read at virtual_address + k for every k below file_size, and zero from there up to memory_size |
| `ProgramImages.LostByte` | kernel_os/src/elf.cpp:138-143 | a nonzero file byte is lost, and reads as zero, when the last segment on its page does not back it |
| `ProgramImages.OverlapSegments` | kernel_os/src/elf.cpp:86-120 | a concrete executable of 176 bytes with two one-byte segments on one page passes the header checks |
| `ProgramImages.OverlapExists` | kernel_os/src/elf.cpp:17-44 | there is a memory that holds the executable below, laid out as the packed header structures say |
| `ProgramImages.OverlapLosesByte` | kernel_os/src/elf.cpp:138-143 | the loader accepts that executable and the byte of its first segment, 0x7F in the file, reads as zero |
| `ProgramImages.ZeroTailExists` | kernel_os/src/elf.cpp:17-44 | there is a memory that holds an executable with file size 1 and memory size 0x1001 |
| `ProgramImages.ZeroTailSegments` | kernel_os/src/elf.cpp:86-120 | that executable passes the header checks and its entry point and its program header are read as laid out |
| `ProgramImages.ZeroTailLoads` | kernel_os/src/elf.cpp:122-162 | it passes the checks on segments and twelve free frames are enough to load it; its first byte is that of the file, and all the others read as zero |
| `KernelRuns.Client.Step` | kernel_os/src/vmm.cpp:29-144 | any request of a client, a store to a held frame included, takes exactly the step of the model: look-ups, tables, free frames, data frames and what the client holds |
| `KernelRuns.Client.Run` | kernel_os/src/vmm.cpp:29-144 | every run of requests is a run of the model step by step; tables stay tables, are never free and never client data, and every space that saw the boot map still maps the first GiB to itself, supervisor-only |
| `ClientModel.OtherPage` | kernel_os/src/vmm.cpp:66-113 | outside PML4 slot 0 a request changes no page but the one that a map or unmap names |
| `ClientModel.PageStays` | kernel_os/src/vmm.cpp:66-113 | over every run a page outside slot 0 translates as before while no request maps or unmaps it |
| `ClientModel.LastMapWins` | kernel_os/src/vmm.cpp:66-81 | after every run a page outside slot 0 translates as its last map says, if that map found the frames it needed |
| `ClientModel.LastUnmapWins` | kernel_os/src/vmm.cpp:83-113 | after every run a page outside slot 0 that was last unmapped is not mapped |
| `ClientModel.LastStoreWins` | kernel_os/src/pmm.cpp:65-119 | after every run a word of a frame that was held throughout holds what was last stored there |
| `ClientModel.CarefulRun` | kernel_os/src/vmm.cpp:66-113 | in every run that gives user code only held frames, and gives back no frame that user code has, every user leaf leads to a data frame |
| `ClientModel.GivenBackTooEarly` | kernel_os/src/pmm.cpp:111-119 | a frame given back while user code still has it is free and in the reach of user code |
| `KernelBoot.BootMemory` | kernel_os/src/kernel_main.cpp:91-102 | after setup_page_tables, pmm_init and the reservation of the image all invariants hold, exactly frames 1 to 255 and 768 to 32767 are free, and the files of the image are out of reach |
| `KernelBoot.Boot` | kernel_os/src/kernel_main.cpp:91-104 | the initial states of the client, thread and joint runs are reached from zeroed tables, with nothing in the reach of user code |
| `HeapBlocks.LiveApart` | kernel_os/src/heap.cpp:28-42 | live payloads are 8-aligned, inside the heap and pairwise disjoint |
| `HeapBlocks.FirstFit` | kernel_os/src/heap.cpp:75-81 | the first free block that is large enough, and none when none is |
| `HeapBlocks.AllocatedKeepsOk` | kernel_os/src/heap.cpp:28-42 | an allocation keeps the blocks tiling the heap and coalesced, and makes exactly one new block live |
| `HeapBlocks.FailsOnlyWhenFull` | kernel_os/src/heap.cpp:74-83 | no block fits exactly when no stretch of the heap avoids every live block and can hold header and request |
| `HeapBlocks.LowestFit` | kernel_os/src/heap.cpp:75-81 | first fit finds the lowest stretch that avoids every live block and can hold header and request |
| `HeapBlocks.MallocMeaning` | kernel_os/src/heap.cpp:65-84 | kmalloc fails, and changes nothing, exactly for sizes 0 and above the area and when no stretch beside the live blocks is long enough; otherwise exactly one block becomes live, at the lowest such stretch, as large as the aligned request or larger by less than a block up to the next live block or the end, and the answer is its payload |
| `HeapBlocks.CoalesceKeeps` | kernel_os/src/heap.cpp:44-54 | merging keeps the tiling and the live blocks and leaves no two free neighbours |
| `HeapBlocks.FreedKeepsOk` | kernel_os/src/heap.cpp:86-100 | a release keeps tiling and coalescing, ends the life of exactly the named block, and ignores any other pointer |
| `HeapBlocks.FreeTwice` | kernel_os/src/heap.cpp:86-100 | repeating a kfree changes nothing |
| `HeapBlocks.LiveDeterminesHeap` | kernel_os/src/heap.cpp:44-54 | what is live determines the whole block list |
| `HeapBlocks.FullReclamation` | kernel_os/src/heap.cpp:57-63 | with nothing live the single initial block is back |
| `HeapBlocks.EveryHistoryOk` | kernel_os/src/heap.cpp:57-100 | tiling and maximal coalescing hold after every history of kmalloc and kfree |
| `HeapBlocks.HistoriesAgree` | kernel_os/src/heap.cpp:57-100 | histories that leave the same blocks live leave the same heap; freeing everything in any order restores the initial one |
| `Heap.SplitHeaders` | kernel_os/src/heap.cpp:28-42 | the stores of split_block leave headers that spell the split list |
| `Heap.MergeHeaders` | kernel_os/src/heap.cpp:47-49 | the two stores of a merge leave headers that spell the merged list |
| `Heap.KernelHeap.HeapInit` | kernel_os/src/heap.cpp:57-63 | the area holds the header of one free block that covers it |
| `Heap.KernelHeap.SplitBlock` | kernel_os/src/heap.cpp:28-42 | splits exactly when the rest can hold a header and 8 bytes; no live payload changes |
| `Heap.KernelHeap.CoalesceFreeBlocks` | kernel_os/src/heap.cpp:44-54 | the list becomes the merged list; no live payload changes |
| `Heap.KernelHeap.Kmalloc` | kernel_os/src/heap.cpp:65-84 | a non-null pointer is the payload of a block that was not live and is now, the only such one, large enough and at the lowest address that fits; null leaves the live blocks as they are and is returned exactly for sizes 0 and above the area and when no stretch avoids the live blocks; the pointer is a multiple of 8 and no byte of a live payload changes |
| `Heap.KernelHeap.Kfree` | kernel_os/src/heap.cpp:86-100 | exactly the live block with this payload address is no longer live, and with no such block nothing changes; no byte of a payload that stays live changes |
| `Heap.OneMoreAnswer` | kernel_os/src/heap.cpp:65-100 | what each call does to the account of who holds which block |
| `Heap.KernelHeap.Store` | kernel_os/src/heap.cpp:7-15 | a client that writes a word of its payload changes no header |
| `Heap.KernelHeap.Run` | kernel_os/src/heap.cpp:65-100 | over every sequence of kmalloc, kfree and stores of clients into their payloads the headers tile the area as the history says, a payload word that stays live throughout holds what was last stored there, and the pointers handed out and not given back are payloads of distinct live blocks of at least the sizes asked for, which are the only new live blocks |
| `StackMachine.PushAllMeaning` | kernel_os/src/isr_stubs.S:124-138 | after a run of pushes the registers lie on the stack in order and no other word has changed |
| `StackMachine.PopAllMeaning` | kernel_os/src/isr_stubs.S:143-158 | after a run of pops each register holds its word |
| `ContextSwitch.SaveKeeps` | kernel_os/src/context_switch.S:35-44 | the six pushes leave the CpuContext of the outgoing computation and change only six words |
| `ContextSwitch.LoadResumes` | kernel_os/src/context_switch.S:49-67 | the pops and ret continue a saved computation: callee-saved registers, return address and stack as when it stopped |
| `ContextSwitch.ForgedIsKept` | kernel_os/src/task.cpp:55-64 | the forged CpuContext has the layout the pops expect |
| `ContextSwitch.FirstResume` | kernel_os/src/task.cpp:48-64 | the first switch to a thread starts entry_point on an empty stack with clear callee-saved registers |
| `Interrupts.StubWords` | kernel_os/src/isr_stubs.S:113-142 | what the stub leaves is struct InterruptFrame with the return address beneath, and rdi points at it |
| `Interrupts.InterruptIsTransparent` | kernel_os/src/isr_stubs.S:124-161 | a handler that obeys the calling convention leaves all fifteen registers, rip, cs, rflags, rsp, ss and the thread's stack as they were |
| `Processor.Cpu.SwitchContext` | kernel_os/src/context_switch.S:29-67 | the instruction sequence does exactly the save and the load, and stores rsp into a non-null outgoing task |
| `Processor.Cpu.TakeInterrupt` | kernel_os/include/idt.h:25-29 | the CPU aligns the stack and pushes ss, rsp, rflags, cs and rip |
| `Processor.Cpu.EnterHandler` | kernel_os/src/isr_stubs.S:113-142 | the first half of the IRQ stub as specified |
| `Processor.Cpu.LeaveInterrupt` | kernel_os/src/isr_stubs.S:143-161 | the second half of the IRQ stub as specified |
| `Tasks.FirstUnused` | kernel_os/src/task.cpp:15-23 | the lowest slot not used before |
| `Tasks.TaskTable.AllocateTaskSlot` | kernel_os/src/task.cpp:15-23 | takes the lowest unused slot, null when all 64 are used |
| `Tasks.TaskTable.CreateKernelThread` | kernel_os/src/task.cpp:35-77 | null exactly when no slot or no run of four frames is free (the slot stays taken in the second case); otherwise a READY task with the next pid, the lowest run of four frames as its stack and a forged context on it; stacks stay apart from each other, the free frames and the bitmap |
| `Tasks.AnotherStack` | kernel_os/src/task.cpp:43-47 | a stack taken from the free frames is disjoint from every other stack and from the bitmap |
| `Suspension.SwitchResumes` | kernel_os/src/context_switch.S:29-67 | a switch continues the incoming task where it stopped and disturbs no suspended task |
| `Suspension.SwitchTouches` | kernel_os/src/context_switch.S:29-67 | context_switch changes the six words below the stack pointer it is called with, to the callee-saved registers, and no other word; registers, rip and stack pointer come from the loaded CpuContext |
| `Suspension.SuspendedTwice` | kernel_os/src/scheduler.cpp:99-108 | a switch away from a task that is suspended already ends faithfulness: what it was to go on with is lost |
| `Suspension.Handover` | kernel_os/src/scheduler.cpp:84-108 | a switch parks the outgoing task, continues the incoming one, and keeps the history faithful |
| `Suspension.FirstHandover` | kernel_os/src/scheduler.cpp:39-56 | the same for the first switch, away from the boot code |
| `Suspension.NotResumed` | kernel_os/src/scheduler.cpp:69-79 | if the CPU is not switched the task does not go on where it stopped: the history stops being faithful |
| `Suspension.CreateParks` | kernel_os/src/task.cpp:43-70 | a created thread counts as suspended in its forged state, and nobody else is disturbed |
| `Suspension.FaithfulMeans` | kernel_os/src/scheduler.cpp:107-112 | in a faithful history every resumption continues the last suspension of the same task |
| `Suspension.PreemptionIsTransparent` | kernel_os/src/interrupts.cpp:50-55 | a thread interrupted by the timer goes on, after any turns of other tasks, with all registers, rip, cs, rflags, rsp, ss and stack as at the interrupt, if the code in between keeps the calling convention |
| `RoundRobin.BoundedWaiting` | kernel_os/src/scheduler.cpp:68-113 | the task at queue position k becomes current at exactly the (k+1)-th tick, whatever is admitted and whoever leaves |
| `RoundRobin.TurnsBy` | kernel_os/src/scheduler.cpp:84-99 | with nobody coming or leaving, j ticks turn the circle of tasks by j places |
| `RoundRobin.FullCircle` | kernel_os/src/scheduler.cpp:84-99 | with n tasks waiting, n + 1 ticks restore current task and queue |
| `Scheduler.TaskScheduler.constructor` | kernel_os/src/scheduler.cpp:17-22 | an empty scheduler that knows the kernel's address space |
| `Scheduler.TaskScheduler.Append` | kernel_os/src/scheduler.cpp:24-37 | the linked list gains the task at its end, READY |
| `Scheduler.TaskScheduler.TakeHead` | kernel_os/src/scheduler.cpp:94-96 | the linked list loses its head |
| `Scheduler.TaskScheduler.AddTask` | kernel_os/src/scheduler.cpp:24-37 | null is ignored; a task that neither waits nor runs goes to the end of the queue; the list is in order afterwards exactly for such a task: a queued one cuts the list behind itself, the last one is linked to itself, and the current one waits although it runs |
| `Scheduler.TaskScheduler.Start` | kernel_os/src/scheduler.cpp:39-56 | when no tick comes in between: returns at once if someone is current or nobody waits; otherwise one round-robin step, TSS stack and own address space of the new task, and exactly the CPU and memory that context_switch makes of the present ones with the saved stack pointer of the task |
| `Scheduler.TaskScheduler.TickFirst` | kernel_os/src/scheduler.cpp:69-79 | the first dispatch by a tick: the task counts as running, its TSS stack is stored, and nothing else of the CPU or memory changes |
| `Scheduler.TaskScheduler.TickSwitch` | kernel_os/src/scheduler.cpp:84-108 | rotates the queue, stores TSS stack and address space of the next task and the saved stack pointer of the old one, changes no other saved stack pointer, and leaves exactly the CPU and memory that context_switch makes of the present ones |
| `Scheduler.TaskScheduler.Tick` | kernel_os/src/scheduler.cpp:68-113 | refines the round-robin step at any place of a call that it interrupts; CPU, memory, CR3, TSS stack and saved stack pointers exactly: untouched unless a task is current and another waits, otherwise those of context_switch; a call in progress is torn if and only if somebody waited |
| `Scheduler.TaskScheduler.EnterStart` | kernel_os/src/scheduler.cpp:39-42 | scheduler_start gets past its tests if and only if nobody is current and somebody waits |
| `Scheduler.TaskScheduler.EnterYield` | kernel_os/src/scheduler.cpp:81-87 | task_yield gets past its test if and only if somebody waits, and marks its caller READY if it was RUNNING |
| `Scheduler.TaskScheduler.Advance` | kernel_os/src/scheduler.cpp:44-54 | each further statement of scheduler_start and task_yield takes the step of the model, with the list in the shape of its place, TSS stack and address space as stored there; ready_head is never read through when it is null |
| `Scheduler.TaskScheduler.SwitchStacks` | kernel_os/src/scheduler.cpp:55-108 | the final switch leaves exactly the CPU and memory that context_switch makes of the present ones, saves the stack pointer of the caller if there is one, and ends the call |
| `Dispatch.NextSeen` | kernel_os/src/scheduler.cpp:44-54 | seen without the call in progress, the order of tasks changes at one statement of it only, the store to current_task, and there by exactly one round-robin step |
| `Dispatch.WholeCallTicks` | kernel_os/src/scheduler.cpp:39-113 | left alone, scheduler_start and task_yield each do to the order of tasks what one tick does |
| `Dispatch.StaleCallLosesCaller` | kernel_os/src/scheduler.cpp:93-99 | a yield that was caught after it had queued its caller, and that goes on when the caller is current again, ends with the caller neither current nor queued |
| `Scheduler.TaskScheduler.Yield` | kernel_os/src/scheduler.cpp:62-113 | when no tick comes in between, everything a tick does, to the queue, the CPU, memory, CR3, TSS stack and saved stack pointers |
| `Scheduler.TaskScheduler.CreateThread` | kernel_os/src/task.cpp:35-77 | a created thread waits to be admitted with its forged context on a stack of its own; queue, current task, and the saved stack pointers and address spaces of all other tasks are as before, and memory changes only in the bitmap and the new stack |
| `ThreadRuns.Threads.Execute` | kernel_os/src/scheduler.cpp:107-112 | whatever the running code does within the rules, stacks, queue, saved stack pointers and allocator stay as they were |
| `ThreadRuns.Threads.RulesAgree` | kernel_os/src/scheduler.cpp:107-112 | what the running code may do is, on values: no write to the bitmap or to another thread's stack, and a stack pointer on its own stack |
| `ThreadModel.CreatesThatTask` | kernel_os/src/task.cpp:35-77 | which task is created, if any, is determined by the used slots and the free frames |
| `ThreadSteps.SwitchHomed` | kernel_os/src/scheduler.cpp:84-108 | a switch from the running task to another keeps the history faithful, every stopped computation in memory at its saved stack pointer, and goes on with the other one on its own stack |
| `ThreadSteps.FirstHomed` | kernel_os/src/scheduler.cpp:39-56 | the same for the first switch, away from the boot code |
| `ThreadSteps.FirstTickBreaks` | kernel_os/src/scheduler.cpp:69-79 | a tick that only marks a first task as current ends faithfulness |
| `ThreadSteps.TornOrder` | kernel_os/src/scheduler.cpp:84-99 | a tick between the statements of a call loses a task exactly when the caller is marked READY but not yet queued, or the next task is unlinked but not yet current |
| `ThreadSteps.StepKeepsOrder` | kernel_os/src/scheduler.cpp:24-113 | every step that tears no call keeps the order: tasks each in one place, stacks and saved stack pointers sound, and, in a faithful history, every stopped task kept on its own stack while CPU, CR3 and TSS belong to the running code; the history stays faithful if and only if no tick finds somebody waiting while the CPU does not run the current task |
| `ThreadHistory.RunKeepsOrder` | kernel_os/src/scheduler.cpp:24-113 | over every run up to the first tick that tears a call the order is kept; the history only grows, and is faithful at the end if and only if no tick found somebody waiting while the CPU did not run the current task |
| `ThreadHistory.BootWindow` | kernel_os/src/kernel_main.cpp:124-125 | while the boot code runs, up to the switch of stacks in scheduler_start, the history stays faithful if and only if no tick finds somebody waiting |
| `ThreadHistory.RunIsHistory` | kernel_os/src/scheduler.cpp:24-113 | the order of tasks after a run is the one that its happenings give: ticks outside calls, dispatches by calls, admissions and departures |
| `ThreadHistory.RunIsFair` | kernel_os/src/scheduler.cpp:84-99 | whoever waits at position k moves up one place per turn and is current after exactly k + 1 turns, a turn being a tick outside calls or the dispatch of a call |
| `ThreadHistory.TornTick` | kernel_os/src/scheduler.cpp:39-113 | what a tick between the statements of a call destroys, place by place: the history stays faithful only in a yield whose caller is still current, and every task keeps a place only before the next task is unlinked and once the caller is queued, or after the next task is current |
| `ThreadHistory.FirstContextLost` | kernel_os/src/scheduler.cpp:50-55 | a tick for a second task after scheduler_start has named the first and before its stack is loaded saves the boot stack pointer as the first task's, off its stack, and the history is no longer faithful |
| `ThreadHistory.LostStart` | kernel_os/src/scheduler.cpp:39-55 | the concrete run: two tasks wait, scheduler_start names the first, the timer ticks; the first task's forged context is lost |
| `ThreadHistory.LostYield` | kernel_os/src/scheduler.cpp:86-91 | the concrete run: a task yields and is marked READY, the timer ticks; it is neither current nor queued any more |
| `ThreadRuns.Threads.Step` | kernel_os/src/scheduler.cpp:24-113 | each operation, and each statement of scheduler_start and task_yield, takes exactly the step of the model: CPU, memory, CR3, TSS stack, queue, place of the call, idle tasks, stacks, saved stack pointers, slots, free frames and history; all is in order afterwards unless a tick tore a call |
| `ThreadRuns.Threads.Run` | kernel_os/src/scheduler.cpp:24-113 | every run of the code is a run of the model step by step, up to the first tick that tears a call; the history only grows and is faithful if and only if no tick found somebody waiting while the CPU did not run the current task; without a torn call the ready list is intact, in a faithful history every stopped task is kept and the CPU belongs to the running code, and whoever waited at position k is current after exactly k + 1 turns |
| `ThreadRuns.Threads.LoseFirst` | kernel_os/src/scheduler.cpp:39-55 | from every state in which nobody is current and two tasks wait, the code's own statements of scheduler_start and one tick lose the first task's context |
| `ThreadRuns.Threads.LoseYielding` | kernel_os/src/scheduler.cpp:86-91 | from every state in which a running task yields and another waits, the code's own statements and one tick leave the task neither current nor queued |
| `KernelSystem.OthersKeepOrder` | kernel_os/src/scheduler.cpp:107-112 | the order of the threads survives whatever the rest of the kernel does to frames that are no stacks |
| `KernelSystem.RunKeepsFaith` | kernel_os/src/kernel_main.cpp:104-125 | the history of switches stays faithful through all requests to the memory manager, if and only if no tick comes too early |
| `KernelSystem.PageStays` | kernel_os/src/kernel_main.cpp:104-125 | a page outside slot 0 translates as before while no request maps or unmaps it, whatever threads do |
| `KernelSystem.Kernel.MemoryStep` | kernel_os/src/kernel_main.cpp:111-119 | a request to the memory manager keeps the order of the threads, and stacks apart from tables, held frames, free frames and the bitmap |
| `KernelSystem.Kernel.ThreadStep` | kernel_os/src/kernel_main.cpp:111-119 | a step of the threads, or of code that writes only its own stack, held frames and the kernel's variables, changes no look-up of any space and keeps both invariants unless it tears a call |
| `KernelSystem.Kernel.Run` | kernel_os/src/kernel_main.cpp:104-125 | every run that mixes requests, threads and ticks is a run of the joint model; unless a tick tears a call, both invariants hold at its end and stacks, tables, held frames, free frames, bitmap and image are apart |
| `Keyboard.TranslateMeaning` | kernel_os/src/keyboard.cpp:55-83 | a letter is upper case exactly when one of shift and caps lock is on; caps lock does not matter to other keys |
| `Keyboard.HeldMeaning` | kernel_os/src/keyboard.cpp:116-122 | a shift key counts as pressed exactly when some byte pressed it and no later one released it |
| `Keyboard.PressesMeaning` | kernel_os/src/keyboard.cpp:123-124 | caps lock is toggled once for every press byte received |
| `Keyboard.TypedMeaning` | kernel_os/src/keyboard.cpp:111-132 | releases and bytes after 0xE0 type nothing; the A key types A exactly when one of shift and caps lock is on, the 1 key looks at shift alone |
| `Keyboard.RingAfterPush` | kernel_os/src/keyboard.cpp:44-53 | the ring is full at 63 characters; otherwise a push appends one |
| `Keyboard.RingAfterPop` | kernel_os/src/keyboard.cpp:139-148 | the ring is empty exactly when head equals tail; advancing the tail drops the oldest character |
| `Keyboard.ReceiveLawful` | kernel_os/src/keyboard.cpp:106-133 | a byte keeps the laws of the pipeline: everything typed arrived, what found room is delivered or waits in order, at most 63 wait |
| `Keyboard.AdvanceLawful` | kernel_os/src/keyboard.cpp:139-148 | so does each step of a read |
| `Keyboard.AlwaysLawful` | kernel_os/src/keyboard.cpp:100-148 | the laws hold after every stream of bytes and every placement of interrupts between the steps of a read |
| `Keyboard.CallUnderWay` | kernel_os/src/keyboard.cpp:139-148 | a read that begins while something is pending has, after each of its steps and whatever arrives in between, come exactly so far, and after the fourth it has returned the oldest character and removed it alone |
| `Keyboard.CallAnswers` | kernel_os/src/keyboard.cpp:139-148 | a whole read, with any interrupts between its steps, returns the character that was the oldest when it looked, or zero when nothing was pending then |
| `Keyboard.EmptyAnswer` | kernel_os/src/keyboard.cpp:139-142 | in every run a zero answers only a read that found nothing pending when it looked |
| `Keyboard.Driver.PushChar` | kernel_os/src/keyboard.cpp:44-53 | appends the character, or drops it exactly when 63 are pending |
| `Keyboard.Driver.HandleByte` | kernel_os/src/keyboard.cpp:106-133 | the flags say what the bytes so far say; what the byte stands for is appended to the ring, or dropped when 63 are pending |
| `Keyboard.Driver.HandleIrq` | kernel_os/src/keyboard.cpp:100-133 | with status bit 0 set and bit 5 clear the byte is received, and what it types is appended or, at 63 pending characters, dropped; with any other status nothing changes |
| `Keyboard.Driver.CharAvailable` | kernel_os/src/keyboard.cpp:135-137 | true exactly when something is pending |
| `Keyboard.Driver.ReadStep` | kernel_os/src/keyboard.cpp:139-148 | takes exactly the step of the pipeline and returns what the pipeline answers; what a whole call answers is said by CallAnswers |
| `Keyboard.Driver.ReadChar` | kernel_os/src/keyboard.cpp:139-148 | without interrupts in between, returns the oldest pending character and removes it, or zero when nothing is pending |
| `Keyboard.Driver.Run` | kernel_os/src/keyboard.cpp:100-148 | every run of the driver is a run of the pipeline: the ring, all arrivals and all results of the reads are determined by the steps; results plus pending characters are exactly the arrivals that found room, in order |
| `Console.VisibleWindow` | kernel_os/src/console.cpp:78-82 | a visible character changes one cell of the window |
| `Console.PutTypewriter` | kernel_os/src/console.cpp:63-90 | the transcript, looked at through its last 25 rows, changes with every character as a screen with scrolling does |
| `Console.Screen.constructor` | kernel_os/src/console.cpp:51-61 | every cell is blank, the cursor is in the corner and nothing has been sent |
| `Console.Screen.ScrollIfNeeded` | kernel_os/src/console.cpp:15-32 | the window follows the transcript by one row exactly when the cursor left the grid |
| `Console.Screen.PutChar` | kernel_os/src/console.cpp:63-90 | on cells, cursor and serial bytes alone: a line feed starts a blank row, after scrolling if need be, and sends CR LF; a carriage return only goes to column 0; a backspace only blanks the cell on the left, if there is one; any other character is written at the cursor, which steps on or starts a new row; and the screen is the window of the last 25 rows of the transcript |
| `Console.Screen.CursorInside` | kernel_os/src/console.cpp:63-90 | the cursor is always inside the grid |
| `Console.SerialCopySent` | kernel_os/src/console.cpp:63-90 | the serial port receives the whole text in order: for each character there is a place in the copy, a line feed gives 0x0D and 0x0A there, a carriage return nothing, every other character itself, and there are no other bytes |
| `Console.Screen.Write` | kernel_os/src/console.cpp:92-96 | the transcript receives a whole string, and the serial port its copy, position by position |
| `Console.DigitsMeaning` | kernel_os/src/console.cpp:34-48 | the digits stand for the number, are below the base, and do not start with a superfluous zero |
| `Console.DigitCount` | kernel_os/src/console.cpp:35-43 | the digits fit a buffer of n entries exactly when the number is below base^n |
| `Console.CallersFit` | kernel_os/src/console.cpp:124-135 | every 32-bit value fits the 16 entries, in base 10 and 16 |
| `Console.UnsignedRoundTrip` | kernel_os/src/console.cpp:34-48 | printed numbers read back, without a superfluous leading zero |
| `Console.SignedRoundTrip` | kernel_os/src/console.cpp:124-133 | the same for signed numbers, including the most negative one: a minus sign exactly for negative numbers and no superfluous zero after it |
| `Console.Numeral` | kernel_os/src/console.cpp:34-48 | a printed number consists of the characters 0 to 9 and a to f below its base and reads back in that base |
| `Console.PlainStart` | kernel_os/src/console.cpp:109-113 | characters before the first % are printed as they are |
| `Console.PlainFormat` | kernel_os/src/console.cpp:109-113 | a format without % is printed as it is |
| `Console.ArgumentMeaning` | kernel_os/src/console.cpp:116-135 | %c prints the character, %s the string or (null), %d a text that reads back as the signed value, %u as the value in base 10, %x in base 16 |
| `Console.DirectiveFormat` | kernel_os/src/console.cpp:109-140 | a directive anywhere in a format is replaced by the text of the next argument, %% by %, an unknown directive by itself, and the rest is printed as it would be alone |
| `Console.Screen.WriteUnsigned` | kernel_os/src/console.cpp:34-48 | prints exactly the digits, most significant first, without exceeding the buffer |
| `Console.Screen.PrintUnsigned` | kernel_os/src/console.cpp:134-135 | %u and %x for every 32-bit value |
| `Console.Screen.PrintSigned` | kernel_os/src/console.cpp:124-133 | %d for every 32-bit value |
| `Console.Screen.PrintArgument` | kernel_os/src/console.cpp:116-135 | one directive prints the text of its argument |
| `Console.Screen.Printk` | kernel_os/src/console.cpp:105-144 | prints what the format means, for every format that does not end in a lone %, and the format itself when it has no % |

## Left out

- ElfLoader.Load: takes the file that `ramfs_open` found (or none) instead of a name, and an image pointer that is not null; `ramfs.cpp` itself is not part of this model.
- Vmm.AddressSpaces.Translate: the code returns 0 both for "not mapped" and for physical address 0; the contract keeps that, and statements about mappings use the look-up instead.
- Vmm.AddressSpaces.UnmapPage: invlpg, TLBs and caches have no effect in the model, and loading CR3 is an assignment to a register field.
- Tasks.TaskTable.CreateKernelThread: the name of a thread is not modelled.
- Interrupts.InterruptIsTransparent: covers interrupts of kernel code, which stay on the same stack; entry from user mode and `enter_user_mode` are not part of this model.
- Console.Screen.PutChar: the serial port is a list of bytes; waiting for its transmitter and `console_put_at` are not modelled.
- Console.Screen.Printk: arguments of a type the directive does not read, and a format that ends in a lone `%`, are excluded; the code reads past its input there.
- Vmm.AddressSpaces.FreeFrame: is the release by a client that owns the page; what `pmm_free_page` does with any other address is stated by `Pmm.FrameAllocator.FreePage`.
- ThreadRuns.Threads.Run: follows a run up to the first tick that tears a call; what the code does with a list that has lost a task is not described beyond `ThreadHistory.TornTick`.
- Keyboard.Driver.HandleIrq: takes the status and data bytes as inputs; the PS/2 set-up in `keyboard_init` is not modelled.
- `HeapBlocks` and `Heap` treat the free flag as the low byte of its word; the padding bytes of the header are kept as they are.
- Saved stack pointers are multiples of 8 in the model, as in every run of the code; `Cpu.sp` is the stack pointer divided by 8.
- Serial port, PIC, PIT, GDT and IDT descriptor packing, the boot mode transition, system calls, exception display and the demo threads: hardware effects or thin dispatch.
- Memory ordering and compiler barriers.
