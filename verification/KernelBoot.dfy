/** From power-up to the states in which the runs begin: the boot tables, pmm_init,
    the reservation of the kernel image, and the first objects of every subsystem
    (kernel_os/src/boot.S, kernel_os/src/kernel_main.cpp). */
module KernelBoot {
  import opened Wrappers
  import opened PageEntry
  import opened Ram
  import opened Pmm
  import opened PageTables
  import opened BootPaging
  import opened Vmm
  import opened Elf
  import opened KernelRuns
  import opened StackMachine
  import opened Tasks
  import opened Processor
  import opened Scheduler
  import opened Dispatch
  import opened ThreadModel
  import opened ThreadRuns
  import opened KernelSystem

  const ASSUMED_RAM_PAGES: nat := 32768
  const BITMAP_ADDR: nat := 0x20_0000
  const IMAGE: nat := 0x10_0000
  const IMAGE_SIZE: nat := 0x20_0000

  /** The linker places the boot tables and the files of the RAM file system in the
      kernel image, below the bitmap and apart from each other. */
  ghost predicate Linked(words: nat, b: Boot, files: seq<File>)
  {
    && WORDS_PER_FRAME * ASSUMED_RAM_PAGES <= words <= WORDS_PER_FRAME * MAX_FRAMES
    && BootFrames(words, b) && 256 <= b.root < 512 && 256 <= b.pdpt < 512 && 256 <= b.pd < 512
    && forall i :: 0 <= i < |files| ==> InImage(files[i], b)
  }

  ghost predicate InImage(file: File, b: Boot)
  {
    && IMAGE <= file.data && file.data + file.size <= BITMAP_ADDR
    && {b.root, b.pdpt, b.pd} !! FramesTouching(file.data, file.data + file.size)
  }

  /** What is free once the image is reserved: everything but frame 0 and the image,
      which holds the bitmap too. */
  ghost function FreeAtStart(): set<nat>
  {
    Range(1, 256) + Range(768, ASSUMED_RAM_PAGES)
  }

  lemma BitmapAtStart()
    ensures FramesTouching(BITMAP_ADDR, BITMAP_ADDR + BitmapBytes(ASSUMED_RAM_PAGES)) == {512}
  {
  }

  lemma ReservedAtStart()
    ensures Range(0, ASSUMED_RAM_PAGES) - {0} - {512} - FramesMeeting(IMAGE, IMAGE_SIZE, ASSUMED_RAM_PAGES)
         == FreeAtStart()
  {
    hide Meets, Range;
    forall f: int
      ensures f in Range(0, ASSUMED_RAM_PAGES) - {0} - {512} - FramesMeeting(IMAGE, IMAGE_SIZE, ASSUMED_RAM_PAGES)
         <==> f in FreeAtStart()
    {
      if 0 <= f { MeetsMeaning(f, IMAGE, IMAGE_SIZE); }
    }
  }

  /** pmm_init and the reservation after it. */
  method BootAllocator(ram: array<Word>, ghost b: Boot) returns (pmm: FrameAllocator)
    requires WORDS_PER_FRAME * ASSUMED_RAM_PAGES <= ram.Length <= WORDS_PER_FRAME * MAX_FRAMES
    requires BootBuilt(ram[..], b) && 256 <= b.root < 512 && 256 <= b.pdpt < 512 && 256 <= b.pd < 512
    modifies ram
    ensures pmm.Sealed() && pmm.ram == ram && fresh(pmm) && BootBuilt(ram[..], b)
    ensures pmm.Free() == FreeAtStart() && pmm.BitmapFrames() == {512}
  {
    hide FreeSet, FramesMeeting, FramesTouching, Range, BootBuilt, Meets, FreeAtStart;
    ghost var m := ram[..];
    BitmapAtStart();
    ReservedAtStart();
    pmm := new FrameAllocator(ram, BITMAP_ADDR, ASSUMED_RAM_PAGES);
    ghost var m' := ram[..];
    pmm.MarkReserved(IMAGE, IMAGE_SIZE);
    SameBytesTransitive(m, m', ram[..], BITMAP_ADDR, BITMAP_ADDR + BitmapBytes(ASSUMED_RAM_PAGES));
    BuiltKept(m, ram[..], b);
  }

  lemma StartApart(b: Boot)
    requires 256 <= b.root < 512 && 256 <= b.pdpt < 512 && 256 <= b.pd < 512
    ensures Separate(FreeAtStart(), {512}, BootLevels(b).Keys, {})
  {
    hide Range;
    assert BootLevels(b).Keys == {b.root, b.pdpt, b.pd};
  }

  /** setup_page_tables, pmm_init and pmm_mark_reserved. */
  method BootMemory(ram: array<Word>, b: Boot, ghost files: seq<File>) returns (k: AddressSpaces)
    requires Linked(ram.Length, b, files)
    requires EmptyTable(ram[..], b.root) && EmptyTable(ram[..], b.pdpt) && EmptyTable(ram[..], b.pd)
    modifies ram
    ensures k.Valid() && k.boot == b && k.pmm.ram == ram && fresh(k) && fresh(k.pmm)
    ensures k.pmm.Free() == FreeAtStart() && k.pmm.BitmapFrames() == {512} && k.data == {} && k.tables == BootLevels(b)
    ensures SeesBoot(k.Mem(), k.tables, b, b.root) && UserClosed(k.Mem(), b.root)
    ensures UserOwned(k.Mem(), k.tables, k.data)
    ensures FilesApart(files, |k.Mem()|, k.pmm.Free() + k.data, k.pmm.BitmapFrames(), k.tables.Keys)
  {
    hide FreeSet, FramesMeeting, FramesTouching, Range, BootBuilt, Meets, FreeAtStart, TablesValid, FilesApart;
    SetupPageTables(ram, b);
    var pmm := BootAllocator(ram, b);
    StartApart(b);
    k := new AddressSpaces(pmm, b);
    FilesAtStart(files, ram.Length, b);
  }

  /** The allocator's writes are confined to its bitmap. */
  lemma BuiltKept(m: Memory, m': Memory, b: Boot)
    requires BootBuilt(m, b) && 256 <= b.root < 512 && 256 <= b.pdpt < 512 && 256 <= b.pd < 512
    requires SameBytesOutside(m, m', BITMAP_ADDR, BITMAP_ADDR + BitmapBytes(ASSUMED_RAM_PAGES))
    ensures BootBuilt(m', b)
  {
    hide BootLeaf, Range;
    BitmapAtStart();
    OutsideFrames(m, m', BITMAP_ADDR, BITMAP_ADDR + BitmapBytes(ASSUMED_RAM_PAGES));
    EntriesOutside(m, m', {512}, b.root);
    EntriesOutside(m, m', {512}, b.pdpt);
    EntriesOutside(m, m', {512}, b.pd);
  }

  lemma FilesAtStart(files: seq<File>, words: nat, b: Boot)
    requires Linked(words, b, files)
    ensures FilesApart(files, words, FreeAtStart(), {512}, BootLevels(b).Keys)
  {
    hide Range;
    forall i | 0 <= i < |files|
      ensures FileApart(files[i], words, FreeAtStart(), {512}, BootLevels(b).Keys)
    {
      assert InImage(files[i], b);
      assert BootLevels(b).Keys == {b.root, b.pdpt, b.pd};
    }
  }

  /** Frames of the kernel image but for the bitmap and the boot tables. */
  predicate InKernelImage(image: set<nat>, b: Boot)
  {
    forall f :: f in image ==> 256 <= f < 768 && f != 512 && f != b.root && f != b.pdpt && f != b.pd
  }

  lemma ImageAtStart(image: set<nat>, b: Boot)
    requires InKernelImage(image, b)
    ensures ImageApart(image, FreeAtStart(), {512}, BootLevels(b).Keys, {})
  {
    hide Range;
    assert BootLevels(b).Keys == {b.root, b.pdpt, b.pd};
  }

  /** The first objects of both subsystems.  The registers are those of the boot code, on
      the boot tables. */
  method BootObjects(ram: array<Word>, b: Boot, files: seq<File>, s: Machine)
    returns (k: AddressSpaces, client: Client, threads: Threads)
    requires Linked(ram.Length, b, files)
    requires EmptyTable(ram[..], b.root) && EmptyTable(ram[..], b.pdpt) && EmptyTable(ram[..], b.pd)
    modifies ram
    ensures k.pmm.ram == ram && k.pmm.Placed() && k.pmm.Free() == FreeAtStart() && UserClosed(k.Mem(), b.root)
    ensures k.pmm.BitmapFrames() == {512} && k.tables == BootLevels(b) && k.data == {}
    ensures UserOwned(k.Mem(), k.tables, k.data)
    ensures client.Valid() && client.k == k && client.spaces == [] && client.frames == []
    ensures threads.Valid() && threads.s.table.pmm == k.pmm && threads.idle == [] && !threads.early
    ensures threads.s.current == null && threads.s.queue == [] && threads.s.call == NoCall && threads.trace == []
    ensures threads.s.cpu.State() == s.(mem := ram[..]) && threads.s.cpu.cr3 == PAGE_SIZE * b.root
    ensures threads.s.table.stacks == map[]
  {
    hide FreeSet, FreeAtStart, TablesValid, FilesApart, Separate, UserClosed, UserOwned, Threads.Valid, SeesBoot;
    k := BootMemory(ram, b, files);
    client := new Client(k, PAGE_SIZE * b.root, files);
    threads := BootThreads(k.pmm, s, PAGE_SIZE * b.root);
  }

  /** The first objects of the threading subsystem. */
  method BootThreads(pmm: FrameAllocator, s: Machine, cr3: Word) returns (threads: Threads)
    requires pmm.Sealed()
    ensures fresh(threads) && threads.Valid() && threads.s.table.pmm == pmm && threads.idle == [] && !threads.early
    ensures threads.s.current == null && threads.s.queue == [] && threads.s.call == NoCall && threads.trace == []
    ensures threads.s.cpu.State() == s.(mem := pmm.ram[..]) && threads.s.cpu.cr3 == cr3
    ensures threads.s.table.stacks == map[]
  {
    hide FreeSet, InOrder;
    var table := new TaskTable(pmm);
    var cpu := new Cpu(pmm.ram, s.(mem := pmm.ram[..]), cr3);
    var scheduler := new TaskScheduler(cpu, table);
    threads := new Threads(scheduler);
  }

  /** The states in which the runs of clients (`Client.Run`), of threads (`Threads.Run`)
      and of both (`Kernel.Run`) begin. */
  method Boot(ram: array<Word>, b: Boot, files: seq<File>, s: Machine, image: set<nat>)
    returns (k: AddressSpaces, client: Client, threads: Threads, kernel: Kernel)
    requires Linked(ram.Length, b, files) && InKernelImage(image, b)
    requires EmptyTable(ram[..], b.root) && EmptyTable(ram[..], b.pdpt) && EmptyTable(ram[..], b.pd)
    modifies ram
    ensures k.pmm.ram == ram && k.pmm.Placed() && k.pmm.Free() == FreeAtStart() && UserClosed(k.Mem(), b.root)
    ensures UserOwned(k.Mem(), k.tables, k.data)
    ensures client.Valid() && client.k == k && client.spaces == [] && client.frames == []
    ensures threads.Valid() && threads.s.table.pmm == k.pmm && threads.idle == [] && !threads.early
    ensures threads.s.current == null && threads.s.queue == [] && threads.s.call == NoCall && threads.trace == []
    ensures threads.s.cpu.State() == s.(mem := ram[..]) && threads.s.cpu.cr3 == PAGE_SIZE * b.root
    ensures kernel.Valid() && kernel.client == client && kernel.threads == threads && kernel.image == image
  {
    hide FreeSet, FreeAtStart, UserClosed, UserOwned, Client.Valid, Threads.Valid, Kernel.Valid, ImageApart, Linked,
      EmptyTable, InKernelImage;
    k, client, threads := BootObjects(ram, b, files, s);
    ImageAtStart(image, b);
    kernel := new Kernel(client, threads, image);
  }
}
