/** The ELF loader (kernel_os/src/elf.cpp): a program's bytes, seen through the
    page tables of the address space it builds. */
module Elf {
  import opened Wrappers
  import opened Bits
  import opened PageEntry
  import opened Ram
  import opened Pmm
  import opened PageTables
  import opened BootPaging
  import opened Vmm

  const USER_ADDRESS_MIN: nat := 0x4000_0000
  const USER_ADDRESS_LIMIT: nat := 0x8000_0000_0000
  const HEADER_SIZE: nat := 64
  const PROGRAM_HEADER_SIZE: nat := 56
  const MACHINE_X86_64: nat := 0x3E
  const TYPE_LOAD: nat := 1

  // Field widths in bytes
  const U16: nat := 2
  const U32: nat := 4
  const U64: nat := 8

  /** A file of the RAM file system: `size` bytes at (identity-mapped) address `data`. */
  datatype File = File(data: nat, size: nat)

  // Reading little-endian fields

  function Field(m: Memory, a: nat, n: nat): nat
    requires a + n <= 8 * |m|
    decreases n
  {
    if n == 0 then 0 else Byte(m, a) + 0x100 * Field(m, a + 1, n - 1)
  }

  lemma {:induction false} FieldBound(m: Memory, a: nat, n: nat)
    requires a + n <= 8 * |m|
    ensures Field(m, a, n) < Pow256(n)
    decreases n
  {
    if n == 0 {
    } else {
      WordByteBound(m[a / 8], a % 8);
      FieldBound(m, a + 1, n - 1);
    }
  }

  /** The n bytes at address a are those of the number, lowest first, and it has no
      further ones. */
  ghost predicate Spells(m: Memory, a: nat, n: nat, value: nat)
    requires a + n <= 8 * |m|
  {
    value < Pow256(n) && forall j: nat :: j < n ==> WordByte(value, j) == Byte(m, a + j)
  }

  lemma {:induction false} FieldByte(m: Memory, a: nat, n: nat, j: nat)
    requires a + n <= 8 * |m| && j < n
    ensures WordByte(Field(m, a, n), j) == Byte(m, a + j)
    decreases n
  {
    WordByteBound(m[a / 8], a % 8);
    var rest := Field(m, a + 1, n - 1);
    assert Field(m, a, n) % 0x100 == Byte(m, a) && Field(m, a, n) / 0x100 == rest;
    if j == 0 {
    } else {
      FieldByte(m, a + 1, n - 1, j - 1);
    }
  }

  /** A field is the one number that its bytes spell. */
  lemma FieldSpells(m: Memory, a: nat, n: nat, value: nat)
    requires a + n <= 8 * |m|
    ensures Spells(m, a, n, value) <==> value == Field(m, a, n)
  {
    hide Byte, WordByte, Field;
    FieldBound(m, a, n);
    forall j: nat | j < n
      ensures WordByte(Field(m, a, n), j) == Byte(m, a + j)
    {
      FieldByte(m, a, n, j);
    }
    if Spells(m, a, n, value) {
      forall k | 0 <= k < n
        ensures WordByte(value, k) == WordByte(Field(m, a, n), k)
      {
        assert WordByte(value, k) == Byte(m, a + k);
      }
      EqualBytesEqualWords(value, Field(m, a, n), n);
    }
  }

  ghost predicate SameFile(m: Memory, m': Memory, file: File)
  {
    |m'| == |m| && file.data + file.size <= 8 * |m|
    && forall a :: file.data <= a < file.data + file.size ==> Byte(m', a) == Byte(m, a)
  }

  lemma {:induction false} FieldReadsFile(m: Memory, m': Memory, file: File, a: nat, n: nat)
    requires SameFile(m, m', file) && file.data <= a && a + n <= file.data + file.size
    ensures Field(m', a, n) == Field(m, a, n)
    decreases n
  {
    if n == 0 {
    } else {
      FieldReadsFile(m, m', file, a + 1, n - 1);
    }
  }

  // Addresses

  /** value & ~(PAGE_SIZE - 1) */
  function AlignDown(value: nat): nat
  {
    value / PAGE_SIZE * PAGE_SIZE
  }

  /** The 64-bit sum in align_up wraps around. */
  function AlignUp(value: nat): nat
  {
    AlignDown((value + PAGE_SIZE - 1) % WORD_LIMIT)
  }

  predicate ValidUserRange(address: Word, size: Word)
  {
    if address < USER_ADDRESS_MIN || size > WORD_LIMIT - 1 - address then false
    else address + size < USER_ADDRESS_LIMIT
  }

  /** In a valid user range align_up never wraps: it is the least page boundary
      at or above the end, and the pages are user pages above the first GiB. */
  lemma AlignedRange(address: Word, size: Word)
    requires ValidUserRange(address, size)
    ensures AlignUp(address + size) % PAGE_SIZE == 0 && AlignDown(address) % PAGE_SIZE == 0
    ensures address + size <= AlignUp(address + size) < address + size + PAGE_SIZE
    ensures USER_ADDRESS_MIN <= AlignDown(address) <= address < AlignDown(address) + PAGE_SIZE
    ensures AlignUp(address + size) <= USER_ADDRESS_LIMIT
  {
  }

  lemma UserIndices(v: nat)
    requires USER_ADDRESS_MIN <= v < USER_ADDRESS_LIMIT
    ensures Index(v, 4) != 0 || Index(v, 3) != 0
    ensures PageNumber(v) == v / PAGE_SIZE
  {
  }

  // Program headers

  datatype Segment = Segment(kind: nat, flags: nat, offset: nat, address: nat, fileSize: nat, memorySize: nat)

  function SegmentAt(m: Memory, file: File, a: nat): Segment
    requires file.data <= a && a + PROGRAM_HEADER_SIZE <= file.data + file.size <= 8 * |m|
  {
    Segment(Field(m, a, U32), Field(m, a + 4, U32), Field(m, a + 8, U64), Field(m, a + 16, U64),
            Field(m, a + 32, U64), Field(m, a + 40, U64))
  }

  predicate SegmentFits(seg: Segment, fileSize: nat)
  {
    && seg.fileSize <= seg.memorySize && seg.offset <= fileSize && seg.fileSize <= fileSize - seg.offset
    && seg.address < WORD_LIMIT && seg.memorySize < WORD_LIMIT && ValidUserRange(seg.address, seg.memorySize)
  }

  predicate HeaderOk(m: Memory, file: File)
    requires file.data + file.size <= 8 * |m|
  {
    file.size >= HEADER_SIZE &&
    var d := file.data;
    && Byte(m, d) == 0x7F && Byte(m, d + 1) == 'E' as nat && Byte(m, d + 2) == 'L' as nat
        && Byte(m, d + 3) == 'F' as nat
    && Byte(m, d + 4) == 2 && Byte(m, d + 5) == 1
    && Field(m, d + 18, U16) == MACHINE_X86_64 && Field(m, d + 54, U16) == PROGRAM_HEADER_SIZE
    && Field(m, d + 24, U64) < WORD_LIMIT && ValidUserRange(Field(m, d + 24, U64), 1)
    && Field(m, d + 32, U64) <= file.size
    && Field(m, d + 56, U16) * PROGRAM_HEADER_SIZE <= file.size - Field(m, d + 32, U64)
  }

  function SegmentCount(m: Memory, file: File): nat
    requires file.data + file.size <= 8 * |m| && HeaderOk(m, file)
  {
    Field(m, file.data + 56, U16)
  }

  function EntryPoint(m: Memory, file: File): nat
    requires file.data + file.size <= 8 * |m| && HeaderOk(m, file)
  {
    Field(m, file.data + 24, U64)
  }

  function SegmentTable(m: Memory, file: File): nat
    requires file.data + file.size <= 8 * |m| && HeaderOk(m, file)
  {
    file.data + Field(m, file.data + 32, U64)
  }

  /** What the header checks ask of the bytes of the file, for the numbers that the
      fields of the Elf64Header spell: magic, class and byte order, x86-64, program
      headers of 56 bytes, an entry point from 1 GiB up to below the last byte of the
      lower half, and a program header table inside the file. */
  lemma HeaderOkMeaning(m: Memory, file: File, machine: nat, entry: nat, table: nat, size: nat, count: nat)
    requires file.data + file.size <= 8 * |m| && file.size >= 64
    requires Spells(m, file.data + 18, 2, machine) && Spells(m, file.data + 24, 8, entry)
    requires Spells(m, file.data + 32, 8, table) && Spells(m, file.data + 54, 2, size)
    requires Spells(m, file.data + 56, 2, count)
    ensures HeaderOk(m, file) <==>
              && Byte(m, file.data) == 0x7F && Byte(m, file.data + 1) == 0x45 && Byte(m, file.data + 2) == 0x4C
              && Byte(m, file.data + 3) == 0x46 && Byte(m, file.data + 4) == 2 && Byte(m, file.data + 5) == 1
              && machine == 0x3E && size == 56 && 0x4000_0000 <= entry && entry + 1 < 0x8000_0000_0000
              && table + 56 * count <= file.size
  {
    hide Spells, Field, Byte;
    FieldSpells(m, file.data + 18, 2, machine);
    FieldSpells(m, file.data + 24, 8, entry);
    FieldSpells(m, file.data + 32, 8, table);
    FieldSpells(m, file.data + 54, 2, size);
    FieldSpells(m, file.data + 56, 2, count);
  }

  /** Where the fields of the header that the loader uses come from. */
  lemma HeaderBytes(m: Memory, file: File)
    requires file.data + file.size <= 8 * |m| && HeaderOk(m, file)
    ensures Spells(m, file.data + 24, 8, EntryPoint(m, file))
    ensures SegmentTable(m, file) >= file.data && Spells(m, file.data + 32, 8, SegmentTable(m, file) - file.data)
    ensures Spells(m, file.data + 56, 2, SegmentCount(m, file))
  {
    hide Spells, Field, Byte;
    FieldSpells(m, file.data + 24, 8, EntryPoint(m, file));
    FieldSpells(m, file.data + 32, 8, SegmentTable(m, file) - file.data);
    FieldSpells(m, file.data + 56, 2, SegmentCount(m, file));
  }

  /** Where the fields of a program header come from, as Elf64ProgramHeader lays them
      out. */
  ghost predicate IsProgramHeader(m: Memory, a: nat, seg: Segment)
    requires a + 56 <= 8 * |m|
  {
    && Spells(m, a, 4, seg.kind) && Spells(m, a + 4, 4, seg.flags) && Spells(m, a + 8, 8, seg.offset)
    && Spells(m, a + 16, 8, seg.address) && Spells(m, a + 32, 8, seg.fileSize) && Spells(m, a + 40, 8, seg.memorySize)
  }

  lemma SegmentBytes(m: Memory, file: File, a: nat)
    requires file.data <= a && a + PROGRAM_HEADER_SIZE <= file.data + file.size <= 8 * |m|
    ensures IsProgramHeader(m, a, SegmentAt(m, file, a))
  {
    hide Spells, Field, Byte;
    var seg := SegmentAt(m, file, a);
    FieldSpells(m, a, 4, seg.kind);
    FieldSpells(m, a + 4, 4, seg.flags);
    FieldSpells(m, a + 8, 8, seg.offset);
    FieldSpells(m, a + 16, 8, seg.address);
    FieldSpells(m, a + 32, 8, seg.fileSize);
    FieldSpells(m, a + 40, 8, seg.memorySize);
  }

  /** The checks on a segment, without the wrap-around of 64-bit sums: its file bytes
      lie in the file and are no more than its memory, which lies between 1 GiB and
      the end of the lower half. */
  lemma SegmentFitsMeaning(seg: Segment, fileSize: nat)
    requires seg.address < WORD_LIMIT && seg.memorySize < WORD_LIMIT
    ensures SegmentFits(seg, fileSize) <==>
              && seg.fileSize <= seg.memorySize && seg.offset + seg.fileSize <= fileSize
              && 0x4000_0000 <= seg.address && seg.address + seg.memorySize < 0x8000_0000_0000
  {
  }

  /** The header checks keep every program header inside the file. */
  lemma SegmentInFile(m: Memory, file: File, i: nat)
    requires file.data + file.size <= 8 * |m| && HeaderOk(m, file) && i < SegmentCount(m, file)
    ensures file.data <= SegmentTable(m, file)
    ensures SegmentTable(m, file) + i * PROGRAM_HEADER_SIZE + PROGRAM_HEADER_SIZE <= file.data + file.size
  {
    hide Field, Byte;
    var count := SegmentCount(m, file);
    assert (i + 1) * PROGRAM_HEADER_SIZE <= count * PROGRAM_HEADER_SIZE;
  }

  /** The i-th program header. */
  function SegmentOf(m: Memory, file: File, i: nat): Segment
    requires file.data + file.size <= 8 * |m| && HeaderOk(m, file) && i < SegmentCount(m, file)
  {
    SegmentInFile(m, file, i);
    SegmentAt(m, file, SegmentTable(m, file) + i * PROGRAM_HEADER_SIZE)
  }

  // Where the loader has put pages

  /** A page of the program: its frame and whether it was mapped writable. */
  datatype Placement = Placement(frame: nat, writable: bool)

  /** From virtual page numbers to the frames the loader chose for them. */
  type Layout = map<nat, Placement>

  ghost predicate FramesOk(m: Memory, data: set<nat>, at: Layout)
  {
    && (forall p :: p in at ==> at[p].frame in data && at[p].frame != 0 && InRam(m, at[p].frame))
    && (forall p, q :: p in at && q in at && at[p].frame == at[q].frame ==> p == q)
  }

  function PlaceOf(slot: Placement, w: nat): nat
  {
    PAGE_SIZE * slot.frame + w % PAGE_SIZE
  }

  /** The page of `w` is mapped to its frame, for the user along user pointers and with
      its own write permission, unless it could not be mapped at all. */
  ghost predicate MappedTo(m: Memory, r: nat, slot: Placement, w: nat)
  {
    Walk(m, r, 4, w) == None
    || (Walk(m, r, 4, w) == Some(Leaf(PlaceOf(slot, w), true, slot.writable, false)) && UserPath(m, r, 4, w))
  }

  ghost predicate Mapped(m: Memory, r: nat, at: Layout)
  {
    forall w :: PageNumber(w) in at ==> MappedTo(m, r, at[PageNumber(w)], w)
  }

  /** Every page of the layout could be mapped. */
  ghost predicate Complete(m: Memory, r: nat, at: Layout)
  {
    forall w :: PageNumber(w) in at ==> Walk(m, r, 4, w).Some?
  }

  ghost predicate ZeroFrame(m: Memory, f: nat)
  {
    InRam(m, f) && forall a :: PAGE_SIZE * f <= a < PAGE_SIZE * f + PAGE_SIZE ==> Byte(m, a) == 0
  }

  /** What one call of vmm_map_page did. */
  ghost predicate MapOutcome(m: Memory, m': Memory, lv: Levels, r: nat, v: nat, e: nat, mapped: bool)
  {
    && PagesKept(m, m', lv)
    && if mapped then PageSet(m, m', lv, r, v, e) && UserPath(m', r, 4, v) else SameLookups(m, m', lv)
  }

  lemma MappedAfterMap(m: Memory, lv: Levels, m': Memory, b: Boot, free: set<nat>, r: nat, v: Word, f: nat, flags: Word,
                       mapped: bool, at: Layout)
    requires TablesValid(m, lv, b) && r in lv && lv[r] == 4 && Mapped(m, r, at)
    requires f < MAX_FRAMES && Has(flags, USER) && Base(flags) == 0 && !Has(flags, NO_EXECUTE)
    requires Index(v, 4) != 0 || Index(v, 3) != 0
    requires mapped == Mappable(m, free, r, v)
    requires MapOutcome(m, m', lv, r, v, LeafEntry(PAGE_SIZE * f, flags), mapped)
    ensures Mapped(m', r, at[PageNumber(v) := Placement(f, Has(flags, WRITABLE))])
  {
    hide Walk, UserPath, LeafResult, Index, Mappable, TablesValid, Has, Base, LeafEntry;
    var at' := at[PageNumber(v) := Placement(f, Has(flags, WRITABLE))];
    forall w | PageNumber(w) in at'
      ensures MappedTo(m', r, at'[PageNumber(w)], w)
    {
      if PageNumber(w) == PageNumber(v) {
        PageNumberMeaning(v, w);
        if mapped {
          MappedPage(PAGE_SIZE * f, flags, w);
          PageNumberMeaning(w, v);
          UserPathReadsIndices(m', r, 4, v, w);
        } else {
          FailureMeansUnmapped(m, lv, b, free, r, v);
          WalkReadsPage(m, r, 4, v, w);
        }
      } else {
        assert MappedTo(m, r, at[PageNumber(w)], w);
      }
    }
  }

  /** With three free frames a user page can always be mapped. */
  lemma CompleteAfterMap(m: Memory, lv: Levels, m': Memory, b: Boot, free: set<nat>, r: nat, v: Word, f: nat,
      flags: Word,
                         mapped: bool, at: Layout)
    requires TablesValid(m, lv, b) && r in lv && lv[r] == 4 && Complete(m, r, at) && |free| >= 3 && f < MAX_FRAMES
    requires (Index(v, 4) != 0 || Index(v, 3) != 0) && mapped == Mappable(m, free, r, v)
    requires MapOutcome(m, m', lv, r, v, LeafEntry(PAGE_SIZE * f, flags), mapped)
    ensures Complete(m', r, at[PageNumber(v) := Placement(f, Has(flags, WRITABLE))])
  {
    hide Walk, UserPath, Index, TablesValid, Has, Base, LeafEntry, PageNumber, HugeOnPath, Missing, Mappable;
    if !mapped {
      FailureMeansUnmapped(m, lv, b, free, r, v);
    }
    LeafEntryMeaning(PAGE_SIZE * f, flags);
  }

  // What a stretch of the load may change

  ghost predicate Spent(free: set<nat>, tables: set<nat>, data: set<nat>,
                        free': set<nat>, tables': set<nat>, data': set<nat>)
  {
    && free' <= free && tables <= tables' && data <= data'
    && tables' - tables <= free && data' - data <= free
  }

  ghost predicate OthersKept(m: Memory, m': Memory, lv: Levels, r: nat)
  {
    forall s, w :: s in lv && lv[s] == 4 && s != r && Index(w, 4) != 0 ==> Walk(m', s, 4, w) == Walk(m, s, 4, w)
  }

  /** No entry in the PML4 of a space other than `r` was written. */
  ghost predicate RootsKept(m: Memory, m': Memory, lv: Levels, r: nat)
    requires TablesInRam(m, lv)
  {
    && |m'| == |m|
    && forall s, i: nat :: s in lv && lv[s] == 4 && s != r && i < ENTRIES ==> Entry(m', s, i) == Entry(m, s, i)
  }

  /** The load of space `r` went from one state to another: tables and data pages
      were taken from the free frames, only those and the bitmap were written,
      what was mapped stays mapped, no other space changed outside PML4 slot 0, and
      user code got nothing but data pages. */
  ghost predicate Advanced(m: Memory, lv: Levels, free: set<nat>, data: set<nat>,
                           m': Memory, lv': Levels, free': set<nat>, data': set<nat>,
                           bitmap: set<int>, b: Boot, r: nat)
  {
    && TablesGrew(lv, lv') && BootSeen(m, lv, m', lv', b)
    && Spent(free, lv.Keys, data, free', lv'.Keys, data')
    && OthersKept(m, m', lv, r) && PagesKept(m, m', lv) && RootsKept(m, m', lv, r)
    && SameOutside(m, m', bitmap + lv'.Keys + (data' - data))
    && (UserOwned(m, lv, data) ==> UserOwned(m', lv', data'))
  }

  lemma AdvancedTransitive(m: Memory, lv: Levels, free: set<nat>, data: set<nat>,
                           m': Memory, lv': Levels, free': set<nat>, data': set<nat>,
                           m'': Memory, lv'': Levels, free'': set<nat>, data'': set<nat>,
                           bitmap: set<int>, b: Boot, r: nat)
    requires Advanced(m, lv, free, data, m', lv', free', data', bitmap, b, r)
    requires Advanced(m', lv', free', data', m'', lv'', free'', data'', bitmap, b, r)
    ensures Advanced(m, lv, free, data, m'', lv'', free'', data'', bitmap, b, r)
  {
    hide Walk, Index, IsLink, Child, PagesKept, UserOwned, RootsKept;
    PagesKeptTransitive(m, m', m'', lv, lv');
    RootsKeptTwice(m, m', m'', lv, lv', r);
    assert bitmap + lv'.Keys + (data' - data) <= bitmap + lv''.Keys + (data'' - data);
    assert bitmap + lv''.Keys + (data'' - data') <= bitmap + lv''.Keys + (data'' - data);
    forall s, w | s in lv && lv[s] == 4 && s != r && Index(w, 4) != 0
      ensures Walk(m'', s, 4, w) == Walk(m, s, 4, w)
    {
      assert Walk(m', s, 4, w) == Walk(m, s, 4, w);
    }
  }

  lemma RootsKeptTwice(m: Memory, m': Memory, m'': Memory, lv: Levels, lv': Levels, r: nat)
    requires TablesInRam(m, lv) && TablesInRam(m', lv') && TablesGrew(lv, lv')
    requires RootsKept(m, m', lv, r) && RootsKept(m', m'', lv', r)
    ensures RootsKept(m, m'', lv, r)
  {
    forall s, i: nat | s in lv && lv[s] == 4 && s != r && i < ENTRIES
      ensures Entry(m'', s, i) == Entry(m, s, i)
    {
      assert Entry(m', s, i) == Entry(m, s, i);
    }
  }

  lemma RootsKeptOutside(m: Memory, m': Memory, lv: Levels, r: nat, frames: set<int>)
    requires TablesInRam(m, lv) && SameOutside(m, m', frames) && lv.Keys !! frames
    ensures RootsKept(m, m', lv, r)
  {
    forall s | s in lv && lv[s] == 4
      ensures forall i: nat :: i < ENTRIES ==> Entry(m', s, i) == Entry(m, s, i)
    {
      EntriesOutside(m, m', frames, s);
    }
  }

  /** The file lies in frames the kernel has reserved. */
  ghost predicate FileApart(file: File, words: nat, free: set<nat>, bitmap: set<int>, tables: set<nat>)
  {
    && file.data + file.size <= 8 * words
    && var frames := FramesTouching(file.data, file.data + file.size);
       frames !! free && frames !! bitmap && frames !! tables
  }

  lemma FileKept(file: File, m: Memory, lv: Levels, free: set<nat>, data: set<nat>,
                 m': Memory, lv': Levels, free': set<nat>, data': set<nat>, bitmap: set<int>, b: Boot, r: nat)
    requires FileApart(file, |m|, free, bitmap, lv.Keys)
    requires Advanced(m, lv, free, data, m', lv', free', data', bitmap, b, r)
    ensures SameFile(m, m', file)
  {
    hide Walk, Index, IsLink, Child, FramesTouching;
    forall a | file.data <= a < file.data + file.size
      ensures Byte(m', a) == Byte(m, a)
    {
      TouchedFrame(a, file.data, file.data + file.size);
      SameBytes(m, m', bitmap + lv'.Keys + (data' - data), a);
    }
  }

  /** Space `r` itself changed at most the pages lo .. hi - 1. */
  ghost predicate OwnKept(m: Memory, m': Memory, r: nat, lo: nat, hi: nat)
  {
    forall w :: !(lo <= PageNumber(w) < hi) ==> Walk(m', r, 4, w) == Walk(m, r, 4, w)
  }

  lemma FrameRange(f: nat)
    ensures FramesTouching(PAGE_SIZE * f, PAGE_SIZE * f + PAGE_SIZE) == {f}
  {
  }

  /** zero_memory */
  method ZeroMemory(ram: array<Word>, destination: nat, size: nat)
    requires destination + size <= 8 * ram.Length
    modifies ram
    ensures SameBytesOutside(old(ram[..]), ram[..], destination, destination + size)
    ensures forall a :: destination <= a < destination + size ==> Byte(ram[..], a) == 0
  {
    for index := 0 to size
      invariant SameBytesOutside(old(ram[..]), ram[..], destination, destination + size)
      invariant forall a :: destination <= a < destination + index ==> Byte(ram[..], a) == 0
    {
      StoreByte(ram, destination + index, 0);
    }
  }

  /** The remainder of `offset` by `d`. */
  function Wrapped(offset: nat, d: nat): (r: nat)
    requires d > 0
    ensures r <= offset && r < d
    decreases offset
  {
    if offset < d then offset else Wrapped(offset - d, d)
  }

  /** Where the forward byte loop of copy_memory takes byte `offset` from: its own place
      in the source, unless the destination begins inside the source; then the bytes
      before the destination repeat. */
  function CopiedFrom(destination: nat, source: nat, size: nat, offset: nat): (from: nat)
    ensures source <= from <= source + offset
  {
    if source < destination < source + size then source + Wrapped(offset, destination - source) else source + offset
  }

  /** The first `n` bytes of a copy have arrived and nothing else has changed. */
  ghost predicate CopiedBytes(m: Memory, m': Memory, destination: nat, source: nat, size: nat, n: nat)
  {
    && SameBytesOutside(m, m', destination, destination + n)
    && source + size <= 8 * |m| && destination + size <= 8 * |m| && n <= size
    && forall a :: destination <= a < destination + n ==>
         Byte(m', a) == Byte(m, CopiedFrom(destination, source, size, a - destination))
  }

  /** copy_memory */
  method CopyMemory(ram: array<Word>, destination: nat, source: nat, size: nat)
    requires destination + size <= 8 * ram.Length && source + size <= 8 * ram.Length
    modifies ram
    ensures CopiedBytes(old(ram[..]), ram[..], destination, source, size, size)
  {
    hide CopiedFrom, Byte;
    ghost var m := ram[..];
    for index := 0 to size
      invariant CopiedBytes(m, ram[..], destination, source, size, index)
    {
      CopiedNext(m, ram[..], destination, source, size, index);
      var byte := LoadByte(ram, source + index);
      StoreByte(ram, destination + index, byte);
    }
  }

  /** The byte that is read next is the one that belongs there. */
  lemma CopiedNext(m: Memory, m': Memory, destination: nat, source: nat, size: nat, index: nat)
    requires index < size && CopiedBytes(m, m', destination, source, size, index)
    ensures Byte(m', source + index) == Byte(m, CopiedFrom(destination, source, size, index))
  {
    hide Byte;
    if source < destination < source + size && index >= destination - source {
      var a := source + index;
      assert a - destination == index - (destination - source);
    }
  }

  /** Where the destination does not begin inside the source it becomes a plain copy. */
  lemma PlainCopy(m: Memory, m': Memory, destination: nat, source: nat, size: nat)
    requires CopiedBytes(m, m', destination, source, size, size)
    requires destination <= source || source + size <= destination
    ensures SameBytesOutside(m, m', destination, destination + size)
    ensures forall a :: destination <= a < destination + size ==> Byte(m', a) == Byte(m, source + (a - destination))
  {
    hide Byte;
  }

  /** Raw stores into one client data page keep the kernel's structures valid. */
  lemma PageStoresKeepValid(m: Memory, m': Memory, lv: Levels, b: Boot, bitmap: nat, total: nat,
                            free: set<nat>, data: set<nat>, f: nat, lo: nat, hi: nat)
    requires TablesValid(m, lv, b) && Fits(|m|, bitmap, total)
    requires Separate(free, FramesTouching(bitmap, bitmap + BitmapBytes(total)), lv.Keys, data) && f in data
    requires PAGE_SIZE * f <= lo <= hi <= PAGE_SIZE * f + PAGE_SIZE && SameBytesOutside(m, m', lo, hi)
    ensures SameOutside(m, m', {f})
    ensures TablesValid(m', lv, b) && SameLookups(m, m', lv) && BootSeen(m, lv, m', lv, b)
    ensures FreeSet(m', bitmap, total) == FreeSet(m, bitmap, total)
  {
    hide FreeSet, TablesValid, SameLookups, BootSeen, FramesTouching;
    assert SameBytesOutside(m, m', PAGE_SIZE * f, PAGE_SIZE * f + PAGE_SIZE);
    FrameRange(f);
    OutsideFrames(m, m', PAGE_SIZE * f, PAGE_SIZE * f + PAGE_SIZE);
    DataKeepsValid(m, m', lv, b, bitmap, total, {f});
  }

  method ZeroPage(k: AddressSpaces, address: nat)
    requires k.Valid() && address % PAGE_SIZE == 0 && FrameOf(address) in k.data && InRam(k.Mem(), FrameOf(address))
    modifies k.pmm.ram
    ensures k.Valid() && k.pmm.Free() == old(k.pmm.Free())
    ensures ZeroFrame(k.Mem(), FrameOf(address)) && SameOutside(old(k.Mem()), k.Mem(), {FrameOf(address)})
    ensures SameLookups(old(k.Mem()), k.Mem(), k.tables) && BootSeen(old(k.Mem()), k.tables, k.Mem(), k.tables, k.boot)
  {
    hide FreeSet, TablesValid, SameLookups, BootSeen;
    ghost var m, f, free := k.Mem(), FrameOf(address), k.pmm.Free();
    ZeroMemory(k.pmm.ram, address, PAGE_SIZE);
    PageStoresKeepValid(m, k.Mem(), k.tables, k.boot, k.pmm.bitmap, k.pmm.totalPages, free, k.data, f,
                        address, address + PAGE_SIZE);
  }

  /** Too few free frames are left for the three tables a page may need. */
  ghost predicate Short(free: set<nat>)
  {
    |free| < 3
  }

  lemma {:induction false} SubsetSize(a: set<nat>, b: set<nat>)
    requires a <= b
    ensures |a| <= |b|
    decreases b
  {
    if a == {} {
    } else {
      var x :| x in a;
      SubsetSize(a - {x}, b - {x});
    }
  }

  ghost predicate Loading(k: AddressSpaces, r: nat, at: Layout)
    reads k, k.pmm, k.pmm.ram
  {
    k.Valid() && k.IsSpace(r) && FramesOk(k.Mem(), k.data, at) && Mapped(k.Mem(), r, at)
    && (!Short(k.pmm.Free()) ==> Complete(k.Mem(), r, at))
  }

  /** A zeroed page nobody else holds. */
  method FreshPage(k: AddressSpaces) returns (address: nat)
    requires k.Valid()
    modifies k.pmm`freePages, k.pmm`searchHint, k.pmm.ram, k`data
    ensures k.Valid() && k.tables == old(k.tables)
    ensures old(k.pmm.Free()) == {} ==> address == 0 && k.data == old(k.data) && k.pmm.Free() == {}
    ensures old(k.pmm.Free()) != {} ==> var f := FrameOf(address);
              && address == PAGE_SIZE * f && f != 0 && f in old(k.pmm.Free())
              && k.data == old(k.data) + {f} && k.pmm.Free() == old(k.pmm.Free()) - {f}
              && ZeroFrame(k.Mem(), f)
    ensures SameOutside(old(k.Mem()), k.Mem(), k.pmm.BitmapFrames() + (k.data - old(k.data)))
    ensures SameLookups(old(k.Mem()), k.Mem(), k.tables) && BootSeen(old(k.Mem()), k.tables, k.Mem(), k.tables, k.boot)
  {
    hide FreeSet, TablesValid, SameLookups, BootSeen, Separate;
    ghost var m, free, data := k.Mem(), k.pmm.Free(), k.data;
    ghost var bitmap := k.pmm.BitmapFrames();
    SeparateMeans(free, bitmap, k.tables.Keys, data, 0);
    address := k.AllocFrame();
    ghost var m' := k.Mem();
    if address == 0 {
      return;
    }
    SeparateMeans(free, bitmap, k.tables.Keys, data, FrameOf(address));
    ZeroPage(k, address);
    ComposeKept(m, m', k.Mem(), k.tables, k.boot, bitmap, FrameOf(address));
    assert k.data - data == {FrameOf(address)};
  }

  lemma ComposeKept(m: Memory, m': Memory, m'': Memory, lv: Levels, b: Boot, frames: set<int>, f: nat)
    requires SameOutside(m, m', frames) && SameOutside(m', m'', {f})
    requires SameLookups(m, m', lv) && SameLookups(m', m'', lv)
    requires BootSeen(m, lv, m', lv, b) && BootSeen(m', lv, m'', lv, b)
    ensures SameOutside(m, m'', frames + {f}) && SameLookups(m, m'', lv) && BootSeen(m, lv, m'', lv, b)
  {
    hide Walk, IsLink, Child;
    forall s, w | s in lv && lv[s] == 4
      ensures Walk(m'', s, 4, w) == Walk(m, s, 4, w)
    {
      assert Walk(m', s, 4, w) == Walk(m, s, 4, w);
    }
  }

  /** The effect of one round of the mapping loop, from the effects of its calls. */
  lemma FreshPageMapped(m: Memory, lv: Levels, free: set<nat>, data: set<nat>, m': Memory, free': set<nat>,
                        m'': Memory, lv'': Levels, free'': set<nat>, bitmap: set<int>, b: Boot,
                        r: nat, v: Word, f: nat, flags: Word, mapped: bool, at: Layout)
    requires TablesValid(m', lv, b) && r in lv && lv[r] == 4
    requires FramesOk(m, data, at) && Mapped(m, r, at) && ZeroFrame(m', f) && f < MAX_FRAMES && f != 0
    requires f in free && f !in data && free' == free - {f}
    requires Has(flags, USER) && Base(flags) == 0 && !Has(flags, NO_EXECUTE)
    requires Index(v, 4) != 0 || Index(v, 3) != 0
    requires SameOutside(m, m', bitmap + {f}) && SameLookups(m, m', lv) && BootSeen(m, lv, m', lv, b)
    requires mapped == Mappable(m', free', r, v)
    requires MapOutcome(m', m'', lv, r, v, LeafEntry(PAGE_SIZE * f, flags), mapped)
    requires TablesGrew(lv, lv'') && SameSpaces(lv, lv'') && Accounts(free', lv.Keys, free'', lv''.Keys)
    requires BootSeen(m', lv, m'', lv'', b) && Opened(m', lv, m'', r, v, Has(flags, USER)) && lv.Keys !! bitmap
    requires SameOutside(m', m'', bitmap + lv''.Keys) && f !in bitmap && f !in lv''
    ensures var at' := at[PageNumber(v) := Placement(f, Has(flags, WRITABLE))];
            FramesOk(m'', data + {f}, at') && Mapped(m'', r, at')
    ensures ZeroFrame(m'', f) && OwnKept(m, m'', r, PageNumber(v), PageNumber(v) + 1)
    ensures Advanced(m, lv, free, data, m'', lv'', free'', data + {f}, bitmap, b, r)
  {
    hide Walk, LeafResult, Index, Mappable, TablesValid, Has, Base, LeafEntry, IsLink, Child, PageNumber, UserOwned,
      Opened, RootsKept;
    FreshPageOwned(m, m', m'', lv, lv'', data, r, v, f, flags, mapped);
    RootsKeptOutside(m, m', lv, r, bitmap + {f});
    RootsKeptByMap(m', lv, m'', r, v, Has(flags, USER));
    RootsKeptTwice(m, m', m'', lv, lv, r);
    MappedKept(m, m', lv, r, at);
    MappedAfterMap(m', lv, m'', b, free', r, v, f, flags, mapped, at);
    OthersKeptByMap(m, m', m'', lv, r, v, LeafEntry(PAGE_SIZE * f, flags), mapped);
    PagesKeptTransitive(m, m', m'', lv, lv);
    forall a | PAGE_SIZE * f <= a < PAGE_SIZE * f + PAGE_SIZE
      ensures Byte(m'', a) == 0
    {
      assert FrameOf(a) == f;
      SameBytes(m', m'', bitmap + lv''.Keys, a);
      assert Byte(m', a) == 0;
    }
    assert bitmap + lv''.Keys <= bitmap + lv''.Keys + {f} && bitmap + {f} <= bitmap + lv''.Keys + {f};
    assert data + {f} - data == {f};
  }

  lemma RootsKeptByMap(m: Memory, lv: Levels, m': Memory, r: nat, v: nat, user: bool)
    requires Opened(m, lv, m', r, v, user)
    ensures RootsKept(m, m', lv, r)
  {
    hide Index, Has, Base;
    forall s, i: nat | s in lv && lv[s] == 4 && s != r && i < ENTRIES
      ensures Entry(m', s, i) == Entry(m, s, i)
    {
      assert !OnWay(m, r, v, s, lv[s], i);
    }
  }

  lemma FreshPageOwned(m: Memory, m': Memory, m'': Memory, lv: Levels, lv'': Levels, data: set<nat>, r: nat, v: Word,
                       f: nat, flags: Word, mapped: bool)
    requires SameLookups(m, m', lv) && SameSpaces(lv, lv'') && f < MAX_FRAMES && Base(flags) == 0
    requires MapOutcome(m', m'', lv, r, v, LeafEntry(PAGE_SIZE * f, flags), mapped)
    ensures UserOwned(m, lv, data) ==> UserOwned(m'', lv'', data + {f})
  {
    hide Walk, LeafResult, Has, Base, LeafEntry, PagesKept, UserOwned, PageSet, SameLookups;
    if UserOwned(m, lv, data) {
      OwnedBySame(m, m', lv, lv, data, data + {f});
      if mapped {
        LeafEntryMeaning(PAGE_SIZE * f, flags);
        BaseOfAddress(PAGE_SIZE * f);
        OwnedAfterPage(m', m'', lv, lv'', r, v, LeafEntry(PAGE_SIZE * f, flags), data + {f});
      } else {
        OwnedBySame(m', m'', lv, lv'', data + {f}, data + {f});
      }
    }
  }

  lemma MappedKept(m: Memory, m': Memory, lv: Levels, r: nat, at: Layout)
    requires Mapped(m, r, at) && SameLookups(m, m', lv) && r in lv && lv[r] == 4
    ensures Mapped(m', r, at)
  {
    hide Walk, UserPath;
    forall w | PageNumber(w) in at
      ensures MappedTo(m', r, at[PageNumber(w)], w)
    {
      assert MappedTo(m, r, at[PageNumber(w)], w);
      assert Walk(m', r, 4, w) == Walk(m, r, 4, w);
    }
  }

  lemma OthersKeptByMap(m: Memory, m': Memory, m'': Memory, lv: Levels, r: nat, v: nat, e: nat, mapped: bool)
    requires SameLookups(m, m', lv) && MapOutcome(m', m'', lv, r, v, e, mapped)
    ensures OthersKept(m, m'', lv, r)
  {
    hide Walk, Index, LeafResult, Child, PageNumber;
    forall s, w | s in lv && lv[s] == 4 && s != r && Index(w, 4) != 0
      ensures Walk(m'', s, 4, w) == Walk(m, s, 4, w)
    {
      assert Walk(m', s, 4, w) == Walk(m, s, 4, w);
      if mapped { OtherSpacesUntouched(m', m'', lv, r, v, e, s, w); }
    }
  }

  /** Completeness through one round of the mapping loop. */
  lemma CompleteRound(m: Memory, lv: Levels, free: set<nat>, m': Memory, free': set<nat>, m'': Memory, free'': set<nat>,
                      b: Boot, r: nat, v: Word, f: nat, flags: Word, mapped: bool, at: Layout)
    requires TablesValid(m', lv, b) && r in lv && lv[r] == 4 && SameLookups(m, m', lv) && f < MAX_FRAMES
    requires free'' <= free' <= free && (!Short(free) ==> Complete(m, r, at))
    requires (Index(v, 4) != 0 || Index(v, 3) != 0) && mapped == Mappable(m', free', r, v)
    requires MapOutcome(m', m'', lv, r, v, LeafEntry(PAGE_SIZE * f, flags), mapped)
    ensures !Short(free'') ==> Complete(m'', r, at[PageNumber(v) := Placement(f, Has(flags, WRITABLE))])
  {
    hide Walk, UserPath, Index, TablesValid, Has, Base, LeafEntry, PageNumber, Mappable, MapOutcome, PagesKept;
    if !Short(free'') {
      SubsetSize(free'', free');
      SubsetSize(free', free);
      CompleteAfterMap(m', lv, m'', b, free', r, v, f, flags, mapped, at);
    }
  }

  /** The body of the mapping loop: a fresh zeroed page for one virtual page. */
  method MapFreshPage(k: AddressSpaces, pml4: nat, address: Word, flags: Word, ghost at: Layout)
    returns (ok: bool, ghost f: nat)
    requires pml4 % PAGE_SIZE == 0
    requires Loading(k, FrameOf(pml4), at)
    requires USER_ADDRESS_MIN <= address < USER_ADDRESS_LIMIT
    requires Has(flags, USER) && Base(flags) == 0 && !Has(flags, NO_EXECUTE)
    modifies k.pmm`freePages, k.pmm`searchHint, k.pmm.ram, k`tables, k`data
    ensures k.Valid() && k.IsSpace(FrameOf(pml4))
    ensures Advanced(old(k.Mem()), old(k.tables), old(k.pmm.Free()), old(k.data),
                     k.Mem(), k.tables, k.pmm.Free(), k.data, k.pmm.BitmapFrames(), k.boot, FrameOf(pml4))
    ensures !ok ==> old(k.pmm.Free()) == {} && k.pmm.Free() == {}
    ensures |old(k.pmm.Free())| <= |k.pmm.Free()| + 4
    ensures ok ==>
              && k.data == old(k.data) + {f} && f !in old(k.data) && ZeroFrame(k.Mem(), f)
              && OwnKept(old(k.Mem()), k.Mem(), FrameOf(pml4), PageNumber(address), PageNumber(address) + 1)
              && Loading(k, FrameOf(pml4), at[PageNumber(address) := Placement(f, Has(flags, WRITABLE))])
  {
    hide FreeSet, TablesValid, SameLookups, BootSeen, Separate, FramesOk, Mapped, Complete, ZeroFrame, Advanced,
      Mappable, PageSet, PagesKept, Opened, UserPath, Accounts, LeafEntry, RightsKept, OwnKept;
    ghost var m, lv, free, data, bitmap := k.Mem(), k.tables, k.pmm.Free(), k.data, k.pmm.BitmapFrames();
    SeparateMeans(free, bitmap, lv.Keys, data, 0);
    var pagePhys := FreshPage(k);
    ghost var m', free' := k.Mem(), k.pmm.Free();
    if pagePhys == 0 {
      AdvancedByNothing(m, m', lv, free, data, bitmap, k.boot, FrameOf(pml4));
      return false, 0;
    }
    f := FrameOf(pagePhys);
    SeparateMeans(free, bitmap, lv.Keys, data, f);
    UserIndices(address);
    ghost var mapped := k.MapPage(pml4, address, pagePhys, flags);
    DataApart(k.pmm.Free(), bitmap, k.tables.Keys, k.data, f);
    FreshPageMapped(m, lv, free, data, m', free', k.Mem(), k.tables, k.pmm.Free(), bitmap, k.boot,
                    FrameOf(pml4), address, f, flags, mapped, at);
    AccountsShrink(free', lv.Keys, k.pmm.Free(), k.tables.Keys);
    CompleteRound(m, lv, free, m', free', k.Mem(), k.pmm.Free(), k.boot, FrameOf(pml4), address, f, flags, mapped, at);
    ok := true;
  }

  lemma AccountsShrink(free: set<nat>, tables: set<nat>, free': set<nat>, tables': set<nat>)
    requires Accounts(free, tables, free', tables')
    ensures free' <= free
  {
  }

  lemma DataApart(free: set<nat>, bitmap: set<int>, tables: set<nat>, data: set<nat>, f: nat)
    requires Separate(free, bitmap, tables, data) && f in data
    ensures f !in bitmap && f !in tables && f !in free
  {
  }

  lemma AdvancedByNothing(m: Memory, m': Memory, lv: Levels, free: set<nat>, data: set<nat>, bitmap: set<int>,
                          b: Boot, r: nat)
    requires SameOutside(m, m', bitmap + (data - data)) && SameLookups(m, m', lv) && BootSeen(m, lv, m', lv, b)
    requires lv.Keys !! bitmap
    ensures Advanced(m, lv, free, data, m', lv, free, data, bitmap, b, r)
  {
    hide Walk, IsLink, Child, Index, UserOwned;
    RootsKeptOutside(m, m', lv, r, bitmap + (data - data));
    if UserOwned(m, lv, data) {
      OwnedBySame(m, m', lv, lv, data, data);
    }
  }

  // Mapping a whole segment

  /** `at'` is `at` with the pages lo .. hi - 1 in frames taken from `pool`. */
  ghost predicate PagesPlaced(at: Layout, at': Layout, lo: nat, hi: nat, pool: set<nat>, writable: bool)
  {
    && (forall p: nat :: lo <= p < hi ==> p in at' && at'[p].frame in pool && at'[p].writable == writable)
    && (forall p: nat :: !(lo <= p < hi) ==> (p in at' <==> p in at) && (p in at ==> at'[p] == at[p]))
  }

  ghost predicate PagesZero(m: Memory, at: Layout, lo: nat, hi: nat)
  {
    forall p: nat :: lo <= p < hi ==> p in at && ZeroFrame(m, at[p].frame)
  }

  /** One more page placed and zeroed, the earlier ones undisturbed. */
  lemma PlaceNextPage(at: Layout, at': Layout, at'': Layout, lo: nat, hi: nat, data: set<nat>, data': set<nat>, f: nat,
                      writable: bool, m: Memory, lv: Levels, free: set<nat>, m': Memory, lv': Levels, free': set<nat>,
                      bitmap: set<int>, b: Boot, r: nat)
    requires lo <= hi && PagesPlaced(at, at', lo, hi, data' - data, writable) && PagesZero(m, at', lo, hi)
    requires at'' == at'[hi := Placement(f, writable)] && f !in data' && data <= data'
    requires Advanced(m, lv, free, data', m', lv', free', data' + {f}, bitmap, b, r)
    requires Separate(free', bitmap, lv'.Keys, data' + {f}) && ZeroFrame(m', f)
    ensures PagesPlaced(at, at'', lo, hi + 1, data' + {f} - data, writable) && PagesZero(m', at'', lo, hi + 1)
  {
    hide BootSeen, OthersKept, TablesGrew;
    forall p: nat | lo <= p < hi
      ensures ZeroFrame(m', at''[p].frame)
    {
      var g := at'[p].frame;
      assert ZeroFrame(m, g);
      forall a | PAGE_SIZE * g <= a < PAGE_SIZE * g + PAGE_SIZE
        ensures Byte(m', a) == 0
      {
        assert FrameOf(a) == g;
        assert Byte(m, a) == 0;
        SameBytes(m, m', bitmap + lv'.Keys + (data' + {f} - data'), a);
      }
    }
  }

  /** The mapping loop of elf_load_from_ramfs. */
  method MapSegment(k: AddressSpaces, pml4: nat, start: nat, end: nat, flags: Word, ghost at: Layout)
    returns (ok: bool, ghost at': Layout)
    requires pml4 % PAGE_SIZE == 0
    requires Loading(k, FrameOf(pml4), at)
    requires USER_ADDRESS_MIN <= start && end <= USER_ADDRESS_LIMIT && start <= end
    requires start % PAGE_SIZE == 0 && end % PAGE_SIZE == 0
    requires Has(flags, USER) && Base(flags) == 0 && !Has(flags, NO_EXECUTE)
    modifies k.pmm`freePages, k.pmm`searchHint, k.pmm.ram, k`tables, k`data
    ensures k.Valid() && k.IsSpace(FrameOf(pml4))
    ensures Advanced(old(k.Mem()), old(k.tables), old(k.pmm.Free()), old(k.data),
                     k.Mem(), k.tables, k.pmm.Free(), k.data, k.pmm.BitmapFrames(), k.boot, FrameOf(pml4))
    ensures |old(k.pmm.Free())| <= |k.pmm.Free()| + 4 * (end / PAGE_SIZE - start / PAGE_SIZE)
    ensures !ok ==> Short(k.pmm.Free()) && |old(k.pmm.Free())| < 4 * (end / PAGE_SIZE - start / PAGE_SIZE)
    ensures ok ==>
              && Loading(k, FrameOf(pml4), at')
              && PagesPlaced(at, at', start / PAGE_SIZE, end / PAGE_SIZE, k.data - old(k.data), Has(flags, WRITABLE))
              && PagesZero(k.Mem(), at', start / PAGE_SIZE, end / PAGE_SIZE)
              && OwnKept(old(k.Mem()), k.Mem(), FrameOf(pml4), start / PAGE_SIZE, end / PAGE_SIZE)
  {
    hide FreeSet, TablesValid, Separate, FramesOk, Mapped, Complete, ZeroFrame, Advanced, PagesPlaced, PagesZero,
      OwnKept, Has, Base, SameOutside, Fits, FramesTouching;
    ghost var m, lv, free, data, bitmap := k.Mem(), k.tables, k.pmm.Free(), k.data, k.pmm.BitmapFrames();
    var address := start;
    at' := at;
    StartSegment(m, lv, free, data, bitmap, k.boot, FrameOf(pml4), at, start / PAGE_SIZE, Has(flags, WRITABLE));
    while address < end
      invariant start <= address <= end && address % PAGE_SIZE == 0
      invariant Loading(k, FrameOf(pml4), at')
      invariant Advanced(m, lv, free, data, k.Mem(), k.tables, k.pmm.Free(), k.data, bitmap, k.boot, FrameOf(pml4))
      invariant data <= k.data && |free| <= |k.pmm.Free()| + 4 * (address / PAGE_SIZE - start / PAGE_SIZE)
      invariant PagesPlaced(at, at', start / PAGE_SIZE, address / PAGE_SIZE, k.data - data, Has(flags, WRITABLE))
      invariant PagesZero(k.Mem(), at', start / PAGE_SIZE, address / PAGE_SIZE)
      invariant OwnKept(m, k.Mem(), FrameOf(pml4), start / PAGE_SIZE, address / PAGE_SIZE)
    {
      ghost var m', lv', free', data' := k.Mem(), k.tables, k.pmm.Free(), k.data;
      ghost var f;
      ok, f := MapFreshPage(k, pml4, address, flags, at');
      AdvancedTransitive(m, lv, free, data, m', lv', free', data', k.Mem(), k.tables, k.pmm.Free(), k.data,
                         bitmap, k.boot, FrameOf(pml4));
      if !ok {
        return;
      }
      UserIndices(address);
      ghost var at'' := at'[address / PAGE_SIZE := Placement(f, Has(flags, WRITABLE))];
      PlaceNextPage(at, at', at'', start / PAGE_SIZE, address / PAGE_SIZE, data, data', f, Has(flags, WRITABLE),
                    m', lv', free', k.Mem(), k.tables, k.pmm.Free(), bitmap, k.boot, FrameOf(pml4));
      OwnKeptNext(m, m', k.Mem(), FrameOf(pml4), start / PAGE_SIZE, address / PAGE_SIZE);
      at' := at'';
      address := address + PAGE_SIZE;
    }
    ok := true;
  }

  lemma OwnKeptNext(m: Memory, m': Memory, m'': Memory, r: nat, lo: nat, hi: nat)
    requires lo <= hi && OwnKept(m, m', r, lo, hi) && OwnKept(m', m'', r, hi, hi + 1)
    ensures OwnKept(m, m'', r, lo, hi + 1)
  {
    hide Walk, PageNumber;
    forall w | !(lo <= PageNumber(w) < hi + 1)
      ensures Walk(m'', r, 4, w) == Walk(m, r, 4, w)
    {
      assert Walk(m', r, 4, w) == Walk(m, r, 4, w);
    }
  }

  lemma StartSegment(m: Memory, lv: Levels, free: set<nat>, data: set<nat>, bitmap: set<int>, b: Boot, r: nat,
                     at: Layout, lo: nat, writable: bool)
    requires TablesValid(m, lv, b)
    ensures Advanced(m, lv, free, data, m, lv, free, data, bitmap, b, r)
    ensures PagesPlaced(at, at, lo, lo, data - data, writable) && PagesZero(m, at, lo, lo) && OwnKept(m, m, r, lo, lo)
  {
  }

  // Copying a segment's file bytes

  /** The pages lo .. hi - 1 hold the first `n` bytes of `source` at `start`, and
      zeros everywhere else. */
  ghost predicate Content(m: Memory, m0: Memory, at: Layout, lo: nat, hi: nat, start: nat, n: nat, source: nat)
  {
    && source + n <= 8 * |m0|
    && forall w: nat :: lo <= w / PAGE_SIZE < hi ==>
         && w / PAGE_SIZE in at && InRam(m, at[w / PAGE_SIZE].frame)
         && Byte(m, PlaceOf(at[w / PAGE_SIZE], w)) ==
              if start <= w < start + n then Byte(m0, source + (w - start)) else 0
  }

  lemma ZeroContent(m: Memory, m0: Memory, at: Layout, lo: nat, hi: nat, start: nat, source: nat)
    requires PagesZero(m, at, lo, hi) && source <= 8 * |m0|
    ensures Content(m, m0, at, lo, hi, start, 0, source)
  {
    forall w: nat | lo <= w / PAGE_SIZE < hi
      ensures Byte(m, PlaceOf(at[w / PAGE_SIZE], w)) == 0
    {
      assert ZeroFrame(m, at[w / PAGE_SIZE].frame);
    }
  }

  /** The bytes d .. d + chunk - 1 now hold those at `from`, and no others changed. */
  ghost predicate ChunkStored(m: Memory, m': Memory, d: nat, from: nat, chunk: nat)
  {
    && SameBytesOutside(m, m', d, d + chunk) && from + chunk <= 8 * |m|
    && forall a :: d <= a < d + chunk && a < 8 * |m'| ==> Byte(m', a) == Byte(m, from + (a - d))
  }

  lemma ContentByte(m: Memory, m': Memory, m0: Memory, s: Placement, t: Placement, start: nat, n: nat, source: nat,
      chunk: nat,
                    w: nat)
    requires |m| == |m0| && source + n + chunk <= 8 * |m0| && InRam(m, t.frame) && PlaceOf(t, w) / 8 < |m|
    requires s.frame == t.frame <==> (start + n) / PAGE_SIZE == w / PAGE_SIZE
    requires (start + n) % PAGE_SIZE + chunk <= PAGE_SIZE
    requires ChunkStored(m, m', PlaceOf(s, start + n), source + n, chunk)
    requires forall a :: source + n <= a < source + n + chunk ==> Byte(m, a) == Byte(m0, a)
    requires Byte(m, PlaceOf(t, w)) == if start <= w < start + n then Byte(m0, source + (w - start)) else 0
    ensures Byte(m', PlaceOf(t, w)) == if start <= w < start + n + chunk then Byte(m0, source + (w - start)) else 0
  {
    hide Byte, PlaceOf;
    ChunkPlaces(s, t, start + n, w, chunk, |m|);
    var a, d := PlaceOf(t, w), PlaceOf(s, start + n);
    if start + n <= w < start + n + chunk {
      assert Byte(m', a) == Byte(m, source + n + (a - d));
    } else {
      assert Byte(m', a) == Byte(m, a);
    }
  }

  /** One chunk, which stays inside one page, extends the content. */
  lemma ContentAfterChunk(m: Memory, m': Memory, m0: Memory, at: Layout, lo: nat, hi: nat, start: nat, n: nat,
                          source: nat, chunk: nat)
    requires Content(m, m0, at, lo, hi, start, n, source) && source + n + chunk <= 8 * |m0| && |m'| == |m| == |m0|
    requires forall p, q :: p in at && q in at && at[p].frame == at[q].frame ==> p == q
    requires (start + n) / PAGE_SIZE in at && (start + n) % PAGE_SIZE + chunk <= PAGE_SIZE
    requires forall a :: source + n <= a < source + n + chunk ==> Byte(m, a) == Byte(m0, a)
    requires ChunkStored(m, m', PlaceOf(at[(start + n) / PAGE_SIZE], start + n), source + n, chunk)
    ensures Content(m', m0, at, lo, hi, start, n + chunk, source)
  {
    hide PageNumber, ChunkStored, PlaceOf;
    forall w: nat | lo <= w / PAGE_SIZE < hi
      ensures InRam(m', at[w / PAGE_SIZE].frame) && PlaceOf(at[w / PAGE_SIZE], w) / 8 < |m'| &&
              Byte(m', PlaceOf(at[w / PAGE_SIZE], w)) ==
              if start <= w < start + n + chunk then Byte(m0, source + (w - start)) else 0
    {
      PlaceInRam(at[w / PAGE_SIZE], w, |m|);
      ContentByte(m, m', m0, at[(start + n) / PAGE_SIZE], at[w / PAGE_SIZE], start, n, source, chunk, w);
    }
  }

  lemma PlaceInRam(t: Placement, w: nat, words: nat)
    requires WORDS_PER_FRAME * t.frame + WORDS_PER_FRAME <= words
    ensures PlaceOf(t, w) / 8 < words
  {
  }

  /** Within one page physical distance is virtual distance. */
  lemma ChunkPlaces(s: Placement, t: Placement, v: nat, w: nat, chunk: nat, words: nat)
    requires s.frame == t.frame <==> v / PAGE_SIZE == w / PAGE_SIZE
    requires v % PAGE_SIZE + chunk <= PAGE_SIZE && WORDS_PER_FRAME * t.frame + WORDS_PER_FRAME <= words
    ensures PlaceOf(s, v) <= PlaceOf(t, w) < PlaceOf(s, v) + chunk <==> v <= w < v + chunk
    ensures v <= w < v + chunk ==> PlaceOf(t, w) - PlaceOf(s, v) == w - v
    ensures PlaceOf(t, w) < 8 * words
  {
  }

  /** One translated chunk of the copy loop; it stays inside the page of frame `f`. */
  method CopyChunk(k: AddressSpaces, destination: nat, source: nat, size: nat, ghost f: nat)
    requires k.Valid() && f in k.data && InRam(k.Mem(), f)
    requires PAGE_SIZE * f <= destination && destination + size <= PAGE_SIZE * f + PAGE_SIZE
    requires source + size <= 8 * |k.Mem()| && f !in FramesTouching(source, source + size)
    modifies k.pmm.ram
    ensures k.Valid() && k.pmm.Free() == old(k.pmm.Free()) && SameOutside(old(k.Mem()), k.Mem(), {f})
    ensures SameLookups(old(k.Mem()), k.Mem(), k.tables) && BootSeen(old(k.Mem()), k.tables, k.Mem(), k.tables, k.boot)
    ensures ChunkStored(old(k.Mem()), k.Mem(), destination, source, size)
  {
    hide FreeSet, TablesValid, SameLookups, BootSeen;
    ghost var m, free := k.Mem(), k.pmm.Free();
    ApartRanges(f, destination, source, size);
    CopyMemory(k.pmm.ram, destination, source, size);
    PlainCopy(m, k.Mem(), destination, source, size);
    PageStoresKeepValid(m, k.Mem(), k.tables, k.boot, k.pmm.bitmap, k.pmm.totalPages, free, k.data, f,
                        destination, destination + size);
  }

  lemma ApartRanges(f: nat, destination: nat, source: nat, size: nat)
    requires PAGE_SIZE * f <= destination && destination + size <= PAGE_SIZE * f + PAGE_SIZE
    requires f !in FramesTouching(source, source + size)
    ensures source + size <= destination || destination + size <= source
  {
    TouchedFrame(source, source, source + size);
    TouchedFrame(destination, source, source + size);
  }

  ghost predicate Present(m: Memory, r: nat, lo: nat, hi: nat)
  {
    forall w: nat :: lo <= w < hi ==> Walk(m, r, 4, w).Some?
  }

  /** A nonzero translation of a page of the layout is that page's frame, and the
      whole page is translated. */
  lemma TranslatedPlace(m: Memory, r: nat, at: Layout, v: nat, chunk: nat, data: set<nat>)
    requires Mapped(m, r, at) && FramesOk(m, data, at) && USER_ADDRESS_MIN <= v && v + chunk <= USER_ADDRESS_LIMIT
    requires v / PAGE_SIZE in at && v % PAGE_SIZE + chunk <= PAGE_SIZE && chunk > 0
    requires AddressOf(Walk(m, r, 4, v)) != 0
    ensures AddressOf(Walk(m, r, 4, v)) == PlaceOf(at[v / PAGE_SIZE], v)
    ensures Present(m, r, v, v + chunk)
  {
    hide Walk, UserPath, FramesOk, Index;
    UserIndices(v);
    assert MappedTo(m, r, at[PageNumber(v)], v);
    forall w: nat | v <= w < v + chunk
      ensures Walk(m, r, 4, w).Some?
    {
      UserIndices(w);
      PageNumberMeaning(v, w);
      WalkReadsPage(m, r, 4, v, w);
    }
  }

  lemma PresentKept(m: Memory, m': Memory, lv: Levels, r: nat, lo: nat, mid: nat, hi: nat)
    requires Present(m, r, lo, mid) && Present(m, r, mid, hi) && SameLookups(m, m', lv) && r in lv && lv[r] == 4
    ensures Present(m', r, lo, hi)
  {
    hide Walk;
    forall w: nat | lo <= w < hi
      ensures Walk(m', r, 4, w).Some?
    {
      assert Walk(m', r, 4, w) == Walk(m, r, 4, w);
    }
  }

  ghost predicate SameRange(m: Memory, m': Memory, lo: nat, hi: nat)
  {
    |m'| == |m| && hi <= 8 * |m| && forall a :: lo <= a < hi ==> Byte(m', a) == Byte(m, a)
  }

  lemma RangeKept(m0: Memory, m: Memory, m': Memory, lo: nat, hi: nat, f: nat)
    requires SameRange(m0, m, lo, hi) && SameOutside(m, m', {f}) && f !in FramesTouching(lo, hi)
    ensures SameRange(m0, m', lo, hi)
  {
    hide FramesTouching;
    forall a | lo <= a < hi
      ensures Byte(m', a) == Byte(m0, a)
    {
      TouchedFrame(a, lo, hi);
      SameBytes(m, m', {f}, a);
    }
  }

  lemma SubRangeFrames(lo: nat, hi: nat, lo': nat, hi': nat, f: nat)
    requires lo <= lo' <= hi' <= hi && f !in FramesTouching(lo, hi)
    ensures f !in FramesTouching(lo', hi')
  {
  }

  lemma LoadingKept(m: Memory, m': Memory, lv: Levels, r: nat, data: set<nat>, at: Layout, frames: set<int>)
    requires Mapped(m, r, at) && FramesOk(m, data, at) && SameLookups(m, m', lv) && r in lv && lv[r] == 4
    requires SameOutside(m, m', frames)
    ensures Mapped(m', r, at) && FramesOk(m', data, at) && (Complete(m, r, at) ==> Complete(m', r, at))
  {
    hide Walk, UserPath;
    MappedKept(m, m', lv, r, at);
  }

  /** The loader fails to translate only a page that could not be mapped. */
  lemma NotTranslated(m: Memory, r: nat, at: Layout, v: nat, data: set<nat>)
    requires Mapped(m, r, at) && FramesOk(m, data, at) && USER_ADDRESS_MIN <= v < USER_ADDRESS_LIMIT
    requires v / PAGE_SIZE in at && AddressOf(Walk(m, r, 4, v)) == 0
    ensures !Complete(m, r, at)
  {
    hide Walk, UserPath, Index;
    UserIndices(v);
    assert MappedTo(m, r, at[PageNumber(v)], v);
    assert at[PageNumber(v)].frame != 0;
  }

  /** What one segment's copy loop works on. */
  datatype Job = Job(lo: nat, hi: nat, address: nat, source: nat, size: nat)

  ghost predicate JobOk(job: Job, words: nat, at: Layout, pool: set<nat>)
  {
    && USER_ADDRESS_MIN <= job.address && job.address + job.size <= USER_ADDRESS_LIMIT
    && job.lo <= job.address / PAGE_SIZE && (job.size > 0 ==> (job.address + job.size - 1) / PAGE_SIZE < job.hi)
    && (forall p: nat :: job.lo <= p < job.hi ==> p in at && at[p].frame in pool)
    && job.source + job.size <= 8 * words && FramesTouching(job.source, job.source + job.size) !! pool
  }

  /** The state after `n` bytes of the job. */
  ghost predicate Copied(m: Memory, m0: Memory, r: nat, at: Layout, job: Job, n: nat)
  {
    && Content(m, m0, at, job.lo, job.hi, job.address, n, job.source)
    && Present(m, r, job.address, job.address + n)
    && SameRange(m0, m, job.source, job.source + job.size)
  }

  lemma JobChunk(job: Job, words: nat, at: Layout, pool: set<nat>, n: nat, chunk: nat)
    requires JobOk(job, words, at, pool) && n < job.size && chunk > 0 && n + chunk <= job.size
    ensures var p := (job.address + n) / PAGE_SIZE;
            job.lo <= p < job.hi && p in at && at[p].frame in pool
            && at[p].frame !in FramesTouching(job.source, job.source + job.size)
            && at[p].frame !in FramesTouching(job.source + n, job.source + n + chunk)
  {
    hide FramesTouching;
    var p := (job.address + n) / PAGE_SIZE;
    assert job.address / PAGE_SIZE <= p <= (job.address + job.size - 1) / PAGE_SIZE;
    SubRangeFrames(job.source, job.source + job.size, job.source + n, job.source + n + chunk, at[p].frame);
  }

  lemma CopiedStep(m: Memory, m': Memory, m0: Memory, lv: Levels, r: nat, at: Layout, job: Job, n: nat, chunk: nat,
                   data: set<nat>, pool: set<nat>)
    requires JobOk(job, |m0|, at, pool) && FramesOk(m, data, at) && Copied(m, m0, r, at, job, n)
    requires n < job.size && 0 < chunk && n + chunk <= job.size && (job.address + n) % PAGE_SIZE + chunk <= PAGE_SIZE
    requires r in lv && lv[r] == 4 && SameLookups(m, m', lv) && |m'| == |m|
    requires Present(m, r, job.address + n, job.address + n + chunk)
    requires (job.address + n) / PAGE_SIZE in at
    requires var s := at[(job.address + n) / PAGE_SIZE];
             && SameOutside(m, m', {s.frame})
             && ChunkStored(m, m', PlaceOf(s, job.address + n), job.source + n, chunk)
    ensures Copied(m', m0, r, at, job, n + chunk)
  {
    hide Content, Present, Walk, FramesTouching, SameLookups, ChunkStored, Byte;
    JobChunk(job, |m0|, at, pool, n, chunk);
    ContentAfterChunk(m, m', m0, at, job.lo, job.hi, job.address, n, job.source, chunk);
    PresentKept(m, m', lv, r, job.address, job.address + n, job.address + n + chunk);
    RangeKept(m0, m, m', job.source, job.source + job.size, at[(job.address + n) / PAGE_SIZE].frame);
  }

  /** The body of the copy loop: translate, cut a chunk at the page end, copy. */
  method CopyStep(k: AddressSpaces, pml4: nat, destination: Word, source: nat, remaining: nat,
                  ghost at: Layout, ghost job: Job, ghost m0: Memory, ghost pool: set<nat>, ghost n: nat)
    returns (ok: bool, chunk: nat)
    requires pml4 % PAGE_SIZE == 0
    requires Loading(k, FrameOf(pml4), at) && pool <= k.data && JobOk(job, |m0|, at, pool)
    requires 0 < remaining && n + remaining == job.size
    requires destination == job.address + n && source == job.source + n
    requires Copied(k.Mem(), m0, FrameOf(pml4), at, job, n)
    modifies k.pmm.ram
    ensures Loading(k, FrameOf(pml4), at) && k.pmm.Free() == old(k.pmm.Free())
    ensures SameOutside(old(k.Mem()), k.Mem(), pool)
    ensures SameLookups(old(k.Mem()), k.Mem(), k.tables) && BootSeen(old(k.Mem()), k.tables, k.Mem(), k.tables, k.boot)
    ensures !ok ==> Short(k.pmm.Free())
    ensures ok ==> 0 < chunk <= remaining && destination % PAGE_SIZE + chunk <= PAGE_SIZE
    ensures ok ==> Copied(k.Mem(), m0, FrameOf(pml4), at, job, n + chunk)
  {
    hide FreeSet, TablesValid, Separate, SameLookups, BootSeen, Copied, JobOk, Mapped, Complete, FramesOk, Walk, Fits,
      FramesTouching, SameOutside, PlaceOf, Present, Short;
    ghost var m, r := k.Mem(), FrameOf(pml4);
    SameStateKept(m, k.tables, k.boot);
    SameOutsideRefl(m, pool);
    StepPlace(job, |m0|, at, pool, n, remaining);
    var destinationPhys := k.Translate(pml4, destination);
    if destinationPhys == 0 {
      NotTranslated(m, r, at, destination, k.data);
      return false, 0;
    }
    var pageRemaining := PAGE_SIZE - destination % PAGE_SIZE;
    chunk := if remaining < pageRemaining then remaining else pageRemaining;
    JobChunk(job, |m0|, at, pool, n, chunk);
    JobAddresses(job, |m0|, at, pool, n, chunk, m, m0, r);
    TranslatedPlace(m, r, at, destination, chunk, k.data);
    CopyPart(k, destinationPhys, source, chunk, r, at, job, m0, pool, n);
    ok := true;
  }

  lemma StepPlace(job: Job, words: nat, at: Layout, pool: set<nat>, n: nat, remaining: nat)
    requires JobOk(job, words, at, pool) && n + remaining == job.size && remaining > 0
    ensures USER_ADDRESS_MIN <= job.address + n < USER_ADDRESS_LIMIT && (job.address + n) / PAGE_SIZE in at
  {
    hide FramesTouching;
    JobChunk(job, words, at, pool, n, remaining);
  }

  /** The copy_memory call of the loop and what it achieves. */
  method CopyPart(k: AddressSpaces, destinationPhys: nat, source: nat, chunk: nat,
                  ghost r: nat, ghost at: Layout, ghost job: Job, ghost m0: Memory, ghost pool: set<nat>, ghost n: nat)
    requires Loading(k, r, at) && pool <= k.data && JobOk(job, |m0|, at, pool)
    requires n < job.size && 0 < chunk && n + chunk <= job.size && (job.address + n) % PAGE_SIZE + chunk <= PAGE_SIZE
    requires source == job.source + n && (job.address + n) / PAGE_SIZE in at
    requires destinationPhys == PlaceOf(at[(job.address + n) / PAGE_SIZE], job.address + n)
    requires Copied(k.Mem(), m0, r, at, job, n) && Present(k.Mem(), r, job.address + n, job.address + n + chunk)
    modifies k.pmm.ram
    ensures Loading(k, r, at) && k.pmm.Free() == old(k.pmm.Free())
    ensures SameOutside(old(k.Mem()), k.Mem(), pool)
    ensures SameLookups(old(k.Mem()), k.Mem(), k.tables) && BootSeen(old(k.Mem()), k.tables, k.Mem(), k.tables, k.boot)
    ensures Copied(k.Mem(), m0, r, at, job, n + chunk)
  {
    hide FreeSet, TablesValid, Separate, SameLookups, BootSeen, Copied, JobOk, Mapped, Complete, FramesOk, Walk,
      Present, PlaceOf, FramesTouching;
    ghost var m, data := k.Mem(), k.data;
    ghost var f := at[(job.address + n) / PAGE_SIZE].frame;
    JobChunk(job, |m0|, at, pool, n, chunk);
    JobAddresses(job, |m0|, at, pool, n, chunk, m, m0, r);
    SlotFacts(m, data, at, (job.address + n) / PAGE_SIZE, job.address + n, chunk);
    CopyChunk(k, destinationPhys, source, chunk, f);
    CopiedStep(m, k.Mem(), m0, k.tables, r, at, job, n, chunk, data, pool);
    LoadingKept(m, k.Mem(), k.tables, r, data, at, {f});
  }

  lemma SlotFacts(m: Memory, data: set<nat>, at: Layout, p: nat, v: nat, chunk: nat)
    requires FramesOk(m, data, at) && p in at && v % PAGE_SIZE + chunk <= PAGE_SIZE
    ensures at[p].frame in data && InRam(m, at[p].frame)
    ensures PAGE_SIZE * at[p].frame <= PlaceOf(at[p], v)
    ensures PlaceOf(at[p], v) + chunk <= PAGE_SIZE * at[p].frame + PAGE_SIZE
  {
  }

  lemma SameStateKept(m: Memory, lv: Levels, b: Boot)
    requires TablesValid(m, lv, b)
    ensures SameLookups(m, m, lv) && BootSeen(m, lv, m, lv, b)
  {
  }

  lemma JobAddresses(job: Job, words: nat, at: Layout, pool: set<nat>, n: nat, chunk: nat, m: Memory, m0: Memory,
                     r: nat)
    requires JobOk(job, words, at, pool) && n + chunk <= job.size && words == |m0| && Copied(m, m0, r, at, job, n)
    ensures USER_ADDRESS_MIN <= job.address && job.address + n + chunk <= USER_ADDRESS_LIMIT
    ensures job.source + n + chunk <= 8 * |m| && |m| == |m0|
  {
  }

  lemma KeptTransitive(m: Memory, m': Memory, m'': Memory, lv: Levels, b: Boot, frames: set<int>)
    requires SameOutside(m, m', frames) && SameLookups(m, m', lv) && BootSeen(m, lv, m', lv, b)
    requires SameOutside(m', m'', frames) && SameLookups(m', m'', lv) && BootSeen(m', lv, m'', lv, b)
    ensures SameOutside(m, m'', frames) && SameLookups(m, m'', lv) && BootSeen(m, lv, m'', lv, b)
  {
    hide Walk, IsLink, Child;
    forall s, w | s in lv && lv[s] == 4
      ensures Walk(m'', s, 4, w) == Walk(m, s, 4, w)
    {
      assert Walk(m', s, 4, w) == Walk(m, s, 4, w);
    }
  }

  /** The copy loop of elf_load_from_ramfs. */
  method CopySegment(k: AddressSpaces, pml4: nat, address: Word, source0: nat, size: nat,
                     ghost at: Layout, ghost job: Job, ghost m0: Memory, ghost pool: set<nat>)
    returns (ok: bool)
    requires pml4 % PAGE_SIZE == 0
    requires Loading(k, FrameOf(pml4), at) && pool <= k.data && JobOk(job, |m0|, at, pool)
    requires address == job.address && source0 == job.source && size == job.size
    requires Copied(k.Mem(), m0, FrameOf(pml4), at, job, 0)
    modifies k.pmm.ram
    ensures Loading(k, FrameOf(pml4), at) && k.pmm.Free() == old(k.pmm.Free())
    ensures SameOutside(old(k.Mem()), k.Mem(), pool)
    ensures SameLookups(old(k.Mem()), k.Mem(), k.tables) && BootSeen(old(k.Mem()), k.tables, k.Mem(), k.tables, k.boot)
    ensures !ok ==> Short(k.pmm.Free())
    ensures ok ==> Copied(k.Mem(), m0, FrameOf(pml4), at, job, size)
  {
    hide FreeSet, TablesValid, Separate, SameLookups, BootSeen, Copied, Mapped, Complete, FramesOk, SameOutside,
      Short;
    ghost var m, free, n := k.Mem(), k.pmm.Free(), 0;
    var bytesRemaining, destination, source := size, address, source0;
    SameStateKept(m, k.tables, k.boot);
    SameOutsideRefl(m, pool);
    while bytesRemaining > 0
      invariant n + bytesRemaining == size && destination == job.address + n && source == job.source + n
      invariant Loading(k, FrameOf(pml4), at) && k.pmm.Free() == free
      invariant SameOutside(m, k.Mem(), pool) && SameLookups(m, k.Mem(), k.tables)
      invariant BootSeen(m, k.tables, k.Mem(), k.tables, k.boot)
      invariant Copied(k.Mem(), m0, FrameOf(pml4), at, job, n)
    {
      ghost var m' := k.Mem();
      var chunk;
      ok, chunk := CopyStep(k, pml4, destination, source, bytesRemaining, at, job, m0, pool, n);
      KeptTransitive(m, m', k.Mem(), k.tables, k.boot, pool);
      if !ok {
        return;
      }
      n := n + chunk;
      destination := destination + chunk;
      source := source + chunk;
      bytesRemaining := bytesRemaining - chunk;
    }
    ok := true;
  }

  lemma SameOutsideRefl(m: Memory, frames: set<int>)
    ensures SameOutside(m, m, frames)
  {
  }
}
