/** elf_load_from_ramfs (kernel_os/src/elf.cpp): from header checks to the image
    of every loadable segment. */
module ElfLoader {
  import opened Wrappers
  import opened Bits
  import opened PageEntry
  import opened Ram
  import opened Pmm
  import opened PageTables
  import opened BootPaging
  import opened Vmm
  import opened Elf

  function FirstPage(seg: Segment): nat
  {
    AlignDown(seg.address) / PAGE_SIZE
  }

  function EndPage(seg: Segment): nat
  {
    AlignUp(seg.address + seg.memorySize) / PAGE_SIZE
  }

  function Pages(seg: Segment): nat
  {
    if FirstPage(seg) <= EndPage(seg) then EndPage(seg) - FirstPage(seg) else 0
  }

  function JobOf(file: File, seg: Segment): Job
  {
    Job(FirstPage(seg), EndPage(seg), seg.address, file.data + seg.offset, seg.fileSize)
  }

  function PageFlags(seg: Segment): Word
  {
    if Has(seg.flags, WRITABLE) then Or(USER, WRITABLE) else USER
  }

  lemma PageFlagsMeaning(seg: Segment)
    ensures Has(PageFlags(seg), USER) && Base(PageFlags(seg)) == 0
    ensures Has(PageFlags(seg), WRITABLE) == Has(seg.flags, WRITABLE) && !Has(PageFlags(seg), NO_EXECUTE)
  {
    hide And, Or;
    FlagConstants();
    MergeFlag(USER, WRITABLE, USER);
    MergeFlag(USER, WRITABLE, WRITABLE);
    MergeFlag(USER, WRITABLE, NO_EXECUTE);
    NoExecuteConstants();
    MergeBase(USER, WRITABLE);
  }

  /** The checks on one PT_LOAD header make its work well-formed: whole pages of
      user addresses, no wrap-around, and only reads inside the file. */
  lemma SegmentRanges(seg: Segment, file: File, words: nat)
    requires SegmentFits(seg, file.size) && file.data + file.size <= 8 * words
    ensures var lo, hi := AlignDown(seg.address), AlignUp(seg.address + seg.memorySize);
            && lo % PAGE_SIZE == 0 && hi % PAGE_SIZE == 0 && USER_ADDRESS_MIN <= lo <= hi <= USER_ADDRESS_LIMIT
            && lo == PAGE_SIZE * FirstPage(seg) && hi == PAGE_SIZE * EndPage(seg)
            && hi - (seg.address + seg.memorySize) < PAGE_SIZE
    ensures var job := JobOf(file, seg);
            && USER_ADDRESS_MIN <= job.address && job.address + job.size <= USER_ADDRESS_LIMIT
            && job.lo <= job.address / PAGE_SIZE
            && (job.size > 0 ==> (job.address + job.size - 1) / PAGE_SIZE < job.hi)
            && file.data <= job.source && job.source + job.size <= file.data + file.size
  {
    AlignedRange(seg.address, seg.memorySize);
  }

  /** A loaded segment, in terms of the layout. */
  ghost predicate SegmentLoaded(m: Memory, m0: Memory, r: nat, at: Layout, file: File, seg: Segment)
  {
    && Copied(m, m0, r, at, JobOf(file, seg), seg.fileSize)
    && forall p: nat :: FirstPage(seg) <= p < EndPage(seg) ==> p in at && at[p].writable == Has(seg.flags, WRITABLE)
  }

  lemma JobReady(m: Memory, m0: Memory, r: nat, at: Layout, at': Layout, file: File, seg: Segment,
                 free: set<nat>, pool: set<nat>, bitmap: set<int>, tables: set<nat>)
    requires SegmentFits(seg, file.size) && FileApart(file, |m0|, free, bitmap, tables) && pool <= free
    requires PagesPlaced(at, at', FirstPage(seg), EndPage(seg), pool, Has(seg.flags, WRITABLE))
    requires PagesZero(m, at', FirstPage(seg), EndPage(seg)) && SameFile(m0, m, file)
    ensures JobOk(JobOf(file, seg), |m0|, at', pool)
    ensures Copied(m, m0, r, at', JobOf(file, seg), 0)
  {
    hide Has, Walk, AlignUp, AlignDown, ZeroFrame, Content;
    SegmentRanges(seg, file, |m0|);
    ZeroContent(m, m0, at', FirstPage(seg), EndPage(seg), seg.address, file.data + seg.offset);
    var frames := FramesTouching(file.data + seg.offset, file.data + seg.offset + seg.fileSize);
    forall f | f in pool
      ensures f !in frames
    {
      SubRangeFrames(file.data, file.data + file.size, file.data + seg.offset,
                     file.data + seg.offset + seg.fileSize, f);
    }
  }

  /** The copy loop after the mapping loop, as one advance of the load. */
  lemma CopyAdvances(m: Memory, lv: Levels, free: set<nat>, data: set<nat>, m': Memory, lv': Levels, free': set<nat>,
                     data': set<nat>, m'': Memory, bitmap: set<int>, b: Boot, r: nat)
    requires Advanced(m, lv, free, data, m', lv', free', data', bitmap, b, r)
    requires SameOutside(m', m'', data' - data) && SameLookups(m', m'', lv') && BootSeen(m', lv', m'', lv', b)
    requires lv'.Keys !! data'
    ensures Advanced(m, lv, free, data, m'', lv', free', data', bitmap, b, r)
  {
    hide Walk, IsLink, Child, Index, UserOwned, RootsKept;
    RootsKeptOutside(m', m'', lv', r, data' - data);
    RootsKeptTwice(m, m', m'', lv, lv', r);
    forall s, w | s in lv && lv[s] == 4 && s != r && Index(w, 4) != 0
      ensures Walk(m'', s, 4, w) == Walk(m, s, 4, w)
    {
      assert Walk(m', s, 4, w) == Walk(m, s, 4, w);
      assert Walk(m'', s, 4, w) == Walk(m', s, 4, w);
    }
    if UserOwned(m, lv, data) {
      OwnedBySame(m', m'', lv', lv', data', data');
    }
  }

  lemma OwnKeptAfterCopy(m: Memory, m': Memory, m'': Memory, lv: Levels, r: nat, lo: nat, hi: nat)
    requires OwnKept(m, m', r, lo, hi) && SameLookups(m', m'', lv) && r in lv && lv[r] == 4
    ensures OwnKept(m, m'', r, lo, hi)
  {
    hide Walk, PageNumber;
    forall w | !(lo <= PageNumber(w) < hi)
      ensures Walk(m'', r, 4, w) == Walk(m, r, 4, w)
    {
      assert Walk(m', r, 4, w) == Walk(m, r, 4, w);
    }
  }

  /** The loader's work on one PT_LOAD header that passed its checks. */
  method LoadSegment(k: AddressSpaces, pml4: nat, file: File, seg: Segment, ghost at: Layout, ghost m0: Memory)
    returns (ok: bool, ghost at': Layout)
    requires pml4 % PAGE_SIZE == 0
    requires Loading(k, FrameOf(pml4), at) && SegmentFits(seg, file.size)
    requires FileApart(file, |m0|, k.pmm.Free(), k.pmm.BitmapFrames(), k.tables.Keys) && SameFile(m0, k.Mem(), file)
    modifies k.pmm`freePages, k.pmm`searchHint, k.pmm.ram, k`tables, k`data
    ensures k.Valid() && k.IsSpace(FrameOf(pml4))
    ensures Advanced(old(k.Mem()), old(k.tables), old(k.pmm.Free()), old(k.data),
                     k.Mem(), k.tables, k.pmm.Free(), k.data, k.pmm.BitmapFrames(), k.boot, FrameOf(pml4))
    ensures |old(k.pmm.Free())| <= |k.pmm.Free()| + 4 * Pages(seg)
    ensures !ok ==> Short(k.pmm.Free()) && |old(k.pmm.Free())| < 3 + 4 * Pages(seg)
    ensures ok ==>
              && Loading(k, FrameOf(pml4), at') && SegmentLoaded(k.Mem(), m0, FrameOf(pml4), at', file, seg)
              && PagesPlaced(at, at', FirstPage(seg), EndPage(seg), k.data - old(k.data), Has(seg.flags, WRITABLE))
              && OwnKept(old(k.Mem()), k.Mem(), FrameOf(pml4), FirstPage(seg), EndPage(seg))
  {
    hide FreeSet, TablesValid, Separate, FramesOk, Mapped, Complete, Advanced, PagesZero, OwnKept, SameLookups,
      BootSeen, SameOutside, Copied, JobOk, FileApart, SameFile, SegmentFits, PageFlags, AlignUp, AlignDown,
      FirstPage, EndPage;
    ghost var m, lv, free, data, bitmap := k.Mem(), k.tables, k.pmm.Free(), k.data, k.pmm.BitmapFrames();
    SegmentRangesOf(seg, file, m0, m);
    PageFlagsMeaning(seg);
    var segmentStart := AlignDown(seg.address);
    var segmentEnd := AlignUp(seg.address + seg.memorySize);
    ok, at' := MapSegment(k, pml4, segmentStart, segmentEnd, PageFlags(seg), at);
    if !ok {
      return;
    }
    ghost var m', lv', free', data' := k.Mem(), k.tables, k.pmm.Free(), k.data;
    FileStaysSame(file, m0, m, lv, free, data, m', lv', free', data', bitmap, k.boot, FrameOf(pml4));
    AdvancedSpent(m, lv, free, data, m', lv', free', data', bitmap, k.boot, FrameOf(pml4));
    JobReady(m', m0, FrameOf(pml4), at, at', file, seg, free, data' - data, bitmap, lv.Keys);
    ok := CopySegment(k, pml4, seg.address, file.data + seg.offset, seg.fileSize, at', JobOf(file, seg), m0,
        data' - data);
    TablesApart(free', bitmap, lv'.Keys, data');
    CopyAdvances(m, lv, free, data, m', lv', free', data', k.Mem(), bitmap, k.boot, FrameOf(pml4));
    OwnKeptAfterCopy(m, m', k.Mem(), lv', FrameOf(pml4), FirstPage(seg), EndPage(seg));
  }

  lemma SegmentRangesOf(seg: Segment, file: File, m0: Memory, m: Memory)
    requires SegmentFits(seg, file.size) && SameFile(m0, m, file)
    ensures var lo, hi := AlignDown(seg.address), AlignUp(seg.address + seg.memorySize);
            && lo % PAGE_SIZE == 0 && hi % PAGE_SIZE == 0 && USER_ADDRESS_MIN <= lo <= hi <= USER_ADDRESS_LIMIT
            && lo / PAGE_SIZE == FirstPage(seg) && hi / PAGE_SIZE == EndPage(seg)
    ensures Pages(seg) == EndPage(seg) - FirstPage(seg)
    ensures JobOf(file, seg) == Job(FirstPage(seg), EndPage(seg), seg.address, file.data + seg.offset, seg.fileSize)
    ensures seg.address < WORD_LIMIT
  {
    SegmentRanges(seg, file, |m|);
  }

  lemma AdvancedSpent(m: Memory, lv: Levels, free: set<nat>, data: set<nat>, m': Memory, lv': Levels, free': set<nat>,
                      data': set<nat>, bitmap: set<int>, b: Boot, r: nat)
    requires Advanced(m, lv, free, data, m', lv', free', data', bitmap, b, r)
    ensures free' <= free && data <= data' && data' - data <= free && lv'.Keys - lv.Keys <= free && |m'| == |m|
  {
  }

  lemma FileStaysSame(file: File, m0: Memory, m: Memory, lv: Levels, free: set<nat>, data: set<nat>,
                      m': Memory, lv': Levels, free': set<nat>, data': set<nat>, bitmap: set<int>, b: Boot, r: nat)
    requires FileApart(file, |m0|, free, bitmap, lv.Keys) && SameFile(m0, m, file)
    requires Advanced(m, lv, free, data, m', lv', free', data', bitmap, b, r)
    ensures SameFile(m0, m', file)
    ensures FileApart(file, |m0|, free', bitmap, lv'.Keys)
  {
    hide Byte;
    FileKept(file, m, lv, free, data, m', lv', free', data', bitmap, b, r);
  }

  // All segments

  /** The file holds an executable whose header passes all checks. */
  predicate WellFormed(m0: Memory, file: File)
  {
    file.data + file.size <= 8 * |m0| && HeaderOk(m0, file)
  }

  /** The program headers of the file. */
  function Headers(m0: Memory, file: File): (segs: seq<Segment>)
    requires WellFormed(m0, file)
    ensures |segs| == SegmentCount(m0, file)
    ensures forall i :: 0 <= i < |segs| ==> segs[i] == SegmentOf(m0, file, i)
  {
    seq(SegmentCount(m0, file), i requires 0 <= i < SegmentCount(m0, file) => SegmentOf(m0, file, i))
  }

  /** Each header is spelled by its 56 bytes of the table, which starts where the header
      of the file says and has as many entries as it says. */
  lemma HeadersBytes(m0: Memory, file: File, table: nat, i: nat)
    requires WellFormed(m0, file) && Spells(m0, file.data + 32, 8, table)
    ensures Spells(m0, file.data + 56, 2, |Headers(m0, file)|)
    ensures i < |Headers(m0, file)| ==>
              && file.data + table + 56 * i + 56 <= 8 * |m0|
              && IsProgramHeader(m0, file.data + table + 56 * i, Headers(m0, file)[i])
  {
    hide Spells, Field, Byte, IsProgramHeader, SegmentAt;
    HeaderBytes(m0, file);
    FieldSpells(m0, file.data + 32, 8, table);
    FieldSpells(m0, file.data + 32, 8, SegmentTable(m0, file) - file.data);
    if i < |Headers(m0, file)| {
      SegmentInFile(m0, file, i);
      SegmentBytes(m0, file, SegmentTable(m0, file) + i * PROGRAM_HEADER_SIZE);
    }
  }

  /** Header `i` is a segment to load. */
  predicate ToLoad(segs: seq<Segment>, i: nat)
  {
    i < |segs| && segs[i].kind == TYPE_LOAD
  }

  /** The first `n` headers pass the checks on segments. */
  ghost predicate SegmentsFit(segs: seq<Segment>, n: nat, fileSize: nat)
  {
    forall i: nat :: i < n && ToLoad(segs, i) ==> SegmentFits(segs[i], fileSize)
  }

  /** The pages of the first `n` headers together. */
  function PagesOf(segs: seq<Segment>, n: nat): nat
  {
    if n == 0 then 0 else PagesOf(segs, n - 1) + if ToLoad(segs, n - 1) then Pages(segs[n - 1]) else 0
  }

  lemma {:induction false} PagesGrow(segs: seq<Segment>, i: nat, n: nat)
    requires i <= n
    ensures PagesOf(segs, i) <= PagesOf(segs, n)
  {
    if i == n {
    } else {
      PagesGrow(segs, i, n - 1);
    }
  }

  /** Page `p` is one of the pages of the segment. */
  predicate Touches(seg: Segment, p: nat)
  {
    FirstPage(seg) <= p < EndPage(seg)
  }

  /** A segment loads exactly the pages its memory range overlaps, and for an empty
      range inside a page that page. */
  lemma TouchesMeaning(seg: Segment, fileSize: nat, p: nat)
    requires SegmentFits(seg, fileSize)
    ensures Touches(seg, p) <==> PAGE_SIZE * p < seg.address + seg.memorySize && seg.address < PAGE_SIZE * p + PAGE_SIZE
  {
    AlignedRange(seg.address, seg.memorySize);
  }

  /** Address `w` is backed by a byte of the file. */
  predicate Backs(seg: Segment, w: nat)
  {
    seg.address <= w < seg.address + seg.fileSize
  }

  /** What the segment wants to see at address `w` of its pages. */
  function ByteOf(m0: Memory, file: File, seg: Segment, w: nat): nat
    requires SegmentFits(seg, file.size) && file.data + file.size <= 8 * |m0|
  {
    if Backs(seg, w) then Byte(m0, file.data + seg.offset + (w - seg.address)) else 0
  }

  /** The last of the first `n` headers that loads page `p`. */
  function LastOn(segs: seq<Segment>, n: nat, p: nat): (last: Option<nat>)
    ensures last.Some? ==> last.value < n && ToLoad(segs, last.value) && Touches(segs[last.value], p)
    ensures forall i: nat :: i < n && ToLoad(segs, i) && Touches(segs[i], p) ==> last.Some? && i <= last.value
  {
    if n == 0 then None
    else if ToLoad(segs, n - 1) && Touches(segs[n - 1], p) then Some(n - 1)
    else LastOn(segs, n - 1, p)
  }

  /** Page `p` holds what segment `seg` wants there, with its write permission. */
  ghost predicate PageLoaded(m: Memory, m0: Memory, at: Layout, file: File, seg: Segment, p: nat)
    requires SegmentFits(seg, file.size) && file.data + file.size <= 8 * |m0|
  {
    && p in at && at[p].writable == Has(seg.flags, WRITABLE)
    && forall w: nat :: w / PAGE_SIZE == p ==>
         PlaceOf(at[p], w) / 8 < |m| && Byte(m, PlaceOf(at[p], w)) == ByteOf(m0, file, seg, w)
  }

  /** The pages of the first `n` segments hold what the last segment on each of them
      wants there, and all their file-backed bytes are mapped. */
  ghost predicate LoadedSoFar(m: Memory, m0: Memory, r: nat, at: Layout, file: File, segs: seq<Segment>, n: nat)
    requires file.data + file.size <= 8 * |m0|
  {
    && SegmentsFit(segs, n, file.size)
    && (forall i: nat :: i < n && ToLoad(segs, i) ==> Present(m, r, segs[i].address,
        segs[i].address + segs[i].fileSize))
    && (forall p: nat :: LastOn(segs, n, p).Some? ==>
          PageLoaded(m, m0, at, file, segs[LastOn(segs, n, p).value], p))
  }

  /** Pages of no segment are as they were in `m1`. */
  ghost predicate OnlySegments(m1: Memory, m: Memory, r: nat, segs: seq<Segment>, n: nat)
  {
    forall w :: LastOn(segs, n, PageNumber(w)).None? ==> Walk(m, r, 4, w) == Walk(m1, r, 4, w)
  }

  /** The pages of a segment that was just loaded. */
  lemma PageOfSegment(m: Memory, m0: Memory, r: nat, data: set<nat>, at: Layout, file: File, seg: Segment, p: nat)
    requires SegmentFits(seg, file.size) && file.data + file.size <= 8 * |m0| && Touches(seg, p)
    requires SegmentLoaded(m, m0, r, at, file, seg) && FramesOk(m, data, at)
    ensures PageLoaded(m, m0, at, file, seg, p)
  {
    hide Walk, Has, Byte, AlignUp, AlignDown, PlaceOf, Present, SameRange;
    forall w: nat | w / PAGE_SIZE == p
      ensures PlaceOf(at[p], w) / 8 < |m| && Byte(m, PlaceOf(at[p], w)) == ByteOf(m0, file, seg, w)
    {
      PlaceInRam(at[p], w, |m|);
    }
  }

  /** Loading other pages leaves a page as it is. */
  lemma PageStays(m: Memory, lv: Levels, free: set<nat>, data: set<nat>, m': Memory, lv': Levels, free': set<nat>,
                  data': set<nat>, bitmap: set<int>, b: Boot, r: nat, m0: Memory, at: Layout, at': Layout, file: File,
                  seg: Segment, p: nat)
    requires SegmentFits(seg, file.size) && file.data + file.size <= 8 * |m0|
    requires PageLoaded(m, m0, at, file, seg, p) && FramesOk(m, data, at) && p in at' && at'[p] == at[p]
    requires Advanced(m, lv, free, data, m', lv', free', data', bitmap, b, r)
    requires Separate(free', bitmap, lv'.Keys, data')
    ensures PageLoaded(m', m0, at', file, seg, p)
  {
    hide Has, Byte, PlaceOf, BootSeen, OthersKept, PagesKept, TablesGrew, ByteOf, SegmentFits;
    forall w: nat | w / PAGE_SIZE == p
      ensures PlaceOf(at'[p], w) / 8 < |m'| && Byte(m', PlaceOf(at'[p], w)) == Byte(m, PlaceOf(at[p], w))
    {
      PlaceInFrame(at[p], w);
      DataApart(free', bitmap, lv'.Keys, data', at[p].frame);
      SameBytes(m, m', bitmap + lv'.Keys + (data' - data), PlaceOf(at[p], w));
    }
  }

  lemma PlaceInFrame(s: Placement, w: nat)
    ensures FrameOf(PlaceOf(s, w)) == s.frame
  {
  }

  lemma PresentStays(m: Memory, m': Memory, lv: Levels, r: nat, lo: nat, hi: nat)
    requires Present(m, r, lo, hi) && PagesKept(m, m', lv) && r in lv && lv[r] == 4
    ensures Present(m', r, lo, hi)
  {
    hide Walk, UserPath;
  }

  /** The header fields can be read at any time during the load. */
  lemma HeaderKept(m0: Memory, m: Memory, file: File)
    requires SameFile(m0, m, file) && HeaderOk(m0, file)
    ensures HeaderOk(m, file) && SegmentCount(m, file) == SegmentCount(m0, file)
    ensures SegmentTable(m, file) == SegmentTable(m0, file)
  {
    hide Byte, Field, ValidUserRange;
    var d := file.data;
    FieldReadsFile(m0, m, file, d + 18, U16);
    FieldReadsFile(m0, m, file, d + 24, U64);
    FieldReadsFile(m0, m, file, d + 32, U64);
    FieldReadsFile(m0, m, file, d + 54, U16);
    FieldReadsFile(m0, m, file, d + 56, U16);
  }

  lemma SegmentHeaderKept(m0: Memory, m: Memory, file: File, i: nat)
    requires SameFile(m0, m, file) && HeaderOk(m0, file) && HeaderOk(m, file) && i < SegmentCount(m0, file)
    requires SegmentCount(m, file) == SegmentCount(m0, file) && SegmentTable(m, file) == SegmentTable(m0, file)
    ensures SegmentOf(m, file, i) == SegmentOf(m0, file, i)
  {
    hide HeaderOk, Field, SegmentCount, SegmentTable;
    SegmentInFile(m0, file, i);
    var a := SegmentTable(m0, file) + i * PROGRAM_HEADER_SIZE;
    FieldReadsFile(m0, m, file, a, U32);
    FieldReadsFile(m0, m, file, a + 4, U32);
    FieldReadsFile(m0, m, file, a + 8, U64);
    FieldReadsFile(m0, m, file, a + 16, U64);
    FieldReadsFile(m0, m, file, a + 32, U64);
    FieldReadsFile(m0, m, file, a + 40, U64);
  }

  lemma SkippedSegment(m1: Memory, m: Memory, m0: Memory, r: nat, at: Layout, file: File, segs: seq<Segment>, n: nat)
    requires file.data + file.size <= 8 * |m0| && !ToLoad(segs, n)
    requires LoadedSoFar(m, m0, r, at, file, segs, n) && OnlySegments(m1, m, r, segs, n)
    ensures LoadedSoFar(m, m0, r, at, file, segs, n + 1) && OnlySegments(m1, m, r, segs, n + 1)
  {
    hide SegmentFits, Present, PageLoaded, Walk, Touches;
    var next := n + 1;
    assert SegmentsFit(segs, next, file.size);
    forall p: nat
      ensures LastOn(segs, next, p) == LastOn(segs, n, p)
    {
    }
  }

  lemma NextSegment(m1: Memory, m: Memory, lv: Levels, free: set<nat>, data: set<nat>, m': Memory, lv': Levels,
                    free': set<nat>, data': set<nat>, bitmap: set<int>, b: Boot, r: nat, m0: Memory, at: Layout,
                    at': Layout, file: File, segs: seq<Segment>, n: nat)
    requires file.data + file.size <= 8 * |m0| && ToLoad(segs, n) && r in lv && lv[r] == 4
    requires LoadedSoFar(m, m0, r, at, file, segs, n) && OnlySegments(m1, m, r, segs, n)
    requires FramesOk(m, data, at) && FramesOk(m', data', at') && Separate(free', bitmap, lv'.Keys, data')
    requires Advanced(m, lv, free, data, m', lv', free', data', bitmap, b, r)
    requires var t := segs[n];
             && SegmentFits(t, file.size) && SegmentLoaded(m', m0, r, at', file, t)
             && PagesPlaced(at, at', FirstPage(t), EndPage(t), data' - data, Has(t.flags, WRITABLE))
             && OwnKept(m, m', r, FirstPage(t), EndPage(t))
    ensures LoadedSoFar(m', m0, r, at', file, segs, n + 1) && OnlySegments(m1, m', r, segs, n + 1)
  {
    hide SegmentFits, SegmentLoaded, PagesPlaced, OwnKept, Advanced, FramesOk, Has, Separate, PageLoaded, Present,
      Touches, Walk;
    var t, next := segs[n], n + 1;
    AdvancedPages(m, lv, free, data, m', lv', free', data', bitmap, b, r);
    LoadedIsPresent(m', m0, r, at', file, t);
    forall i: nat | i < next && ToLoad(segs, i)
      ensures Present(m', r, segs[i].address, segs[i].address + segs[i].fileSize)
    {
      if i < n {
        PresentStays(m, m', lv, r, segs[i].address, segs[i].address + segs[i].fileSize);
      }
    }
    forall p: nat | LastOn(segs, next, p).Some?
      ensures PageLoaded(m', m0, at', file, segs[LastOn(segs, next, p).value], p)
    {
      if Touches(t, p) {
        PageOfSegment(m', m0, r, data', at', file, t, p);
      } else {
        var seg := segs[LastOn(segs, n, p).value];
        OtherPage(m, m0, at, at', file, seg, t, p, data' - data);
        PageStays(m, lv, free, data, m', lv', free', data', bitmap, b, r, m0, at, at', file, seg, p);
      }
    }
    forall w | LastOn(segs, next, PageNumber(w)).None?
      ensures Walk(m', r, 4, w) == Walk(m1, r, 4, w)
    {
      OtherLookUp(m, m', r, t, w);
    }
  }

  lemma AdvancedPages(m: Memory, lv: Levels, free: set<nat>, data: set<nat>, m': Memory, lv': Levels, free': set<nat>,
                      data': set<nat>, bitmap: set<int>, b: Boot, r: nat)
    requires Advanced(m, lv, free, data, m', lv', free', data', bitmap, b, r)
    ensures PagesKept(m, m', lv)
  {
  }

  lemma LoadedIsPresent(m: Memory, m0: Memory, r: nat, at: Layout, file: File, seg: Segment)
    requires SegmentLoaded(m, m0, r, at, file, seg)
    ensures Present(m, r, seg.address, seg.address + seg.fileSize)
  {
  }

  lemma OtherPage(m: Memory, m0: Memory, at: Layout, at': Layout, file: File, seg: Segment, t: Segment, p: nat,
                  pool: set<nat>)
    requires SegmentFits(seg, file.size) && file.data + file.size <= 8 * |m0| && PageLoaded(m, m0, at, file, seg, p)
    requires PagesPlaced(at, at', FirstPage(t), EndPage(t), pool, Has(t.flags, WRITABLE)) && !Touches(t, p)
    ensures p in at' && at'[p] == at[p]
  {
  }

  lemma OtherLookUp(m: Memory, m': Memory, r: nat, t: Segment, w: nat)
    requires OwnKept(m, m', r, FirstPage(t), EndPage(t)) && !Touches(t, PageNumber(w))
    ensures Walk(m', r, 4, w) == Walk(m, r, 4, w)
  {
  }

  lemma SameFileFits(m0: Memory, m: Memory, file: File)
    requires SameFile(m0, m, file)
    ensures file.data + file.size <= 8 * |m0| && |m| == |m0|
  {
  }

  /** One round of the segment loop. */
  method LoadNext(k: AddressSpaces, pml4: nat, file: File, index: nat, ghost at: Layout, ghost m0: Memory,
                  ghost m1: Memory)
    returns (ok: bool, ghost at': Layout)
    requires pml4 % PAGE_SIZE == 0
    requires Loading(k, FrameOf(pml4), at) && SameFile(m0, k.Mem(), file)
    requires FileApart(file, |m0|, k.pmm.Free(), k.pmm.BitmapFrames(), k.tables.Keys)
    requires WellFormed(m0, file) && index < SegmentCount(m0, file)
    requires LoadedSoFar(k.Mem(), m0, FrameOf(pml4), at, file, Headers(m0, file), index)
    requires OnlySegments(m1, k.Mem(), FrameOf(pml4), Headers(m0, file), index)
    modifies k.pmm`freePages, k.pmm`searchHint, k.pmm.ram, k`tables, k`data
    ensures k.Valid() && k.IsSpace(FrameOf(pml4))
    ensures Advanced(old(k.Mem()), old(k.tables), old(k.pmm.Free()), old(k.data),
                     k.Mem(), k.tables, k.pmm.Free(), k.data, k.pmm.BitmapFrames(), k.boot, FrameOf(pml4))
    ensures |old(k.pmm.Free())| + 4 * PagesOf(Headers(m0, file), index)
         <= |k.pmm.Free()| + 4 * PagesOf(Headers(m0, file), index + 1)
    ensures !ok ==>
              || !SegmentsFit(Headers(m0, file), index + 1, file.size)
              || (Short(k.pmm.Free())
                  && |old(k.pmm.Free())| + 4 * PagesOf(Headers(m0, file), index)
                   < 3 + 4 * PagesOf(Headers(m0, file), index + 1))
    ensures ok ==>
              && Loading(k, FrameOf(pml4), at')
              && LoadedSoFar(k.Mem(), m0, FrameOf(pml4), at', file, Headers(m0, file), index + 1)
              && OnlySegments(m1, k.Mem(), FrameOf(pml4), Headers(m0, file), index + 1)
  {
    hide FreeSet, TablesValid, FramesOk, Mapped, Complete, Short, Advanced, OwnKept, SameFile, HeaderOk, SegmentOf,
      SegmentCount, SegmentFits, SegmentLoaded, PagesPlaced, LoadedSoFar, OnlySegments, SegmentTable, Separate,
      FileApart, Headers;
    ghost var m, lv, free, data, bitmap := k.Mem(), k.tables, k.pmm.Free(), k.data, k.pmm.BitmapFrames();
    SameFileFits(m0, m, file);
    HeaderKept(m0, m, file);
    SegmentHeaderKept(m0, m, file, index);
    var program := SegmentOf(k.pmm.ram[..], file, index);
    AdvancedFromStart(m, lv, free, data, bitmap, k.boot, FrameOf(pml4));
    if program.kind != TYPE_LOAD {
      SkippedSegment(m1, m, m0, FrameOf(pml4), at, file, Headers(m0, file), index);
      return true, at;
    }
    if !SegmentFits(program, file.size) {
      UnfitSegment(Headers(m0, file), index, file.size);
      return false, at;
    }
    ok, at' := LoadSegment(k, pml4, file, program, at, m0);
    FileStaysSame(file, m0, m, lv, free, data, k.Mem(), k.tables, k.pmm.Free(), k.data, bitmap, k.boot, FrameOf(pml4));
    if ok {
      NextSegment(m1, m, lv, free, data, k.Mem(), k.tables, k.pmm.Free(), k.data, bitmap, k.boot, FrameOf(pml4),
                  m0, at, at', file, Headers(m0, file), index);
    }
  }

  lemma UnfitSegment(segs: seq<Segment>, i: nat, fileSize: nat)
    requires ToLoad(segs, i) && !SegmentFits(segs[i], fileSize)
    ensures !SegmentsFit(segs, i + 1, fileSize)
  {
  }

  lemma AdvancedFromStart(m: Memory, lv: Levels, free: set<nat>, data: set<nat>, bitmap: set<int>, b: Boot, r: nat)
    requires TablesValid(m, lv, b)
    ensures Advanced(m, lv, free, data, m, lv, free, data, bitmap, b, r)
  {
    StartSegment(m, lv, free, data, bitmap, b, r, map[], 0, false);
  }

  /** The loop over all program headers. */
  method LoadSegments(k: AddressSpaces, pml4: nat, file: File, count: nat, ghost m0: Memory)
    returns (ok: bool, ghost at: Layout)
    requires pml4 % PAGE_SIZE == 0
    requires Loading(k, FrameOf(pml4), map[]) && SameFile(m0, k.Mem(), file)
    requires FileApart(file, |m0|, k.pmm.Free(), k.pmm.BitmapFrames(), k.tables.Keys)
    requires WellFormed(m0, file) && count == SegmentCount(m0, file)
    modifies k.pmm`freePages, k.pmm`searchHint, k.pmm.ram, k`tables, k`data
    ensures k.Valid() && k.IsSpace(FrameOf(pml4))
    ensures Advanced(old(k.Mem()), old(k.tables), old(k.pmm.Free()), old(k.data),
                     k.Mem(), k.tables, k.pmm.Free(), k.data, k.pmm.BitmapFrames(), k.boot, FrameOf(pml4))
    ensures |old(k.pmm.Free())| <= |k.pmm.Free()| + 4 * PagesOf(Headers(m0, file), count)
    ensures !ok ==>
              || !SegmentsFit(Headers(m0, file), count, file.size)
              || (Short(k.pmm.Free()) && |old(k.pmm.Free())| < 3 + 4 * PagesOf(Headers(m0, file), count))
    ensures ok ==>
              && Loading(k, FrameOf(pml4), at)
              && LoadedSoFar(k.Mem(), m0, FrameOf(pml4), at, file, Headers(m0, file), count)
              && OnlySegments(old(k.Mem()), k.Mem(), FrameOf(pml4), Headers(m0, file), count)
  {
    hide FreeSet, TablesValid, FramesOk, Mapped, Complete, Short, Advanced, SameFile, HeaderOk, SegmentOf,
      SegmentCount, Separate, FileApart, SegmentFits, PageLoaded, LastOn, Headers;
    ghost var m, lv, free, data, bitmap := k.Mem(), k.tables, k.pmm.Free(), k.data, k.pmm.BitmapFrames();
    AdvancedFromStart(m, lv, free, data, bitmap, k.boot, FrameOf(pml4));
    SameFileFits(m0, m, file);
    ghost var segs := Headers(m0, file);
    NoSegmentsYet(m, m0, FrameOf(pml4), file, segs);
    at := map[];
    for index := 0 to count
      invariant Loading(k, FrameOf(pml4), at) && SameFile(m0, k.Mem(), file)
      invariant FileApart(file, |m0|, k.pmm.Free(), bitmap, k.tables.Keys)
      invariant Advanced(m, lv, free, data, k.Mem(), k.tables, k.pmm.Free(), k.data, bitmap, k.boot, FrameOf(pml4))
      invariant LoadedSoFar(k.Mem(), m0, FrameOf(pml4), at, file, segs, index)
      invariant OnlySegments(m, k.Mem(), FrameOf(pml4), segs, index)
      invariant |free| <= |k.pmm.Free()| + 4 * PagesOf(segs, index)
    {
      PagesGrow(segs, index + 1, count);
      ghost var m', lv', free', data' := k.Mem(), k.tables, k.pmm.Free(), k.data;
      ok, at := LoadNext(k, pml4, file, index, at, m0, m);
      FileStaysSame(file, m0, m', lv', free', data', k.Mem(), k.tables, k.pmm.Free(), k.data, bitmap, k.boot,
          FrameOf(pml4));
      AdvancedTransitive(m, lv, free, data, m', lv', free', data', k.Mem(), k.tables, k.pmm.Free(), k.data,
                         bitmap, k.boot, FrameOf(pml4));
      if !ok {
        return;
      }
    }
    ok := true;
  }

  lemma NoSegmentsYet(m: Memory, m0: Memory, r: nat, file: File, segs: seq<Segment>)
    requires file.data + file.size <= 8 * |m0|
    ensures LoadedSoFar(m, m0, r, map[], file, segs, 0) && OnlySegments(m, m, r, segs, 0)
  {
  }

  /** Space `r` shows slot 0 of space `c` and nothing else. */
  ghost predicate OnlyKernel(m0: Memory, m: Memory, c: nat, r: nat)
  {
    forall w :: Walk(m, r, 4, w) == if Index(w, 4) == 0 then Walk(m0, c, 4, w) else None
  }

  /** A new program space that sees the kernel through slot 0. */
  method NewProgramSpace(k: AddressSpaces, cr3: nat) returns (pml4: nat)
    requires cr3 % PAGE_SIZE == 0
    requires k.Valid() && SeesBoot(k.Mem(), k.tables, k.boot, FrameOf(cr3))
    modifies k.pmm`freePages, k.pmm`searchHint, k.pmm.ram, k`tables
    ensures k.Valid() && k.data == old(k.data)
    ensures pml4 == 0 ==>
              k.Mem() == old(k.Mem()) && k.tables == old(k.tables) && k.pmm.Free() == old(k.pmm.Free()) == {}
    ensures pml4 != 0 ==> |old(k.pmm.Free())| == |k.pmm.Free()| + 1
    ensures pml4 != 0 ==>
              && pml4 % PAGE_SIZE == 0 && FrameOf(pml4) !in old(k.tables) && Loading(k, FrameOf(pml4), map[])
              && SeesBoot(k.Mem(), k.tables, k.boot, FrameOf(pml4))
              && OnlyKernel(old(k.Mem()), k.Mem(), FrameOf(cr3), FrameOf(pml4))
              && Advanced(old(k.Mem()), old(k.tables), old(k.pmm.Free()), old(k.data),
                          k.Mem(), k.tables, k.pmm.Free(), k.data, k.pmm.BitmapFrames(), k.boot, FrameOf(pml4))
  {
    hide FreeSet, TablesValid, Separate, Walk, SameLookups, SameOutside, EmptyTable, UserClosed, OnlyKernel;
    ghost var m, lv, free, bitmap := k.Mem(), k.tables, k.pmm.Free(), k.pmm.BitmapFrames();
    SeparateMeans(free, bitmap, lv.Keys, k.data, 0);
    pml4 := k.CreateAddressSpace();
    if pml4 == 0 {
      return;
    }
    ghost var m', f := k.Mem(), FrameOf(pml4);
    SeparateMeans(free, bitmap, lv.Keys, k.data, f);
    k.ShareKernelSlot(pml4, cr3);
    NewSpaceAdvances(m, lv, free, k.data, m', k.Mem(), bitmap, k.boot, f, FrameOf(cr3));
  }

  lemma NewSpaceAdvances(m: Memory, lv: Levels, free: set<nat>, data: set<nat>, m': Memory, m'': Memory,
                         bitmap: set<int>, b: Boot, f: nat, c: nat)
    requires f in free && f !in lv && c in lv && lv[c] == 4
    requires SameOutside(m, m', bitmap + {f}) && SameLookups(m, m', lv) && BootSeen(m, lv, m', lv[f := 4], b)
    requires SameOutside(m', m'', {f}) && SlotCopied(m', m'', lv[f := 4], f, c) && lv.Keys !! bitmap
    requires BootSeen(m', lv[f := 4], m'', lv[f := 4], b) && forall v :: Walk(m', f, 4, v) == None
    ensures Advanced(m, lv, free, data, m'', lv[f := 4], free - {f}, data, bitmap, b, f)
    ensures FramesOk(m'', data, map[]) && Mapped(m'', f, map[]) && Complete(m'', f, map[])
    ensures OnlyKernel(m, m'', c, f)
  {
    hide Walk, UserPath, IsLink, Child, Index, UserOwned, RootsKept;
    SameOutsideBoth(m, m', m'', bitmap + {f}, {f});
    RootsKeptNew(m, m'', lv, f, bitmap);
    if UserOwned(m, lv, data) {
      NewSpaceOwned(m, lv, data, m', m'', f, c);
    }
    var lv' := lv[f := 4];
    assert lv'.Keys == lv.Keys + {f};
    assert bitmap + {f} <= bitmap + lv'.Keys + (data - data);
    forall s, w | s in lv && lv[s] == 4 && s != f
      ensures Walk(m'', s, 4, w) == Walk(m, s, 4, w) && (UserPath(m, s, 4, w) && Walk(m, s, 4, w).Some?
          ==> UserPath(m'', s, 4, w))
    {
      assert Walk(m', s, 4, w) == Walk(m, s, 4, w);
      assert Walk(m'', s, 4, w) == Walk(m', s, 4, w);
    }
    forall w
      ensures Walk(m'', f, 4, w) == if Index(w, 4) == 0 then Walk(m, c, 4, w) else None
    {
      assert Walk(m', c, 4, w) == Walk(m, c, 4, w);
    }
  }

  lemma SameOutsideBoth(m: Memory, m': Memory, m'': Memory, frames: set<int>, more: set<int>)
    requires SameOutside(m, m', frames) && SameOutside(m', m'', more) && more <= frames
    ensures SameOutside(m, m'', frames)
  {
  }

  lemma RootsKeptNew(m: Memory, m'': Memory, lv: Levels, f: nat, bitmap: set<int>)
    requires TablesInRam(m, lv) && SameOutside(m, m'', bitmap + {f}) && f !in lv && lv.Keys !! bitmap
    ensures RootsKept(m, m'', lv, f)
  {
    RootsKeptOutside(m, m'', lv, f, bitmap + {f});
  }

  lemma NewSpaceOwned(m: Memory, lv: Levels, data: set<nat>, m': Memory, m'': Memory, f: nat, c: nat)
    requires UserOwned(m, lv, data) && SameLookups(m, m', lv) && SlotCopied(m', m'', lv[f := 4], f, c)
    requires f !in lv && c in lv && lv[c] == 4 && forall v :: Walk(m', f, 4, v) == None
    ensures UserOwned(m'', lv[f := 4], data)
  {
    hide Walk, UserPath, Index, PagesKept;
    var lv' := lv[f := 4];
    forall s, w | s in lv' && lv'[s] == 4
      ensures OwnedAt(m'', s, w, data)
    {
      if s == f {
        assert OwnedAt(m, c, w, data);
      } else {
        assert OwnedAt(m, s, w, data);
      }
    }
  }

  /** Spaces that existed before the load look the same outside PML4 slot 0. */
  ghost predicate LeftAlone(m: Memory, m': Memory, lv: Levels)
  {
    forall s, w :: s in lv && lv[s] == 4 && Index(w, 4) != 0 ==> Walk(m', s, 4, w) == Walk(m, s, 4, w)
  }

  /** Nothing was written to the PML4 of a space that existed before. */
  ghost predicate AllRootsKept(m: Memory, m': Memory, lv: Levels)
    requires TablesInRam(m, lv)
  {
    |m'| == |m| && forall s, i: nat :: s in lv && lv[s] == 4 && i < ENTRIES ==> Entry(m', s, i) == Entry(m, s, i)
  }

  /** What the load as a whole may have done, successful or not. */
  ghost predicate OnlyLoaded(m: Memory, lv: Levels, free: set<nat>, data: set<nat>, m': Memory, lv': Levels,
                             free': set<nat>, data': set<nat>, bitmap: set<int>, b: Boot)
  {
    && TablesGrew(lv, lv') && BootSeen(m, lv, m', lv', b) && LeftAlone(m, m', lv) && AllRootsKept(m, m', lv)
    && PagesKept(m, m', lv)
    && Spent(free, lv.Keys, data, free', lv'.Keys, data')
    && SameOutside(m, m', bitmap + lv'.Keys + (data' - data))
    && (UserOwned(m, lv, data) ==> UserOwned(m', lv', data'))
  }

  lemma AdvancedOnlyLoaded(m: Memory, lv: Levels, free: set<nat>, data: set<nat>, m': Memory, lv': Levels,
                           free': set<nat>, data': set<nat>, bitmap: set<int>, b: Boot, r: nat)
    requires Advanced(m, lv, free, data, m', lv', free', data', bitmap, b, r) && r !in lv
    ensures OnlyLoaded(m, lv, free, data, m', lv', free', data', bitmap, b)
  {
    hide Walk, Index, IsLink, Child, UserOwned;
  }

  lemma NothingLoaded(m: Memory, lv: Levels, free: set<nat>, data: set<nat>, bitmap: set<int>, b: Boot)
    requires TablesValid(m, lv, b)
    ensures OnlyLoaded(m, lv, free, data, m, lv, free, data, bitmap, b)
  {
  }

  /** If `w` is mapped, user code reaches it and may execute it, with the segment's write
      permission, and finds the byte the segment wants there. */
  ghost predicate Shows(m: Memory, m0: Memory, r: nat, file: File, seg: Segment, w: nat)
    requires SegmentFits(seg, file.size) && file.data + file.size <= 8 * |m0|
  {
    var l := Walk(m, r, 4, w);
    l.Some? ==>
      && Effective(m, r, w) == l && l.value.user && l.value.writable == Has(seg.flags, WRITABLE)
      && !l.value.noExecute && l.value.address / 8 < |m| && Byte(m, l.value.address) == ByteOf(m0, file, seg, w)
  }

  /** What space `r` shows: on every page of the program the bytes and rights of the
      last segment there, with all file-backed bytes mapped, and elsewhere slot 0 of
      space `c` and nothing else. */
  ghost predicate ProgramImage(m: Memory, m0: Memory, r: nat, c: nat, file: File, segs: seq<Segment>)
    requires file.data + file.size <= 8 * |m0|
  {
    && SegmentsFit(segs, |segs|, file.size)
    && (forall i: nat, w: nat :: ToLoad(segs, i) && Backs(segs[i], w) ==> Walk(m, r, 4, w).Some?)
    && (forall w: nat :: Last(segs, w).Some? ==> Shows(m, m0, r, file, segs[Last(segs, w).value], w))
    && (forall w :: LastOn(segs, |segs|, PageNumber(w)).None? ==>
          Walk(m, r, 4, w) == if Index(w, 4) == 0 then Walk(m0, c, 4, w) else None)
  }

  /** The last segment on the page of address `w`. */
  function Last(segs: seq<Segment>, w: nat): Option<nat>
  {
    LastOn(segs, |segs|, w / PAGE_SIZE)
  }

  /** Every page of every segment is mapped. */
  ghost predicate AllMapped(m: Memory, r: nat, segs: seq<Segment>)
  {
    forall w: nat :: Last(segs, w).Some? ==> Walk(m, r, 4, w).Some?
  }

  lemma TouchedIsUser(seg: Segment, file: File, w: nat)
    requires SegmentFits(seg, file.size) && Touches(seg, w / PAGE_SIZE)
    ensures PageNumber(w) == w / PAGE_SIZE
  {
    hide AlignUp, AlignDown, Index, PageNumber;
    SegmentRanges(seg, file, file.data + file.size);
    UserIndices(w);
  }

  lemma PageShows(m: Memory, lv: Levels, b: Boot, m0: Memory, r: nat, at: Layout, file: File, seg: Segment, w: nat)
    requires TablesValid(m, lv, b) && r in lv && lv[r] == 4 && Mapped(m, r, at)
    requires SegmentFits(seg, file.size) && file.data + file.size <= 8 * |m0| && Touches(seg, w / PAGE_SIZE)
    requires PageLoaded(m, m0, at, file, seg, w / PAGE_SIZE)
    ensures Shows(m, m0, r, file, seg, w)
  {
    hide Walk, UserPath, Has, Byte, ByteOf, SegmentFits, Touches, BootOk, SeesBoot, PageNumber, Effective,
      LinksDescend, OneParent;
    TouchedIsUser(seg, file, w);
    assert MappedTo(m, r, at[PageNumber(w)], w);
    ClosedSpaceRights(m, lv, r, w);
  }

  lemma LoadedProgram(m: Memory, lv: Levels, b: Boot, m0: Memory, m1: Memory, r: nat, c: nat, at: Layout, file: File,
                      segs: seq<Segment>)
    requires file.data + file.size <= 8 * |m0| && TablesValid(m, lv, b) && r in lv && lv[r] == 4
    requires LoadedSoFar(m, m0, r, at, file, segs, |segs|) && Mapped(m, r, at)
    requires OnlySegments(m1, m, r, segs, |segs|) && OnlyKernel(m0, m1, c, r)
    ensures ProgramImage(m, m0, r, c, file, segs)
    ensures Complete(m, r, at) ==> AllMapped(m, r, segs)
  {
    hide SegmentFits, Mapped, TablesValid, Walk, Touches, PageLoaded, Shows, Index, PageNumber;
    forall i: nat, w: nat | ToLoad(segs, i) && Backs(segs[i], w)
      ensures Walk(m, r, 4, w).Some?
    {
      assert Present(m, r, segs[i].address, segs[i].address + segs[i].fileSize);
    }
    forall w: nat | Last(segs, w).Some?
      ensures Shows(m, m0, r, file, segs[Last(segs, w).value], w)
      ensures Complete(m, r, at) ==> Walk(m, r, 4, w).Some?
    {
      var seg := segs[Last(segs, w).value];
      PageShows(m, lv, b, m0, r, at, file, seg, w);
      TouchedIsUser(seg, file, w);
      LoadedPageIsPlaced(m, m0, at, file, seg, w / PAGE_SIZE);
    }
  }

  lemma LoadedPageIsPlaced(m: Memory, m0: Memory, at: Layout, file: File, seg: Segment, p: nat)
    requires SegmentFits(seg, file.size) && file.data + file.size <= 8 * |m0| && PageLoaded(m, m0, at, file, seg, p)
    ensures p in at
  {
  }

  /** All segments of the program pass the loader's checks. */
  ghost predicate AllFit(segs: seq<Segment>, file: File)
  {
    SegmentsFit(segs, |segs|, file.size)
  }

  /** Frames for the PML4, for every page and the three tables above it, and three more. */
  ghost predicate Enough(free: set<nat>, segs: seq<Segment>)
  {
    4 + 4 * PagesOf(segs, |segs|) <= |free|
  }

  /** Enough is left after the PML4 and, in the end, for the last page. */
  lemma EnoughMeans(free: set<nat>, segs: seq<Segment>, left: nat, end: set<nat>)
    requires |free| == left + 1 && left <= |end| + 4 * PagesOf(segs, |segs|)
    ensures Enough(free, segs) ==> !Short(end) && left >= 3 + 4 * PagesOf(segs, |segs|)
  {
  }

  /** elf_load_from_ramfs.  It succeeds for every well-formed executable whose segments
      pass their checks, unless it ends with fewer than three free frames; then the new
      space shows the program (`ProgramImage`); four free frames and four more for each
      page are enough for that.  Nobody else is affected outside PML4
      slot 0. */
  method Load(k: AddressSpaces, cr3: nat, file: Option<File>) returns (ok: bool, entry: nat, pml4: nat)
    requires cr3 % PAGE_SIZE == 0
    requires k.Valid() && SeesBoot(k.Mem(), k.tables, k.boot, FrameOf(cr3))
    requires file.Some? ==> FileApart(file.value, |k.Mem()|, k.pmm.Free(), k.pmm.BitmapFrames(), k.tables.Keys)
    modifies k.pmm`freePages, k.pmm`searchHint, k.pmm.ram, k`tables, k`data
    ensures k.Valid()
    ensures OnlyLoaded(old(k.Mem()), old(k.tables), old(k.pmm.Free()), old(k.data),
                       k.Mem(), k.tables, k.pmm.Free(), k.data, k.pmm.BitmapFrames(), k.boot)
    ensures file.None? || !HeaderOk(old(k.Mem()), file.value) ==>
              !ok && k.Mem() == old(k.Mem()) && k.tables == old(k.tables)
    ensures !ok && file.Some? && HeaderOk(old(k.Mem()), file.value) ==>
              || !AllFit(Headers(old(k.Mem()), file.value), file.value)
              || Short(k.pmm.Free())
    ensures file.Some? && HeaderOk(old(k.Mem()), file.value) && AllFit(Headers(old(k.Mem()), file.value), file.value)
            && Enough(old(k.pmm.Free()), Headers(old(k.Mem()), file.value)) ==>
              ok && AllMapped(k.Mem(), FrameOf(pml4), Headers(old(k.Mem()), file.value))
    ensures ok ==>
              && Spells(old(k.Mem()), file.value.data + 24, 8, entry)
              && entry == EntryPoint(old(k.Mem()), file.value)
              && k.IsSpace(FrameOf(pml4)) && pml4 % PAGE_SIZE == 0 && FrameOf(pml4) !in old(k.tables)
              && SeesBoot(k.Mem(), k.tables, k.boot, FrameOf(pml4))
              && ProgramImage(k.Mem(), old(k.Mem()), FrameOf(pml4), FrameOf(cr3), file.value, Headers(old(k.Mem()),
                  file.value))
              && (!Short(k.pmm.Free()) ==> AllMapped(k.Mem(), FrameOf(pml4), Headers(old(k.Mem()), file.value)))
  {
    hide FreeSet, Spells, EntryPoint, Field, TablesValid, HeaderOk, Separate, OnlyLoaded, ProgramImage, AllMapped,
      Short, AllFit, SeesBoot, FileApart, Headers;
    NothingLoaded(k.Mem(), k.tables, k.pmm.Free(), k.data, k.pmm.BitmapFrames(), k.boot);
    if file.None? {
      return false, 0, 0;
    }
    FileApartFits(file.value, |k.Mem()|, k.pmm.Free(), k.pmm.BitmapFrames(), k.tables.Keys);
    if !HeaderOk(k.pmm.ram[..], file.value) {
      return false, 0, 0;
    }
    HeaderBytes(k.Mem(), file.value);
    entry := EntryPoint(k.pmm.ram[..], file.value);
    ok, pml4 := BuildImage(k, cr3, file.value);
  }

  /** The part of elf_load_from_ramfs after the header checks. */
  method BuildImage(k: AddressSpaces, cr3: nat, f: File) returns (ok: bool, pml4: nat)
    requires cr3 % PAGE_SIZE == 0
    requires k.Valid() && SeesBoot(k.Mem(), k.tables, k.boot, FrameOf(cr3))
    requires FileApart(f, |k.Mem()|, k.pmm.Free(), k.pmm.BitmapFrames(), k.tables.Keys) && WellFormed(k.Mem(), f)
    modifies k.pmm`freePages, k.pmm`searchHint, k.pmm.ram, k`tables, k`data
    ensures k.Valid()
    ensures OnlyLoaded(old(k.Mem()), old(k.tables), old(k.pmm.Free()), old(k.data),
                       k.Mem(), k.tables, k.pmm.Free(), k.data, k.pmm.BitmapFrames(), k.boot)
    ensures !ok ==> !AllFit(Headers(old(k.Mem()), f), f) || Short(k.pmm.Free())
    ensures AllFit(Headers(old(k.Mem()), f), f) && Enough(old(k.pmm.Free()), Headers(old(k.Mem()), f)) ==>
              ok && !Short(k.pmm.Free())
    ensures ok ==>
              && k.IsSpace(FrameOf(pml4)) && pml4 % PAGE_SIZE == 0 && FrameOf(pml4) !in old(k.tables)
              && SeesBoot(k.Mem(), k.tables, k.boot, FrameOf(pml4))
              && ProgramImage(k.Mem(), old(k.Mem()), FrameOf(pml4), FrameOf(cr3), f, Headers(old(k.Mem()), f))
              && (!Short(k.pmm.Free()) ==> AllMapped(k.Mem(), FrameOf(pml4), Headers(old(k.Mem()), f)))
  {
    hide FreeSet, TablesValid, FramesOk, Mapped, Complete, Advanced, SameFile, HeaderOk, SegmentOf, SegmentCount,
      Separate, OnlyLoaded, ProgramImage, AllMapped, SeesBoot, FileApart, LoadedSoFar, OnlySegments, OnlyKernel,
      Headers, SegmentsFit;
    ghost var m0, lv, free, data, bitmap := k.Mem(), k.tables, k.pmm.Free(), k.data, k.pmm.BitmapFrames();
    FileApartFits(f, |m0|, free, bitmap, lv.Keys);
    NothingLoaded(m0, lv, free, data, bitmap, k.boot);
    var count := SegmentCount(k.pmm.ram[..], f);
    pml4 := NewProgramSpace(k, cr3);
    if pml4 == 0 {
      return false, 0;
    }
    ghost var m', lv', free', data', r := k.Mem(), k.tables, k.pmm.Free(), k.data, FrameOf(pml4);
    FileUntouched(f, m0);
    FileStaysSame(f, m0, m0, lv, free, data, m', lv', free', data', bitmap, k.boot, r);
    ghost var at;
    ok, at := LoadSegments(k, pml4, f, count, m0);
    EnoughMeans(free, Headers(m0, f), |free'|, k.pmm.Free());
    StillSeesBoot(m', lv', free', data', k.Mem(), k.tables, k.pmm.Free(), k.data, bitmap, k.boot, r);
    AdvancedTransitive(m0, lv, free, data, m', lv', free', data', k.Mem(), k.tables, k.pmm.Free(), k.data, bitmap,
        k.boot, r);
    AdvancedOnlyLoaded(m0, lv, free, data, k.Mem(), k.tables, k.pmm.Free(), k.data, bitmap, k.boot, r);
    if ok {
      LoadedProgram(k.Mem(), k.tables, k.boot, m0, m', r, FrameOf(cr3), at, f, Headers(m0, f));
    }
  }

  lemma FileApartFits(file: File, words: nat, free: set<nat>, bitmap: set<int>, tables: set<nat>)
    requires FileApart(file, words, free, bitmap, tables)
    ensures file.data + file.size <= 8 * words
  {
  }

  lemma FileUntouched(file: File, m: Memory)
    requires file.data + file.size <= 8 * |m|
    ensures SameFile(m, m, file)
  {
  }

  lemma StillSeesBoot(m: Memory, lv: Levels, free: set<nat>, data: set<nat>, m': Memory, lv': Levels, free': set<nat>,
                      data': set<nat>, bitmap: set<int>, b: Boot, r: nat)
    requires Advanced(m, lv, free, data, m', lv', free', data', bitmap, b, r)
    ensures TablesInRam(m, lv) && TablesInRam(m', lv') && (SeesBoot(m, lv, b, r) ==> SeesBoot(m', lv', b, r))
  {
  }
}
