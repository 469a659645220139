/** What a loaded program means for its segments one by one: exactly when the image
    of a segment is right, and a program whose image is not. */
module ProgramImages {
  import opened Wrappers
  import opened PageEntry
  import opened Ram
  import opened PageTables
  import opened Elf
  import opened ElfLoader

  /** The memory range of segment `seg` is right: what is mapped there can be reached
      by user code and holds the segment's byte, and the file-backed bytes are mapped. */
  ghost predicate SegmentImage(m: Memory, m0: Memory, r: nat, file: File, seg: Segment)
    requires SegmentFits(seg, file.size) && file.data + file.size <= 8 * |m0|
  {
    forall w: nat :: seg.address <= w < seg.address + seg.memorySize ==> ByteImage(m, m0, r, file, seg, w)
  }

  ghost predicate ByteImage(m: Memory, m0: Memory, r: nat, file: File, seg: Segment, w: nat)
    requires SegmentFits(seg, file.size) && file.data + file.size <= 8 * |m0|
  {
    var l := Effective(m, r, w);
    && (Backs(seg, w) ==> l.Some?)
    && (l.Some? ==>
          l.value.user && l.value.address / 8 < |m| && Byte(m, l.value.address) == ByteOf(m0, file, seg, w))
  }

  /** At every address of segment `i` the last segment on the page wants the same byte. */
  ghost predicate Unspoiled(m0: Memory, file: File, segs: seq<Segment>, i: nat)
    requires ToLoad(segs, i) && SegmentsFit(segs, |segs|, file.size) && file.data + file.size <= 8 * |m0|
  {
    forall w: nat :: segs[i].address <= w < segs[i].address + segs[i].memorySize ==> SameByte(m0, file, segs, i, w)
  }

  ghost predicate SameByte(m0: Memory, file: File, segs: seq<Segment>, i: nat, w: nat)
    requires ToLoad(segs, i) && SegmentsFit(segs, |segs|, file.size) && file.data + file.size <= 8 * |m0|
  {
    var last := Last(segs, w);
    last.Some? && ByteOf(m0, file, segs[last.value], w) == ByteOf(m0, file, segs[i], w)
  }

  lemma InsideTouches(seg: Segment, file: File, w: nat)
    requires SegmentFits(seg, file.size) && seg.address <= w < seg.address + seg.memorySize
    ensures Touches(seg, w / PAGE_SIZE)
  {
    AlignedRange(seg.address, seg.memorySize);
  }

  /** One address: its byte is right exactly if the last segment there agrees.  Where
      they differ one of the two has a byte of the file there, so it is mapped. */
  lemma ByteExactly(m: Memory, m0: Memory, r: nat, c: nat, file: File, segs: seq<Segment>, i: nat, w: nat)
    requires file.data + file.size <= 8 * |m0| && ProgramImage(m, m0, r, c, file, segs) && ToLoad(segs, i)
    requires segs[i].address <= w < segs[i].address + segs[i].memorySize
    ensures ByteImage(m, m0, r, file, segs[i], w) <==> SameByte(m0, file, segs, i, w)
  {
    hide Walk, UserPath, WritablePath, SegmentFits, Touches, Byte, Has, Index, PageNumber, LastOn;
    InsideTouches(segs[i], file, w);
    var last := Last(segs, w);
    assert Shows(m, m0, r, file, segs[last.value], w);
  }

  /** The image of a segment is right if and only if no later segment on one of its
      pages wants another byte inside its memory range. */
  lemma ImageExactly(m: Memory, m0: Memory, r: nat, c: nat, file: File, segs: seq<Segment>, i: nat)
    requires file.data + file.size <= 8 * |m0| && ProgramImage(m, m0, r, c, file, segs) && ToLoad(segs, i)
    ensures SegmentImage(m, m0, r, file, segs[i]) <==> Unspoiled(m0, file, segs, i)
  {
    hide ByteImage, SameByte, ProgramImage, SegmentFits;
    assert SegmentsFit(segs, |segs|, file.size) by { FittingImage(m, m0, r, c, file, segs); }
    forall w: nat | segs[i].address <= w < segs[i].address + segs[i].memorySize
      ensures ByteImage(m, m0, r, file, segs[i], w) <==> SameByte(m0, file, segs, i, w)
    {
      ByteExactly(m, m0, r, c, file, segs, i, w);
    }
  }

  lemma FittingImage(m: Memory, m0: Memory, r: nat, c: nat, file: File, segs: seq<Segment>)
    requires file.data + file.size <= 8 * |m0| && ProgramImage(m, m0, r, c, file, segs)
    ensures SegmentsFit(segs, |segs|, file.size)
  {
  }

  /** No later segment loads a page that holds file bytes of segment `i`, or has file
      bytes in the memory range of segment `i`. */
  ghost predicate NotOverwritten(segs: seq<Segment>, i: nat)
    requires i < |segs|
  {
    forall j: nat, w: nat :: i < j && ToLoad(segs, j) && segs[i].address <= w < segs[i].address + segs[i].memorySize ==>
      !(Backs(segs[i], w) && Touches(segs[j], w / PAGE_SIZE)) && !Backs(segs[j], w)
  }

  /** A condition on the headers alone. */
  lemma NotOverwrittenIsUnspoiled(m0: Memory, file: File, segs: seq<Segment>, i: nat)
    requires ToLoad(segs, i) && SegmentsFit(segs, |segs|, file.size) && file.data + file.size <= 8 * |m0|
    requires NotOverwritten(segs, i)
    ensures Unspoiled(m0, file, segs, i)
  {
    hide SegmentFits, Touches, Byte, LastOn;
    forall w: nat | segs[i].address <= w < segs[i].address + segs[i].memorySize
      ensures SameByte(m0, file, segs, i, w)
    {
      InsideTouches(segs[i], file, w);
    }
  }

  /** A nonzero file byte is lost when the last segment on its page does not back it. */
  lemma LostByte(m: Memory, m0: Memory, r: nat, c: nat, file: File, segs: seq<Segment>, i: nat, w: nat)
    requires file.data + file.size <= 8 * |m0| && ProgramImage(m, m0, r, c, file, segs) && ToLoad(segs, i)
    requires Backs(segs[i], w) && ByteOf(m0, file, segs[i], w) != 0
    requires Last(segs, w).Some? && !Backs(segs[Last(segs, w).value], w)
    ensures var l := Walk(m, r, 4, w); l.Some? && l.value.address / 8 < |m| && Byte(m, l.value.address) == 0
    ensures !SegmentImage(m, m0, r, file, segs[i])
  {
    hide Walk, UserPath, WritablePath, SegmentFits, Touches, Byte, Has, Index, PageNumber, LastOn, SegmentImage;
    assert Shows(m, m0, r, file, segs[Last(segs, w).value], w);
    assert !SameByte(m0, file, segs, i, w);
    RangeOfFile(segs[i], file, w);
    ImageExactly(m, m0, r, c, file, segs, i);
  }

  lemma RangeOfFile(seg: Segment, file: File, w: nat)
    requires SegmentFits(seg, file.size) && Backs(seg, w)
    ensures seg.address <= w < seg.address + seg.memorySize
  {
  }

  ghost predicate PagesApart(s: Segment, t: Segment)
  {
    EndPage(s) <= FirstPage(t) || EndPage(t) <= FirstPage(s)
  }

  lemma BackedTouches(seg: Segment, file: File, w: nat)
    requires SegmentFits(seg, file.size) && Backs(seg, w)
    ensures Touches(seg, w / PAGE_SIZE)
  {
    RangeOfFile(seg, file, w);
    InsideTouches(seg, file, w);
  }

  lemma ApartByte(s: Segment, t: Segment, file: File, w: nat)
    requires SegmentFits(s, file.size) && SegmentFits(t, file.size) && PagesApart(s, t)
    requires s.address <= w < s.address + s.memorySize
    ensures !Touches(t, w / PAGE_SIZE) && !Backs(t, w)
  {
    hide SegmentFits, FirstPage, EndPage;
    InsideTouches(s, file, w);
    if Backs(t, w) { BackedTouches(t, file, w); }
  }

  lemma ApartNotOverwritten(file: File, segs: seq<Segment>, i: nat)
    requires ToLoad(segs, i) && SegmentsFit(segs, |segs|, file.size)
    requires forall j: nat :: i < j && ToLoad(segs, j) ==> PagesApart(segs[i], segs[j])
    ensures NotOverwritten(segs, i)
  {
    hide SegmentFits, PagesApart, Touches, Backs;
    forall j: nat, w: nat | i < j && ToLoad(segs, j) && segs[i].address <= w < segs[i].address + segs[i].memorySize
      ensures !Touches(segs[j], w / PAGE_SIZE) && !Backs(segs[j], w)
    {
      ApartByte(segs[i], segs[j], file, w);
    }
  }

  /** In terms of bytes: byte k of the segment's file part is at its k-th address, and the
      rest of its memory reads as zero. */
  lemma SegmentBytesShown(m: Memory, m0: Memory, r: nat, c: nat, file: File, segs: seq<Segment>, i: nat, k: nat)
    requires file.data + file.size <= 8 * |m0| && ProgramImage(m, m0, r, c, file, segs) && ToLoad(segs, i)
    requires forall j: nat :: i < j && ToLoad(segs, j) ==> PagesApart(segs[i], segs[j])
    requires k < segs[i].memorySize
    ensures var l := Walk(m, r, 4, segs[i].address + k);
      && (k < segs[i].fileSize ==>
            && l.Some? && l.value.address / 8 < |m| && (file.data + segs[i].offset + k) / 8 < |m0|
            && Byte(m, l.value.address) == Byte(m0, file.data + segs[i].offset + k))
      && (k >= segs[i].fileSize && l.Some? ==> l.value.address / 8 < |m| && Byte(m, l.value.address) == 0)
  {
    hide Walk, UserPath, WritablePath, FirstPage, EndPage, Has, Byte, LastOn, SegmentImage, PagesApart, NotOverwritten;
    WholePages(m, m0, r, c, file, segs, i);
    InsideTouches(segs[i], file, segs[i].address + k);
    assert Shows(m, m0, r, file, segs[i], segs[i].address + k);
    assert Backs(segs[i], segs[i].address + k) <==> k < segs[i].fileSize;
  }

  /** A segment that shares no page with a later one gets its whole pages: its bytes,
      zeros around them, and its own write permission. */
  lemma WholePages(m: Memory, m0: Memory, r: nat, c: nat, file: File, segs: seq<Segment>, i: nat)
    requires file.data + file.size <= 8 * |m0| && ProgramImage(m, m0, r, c, file, segs) && ToLoad(segs, i)
    requires forall j: nat :: i < j && ToLoad(segs, j) ==> PagesApart(segs[i], segs[j])
    ensures SegmentsFit(segs, |segs|, file.size) && NotOverwritten(segs, i)
    ensures forall w: nat :: Touches(segs[i], w / PAGE_SIZE) ==> Shows(m, m0, r, file, segs[i], w)
    ensures SegmentImage(m, m0, r, file, segs[i])
  {
    hide Walk, SegmentFits, FirstPage, EndPage, Shows, LastOn, ByteImage, Unspoiled, NotOverwritten;
    forall w: nat | Touches(segs[i], w / PAGE_SIZE)
      ensures Shows(m, m0, r, file, segs[i], w)
    {
      assert Last(segs, w) == Some(i);
    }
    ApartNotOverwritten(file, segs, i);
    NotOverwrittenIsUnspoiled(m0, file, segs, i);
    ImageExactly(m, m0, r, c, file, segs, i);
  }

  // A program whose segments share a page and whose image is not right

  const OVERLAP_DATA: nat := 0x10_0000
  const OVERLAP_WORDS: nat := 0x2_0000 + 22

  /** The eight words of the Elf64Header of an executable with this many program
      headers right behind it, and entry point 0x40000000. */
  function HeaderWord(i: nat, count: Word): Word
  {
    if i == 0 then 0x0000_0102_464C_457F
    else if i == 2 then 0x0000_0001_003E_0002
    else if i == 3 then 0x4000_0000
    else if i == 4 then 0x40
    else if i == 6 then 0x0038_0040_0000_0000
    else if i == 7 then count
    else 0
  }

  /** An executable with two segments of one byte each, both the first byte of the
      file, at 0x40000000 and at 0x40000800. */
  function OverlapWord(i: nat): Word
  {
    if i < 8 then HeaderWord(i, 2)
    else if i == 8 || i == 15 then 0x0000_0004_0000_0001
    else if i == 10 then 0x4000_0000
    else if i == 17 then 0x4000_0800
    else if i == 12 || i == 13 || i == 19 || i == 20 then 1
    else if i == 14 || i == 21 then 0x1000
    else 0
  }

  /** RAM that holds the file at 1 MiB. */
  ghost predicate HoldsOverlap(m0: Memory)
  {
    |m0| >= OVERLAP_WORDS && forall i: nat :: i < 22 ==> m0[0x2_0000 + i] == OverlapWord(i)
  }

  const OVERLAP_FILE: File := File(OVERLAP_DATA, 176)

  function OverlapSegment(address: nat): Segment
  {
    Segment(TYPE_LOAD, 4, 0, address, 1, 1)
  }

  lemma OverlapExists() returns (m0: Memory)
    ensures HoldsOverlap(m0)
  {
    m0 := seq(OVERLAP_WORDS, i requires 0 <= i < OVERLAP_WORDS => if i < 0x2_0000 then 0
        else OverlapWord(i - 0x2_0000));
  }

  /** The word without its lowest `j` bytes, and the number its lowest `n` bytes spell. */
  function Shifted(w: nat, j: nat): nat
    decreases j
  {
    if j == 0 then w else Shifted(w / 0x100, j - 1)
  }

  function Low(w: nat, n: nat): nat
    decreases n
  {
    if n == 0 then 0 else w % 0x100 + 0x100 * Low(w / 0x100, n - 1)
  }

  lemma {:induction false} ShiftedByte(w: nat, j: nat)
    ensures WordByte(w, j) == Shifted(w, j) % 0x100
    ensures Shifted(w, j + 1) == Shifted(w, j) / 0x100
    decreases j
  {
    if j == 0 {
    } else {
      ShiftedByte(w / 0x100, j - 1);
    }
  }

  lemma {:induction false} LowIsAll(w: nat, n: nat)
    requires w < Pow256(n)
    ensures Low(w, n) == w
    decreases n
  {
    if n == 0 {
    } else {
      LowIsAll(w / 0x100, n - 1);
    }
  }

  /** A field inside one word. */
  lemma {:induction false} FieldOfWord(m: Memory, k: nat, j: nat, n: nat)
    requires k < |m| && j + n <= 8
    ensures Field(m, 8 * k + j, n) == Low(Shifted(m[k], j), n)
    decreases n
  {
    if n == 0 {
    } else {
      assert (8 * k + j) / 8 == k && (8 * k + j) % 8 == j;
      ShiftedByte(m[k], j);
      FieldOfWord(m, k, j + 1, n - 1);
    }
  }

  lemma WordField(m: Memory, k: nat)
    requires k < |m|
    ensures Field(m, 8 * k, U64) == m[k]
  {
    FieldOfWord(m, k, 0, 8);
    assert Pow256(4) == 0x1_0000_0000;
    LowIsAll(m[k], 8);
  }

  lemma HeaderLiterals(count: nat)
    requires count < 0x100
    ensures Low(Shifted(0x0000_0001_003E_0002, 2), 2) == MACHINE_X86_64
    ensures Low(Shifted(0x0038_0040_0000_0000, 6), 2) == PROGRAM_HEADER_SIZE
    ensures Low(Shifted(count, 0), 2) == count
  {
  }

  /** The type and the flags of a program header in one word. */
  lemma TypeAndFlags(w: nat, flags: nat)
    requires w == 0x1_0000_0000 * flags + 1 && flags < 0x100
    ensures Low(Shifted(w, 0), 4) == TYPE_LOAD && Low(Shifted(w, 4), 4) == flags
  {
    var a, b, c := 0x100_0000 * flags, 0x1_0000 * flags, 0x100 * flags;
    assert w / 0x100 == a && a / 0x100 == b && b / 0x100 == c && c / 0x100 == flags;
    assert Shifted(w, 4) == Shifted(a, 3) == Shifted(b, 2) == Shifted(c, 1) == flags;
    assert Low(c, 1) == 0 && Low(b, 2) == 0 && Low(a, 3) == 0;
    assert Low(0, 3) == 0;
  }

  lemma Magic()
    ensures var w := 0x0000_0102_464C_457F;
            && WordByte(w, 0) == 0x7F && WordByte(w, 1) == 'E' as nat && WordByte(w, 2) == 'L' as nat
            && WordByte(w, 3) == 'F' as nat && WordByte(w, 4) == 2 && WordByte(w, 5) == 1
  {
  }

  ghost predicate HoldsHeader(m0: Memory, count: Word)
  {
    |m0| >= 0x2_0008 && forall i: nat :: i < 8 ==> m0[0x2_0000 + i] == HeaderWord(i, count)
  }

  lemma HeaderRead(m0: Memory, count: Word, size: nat)
    requires HoldsHeader(m0, count) && count < 0x100
    requires 64 + 56 * count <= size && OVERLAP_DATA + size <= 8 * |m0|
    ensures var file := File(OVERLAP_DATA, size);
      && WellFormed(m0, file) && SegmentCount(m0, file) == count && SegmentTable(m0, file) == OVERLAP_DATA + 64
      && EntryPoint(m0, file) == 0x4000_0000
  {
    hide Field;
    FieldOfWord(m0, 0x2_0002, 2, U16);
    WordField(m0, 0x2_0003);
    WordField(m0, 0x2_0004);
    FieldOfWord(m0, 0x2_0006, 6, U16);
    FieldOfWord(m0, 0x2_0007, 0, U16);
    HeaderFields(m0, count);
  }

  lemma HeaderFields(m0: Memory, count: Word)
    requires HoldsHeader(m0, count) && count < 0x100
    ensures m0[0x2_0003] == 0x4000_0000 && m0[0x2_0004] == 0x40
    ensures Low(Shifted(m0[0x2_0002], 2), 2) == MACHINE_X86_64
    ensures Low(Shifted(m0[0x2_0006], 6), 2) == PROGRAM_HEADER_SIZE
    ensures Low(Shifted(m0[0x2_0007], 0), 2) == count
    ensures Byte(m0, OVERLAP_DATA) == 0x7F && Byte(m0, OVERLAP_DATA + 1) == 'E' as nat
    ensures Byte(m0, OVERLAP_DATA + 2) == 'L' as nat && Byte(m0, OVERLAP_DATA + 3) == 'F' as nat
    ensures Byte(m0, OVERLAP_DATA + 4) == 2 && Byte(m0, OVERLAP_DATA + 5) == 1
  {
    hide Low, Shifted, WordByte;
    Magic();
    assert m0[0x2_0000 + 0] == HeaderWord(0, count) && m0[0x2_0000 + 2] == HeaderWord(2, count)
        && m0[0x2_0000 + 3] == HeaderWord(3, count);
    assert m0[0x2_0000 + 4] == HeaderWord(4, count) && m0[0x2_0000 + 6] == HeaderWord(6, count)
        && m0[0x2_0000 + 7] == HeaderWord(7, count);
    HeaderLiterals(count);
  }

  /** A program header of file offset 0 that starts at word k. */
  lemma SegmentRead(m0: Memory, file: File, k: nat, flags: nat)
    requires file.data <= 8 * k && 8 * k + 56 <= file.data + file.size <= 8 * |m0| && m0[k + 1] == 0
    requires m0[k] == if flags == 6 then 0x0000_0006_0000_0001 else 0x0000_0004_0000_0001
    requires flags == 4 || flags == 6
    ensures SegmentAt(m0, file, 8 * k) == Segment(TYPE_LOAD, flags, 0, m0[k + 2], m0[k + 4], m0[k + 5])
  {
    hide Field, Low, Shifted;
    FieldOfWord(m0, k, 0, U32);
    FieldOfWord(m0, k, 4, U32);
    TypeAndFlags(m0[k], flags);
    WordField(m0, k + 1);
    WordField(m0, k + 2);
    WordField(m0, k + 4);
    WordField(m0, k + 5);
  }

  lemma OverlapHeader(m0: Memory)
    requires HoldsOverlap(m0)
    ensures HoldsHeader(m0, 2)
  {
    forall i: nat | i < 8
      ensures m0[0x2_0000 + i] == HeaderWord(i, 2)
    {
      assert m0[0x2_0000 + i] == OverlapWord(i);
    }
  }

  lemma OverlapSegments(m0: Memory)
    requires HoldsOverlap(m0)
    ensures WellFormed(m0, OVERLAP_FILE)
    ensures Headers(m0, OVERLAP_FILE) == [OverlapSegment(0x4000_0000), OverlapSegment(0x4000_0800)]
  {
    hide HeaderOk, SegmentAt, Field, HoldsHeader;
    OverlapHeader(m0);
    HeaderRead(m0, 2, 176);
    OverlapTable(m0);
    SegmentRead(m0, OVERLAP_FILE, 0x2_0008, 4);
    SegmentRead(m0, OVERLAP_FILE, 0x2_000F, 4);
    assert SegmentOf(m0, OVERLAP_FILE, 0) == OverlapSegment(0x4000_0000);
    assert SegmentOf(m0, OVERLAP_FILE, 1) == OverlapSegment(0x4000_0800);
  }

  lemma OverlapTable(m0: Memory)
    requires HoldsOverlap(m0)
    ensures m0[0x2_0008] == m0[0x2_000F] == 0x0000_0004_0000_0001 && m0[0x2_0009] == m0[0x2_0010] == 0
    ensures m0[0x2_000A] == 0x4000_0000 && m0[0x2_0011] == 0x4000_0800
    ensures m0[0x2_000C] == m0[0x2_000D] == m0[0x2_0013] == m0[0x2_0014] == 1
  {
    assert forall i: nat :: 8 <= i < 22 ==> m0[0x2_0000 + i] == OverlapWord(i);
    assert m0[0x2_0000 + 8] == OverlapWord(8) && m0[0x2_0000 + 9] == OverlapWord(9)
        && m0[0x2_0000 + 10] == OverlapWord(10);
    assert m0[0x2_0000 + 12] == OverlapWord(12) && m0[0x2_0000 + 13] == OverlapWord(13);
    assert m0[0x2_0000 + 15] == OverlapWord(15) && m0[0x2_0000 + 16] == OverlapWord(16)
        && m0[0x2_0000 + 17] == OverlapWord(17);
    assert m0[0x2_0000 + 19] == OverlapWord(19) && m0[0x2_0000 + 20] == OverlapWord(20);
  }

  /** The checks of the loader accept both segments, and the second one comes last on
      the page they share. */
  lemma OverlapFits()
    ensures SegmentFits(OverlapSegment(0x4000_0000), 176) && SegmentFits(OverlapSegment(0x4000_0800), 176)
    ensures Touches(OverlapSegment(0x4000_0000), 0x4_0000) && Touches(OverlapSegment(0x4000_0800), 0x4_0000)
  {
  }

  lemma OverlapLast(segs: seq<Segment>)
    requires segs == [OverlapSegment(0x4000_0000), OverlapSegment(0x4000_0800)]
    ensures AllFit(segs, OVERLAP_FILE) && ToLoad(segs, 0) && ToLoad(segs, 1)
    ensures LastOn(segs, 2, 0x4_0000) == Some(1)
  {
    hide SegmentFits, Touches;
    OverlapFits();
  }

  /** This program is accepted and the byte of its first segment is lost: the page is
      mapped anew, and zeroed, for the second. */
  lemma OverlapLosesByte(m: Memory, m0: Memory, r: nat, c: nat, segs: seq<Segment>)
    requires HoldsOverlap(m0) && WellFormed(m0, OVERLAP_FILE) && segs == Headers(m0, OVERLAP_FILE)
    ensures AllFit(segs, OVERLAP_FILE) && ToLoad(segs, 0) && segs[0] == OverlapSegment(0x4000_0000)
    ensures OVERLAP_DATA / 8 < |m0| && Byte(m0, OVERLAP_DATA) == 0x7F
    ensures ProgramImage(m, m0, r, c, OVERLAP_FILE, segs) ==>
              var l := Walk(m, r, 4, 0x4000_0000);
              l.Some? && l.value.address / 8 < |m| && Byte(m, l.value.address) == 0
              && !SegmentImage(m, m0, r, OVERLAP_FILE, segs[0])
  {
    hide HeaderOk, Walk, UserPath, WritablePath, Headers, Field, HoldsOverlap, SegmentImage, Has, ProgramImage,
      SegmentFits, Byte, LastOn;
    OverlapSegments(m0);
    OverlapByte(m0);
    OverlapLast(segs);
    if ProgramImage(m, m0, r, c, OVERLAP_FILE, segs) {
      LostByte(m, m0, r, c, OVERLAP_FILE, segs, 0, 0x4000_0000);
    }
  }

  lemma OverlapByte(m0: Memory)
    requires HoldsOverlap(m0)
    ensures OVERLAP_DATA / 8 < |m0| && Byte(m0, OVERLAP_DATA) == 0x7F
  {
    OverlapHeader(m0);
    HeaderFields(m0, 2);
  }

  // A program with zeroed memory behind its file bytes

  /** An executable with one writable segment at 0x40000000, whose file part is the
      first byte of the file and whose memory goes on for a page more. */
  function ZeroTailWord(i: nat): Word
  {
    if i < 8 then HeaderWord(i, 1)
    else if i == 8 then 0x0000_0006_0000_0001
    else if i == 10 then 0x4000_0000
    else if i == 12 then 1
    else if i == 13 then 0x1001
    else if i == 14 then 0x1000
    else 0
  }

  ghost predicate HoldsZeroTail(m0: Memory)
  {
    |m0| >= 0x2_000F && forall i: nat :: i < 15 ==> m0[0x2_0000 + i] == ZeroTailWord(i)
  }

  const ZERO_TAIL_FILE: File := File(OVERLAP_DATA, 120)
  const ZERO_TAIL_SEGMENT: Segment := Segment(TYPE_LOAD, 6, 0, 0x4000_0000, 1, 0x1001)

  lemma ZeroTailExists() returns (m0: Memory)
    ensures HoldsZeroTail(m0)
  {
    m0 := seq(0x2_000F, i requires 0 <= i < 0x2_000F => if i < 0x2_0000 then 0 else ZeroTailWord(i - 0x2_0000));
  }

  lemma ZeroTailSegments(m0: Memory)
    requires HoldsZeroTail(m0)
    ensures WellFormed(m0, ZERO_TAIL_FILE) && EntryPoint(m0, ZERO_TAIL_FILE) == 0x4000_0000
    ensures Headers(m0, ZERO_TAIL_FILE) == [ZERO_TAIL_SEGMENT]
    ensures Byte(m0, OVERLAP_DATA) == 0x7F
  {
    hide HeaderOk, SegmentAt, Field, HoldsHeader;
    ZeroTailWords(m0);
    HeaderRead(m0, 1, 120);
    HeaderFields(m0, 1);
    SegmentRead(m0, ZERO_TAIL_FILE, 0x2_0008, 6);
    assert SegmentOf(m0, ZERO_TAIL_FILE, 0) == ZERO_TAIL_SEGMENT;
  }

  lemma ZeroTailWords(m0: Memory)
    requires HoldsZeroTail(m0)
    ensures HoldsHeader(m0, 1)
    ensures m0[0x2_0008] == 0x0000_0006_0000_0001 && m0[0x2_0009] == 0 && m0[0x2_000A] == 0x4000_0000
    ensures m0[0x2_000C] == 1 && m0[0x2_000D] == 0x1001
  {
    forall i: nat | i < 8
      ensures m0[0x2_0000 + i] == HeaderWord(i, 1)
    {
      assert m0[0x2_0000 + i] == ZeroTailWord(i);
    }
    assert m0[0x2_0000 + 8] == ZeroTailWord(8) && m0[0x2_0000 + 9] == ZeroTailWord(9)
        && m0[0x2_0000 + 10] == ZeroTailWord(10);
    assert m0[0x2_0000 + 12] == ZeroTailWord(12) && m0[0x2_0000 + 13] == ZeroTailWord(13);
  }

  /** Its checks pass, and twelve free frames are enough to load it. */
  lemma ZeroTailFits(segs: seq<Segment>, k: nat)
    requires segs == [ZERO_TAIL_SEGMENT] && k < 0x1001
    ensures AllFit(segs, ZERO_TAIL_FILE) && ToLoad(segs, 0) && SegmentFits(segs[0], ZERO_TAIL_FILE.size)
    ensures forall free: set<nat> :: Enough(free, segs) <==> |free| >= 12
    ensures Touches(segs[0], (0x4000_0000 + k) / PAGE_SIZE)
  {
    assert FirstPage(ZERO_TAIL_SEGMENT) == 0x4_0000 && EndPage(ZERO_TAIL_SEGMENT) == 0x4_0002;
    assert PagesOf(segs, 1) == PagesOf(segs, 0) + 2;
  }

  /** This program loads; its first byte is that of the file and every other byte of
      its memory, up to the one on the second page, reads as zero and is writable. */
  lemma ZeroTailLoads(m: Memory, m0: Memory, r: nat, c: nat, segs: seq<Segment>, k: nat)
    requires HoldsZeroTail(m0) && WellFormed(m0, ZERO_TAIL_FILE) && segs == Headers(m0, ZERO_TAIL_FILE) && k < 0x1001
    ensures AllFit(segs, ZERO_TAIL_FILE) && forall free: set<nat> :: Enough(free, segs) <==> |free| >= 12
    ensures ProgramImage(m, m0, r, c, ZERO_TAIL_FILE, segs) && AllMapped(m, r, segs) ==>
              var l := Effective(m, r, 0x4000_0000 + k);
              && l.Some? && l.value.user && l.value.writable && l.value.address / 8 < |m|
              && Byte(m, l.value.address) == if k == 0 then 0x7F else 0
  {
    hide HeaderOk, Walk, UserPath, WritablePath, Headers, Field, HoldsZeroTail, SegmentImage, Has, SegmentFits, Byte,
      LastOn, Touches, Enough, AllFit, SegmentsFit;
    ZeroTailSegments(m0);
    ZeroTailFits(segs, k);
    SixIsWritable();
    if ProgramImage(m, m0, r, c, ZERO_TAIL_FILE, segs) && AllMapped(m, r, segs) {
      assert Last(segs, 0x4000_0000 + k) == Some(0);
      assert Shows(m, m0, r, ZERO_TAIL_FILE, segs[0], 0x4000_0000 + k);
    }
  }

  lemma SixIsWritable()
    ensures Has(6, WRITABLE)
  {
  }
}
