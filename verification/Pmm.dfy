/** The physical memory manager (kernel_os/src/pmm.cpp): a bitmap with one bit per
    4 KiB frame, kept inside the memory it manages, that refines a set of free
    frames. */
module Pmm {
  import opened Bits
  import opened PageEntry
  import opened Ram

  // The bitmap as a predicate on frames

  function BitmapBytes(total: nat): nat
  {
    (total + 7) / 8
  }

  /** The frames and the bitmap lie inside RAM, and addresses have 52 bits. */
  ghost predicate Fits(words: nat, bitmap: nat, total: nat)
  {
    && WORDS_PER_FRAME * total <= words <= WORDS_PER_FRAME * MAX_FRAMES
    && bitmap + BitmapBytes(total) <= 8 * words
  }

  predicate Used(m: Memory, bitmap: nat, page: nat)
    requires (bitmap + page / 8) / 8 < |m|
  {
    Has(Byte(m, bitmap + page / 8), Pow2(page % 8))
  }

  ghost function FreeSet(m: Memory, bitmap: nat, total: nat): (free: set<nat>)
    requires Fits(|m|, bitmap, total)
    ensures forall page :: page in free ==> page < total
  {
    set page | 0 <= page < total && !Used(m, bitmap, page)
  }

  function Marked(m: Memory, bitmap: nat, page: nat): (m': Memory)
    requires (bitmap + page / 8) / 8 < |m|
    ensures |m'| == |m|
  {
    var a := bitmap + page / 8;
    BitByte(Byte(m, a), page % 8);
    WordByteBound(m[a / 8], a % 8);
    SetByte(m, a, Or(Byte(m, a), Pow2(page % 8)))
  }

  function Cleared(m: Memory, bitmap: nat, page: nat): (m': Memory)
    requires (bitmap + page / 8) / 8 < |m|
    ensures |m'| == |m|
  {
    var a := bitmap + page / 8;
    BitByte(Byte(m, a), page % 8);
    WordByteBound(m[a / 8], a % 8);
    AndBound(Byte(m, a), 0xFF - Pow2(page % 8));
    SetByte(m, a, And(Byte(m, a), 0xFF - Pow2(page % 8)))
  }

  lemma BitByte(b: nat, k: nat)
    requires k < 8
    ensures Pow2(k) < 0x100
    ensures b < 0x100 ==> Or(b, Pow2(k)) < 0x100
  {
    PowerConstants();
    PowMonotone(k, 7);
    if b < 0x100 { OrBound(b, Pow2(k), 8); }
  }

  lemma {:induction false} PowMonotone(a: nat, b: nat)
    requires a <= b
    ensures Pow2(a) <= Pow2(b)
  {
    if a == b {
    } else {
      PowMonotone(a, b - 1);
    }
  }

  lemma {:induction false} SingleBits(j: nat, k: nat)
    ensures And(Pow2(j), Pow2(k)) == if j == k then Pow2(j) else 0
  {
    hide And;
    if j == 0 || k == 0 {
      AndStep(Pow2(j) / 2, Pow2(j) % 2, Pow2(k) / 2, Pow2(k) % 2);
    } else {
      AndStep(Pow2(j - 1), 0, Pow2(k - 1), 0);
      SingleBits(j - 1, k - 1);
    }
  }

  lemma {:induction false} AllOnes(n: nat, k: nat)
    requires k < n
    ensures And(Pow2(n) - 1, Pow2(k)) == Pow2(k)
  {
    hide And;
    var ones := Pow2(n - 1) - 1;
    if k == 0 {
      AndStep(ones, 1, 0, 1);
    } else {
      AndStep(ones, 1, Pow2(k - 1), 0);
      AllOnes(n - 1, k - 1);
    }
  }

  lemma {:induction false} AllButOne(n: nat, j: nat, k: nat)
    requires j < n && k < n
    ensures Pow2(j) < Pow2(n)
    ensures And(Pow2(n) - 1 - Pow2(j), Pow2(k)) == if j == k then 0 else Pow2(k)
  {
    hide And;
    PowMonotone(j, n - 1);
    var ones := Pow2(n - 1) - 1;
    if j == 0 {
      AllButFirst(n, k);
    } else {
      AllButOne(n - 1, j - 1, if k == 0 then 0 else k - 1);
      var most := ones - Pow2(j - 1);
      assert Pow2(n) - 1 - Pow2(j) == 2 * most + 1;
      if k == 0 { AndStep(most, 1, 0, 1); } else { AndStep(most, 1, Pow2(k - 1), 0); }
    }
  }

  lemma AllButFirst(n: nat, k: nat)
    requires k < n
    ensures And(Pow2(n) - 1 - Pow2(0), Pow2(k)) == if k == 0 then 0 else Pow2(k)
  {
    hide And;
    var ones := Pow2(n - 1) - 1;
    assert Pow2(n) - 1 - Pow2(0) == 2 * ones;
    if k == 0 {
      AndStep(ones, 0, 0, 1);
    } else {
      AndStep(ones, 0, Pow2(k - 1), 0);
      AllOnes(n - 1, k - 1);
    }
  }

  /** Setting a bitmap bit marks that frame used and touches no other frame. */
  lemma MarkedMeaning(m: Memory, bitmap: nat, page: nat, other: nat)
    requires (bitmap + page / 8) / 8 < |m| && (bitmap + other / 8) / 8 < |m|
    ensures Used(Marked(m, bitmap, page), bitmap, other) <==> other == page || Used(m, bitmap, other)
  {
    hide And, Or, Pow2, WithByte, WordByte;
    var a, c := bitmap + page / 8, bitmap + other / 8;
    var b := Byte(m, a);
    BitByte(b, page % 8);
    WordByteBound(m[a / 8], a % 8);
    SetByteMeaning(m, a, Or(b, Pow2(page % 8)), c);
    if a == c {
      MergeFlag(b, Pow2(page % 8), Pow2(other % 8));
      SingleBits(page % 8, other % 8);
    }
  }

  /** Clearing a bitmap bit frees that frame and touches no other frame. */
  lemma ClearedMeaning(m: Memory, bitmap: nat, page: nat, other: nat)
    requires (bitmap + page / 8) / 8 < |m| && (bitmap + other / 8) / 8 < |m|
    ensures Used(Cleared(m, bitmap, page), bitmap, other) <==> other != page && Used(m, bitmap, other)
  {
    hide And, Or, Pow2, WithByte, WordByte;
    var a, c := bitmap + page / 8, bitmap + other / 8;
    var b := Byte(m, a);
    BitByte(b, page % 8);
    WordByteBound(m[a / 8], a % 8);
    AndBound(b, 0xFF - Pow2(page % 8));
    SetByteMeaning(m, a, And(b, 0xFF - Pow2(page % 8)), c);
    if a == c {
      PowerConstants();
      AndAssociates(b, 0xFF - Pow2(page % 8), Pow2(other % 8));
      AllButOne(8, page % 8, other % 8);
    }
  }

  // Sets of frames

  /** The frames below `total` that share a byte with [start, start + length). */
  ghost predicate Meets(page: nat, start: nat, length: nat)
  {
    exists a :: start <= a < start + length && FrameOf(a) == page
  }

  ghost function FramesMeeting(start: nat, length: nat, total: nat): set<nat>
  {
    set page | 0 <= page < total && Meets(page, start, length)
  }

  /** What is left of all frames after the two reservations of pmm_init. */
  lemma InitialFree(bitmap: nat, total: nat)
    ensures Range(0, total) - FramesMeeting(bitmap, BitmapBytes(total), total) - FramesMeeting(0, PAGE_SIZE, total)
         == Range(0, total) - {0} - FramesTouching(bitmap, bitmap + BitmapBytes(total))
  {
    hide Meets, Range;
    forall page | 0 <= page < total
      ensures Meets(page, bitmap, BitmapBytes(total)) <==>
              page in FramesTouching(bitmap, bitmap + BitmapBytes(total))
      ensures Meets(page, 0, PAGE_SIZE) <==> page == 0
    {
      MeetsMeaning(page, bitmap, BitmapBytes(total));
      MeetsMeaning(page, 0, PAGE_SIZE);
    }
  }

  lemma NothingMet(start: nat, length: nat, total: nat)
    requires length == 0 || start >= total * PAGE_SIZE
    ensures FramesMeeting(start, length, total) == {}
  {
    forall page | 0 <= page < total
      ensures !Meets(page, start, length)
    {
      if length > 0 { MeetsMeaning(page, start, length); }
    }
  }

  lemma RemoveNext(free: set<int>, start: int, page: int)
    requires start <= page
    ensures free - Range(start, page) - {page} == free - Range(start, page + 1)
  {
  }

  lemma AddNext(free: set<int>, start: int, page: int)
    requires start <= page
    ensures free + Range(start, page) + {page} == free + Range(start, page + 1)
  {
  }

  lemma MeetsMeaning(page: nat, start: nat, length: nat)
    requires length > 0
    ensures Meets(page, start, length) <==> FrameOf(start) <= page <= FrameOf(start + length - 1)
  {
    if FrameOf(start) <= page <= FrameOf(start + length - 1) {
      var a := if start <= PAGE_SIZE * page then PAGE_SIZE * page else start;
      assert FrameOf(a) == page;
    }
  }

  lemma FreeSetAfterMark(m: Memory, bitmap: nat, total: nat, page: nat)
    requires Fits(|m|, bitmap, total) && page < total
    ensures FreeSet(Marked(m, bitmap, page), bitmap, total) == FreeSet(m, bitmap, total) - {page}
  {
    forall other | 0 <= other < total
      ensures Used(Marked(m, bitmap, page), bitmap, other) <==> other == page || Used(m, bitmap, other)
    {
      MarkedMeaning(m, bitmap, page, other);
    }
  }

  lemma FreeSetAfterClear(m: Memory, bitmap: nat, total: nat, page: nat)
    requires Fits(|m|, bitmap, total) && page < total
    ensures FreeSet(Cleared(m, bitmap, page), bitmap, total) == FreeSet(m, bitmap, total) + {page}
  {
    forall other | 0 <= other < total
      ensures Used(Cleared(m, bitmap, page), bitmap, other) <==> other != page && Used(m, bitmap, other)
    {
      ClearedMeaning(m, bitmap, page, other);
    }
  }

  lemma MarkTouchesBitmapOnly(m: Memory, bitmap: nat, total: nat, page: nat)
    requires Fits(|m|, bitmap, total) && page < total
    ensures SameBytesOutside(m, Marked(m, bitmap, page), bitmap, bitmap + BitmapBytes(total))
    ensures SameBytesOutside(m, Cleared(m, bitmap, page), bitmap, bitmap + BitmapBytes(total))
  {
    hide And, Or, Pow2, WithByte, WordByte;
    var b := Byte(m, bitmap + page / 8);
    BitByte(b, page % 8);
    WordByteBound(m[(bitmap + page / 8) / 8], (bitmap + page / 8) % 8);
    AndBound(b, 0xFF - Pow2(page % 8));
    forall a | 0 <= a < 8 * |m| && !(bitmap <= a < bitmap + BitmapBytes(total))
      ensures Byte(Marked(m, bitmap, page), a) == Byte(m, a)
      ensures Byte(Cleared(m, bitmap, page), a) == Byte(m, a)
    {
      SetByteMeaning(m, bitmap + page / 8, Or(b, Pow2(page % 8)), a);
      SetByteMeaning(m, bitmap + page / 8, And(b, 0xFF - Pow2(page % 8)), a);
    }
  }

  /** The free set depends only on the bitmap's own frames. */
  lemma FreeSetReadsBitmap(m: Memory, m': Memory, bitmap: nat, total: nat, frames: set<int>)
    requires Fits(|m|, bitmap, total) && SameOutside(m, m', frames)
    requires frames !! FramesTouching(bitmap, bitmap + BitmapBytes(total))
    ensures FreeSet(m', bitmap, total) == FreeSet(m, bitmap, total)
  {
    forall page | 0 <= page < total
      ensures Used(m', bitmap, page) == Used(m, bitmap, page)
    {
      var a := bitmap + page / 8;
      TouchedFrame(a, bitmap, bitmap + BitmapBytes(total));
      SameBytes(m, m', frames, a);
    }
  }

  // Search order

  /** The frame the next-fit search looks at in its i-th step. */
  function Probe(hint: nat, i: nat, total: nat): nat
    requires total > 0
  {
    (hint + i) % total
  }

  lemma ProbeMeaning(hint: nat, i: nat, total: nat)
    requires hint <= total && i < total
    ensures Probe(hint, i, total) == if hint + i < total then hint + i
                                     else if hint + i < 2 * total then hint + i - total else 0
  {
    if total <= hint + i {
      DivModUnique(hint + i, total, 1, hint + i - total);
    } else {
      DivModUnique(hint + i, total, 0, hint + i);
    }
  }

  /** The search visits every frame: `page` is looked at in this step. */
  function StepOf(hint: nat, page: nat, total: nat): nat
    requires hint <= total && page < total
  {
    if hint <= page then page - hint else page + total - hint
  }

  lemma ProbeVisits(hint: nat, page: nat, total: nat)
    requires hint <= total && page < total
    ensures StepOf(hint, page, total) < total
    ensures Probe(hint, StepOf(hint, page, total), total) == page
  {
    ProbeMeaning(hint, StepOf(hint, page, total), total);
  }

  ghost predicate AllFree(free: set<nat>, start: nat, count: nat)
  {
    forall page :: start <= page < start + count ==> page in free
  }

  ghost predicate HasRun(free: set<nat>, count: nat)
  {
    exists start: nat :: AllFree(free, start, count)
  }

  ghost predicate LowestRun(free: set<nat>, start: nat, count: nat)
  {
    && AllFree(free, start, count)
    && forall other: nat :: other < start ==> !AllFree(free, other, count)
  }

  /** No free frame comes before `page` when the frames are visited cyclically from `hint`. */
  ghost predicate FirstInCycle(free: set<nat>, hint: nat, total: nat, page: nat)
    requires hint <= total && page < total && forall other :: other in free ==> other < total
  {
    forall other :: other in free ==> StepOf(hint, page, total) <= StepOf(hint, other, total)
  }

  lemma FirstProbeIsFirst(free: set<nat>, hint: nat, total: nat, i: nat)
    requires hint <= total && i < total
    requires forall page :: page in free ==> page < total
    requires forall j :: 0 <= j < i ==> Probe(hint, j, total) !in free
    requires Probe(hint, i, total) in free
    ensures FirstInCycle(free, hint, total, Probe(hint, i, total))
  {
    ProbeMeaning(hint, i, total);
    forall other | other in free
      ensures StepOf(hint, Probe(hint, i, total), total) <= StepOf(hint, other, total)
    {
      ProbeVisits(hint, other, total);
    }
  }

  lemma NoProbeMeansNone(free: set<nat>, hint: nat, total: nat)
    requires hint <= total
    requires forall page :: page in free ==> page < total
    requires forall j :: 0 <= j < total ==> Probe(hint, j, total) !in free
    ensures free == {}
  {
    forall page | page in free
      ensures false
    {
      ProbeVisits(hint, page, total);
    }
  }

  lemma RunFits(free: set<nat>, total: nat, start: nat, count: nat)
    requires forall page :: page in free ==> page < total
    requires count > 0 && AllFree(free, start, count)
    ensures start + count <= total
  {
    assert start + (count - 1) in free;
  }

  lemma NoRun(free: set<nat>, total: nat, count: nat)
    requires forall page :: page in free ==> page < total
    requires count > 0
    requires forall start: nat :: start + count <= total ==> !AllFree(free, start, count)
    ensures !HasRun(free, count)
  {
    forall start: nat | AllFree(free, start, count)
      ensures false
    {
      RunFits(free, total, start, count);
    }
  }

  lemma RemoveRun(free: set<nat>, start: nat, count: nat)
    requires AllFree(free, start, count)
    ensures |free - Range(start, start + count)| == |free| - count
  {
    assert Range(start, start + count) <= free;
  }

  class FrameAllocator {
    const ram: array<Word>
    const bitmap: nat
    const totalPages: nat
    var freePages: nat
    var searchHint: nat

    ghost predicate Placed()
      reads this
    {
      Fits(ram.Length, bitmap, totalPages) && searchHint <= totalPages
    }

    ghost function Free(): set<nat>
      requires Placed()
      reads this, ram
    {
      FreeSet(ram[..], bitmap, totalPages)
    }

    /** The cached counter is the number of clear bits. */
    ghost predicate Consistent()
      reads this, ram
    {
      Placed() && freePages == |Free()|
    }

    ghost function BitmapFrames(): set<int>
    {
      FramesTouching(bitmap, bitmap + BitmapBytes(totalPages))
    }

    /** What pmm_init establishes: neither frame 0 nor the bitmap is ever free. */
    ghost predicate Sealed()
      reads this, ram
    {
      Consistent() && 0 !in Free() && Free() !! BitmapFrames()
    }

    ghost predicate BytesKept(m: Memory)
      reads ram
    {
      SameBytesOutside(m, ram[..], bitmap, bitmap + BitmapBytes(totalPages))
    }

    method SetBit(page: nat)
      requires Placed() && page < totalPages
      modifies ram
      ensures ram[..] == Marked(old(ram[..]), bitmap, page)
      ensures Free() == old(Free()) - {page}
      ensures BytesKept(old(ram[..]))
    {
      hide And, Or, Pow2, SameBytesOutside, FreeSet;
      FreeSetAfterMark(ram[..], bitmap, totalPages, page);
      MarkTouchesBitmapOnly(ram[..], bitmap, totalPages, page);
      var a := bitmap + page / 8;
      BitByte(Byte(ram[..], a), page % 8);
      WordByteBound(ram[a / 8], a % 8);
      var byte := LoadByte(ram, a);
      StoreByte(ram, a, Or(byte, Pow2(page % 8)));
    }

    method ClearBit(page: nat)
      requires Placed() && page < totalPages
      modifies ram
      ensures ram[..] == Cleared(old(ram[..]), bitmap, page)
      ensures Free() == old(Free()) + {page}
      ensures BytesKept(old(ram[..]))
    {
      hide And, Or, Pow2, SameBytesOutside, FreeSet;
      FreeSetAfterClear(ram[..], bitmap, totalPages, page);
      MarkTouchesBitmapOnly(ram[..], bitmap, totalPages, page);
      var a := bitmap + page / 8;
      BitByte(Byte(ram[..], a), page % 8);
      WordByteBound(ram[a / 8], a % 8);
      AndBound(Byte(ram[..], a), 0xFF - Pow2(page % 8));
      var byte := LoadByte(ram, a);
      StoreByte(ram, a, And(byte, 0xFF - Pow2(page % 8)));
    }

    predicate TestBit(page: nat)
      requires Placed() && page < totalPages
      reads this, ram
      ensures TestBit(page) <==> page !in Free()
    {
      var a := bitmap + page / 8;
      Has(WordByte(ram[a / 8], a % 8), Pow2(page % 8))
    }

    /** pmm_init. */
    constructor (ram: array<Word>, bitmap: nat, pageCount: nat)
      requires Fits(ram.Length, bitmap, pageCount)
      modifies ram
      ensures Sealed() && this.ram == ram && this.bitmap == bitmap && totalPages == pageCount
      ensures Free() == Range(0, pageCount) - {0} - BitmapFrames()
      ensures BytesKept(old(ram[..]))
    {
      this.ram, this.bitmap, this.totalPages := ram, bitmap, pageCount;
      freePages, searchHint := pageCount, 0;
      new;
      hide FreeSet;
      ClearBitmap();
      ReserveInitial();
    }

    /** The two reservations of pmm_init. */
    method ReserveInitial()
      requires Consistent() && Free() == Range(0, totalPages)
      modifies this`freePages, ram
      ensures Sealed()
      ensures Free() == Range(0, totalPages) - {0} - BitmapFrames()
      ensures BytesKept(old(ram[..]))
    {
      hide FreeSet, Meets, Range, FramesTouching, FramesMeeting;
      InitialFree(bitmap, totalPages);
      ghost var m := ram[..];
      MarkReserved(bitmap, BitmapBytes(totalPages));
      ghost var m' := ram[..];
      MarkReserved(0, PAGE_SIZE);
      SameBytesTransitive(m, m', ram[..], bitmap, bitmap + BitmapBytes(totalPages));
    }

    /** The first loop of pmm_init. */
    method ClearBitmap()
      requires Placed()
      modifies ram
      ensures Free() == Range(0, totalPages)
      ensures BytesKept(old(ram[..]))
    {
      for i := 0 to BitmapBytes(totalPages)
        invariant BytesKept(old(ram[..]))
        invariant forall a :: bitmap <= a < bitmap + i ==> Byte(ram[..], a) == 0
      {
        StoreByte(ram, bitmap + i, 0);
      }
      forall page | 0 <= page < totalPages
        ensures !Used(ram[..], bitmap, page)
      {
        assert Byte(ram[..], bitmap + page / 8) == 0;
      }
      assert Range(0, totalPages) == FreeSet(ram[..], bitmap, totalPages);
    }

    /** pmm_mark_reserved: exactly the managed frames that meet the range leave
        the free set, also when base + length does not fit in 64 bits. */
    method MarkReserved(base: Word, length: Word)
      requires Consistent()
      modifies this`freePages, ram
      ensures Consistent()
      ensures Free() == old(Free()) - FramesMeeting(base, length, totalPages)
      ensures BytesKept(old(ram[..]))
    {
      hide FreeSet, Meets;
      if length == 0 || base >= totalPages * PAGE_SIZE {
        NothingMet(base, length, totalPages);
        return;
      }
      var startPage := base / PAGE_SIZE;
      var lastByte := length - 1;
      var endPage := if lastByte > WORD_LIMIT - 1 - base then totalPages
                     else (base + lastByte) / PAGE_SIZE + 1;
      MarkRange(startPage, endPage);
      forall p | 0 <= p < totalPages
        ensures Meets(p, base, length) <==> startPage <= p < endPage
      {
        MeetsMeaning(p, base, length);
      }
    }

    /** The loop of pmm_mark_reserved. */
    method MarkRange(startPage: nat, endPage: nat)
      requires Consistent()
      modifies this`freePages, ram
      ensures Consistent()
      ensures Free() == old(Free()) - Range(startPage, endPage)
      ensures BytesKept(old(ram[..]))
    {
      hide FreeSet, Range, Byte, Used, Fits, BitmapBytes;
      var page := startPage;
      ghost var free := Free();
      while page < endPage && page < totalPages
        invariant startPage <= page
        invariant Consistent() && BytesKept(old(ram[..]))
        invariant Free() == free - Range(startPage, page)
        invariant page <= endPage || page == startPage
      {
        MarkIfFree(page);
        RemoveNext(free, startPage, page);
        page := page + 1;
      }
    }

    method MarkIfFree(page: nat)
      requires Consistent() && page < totalPages
      modifies this`freePages, ram
      ensures Consistent()
      ensures Free() == old(Free()) - {page}
      ensures BytesKept(old(ram[..]))
    {
      if !TestBit(page) {
        SetBit(page);
        freePages := freePages - 1;
      }
    }

    /** pmm_alloc_page: the first free frame at or after the hint, in cyclic
        order; 0 only when no frame is free. */
    method AllocPage() returns (address: nat)
      requires Consistent()
      modifies this`freePages, this`searchHint, ram
      ensures Consistent() && BytesKept(old(ram[..]))
      ensures old(Free()) == {} ==> address == 0 && ram[..] == old(ram[..]) && searchHint == old(searchHint)
      ensures old(Free()) != {} ==>
                && address % PAGE_SIZE == 0 && FrameOf(address) in old(Free())
                && Free() == old(Free()) - {FrameOf(address)}
                && searchHint == FrameOf(address) + 1
                && FirstInCycle(old(Free()), old(searchHint), totalPages, FrameOf(address))
    {
      hide FreeSet, FirstInCycle;
      var found, page := FindFree();
      if !found {
        return 0;
      }
      TakePage(page);
      address := page * PAGE_SIZE;
      assert FrameOf(address) == page;
    }

    /** The scan of pmm_alloc_page. */
    method FindFree() returns (found: bool, page: nat)
      requires Consistent()
      ensures found <==> Free() != {}
      ensures found ==> page in Free() && FirstInCycle(Free(), searchHint, totalPages, page)
    {
      hide FreeSet;
      for i := 0 to totalPages
        invariant forall j :: 0 <= j < i ==> Probe(searchHint, j, totalPages) !in Free()
      {
        page := (searchHint + i) % totalPages;
        assert page == Probe(searchHint, i, totalPages);
        if !TestBit(page) {
          FirstProbeIsFirst(Free(), searchHint, totalPages, i);
          return true, page;
        }
      }
      NoProbeMeansNone(Free(), searchHint, totalPages);
      return false, 0;
    }

    /** The three updates in the loop body of pmm_alloc_page. */
    method TakePage(page: nat)
      requires Consistent() && page in Free()
      modifies this`freePages, this`searchHint, ram
      ensures Consistent() && BytesKept(old(ram[..]))
      ensures Free() == old(Free()) - {page} && searchHint == page + 1
    {
      SetBit(page);
      freePages := freePages - 1;
      searchHint := page + 1;
    }

    /** pmm_alloc_pages: the lowest run of `count` free frames; 0 only when there
        is none (or `count` is 0). */
    method AllocPages(count: nat) returns (address: nat)
      requires Consistent()
      modifies this`freePages, this`searchHint, ram
      ensures Consistent() && BytesKept(old(ram[..]))
      ensures count == 0 || !HasRun(old(Free()), count) ==>
                address == 0 && ram[..] == old(ram[..]) && searchHint == old(searchHint)
      ensures count > 0 && HasRun(old(Free()), count) ==>
                && address % PAGE_SIZE == 0 && LowestRun(old(Free()), FrameOf(address), count)
                && Free() == old(Free()) - Range(FrameOf(address), FrameOf(address) + count)
                && searchHint == FrameOf(address) + count
    {
      hide FreeSet, Range, HasRun;
      if count == 0 || count > totalPages {
        if count > 0 { NoRun(Free(), totalPages, count); }
        return 0;
      }
      var found, start := FindRun(count);
      if !found {
        return 0;
      }
      TakeRun(start, count);
      address := start * PAGE_SIZE;
      assert FrameOf(address) == start;
    }

    /** The scan of pmm_alloc_pages. */
    method FindRun(count: nat) returns (found: bool, runStart: nat)
      requires Consistent() && count > 0
      ensures found <==> HasRun(Free(), count)
      ensures found ==> LowestRun(Free(), runStart, count) && runStart + count <= totalPages
    {
      hide FreeSet;
      runStart := 0;
      var runLength := 0;
      for page := 0 to totalPages
        invariant runLength <= page && runLength < count
        invariant runLength > 0 ==> runStart == page - runLength
        invariant AllFree(Free(), page - runLength, runLength)
        invariant runLength < page ==> page - runLength - 1 !in Free()
        invariant forall start: nat :: start + count <= page ==> !AllFree(Free(), start, count)
      {
        if TestBit(page) {
          runLength := 0;
          continue;
        }
        if runLength == 0 {
          runStart := page;
        }
        runLength := runLength + 1;
        if runLength == count {
          assert AllFree(Free(), runStart, count);
          return true, runStart;
        }
        assert page - runLength + 1 > 0 ==> page - runLength !in Free();
      }
      NoRun(Free(), totalPages, count);
      return false, 0;
    }

    /** The successful branch of pmm_alloc_pages. */
    method TakeRun(start: nat, count: nat)
      requires Consistent() && AllFree(Free(), start, count) && start + count <= totalPages
      modifies this`freePages, this`searchHint, ram
      ensures Consistent() && BytesKept(old(ram[..]))
      ensures Free() == old(Free()) - Range(start, start + count) && searchHint == start + count
    {
      hide FreeSet, Range, Byte, Used, Fits, BitmapBytes;
      ghost var free := Free();
      for frame := start to start + count
        invariant Placed() && freePages == old(freePages) && BytesKept(old(ram[..]))
        invariant Free() == free - Range(start, frame)
      {
        SetBit(frame);
        RemoveNext(free, start, frame);
      }
      RemoveRun(free, start, count);
      freePages := freePages - count;
      searchHint := start + count;
    }

    /** pmm_free_page: only an aligned, managed, nonzero frame is freed, and
        freeing a free frame changes nothing. */
    method FreePage(address: nat)
      requires Consistent()
      modifies this`freePages, ram
      ensures Consistent() && BytesKept(old(ram[..]))
      ensures if address % PAGE_SIZE == 0 && 0 < FrameOf(address) < totalPages
              then Free() == old(Free()) + {FrameOf(address)}
              else Free() == old(Free())
    {
      hide FreeSet;
      var page := address / PAGE_SIZE;
      if address % PAGE_SIZE != 0 || page == 0 || page >= totalPages {
        return;
      }
      ReleasePage(page);
    }

    /** The guarded release shared by pmm_free_page and the loop of pmm_free_pages. */
    method ReleasePage(page: nat)
      requires Consistent() && page < totalPages
      modifies this`freePages, ram
      ensures Consistent() && BytesKept(old(ram[..]))
      ensures Free() == old(Free()) + {page}
    {
      hide FreeSet;
      if TestBit(page) {
        ClearBit(page);
        freePages := freePages + 1;
      }
    }

    /** pmm_free_pages: all of a managed run, or nothing. */
    method FreePages(address: nat, count: nat)
      requires Consistent()
      modifies this`freePages, ram
      ensures Consistent() && BytesKept(old(ram[..]))
      ensures if address % PAGE_SIZE == 0 && 0 < FrameOf(address) && FrameOf(address) + count <= totalPages
              then Free() == old(Free()) + Range(FrameOf(address), FrameOf(address) + count)
              else Free() == old(Free())
    {
      hide FreeSet, Range, Byte, Used, Fits, BitmapBytes;
      if count == 0 || address % PAGE_SIZE != 0 || address == 0 {
        return;
      }
      var startPage := address / PAGE_SIZE;
      if startPage >= totalPages || count > totalPages - startPage {
        return;
      }
      ReleaseRun(startPage, count);
    }

    /** The loop of pmm_free_pages. */
    method ReleaseRun(start: nat, count: nat)
      requires Consistent() && start + count <= totalPages
      modifies this`freePages, ram
      ensures Consistent() && BytesKept(old(ram[..]))
      ensures Free() == old(Free()) + Range(start, start + count)
    {
      hide FreeSet, Range, Byte, Used, Fits, BitmapBytes;
      ghost var free := Free();
      for page := start to start + count
        invariant Consistent() && BytesKept(old(ram[..]))
        invariant Free() == free + Range(start, page)
      {
        ReleasePage(page);
        AddNext(free, start, page);
      }
    }
  }
}
