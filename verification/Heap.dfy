/** The kernel heap itself (kernel_os/src/heap.cpp): block headers stored inside
    the heap area, linked by pointers, and the operations that rewrite them. */
module Heap {
  import opened PageEntry
  import opened HeapBlocks

  const WORDS: nat := 0x2000

  /** The word of the area where the header of block `b` starts. */
  function HeaderWord(b: Block): nat
  {
    b.at / 8
  }

  /** The header of block `b`: its size, the free flag in the low byte of the
      second word, and the pointer to the next block. */
  ghost predicate HeaderAt(a: seq<Word>, b: Block, next: nat)
    requires |a| == WORDS
  {
    && b.at % 8 == 0 && HeaderWord(b) + 2 < WORDS
    && a[HeaderWord(b)] == b.size
    && a[HeaderWord(b) + 1] % 0x100 == (if b.free then 1 else 0)
    && a[HeaderWord(b) + 2] == next
  }

  /** The pointer to block `i`; null past the end. */
  function PointerTo(base: nat, bs: Blocks, i: nat): nat
  {
    if i < |bs| then base + bs[i].at else 0
  }

  ghost predicate HeadersMatch(a: seq<Word>, base: nat, bs: Blocks)
  {
    |a| == WORDS && forall i: nat :: i < |bs| ==> HeaderAt(a, bs[i], PointerTo(base, bs, i + 1))
  }

  /** Word `k` belongs to the payload of a live block. */
  ghost predicate LivePayload(bs: Blocks, k: nat)
  {
    exists i :: 0 <= i < |bs| && !bs[i].free && bs[i].at + HEADER <= 8 * k < bs[i].End()
  }

  /** Headers, and the payloads of free blocks, are nobody's live payload. */
  lemma NotLive(bs: Blocks, i: nat, k: nat)
    requires Tiles(bs, 0, HEAP_SIZE) && i < |bs| && bs[i].at <= 8 * k < bs[i].End()
    requires bs[i].free || 8 * k < bs[i].at + HEADER
    ensures !LivePayload(bs, k)
  {
    TilesMeaning(bs, 0, HEAP_SIZE);
    forall j | 0 <= j < |bs| && !bs[j].free
      ensures !(bs[j].at + HEADER <= 8 * k < bs[j].End())
    {
      if j < i || i < j { assert bs[j].End() <= bs[i].at || bs[i].End() <= bs[j].at; }
    }
  }

  lemma HeadersApart(bs: Blocks, i: nat, j: nat)
    requires Tiles(bs, 0, HEAP_SIZE) && i < |bs| && j < |bs| && i != j
    ensures bs[i].End() <= bs[j].at || bs[j].End() <= bs[i].at
    ensures HeaderWord(bs[i]) + 3 + bs[i].size / 8 <= HeaderWord(bs[j])
         || HeaderWord(bs[j]) + 3 + bs[j].size / 8 <= HeaderWord(bs[i])
    ensures bs[i].size >= 8 && bs[j].size >= 8
  {
    hide Tiles;
    TilesMeaning(bs, 0, HEAP_SIZE);
    if i < j {
      assert bs[i].End() <= bs[j].at;
    } else {
      assert bs[j].End() <= bs[i].at;
    }
  }

  lemma HeaderUntouched(a: seq<Word>, a': seq<Word>, b: Block, next: nat)
    requires |a| == WORDS && |a'| == WORDS && HeaderAt(a, b, next)
    requires a'[HeaderWord(b)] == a[HeaderWord(b)] && a'[HeaderWord(b) + 1] == a[HeaderWord(b) + 1]
        && a'[HeaderWord(b) + 2] == a[HeaderWord(b) + 2]
    ensures HeaderAt(a', b, next)
  {
  }

  /** The first half of split_block's effect: the block is still free. */
  function SplitFree(b: Block, n: nat): Blocks
  {
    if b.size < n + HEADER + ALIGNMENT then [b]
    else [Block(b.at, n, b.free), Block(b.at + HEADER + n, b.size - n - HEADER, true)]
  }

  function SplitList(bs: Blocks, i: nat, n: nat): Blocks
    requires i < |bs|
  {
    bs[..i] + SplitFree(bs[i], n) + bs[i + 1..]
  }

  lemma SplitTiling(bs: Blocks, i: nat, n: nat)
    requires Tiles(bs, 0, HEAP_SIZE) && i < |bs| && bs[i].size >= n && n % ALIGNMENT == 0 && n >= ALIGNMENT
    ensures Tiles(SplitList(bs, i, n), 0, HEAP_SIZE)
  {
    hide Tiles;
    TilesMeaning(bs, 0, HEAP_SIZE);
    SplitFreeTiles(bs[i], n);
    ReplaceTiles(bs, i, SplitFree(bs[i], n), 0, HEAP_SIZE);
  }

  lemma SplitFreeTiles(b: Block, n: nat)
    requires b.size >= n && n % ALIGNMENT == 0 && n >= ALIGNMENT && b.at % ALIGNMENT == 0 && b.size % ALIGNMENT == 0
    ensures Tiles(SplitFree(b, n), b.at, b.End())
  {
    var s := SplitFree(b, n);
    if |s| == 2 {
      assert s[1..] == [s[1]] && s[1..][1..] == [];
      assert Tiles(s[1..], s[1].at, b.End());
    } else {
      assert s[1..] == [];
    }
  }

  /** The memory after split_block has written the new header and shortened block `b`. */
  ghost predicate SplitStored(a: seq<Word>, a': seq<Word>, base: nat, b: Block, n: nat)
  {
    && |a| == WORDS && |a'| == WORDS && b.at % 8 == 0 && n % 8 == 0 && b.size >= n + HEADER + ALIGNMENT
    && b.End() <= HEAP_SIZE
    && var k, h := HeaderWord(b) + 3 + n / 8, HeaderWord(b);
       && a'[k] == b.size - n - HEADER && a'[k + 1] % 0x100 == 1 && a'[k + 2] == a[h + 2]
       && a'[h] == n && a'[h + 2] == base + b.at + HEADER + n
       && forall j :: 0 <= j < WORDS && j != k && j != k + 1 && j != k + 2 && j != h && j != h + 2 ==> a'[j] == a[j]
  }

  lemma SplitHeaders(a: seq<Word>, a': seq<Word>, base: nat, bs: Blocks, i: nat, n: nat)
    requires HeadersMatch(a, base, bs) && Tiles(bs, 0, HEAP_SIZE) && i < |bs| && bs[i].free
    requires SplitStored(a, a', base, bs[i], n)
    ensures HeadersMatch(a', base, SplitList(bs, i, n))
  {
    hide LivePayload, Tiles, HeaderAt, SplitList, SplitStored;
    SplitBig(a, a', base, bs[i], n);
    var b, cs := bs[i], SplitList(bs, i, n);
    assert HeaderAt(a, b, PointerTo(base, bs, i + 1));
    SplitPairs(bs, i, n);
    forall j: nat | j < |cs|
      ensures HeaderAt(a', cs[j], PointerTo(base, cs, j + 1))
    {
      if j == i || j == i + 1 {
        SamePointer(base, bs, cs, i + 1, i + 2);
        SplitPairHeaders(a, a', base, b, n, PointerTo(base, bs, i + 1));
      } else {
        SplitElsewhere(a, a', base, bs, i, n, if j < i then j else j - 1, j);
      }
    }
  }

  lemma SplitElsewhere(a: seq<Word>, a': seq<Word>, base: nat, bs: Blocks, i: nat, n: nat, k: nat, j: nat)
    requires HeadersMatch(a, base, bs) && Tiles(bs, 0, HEAP_SIZE) && i < |bs| && k < |bs| && k != i
    requires SplitStored(a, a', base, bs[i], n) && j == (if k < i then k else k + 1)
    ensures j < |SplitList(bs, i, n)|
    ensures HeaderAt(a', SplitList(bs, i, n)[j], PointerTo(base, SplitList(bs, i, n), j + 1))
  {
    hide LivePayload, Tiles, HeaderAt, SplitList, HeaderWord, PointerTo;
    SplitPairs(bs, i, n);
    assert HeaderAt(a, bs[k], PointerTo(base, bs, k + 1));
    SamePointer(base, bs, SplitList(bs, i, n), k + 1, j + 1);
    HeadersApart(bs, i, k);
    HeaderBounds(a, bs[k], PointerTo(base, bs, k + 1));
    HeaderUntouched(a, a', bs[k], PointerTo(base, bs, k + 1));
  }

  lemma SplitBig(a: seq<Word>, a': seq<Word>, base: nat, b: Block, n: nat)
    requires SplitStored(a, a', base, b, n)
    ensures |a| == WORDS && |a'| == WORDS && b.size >= n + HEADER + ALIGNMENT
  {
  }

  lemma SplitPairs(bs: Blocks, i: nat, n: nat)
    requires i < |bs| && bs[i].size >= n + HEADER + ALIGNMENT
    ensures var cs := SplitList(bs, i, n);
            && |cs| == |bs| + 1 && cs[i] == SplitFree(bs[i], n)[0] && cs[i + 1] == SplitFree(bs[i], n)[1]
            && (forall j :: 0 <= j < i ==> cs[j] == bs[j]) && (forall j :: i + 1 < j < |cs| ==> cs[j] == bs[j - 1])
  {
  }

  lemma SplitPairHeaders(a: seq<Word>, a': seq<Word>, base: nat, b: Block, n: nat, next: nat)
    requires SplitStored(a, a', base, b, n) && HeaderAt(a, b, next)
    ensures HeaderAt(a', SplitFree(b, n)[0], base + b.at + HEADER + n)
    ensures HeaderAt(a', SplitFree(b, n)[1], next)
  {
  }

  lemma SplitLeavesLive(a: seq<Word>, a': seq<Word>, base: nat, bs: Blocks, i: nat, n: nat)
    requires Tiles(bs, 0, HEAP_SIZE) && i < |bs| && bs[i].free && SplitStored(a, a', base, bs[i], n)
    ensures forall k :: 0 <= k < WORDS && LivePayload(bs, k) ==> a'[k] == a[k]
  {
    hide LivePayload, Tiles;
    forall k: nat | k < WORDS && LivePayload(bs, k)
      ensures a'[k] == a[k]
    {
      if bs[i].at <= 8 * k < bs[i].End() { NotLive(bs, i, k); }
    }
  }

  /** Marking block `i` used or free is a store to its own header. */
  lemma FlagHeaders(a: seq<Word>, a': seq<Word>, base: nat, bs: Blocks, i: nat, free: bool)
    requires HeadersMatch(a, base, bs) && Tiles(bs, 0, HEAP_SIZE) && i < |bs|
    requires |a'| == WORDS && a'[HeaderWord(bs[i]) + 1] % 0x100 == (if free then 1 else 0)
    requires forall j :: 0 <= j < WORDS && j != HeaderWord(bs[i]) + 1 ==> a'[j] == a[j]
    ensures HeadersMatch(a', base, bs[i := bs[i].(free := free)])
  {
    hide LivePayload, Tiles, HeaderAt, HeaderWord, PointerTo;
    var cs := bs[i := bs[i].(free := free)];
    forall j: nat | j < |cs|
      ensures HeaderAt(a', cs[j], PointerTo(base, cs, j + 1))
    {
      assert HeaderAt(a, bs[j], PointerTo(base, bs, j + 1));
      SamePointer(base, bs, cs, j + 1, j + 1);
      if j == i {
        HeaderBounds(a, bs[i], PointerTo(base, bs, i + 1));
        HeaderFlagged(a, a', bs[i], PointerTo(base, bs, i + 1), free);
      } else {
        HeadersApart(bs, i, j);
        HeaderBounds(a, bs[j], PointerTo(base, bs, j + 1));
        HeaderUntouched(a, a', bs[j], PointerTo(base, bs, j + 1));
      }
    }
  }

  lemma FlagLeavesLive(a: seq<Word>, a': seq<Word>, bs: Blocks, i: nat)
    requires Tiles(bs, 0, HEAP_SIZE) && i < |bs| && |a| == WORDS && |a'| == WORDS
    requires forall j :: 0 <= j < WORDS && j != HeaderWord(bs[i]) + 1 ==> a'[j] == a[j]
    ensures forall k :: 0 <= k < WORDS && LivePayload(bs, k) ==> a'[k] == a[k]
  {
    hide Tiles, LivePayload;
    TilesMeaning(bs, 0, HEAP_SIZE);
    NotLive(bs, i, HeaderWord(bs[i]) + 1);
  }

  lemma SamePointer(base: nat, bs: Blocks, cs: Blocks, i: nat, j: nat)
    requires i < |bs| <==> j < |cs|
    requires i < |bs| && j < |cs| ==> bs[i].at == cs[j].at
    ensures PointerTo(base, bs, i) == PointerTo(base, cs, j)
  {
  }

  lemma HeaderBounds(a: seq<Word>, b: Block, next: nat)
    requires |a| == WORDS && HeaderAt(a, b, next)
    ensures b.at % 8 == 0 && HeaderWord(b) + 2 < WORDS
  {
  }

  lemma HeaderFlagged(a: seq<Word>, a': seq<Word>, b: Block, next: nat, free: bool)
    requires |a| == WORDS && |a'| == WORDS && HeaderAt(a, b, next)
    requires a'[HeaderWord(b) + 1] % 0x100 == (if free then 1 else 0)
    requires a'[HeaderWord(b)] == a[HeaderWord(b)] && a'[HeaderWord(b) + 2] == a[HeaderWord(b) + 2]
    ensures HeaderAt(a', b.(free := free), next)
  {
  }

  /** Blocks `i` and `i + 1` merged, as coalesce_free_blocks does. */
  function Merged(b: Block, next: Block): Block
  {
    Block(b.at, b.size + HEADER + next.size, b.free)
  }

  function MergeList(bs: Blocks, i: nat): (cs: Blocks)
    requires i + 1 < |bs|
    ensures |cs| == |bs| - 1
  {
    bs[..i] + [Merged(bs[i], bs[i + 1])] + bs[i + 2..]
  }

  lemma AlignedSum(a: nat, b: nat)
    requires a % ALIGNMENT == 0 && b % ALIGNMENT == 0
    ensures (a + b + HEADER) % ALIGNMENT == 0
  {
  }

  lemma {:induction false} MergeTiling(bs: Blocks, i: nat, start: nat, end: nat)
    requires Tiles(bs, start, end) && i + 1 < |bs|
    ensures Tiles(MergeList(bs, i), start, end)
    decreases i
  {
    var cs := MergeList(bs, i);
    if i == 0 {
      assert Tiles(bs[1..], bs[0].End(), end) && Tiles(bs[1..][1..], bs[1].End(), end);
      assert cs[1..] == bs[2..] && bs[1..][1..] == bs[2..];
      AlignedSum(bs[0].size, bs[1].size);
    } else {
      MergeTiling(bs[1..], i - 1, bs[0].End(), end);
      assert cs[0] == bs[0] && cs[1..] == MergeList(bs[1..], i - 1);
    }
  }

  ghost predicate MergeStored(a: seq<Word>, a': seq<Word>, b: Block, next: Block)
  {
    && |a| == WORDS && |a'| == WORDS && HeaderWord(b) + 2 < WORDS && HeaderWord(next) + 2 < WORDS
    && a'[HeaderWord(b)] == b.size + HEADER + next.size && a'[HeaderWord(b) + 2] == a[HeaderWord(next) + 2]
    && forall j :: 0 <= j < WORDS && j != HeaderWord(b) && j != HeaderWord(b) + 2 ==> a'[j] == a[j]
  }

  lemma MergeHeaders(a: seq<Word>, a': seq<Word>, base: nat, bs: Blocks, i: nat)
    requires HeadersMatch(a, base, bs) && Tiles(bs, 0, HEAP_SIZE) && i + 1 < |bs|
    requires MergeStored(a, a', bs[i], bs[i + 1])
    ensures HeadersMatch(a', base, MergeList(bs, i))
  {
    hide Tiles, HeaderAt, HeaderWord, PointerTo, MergeStored;
    var cs := MergeList(bs, i);
    MergeWords(a, a', bs[i], bs[i + 1]);
    forall j: nat | j < |cs|
      ensures HeaderAt(a', cs[j], PointerTo(base, cs, j + 1))
    {
      if j == i {
        assert HeaderAt(a, bs[i], PointerTo(base, bs, i + 1)) && HeaderAt(a, bs[i + 1], PointerTo(base, bs, i + 2));
        SamePointer(base, bs, cs, i + 2, i + 1);
        MergedHeader(a, a', bs[i], bs[i + 1], PointerTo(base, bs, i + 1), PointerTo(base, bs, i + 2));
      } else {
        MergeElsewhere(a, a', base, bs, i, if j < i then j else j + 1, j);
      }
    }
  }

  lemma MergeWords(a: seq<Word>, a': seq<Word>, b: Block, next: Block)
    requires MergeStored(a, a', b, next)
    ensures |a| == WORDS && |a'| == WORDS
  {
  }

  lemma MergedHeader(a: seq<Word>, a': seq<Word>, b: Block, c: Block, p: nat, q: nat)
    requires MergeStored(a, a', b, c) && HeaderAt(a, b, p) && HeaderAt(a, c, q)
    ensures HeaderAt(a', Merged(b, c), q)
  {
  }

  lemma MergeElsewhere(a: seq<Word>, a': seq<Word>, base: nat, bs: Blocks, i: nat, k: nat, j: nat)
    requires HeadersMatch(a, base, bs) && Tiles(bs, 0, HEAP_SIZE) && i + 1 < |bs| && k < |bs| && k != i && k != i + 1
    requires MergeStored(a, a', bs[i], bs[i + 1]) && j == (if k < i then k else k - 1)
    ensures j < |MergeList(bs, i)|
    ensures HeaderAt(a', MergeList(bs, i)[j], PointerTo(base, MergeList(bs, i), j + 1))
  {
    hide Tiles, HeaderAt, HeaderWord, PointerTo;
    assert HeaderAt(a, bs[k], PointerTo(base, bs, k + 1));
    SamePointer(base, bs, MergeList(bs, i), k + 1, j + 1);
    HeadersApart(bs, i, k);
    HeaderBounds(a, bs[k], PointerTo(base, bs, k + 1));
    HeaderUntouched(a, a', bs[k], PointerTo(base, bs, k + 1));
  }

  lemma MergeLeavesLive(a: seq<Word>, a': seq<Word>, bs: Blocks, i: nat)
    requires Tiles(bs, 0, HEAP_SIZE) && i + 1 < |bs| && MergeStored(a, a', bs[i], bs[i + 1]) && bs[i].free
        && bs[i + 1].free
    ensures forall k :: 0 <= k < WORDS && LivePayload(bs, k) ==> a'[k] == a[k]
  {
    hide Tiles, LivePayload;
    TilesMeaning(bs, 0, HEAP_SIZE);
    NotLive(bs, i, HeaderWord(bs[i]));
    NotLive(bs, i, HeaderWord(bs[i]) + 2);
  }

  lemma MergeSameLive(bs: Blocks, i: nat)
    requires i + 1 < |bs| && bs[i].free && bs[i + 1].free
    ensures forall k: nat :: LivePayload(MergeList(bs, i), k) <==> LivePayload(bs, k)
  {
    hide MergeList;
    MergeItems(bs, i);
    var cs := MergeList(bs, i);
    forall k: nat
      ensures LivePayload(cs, k) <==> LivePayload(bs, k)
    {
      if LivePayload(bs, k) {
        var j :| 0 <= j < |bs| && !bs[j].free && bs[j].at + HEADER <= 8 * k < bs[j].End();
        assert cs[if j < i then j else j - 1] == bs[j];
      }
    }
  }

  lemma MergeItems(bs: Blocks, i: nat)
    requires i + 1 < |bs|
    ensures var cs := MergeList(bs, i);
            && |cs| == |bs| - 1 && cs[i] == Merged(bs[i], bs[i + 1])
            && (forall j :: 0 <= j < i ==> cs[j] == bs[j]) && (forall j :: i < j < |cs| ==> cs[j] == bs[j + 1])
            && (forall j :: i + 1 < j < |bs| ==> cs[j - 1] == bs[j])
  {
  }

  /** One merge does not change what coalescing arrives at; nor does stepping over
      a block that cannot be merged. */
  lemma MergeProgress(bs: Blocks, j: nat)
    requires j + 1 < |bs|
    ensures bs[j].free && bs[j + 1].free ==>
              MergeList(bs, j)[..j] == bs[..j] && Coalesce(MergeList(bs, j)[j..]) == Coalesce(bs[j..])
    ensures !(bs[j].free && bs[j + 1].free) ==> bs[..j] + Coalesce(bs[j..]) == bs[..j + 1] + Coalesce(bs[j + 1..])
  {
    var tail := bs[j..];
    assert tail[0] == bs[j] && tail[1] == bs[j + 1] && tail[2..] == bs[j + 2..] && tail[1..] == bs[j + 1..];
    if bs[j].free && bs[j + 1].free {
      assert MergeList(bs, j)[j..] == [Block(tail[0].at, tail[0].size + HEADER + tail[1].size, true)] + tail[2..];
    } else {
      assert bs[..j] + ([tail[0]] + Coalesce(tail[1..])) == bs[..j + 1] + Coalesce(bs[j + 1..]);
    }
  }

  /** Splitting and then marking used is Allocated. */
  lemma SplitThenMark(bs: Blocks, i: nat, n: nat)
    requires i < |bs| && bs[i].free
    ensures var cs := SplitList(bs, i, n);
            && i < |cs| && cs[i].at == bs[i].at && cs[i := cs[i].(free := false)] == Allocated(bs, i, n)
    ensures forall k: nat :: LivePayload(bs, k) ==> LivePayload(SplitList(bs, i, n), k)
  {
    var cs, d := SplitList(bs, i, n), |SplitFree(bs[i], n)| - 1;
    forall k: nat | LivePayload(bs, k)
      ensures LivePayload(cs, k)
    {
      var j :| 0 <= j < |bs| && !bs[j].free && bs[j].at + HEADER <= 8 * k < bs[j].End();
      assert cs[if j < i then j else j + d] == bs[j];
    }
  }

  class KernelHeap {
    const area: array<Word>
    const base: nat
    var firstBlock: nat
    var initialized: bool
    ghost var blocks: Blocks

    /** The headers in memory describe a tiling of the area. */
    ghost predicate Consistent()
      reads this, area
    {
      && area.Length == WORDS && 0 < base && base % ALIGNMENT == 0 && base + HEAP_SIZE < WORD_LIMIT
      && initialized && firstBlock == base && blocks != []
      && Tiles(blocks, 0, HEAP_SIZE) && HeadersMatch(area[..], base, blocks)
    }

    ghost predicate Valid()
      reads this, area
    {
      if initialized then Consistent() && Coalesced(blocks)
      else
        && area.Length == WORDS && 0 < base && base % ALIGNMENT == 0 && base + HEAP_SIZE < WORD_LIMIT
        && firstBlock == 0 && blocks == []
    }

    /** heap_area in .bss, before heap_init. */
    constructor (area: array<Word>, base: nat)
      requires area.Length == WORDS && 0 < base && base % ALIGNMENT == 0 && base + HEAP_SIZE < WORD_LIMIT
      ensures Valid() && !initialized && this.area == area && this.base == base
    {
      this.area, this.base, firstBlock, initialized, blocks := area, base, 0, false, [];
    }

    /** The word a header field lives in. */
    function WordOf(pointer: nat, field: nat): nat
      requires base <= pointer
    {
      (pointer - base) / 8 + field
    }

    method SetFree(block: nat, free: bool)
      requires base <= block && WordOf(block, 1) < area.Length
      modifies area
      ensures area[..] == old(area[..])[WordOf(block, 1) := old(area[WordOf(block,
          1)]) / 0x100 * 0x100 + (if free then 1 else 0)]
    {
      var k := WordOf(block, 1);
      area[k] := area[k] / 0x100 * 0x100 + (if free then 1 else 0);
    }

    method HeapInit()
      requires area.Length == WORDS && 0 < base && base % ALIGNMENT == 0 && base + HEAP_SIZE < WORD_LIMIT
      modifies this, area
      ensures Valid() && initialized && blocks == INITIAL
    {
      InitialOk();
      firstBlock := base;
      area[WordOf(firstBlock, 0)] := HEAP_SIZE - HEADER;
      SetFree(firstBlock, true);
      area[WordOf(firstBlock, 2)] := 0;
      initialized := true;
      blocks := INITIAL;
    }

    /** Reading the header of block `i`. */
    lemma ReadHeader(i: nat)
      requires Consistent() && i < |blocks|
      ensures WordOf(base + blocks[i].at, 2) < area.Length
      ensures area[WordOf(base + blocks[i].at, 0)] == blocks[i].size
      ensures area[WordOf(base + blocks[i].at, 1)] % 0x100 == (if blocks[i].free then 1 else 0)
      ensures area[WordOf(base + blocks[i].at, 2)] == PointerTo(base, blocks, i + 1)
      ensures blocks[i].End() <= HEAP_SIZE && blocks[i].at % 8 == 0 && blocks[i].size % 8 == 0 && blocks[i].size >= 8
    {
      TilesMeaning(blocks, 0, HEAP_SIZE);
      assert HeaderAt(area[..], blocks[i], PointerTo(base, blocks, i + 1));
    }

    /** The five stores of split_block. */
    method StoreSplit(block: nat, size: nat, ghost b: Block)
      requires area.Length == WORDS && base + HEAP_SIZE < WORD_LIMIT && block == base + b.at
      requires b.at % 8 == 0 && size % 8 == 0 && b.size >= size + HEADER + ALIGNMENT && b.End() <= HEAP_SIZE
      requires area[HeaderWord(b)] == b.size
      modifies area
      ensures SplitStored(old(area[..]), area[..], base, b, size)
    {
      var newBlock := block + HEADER + size;
      area[WordOf(newBlock, 0)] := area[WordOf(block, 0)] - size - HEADER;
      SetFree(newBlock, true);
      area[WordOf(newBlock, 2)] := area[WordOf(block, 2)];
      area[WordOf(block, 0)] := size;
      area[WordOf(block, 2)] := newBlock;
    }

    /** split_block */
    method SplitBlock(block: nat, size: nat, ghost i: nat)
      requires Consistent() && i < |blocks| && block == base + blocks[i].at && blocks[i].free
      requires blocks[i].size >= size && size % ALIGNMENT == 0 && size >= ALIGNMENT
      modifies area, this`blocks
      ensures Consistent() && blocks == SplitList(old(blocks), i, size)
      ensures forall k :: 0 <= k < WORDS && LivePayload(old(blocks), k) ==> area[k] == old(area[k])
    {
      hide Tiles, HeadersMatch, LivePayload, SplitStored;
      ReadHeader(i);
      SplitTiling(blocks, i, size);
      if area[WordOf(block, 0)] < size + HEADER + ALIGNMENT {
        assert SplitList(blocks, i, size) == blocks;
        return;
      }
      ghost var a := area[..];
      StoreSplit(block, size, blocks[i]);
      SplitHeaders(a, area[..], base, blocks, i, size);
      SplitLeavesLive(a, area[..], base, blocks, i, size);
      blocks := SplitList(blocks, i, size);
    }

    /** The merge in the loop body of coalesce_free_blocks. */
    method MergeNext(block: nat, next: nat, ghost j: nat)
      requires Consistent() && j + 1 < |blocks| && blocks[j].free && blocks[j + 1].free
      requires block == PointerTo(base, blocks, j) && next == PointerTo(base, blocks, j + 1)
      modifies area, this`blocks
      ensures Consistent() && blocks == MergeList(old(blocks), j)
      ensures block == PointerTo(base, blocks, j)
      ensures forall k :: 0 <= k < WORDS && LivePayload(old(blocks), k) ==> area[k] == old(area[k])
      ensures forall k: nat :: LivePayload(blocks, k) <==> LivePayload(old(blocks), k)
    {
      hide Tiles, HeadersMatch, LivePayload;
      ghost var a := area[..];
      ReadHeader(j);
      ReadHeader(j + 1);
      HeadersApart(blocks, j, j + 1);
      MergeTiling(blocks, j, 0, HEAP_SIZE);
      MergedFits(blocks, j);
      area[WordOf(block, 0)] := area[WordOf(block, 0)] + HEADER + area[WordOf(next, 0)];
      area[WordOf(block, 2)] := area[WordOf(next, 2)];
      MergeHeaders(a, area[..], base, blocks, j);
      MergeLeavesLive(a, area[..], blocks, j);
      MergeSameLive(blocks, j);
      blocks := MergeList(blocks, j);
    }

    lemma MergedFits(bs: Blocks, j: nat)
      requires Tiles(bs, 0, HEAP_SIZE) && j + 1 < |bs|
      ensures bs[j].size + HEADER + bs[j + 1].size <= HEAP_SIZE && bs[j].End() == bs[j + 1].at
    {
      TilesMeaning(bs, 0, HEAP_SIZE);
    }

    /** The loop body of coalesce_free_blocks. */
    method CoalesceStep(block: nat, ghost j: nat, ghost bs: Blocks) returns (block': nat, ghost j': nat)
      requires Consistent() && j + 1 < |blocks| && block == PointerTo(base, blocks, j)
      requires Coalesce(bs) == blocks[..j] + Coalesce(blocks[j..])
      modifies area, this`blocks
      ensures Consistent() && j' < |blocks| && block' == PointerTo(base, blocks, j')
      ensures |blocks| - j' == old(|blocks|) - j - 1
      ensures Coalesce(bs) == blocks[..j'] + Coalesce(blocks[j'..])
      ensures forall k: nat :: LivePayload(blocks, k) <==> LivePayload(old(blocks), k)
      ensures forall k :: 0 <= k < WORDS && LivePayload(old(blocks), k) ==> area[k] == old(area[k])
    {
      hide Tiles, HeadersMatch, LivePayload, MergeList, Coalesce;
      ReadHeader(j);
      var next := area[WordOf(block, 2)];
      ReadHeader(j + 1);
      MergeProgress(blocks, j);
      MergedFits(blocks, j);
      if area[WordOf(block, 1)] % 0x100 != 0 && area[WordOf(next, 1)] % 0x100 != 0
         && block + HEADER + area[WordOf(block, 0)] == next {
        MergeNext(block, next, j);
        return block, j;
      } else {
        return next, j + 1;
      }
    }

    /** coalesce_free_blocks */
    method CoalesceFreeBlocks()
      requires Consistent()
      modifies area, this`blocks
      ensures Consistent() && blocks == Coalesce(old(blocks))
      ensures forall k :: 0 <= k < WORDS && LivePayload(old(blocks), k) ==> area[k] == old(area[k])
    {
      hide Tiles, HeadersMatch, LivePayload, Coalesce;
      var block := firstBlock;
      ghost var bs: Blocks, j: nat := blocks, 0;
      FirstPointer(blocks);
      assert blocks[..0] + Coalesce(blocks[0..]) == Coalesce(bs) by { assert blocks[0..] == bs; }
      ReadHeader(0);
      while block != 0 && area[WordOf(block, 2)] != 0
        invariant Consistent() && j < |blocks| && block == PointerTo(base, blocks, j)
        invariant WordOf(block, 2) < area.Length && area[WordOf(block, 2)] == PointerTo(base, blocks, j + 1)
        invariant Coalesce(bs) == blocks[..j] + Coalesce(blocks[j..])
        invariant forall k: nat :: LivePayload(blocks, k) <==> LivePayload(bs, k)
        invariant forall k :: 0 <= k < WORDS && LivePayload(bs, k) ==> area[k] == old(area[k])
        decreases |blocks| - j
      {
        block, j := CoalesceStep(block, j, bs);
        ReadHeader(j);
      }
      EndOfList(blocks, j);
    }

    lemma FirstPointer(bs: Blocks)
      requires Tiles(bs, 0, HEAP_SIZE) && bs != []
      ensures PointerTo(base, bs, 0) == base
    {
    }

    lemma EndOfList(bs: Blocks, j: nat)
      requires j <= |bs| <= j + 1
      ensures bs[..j] + Coalesce(bs[j..]) == bs
    {
      assert bs[..j] + bs[j..] == bs;
    }

    /** The flag of one block is set or cleared. */
    method MarkBlock(block: nat, free: bool, ghost i: nat)
      requires Consistent() && i < |blocks| && block == PointerTo(base, blocks, i)
      modifies area, this`blocks
      ensures Consistent() && blocks == old(blocks)[i := old(blocks)[i].(free := free)]
      ensures forall k :: 0 <= k < WORDS && LivePayload(old(blocks), k) ==> area[k] == old(area[k])
    {
      hide Tiles, HeadersMatch, LivePayload;
      ReadHeader(i);
      ghost var a := area[..];
      SetFree(block, free);
      FlagHeaders(a, area[..], base, blocks, i, free);
      FlagLeavesLive(a, area[..], blocks, i);
      TilesIgnoresFlags(blocks, blocks[i := blocks[i].(free := free)], 0, HEAP_SIZE);
      blocks := blocks[i := blocks[i].(free := free)];
    }

    /** The successful branch of kmalloc. */
    method TakeBlock(block: nat, size: nat, ghost i: nat)
      requires Consistent() && i < |blocks| && block == PointerTo(base, blocks, i) && blocks[i].free
      requires blocks[i].size >= size && size % ALIGNMENT == 0 && size >= ALIGNMENT
      modifies area, this`blocks
      ensures Consistent() && blocks == Allocated(old(blocks), i, size)
      ensures forall k :: 0 <= k < WORDS && LivePayload(old(blocks), k) ==> area[k] == old(area[k])
    {
      hide Tiles, HeadersMatch, LivePayload, SplitList, Allocated;
      ghost var bs := blocks;
      SplitBlock(block, size, i);
      SplitThenMark(bs, i, size);
      MarkBlock(block, false, i);
    }

    /** kmalloc: the payload of a new live block at the lowest address that fits, or
        null, which changes nothing live, exactly when nothing fits; every live
        payload keeps its contents. */
    method Kmalloc(size: Word) returns (pointer: nat)
      requires Valid()
      modifies this, area
      ensures Valid() && initialized == (old(initialized) || 0 < size <= HEAP_SIZE - HEADER)
      ensures var start := if old(initialized) || size == 0 || size > HEAP_SIZE - HEADER then old(blocks) else INITIAL;
              var result := MallocResult(start, size);
              blocks == result.0 && pointer == if result.1.None? then 0 else base + result.1.value
      ensures pointer % ALIGNMENT == 0
      ensures pointer != 0 ==>
                && 0 < size <= HEAP_SIZE - HEADER
                && exists b :: Granted(old(blocks), blocks, b, size) && pointer == base + b.at + HEADER
      ensures pointer == 0 ==>
                && Live(blocks) == Live(old(blocks)) && (old(initialized) ==> blocks == old(blocks))
                && (0 < size <= HEAP_SIZE - HEADER ==> forall a: nat :: !Avoids(old(blocks), a, AlignUp(size)))
      ensures forall k :: 0 <= k < WORDS && LivePayload(old(blocks), k) ==> area[k] == old(area[k])
    {
      hide Tiles, HeadersMatch, LivePayload, Allocated, Coalesced, Granted, Avoids, Live, FirstFit, AlignUp;
      if size == 0 || size > HEAP_SIZE - HEADER {
        return 0;
      }
      if !initialized {
        NothingLive();
        HeapInit();
      }
      ghost var start := blocks;
      MallocMeaning(start, size);
      SameLiveGranted(start, old(blocks), size);
      pointer := AllocateAligned(AlignUp(size), size);
    }

    /** What is handed out depends on the live blocks alone. */
    lemma SameLiveGranted(bs: Blocks, cs: Blocks, size: nat)
      ensures Live(bs) == Live(cs) ==>
                && (forall a: nat :: Avoids(bs, a, AlignUp(size)) <==> Avoids(cs, a, AlignUp(size)))
                && (forall ds: Blocks, b :: Granted(bs, ds, b, size) <==> Granted(cs, ds, b, size))
      ensures Live([]) == Live(INITIAL)
    {
      InitialOk();
    }

    lemma NothingLive()
      requires blocks == []
      ensures forall k: nat :: !LivePayload(blocks, k)
    {
    }

    lemma BlockAligned(i: nat)
      requires Consistent() && i < |blocks|
      ensures (base + blocks[i].at + HEADER) % ALIGNMENT == 0
    {
      hide Tiles, HeadersMatch;
      TilesMeaning(blocks, 0, HEAP_SIZE);
      AlignedSum(base, blocks[i].at);
    }

    /** The search loop of kmalloc. */
    method AllocateAligned(size: nat, ghost requested: nat) returns (pointer: nat)
      requires Valid() && initialized && size == AlignUp(requested) && 0 < requested <= HEAP_SIZE - HEADER
      modifies this, area
      ensures Valid() && initialized
      ensures var result := MallocResult(old(blocks), requested);
              blocks == result.0 && pointer == if result.1.None? then 0 else base + result.1.value
      ensures pointer % ALIGNMENT == 0
      ensures forall k :: 0 <= k < WORDS && LivePayload(old(blocks), k) ==> area[k] == old(area[k])
    {
      hide Tiles, HeadersMatch, LivePayload, Allocated, Coalesced;
      AlignUpMeaning(requested);
      var block := firstBlock;
      ghost var bs, i: nat := blocks, 0;
      FirstPointer(blocks);
      while block != 0
        invariant blocks == bs && initialized && Valid() && i <= |blocks| && block == PointerTo(base, blocks, i)
        invariant forall j :: 0 <= j < i ==> !(blocks[j].free && blocks[j].size >= size)
        invariant area[..] == old(area[..])
        decreases |blocks| - i
      {
        ReadHeader(i);
        if area[WordOf(block, 1)] % 0x100 != 0 && area[WordOf(block, 0)] >= size {
          FirstFitIs(blocks, size, i);
          AllocatedKeepsOk(blocks, i, size);
          BlockAligned(i);
          TakeBlock(block, size, i);
          return block + HEADER;
        }
        block := area[WordOf(block, 2)];
        i := i + 1;
      }
      FirstFitIs(blocks, size, i);
      return 0;
    }

    lemma FirstFitIs(bs: Blocks, n: nat, i: nat)
      requires i <= |bs| && forall j :: 0 <= j < i ==> !(bs[j].free && bs[j].size >= n)
      requires i < |bs| ==> bs[i].free && bs[i].size >= n
      ensures FirstFit(bs, n) == i
    {
      var f := FirstFit(bs, n);
    }

    /** kfree: exactly the block with this payload address is released, then free
        neighbours are merged; any other pointer is ignored. */
    method Kfree(pointer: nat)
      requires Valid()
      modifies this, area
      ensures Valid() && initialized == old(initialized)
      ensures blocks == if pointer < base then old(blocks) else Freed(old(blocks), pointer - base)
      ensures Live(blocks) == set b | b in Live(old(blocks)) && base + b.at + HEADER != pointer
      ensures (forall b :: b in Live(old(blocks)) ==> base + b.at + HEADER != pointer) ==> blocks == old(blocks)
      ensures forall k :: 0 <= k < WORDS && LivePayload(blocks, k) ==> area[k] == old(area[k])
    {
      hide Tiles, HeadersMatch, LivePayload, Coalesced, Coalesce, Live;
      FreedByPointer(pointer);
      if pointer == 0 {
        return;
      }
      var block := firstBlock;
      ghost var bs, i: nat := blocks, 0;
      if initialized { FirstPointer(blocks); }
      while block != 0
        invariant blocks == bs && initialized == old(initialized) && Valid() && i <= |blocks|
        invariant block == PointerTo(base, blocks, i)
        invariant forall j :: 0 <= j < i ==> base + blocks[j].at + HEADER != pointer
        invariant area[..] == old(area[..])
        decreases |blocks| - i
      {
        ReadHeader(i);
        if block + HEADER == pointer {
          FreeFound(block, i, pointer);
          return;
        }
        block := area[WordOf(block, 2)];
        i := i + 1;
      }
      if pointer >= base { FindIs(blocks, pointer - base, i); }
    }

    lemma FreedByPointer(pointer: nat)
      requires Valid()
      ensures var freed := if pointer < base then blocks else Freed(blocks, pointer - base);
        && Live(freed) == (set b | b in Live(blocks) && base + b.at + HEADER != pointer)
        && ((forall b :: b in Live(blocks) ==> base + b.at + HEADER != pointer) ==> freed == blocks)
    {
      hide Tiles, HeadersMatch, Coalesced, Coalesce;
      if initialized && pointer >= base { FreedKeepsOk(blocks, pointer - base); }
    }

    /** The branch of kfree that has found the block. */
    method FreeFound(block: nat, ghost i: nat, pointer: nat)
      requires Valid() && initialized && i < |blocks| && block == base + blocks[i].at && block + HEADER == pointer
      requires forall j :: 0 <= j < i ==> base + blocks[j].at + HEADER != pointer
      modifies this, area
      ensures Valid() && initialized && blocks == Freed(old(blocks), pointer - base)
      ensures forall k :: 0 <= k < WORDS && LivePayload(blocks, k) ==> area[k] == old(area[k])
    {
      hide Tiles, HeadersMatch, LivePayload, Coalesced, Coalesce, Find;
      FindIs(blocks, pointer - base, i);
      FreedKeepsOk(blocks, pointer - base);
      ReleaseBlock(block, i);
    }

    lemma FindIs(bs: Blocks, a: nat, i: nat)
      requires i <= |bs| && forall j :: 0 <= j < i ==> bs[j].at + HEADER != a
      requires i < |bs| ==> bs[i].at + HEADER == a
      ensures Find(bs, a) == i
    {
      var f := Find(bs, a);
    }

    /** The matching branch of kfree. */
    method ReleaseBlock(block: nat, ghost i: nat)
      requires Consistent() && i < |blocks| && block == PointerTo(base, blocks, i)
      modifies area, this`blocks
      ensures Consistent() && blocks == Coalesce(old(blocks)[i := old(blocks)[i].(free := true)])
      ensures forall k :: 0 <= k < WORDS && LivePayload(blocks, k) ==> area[k] == old(area[k])
    {
      hide Tiles, HeadersMatch, LivePayload, Coalesce;
      ghost var bs := blocks;
      MarkBlock(block, true, i);
      ghost var cs := blocks;
      CoalesceFreeBlocks();
      StillLive(bs, i, cs, blocks);
    }

    lemma StillLive(bs: Blocks, i: nat, cs: Blocks, ds: Blocks)
      requires Tiles(bs, 0, HEAP_SIZE) && i < |bs| && cs == bs[i := bs[i].(free := true)] && ds == Coalesce(cs)
      ensures forall k: nat :: LivePayload(ds, k) ==> LivePayload(cs, k) && LivePayload(bs, k)
    {
      hide Tiles, Coalesce;
      TilesIgnoresFlags(bs, cs, 0, HEAP_SIZE);
      CoalesceKeeps(cs, 0, HEAP_SIZE);
      forall k: nat | LivePayload(ds, k)
        ensures LivePayload(cs, k) && LivePayload(bs, k)
      {
        var j :| 0 <= j < |ds| && !ds[j].free && ds[j].at + HEADER <= 8 * k < ds[j].End();
        assert ds[j] in Live(ds);
        var l :| 0 <= l < |cs| && cs[l] == ds[j];
        assert bs[l] == cs[l];
      }
    }

    /** A client writes a word of its payload.  The headers around it do not change. */
    method Store(word: nat, value: Word)
      requires Valid() && initialized && word < WORDS && LivePayload(blocks, word)
      modifies area
      ensures Valid() && area[..] == old(area[..])[word := value]
    {
      hide Tiles, LivePayload, Coalesced;
      StoreKeepsHeaders(area[..], base, blocks, word, value);
      area[word] := value;
    }

    /** Any sequence of kmalloc and kfree calls by clients that write their own payload
        in between: the heap is what the history says, a payload word that stays live
        throughout holds what was last stored there, and the pointers handed out and
        not given back since are those of distinct live blocks of the sizes asked for;
        no other block has become live. */
    method Run(ops: seq<HeapOp>) returns (pointers: seq<nat>)
      requires Valid() && initialized && Allowed(blocks, ops)
      modifies this, area
      ensures Valid() && initialized && blocks == After(old(blocks), ops)
      ensures forall k: nat :: k < WORDS && LiveThroughout(old(blocks), ops, k) ==>
                area[k] == LastStored(ops, k, old(area[k]))
      ensures |pointers| == |ops| && Accounted(base, Live(old(blocks)), Live(blocks), ops, pointers)
    {
      hide Tiles, HeadersMatch, LivePayload, Coalesced, MallocResult, Freed, Live, Accounted, Granted, Avoids;
      pointers := [];
      NothingYet(base, Live(blocks), ops);
      for i := 0 to |ops|
        invariant Valid() && initialized && After(blocks, ops[i..]) == After(old(blocks), ops)
        invariant Allowed(blocks, ops[i..])
        invariant forall k: nat :: k < WORDS && LiveThroughout(old(blocks), ops, k) ==>
                    LiveThroughout(blocks, ops[i..], k)
                    && LastStored(ops[i..], k, area[k]) == LastStored(ops, k, old(area[k]))
        invariant |pointers| == i && Accounted(base, Live(old(blocks)), Live(blocks), ops, pointers)
      {
        assert ops[i..][1..] == ops[i + 1..];
        ghost var bs := blocks;
        var pointer: nat := 0;
        match ops[i] {
          case Malloc(size) =>
            pointer := Kmalloc(size);
          case Free(offset) =>
            Kfree(base + offset);
          case Store(word, value) =>
            Store(word, value);
        }
        OneMoreAnswer(base, Live(old(blocks)), bs, blocks, ops, pointers, pointer);
        pointers := pointers + [pointer];
      }
    }
  }

  // Who holds which block

  /** The pointer that operation i got, and that no later one of the operations before
      number n gave back. */
  ghost predicate Held(base: nat, ops: seq<HeapOp>, pointers: seq<nat>, i: nat)
    requires i < |pointers| <= |ops|
  {
    && ops[i].Malloc? && pointers[i] != 0
    && forall j :: i < j < |pointers| && ops[j].Free? ==> base + ops[j].offset != pointers[i]
  }

  /** The operations that have their answers so far hold distinct live blocks, at least
      as large as they asked for, and every live block is held or was there before. */
  ghost predicate Accounted(base: nat, start: set<Block>, live: set<Block>, ops: seq<HeapOp>, pointers: seq<nat>)
    requires |pointers| <= |ops|
  {
    && (forall i: nat :: i < |pointers| && Held(base, ops, pointers, i) ==>
          exists b :: b in live && base + b.at + HEADER == pointers[i] && b.size >= ops[i].size)
    && (forall i: nat, j: nat :: i < j < |pointers| && Held(base, ops, pointers, i) && Held(base, ops, pointers, j) ==>
          pointers[i] != pointers[j])
    && (forall b :: b in live && b !in start ==>
          exists i: nat :: i < |pointers| && Held(base, ops, pointers, i) && pointers[i] == base + b.at + HEADER)
  }

  lemma NothingYet(base: nat, live: set<Block>, ops: seq<HeapOp>)
    ensures Accounted(base, live, live, ops, [])
  {
  }

  /** The live blocks after an operation that answered `pointer`. */
  ghost predicate Answered(base: nat, bs: Blocks, bs': Blocks, op: HeapOp, pointer: nat)
  {
    match op
    case Malloc(size) =>
      if pointer == 0 then Live(bs') == Live(bs)
      else exists b :: Granted(bs, bs', b, size) && pointer == base + b.at + HEADER
    case Free(offset) => pointer == 0 && Live(bs') == set b | b in Live(bs) && b.at + HEADER != offset
    case Store(_, _) => pointer == 0 && Live(bs') == Live(bs)
  }

  lemma HeldLater(base: nat, ops: seq<HeapOp>, pointers: seq<nat>, pointer: nat, i: nat)
    requires |pointers| < |ops| && i < |pointers|
    ensures Held(base, ops, pointers + [pointer], i) <==>
              Held(base, ops, pointers, i)
              && (ops[|pointers|].Free? ==> base + ops[|pointers|].offset != pointers[i])
  {
    var longer := pointers + [pointer];
    assert longer[i] == pointers[i];
    if Held(base, ops, longer, i) && ops[|pointers|].Free? {
      assert i < |pointers| < |longer|;
    }
  }

  lemma OneMoreAnswer(base: nat, start: set<Block>, bs: Blocks, bs': Blocks, ops: seq<HeapOp>,
                      pointers: seq<nat>, pointer: nat)
    requires |pointers| < |ops| && Accounted(base, start, Live(bs), ops, pointers)
    requires HeapOk(bs') && Answered(base, bs, bs', ops[|pointers|], pointer)
    ensures Accounted(base, start, Live(bs'), ops, pointers + [pointer])
  {
    hide HeapOk, Live, Held, Avoids, AlignUp;
    var n, longer := |pointers|, pointers + [pointer];
    forall i: nat | i < n
      ensures Held(base, ops, longer, i) <==>
                Held(base, ops, pointers, i) && (ops[n].Free? ==> base + ops[n].offset != pointers[i])
    {
      HeldLater(base, ops, pointers, pointer, i);
    }
    LastHeld(base, ops, longer);
    NewBlockApart(base, bs, bs', ops[n], pointer);
  }

  lemma LastHeld(base: nat, ops: seq<HeapOp>, pointers: seq<nat>)
    requires 0 < |pointers| <= |ops|
    ensures Held(base, ops, pointers, |pointers| - 1) <==>
              ops[|pointers| - 1].Malloc? && pointers[|pointers| - 1] != 0
  {
  }

  /** A new block does not start where a live one does. */
  lemma NewBlockApart(base: nat, bs: Blocks, bs': Blocks, op: HeapOp, pointer: nat)
    requires HeapOk(bs') && Answered(base, bs, bs', op, pointer)
    ensures op.Malloc? && pointer != 0 ==> forall c :: c in Live(bs) ==> base + c.at + HEADER != pointer
  {
    hide HeapOk, Live, Avoids;
    if op.Malloc? && pointer != 0 {
      var b :| Granted(bs, bs', b, op.size) && pointer == base + b.at + HEADER;
      forall c | c in Live(bs)
        ensures base + c.at + HEADER != pointer
      {
        LiveApart(bs', b, c);
      }
    }
  }

  lemma StoreKeepsHeaders(a: seq<Word>, base: nat, bs: Blocks, k: nat, value: Word)
    requires HeadersMatch(a, base, bs) && Tiles(bs, 0, HEAP_SIZE) && k < WORDS && LivePayload(bs, k)
    ensures HeadersMatch(a[k := value], base, bs)
  {
    hide LivePayload, Tiles;
    TilesMeaning(bs, 0, HEAP_SIZE);
    forall i: nat | i < |bs|
      ensures k != HeaderWord(bs[i]) && k != HeaderWord(bs[i]) + 1 && k != HeaderWord(bs[i]) + 2
    {
      assert HeaderAt(a, bs[i], PointerTo(base, bs, i + 1));
      if HeaderWord(bs[i]) <= k <= HeaderWord(bs[i]) + 2 { NotLive(bs, i, k); }
    }
  }

  /** Requests have 64-bit sizes, and clients store words into live payload only. */
  ghost predicate Allowed(bs: Blocks, ops: seq<HeapOp>)
    decreases |ops|
  {
    ops == [] ||
    ((match ops[0]
      case Malloc(size) => size < WORD_LIMIT
      case Free(_) => true
      case Store(word, value) => word < WORDS && value < WORD_LIMIT && LivePayload(bs, word))
     && Allowed(AfterOp(bs, ops[0]), ops[1..]))
  }

  /** What a word that held `start` holds after the stores among `ops`. */
  function LastStored(ops: seq<HeapOp>, k: nat, start: nat): nat
    decreases |ops|
  {
    if ops == [] then start
    else LastStored(ops[1..], k, if ops[0].Store? && ops[0].word == k then ops[0].value else start)
  }

  /** Word k is live payload now and after each of the operations. */
  ghost predicate LiveThroughout(bs: Blocks, ops: seq<HeapOp>, k: nat)
    decreases |ops|
  {
    LivePayload(bs, k) && (ops == [] || LiveThroughout(AfterOp(bs, ops[0]), ops[1..], k))
  }
}
