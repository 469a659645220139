/** The kernel heap (kernel_os/src/heap.cpp) as a list of blocks that tile the
    heap area: what allocation, splitting and coalescing do to that list. */
module HeapBlocks {
  import opened Wrappers

  const HEAP_SIZE: nat := 0x1_0000
  const HEADER: nat := 24
  const ALIGNMENT: nat := 8

  /** A block: the offset of its header, the size of its payload, its free flag. */
  datatype Block = Block(at: nat, size: nat, free: bool)
  {
    function End(): nat
    {
      at + HEADER + size
    }
  }

  type Blocks = seq<Block>

  const INITIAL: Blocks := [Block(0, HEAP_SIZE - HEADER, true)]

  /** The blocks cover [start, end) one after the other, aligned and nonempty. */
  ghost predicate Tiles(bs: Blocks, start: nat, end: nat)
  {
    if bs == [] then start == end
    else
      && bs[0].at == start && start % ALIGNMENT == 0
      && bs[0].size % ALIGNMENT == 0 && bs[0].size >= ALIGNMENT
      && Tiles(bs[1..], bs[0].End(), end)
  }

  /** No two neighbouring blocks are both free. */
  ghost predicate Coalesced(bs: Blocks)
  {
    forall i :: 0 <= i < |bs| - 1 ==> !(bs[i].free && bs[i + 1].free)
  }

  /** The invariant of the heap. */
  ghost predicate HeapOk(bs: Blocks)
  {
    Tiles(bs, 0, HEAP_SIZE) && Coalesced(bs)
  }

  ghost function Live(bs: Blocks): set<Block>
  {
    set b | b in bs && !b.free
  }

  lemma LiveConcat(xs: Blocks, ys: Blocks)
    ensures Live(xs + ys) == Live(xs) + Live(ys)
  {
  }

  lemma LiveOne(b: Block)
    ensures Live([b]) == if b.free then {} else {b}
  {
    assert b in [b];
  }

  lemma LiveAt(bs: Blocks, i: nat)
    requires i < |bs|
    ensures !bs[i].free <==> bs[i] in Live(bs)
  {
  }

  // Allocation

  function AlignUp(size: nat): nat
  {
    (size + ALIGNMENT - 1) / ALIGNMENT * ALIGNMENT
  }

  /** The first free block that is large enough, if any. */
  function FirstFit(bs: Blocks, n: nat): (i: nat)
    ensures i <= |bs|
    ensures i < |bs| ==> bs[i].free && bs[i].size >= n
    ensures forall j :: 0 <= j < i ==> !(bs[j].free && bs[j].size >= n)
  {
    if bs == [] then 0
    else if bs[0].free && bs[0].size >= n then 0
    else 1 + FirstFit(bs[1..], n)
  }

  /** split_block, and the block marked used. */
  function Split(b: Block, n: nat): Blocks
  {
    if b.size < n + HEADER + ALIGNMENT then [b.(free := false)]
    else [Block(b.at, n, false), Block(b.at + HEADER + n, b.size - n - HEADER, true)]
  }

  function Allocated(bs: Blocks, i: nat, n: nat): Blocks
    requires i < |bs|
  {
    bs[..i] + Split(bs[i], n) + bs[i + 1..]
  }

  lemma {:induction false} TilesConcat(xs: Blocks, ys: Blocks, start: nat, mid: nat, end: nat)
    requires Tiles(xs, start, mid) && Tiles(ys, mid, end)
    ensures Tiles(xs + ys, start, end)
    decreases |xs|
  {
    if xs == [] {
      assert xs + ys == ys;
    } else {
      assert (xs + ys)[1..] == xs[1..] + ys;
      TilesConcat(xs[1..], ys, xs[0].End(), mid, end);
    }
  }

  /** A block may be replaced by blocks that tile the same stretch. */
  lemma {:induction false} ReplaceTiles(bs: Blocks, i: nat, s: Blocks, start: nat, end: nat)
    requires Tiles(bs, start, end) && i < |bs| && Tiles(s, bs[i].at, bs[i].End())
    ensures Tiles(bs[..i] + s + bs[i + 1..], start, end)
    decreases i
  {
    var cs := bs[..i] + s + bs[i + 1..];
    if i == 0 {
      assert cs == s + bs[1..];
      TilesConcat(s, bs[1..], start, bs[0].End(), end);
    } else {
      ReplaceTiles(bs[1..], i - 1, s, bs[0].End(), end);
      assert cs[0] == bs[0] && cs[1..] == bs[1..][..i - 1] + s + bs[1..][i..];
    }
  }

  /** Where tiling blocks lie. */
  lemma {:induction false} TilesMeaning(bs: Blocks, start: nat, end: nat)
    requires Tiles(bs, start, end)
    ensures forall i :: 0 <= i < |bs| ==> start <= bs[i].at && bs[i].End() <= end
    ensures forall i :: 0 <= i < |bs| ==> bs[i].at % ALIGNMENT == 0
    ensures forall i :: 0 <= i < |bs| ==> bs[i].size % ALIGNMENT == 0 && bs[i].size >= ALIGNMENT
    ensures forall i :: 0 <= i < |bs| - 1 ==> bs[i + 1].at == bs[i].End()
    ensures forall i, j :: 0 <= i < j < |bs| ==> bs[i].End() <= bs[j].at
    ensures start <= end
    decreases |bs|
  {
    if bs == [] {
    } else {
      TilesMeaning(bs[1..], bs[0].End(), end);
      assert forall i :: 0 < i < |bs| ==> bs[i] == bs[1..][i - 1];
    }
  }

  /** Live payloads are aligned, inside the heap and pairwise disjoint. */
  lemma LiveApart(bs: Blocks, b: Block, c: Block)
    requires HeapOk(bs) && b in Live(bs) && c in Live(bs)
    ensures (b.at + HEADER) % ALIGNMENT == 0 && b.End() <= HEAP_SIZE
    ensures b == c || b.End() <= c.at || c.End() <= b.at
  {
    hide Tiles;
    TilesMeaning(bs, 0, HEAP_SIZE);
    var i :| 0 <= i < |bs| && bs[i] == b;
    var j :| 0 <= j < |bs| && bs[j] == c;
    assert i < j || j < i || i == j;
  }

  lemma SplitTiles(b: Block, n: nat)
    requires b.free && b.size >= n && n % ALIGNMENT == 0 && n >= ALIGNMENT
    requires b.at % ALIGNMENT == 0 && b.size % ALIGNMENT == 0
    ensures Tiles(Split(b, n), b.at, b.End())
    ensures Split(b, n)[0].at == b.at && !Split(b, n)[0].free && Split(b, n)[0].size >= n
  {
    if b.size < n + HEADER + ALIGNMENT {
      TilesOne(b.(free := false));
    } else {
      var c, d := Block(b.at, n, false), Block(b.at + HEADER + n, b.size - n - HEADER, true);
      assert d.at % ALIGNMENT == 0 && d.size % ALIGNMENT == 0 && d.size >= ALIGNMENT && d.End() == b.End();
      TilesOne(d);
      assert [c, d][1..] == [d];
    }
  }

  lemma TilesOne(b: Block)
    requires b.at % ALIGNMENT == 0 && b.size % ALIGNMENT == 0 && b.size >= ALIGNMENT
    ensures Tiles([b], b.at, b.End())
  {
    assert [b][1..] == [];
  }

  /** Allocation keeps the tiling and the coalescing, and makes exactly one new
      block live: it starts where the chosen free block started and is large enough. */
  lemma AllocatedKeepsOk(bs: Blocks, i: nat, n: nat)
    requires HeapOk(bs) && i < |bs| && bs[i].free && bs[i].size >= n && n % ALIGNMENT == 0 && n >= ALIGNMENT
    ensures HeapOk(Allocated(bs, i, n))
    ensures Live(Allocated(bs, i, n)) == Live(bs) + {Split(bs[i], n)[0]}
    ensures Split(bs[i], n)[0] !in Live(bs)
  {
    hide Tiles, Split;
    TilesMeaning(bs, 0, HEAP_SIZE);
    SplitTiles(bs[i], n);
    ReplaceTiles(bs, i, Split(bs[i], n), 0, HEAP_SIZE);
    AllocatedCoalesced(bs, i, n);
    AllocatedLive(bs, i, n);
  }

  lemma AllocatedCoalesced(bs: Blocks, i: nat, n: nat)
    requires Coalesced(bs) && i < |bs| && bs[i].free
    ensures Coalesced(Allocated(bs, i, n))
  {
    var cs, d := Allocated(bs, i, n), |Split(bs[i], n)| - 1;
    forall j | 0 <= j < |cs| - 1
      ensures !(cs[j].free && cs[j + 1].free)
    {
      if j + 1 < i {
        assert cs[j] == bs[j] && cs[j + 1] == bs[j + 1];
      } else if j >= i + d + 1 {
        assert cs[j] == bs[j - d] && cs[j + 1] == bs[j - d + 1];
      } else if j == i + d {
        assert cs[j + 1] == bs[i + 1];
      }
    }
  }

  lemma AllocatedLive(bs: Blocks, i: nat, n: nat)
    requires i < |bs| && bs[i].free && Tiles(bs, 0, HEAP_SIZE)
    ensures Live(Allocated(bs, i, n)) == Live(bs) + {Split(bs[i], n)[0]}
    ensures Split(bs[i], n)[0] !in Live(bs)
  {
    hide Live, Tiles;
    var s, before, after := Split(bs[i], n), bs[..i], bs[i + 1..];
    assert bs == before + ([bs[i]] + after);
    LiveConcat(before, [bs[i]] + after);
    LiveConcat([bs[i]], after);
    LiveOne(bs[i]);
    LiveConcat(before, s);
    LiveConcat(before + s, after);
    SplitLive(bs[i], n);
    NewBlockIsNew(bs, i, s[0]);
  }

  lemma SplitLive(b: Block, n: nat)
    ensures Live(Split(b, n)) == {Split(b, n)[0]}
  {
    var s := Split(b, n);
    LiveOne(s[0]);
    if |s| == 2 {
      assert s == [s[0]] + [s[1]];
      LiveConcat([s[0]], [s[1]]);
      LiveOne(s[1]);
    } else {
      assert s == [s[0]];
    }
  }

  lemma NewBlockIsNew(bs: Blocks, i: nat, b: Block)
    requires i < |bs| && bs[i].free && Tiles(bs, 0, HEAP_SIZE) && b.at == bs[i].at
    ensures b !in Live(bs)
  {
    TilesMeaning(bs, 0, HEAP_SIZE);
    forall j | 0 <= j < |bs| && !bs[j].free
      ensures bs[j] != b
    {
      assert j < i || i < j;
    }
  }

  /** kmalloc fails exactly when no stretch of the heap that avoids every live
      block is long enough for a header and the request. */
  ghost predicate Avoids(bs: Blocks, a: nat, n: nat)
  {
    a + HEADER + n <= HEAP_SIZE
    && forall b :: b in Live(bs) ==> b.End() <= a || a + HEADER + n <= b.at
  }

  lemma FailsOnlyWhenFull(bs: Blocks, n: nat)
    requires HeapOk(bs)
    ensures FirstFit(bs, n) == |bs| <==> !exists a: nat :: Avoids(bs, a, n)
  {
    hide Tiles, Coalesced;
    if FirstFit(bs, n) < |bs| {
      LowestFit(bs, n);
    } else {
      forall a: nat
        ensures !Avoids(bs, a, n)
      {
        if Avoids(bs, a, n) {
          var j := BlockAt(bs, 0, HEAP_SIZE, a);
          StretchInOneBlock(bs, a, n, j);
        }
      }
    }
  }

  /** First fit finds the lowest stretch beside the live blocks. */
  lemma LowestFit(bs: Blocks, n: nat)
    requires HeapOk(bs) && FirstFit(bs, n) < |bs|
    ensures Avoids(bs, bs[FirstFit(bs, n)].at, n)
    ensures forall a: nat :: a < bs[FirstFit(bs, n)].at ==> !Avoids(bs, a, n)
  {
    hide Tiles, Coalesced;
    var i := FirstFit(bs, n);
    TilesMeaning(bs, 0, HEAP_SIZE);
    forall b | b in Live(bs)
      ensures b.End() <= bs[i].at || bs[i].at + HEADER + n <= b.at
    {
      var j :| 0 <= j < |bs| && bs[j] == b;
      assert j != i;
    }
    forall a: nat | a < bs[i].at
      ensures !Avoids(bs, a, n)
    {
      if Avoids(bs, a, n) {
        var j := BlockAt(bs, 0, HEAP_SIZE, a);
        StretchInOneBlock(bs, a, n, j);
      }
    }
  }

  lemma {:induction false} BlockAt(bs: Blocks, start: nat, end: nat, a: nat) returns (j: nat)
    requires Tiles(bs, start, end) && start <= a < end
    ensures j < |bs| && bs[j].at <= a < bs[j].End()
    decreases |bs|
  {
    if a < bs[0].End() {
      j := 0;
    } else {
      j := BlockAt(bs[1..], bs[0].End(), end, a);
      j := j + 1;
    }
  }

  /** A stretch that avoids the live blocks lies inside a single free block. */
  lemma StretchInOneBlock(bs: Blocks, a: nat, n: nat, j: nat)
    requires HeapOk(bs) && Avoids(bs, a, n)
    requires j < |bs| && bs[j].at <= a < bs[j].End()
    ensures bs[j].free && bs[j].size >= n
  {
    TilesMeaning(bs, 0, HEAP_SIZE);
    LastBlockEnds(bs, 0, HEAP_SIZE);
    LiveAt(bs, j);
    if j + 1 < |bs| {
      LiveAt(bs, j + 1);
    }
  }

  lemma {:induction false} LastBlockEnds(bs: Blocks, start: nat, end: nat)
    requires Tiles(bs, start, end) && bs != []
    ensures bs[|bs| - 1].End() == end
    decreases |bs|
  {
    if |bs| == 1 {
      assert bs[1..] == [];
    } else {
      LastBlockEnds(bs[1..], bs[0].End(), end);
      assert bs[1..][|bs| - 2] == bs[|bs| - 1];
    }
  }

  // Freeing

  /** coalesce_free_blocks */
  function Coalesce(bs: Blocks): Blocks
    decreases |bs|
  {
    if |bs| < 2 then bs
    else if bs[0].free && bs[1].free then
      Coalesce([Block(bs[0].at, bs[0].size + HEADER + bs[1].size, true)] + bs[2..])
    else [bs[0]] + Coalesce(bs[1..])
  }

  lemma {:induction false} CoalesceKeeps(bs: Blocks, start: nat, end: nat)
    requires Tiles(bs, start, end)
    ensures Tiles(Coalesce(bs), start, end) && Coalesced(Coalesce(bs)) && Live(Coalesce(bs)) == Live(bs)
    ensures bs != [] ==> Coalesce(bs) != [] && (!bs[0].free ==> Coalesce(bs)[0] == bs[0])
    decreases |bs|
  {
    if |bs| < 2 {
    } else if bs[0].free && bs[1].free {
      var merged := Block(bs[0].at, bs[0].size + HEADER + bs[1].size, true);
      var cs := [merged] + bs[2..];
      assert cs[1..] == bs[2..] && bs[1..][1..] == bs[2..];
      CoalesceKeeps(cs, start, end);
      assert bs == [bs[0]] + ([bs[1]] + bs[2..]);
      LiveConcat([bs[0]], [bs[1]] + bs[2..]);
      LiveConcat([bs[1]], bs[2..]);
      LiveConcat([merged], bs[2..]);
      LiveOne(bs[0]);
      LiveOne(bs[1]);
      LiveOne(merged);
    } else {
      CoalesceKeeps(bs[1..], bs[0].End(), end);
      var cs := Coalesce(bs[1..]);
      assert ([bs[0]] + cs)[1..] == cs;
      assert bs == [bs[0]] + bs[1..];
      LiveConcat([bs[0]], bs[1..]);
      LiveConcat([bs[0]], cs);
      forall i | 0 <= i < |cs|
        ensures !(([bs[0]] + cs)[i].free && ([bs[0]] + cs)[i + 1].free)
      {
        if i == 0 {
          CoalesceHead(bs[1..]);
        } else {
          assert ([bs[0]] + cs)[i] == cs[i - 1] && ([bs[0]] + cs)[i + 1] == cs[i];
        }
      }
    }
  }

  lemma {:induction false} CoalesceHead(bs: Blocks)
    requires bs != []
    ensures Coalesce(bs) != [] && Coalesce(bs)[0].free == bs[0].free && Coalesce(bs)[0].at == bs[0].at
    decreases |bs|
  {
    if |bs| < 2 || !bs[0].free || !bs[1].free {
    } else {
      CoalesceHead([Block(bs[0].at, bs[0].size + HEADER + bs[1].size, true)] + bs[2..]);
    }
  }

  lemma {:induction false} CoalesceFixed(bs: Blocks)
    requires Coalesced(bs)
    ensures Coalesce(bs) == bs
    decreases |bs|
  {
    if |bs| < 2 {
    } else {
      assert !(bs[0].free && bs[1].free);
      forall i | 0 <= i < |bs[1..]| - 1
        ensures !(bs[1..][i].free && bs[1..][i + 1].free)
      {
        assert bs[1..][i] == bs[i + 1] && bs[1..][i + 1] == bs[i + 2];
      }
      CoalesceFixed(bs[1..]);
    }
  }

  /** The block whose payload starts at offset `a`, if any. */
  function Find(bs: Blocks, a: nat): (i: nat)
    ensures i <= |bs|
    ensures i < |bs| ==> bs[i].at + HEADER == a
    ensures forall j :: 0 <= j < i ==> bs[j].at + HEADER != a
  {
    if bs == [] then 0 else if bs[0].at + HEADER == a then 0 else 1 + Find(bs[1..], a)
  }

  /** kfree of the payload at offset `a`. */
  function Freed(bs: Blocks, a: nat): Blocks
  {
    var i := Find(bs, a);
    if i == |bs| then bs else Coalesce(bs[i := bs[i].(free := true)])
  }

  lemma {:induction false} TilesIgnoresFlags(bs: Blocks, cs: Blocks, start: nat, end: nat)
    requires Tiles(bs, start, end) && |cs| == |bs|
    requires forall i :: 0 <= i < |bs| ==> cs[i].at == bs[i].at && cs[i].size == bs[i].size
    ensures Tiles(cs, start, end)
    decreases |bs|
  {
    if bs == [] {
    } else {
      forall i | 0 <= i < |bs[1..]|
        ensures cs[1..][i].at == bs[1..][i].at && cs[1..][i].size == bs[1..][i].size
      {
        assert cs[i + 1].at == bs[i + 1].at;
      }
      TilesIgnoresFlags(bs[1..], cs[1..], bs[0].End(), end);
    }
  }

  /** kfree keeps the invariant; it takes exactly the named block out of the live
      blocks, or changes nothing when no live block starts there. */
  lemma FreedKeepsOk(bs: Blocks, a: nat)
    requires HeapOk(bs)
    ensures HeapOk(Freed(bs, a))
    ensures Live(Freed(bs, a)) == set b | b in Live(bs) && b.at + HEADER != a
    ensures (forall b :: b in Live(bs) ==> b.at + HEADER != a) ==> Freed(bs, a) == bs
  {
    hide Tiles, Live;
    var i := Find(bs, a);
    TilesMeaning(bs, 0, HEAP_SIZE);
    if i < |bs| {
      var cs := bs[i := bs[i].(free := true)];
      TilesIgnoresFlags(bs, cs, 0, HEAP_SIZE);
      CoalesceKeeps(cs, 0, HEAP_SIZE);
      ReleasedLive(bs, i);
      if bs[i].free {
        assert cs == bs;
        CoalesceFixed(bs);
      } else {
        LiveAt(bs, i);
      }
    } else {
      NothingToRelease(bs, a);
    }
  }

  lemma ReleasedLive(bs: Blocks, i: nat)
    requires Tiles(bs, 0, HEAP_SIZE) && i < |bs|
    ensures Live(bs[i := bs[i].(free := true)]) == set b | b in Live(bs) && b.at != bs[i].at
  {
    var cs := bs[i := bs[i].(free := true)];
    TilesMeaning(bs, 0, HEAP_SIZE);
    forall b
      ensures b in Live(cs) <==> b in Live(bs) && b.at != bs[i].at
    {
      if b in Live(bs) && b.at != bs[i].at {
        var j :| 0 <= j < |bs| && bs[j] == b;
        assert cs[j] == b;
      }
      if b in Live(cs) {
        var j :| 0 <= j < |cs| && cs[j] == b;
        assert j < i || i < j;
      }
    }
  }

  lemma NothingToRelease(bs: Blocks, a: nat)
    requires Find(bs, a) == |bs|
    ensures Live(bs) == set b | b in Live(bs) && b.at + HEADER != a
  {
  }

  /** Freeing the same pointer again, with nothing in between, changes nothing. */
  lemma FreeTwice(bs: Blocks, a: nat)
    requires HeapOk(bs)
    ensures Freed(Freed(bs, a), a) == Freed(bs, a)
  {
    FreedKeepsOk(bs, a);
    FreedKeepsOk(Freed(bs, a), a);
  }

  // The heap as a function of its live blocks

  lemma {:induction false} SameLiveSameBlocks(bs: Blocks, cs: Blocks, start: nat, end: nat)
    requires Tiles(bs, start, end) && Tiles(cs, start, end) && Coalesced(bs) && Coalesced(cs)
    requires Live(bs) == Live(cs)
    ensures bs == cs
    decreases |bs|
  {
    TilesMeaning(bs, start, end);
    TilesMeaning(cs, start, end);
    if bs == [] || cs == [] {
    } else {
      SameHead(bs, cs, start, end);
      SameTailLive(bs, cs, start, end);
      TailCoalesced(bs);
      TailCoalesced(cs);
      SameLiveSameBlocks(bs[1..], cs[1..], bs[0].End(), end);
      assert bs == [bs[0]] + bs[1..] && cs == [cs[0]] + cs[1..];
    }
  }

  lemma TailCoalesced(bs: Blocks)
    requires Coalesced(bs) && bs != []
    ensures Coalesced(bs[1..])
  {
    forall i | 0 <= i < |bs[1..]| - 1
      ensures !(bs[1..][i].free && bs[1..][i + 1].free)
    {
      assert bs[1..][i] == bs[i + 1] && bs[1..][i + 1] == bs[i + 2];
    }
  }

  lemma SameTailLive(bs: Blocks, cs: Blocks, start: nat, end: nat)
    requires Tiles(bs, start, end) && Tiles(cs, start, end) && bs != [] && cs != []
    requires bs[0] == cs[0] && Live(bs) == Live(cs)
    ensures Live(bs[1..]) == Live(cs[1..])
  {
    LiveTail(bs, start, end);
    LiveTail(cs, start, end);
  }

  lemma LiveTail(bs: Blocks, start: nat, end: nat)
    requires Tiles(bs, start, end) && bs != []
    ensures Live(bs[1..]) == Live(bs) - {bs[0]}
  {
    TilesMeaning(bs, start, end);
    assert bs == [bs[0]] + bs[1..];
    forall i | 0 <= i < |bs[1..]|
      ensures bs[1..][i] != bs[0]
    {
      assert bs[1..][i] == bs[i + 1];
    }
  }

  /** The first block is the same: a live one is in both lists; a free one reaches
      up to the first live block, or to the end. */
  lemma SameHead(bs: Blocks, cs: Blocks, start: nat, end: nat)
    requires Tiles(bs, start, end) && Tiles(cs, start, end) && Coalesced(bs) && Coalesced(cs)
    requires bs != [] && cs != [] && Live(bs) == Live(cs)
    ensures bs[0] == cs[0]
  {
    TilesMeaning(bs, start, end);
    TilesMeaning(cs, start, end);
    if !bs[0].free {
      assert bs[0] in Live(cs);
      HeadByStart(cs, bs[0], start, end);
    } else if !cs[0].free {
      assert cs[0] in Live(bs);
      HeadByStart(bs, cs[0], start, end);
    } else {
      FreeHeadEnd(bs, cs, start, end);
      FreeHeadEnd(cs, bs, start, end);
    }
  }

  lemma HeadByStart(cs: Blocks, b: Block, start: nat, end: nat)
    requires Tiles(cs, start, end) && b in cs && b.at == start
    ensures cs != [] && cs[0] == b
  {
    TilesMeaning(cs, start, end);
    var j :| 0 <= j < |cs| && cs[j] == b;
    var head := cs[0];
  }

  lemma FreeHeadEnd(bs: Blocks, cs: Blocks, start: nat, end: nat)
    requires Tiles(bs, start, end) && Tiles(cs, start, end) && Coalesced(bs)
    requires bs != [] && cs != [] && bs[0].free && cs[0].free && Live(bs) == Live(cs)
    ensures cs[0].End() <= bs[0].End()
  {
    TilesMeaning(bs, start, end);
    TilesMeaning(cs, start, end);
    if |bs| == 1 {
      LastBlockEnds(bs, start, end);
    } else {
      assert !bs[1].free;
      assert bs[1] in Live(cs);
      var j :| 0 <= j < |cs| && cs[j] == bs[1];
      assert j > 0;
      assert cs[0].End() <= cs[j].at;
    }
  }

  /** The state of the heap is determined by what is live: histories that leave the
      same blocks allocated leave the same heap. */
  lemma LiveDeterminesHeap(bs: Blocks, cs: Blocks)
    requires HeapOk(bs) && HeapOk(cs) && Live(bs) == Live(cs)
    ensures bs == cs
  {
    SameLiveSameBlocks(bs, cs, 0, HEAP_SIZE);
  }

  /** Once everything has been freed, in whatever order, the initial block is back. */
  lemma FullReclamation(bs: Blocks)
    requires HeapOk(bs) && Live(bs) == {}
    ensures bs == INITIAL
  {
    InitialOk();
    LiveDeterminesHeap(bs, INITIAL);
  }

  lemma InitialOk()
    ensures HeapOk(INITIAL) && Live(INITIAL) == {}
  {
    assert INITIAL[1..] == [];
  }

  // Whole histories

  /** A request, a release, or a store into word `word` of the heap area. */
  datatype HeapOp = Malloc(size: nat) | Free(offset: nat) | Store(word: nat, value: nat)

  /** kmalloc on the block list: the new list and the payload offset, if any. */
  function MallocResult(bs: Blocks, size: nat): (Blocks, Option<nat>)
  {
    if size == 0 || size > HEAP_SIZE - HEADER then (bs, None)
    else
      var n := AlignUp(size);
      var i := FirstFit(bs, n);
      if i == |bs| then (bs, None) else (Allocated(bs, i, n), Some(bs[i].at + HEADER))
  }

  function AfterOp(bs: Blocks, op: HeapOp): Blocks
  {
    match op
    case Malloc(size) => MallocResult(bs, size).0
    case Free(offset) => Freed(bs, offset)
    case Store(_, _) => bs
  }

  function After(bs: Blocks, ops: seq<HeapOp>): Blocks
    decreases |ops|
  {
    if ops == [] then bs else After(AfterOp(bs, ops[0]), ops[1..])
  }

  lemma AlignUpMeaning(size: nat)
    requires size > 0
    ensures AlignUp(size) % ALIGNMENT == 0 && size <= AlignUp(size) < size + ALIGNMENT && AlignUp(size) >= ALIGNMENT
  {
  }

  /** Block b is handed out for a request: it is the only new live block; it is as large
      as the aligned request, or larger by less than a further block takes, up to the
      next live block or the end of the heap; and it lies at the lowest address where
      the request fits beside the live blocks. */
  ghost predicate Granted(bs: Blocks, bs': Blocks, b: Block, size: nat)
  {
    && b !in Live(bs) && Live(bs') == Live(bs) + {b}
    && size <= AlignUp(size) <= b.size < AlignUp(size) + HEADER + ALIGNMENT
    && (b.size > AlignUp(size) ==> b.End() == HEAP_SIZE || exists c :: c in Live(bs) && c.at == b.End())
    && Avoids(bs, b.at, AlignUp(size)) && forall a: nat :: a < b.at ==> !Avoids(bs, a, AlignUp(size))
  }

  /** kmalloc keeps the invariant. It hands out the payload of a new live block, or
      fails and changes nothing: exactly for the sizes 0 and above the whole area, and
      when no stretch that avoids every live block is long enough. */
  lemma MallocMeaning(bs: Blocks, size: nat)
    requires HeapOk(bs)
    ensures var (bs', offset) := MallocResult(bs, size);
      && HeapOk(bs')
      && (offset.None? <==>
            size == 0 || size > HEAP_SIZE - HEADER || forall a: nat :: !Avoids(bs, a, AlignUp(size)))
      && (offset.None? ==> bs' == bs)
      && (offset.Some? ==> exists b :: Granted(bs, bs', b, size) && offset.value == b.at + HEADER)
  {
    hide Tiles, Live, Coalesced, Avoids, AlignUp;
    if 0 < size <= HEAP_SIZE - HEADER {
      AlignUpMeaning(size);
      FailsOnlyWhenFull(bs, AlignUp(size));
      if FirstFit(bs, AlignUp(size)) < |bs| {
        AllocatedIsGranted(bs, size);
      }
    }
  }

  lemma AllocatedIsGranted(bs: Blocks, size: nat)
    requires HeapOk(bs) && 0 < size && FirstFit(bs, AlignUp(size)) < |bs|
    ensures var n := AlignUp(size);
            var i := FirstFit(bs, n);
            HeapOk(Allocated(bs, i, n)) && Granted(bs, Allocated(bs, i, n), Split(bs[i], n)[0], size)
            && Split(bs[i], n)[0].at == bs[i].at
  {
    hide Tiles, Live, Coalesced, Allocated;
    var n := AlignUp(size);
    var i := FirstFit(bs, n);
    AlignUpMeaning(size);
    AllocatedKeepsOk(bs, i, n);
    FreeBlockEnds(bs, i);
    LowestFit(bs, n);
  }

  /** A free block is followed by a live block or by the end of the heap. */
  lemma FreeBlockEnds(bs: Blocks, i: nat)
    requires HeapOk(bs) && i < |bs| && bs[i].free
    ensures bs[i].End() == HEAP_SIZE || exists c :: c in Live(bs) && c.at == bs[i].End()
  {
    hide Tiles, Live;
    TilesMeaning(bs, 0, HEAP_SIZE);
    LastBlockEnds(bs, 0, HEAP_SIZE);
    if i + 1 < |bs| {
      LiveAt(bs, i + 1);
      assert bs[i + 1].at == bs[i].End();
    }
  }

  /** The invariant holds after every history of requests and releases, valid or not. */
  lemma {:induction false} EveryHistoryOk(bs: Blocks, ops: seq<HeapOp>)
    requires HeapOk(bs)
    ensures HeapOk(After(bs, ops))
    decreases |ops|
  {
    if ops == [] {
    } else {
      match ops[0] {
        case Malloc(size) => MallocMeaning(bs, size);
        case Free(offset) => FreedKeepsOk(bs, offset);
        case Store(_, _) =>
      }
      EveryHistoryOk(AfterOp(bs, ops[0]), ops[1..]);
    }
  }

  /** Two histories of a fresh heap that leave the same blocks live leave the same
      heap; if they leave none, the heap is fresh again. */
  lemma HistoriesAgree(ops: seq<HeapOp>, ops': seq<HeapOp>)
    ensures Live(After(INITIAL, ops)) == Live(After(INITIAL, ops')) ==> After(INITIAL, ops) == After(INITIAL, ops')
    ensures Live(After(INITIAL, ops)) == {} ==> After(INITIAL, ops) == INITIAL
  {
    InitialOk();
    EveryHistoryOk(INITIAL, ops);
    EveryHistoryOk(INITIAL, ops');
    if Live(After(INITIAL, ops)) == Live(After(INITIAL, ops')) {
      LiveDeterminesHeap(After(INITIAL, ops), After(INITIAL, ops'));
    }
    if Live(After(INITIAL, ops)) == {} {
      FullReclamation(After(INITIAL, ops));
    }
  }
}
