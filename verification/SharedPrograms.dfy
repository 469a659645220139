/** Programs one beside the other: what a load does to the programs that were loaded
    before it, and to the kernel's own address space.  All spaces that see the boot map
    share the tables below PML4 slot 0, the loader's new space included. */
module SharedPrograms {
  import opened Wrappers
  import opened PageEntry
  import opened Ram
  import opened PageTables
  import opened BootPaging
  import opened Vmm
  import opened Elf
  import opened ElfLoader

  /** Spaces that see the boot map agree on everything below 512 GiB. */
  lemma SharedBelow(m: Memory, lv: Levels, b: Boot, r: nat, s: nat, w: nat)
    requires TablesInRam(m, lv) && SeesBoot(m, lv, b, r) && SeesBoot(m, lv, b, s) && Index(w, 4) == 0
    ensures Walk(m, r, 4, w) == Walk(m, s, 4, w)
  {
  }

  /** The byte that address `w` of space `r` leads to. */
  function Reads(m: Memory, r: nat, w: nat): Option<nat>
  {
    match Walk(m, r, 4, w)
    case None => None
    case Some(l) => if l.address / 8 < |m| then Some(Byte(m, l.address)) else None
  }

  /** Page data that existed before a load keeps its bytes. */
  lemma DataKept(m: Memory, lv: Levels, free: set<nat>, data: set<nat>, m': Memory, lv': Levels, free': set<nat>,
                 data': set<nat>, bitmap: set<int>, b: Boot, a: nat)
    requires OnlyLoaded(m, lv, free, data, m', lv', free', data', bitmap, b)
    requires Separate(free, bitmap, lv.Keys, data) && Separate(free', bitmap, lv'.Keys, data')
    requires FrameOf(a) in data && a / 8 < |m|
    ensures |m'| == |m| && Byte(m', a) == Byte(m, a)
  {
    hide UserOwned, LeftAlone, PagesKept, BootSeen, AllRootsKept;
    assert FrameOf(a) !in bitmap + lv'.Keys + (data' - data);
    SameBytes(m, m', bitmap + lv'.Keys + (data' - data), a);
  }

  /** A program loaded earlier sees, below 512 GiB, the pages of the program loaded
      now instead of its own wherever the two have one; all its other pages keep
      their place and their bytes. */
  lemma SecondLoad(m: Memory, lv: Levels, free: set<nat>, data: set<nat>, m': Memory, lv': Levels, free': set<nat>,
                   data': set<nat>, bitmap: set<int>, b: Boot, first: nat, second: nat, c: nat, file: File,
                   segs: seq<Segment>, w: nat)
    requires OnlyLoaded(m, lv, free, data, m', lv', free', data', bitmap, b) && UserOwned(m, lv, data)
    requires Separate(free, bitmap, lv.Keys, data) && Separate(free', bitmap, lv'.Keys, data')
    requires SeesBoot(m, lv, b, first) && SeesBoot(m, lv, b, c) && SeesBoot(m', lv', b, second)
    requires file.data + file.size <= 8 * |m| && ProgramImage(m', m, second, c, file, segs)
    requires w < USER_ADDRESS_LIMIT && Walk(m, first, 4, w).Some? && Walk(m, first, 4, w).value.user
    requires Walk(m, first, 4, w).value.address / 8 < |m|
    ensures SegmentsFit(segs, |segs|, file.size)
    ensures if Index(w, 4) == 0 && Last(segs, w).Some?
            then && Walk(m', first, 4, w) == Walk(m', second, 4, w)
                 && Reads(m', first, w) == Some(ByteOf(m, file, segs[Last(segs, w).value], w))
            else Walk(m', first, 4, w) == Walk(m, first, 4, w) && Reads(m', first, w) == Reads(m, first, w)
  {
    hide Walk, ByteOf, SegmentFits, LastOn, Index, Effective, UserOwned, Separate, AllRootsKept, TablesGrew, SeesBoot;
    var l := Walk(m, first, 4, w).value;
    assert first in lv && lv[first] == 4 by { BootIsSpace(m, lv, b, first); }
    assert OwnedAt(m, first, w, data) by { OwnedSpace(m, lv, data, first, w); }
    DataKept(m, lv, free, data, m', lv', free', data', bitmap, b, l.address);
    if Index(w, 4) == 0 {
      assert SeesBoot(m', lv', b, first);
      SharedBelow(m', lv', b, first, second, w);
      SharedBelow(m, lv, b, first, c, w);
      UserPageNumber(w);
      assert Walk(m', first, 4, w).Some?;
    }
  }

  lemma BootIsSpace(m: Memory, lv: Levels, b: Boot, r: nat)
    requires TablesInRam(m, lv) && SeesBoot(m, lv, b, r)
    ensures r in lv && lv[r] == 4
  {
  }

  lemma OwnedSpace(m: Memory, lv: Levels, data: set<nat>, r: nat, w: nat)
    requires UserOwned(m, lv, data) && r in lv && lv[r] == 4
    ensures OwnedAt(m, r, w, data)
  {
  }

  lemma UserPageNumber(w: nat)
    requires w < USER_ADDRESS_LIMIT
    ensures PageNumber(w) == w / PAGE_SIZE
  {
  }

  /** The earlier program still reads its byte at `w` if and only if the later one has no
      page there below 512 GiB, or wants the same byte. */
  lemma Survives(m: Memory, lv: Levels, free: set<nat>, data: set<nat>, m': Memory, lv': Levels, free': set<nat>,
                 data': set<nat>, bitmap: set<int>, b: Boot, first: nat, second: nat, c: nat, file: File,
                 segs: seq<Segment>, w: nat)
    requires OnlyLoaded(m, lv, free, data, m', lv', free', data', bitmap, b) && UserOwned(m, lv, data)
    requires Separate(free, bitmap, lv.Keys, data) && Separate(free', bitmap, lv'.Keys, data')
    requires SeesBoot(m, lv, b, first) && SeesBoot(m, lv, b, c) && SeesBoot(m', lv', b, second)
    requires file.data + file.size <= 8 * |m| && ProgramImage(m', m, second, c, file, segs)
    requires w < USER_ADDRESS_LIMIT && Walk(m, first, 4, w).Some? && Walk(m, first, 4, w).value.user
    requires Walk(m, first, 4, w).value.address / 8 < |m|
    ensures SegmentsFit(segs, |segs|, file.size)
    ensures Reads(m', first, w) == Reads(m, first, w) <==>
              (Index(w, 4) == 0 && Last(segs, w).Some? ==>
                 Reads(m, first, w) == Some(ByteOf(m, file, segs[Last(segs, w).value], w)))
  {
    hide Walk, Reads, ByteOf, SegmentFits, LastOn, Index, OnlyLoaded, UserOwned, Separate, ProgramImage, SeesBoot;
    SecondLoad(m, lv, free, data, m', lv', free', data', bitmap, b, first, second, c, file, segs, w);
  }

  /** A program with a page below 512 GiB leaves the kernel's own space with a user leaf
      that only its own PML4 entry keeps from user code: that space is no longer closed. */
  lemma KernelNotClosed(m: Memory, lv: Levels, free: set<nat>, data: set<nat>, m': Memory, lv': Levels,
                        free': set<nat>, data': set<nat>, bitmap: set<int>, b: Boot, r: nat, c: nat, file: File,
                        segs: seq<Segment>, w: nat)
    requires OnlyLoaded(m, lv, free, data, m', lv', free', data', bitmap, b)
    requires SeesBoot(m, lv, b, c) && SeesBoot(m', lv', b, r) && !Has(Entry(m, c, 0), USER)
    requires file.data + file.size <= 8 * |m| && ProgramImage(m', m, r, c, file, segs)
    requires Index(w, 4) == 0 && Last(segs, w).Some? && Walk(m', r, 4, w).Some?
    ensures Walk(m', c, 4, w) == Walk(m', r, 4, w) && !UserClosed(m', c)
    ensures Effective(m', c, w).Some? && !Effective(m', c, w).value.user
  {
    hide Walk, ByteOf, SegmentFits, LastOn, Index, UserOwned, TablesGrew, Has, Base, LeftAlone, PagesKept;
    assert SeesBoot(m', lv', b, c);
    SharedBelow(m', lv', b, c, r, w);
    assert Entry(m', c, 0) == Entry(m, c, 0);
    assert Shows(m', m, r, file, segs[Last(segs, w).value], w);
    assert !UserPath(m', c, 4, w);
    assert !ClosedAt(m', c, w);
  }
}
