/** The page tables built at boot (kernel_os/src/boot.S, setup_page_tables): a
    supervisor-only identity map of the first GiB made of 2 MiB leaves, and why
    no later operation can disturb it. */
module BootPaging {
  import opened Wrappers
  import opened Bits
  import opened PageEntry
  import opened Ram
  import opened PageTables

  const GIB: nat := 0x4000_0000
  const HUGE_PAGE: nat := 0x20_0000

  /** The frames of pml4_table, pdpt_table and pd_table. */
  datatype Boot = Boot(root: nat, pdpt: nat, pd: nat)

  function BootLeaf(i: nat): nat
  {
    Or(HUGE_PAGE * i, 0x83)
  }

  /** The boot tables are in place, and no other table holds a huge leaf. */
  ghost predicate BootOk(m: Memory, lv: Levels, b: Boot)
    requires TablesInRam(m, lv)
  {
    && b.root in lv && b.pdpt in lv && b.pd in lv
    && lv[b.root] == 4 && lv[b.pdpt] == 3 && lv[b.pd] == 2
    && IsLink(m, lv, b.root, 0) && Child(m, b.root, 0) == b.pdpt
    && IsLink(m, lv, b.pdpt, 0) && Child(m, b.pdpt, 0) == b.pd
    && (forall i :: 0 <= i < ENTRIES ==> Entry(m, b.pd, i) == BootLeaf(i))
    && (forall f, i: nat :: f in lv && i < ENTRIES && HugeLeaf(m, f, lv[f], i) ==> f == b.pd)
  }

  lemma BootLeafMeaning(i: nat, v: nat)
    requires i < ENTRIES
    ensures Has(BootLeaf(i), PRESENT) && Has(BootLeaf(i), HUGE) && Has(BootLeaf(i), WRITABLE)
    ensures !Has(BootLeaf(i), USER) && !Has(BootLeaf(i), NO_EXECUTE)
    ensures Or(Base(BootLeaf(i)), And(v, 0x1F_FFFF)) == HUGE_PAGE * i + v % HUGE_PAGE
    ensures BootLeaf(i) < WORD_LIMIT
  {
    hide And, Or;
    BootFlags();
    forall flag | flag in {PRESENT, WRITABLE, USER, HUGE, NO_EXECUTE}
      ensures Has(BootLeaf(i), flag) <==> Has(0x83, flag)
    {
      MergeFlag(HUGE_PAGE * i, 0x83, flag);
      BaseOfAddress(HUGE_PAGE * i);
      AddressHasNoFlags(HUGE_PAGE * i, flag);
    }
    MergeBase(HUGE_PAGE * i, 0x83);
    PowerConstants();
    assert Pow2(21) == HUGE_PAGE by { assert Pow2(16) == 0x1_0000; }
    LowMask(v, 21);
    BaseOfAddress(HUGE_PAGE * i);
    OrIsSum(HUGE_PAGE * i, v % HUGE_PAGE, 21);
    OrBound(HUGE_PAGE * i, 0x83, 64);
  }

  lemma BootFlags()
    ensures Has(0x83, PRESENT) && Has(0x83, HUGE) && Has(0x83, WRITABLE) && !Has(0x83, USER) && Base(0x83) == 0
    ensures !Has(0x83, NO_EXECUTE)
  {
  }

  /** Space `r` sees the boot tables in PML4 slot 0. */
  ghost predicate SeesBoot(m: Memory, lv: Levels, b: Boot, r: nat)
    requires TablesInRam(m, lv)
  {
    r in lv && lv[r] == 4 && IsLink(m, lv, r, 0) && Child(m, r, 0) == b.pdpt
  }

  /** Below 1 GiB such a space maps every address to itself, writable but not for
      user code. */
  lemma IdentityMapped(m: Memory, lv: Levels, b: Boot, r: nat, v: nat)
    requires Tree(m, lv) && BootOk(m, lv, b) && SeesBoot(m, lv, b, r) && v < GIB
    ensures Walk(m, r, 4, v) == Some(Leaf(v, false, true, false))
  {
    var i := Index(v, 2);
    assert Index(v, 4) == 0 && Index(v, 3) == 0;
    assert i == v / HUGE_PAGE;
    assert Entry(m, b.pd, i) == BootLeaf(i);
    BootLeafMeaning(i, v);
    WalkToDirectory(m, lv, b, r, v);
  }

  lemma WalkToDirectory(m: Memory, lv: Levels, b: Boot, r: nat, v: nat)
    requires Tree(m, lv) && BootOk(m, lv, b) && SeesBoot(m, lv, b, r)
    requires Index(v, 4) == 0 && Index(v, 3) == 0
    ensures Walk(m, r, 4, v) == Walk(m, b.pd, 2, v)
  {
    assert Walk(m, r, 4, v) == Walk(m, b.pdpt, 3, v);
  }

  /** Outside the first GiB no huge leaf is in the way of a mapping, in any space. */
  lemma NoHugeAbove(m: Memory, lv: Levels, b: Boot, r: nat, v: nat)
    requires Tree(m, lv) && BootOk(m, lv, b) && r in lv && lv[r] == 4
    requires Index(v, 4) != 0 || Index(v, 3) != 0
    ensures !HugeOnPath(m, r, 4, v)
  {
    hide Index;
    if HugeOnPath(m, r, 4, v) {
      var k := HugeIsAt(m, lv, r, v);
      var f := Reach(m, r, 4, v, k).value;
      ReachStaysInTables(m, lv, r, v, k);
      assert f == b.pd;
      BootReach(m, lv, b);
      MeetingPaths(m, lv, r, v, b.root, 0, 2);
      assert Index(v, 4) == Index(0, 4) && Index(v, 3) == Index(0, 3);
      ZeroIndices();
    }
  }

  lemma ZeroIndices()
    ensures Index(0, 4) == 0 && Index(0, 3) == 0
  {
  }

  lemma BootReach(m: Memory, lv: Levels, b: Boot)
    requires Tree(m, lv) && BootOk(m, lv, b)
    ensures Reach(m, b.root, 4, 0, 2) == Some(b.pd)
  {
    ZeroIndices();
    assert Reach(m, b.pdpt, 3, 0, 2) == Some(b.pd);
  }

  lemma {:induction false} HugeIsAt(m: Memory, lv: Levels, f: nat, v: nat) returns (k: nat)
    requires Tree(m, lv) && f in lv && HugeOnPath(m, f, lv[f], v)
    ensures 2 <= k <= lv[f] && Reach(m, f, lv[f], v, k).Some?
    ensures var t := Reach(m, f, lv[f], v, k).value; InRam(m, t) && HugeLeaf(m, t, k, Index(v, k))
    decreases lv[f]
  {
    var i := Index(v, lv[f]);
    if Link(m, f, lv[f], i) {
      assert IsLink(m, lv, f, i);
      k := HugeIsAt(m, lv, Child(m, f, i), v);
    } else {
      k := lv[f];
    }
  }

  // Stability

  lemma BootGrown(m: Memory, lv: Levels, m': Memory, lv': Levels, b: Boot)
    requires Tree(m, lv) && Grown(m, lv, m', lv') && BootOk(m, lv, b)
    ensures BootOk(m', lv', b)
    ensures forall r :: SeesBoot(m, lv, b, r) ==> SeesBoot(m', lv', b, r)
  {
    hide Has, Base;
    forall i | 0 <= i < ENTRIES
      ensures Entry(m', b.pd, i) == BootLeaf(i)
    {
      assert Entry(m, b.pd, i) == BootLeaf(i);
      BootLeafMeaning(i, 0);
      assert HugeLeaf(m, b.pd, 2, i);
    }
  }

  lemma BootAfterLeaf(m: Memory, lv: Levels, b: Boot, t: nat, i: nat, e: Word)
    requires Tree(m, lv) && BootOk(m, lv, b) && t in lv && lv[t] == 1 && i < ENTRIES
    ensures var m' := m[WORDS_PER_FRAME * t + i := e];
            TablesInRam(m', lv) && BootOk(m', lv, b)
            && forall r :: SeesBoot(m, lv, b, r) ==> SeesBoot(m', lv, b, r)
  {
    hide Has, Base;
    var m' := m[WORDS_PER_FRAME * t + i := e];
    forall f, j: nat | f in lv && j < ENTRIES && lv[f] >= 2
      ensures Entry(m', f, j) == Entry(m, f, j)
    {
    }
    assert forall f, j: nat :: f in lv && j < ENTRIES && HugeLeaf(m', f, lv[f], j) ==> HugeLeaf(m, f, lv[f], j);
    assert forall r :: r in lv && lv[r] == 4 ==> Entry(m', r, 0) == Entry(m, r, 0);
    assert Entry(m', b.pdpt, 0) == Entry(m, b.pdpt, 0);
  }

  lemma BootAfterShare(m: Memory, lv: Levels, b: Boot, d: nat, s: nat)
    requires Tree(m, lv) && BootOk(m, lv, b) && d in lv && lv[d] == 4 && SeesBoot(m, lv, b, s)
    ensures var m' := m[WORDS_PER_FRAME * d := Entry(m, s, 0)];
            TablesInRam(m', lv) && BootOk(m', lv, b) && SeesBoot(m', lv, b, d)
            && forall r :: SeesBoot(m, lv, b, r) ==> SeesBoot(m', lv, b, r)
  {
    hide Has, Base;
    var m' := m[WORDS_PER_FRAME * d := Entry(m, s, 0)];
    forall f, j: nat | f in lv && j < ENTRIES
      ensures Entry(m', f, j) == if f == d && j == 0 then Entry(m, s, 0) else Entry(m, f, j)
    {
    }
    assert Entry(m', b.pdpt, 0) == Entry(m, b.pdpt, 0);
    assert forall r :: r in lv && lv[r] == 4 ==> Entry(m', r, 0) == if r == d then Entry(m, s, 0) else Entry(m, r, 0);
    forall f, j: nat | f in lv && j < ENTRIES && HugeLeaf(m', f, lv[f], j)
      ensures f == b.pd
    {
      assert f != d || j != 0;
      assert Entry(m', f, j) == Entry(m, f, j);
      assert HugeLeaf(m, f, lv[f], j);
    }
  }

  // setup_page_tables

  function BootLevels(b: Boot): Levels
  {
    map[b.root := 4, b.pdpt := 3, b.pd := 2]
  }

  /** The linker places three distinct page-aligned tables below 4 GiB. */
  ghost predicate BootFrames(words: nat, b: Boot)
  {
    && b.root != b.pdpt && b.root != b.pd && b.pdpt != b.pd
    && b.root < 0x10_0000 && b.pdpt < 0x10_0000 && b.pd < 0x10_0000
    && WORDS_PER_FRAME * b.root + WORDS_PER_FRAME <= words
    && WORDS_PER_FRAME * b.pdpt + WORDS_PER_FRAME <= words
    && WORDS_PER_FRAME * b.pd + WORDS_PER_FRAME <= words
  }

  const LOW_HALF: nat := 0x1_0000_0000

  /** A 32-bit store into the low half of a 64-bit entry. */
  method StoreLow(ram: array<Word>, k: nat, x: nat)
    requires k < ram.Length && x < LOW_HALF
    modifies ram
    ensures ram[..] == old(ram[..])[k := old(ram[k]) / LOW_HALF * LOW_HALF + x]
    ensures forall f: nat, i: nat :: InRam(ram[..], f) && i < ENTRIES ==>
      Entry(ram[..], f, i) == if WORDS_PER_FRAME * f + i == k then old(ram[k]) / LOW_HALF * LOW_HALF + x
                              else Entry(old(ram[..]), f, i)
  {
    ram[k] := ram[k] / LOW_HALF * LOW_HALF + x;
  }

  lemma PointerMeaning(f: nat)
    requires f < 0x10_0000
    ensures var e := Or(PAGE_SIZE * f, 0x3);
            && e < LOW_HALF && Has(e, PRESENT) && Has(e, WRITABLE) && !Has(e, HUGE) && !Has(e, USER) && Target(e) == f
    ensures !Has(Or(PAGE_SIZE * f, 0x3), NO_EXECUTE)
  {
    hide And, Or;
    PointerFlags();
    forall flag | flag in {PRESENT, WRITABLE, USER, HUGE, NO_EXECUTE}
      ensures Has(Or(PAGE_SIZE * f, 0x3), flag) <==> Has(0x3, flag)
    {
      MergeFlag(PAGE_SIZE * f, 0x3, flag);
      BaseOfAddress(PAGE_SIZE * f);
      AddressHasNoFlags(PAGE_SIZE * f, flag);
    }
    MergeBase(PAGE_SIZE * f, 0x3);
    BaseOfAddress(PAGE_SIZE * f);
    PowerConstants();
    OrIsSum(PAGE_SIZE * f, 0x3, 12);
  }

  lemma PointerFlags()
    ensures Has(0x3, PRESENT) && Has(0x3, WRITABLE) && !Has(0x3, HUGE) && !Has(0x3, USER) && Base(0x3) == 0
    ensures !Has(0x3, NO_EXECUTE)
  {
  }

  lemma BootLeafIsLow(i: nat)
    requires i < ENTRIES
    ensures BootLeaf(i) < LOW_HALF
  {
    PowerConstants();
    OrIsSum(HUGE_PAGE * i, 0x83, 12);
  }

  /** Builds the tables in zeroed memory. */
  method SetupPageTables(ram: array<Word>, b: Boot)
    requires BootFrames(ram.Length, b)
    requires EmptyTable(ram[..], b.root) && EmptyTable(ram[..], b.pdpt) && EmptyTable(ram[..], b.pd)
    modifies ram
    ensures BootBuilt(ram[..], b)
    ensures SameOutside(old(ram[..]), ram[..], {b.root, b.pdpt, b.pd})
  {
    hide Or, Has, Target, BootLeaf;
    PointerMeaning(b.pdpt);
    PointerMeaning(b.pd);
    assert Entry(ram[..], b.root, 0) == 0 && Entry(ram[..], b.pdpt, 0) == 0;
    StoreLow(ram, WORDS_PER_FRAME * b.root, Or(PAGE_SIZE * b.pdpt, 0x3));
    StoreLow(ram, WORDS_PER_FRAME * b.pdpt, Or(PAGE_SIZE * b.pd, 0x3));
    assert EmptyTable(ram[..], b.pd);
    ghost var m := ram[..];
    FillDirectory(ram, b.pd);
    EntriesOutside(m, ram[..], {b.pd}, b.root);
    EntriesOutside(m, ram[..], {b.pd}, b.pdpt);
  }

  /** The loop .map_pd_loop. */
  method FillDirectory(ram: array<Word>, pd: nat)
    requires EmptyTable(ram[..], pd)
    modifies ram
    ensures SameOutside(old(ram[..]), ram[..], {pd})
    ensures forall i :: 0 <= i < ENTRIES ==> Entry(ram[..], pd, i) == BootLeaf(i)
  {
    hide Or, BootLeaf;
    for ecx := 0 to ENTRIES
      invariant SameOutside(old(ram[..]), ram[..], {pd})
      invariant forall i :: 0 <= i < ecx ==> Entry(ram[..], pd, i) == BootLeaf(i)
      invariant forall i :: ecx <= i < ENTRIES ==> Entry(ram[..], pd, i) == 0
    {
      BootLeafIsLow(ecx);
      assert Entry(ram[..], pd, ecx) == 0;
      StoreLow(ram, WORDS_PER_FRAME * pd + ecx, BootLeaf(ecx));
    }
  }

  /** The contents of the three tables after setup_page_tables. */
  ghost predicate BootBuilt(m: Memory, b: Boot)
  {
    && BootFrames(|m|, b)
    && (forall i: nat :: i < ENTRIES ==> Entry(m, b.root, i) == if i == 0 then Or(PAGE_SIZE * b.pdpt, 0x3) else 0)
    && (forall i: nat :: i < ENTRIES ==> Entry(m, b.pdpt, i) == if i == 0 then Or(PAGE_SIZE * b.pd, 0x3) else 0)
    && (forall i :: 0 <= i < ENTRIES ==> Entry(m, b.pd, i) == BootLeaf(i))
  }

  lemma BootLinks(m: Memory, b: Boot)
    requires BootBuilt(m, b)
    ensures TablesInRam(m, BootLevels(b))
    ensures forall f, i :: IsLink(m, BootLevels(b), f, i) <==> i == 0 && (f == b.root || f == b.pdpt)
    ensures Child(m, b.root, 0) == b.pdpt && Child(m, b.pdpt, 0) == b.pd
    ensures Has(Entry(m, b.root, 0), WRITABLE) && Has(Entry(m, b.pdpt, 0), WRITABLE)
    ensures !Has(Entry(m, b.root, 0), NO_EXECUTE) && !Has(Entry(m, b.pdpt, 0), NO_EXECUTE)
  {
    hide Has, Target, Or, BootLeaf;
    PointerMeaning(b.pdpt);
    PointerMeaning(b.pd);
    NoFlagsInZero();
    forall f, i | f in BootLevels(b) && 0 <= i < ENTRIES
      ensures IsLink(m, BootLevels(b), f, i) <==> i == 0 && (f == b.root || f == b.pdpt)
    {
      BootLeafMeaning(i, 0);
    }
    assert IsLink(m, BootLevels(b), b.root, 0) && IsLink(m, BootLevels(b), b.pdpt, 0);
  }

  /** The built tables satisfy every invariant that later operations keep. */
  lemma BootEstablishes(m: Memory, b: Boot)
    requires BootBuilt(m, b)
    ensures Tree(m, BootLevels(b)) && LinksGrant(m, BootLevels(b))
    ensures BootOk(m, BootLevels(b), b) && SeesBoot(m, BootLevels(b), b, b.root)
  {
    hide Has, Target, Or, BootLeaf;
    BootLinks(m, b);
    NoFlagsInZero();
    PointerMeaning(b.pdpt);
    PointerMeaning(b.pd);
  }

  /** Right after boot the first GiB is mapped to itself and nothing else is mapped. */
  lemma OnlyIdentity(m: Memory, b: Boot, v: nat)
    requires BootBuilt(m, b)
    ensures Walk(m, b.root, 4, v) ==
            if Index(v, 4) == 0 && Index(v, 3) == 0 then Some(Leaf(v % GIB, false, true, false)) else None
  {
    hide Or, Has, Target, BootLeaf;
    BootEstablishes(m, b);
    NoFlagsInZero();
    if Index(v, 4) == 0 && Index(v, 3) == 0 {
      WalkToDirectory(m, BootLevels(b), b, b.root, v);
      assert Entry(m, b.pd, Index(v, 2)) == BootLeaf(Index(v, 2));
      BootLeafMeaning(Index(v, 2), v);
      DirectoryOffset(v);
    } else if Index(v, 4) == 0 {
      assert Walk(m, b.root, 4, v) == Walk(m, b.pdpt, 3, v);
      assert Entry(m, b.pdpt, Index(v, 3)) == 0;
    } else {
      assert Entry(m, b.root, Index(v, 4)) == 0;
    }
  }

  /** The boot space has no user leaf, so it is closed. */
  lemma BootClosed(m: Memory, b: Boot)
    requires BootBuilt(m, b)
    ensures UserClosed(m, b.root)
  {
    hide Walk, UserPath, Index, BootBuilt;
    forall v
      ensures ClosedAt(m, b.root, v)
    {
      OnlyIdentity(m, b, v);
    }
  }

  lemma DirectoryOffset(v: nat)
    ensures HUGE_PAGE * Index(v, 2) + v % HUGE_PAGE == v % GIB
  {
    SplitOffset(v, v / HUGE_PAGE, v % HUGE_PAGE, v / HUGE_PAGE / 512, v / HUGE_PAGE % 512);
  }

  lemma SplitOffset(v: nat, q: nat, r: nat, c: nat, i: nat)
    requires v == HUGE_PAGE * q + r && r < HUGE_PAGE && q == 512 * c + i && i < 512
    ensures v % GIB == HUGE_PAGE * i + r
  {
    assert v == GIB * c + (HUGE_PAGE * i + r);
  }
}
