/** The virtual memory manager (kernel_os/src/vmm.cpp) on top of the physical
    one: any number of address spaces whose tables live in frames taken from the
    frame allocator. */
module Vmm {
  import opened Wrappers
  import opened Bits
  import opened PageEntry
  import opened Ram
  import opened Pmm
  import opened PageTables
  import opened BootPaging

  /** Table frames and client data frames are disjoint, in use, and no part of
      the bitmap. */
  ghost predicate Separate(free: set<nat>, bitmap: set<int>, tables: set<nat>, data: set<nat>)
  {
    && tables !! free && tables !! bitmap && tables !! data && 0 !in tables
    && data !! free && data !! bitmap
  }

  ghost predicate TablesValid(m: Memory, lv: Levels, b: Boot)
  {
    Tree(m, lv) && LinksGrant(m, lv) && BootOk(m, lv, b) && SeesBoot(m, lv, b, b.root)
  }

  /** Frames that left the free set became tables, and nothing else happened to either. */
  ghost predicate Accounts(free: set<nat>, tables: set<nat>, free': set<nat>, tables': set<nat>)
  {
    && tables <= tables' && tables' - tables <= free && free' == free - (tables' - tables)
  }

  lemma AccountsTransitive(f: set<nat>, t: set<nat>, f': set<nat>, t': set<nat>, f'': set<nat>, t'': set<nat>)
    requires Accounts(f, t, f', t') && Accounts(f', t', f'', t'')
    ensures Accounts(f, t, f'', t'')
  {
    assert t'' - t == (t' - t) + (t'' - t');
    assert f' <= f;
  }

  /** The tables once frame `f` holds a new table below table `t`. */
  ghost function WithChild(lv: Levels, t: nat, f: nat): (lv': Levels)
    requires t in lv && lv[t] >= 2
    ensures lv'.Keys == lv.Keys + {f}
  {
    lv[f := lv[t] - 1]
  }

  /** Only tables below level 4 were added. */
  ghost predicate SameSpaces(lv: Levels, lv': Levels)
  {
    forall f :: f in lv' && lv'[f] == 4 ==> f in lv && lv[f] == 4
  }

  class AddressSpaces {
    const pmm: FrameAllocator
    const boot: Boot
    ghost var tables: Levels
    ghost var data: set<nat>

    /** The state kernel_main reaches once the boot tables are reserved. */
    constructor (pmm: FrameAllocator, boot: Boot)
      requires pmm.Sealed() && BootBuilt(pmm.ram[..], boot)
      requires Separate(pmm.Free(), pmm.BitmapFrames(), BootLevels(boot).Keys, {})
      ensures Valid() && this.pmm == pmm && this.boot == boot && tables == BootLevels(boot) && data == {}
      ensures SeesBoot(Mem(), tables, boot, boot.root) && UserClosed(Mem(), boot.root) && UserOwned(Mem(), tables, data)
    {
      this.pmm, this.boot, tables, data := pmm, boot, BootLevels(boot), {};
      new;
      hide FreeSet;
      BootEstablishes(Mem(), boot);
      BootClosed(Mem(), boot);
      BootOwned(Mem(), boot);
    }

    ghost function Mem(): Memory
      reads pmm.ram
    {
      pmm.ram[..]
    }

    ghost predicate Valid()
      reads this, pmm, pmm.ram
    {
      && pmm.Sealed()
      && TablesValid(Mem(), tables, boot)
      && Separate(pmm.Free(), pmm.BitmapFrames(), tables.Keys, data)
    }

    ghost predicate IsSpace(r: nat)
      reads this
    {
      r in tables && tables[r] == 4
    }

    /** Zeroes one frame, as both loops over new_table->entries do. */
    method ClearTable(f: nat)
      requires pmm.Sealed() && InRam(Mem(), f) && f !in pmm.BitmapFrames()
      modifies pmm.ram
      ensures pmm.Sealed() && pmm.Free() == old(pmm.Free())
      ensures EmptyTable(Mem(), f) && SameOutside(old(Mem()), Mem(), {f})
    {
      hide FreeSet;
      ghost var m := Mem();
      ZeroWords(pmm.ram, f);
      FreeSetReadsBitmap(m, Mem(), pmm.bitmap, pmm.totalPages, {f});
    }

    static method ZeroWords(ram: array<Word>, f: nat)
      requires InRam(ram[..], f)
      modifies ram
      ensures EmptyTable(ram[..], f) && SameOutside(old(ram[..]), ram[..], {f})
    {
      for i := 0 to ENTRIES
        invariant SameOutside(old(ram[..]), ram[..], {f})
        invariant forall j: nat :: j < i ==> Entry(ram[..], f, j) == 0
      {
        ghost var m := ram[..];
        ram[WORDS_PER_FRAME * f + i] := 0;
        assert forall j: nat :: j < ENTRIES ==> Entry(ram[..], f, j) == if j == i then 0 else Entry(m, f, j);
      }
    }

    /** A zeroed frame from the allocator, or 0 when there is none. */
    method NewTable() returns (address: nat)
      requires Valid()
      modifies pmm`freePages, pmm`searchHint, pmm.ram
      ensures pmm.Sealed()
      ensures old(pmm.Free()) == {} ==> address == 0 && Mem() == old(Mem()) && pmm.Free() == {}
      ensures old(pmm.Free()) != {} ==> var f := FrameOf(address);
                && address == PAGE_SIZE * f && f in old(pmm.Free()) && f < MAX_FRAMES
                && pmm.Free() == old(pmm.Free()) - {f}
                && EmptyTable(Mem(), f)
                && SameOutside(old(Mem()), Mem(), pmm.BitmapFrames() + {f})
    {
      hide FreeSet, FirstInCycle;
      address := pmm.AllocPage();
      if address == 0 {
        return;
      }
      ghost var m := Mem();
      OutsideFrames(old(Mem()), m, pmm.bitmap, pmm.bitmap + BitmapBytes(pmm.totalPages));
      ClearTable(address / PAGE_SIZE);
    }

    /** Writes an entry of a table; the allocator does not notice. */
    method StoreEntry(f: nat, i: nat, e: Word)
      requires pmm.Sealed() && InRam(Mem(), f) && f !in pmm.BitmapFrames() && i < ENTRIES
      modifies pmm.ram
      ensures pmm.Sealed() && pmm.Free() == old(pmm.Free())
      ensures Mem() == old(Mem())[WORDS_PER_FRAME * f + i := e]
      ensures SameOutside(old(Mem()), Mem(), {f})
    {
      hide FreeSet;
      ghost var m := Mem();
      pmm.ram[WORDS_PER_FRAME * f + i] := e;
      FreeSetReadsBitmap(m, Mem(), pmm.bitmap, pmm.totalPages, {f});
    }

    /** The first branch of get_or_create_table: an absent entry gets a new table. */
    method HangNewTable(table: nat, i: nat, flags: Word) returns (address: nat)
      requires Valid() && table in tables && tables[table] >= 2 && i < ENTRIES
      requires !Has(Entry(Mem(), table, i), PRESENT)
      modifies pmm`freePages, pmm`searchHint, pmm.ram, this`tables
      ensures Valid() && data == old(data)
      ensures old(pmm.Free()) == {} ==>
                address == 0 && Mem() == old(Mem()) && tables == old(tables) && pmm.Free() == {}
      ensures old(pmm.Free()) != {} ==> var f := FrameOf(address);
                && address == PAGE_SIZE * f && f in old(pmm.Free()) && f < MAX_FRAMES
                && tables == WithChild(old(tables), table, f)
                && pmm.Free() == old(pmm.Free()) - {f}
                && SameOutside(old(Mem()), Mem(), pmm.BitmapFrames() + {f, table})
                && Hung(old(Mem()), Mem(), old(tables), table, i, f)
                && Grown(old(Mem()), old(tables), Mem(), tables)
                && (Has(flags, USER) ==> Has(Entry(Mem(), table, i), USER))
    {
      hide FreeSet, TableEntry, Hung, Grown, BootOk, LinksGrant, WithChild, Separate, SameOutside, EmptyTable,
        TablesValid;
      ghost var m, lv, free, bitmap := Mem(), tables, pmm.Free(), pmm.BitmapFrames();
      ghost var m';
      address, m' := HangStores(table, i, flags);
      if address == 0 {
        return;
      }
      ghost var f, m'' := FrameOf(address), Mem();
      SeparateMeans(free, bitmap, lv.Keys, data, f);
      HangKeepsValid(m, m', m'', lv, boot, bitmap, table, i, f, flags);
      SeparateAfterTake(free, bitmap, lv.Keys, data, f);
      tables := WithChild(lv, table, f);
    }

    /** Its stores: take a frame, zero it, point to it. */
    method HangStores(table: nat, i: nat, flags: Word) returns (address: nat, ghost m': Memory)
      requires Valid() && table in tables && i < ENTRIES
      modifies pmm`freePages, pmm`searchHint, pmm.ram
      ensures pmm.Sealed()
      ensures old(pmm.Free()) == {} ==> address == 0 && Mem() == old(Mem()) && pmm.Free() == {}
      ensures old(pmm.Free()) != {} ==> var f := FrameOf(address);
                && address == PAGE_SIZE * f && f in old(pmm.Free()) && f < MAX_FRAMES && address != 0
                && pmm.Free() == old(pmm.Free()) - {f}
                && TableEntry(address, flags) < WORD_LIMIT
                && SameOutside(old(Mem()), m', pmm.BitmapFrames() + {f}) && EmptyTable(m', f)
                && Mem() == m'[WORDS_PER_FRAME * table + i := TableEntry(address, flags)]
    {
      hide FreeSet, TableEntry, BootOk, LinksGrant;
      address := NewTable();
      m' := Mem();
      if address == 0 {
        return;
      }
      EntriesAreWords(address, flags, 0);
      StoreEntry(table, i, TableEntry(address, flags));
    }

    /** get_or_create_table: the table below entry `index` of `table`, which is
        created when the entry is absent; 0 when a huge entry is in the way or no
        frame is free. */
    method GetOrCreateTable(table: nat, index: nat, flags: Word, ghost v: nat) returns (child: nat)
      requires Valid() && table in tables && tables[table] >= 2 && index == Index(v, tables[table])
      modifies pmm`freePages, pmm`searchHint, pmm.ram, this`tables
      ensures Valid() && data == old(data)
      ensures Changed(old(Mem()), old(tables), old(pmm.Free()), Mem(), tables, pmm.Free(), pmm.BitmapFrames())
      ensures child == 0 ==>
                && Blocked(old(Mem()), old(tables), old(pmm.Free()), table, v)
                && Mem() == old(Mem()) && tables == old(tables) && pmm.Free() == old(pmm.Free())
      ensures child != 0 ==>
                && IsLink(Mem(), tables, table, index) && child == PAGE_SIZE * Child(Mem(), table, index)
                && Descended(old(Mem()), old(tables), old(pmm.Free()), Mem(), tables, pmm.Free(), table, v, flags)
    {
      hide FreeSet, Grown, BootOk, LinksGrant, Separate, Descended, Changed;
      ghost var m, lv, free := Mem(), tables, pmm.Free();
      var entry := pmm.ram[WORDS_PER_FRAME * table + index];
      assert entry == Entry(m, table, index);
      if !Has(entry, PRESENT) {
        var created := CreateBelow(table, index, flags, v);
        if !created {
          return 0;
        }
      } else if Has(entry, HUGE) {
        NothingChanged(Mem(), tables, pmm.Free(), pmm.BitmapFrames());
        return 0;
      } else if Has(flags, USER) {
        AddUserBit(table, index, flags, v);
      } else {
        DescendPlain(Mem(), tables, pmm.Free(), pmm.BitmapFrames(), table, v, flags);
      }
      DescendedLink(m, lv, free, Mem(), tables, pmm.Free(), table, v, flags);
      child := ChildAddress(table, index);
    }

    method ChildAddress(table: nat, index: nat) returns (child: nat)
      requires Valid() && index < ENTRIES && IsLink(Mem(), tables, table, index)
      ensures child != 0 && child == PAGE_SIZE * Child(Mem(), table, index)
    {
      hide FreeSet, BootOk, LinksGrant, OneParent;
      BaseMeaning(Entry(Mem(), table, index));
      child := And(pmm.ram[WORDS_PER_FRAME * table + index], ADDRESS_MASK);
    }

    method CreateBelow(table: nat, index: nat, flags: Word, ghost v: nat) returns (created: bool)
      requires Valid() && table in tables && tables[table] >= 2 && index == Index(v, tables[table])
      requires !Has(Entry(Mem(), table, index), PRESENT)
      modifies pmm`freePages, pmm`searchHint, pmm.ram, this`tables
      ensures Valid() && data == old(data)
      ensures Changed(old(Mem()), old(tables), old(pmm.Free()), Mem(), tables, pmm.Free(), pmm.BitmapFrames())
      ensures created == (old(pmm.Free()) != {})
      ensures !created ==> Mem() == old(Mem()) && tables == old(tables) && pmm.Free() == old(pmm.Free())
      ensures created ==>
                Descended(old(Mem()), old(tables), old(pmm.Free()), Mem(), tables, pmm.Free(), table, v, flags)
    {
      hide FreeSet, Grown, BootOk, LinksGrant, Descended, Changed, Hung;
      ghost var m, lv, free, bitmap := Mem(), tables, pmm.Free(), pmm.BitmapFrames();
      var address := HangNewTable(table, index, flags);
      if address == 0 {
        NothingChanged(m, lv, free, bitmap);
        return false;
      }
      DescendIntoNew(m, Mem(), lv, free, bitmap, table, v, FrameOf(address), flags);
      return true;
    }

    method AddUserBit(table: nat, index: nat, flags: Word, ghost v: nat)
      requires Valid() && table in tables && tables[table] >= 2 && index == Index(v, tables[table])
      requires Link(Mem(), table, tables[table], index) && Has(flags, USER)
      modifies pmm.ram
      ensures Valid() && pmm.Free() == old(pmm.Free())
      ensures Changed(old(Mem()), tables, pmm.Free(), Mem(), tables, pmm.Free(), pmm.BitmapFrames())
      ensures Descended(old(Mem()), tables, pmm.Free(), Mem(), tables, pmm.Free(), table, v, flags)
    {
      hide FreeSet, Grown, BootOk, LinksGrant, Descended, Changed;
      var entry := pmm.ram[WORDS_PER_FRAME * table + index];
      EntriesAreWords(0, 0, entry);
      DescendWithUser(Mem(), tables, boot, pmm.Free(), pmm.BitmapFrames(), table, v, flags);
      StoreEntry(table, index, Or(entry, USER));
    }

    /** One get_or_create_table call on the way from PML4 `r` down to `v`. */
    method StepDown(table: nat, index: nat, flags: Word, ghost m: Memory, ghost lv: Levels, ghost free: set<nat>,
                    ghost r: nat, ghost v: nat, ghost k: nat) returns (child: nat)
      requires Valid() && Tree(m, lv) && k >= 2
      requires Progress(m, lv, free, Mem(), tables, pmm.Free(), pmm.BitmapFrames(), r, v, flags, k, table)
      requires index == Index(v, k)
      modifies pmm`freePages, pmm`searchHint, pmm.ram, this`tables
      ensures Valid() && data == old(data)
      ensures Changed(m, lv, free, Mem(), tables, pmm.Free(), pmm.BitmapFrames())
      ensures child == 0 ==> !Mappable(m, free, r, v) && Opened(m, lv, Mem(), r, v, Has(flags, USER))
      ensures |free| <= |pmm.Free()| + 3
      ensures child != 0 ==>
                Progress(m, lv, free, Mem(), tables, pmm.Free(), pmm.BitmapFrames(), r, v, flags, k - 1, FrameOf(child))
    {
      hide FreeSet, Grown, BootOk, LinksGrant, Separate, Descended, Changed, Mappable, Blocked, Progress, Opened,
        LinksDescend, OneParent;
      ProgressMeans(m, lv, free, Mem(), tables, pmm.Free(), pmm.BitmapFrames(), r, v, flags, k, table);
      ghost var m', lv', free', bitmap := Mem(), tables, pmm.Free(), pmm.BitmapFrames();
      child := GetOrCreateTable(table, index, flags, v);
      if child == 0 {
        ProgressBlocked(m, lv, free, m', lv', free', bitmap, r, v, flags, k, table);
      } else {
        ProgressStep(m, lv, free, m', lv', free', Mem(), tables, pmm.Free(), bitmap, r, v, flags, k, table);
        ProgressMeans(m, lv, free, Mem(), tables, pmm.Free(), bitmap, r, v, flags, k - 1, FrameOf(child));
      }
    }

    /** The three get_or_create_table calls of vmm_map_page. */
    method TablesFor(pml4: nat, v: Word, flags: Word) returns (pt: nat)
      requires Valid() && IsSpace(FrameOf(pml4)) && pml4 % PAGE_SIZE == 0
      modifies pmm`freePages, pmm`searchHint, pmm.ram, this`tables
      ensures Valid() && data == old(data)
      ensures Changed(old(Mem()), old(tables), old(pmm.Free()), Mem(), tables, pmm.Free(), pmm.BitmapFrames())
      ensures (pt != 0) == Mappable(old(Mem()), old(pmm.Free()), FrameOf(pml4), v)
      ensures if pt != 0 then |old(pmm.Free())| == |pmm.Free()| + Missing(old(Mem()), FrameOf(pml4), 4, v)
              else |old(pmm.Free())| <= |pmm.Free()| + 3
      ensures Opened(old(Mem()), old(tables), Mem(), FrameOf(pml4), v, Has(flags, USER))
      ensures pt != 0 ==>
                && Reach(Mem(), FrameOf(pml4), 4, v, 1) == Some(FrameOf(pt))
                && (Has(flags, USER) ==> UserPath(Mem(), FrameOf(pml4), 4, v))
    {
      hide FreeSet, Changed, Separate, Mappable, Opened;
      ghost var m, lv, free, r := Mem(), tables, pmm.Free(), FrameOf(pml4);
      NothingChanged(m, lv, free, pmm.BitmapFrames());
      var pdpt := StepDown(pml4 / PAGE_SIZE, Index(v, 4), flags, m, lv, free, r, v, 4);
      if pdpt == 0 {
        return 0;
      }
      var pd := StepDown(pdpt / PAGE_SIZE, Index(v, 3), flags, m, lv, free, r, v, 3);
      if pd == 0 {
        return 0;
      }
      pt := StepDown(pd / PAGE_SIZE, Index(v, 2), flags, m, lv, free, r, v, 2);
      if pt == 0 {
        return;
      }
      ProgressDone(m, lv, free, Mem(), tables, pmm.Free(), pmm.BitmapFrames(), r, v, flags, FrameOf(pt));
      if Has(flags, USER) {
        UserDownPath(Mem(), r, 4, v);
      }
    }

    /** The last store of vmm_map_page and of vmm_unmap_page. */
    method WriteLeaf(pt: nat, index: nat, e: Word, ghost r: nat, ghost v: nat)
      requires Valid() && IsSpace(r) && Reach(Mem(), r, 4, v, 1) == Some(pt) && index == Index(v, 1)
      requires Has(e, USER) ==> UserPath(Mem(), r, 4, v)
      modifies pmm.ram
      ensures Valid() && pmm.Free() == old(pmm.Free()) && pt in tables && tables[pt] == 1
      ensures SameOutside(old(Mem()), Mem(), {pt})
      ensures PageSet(old(Mem()), Mem(), tables, r, v, e)
      ensures RightsKept(old(Mem()), Mem(), tables, r, v)
      ensures Has(e, USER) ==> UserPath(Mem(), r, 4, v)
      ensures Stored(Mem(), r, v, e)
      ensures BootSeen(old(Mem()), tables, Mem(), tables, boot)
    {
      hide FreeSet, Tree, LinksGrant, BootOk, Reach, Walk, UserPath, SeesBoot, PageSet, RightsKept, BootSeen;
      ReachedTable(Mem(), tables, boot, r, v, pt);
      ReachAfterLeaf(Mem(), tables, pt, index, e, r, v);
      SeparateMeans(pmm.Free(), pmm.BitmapFrames(), tables.Keys, data, pt);
      LeafKeepsValid(Mem(), tables, boot, r, v, pt, e);
      StoreEntry(pt, index, e);
    }

    /** vmm_map_page.  `mapped` tells whether the silent early returns were avoided:
        exactly when no huge entry is in the way and enough frames are free for
        the missing tables. */
    method MapPage(pml4: nat, v: Word, phys: Word, flags: Word) returns (ghost mapped: bool)
      requires Valid() && IsSpace(FrameOf(pml4)) && pml4 % PAGE_SIZE == 0
      modifies pmm`freePages, pmm`searchHint, pmm.ram, this`tables
      ensures Valid() && data == old(data)
      ensures mapped == Mappable(old(Mem()), old(pmm.Free()), FrameOf(pml4), v)
      ensures if mapped then |old(pmm.Free())| == |pmm.Free()| + Missing(old(Mem()), FrameOf(pml4), 4, v)
              else |old(pmm.Free())| <= |pmm.Free()| + 3
      ensures mapped ==> PageSet(old(Mem()), Mem(), old(tables), FrameOf(pml4), v, LeafEntry(phys, flags))
      ensures mapped ==> exists e :: Stored(Mem(), FrameOf(pml4), v, e) && IsLeafFor(e, phys, flags)
      ensures !mapped ==> SameLookups(old(Mem()), Mem(), old(tables))
      ensures RightsKept(old(Mem()), Mem(), old(tables), FrameOf(pml4), v)
      ensures PagesKept(old(Mem()), Mem(), old(tables))
      ensures Opened(old(Mem()), old(tables), Mem(), FrameOf(pml4), v, Has(flags, USER))
      ensures mapped && Has(flags, USER) ==> UserPath(Mem(), FrameOf(pml4), 4, v)
      ensures BootSeen(old(Mem()), old(tables), Mem(), tables, boot)
      ensures TablesGrew(old(tables), tables) && SameSpaces(old(tables), tables)
      ensures Accounts(old(pmm.Free()), old(tables).Keys, pmm.Free(), tables.Keys)
      ensures SameOutside(old(Mem()), Mem(), pmm.BitmapFrames() + tables.Keys)
    {
      hide FreeSet, Stored, SameFlags, Reach, UserPath, Mappable, Changed, PageSet, SameLookups, RightsKept, BootSeen,
        Separate, SameOutside, Opened, PagesKept;
      ghost var m, lv, free, r := Mem(), tables, pmm.Free(), FrameOf(pml4);
      var pt := TablesFor(pml4, v, flags);
      ghost var m' := Mem();
      mapped := pt != 0;
      ChangedEffect(m, lv, free, m', tables, pmm.Free(), pmm.BitmapFrames(), boot, r, v);
      if pt == 0 {
        return;
      }
      EntriesAreWords(phys, flags, 0);
      LeafEntryMeaning(phys, flags);
      WriteLeaf(pt / PAGE_SIZE, Index(v, 1), LeafEntry(phys, flags), r, v);
      LeafAfterChange(m, lv, m', tables, Mem(), pmm.BitmapFrames(), boot, r, v, FrameOf(pt), LeafEntry(phys, flags));
      OpenedAfterLeaf(m, lv, m', tables, Mem(), r, v, Has(flags, USER), FrameOf(pt));
      PagesKeptByMap(m, lv, Mem(), r, v, LeafEntry(phys, flags), Has(flags, USER));
    }

    /** vmm_translate: the address the look-up finds, 0 when it finds nothing. */
    method Translate(pml4: nat, v: Word) returns (address: nat)
      requires Valid() && IsSpace(FrameOf(pml4)) && pml4 % PAGE_SIZE == 0
      ensures address == AddressOf(Walk(Mem(), FrameOf(pml4), 4, v))
    {
      hide FreeSet, LinksGrant, OneParent, BootOk, SeesBoot, Separate, Has;
      ghost var m, r := Mem(), FrameOf(pml4);
      var e1 := pmm.ram[WORDS_PER_FRAME * (pml4 / PAGE_SIZE) + Index(v, 4)];
      assert e1 == Entry(m, r, Index(v, 4));
      if !Has(e1, PRESENT) { return 0; }
      if Has(e1, HUGE) { return 0; }
      var pdpt := LinkedFrame(r, Index(v, 4), e1);
      assert Walk(m, r, 4, v) == Walk(m, pdpt, 3, v);

      var e2 := pmm.ram[WORDS_PER_FRAME * pdpt + Index(v, 3)];
      assert e2 == Entry(m, pdpt, Index(v, 3));
      if !Has(e2, PRESENT) { return 0; }
      if Has(e2, HUGE) { return Or(And(e2, ADDRESS_MASK), And(v, 0x3FFF_FFFF)); }
      var pd := LinkedFrame(pdpt, Index(v, 3), e2);
      assert Walk(m, pdpt, 3, v) == Walk(m, pd, 2, v);

      var e3 := pmm.ram[WORDS_PER_FRAME * pd + Index(v, 2)];
      assert e3 == Entry(m, pd, Index(v, 2));
      if !Has(e3, PRESENT) { return 0; }
      if Has(e3, HUGE) { return Or(And(e3, ADDRESS_MASK), And(v, 0x1F_FFFF)); }
      var pt := LinkedFrame(pd, Index(v, 2), e3);
      assert Walk(m, pd, 2, v) == Walk(m, pt, 1, v);

      var e4 := pmm.ram[WORDS_PER_FRAME * pt + Index(v, 1)];
      assert e4 == Entry(m, pt, Index(v, 1));
      if !Has(e4, PRESENT) { return 0; }
      address := Or(And(e4, ADDRESS_MASK), And(v, 0xFFF));
    }

    /** phys_to_virt(entry & PTE_ADDR_MASK) for an entry that points to a table. */
    method LinkedFrame(ghost f: nat, ghost i: nat, e: Word) returns (child: nat)
      requires Valid() && f in tables && i < ENTRIES && Link(Mem(), f, tables[f], i) && e == Entry(Mem(), f, i)
      ensures child == Child(Mem(), f, i) && child in tables && tables[child] == tables[f] - 1
    {
      hide FreeSet, LinksGrant, OneParent, BootOk, SeesBoot, Separate, Has;
      assert IsLink(Mem(), tables, f, i);
      child := And(e, ADDRESS_MASK) / PAGE_SIZE;
    }

    /** vmm_unmap_page: clears the last-level entry of `v` if there is a last-level
        table for it; huge leaves and everything else stay. */
    method UnmapPage(pml4: nat, v: Word)
      requires Valid() && IsSpace(FrameOf(pml4)) && pml4 % PAGE_SIZE == 0
      modifies pmm.ram
      ensures Valid() && pmm.Free() == old(pmm.Free())
      ensures if Reach(old(Mem()), FrameOf(pml4), 4, v, 1).None? then Mem() == old(Mem())
              else PageSet(old(Mem()), Mem(), tables, FrameOf(pml4), v, 0) && Stored(Mem(), FrameOf(pml4), v, 0)
      ensures RightsKept(old(Mem()), Mem(), tables, FrameOf(pml4), v)
      ensures BootSeen(old(Mem()), tables, Mem(), tables, boot)
      ensures SameOutside(old(Mem()), Mem(), tables.Keys)
    {
      hide FreeSet, LinksGrant, OneParent, BootOk, SeesBoot, Separate, Has, Base, PageSet, RightsKept, BootSeen;
      ghost var m, r := Mem(), FrameOf(pml4);
      NothingSeen(m, tables, boot, r, v);
      var e1 := pmm.ram[WORDS_PER_FRAME * (pml4 / PAGE_SIZE) + Index(v, 4)];
      assert e1 == Entry(m, r, Index(v, 4));
      if !Has(e1, PRESENT) { return; }
      if Has(e1, HUGE) { return; }
      var pdpt := LinkedFrame(r, Index(v, 4), e1);
      assert Reach(m, r, 4, v, 1) == Reach(m, pdpt, 3, v, 1);

      var e2 := pmm.ram[WORDS_PER_FRAME * pdpt + Index(v, 3)];
      assert e2 == Entry(m, pdpt, Index(v, 3));
      if !Has(e2, PRESENT) { return; }
      if Has(e2, HUGE) { return; }
      var pd := LinkedFrame(pdpt, Index(v, 3), e2);
      assert Reach(m, pdpt, 3, v, 1) == Reach(m, pd, 2, v, 1);

      var e3 := pmm.ram[WORDS_PER_FRAME * pd + Index(v, 2)];
      assert e3 == Entry(m, pd, Index(v, 2));
      if !Has(e3, PRESENT) { return; }
      if Has(e3, HUGE) { return; }
      var pt := LinkedFrame(pd, Index(v, 2), e3);
      assert Reach(m, pd, 2, v, 1) == Reach(m, pt, 1, v, 1);

      NoFlagsInZero();
      WriteLeaf(pt, Index(v, 1), 0, r, v);
    }

    /** vmm_create_address_space: a new space with nothing mapped. */
    method CreateAddressSpace() returns (pml4: nat)
      requires Valid()
      modifies pmm`freePages, pmm`searchHint, pmm.ram, this`tables
      ensures Valid() && data == old(data)
      ensures old(pmm.Free()) == {} ==> pml4 == 0 && Mem() == old(Mem()) && tables == old(tables) && pmm.Free() == {}
      ensures old(pmm.Free()) != {} ==> var f := FrameOf(pml4);
                && pml4 == PAGE_SIZE * f && pml4 % PAGE_SIZE == 0 && f != 0 && f in old(pmm.Free())
                && tables == old(tables)[f := 4] && pmm.Free() == old(pmm.Free()) - {f}
                && SameOutside(old(Mem()), Mem(), pmm.BitmapFrames() + {f})
                && (forall v :: Walk(Mem(), f, 4, v) == None)
                && EmptyTable(Mem(), f) && UserClosed(Mem(), f)
                && SameLookups(old(Mem()), Mem(), old(tables))
                && BootSeen(old(Mem()), old(tables), Mem(), tables, boot)
    {
      hide FreeSet, TablesValid, Separate, Walk, EmptyTable, BootSeen, SameLookups, SameOutside, UserClosed,
        FramesTouching, Fits;
      ghost var m, lv, free, bitmap := Mem(), tables, pmm.Free(), pmm.BitmapFrames();
      pml4 := NewTable();
      if pml4 == 0 {
        return;
      }
      ghost var f := FrameOf(pml4);
      SeparateMeans(free, bitmap, lv.Keys, data, f);
      RootKeepsValid(m, Mem(), lv, boot, bitmap, f);
      SeparateAfterTake(free, bitmap, lv.Keys, data, f);
      tables := lv[f := 4];
      assert tables.Keys == lv.Keys + {f};
    }

    /** user_pml4->entries[0] = kernel_pml4->entries[0], as the loader and the
        user-mode demo do: the new space sees the kernel's first 512 GiB. */
    method ShareKernelSlot(pml4: nat, kernelPml4: nat)
      requires Valid() && IsSpace(FrameOf(pml4)) && SeesBoot(Mem(), tables, boot, FrameOf(kernelPml4))
      requires pml4 % PAGE_SIZE == 0 && kernelPml4 % PAGE_SIZE == 0
      modifies pmm.ram
      ensures Valid() && pmm.Free() == old(pmm.Free()) && SameOutside(old(Mem()), Mem(), {FrameOf(pml4)})
      ensures SeesBoot(Mem(), tables, boot, FrameOf(pml4)) && BootSeen(old(Mem()), tables, Mem(), tables, boot)
      ensures SlotCopied(old(Mem()), Mem(), tables, FrameOf(pml4), FrameOf(kernelPml4))
    {
      hide FreeSet, BootOk, Tree, LinksGrant, Separate, Walk, BootSeen, SlotCopied;
      ghost var d, k := FrameOf(pml4), FrameOf(kernelPml4);
      assert InRam(Mem(), d) && InRam(Mem(), k) by { InRamOfTable(Mem(), tables, boot, d); InRamOfTable(Mem(),
          tables, boot, k); }
      SeparateMeans(pmm.Free(), pmm.BitmapFrames(), tables.Keys, data, d);
      ShareKeepsValid(Mem(), tables, boot, d, k);
      StoreEntry(pml4 / PAGE_SIZE, 0, pmm.ram[WORDS_PER_FRAME * (kernelPml4 / PAGE_SIZE)]);
    }

    /** pmm_alloc_page by a client, for a data page. */
    method AllocFrame() returns (address: nat)
      requires Valid()
      modifies pmm`freePages, pmm`searchHint, pmm.ram, this`data
      ensures Valid() && tables == old(tables)
      ensures old(pmm.Free()) == {} ==> address == 0 && Mem() == old(Mem()) && data == old(data) && pmm.Free() == {}
      ensures old(pmm.Free()) != {} ==> var f := FrameOf(address);
                && address == PAGE_SIZE * f && f != 0 && f in old(pmm.Free())
                && data == old(data) + {f} && pmm.Free() == old(pmm.Free()) - {f}
      ensures SameOutside(old(Mem()), Mem(), pmm.BitmapFrames())
      ensures SameLookups(old(Mem()), Mem(), tables) && BootSeen(old(Mem()), tables, Mem(), tables, boot)
    {
      hide FreeSet, TablesValid, Separate, Walk, BootSeen, SameLookups, FirstInCycle, FramesTouching, SameOutside,
        Fits;
      ghost var m, free, bitmap := Mem(), pmm.Free(), pmm.BitmapFrames();
      address := pmm.AllocPage();
      OutsideFrames(m, Mem(), pmm.bitmap, pmm.bitmap + BitmapBytes(pmm.totalPages));
      SeparateMeans(free, bitmap, tables.Keys, data, FrameOf(address));
      BitmapKeepsValid(m, Mem(), tables, boot, bitmap);
      if free != {} {
        SeparateAfterTake(free, bitmap, tables.Keys, data, FrameOf(address));
        data := data + {FrameOf(address)};
      }
    }

    /** pmm_free_page by a client that owns the data page. */
    method FreeFrame(address: nat)
      requires Valid() && address % PAGE_SIZE == 0 && FrameOf(address) in data
      modifies pmm`freePages, pmm.ram, this`data
      ensures Valid() && tables == old(tables) && data == old(data) - {FrameOf(address)}
      ensures pmm.Free() == if 0 < FrameOf(address) < pmm.totalPages then old(pmm.Free()) + {FrameOf(address)}
                            else old(pmm.Free())
      ensures SameOutside(old(Mem()), Mem(), pmm.BitmapFrames())
      ensures SameLookups(old(Mem()), Mem(), tables) && BootSeen(old(Mem()), tables, Mem(), tables, boot)
    {
      hide FreeSet, TablesValid, Walk, BootSeen, SameLookups;
      ghost var m, free, bitmap := Mem(), pmm.Free(), pmm.BitmapFrames();
      SeparateMeans(free, bitmap, tables.Keys, data, FrameOf(address));
      pmm.FreePage(address);
      OutsideFrames(m, Mem(), pmm.bitmap, pmm.bitmap + BitmapBytes(pmm.totalPages));
      BitmapKeepsValid(m, Mem(), tables, boot, bitmap);
      data := data - {FrameOf(address)};
    }
  }

  lemma InRamOfTable(m: Memory, lv: Levels, b: Boot, f: nat)
    requires TablesValid(m, lv, b) && f in lv
    ensures InRam(m, f)
  {
  }

  lemma RootKeepsValid(m: Memory, m': Memory, lv: Levels, b: Boot, bitmap: set<int>, f: nat)
    requires TablesValid(m, lv, b) && SameOutside(m, m', bitmap + {f}) && EmptyTable(m', f) && f !in lv
    requires lv.Keys !! bitmap
    ensures TablesValid(m', lv[f := 4], b) && SameLookups(m, m', lv) && BootSeen(m, lv, m', lv[f := 4], b)
    ensures UserClosed(m', f) && forall v :: Walk(m', f, 4, v) == None
  {
    hide Has, Base, BootOk, Walk, PagesKept;
    TablesOutside(m, m', lv, bitmap + {f});
    GrowRoot(m, m', lv, f);
    BootGrown(m, lv, m', lv[f := 4], b);
    PagesKeptByGrowing(m, lv, m', lv[f := 4]);
    forall s, w | s in lv && lv[s] == 4
      ensures Walk(m', s, 4, w) == Walk(m, s, 4, w)
    {
      assert Walk(m', s, lv[s], w) == Walk(m, s, lv[s], w);
    }
  }

  /** Space `d` now sees below 512 GiB what `k` sees there, along the same pointers;
      nothing else changed. */
  ghost predicate SlotCopied(m: Memory, m': Memory, lv: Levels, d: nat, k: nat)
  {
    forall s, w :: s in lv && lv[s] == 4 ==>
      var source := if s == d && Index(w, 4) == 0 then k else s;
      Walk(m', s, 4, w) == Walk(m, source, 4, w) && UserPath(m', s, 4, w) == UserPath(m, source, 4, w)
  }

  lemma ShareKeepsValid(m: Memory, lv: Levels, b: Boot, d: nat, k: nat)
    requires TablesValid(m, lv, b) && d in lv && lv[d] == 4 && SeesBoot(m, lv, b, k)
    ensures var m' := m[WORDS_PER_FRAME * d + 0 := Entry(m, k, 0)];
            && TablesValid(m', lv, b) && BootSeen(m, lv, m', lv, b) && SeesBoot(m', lv, b, d)
            && SlotCopied(m, m', lv, d, k)
  {
    hide Has, Base, Walk, UserPath;
    TreeAfterShare(m, lv, d, k);
    BootAfterShare(m, lv, b, d, k);
    var m' := m[WORDS_PER_FRAME * d := Entry(m, k, 0)];
    forall s, w | s in lv && lv[s] == 4
      ensures var source := if s == d && Index(w, 4) == 0 then k else s;
              Walk(m', s, 4, w) == Walk(m, source, 4, w) && UserPath(m', s, 4, w) == UserPath(m, source, 4, w)
    {
      WalkAfterShare(m, lv, d, k, s, w);
    }
  }

  /** After slot 0 of `k` was copied into a space with nothing mapped, the space is
      closed exactly when `k` is closed below 512 GiB. */
  lemma SharedSlotClosed(m: Memory, m': Memory, lv: Levels, d: nat, k: nat)
    requires SlotCopied(m, m', lv, d, k) && d in lv && lv[d] == 4
    requires forall w :: Walk(m, d, 4, w) == None
    ensures UserClosed(m', d) <==> forall w :: Index(w, 4) == 0 ==> ClosedAt(m, k, w)
    ensures UserClosed(m, k) ==> UserClosed(m', d)
    ensures forall s :: s in lv && lv[s] == 4 && s != d ==> (UserClosed(m', s) <==> UserClosed(m, s))
  {
    hide Walk, UserPath, Index;
    forall w
      ensures ClosedAt(m', d, w) <==> (Index(w, 4) == 0 ==> ClosedAt(m, k, w))
    {
    }
    forall s, w | s in lv && lv[s] == 4 && s != d
      ensures ClosedAt(m', s, w) <==> ClosedAt(m, s, w)
    {
    }
  }

  lemma BitmapKeepsValid(m: Memory, m': Memory, lv: Levels, b: Boot, bitmap: set<int>)
    requires TablesValid(m, lv, b) && SameOutside(m, m', bitmap) && lv.Keys !! bitmap
    ensures TablesValid(m', lv, b) && SameLookups(m, m', lv) && BootSeen(m, lv, m', lv, b)
  {
    hide Has, Base, BootOk, Walk, PagesKept;
    TablesOutside(m, m', lv, bitmap);
    TreeReadsTables(m, m', lv);
    SamePointersOfTables(m, m', lv);
    GrowPointers(m, m', lv);
    BootGrown(m, lv, m', lv, b);
    PagesKeptByGrowing(m, lv, m', lv);
    forall s, w | s in lv && lv[s] == 4
      ensures Walk(m', s, 4, w) == Walk(m, s, 4, w)
    {
      assert Walk(m', s, lv[s], w) == Walk(m, s, lv[s], w);
    }
  }

  lemma SamePointersOfTables(m: Memory, m': Memory, lv: Levels)
    requires TablesInRam(m, lv) && SameTables(m, m', lv)
    ensures SamePointers(m, m', lv)
  {
  }

  function AddressOf(l: Option<Leaf>): nat
  {
    match l
    case None => 0
    case Some(leaf) => leaf.address
  }

  lemma NothingSeen(m: Memory, lv: Levels, b: Boot, r: nat, v: nat)
    requires TablesInRam(m, lv) && r in lv
    ensures RightsKept(m, m, lv, r, v) && BootSeen(m, lv, m, lv, b)
  {
  }

  /** The last-level entry of `v` holds `e`. */
  predicate Stored(m: Memory, r: nat, v: nat, e: nat)
  {
    var t := Reach(m, r, 4, v, 1);
    t.Some? && InRam(m, t.value) && Entry(m, t.value, Index(v, 1)) == e
  }

  /** The entry is present, its address bits are those of `phys` and of the flags, and
      every other bit is that of the flags. */
  ghost predicate IsLeafFor(e: nat, phys: Word, flags: Word)
  {
    Has(e, PRESENT) && SameFlags(e, flags) && Base(e) == Or(Base(phys), Base(flags))
  }

  /** Exactly the page of `v` changes, in exactly the spaces that share it with
      `r`, and becomes what the last-level entry `e` says. */
  ghost predicate PageSet(m: Memory, m': Memory, lv: Levels, r: nat, v: nat, e: nat)
  {
    && TablesInRam(m', lv) && r in lv
    && forall s, w :: s in lv && lv[s] == 4 ==>
         Walk(m', s, 4, w) == if PageNumber(w) == PageNumber(v) && Shares(m', r, s, v) then LeafResult(e, w)
                              else Walk(m, s, 4, w)
  }

  ghost predicate SameLookups(m: Memory, m': Memory, lv: Levels)
  {
    && (forall s, w :: s in lv && lv[s] == 4 ==> Walk(m', s, 4, w) == Walk(m, s, 4, w))
    && PagesKept(m, m', lv)
  }

  /** What is mapped stays mapped, and what user code could reach stays in its reach. */
  ghost predicate PagesKept(m: Memory, m': Memory, lv: Levels)
  {
    forall s, w :: s in lv && lv[s] == 4 && Walk(m, s, 4, w).Some? ==>
      Walk(m', s, 4, w).Some? && (UserPath(m, s, 4, w) ==> UserPath(m', s, 4, w))
  }

  lemma PagesKeptTransitive(m: Memory, m': Memory, m'': Memory, lv: Levels, lv': Levels)
    requires PagesKept(m, m', lv) && PagesKept(m', m'', lv') && TablesGrew(lv, lv')
    ensures PagesKept(m, m'', lv)
  {
    hide Walk, UserPath;
    forall s, w | s in lv && lv[s] == 4 && Walk(m, s, 4, w).Some?
      ensures Walk(m'', s, 4, w).Some? && (UserPath(m, s, 4, w) ==> UserPath(m'', s, 4, w))
    {
      assert Walk(m', s, 4, w).Some?;
    }
  }

  lemma PagesKeptByGrowing(m: Memory, lv: Levels, m': Memory, lv': Levels)
    requires Tree(m, lv) && Grown(m, lv, m', lv')
    ensures PagesKept(m, m', lv)
  {
    hide Walk, UserPath;
    forall s, w | s in lv && lv[s] == 4 && Walk(m, s, 4, w).Some?
      ensures Walk(m', s, 4, w).Some? && (UserPath(m, s, 4, w) ==> UserPath(m', s, 4, w))
    {
      assert Walk(m', s, lv[s], w) == Walk(m, s, lv[s], w);
      if UserPath(m, s, 4, w) { GrownUserPath(m, lv, m', lv', s, w); }
    }
  }

  /** Closed spaces stay closed, except other spaces that share the page of `v`. */
  ghost predicate RightsKept(m: Memory, m': Memory, lv: Levels, r: nat, v: nat)
  {
    && TablesInRam(m', lv) && r in lv
    && forall s :: s in lv && lv[s] == 4 && UserClosed(m, s) && (s == r || !Shares(m', r, s, v)) ==> UserClosed(m', s)
  }

  /** Every page that a leaf gives to user code lies in a data frame. */
  ghost predicate UserOwned(m: Memory, lv: Levels, data: set<nat>)
  {
    forall s, w :: s in lv && lv[s] == 4 ==> OwnedAt(m, s, w, data)
  }

  ghost predicate OwnedAt(m: Memory, s: nat, w: nat, data: set<nat>)
  {
    var l := Walk(m, s, 4, w);
    l.Some? && l.value.user ==> FrameOf(l.value.address) in data
  }

  /** The boot tables give user code nothing. */
  lemma BootOwned(m: Memory, b: Boot)
    requires BootBuilt(m, b)
    ensures UserOwned(m, BootLevels(b), {})
  {
    hide Walk, BootBuilt;
    forall s, w | s in BootLevels(b) && BootLevels(b)[s] == 4
      ensures OwnedAt(m, s, w, {})
    {
      OnlyIdentity(m, b, w);
    }
  }

  lemma OwnedBySame(m: Memory, m': Memory, lv: Levels, lv': Levels, data: set<nat>, data': set<nat>)
    requires UserOwned(m, lv, data) && SameLookups(m, m', lv) && SameSpaces(lv, lv') && data <= data'
    ensures UserOwned(m', lv', data')
  {
    hide Walk, PagesKept;
    forall s, w | s in lv' && lv'[s] == 4
      ensures OwnedAt(m', s, w, data')
    {
      assert OwnedAt(m, s, w, data);
    }
  }

  /** A map keeps the user's pages in data frames if it gives user code one of them. */
  lemma OwnedAfterPage(m: Memory, m': Memory, lv: Levels, lv': Levels, r: nat, v: nat, e: nat, data: set<nat>)
    requires UserOwned(m, lv, data) && PageSet(m, m', lv, r, v, e) && SameSpaces(lv, lv')
    requires Has(e, PRESENT) && Has(e, USER) ==> FrameOf(Base(e)) in data
    ensures UserOwned(m', lv', data)
  {
    hide Walk, Has, Base, Shares, PageNumber;
    forall s, w | s in lv' && lv'[s] == 4
      ensures OwnedAt(m', s, w, data)
    {
      assert OwnedAt(m, s, w, data);
      LeafInFrame(e, w);
    }
  }

  lemma LeafInFrame(e: nat, w: nat)
    ensures LeafResult(e, w).Some? ==>
              LeafResult(e, w).value.user == Has(e, USER) && FrameOf(LeafResult(e, w).value.address) == FrameOf(Base(e))
  {
    hide And, Or;
    BaseMeaning(e);
    OffsetMeaning(e, w);
  }

  /** What user code reaches of a space is no table, no free frame and no part of the
      bitmap. */
  lemma UserReach(m: Memory, lv: Levels, b: Boot, free: set<nat>, bitmap: set<int>, data: set<nat>, r: nat, w: nat)
    requires TablesValid(m, lv, b) && Separate(free, bitmap, lv.Keys, data) && UserOwned(m, lv, data)
    requires r in lv && lv[r] == 4 && Effective(m, r, w).Some? && Effective(m, r, w).value.user
    ensures var f := FrameOf(Effective(m, r, w).value.address);
            f in data && f !in lv && f !in free && f !in bitmap
  {
    hide Walk, UserPath, WritablePath, BootOk, SeesBoot, OneParent, LinksDescend;
    ClosedSpaceRights(m, lv, r, w);
    assert OwnedAt(m, r, w, data);
  }

  ghost predicate BootSeen(m: Memory, lv: Levels, m': Memory, lv': Levels, b: Boot)
  {
    && TablesInRam(m, lv) && TablesInRam(m', lv')
    && forall s :: SeesBoot(m, lv, b, s) ==> SeesBoot(m', lv', b, s)
  }

  ghost predicate TablesGrew(lv: Levels, lv': Levels)
  {
    forall f :: f in lv ==> f in lv' && lv'[f] == lv[f]
  }

  lemma ReachedTable(m: Memory, lv: Levels, b: Boot, r: nat, v: nat, t: nat)
    requires TablesValid(m, lv, b) && r in lv && lv[r] == 4 && Reach(m, r, 4, v, 1) == Some(t)
    ensures t in lv && lv[t] == 1 && InRam(m, t)
  {
    ReachStaysInTables(m, lv, r, v, 1);
  }

  lemma LeafKeepsValid(m: Memory, lv: Levels, b: Boot, r: nat, v: nat, t: nat, e: Word)
    requires TablesValid(m, lv, b) && r in lv && lv[r] == 4 && Reach(m, r, 4, v, 1) == Some(t)
    requires t in lv && lv[t] == 1 && (Has(e, USER) ==> UserPath(m, r, 4, v))
    ensures var m' := m[WORDS_PER_FRAME * t + Index(v, 1) := e];
            && TablesValid(m', lv, b) && BootSeen(m, lv, m', lv, b)
            && PageSet(m, m', lv, r, v, e) && RightsKept(m, m', lv, r, v)
            && (Has(e, USER) ==> UserPath(m', r, 4, v))
  {
    hide Index, Has, Base, LeafResult, Walk, UserPath, Reach;
    var m' := m[WORDS_PER_FRAME * t + Index(v, 1) := e];
    TreeAfterLeaf(m, lv, t, Index(v, 1), e);
    BootAfterLeaf(m, lv, b, t, Index(v, 1), e);
    forall s | s in lv && lv[s] == 4
      ensures Shares(m', r, s, v) == Shares(m, r, s, v)
    {
      assert Entry(m', r, 0) == Entry(m, r, 0) && Entry(m', s, 0) == Entry(m, s, 0);
    }
    forall s, w | s in lv && lv[s] == 4
      ensures Walk(m', s, 4, w) == if PageNumber(w) == PageNumber(v) && Shares(m', r, s, v) then LeafResult(e, w)
                                   else Walk(m, s, 4, w)
    {
      LeafEffect(m, lv, r, v, e, s, w);
    }
    LeafRights(m, lv, r, v, t, e);
    WalkAfterLeaf(m, lv, t, Index(v, 1), e, r, v);
  }

  lemma LeafRights(m: Memory, lv: Levels, r: nat, v: nat, t: nat, e: Word)
    requires Tree(m, lv) && r in lv && lv[r] == 4 && Reach(m, r, 4, v, 1) == Some(t)
    requires t in lv && lv[t] == 1 && (Has(e, USER) ==> UserPath(m, r, 4, v))
    requires PageSet(m, m[WORDS_PER_FRAME * t + Index(v, 1) := e], lv, r, v, e)
    ensures RightsKept(m, m[WORDS_PER_FRAME * t + Index(v, 1) := e], lv, r, v)
  {
    hide Index, Has, Base, LeafResult, Walk, UserPath, Reach;
    var m' := m[WORDS_PER_FRAME * t + Index(v, 1) := e];
    forall s | s in lv && lv[s] == 4 && UserClosed(m, s) && (s == r || !Shares(m', r, s, v))
      ensures UserClosed(m', s)
    {
      if s == r {
        LeafUserClosed(m, lv, r, v, e);
      } else {
        forall w
          ensures ClosedAt(m', s, w)
        {
          assert ClosedAt(m, s, w);
          WalkAfterLeaf(m, lv, t, Index(v, 1), e, s, w);
        }
      }
    }
  }

  /** What the table-building steps alone mean for the spaces. */
  lemma ChangedEffect(m: Memory, lv: Levels, free: set<nat>, m': Memory, lv': Levels, free': set<nat>,
                      bitmap: set<int>, b: Boot, r: nat, v: nat)
    requires TablesValid(m, lv, b) && Changed(m, lv, free, m', lv', free', bitmap) && r in lv
    ensures SameLookups(m, m', lv) && RightsKept(m, m', lv, r, v) && BootSeen(m, lv, m', lv', b)
    ensures PagesKept(m, m', lv)
    ensures TablesGrew(lv, lv') && SameSpaces(lv, lv') && Accounts(free, lv.Keys, free', lv'.Keys)
    ensures SameOutside(m, m', bitmap + lv'.Keys)
  {
    hide Has, Base, Walk, UserPath, BootOk, PagesKept;
    PagesKeptByGrowing(m, lv, m', lv');
    forall s, w | s in lv && lv[s] == 4
      ensures Walk(m', s, 4, w) == Walk(m, s, 4, w)
    {
      assert Walk(m', s, lv[s], w) == Walk(m, s, lv[s], w);
    }
    forall s | s in lv && lv[s] == 4 && UserClosed(m, s)
      ensures UserClosed(m', s)
    {
      GrownUserClosed(m, lv, m', lv', s);
    }
    BootGrown(m, lv, m', lv', b);
  }

  /** A leaf store after the table-building steps, seen from before both. */
  lemma LeafAfterChange(m: Memory, lv: Levels, m': Memory, lv': Levels, m'': Memory, bitmap: set<int>, b: Boot,
                        r: nat, v: nat, t: nat, e: nat)
    requires SameLookups(m, m', lv) && RightsKept(m, m', lv, r, v) && BootSeen(m, lv, m', lv', b)
    requires TablesGrew(lv, lv') && SameOutside(m, m', bitmap + lv'.Keys)
    requires PageSet(m', m'', lv', r, v, e) && RightsKept(m', m'', lv', r, v) && BootSeen(m', lv', m'', lv', b)
    requires t in lv' && lv'[t] == 1 && SameOutside(m', m'', {t}) && lv[r] == 4
    ensures PageSet(m, m'', lv, r, v, e) && RightsKept(m, m'', lv, r, v) && BootSeen(m, lv, m'', lv', b)
    ensures SameOutside(m, m'', bitmap + lv'.Keys)
  {
    hide Walk, UserPath, Has, Base, Index, LeafResult, UserClosed;
    forall s | s in lv && lv[s] == 4
      ensures Shares(m'', r, s, v) == Shares(m', r, s, v)
    {
      EntriesOutside(m', m'', {t}, s);
      EntriesOutside(m', m'', {t}, r);
      assert Entry(m'', r, 0) == Entry(m', r, 0) && Entry(m'', s, 0) == Entry(m', s, 0);
    }
  }

  lemma OpenedAfterLeaf(m: Memory, lv: Levels, m': Memory, lv': Levels, m'': Memory, r: nat, v: nat, user: bool, t: nat)
    requires Opened(m, lv, m', r, v, user) && TablesGrew(lv, lv') && t in lv' && lv'[t] == 1
    requires SameOutside(m', m'', {t})
    ensures Opened(m, lv, m'', r, v, user)
  {
    hide Has, Base, Index, OnWay;
    forall f | f in lv && lv[f] >= 2
      ensures forall i: nat :: i < ENTRIES ==> Entry(m'', f, i) == Entry(m', f, i)
    {
      EntriesOutside(m', m'', {t}, f);
    }
    forall f, i: nat | f in lv && i < ENTRIES && lv[f] >= 2
      ensures Entry(m'', f, i) == Entry(m', f, i)
    {
    }
  }

  lemma PagesKeptByMap(m: Memory, lv: Levels, m': Memory, r: nat, v: nat, e: nat, user: bool)
    requires Tree(m, lv) && Opened(m, lv, m', r, v, user) && PageSet(m, m', lv, r, v, e) && Has(e, PRESENT)
    ensures PagesKept(m, m', lv)
  {
    hide Walk, UserPath, UserPathWith, Has, Shares, Opened;
    forall s, w | s in lv && lv[s] == 4 && Walk(m, s, 4, w).Some?
      ensures Walk(m', s, 4, w).Some? && (UserPath(m, s, 4, w) ==> UserPath(m', s, 4, w))
    {
      UserPathAfterMap(m, lv, m', r, v, user, s, w);
      if UserPath(m, s, 4, w) { UserPathIsWith(m, s, 4, w, r, v); }
    }
  }

  /** The effect every step towards a mapping has on memory, tables and free frames. */
  ghost predicate Changed(m: Memory, lv: Levels, free: set<nat>, m': Memory, lv': Levels, free': set<nat>,
                          bitmap: set<int>)
  {
    && Grown(m, lv, m', lv') && SameSpaces(lv, lv')
    && Accounts(free, lv.Keys, free', lv'.Keys)
    && SameOutside(m, m', bitmap + lv'.Keys)
  }

  ghost predicate Blocked(m: Memory, lv: Levels, free: set<nat>, t: nat, v: nat)
    requires TablesInRam(m, lv) && t in lv && lv[t] >= 2
  {
    var i := Index(v, lv[t]);
    HugeLeaf(m, t, lv[t], i) || (!Link(m, t, lv[t], i) && free == {})
  }

  /** Of the tables so far only entry `i` of table `t` was written: a pointer kept its
      user bit or got it because `user` holds, an absent one leads to a new empty table. */
  ghost predicate Stepped(m: Memory, lv: Levels, m': Memory, t: nat, i: nat, user: bool)
    requires TablesInRam(m, lv) && t in lv && i < ENTRIES
  {
    && |m'| == |m|
    && (forall f, j: nat :: f in lv && j < ENTRIES && !(f == t && j == i) ==> Entry(m', f, j) == Entry(m, f, j))
    && (if Link(m, t, lv[t], i) then Has(Entry(m', t, i), USER) <==> Has(Entry(m, t, i), USER) || user
        else Child(m', t, i) !in lv && EmptyTable(m', Child(m', t, i)))
  }

  /** A step that succeeded: the entry is a pointer now, with the user bit if that
      was asked for, and what is still needed for `v` shrank by at most one table. */
  ghost predicate Descended(m: Memory, lv: Levels, free: set<nat>, m': Memory, lv': Levels, free': set<nat>,
                            t: nat, v: nat, flags: nat)
    requires TablesInRam(m, lv) && t in lv && lv[t] >= 2
  {
    var i := Index(v, lv[t]);
    && TablesInRam(m', lv') && IsLink(m', lv', t, i) && lv'[t] == lv[t]
    && (Has(flags, USER) ==> Has(Entry(m', t, i), USER))
    && Stepped(m, lv, m', t, i, Has(flags, USER))
    && !HugeLeaf(m, t, lv[t], i)
    && HugeOnPath(m', Child(m', t, i), lv[t] - 1, v) == HugeOnPath(m, t, lv[t], v)
    && (if Link(m, t, lv[t], i)
        then |free'| == |free| && Missing(m', Child(m', t, i), lv[t] - 1, v) == Missing(m, t, lv[t], v)
        else |free'| == |free| - 1 && Missing(m', Child(m', t, i), lv[t] - 1, v) == Missing(m, t, lv[t], v) - 1)
  }

  lemma DescendedLink(m: Memory, lv: Levels, free: set<nat>, m': Memory, lv': Levels, free': set<nat>,
                      t: nat, v: nat, flags: nat)
    requires TablesInRam(m, lv) && t in lv && lv[t] >= 2
    requires Descended(m, lv, free, m', lv', free', t, v, flags)
    ensures TablesInRam(m', lv') && IsLink(m', lv', t, Index(v, lv[t])) && lv'[t] == lv[t]
  {
  }

  lemma ChangedTransitive(m: Memory, lv: Levels, free: set<nat>, m': Memory, lv': Levels, free': set<nat>,
                          m'': Memory, lv'': Levels, free'': set<nat>, bitmap: set<int>)
    requires Changed(m, lv, free, m', lv', free', bitmap) && Changed(m', lv', free', m'', lv'', free'', bitmap)
    ensures Changed(m, lv, free, m'', lv'', free'', bitmap)
  {
    hide Grown;
    GrownTransitive(m, lv, m', lv', m'', lv'');
    AccountsTransitive(free, lv.Keys, free', lv'.Keys, free'', lv''.Keys);
    assert bitmap + lv'.Keys <= bitmap + lv''.Keys;
  }

  /** The way down from PML4 `r` towards `v` has got to table `t` at level `k`:
      as many tables have been added as frames were taken, and the rest of the
      way needs what the whole way needed minus those. */
  ghost predicate Progress(m: Memory, lv: Levels, free: set<nat>, m': Memory, lv': Levels, free': set<nat>,
                           bitmap: set<int>, r: nat, v: nat, flags: nat, k: nat, t: nat)
  {
    && Changed(m, lv, free, m', lv', free', bitmap)
    && r in lv && lv[r] == 4 && 1 <= k <= 4 && t in lv' && lv'[t] == k
    && Reach(m', r, 4, v, k) == Some(t)
    && Missing(m', t, k, v) + |free| == Missing(m, r, 4, v) + |free'|
    && HugeOnPath(m', t, k, v) == HugeOnPath(m, r, 4, v)
    && (Has(flags, USER) ==> UserDown(m', r, 4, v, k))
    && Trail(m, lv, m', r, v, Has(flags, USER), k, t)
  }

  /** The way down has so far written only entries on it, above level `k`, and set
      their user bits exactly if `user` holds; table `t` is an old one on the way or
      new and without a pointer towards `v`. */
  ghost predicate Trail(m: Memory, lv: Levels, m': Memory, r: nat, v: nat, user: bool, k: nat, t: nat)
  {
    && TablesInRam(m, lv) && |m'| == |m| && 1 <= k <= 4 && InRam(m', t)
    && (forall f, i: nat :: f in lv && i < ENTRIES && !(lv[f] > k && OnWay(m, r, v, f, lv[f], i)) ==>
          Entry(m', f, i) == Entry(m, f, i))
    && (forall f, i :: IsLink(m, lv, f, i) && lv[f] > k && OnWay(m, r, v, f, lv[f], i) ==>
          (Has(Entry(m', f, i), USER) <==> Has(Entry(m, f, i), USER) || user))
    && (if t in lv then Reach(m, r, 4, v, k) == Some(t) else !Link(m', t, k, Index(v, k)))
  }

  lemma TrailStep(m: Memory, lv: Levels, m': Memory, lv': Levels, m'': Memory, lv'': Levels,
                  r: nat, v: nat, user: bool, k: nat, t: nat)
    requires Tree(m, lv) && Grown(m, lv, m', lv') && Grown(m', lv', m'', lv'') && r in lv && lv[r] == 4
    requires Trail(m, lv, m', r, v, user, k, t) && k >= 2 && Reach(m', r, 4, v, k) == Some(t)
    requires t in lv' && lv'[t] == k && Stepped(m', lv', m'', t, Index(v, k), user)
    requires IsLink(m'', lv'', t, Index(v, k)) && InRam(m'', Child(m'', t, Index(v, k)))
    ensures Trail(m, lv, m'', r, v, user, k - 1, Child(m'', t, Index(v, k)))
  {
    hide Has, Base, Index, Walk, HugeKept, NoNewHuge;
    TrailEntries(m, lv, m', lv', m'', lv'', r, v, user, k, t);
    TrailTable(m, lv, m', lv', m'', lv'', r, v, user, k, t);
  }

  lemma TrailEntries(m: Memory, lv: Levels, m': Memory, lv': Levels, m'': Memory, lv'': Levels,
                     r: nat, v: nat, user: bool, k: nat, t: nat)
    requires Tree(m, lv) && Grown(m, lv, m', lv') && r in lv && lv[r] == 4
    requires Trail(m, lv, m', r, v, user, k, t) && k >= 2 && Reach(m', r, 4, v, k) == Some(t)
    requires t in lv' && lv'[t] == k && Stepped(m', lv', m'', t, Index(v, k), user)
    ensures forall f, i: nat :: f in lv && i < ENTRIES && !(lv[f] > k - 1 && OnWay(m, r, v, f, lv[f], i)) ==>
              Entry(m'', f, i) == Entry(m, f, i)
    ensures forall f, i :: IsLink(m, lv, f, i) && lv[f] > k - 1 && OnWay(m, r, v, f, lv[f], i) ==>
              (Has(Entry(m'', f, i), USER) <==> Has(Entry(m, f, i), USER) || user)
  {
    hide Has, Base, Index, Walk, HugeKept, NoNewHuge;
    forall f, i: nat | f in lv && i < ENTRIES && !(lv[f] > k - 1 && OnWay(m, r, v, f, lv[f], i))
      ensures Entry(m'', f, i) == Entry(m, f, i)
    {
      assert Entry(m', f, i) == Entry(m, f, i);
      assert !(f == t && i == Index(v, k));
      assert Entry(m'', f, i) == Entry(m', f, i);
    }
    forall f, i | IsLink(m, lv, f, i) && lv[f] > k - 1 && OnWay(m, r, v, f, lv[f], i)
      ensures Has(Entry(m'', f, i), USER) <==> Has(Entry(m, f, i), USER) || user
    {
      GrownReach(m, lv, m', lv', r, v, lv[f]);
      if lv[f] > k {
        assert Entry(m'', f, i) == Entry(m', f, i);
      } else {
        assert f == t && i == Index(v, k);
        assert Entry(m', f, i) == Entry(m, f, i);
      }
    }
  }

  lemma TrailTable(m: Memory, lv: Levels, m': Memory, lv': Levels, m'': Memory, lv'': Levels,
                   r: nat, v: nat, user: bool, k: nat, t: nat)
    requires Tree(m, lv) && Grown(m, lv, m', lv') && Grown(m', lv', m'', lv'') && r in lv && lv[r] == 4
    requires Trail(m, lv, m', r, v, user, k, t) && k >= 2
    requires t in lv' && lv'[t] == k && Stepped(m', lv', m'', t, Index(v, k), user)
        && InRam(m'', Child(m'', t, Index(v, k)))
    ensures var c := Child(m'', t, Index(v, k));
            if c in lv then Reach(m, r, 4, v, k - 1) == Some(c) else !Link(m'', c, k - 1, Index(v, k - 1))
  {
    hide Has, Base, Index, Walk, HugeKept, NoNewHuge;
    var i := Index(v, k);
    var c := Child(m'', t, i);
    NoFlagsInZero();
    if Link(m', t, k, i) {
      assert IsLink(m', lv', t, i);
      ReachStaysInTables(m, lv, r, v, k);
      assert Entry(m', t, i) == Entry(m, t, i);
      assert IsLink(m, lv, t, i);
      ReachExtend(m, r, 4, v, k);
    } else {
      assert Entry(m'', c, Index(v, k - 1)) == 0;
    }
  }

  /** Where the way ends, at the last level or at an entry that is no pointer, every
      pointer of the old tables has the user bit it should have. */
  lemma TrailEnds(m: Memory, lv: Levels, m': Memory, lv': Levels, r: nat, v: nat, user: bool, k: nat, t: nat)
    requires Tree(m, lv) && Grown(m, lv, m', lv') && r in lv && lv[r] == 4
    requires Trail(m, lv, m', r, v, user, k, t) && Reach(m', r, 4, v, k) == Some(t)
    requires k == 1 || !Link(m', t, k, Index(v, k))
    ensures Opened(m, lv, m', r, v, user)
  {
    hide Has, Base, Index, Walk, HugeKept, NoNewHuge;
    forall f, i | IsLink(m, lv, f, i)
      ensures Has(Entry(m', f, i), USER) <==> Has(Entry(m, f, i), USER) || (user && OnWay(m, r, v, f, lv[f], i))
    {
      if OnWay(m, r, v, f, lv[f], i) && lv[f] <= k {
        var p := ReachedThrough(m, r, 4, v, k, lv[f]);
        GrownReach(m, lv, m', lv', r, v, k);
        ReachStaysInTables(m, lv, r, v, k);
        assert false;
      }
    }
  }

  /** The way to a pointer at level `j` goes through a pointer at each level above. */
  lemma {:induction false} ReachedThrough(m: Memory, f: nat, level: nat, v: nat, k: nat, j: nat) returns (p: nat)
    requires 1 <= j <= k <= level <= 4 && Reach(m, f, level, v, j).Some?
    requires var q := Reach(m, f, level, v, j).value; InRam(m, q) && Link(m, q, j, Index(v, j))
    ensures Reach(m, f, level, v, k) == Some(p) && InRam(m, p) && Link(m, p, k, Index(v, k))
    decreases level
  {
    if k < level {
      p := ReachedThrough(m, Child(m, f, Index(v, level)), level - 1, v, k, j);
    } else {
      p := f;
    }
  }

  lemma ProgressStep(m: Memory, lv: Levels, free: set<nat>, m': Memory, lv': Levels, free': set<nat>,
                     m'': Memory, lv'': Levels, free'': set<nat>,
                     bitmap: set<int>, r: nat, v: nat, flags: nat, k: nat, t: nat)
    requires Tree(m, lv) && Tree(m', lv') && Tree(m'', lv'') && k >= 2
    requires Progress(m, lv, free, m', lv', free', bitmap, r, v, flags, k, t)
    requires Changed(m', lv', free', m'', lv'', free'', bitmap)
    requires Descended(m', lv', free', m'', lv'', free'', t, v, flags)
    ensures InRam(m'', t)
    ensures Progress(m, lv, free, m'', lv'', free'', bitmap, r, v, flags, k - 1, Child(m'', t, Index(v, k)))
  {
    hide Has, Target, Index, SameOutside, Trail, Stepped;
    assert IsLink(m'', lv'', t, Index(v, k));
    TrailStep(m, lv, m', lv', m'', lv'', r, v, Has(flags, USER), k, t);
    ChangedTransitive(m, lv, free, m', lv', free', m'', lv'', free'', bitmap);
    GrownReach(m', lv', m'', lv'', r, v, k);
    ReachExtend(m'', r, 4, v, k);
    if Has(flags, USER) {
      UserDownGrown(m', lv', m'', lv'', r, v, k);
      UserDownExtend(m'', r, 4, v, k);
    }
  }

  lemma ProgressMeans(m: Memory, lv: Levels, free: set<nat>, m': Memory, lv': Levels, free': set<nat>,
                      bitmap: set<int>, r: nat, v: nat, flags: nat, k: nat, t: nat)
    requires Progress(m, lv, free, m', lv', free', bitmap, r, v, flags, k, t)
    ensures Changed(m, lv, free, m', lv', free', bitmap) && 1 <= k <= 4 && t in lv' && lv'[t] == k
    ensures |free| <= |free'| + 3
  {
    hide Changed, Trail;
  }

  ghost predicate Mappable(m: Memory, free: set<nat>, r: nat, v: nat)
  {
    !HugeOnPath(m, r, 4, v) && Missing(m, r, 4, v) <= |free|
  }

  lemma ProgressDone(m: Memory, lv: Levels, free: set<nat>, m': Memory, lv': Levels, free': set<nat>,
                     bitmap: set<int>, r: nat, v: nat, flags: nat, t: nat)
    requires Tree(m, lv) && Progress(m, lv, free, m', lv', free', bitmap, r, v, flags, 1, t)
    ensures Mappable(m, free, r, v) && Opened(m, lv, m', r, v, Has(flags, USER))
    ensures |free| == |free'| + Missing(m, r, 4, v)
  {
    hide Grown, Opened, Trail;
    TrailEnds(m, lv, m', lv', r, v, Has(flags, USER), 1, t);
  }

  lemma ProgressBlocked(m: Memory, lv: Levels, free: set<nat>, m': Memory, lv': Levels, free': set<nat>,
                        bitmap: set<int>, r: nat, v: nat, flags: nat, k: nat, t: nat)
    requires Tree(m, lv) && Progress(m, lv, free, m', lv', free', bitmap, r, v, flags, k, t)
    requires k >= 2 && TablesInRam(m', lv') && Blocked(m', lv', free', t, v)
    ensures !Mappable(m, free, r, v) && Opened(m, lv, m', r, v, Has(flags, USER))
  {
    hide Grown, Opened, Trail;
    TrailEnds(m, lv, m', lv', r, v, Has(flags, USER), k, t);
  }

  lemma NothingChanged(m: Memory, lv: Levels, free: set<nat>, bitmap: set<int>)
    requires TablesInRam(m, lv)
    ensures Changed(m, lv, free, m, lv, free, bitmap)
  {
  }

  lemma DescendPlain(m: Memory, lv: Levels, free: set<nat>, bitmap: set<int>, t: nat, v: nat, flags: nat)
    requires Tree(m, lv) && t in lv && lv[t] >= 2 && Link(m, t, lv[t], Index(v, lv[t])) && !Has(flags, USER)
    ensures Changed(m, lv, free, m, lv, free, bitmap) && Descended(m, lv, free, m, lv, free, t, v, flags)
  {
  }

  lemma DescendWithUser(m: Memory, lv: Levels, b: Boot, free: set<nat>, bitmap: set<int>, t: nat, v: nat, flags: nat)
    requires TablesValid(m, lv, b) && t in lv && lv[t] >= 2 && Link(m, t, lv[t], Index(v, lv[t])) && Has(flags, USER)
    requires Or(Entry(m, t, Index(v, lv[t])), USER) < WORD_LIMIT
    ensures var m' := m[WORDS_PER_FRAME * t + Index(v, lv[t]) := Or(Entry(m, t, Index(v, lv[t])), USER)];
            && TablesValid(m', lv, b) && Changed(m, lv, free, m', lv, free, bitmap)
            && Descended(m, lv, free, m', lv, free, t, v, flags)
  {
    hide Has, Base, Index;
    var i := Index(v, lv[t]);
    var m' := m[WORDS_PER_FRAME * t + i := Or(Entry(m, t, i), USER)];
    AddUserMeaning(Entry(m, t, i));
    GrowUserBit(m, lv, t, i);
    BootGrown(m, lv, m', lv, b);
    assert IsLink(m, lv, t, i);
    UserBitKeepsPointers(m, lv, t, i);
    NeedsReadPointers(m, m', lv, Child(m, t, i), v);
  }

  lemma DescendIntoNew(m: Memory, m': Memory, lv: Levels, free: set<nat>, bitmap: set<int>,
                       t: nat, v: nat, f: nat, flags: nat)
    requires Tree(m, lv) && t in lv && lv[t] >= 2 && f in free && f !in lv
    requires Hung(m, m', lv, t, Index(v, lv[t]), f) && Grown(m, lv, m', WithChild(lv, t, f))
    requires SameOutside(m, m', bitmap + {f, t})
    requires Has(flags, USER) ==> Has(Entry(m', t, Index(v, lv[t])), USER)
    ensures Changed(m, lv, free, m', WithChild(lv, t, f), free - {f}, bitmap)
    ensures Descended(m, lv, free, m', WithChild(lv, t, f), free - {f}, t, v, flags)
  {
    hide Has, Base, Index;
    EmptyNeeds(m', f, lv[t] - 1, v);
    assert bitmap + {f, t} <= bitmap + WithChild(lv, t, f).Keys;
  }

  lemma SeparateAfterTake(free: set<nat>, bitmap: set<int>, tables: set<nat>, data: set<nat>, f: nat)
    requires Separate(free, bitmap, tables, data) && f in free && f != 0 && f !in bitmap
    ensures Separate(free - {f}, bitmap, tables + {f}, data)
    ensures Separate(free - {f}, bitmap, tables, data + {f})
    ensures Accounts(free, tables, free - {f}, tables + {f})
  {
  }

  lemma SeparateMeans(free: set<nat>, bitmap: set<int>, tables: set<nat>, data: set<nat>, f: nat)
    requires Separate(free, bitmap, tables, data)
    ensures f in tables ==> f !in bitmap && f !in free && f !in data && f != 0
    ensures f in free ==> f !in tables && f !in data
    ensures tables !! bitmap
  {
  }

  lemma TablesApart(free: set<nat>, bitmap: set<int>, tables: set<nat>, data: set<nat>)
    requires Separate(free, bitmap, tables, data)
    ensures tables !! free && tables !! data
  {
  }

  lemma HangKeepsValid(m: Memory, m': Memory, m'': Memory, lv: Levels, b: Boot, bitmap: set<int>,
                       t: nat, i: nat, f: nat, flags: Word)
    requires TablesValid(m, lv, b) && t in lv && lv[t] >= 2 && i < ENTRIES && f !in lv && lv.Keys !! bitmap
    requires !Has(Entry(m, t, i), PRESENT) && f < MAX_FRAMES
    requires SameOutside(m, m', bitmap + {f}) && EmptyTable(m', f)
    requires TableEntry(PAGE_SIZE * f, flags) < WORD_LIMIT
    requires m'' == m'[WORDS_PER_FRAME * t + i := TableEntry(PAGE_SIZE * f, flags)]
    ensures Hung(m, m'', lv, t, i, f) && SameOutside(m, m'', bitmap + {f, t})
    ensures Grown(m, lv, m'', WithChild(lv, t, f)) && TablesValid(m'', WithChild(lv, t, f), b)
    ensures Has(flags, USER) ==> Has(Entry(m'', t, i), USER)
  {
    hide Has, BootOk;
    TableEntryMeaning(PAGE_SIZE * f, flags);
    HungAfterStores(m, m', m'', lv, bitmap, t, i, f, flags);
    GrowTable(m, m'', lv, t, i, f);
    BootGrown(m, lv, m'', lv[f := lv[t] - 1], b);
  }

  /** Zeroing a fresh frame and then storing the pointer to it hangs an empty table. */
  lemma HungAfterStores(m: Memory, m': Memory, m'': Memory, lv: Levels, bitmap: set<int>,
                        t: nat, i: nat, f: nat, flags: Word)
    requires TablesInRam(m, lv) && t in lv && lv[t] >= 2 && i < ENTRIES && f !in lv && lv.Keys !! bitmap
    requires !Has(Entry(m, t, i), PRESENT) && f < MAX_FRAMES
    requires SameOutside(m, m', bitmap + {f}) && EmptyTable(m', f)
    requires TableEntry(PAGE_SIZE * f, flags) < WORD_LIMIT
    requires m'' == m'[WORDS_PER_FRAME * t + i := TableEntry(PAGE_SIZE * f, flags)]
    ensures Hung(m, m'', lv, t, i, f)
    ensures SameOutside(m, m'', bitmap + {f, t})
  {
    hide Has, And, Or;
    TableEntryMeaning(PAGE_SIZE * f, flags);
    TablesOutside(m, m', lv, bitmap + {f});
    forall g, j: nat | InRam(m, g) && j < ENTRIES
      ensures Entry(m'', g, j) == if g == t && j == i then TableEntry(PAGE_SIZE * f, flags) else Entry(m', g, j)
    {
    }
  }

  // What the contracts above mean for clients

  /** A page mapped with plain flags at an aligned physical page translates
      offset by offset, with exactly the rights asked for. */
  lemma MappedPage(phys: Word, flags: Word, w: nat)
    requires phys % PAGE_SIZE == 0 && phys / PAGE_SIZE < MAX_FRAMES && Base(flags) == 0
    ensures LeafResult(LeafEntry(phys, flags), w) ==
            Some(Leaf(phys + w % PAGE_SIZE, Has(flags, USER), Has(flags, WRITABLE), Has(flags, NO_EXECUTE)))
  {
    hide And, Or;
    LeafEntryMeaning(phys, flags);
    BaseOfAddress(phys);
    OffsetMeaning(LeafEntry(phys, flags), w);
  }

  /** A map or unmap in one space is felt in another space at most inside a
      shared PML4 slot 0. */
  lemma OtherSpacesUntouched(m: Memory, m': Memory, lv: Levels, r: nat, v: nat, e: nat, s: nat, w: nat)
    requires PageSet(m, m', lv, r, v, e) && s in lv && lv[s] == 4 && s != r
    requires Index(w, 4) != 0 || Child(m', r, 0) != Child(m', s, 0)
    ensures Walk(m', s, 4, w) == Walk(m, s, 4, w)
  {
    hide Walk, LeafResult;
    PageNumberMeaning(w, v);
    if PageNumber(w) == PageNumber(v) {
      assert Index(w, 4) == Index(v, 4);
    }
  }

  /** In a closed space the page gets exactly the rights of its last-level entry
      and no other page's effective rights change. */
  lemma MapRights(m: Memory, lv: Levels, m': Memory, lv': Levels, b: Boot, r: nat, v: nat, e: nat, w: nat)
    requires TablesValid(m, lv, b) && TablesValid(m', lv', b) && TablesGrew(lv, lv') && r in lv && lv[r] == 4
    requires UserClosed(m, r) && PageSet(m, m', lv, r, v, e) && RightsKept(m, m', lv, r, v)
    ensures Effective(m', r, w) == if PageNumber(w) == PageNumber(v) then LeafResult(e, w) else Effective(m, r, w)
  {
    hide Walk, UserPath, LeafResult, BootOk, SeesBoot;
    ClosedSpaceRights(m, lv, r, w);
    ClosedSpaceRights(m', lv', r, w);
  }

  /** The exact effect of a map in space `r` on the rights of every page of every
      space.  The page itself is user-accessible in `r` as its entry says, and in a
      space that shares it if that space's own PML4 entry lets user code in.  Any
      other page keeps its address and its own rights, and user code reaches it
      exactly if the pointers still closed on the way to it were opened. */
  lemma MapEffect(m: Memory, lv: Levels, m': Memory, lv': Levels, b: Boot, r: nat, v: nat, e: nat, s: nat, w: nat)
    requires TablesValid(m, lv, b) && TablesValid(m', lv', b) && TablesGrew(lv, lv')
    requires r in lv && lv[r] == 4 && s in lv && lv[s] == 4
    requires PageSet(m, m', lv, r, v, e) && Opened(m, lv, m', r, v, Has(e, USER))
    requires Has(e, USER) ==> UserPath(m', r, 4, v)
    ensures Effective(m', s, w) ==
            if PageNumber(w) == PageNumber(v) && Shares(m', r, s, v)
            then WithUser(LeafResult(e, w), s == r || Has(Entry(m, s, 0), USER))
            else WithUser(Walk(m, s, 4, w), if Has(e, USER) then UserPathWith(m, s, 4, w, r, v)
                else UserPath(m, s, 4, w))
  {
    hide Walk, UserPath, WritablePath, ExecutablePath, UserPathWith, Has, Base, BootOk, SeesBoot, Index, PageNumber;
    ClosedSpaceRights(m', lv', s, w);
    if PageNumber(w) == PageNumber(v) && Shares(m', r, s, v) {
      SharedPath(m, lv, m', r, v, Has(e, USER), s, w);
    } else if Walk(m, s, 4, w).Some? {
      UserPathAfterMap(m, lv, m', r, v, Has(e, USER), s, w);
    }
  }

  /** A look-up result seen by user code if its pointers allow that. */
  function WithUser(l: Option<Leaf>, open: bool): Option<Leaf>
  {
    match l
    case None => None
    case Some(leaf) => Some(leaf.(user := leaf.user && open))
  }

  lemma SharedPath(m: Memory, lv: Levels, m': Memory, r: nat, v: nat, user: bool, s: nat, w: nat)
    requires Opened(m, lv, m', r, v, user) && r in lv && lv[r] == 4 && s in lv && lv[s] == 4
    requires PageNumber(w) == PageNumber(v) && Shares(m', r, s, v) && (user ==> UserPath(m', r, 4, v))
    ensures user ==> (UserPath(m', s, 4, w) <==> s == r || Has(Entry(m, s, 0), USER))
  {
    hide Index, PageNumber, Has, Base;
    PageNumberMeaning(w, v);
    if user {
      UserPathReadsIndices(m', r, 4, v, w);
      if s != r {
        assert Index(w, 4) == 0;
        assert !OnWay(m, r, v, s, 4, 0);
        assert Entry(m', s, 0) == Entry(m, s, 0);
        assert UserPath(m', Child(m', r, 0), 3, w);
      }
    }
  }

  /** Whom a user map can let in: only pages below the same PML4 entry of the same
      space, or below the shared slot 0 of a space that shares it. */
  lemma RightsGained(m: Memory, lv: Levels, m': Memory, lv': Levels, b: Boot, r: nat, v: nat, e: nat, s: nat, w: nat)
    requires TablesValid(m, lv, b) && TablesValid(m', lv', b) && TablesGrew(lv, lv')
    requires r in lv && lv[r] == 4 && s in lv && lv[s] == 4
    requires PageSet(m, m', lv, r, v, e) && Opened(m, lv, m', r, v, Has(e, USER))
    requires Has(e, USER) ==> UserPath(m', r, 4, v)
    requires !(PageNumber(w) == PageNumber(v) && Shares(m', r, s, v)) && Effective(m', s, w) != Effective(m, s, w)
    ensures Has(e, USER) && Index(w, 4) == Index(v, 4) && Shares(m, r, s, v)
    ensures Effective(m, s, w) == WithUser(Walk(m, s, 4, w), false) && Effective(m', s, w) == Walk(m, s, 4, w)
  {
    hide Walk, UserPath, WritablePath, ExecutablePath, UserPathWith, Has, Base, BootOk, SeesBoot, Index, PageNumber,
      Opened, PageSet, Shares, OneParent, LinksDescend, Effective;
    MapEffect(m, lv, m', lv', b, r, v, e, s, w);
    ClosedSpaceRights(m, lv, s, w);
    if UserPath(m, s, 4, w) { UserPathIsWith(m, s, 4, w, r, v); }
    if UserPathWith(m, s, 4, w, r, v) && !UserPath(m, s, 4, w) { OpenedBelowOneSlot(m, lv, s, w, r, v); }
  }

  /** When the PML4 entry alone keeps user code out of a user leaf, as for a program
      page seen through a copied slot 0, any user map below that entry lets it in. */
  lemma UserMapOpensSlot(m: Memory, lv: Levels, m': Memory, lv': Levels, b: Boot, r: nat, v: nat, e: nat, w: nat)
    requires TablesValid(m, lv, b) && TablesValid(m', lv', b) && TablesGrew(lv, lv') && r in lv && lv[r] == 4
    requires PageSet(m, m', lv, r, v, e) && Opened(m, lv, m', r, v, true) && Has(e, USER) && UserPath(m', r, 4, v)
    requires PageNumber(w) != PageNumber(v) && Index(w, 4) == Index(v, 4) && Link(m, r, 4, Index(w, 4))
    requires !Has(Entry(m, r, Index(w, 4)), USER) && UserPath(m, Child(m, r, Index(w, 4)), 3, w)
    requires Walk(m, r, 4, w).Some? && Walk(m, r, 4, w).value.user
    ensures !Effective(m, r, w).value.user && Effective(m', r, w) == Walk(m, r, 4, w)
  {
    hide Walk, UserPath, WritablePath, ExecutablePath, UserPathWith, Has, Base, BootOk, SeesBoot, Index, PageNumber,
      Opened, PageSet, Shares, OneParent, LinksDescend;
    MapEffect(m, lv, m', lv', b, r, v, e, r, w);
    SlotOpens(m, r, w, v);
    ClosedSpaceRights(m, lv, r, w);
  }

  /** No user code can reach the first GiB, in any space that sees the boot map. */
  lemma KernelStaysSupervisor(m: Memory, lv: Levels, b: Boot, r: nat, v: nat)
    requires TablesValid(m, lv, b) && SeesBoot(m, lv, b, r) && v < GIB
    ensures Walk(m, r, 4, v) == Some(Leaf(v, false, true, false))
    ensures Effective(m, r, v) == Some(Leaf(v, false, true, false))
  {
    IdentityMapped(m, lv, b, r, v);
    LinksGrantPath(m, lv, r, v);
  }

  /** Above the first GiB a map can fail only for lack of frames, and then the
      page was not mapped before either. */
  lemma FailureMeansUnmapped(m: Memory, lv: Levels, b: Boot, free: set<nat>, r: nat, v: nat)
    requires TablesValid(m, lv, b) && r in lv && lv[r] == 4 && !Mappable(m, free, r, v)
    requires Index(v, 4) != 0 || Index(v, 3) != 0
    ensures Missing(m, r, 4, v) > |free| && Walk(m, r, 4, v) == None
  {
    hide Index;
    NoHugeAbove(m, lv, b, r, v);
    NothingMissing(m, lv, r, v);
    UnreachedIsUnmapped(m, lv, r, v);
  }

  lemma {:induction false} WalkReadsPage(m: Memory, f: nat, level: nat, v: nat, w: nat)
    requires 1 <= level <= 4 && SameIndices(v, w, level)
    ensures Walk(m, f, level, v).None? <==> Walk(m, f, level, w).None?
    decreases level
  {
    assert Index(v, level) == Index(w, level);
    if level == 1 || !InRam(m, f) || !Link(m, f, level, Index(v, level)) {
    } else {
      WalkReadsPage(m, Child(m, f, Index(v, level)), level - 1, v, w);
    }
  }

  /** Rewriting frames that are neither tables nor bitmap disturbs nothing. */
  lemma DataKeepsValid(m: Memory, m': Memory, lv: Levels, b: Boot, bitmap: nat, total: nat, frames: set<int>)
    requires TablesValid(m, lv, b) && SameOutside(m, m', frames) && lv.Keys !! frames
    requires Fits(|m|, bitmap, total) && frames !! FramesTouching(bitmap, bitmap + BitmapBytes(total))
    ensures TablesValid(m', lv, b) && SameLookups(m, m', lv) && BootSeen(m, lv, m', lv, b)
    ensures FreeSet(m', bitmap, total) == FreeSet(m, bitmap, total)
  {
    hide FreeSet;
    BitmapKeepsValid(m, m', lv, b, frames);
    FreeSetReadsBitmap(m, m', bitmap, total, frames);
  }
}
