/** 64-bit page-table entries: the flag bits and the address field of
    kernel_os/include/vmm.h, and what the expressions that build entries mean. */
module PageEntry {
  import opened Bits

  const WORD_LIMIT: nat := 0x1_0000_0000_0000_0000
  type Word = x: nat | x < WORD_LIMIT

  const PRESENT: nat := 0x1
  const WRITABLE: nat := 0x2
  const USER: nat := 0x4
  const HUGE: nat := 0x80
  const NO_EXECUTE: nat := 0x8000_0000_0000_0000
  const ADDRESS_MASK: nat := 0x000F_FFFF_FFFF_F000

  const PAGE_SIZE: nat := 0x1000
  /** Physical addresses have at most 52 bits, so there are at most 2^40 frames. */
  const MAX_FRAMES: nat := 0x100_0000_0000

  predicate Has(e: nat, flag: nat)
  {
    And(e, flag) != 0
  }

  /** The physical address stored in an entry. */
  function Base(e: nat): nat
  {
    And(e, ADDRESS_MASK)
  }

  /** The frame that address lies in. */
  function Target(e: nat): nat
  {
    Base(e) / PAGE_SIZE
  }

  /** The entry get_or_create_table stores for a new table. */
  function TableEntry(phys: nat, flags: nat): nat
  {
    Or(Or(Or(And(phys, ADDRESS_MASK), PRESENT), WRITABLE), And(flags, USER))
  }

  /** The entry vmm_map_page stores at the last level. */
  function LeafEntry(phys: nat, flags: nat): nat
  {
    Or(Or(And(phys, ADDRESS_MASK), flags), PRESENT)
  }

  /** The base address that LeafEntry(phys, flags) really carries. */
  function LeafBase(phys: nat, flags: nat): nat
  {
    Or(Base(phys), Base(flags))
  }

  lemma BaseMeaning(e: nat)
    ensures Base(e) == PAGE_SIZE * (e / PAGE_SIZE % MAX_FRAMES)
    ensures Target(e) == e / PAGE_SIZE % MAX_FRAMES
  {
    hide And, Or;
    var ones := Pow2(40) - 1;
    ShiftedMask(e, ones, 12);
    ShiftByTwelve(e);
    ShiftByTwelve(ones);
    ShiftByTwelve(And(e / PAGE_SIZE, ones));
    LowMask(e / PAGE_SIZE, 40);
    PowerConstants();
  }

  /** An aligned 52-bit address survives the mask. */
  lemma BaseOfAddress(phys: nat)
    requires phys % PAGE_SIZE == 0 && phys / PAGE_SIZE < MAX_FRAMES
    ensures Base(phys) == phys
  {
    hide And, Or;
    BaseMeaning(phys);
  }

  /** OR-ing an in-page offset onto a base address adds it. */
  lemma OffsetMeaning(e: nat, v: nat)
    ensures Or(Base(e), And(v, 0xFFF)) == Base(e) + v % PAGE_SIZE
  {
    hide And, Or;
    BaseMeaning(e);
    PowerConstants();
    LowMask(v, 12);
    OrIsSum(Base(e), v % PAGE_SIZE, 12);
  }

  lemma MergeFlag(a: nat, b: nat, flag: nat)
    ensures Has(Or(a, b), flag) <==> Has(a, flag) || Has(b, flag)
  {
    hide And, Or;
    AndDistributes(a, b, flag);
    OrIsZero(And(a, flag), And(b, flag));
  }

  lemma MergeBase(a: nat, b: nat)
    ensures Base(Or(a, b)) == Or(Base(a), Base(b))
  {
    hide And, Or;
    AndDistributes(a, b, ADDRESS_MASK);
  }

  lemma FlagConstants()
    ensures And(ADDRESS_MASK, PRESENT) == And(ADDRESS_MASK, WRITABLE) == 0
    ensures And(ADDRESS_MASK, USER) == And(ADDRESS_MASK, HUGE) == 0
    ensures And(USER, USER) == USER && And(PRESENT, PRESENT) == PRESENT && And(WRITABLE, WRITABLE) == WRITABLE
    ensures And(PRESENT, USER) == And(PRESENT, WRITABLE) == And(PRESENT, HUGE) == 0
    ensures And(WRITABLE, USER) == And(WRITABLE, HUGE) == And(WRITABLE, PRESENT) == 0
    ensures And(USER, PRESENT) == And(USER, WRITABLE) == And(USER, HUGE) == 0
    ensures And(USER, ADDRESS_MASK) == And(PRESENT, ADDRESS_MASK) == And(WRITABLE, ADDRESS_MASK) == 0
  {
  }

  lemma NoExecuteConstants()
    ensures And(ADDRESS_MASK, NO_EXECUTE) == And(PRESENT, NO_EXECUTE) == And(WRITABLE, NO_EXECUTE) == 0
    ensures And(USER, NO_EXECUTE) == 0
  {
    hide And;
    PowerConstants();
    assert Pow2(64) == 2 * Pow2(63);
    AndAbove(ADDRESS_MASK, 63);
    AndAbove(PRESENT, 63);
    AndAbove(WRITABLE, 63);
    AndAbove(USER, 63);
  }

  lemma AddressHasNoFlags(x: nat, flag: nat)
    requires flag in {PRESENT, WRITABLE, USER, HUGE, NO_EXECUTE}
    ensures !Has(Base(x), flag)
    ensures Base(Base(x)) == Base(x)
  {
    hide And, Or;
    FlagConstants();
    NoExecuteConstants();
    AndAssociates(x, ADDRESS_MASK, flag);
    AndAssociates(x, ADDRESS_MASK, ADDRESS_MASK);
    AndIdempotent(ADDRESS_MASK);
  }

  lemma TableEntryMeaning(phys: Word, flags: Word)
    requires phys % PAGE_SIZE == 0 && phys / PAGE_SIZE < MAX_FRAMES
    ensures var e := TableEntry(phys, flags);
            && Has(e, PRESENT) && Has(e, WRITABLE) && !Has(e, HUGE) && !Has(e, NO_EXECUTE)
            && (Has(e, USER) <==> Has(flags, USER))
            && Base(e) == phys
  {
    hide And, Or;
    var a, f := And(phys, ADDRESS_MASK), And(flags, USER);
    forall flag | flag in {PRESENT, WRITABLE, USER, HUGE, NO_EXECUTE}
      ensures Has(TableEntry(phys, flags), flag) <==>
              Has(PRESENT, flag) || Has(WRITABLE, flag) || Has(f, flag)
    {
      MergeFlag(Or(Or(a, PRESENT), WRITABLE), f, flag);
      MergeFlag(Or(a, PRESENT), WRITABLE, flag);
      MergeFlag(a, PRESENT, flag);
      AddressHasNoFlags(phys, flag);
    }
    FlagConstants();
    NoExecuteConstants();
    AndAssociates(flags, USER, NO_EXECUTE);
    AndAssociates(flags, USER, PRESENT);
    AndAssociates(flags, USER, WRITABLE);
    AndAssociates(flags, USER, HUGE);
    AndAssociates(flags, USER, USER);
    AndAssociates(flags, USER, ADDRESS_MASK);
    MergeBase(Or(Or(a, PRESENT), WRITABLE), f);
    MergeBase(Or(a, PRESENT), WRITABLE);
    MergeBase(a, PRESENT);
    AddressHasNoFlags(phys, PRESENT);
    BaseOfAddress(phys);
  }

  /** Setting the user bit of an entry changes nothing else that is read. */
  lemma AddUserMeaning(e: Word)
    ensures var e' := Or(e, USER);
            && Has(e', USER) && Base(e') == Base(e)
            && (forall flag | flag in {PRESENT, WRITABLE, HUGE, NO_EXECUTE} :: Has(e', flag) <==> Has(e, flag))
  {
    hide And, Or;
    NoExecuteConstants();
    forall flag | flag in {PRESENT, WRITABLE, USER, HUGE, NO_EXECUTE}
      ensures Has(Or(e, USER), flag) <==> Has(e, flag) || Has(USER, flag)
    {
      MergeFlag(e, USER, flag);
    }
    FlagConstants();
    MergeBase(e, USER);
  }

  /** The leaf that vmm_map_page writes is present and has exactly the other bits of
      its flags, whatever field of them is looked at, the no-execute bit among them;
      its address is that of `phys` alone when the flags have no address bits. */
  lemma LeafEntryMeaning(phys: Word, flags: Word)
    ensures var e := LeafEntry(phys, flags);
            && Has(e, PRESENT)
            && (Has(e, USER) <==> Has(flags, USER))
            && (Has(e, WRITABLE) <==> Has(flags, WRITABLE))
            && (Has(e, NO_EXECUTE) <==> Has(flags, NO_EXECUTE))
            && SameFlags(e, flags)
            && Base(e) == LeafBase(phys, flags)
            && (Base(flags) == 0 ==> Base(e) == Base(phys))
  {
    hide And, Or;
    var a := And(phys, ADDRESS_MASK);
    NoExecuteConstants();
    LeafFlags(phys, flags);
    forall flag | flag in {PRESENT, WRITABLE, USER, NO_EXECUTE}
      ensures Has(LeafEntry(phys, flags), flag) <==> Has(flags, flag) || Has(PRESENT, flag)
    {
      MergeFlag(Or(a, flags), PRESENT, flag);
      MergeFlag(a, flags, flag);
      AddressHasNoFlags(phys, flag);
    }
    FlagConstants();
    MergeBase(Or(a, flags), PRESENT);
    MergeBase(a, flags);
    AddressHasNoFlags(phys, PRESENT);
  }

  /** An entry for a table sets no further bit, and adding the user bit no other one. */
  lemma TableEntryPlain(phys: Word, flags: Word, e: Word, x: nat)
    requires And(x, USER) == 0
    ensures And(Or(e, USER), x) == And(e, x)
    ensures And(x, ADDRESS_MASK) == And(x, PRESENT) == And(x, WRITABLE) == 0 ==> And(TableEntry(phys, flags), x) == 0
  {
    hide And, Or;
    var a, f := And(phys, ADDRESS_MASK), And(flags, USER);
    AndDistributes(e, USER, x);
    AndDistributes(Or(Or(a, PRESENT), WRITABLE), f, x);
    AndDistributes(Or(a, PRESENT), WRITABLE, x);
    AndDistributes(a, PRESENT, x);
    AndAssociates(phys, ADDRESS_MASK, x);
    AndAssociates(flags, USER, x);
    forall field | field in {ADDRESS_MASK, PRESENT, WRITABLE, USER}
      ensures And(field, x) == And(x, field)
    {
      AndCommutes(field, x);
    }
  }

  /** Outside the address field and the present bit the entry is that of the flags. */
  ghost predicate SameFlags(e: nat, flags: nat)
  {
    forall x: nat :: And(x, ADDRESS_MASK) == 0 && And(x, PRESENT) == 0 ==> And(e, x) == And(flags, x)
  }

  lemma LeafFlags(phys: Word, flags: Word)
    ensures SameFlags(LeafEntry(phys, flags), flags)
  {
    hide And, Or;
    var a := And(phys, ADDRESS_MASK);
    forall x: nat | And(x, ADDRESS_MASK) == 0 && And(x, PRESENT) == 0
      ensures And(LeafEntry(phys, flags), x) == And(flags, x)
    {
      AndDistributes(Or(a, flags), PRESENT, x);
      AndDistributes(a, flags, x);
      AndAssociates(phys, ADDRESS_MASK, x);
      AndCommutes(x, ADDRESS_MASK);
      AndCommutes(x, PRESENT);
    }
  }

  lemma EntriesAreWords(phys: Word, flags: Word, e: Word)
    ensures TableEntry(phys, flags) < WORD_LIMIT
    ensures LeafEntry(phys, flags) < WORD_LIMIT
    ensures Or(e, USER) < WORD_LIMIT
  {
    hide And, Or;
    PowerConstants();
    AndBound(phys, ADDRESS_MASK);
    AndBound(flags, USER);
    var a := And(phys, ADDRESS_MASK);
    OrBound(a, PRESENT, 64);
    OrBound(Or(a, PRESENT), WRITABLE, 64);
    OrBound(Or(Or(a, PRESENT), WRITABLE), And(flags, USER), 64);
    OrBound(a, flags, 64);
    OrBound(Or(a, flags), PRESENT, 64);
    OrBound(e, USER, 64);
  }
}
