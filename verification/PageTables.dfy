/** Four-level page tables in physical memory (kernel_os/src/vmm.cpp; Intel SDM
    Vol. 3A section 4.5) as a partial map from virtual pages to leaves, and what
    each kind of entry update does to that map. */
module PageTables {
  import opened Wrappers
  import opened Bits
  import opened PageEntry
  import opened Ram

  const ENTRIES: nat := 512

  /** split_vaddr: the index of `v` into the table at `level` (4 is the PML4). */
  function Index(v: nat, level: nat): (i: nat)
    requires 1 <= level <= 4
    ensures i < ENTRIES
  {
    if level == 4 then v / 0x80_0000_0000 % 512
    else if level == 3 then v / 0x4000_0000 % 512
    else if level == 2 then v / 0x20_0000 % 512
    else v / 0x1000 % 512
  }

  /** The 36-bit virtual page number: the four indices side by side. */
  function PageNumber(v: nat): nat
  {
    v / 0x1000 % 0x10_0000_0000
  }

  ghost predicate SameIndices(v: nat, w: nat, level: nat)
    requires level <= 4
  {
    forall k :: 1 <= k <= level ==> Index(v, k) == Index(w, k)
  }

  lemma PageNumberMeaning(v: nat, w: nat)
    ensures PageNumber(v) == PageNumber(w) <==> SameIndices(v, w, 4)
  {
    hide Index, PageNumber;
    PageNumberParts(v);
    PageNumberParts(w);
    DigitsUnique(Index(v, 4), Index(v, 3), Index(v, 2), Index(v, 1), Index(w, 4), Index(w, 3), Index(w, 2), Index(w,
        1));
    assert SameIndices(v, w, 4) <==> (Index(v, 4) == Index(w, 4) && Index(v, 3) == Index(w, 3)
                                      && Index(v, 2) == Index(w, 2) && Index(v, 1) == Index(w, 1));
  }

  lemma DigitsUnique(d: nat, c: nat, b: nat, a: nat, d': nat, c': nat, b': nat, a': nat)
    requires d < 512 && c < 512 && b < 512 && a < 512 && d' < 512 && c' < 512 && b' < 512 && a' < 512
    ensures 0x800_0000 * d + 0x4_0000 * c + 0x200 * b + a == 0x800_0000 * d' + 0x4_0000 * c' + 0x200 * b' + a'
       <==> d == d' && c == c' && b == b' && a == a'
  {
  }

  lemma PageNumberParts(v: nat)
    ensures PageNumber(v) ==
      0x800_0000 * Index(v, 4) + 0x4_0000 * Index(v, 3) + 0x200 * Index(v, 2) + Index(v, 1)
  {
    var a := v / 0x1000;
    var b, c, d := a / 512, a / 512 / 512, a / 512 / 512 / 512;
    assert v / 0x20_0000 == b;
    assert v / 0x4000_0000 == c;
    assert v / 0x80_0000_0000 == d;
    Digits(a, b, c, d);
  }

  lemma Digits(a: nat, b: nat, c: nat, d: nat)
    requires b == a / 512 && c == b / 512 && d == c / 512
    ensures a % 0x10_0000_0000 == 0x800_0000 * (d % 512) + 0x4_0000 * (c % 512) + 0x200 * (b % 512) + a % 512
  {
    var n := 0x800_0000 * (d % 512) + 0x4_0000 * (c % 512) + 0x200 * (b % 512) + a % 512;
    assert c == 512 * d + c % 512 && d == 512 * (d / 512) + d % 512;
    assert b == 512 * c + b % 512 && a == 512 * b + a % 512;
    assert a == 0x10_0000_0000 * (d / 512) + n && n < 0x10_0000_0000;
    Remainder(a, d / 512, n);
  }

  lemma Remainder(a: nat, q: nat, n: nat)
    requires a == 0x10_0000_0000 * q + n && n < 0x10_0000_0000
    ensures a % 0x10_0000_0000 == n
  {
  }

  predicate InRam(m: Memory, f: nat)
  {
    WORDS_PER_FRAME * f + WORDS_PER_FRAME <= |m|
  }

  function Entry(m: Memory, f: nat, i: nat): Word
    requires InRam(m, f) && i < ENTRIES
  {
    m[WORDS_PER_FRAME * f + i]
  }

  /** What a translation finds: the physical address and the leaf's own rights. */
  datatype Leaf = Leaf(address: nat, user: bool, writable: bool, noExecute: bool)

  function LeafOf(e: nat, offset: nat): Leaf
  {
    Leaf(Or(Base(e), offset), Has(e, USER), Has(e, WRITABLE), Has(e, NO_EXECUTE))
  }

  /** The offset a leaf at `level` leaves to the virtual address. */
  function OffsetIn(v: nat, level: nat): nat
  {
    if level == 1 then And(v, 0xFFF)
    else if level == 2 then And(v, 0x1F_FFFF)
    else And(v, 0x3FFF_FFFF)
  }

  /** The look-up of vmm_translate, from the table `f` at `level` downwards.  A
      huge entry is a leaf at levels 3 and 2 and an error at level 4. */
  function Walk(m: Memory, f: nat, level: nat, v: nat): Option<Leaf>
    requires 1 <= level <= 4
    decreases level
  {
    if !InRam(m, f) then None
    else
      var e := Entry(m, f, Index(v, level));
      if !Has(e, PRESENT) then None
      else if level == 1 then Some(LeafOf(e, OffsetIn(v, 1)))
      else if !Has(e, HUGE) then Walk(m, Target(e), level - 1, v)
      else if level == 4 then None
      else Some(LeafOf(e, OffsetIn(v, level)))
  }

  /** A leaf maps 4 KiB, 2 MiB or 1 GiB; the offset is what that size leaves over. */
  lemma OffsetInMeaning(v: nat)
    ensures OffsetIn(v, 1) == v % 0x1000 && OffsetIn(v, 2) == v % 0x20_0000 && OffsetIn(v, 3) == v % 0x4000_0000
  {
    hide And;
    PowerConstants();
    assert Pow2(16) == 0x1_0000;
    assert Pow2(20) == 0x10_0000 && Pow2(24) == 0x100_0000;
    assert Pow2(21) == 0x20_0000 && Pow2(28) == 0x1000_0000 && Pow2(30) == 0x4000_0000;
    LowMask(v, 12);
    LowMask(v, 21);
    LowMask(v, 30);
  }

  /** Entry `i` of table `f` at `level` points to a lower table. */
  predicate Link(m: Memory, f: nat, level: nat, i: nat)
    requires InRam(m, f) && i < ENTRIES
  {
    level >= 2 && Has(Entry(m, f, i), PRESENT) && !Has(Entry(m, f, i), HUGE)
  }

  function Child(m: Memory, f: nat, i: nat): nat
    requires InRam(m, f) && i < ENTRIES
  {
    Target(Entry(m, f, i))
  }

  /** The table at level `k` on the way from table `f` at `level` to `v`. */
  function Reach(m: Memory, f: nat, level: nat, v: nat, k: nat): Option<nat>
    requires 1 <= k <= level <= 4
    decreases level
  {
    if level == k then Some(f)
    else if InRam(m, f) && Link(m, f, level, Index(v, level))
    then Reach(m, Child(m, f, Index(v, level)), level - 1, v, k)
    else None
  }

  /** Every pointer on the way to `v` has the user bit. */
  predicate UserPath(m: Memory, f: nat, level: nat, v: nat)
    requires 1 <= level <= 4
    decreases level
  {
    InRam(m, f) && Link(m, f, level, Index(v, level)) ==>
      && Has(Entry(m, f, Index(v, level)), USER)
      && UserPath(m, Child(m, f, Index(v, level)), level - 1, v)
  }

  predicate WritablePath(m: Memory, f: nat, level: nat, v: nat)
    requires 1 <= level <= 4
    decreases level
  {
    InRam(m, f) && Link(m, f, level, Index(v, level)) ==>
      && Has(Entry(m, f, Index(v, level)), WRITABLE)
      && WritablePath(m, Child(m, f, Index(v, level)), level - 1, v)
  }

  predicate ExecutablePath(m: Memory, f: nat, level: nat, v: nat)
    requires 1 <= level <= 4
    decreases level
  {
    InRam(m, f) && Link(m, f, level, Index(v, level)) ==>
      && !Has(Entry(m, f, Index(v, level)), NO_EXECUTE)
      && ExecutablePath(m, Child(m, f, Index(v, level)), level - 1, v)
  }

  // The invariant

  /** Which frames hold tables, and at which level. */
  type Levels = map<nat, nat>

  ghost predicate TablesInRam(m: Memory, lv: Levels)
  {
    forall f :: f in lv ==> 1 <= lv[f] <= 4 && InRam(m, f)
  }

  ghost predicate IsLink(m: Memory, lv: Levels, f: nat, i: nat)
    requires TablesInRam(m, lv)
  {
    f in lv && i < ENTRIES && Link(m, f, lv[f], i)
  }

  /** Pointers lead one level down, to a table. */
  ghost predicate LinksDescend(m: Memory, lv: Levels)
    requires TablesInRam(m, lv)
  {
    forall f, i :: IsLink(m, lv, f, i) ==>
      Child(m, f, i) in lv && lv[Child(m, f, i)] == lv[f] - 1
  }

  /** Two pointers to one table are the same pointer, or both are slot 0 of a PML4. */
  ghost predicate OneParent(m: Memory, lv: Levels)
    requires TablesInRam(m, lv)
  {
    forall f, i, g, j :: IsLink(m, lv, f, i) && IsLink(m, lv, g, j) && Child(m, f, i) == Child(m, g, j) ==>
      (f == g && i == j) || (lv[f] == 4 && lv[g] == 4 && i == 0 && j == 0)
  }

  ghost predicate Tree(m: Memory, lv: Levels)
  {
    TablesInRam(m, lv) && LinksDescend(m, lv) && OneParent(m, lv)
  }

  /** Every pointer between tables grants write access and execution. */
  ghost predicate LinksGrant(m: Memory, lv: Levels)
    requires TablesInRam(m, lv)
  {
    forall f, i :: IsLink(m, lv, f, i) ==> Has(Entry(m, f, i), WRITABLE) && !Has(Entry(m, f, i), NO_EXECUTE)
  }

  // Locality: what a look-up reads

  /** The tables of `lv` hold the same entries in both memories. */
  ghost predicate SameTables(m: Memory, m': Memory, lv: Levels)
    requires TablesInRam(m, lv)
  {
    |m'| == |m| && forall f, i :: f in lv && i < ENTRIES && 0 <= i ==> Entry(m', f, i) == Entry(m, f, i)
  }

  lemma EntriesOutside(m: Memory, m': Memory, frames: set<int>, f: nat)
    requires SameOutside(m, m', frames) && f !in frames && InRam(m, f)
    ensures forall i: nat :: i < ENTRIES ==> Entry(m', f, i) == Entry(m, f, i)
  {
    forall i: nat | i < ENTRIES
      ensures Entry(m', f, i) == Entry(m, f, i)
    {
      assert (WORDS_PER_FRAME * f + i) / WORDS_PER_FRAME == f;
    }
  }

  /** A change outside the table frames is invisible to every look-up. */
  lemma TablesOutside(m: Memory, m': Memory, lv: Levels, frames: set<int>)
    requires TablesInRam(m, lv) && SameOutside(m, m', frames) && forall f :: f in lv ==> f !in frames
    ensures SameTables(m, m', lv)
  {
    forall f | f in lv
      ensures forall i: nat :: i < ENTRIES ==> Entry(m', f, i) == Entry(m, f, i)
    {
      EntriesOutside(m, m', frames, f);
    }
  }

  lemma {:induction false} WalkReadsTables(m: Memory, m': Memory, lv: Levels, f: nat, v: nat)
    requires Tree(m, lv) && f in lv && SameTables(m, m', lv)
    ensures Walk(m', f, lv[f], v) == Walk(m, f, lv[f], v)
    ensures UserPath(m', f, lv[f], v) == UserPath(m, f, lv[f], v)
    decreases lv[f]
  {
    var i := Index(v, lv[f]);
    assert Entry(m', f, i) == Entry(m, f, i);
    if !Link(m, f, lv[f], i) {
    } else {
      assert IsLink(m, lv, f, i);
      WalkReadsTables(m, m', lv, Child(m, f, i), v);
    }
  }

  lemma TreeReadsTables(m: Memory, m': Memory, lv: Levels)
    requires Tree(m, lv) && SameTables(m, m', lv)
    ensures Tree(m', lv)
    ensures LinksGrant(m, lv) ==> LinksGrant(m', lv)
  {
    forall f, i | f in lv && 0 <= i < ENTRIES
      ensures IsLink(m', lv, f, i) == IsLink(m, lv, f, i)
      ensures Entry(m', f, i) == Entry(m, f, i)
    {
    }
  }

  /** The way to a table depends on the address only through its indices. */
  lemma {:induction false} ReachReadsIndices(m: Memory, f: nat, level: nat, v: nat, w: nat, k: nat)
    requires 1 <= k <= level <= 4 && SameIndices(v, w, level)
    ensures Reach(m, f, level, v, k) == Reach(m, f, level, w, k)
    decreases level
  {
    assert Index(v, level) == Index(w, level);
    if k == level || !InRam(m, f) || !Link(m, f, level, Index(v, level)) {
    } else {
      ReachReadsIndices(m, Child(m, f, Index(v, level)), level - 1, v, w, k);
    }
  }

  /** A table that is reached is a table of the right level. */
  lemma {:induction false} ReachStaysInTables(m: Memory, lv: Levels, f: nat, v: nat, k: nat)
    requires Tree(m, lv) && f in lv && 1 <= k <= lv[f]
    ensures var t := Reach(m, f, lv[f], v, k); t.Some? ==> t.value in lv && lv[t.value] == k
    decreases lv[f]
  {
    var i := Index(v, lv[f]);
    if k == lv[f] || !Link(m, f, lv[f], i) {
    } else {
      assert IsLink(m, lv, f, i);
      ReachStaysInTables(m, lv, Child(m, f, i), v, k);
    }
  }

  /** The last step to a table below `f` goes through a pointer one level up. */
  lemma {:induction false} ReachParent(m: Memory, f: nat, level: nat, v: nat, k: nat)
    requires 1 <= k < level <= 4 && Reach(m, f, level, v, k).Some?
    ensures var p := Reach(m, f, level, v, k + 1);
            && p.Some? && InRam(m, p.value) && Link(m, p.value, k + 1, Index(v, k + 1))
            && Child(m, p.value, Index(v, k + 1)) == Reach(m, f, level, v, k).value
    decreases level
  {
    if k + 1 == level {
    } else {
      ReachParent(m, Child(m, f, Index(v, level)), level - 1, v, k);
    }
  }

  /** Two look-ups that meet in one table below the top took the same turns, and
      started in the same space or through a shared slot 0. */
  lemma {:induction false} MeetingPaths(m: Memory, lv: Levels, r: nat, v: nat, s: nat, w: nat, k: nat)
    requires Tree(m, lv) && r in lv && s in lv && lv[r] == 4 && lv[s] == 4 && 1 <= k < 4
    requires Reach(m, r, 4, v, k).Some? && Reach(m, s, 4, w, k) == Reach(m, r, 4, v, k)
    ensures forall j :: k < j <= 4 ==> Index(v, j) == Index(w, j)
    ensures r == s || (Index(v, 4) == 0 && Child(m, r, 0) == Child(m, s, 0))
    decreases 4 - k
  {
    hide Index;
    ReachParent(m, r, 4, v, k);
    ReachParent(m, s, 4, w, k);
    ReachStaysInTables(m, lv, r, v, k + 1);
    ReachStaysInTables(m, lv, s, w, k + 1);
    var p, q := Reach(m, r, 4, v, k + 1).value, Reach(m, s, 4, w, k + 1).value;
    assert IsLink(m, lv, p, Index(v, k + 1)) && IsLink(m, lv, q, Index(w, k + 1));
    if k + 1 == 4 {
    } else {
      assert p == q;
      MeetingPaths(m, lv, r, v, s, w, k + 1);
    }
  }

  // Growing: the changes get_or_create_table makes

  /** The tables of `lv` are still there, their pointers still lead to the same
      tables with at least the rights they had, their huge leaves are untouched,
      and no look-up in any of them has a different result. */
  ghost predicate Grown(m: Memory, lv: Levels, m': Memory, lv': Levels)
  {
    && |m'| == |m| && TablesInRam(m, lv) && TablesInRam(m', lv')
    && (forall f :: f in lv ==> f in lv' && lv'[f] == lv[f])
    && LinksKept(m, lv, m', lv')
    && HugeKept(m, lv, m') && NoNewHuge(m, lv, m', lv')
    && (forall f, v :: f in lv ==> Walk(m', f, lv[f], v) == Walk(m, f, lv[f], v))
  }

  ghost predicate NoNewHuge(m: Memory, lv: Levels, m': Memory, lv': Levels)
    requires TablesInRam(m, lv) && TablesInRam(m', lv')
  {
    forall f, i: nat :: f in lv' && i < ENTRIES && HugeLeaf(m', f, lv'[f], i) ==> f in lv && HugeLeaf(m, f, lv[f], i)
  }

  ghost predicate LinksKept(m: Memory, lv: Levels, m': Memory, lv': Levels)
    requires TablesInRam(m, lv) && TablesInRam(m', lv')
  {
    forall f, i :: IsLink(m, lv, f, i) ==>
      IsLink(m', lv', f, i) && Child(m', f, i) == Child(m, f, i)
      && (Has(Entry(m, f, i), USER) ==> Has(Entry(m', f, i), USER))
  }

  predicate HugeLeaf(m: Memory, f: nat, level: nat, i: nat)
    requires InRam(m, f) && i < ENTRIES
  {
    level >= 2 && Has(Entry(m, f, i), PRESENT) && Has(Entry(m, f, i), HUGE)
  }

  ghost predicate HugeKept(m: Memory, lv: Levels, m': Memory)
    requires TablesInRam(m, lv) && |m'| == |m|
  {
    forall f, i: nat :: f in lv && i < ENTRIES && HugeLeaf(m, f, lv[f], i) ==> Entry(m', f, i) == Entry(m, f, i)
  }

  lemma GrownTransitive(m: Memory, lv: Levels, m': Memory, lv': Levels, m'': Memory, lv'': Levels)
    requires Grown(m, lv, m', lv') && Grown(m', lv', m'', lv'')
    ensures Grown(m, lv, m'', lv'')
  {
    hide Has, Target;
    forall f, v | f in lv
      ensures Walk(m'', f, lv[f], v) == Walk(m, f, lv[f], v)
    {
      assert Walk(m', f, lv'[f], v) == Walk(m, f, lv[f], v);
    }
    forall f, i | f in lv && 0 <= i < ENTRIES && HugeLeaf(m, f, lv[f], i)
      ensures Entry(m'', f, i) == Entry(m, f, i)
    {
      assert Entry(m', f, i) == Entry(m, f, i);
      assert HugeLeaf(m', f, lv'[f], i);
    }
  }

  lemma {:induction false} GrownReach(m: Memory, lv: Levels, m': Memory, lv': Levels, f: nat, v: nat, k: nat)
    requires Tree(m, lv) && Grown(m, lv, m', lv') && f in lv && 1 <= k <= lv[f]
    ensures Reach(m, f, lv[f], v, k).Some? ==> Reach(m', f, lv[f], v, k) == Reach(m, f, lv[f], v, k)
    decreases lv[f]
  {
    var i := Index(v, lv[f]);
    if k == lv[f] || !Link(m, f, lv[f], i) {
    } else {
      assert IsLink(m, lv, f, i);
      GrownReach(m, lv, m', lv', Child(m, f, i), v, k);
    }
  }

  /** A complete path keeps its user bits. */
  lemma {:induction false} GrownUserPath(m: Memory, lv: Levels, m': Memory, lv': Levels, f: nat, v: nat)
    requires Tree(m, lv) && Grown(m, lv, m', lv') && f in lv
    requires Walk(m, f, lv[f], v).Some? && UserPath(m, f, lv[f], v)
    ensures UserPath(m', f, lv[f], v)
    decreases lv[f]
  {
    var i := Index(v, lv[f]);
    if Link(m, f, lv[f], i) {
      assert IsLink(m, lv, f, i);
      GrownUserPath(m, lv, m', lv', Child(m, f, i), v);
    } else if HugeLeaf(m, f, lv[f], i) {
      assert Entry(m', f, i) == Entry(m, f, i);
    }
  }

  /** Every entry is unchanged, or a pointer that still leads to the same table. */
  ghost predicate SamePointers(m: Memory, m': Memory, lv: Levels)
    requires TablesInRam(m, lv) && |m'| == |m|
  {
    forall f, i: nat :: f in lv && i < ENTRIES ==>
      Entry(m', f, i) == Entry(m, f, i)
      || (Link(m, f, lv[f], i) && Link(m', f, lv[f], i) && Child(m', f, i) == Child(m, f, i)
          && (Has(Entry(m, f, i), USER) ==> Has(Entry(m', f, i), USER))
          && (Has(Entry(m, f, i), WRITABLE) ==> Has(Entry(m', f, i), WRITABLE))
          && (Has(Entry(m', f, i), NO_EXECUTE) ==> Has(Entry(m, f, i), NO_EXECUTE)))
  }

  lemma {:induction false} WalkReadsPointers(m: Memory, m': Memory, lv: Levels, f: nat, v: nat)
    requires Tree(m, lv) && f in lv && |m'| == |m| && SamePointers(m, m', lv)
    ensures Walk(m', f, lv[f], v) == Walk(m, f, lv[f], v)
    decreases lv[f]
  {
    var i := Index(v, lv[f]);
    assert Entry(m', f, i) == Entry(m, f, i) || Link(m, f, lv[f], i);
    if !Link(m, f, lv[f], i) {
    } else {
      assert IsLink(m, lv, f, i);
      WalkReadsPointers(m, m', lv, Child(m, f, i), v);
    }
  }

  lemma GrowPointers(m: Memory, m': Memory, lv: Levels)
    requires Tree(m, lv) && |m'| == |m| && SamePointers(m, m', lv)
    ensures Tree(m', lv) && Grown(m, lv, m', lv)
    ensures LinksGrant(m, lv) ==> LinksGrant(m', lv)
  {
    hide Has, Target;
    forall f, i | f in lv && 0 <= i < ENTRIES
      ensures IsLink(m', lv, f, i) == IsLink(m, lv, f, i)
      ensures IsLink(m, lv, f, i) ==> Child(m', f, i) == Child(m, f, i)
    {
      assert Entry(m', f, i) == Entry(m, f, i) || Link(m, f, lv[f], i);
    }
    forall f, v | f in lv
      ensures Walk(m', f, lv[f], v) == Walk(m, f, lv[f], v)
    {
      WalkReadsPointers(m, m', lv, f, v);
    }
  }

  lemma UserBitKeepsPointers(m: Memory, lv: Levels, t: nat, i: nat)
    requires Tree(m, lv) && t in lv && i < ENTRIES && Link(m, t, lv[t], i)
    requires Or(Entry(m, t, i), USER) < WORD_LIMIT
    ensures SamePointers(m, m[WORDS_PER_FRAME * t + i := Or(Entry(m, t, i), USER)], lv)
  {
    hide Has, Base;
    var m' := m[WORDS_PER_FRAME * t + i := Or(Entry(m, t, i), USER)];
    AddUserMeaning(Entry(m, t, i));
    forall f, j: nat | f in lv && j < ENTRIES && !(f == t && j == i)
      ensures Entry(m', f, j) == Entry(m, f, j)
    {
    }
  }

  /** get_or_create_table on an existing pointer: OR-ing the user bit in. */
  lemma GrowUserBit(m: Memory, lv: Levels, t: nat, i: nat)
    requires Tree(m, lv) && t in lv && i < ENTRIES && Link(m, t, lv[t], i)
    requires Or(Entry(m, t, i), USER) < WORD_LIMIT
    ensures var m' := m[WORDS_PER_FRAME * t + i := Or(Entry(m, t, i), USER)];
            Tree(m', lv) && Grown(m, lv, m', lv) && (LinksGrant(m, lv) ==> LinksGrant(m', lv))
  {
    var m' := m[WORDS_PER_FRAME * t + i := Or(Entry(m, t, i), USER)];
    UserBitKeepsPointers(m, lv, t, i);
    GrowPointers(m, m', lv);
  }

  // A new table below an empty slot

  ghost predicate EmptyTable(m: Memory, f: nat)
  {
    InRam(m, f) && forall i: nat :: i < ENTRIES ==> Entry(m, f, i) == 0
  }

  /** `m'` hangs the empty table `nf` into the empty slot `i` of table `t`. */
  ghost predicate Hung(m: Memory, m': Memory, lv: Levels, t: nat, i: nat, nf: nat)
    requires TablesInRam(m, lv)
  {
    && t in lv && i < ENTRIES && lv[t] >= 2 && nf !in lv && |m'| == |m|
    && !Has(Entry(m, t, i), PRESENT)
    && Link(m', t, lv[t], i) && Child(m', t, i) == nf
    && Has(Entry(m', t, i), WRITABLE) && !Has(Entry(m', t, i), NO_EXECUTE)
    && EmptyTable(m', nf)
    && (forall f, j: nat :: f in lv && j < ENTRIES && !(f == t && j == i) ==> Entry(m', f, j) == Entry(m, f, j))
  }

  lemma EmptyHasNoHuge(m: Memory, f: nat)
    requires EmptyTable(m, f)
    ensures forall i: nat, level :: i < ENTRIES ==> !HugeLeaf(m, f, level, i)
  {
    NoFlagsInZero();
  }

  lemma EmptyWalk(m: Memory, f: nat, level: nat, v: nat)
    requires EmptyTable(m, f) && 1 <= level <= 4
    ensures Walk(m, f, level, v) == None
  {
    assert Entry(m, f, Index(v, level)) == 0;
  }

  lemma {:induction false} WalkAfterHang(m: Memory, m': Memory, lv: Levels, t: nat, i: nat, nf: nat, f: nat, v: nat)
    requires Tree(m, lv) && Hung(m, m', lv, t, i, nf) && f in lv
    ensures Walk(m', f, lv[f], v) == Walk(m, f, lv[f], v)
    decreases lv[f]
  {
    var j := Index(v, lv[f]);
    if f == t && j == i {
      EmptyWalk(m', nf, lv[f] - 1, v);
    } else {
      assert Entry(m', f, j) == Entry(m, f, j);
      if Link(m, f, lv[f], j) {
        assert IsLink(m, lv, f, j);
        WalkAfterHang(m, m', lv, t, i, nf, Child(m, f, j), v);
      }
    }
  }

  lemma HangLinks(m: Memory, m': Memory, lv: Levels, t: nat, i: nat, nf: nat)
    requires Tree(m, lv) && Hung(m, m', lv, t, i, nf)
    ensures var lv' := lv[nf := lv[t] - 1];
            TablesInRam(m', lv') &&
            forall f, j :: IsLink(m', lv', f, j) <==> IsLink(m, lv, f, j) || (f == t && j == i)
  {
    hide Index;
    var lv' := lv[nf := lv[t] - 1];
    forall f, j | f in lv' && 0 <= j < ENTRIES
      ensures IsLink(m', lv', f, j) <==> IsLink(m, lv, f, j) || (f == t && j == i)
    {
      if f == nf {
        assert Entry(m', nf, j) == 0;
      } else if !(f == t && j == i) {
        assert Entry(m', f, j) == Entry(m, f, j);
      }
    }
  }

  /** get_or_create_table on an empty slot. */
  lemma GrowTable(m: Memory, m': Memory, lv: Levels, t: nat, i: nat, nf: nat)
    requires Tree(m, lv) && Hung(m, m', lv, t, i, nf)
    ensures var lv' := lv[nf := lv[t] - 1];
            Tree(m', lv') && Grown(m, lv, m', lv') && (LinksGrant(m, lv) ==> LinksGrant(m', lv'))
  {
    hide Has, Base, Index;
    var lv' := lv[nf := lv[t] - 1];
    HangLinks(m, m', lv, t, i, nf);
    forall f, j | IsLink(m, lv, f, j)
      ensures Entry(m', f, j) == Entry(m, f, j)
    {
    }
    forall f, v | f in lv
      ensures Walk(m', f, lv[f], v) == Walk(m, f, lv[f], v)
    {
      WalkAfterHang(m, m', lv, t, i, nf, f, v);
    }
    EmptyHasNoHuge(m', nf);
    forall f, j: nat | f in lv' && j < ENTRIES && HugeLeaf(m', f, lv'[f], j)
      ensures f in lv && HugeLeaf(m, f, lv[f], j)
    {
      assert f != t || j != i;
      assert Entry(m', f, j) == Entry(m, f, j);
    }
  }

  /** vmm_create_address_space: a new empty PML4. */
  lemma GrowRoot(m: Memory, m': Memory, lv: Levels, nf: nat)
    requires Tree(m, lv) && SameTables(m, m', lv) && nf !in lv && EmptyTable(m', nf)
    ensures Tree(m', lv[nf := 4]) && Grown(m, lv, m', lv[nf := 4])
    ensures LinksGrant(m, lv) ==> LinksGrant(m', lv[nf := 4])
    ensures forall v :: Walk(m', nf, 4, v) == None
  {
    hide Has, Base, Index;
    var lv' := lv[nf := 4];
    forall f, i | f in lv' && 0 <= i < ENTRIES
      ensures IsLink(m', lv', f, i) == IsLink(m, lv, f, i)
      ensures f in lv ==> Entry(m', f, i) == Entry(m, f, i)
    {
      if f == nf { assert Entry(m', nf, i) == 0; NoFlagsInZero(); }
    }
    forall f, v | f in lv
      ensures Walk(m', f, lv[f], v) == Walk(m, f, lv[f], v)
    {
      WalkReadsTables(m, m', lv, f, v);
    }
    forall v
      ensures Walk(m', nf, 4, v) == None
    {
      EmptyWalk(m', nf, 4, v);
    }
    EmptyHasNoHuge(m', nf);
    forall f, j: nat | f in lv' && j < ENTRIES && HugeLeaf(m', f, lv'[f], j)
      ensures f in lv && HugeLeaf(m, f, lv[f], j)
    {
      assert Entry(m', f, j) == Entry(m, f, j);
    }
  }

  lemma NoFlagsInZero()
    ensures !Has(0, PRESENT) && !Has(0, USER)
  {
  }

  // Writing a last-level entry

  function LeafResult(e: nat, v: nat): Option<Leaf>
  {
    if Has(e, PRESENT) then Some(LeafOf(e, OffsetIn(v, 1))) else None
  }

  lemma {:induction false} WalkAfterLeaf(m: Memory, lv: Levels, t: nat, i: nat, e: Word, f: nat, v: nat)
    requires Tree(m, lv) && t in lv && lv[t] == 1 && i < ENTRIES && f in lv
    ensures Walk(m[WORDS_PER_FRAME * t + i := e], f, lv[f], v) ==
            if Reach(m, f, lv[f], v, 1) == Some(t) && Index(v, 1) == i then LeafResult(e, v)
            else Walk(m, f, lv[f], v)
    ensures UserPath(m[WORDS_PER_FRAME * t + i := e], f, lv[f], v) == UserPath(m, f, lv[f], v)
    decreases lv[f]
  {
    var m' := m[WORDS_PER_FRAME * t + i := e];
    var j := Index(v, lv[f]);
    if f == t && j == i {
    } else {
      assert Entry(m', f, j) == Entry(m, f, j);
      if Link(m, f, lv[f], j) {
        assert IsLink(m, lv, f, j);
        WalkAfterLeaf(m, lv, t, i, e, Child(m, f, j), v);
      }
    }
  }

  /** What a look-up finds, by the table at level k it gets to: nothing if the entry
      there is absent, or huge in the PML4; the entry if it is at the last level or
      huge; and it goes on exactly through the other entries. */
  lemma {:induction false} WalkEnds(m: Memory, f: nat, level: nat, v: nat, k: nat)
    requires 1 <= k <= level <= 4 && Reach(m, f, level, v, k).Some? && InRam(m, Reach(m, f, level, v, k).value)
    ensures var e := Entry(m, Reach(m, f, level, v, k).value, Index(v, k));
      && (!Has(e, PRESENT) || (k == 4 && Has(e, HUGE)) ==> Walk(m, f, level, v) == None)
      && (Has(e, PRESENT) && (k == 1 || (k < 4 && Has(e, HUGE))) ==>
            Walk(m, f, level, v) == Some(LeafOf(e, OffsetIn(v, k))))
      && (Has(e, PRESENT) && !Has(e, HUGE) && k > 1 ==> Reach(m, f, level, v, k - 1) == Some(Target(e)))
    decreases level
  {
    if level > k {
      WalkEnds(m, Child(m, f, Index(v, level)), level - 1, v, k);
    }
  }

  /** The way to the table is still there. */
  lemma {:induction false} ReachAfterLeaf(m: Memory, lv: Levels, t: nat, i: nat, e: Word, f: nat, v: nat)
    requires Tree(m, lv) && t in lv && lv[t] == 1 && i < ENTRIES && f in lv
    ensures Reach(m[WORDS_PER_FRAME * t + i := e], f, lv[f], v, 1) == Reach(m, f, lv[f], v, 1)
    decreases lv[f]
  {
    var m' := m[WORDS_PER_FRAME * t + i := e];
    var j := Index(v, lv[f]);
    if lv[f] == 1 {
    } else {
      assert Entry(m', f, j) == Entry(m, f, j);
      if Link(m, f, lv[f], j) {
        assert IsLink(m, lv, f, j);
        ReachAfterLeaf(m, lv, t, i, e, Child(m, f, j), v);
      }
    }
  }

  lemma TreeAfterLeaf(m: Memory, lv: Levels, t: nat, i: nat, e: Word)
    requires Tree(m, lv) && t in lv && lv[t] == 1 && i < ENTRIES
    ensures var m' := m[WORDS_PER_FRAME * t + i := e];
            Tree(m', lv) && LinksKept(m, lv, m', lv) && HugeKept(m, lv, m')
            && (LinksGrant(m, lv) ==> LinksGrant(m', lv))
  {
    hide Has, Base;
    var m' := m[WORDS_PER_FRAME * t + i := e];
    forall f, j | f in lv && 0 <= j < ENTRIES && lv[f] >= 2
      ensures Entry(m', f, j) == Entry(m, f, j)
    {
    }
    forall f, j | f in lv && 0 <= j < ENTRIES
      ensures IsLink(m', lv, f, j) == IsLink(m, lv, f, j)
      ensures IsLink(m, lv, f, j) ==> Entry(m', f, j) == Entry(m, f, j)
    {
    }
  }

  /** Space `s` sees the page of `v` through the same tables as space `r`. */
  predicate Shares(m: Memory, r: nat, s: nat, v: nat)
    requires InRam(m, r) && InRam(m, s)
  {
    r == s || (Index(v, 4) == 0 && Link(m, r, 4, 0) && Link(m, s, 4, 0) && Child(m, r, 0) == Child(m, s, 0))
  }

  /** The exact effect of writing the last-level entry of `v` in space `r` on
      every page of every space. */
  lemma LeafEffect(m: Memory, lv: Levels, r: nat, v: nat, e: Word, s: nat, w: nat)
    requires Tree(m, lv) && r in lv && lv[r] == 4 && s in lv && lv[s] == 4
    requires Reach(m, r, 4, v, 1).Some? && Reach(m, r, 4, v, 1).value in lv && lv[Reach(m, r, 4, v, 1).value] == 1
    ensures Walk(m[WORDS_PER_FRAME * Reach(m, r, 4, v, 1).value + Index(v, 1) := e], s, 4, w) ==
            if PageNumber(w) == PageNumber(v) && Shares(m, r, s, v) then LeafResult(e, w)
            else Walk(m, s, 4, w)
  {
    var t := Reach(m, r, 4, v, 1).value;
    WalkAfterLeaf(m, lv, t, Index(v, 1), e, s, w);
    PageNumberMeaning(w, v);
    if Reach(m, s, 4, w, 1) == Some(t) && Index(w, 1) == Index(v, 1) {
      MeetingPaths(m, lv, r, v, s, w, 1);
      assert forall k :: 1 <= k <= 4 ==> Index(w, k) == Index(v, k);
      SharedSlotIsLinked(m, r, s, v, w);
    } else if SameIndices(w, v, 4) && Shares(m, r, s, v) {
      assert Index(w, 4) == Index(v, 4) && Index(w, 1) == Index(v, 1);
      if r == s {
        ReachReadsIndices(m, r, 4, w, v, 1);
      } else {
        ReachReadsIndices(m, Child(m, r, 0), 3, w, v, 1);
      }
    }
  }

  lemma SharedSlotIsLinked(m: Memory, r: nat, s: nat, v: nat, w: nat)
    requires InRam(m, r) && InRam(m, s)
    requires Reach(m, r, 4, v, 1).Some? && Reach(m, s, 4, w, 1).Some?
    requires Index(w, 4) == Index(v, 4)
    requires r == s || (Index(v, 4) == 0 && Child(m, r, 0) == Child(m, s, 0))
    ensures Shares(m, r, s, v)
  {
  }

  // Copying PML4 slot 0

  lemma {:induction false} WalkAfterShare(m: Memory, lv: Levels, d: nat, s: nat, f: nat, v: nat)
    requires Tree(m, lv) && d in lv && s in lv && f in lv && lv[d] == 4 && lv[s] == 4
    ensures Walk(m[WORDS_PER_FRAME * d := Entry(m, s, 0)], f, lv[f], v) ==
            if f == d && Index(v, 4) == 0 then Walk(m, s, 4, v) else Walk(m, f, lv[f], v)
    ensures UserPath(m[WORDS_PER_FRAME * d := Entry(m, s, 0)], f, lv[f], v) ==
            if f == d && Index(v, 4) == 0 then UserPath(m, s, 4, v) else UserPath(m, f, lv[f], v)
    decreases lv[f]
  {
    var m' := m[WORDS_PER_FRAME * d := Entry(m, s, 0)];
    var j := Index(v, lv[f]);
    var g := if f == d && j == 0 then s else f;
    assert Entry(m', f, j) == Entry(m, g, j);
    if Link(m, g, lv[f], j) {
      assert IsLink(m, lv, g, j);
      WalkAfterShare(m, lv, d, s, Child(m, g, j), v);
    }
  }

  lemma TreeAfterShare(m: Memory, lv: Levels, d: nat, s: nat)
    requires Tree(m, lv) && d in lv && s in lv && lv[d] == 4 && lv[s] == 4
    ensures var m' := m[WORDS_PER_FRAME * d := Entry(m, s, 0)];
            Tree(m', lv) && (LinksGrant(m, lv) ==> LinksGrant(m', lv))
            && forall f, j :: f in lv && 0 <= j < ENTRIES && !(f == d && j == 0) ==> Entry(m', f, j) == Entry(m, f, j)
  {
    hide Has, Base;
    var m' := m[WORDS_PER_FRAME * d := Entry(m, s, 0)];
    forall f, j | f in lv && 0 <= j < ENTRIES
      ensures Entry(m', f, j) == if f == d && j == 0 then Entry(m, s, 0) else Entry(m, f, j)
    {
    }
    forall f, j | f in lv && 0 <= j < ENTRIES
      ensures IsLink(m', lv, f, j) == if f == d && j == 0 then IsLink(m, lv, s, 0) else IsLink(m, lv, f, j)
    {
    }
  }

  // Effective rights (Intel SDM Vol. 3A section 4.6): the AND of the bits along the walk

  function Effective(m: Memory, r: nat, v: nat): Option<Leaf>
  {
    match Walk(m, r, 4, v)
    case None => None
    case Some(l) => Some(Leaf(l.address, l.user && UserPath(m, r, 4, v), l.writable && WritablePath(m, r, 4, v),
                              l.noExecute || !ExecutablePath(m, r, 4, v)))
  }

  /** If `v` is mapped by a user leaf, that leaf is below user pointers only. */
  predicate ClosedAt(m: Memory, r: nat, v: nat)
  {
    Walk(m, r, 4, v).Some? && Walk(m, r, 4, v).value.user ==> UserPath(m, r, 4, v)
  }

  /** Every user leaf of space `r` is below user pointers only. */
  ghost predicate UserClosed(m: Memory, r: nat)
  {
    forall v :: ClosedAt(m, r, v)
  }

  lemma {:induction false} LinksGrantPath(m: Memory, lv: Levels, f: nat, v: nat)
    requires Tree(m, lv) && LinksGrant(m, lv) && f in lv
    ensures WritablePath(m, f, lv[f], v) && ExecutablePath(m, f, lv[f], v)
    decreases lv[f]
  {
    var i := Index(v, lv[f]);
    if !Link(m, f, lv[f], i) {
    } else {
      assert IsLink(m, lv, f, i);
      LinksGrantPath(m, lv, Child(m, f, i), v);
    }
  }

  /** The effective rights are the leaf's own exactly where the space is closed. */
  lemma ClosedSpaceRights(m: Memory, lv: Levels, r: nat, v: nat)
    requires Tree(m, lv) && LinksGrant(m, lv) && r in lv && lv[r] == 4
    ensures Effective(m, r, v) == Walk(m, r, 4, v) <==> ClosedAt(m, r, v)
    ensures Effective(m, r, v) == match Walk(m, r, 4, v)
                                  case None => None
                                  case Some(l) => Some(l.(user := l.user && UserPath(m, r, 4, v)))
  {
    hide Walk, UserPath, WritablePath, ExecutablePath;
    LinksGrantPath(m, lv, r, v);
  }

  lemma GrownUserClosed(m: Memory, lv: Levels, m': Memory, lv': Levels, r: nat)
    requires Tree(m, lv) && Grown(m, lv, m', lv') && r in lv && lv[r] == 4 && UserClosed(m, r)
    ensures UserClosed(m', r)
  {
    forall v | Walk(m', r, 4, v).Some? && Walk(m', r, 4, v).value.user
      ensures UserPath(m', r, 4, v)
    {
      assert Walk(m', r, lv[r], v) == Walk(m, r, lv[r], v);
      assert ClosedAt(m, r, v);
      GrownUserPath(m, lv, m', lv', r, v);
    }
  }

  /** Writing a leaf keeps a space closed if a user leaf goes below user pointers. */
  lemma LeafUserClosed(m: Memory, lv: Levels, r: nat, v: nat, e: Word)
    requires Tree(m, lv) && r in lv && lv[r] == 4 && UserClosed(m, r)
    requires Reach(m, r, 4, v, 1).Some? && Reach(m, r, 4, v, 1).value in lv && lv[Reach(m, r, 4, v, 1).value] == 1
    requires Has(e, USER) ==> UserPath(m, r, 4, v)
    ensures UserClosed(m[WORDS_PER_FRAME * Reach(m, r, 4, v, 1).value + Index(v, 1) := e], r)
  {
    var t := Reach(m, r, 4, v, 1).value;
    var m' := m[WORDS_PER_FRAME * t + Index(v, 1) := e];
    forall w | Walk(m', r, 4, w).Some? && Walk(m', r, 4, w).value.user
      ensures UserPath(m', r, 4, w)
    {
      assert ClosedAt(m, r, w);
      LeafEffect(m, lv, r, v, e, r, w);
      WalkAfterLeaf(m, lv, t, Index(v, 1), e, r, w);
      if PageNumber(w) == PageNumber(v) {
        PageNumberMeaning(w, v);
        UserPathReadsIndices(m, r, 4, v, w);
      }
    }
  }

  lemma {:induction false} UserPathReadsIndices(m: Memory, f: nat, level: nat, v: nat, w: nat)
    requires 1 <= level <= 4 && SameIndices(w, v, level)
    ensures UserPath(m, f, level, v) == UserPath(m, f, level, w)
    decreases level
  {
    assert Index(w, level) == Index(v, level);
    if !InRam(m, f) || !Link(m, f, level, Index(v, level)) {
    } else {
      UserPathReadsIndices(m, Child(m, f, Index(v, level)), level - 1, v, w);
    }
  }

  // What a map does to the rights of other pages

  /** Entry `i` of table `f` at `level` lies on the way from PML4 `r` to `v`. */
  predicate OnWay(m: Memory, r: nat, v: nat, f: nat, level: nat, i: nat)
    requires 1 <= level <= 4
  {
    Reach(m, r, 4, v, level) == Some(f) && Index(v, level) == i
  }

  /** Of the tables of `lv`, only entries on the way from `r` to `v` were written
      above the last level; pointers there still lead to the same tables, and have
      the user bit exactly if they had it or `user` holds. */
  ghost predicate Opened(m: Memory, lv: Levels, m': Memory, r: nat, v: nat, user: bool)
  {
    && TablesInRam(m, lv) && |m'| == |m| && HugeKept(m, lv, m')
    && (forall f, i: nat :: f in lv && i < ENTRIES && lv[f] >= 2 && !OnWay(m, r, v, f, lv[f], i) ==>
          Entry(m', f, i) == Entry(m, f, i))
    && (forall f, i :: IsLink(m, lv, f, i) ==>
          Link(m', f, lv[f], i) && Child(m', f, i) == Child(m, f, i)
          && (Has(Entry(m', f, i), USER) <==>
              Has(Entry(m, f, i), USER) || (user && OnWay(m, r, v, f, lv[f], i))))
  }

  /** Every pointer on the way to `w` has the user bit or is also on the way from
      `r` to `v`. */
  predicate UserPathWith(m: Memory, f: nat, level: nat, w: nat, r: nat, v: nat)
    requires 1 <= level <= 4
    decreases level
  {
    InRam(m, f) && Link(m, f, level, Index(w, level)) ==>
      && (Has(Entry(m, f, Index(w, level)), USER) || OnWay(m, r, v, f, level, Index(w, level)))
      && UserPathWith(m, Child(m, f, Index(w, level)), level - 1, w, r, v)
  }

  /** A user map of `v` opens the way to another mapped page exactly when it lies on
      all of the pointers that were closed. */
  lemma {:induction false} UserPathAfterMap(m: Memory, lv: Levels, m': Memory, r: nat, v: nat, user: bool, f: nat,
      w: nat)
    requires Tree(m, lv) && Opened(m, lv, m', r, v, user) && f in lv && Walk(m, f, lv[f], w).Some?
    ensures UserPath(m', f, lv[f], w) ==
            if user then UserPathWith(m, f, lv[f], w, r, v) else UserPath(m, f, lv[f], w)
    decreases lv[f]
  {
    var i := Index(w, lv[f]);
    if Link(m, f, lv[f], i) {
      assert IsLink(m, lv, f, i);
      UserPathAfterMap(m, lv, m', r, v, user, Child(m, f, i), w);
    } else if HugeLeaf(m, f, lv[f], i) {
      assert Entry(m', f, i) == Entry(m, f, i);
    }
  }

  lemma {:induction false} UserPathIsWith(m: Memory, f: nat, level: nat, w: nat, r: nat, v: nat)
    requires 1 <= level <= 4 && UserPath(m, f, level, w)
    ensures UserPathWith(m, f, level, w, r, v)
    decreases level
  {
    if !InRam(m, f) || !Link(m, f, level, Index(w, level)) {
    } else {
      UserPathIsWith(m, Child(m, f, Index(w, level)), level - 1, w, r, v);
    }
  }

  /** A way that is opened has a pointer in common with the way that opened it. */
  lemma {:induction false} JoinedPointer(m: Memory, f: nat, level: nat, w: nat, r: nat, v: nat) returns (k: nat)
    requires 1 <= level <= 4 && UserPathWith(m, f, level, w, r, v) && !UserPath(m, f, level, w)
    ensures 2 <= k <= level && Reach(m, f, level, w, k).Some?
    ensures OnWay(m, r, v, Reach(m, f, level, w, k).value, k, Index(w, k))
    decreases level
  {
    if Has(Entry(m, f, Index(w, level)), USER) {
      k := JoinedPointer(m, Child(m, f, Index(w, level)), level - 1, w, r, v);
    } else {
      k := level;
    }
  }

  /** Only pages below the same PML4 entry can be opened, in the space itself and in
      spaces that share slot 0 with it. */
  lemma OpenedBelowOneSlot(m: Memory, lv: Levels, s: nat, w: nat, r: nat, v: nat)
    requires Tree(m, lv) && r in lv && s in lv && lv[r] == 4 && lv[s] == 4
    requires UserPathWith(m, s, 4, w, r, v) && !UserPath(m, s, 4, w)
    ensures Index(w, 4) == Index(v, 4) && Shares(m, r, s, v)
  {
    hide Index;
    var k := JoinedPointer(m, s, 4, w, r, v);
    if k < 4 {
      MeetingPaths(m, lv, r, v, s, w, k);
      assert Link(m, r, 4, Index(v, 4)) && Link(m, s, 4, Index(w, 4));
    }
  }

  /** Where the PML4 entry alone keeps user code out, a user map anywhere below that
      entry lets it in. */
  lemma SlotOpens(m: Memory, r: nat, w: nat, v: nat)
    requires InRam(m, r) && Link(m, r, 4, Index(w, 4)) && Index(v, 4) == Index(w, 4)
    requires !Has(Entry(m, r, Index(w, 4)), USER) && UserPath(m, Child(m, r, Index(w, 4)), 3, w)
    ensures UserPathWith(m, r, 4, w, r, v) && !UserPath(m, r, 4, w)
  {
    hide Index;
    UserPathIsWith(m, Child(m, r, Index(w, 4)), 3, w, r, v);
  }

  // What a map still needs

  /** A huge entry stands in the way of tables for `v`. */
  predicate HugeOnPath(m: Memory, f: nat, level: nat, v: nat)
    requires 1 <= level <= 4
    decreases level
  {
    InRam(m, f) && level >= 2 &&
    if Link(m, f, level, Index(v, level)) then HugeOnPath(m, Child(m, f, Index(v, level)), level - 1, v)
    else HugeLeaf(m, f, level, Index(v, level))
  }

  /** The number of tables missing between `f` and a last-level entry for `v`. */
  function Missing(m: Memory, f: nat, level: nat, v: nat): (n: nat)
    requires 1 <= level <= 4
    ensures n < level
    decreases level
  {
    if InRam(m, f) && Link(m, f, level, Index(v, level))
    then Missing(m, Child(m, f, Index(v, level)), level - 1, v)
    else level - 1
  }

  lemma {:induction false} NeedsReadPointers(m: Memory, m': Memory, lv: Levels, f: nat, v: nat)
    requires Tree(m, lv) && f in lv && |m'| == |m| && SamePointers(m, m', lv)
    ensures Missing(m', f, lv[f], v) == Missing(m, f, lv[f], v)
    ensures HugeOnPath(m', f, lv[f], v) == HugeOnPath(m, f, lv[f], v)
    decreases lv[f]
  {
    var i := Index(v, lv[f]);
    assert Entry(m', f, i) == Entry(m, f, i) || Link(m, f, lv[f], i);
    if !Link(m, f, lv[f], i) {
    } else {
      assert IsLink(m, lv, f, i);
      NeedsReadPointers(m, m', lv, Child(m, f, i), v);
    }
  }

  lemma EmptyNeeds(m: Memory, f: nat, level: nat, v: nat)
    requires EmptyTable(m, f) && 1 <= level <= 4
    ensures Missing(m, f, level, v) == level - 1
    ensures !HugeOnPath(m, f, level, v)
  {
    assert Entry(m, f, Index(v, level)) == 0;
    NoFlagsInZero();
  }

  /** Nothing is missing exactly when the last-level table is reached. */
  lemma {:induction false} NothingMissing(m: Memory, lv: Levels, f: nat, v: nat)
    requires Tree(m, lv) && f in lv
    ensures Reach(m, f, lv[f], v, 1).Some? <==> Missing(m, f, lv[f], v) == 0
    ensures Reach(m, f, lv[f], v, 1).Some? ==> !HugeOnPath(m, f, lv[f], v)
    decreases lv[f]
  {
    var i := Index(v, lv[f]);
    if !Link(m, f, lv[f], i) {
    } else {
      assert IsLink(m, lv, f, i);
      NothingMissing(m, lv, Child(m, f, i), v);
    }
  }

  /** Without a last-level table and without a huge entry there is no translation. */
  lemma {:induction false} UnreachedIsUnmapped(m: Memory, lv: Levels, f: nat, v: nat)
    requires Tree(m, lv) && f in lv
    ensures !HugeOnPath(m, f, lv[f], v) && Reach(m, f, lv[f], v, 1).None? ==> Walk(m, f, lv[f], v) == None
    decreases lv[f]
  {
    var i := Index(v, lv[f]);
    if !Link(m, f, lv[f], i) {
    } else {
      assert IsLink(m, lv, f, i);
      UnreachedIsUnmapped(m, lv, Child(m, f, i), v);
    }
  }

  // Following a path down

  lemma {:induction false} ReachExtend(m: Memory, f: nat, level: nat, v: nat, k: nat)
    requires 1 < k <= level <= 4 && Reach(m, f, level, v, k).Some?
    ensures var t := Reach(m, f, level, v, k).value;
            InRam(m, t) && Link(m, t, k, Index(v, k)) ==> Reach(m, f, level, v, k - 1) == Some(Child(m, t, Index(v, k)))
    decreases level
  {
    if k == level {
    } else {
      ReachExtend(m, Child(m, f, Index(v, level)), level - 1, v, k);
    }
  }

  /** The pointers from table `f` down to level `k` all have the user bit. */
  predicate UserDown(m: Memory, f: nat, level: nat, v: nat, k: nat)
    requires 1 <= k <= level <= 4
    decreases level
  {
    level == k ||
    (InRam(m, f) && Link(m, f, level, Index(v, level)) && Has(Entry(m, f, Index(v, level)), USER)
     && UserDown(m, Child(m, f, Index(v, level)), level - 1, v, k))
  }

  lemma {:induction false} UserDownExtend(m: Memory, f: nat, level: nat, v: nat, k: nat)
    requires 1 < k <= level <= 4 && UserDown(m, f, level, v, k) && Reach(m, f, level, v, k).Some?
    ensures var t := Reach(m, f, level, v, k).value;
            InRam(m, t) && Link(m, t, k, Index(v, k)) && Has(Entry(m, t, Index(v, k)), USER)
            ==> UserDown(m, f, level, v, k - 1)
    decreases level
  {
    if k == level {
    } else {
      UserDownExtend(m, Child(m, f, Index(v, level)), level - 1, v, k);
    }
  }

  lemma {:induction false} UserDownGrown(m: Memory, lv: Levels, m': Memory, lv': Levels, f: nat, v: nat, k: nat)
    requires Tree(m, lv) && Grown(m, lv, m', lv') && f in lv && 1 <= k <= lv[f] && UserDown(m, f, lv[f], v, k)
    ensures UserDown(m', f, lv[f], v, k)
    decreases lv[f]
  {
    var i := Index(v, lv[f]);
    if k == lv[f] {
    } else {
      assert IsLink(m, lv, f, i);
      UserDownGrown(m, lv, m', lv', Child(m, f, i), v, k);
    }
  }

  lemma {:induction false} UserDownPath(m: Memory, f: nat, level: nat, v: nat)
    requires 1 <= level <= 4 && UserDown(m, f, level, v, 1)
    ensures UserPath(m, f, level, v)
    decreases level
  {
    if level == 1 {
    } else {
      UserDownPath(m, Child(m, f, Index(v, level)), level - 1, v);
    }
  }
}
