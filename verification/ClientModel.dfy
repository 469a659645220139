/** The memory subsystem as a transition system on values: what each request of a
    client does to memory, tables, frames and address spaces, and what follows for
    every run.  KernelRuns shows that the kernel's code takes exactly these steps. */
module ClientModel {
  import opened Wrappers
  import opened PageEntry
  import opened Ram
  import opened PageTables
  import opened BootPaging
  import opened Vmm
  import opened Elf
  import opened ElfLoader

  /** One request.  `space` and `frame` number the spaces and frames the client
      holds; a number that is out of range is ignored.  `Store` writes word `k` of a
      frame. */
  datatype Op =
    | TakeFrame
    | GiveBack(frame: nat)
    | Store(frame: nat, k: nat, x: Word)
    | NewSpace
    | Share(space: nat)
    | Map(space: nat, v: Word, phys: Word, flags: Word)
    | Unmap(space: nat, v: Word)
    | LoadProgram(file: nat)

  /** What never changes: the bitmap's frames, the number of managed frames, the boot
      tables, the kernel's address space and the files. */
  datatype Setup = Setup(bitmap: set<int>, total: nat, boot: Boot, cr3: nat, files: seq<File>)

  datatype State = State(mem: Memory, lv: Levels, free: set<nat>, data: set<nat>, spaces: seq<nat>, frames: seq<nat>)

  /** The client's spaces are address spaces and its frames are its own, each once. */
  ghost predicate Held(spaces: seq<nat>, frames: seq<nat>, lv: Levels, data: set<nat>)
  {
    && (forall i :: 0 <= i < |spaces| ==>
          spaces[i] % PAGE_SIZE == 0 && FrameOf(spaces[i]) in lv && lv[FrameOf(spaces[i])] == 4)
    && (forall i :: 0 <= i < |frames| ==> frames[i] % PAGE_SIZE == 0 && FrameOf(frames[i]) in data)
    && (forall i, j :: 0 <= i < j < |frames| ==> FrameOf(frames[i]) != FrameOf(frames[j]))
  }

  ghost predicate Sound(c: Setup, p: State)
  {
    Separate(p.free, c.bitmap, p.lv.Keys, p.data) && Held(p.spaces, p.frames, p.lv, p.data) && TablesInRam(p.mem, p.lv)
  }

  predicate HasSpace(p: State, i: nat)
  {
    i < |p.spaces|
  }

  function SpaceFrame(p: State, i: nat): nat
    requires HasSpace(p, i)
  {
    FrameOf(p.spaces[i])
  }

  /** pmm_alloc_page. */
  ghost predicate Takes(c: Setup, p: State, q: State)
  {
    && SameOutside(p.mem, q.mem, c.bitmap) && SameLookups(p.mem, q.mem, p.lv)
    && if p.free == {} then q == p
       else
         && q.frames != [] && q.frames[|q.frames| - 1] % PAGE_SIZE == 0
         && var f := FrameOf(q.frames[|q.frames| - 1]);
            && f in p.free
            && q == p.(mem := q.mem, free := p.free - {f}, data := p.data + {f},
                       frames := p.frames + [q.frames[|q.frames| - 1]])
  }

  /** pmm_free_page of a frame that the client holds. */
  ghost predicate GivesBack(c: Setup, p: State, i: nat, q: State)
    requires i < |p.frames|
  {
    var f := FrameOf(p.frames[i]);
    && SameOutside(p.mem, q.mem, c.bitmap) && SameLookups(p.mem, q.mem, p.lv)
    && q == p.(mem := q.mem, free := if 0 < f < c.total then p.free + {f} else p.free, data := p.data - {f},
               frames := p.frames[..i] + p.frames[i + 1..])
  }

  function WordIndex(p: State, i: nat, k: nat): nat
    requires i < |p.frames|
  {
    WORDS_PER_FRAME * FrameOf(p.frames[i]) + k
  }

  predicate MayStore(p: State, i: nat, k: nat)
  {
    i < |p.frames| && k < WORDS_PER_FRAME && WordIndex(p, i, k) < |p.mem|
  }

  /** vmm_create_address_space. */
  ghost predicate Creates(c: Setup, p: State, q: State)
  {
    && SameLookups(p.mem, q.mem, p.lv)
    && if p.free == {} then q == p
       else
         && q.spaces != []
         && var r := FrameOf(q.spaces[|q.spaces| - 1]);
            && r in p.free && SameOutside(p.mem, q.mem, c.bitmap + {r}) && (forall v :: Walk(q.mem, r, 4, v) == None)
            && q == p.(mem := q.mem, lv := p.lv[r := 4], free := p.free - {r},
                       spaces := p.spaces + [q.spaces[|q.spaces| - 1]])
  }

  /** The copy of PML4 slot 0 from the kernel's space. */
  ghost predicate SharesSlot(c: Setup, p: State, i: nat, q: State)
    requires HasSpace(p, i)
  {
    && SameOutside(p.mem, q.mem, {SpaceFrame(p, i)}) && SlotCopied(p.mem, q.mem, p.lv, SpaceFrame(p, i), FrameOf(c.cr3))
    && q == p.(mem := q.mem)
  }

  /** vmm_map_page. */
  ghost predicate Maps(c: Setup, p: State, i: nat, v: Word, phys: Word, flags: Word, q: State)
    requires HasSpace(p, i) && TablesInRam(p.mem, p.lv)
  {
    var r := SpaceFrame(p, i);
    && TablesGrew(p.lv, q.lv) && SameSpaces(p.lv, q.lv) && Accounts(p.free, p.lv.Keys, q.free, q.lv.Keys)
    && SameOutside(p.mem, q.mem, c.bitmap + q.lv.Keys) && Opened(p.mem, p.lv, q.mem, r, v, Has(flags, USER))
    && (if Mappable(p.mem, p.free, r, v) then PageSet(p.mem, q.mem, p.lv, r, v, LeafEntry(phys, flags))
        else SameLookups(p.mem, q.mem, p.lv))
    && q == p.(mem := q.mem, lv := q.lv, free := q.free)
  }

  /** vmm_unmap_page. */
  ghost predicate Unmaps(p: State, i: nat, v: Word, q: State)
    requires HasSpace(p, i)
  {
    var r := SpaceFrame(p, i);
    && SameOutside(p.mem, q.mem, p.lv.Keys)
    && (if Reach(p.mem, r, 4, v, 1).None? then q.mem == p.mem else PageSet(p.mem, q.mem, p.lv, r, v, 0))
    && q == p.(mem := q.mem)
  }

  /** elf_load_from_ramfs: a new space with the program, or failure for one of the three
      reasons. */
  ghost predicate Loads(c: Setup, p: State, i: nat, q: State)
    requires i < |c.files|
  {
    var file := c.files[i];
    && OnlyLoaded(p.mem, p.lv, p.free, p.data, q.mem, q.lv, q.free, q.data, c.bitmap, c.boot)
    && file.data + file.size <= 8 * |p.mem| && q.frames == p.frames
    && if q.spaces == p.spaces
       then !HeaderOk(p.mem, file) || !AllFit(Headers(p.mem, file), file)
            || (Short(q.free) && !Enough(p.free, Headers(p.mem, file)))
       else
         && HeaderOk(p.mem, file) && q.spaces != []
         && q.spaces == p.spaces + [q.spaces[|q.spaces| - 1]]
         && var r := FrameOf(q.spaces[|q.spaces| - 1]);
            && r !in p.lv && SeesBoot(q.mem, q.lv, c.boot, r)
            && ProgramImage(q.mem, p.mem, r, FrameOf(c.cr3), file, Headers(p.mem, file))
            && (Enough(p.free, Headers(p.mem, file)) ==> AllMapped(q.mem, r, Headers(p.mem, file)))
  }

  /** The step from p to q. */
  ghost predicate Moves(c: Setup, p: State, op: Op, q: State)
    requires Sound(c, p)
  {
    && |q.mem| == |p.mem| && TablesGrew(p.lv, q.lv) && BootSeen(p.mem, p.lv, q.mem, q.lv, c.boot)
    && match op
       case TakeFrame => Takes(c, p, q)
       case GiveBack(i) => if i < |p.frames| then GivesBack(c, p, i, q) else q == p
       case Store(i, k, x) =>
         if MayStore(p, i, k) then SameLookups(p.mem, q.mem, p.lv) && q == p.(mem := p.mem[WordIndex(p, i, k) := x])
         else q == p
       case NewSpace => Creates(c, p, q)
       case Share(i) => if HasSpace(p, i) then SharesSlot(c, p, i, q) else q == p
       case Map(i, v, phys, flags) => if HasSpace(p, i) then Maps(c, p, i, v, phys, flags, q) else q == p
       case Unmap(i, v) => if HasSpace(p, i) then Unmaps(p, i, v, q) else q == p
       case LoadProgram(i) => if i < |c.files| then Loads(c, p, i, q) else q == p
  }

  /** Tables stay tables, and who sees the boot map goes on seeing it. */
  lemma MovesKeep(c: Setup, p: State, op: Op, q: State)
    requires Sound(c, p) && Moves(c, p, op, q)
    ensures |q.mem| == |p.mem| && TablesGrew(p.lv, q.lv) && BootSeen(p.mem, p.lv, q.mem, q.lv, c.boot)
  {
  }

  ghost predicate IsRun(c: Setup, states: seq<State>, ops: seq<Op>)
  {
    && |states| == |ops| + 1 && (forall i :: 0 <= i <= |ops| ==> Sound(c, states[i]))
    && forall i :: 0 <= i < |ops| ==> Moves(c, states[i], ops[i], states[i + 1])
  }

  // Pages: a page translates as its last map or unmap says

  /** The request maps or unmaps the page of `w` in space `r`. */
  predicate Touches(p: State, op: Op, r: nat, w: nat)
  {
    (op.Map? || op.Unmap?) && HasSpace(p, op.space) && SpaceFrame(p, op.space) == r && PageNumber(op.v) == PageNumber(w)
  }

  /** Outside PML4 slot 0 no other request changes what a page translates to. */
  lemma OtherPage(c: Setup, p: State, op: Op, q: State, r: nat, w: nat)
    requires Sound(c, p) && Moves(c, p, op, q) && r in p.lv && p.lv[r] == 4 && Index(w, 4) != 0
    requires !Touches(p, op, r, w)
    ensures Walk(q.mem, r, 4, w) == Walk(p.mem, r, 4, w)
  {
    hide Walk, UserPath, Index, PageNumber, Separate, LeafResult, LeafEntry, Reach, Mappable, Opened, Held, Headers,
      ProgramImage, AllMapped, AllFit, BootSeen, UserOwned;
    match op
    case Map(i, v, phys, flags) =>
      if HasSpace(p, i) && Mappable(p.mem, p.free, SpaceFrame(p, i), v) && SpaceFrame(p, i) != r {
        OtherSpacesUntouched(p.mem, q.mem, p.lv, SpaceFrame(p, i), v, LeafEntry(phys, flags), r, w);
      }
    case Unmap(i, v) =>
      if HasSpace(p, i) && Reach(p.mem, SpaceFrame(p, i), 4, v, 1).Some? && SpaceFrame(p, i) != r {
        OtherSpacesUntouched(p.mem, q.mem, p.lv, SpaceFrame(p, i), v, 0, r, w);
      }
    case _ =>
  }

  /** A map that finds the frames it needs, and any unmap, set the page. */
  lemma TouchedPage(c: Setup, p: State, op: Op, q: State, w: nat)
    requires Sound(c, p) && Moves(c, p, op, q) && (op.Map? || op.Unmap?) && HasSpace(p, op.space)
    requires PageNumber(op.v) == PageNumber(w)
    ensures op.Map? && Mappable(p.mem, p.free, SpaceFrame(p, op.space), op.v) ==>
              Walk(q.mem, SpaceFrame(p, op.space), 4, w) == LeafResult(LeafEntry(op.phys, op.flags), w)
    ensures op.Unmap? && Reach(p.mem, SpaceFrame(p, op.space), 4, op.v, 1).Some? ==>
              Walk(q.mem, SpaceFrame(p, op.space), 4, w) == None
  {
    hide Walk, Index, PageNumber, Separate, LeafEntry, Reach, Mappable, Opened, BootSeen;
    NoFlagsInZero();
  }

  /** While no request touches it, a page translates as before. */
  lemma {:induction false} PageStays(c: Setup, states: seq<State>, ops: seq<Op>, j: nat, r: nat, w: nat)
    requires IsRun(c, states, ops) && j <= |ops| && r in states[j].lv && states[j].lv[r] == 4 && Index(w, 4) != 0
    requires forall i :: j <= i < |ops| ==> !Touches(states[i], ops[i], r, w)
    ensures Walk(states[|ops|].mem, r, 4, w) == Walk(states[j].mem, r, 4, w)
    decreases |ops| - j
  {
    hide Walk, Index, Touches, Sound, Moves;
    if j == |ops| {
    } else {
      assert Moves(c, states[j], ops[j], states[j + 1]);
      MovesKeep(c, states[j], ops[j], states[j + 1]);
      OtherPage(c, states[j], ops[j], states[j + 1], r, w);
      PageStays(c, states, ops, j + 1, r, w);
    }
  }

  /** After a run a page outside slot 0 translates as its last map says. */
  lemma LastMapWins(c: Setup, states: seq<State>, ops: seq<Op>, j: nat, w: nat)
    requires IsRun(c, states, ops) && j < |ops| && ops[j].Map? && HasSpace(states[j], ops[j].space)
    requires PageNumber(ops[j].v) == PageNumber(w) && Index(w, 4) != 0
    requires Mappable(states[j].mem, states[j].free, SpaceFrame(states[j], ops[j].space), ops[j].v)
    requires forall i :: j < i < |ops| ==> !Touches(states[i], ops[i], SpaceFrame(states[j], ops[j].space), w)
    ensures Walk(states[|ops|].mem, SpaceFrame(states[j], ops[j].space), 4, w) ==
            LeafResult(LeafEntry(ops[j].phys, ops[j].flags), w)
  {
    hide Walk, Index, Touches, LeafResult, LeafEntry, Mappable, PageNumber, Separate;
    var p := states[j];
    assert Sound(c, p) && Moves(c, p, ops[j], states[j + 1]);
    TouchedPage(c, p, ops[j], states[j + 1], w);
    PageStays(c, states, ops, j + 1, SpaceFrame(p, ops[j].space), w);
  }

  /** After a run a page outside slot 0 whose last map or unmap was an unmap is not mapped. */
  lemma LastUnmapWins(c: Setup, states: seq<State>, ops: seq<Op>, j: nat, w: nat)
    requires IsRun(c, states, ops) && j < |ops| && ops[j].Unmap? && HasSpace(states[j], ops[j].space)
    requires PageNumber(ops[j].v) == PageNumber(w) && Index(w, 4) != 0
    requires Reach(states[j].mem, SpaceFrame(states[j], ops[j].space), 4, ops[j].v, 1).Some?
    requires forall i :: j < i < |ops| ==> !Touches(states[i], ops[i], SpaceFrame(states[j], ops[j].space), w)
    ensures Walk(states[|ops|].mem, SpaceFrame(states[j], ops[j].space), 4, w) == None
  {
    hide Walk, Index, Touches, Reach, PageNumber, Separate;
    var p := states[j];
    assert Sound(c, p) && Moves(c, p, ops[j], states[j + 1]);
    TouchedPage(c, p, ops[j], states[j + 1], w);
    PageStays(c, states, ops, j + 1, SpaceFrame(p, ops[j].space), w);
  }

  // Frames: a word of a held frame keeps what was last stored there

  /** The request stores to word `k` of frame `f`. */
  predicate StoresTo(p: State, op: Op, f: nat, k: nat)
  {
    op.Store? && MayStore(p, op.frame, op.k) && FrameOf(p.frames[op.frame]) == f && op.k == k
  }

  lemma OtherWord(c: Setup, p: State, op: Op, q: State, f: nat, k: nat)
    requires Sound(c, p) && Sound(c, q) && Moves(c, p, op, q) && f in p.data && f in q.data
    requires k < WORDS_PER_FRAME && WORDS_PER_FRAME * f + k < |p.mem| && !StoresTo(p, op, f, k)
    ensures q.mem[WORDS_PER_FRAME * f + k] == p.mem[WORDS_PER_FRAME * f + k]
  {
    hide Walk, UserPath, LeafResult, LeafEntry, Reach, Mappable, Opened, Headers, ProgramImage, AllMapped, AllFit,
      BootSeen, UserOwned, SameLookups, PageSet, SlotCopied, LeftAlone, PagesKept, AllRootsKept, TablesGrew, Accounts;
    assert (WORDS_PER_FRAME * f + k) / WORDS_PER_FRAME == f;
    assert f !in c.bitmap && f !in p.lv && f !in q.lv;
    match op
    case NewSpace => if p.free != {} { assert FrameOf(q.spaces[|q.spaces| - 1]) in q.lv; }
    case Share(i) => if HasSpace(p, i) { assert SpaceFrame(p, i) in p.lv; }
    case _ =>
  }

  /** While it stays a data frame and nobody stores to it, a word keeps its value. */
  lemma {:induction false} WordStays(c: Setup, states: seq<State>, ops: seq<Op>, j: nat, f: nat, k: nat)
    requires IsRun(c, states, ops) && j <= |ops| && k < WORDS_PER_FRAME && WORDS_PER_FRAME * f + k < |states[j].mem|
    requires forall i :: j <= i <= |ops| ==> f in states[i].data
    requires forall i :: j <= i < |ops| ==> !StoresTo(states[i], ops[i], f, k)
    ensures |states[|ops|].mem| == |states[j].mem|
    ensures states[|ops|].mem[WORDS_PER_FRAME * f + k] == states[j].mem[WORDS_PER_FRAME * f + k]
    decreases |ops| - j
  {
    hide Sound, StoresTo, Moves;
    if j == |ops| {
    } else {
      assert Moves(c, states[j], ops[j], states[j + 1]);
      MovesKeep(c, states[j], ops[j], states[j + 1]);
      OtherWord(c, states[j], ops[j], states[j + 1], f, k);
      WordStays(c, states, ops, j + 1, f, k);
    }
  }

  /** After a run a word of a frame that was held throughout holds what was last stored. */
  lemma LastStoreWins(c: Setup, states: seq<State>, ops: seq<Op>, j: nat)
    requires IsRun(c, states, ops) && j < |ops| && ops[j].Store? && MayStore(states[j], ops[j].frame, ops[j].k)
    requires var f := FrameOf(states[j].frames[ops[j].frame]);
      && (forall i :: j < i <= |ops| ==> f in states[i].data)
      && (forall i :: j < i < |ops| ==> !StoresTo(states[i], ops[i], f, ops[j].k))
    ensures |states[|ops|].mem| == |states[j].mem|
    ensures states[|ops|].mem[WordIndex(states[j], ops[j].frame, ops[j].k)] == ops[j].x
  {
    hide Sound, StoresTo;
    assert Moves(c, states[j], ops[j], states[j + 1]);
    WordStays(c, states, ops, j + 1, FrameOf(states[j].frames[ops[j].frame]), ops[j].k);
  }

  // What user code reaches

  /** The request gives user code only a frame that is held, and gives back no frame that
      user code has. */
  ghost predicate Careful(p: State, op: Op)
  {
    match op
    case Map(_, _, phys, flags) => Has(flags, USER) ==> FrameOf(Base(LeafEntry(phys, flags))) in p.data
    case GiveBack(i) => i < |p.frames| ==> NotMapped(p, FrameOf(p.frames[i]))
    case _ => true
  }

  ghost predicate NotMapped(p: State, f: nat)
  {
    forall s, w :: s in p.lv && p.lv[s] == 4 && Walk(p.mem, s, 4, w).Some? && Walk(p.mem, s, 4, w).value.user ==>
      FrameOf(Walk(p.mem, s, 4, w).value.address) != f
  }

  lemma CarefulStep(c: Setup, p: State, op: Op, q: State)
    requires Sound(c, p) && Moves(c, p, op, q) && Careful(p, op) && UserOwned(p.mem, p.lv, p.data)
    requires FrameOf(c.cr3) in p.lv && p.lv[FrameOf(c.cr3)] == 4
    ensures UserOwned(q.mem, q.lv, q.data)
  {
    hide Walk, UserPath, LeafResult, Reach, Mappable, Opened, Headers, ProgramImage, AllMapped, AllFit, BootSeen,
      Separate, UserOwned, SameLookups, PageSet, SlotCopied, LeftAlone, PagesKept, AllRootsKept, Accounts, Has, Base,
      NotMapped, LeafEntry;
    match op
    case TakeFrame => if q != p { OwnedBySame(p.mem, q.mem, p.lv, q.lv, p.data, q.data); }
    case GiveBack(i) => if i < |p.frames| { OwnedAfterGiving(p, FrameOf(p.frames[i]), q); }
    case Store(i, k, x) => if q != p { OwnedBySame(p.mem, q.mem, p.lv, q.lv, p.data, q.data); }
    case NewSpace => if p.free != {} { OwnedByEmpty(p, FrameOf(q.spaces[|q.spaces| - 1]), q); }
    case Share(i) => if HasSpace(p, i) { OwnedByShare(p, SpaceFrame(p, i), FrameOf(c.cr3), q); }
    case Map(i, v, phys, flags) =>
      if HasSpace(p, i) {
        LeafEntryMeaning(phys, flags);
        if Mappable(p.mem, p.free, SpaceFrame(p, i), v) {
          OwnedAfterPage(p.mem, q.mem, p.lv, q.lv, SpaceFrame(p, i), v, LeafEntry(phys, flags), p.data);
        } else {
          OwnedBySame(p.mem, q.mem, p.lv, q.lv, p.data, q.data);
        }
      }
    case Unmap(i, v) =>
      if HasSpace(p, i) && Reach(p.mem, SpaceFrame(p, i), 4, v, 1).Some? {
        NoFlagsInZero();
        OwnedAfterPage(p.mem, q.mem, p.lv, q.lv, SpaceFrame(p, i), v, 0, p.data);
      }
    case LoadProgram(i) =>
  }

  lemma OwnedAfterGiving(p: State, f: nat, q: State)
    requires UserOwned(p.mem, p.lv, p.data) && NotMapped(p, f) && SameLookups(p.mem, q.mem, p.lv)
    requires q.lv == p.lv && q.data == p.data - {f}
    ensures UserOwned(q.mem, q.lv, q.data)
  {
    hide Walk, PagesKept;
    forall s, w | s in q.lv && q.lv[s] == 4
      ensures OwnedAt(q.mem, s, w, q.data)
    {
      assert OwnedAt(p.mem, s, w, p.data);
    }
  }

  lemma OwnedByEmpty(p: State, r: nat, q: State)
    requires UserOwned(p.mem, p.lv, p.data) && SameLookups(p.mem, q.mem, p.lv) && q.data == p.data
    requires q.lv == p.lv[r := 4] && forall v :: Walk(q.mem, r, 4, v) == None
    ensures UserOwned(q.mem, q.lv, q.data)
  {
    hide Walk, PagesKept;
    forall s, w | s in q.lv && q.lv[s] == 4
      ensures OwnedAt(q.mem, s, w, q.data)
    {
      if s != r { assert OwnedAt(p.mem, s, w, p.data); }
    }
  }

  lemma OwnedByShare(p: State, d: nat, k: nat, q: State)
    requires UserOwned(p.mem, p.lv, p.data) && SlotCopied(p.mem, q.mem, p.lv, d, k) && q.lv == p.lv && q.data == p.data
    requires k in p.lv && p.lv[k] == 4
    ensures UserOwned(q.mem, q.lv, q.data)
  {
    hide Walk, UserPath, Index;
    forall s, w | s in q.lv && q.lv[s] == 4
      ensures OwnedAt(q.mem, s, w, q.data)
    {
      assert OwnedAt(p.mem, s, w, p.data) && OwnedAt(p.mem, k, w, p.data);
    }
  }

  /** In a careful run user code reaches nothing but data frames: no table, no free frame
      and no part of the bitmap. */
  lemma {:induction false} CarefulRun(c: Setup, states: seq<State>, ops: seq<Op>)
    requires IsRun(c, states, ops) && UserOwned(states[0].mem, states[0].lv, states[0].data)
    requires FrameOf(c.cr3) in states[0].lv && states[0].lv[FrameOf(c.cr3)] == 4
    requires forall i :: 0 <= i < |ops| ==> Careful(states[i], ops[i])
    ensures UserOwned(states[|ops|].mem, states[|ops|].lv, states[|ops|].data)
    ensures FrameOf(c.cr3) in states[|ops|].lv && states[|ops|].lv[FrameOf(c.cr3)] == 4
    decreases |ops|
  {
    hide UserOwned, Sound, Careful;
    if ops == [] {
    } else {
      var n := |ops| - 1;
      assert IsRun(c, states[..n + 1], ops[..n]);
      CarefulRun(c, states[..n + 1], ops[..n]);
      assert Moves(c, states[n], ops[n], states[n + 1]);
      CarefulStep(c, states[n], ops[n], states[n + 1]);
    }
  }

  /** A frame given back while user code still has it is free and in the reach of user
      code. */
  lemma GivenBackTooEarly(c: Setup, p: State, i: nat, q: State, s: nat, w: nat)
    requires Sound(c, p) && Moves(c, p, GiveBack(i), q) && i < |p.frames| && 0 < FrameOf(p.frames[i]) < c.total
    requires s in p.lv && p.lv[s] == 4 && Walk(p.mem, s, 4, w).Some? && Walk(p.mem, s, 4, w).value.user
    requires FrameOf(Walk(p.mem, s, 4, w).value.address) == FrameOf(p.frames[i])
    ensures FrameOf(p.frames[i]) in q.free && Walk(q.mem, s, 4, w) == Walk(p.mem, s, 4, w)
    ensures !UserOwned(q.mem, q.lv, q.data)
  {
    hide Walk, UserPath, PagesKept, BootSeen, Separate;
    assert !OwnedAt(q.mem, s, w, q.data);
  }
}
