/** Arbitrary runs of the memory subsystem: any sequence of frame allocations and
    releases, stores to frames, new address spaces, mappings, unmappings and program
    loads by clients that release only data frames they were given. */
module KernelRuns {
  import opened Wrappers
  import opened PageEntry
  import opened Ram
  import opened Pmm
  import opened PageTables
  import opened BootPaging
  import opened Vmm
  import opened Elf
  import opened ElfLoader
  import opened ClientModel

  /** The RAM files stay out of everything that is handed out. */
  ghost predicate FilesApart(files: seq<File>, words: nat, pool: set<nat>, bitmap: set<int>, tables: set<nat>)
  {
    forall i :: 0 <= i < |files| ==> FileApart(files[i], words, pool, bitmap, tables)
  }

  lemma FilesStayApart(files: seq<File>, words: nat, pool: set<nat>, bitmap: set<int>, tables: set<nat>,
                       pool': set<nat>, tables': set<nat>)
    requires FilesApart(files, words, pool, bitmap, tables) && pool' <= pool && tables' - tables <= pool
    ensures FilesApart(files, words, pool', bitmap, tables')
  {
    forall i | 0 <= i < |files|
      ensures FileApart(files[i], words, pool', bitmap, tables')
    {
      assert FileApart(files[i], words, pool, bitmap, tables);
    }
  }

  lemma HeldGrows(spaces: seq<nat>, frames: seq<nat>, lv: Levels, data: set<nat>, lv': Levels, data': set<nat>)
    requires Held(spaces, frames, lv, data) && TablesGrew(lv, lv') && data <= data'
    ensures Held(spaces, frames, lv', data')
  {
  }

  lemma HeldWith(spaces: seq<nat>, frames: seq<nat>, lv: Levels, data: set<nat>, address: nat)
    requires Held(spaces, frames, lv, data) && address % PAGE_SIZE == 0 && FrameOf(address) !in data
    ensures Held(spaces, frames + [address], lv, data + {FrameOf(address)})
  {
  }

  lemma HeldSpace(spaces: seq<nat>, frames: seq<nat>, lv: Levels, data: set<nat>, pml4: nat)
    requires Held(spaces, frames, lv, data) && pml4 % PAGE_SIZE == 0 && FrameOf(pml4) in lv && lv[FrameOf(pml4)] == 4
    ensures Held(spaces + [pml4], frames, lv, data)
  {
  }

  lemma HeldWithSpace(spaces: seq<nat>, frames: seq<nat>, lv: Levels, data: set<nat>, pml4: nat)
    requires Held(spaces, frames, lv, data) && pml4 % PAGE_SIZE == 0 && FrameOf(pml4) !in lv
    ensures Held(spaces + [pml4], frames, lv[FrameOf(pml4) := 4], data)
  {
    HeldGrows(spaces, frames, lv, data, lv[FrameOf(pml4) := 4], data);
    HeldSpace(spaces, frames, lv[FrameOf(pml4) := 4], data, pml4);
  }

  lemma LoadedMeans(m: Memory, lv: Levels, free: set<nat>, data: set<nat>, m': Memory, lv': Levels, free': set<nat>,
                    data': set<nat>, bitmap: set<int>, b: Boot)
    requires OnlyLoaded(m, lv, free, data, m', lv', free', data', bitmap, b)
    ensures data <= data' && free' + data' <= free + data && lv'.Keys - lv.Keys <= free + data
    ensures |m'| == |m| && TablesGrew(lv, lv') && BootSeen(m, lv, m', lv', b)
  {
    hide UserOwned, LeftAlone, PagesKept, AllRootsKept, BootSeen;
    OnlyLoadedMeans(free, data, lv, free', data', lv');
  }

  lemma TablesAreInRam(m: Memory, lv: Levels, b: Boot)
    requires TablesValid(m, lv, b)
    ensures TablesInRam(m, lv)
  {
  }

  lemma ImageFits(m: Memory, m0: Memory, r: nat, c: nat, file: File, segs: seq<Segment>)
    requires file.data + file.size <= 8 * |m0| && ProgramImage(m, m0, r, c, file, segs)
    ensures AllFit(segs, file)
  {
    hide Walk;
  }

  lemma FileFits(file: File, words: nat, free: set<nat>, bitmap: set<int>, tables: set<nat>)
    requires FileApart(file, words, free, bitmap, tables)
    ensures file.data + file.size <= 8 * words
  {
  }

  /** The contract of the loader as a step of the model. */
  lemma LoadsBy(c: Setup, p: State, i: nat, q: State, ok: bool, pml4: nat)
    requires i < |c.files| && c.files[i].data + c.files[i].size <= 8 * |p.mem| && q.frames == p.frames
    requires OnlyLoaded(p.mem, p.lv, p.free, p.data, q.mem, q.lv, q.free, q.data, c.bitmap, c.boot)
    requires q.spaces == if ok then p.spaces + [pml4] else p.spaces
    requires !ok && HeaderOk(p.mem, c.files[i]) ==>
               || !AllFit(Headers(p.mem, c.files[i]), c.files[i])
               || (Short(q.free) && !Enough(p.free, Headers(p.mem, c.files[i])))
    requires ok ==>
               && HeaderOk(p.mem, c.files[i]) && FrameOf(pml4) !in p.lv && TablesInRam(q.mem, q.lv)
               && SeesBoot(q.mem, q.lv, c.boot, FrameOf(pml4))
               && ProgramImage(q.mem, p.mem, FrameOf(pml4), FrameOf(c.cr3), c.files[i], Headers(p.mem, c.files[i]))
               && (Enough(p.free, Headers(p.mem, c.files[i])) ==>
                     AllMapped(q.mem, FrameOf(pml4), Headers(p.mem, c.files[i])))
    ensures Loads(c, p, i, q)
  {
    hide OnlyLoaded, HeaderOk, AllFit, Headers, Short, Enough, SeesBoot, ProgramImage, AllMapped;
    assert ok ==> q.spaces != p.spaces;
  }

  lemma OnlyLoadedMeans(free: set<nat>, data: set<nat>, lv: Levels, free': set<nat>, data': set<nat>, lv': Levels)
    requires Spent(free, lv.Keys, data, free', lv'.Keys, data')
    ensures data <= data' && free' + data' <= free + data && lv'.Keys - lv.Keys <= free + data
  {
  }

  lemma HeldWithout(spaces: seq<nat>, frames: seq<nat>, lv: Levels, data: set<nat>, i: nat)
    requires Held(spaces, frames, lv, data) && i < |frames|
    ensures Held(spaces, frames[..i] + frames[i + 1..], lv, data - {FrameOf(frames[i])})
  {
  }

  /** The contract of pmm_alloc_page as a step of the model. */
  lemma TakenBy(c: Setup, p: State, q: State, address: nat)
    requires SameOutside(p.mem, q.mem, c.bitmap) && SameLookups(p.mem, q.mem, p.lv)
    requires if p.free == {} then q == p
             else && FrameOf(address) in p.free && address % PAGE_SIZE == 0
                  && q == p.(mem := q.mem, free := p.free - {FrameOf(address)}, data := p.data + {FrameOf(address)},
                             frames := p.frames + [address])
    ensures Takes(c, p, q)
  {
    hide SameOutside, SameLookups;
  }

  /** The contract of vmm_create_address_space as a step of the model. */
  lemma CreatedBy(c: Setup, p: State, q: State, pml4: nat)
    requires SameLookups(p.mem, q.mem, p.lv)
    requires if p.free == {} then q == p
             else && FrameOf(pml4) in p.free && SameOutside(p.mem, q.mem, c.bitmap + {FrameOf(pml4)})
                  && (forall v :: Walk(q.mem, FrameOf(pml4), 4, v) == None)
                  && q == p.(mem := q.mem, lv := p.lv[FrameOf(pml4) := 4], free := p.free - {FrameOf(pml4)},
                             spaces := p.spaces + [pml4])
    ensures Creates(c, p, q)
  {
    hide SameOutside, SameLookups, Walk;
  }

  class Client {
    const k: AddressSpaces
    const cr3: nat
    const files: seq<File>
    var spaces: seq<nat>
    var frames: seq<nat>

    constructor (k: AddressSpaces, cr3: nat, files: seq<File>)
      requires k.Valid() && SeesBoot(k.Mem(), k.tables, k.boot, FrameOf(cr3)) && cr3 % PAGE_SIZE == 0
      requires FilesApart(files, |k.Mem()|, k.pmm.Free() + k.data, k.pmm.BitmapFrames(), k.tables.Keys)
      ensures Valid() && this.k == k && this.cr3 == cr3 && this.files == files && spaces == [] && frames == []
    {
      this.k, this.cr3, this.files, spaces, frames := k, cr3, files, [], [];
    }

    /** The kernel is in order and the files are out of reach. */
    ghost predicate KernelOk()
      reads this, k, k.pmm, k.pmm.ram
    {
      && k.Valid() && SeesBoot(k.Mem(), k.tables, k.boot, FrameOf(cr3)) && cr3 % PAGE_SIZE == 0
      && FilesApart(files, |k.Mem()|, k.pmm.Free() + k.data, k.pmm.BitmapFrames(), k.tables.Keys)
    }

    ghost predicate Valid()
      reads this, k, k.pmm, k.pmm.ram
    {
      KernelOk() && Held(spaces, frames, k.tables, k.data)
    }

    /** What never changes in a run. */
    ghost function Fixed(): Setup
    {
      Setup(k.pmm.BitmapFrames(), k.pmm.totalPages, k.boot, cr3, files)
    }

    ghost function Now(): (p: State)
      requires Valid()
      reads this, k, k.pmm, k.pmm.ram
      ensures Sound(Fixed(), p)
    {
      hide FreeSet, Separate, Held, FilesApart;
      State(k.Mem(), k.tables, k.pmm.Free(), k.data, spaces, frames)
    }

    method TakeFrame()
      requires Valid()
      modifies this`frames, k.pmm, k.pmm.ram, k`data
      ensures Valid() && Moves(Fixed(), old(Now()), Op.TakeFrame, Now())
    {
      hide FreeSet, TablesValid, Separate, Held, FilesApart, SameLookups, Fits, FramesTouching, SeesBoot, SameOutside,
        Takes;
      ghost var free, data, lv := k.pmm.Free(), k.data, k.tables;
      ghost var p := Now();
      SeparateMeans(free, k.pmm.BitmapFrames(), lv.Keys, data, 0);
      var address := k.AllocFrame();
      assert k.pmm.Free() + k.data <= free + data;
      FilesStayApart(files, |k.Mem()|, free + data, k.pmm.BitmapFrames(), lv.Keys, k.pmm.Free() + k.data, lv.Keys);
      if address != 0 {
        SeparateMeans(free, k.pmm.BitmapFrames(), lv.Keys, data, FrameOf(address));
        HeldWith(spaces, frames, lv, data, address);
        frames := frames + [address];
      }
      TakenBy(Fixed(), p, Now(), address);
    }

    method GiveBack(i: nat)
      requires Valid() && i < |frames|
      modifies this`frames, k.pmm, k.pmm.ram, k`data
      ensures Valid() && Moves(Fixed(), old(Now()), Op.GiveBack(i), Now())
    {
      hide FreeSet, TablesValid, Separate, FilesApart, SameLookups;
      ghost var free, data, lv := k.pmm.Free(), k.data, k.tables;
      HeldWithout(spaces, frames, lv, data, i);
      k.FreeFrame(frames[i]);
      assert k.pmm.Free() + k.data <= free + data;
      FilesStayApart(files, |k.Mem()|, free + data, k.pmm.BitmapFrames(), lv.Keys, k.pmm.Free() + k.data, lv.Keys);
      frames := frames[..i] + frames[i + 1..];
    }

    /** The client writes a word of a frame it holds. */
    method Store(i: nat, j: nat, x: Word)
      requires Valid() && MayStore(Now(), i, j)
      modifies k.pmm.ram
      ensures Valid() && Moves(Fixed(), old(Now()), Op.Store(i, j, x), Now())
    {
      hide FreeSet, TablesValid, FilesApart, SameLookups, FramesTouching;
      ghost var m, f := k.Mem(), FrameOf(frames[i]);
      k.pmm.ram[WORDS_PER_FRAME * (frames[i] / PAGE_SIZE) + j] := x;
      assert SameOutside(m, k.Mem(), {f});
      DataKeepsValid(m, k.Mem(), k.tables, k.boot, k.pmm.bitmap, k.pmm.totalPages, {f});
    }

    method NewSpace()
      requires Valid()
      modifies this`spaces, k.pmm, k.pmm.ram, k`tables
      ensures Valid() && Moves(Fixed(), old(Now()), Op.NewSpace, Now())
    {
      hide FreeSet, TablesValid, Separate, Held, FilesApart, SameLookups, EmptyTable, Walk, SameOutside, UserClosed,
        Fits, FramesTouching, SeesBoot, Creates;
      ghost var p, free, data, lv, words := Now(), k.pmm.Free(), k.data, k.tables, |k.Mem()|;
      SameStateKept(k.Mem(), lv, k.boot);
      SeparateMeans(free, k.pmm.BitmapFrames(), lv.Keys, data, 0);
      var pml4 := k.CreateAddressSpace();
      if pml4 != 0 {
        SeparateMeans(free, k.pmm.BitmapFrames(), lv.Keys, data, FrameOf(pml4));
        HeldWithSpace(spaces, frames, lv, data, pml4);
        spaces := spaces + [pml4];
        FilesStayApart(files, words, free + data, k.pmm.BitmapFrames(), lv.Keys, k.pmm.Free() + k.data, k.tables.Keys);
      }
      CreatedBy(Fixed(), p, Now(), pml4);
    }

    method Share(i: nat)
      requires Valid() && i < |spaces|
      modifies k.pmm.ram
      ensures Valid() && Moves(Fixed(), old(Now()), Op.Share(i), Now())
    {
      hide FreeSet, TablesValid, Separate, FilesApart, SlotCopied, SameOutside;
      k.ShareKernelSlot(spaces[i], cr3);
    }

    method Map(i: nat, v: Word, phys: Word, flags: Word)
      requires Valid() && i < |spaces|
      modifies k.pmm, k.pmm.ram, k`tables
      ensures Valid() && Moves(Fixed(), old(Now()), Op.Map(i, v, phys, flags), Now())
    {
      hide FreeSet, TablesValid, Separate, FilesApart, SameLookups, PageSet, RightsKept, Mappable, LeafEntry,
        SameOutside, PagesKept, Opened, UserPath, SameSpaces, Accounts;
      ghost var free, data, lv, words := k.pmm.Free(), k.data, k.tables, |k.Mem()|;
      ghost var mapped := k.MapPage(spaces[i], v, phys, flags);
      HeldGrows(spaces, frames, lv, data, k.tables, data);
      AccountsPool(free, lv.Keys, k.pmm.Free(), k.tables.Keys, data);
      FilesStayApart(files, words, free + data, k.pmm.BitmapFrames(), lv.Keys, k.pmm.Free() + k.data, k.tables.Keys);
    }

    method Unmap(i: nat, v: Word)
      requires Valid() && i < |spaces|
      modifies k.pmm.ram
      ensures Valid() && Moves(Fixed(), old(Now()), Op.Unmap(i, v), Now())
    {
      hide FreeSet, TablesValid, Separate, FilesApart, PageSet, RightsKept, Reach, SameOutside, SameLookups;
      k.UnmapPage(spaces[i], v);
    }

    method LoadProgram(i: nat)
      requires Valid() && i < |files|
      modifies this`spaces, k.pmm, k.pmm.ram, k`tables, k`data
      ensures Valid() && Moves(Fixed(), old(Now()), Op.LoadProgram(i), Now())
    {
      hide FreeSet, TablesValid, Separate, Held, HeaderOk, ProgramImage, AllMapped, AllFit, Headers, Short,
        OnlyLoaded, Enough, Loads, SeesBoot;
      ghost var m, lv, free, data := k.Mem(), k.tables, k.pmm.Free(), k.data;
      FilesStayApart(files, |m|, free + data, k.pmm.BitmapFrames(), lv.Keys, free, lv.Keys);
      var ok, pml4 := LoadFile(i);
      LoadedMeans(m, lv, free, data, k.Mem(), k.tables, k.pmm.Free(), k.data, k.pmm.BitmapFrames(), k.boot);
      HeldGrows(spaces, frames, lv, data, k.tables, k.data);
      FilesStayApart(files, |m|, free + data, k.pmm.BitmapFrames(), lv.Keys, k.pmm.Free() + k.data, k.tables.Keys);
      if ok {
        HeldSpace(spaces, frames, k.tables, k.data, pml4);
        spaces := spaces + [pml4];
      }
    }

    /** The call of the loader. */
    method LoadFile(i: nat) returns (ok: bool, pml4: nat)
      requires KernelOk() && i < |files|
      requires FilesApart(files, |k.Mem()|, k.pmm.Free(), k.pmm.BitmapFrames(), k.tables.Keys)
      modifies k.pmm, k.pmm.ram, k`tables, k`data
      ensures k.Valid() && pml4 % PAGE_SIZE == 0
      ensures OnlyLoaded(old(k.Mem()), old(k.tables), old(k.pmm.Free()), old(k.data), k.Mem(), k.tables, k.pmm.Free(),
                         k.data, k.pmm.BitmapFrames(), k.boot)
      ensures ok ==> k.IsSpace(FrameOf(pml4))
      ensures Loads(Fixed(), State(old(k.Mem()), old(k.tables), old(k.pmm.Free()), old(k.data), spaces, frames), i,
                    State(k.Mem(), k.tables, k.pmm.Free(), k.data, if ok then spaces + [pml4] else spaces, frames))
    {
      hide FreeSet, TablesValid, Separate, HeaderOk, ProgramImage, AllMapped, AllFit, Headers, Short, OnlyLoaded,
        Enough, SeesBoot, Loads, FileApart;
      ghost var p := State(k.Mem(), k.tables, k.pmm.Free(), k.data, spaces, frames);
      FileFits(files[i], |k.Mem()|, k.pmm.Free(), k.pmm.BitmapFrames(), k.tables.Keys);
      assert FileApart(files[i], |k.Mem()|, k.pmm.Free(), k.pmm.BitmapFrames(), k.tables.Keys);
      var entry;
      ok, entry, pml4 := Load(k, cr3, Some(files[i]));
      if !ok { pml4 := 0; }
      if ok { ImageFits(k.Mem(), p.mem, FrameOf(pml4), FrameOf(cr3), files[i], Headers(p.mem, files[i])); }
      TablesAreInRam(k.Mem(), k.tables, k.boot);
      LoadsBy(Fixed(), p, i, State(k.Mem(), k.tables, k.pmm.Free(), k.data, if ok then spaces + [pml4] else spaces,
                                   frames), ok, pml4);
    }

    /** Any request is the step of the model. */
    method Step(op: Op)
      requires Valid()
      modifies this, k.pmm, k.pmm.ram, k`tables, k`data
      ensures Valid() && Moves(Fixed(), old(Now()), op, Now())
    {
      hide FreeSet, TablesValid, Separate, Held, FilesApart, SameLookups, Takes, GivesBack, Creates, SharesSlot, Maps,
        Unmaps, Loads;
      SameStateKept(k.Mem(), k.tables, k.boot);
      match op
      case TakeFrame => TakeFrame();
      case GiveBack(i) => if i < |frames| { GiveBack(i); }
      case Store(i, j, x) =>
        if i < |frames| && j < WORDS_PER_FRAME && WORDS_PER_FRAME * (frames[i] / PAGE_SIZE) + j < k.pmm.ram.Length {
          Store(i, j, x);
        }
      case NewSpace => NewSpace();
      case Share(i) => if i < |spaces| { Share(i); }
      case Map(i, v, phys, flags) => if i < |spaces| { Map(i, v, phys, flags); }
      case Unmap(i, v) => if i < |spaces| { Unmap(i, v); }
      case LoadProgram(i) => if i < |files| { LoadProgram(i); }
    }

    /** Every run is a run of the model, so pages translate as last mapped or unmapped
        and held words keep what was last stored (`LastMapWins`, `LastUnmapWins`,
        `LastStoreWins`).  A frame that ever became a table is still that table, so the
        allocator never hands it out again, and every space that saw the boot map at the
        start still maps the first GiB to itself, out of reach of user code. */
    method Run(ops: seq<Op>) returns (ghost states: seq<State>)
      requires Valid()
      modifies this, k.pmm, k.pmm.ram, k`tables, k`data
      ensures Valid() && IsRun(Fixed(), states, ops) && states[0] == old(Now()) && states[|ops|] == Now()
      ensures TablesGrew(old(k.tables), k.tables) && k.tables.Keys !! k.pmm.Free() && k.tables.Keys !! k.data
      ensures forall r: nat, v: nat :: SeesBoot(old(k.Mem()), old(k.tables), k.boot, r) && v < GIB ==>
                Effective(k.Mem(), r, v) == Some(Leaf(v, false, true, false))
    {
      hide FreeSet, TablesValid, Separate, Held, FilesApart, Effective, SeesBoot, SameLookups, Moves, Sound;
      ghost var m, lv := k.Mem(), k.tables;
      SameStateKept(m, lv, k.boot);
      states := [Now()];
      for i := 0 to |ops|
        invariant Valid() && |states| == i + 1 && states[0] == old(Now()) && states[i] == Now()
        invariant forall j :: 0 <= j <= i ==> Sound(Fixed(), states[j])
        invariant forall j :: 0 <= j < i ==> Moves(Fixed(), states[j], ops[j], states[j + 1])
        invariant TablesGrew(lv, k.tables) && BootSeen(m, lv, k.Mem(), k.tables, k.boot)
      {
        ghost var p := Now();
        Step(ops[i]);
        states := states + [Now()];
        MovesKeep(Fixed(), p, ops[i], Now());
      }
      TablesApart(k.pmm.Free(), k.pmm.BitmapFrames(), k.tables.Keys, k.data);
      SupervisorEverywhere(m, lv, k.Mem(), k.tables, k.boot);
    }
  }

  lemma AccountsPool(free: set<nat>, tables: set<nat>, free': set<nat>, tables': set<nat>, data: set<nat>)
    requires Accounts(free, tables, free', tables')
    ensures free' + data <= free + data && tables' - tables <= free + data
  {
  }

  lemma SupervisorEverywhere(m: Memory, lv: Levels, m': Memory, lv': Levels, b: Boot)
    requires BootSeen(m, lv, m', lv', b) && TablesValid(m', lv', b)
    ensures forall r: nat, v: nat :: SeesBoot(m, lv, b, r) && v < GIB ==>
              Effective(m', r, v) == Some(Leaf(v, false, true, false))
  {
    hide TablesValid, Effective, Walk;
    forall r: nat, v: nat | SeesBoot(m, lv, b, r) && v < GIB
      ensures Effective(m', r, v) == Some(Leaf(v, false, true, false))
    {
      KernelStaysSupervisor(m', lv', b, r, v);
    }
  }
}
