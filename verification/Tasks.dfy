/** Process control blocks and task_create_kernel_thread (kernel_os/src/task.cpp):
    a fixed pool of slots, a stack of four frames from the frame allocator, and a
    forged context on top of it. */
module Tasks {
  import opened PageEntry
  import opened Ram
  import opened Pmm
  import opened StackMachine
  import opened ContextSwitch

  datatype TaskState = NEW | READY | RUNNING | BLOCKED | TERMINATED

  class Task {
    var pid: nat
    var state: TaskState
    var stackBase: nat
    var stackTop: nat
    var savedRsp: nat
    var pml4: Word
    var next: Task?

    /** A slot of the zero-initialised pool. */
    constructor ()
      ensures stackBase == 0 && stackTop == 0 && state == NEW && next == null
    {
      pid, state, stackBase, stackTop, savedRsp, pml4, next := 0, NEW, 0, 0, 0, 0, null;
    }
  }

  const MAX_TASKS: nat := 64
  const KERNEL_STACK_PAGES: nat := 4
  const STACK_BYTES: nat := 0x4000
  const CONTEXT_BYTES: nat := 56
  const PID_LIMIT: nat := 0x1_0000_0000

  /** The first word above a stack that starts at frame `f`. */
  function TopWord(f: nat): nat
  {
    WORDS_PER_FRAME * (f + KERNEL_STACK_PAGES)
  }

  predicate OnStack(f: nat, k: int)
  {
    WORDS_PER_FRAME * f <= k < TopWord(f)
  }

  ghost function StackFrames(f: nat): set<int>
  {
    Range(f, f + KERNEL_STACK_PAGES)
  }

  /** Every stack is managed memory of its own: used, off the bitmap, and apart
      from the other stacks. */
  ghost predicate StacksApart(stacks: map<Task, nat>, free: set<nat>, bitmap: set<int>, total: nat)
  {
    && (forall t :: t in stacks ==>
          && 0 < stacks[t] && stacks[t] + KERNEL_STACK_PAGES <= total
          && StackFrames(stacks[t]) !! free && StackFrames(stacks[t]) !! bitmap)
    && (forall t, u :: t in stacks && u in stacks && t != u ==>
          stacks[t] + KERNEL_STACK_PAGES <= stacks[u] || stacks[u] + KERNEL_STACK_PAGES <= stacks[t])
  }

  lemma StackWord(f: nat, k: nat)
    ensures OnStack(f, k) <==> k / WORDS_PER_FRAME in StackFrames(f)
  {
  }

  /** The lowest run of four free frames became the stack at frame `f`. */
  ghost predicate NewStack(free: set<nat>, free': set<nat>, f: nat, total: nat)
  {
    && LowestRun(free, f, KERNEL_STACK_PAGES) && 0 < f && f + KERNEL_STACK_PAGES <= total
    && free' == free - StackFrames(f)
  }

  lemma AnotherStack(stacks: map<Task, nat>, free: set<nat>, bitmap: set<int>, total: nat, task: Task, f: nat,
                     free': set<nat>)
    requires StacksApart(stacks, free, bitmap, total) && task !in stacks && free !! bitmap
    requires NewStack(free, free', f, total)
    ensures StacksApart(stacks[task := f], free', bitmap, total)
  {
    hide Range;
    assert f in free;
    forall t | t in stacks
      ensures stacks[t] + KERNEL_STACK_PAGES <= f || f + KERNEL_STACK_PAGES <= stacks[t]
    {
      assert stacks[t] in StackFrames(stacks[t]);
    }
  }

  lemma RunOffBitmap(free: set<nat>, bitmap: set<int>, f: nat)
    requires AllFree(free, f, KERNEL_STACK_PAGES) && free !! bitmap
    ensures StackFrames(f) !! bitmap
  {
    forall g | g in StackFrames(f)
      ensures g !in bitmap
    {
      assert g in free;
    }
  }

  lemma SameOutsideTwice(m: Memory, m': Memory, m'': Memory, fs: set<int>, gs: set<int>)
    requires SameOutside(m, m', fs) && SameOutside(m', m'', gs)
    ensures SameOutside(m, m'', fs + gs)
  {
  }

  function FirstUnused(used: seq<bool>): (i: nat)
    ensures i <= |used| && (forall j :: 0 <= j < i ==> used[j]) && (i < |used| ==> !used[i])
  {
    if used == [] then 0 else if !used[0] then 0 else 1 + FirstUnused(used[1..])
  }

  /** The slot and the stack that task_create_kernel_thread takes: null exactly when
      no slot is left or no run of four frames is free, and in the second case the
      slot is lost. */
  ghost predicate SlotAndStack(used: seq<bool>, used': seq<bool>, pool: seq<Task>, free: set<nat>, free': set<nat>,
                               total: nat, stacks: map<Task, nat>, stacks': map<Task, nat>, task: Task?)
  {
    var i := FirstUnused(used);
    && used' == (if i < |used| then used[i := true] else used)
    && (task == null <==> i == |used| || !HasRun(free, KERNEL_STACK_PAGES))
    && (task == null ==> stacks' == stacks && free' == free)
    && (task != null ==>
          && i < |pool| && task == pool[i] && task !in stacks && task in stacks'
          && stacks' == stacks[task := stacks'[task]] && NewStack(free, free', stacks'[task], total))
  }

  lemma SlotAndStackMeans(used: seq<bool>, used': seq<bool>, pool: seq<Task>, free: set<nat>, free': set<nat>,
                          total: nat, stacks: map<Task, nat>, stacks': map<Task, nat>, task: Task?)
    requires SlotAndStack(used, used', pool, free, free', total, stacks, stacks', task)
    ensures if task == null then stacks' == stacks && free' == free
            else && task !in stacks && task in stacks' && stacks' == stacks[task := stacks'[task]]
                 && stacks'.Keys == stacks.Keys + {task}
  {
  }

  class TaskTable {
    const pmm: FrameAllocator
    const pool: seq<Task>
    const slotUsed: array<bool>
    var nextPid: nat
    /** The first stack frame of every task that was created. */
    ghost var stacks: map<Task, nat>

    ghost predicate PoolOk()
      reads this, slotUsed
    {
      && |pool| == slotUsed.Length == MAX_TASKS
      && (forall i, j :: 0 <= i < j < |pool| ==> pool[i] != pool[j])
      && nextPid < PID_LIMIT
      && (forall t :: t in stacks ==> t in pool)
      && (forall i :: 0 <= i < |pool| && pool[i] in stacks ==> slotUsed[i])
    }

    ghost predicate StackFields()
      reads this`stacks, pool`stackBase, pool`stackTop
    {
      forall t :: t in pool ==>
        if t in stacks then t.stackBase == PAGE_SIZE * stacks[t] && t.stackTop == t.stackBase + STACK_BYTES
        else t.stackBase == 0 && t.stackTop == 0
    }

    ghost predicate Valid()
      reads this, slotUsed, pool`stackBase, pool`stackTop, pmm, pmm.ram
    {
      && PoolOk() && StackFields() && pmm.Sealed()
      && StacksApart(stacks, pmm.Free(), pmm.BitmapFrames(), pmm.totalPages)
    }

    constructor (pmm: FrameAllocator)
      requires pmm.Sealed()
      ensures Valid() && this.pmm == pmm && stacks == map[] && nextPid == 1
      ensures fresh(slotUsed) && forall t :: t in pool ==> fresh(t) && t.state == NEW
    {
      var slots: seq<Task> := [];
      while |slots| < MAX_TASKS
        invariant |slots| <= MAX_TASKS
        invariant forall t :: t in slots ==> fresh(t) && t.stackBase == 0 && t.stackTop == 0 && t.state == NEW
        invariant forall i, j :: 0 <= i < j < |slots| ==> slots[i] != slots[j]
      {
        var t := new Task();
        slots := slots + [t];
      }
      this.pmm, pool, nextPid, stacks := pmm, slots, 1, map[];
      slotUsed := new bool[MAX_TASKS](i => false);
    }

    /** allocate_task_slot: the lowest slot never used before. */
    method AllocateTaskSlot() returns (task: Task?)
      requires PoolOk()
      modifies slotUsed
      ensures var i := FirstUnused(old(slotUsed[..]));
        if i < MAX_TASKS then task == pool[i] && slotUsed[..] == old(slotUsed[..])[i := true]
        else task == null && slotUsed[..] == old(slotUsed[..])
    {
      for i := 0 to MAX_TASKS
        invariant forall j :: 0 <= j < i ==> slotUsed[j]
        invariant slotUsed[..] == old(slotUsed[..])
      {
        if !slotUsed[i] {
          slotUsed[i] := true;
          return pool[i];
        }
      }
      return null;
    }

    /** The stack for a new task: the lowest four free frames in a row. */
    method AllocateStack() returns (stackBase: nat)
      requires pmm.Sealed()
      modifies pmm, pmm.ram
      ensures pmm.Sealed() && SameOutside(old(pmm.ram[..]), pmm.ram[..], pmm.BitmapFrames())
      ensures if HasRun(old(pmm.Free()), KERNEL_STACK_PAGES)
              then && stackBase != 0 && stackBase % PAGE_SIZE == 0
                   && NewStack(old(pmm.Free()), pmm.Free(), FrameOf(stackBase), pmm.totalPages)
              else stackBase == 0 && pmm.ram[..] == old(pmm.ram[..])
    {
      hide FreeSet, Range, HasRun, SameOutside, SameBytesOutside;
      ghost var m, free := pmm.ram[..], pmm.Free();
      stackBase := pmm.AllocPages(KERNEL_STACK_PAGES);
      OutsideFrames(m, pmm.ram[..], pmm.bitmap, pmm.bitmap + BitmapBytes(pmm.totalPages));
      if HasRun(free, KERNEL_STACK_PAGES) {
        RunFits(free, pmm.totalPages, FrameOf(stackBase), KERNEL_STACK_PAGES);
        assert FrameOf(stackBase) in free;
      }
    }

    /** A new stack with a forged context on top. */
    method PrepareStack(entry: Word) returns (stackBase: nat, ghost f: nat)
      requires pmm.Sealed()
      modifies pmm, pmm.ram
      ensures pmm.Sealed()
      ensures if HasRun(old(pmm.Free()), KERNEL_STACK_PAGES)
              then && stackBase != 0 && stackBase == PAGE_SIZE * f
                   && NewStack(old(pmm.Free()), pmm.Free(), f, pmm.totalPages)
                   && Created(pmm.ram[..], f, stackBase + STACK_BYTES - CONTEXT_BYTES, entry)
                   && SameOutside(old(pmm.ram[..]), pmm.ram[..], pmm.BitmapFrames() + StackFrames(f))
              else stackBase == 0 && pmm.ram[..] == old(pmm.ram[..])
    {
      hide FreeSet, Range, HasRun, SameOutside, Kept, Forged, StackFrames;
      ghost var m, free := pmm.ram[..], pmm.Free();
      stackBase := AllocateStack();
      f := FrameOf(stackBase);
      if stackBase == 0 {
        return;
      }
      ghost var m' := pmm.ram[..];
      RunOffBitmap(free, pmm.BitmapFrames(), f);
      ForgeContext(f, (stackBase + STACK_BYTES - CONTEXT_BYTES) / 8, entry);
      SameOutsideTwice(m, m', pmm.ram[..], pmm.BitmapFrames(), StackFrames(f));
    }

    /** The seven stores to the forged CpuContext. */
    method ForgeContext(ghost f: nat, sp: nat, entry: Word)
      requires pmm.Sealed() && sp == TopWord(f) - 7 && f + KERNEL_STACK_PAGES <= pmm.totalPages
          && StackFrames(f) !! pmm.BitmapFrames()
      modifies pmm.ram
      ensures pmm.Sealed() && pmm.Free() == old(pmm.Free())
      ensures SameOutside(old(pmm.ram[..]), pmm.ram[..], StackFrames(f))
      ensures Created(pmm.ram[..], f, 8 * (TopWord(f) - 7), entry)
    {
      hide FreeSet;
      ghost var m := pmm.ram[..];
      StoreContext(sp, entry);
      assert SameOutside(m, pmm.ram[..], StackFrames(f));
      FreeSetReadsBitmap(m, pmm.ram[..], pmm.bitmap, pmm.totalPages, StackFrames(f));
      ForgedIsKept(pmm.ram[..], TopWord(f), entry);
    }

    method StoreContext(sp: nat, entry: Word)
      requires sp + 7 <= pmm.ram.Length
      modifies pmm.ram
      ensures forall k :: 0 <= k < pmm.ram.Length ==>
                pmm.ram[k] == if sp <= k < sp + 6 then 0 else if k == sp + 6 then entry else old(pmm.ram[k])
    {
      var ram := pmm.ram;
      ram[sp] := 0;
      ram[sp + 1] := 0;
      ram[sp + 2] := 0;
      ram[sp + 3] := 0;
      ram[sp + 4] := 0;
      ram[sp + 5] := 0;
      ram[sp + 6] := entry;
    }

    /** The field assignments of task_create_kernel_thread. */
    method FillTask(task: Task, stackBase: nat)
      requires nextPid < PID_LIMIT
      modifies task, this`nextPid
      ensures task.pid == old(nextPid) && nextPid == (task.pid + 1) % PID_LIMIT && nextPid < PID_LIMIT
      ensures task.state == READY && task.next == null && task.pml4 == 0
      ensures task.stackBase == stackBase && task.stackTop == stackBase + STACK_BYTES
      ensures task.savedRsp == stackBase + STACK_BYTES - CONTEXT_BYTES
    {
      task.pid := nextPid;
      nextPid := (nextPid + 1) % PID_LIMIT;
      task.state := READY;
      task.stackBase := stackBase;
      task.stackTop := stackBase + STACK_BYTES;
      task.savedRsp := task.stackTop - CONTEXT_BYTES;
      task.pml4 := 0;
      task.next := null;
    }

    /** The rest of task_create_kernel_thread, once it has a slot. */
    method SetUp(task: Task, entry: Word) returns (ok: bool)
      requires Valid() && task in pool && task !in stacks
      requires forall i :: 0 <= i < |pool| && pool[i] == task ==> slotUsed[i]
      modifies pmm, pmm.ram, task, this`nextPid, this`stacks
      ensures Valid()
      ensures ok <==> HasRun(old(pmm.Free()), KERNEL_STACK_PAGES)
      ensures !ok ==>
                stacks == old(stacks) && pmm.ram[..] == old(pmm.ram[..]) && nextPid == old(nextPid) && unchanged(task)
      ensures ok ==>
                && task !in old(stacks) && task.state == READY && task.next == null && task.pml4 == 0
                && task.pid == old(nextPid) && nextPid == (task.pid + 1) % PID_LIMIT
                && task in stacks && stacks == old(stacks)[task := stacks[task]]
                && NewStack(old(pmm.Free()), pmm.Free(), stacks[task], pmm.totalPages)
                && Created(pmm.ram[..], stacks[task], task.savedRsp, entry)
                && SameOutside(old(pmm.ram[..]), pmm.ram[..], pmm.BitmapFrames() + StackFrames(stacks[task]))
    {
      hide FreeSet, Range, HasRun, SameOutside, SameBytesOutside, LowestRun, NewStack, Created, StacksApart;
      ghost var free := pmm.Free();
      var stackBase, f := PrepareStack(entry);
      ok := stackBase != 0;
      if ok {
        AnotherStack(stacks, free, pmm.BitmapFrames(), pmm.totalPages, task, f, pmm.Free());
        FillTask(task, stackBase);
        stacks := stacks[task := f];
      }
    }

    /** task_create_kernel_thread.  The slot stays taken when no stack is found. */
    method CreateKernelThread(entry: Word) returns (task: Task?)
      requires Valid()
      modifies slotUsed, pmm, pmm.ram, pool, this`nextPid, this`stacks
      ensures Valid()
      ensures SlotAndStack(old(slotUsed[..]), slotUsed[..], pool, old(pmm.Free()), pmm.Free(), pmm.totalPages,
                           old(stacks), stacks, task)
      ensures task == null ==>
                && pmm.ram[..] == old(pmm.ram[..]) && nextPid == old(nextPid)
                && forall t :: t in pool ==> unchanged(t)
      ensures task != null ==>
                && task in pool && task in stacks && task.state == READY && task.next == null && task.pml4 == 0
                && task.pid == old(nextPid) && nextPid == (task.pid + 1) % PID_LIMIT
                && Created(pmm.ram[..], stacks[task], task.savedRsp, entry)
                && SameOutside(old(pmm.ram[..]), pmm.ram[..], pmm.BitmapFrames() + StackFrames(stacks[task]))
                && forall t :: t in pool && t != task ==> unchanged(t)
    {
      hide FreeSet, Range, HasRun, SameOutside, NewStack, Created, StacksApart, FirstUnused;
      var slot := AllocateTaskSlot();
      if slot == null {
        return null;
      }
      var ok := SetUp(slot, entry);
      task := if ok then slot else null;
    }
  }

  /** Memory keeps, at `savedRsp`, the forged start of a thread on the stack from frame `f`. */
  ghost predicate Created(m: Memory, f: nat, savedRsp: nat, entry: Word)
  {
    && TopWord(f) <= |m| && savedRsp == 8 * (TopWord(f) - 7)
    && Kept(m, TopWord(f) - 7, TopWord(f), Forged(m, TopWord(f), entry))
  }

  lemma CreatedLoads(m: Memory, f: nat, savedRsp: nat, entry: Word)
    requires Created(m, f, savedRsp, entry)
    ensures savedRsp == 8 * (TopWord(f) - 7) && savedRsp / 8 + 7 <= |m| && TopWord(f) <= |m|
  {
  }
}
