/** Both subsystems on one memory: requests to the memory manager, threads, and the
    code that runs between its calls into the kernel, in any order.  Stacks, page
    tables, held frames, free frames and the bitmap stay apart, and the invariants of
    both subsystems hold together. */
module KernelSystem {
  import opened Wrappers
  import opened PageEntry
  import opened Ram
  import opened Pmm
  import opened PageTables
  import opened BootPaging
  import opened Vmm
  import opened StackMachine
  import opened ContextSwitch
  import opened Tasks
  import opened Suspension
  import opened Dispatch
  import opened KernelRuns
  import opened ThreadSteps
  import opened ThreadRuns
  import opened Elf
  import opened Scheduler
  import Requests = ClientModel
  import Model = ThreadModel

  /** Everything a request of a client may write, and where its frames come from. */
  lemma RequestTouches(c: Requests.Setup, p: Requests.State, op: Requests.Op, q: Requests.State)
    requires Requests.Sound(c, p) && Requests.Moves(c, p, op, q)
    ensures SameOutside(p.mem, q.mem, c.bitmap + q.lv.Keys + p.data + q.data)
    ensures q.lv.Keys <= p.lv.Keys + p.free && q.data <= p.data + p.free && q.free <= p.free + p.data
  {
    hide Walk, UserPath, PageSet, SameLookups, SlotCopied, Mappable, Opened, BootSeen, Reach, Separate;
    match op
    case Store(i, k, x) =>
      if Requests.MayStore(p, i, k) {
        assert Requests.WordIndex(p, i, k) / WORDS_PER_FRAME == FrameOf(p.frames[i]);
      }
    case _ =>
  }

  /** A step that starts with the running code in some state. */
  predicate Reaches(op: Model.Op)
  {
    op.StartAt? || op.YieldAt? || op.SwitchAt? || op.TickAt?
  }

  /** Everything a step of the threads may write: the running code's words, six words
      below its stack pointer, the bitmap and the stack of a new thread. */
  lemma ThreadTouches(c: Model.Config, p: Model.Snapshot, op: Model.Op, q: Model.Snapshot, k: nat)
    requires Model.Moves(c, p, op, q) && k < |p.cpu.mem|
    ensures |q.cpu.mem| == |p.cpu.mem|
    ensures || q.cpu.mem[k] == p.cpu.mem[k]
            || (Reaches(op) && |op.at.mem| == |p.cpu.mem|
                && (op.at.mem[k] != p.cpu.mem[k] || op.at.sp - 6 <= k < op.at.sp))
            || (op.Create? && (k / WORDS_PER_FRAME in Model.BitmapOf(c) || k / WORDS_PER_FRAME in p.free))
  {
    hide CameFrom, SlotAndStack, FirstSuspension, Created, Model.MayWrite, Model.SpaceFor, HandoverEvents, TickEvents,
      Model.CreateMoves;
    match op
    case Create(entry) => if p.call.NoCall? { CreateTouches(c, p, entry, q, k); }
    case TickAt(at) =>
      if q.cpu != p.cpu { TickTouches(c, p.(cpu := at), q, k); }
    case SwitchAt(at) =>
      if q.cpu != p.cpu { LastSwitchTouches(p.(cpu := at), q, k); }
    case _ =>
  }

  lemma SameLength(c: Model.Config, p: Model.Snapshot, op: Model.Op, q: Model.Snapshot)
    requires Model.Moves(c, p, op, q)
    ensures |q.cpu.mem| == |p.cpu.mem|
  {
    hide CameFrom, SlotAndStack, FirstSuspension, Created, Model.MayWrite, Model.SpaceFor, HandoverEvents, TickEvents;
    match op
    case TickAt(at) => if q.cpu != p.cpu && |at.mem| > 0 { TickTouches(c, p.(cpu := at), q, 0); }
    case SwitchAt(at) => if q.cpu != p.cpu && |at.mem| > 0 { LastSwitchTouches(p.(cpu := at), q, 0); }
    case _ =>
  }

  lemma TickTouches(c: Model.Config, p: Model.Snapshot, q: Model.Snapshot, k: nat)
    requires Model.TickMoves(c, p, q) && k < |p.cpu.mem|
    ensures |q.cpu.mem| == |p.cpu.mem| && (q.cpu.mem[k] == p.cpu.mem[k] || p.cpu.sp - 6 <= k < p.cpu.sp)
  {
    hide CameFrom, HandoverEvents, TickEvents;
    if p.view.ready != [] && p.view.current.Some? {
      var prev, next := p.view.current.value, p.view.ready[0];
      SwitchTouches(p.cpu, if prev == next then p.cpu.sp - 6 else Model.SavedWord(p, next), q.cpu);
    }
  }

  lemma LastSwitchTouches(p: Model.Snapshot, q: Model.Snapshot, k: nat)
    requires Model.SwitchMoves(p, q) && k < |p.cpu.mem|
    ensures |q.cpu.mem| == |p.cpu.mem| && (q.cpu.mem[k] == p.cpu.mem[k] || p.cpu.sp - 6 <= k < p.cpu.sp)
  {
    hide CameFrom, HandoverEvents;
    if Model.AtSwitch(p) {
      SwitchTouches(p.cpu, Model.SavedWord(p, p.call.pos.next), q.cpu);
    }
  }

  lemma CreateTouches(c: Model.Config, p: Model.Snapshot, entry: Word, q: Model.Snapshot, k: nat)
    requires Model.CreateMoves(c, p, entry, q) && k < |p.cpu.mem|
    ensures |q.cpu.mem| == |p.cpu.mem|
    ensures q.cpu.mem[k] == p.cpu.mem[k] || k / WORDS_PER_FRAME in Model.BitmapOf(c) || k / WORDS_PER_FRAME in p.free
  {
    hide FirstSuspension, Created, HasRun, FirstUnused;
    var i := FirstUnused(p.used);
    if i < |c.pool| && HasRun(p.free, KERNEL_STACK_PAGES) && q.cpu.mem[k] != p.cpu.mem[k] {
      var f := q.stacks[c.pool[i]];
      RunIsFree(p.free, f, k / WORDS_PER_FRAME);
    }
  }

  lemma RunIsFree(free: set<nat>, f: nat, g: int)
    requires LowestRun(free, f, KERNEL_STACK_PAGES)
    ensures g in StackFrames(f) ==> g in free
  {
  }

  /** The frames of all stacks are no tables, no data pages and none of the image's. */
  ghost predicate Apart(stacks: map<Task, nat>, tables: set<nat>, data: set<nat>, image: set<nat>)
  {
    forall t :: t in stacks ==> StackFrames(stacks[t]) !! tables + data + image
  }

  /** The image's frames belong to nobody else. */
  ghost predicate ImageApart(image: set<nat>, free: set<nat>, bitmap: set<int>, tables: set<nat>, data: set<nat>)
  {
    image !! free && image !! bitmap && image !! tables && image !! data
  }

  /** Writes to frames that hold no stack keep every stopped computation. */
  lemma StacksUntouched(m: Memory, m': Memory, stacks: map<Task, nat>, frames: set<int>)
    requires SameOutside(m, m', frames) && forall t :: t in stacks ==> StackFrames(stacks[t]) !! frames
    ensures OffStacks(m, m', stacks, stacks.Keys)
  {
    hide StackFrames, OnStack;
    forall k: nat, t | k < |m| && m'[k] != m[k] && t in stacks
      ensures !OnStack(stacks[t], k)
    {
      StackWord(stacks[t], k);
    }
  }

  /** The order of the threads survives whatever the rest of the kernel does to other
      frames. */
  lemma OthersKeepOrder(c: Model.Config, p: Model.Snapshot, q: Model.Snapshot, frames: set<int>)
    requires Model.InOrder(c, p) && q == p.(cpu := p.cpu.(mem := q.cpu.mem), free := q.free)
    requires SameOutside(p.cpu.mem, q.cpu.mem, frames) && q.free !! Model.BitmapOf(c)
    requires forall t :: t in p.stacks ==> StackFrames(p.stacks[t]) !! frames + q.free
    ensures Model.InOrder(c, q)
  {
    hide Faithful, StackFrames, Seen, CallOk, Model.EachInPlace, AllKept, AllPending, Model.Stopped;
    StacksUntouched(p.cpu.mem, q.cpu.mem, p.stacks, frames);
    if Faithful(p.trace) {
      OffFewerStacks(p.cpu.mem, q.cpu.mem, p.stacks, Model.Stopped(p.trace, p.stacks).Keys);
      StillKept(p.cpu.mem, q.cpu.mem, p.stacks, Model.Stopped(p.trace, p.stacks));
    }
  }

  lemma OffFewerStacks(m: Memory, m': Memory, stacks: map<Task, nat>, tasks: set<Task>)
    requires OffStacks(m, m', stacks, stacks.Keys)
    ensures OffStacks(m, m', stacks, tasks)
  {
    hide OnStack;
  }

  lemma FreeShrinks(c: Model.Config, p: Model.Snapshot, op: Model.Op, q: Model.Snapshot)
    requires Model.Moves(c, p, op, q)
    ensures q.free <= p.free
    ensures forall t :: t in q.stacks ==>
              (t in p.stacks && q.stacks[t] == p.stacks[t]) || StackFrames(q.stacks[t]) <= p.free
  {
    hide CameFrom, FirstSuspension, Created, Model.Rules, HandoverEvents, TickEvents, HasRun, FirstUnused,
      StackFrames;
    if op.Create? && p.call.NoCall? {
      var i := FirstUnused(p.used);
      if i < |c.pool| && HasRun(p.free, KERNEL_STACK_PAGES) {
        NewStackWasFree(p.free, q.stacks[c.pool[i]]);
      }
    }
  }

  lemma NewStackWasFree(free: set<nat>, f: nat)
    requires LowestRun(free, f, KERNEL_STACK_PAGES)
    ensures StackFrames(f) <= free
  {
    forall g | g in StackFrames(f)
      ensures g in free
    {
      RunIsFree(free, f, g);
    }
  }

  // Joint steps

  datatype Op = Memory(request: Requests.Op) | Thread(step: Model.Op)

  /** The state of both subsystems; they agree on memory and on the free frames. */
  datatype Joint = Joint(memory: Requests.State, threads: Model.Snapshot)

  /** The running code may write word k: it lies on its own stack, in a frame that a
      client holds, or in the image. */
  ghost predicate OwnWord(image: set<nat>, p: Joint, k: int)
  {
    || (Model.Runner(p.threads).Some? && Model.Runner(p.threads).value in p.threads.stacks
        && OnStack(p.threads.stacks[Model.Runner(p.threads).value], k))
    || (exists i :: 0 <= i < |p.memory.frames| && p.memory.frames[i] / PAGE_SIZE == k / WORDS_PER_FRAME)
    || k / WORDS_PER_FRAME in image
  }

  /** The running code has written only its own words, also counting the six pushes it is
      about to cause. */
  ghost predicate Allowed(image: set<nat>, p: Joint, op: Model.Op)
  {
    Reaches(op) ==>
      && |op.at.mem| == |p.threads.cpu.mem| && 6 <= op.at.sp
      && (forall k :: 0 <= k < |op.at.mem| && op.at.mem[k] != p.threads.cpu.mem[k] ==> OwnWord(image, p, k))
      && (forall k :: op.at.sp - 6 <= k < op.at.sp ==> OwnWord(image, p, k))
  }

  /** The step from p to q.  Requests are made outside scheduler_start and task_yield; no
      step of the threads changes a look-up. */
  ghost predicate Moves(image: set<nat>, c: Requests.Setup, d: Model.Config, p: Joint, op: Op, q: Joint)
    requires Requests.Sound(c, p.memory)
  {
    match op
    case Memory(request) =>
      if !p.threads.call.NoCall? then q == p
      else
        && Requests.Moves(c, p.memory, request, q.memory)
        && q.threads == p.threads.(cpu := p.threads.cpu.(mem := q.memory.mem), free := q.memory.free)
    case Thread(step) =>
      if !Allowed(image, p, step) then q == p
      else
        && Model.Moves(d, p.threads, step, q.threads)
        && q.memory == p.memory.(mem := q.threads.cpu.mem, free := q.threads.free)
        && SameLookups(p.memory.mem, q.memory.mem, p.memory.lv)
  }

  /** A run up to its end or to the first tick that tears a call. */
  ghost predicate IsRun(image: set<nat>, c: Requests.Setup, d: Model.Config, states: seq<Joint>, ops: seq<Op>)
  {
    && |states| == |ops| + 1 && (forall i :: 0 <= i <= |ops| ==> Requests.Sound(c, states[i].memory))
    && (forall i :: 0 <= i < |ops| ==> Model.InOrder(d, states[i].threads))
    && forall i :: 0 <= i < |ops| ==> Moves(image, c, d, states[i], ops[i], states[i + 1])
  }

  ghost predicate EarlyTick(image: set<nat>, d: Model.Config, p: Joint, op: Op)
  {
    op.Thread? && Allowed(image, p, op.step) && Model.EarlyTick(d, p.threads, op.step)
  }

  /** The history of switches stays faithful through everything the rest of the kernel
      does, if and only if no tick comes too early. */
  lemma {:induction false} RunKeepsFaith(image: set<nat>, c: Requests.Setup, d: Model.Config, states: seq<Joint>,
                                         ops: seq<Op>)
    requires IsRun(image, c, d, states, ops)
    ensures states[0].threads.trace <= states[|ops|].threads.trace
    ensures Faithful(states[|ops|].threads.trace) <==>
              && Faithful(states[0].threads.trace)
              && forall i :: 0 <= i < |ops| ==> !EarlyTick(image, d, states[i], ops[i])
    decreases |ops|
  {
    hide Faithful, Model.InOrder, Model.Moves, Requests.Moves, Requests.Sound, Allowed, Model.EarlyTick, SameLookups;
    if ops == [] {
    } else {
      var n := |ops| - 1;
      assert IsRun(image, c, d, states[..n + 1], ops[..n]);
      RunKeepsFaith(image, c, d, states[..n + 1], ops[..n]);
      assert Moves(image, c, d, states[n], ops[n], states[n + 1]);
      if ops[n].Thread? && Allowed(image, states[n], ops[n].step) {
        StepKeepsOrder(d, states[n].threads, ops[n].step, states[n + 1].threads);
      }
      assert forall i :: 0 <= i < n ==> ops[..n][i] == ops[i] && states[..n + 1][i] == states[i];
    }
  }

  /** A page outside PML4 slot 0 translates as before while no request maps or unmaps it,
      whatever the threads and the rest of the kernel do. */
  lemma {:induction false} PageStays(image: set<nat>, c: Requests.Setup, d: Model.Config, states: seq<Joint>,
                                     ops: seq<Op>, j: nat, r: nat, w: nat)
    requires IsRun(image, c, d, states, ops) && j <= |ops| && Index(w, 4) != 0
    requires r in states[j].memory.lv && states[j].memory.lv[r] == 4
    requires forall i :: j <= i < |ops| && ops[i].Memory? ==> !Requests.Touches(states[i].memory, ops[i].request, r, w)
    ensures Walk(states[|ops|].memory.mem, r, 4, w) == Walk(states[j].memory.mem, r, 4, w)
    decreases |ops| - j
  {
    hide Walk, Index, Requests.Touches, Requests.Sound, Model.Moves, Model.InOrder, Allowed, PagesKept,
      Requests.Moves;
    if j == |ops| {
    } else {
      var p, q := states[j], states[j + 1];
      assert Moves(image, c, d, p, ops[j], q);
      if ops[j].Memory? && p.threads.call.NoCall? {
        Requests.MovesKeep(c, p.memory, ops[j].request, q.memory);
        Requests.OtherPage(c, p.memory, ops[j].request, q.memory, r, w);
      }
      PageStays(image, c, d, states, ops, j + 1, r, w);
    }
  }

  class Kernel {
    const client: Client
    const threads: Threads
    /** The frames of the kernel image that running code may write: its variables and the
        boot stack. */
    const image: set<nat>

    constructor (client: Client, threads: Threads, image: set<nat>)
      requires client.Valid() && threads.Valid() && client.k.pmm == threads.s.table.pmm
      requires Apart(threads.s.table.stacks, client.k.tables.Keys, client.k.data, image)
      requires ImageApart(image, client.k.pmm.Free(), client.k.pmm.BitmapFrames(), client.k.tables.Keys, client.k.data)
      ensures Valid() && this.client == client && this.threads == threads && this.image == image
    {
      this.client, this.threads, this.image := client, threads, image;
    }

    ghost predicate Valid()
      reads client, client.k, client.k.pmm, client.k.pmm.ram, threads, threads.s, threads.s.cpu, threads.s.cpu.ram,
        threads.s.table, threads.s.table.slotUsed, threads.s.table.pool, threads.s.table.pmm, threads.s.table.pmm.ram,
        threads.s.current
    {
      && client.Valid() && threads.Valid() && client.k.pmm == threads.s.table.pmm
      && Apart(threads.s.table.stacks, client.k.tables.Keys, client.k.data, image)
      && ImageApart(image, client.k.pmm.Free(), client.k.pmm.BitmapFrames(), client.k.tables.Keys, client.k.data)
    }

    /** The running code may write word k: it lies on its own stack, in a frame that a
        client holds, or in the image. */
    predicate Owns(k: int)
      reads client`frames, threads.s`call, threads.s`current, threads.s.table.pool`stackBase,
        threads.s.table.pool`stackTop
    {
      || (threads.Runs() != null && threads.Runs() in threads.s.table.pool
          && threads.Runs().stackBase <= 8 * k < threads.Runs().stackTop)
      || (exists i :: 0 <= i < |client.frames| && client.frames[i] / PAGE_SIZE == k / WORDS_PER_FRAME)
      || k / WORDS_PER_FRAME in image
    }

    /** The running code may reach state `at`: it has written only what it owns, also
        counting the six pushes it is about to cause. */
    predicate Permits(at: Machine)
      reads client`frames, threads.s`call, threads.s`current, threads.s.cpu.ram, threads.s.table.pool`stackBase,
        threads.s.table.pool`stackTop
    {
      && |at.mem| == threads.s.cpu.ram.Length && 6 <= at.sp
      && (forall k :: 0 <= k < |at.mem| && at.mem[k] != threads.s.cpu.ram[k] ==> Owns(k))
      && (forall k :: at.sp - 6 <= k < at.sp ==> Owns(k))
    }

    /** What running code owns is no page table. */
    lemma OwnedOff(k: nat)
      requires Valid() && Owns(k)
      ensures k / WORDS_PER_FRAME !in client.k.tables
    {
      hide FreeSet, StackFrames, Threads.Valid, TablesValid, Requests.Held, FilesApart, Separate;
      TablesApart(client.k.pmm.Free(), client.k.pmm.BitmapFrames(), client.k.tables.Keys, client.k.data);
      if i :| 0 <= i < |client.frames| && client.frames[i] / PAGE_SIZE == k / WORDS_PER_FRAME {
        HeldIsData(client.spaces, client.frames, client.k.tables, client.k.data, i);
      } else if k / WORDS_PER_FRAME !in image {
        OwnStackWord(k);
      }
    }

    lemma OwnStackWord(k: nat)
      requires threads.Valid() && threads.Runs() != null
      requires threads.Runs().stackBase <= 8 * k < threads.Runs().stackTop
      ensures threads.Runs() in threads.s.table.stacks
      ensures k / WORDS_PER_FRAME in StackFrames(threads.s.table.stacks[threads.Runs()])
    {
      hide FreeSet, StackFrames, Faithful, Model.InOrder;
      RunnerCreated(threads.Fixed(), threads.Now());
      threads.TaskFields(threads.Runs());
      StackWord(threads.s.table.stacks[threads.Runs()], k);
    }

    /** A step of the threads, or of the code that runs between them and the kernel.  It
        changes no look-up in any address space; unless a tick tears a call, everything is
        in order afterwards. */
    method ThreadStep(op: Model.Op)
      requires Valid() && (Reaches(op) ==> Permits(op.at))
      modifies threads`idle, threads`early, threads`trace, threads.s, threads.s.cpu, threads.s.cpu.ram, threads.s.table,
        threads.s.table.slotUsed, threads.s.table.pool, threads.s.table.pmm, threads.s.table.pmm.ram
      ensures client.Valid() && threads.s.Base()
      ensures client.Now() == old(client.Now()).(mem := threads.Now().cpu.mem, free := threads.Now().free)
      ensures Model.Moves(threads.Fixed(), old(threads.Now()), op, threads.Now())
      ensures SameLookups(old(client.k.Mem()), client.k.Mem(), client.k.tables)
      ensures threads.s.call.Torn? <==> Model.Tears(threads.Fixed(), old(threads.Now()), op)
      ensures !threads.s.call.Torn? ==> Valid()
    {
      hide FreeSet, StackFrames, TablesValid, Separate, Requests.Held, FilesApart, Model.InOrder, Model.Moves,
        Model.Tears, Faithful, TaskScheduler.Base, TaskScheduler.Shape, Permits, SameLookups, Owns, FramesTouching,
        Fits;
      ghost var p, m, free := threads.Now(), client.k.Mem(), client.k.pmm.Free();
      ghost var tables, data, bitmap := client.k.tables, client.k.data, client.k.pmm.BitmapFrames();
      ReachesOff(op);
      threads.Step(op);
      PmmSealed();
      StepOffTables(threads.Fixed(), p, op, threads.Now(), tables.Keys, free, bitmap, data);
      FreeShrinks(threads.Fixed(), p, op, threads.Now());
      ClientKept(m, client.k.Mem(), tables, client.k.boot, free, client.k.pmm.Free(), bitmap, data, client.files,
                 FrameOf(client.cr3));
      StacksStayApart(p.stacks, threads.s.table.stacks, free, tables.Keys, data, image, bitmap);
    }

    /** A request of a client to the memory manager.  The threads do not notice. */
    method MemoryStep(op: Requests.Op)
      requires Valid()
      modifies client, client.k.pmm, client.k.pmm.ram, client.k`tables, client.k`data
      ensures Valid() && Requests.Moves(client.Fixed(), old(client.Now()), op, client.Now())
      ensures threads.Now() == old(threads.Now()).(cpu := threads.s.cpu.State(), free := client.k.pmm.Free())
      ensures threads.s.cpu.State() == old(threads.s.cpu.State()).(mem := client.k.Mem())
    {
      hide FreeSet, StackFrames, TablesValid, Separate, Requests.Held, FilesApart, Model.InOrder, Requests.Moves,
        Faithful, TaskScheduler.Shape, FramesTouching, Fits, StacksApart, Apart, ImageApart, Requests.Sound;
      ghost var p, q, bitmap := threads.Now(), client.Now(), client.k.pmm.BitmapFrames();
      client.Step(op);
      RequestTouches(client.Fixed(), q, op, client.Now());
      StacksOff(p.stacks, q.free, bitmap, client.k.pmm.totalPages, q.lv.Keys, q.data, image, client.k.pmm.Free(),
                client.k.tables.Keys, client.k.data);
      ImageStaysApart(image, q.free, bitmap, q.lv.Keys, q.data, client.k.pmm.Free(), client.k.tables.Keys,
                      client.k.data);
      ThreadsBase();
      SealedOff(client.k.pmm);
      OthersKeepOrder(threads.Fixed(), p, threads.Now(), bitmap + client.k.tables.Keys + q.data + client.k.data);
    }

    twostate lemma ThreadsBase()
      requires old(threads.s.Base()) && unchanged(threads) && unchanged(threads.s) && unchanged(threads.s.table)
      requires unchanged(threads.s.table.slotUsed) && forall t :: t in threads.s.table.pool ==> unchanged(t)
      requires unchanged(threads.s.cpu) && threads.s.table.pmm.Sealed()
      requires StacksApart(threads.s.table.stacks, threads.s.table.pmm.Free(), threads.s.table.pmm.BitmapFrames(),
                           threads.s.table.pmm.totalPages)
      requires threads.s.View() == old(threads.s.View())
      ensures threads.s.Base()
      ensures threads.s.cpu.State() == old(threads.s.cpu.State()).(mem := threads.s.cpu.ram[..])
      ensures threads.Now() == old(threads.Now()).(cpu := threads.s.cpu.State(), free := threads.s.table.pmm.Free())
    {
      hide FreeSet, StacksApart, TaskScheduler.Shape;
    }

    lemma SealedOff(pmm: FrameAllocator)
      requires pmm.Sealed()
      ensures pmm.Free() !! pmm.BitmapFrames()
    {
    }

    ghost function Now(): Joint
      requires client.Valid() && threads.s.Base()
      reads client, client.k, client.k.pmm, client.k.pmm.ram, threads, threads.s, threads.s.cpu, threads.s.cpu.ram,
        threads.s.table, threads.s.table.slotUsed, threads.s.table.pool, threads.s.table.pmm, threads.s.table.pmm.ram,
        threads.s.current
    {
      Joint(client.Now(), threads.Now())
    }

    /** The compiled permission is that of the model. */
    lemma PermitsAgree(at: Machine)
      requires Valid()
      ensures Permits(at) <==>
                && |at.mem| == |Now().threads.cpu.mem| && 6 <= at.sp
                && (forall k :: 0 <= k < |at.mem| && at.mem[k] != Now().threads.cpu.mem[k] ==> OwnWord(image, Now(), k))
                && (forall k :: at.sp - 6 <= k < at.sp ==> OwnWord(image, Now(), k))
    {
      hide Client.Valid, Model.InOrder, Faithful, TaskScheduler.Shape, Apart, ImageApart, OwnWord, Owns;
      forall k: int
        ensures Owns(k) <==> OwnWord(image, Now(), k)
      {
        OwnsAgrees(k);
      }
    }

    lemma OwnsAgrees(k: int)
      requires Valid()
      ensures Owns(k) <==> OwnWord(image, Now(), k)
    {
      hide Apart, ImageApart, Model.InOrder, Faithful, TaskScheduler.Shape, TaskScheduler.Base, Separate, TablesValid,
        Requests.Held, FilesApart;
      RunnerCreated(threads.Fixed(), threads.Now());
      if threads.Runs() != null { threads.TaskFields(threads.Runs()); }
    }

    lemma PmmSealed()
      requires threads.s.Base()
      ensures threads.s.table.pmm.Sealed() && threads.s.table.pmm.Placed()
      ensures threads.s.cpu.ram == threads.s.table.pmm.ram
    {
      hide FreeSet, StacksApart;
    }

    /** The words in which `at` differs from memory, and its pushes, are off the tables. */
    lemma ReachesOff(op: Model.Op)
      requires Valid() && (Reaches(op) ==> Permits(op.at))
      ensures Reaches(op) ==> OffTables(threads.Now().cpu.mem, op.at, client.k.tables.Keys)
    {
      hide Threads.Valid, Client.Valid, Apart, ImageApart, Owns;
      if Reaches(op) {
        forall k | 0 <= k < |op.at.mem| && (op.at.mem[k] != threads.s.cpu.ram[k] || op.at.sp - 6 <= k < op.at.sp)
          ensures k / WORDS_PER_FRAME !in client.k.tables
        {
          OwnedOff(k);
        }
      }
    }

    method JointRequest(request: Requests.Op)
      requires Valid()
      modifies client, client.k.pmm, client.k.pmm.ram, client.k`tables, client.k`data
      ensures Valid() && Moves(image, client.Fixed(), threads.Fixed(), old(Now()), Memory(request), Now())
    {
      hide Client.Valid, Threads.Valid, Apart, ImageApart, Requests.Moves, Requests.Sound, TaskScheduler.Base;
      if threads.s.call.NoCall? {
        MemoryStep(request);
      }
    }

    method JointStep(step: Model.Op)
      requires Valid()
      modifies threads`idle, threads`early, threads`trace, threads.s, threads.s.cpu, threads.s.cpu.ram, threads.s.table,
        threads.s.table.slotUsed, threads.s.table.pool, threads.s.table.pmm, threads.s.table.pmm.ram
      ensures client.Valid() && threads.s.Base() && (!threads.s.call.Torn? ==> Valid())
      ensures Moves(image, client.Fixed(), threads.Fixed(), old(Now()), Thread(step), Now())
    {
      hide Client.Valid, Threads.Valid, Apart, ImageApart, Model.Moves, Model.Tears, Requests.Sound, Allowed, Permits,
        SameLookups, TaskScheduler.Base;
      ThreadsOk();
      AllowedAgrees(step);
      if !Reaches(step) || Permits(step.at) {
        ThreadStep(step);
      }
    }

    /** Any joint step. */
    method Step(op: Op)
      requires Valid()
      modifies client, client.k, client.k.pmm, client.k.pmm.ram, threads`idle, threads`early, threads`trace, threads.s,
        threads.s.cpu, threads.s.cpu.ram, threads.s.table, threads.s.table.slotUsed, threads.s.table.pool,
        threads.s.table.pmm, threads.s.table.pmm.ram
      ensures client.Valid() && threads.s.Base() && (!threads.s.call.Torn? ==> Valid())
      ensures Moves(image, client.Fixed(), threads.Fixed(), old(Now()), op, Now())
    {
      hide Client.Valid, Threads.Valid, Apart, ImageApart, Moves, TaskScheduler.Base;
      match op
      case Memory(request) =>
        JointRequest(request);
        ThreadsOk();
      case Thread(step) => JointStep(step);
    }

    lemma ThreadsOk()
      requires Valid()
      ensures client.Valid() && threads.s.Base() && !threads.s.call.Torn?
    {
      hide Client.Valid, Model.InOrder, Faithful, TaskScheduler.Shape, TaskScheduler.Base, Apart, ImageApart;
    }

    /** Every joint run is a run of the model up to its end or to the first tick that tears
        a call.  Unless a call was torn, stacks, page tables, held frames, free frames,
        the bitmap and the image are apart at its end and both subsystems are in order. */
    method Run(ops: seq<Op>) returns (ghost states: seq<Joint>, done: nat)
      requires Valid()
      modifies client, client.k, client.k.pmm, client.k.pmm.ram, threads`idle, threads`early, threads`trace, threads.s,
        threads.s.cpu, threads.s.cpu.ram, threads.s.table, threads.s.table.slotUsed, threads.s.table.pool,
        threads.s.table.pmm, threads.s.table.pmm.ram
      ensures client.Valid() && threads.s.Base() && done <= |ops|
      ensures IsRun(image, client.Fixed(), threads.Fixed(), states, ops[..done])
      ensures states[0] == old(Now()) && states[done] == Now()
      ensures if threads.s.call.Torn? then done > 0 else done == |ops| && Valid()
      ensures Faithful(threads.trace) <==>
                && Faithful(old(threads.trace))
                && forall i :: 0 <= i < done ==> !EarlyTick(image, threads.Fixed(), states[i], ops[i])
    {
      hide Client.Valid, Threads.Valid, Apart, ImageApart, Moves, TaskScheduler.Base, Requests.Sound, Model.InOrder,
        Faithful, EarlyTick;
      ThreadsOk();
      states, done := [Now()], 0;
      SoundNow();
      while done < |ops| && !threads.s.call.Torn?
        invariant client.Valid() && threads.s.Base() && done <= |ops| && |states| == done + 1
        invariant states[0] == old(Now()) && states[done] == Now() && (threads.s.call.Torn? ==> done > 0)
        invariant !threads.s.call.Torn? ==> Valid()
        invariant forall j :: 0 <= j <= done ==> Requests.Sound(client.Fixed(), states[j].memory)
        invariant forall j :: 0 <= j < done ==> Model.InOrder(threads.Fixed(), states[j].threads)
        invariant forall j :: 0 <= j < done ==>
          Moves(image, client.Fixed(), threads.Fixed(), states[j], ops[j], states[j + 1])
      {
        SoundNow();
        Step(ops[done]);
        SoundNow();
        states, done := states + [Now()], done + 1;
      }
      RunKeepsFaith(image, client.Fixed(), threads.Fixed(), states, ops[..done]);
    }

    lemma SoundNow()
      requires client.Valid() && threads.s.Base()
      ensures Requests.Sound(client.Fixed(), Now().memory) && Now().threads.trace == threads.trace
      ensures threads.Valid() ==> Model.InOrder(threads.Fixed(), Now().threads)
    {
      hide Client.Valid, Model.InOrder, TaskScheduler.Shape, TaskScheduler.Base, Faithful, Requests.Sound;
    }

    lemma AllowedAgrees(op: Model.Op)
      requires Valid()
      ensures Allowed(image, Now(), op) <==> (Reaches(op) ==> Permits(op.at))
    {
      hide Client.Valid, Threads.Valid, Apart, ImageApart, OwnWord, Permits;
      if Reaches(op) { PermitsAgree(op.at); }
    }

  }

  ghost predicate OffTables(m: Memory, at: Machine, tables: set<nat>)
  {
    |at.mem| == |m| && forall k :: 0 <= k < |m| && (at.mem[k] != m[k] || at.sp - 6 <= k < at.sp) ==>
      k / WORDS_PER_FRAME !in tables
  }

  /** All frames of a memory but these. */
  ghost function AllBut(words: nat, frames: set<nat>): set<int>
  {
    Range(0, words) - frames
  }

  lemma StepOffTables(c: Model.Config, p: Model.Snapshot, op: Model.Op, q: Model.Snapshot, tables: set<nat>,
                      free: set<nat>, bitmap: set<int>, data: set<nat>)
    requires Model.Moves(c, p, op, q) && (Reaches(op) ==> OffTables(p.cpu.mem, op.at, tables))
    requires Separate(free, bitmap, tables, data) && free == p.free && bitmap == Model.BitmapOf(c)
    ensures SameOutside(p.cpu.mem, q.cpu.mem, AllBut(|p.cpu.mem|, tables)) && tables !! AllBut(|p.cpu.mem|, tables)
  {
    hide Model.Moves, Model.BitmapOf, Range;
    var m := p.cpu.mem;
    SameLength(c, p, op, q);
    forall k | 0 <= k < |m| && k / WORDS_PER_FRAME !in AllBut(|m|, tables)
      ensures q.cpu.mem[k] == m[k]
    {
      assert k / WORDS_PER_FRAME in tables;
      ThreadTouches(c, p, op, q, k);
    }
  }

  lemma ClientKept(m: Memory, m': Memory, lv: Levels, b: Boot, free: set<nat>, free': set<nat>, bitmap: set<int>,
                   data: set<nat>, files: seq<File>, c: nat)
    requires TablesValid(m, lv, b) && Separate(free, bitmap, lv.Keys, data) && SeesBoot(m, lv, b, c)
    requires SameOutside(m, m', AllBut(|m|, lv.Keys)) && lv.Keys !! AllBut(|m|, lv.Keys) && free' <= free
    requires FilesApart(files, |m|, free + data, bitmap, lv.Keys)
    ensures TablesValid(m', lv, b) && SameLookups(m, m', lv) && SeesBoot(m', lv, b, c)
    ensures Separate(free', bitmap, lv.Keys, data) && FilesApart(files, |m'|, free' + data, bitmap, lv.Keys)
  {
    hide TablesValid, SameLookups, AllBut, FilesApart, SeesBoot;
    BitmapKeepsValid(m, m', lv, b, AllBut(|m|, lv.Keys));
    FilesStayApart(files, |m|, free + data, bitmap, lv.Keys, free' + data, lv.Keys);
  }

  /** A request takes its frames from the free ones and from those it was given. */
  lemma StacksOff(stacks: map<Task, nat>, free: set<nat>, bitmap: set<int>, total: nat, tables: set<nat>,
                  data: set<nat>, image: set<nat>, free': set<nat>, tables': set<nat>, data': set<nat>)
    requires StacksApart(stacks, free, bitmap, total) && Apart(stacks, tables, data, image)
    requires tables' <= tables + free && data' <= data + free && free' <= free + data
    ensures StacksApart(stacks, free', bitmap, total) && Apart(stacks, tables', data', image)
    ensures forall t :: t in stacks ==> StackFrames(stacks[t]) !! bitmap + tables' + data + data' + free'
  {
    hide StackFrames;
  }

  lemma ImageStaysApart(image: set<nat>, free: set<nat>, bitmap: set<int>, tables: set<nat>, data: set<nat>,
                        free': set<nat>, tables': set<nat>, data': set<nat>)
    requires ImageApart(image, free, bitmap, tables, data)
    requires tables' <= tables + free && data' <= data + free && free' <= free + data
    ensures ImageApart(image, free', bitmap, tables', data')
  {
  }

  lemma StacksStayApart(stacks: map<Task, nat>, stacks': map<Task, nat>, free: set<nat>, tables: set<nat>,
                        data: set<nat>, image: set<nat>, bitmap: set<int>)
    requires Apart(stacks, tables, data, image) && Separate(free, bitmap, tables, data)
    requires ImageApart(image, free, bitmap, tables, data)
    requires forall t :: t in stacks' ==>
               (t in stacks && stacks'[t] == stacks[t]) || StackFrames(stacks'[t]) <= free
    ensures Apart(stacks', tables, data, image)
  {
    hide StackFrames;
  }

  lemma HeldIsData(spaces: seq<nat>, frames: seq<nat>, lv: Levels, data: set<nat>, i: nat)
    requires Requests.Held(spaces, frames, lv, data) && i < |frames|
    ensures FrameOf(frames[i]) in data
  {
  }
}
