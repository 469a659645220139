/** The threading subsystem as a transition system on values: what each step does to
    the CPU, memory, the queue, the stacks and the history, and the order that the
    steps keep.  ThreadRuns shows that the kernel's code takes exactly these steps. */
module ThreadModel {
  import opened Wrappers
  import opened PageEntry
  import opened Ram
  import opened Pmm
  import opened StackMachine
  import opened ContextSwitch
  import opened Tasks
  import opened Suspension
  import opened Dispatch
  import opened RoundRobin

  /** One step.  The running code first reaches state `at` in the steps that have one;
      `StartAt` and `YieldAt` enter scheduler_start and task_yield, `Advance` takes the
      next statement of such a call and `SwitchAt` its switch of stacks.  A step that
      breaks the rules, or that has no place where the code is, is ignored. */
  datatype Op =
    | Create(entry: Word)
    | Admit(i: nat)
    | SetSpace(i: nat, pml4: Word)
    | Leave(state: TaskState)
    | StartAt(at: Machine)
    | YieldAt(at: Machine)
    | Advance
    | SwitchAt(at: Machine)
    | TickAt(at: Machine)

  /** What never changes: the task pool, the managed frames with their bitmap, and
      the kernel's address space. */
  datatype Config = Config(pool: seq<Task>, bitmap: nat, total: nat, kernelPml4: Word)

  /** `idle` are the created tasks that neither wait nor run; `stacks` maps a task to
      the first frame of its stack, `spaces` to its PML4, `saved` to its saved stack
      pointer. */
  datatype Snapshot = Snapshot(
    cpu: Machine, cr3: Word, rsp0: nat, view: View<Task>, call: Call<Task>, idle: seq<Task>,
    stacks: map<Task, nat>, spaces: map<Task, Word>, saved: map<Task, nat>, used: seq<bool>, free: set<nat>,
    trace: seq<Event>)

  /** Whose code runs: the caller of the call in progress, or else the current task.
      Nobody's is that of the boot code. */
  function Runner(p: Snapshot): Option<Task>
  {
    if p.call.Inside? then p.call.caller else p.view.current
  }

  function Running(p: Snapshot): set<Task>
  {
    if Runner(p).Some? then {Runner(p).value} else {}
  }

  /** Word k lies in the bitmap's frames. */
  predicate InBitmap(c: Config, k: int)
  {
    FrameOf(c.bitmap) <= k / WORDS_PER_FRAME <= FrameOf(c.bitmap + BitmapBytes(c.total))
  }

  ghost function BitmapOf(c: Config): set<int>
  {
    FramesTouching(c.bitmap, c.bitmap + BitmapBytes(c.total))
  }

  /** The running code may write word k: it is neither the bitmap's nor on another
      task's stack. */
  ghost predicate MayWrite(c: Config, p: Snapshot, k: int)
  {
    !InBitmap(c, k) && forall t :: t in p.stacks && Some(t) != Runner(p) ==> !OnStack(p.stacks[t], k)
  }

  /** The running code may be in state `at` when it enters the scheduler: it has
      written only what it may, also counting the six pushes it is about to cause,
      and (in a faithful history) it is on its own stack. */
  ghost predicate Rules(c: Config, p: Snapshot, at: Machine)
  {
    && |at.regs| == 15 && |at.mem| == |p.cpu.mem| && 6 <= at.sp < |at.mem|
    && (forall k :: 0 <= k < |at.mem| && at.mem[k] != p.cpu.mem[k] ==> MayWrite(c, p, k))
    && (forall k :: at.sp - 6 <= k < at.sp ==> MayWrite(c, p, k))
    && (Runner(p).Some? && Faithful(p.trace) ==> OnStackOf(at.sp, p.stacks, Runner(p).value))
  }

  ghost predicate OnStackOf(sp: nat, stacks: map<Task, nat>, task: Task)
  {
    task in stacks && WORDS_PER_FRAME * stacks[task] + 6 <= sp < TopWord(stacks[task])
  }

  /** Who drops out of the queue when a tick finds the current task no longer running. */
  function Dropped(v: View<Task>): seq<Task>
  {
    if v.current.Some? && !v.running && v.ready != [] then [v.current.value] else []
  }

  function StackEnd(p: Snapshot, task: Task): nat
  {
    if task in p.stacks then 8 * TopWord(p.stacks[task]) else 0
  }

  function SpaceFor(c: Config, p: Snapshot, task: Option<Task>): Word
  {
    if task.Some? && task.value in p.spaces && p.spaces[task.value] != 0 then p.spaces[task.value] else c.kernelPml4
  }

  function SavedWord(p: Snapshot, task: Task): nat
  {
    if task in p.saved then p.saved[task] / 8 else 0
  }

  /** scheduler_tick.  At most six words of memory change, those below the stack
      pointer (`SwitchTouches`). */
  ghost predicate TickMoves(c: Config, p: Snapshot, q: Snapshot)
  {
    var v := p.view;
    if v.ready == [] then q == p
    else
      var p' := p.(view := Tick(v), call := TornBy(p.call), idle := p.idle + Dropped(Seen(v, p.call)),
                   rsp0 := StackEnd(p, v.ready[0]), trace := p.trace + TickEvents(v, p.stacks, p.cpu, q.cpu));
      if v.current.None? then q == p'.(cpu := p.cpu)
      else
        var prev, next := v.current.value, v.ready[0];
        && 6 <= p.cpu.sp && CameFrom(p.cpu, if prev == next then p.cpu.sp - 6 else SavedWord(p, next), q.cpu)
        && q == p'.(cpu := q.cpu, cr3 := SpaceFor(c, p, Some(next)), saved := p.saved[prev := 8 * (p.cpu.sp - 6)])
  }

  /** The next statement of scheduler_start or task_yield, short of the switch. */
  ghost predicate AdvanceMoves(c: Config, p: Snapshot, q: Snapshot)
  {
    if !p.call.Inside? || p.call.pos.Spaced? || !CanStep(p.view, p.call) then q == p
    else
      var pos := p.call.pos;
      q == p.(view := NextView(p.view, p.call), call := NextCall(p.view, p.call),
              idle := if pos.Marked? then p.idle + Dropped(Seen(p.view, p.call)) else p.idle,
              rsp0 := if pos.Installed? then StackEnd(p, pos.next) else p.rsp0,
              cr3 := if pos.Stacked? then CallSpace(c, p, p.call.caller, pos.next) else p.cr3)
  }

  /** scheduler_start leaves the present space to a task without its own. */
  function CallSpace(c: Config, p: Snapshot, caller: Option<Task>, next: Task): Word
  {
    if caller.Some? || (next in p.spaces && p.spaces[next] != 0) then SpaceFor(c, p, Some(next)) else p.cr3
  }

  /** The call of context_switch at the end of scheduler_start or task_yield. */
  ghost predicate SwitchMoves(p: Snapshot, q: Snapshot)
  {
    if !p.call.Inside? || !p.call.pos.Spaced? then q == p
    else
      var caller, next := p.call.caller, p.call.pos.next;
      && CameFrom(p.cpu, SavedWord(p, next), q.cpu)
      && q == p.(cpu := q.cpu, call := NoCall,
                 saved := if caller.Some? then p.saved[caller.value := 8 * (p.cpu.sp - 6)] else p.saved,
                 trace := p.trace + if caller.None? then [Resume(next, q.cpu)]
                                    else HandoverEvents(p.stacks, p.cpu, caller.value, next, q.cpu))
  }

  /** task_create_kernel_thread when it returns `task`. */
  ghost predicate Creates(c: Config, p: Snapshot, entry: Word, task: Task?, q: Snapshot)
  {
    && SlotAndStack(p.used, q.used, c.pool, p.free, q.free, c.total, p.stacks, q.stacks, task)
    && if task == null then q == p.(used := q.used)
       else
         && task in q.stacks && Created(q.cpu.mem, q.stacks[task], 8 * (TopWord(q.stacks[task]) - 7), entry)
         && q == p.(cpu := p.cpu.(mem := q.cpu.mem), idle := p.idle + [task], stacks := q.stacks,
                    spaces := p.spaces[task := 0], saved := p.saved[task := 8 * (TopWord(q.stacks[task]) - 7)],
                    used := q.used, free := q.free,
                    trace := p.trace + [FirstSuspension(task, q.cpu.mem, q.stacks[task], entry)])
         && SameOutside(p.cpu.mem, q.cpu.mem, BitmapOf(c) + StackFrames(q.stacks[task]))
  }

  ghost predicate CreateMoves(c: Config, p: Snapshot, entry: Word, q: Snapshot)
  {
    var i := FirstUnused(p.used);
    Creates(c, p, entry, if i < |c.pool| && HasRun(p.free, KERNEL_STACK_PAGES) then c.pool[i] else null, q)
  }

  /** Which task is created is determined by the slots and the free frames. */
  lemma CreatesThatTask(c: Config, p: Snapshot, entry: Word, task: Task?, q: Snapshot)
    requires Creates(c, p, entry, task, q) && |p.used| == |c.pool|
    ensures CreateMoves(c, p, entry, q)
  {
    hide HasRun, NewStack, FirstSuspension, SameOutside, Created;
  }

  predicate MayAdmit(p: Snapshot, i: nat)
  {
    p.call.NoCall? && i < |p.idle|
  }

  predicate MayLeave(p: Snapshot, state: TaskState)
  {
    p.call.NoCall? && p.view.current.Some? && state != READY && state != RUNNING
  }

  predicate MayYield(p: Snapshot)
  {
    p.call.NoCall? && p.view.current.Some?
  }

  /** The step from p to q. */
  ghost predicate Moves(c: Config, p: Snapshot, op: Op, q: Snapshot)
  {
    match op
    case Create(entry) => if p.call.NoCall? then CreateMoves(c, p, entry, q) else q == p
    case Admit(i) =>
      q == if MayAdmit(p, i)
           then p.(view := Next(p.view, Admitted(p.idle[i])), idle := p.idle[..i] + p.idle[i + 1..]) else p
    case SetSpace(i, pml4) => q == if MayAdmit(p, i) then p.(spaces := p.spaces[p.idle[i] := pml4]) else p
    case Leave(state) => q == if MayLeave(p, state) then p.(view := Next(p.view, LeftRunning)) else p
    case StartAt(at) =>
      q == if p.call.NoCall? && Rules(c, p, at) then p.(cpu := at, call := StartCall(p.view)) else p
    case YieldAt(at) =>
      q == if MayYield(p) && Rules(c, p, at)
           then p.(cpu := at, view := YieldView(p.view), call := YieldCall(p.view)) else p
    case Advance => AdvanceMoves(c, p, q)
    case SwitchAt(at) => if Rules(c, p, at) && AtSwitch(p) then SwitchMoves(p.(cpu := at), q) else q == p
    case TickAt(at) => if Rules(c, p, at) && !p.call.Torn? then TickMoves(c, p.(cpu := at), q) else q == p
  }

  predicate AtSwitch(p: Snapshot)
  {
    p.call.Inside? && p.call.pos.Spaced?
  }

  // The order that the steps keep

  /** Idle tasks, waiting tasks and the current task are the created tasks, each in
      one place. */
  ghost predicate EachInPlace(idle: seq<Task>, pool: seq<Task>, created: set<Task>, v: View<Task>)
  {
    && (forall t :: t in created ==> t in pool && (t in idle || t in v.ready || Some(t) == v.current))
    && (forall i :: 0 <= i < |idle| ==>
          idle[i] in created && idle[i] !in v.ready && Some(idle[i]) != v.current)
    && Different(idle) && Different(v.ready)
    && (forall i :: 0 <= i < |v.ready| ==> v.ready[i] in created && Some(v.ready[i]) != v.current)
    && (if v.current.Some? then v.current.value in created else !v.running)
  }

  /** What each task stopped in last, if it has not gone on since. */
  ghost function Stopped(trace: seq<Event>, stacks: map<Task, nat>): map<Task, Machine>
  {
    map t | t in stacks && Pending(trace, t).Some? :: Pending(trace, t).value.0
  }

  ghost predicate SavedAt(saved: map<Task, nat>, stopped: map<Task, Machine>)
  {
    forall t :: t in stopped ==> t in saved && saved[t] + 48 == 8 * stopped[t].sp
  }

  /** Stack pointer, address space and TSS are those of the running code, or those of
      the task that the call dispatches once they are stored. */
  ghost predicate Owned(c: Config, p: Snapshot)
  {
    var r := Runner(p);
    && (r.Some? ==>
          && r.value in p.stacks
          && WORDS_PER_FRAME * p.stacks[r.value] <= p.cpu.sp <= TopWord(p.stacks[r.value]))
    && p.cr3 == SpaceFor(c, p, if AtSwitch(p) then Some(p.call.pos.next) else r)
    && (if p.call.Inside? && (p.call.pos.Stacked? || p.call.pos.Spaced?) then p.rsp0 == StackEnd(p, p.call.pos.next)
        else r.Some? ==> p.rsp0 == StackEnd(p, r.value))
  }

  /** Every task but the running one is kept on its own stack, at its saved stack
      pointer, in the state in which it stopped. */
  ghost predicate Homed(c: Config, p: Snapshot)
  {
    && Parked(p.cpu.mem, p.trace, p.stacks, Stopped(p.trace, p.stacks), Running(p))
    && SavedAt(p.saved, Stopped(p.trace, p.stacks)) && Owned(c, p)
  }

  /** Stacks and saved stack pointers lie inside memory, each stack apart from the
      others, from free frames and from the bitmap. */
  ghost predicate Sound(c: Config, p: Snapshot)
  {
    && WORDS_PER_FRAME * c.total <= |p.cpu.mem| && p.free !! BitmapOf(c)
    && StacksApart(p.stacks, p.free, BitmapOf(c), c.total)
    && p.saved.Keys == p.spaces.Keys == p.stacks.Keys
    && (forall t :: t in p.saved ==> p.saved[t] % 8 == 0 && p.saved[t] / 8 + 7 <= |p.cpu.mem|)
  }

  /** The tasks seen as if the call in progress had not begun, or had named its task at
      once, are each in one place. */
  ghost predicate Lined(c: Config, p: Snapshot)
  {
    && CallOk(p.view, p.call)
    && EachInPlace(p.idle, c.pool, p.stacks.Keys, Seen(p.view, p.call))
    && (p.call.Inside? && p.call.caller.Some? ==> p.call.caller.value in p.stacks)
    && (p.call.Inside? && Named(p.call.pos) ==> p.call.pos.next in p.stacks)
  }

  /** The order of the threading subsystem. */
  ghost predicate InOrder(c: Config, p: Snapshot)
  {
    !p.call.Torn? && Sound(c, p) && Lined(c, p) && (Faithful(p.trace) ==> Homed(c, p))
  }

  /** A tick for somebody who waits that finds the CPU not running the current task:
      nobody is current, or scheduler_start or task_yield has named the current task
      but not yet switched to its stack. */
  ghost predicate EarlyTick(c: Config, p: Snapshot, op: Op)
  {
    && op.TickAt? && Rules(c, p, op.at) && !p.call.Torn? && p.view.ready != []
    && (p.view.current.None? || Runner(p) != p.view.current)
  }

  /** A tick that switches away from a call in progress. */
  ghost predicate Tears(c: Config, p: Snapshot, op: Op)
  {
    op.TickAt? && Rules(c, p, op.at) && p.call.Inside? && p.view.ready != []
  }
}
