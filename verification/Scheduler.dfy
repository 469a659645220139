/** The round-robin scheduler (kernel_os/src/scheduler.cpp): an intrusive FIFO
    list of ready tasks, and the switch from one task's stack to another's.  A tick
    runs with interrupts off; scheduler_start and task_yield run statement by
    statement, so that ticks may come in between. */
module Scheduler {
  import opened Wrappers
  import opened PageEntry
  import opened Ram
  import opened Pmm
  import opened StackMachine
  import opened ContextSwitch
  import opened Tasks
  import opened Processor
  import opened Suspension
  import opened Dispatch
  import RoundRobin

  class TaskScheduler {
    const cpu: Cpu
    const table: TaskTable
    var current: Task?
    var readyHead: Task?
    var readyTail: Task?
    const kernelPml4: Word
    /** How far the code is inside scheduler_start or task_yield. */
    var call: Call<Task>
    /** What the links from readyHead spell. */
    ghost var queue: seq<Task>
    /** Every task ever passed to scheduler_add_task. */
    ghost var admitted: set<Task>

    /** scheduler_init, before any thread is created. */
    constructor (cpu: Cpu, table: TaskTable)
      requires cpu.ram == table.pmm.ram && table.Valid() && table.stacks == map[]
      requires forall t :: t in table.pool ==> t.state == NEW
      ensures Valid() && this.cpu == cpu && this.table == table && kernelPml4 == cpu.cr3
      ensures current == null && queue == [] && admitted == {} && call == NoCall
    {
      this.cpu, this.table, kernelPml4 := cpu, table, cpu.cr3;
      current, readyHead, readyTail, call := null, null, null, NoCall;
      queue, admitted := [], {};
      new;
      hide FreeSet, StacksApart;
    }

    // The ready list

    ghost predicate QueueOk()
      reads this`readyHead, this`readyTail, this`queue, table.pool`state, table.pool`next
    {
      && (forall i :: 0 <= i < |queue| ==> queue[i] in table.pool && queue[i].state == READY)
      && (forall i, j :: 0 <= i < j < |queue| ==> queue[i] != queue[j])
      && (forall i :: 0 <= i < |queue| - 1 ==> queue[i].next == queue[i + 1])
      && (if queue == [] then readyHead == null && readyTail == null
          else readyHead == queue[0] && readyTail == queue[|queue| - 1] && readyTail.next == null)
    }

    /** Only the current task runs, it does not wait, and no admitted task that is
        READY or RUNNING is anywhere else. */
    ghost predicate ListOk()
      reads this`current, this`readyHead, this`readyTail, this`queue, this`admitted, table.pool`state, table.pool`next
    {
      && QueueOk()
      && (current != null ==>
            current in admitted && current !in queue && current in table.pool && current.state != READY)
      && (forall t :: t in queue ==> t in admitted)
      && (forall t :: t in admitted ==>
            t in table.pool && (t.state == READY || t.state == RUNNING ==> t in queue || t == current))
      && (forall t :: t in table.pool && t.state == RUNNING ==> t == current)
    }

    /** Every admitted task that is READY waits, and nobody is RUNNING. */
    ghost predicate NobodyRuns()
      reads this`readyHead, this`readyTail, this`queue, this`admitted, table.pool`state, table.pool`next
    {
      && QueueOk()
      && (forall t :: t in queue ==> t in admitted)
      && (forall t :: t in admitted ==> t in table.pool && (t.state == READY ==> t in queue))
      && (forall t :: t in table.pool ==> t.state != RUNNING)
    }

    /** The same but for task `n`, which is in no list and has this state. */
    ghost predicate Held(n: Task, state: TaskState)
      reads this`readyHead, this`readyTail, this`queue, this`admitted, table.pool`state, table.pool`next, n`state
    {
      && QueueOk() && n in admitted && n !in queue && n.state == state
      && (forall t :: t in queue ==> t in admitted)
      && (forall t :: t in admitted ==> t in table.pool && (t.state == READY ==> t in queue || t == n))
      && (forall t :: t in table.pool && t.state == RUNNING ==> t == n)
    }

    ghost function View(): RoundRobin.View<Task>
      reads this`current, this`queue, current
    {
      RoundRobin.View(if current == null then None else Some(current), current != null && current.state == RUNNING,
                      queue)
    }

    /** How the list stands at each place of a call. */
    ghost predicate Shape()
      reads this`current, this`readyHead, this`readyTail, this`queue, this`admitted, this`call, table.pool`state,
        table.pool`next, current
    {
      && CallOk(View(), call) && QueueOk()
      && (forall t :: t in queue ==> t in admitted)
      && (current != null ==> current in admitted && current in table.pool)
      && match call
         case NoCall => ListOk()
         case Torn(_, _) => true
         case Inside(caller, pos) =>
           && (caller.Some? ==> caller.value in admitted)
           && match pos
              case Demoted => caller.value in table.pool && Held(caller.value, READY)
              case Tested => NobodyRuns()
              case Chosen(_) => NobodyRuns()
              case Unlinked(n) => n in table.pool && Held(n, READY)
              case Marked(n) => n in table.pool && Held(n, RUNNING)
              case _ => ListOk()
    }

    /** Links a READY task to the end of the list. */
    method Link(task: Task)
      requires QueueOk() && task in table.pool && task !in queue && task.state == READY
      modifies this`readyHead, this`readyTail, this`queue, table.pool`next
      ensures QueueOk() && queue == old(queue) + [task]
    {
      task.next := null;
      if readyHead == null {
        readyHead := task;
        readyTail := task;
      } else {
        readyTail.next := task;
        readyTail := task;
      }
      queue := queue + [task];
    }

    /** The stores that both scheduler_add_task and scheduler_tick use to append. */
    method Append(task: Task)
      requires QueueOk() && task in table.pool && task !in queue
      modifies this`readyHead, this`readyTail, this`queue, task`state, table.pool`next
      ensures QueueOk() && queue == old(queue) + [task] && task.state == READY
    {
      task.state := READY;
      Link(task);
    }

    /** Unlinks the head of a non-empty list. */
    method TakeHead() returns (next: Task)
      requires QueueOk() && queue != []
      modifies this`readyHead, this`readyTail, this`queue
      ensures next == old(queue[0]) && queue == old(queue[1..]) && QueueOk()
    {
      next := readyHead;
      readyHead := readyHead.next;
      if readyHead == null {
        readyTail := null;
      }
      queue := queue[1..];
    }

    // The CPU

    /** The address space a task runs in: its own, or the kernel's. */
    function SpaceOf(task: Task): Word
      reads task`pml4
    {
      if task.pml4 != 0 then task.pml4 else kernelPml4
    }

    /** Any saved stack pointer can be loaded. */
    ghost predicate Loadable()
      reads table`stacks, table.pool`savedRsp
    {
      forall t :: t in table.stacks && t in table.pool ==>
        t.savedRsp % 8 == 0 && t.savedRsp / 8 + 7 <= cpu.ram.Length
    }

    /** The tasks and the allocator are in order, whatever the CPU does. */
    ghost predicate Base()
      reads this`admitted, table, table.slotUsed, table.pool`stackBase, table.pool`stackTop, table.pool`savedRsp,
        table.pmm, table.pmm.ram
    {
      cpu.ram == table.pmm.ram && table.Valid() && Loadable() && admitted <= table.stacks.Keys
    }

    ghost predicate Valid()
      reads this, table, table.slotUsed, table.pool, table.pmm, table.pmm.ram, current
    {
      Base() && Shape() && !call.Torn?
    }

    /** The pushes of context_switch do not reach the allocator's bitmap. */
    ghost predicate OffBitmap()
      reads cpu`sp
    {
      forall k :: cpu.sp - 6 <= k < cpu.sp ==> k / WORDS_PER_FRAME !in table.pmm.BitmapFrames()
    }

    /** The CPU can enter context_switch: it has all registers, a return address on its
        stack and six words below. */
    ghost predicate Calling()
      reads cpu, cpu.ram
    {
      Room(cpu.State(), 6, 1) && OffBitmap()
    }

    /** context_switch. */
    method SwitchTasks(prev: Task?, next: Task)
      requires Base() && Calling() && next in table.stacks
      modifies cpu`sp, cpu`regs, cpu`rip, cpu.ram, (if prev == null then {} else {prev})`savedRsp
      ensures Base() && table.pmm.Free() == old(table.pmm.Free())
      ensures CameFrom(old(cpu.State()), old(cpu.IncomingSp(prev, next)), cpu.State())
      ensures prev != null ==> prev.savedRsp == 8 * (old(cpu.sp) - 6)
    {
      hide SaveContext, LoadContext, FreeSet, StacksApart, FramesTouching;
      ghost var s, bitmap := cpu.State(), table.pmm.BitmapFrames();
      cpu.SwitchContext(prev, next);
      SaveKeeps(s, 0);
      PushesKeepBitmap(s, cpu.ram[..], table.pmm.bitmap, table.pmm.totalPages);
    }

    lemma ListShape()
      requires ListOk() && call.NoCall?
      ensures Shape()
    {
    }

    // scheduler_tick

    /** What every dispatch does to the list. */
    method RunHead() returns (next: Task)
      requires QueueOk() && queue != []
      modifies this`current, this`readyHead, this`readyTail, this`queue, table.pool`state
      ensures QueueOk() && next == current == old(queue[0]) && queue == old(queue[1..]) && next.state == RUNNING
      ensures old(NobodyRuns()) ==> ListOk()
    {
      HeadAndRest(queue);
      next := TakeHead();
      next.state := RUNNING;
      current := next;
    }

    /** The list half of scheduler_tick when someone is current and someone waits. */
    method Rotate() returns (prev: Task, next: Task)
      requires QueueOk() && current != null && current in table.pool && queue != []
      requires current.state == RUNNING ==> current !in queue
      modifies this`current, this`readyHead, this`readyTail, this`queue, table.pool`state, table.pool`next
      ensures QueueOk() && prev == old(current) && next == current == old(queue[0])
      ensures View() == RoundRobin.Tick(old(View()))
      ensures old(ListOk()) ==> ListOk()
    {
      prev := current;
      if prev.state == RUNNING {
        Append(prev);
      }
      assert old(ListOk()) ==> NobodyRuns();
      next := RunHead();
    }

    /** TSS, CR3 and the switch of stacks. */
    method GoTo(prev: Task, next: Task)
      requires Base() && Calling() && next in table.stacks
      modifies cpu, cpu.ram, prev`savedRsp
      ensures Base() && table.pmm.Free() == old(table.pmm.Free())
      ensures cpu.rsp0 == next.stackTop && cpu.cr3 == SpaceOf(next)
      ensures CameFrom(old(cpu.State()), old(cpu.IncomingSp(prev, next)), cpu.State())
      ensures prev.savedRsp == 8 * (old(cpu.sp) - 6)
    {
      hide FreeSet, StacksApart, CameFrom, OffBitmap, Loadable, Fits, FramesTouching;
      cpu.rsp0 := next.stackTop;
      cpu.cr3 := SpaceOf(next);
      assert Room(cpu.State(), 6, 1);
      SwitchTasks(prev, next);
    }

    /** scheduler_tick when someone is current and someone waits. */
    method TickSwitch()
      requires Base() && Calling() && QueueOk() && queue != [] && queue[0] in table.stacks
      requires current != null && current in table.pool && current in table.stacks
      requires current.state == RUNNING ==> current !in queue
      modifies this`current, this`readyHead, this`readyTail, this`queue, cpu, cpu.ram, table.pool`state,
        table.pool`next, table.pool`savedRsp
      ensures Base() && QueueOk() && View() == RoundRobin.Tick(old(View())) && table.pmm.Free() == old(table.pmm.Free())
      ensures old(ListOk()) ==> ListOk()
      ensures current == old(queue[0]) && cpu.rsp0 == current.stackTop && cpu.cr3 == SpaceOf(current)
      ensures CameFrom(old(cpu.State()), old(cpu.IncomingSp(current, queue[0])), cpu.State())
      ensures old(current).savedRsp == 8 * (old(cpu.sp) - 6)
      ensures forall t :: t in table.pool && t != old(current) ==> t.savedRsp == old(t.savedRsp)
    {
      hide FreeSet, StacksApart, ListOk, QueueOk, CameFrom, OffBitmap, Loadable, Fits, FramesTouching, NobodyRuns;
      var prev, next := Rotate();
      GoTo(prev, next);
    }

    lemma TickFacts()
      requires Base() && Shape() && !call.Torn?
      ensures QueueOk() && (readyHead == null <==> queue == []) && (queue != [] ==> queue[0] in table.stacks)
      ensures current != null ==> current in table.pool && current in table.stacks
      ensures current != null && current.state == RUNNING ==> current !in queue
      ensures call.NoCall? ==> ListOk()
      ensures queue == [] ==> RoundRobin.Tick(View()) == View()
    {
    }

    /** The head of the queue becomes the current task. */
    method TickFirst()
      requires QueueOk() && current == null && queue != []
      modifies this`current, this`readyHead, this`readyTail, this`queue, cpu`rsp0, table.pool`state
      ensures QueueOk() && View() == RoundRobin.Tick(old(View()))
      ensures current == old(queue[0]) && cpu.rsp0 == current.stackTop
      ensures old(ListOk()) ==> ListOk()
    {
      assert ListOk() ==> NobodyRuns();
      var next := RunHead();
      cpu.rsp0 := next.stackTop;
    }

    /** scheduler_tick, at any place of a call that it may have interrupted.  When
        nobody is current the head of the queue becomes the current task, but neither
        its context nor its address space is loaded. */
    method Tick()
      requires Valid() && Calling()
      modifies this`current, this`readyHead, this`readyTail, this`queue, this`call, cpu, cpu.ram, table.pool`state,
        table.pool`next, table.pool`savedRsp
      ensures Base() && (!call.Torn? ==> Valid())
      ensures View() == RoundRobin.Tick(old(View())) && table.pmm.Free() == old(table.pmm.Free())
      ensures call == if old(queue) != [] then TornBy(old(call)) else old(call)
      ensures old(queue) == [] || old(current) == null ==>
                && cpu.State() == old(cpu.State()) && cpu.cr3 == old(cpu.cr3)
                && forall t :: t in table.pool ==> t.savedRsp == old(t.savedRsp)
      ensures if old(queue) == [] then cpu.rsp0 == old(cpu.rsp0)
              else current == old(queue[0]) && cpu.rsp0 == current.stackTop
      ensures old(queue) != [] && old(current) != null ==>
                && cpu.cr3 == SpaceOf(current)
                && CameFrom(old(cpu.State()), old(cpu.IncomingSp(current, queue[0])), cpu.State())
                && old(current).savedRsp == 8 * (old(cpu.sp) - 6)
                && forall t :: t in table.pool && t != old(current) ==> t.savedRsp == old(t.savedRsp)
    {
      hide Base, Shape, CallOk, CameFrom, OffBitmap, ListOk, QueueOk, RoundRobin.Tick, SpaceOf, View, NobodyRuns,
        Held;
      TickFacts();
      if readyHead == null {
        return;
      }
      if current == null {
        TickFirst();
      } else {
        TickSwitch();
      }
      call := TornBy(call);
      if call.NoCall? { ListShape(); }
    }

    // scheduler_start and task_yield

    lemma ListFacts()
      requires ListOk()
      ensures QueueOk() && (readyHead == null <==> queue == [])
      ensures Different(View().ready) && (View().current.None? ==> !View().running)
      ensures current != null ==> current !in queue && current in table.pool && current in admitted
      ensures current == null || current.state != RUNNING ==> NobodyRuns()
      ensures forall t :: t in queue ==> t in admitted
    {
    }

    lemma QueueFacts()
      requires QueueOk()
      ensures readyHead == null <==> queue == []
      ensures queue != [] ==> readyHead == queue[0] && readyHead in table.pool
    {
    }

    /** The tests of scheduler_start. */
    method EnterStart()
      requires Valid() && call.NoCall?
      modifies this`call
      ensures Valid() && call == StartCall(View())
    {
      hide Base, ListOk, QueueOk, NobodyRuns, Held, CallOk;
      ListFacts();
      StartSeen(View());
      if current == null && readyHead != null {
        call := Inside(None, Tested);
      }
    }

    /** prev_task->state = READY */
    method Demote()
      requires ListOk() && current != null && current.state == RUNNING
      modifies current`state
      ensures Held(current, READY) && queue == old(queue) && current in table.pool
    {
      current.state := READY;
    }

    /** The tests of scheduler_tick, called by task_yield of a task that is current, up
        to the store that marks the caller READY. */
    method EnterYield()
      requires Valid() && call.NoCall? && current != null
      modifies this`call, current`state
      ensures Valid() && View() == YieldView(old(View())) && call == YieldCall(old(View()))
    {
      hide Base, ListOk, QueueOk, NobodyRuns, Held, CallOk;
      ListFacts();
      YieldSeen(View());
      if readyHead == null {
        return;
      }
      if current.state == RUNNING {
        Demote();
        HeldFacts(current, READY);
        call := Inside(Some(current), Demoted);
      } else {
        call := Inside(Some(current), Tested);
      }
    }

    lemma HeldFacts(n: Task, state: TaskState)
      requires Held(n, state)
      ensures QueueOk() && n in admitted && n !in queue && n.state == state && forall t :: t in queue ==> t in admitted
    {
    }

    lemma NobodyFacts()
      requires NobodyRuns()
      ensures QueueOk() && forall t :: t in queue ==> t in admitted
    {
    }

    /** Appends a held task. */
    method QueueHeld(task: Task)
      requires Held(task, READY) && task in table.pool
      modifies this`readyHead, this`readyTail, this`queue, table.pool`next
      ensures NobodyRuns() && queue == old(queue) + [task]
    {
      Link(task);
    }

    /** Unlinks the head, which is held from then on. */
    method HoldHead()
      requires NobodyRuns() && queue != []
      modifies this`readyHead, this`readyTail, this`queue
      ensures Held(old(queue[0]), READY) && queue == old(queue[1..]) && old(queue[0]) in table.pool
    {
      HeadAndRest(queue);
      var head := TakeHead();
    }

    /** Marks a held task RUNNING; scheduler_start also clears its link. */
    method MarkHeld(n: Task, clear: bool)
      requires Held(n, READY) && n in table.pool
      modifies n`state, n`next
      ensures Held(n, RUNNING) && queue == old(queue)
    {
      if clear {
        n.next := null;
      }
      n.state := RUNNING;
    }

    /** Makes a held task the current one. */
    method InstallHeld(n: Task)
      requires Held(n, RUNNING) && n in table.pool
      modifies this`current
      ensures ListOk() && current == n && n in admitted && QueueOk()
    {
      current := n;
    }

    /** The list statements of a call: the caller is queued, and the head is chosen,
        unlinked, marked RUNNING and made the current task. */
    method AdvanceList()
      requires Shape() && call.Inside? && !Named(call.pos)
      modifies this`current, this`readyHead, this`readyTail, this`queue, this`call, table.pool`state, table.pool`next
      ensures Shape() && old(CanStep(View(), call))
      ensures View() == NextView(old(View()), old(call)) && call == NextCall(old(View()), old(call))
    {
      hide Shape, ListOk, QueueOk, NobodyRuns, Held, CallOk, NextView, NextCall;
      CallFacts();
      match call.pos
      case Demoted => QueueCaller();
      case Tested => ChooseHead();
      case Chosen(n) => UnlinkChosen(n);
      case Unlinked(n) => MarkNext(n);
      case Marked(n) => InstallNext(n);
    }

    lemma CallFacts()
      requires Shape() && call.Inside?
      ensures CanStep(View(), call)
      ensures call.pos.Unlinked? || call.pos.Marked? ==> call.pos.next in table.pool
    {
      hide ListOk, QueueOk, NobodyRuns, Held;
      NextSeen(View(), call);
    }

    method QueueCaller()
      requires Shape() && call.Inside? && call.pos.Demoted?
      modifies this`readyHead, this`readyTail, this`queue, this`call, table.pool`next
      ensures Shape() && old(CanStep(View(), call))
      ensures View() == NextView(old(View()), old(call)) && call == NextCall(old(View()), old(call))
    {
      hide ListOk, QueueOk, NobodyRuns, Held;
      NextSeen(View(), call);
      QueueHeld(call.caller.value);
      NobodyFacts();
      call := Inside(call.caller, Tested);
    }

    method ChooseHead()
      requires Shape() && call.Inside? && call.pos.Tested?
      modifies this`call
      ensures Shape() && old(CanStep(View(), call))
      ensures View() == NextView(old(View()), old(call)) && call == NextCall(old(View()), old(call))
    {
      hide ListOk, QueueOk, NobodyRuns, Held;
      NextSeen(View(), call);
      QueueFacts();
      call := Inside(call.caller, Chosen(readyHead));
    }

    method UnlinkChosen(n: Task)
      requires Shape() && call.Inside? && call.pos == Chosen(n)
      modifies this`readyHead, this`readyTail, this`queue, this`call
      ensures Shape() && old(CanStep(View(), call))
      ensures View() == NextView(old(View()), old(call)) && call == NextCall(old(View()), old(call))
    {
      hide ListOk, QueueOk, NobodyRuns, Held;
      NextSeen(View(), call);
      HoldHead();
      HeldFacts(n, READY);
      call := Inside(call.caller, Unlinked(n));
    }

    method MarkNext(n: Task)
      requires Shape() && call.Inside? && call.pos == Unlinked(n)
      modifies this`call, n`state, n`next
      ensures Shape() && old(CanStep(View(), call))
      ensures View() == NextView(old(View()), old(call)) && call == NextCall(old(View()), old(call))
    {
      hide ListOk, QueueOk, NobodyRuns, Held;
      NextSeen(View(), call);
      MarkHeld(n, call.caller.None?);
      HeldFacts(n, RUNNING);
      call := Inside(call.caller, Marked(n));
    }

    method InstallNext(n: Task)
      requires Shape() && call.Inside? && call.pos == Marked(n)
      modifies this`current, this`call
      ensures Shape() && old(CanStep(View(), call))
      ensures View() == NextView(old(View()), old(call)) && call == NextCall(old(View()), old(call))
    {
      hide ListOk, QueueOk, NobodyRuns, Held;
      NextSeen(View(), call);
      HeldFacts(n, RUNNING);
      InstallHeld(n);
      call := Inside(call.caller, Installed(n));
    }

    /** tss_set_kernel_stack and vmm_switch_address_space. */
    method AdvanceCpu()
      requires Shape() && call.Inside? && Named(call.pos) && !call.pos.Spaced?
      modifies this`call, cpu`rsp0, cpu`cr3
      ensures Shape() && View() == old(View()) == NextView(old(View()), old(call))
      ensures call == NextCall(old(View()), old(call))
      ensures cpu.rsp0 == if old(call.pos).Installed? then old(call.pos.next).stackTop else old(cpu.rsp0)
      ensures cpu.cr3 == if old(call.pos).Stacked? then old(CallSpace(call)) else old(cpu.cr3)
    {
      hide ListOk, QueueOk;
      if call.pos.Installed? {
        cpu.rsp0 := call.pos.next.stackTop;
        call := Inside(call.caller, Stacked(call.pos.next));
      } else {
        cpu.cr3 := CallSpace(call);
        call := Inside(call.caller, Spaced(call.pos.next));
      }
    }

    /** The next statement of a call, short of the switch of stacks. */
    method Advance()
      requires Valid() && call.Inside? && !call.pos.Spaced?
      modifies this`current, this`readyHead, this`readyTail, this`queue, this`call, table.pool`state, table.pool`next,
        cpu`rsp0, cpu`cr3
      ensures Valid() && call.Inside? && old(CanStep(View(), call))
      ensures View() == NextView(old(View()), old(call)) && call == NextCall(old(View()), old(call))
      ensures cpu.rsp0 == if old(call.pos).Installed? then old(call.pos.next).stackTop else old(cpu.rsp0)
      ensures cpu.cr3 == if old(call.pos).Stacked? then old(CallSpace(call)) else old(cpu.cr3)
    {
      hide Base, Shape;
      CallFacts();
      if Named(call.pos) {
        AdvanceCpu();
      } else {
        AdvanceList();
      }
    }

    /** The space that the call loads for the task it dispatches: scheduler_start leaves
        the present one for a task without its own. */
    function CallSpace(c: Call<Task>): Word
      requires c.Inside? && Named(c.pos)
      reads c.pos.next`pml4, cpu`cr3
    {
      if c.caller.Some? || c.pos.next.pml4 != 0 then SpaceOf(c.pos.next) else cpu.cr3
    }

    lemma SpacedFacts()
      requires Base() && Shape() && call.Inside? && call.pos.Spaced?
      ensures ListOk() && call.pos.next in table.stacks && Some(call.pos.next) != call.caller
      ensures call.caller.Some? ==> call.caller.value in table.pool
    {
      hide FreeSet, StacksApart, QueueOk;
    }

    /** The call of context_switch at the end. */
    method SwitchStacks()
      requires Valid() && Calling() && call.Inside? && call.pos.Spaced?
      modifies this`call, cpu, cpu.ram, table.pool`savedRsp
      ensures Valid() && call == NoCall && View() == old(View()) && table.pmm.Free() == old(table.pmm.Free())
      ensures CameFrom(old(cpu.State()), old(call.pos.next.savedRsp) / 8, cpu.State())
      ensures cpu.cr3 == old(cpu.cr3) && cpu.rsp0 == old(cpu.rsp0)
      ensures forall t :: t in table.pool ==>
                t.savedRsp == if Some(t) == old(call.caller) then 8 * (old(cpu.sp) - 6) else old(t.savedRsp)
    {
      hide Base, Shape, CameFrom, OffBitmap, ListOk;
      SpacedFacts();
      var prev := if call.caller.Some? then call.caller.value else null;
      SwitchTasks(prev, call.pos.next);
      call := NoCall;
      ListShape();
    }

    /** The statements of a call up to the switch of stacks. */
    method Proceed()
      requires Valid() && call.Inside? && !Named(call.pos)
      modifies this`current, this`readyHead, this`readyTail, this`queue, this`call, table.pool`state, table.pool`next,
        cpu`rsp0, cpu`cr3
      ensures Valid() && call.Inside? && call.pos.Spaced? && call.caller == old(call.caller)
      ensures old(CanStep(View(), call)) && View() == Completed(old(View()), old(call))
      ensures cpu.rsp0 == call.pos.next.stackTop
      ensures cpu.cr3 == if call.caller.Some? || call.pos.next.pml4 != 0 then SpaceOf(call.pos.next) else old(cpu.cr3)
    {
      hide Base, Shape, NextView, Seen;
      ghost var caller, view, whole := call.caller, View(), call;
      CallFacts();
      while !call.pos.Spaced?
        invariant Valid() && call.Inside? && call.caller == caller && CanStep(View(), call)
        invariant Completed(View(), call) == Completed(view, whole)
        invariant call.pos.Stacked? || call.pos.Spaced? ==> cpu.rsp0 == call.pos.next.stackTop
        invariant cpu.cr3 == if call.pos.Spaced? && (caller.Some? || call.pos.next.pml4 != 0)
                             then SpaceOf(call.pos.next) else old(cpu.cr3)
        decreases StepsLeft(call)
      {
        Advance();
        CallFacts();
      }
    }

    /** The rest of a call when no tick comes in between. */
    method Finish()
      requires Valid() && Calling() && call.Inside? && !Named(call.pos)
      modifies this`current, this`readyHead, this`readyTail, this`queue, this`call, cpu, cpu.ram, table.pool`state,
        table.pool`next, table.pool`savedRsp
      ensures Valid() && call == NoCall && table.pmm.Free() == old(table.pmm.Free())
      ensures old(CanStep(View(), call)) && View() == Completed(old(View()), old(call)) && current != null
      ensures CameFrom(old(cpu.State()), current.savedRsp / 8, cpu.State()) && cpu.rsp0 == current.stackTop
      ensures cpu.cr3 == if old(call.caller).None? && current.pml4 == 0 then old(cpu.cr3) else SpaceOf(current)
      ensures forall t :: t in table.pool ==>
                t.savedRsp == if Some(t) == old(call.caller) then 8 * (old(cpu.sp) - 6) else old(t.savedRsp)
    {
      hide Base, Shape, CameFrom, OffBitmap, ListOk, CanStep, Completed, CallSpace;
      Proceed();
      SpacedFacts();
      SpacedView();
      SwitchStacks();
    }

    lemma SpacedView()
      requires Shape() && call.Inside? && call.pos.Spaced?
      ensures current == call.pos.next && View().current == Some(current)
    {
      hide ListOk, QueueOk;
    }

    /** scheduler_start when no tick interrupts it. */
    method Start()
      requires Valid() && Calling() && call.NoCall?
      modifies this`current, this`readyHead, this`readyTail, this`queue, this`call, cpu, cpu.ram, table.pool`state,
        table.pool`next, table.pool`savedRsp
      ensures Valid() && call == NoCall && table.pmm.Free() == old(table.pmm.Free())
      ensures forall t :: t in table.pool ==> t.savedRsp == old(t.savedRsp)
      ensures old(current) != null || old(queue) == [] ==>
                && View() == old(View()) && cpu.State() == old(cpu.State())
                && cpu.cr3 == old(cpu.cr3) && cpu.rsp0 == old(cpu.rsp0)
      ensures old(current) == null && old(queue) != [] ==>
                && View() == RoundRobin.Tick(old(View())) && current == old(queue[0])
                && CameFrom(old(cpu.State()), current.savedRsp / 8, cpu.State()) && cpu.rsp0 == current.stackTop
                && cpu.cr3 == if current.pml4 != 0 then current.pml4 else old(cpu.cr3)
    {
      hide Base, CameFrom, OffBitmap, QueueOk, Completed;
      ghost var v := View();
      ListFacts();
      EnterStart();
      if call.Inside? {
        WholeCallTicks(v);
        Finish();
      }
    }

    /** task_yield when no tick interrupts it: everything a tick does. */
    method Yield()
      requires Valid() && Calling() && call.NoCall?
      modifies this`current, this`readyHead, this`readyTail, this`queue, this`call, cpu, cpu.ram, table.pool`state,
        table.pool`next, table.pool`savedRsp
      ensures Valid() && call == NoCall && table.pmm.Free() == old(table.pmm.Free())
      ensures View() == RoundRobin.Tick(old(View()))
      ensures old(queue) == [] || old(current) == null ==>
                && cpu.State() == old(cpu.State()) && cpu.cr3 == old(cpu.cr3)
                && forall t :: t in table.pool ==> t.savedRsp == old(t.savedRsp)
      ensures if old(queue) == [] then cpu.rsp0 == old(cpu.rsp0)
              else current == old(queue[0]) && cpu.rsp0 == current.stackTop
      ensures old(queue) != [] && old(current) != null ==>
                && cpu.cr3 == SpaceOf(current)
                && CameFrom(old(cpu.State()), old(queue[0].savedRsp) / 8, cpu.State())
                && forall t :: t in table.pool ==>
                     t.savedRsp == if t == old(current) then 8 * (old(cpu.sp) - 6) else old(t.savedRsp)
    {
      hide Base, CameFrom, OffBitmap, QueueOk, Completed;
      ghost var v := View();
      ListFacts();
      if current == null {
        Tick();
        return;
      }
      EnterYield();
      if call.Inside? {
        WholeCallTicks(v);
        Finish();
      }
    }

    static ghost function PlaceIn(task: Task, line: seq<Task>): (i: nat)
      ensures i <= |line| && (i < |line| ==> line[i] == task) && (i == |line| ==> task !in line)
    {
      if line == [] then 0 else if line[0] == task then 0 else 1 + PlaceIn(task, line[1..])
    }

    /** What the list spells after scheduler_add_task: one task more, or, for a task that
        is queued already, only the part up to it. */
    static ghost function Spelled(task: Task, line: seq<Task>): seq<Task>
    {
      var i := PlaceIn(task, line);
      if i == |line| then line + [task] else line[..i + 1]
    }

    static ghost predicate IsLast(task: Task, line: seq<Task>)
    {
      line != [] && line[|line| - 1] == task
    }

    /** What the stores of scheduler_add_task do to the list. */
    twostate predicate StoredLast(new task: Task)
      reads this`readyHead, this`readyTail, task, table.pool`state, table.pool`next
    {
      && task in table.pool && task.state == READY && readyTail == task
      && readyHead == (if old(readyHead) == null then task else old(readyHead))
      && (forall t :: t in table.pool && t != task ==> t.state == old(t.state))
      && forall t :: t in table.pool ==>
           t.next == if t == old(readyTail) then task else if t == task then null else old(t.next)
    }

    /** The stores of scheduler_add_task. */
    method StoreLast(task: Task)
      requires task in table.pool && (readyHead == null <==> readyTail == null)
      requires readyTail != null ==> readyTail in table.pool
      modifies this`readyHead, this`readyTail, task`state, table.pool`next
      ensures StoredLast(task)
    {
      task.state := READY;
      task.next := null;
      if readyHead == null {
        readyHead := task;
        readyTail := task;
      } else {
        readyTail.next := task;
        readyTail := task;
      }
    }

    twostate lemma AddedLast(new task: Task)
      requires old(QueueOk()) && StoredLast(task) && task !in old(queue) && queue == old(queue) + [task]
      ensures QueueOk()
    {
    }

    twostate lemma CutBehind(new task: Task, i: nat)
      requires old(QueueOk()) && StoredLast(task) && i < |old(queue)| - 1 && old(queue)[i] == task
      requires queue == old(queue)[..i + 1]
      ensures QueueOk()
    {
    }

    twostate lemma ClosedLoop(new task: Task)
      requires old(QueueOk()) && StoredLast(task) && old(queue != [] && queue[|queue| - 1] == task)
      requires queue == old(queue)
      ensures task.next == task && !QueueOk()
    {
    }

    lemma ListIsQueue()
      ensures ListOk() ==> QueueOk()
      ensures ListOk() && call.NoCall? ==> Shape()
    {
    }

    /** In order exactly for a task that neither waited nor ran; `i` is its place if it
        waited. */
    twostate lemma AddedList(new task: Task, i: nat)
      requires old(ListOk()) && StoredLast(task) && current == old(current) && admitted == old(admitted) + {task}
      requires QueueOk()
      requires if task in old(queue) then i < |old(queue)| - 1 && queue == old(queue)[..i + 1]
               else queue == old(queue) + [task]
      ensures ListOk() <==> task !in old(queue) && task != current
    {
      hide QueueOk;
      if task in old(queue) {
        var lost := old(queue)[i + 1];
        LostBehind(i);
        assert lost.state == READY && lost in admitted && lost !in queue && lost != current;
      }
    }

    twostate lemma LostBehind(i: nat)
      requires old(ListOk()) && i < |old(queue)| - 1 && queue == old(queue)[..i + 1]
      ensures var t := old(queue)[i + 1]; t !in queue && old(t.state) == READY && t in old(admitted) && t in table.pool
    {
    }

    lemma AddFacts(task: Task?)
      requires Base() && Shape() && call.NoCall? && (task != null ==> task in table.stacks)
      ensures ListOk() && QueueOk() && Different(queue) && (task != null ==> task in table.pool)
      ensures (readyHead == null <==> readyTail == null) && (readyTail != null ==> readyTail in table.pool)
    {
      hide FreeSet, StacksApart, Loadable;
    }

    /** scheduler_add_task.  A task that is neither queued nor current is appended; the
        list is no longer in order exactly when the task was queued or current: a
        queued task that is not the last one cuts the list behind itself, the last one
        closes it into a loop, and the current one waits although it runs. */
    method AddTask(task: Task?)
      requires Valid() && call.NoCall? && (task != null ==> task in table.stacks)
      modifies this`readyHead, this`readyTail, this`queue, this`admitted, (if task == null then {} else {task})`state,
        table.pool`next
      ensures Base() && call.NoCall? && (ListOk() ==> Valid())
      ensures ListOk() <==> task == null || (task !in old(queue) && task != current)
      ensures task == null ==> queue == old(queue) && admitted == old(admitted)
      ensures task != null ==> task.state == READY && admitted == old(admitted) + {task}
      ensures task != null ==> queue == Spelled(task, old(queue))
      ensures task != null && !IsLast(task, old(queue)) ==> QueueOk()
      ensures task != null && IsLast(task, old(queue)) ==> task.next == task
      ensures task != null && task !in old(queue) && task != current ==>
                View() == RoundRobin.Next(old(View()), RoundRobin.Admitted(task))
    {
      hide FreeSet, StacksApart, Loadable, Fits, FramesTouching, Shape, ListOk, QueueOk;
      AddFacts(task);
      if task != null {
        AddStored(task);
      }
      ListIsQueue();
    }

    /** Its part for a task that is not null. */
    method AddStored(task: Task)
      requires ListOk() && QueueOk() && Different(queue) && task in table.pool
      requires (readyHead == null <==> readyTail == null) && (readyTail != null ==> readyTail in table.pool)
      modifies this`readyHead, this`readyTail, this`queue, this`admitted, task`state, table.pool`next
      ensures ListOk() <==> task !in old(queue) && task != current
      ensures ListOk() ==> QueueOk()
      ensures task.state == READY && admitted == old(admitted) + {task}
      ensures queue == Spelled(task, old(queue))
      ensures !IsLast(task, old(queue)) ==> QueueOk()
      ensures IsLast(task, old(queue)) ==> task.next == task
    {
      hide ListOk, QueueOk, StoredLast;
      StoreLast(task);
      admitted := admitted + {task};
      ghost var line := queue;
      queue := Spelled(task, line);
      AddedCases(task, line);
      ListIsQueue();
    }

    twostate lemma AddedCases(new task: Task, new line: seq<Task>)
      requires old(ListOk()) && StoredLast(task) && current == old(current) && admitted == old(admitted) + {task}
      requires old(QueueOk()) && line == old(queue) && Different(line) && queue == Spelled(task, line)
      ensures ListOk() <==> task !in line && task != current
      ensures !IsLast(task, line) ==> QueueOk()
      ensures IsLast(task, line) ==> task.next == task
    {
      hide ListOk, QueueOk, StoredLast;
      var i := PlaceIn(task, line);
      if i == |line| {
        AddedLast(task);
        AddedList(task, i);
      } else if i + 1 < |line| {
        CutBehind(task, i);
        AddedList(task, i);
      } else {
        assert line[..i + 1] == line;
        ClosedLoop(task);
        ListIsQueue();
      }
    }

    /** scheduler_add_task as the kernel calls it. */
    method Admit(task: Task)
      requires Valid() && call.NoCall? && task in table.stacks && task !in queue && task != current
      modifies this`readyHead, this`readyTail, this`queue, this`admitted, task`state, table.pool`next
      ensures Valid() && View() == RoundRobin.Next(old(View()), RoundRobin.Admitted(task))
    {
      hide Base, Shape, ListOk, QueueOk, Spelled, IsLast;
      AddTask(task);
    }

    /** Another address space for a task that does not run, as
        user_mode_prepare_demo_task gives it. */
    method SetSpace(task: Task, pml4: Word)
      requires Valid()
      modifies task`pml4
      ensures Valid() && View() == old(View()) && task.pml4 == pml4
    {
      hide FreeSet, StacksApart, Loadable, ListOk, QueueOk, NobodyRuns, Held;
      task.pml4 := pml4;
    }

    /** The running task blocks or ends itself. */
    method LeaveRunning(task: Task, state: TaskState)
      requires Valid() && call.NoCall? && task == current && state != READY && state != RUNNING
      modifies task`state
      ensures Valid() && View() == RoundRobin.Next(old(View()), RoundRobin.LeftRunning)
    {
      hide FreeSet, StacksApart, Loadable, NobodyRuns, Held;
      task.state := state;
    }

    lemma TableFacts()
      requires Base()
      ensures table.pmm.Placed() && table.slotUsed.Length == |table.pool|
      ensures forall t :: t in table.stacks ==> t in table.pool
    {
    }

    /** Changes to tasks that were never admitted leave the list alone. */
    twostate lemma ListUnaffected()
      requires old(ListOk()) && unchanged(this)
      requires forall t :: t in table.pool ==>
        (t.next == old(t.next) && t.state == old(t.state)) || (t !in admitted && t.state != RUNNING)
      ensures ListOk() && View() == old(View())
    {
      assert forall i :: 0 <= i < |queue| ==> queue[i] in admitted;
    }

    /** task_create_kernel_thread keeps what does not concern the list. */
    method TableThread(entry: Word) returns (task: Task?)
      requires Base()
      modifies table.slotUsed, table.pmm, table.pmm.ram, table.pool, table`nextPid, table`stacks
      ensures Base() && forall t :: t in table.pool && t != task ==> unchanged(t)
      ensures SlotAndStack(old(table.slotUsed[..]), table.slotUsed[..], table.pool, old(table.pmm.Free()),
          table.pmm.Free(),
                           table.pmm.totalPages, old(table.stacks), table.stacks, task)
      ensures task == null ==> cpu.ram[..] == old(cpu.ram[..])
      ensures task != null ==>
                && task in table.stacks && task in table.pool && task.pml4 == 0 && task.state == READY
                && Created(cpu.ram[..], table.stacks[task], task.savedRsp, entry)
                && SameOutside(old(cpu.ram[..]), cpu.ram[..],
                    table.pmm.BitmapFrames() + StackFrames(table.stacks[task]))
      ensures forall t :: t in old(table.stacks) && t in table.pool ==>
                t.savedRsp == old(t.savedRsp) && t.pml4 == old(t.pml4) && t.stackTop == old(t.stackTop)
    {
      hide Kept, StacksApart, FreeSet, Forged, NewStack, SameOutside, FirstUnused, HasRun, ListOk, QueueOk,
        StackFrames, Created, SlotAndStack, TaskTable.Valid, Fits, FramesTouching;
      TableFacts();
      ghost var used, free, before := table.slotUsed[..], table.pmm.Free(), table.stacks;
      task := table.CreateKernelThread(entry);
      StacksInPool();
      SlotAndStackMeans(used, table.slotUsed[..], table.pool, free, table.pmm.Free(), table.pmm.totalPages,
                        before, table.stacks, task);
      if task != null {
        CreatedLoads(cpu.ram[..], table.stacks[task], task.savedRsp, entry);
      }
    }

    /** task_create_kernel_thread: the scheduler's own state is untouched, and the new
        thread waits to be admitted. */
    method CreateThread(entry: Word) returns (task: Task?)
      requires Valid() && call.NoCall?
      modifies table.slotUsed, table.pmm, table.pmm.ram, table.pool, table`nextPid, table`stacks
      ensures Valid() && View() == old(View())
      ensures SlotAndStack(old(table.slotUsed[..]), table.slotUsed[..], table.pool, old(table.pmm.Free()),
          table.pmm.Free(),
                           table.pmm.totalPages, old(table.stacks), table.stacks, task)
      ensures task == null ==> cpu.ram[..] == old(cpu.ram[..])
      ensures task != null ==>
                && task in table.stacks && task in table.pool && task.pml4 == 0
                && Created(cpu.ram[..], table.stacks[task], task.savedRsp, entry)
                && SameOutside(old(cpu.ram[..]), cpu.ram[..],
                    table.pmm.BitmapFrames() + StackFrames(table.stacks[task]))
      ensures forall t :: t in old(table.stacks) && t in table.pool ==>
                t.savedRsp == old(t.savedRsp) && t.pml4 == old(t.pml4) && t.stackTop == old(t.stackTop)
    {
      hide StacksApart, Loadable, ListOk, QueueOk, StackFrames, Created, SlotAndStack, SameOutside, FreeSet;
      ghost var used, free, before := table.slotUsed[..], table.pmm.Free(), table.stacks;
      task := TableThread(entry);
      SlotAndStackMeans(used, table.slotUsed[..], table.pool, free, table.pmm.Free(), table.pmm.totalPages,
                        before, table.stacks, task);
      ListUnaffected();
    }

    lemma StacksInPool()
      requires table.Valid()
      ensures table.pmm.Placed() && forall t :: t in table.stacks ==> t in table.pool
    {
    }
  }

  lemma HeadAndRest<T>(line: seq<T>)
    requires line != []
    ensures forall t :: t in line <==> t == line[0] || t in line[1..]
  {
    assert line == [line[0]] + line[1..];
  }

  lemma PushesKeepBitmap(s: Machine, m: Memory, bitmap: nat, total: nat)
    requires Room(s, 6, 1) && m == SaveContext(s).mem && Fits(|m|, bitmap, total)
    requires forall k :: s.sp - 6 <= k < s.sp ==>
               k / WORDS_PER_FRAME !in FramesTouching(bitmap, bitmap + BitmapBytes(total))
    ensures FreeSet(m, bitmap, total) == FreeSet(s.mem, bitmap, total)
  {
    hide SaveContext, FreeSet, Range;
    SaveKeeps(s, 0);
    var frames := Range((s.sp - 6) / WORDS_PER_FRAME, (s.sp - 1) / WORDS_PER_FRAME + 1);
    assert frames !! FramesTouching(bitmap, bitmap + BitmapBytes(total)) by {
      assert (s.sp - 6) / WORDS_PER_FRAME !in FramesTouching(bitmap, bitmap + BitmapBytes(total));
      assert (s.sp - 1) / WORDS_PER_FRAME !in FramesTouching(bitmap, bitmap + BitmapBytes(total));
    }
    FreeSetReadsBitmap(s.mem, m, bitmap, total, frames);
  }
}
