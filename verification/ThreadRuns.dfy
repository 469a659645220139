/** Arbitrary runs of the threading subsystem.  Code that runs on the CPU may do
    anything between two calls into the kernel, except write the bitmap or the stack
    of another task; threads are created, admitted, moved to other address spaces and
    blocked in any order, and ticks come in anywhere, also between the statements of
    scheduler_start and task_yield. */
module ThreadRuns {
  import opened Wrappers
  import opened PageEntry
  import opened Ram
  import opened Pmm
  import opened StackMachine
  import opened ContextSwitch
  import opened Tasks
  import opened Processor
  import opened Suspension
  import opened Scheduler
  import opened Dispatch
  import opened RoundRobin
  import opened ThreadModel
  import opened ThreadSteps
  import opened ThreadHistory

  lemma FreeSetKept(m: Memory, m': Memory, bitmap: nat, total: nat)
    requires Fits(|m|, bitmap, total) && |m'| == |m|
    requires forall k :: 0 <= k < |m| && m'[k] != m[k] ==>
               k / WORDS_PER_FRAME !in FramesTouching(bitmap, bitmap + BitmapBytes(total))
    ensures FreeSet(m', bitmap, total) == FreeSet(m, bitmap, total)
  {
    hide FreeSet, FramesTouching, Fits;
    var frames := Range(0, |m|) - FramesTouching(bitmap, bitmap + BitmapBytes(total));
    FreeSetReadsBitmap(m, m', bitmap, total, frames);
  }

  class Threads {
    const s: TaskScheduler
    /** Created tasks that neither wait nor run. */
    var idle: seq<Task>
    /** A tick has found somebody waiting while the CPU did not run the current task. */
    var early: bool
    /** Every switch so far. */
    ghost var trace: seq<Event>

    constructor (s: TaskScheduler)
      requires s.Valid() && s.current == null && s.queue == [] && s.call == NoCall && s.table.stacks == map[]
      requires s.cpu.cr3 == s.kernelPml4
      ensures Valid() && this.s == s && idle == [] && !early && trace == []
    {
      this.s, idle, early, trace := s, [], false, [];
      new;
      Begins();
    }

    ghost predicate Valid()
      reads this, s, s.cpu, s.cpu.ram, s.table, s.table.slotUsed, s.table.pool, s.table.pmm, s.table.pmm.ram, s.current
    {
      s.Valid() && InOrder(Fixed(), Now()) && (early <==> !Faithful(trace))
    }

    /** What never changes in a run. */
    function Fixed(): Config
    {
      Config(s.table.pool, s.table.pmm.bitmap, s.table.pmm.totalPages, s.kernelPml4)
    }

    /** The PML4s of the created tasks. */
    ghost function Spaces(): map<Task, Word>
      reads s.table`stacks, s.table.pool`pml4
    {
      map t | t in s.table.stacks && t in s.table.pool :: t.pml4
    }

    /** The saved stack pointers of the created tasks. */
    ghost function Saved(): map<Task, nat>
      reads s.table`stacks, s.table.pool`savedRsp
    {
      map t | t in s.table.stacks && t in s.table.pool :: t.savedRsp
    }

    ghost function Now(): Snapshot
      requires s.Base()
      reads this`idle, this`trace, s, s.cpu, s.cpu.ram, s.table, s.table.slotUsed, s.table.pool, s.table.pmm,
        s.table.pmm.ram, s.current
    {
      Snapshot(s.cpu.State(), s.cpu.cr3, s.cpu.rsp0, s.View(), s.call, idle, s.table.stacks, Spaces(), Saved(),
               s.table.slotUsed[..], s.table.pmm.Free(), trace)
    }

    lemma Begins()
      requires s.Valid() && s.current == null && s.queue == [] && s.call == NoCall && s.table.stacks == map[]
      requires s.cpu.cr3 == s.kernelPml4 && idle == [] && trace == []
      ensures InOrder(Fixed(), Now()) && Faithful(trace)
    {
      hide FreeSet, FramesTouching;
    }

    /** The task whose code runs. */
    function Runs(): Task?
      reads s`call, s`current
    {
      if !s.call.Inside? then s.current else if s.call.caller.Some? then s.call.caller.value else null
    }

    /** Word k lies on the stack of a task other than the running one. */
    predicate OnOthersStack(k: int)
      reads s`call, s`current, s.table.pool`stackBase, s.table.pool`stackTop
    {
      exists i :: 0 <= i < |s.table.pool| && s.table.pool[i] != Runs()
          && s.table.pool[i].stackBase <= 8 * k < s.table.pool[i].stackTop
    }

    /** The rules for the running code: it leaves the bitmap and other stacks alone,
        also with the pushes it is about to cause, and has not left its stack. */
    predicate MayReach(at: Machine)
      reads this`early, s`call, s`current, s.cpu.ram, s.table.pool`stackBase, s.table.pool`stackTop
    {
      && |at.regs| == 15 && |at.mem| == s.cpu.ram.Length && 6 <= at.sp < s.cpu.ram.Length
      && (forall k :: 0 <= k < s.cpu.ram.Length && at.mem[k] != s.cpu.ram[k] ==>
            !InBitmap(Fixed(), k) && !OnOthersStack(k))
      && (forall k :: at.sp - 6 <= k < at.sp ==> !InBitmap(Fixed(), k) && !OnOthersStack(k))
      && (Runs() != null && Runs() in s.table.pool && !early ==>
            Runs().stackBase + 48 <= 8 * at.sp < Runs().stackTop)
    }

    lemma WordAgrees(k: int)
      requires s.table.Valid()
      ensures OnOthersStack(k) <==>
                exists t :: t in s.table.stacks && t != Runs() && OnStack(s.table.stacks[t], k)
    {
      hide StacksApart, FreeSet;
      if OnOthersStack(k) {
        var i :| 0 <= i < |s.table.pool| && s.table.pool[i] != Runs()
                 && s.table.pool[i].stackBase <= 8 * k < s.table.pool[i].stackTop;
        assert s.table.pool[i] in s.table.pool;
        assert OnStack(s.table.stacks[s.table.pool[i]], k);
      }
      if t :| t in s.table.stacks && t != Runs() && OnStack(s.table.stacks[t], k) {
        assert t in s.table.pool;
        var i :| 0 <= i < |s.table.pool| && s.table.pool[i] == t;
      }
    }

    lemma MayWriteAgrees(k: int)
      requires s.Base()
      ensures MayWrite(Fixed(), Now(), k) <==> !InBitmap(Fixed(), k) && !OnOthersStack(k)
    {
      hide StacksApart, FreeSet, OnStack, InBitmap, OnOthersStack;
      WordAgrees(k);
    }

    lemma TaskFields(t: Task)
      requires s.Base() && t in s.table.stacks
      ensures t in s.table.pool && t in Now().spaces && t in Now().saved
      ensures Now().spaces[t] == t.pml4 && Now().saved[t] == t.savedRsp
      ensures t.stackBase == PAGE_SIZE * s.table.stacks[t] && t.stackTop == 8 * TopWord(s.table.stacks[t])
      ensures StackEnd(Now(), t) == t.stackTop && SpaceFor(Fixed(), Now(), Some(t)) == s.SpaceOf(t)
    {
      hide StacksApart, FreeSet;
    }

    /** The compiled rules are those of the model. */
    lemma RulesAgree(at: Machine)
      requires Valid()
      ensures MayReach(at) <==> Rules(Fixed(), Now(), at)
    {
      hide InOrder, InBitmap, OnOthersStack, MayWrite, Faithful, TaskScheduler.Base, TaskScheduler.Shape, OnStack;
      forall k: int
        ensures MayWrite(Fixed(), Now(), k) <==> !InBitmap(Fixed(), k) && !OnOthersStack(k)
      {
        MayWriteAgrees(k);
      }
      RunnerCreated(Fixed(), Now());
      if Runs() != null { TaskFields(Runs()); }
    }

    lemma OffBitmapWord(k: nat)
      ensures !InBitmap(Fixed(), k) ==> k / WORDS_PER_FRAME !in s.table.pmm.BitmapFrames()
    {
    }

    /** What the rules for the running code come to. */
    lemma RulesMean(at: Machine)
      requires s.Base() && MayReach(at)
      ensures FreeSet(at.mem, s.table.pmm.bitmap, s.table.pmm.totalPages) == s.table.pmm.Free()
      ensures forall k :: at.sp - 6 <= k < at.sp ==> k / WORDS_PER_FRAME !in s.table.pmm.BitmapFrames()
    {
      hide FreeSet, StacksApart, OnOthersStack, InBitmap, FramesTouching;
      forall k: nat | !InBitmap(Fixed(), k)
        ensures k / WORDS_PER_FRAME !in s.table.pmm.BitmapFrames()
      {
        OffBitmapWord(k);
      }
      FreeSetKept(s.cpu.ram[..], at.mem, s.table.pmm.bitmap, s.table.pmm.totalPages);
    }

    /** The running code reaches state `at`. */
    method Execute(at: Machine)
      requires s.Valid() && MayReach(at)
      modifies s.cpu`regs, s.cpu`sp, s.cpu`rip, s.cpu`cs, s.cpu`rflags, s.cpu`ss, s.cpu.ram
      ensures s.Valid() && s.Calling() && Now() == old(Now()).(cpu := at)
    {
      hide FreeSet, StacksApart, OnOthersStack, InBitmap, TaskScheduler.Shape, Fits, FramesTouching;
      RulesMean(at);
      s.cpu.Become(at);
    }

    /** Steps that change nothing but the list. */
    twostate lemma ListChanges()
      requires old(s.Base()) && s.Base() && unchanged(s.table) && unchanged(s.table.slotUsed) && trace == old(trace)
      requires s.table.pmm.Free() == old(s.table.pmm.Free())
      requires s.cpu.State() == old(s.cpu.State()) && s.cpu.cr3 == old(s.cpu.cr3) && s.cpu.rsp0 == old(s.cpu.rsp0)
      requires forall t :: t in s.table.pool ==> t.pml4 == old(t.pml4) && t.savedRsp == old(t.savedRsp)
      ensures Now() == old(Now()).(view := s.View(), call := s.call, idle := idle)
    {
      hide FreeSet, StacksApart;
    }

    /** What the order says about an idle task. */
    lemma IdleFacts(i: nat)
      requires Valid() && MayAdmit(Now(), i)
      ensures idle[i] in s.table.stacks && idle[i] in s.table.pool && idle[i] !in s.queue && idle[i] != s.current
    {
      hide Sound, Homed, Faithful, EachInPlace, CallOk, TaskScheduler.Shape, TaskScheduler.Base;
      SeenOutside(s.View());
      InPlaceAdmitted(idle, s.table.pool, s.table.stacks.Keys, s.View(), i);
      TaskFields(idle[i]);
    }

    /** The created thread joins the idle ones. */
    method Create(entry: Word)
      requires s.Valid() && s.call.NoCall?
      modifies this`idle, this`trace, s.table, s.table.slotUsed, s.table.pool, s.table.pmm, s.table.pmm.ram
      ensures s.Valid() && CreateMoves(Fixed(), old(Now()), entry, Now())
    {
      hide TaskScheduler.Base, TaskScheduler.Shape, FirstSuspension, SlotAndStack, SameOutside, CreateMoves,
        FramesTouching, StackFrames, Created, Creates;
      s.TableFacts();
      ghost var p := Now();
      var task := s.CreateThread(entry);
      s.TableFacts();
      if task != null {
        CreatedLoads(s.cpu.ram[..], s.table.stacks[task], task.savedRsp, entry);
        trace := trace + [FirstSuspension(task, s.cpu.ram[..], s.table.stacks[task], entry)];
        idle := idle + [task];
      }
      ItCreates(entry, task);
      CreatesThatTask(Fixed(), p, entry, task, Now());
    }

    /** The contract of task_create_kernel_thread as a step of the model. */
    twostate lemma ItCreates(entry: Word, new task: Task?)
      requires old(s.Base()) && s.Base() && unchanged(s) && unchanged(s.cpu) && s.View() == old(s.View())
      requires SlotAndStack(old(s.table.slotUsed[..]), s.table.slotUsed[..], s.table.pool, old(s.table.pmm.Free()),
          s.table.pmm.Free(), s.table.pmm.totalPages, old(s.table.stacks), s.table.stacks, task)
      requires forall t :: t in old(s.table.stacks) && t in s.table.pool ==>
        t.savedRsp == old(t.savedRsp) && t.pml4 == old(t.pml4)
      requires task == null ==> s.cpu.ram[..] == old(s.cpu.ram[..]) && trace == old(trace) && idle == old(idle)
      requires task != null ==>
        && task in s.table.stacks && task in s.table.pool && task.pml4 == 0
        && Created(s.cpu.ram[..], s.table.stacks[task], task.savedRsp, entry)
        && SameOutside(old(s.cpu.ram[..]), s.cpu.ram[..],
            s.table.pmm.BitmapFrames() + StackFrames(s.table.stacks[task]))
        && idle == old(idle) + [task] && TopWord(s.table.stacks[task]) <= s.cpu.ram.Length
        && trace == old(trace) + [FirstSuspension(task, s.cpu.ram[..], s.table.stacks[task], entry)]
      ensures Creates(Fixed(), old(Now()), entry, task, Now())
    {
      hide FirstSuspension, SameOutside, FramesTouching, StackFrames, FreeSet, StacksApart, SlotAndStack, Created;
      SlotAndStackMeans(old(s.table.slotUsed[..]), s.table.slotUsed[..], s.table.pool, old(s.table.pmm.Free()),
                        s.table.pmm.Free(), s.table.pmm.totalPages, old(s.table.stacks), s.table.stacks, task);
      AfterCreate(task);
      if task != null {
        CreatedLoads(s.cpu.ram[..], s.table.stacks[task], task.savedRsp, entry);
      }
    }

    /** The state after task_create_kernel_thread, but for idle tasks and history. */
    twostate lemma AfterCreate(new task: Task?)
      requires old(s.Base()) && s.Base() && unchanged(s) && unchanged(s.cpu) && s.View() == old(s.View())
      requires forall t :: t in old(s.table.stacks) && t in s.table.pool ==>
        t.savedRsp == old(t.savedRsp) && t.pml4 == old(t.pml4)
      requires if task == null then s.table.stacks == old(s.table.stacks)
               else && task in s.table.pool && task.pml4 == 0
                    && s.table.stacks.Keys == old(s.table.stacks).Keys + {task} && task !in old(s.table.stacks)
      ensures var p := old(Now());
        Now() == p.(cpu := p.cpu.(mem := s.cpu.ram[..]), idle := idle, stacks := s.table.stacks,
                    spaces := if task == null then p.spaces else p.spaces[task := 0],
                    saved := if task == null then p.saved else p.saved[task := task.savedRsp],
                    used := s.table.slotUsed[..], free := s.table.pmm.Free(), trace := trace)
    {
      hide FramesTouching, FreeSet, StacksApart;
      OldTasks();
      SpacesAfterCreate(old(Now()).spaces, old(Now()).saved, old(s.table.stacks), task);
    }

    twostate lemma OldTasks()
      requires old(s.Base())
      ensures forall t :: t in old(s.table.stacks) ==>
        t in s.table.pool && t in old(Now()).spaces && t in old(Now()).saved
        && old(Now()).spaces[t] == old(t.pml4) && old(Now()).saved[t] == old(t.savedRsp)
        && StackEnd(old(Now()), t) == old(t.stackTop)
    {
      hide FreeSet, StacksApart;
    }

    lemma SpacesAfterCreate(spaces: map<Task, Word>, saved: map<Task, nat>, stacks: map<Task, nat>, task: Task?)
      requires spaces.Keys == saved.Keys == stacks.Keys
      requires forall t :: t in stacks ==> t in s.table.pool && t.pml4 == spaces[t] && t.savedRsp == saved[t]
      requires if task == null then s.table.stacks == stacks
               else && task in s.table.pool && task.pml4 == 0
                    && s.table.stacks.Keys == stacks.Keys + {task} && task !in stacks
      ensures Spaces() == if task == null then spaces else spaces[task := 0]
      ensures Saved() == if task == null then saved else saved[task := task.savedRsp]
    {
    }

    method Admit(i: nat)
      requires Valid() && MayAdmit(Now(), i)
      modifies this`idle, s, s.table.pool
      ensures s.Valid() && Moves(Fixed(), old(Now()), Op.Admit(i), Now())
    {
      hide InOrder, Faithful, TaskScheduler.Base, TaskScheduler.Shape;
      IdleFacts(i);
      s.Admit(idle[i]);
      idle := idle[..i] + idle[i + 1..];
      ListChanges();
    }

    method SetSpace(i: nat, pml4: Word)
      requires Valid() && MayAdmit(Now(), i)
      modifies s.table.pool
      ensures s.Valid() && Moves(Fixed(), old(Now()), Op.SetSpace(i, pml4), Now())
    {
      hide InOrder, Faithful, TaskScheduler.Base, TaskScheduler.Shape;
      IdleFacts(i);
      s.SetSpace(idle[i], pml4);
    }

    method Leave(state: TaskState)
      requires s.Valid() && MayLeave(Now(), state)
      modifies s.table.pool
      ensures s.Valid() && Moves(Fixed(), old(Now()), Op.Leave(state), Now())
    {
      hide FreeSet, StacksApart, TaskScheduler.Base, TaskScheduler.ListOk;
      s.LeaveRunning(s.current, state);
      ListChanges();
    }

    /** Who drops out of the queue when a tick comes now. */
    method Drops() returns (gone: seq<Task>)
      requires s.Valid() && s.queue != []
      ensures gone == Dropped(Seen(s.View(), s.call))
    {
      hide TaskScheduler.Base, TaskScheduler.ListOk, Seen, Dropped, CallOk;
      DroppedByTick(s.View(), s.call);
      var task := s.current;
      var queued := s.call.Inside? && (s.call.pos.Demoted? || s.readyTail == task);
      gone := if task != null && task.state != RUNNING && !queued then [task] else [];
    }

    /** scheduler_tick at any place. */
    method TickNow()
      requires s.Valid() && s.Calling()
      modifies this`idle, this`early, this`trace, s, s.cpu, s.cpu.ram, s.table.pool`state, s.table.pool`next,
        s.table.pool`savedRsp
      ensures s.Base() && (!s.call.Torn? ==> s.Valid()) && TickMoves(Fixed(), old(Now()), Now())
      ensures early <==> old(early) || (old(s.queue) != [] && (old(s.current) == null || old(Runs()) != old(s.current)))
    {
      hide TaskScheduler.Base, TaskScheduler.Shape, TickMoves, TaskScheduler.OffBitmap, Now;
      s.TickFacts();
      var stray := s.current == null || Runs() != s.current;
      if s.readyHead == null {
        s.Tick();
        ItRests();
      } else {
        TickOver();
        early := early || stray;
      }
    }

    twostate lemma ItRests()
      requires old(s.Base()) && s.Base() && unchanged(s.table) && unchanged(s.table.slotUsed) && trace == old(trace)
      requires s.table.pmm.Free() == old(s.table.pmm.Free()) && old(s.queue) == [] && s.call == old(s.call)
      requires s.cpu.State() == old(s.cpu.State()) && s.cpu.cr3 == old(s.cpu.cr3) && s.cpu.rsp0 == old(s.cpu.rsp0)
      requires forall t :: t in s.table.pool ==> t.pml4 == old(t.pml4) && t.savedRsp == old(t.savedRsp)
      requires s.View() == Tick(old(s.View())) && idle == old(idle)
      ensures TickMoves(Fixed(), old(Now()), Now())
    {
      hide TaskScheduler.Base;
      ListChanges();
    }

    /** scheduler_tick when somebody waits. */
    method TickOver()
      requires s.Valid() && s.Calling() && s.queue != []
      modifies this`idle, this`trace, s, s.cpu, s.cpu.ram, s.table.pool`state, s.table.pool`next, s.table.pool`savedRsp
      ensures s.Base() && (!s.call.Torn? ==> s.Valid()) && TickMoves(Fixed(), old(Now()), Now())
    {
      hide TaskScheduler.Base, TaskScheduler.Shape, Seen, Dropped, TickMoves, TaskScheduler.OffBitmap, Now;
      var gone := Drops();
      idle := idle + gone;
      IdleChanges();
      TickRecorded(old(idle));
    }

    twostate lemma IdleChanges()
      requires old(s.Base()) && s.Base() && trace == old(trace)
      requires unchanged(s) && unchanged(s.cpu) && unchanged(s.cpu.ram)
      requires unchanged(s.table) && unchanged(s.table.slotUsed) && unchanged(s.table.pmm) && unchanged(s.table.pmm.ram)
      requires forall t :: t in s.table.pool ==> unchanged(t)
      requires s.View() == old(s.View())
      ensures old(Now()) == Now().(idle := old(idle))
    {
      hide TaskScheduler.Base;
    }

    /** scheduler_tick, once the task that it drops from the queue is idle. */
    method TickRecorded(ghost before: seq<Task>)
      requires s.Valid() && s.Calling() && s.queue != [] && idle == before + Dropped(Seen(s.View(), s.call))
      modifies this`trace, s, s.cpu, s.cpu.ram, s.table.pool`state, s.table.pool`next, s.table.pool`savedRsp
      ensures s.Base() && (!s.call.Torn? ==> s.Valid())
      ensures TickMoves(Fixed(), old(Now()).(idle := before), Now())
    {
      hide TaskScheduler.Base, TaskScheduler.Shape, Seen, Dropped, Tick, CameFrom, TickMoves, TaskScheduler.OffBitmap,
        TickEvents, TaskScheduler.SpaceOf, TornBy;
      s.TickFacts();
      s.Tick();
      trace := trace + TickEvents(old(s.View()), s.table.stacks, old(s.cpu.State()), s.cpu.State());
      ItTicks(before);
    }

    /** The contract of scheduler_tick as a step of the model. */
    twostate lemma ItTicks(new before: seq<Task>)
      requires old(s.Base()) && s.Base() && unchanged(s.table) && unchanged(s.table.slotUsed) && unchanged(s.table.pmm)
      requires forall t :: t in s.table.pool ==> t.pml4 == old(t.pml4) && t.stackTop == old(t.stackTop)
      requires idle == old(idle) == before + Dropped(Seen(old(s.View()), old(s.call)))
      requires old(s.queue) != [] && old(s.queue[0]) in s.table.stacks && s.current == old(s.queue[0])
      requires old(s.current) != null ==> old(s.current) in s.table.stacks
      requires s.View() == Tick(old(s.View())) && s.table.pmm.Free() == old(s.table.pmm.Free())
      requires s.call == TornBy(old(s.call)) && s.cpu.rsp0 == s.current.stackTop
      requires trace == old(trace) + TickEvents(old(s.View()), s.table.stacks, old(s.cpu.State()), s.cpu.State())
      requires old(s.current) == null ==>
        && s.cpu.State() == old(s.cpu.State()) && s.cpu.cr3 == old(s.cpu.cr3)
        && forall t :: t in s.table.pool ==> t.savedRsp == old(t.savedRsp)
      requires old(s.current) != null ==>
        && s.cpu.cr3 == s.SpaceOf(s.current) && 6 <= old(s.cpu.sp)
        && CameFrom(old(s.cpu.State()), old(s.cpu.IncomingSp(s.current, s.queue[0])), s.cpu.State())
        && old(s.current).savedRsp == 8 * (old(s.cpu.sp) - 6)
        && forall t :: t in s.table.pool && t != old(s.current) ==> t.savedRsp == old(t.savedRsp)
      ensures TickMoves(Fixed(), old(Now()).(idle := before), Now())
    {
      hide TaskScheduler.Base, Seen, Dropped, Tick, CameFrom, HandoverEvents;
      OldTasks();
      TaskFields(s.current);
      SavedChange(old(s.current), old(s.cpu.sp));
    }

    /** The saved stack pointers after a switch away from `prev`. */
    twostate lemma SavedChange(new prev: Task?, sp: nat)
      requires s.table.stacks == old(s.table.stacks) && (prev != null ==> prev in s.table.stacks && 6 <= sp)
      requires forall t :: t in s.table.stacks ==> t in s.table.pool && t.pml4 == old(t.pml4)
      requires forall t :: t in s.table.pool ==> t.savedRsp == if t == prev then 8 * (sp - 6) else old(t.savedRsp)
      ensures Spaces() == old(Spaces())
      ensures Saved() == if prev == null then old(Saved()) else old(Saved())[prev := 8 * (sp - 6)]
    {
    }

    /** The tests of scheduler_start. */
    method StartNow()
      requires s.Valid() && s.call.NoCall?
      modifies s`call
      ensures s.Valid() && Now() == old(Now()).(call := StartCall(old(s.View())))
    {
      hide TaskScheduler.Base, TaskScheduler.Shape, StartCall;
      s.EnterStart();
      ListChanges();
    }

    /** The tests of task_yield. */
    method YieldNow()
      requires s.Valid() && s.call.NoCall? && s.current != null
      modifies s`call, s.current`state
      ensures s.Valid()
      ensures Now() == old(Now()).(view := YieldView(old(s.View())), call := YieldCall(old(s.View())))
    {
      hide TaskScheduler.Base, TaskScheduler.Shape, YieldView, YieldCall;
      s.EnterYield();
      ListChanges();
    }

    /** Who drops out of the queue when the call names its task. */
    method Leaves() returns (gone: seq<Task>)
      requires s.Valid() && s.call.Inside? && s.call.pos.Marked?
      ensures gone == Dropped(Seen(s.View(), s.call))
    {
      hide TaskScheduler.Base, TaskScheduler.ListOk, Seen, Dropped, CallOk;
      DroppedByCall(s.View(), s.call);
      gone := if s.call.caller.Some? && s.readyTail != s.call.caller.value then [s.call.caller.value] else [];
    }

    /** The next statement of a call. */
    method AdvanceNow()
      requires s.Valid() && s.call.Inside? && !s.call.pos.Spaced?
      modifies this`idle, s, s.cpu`rsp0, s.cpu`cr3, s.table.pool`state, s.table.pool`next
      ensures s.Valid() && AdvanceMoves(Fixed(), old(Now()), Now())
    {
      hide TaskScheduler.Base, TaskScheduler.Shape, Seen, Dropped, AdvanceMoves, Now;
      if s.call.pos.Marked? {
        var gone := Leaves();
        idle := idle + gone;
      }
      IdleChanges();
      AdvanceRecorded(old(idle));
    }

    /** The same, once the task that it drops from the queue is idle. */
    method AdvanceRecorded(ghost before: seq<Task>)
      requires s.Valid() && s.call.Inside? && !s.call.pos.Spaced?
      requires idle == if s.call.pos.Marked? then before + Dropped(Seen(s.View(), s.call)) else before
      modifies s, s.cpu`rsp0, s.cpu`cr3, s.table.pool`state, s.table.pool`next
      ensures s.Valid() && AdvanceMoves(Fixed(), old(Now()).(idle := before), Now())
    {
      hide TaskScheduler.Base, TaskScheduler.Shape, Seen, Dropped, AdvanceMoves, NextView, NextCall, CanStep, Now;
      if Named(s.call.pos) { NamedCreated(); }
      s.Advance();
      ItAdvances(before);
    }

    lemma NamedCreated()
      requires s.Valid() && s.call.Inside? && Named(s.call.pos)
      ensures s.call.pos.next in s.table.stacks
    {
      hide FreeSet, StacksApart;
    }

    /** The contract of the next statement as a step of the model. */
    twostate lemma ItAdvances(new before: seq<Task>)
      requires old(s.Base()) && s.Base() && unchanged(s.table) && unchanged(s.table.slotUsed) && trace == old(trace)
      requires s.table.pmm.Free() == old(s.table.pmm.Free()) && s.cpu.State() == old(s.cpu.State())
      requires forall t :: t in s.table.pool ==> t.pml4 == old(t.pml4) && t.savedRsp == old(t.savedRsp)
      requires old(s.call.Inside? && !s.call.pos.Spaced? && CanStep(s.View(), s.call))
      requires old(Named(s.call.pos)) ==> old(s.call.pos.next) in s.table.stacks
      requires s.View() == NextView(old(s.View()), old(s.call)) && s.call == NextCall(old(s.View()), old(s.call))
      requires idle == old(idle) == if old(s.call.pos.Marked?) then before + Dropped(Seen(old(s.View()), old(s.call)))
                                    else before
      requires s.cpu.rsp0 == if old(s.call.pos).Installed? then old(s.call.pos.next.stackTop) else old(s.cpu.rsp0)
      requires s.cpu.cr3 == if old(s.call.pos).Stacked? then old(s.CallSpace(s.call)) else old(s.cpu.cr3)
      ensures AdvanceMoves(Fixed(), old(Now()).(idle := before), Now())
    {
      hide TaskScheduler.Base, Seen, Dropped, NextView, NextCall, CanStep;
      OldTasks();
      SavedChange(null, 0);
    }

    /** The switch of stacks at the end of a call. */
    method SwitchNow()
      requires s.Valid() && s.Calling() && AtSwitch(Now())
      modifies this`trace, s, s.cpu, s.cpu.ram, s.table.pool`savedRsp
      ensures s.Valid() && SwitchMoves(old(Now()), Now())
    {
      hide TaskScheduler.Base, TaskScheduler.Shape, TaskScheduler.OffBitmap, CameFrom, SwitchMoves, HandoverEvents;
      NamedCreated();
      if s.call.caller.Some? { CallerCreated(); }
      s.SwitchStacks();
      trace := trace + if old(s.call.caller).None? then [Resume(old(s.call.pos.next), s.cpu.State())]
                       else HandoverEvents(s.table.stacks, old(s.cpu.State()), old(s.call.caller.value),
                                           old(s.call.pos.next), s.cpu.State());
      ItSwitches();
    }

    lemma CallerCreated()
      requires s.Valid() && s.call.Inside? && s.call.caller.Some?
      ensures s.call.caller.value in s.table.stacks
    {
      hide FreeSet, StacksApart;
    }

    /** The contract of the switch as a step of the model. */
    twostate lemma ItSwitches()
      requires old(s.Base()) && s.Base() && unchanged(s.table) && unchanged(s.table.slotUsed) && idle == old(idle)
      requires s.table.pmm.Free() == old(s.table.pmm.Free()) && old(AtSwitch(Now())) && s.call == NoCall
      requires old(s.call.pos.next) in s.table.stacks && s.View() == old(s.View())
      requires old(s.call.caller).Some? ==> old(s.call.caller.value) in s.table.stacks && 6 <= old(s.cpu.sp)
      requires s.cpu.cr3 == old(s.cpu.cr3) && s.cpu.rsp0 == old(s.cpu.rsp0)
      requires CameFrom(old(s.cpu.State()), old(s.call.pos.next.savedRsp) / 8, s.cpu.State())
      requires forall t :: t in s.table.pool ==>
        t.pml4 == old(t.pml4)
        && t.savedRsp == if Some(t) == old(s.call.caller) then 8 * (old(s.cpu.sp) - 6) else old(t.savedRsp)
      requires trace == old(trace) +
        if old(s.call.caller).None? then [Resume(old(s.call.pos.next), s.cpu.State())]
        else HandoverEvents(s.table.stacks, old(s.cpu.State()), old(s.call.caller.value), old(s.call.pos.next),
                            s.cpu.State())
      ensures SwitchMoves(old(Now()), Now())
    {
      hide TaskScheduler.Base, CameFrom, HandoverEvents;
      OldTasks();
      SavedChange(if old(s.call.caller).Some? then old(s.call.caller.value) else null, old(s.cpu.sp));
    }

    /** The running code enters scheduler_start. */
    method StartAt(at: Machine)
      requires Valid() && s.call.NoCall? && MayReach(at)
      modifies s, s.cpu, s.cpu.ram
      ensures s.Valid() && Moves(Fixed(), old(Now()), Op.StartAt(at), Now())
    {
      hide TaskScheduler.Base, TaskScheduler.Shape, InOrder, MayReach, Rules, StartCall, Faithful,
        TaskScheduler.Calling;
      RulesAgree(at);
      Execute(at);
      StartNow();
    }

    /** The running task enters task_yield. */
    method YieldAt(at: Machine)
      requires Valid() && MayYield(Now()) && MayReach(at)
      modifies s, s.cpu, s.cpu.ram, s.table.pool`state
      ensures s.Valid() && Moves(Fixed(), old(Now()), Op.YieldAt(at), Now())
    {
      hide TaskScheduler.Base, TaskScheduler.Shape, InOrder, MayReach, Rules, YieldView, YieldCall, Faithful,
        TaskScheduler.Calling;
      RulesAgree(at);
      RunnerFacts();
      Execute(at);
      YieldNow();
    }

    lemma RunnerFacts()
      requires Valid()
      ensures s.current != null && s.call.NoCall? ==> s.current in s.table.pool
    {
      hide InOrder, Faithful, FreeSet, StacksApart;
    }

    /** The call in progress reaches context_switch. */
    method SwitchAt(at: Machine)
      requires Valid() && AtSwitch(Now()) && MayReach(at)
      modifies this`trace, s, s.cpu, s.cpu.ram, s.table.pool`savedRsp
      ensures s.Valid() && Moves(Fixed(), old(Now()), Op.SwitchAt(at), Now())
    {
      hide TaskScheduler.Base, TaskScheduler.Shape, InOrder, MayReach, Rules, SwitchMoves, Faithful,
        TaskScheduler.Calling;
      RulesAgree(at);
      Execute(at);
      SwitchNow();
    }

    /** The timer ticks. */
    method TickAt(at: Machine)
      requires Valid() && MayReach(at)
      modifies this`idle, this`early, this`trace, s, s.cpu, s.cpu.ram, s.table.pool`state, s.table.pool`next,
        s.table.pool`savedRsp
      ensures s.Base() && (!s.call.Torn? ==> s.Valid()) && Moves(Fixed(), old(Now()), Op.TickAt(at), Now())
      ensures early <==> old(early) || EarlyTick(Fixed(), old(Now()), Op.TickAt(at))
    {
      hide TaskScheduler.Base, TaskScheduler.Shape, InOrder, MayReach, Rules, TickMoves, Faithful,
        TaskScheduler.Calling;
      RulesAgree(at);
      Execute(at);
      TickNow();
    }

    /** A step of the running code or of the timer. */
    method Enter(op: Op)
      requires Valid() && (op.StartAt? || op.YieldAt? || op.Advance? || op.SwitchAt? || op.TickAt?)
      modifies this`idle, this`early, this`trace, s, s.cpu, s.cpu.ram, s.table.pool`state, s.table.pool`next,
        s.table.pool`savedRsp
      ensures s.Base() && (!s.call.Torn? ==> s.Valid()) && Moves(Fixed(), old(Now()), op, Now())
      ensures early <==> old(early) || EarlyTick(Fixed(), old(Now()), op)
    {
      hide TaskScheduler.Base, TaskScheduler.Shape, InOrder, MayReach, Rules, TickMoves, SwitchMoves, Faithful;
      match op
      case StartAt(at) =>
        RulesAgree(at);
        if s.call.NoCall? && MayReach(at) { StartAt(at); }
      case YieldAt(at) =>
        RulesAgree(at);
        if s.call.NoCall? && s.current != null && MayReach(at) { YieldAt(at); }
      case SwitchAt(at) =>
        RulesAgree(at);
        if s.call.Inside? && s.call.pos.Spaced? && MayReach(at) { SwitchAt(at); }
      case TickAt(at) =>
        RulesAgree(at);
        if MayReach(at) { TickAt(at); }
      case Advance => if s.call.Inside? && !s.call.pos.Spaced? { AdvanceNow(); }
      case _ =>
    }

    /** A step of the kernel's other code. */
    method Manage(op: Op)
      requires Valid() && (op.Create? || op.Admit? || op.SetSpace? || op.Leave?)
      modifies this`idle, this`trace, s, s.table, s.table.slotUsed, s.table.pool, s.table.pmm, s.table.pmm.ram
      ensures s.Valid() && Moves(Fixed(), old(Now()), op, Now()) && s.call == old(s.call)
    {
      hide TaskScheduler.Base, TaskScheduler.Shape, InOrder, CreateMoves, Faithful;
      match op
      case Create(entry) => if s.call.NoCall? { Create(entry); }
      case Admit(i) => if s.call.NoCall? && i < |idle| { Admit(i); }
      case SetSpace(i, pml4) => if s.call.NoCall? && i < |idle| { SetSpace(i, pml4); }
      case Leave(state) =>
        if s.call.NoCall? && s.current != null && state != READY && state != RUNNING { Leave(state); }
      case _ =>
    }

    /** Any step is the step of the model, and all is in order afterwards unless a tick
        has torn a call. */
    method Step(op: Op)
      requires Valid()
      modifies this`idle, this`early, this`trace, s, s.cpu, s.cpu.ram, s.table, s.table.slotUsed, s.table.pool,
        s.table.pmm, s.table.pmm.ram
      ensures s.Base() && Moves(Fixed(), old(Now()), op, Now())
      ensures s.call.Torn? <==> Tears(Fixed(), old(Now()), op)
      ensures !s.call.Torn? ==> Valid()
    {
      hide TaskScheduler.Base, TaskScheduler.Shape, InOrder, Moves, Rules, Tears, Faithful;
      ghost var p := Now();
      if op.Create? || op.Admit? || op.SetSpace? || op.Leave? {
        Manage(op);
      } else {
        Enter(op);
      }
      Ordered(p, op);
    }

    lemma Ordered(p: Snapshot, op: Op)
      requires InOrder(Fixed(), p) && s.Base() && Moves(Fixed(), p, op, Now())
      ensures Faithful(trace) <==> Faithful(p.trace) && !EarlyTick(Fixed(), p, op)
      ensures s.call.Torn? <==> Tears(Fixed(), p, op)
      ensures !s.call.Torn? ==> InOrder(Fixed(), Now())
    {
      hide InOrder, Moves, EarlyTick, Tears, Faithful;
      StepKeepsOrder(Fixed(), p, op, Now());
    }

    /** Every run is a run of the model, step by step, up to its end or to the first tick
        that tears a call: one that comes in between the statements of scheduler_start or
        task_yield while somebody waits.  The history of switches only grows, and it is
        faithful if and only if no tick found somebody waiting while the CPU did not run
        the current task.  Unless a call was torn, everything is in order at the end, and
        whoever waited at position k while someone was current is current after exactly
        k + 1 turns. */
    method Run(ops: seq<Op>) returns (ghost states: seq<Snapshot>, done: nat)
      requires Valid()
      modifies this`idle, this`early, this`trace, s, s.cpu, s.cpu.ram, s.table, s.table.slotUsed, s.table.pool,
        s.table.pmm, s.table.pmm.ram
      ensures s.Base() && done <= |ops| && IsRun(Fixed(), states, ops[..done])
      ensures states[0] == old(Now()) && states[done] == Now()
      ensures s.call.Torn? <==> done > 0 && Tears(Fixed(), states[done - 1], ops[done - 1])
      ensures done < |ops| ==> s.call.Torn?
      ensures old(trace) <= trace
      ensures Faithful(trace) <==> Faithful(old(trace)) && NoEarlyTick(Fixed(), states, ops[..done])
      ensures !s.call.Torn? ==>
                Valid() && (s.call.NoCall? ==> s.ListOk()) && (Faithful(trace) ==> Homed(Fixed(), Now()))
      ensures !s.call.Torn? && Order(states[0]).current.Some? ==>
                forall k: nat :: k < |Order(states[0]).ready| && Turns(Fixed(), states, ops[..done]) == k + 1 ==>
                  Order(Now()).current == Some(Order(states[0]).ready[k])
    {
      hide TaskScheduler.Base, TaskScheduler.Shape, InOrder, Moves, Tears, EarlyTick, Faithful, Order, Turns, Homed,
        TaskScheduler.ListOk;
      states, done := [Now()], 0;
      while done < |ops| && !s.call.Torn?
        invariant s.Base() && done <= |ops| && |states| == done + 1
        invariant states[0] == old(Now()) && states[done] == Now()
        invariant forall j :: 0 <= j < done ==> Moves(Fixed(), states[j], ops[j], states[j + 1])
        invariant forall j :: 0 <= j < done - 1 ==> !Tears(Fixed(), states[j], ops[j])
        invariant s.call.Torn? <==> done > 0 && Tears(Fixed(), states[done - 1], ops[done - 1])
        invariant !s.call.Torn? ==> Valid()
      {
        Step(ops[done]);
        states, done := states + [Now()], done + 1;
      }
      RunMeans(states, ops[..done]);
    }

    /** What a run of the model says about the state it ends in. */
    lemma RunMeans(states: seq<Snapshot>, ops: seq<Op>)
      requires IsRun(Fixed(), states, ops) && InOrder(Fixed(), states[0]) && Whole(Fixed(), states, ops)
      requires s.Base() && Now() == states[|ops|] && (!s.call.Torn? ==> s.Valid())
      requires s.call.Torn? <==> |ops| > 0 && Tears(Fixed(), states[|ops| - 1], ops[|ops| - 1])
      ensures states[0].trace <= trace
      ensures Faithful(trace) <==> Faithful(states[0].trace) && NoEarlyTick(Fixed(), states, ops)
      ensures !s.call.Torn? ==> (s.call.NoCall? ==> s.ListOk()) && (Faithful(trace) ==> Homed(Fixed(), Now()))
      ensures !s.call.Torn? && Order(states[0]).current.Some? ==>
                forall k: nat :: k < |Order(states[0]).ready| && Turns(Fixed(), states, ops) == k + 1 ==>
                  Order(Now()).current == Some(Order(states[0]).ready[k])
    {
      hide TaskScheduler.Base, Moves, Tears, EarlyTick, Faithful, Order, Turns, Homed, TaskScheduler.ListOk, Lined,
        Sound;
      RunKeepsOrder(Fixed(), states, ops);
      if !s.call.Torn? && Order(states[0]).current.Some? {
        forall k: nat | k < |Order(states[0]).ready| && Turns(Fixed(), states, ops) == k + 1
          ensures Order(Now()).current == Some(Order(states[0]).ready[k])
        {
          RunIsFair(Fixed(), states, ops, k);
        }
      }
    }

    /** The boot code calls scheduler_start when two tasks wait, and the timer ticks once
        the first one is named: from every such state its context is lost. */
    method LoseFirst(at: Machine)
      requires Valid() && s.call.NoCall? && s.current == null && |s.queue| >= 2 && MayReach(at)
      modifies this`idle, this`early, this`trace, s, s.cpu, s.cpu.ram, s.table, s.table.slotUsed, s.table.pool,
        s.table.pmm, s.table.pmm.ram
      ensures s.Base() && s.call.Torn? && !Faithful(trace) && s.View() == View(Some(old(s.queue[1])), true, s.queue)
      ensures var first := old(s.queue[0]);
        && first in s.table.stacks && 6 <= at.sp && first.savedRsp == 8 * (at.sp - 6)
        && !OnStack(s.table.stacks[first], at.sp - 6)
    {
      hide TaskScheduler.Base, TaskScheduler.Shape, InOrder, Moves, Rules, MayReach, Faithful, EarlyTick;
      RulesAgree(at);
      var ops := [Op.StartAt(at), Advance, Advance, Advance, Advance, Op.TickAt(at)];
      var states, done := Run(ops);
      assert done == 6 && ops[..done] == ops;
      StartReaches(Fixed(), states, at);
      LostStart(Fixed(), states, at, at);
      TaskFields(old(s.queue[0]));
    }

    /** A running task yields when another waits, and the timer ticks once it is marked
        READY: from every such state it is neither current nor queued any more. */
    method LoseYielding(at: Machine)
      requires Valid() && s.call.NoCall? && s.current != null && s.current.state == RUNNING && s.queue != []
      requires MayReach(at)
      modifies this`idle, this`early, this`trace, s, s.cpu, s.cpu.ram, s.table, s.table.slotUsed, s.table.pool,
        s.table.pmm, s.table.pmm.ram
      ensures s.Base() && s.call.Torn? && (Faithful(trace) <==> Faithful(old(trace)))
      ensures old(s.current) in s.table.stacks && Nowhere(old(s.current), idle, s.View())
    {
      hide TaskScheduler.Base, TaskScheduler.Shape, InOrder, Moves, Rules, MayReach, Faithful, EarlyTick;
      RulesAgree(at);
      var ops := [Op.YieldAt(at), Op.TickAt(at)];
      var states, done := Run(ops);
      assert done == 2 && ops[..done] == ops;
      EnterStays(Fixed(), states[0], ops[0], states[1]);
      StillReaches(Fixed(), states[0], states[1], at);
      LostYield(Fixed(), states, at, at);
    }
  }

  /** Who drops out of the queue by a tick, also inside a call: the current task, unless
      it runs, or is about to queue itself, or has done so. */
  lemma DroppedByTick(v: View<Task>, call: Call<Task>)
    requires CallOk(v, call) && !call.Torn? && v.ready != []
    ensures Dropped(Seen(v, call)) ==
            if v.current.Some? && !v.running
               && !(call.Inside? && (call.pos.Demoted? || v.ready[|v.ready| - 1] == v.current.value))
            then [v.current.value] else []
  {
    if call.Inside? && (call.pos.Unlinked? || call.pos.Marked?) {
      var line := [call.pos.next] + v.ready;
      assert line[|line| - 1] == v.ready[|v.ready| - 1];
    }
  }

  lemma DroppedByCall(v: View<Task>, call: Call<Task>)
    requires CallOk(v, call) && call.Inside? && call.pos.Marked?
    ensures Dropped(Seen(v, call)) ==
            if call.caller.Some? && !(v.ready != [] && v.ready[|v.ready| - 1] == call.caller.value)
            then [call.caller.value] else []
  {
    var line := [call.pos.next] + v.ready;
    assert v.ready != [] ==> line[|line| - 1] == v.ready[|v.ready| - 1];
  }
}
