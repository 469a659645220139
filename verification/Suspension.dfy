/** Where suspended computations live: every task but the running one has its
    state on its own stack, and the history of switches says which. */
module Suspension {
  import opened Wrappers
  import opened PageEntry
  import opened Ram
  import opened Pmm
  import opened StackMachine
  import opened ContextSwitch
  import opened Interrupts
  import opened Tasks
  import opened RoundRobin

  /** Memory keeps every suspended computation on its task's own stack. */
  ghost predicate AllKept(m: Memory, stacks: map<Task, nat>, suspended: map<Task, Machine>)
  {
    forall t :: t in suspended ==>
      && t in stacks && WORDS_PER_FRAME * stacks[t] + 6 <= suspended[t].sp
      && Kept(m, suspended[t].sp - 6, TopWord(stacks[t]), suspended[t])
  }

  /** A change off every suspended stack, in words of `m`. */
  ghost predicate OffStacks(m: Memory, m': Memory, stacks: map<Task, nat>, tasks: set<Task>)
  {
    |m'| == |m| && forall k, t :: 0 <= k < |m| && m'[k] != m[k] && t in tasks && t in stacks ==> !OnStack(stacks[t], k)
  }

  lemma StillKept(m: Memory, m': Memory, stacks: map<Task, nat>, suspended: map<Task, Machine>)
    requires AllKept(m, stacks, suspended) && OffStacks(m, m', stacks, suspended.Keys)
    ensures AllKept(m', stacks, suspended)
  {
    forall t | t in suspended
      ensures Kept(m', suspended[t].sp - 6, TopWord(stacks[t]), suspended[t])
    {
      KeptElsewhere(m, m', suspended[t].sp - 6, TopWord(stacks[t]), suspended[t]);
    }
  }

  /** The six words below the stack pointer, where context_switch pushes. */
  ghost predicate PushesOff(sp: nat, stacks: map<Task, nat>, tasks: set<Task>)
  {
    forall k, t :: sp - 6 <= k < sp && t in tasks && t in stacks ==> !OnStack(stacks[t], k)
  }

  lemma OwnPushes(sp: nat, stacks: map<Task, nat>, free: set<nat>, bitmap: set<int>, total: nat, task: Task,
                  tasks: set<Task>)
    requires StacksApart(stacks, free, bitmap, total) && task in stacks && task !in tasks
    requires WORDS_PER_FRAME * stacks[task] + 6 <= sp <= TopWord(stacks[task])
    ensures PushesOff(sp, stacks, tasks)
  {
  }

  /** context_switch from state `s`, loading the computation that `next` suspended. */
  ghost function Switched(s: Machine, c: Machine): (b: Machine)
    requires Room(s, 6, 1) && 6 <= c.sp < |s.mem|
    ensures |b.mem| == |s.mem|
  {
    LoadContext(SaveContext(s).(sp := c.sp - 6))
  }

  /** `b` is what context_switch makes of `s` when it loads stack pointer `sp`. */
  ghost predicate CameFrom(s: Machine, sp: nat, b: Machine)
  {
    Room(s, 6, 1) && sp + 7 <= |s.mem| && b == LoadContext(SaveContext(s).(sp := sp))
  }

  /** context_switch writes the six words below the stack pointer it is called with, and
      none else; the stack pointer it loads then moves up past the CpuContext. */
  lemma SwitchTouches(s: Machine, sp: nat, b: Machine)
    requires CameFrom(s, sp, b)
    ensures |b.mem| == |s.mem| && b.sp == sp + 7 && b.rip == b.mem[sp + 6] && |b.regs| == 15
    ensures forall k :: 0 <= k < |s.mem| ==>
              b.mem[k] == if s.sp - 6 <= k < s.sp then s.regs[SWITCH_PUSHES[s.sp - 1 - k]] else s.mem[k]
    ensures forall i :: 0 <= i < 6 ==> b.regs[SWITCH_POPS[i]] == b.mem[sp + i]
    ensures b.cs == s.cs && b.rflags == s.rflags && b.ss == s.ss
  {
    hide PushAll, PopAll;
    SwitchLists();
    forall k | 0 <= k < |s.mem|
      ensures b.mem[k] == if s.sp - 6 <= k < s.sp then s.regs[SWITCH_PUSHES[s.sp - 1 - k]] else s.mem[k]
    {
      PushAllMeaning(SWITCH_PUSHES, s, k);
    }
    forall i | 0 <= i < 6
      ensures b.regs[SWITCH_POPS[i]] == b.mem[sp + i]
    {
      PopAllMeaning(SWITCH_POPS, SaveContext(s).(sp := sp), i);
    }
  }

  lemma KeptBounds(m: Memory, stacks: map<Task, nat>, suspended: map<Task, Machine>, task: Task)
    requires AllKept(m, stacks, suspended) && task in suspended
    ensures task in stacks && 6 <= suspended[task].sp < |m|
    ensures WORDS_PER_FRAME * stacks[task] < suspended[task].sp < TopWord(stacks[task])
  {
  }

  lemma KeptFewer(m: Memory, stacks: map<Task, nat>, suspended: map<Task, Machine>, task: Task)
    requires AllKept(m, stacks, suspended)
    ensures AllKept(m, stacks, suspended - {task})
  {
    hide Kept;
  }

  /** The incoming computation continues where it stopped, and nothing else that is
      suspended is disturbed. */
  lemma SwitchResumes(s: Machine, stacks: map<Task, nat>, suspended: map<Task, Machine>, next: Task)
    requires Room(s, 6, 1) && AllKept(s.mem, stacks, suspended) && next in suspended
    requires PushesOff(s.sp, stacks, suspended.Keys)
    ensures Returned(suspended[next], Switched(s, suspended[next]), TopWord(stacks[next]))
    ensures AllKept(Switched(s, suspended[next]).mem, stacks, suspended)
  {
    hide SaveContext, LoadContext, Kept;
    var c := suspended[next];
    var s1 := SaveContext(s).(sp := c.sp - 6);
    SaveKeeps(s, s.sp);
    StillKept(s.mem, s1.mem, stacks, suspended);
    LoadResumes(s1, TopWord(stacks[next]), c);
  }

  /** The outgoing computation is kept as well. */
  lemma SwitchKeepsCaller(s: Machine, stacks: map<Task, nat>, suspended: map<Task, Machine>, prev: Task, next: Task)
    requires Room(s, 6, 1) && AllKept(s.mem, stacks, suspended) && next in suspended
    requires PushesOff(s.sp, stacks, suspended.Keys)
    requires prev in stacks && WORDS_PER_FRAME * stacks[prev] + 6 <= s.sp < TopWord(stacks[prev]) <= |s.mem|
    ensures AllKept(Switched(s, suspended[next]).mem, stacks, suspended[prev := s])
  {
    hide SaveContext, LoadContext, Kept, Returned;
    SwitchResumes(s, stacks, suspended, next);
    SaveKeeps(s, TopWord(stacks[prev]));
  }

  // The history of switches

  /** A computation stopped (or was forged) in state `call` on a stack that ends at
      word `top`, or the CPU went on with a task in state `back`. */
  datatype Event = Suspend(task: Task, call: Machine, top: nat) | Resume(task: Task, back: Machine)

  /** What the last event about a task left waiting. */
  ghost function Pending(trace: seq<Event>, task: Task): Option<(Machine, nat)>
    decreases |trace|
  {
    if trace == [] then None
    else
      var e := trace[|trace| - 1];
      if e.task != task then Pending(trace[..|trace| - 1], task)
      else if e.Suspend? then Some((e.call, e.top)) else None
  }

  /** Every resumption continues the last suspension of the same task, and no task is
      suspended while it already is. */
  ghost predicate Faithful(trace: seq<Event>)
    decreases |trace|
  {
    trace == [] ||
    var before, e := trace[..|trace| - 1], trace[|trace| - 1];
    && Faithful(before)
    && (e.Suspend? ==> Pending(before, e.task).None?)
    && (e.Resume? ==>
          && Pending(before, e.task).Some?
          && Returned(Pending(before, e.task).value.0, e.back, Pending(before, e.task).value.1))
  }

  /** The history remembers exactly the suspended tasks. */
  ghost predicate AllPending(trace: seq<Event>, stacks: map<Task, nat>, suspended: map<Task, Machine>)
  {
    && (forall t :: t in suspended ==> t in stacks && Pending(trace, t) == Some((suspended[t], TopWord(stacks[t]))))
    && (forall i :: 0 <= i < |trace| && trace[i].task !in suspended ==> Pending(trace, trace[i].task) == None)
  }

  lemma NotPending(trace: seq<Event>, stacks: map<Task, nat>, suspended: map<Task, Machine>, task: Task)
    requires AllPending(trace, stacks, suspended) && task !in suspended
    ensures Pending(trace, task) == None
  {
    hide Pending;
    if Pending(trace, task).Some? {
      var j := PendingMeans(trace, task);
      assert trace[j].task == task;
    }
  }

  lemma AddEvent(trace: seq<Event>, e: Event)
    ensures forall t: Task :: Pending(trace + [e], t) ==
              if e.task != t then Pending(trace, t) else if e.Suspend? then Some((e.call, e.top)) else None
    ensures Faithful(trace + [e]) <==>
              && Faithful(trace)
              && (e.Suspend? ==> Pending(trace, e.task).None?)
              && (e.Resume? ==>
                    && Pending(trace, e.task).Some?
                    && Returned(Pending(trace, e.task).value.0, e.back, Pending(trace, e.task).value.1))
  {
    assert (trace + [e])[..|trace|] == trace;
  }

  lemma {:induction false} PendingMeans(trace: seq<Event>, task: Task) returns (j: nat)
    requires Pending(trace, task).Some?
    ensures j < |trace| && trace[j] == Suspend(task, Pending(trace, task).value.0, Pending(trace, task).value.1)
    ensures forall k :: j < k < |trace| ==> trace[k].task != task
    decreases |trace|
  {
    if trace[|trace| - 1].task == task {
      j := |trace| - 1;
    } else {
      j := PendingMeans(trace[..|trace| - 1], task);
    }
  }

  lemma {:induction false} FaithfulPrefix(trace: seq<Event>, i: nat)
    requires Faithful(trace) && i <= |trace|
    ensures Faithful(trace[..i])
    decreases |trace|
  {
    if i < |trace| {
      FaithfulPrefix(trace[..|trace| - 1], i);
      assert trace[..|trace| - 1][..i] == trace[..i];
    } else {
      assert trace[..i] == trace;
    }
  }

  /** In a faithful history a task always continues the computation it stopped in
      last, with nothing about it in between. */
  lemma FaithfulMeans(trace: seq<Event>, i: nat) returns (j: nat)
    requires Faithful(trace) && i < |trace| && trace[i].Resume?
    ensures j < i && trace[j].Suspend? && trace[j].task == trace[i].task
    ensures Returned(trace[j].call, trace[i].back, trace[j].top)
    ensures forall k :: j < k < i ==> trace[k].task != trace[i].task
  {
    hide Returned;
    FaithfulPrefix(trace, i + 1);
    assert trace[..i + 1][..i] == trace[..i];
    j := PendingMeans(trace[..i], trace[i].task);
  }

  /** Preemption is transparent.  A thread is interrupted in state `s`; the chain
      of calls from irq_handler stops in context_switch (event `j`) and, after any
      turns of other tasks, goes on (event `i`); irq_handler returns in state
      `exit`.  If the code between the stub and context_switch keeps the calling
      convention towards its caller whenever context_switch keeps it towards that
      code, the thread goes on exactly as it was. */
  lemma PreemptionIsTransparent(trace: seq<Event>, j: nat, i: nat, s: Machine, gate: Word, cs: Word, masked: Word,
                                vector: Word, back: Word, exit: Machine)
    requires Faithful(trace) && j < i < |trace| && trace[i].Resume? && trace[j].Suspend?
    requires trace[j].task == trace[i].task && forall k :: j < k < i ==> trace[k].task != trace[i].task
    requires Room(s, 24, 0) && 8 * s.sp < WORD_LIMIT && s.sp <= trace[j].top <= |s.mem|
    requires Returned(trace[j].call, trace[i].back, trace[j].top) ==>
               Returned(HandlerCalled(s, gate, cs, masked, vector, back), exit, trace[j].top)
    ensures Room(exit, 0, 22) && |exit.mem| == |s.mem|
    ensures var f := LeaveStub(exit);
      && f.regs == s.regs && f.sp == s.sp && f.rip == s.rip && f.cs == s.cs && f.rflags == s.rflags && f.ss == s.ss
      && |f.mem| == |s.mem| && forall k :: s.sp <= k < trace[j].top ==> f.mem[k] == s.mem[k]
  {
    hide HandlerCalled, LeaveStub, Faithful;
    var last := FaithfulMeans(trace, i);
    assert last == j;
    InterruptIsTransparent(s, gate, cs, masked, vector, back, exit, trace[j].top);
  }

  lemma TraceOfResume(trace: seq<Event>, stacks: map<Task, nat>, suspended: map<Task, Machine>, next: Task, b: Machine)
    requires Faithful(trace) && AllPending(trace, stacks, suspended) && next in suspended
    requires Returned(suspended[next], b, TopWord(stacks[next]))
    ensures Faithful(trace + [Resume(next, b)])
    ensures AllPending(trace + [Resume(next, b)], stacks, suspended - {next})
  {
    hide Returned, Faithful, Pending;
    var trace' := trace + [Resume(next, b)];
    AddEvent(trace, Resume(next, b));
    forall i | 0 <= i < |trace'| && trace'[i].task !in suspended - {next}
      ensures Pending(trace', trace'[i].task) == None
    {
      if trace'[i].task != next { NotPending(trace, stacks, suspended, trace'[i].task); }
    }
  }

  lemma TraceOfSuspend(trace: seq<Event>, stacks: map<Task, nat>, suspended: map<Task, Machine>, prev: Task, s: Machine)
    requires Faithful(trace) && AllPending(trace, stacks, suspended) && prev in stacks && prev !in suspended
    ensures Faithful(trace + [Suspend(prev, s, TopWord(stacks[prev]))])
    ensures AllPending(trace + [Suspend(prev, s, TopWord(stacks[prev]))], stacks, suspended[prev := s])
  {
    hide Returned, Faithful, Pending;
    var trace' := trace + [Suspend(prev, s, TopWord(stacks[prev]))];
    AddEvent(trace, Suspend(prev, s, TopWord(stacks[prev])));
    NotPending(trace, stacks, suspended, prev);
    forall i | 0 <= i < |trace'| && trace'[i].task !in suspended[prev := s]
      ensures Pending(trace', trace'[i].task) == None
    {
      NotPending(trace, stacks, suspended, trace'[i].task);
    }
  }

  /** Every task with a stack except `running` is suspended: memory keeps it and
      the history remembers it. */
  ghost predicate Parked(m: Memory, trace: seq<Event>, stacks: map<Task, nat>, suspended: map<Task, Machine>,
                         running: set<Task>)
  {
    && AllKept(m, stacks, suspended) && AllPending(trace, stacks, suspended)
    && suspended.Keys == stacks.Keys - running
  }

  ghost predicate RunsOn(s: Machine, f: nat)
  {
    Room(s, 6, 1) && WORDS_PER_FRAME * f + 6 <= s.sp < TopWord(f) <= |s.mem|
  }

  ghost predicate RunsOnStackOf(s: Machine, stacks: map<Task, nat>, task: Task)
  {
    task in stacks && RunsOn(s, stacks[task])
  }

  /** What a switch from `prev` to `next` adds to the history. */
  ghost function HandoverEvents(stacks: map<Task, nat>, s: Machine, prev: Task, next: Task, b: Machine): seq<Event>
  {
    [Suspend(prev, s, if prev in stacks then TopWord(stacks[prev]) else 0), Resume(next, b)]
  }

  /** What scheduler_tick adds: nothing when nobody waits, a resumption that never
      happened when nobody is current, and otherwise a switch. */
  ghost function TickEvents(v: View<Task>, stacks: map<Task, nat>, s: Machine, b: Machine): seq<Event>
  {
    if v.ready == [] then []
    else if v.current.None? then [Resume(v.ready[0], b)]
    else HandoverEvents(stacks, s, v.current.value, v.ready[0], b)
  }

  lemma AddHandover(trace: seq<Event>, stacks: map<Task, nat>, s: Machine, prev: Task, next: Task, b: Machine)
    ensures var top := if prev in stacks then TopWord(stacks[prev]) else 0;
      trace + HandoverEvents(stacks, s, prev, next, b) == trace + [Suspend(prev, s, top)] + [Resume(next, b)]
    ensures Faithful(trace + HandoverEvents(stacks, s, prev, next, b)) ==> Faithful(trace)
  {
    hide Faithful, Pending;
    var top := if prev in stacks then TopWord(stacks[prev]) else 0;
    assert trace + HandoverEvents(stacks, s, prev, next, b) == trace + [Suspend(prev, s, top)] + [Resume(next, b)];
    AddEvent(trace, Suspend(prev, s, top));
    AddEvent(trace + [Suspend(prev, s, top)], Resume(next, b));
  }

  /** A switch from `prev` to `next` parks the one and continues the other. */
  lemma Handover(trace: seq<Event>, stacks: map<Task, nat>, suspended: map<Task, Machine>, s: Machine,
                 prev: Task, next: Task, free: set<nat>, bitmap: set<int>, total: nat)
    requires StacksApart(stacks, free, bitmap, total) && prev in stacks && next in stacks && prev != next
    requires Faithful(trace) && Parked(s.mem, trace, stacks, suspended, {prev}) && RunsOn(s, stacks[prev])
    ensures next in suspended && suspended[next].sp >= 6
    ensures var b := Switched(s, suspended[next]);
      var trace' := trace + HandoverEvents(stacks, s, prev, next, b);
      && Faithful(trace') && Parked(b.mem, trace', stacks, suspended[prev := s] - {next}, {next})
      && Returned(suspended[next], b, TopWord(stacks[next]))
      && WORDS_PER_FRAME * stacks[next] <= b.sp <= TopWord(stacks[next])
  {
    hide Pending, Faithful, Switched, StacksApart, AllKept, AllPending, PushesOff;
    OwnPushes(s.sp, stacks, free, bitmap, total, prev, suspended.Keys);
    KeptBounds(s.mem, stacks, suspended, next);
    var b := Switched(s, suspended[next]);
    SwitchKeepsCaller(s, stacks, suspended, prev, next);
    SwitchResumes(s, stacks, suspended, next);
    AddHandover(trace, stacks, s, prev, next, b);
    var trace1 := trace + [Suspend(prev, s, TopWord(stacks[prev]))];
    TraceOfSuspend(trace, stacks, suspended, prev, s);
    TraceOfResume(trace1, stacks, suspended[prev := s], next, b);
    KeptFewer(b.mem, stacks, suspended[prev := s], next);
  }

  /** The first switch, away from the boot code. */
  lemma FirstHandover(trace: seq<Event>, stacks: map<Task, nat>, suspended: map<Task, Machine>, s: Machine, next: Task)
    requires next in stacks && Room(s, 6, 1) && PushesOff(s.sp, stacks, stacks.Keys)
    requires Faithful(trace) && Parked(s.mem, trace, stacks, suspended, {})
    ensures next in suspended && suspended[next].sp >= 6
    ensures var b := Switched(s, suspended[next]);
      var trace' := trace + [Resume(next, b)];
      && Faithful(trace') && Parked(b.mem, trace', stacks, suspended - {next}, {next})
      && Returned(suspended[next], b, TopWord(stacks[next]))
      && WORDS_PER_FRAME * stacks[next] <= b.sp <= TopWord(stacks[next])
  {
    hide Pending, Faithful, Switched, AllKept, AllPending, PushesOff;
    assert suspended.Keys == stacks.Keys;
    KeptBounds(s.mem, stacks, suspended, next);
    SwitchResumes(s, stacks, suspended, next);
    TraceOfResume(trace, stacks, suspended, next, Switched(s, suspended[next]));
    KeptFewer(Switched(s, suspended[next]).mem, stacks, suspended, next);
  }

  /** A switch away from a task that is suspended already overwrites what it was to
      go on with. */
  lemma SuspendedTwice(trace: seq<Event>, stacks: map<Task, nat>, suspended: map<Task, Machine>, s: Machine,
                       prev: Task, next: Task, b: Machine)
    requires AllPending(trace, stacks, suspended) && prev in suspended
    ensures !Faithful(trace + HandoverEvents(stacks, s, prev, next, b))
  {
    hide Pending, Faithful;
    var top := if prev in stacks then TopWord(stacks[prev]) else 0;
    AddHandover(trace, stacks, s, prev, next, b);
    AddEvent(trace, Suspend(prev, s, top));
    AddEvent(trace + [Suspend(prev, s, top)], Resume(next, b));
  }

  /** Had the CPU not been switched at all, the task would not go on where it stopped. */
  lemma NotResumed(trace: seq<Event>, stacks: map<Task, nat>, suspended: map<Task, Machine>, s: Machine, next: Task)
    requires next in stacks && Room(s, 6, 1) && PushesOff(s.sp, stacks, stacks.Keys)
    requires Parked(s.mem, trace, stacks, suspended, {})
    ensures !Faithful(trace + [Resume(next, s)])
  {
    hide Pending, Faithful;
    AddEvent(trace, Resume(next, s));
    assert next in suspended;
    var c := suspended[next];
    if s.sp == c.sp + 1 {
      assert OnStack(stacks[next], s.sp - 1);
    }
  }

  ghost function FirstSuspension(task: Task, m: Memory, f: nat, entry: Word): Event
    requires TopWord(f) <= |m|
  {
    Suspend(task, Forged(m, TopWord(f), entry), TopWord(f))
  }

  lemma NewStackElsewhere(m: Memory, m': Memory, stacks: map<Task, nat>, task: Task, f: nat,
                          free: set<nat>, bitmap: set<int>, total: nat)
    requires task !in stacks && StacksApart(stacks[task := f], free, bitmap, total)
    requires SameOutside(m, m', bitmap + StackFrames(f))
    ensures OffStacks(m, m', stacks, stacks.Keys)
  {
    hide StackFrames, OnStack;
    forall k: nat, t | k < |m| && m'[k] != m[k] && t in stacks
      ensures !OnStack(stacks[t], k)
    {
      assert k / WORDS_PER_FRAME in bitmap + StackFrames(f);
      StackWord(f, k);
      StackWord(stacks[t], k);
      assert StackFrames(stacks[task := f][t]) !! bitmap;
      StacksDisjoint(stacks[task := f], free, bitmap, total, t, task, k);
    }
  }

  lemma StacksDisjoint(stacks: map<Task, nat>, free: set<nat>, bitmap: set<int>, total: nat, t: Task, u: Task, k: nat)
    requires StacksApart(stacks, free, bitmap, total) && t in stacks && u in stacks && t != u
    ensures !(OnStack(stacks[t], k) && OnStack(stacks[u], k))
  {
  }

  lemma KeptGrows(m: Memory, stacks: map<Task, nat>, suspended: map<Task, Machine>, task: Task, f: nat, c: Machine)
    requires AllKept(m, stacks, suspended) && task !in stacks
    requires WORDS_PER_FRAME * f + 6 <= c.sp && Kept(m, c.sp - 6, TopWord(f), c)
    ensures AllKept(m, stacks[task := f], suspended[task := c])
  {
    hide Kept;
  }

  lemma PendingGrows(trace: seq<Event>, stacks: map<Task, nat>, suspended: map<Task, Machine>, task: Task, f: nat)
    requires AllPending(trace, stacks, suspended) && task !in stacks
    ensures AllPending(trace, stacks[task := f], suspended)
  {
    hide Pending;
  }

  /** A created thread counts as suspended in its forged state. */
  lemma CreateParks(m: Memory, m': Memory, trace: seq<Event>, stacks: map<Task, nat>, suspended: map<Task, Machine>,
                    running: set<Task>, task: Task, f: nat, entry: Word, free: set<nat>, bitmap: set<int>, total: nat)
    requires Faithful(trace) && Parked(m, trace, stacks, suspended, running) && task !in stacks && task !in running
    requires StacksApart(stacks[task := f], free, bitmap, total) && SameOutside(m, m', bitmap + StackFrames(f))
    requires Created(m', f, 8 * (TopWord(f) - 7), entry)
    ensures var c := Forged(m', TopWord(f), entry);
            var trace' := trace + [FirstSuspension(task, m', f, entry)];
            Faithful(trace') && Parked(m', trace', stacks[task := f], suspended[task := c], running)
  {
    hide Faithful, Pending, Kept, SameOutside, Forged, StacksApart, AllKept, AllPending, OnStack, StackFrames;
    var c, stacks' := Forged(m', TopWord(f), entry), stacks[task := f];
    NewStackElsewhere(m, m', stacks, task, f, free, bitmap, total);
    StillKept(m, m', stacks, suspended);
    PendingGrows(trace, stacks, suspended, task, f);
    TraceOfSuspend(trace, stacks', suspended, task, c);
    ForgedSp(m', TopWord(f), entry);
    KeptGrows(m', stacks, suspended, task, f, c);
  }

  lemma ForgedSp(m: Memory, top: nat, entry: Word)
    requires 7 <= top <= |m|
    ensures Forged(m, top, entry).sp == top - 1
  {
  }
}
