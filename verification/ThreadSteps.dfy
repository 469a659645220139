/** Each step of the threading subsystem keeps its order, except a tick that comes in
    between the statements of scheduler_start or task_yield while somebody waits; and
    what such a tick destroys. */
module ThreadSteps {
  import opened Wrappers
  import opened PageEntry
  import opened Ram
  import opened Pmm
  import opened StackMachine
  import opened ContextSwitch
  import opened Tasks
  import opened Suspension
  import opened Dispatch
  import opened RoundRobin
  import opened ThreadModel

  // The order of tasks

  lemma InPlaceNew(idle: seq<Task>, pool: seq<Task>, created: set<Task>, v: View<Task>, task: Task)
    requires EachInPlace(idle, pool, created, v) && task !in created && task in pool
    ensures EachInPlace(idle + [task], pool, created + {task}, v)
  {
  }

  lemma InPlaceAdmitted(idle: seq<Task>, pool: seq<Task>, created: set<Task>, v: View<Task>, i: nat)
    requires EachInPlace(idle, pool, created, v) && i < |idle|
    ensures idle[i] in created && idle[i] !in v.ready && Some(idle[i]) != v.current
    ensures EachInPlace(idle[..i] + idle[i + 1..], pool, created, Next(v, Admitted(idle[i])))
  {
    var rest := idle[..i] + idle[i + 1..];
    assert forall t :: t in idle && t != idle[i] ==> t in rest by {
      forall j | 0 <= j < |idle| && j != i
        ensures idle[j] in rest
      {
        assert rest[if j < i then j else j - 1] == idle[j];
      }
    }
  }

  lemma InPlaceTick(idle: seq<Task>, pool: seq<Task>, created: set<Task>, v: View<Task>)
    requires EachInPlace(idle, pool, created, v)
    ensures EachInPlace(idle + Dropped(v), pool, created, Tick(v))
  {
    assert idle + [] == idle;
    if v.ready != [] {
      assert v.ready == [v.ready[0]] + v.ready[1..];
      if v.current.Some? {
        InPlaceSwitch(idle, pool, created, v);
      }
    }
  }

  lemma InPlaceSwitch(idle: seq<Task>, pool: seq<Task>, created: set<Task>, v: View<Task>)
    requires EachInPlace(idle, pool, created, v) && v.current.Some? && v.ready != []
    ensures EachInPlace(idle + Dropped(v), pool, created, Tick(v))
  {
    var line, idle' := v.ready[1..], idle + Dropped(v);
    assert v.ready == [v.ready[0]] + line;
    if v.running {
      assert idle' == idle;
      assert (v.ready + [v.current.value])[1..] == line + [v.current.value];
    } else {
      assert Tick(v).ready == line;
      assert idle'[|idle|] == v.current.value;
      assert idle'[..|idle|] == idle;
    }
  }

  lemma InPlaceLeft(idle: seq<Task>, pool: seq<Task>, created: set<Task>, v: View<Task>)
    requires EachInPlace(idle, pool, created, v)
    ensures EachInPlace(idle, pool, created, Next(v, LeftRunning))
  {
  }

  /** A tick in between the statements of a call loses a task from the order exactly
      when the caller is marked READY but not yet queued, or when the task to be
      dispatched is unlinked but not yet named. */
  lemma TornOrder(idle: seq<Task>, pool: seq<Task>, created: set<Task>, v: View<Task>, call: Call<Task>)
    requires call.Inside? && CallOk(v, call) && EachInPlace(idle, pool, created, Seen(v, call)) && v.ready != []
    ensures EachInPlace(idle + Dropped(Seen(v, call)), pool, created, Tick(v)) <==>
              call.pos.Tested? || call.pos.Chosen? || Named(call.pos)
    ensures call.pos.Demoted? ==> var a := call.caller.value; a in created && Nowhere(a, idle, Tick(v))
    ensures call.pos.Unlinked? || call.pos.Marked? ==>
              call.pos.next in created && Nowhere(call.pos.next, idle + Dropped(Seen(v, call)), Tick(v))
  {
    var seen := Seen(v, call);
    match call.pos
    case Demoted => assert Some(call.caller.value) == seen.current;
    case Unlinked(n) => Held(idle, pool, created, v, call, n);
    case Marked(n) => Held(idle, pool, created, v, call, n);
    case Tested => StillInPlace(idle, pool, created, v, call);
    case Chosen(_) => StillInPlace(idle, pool, created, v, call);
    case _ => InPlaceTick(idle, pool, created, v);
  }

  /** Neither idle nor waiting nor current. */
  predicate Nowhere(task: Task, idle: seq<Task>, v: View<Task>)
  {
    task !in idle && task !in v.ready && Some(task) != v.current
  }

  lemma Held(idle: seq<Task>, pool: seq<Task>, created: set<Task>, v: View<Task>, call: Call<Task>, n: Task)
    requires call.Inside? && CallOk(v, call) && EachInPlace(idle, pool, created, Seen(v, call)) && v.ready != []
    requires call.pos == Unlinked(n) || call.pos == Marked(n)
    ensures n in created && Nowhere(n, idle + Dropped(Seen(v, call)), Tick(v))
  {
    var line := [n] + v.ready;
    assert Seen(v, call) == Undone(v, call.caller, line);
    assert Seen(v, call).ready[0] == n;
  }

  lemma StillInPlace(idle: seq<Task>, pool: seq<Task>, created: set<Task>, v: View<Task>, call: Call<Task>)
    requires call.Inside? && CallOk(v, call) && EachInPlace(idle, pool, created, Seen(v, call)) && v.ready != []
    requires call.pos.Tested? || call.pos.Chosen?
    ensures EachInPlace(idle + Dropped(Seen(v, call)), pool, created, Tick(v))
  {
    if CallerQueued(call.caller, v.ready) {
      var before := v.(running := true, ready := v.ready[..|v.ready| - 1]);
      assert Seen(v, call) == before && Dropped(before) == [];
      assert v.ready == before.ready + [call.caller.value];
      assert Tick(v) == Tick(before);
    }
    InPlaceTick(idle, pool, created, Seen(v, call));
  }

  // Stacks and memory

  /** The running code is about to push on its own stack. */
  ghost predicate Pushing(p: Snapshot)
  {
    && Room(p.cpu, 6, 1) && PushesOff(p.cpu.sp, p.stacks, p.stacks.Keys - Running(p))
    && (Runner(p).Some? && Faithful(p.trace) ==> RunsOnStackOf(p.cpu, p.stacks, Runner(p).value))
  }

  lemma StackInside(c: Config, p: Snapshot, t: Task)
    requires Sound(c, p) && t in p.stacks
    ensures TopWord(p.stacks[t]) <= |p.cpu.mem|
  {
    hide StackFrames;
  }

  lemma RulesMean(c: Config, p: Snapshot, at: Machine)
    requires Sound(c, p) && Rules(c, p, at)
    ensures OffStacks(p.cpu.mem, at.mem, p.stacks, p.stacks.Keys - Running(p)) && Pushing(p.(cpu := at))
  {
    hide MayWrite, Faithful, OnStack, Sound;
    forall t | t in p.stacks
      ensures TopWord(p.stacks[t]) <= |p.cpu.mem|
    {
      StackInside(c, p, t);
    }
    forall k, t | 0 <= k < |at.mem| && at.mem[k] != p.cpu.mem[k] && t in p.stacks && t in p.stacks.Keys - Running(p)
      ensures !OnStack(p.stacks[t], k)
    {
      OthersStack(c, p, k, t);
    }
    PushesAllowed(c, p, at);
  }

  lemma PushesAllowed(c: Config, p: Snapshot, at: Machine)
    requires Rules(c, p, at)
    ensures PushesOff(at.sp, p.stacks, p.stacks.Keys - Running(p))
  {
    hide MayWrite, Faithful, OnStack;
    forall k, t | at.sp - 6 <= k < at.sp && t in p.stacks.Keys - Running(p)
      ensures !OnStack(p.stacks[t], k)
    {
      OthersStack(c, p, k, t);
    }
  }

  lemma OthersStack(c: Config, p: Snapshot, k: int, t: Task)
    requires MayWrite(c, p, k) && t in p.stacks.Keys - Running(p)
    ensures !OnStack(p.stacks[t], k)
  {
    hide OnStack, InBitmap;
  }

  /** The running code keeps the order. */
  lemma BecomeKeeps(c: Config, p: Snapshot, at: Machine)
    requires InOrder(c, p) && Rules(c, p, at)
    ensures InOrder(c, p.(cpu := at)) && Pushing(p.(cpu := at))
  {
    hide Rules, OffStacks, Pushing, Faithful, Homed, CallOk, EachInPlace, Seen, StacksApart;
    RulesMean(c, p, at);
    assert |at.mem| == |p.cpu.mem| by { RulesSize(c, p, at); }
    if Faithful(p.trace) {
      BecomeKeepsHome(c, p, at);
    }
  }

  lemma RulesSize(c: Config, p: Snapshot, at: Machine)
    requires Rules(c, p, at)
    ensures |at.mem| == |p.cpu.mem| && Room(at, 6, 1)
    ensures Runner(p).Some? && Faithful(p.trace) ==> OnStackOf(at.sp, p.stacks, Runner(p).value)
  {
  }

  lemma BecomeKeepsHome(c: Config, p: Snapshot, at: Machine)
    requires Sound(c, p) && Homed(c, p) && Faithful(p.trace) && Rules(c, p, at)
    requires OffStacks(p.cpu.mem, at.mem, p.stacks, p.stacks.Keys - Running(p))
    ensures Homed(c, p.(cpu := at))
  {
    hide Rules, OffStacks, Faithful, AllKept, AllPending, Stopped, StacksApart;
    RulesSize(c, p, at);
    StillKept(p.cpu.mem, at.mem, p.stacks, Stopped(p.trace, p.stacks));
  }

  lemma StoppedIs(trace: seq<Event>, stacks: map<Task, nat>, suspended: map<Task, Machine>)
    requires AllPending(trace, stacks, suspended)
    ensures Stopped(trace, stacks) == suspended
  {
    hide Pending;
    forall t | t in stacks && t !in suspended
      ensures Pending(trace, t) == None
    {
      NotPending(trace, stacks, suspended, t);
    }
  }

  // Switches of stacks

  /** A switch from the running task to another keeps every stopped computation and
      goes on with the other's. */
  lemma SwitchHomed(c: Config, p: Snapshot, prev: Task, next: Task, b: Machine)
    requires Sound(c, p) && Homed(c, p) && Pushing(p) && Faithful(p.trace)
    requires Runner(p) == Some(prev) && prev in p.stacks && next in p.stacks && prev != next
    requires CameFrom(p.cpu, SavedWord(p, next), b)
    ensures var trace' := p.trace + HandoverEvents(p.stacks, p.cpu, prev, next, b);
      && Faithful(trace') && Parked(b.mem, trace', p.stacks, Stopped(trace', p.stacks), {next})
      && SavedAt(p.saved[prev := 8 * (p.cpu.sp - 6)], Stopped(trace', p.stacks))
    ensures WORDS_PER_FRAME * p.stacks[next] <= b.sp <= TopWord(p.stacks[next])
  {
    hide Faithful, AllKept, AllPending, Stopped, StacksApart, SaveContext, LoadContext, PushesOff, HandoverEvents,
      Returned;
    var stopped := Stopped(p.trace, p.stacks);
    Handover(p.trace, p.stacks, stopped, p.cpu, prev, next, p.free, BitmapOf(c), c.total);
    assert b == Switched(p.cpu, stopped[next]);
    StoppedIs(p.trace + HandoverEvents(p.stacks, p.cpu, prev, next, b), p.stacks, stopped[prev := p.cpu] - {next});
  }

  /** The same for the first switch, away from the boot code. */
  lemma FirstHomed(c: Config, p: Snapshot, next: Task, b: Machine)
    requires Sound(c, p) && Homed(c, p) && Pushing(p) && Faithful(p.trace)
    requires Runner(p) == None && next in p.stacks && CameFrom(p.cpu, SavedWord(p, next), b)
    ensures var trace' := p.trace + [Resume(next, b)];
      && Faithful(trace') && Parked(b.mem, trace', p.stacks, Stopped(trace', p.stacks), {next})
      && SavedAt(p.saved, Stopped(trace', p.stacks))
    ensures WORDS_PER_FRAME * p.stacks[next] <= b.sp <= TopWord(p.stacks[next])
  {
    hide Faithful, AllKept, AllPending, Stopped, StacksApart, SaveContext, LoadContext, PushesOff, Returned;
    var stopped := Stopped(p.trace, p.stacks);
    assert p.stacks.Keys - Running(p) == p.stacks.Keys;
    FirstHandover(p.trace, p.stacks, stopped, p.cpu, next);
    assert b == Switched(p.cpu, stopped[next]);
    StoppedIs(p.trace + [Resume(next, b)], p.stacks, stopped - {next});
  }

  /** A switch of the running task to itself returns to it. */
  lemma SelfHandover(c: Config, p: Snapshot, prev: Task, b: Machine)
    requires Sound(c, p) && Homed(c, p) && Pushing(p) && Faithful(p.trace)
    requires Runner(p) == Some(prev) && prev in p.stacks && 6 <= p.cpu.sp && CameFrom(p.cpu, p.cpu.sp - 6, b)
    ensures Faithful(p.trace + HandoverEvents(p.stacks, p.cpu, prev, prev, b))
  {
    hide Faithful, AllKept, AllPending, Pending, Stopped, StacksApart, SaveContext, LoadContext, PushesOff, Returned,
      Kept;
    var top := TopWord(p.stacks[prev]);
    AddHandover(p.trace, p.stacks, p.cpu, prev, prev, b);
    NotPending(p.trace, p.stacks, Stopped(p.trace, p.stacks), prev);
    AddEvent(p.trace, Suspend(prev, p.cpu, top));
    AddEvent(p.trace + [Suspend(prev, p.cpu, top)], Resume(prev, b));
    SaveKeeps(p.cpu, top);
    LoadResumes(SaveContext(p.cpu), top, p.cpu);
    assert SaveContext(p.cpu).(sp := p.cpu.sp - 6) == SaveContext(p.cpu);
  }

  lemma SwitchKeepsSound(c: Config, p: Snapshot, prev: Task, q: Snapshot, sp: nat)
    requires Sound(c, p) && prev in p.stacks && CameFrom(p.cpu, sp, q.cpu)
    requires q.stacks == p.stacks && q.spaces == p.spaces && q.free == p.free
    requires q.saved == p.saved || q.saved == p.saved[prev := 8 * (p.cpu.sp - 6)]
    ensures Sound(c, q)
  {
    hide StacksApart, SaveContext, LoadContext;
    SwitchTouches(p.cpu, sp, q.cpu);
  }

  lemma SeenOutside(v: View<Task>)
    ensures Seen(v, NoCall) == v && CallOk(v, NoCall)
  {
  }

  lemma RunnerCreated(c: Config, p: Snapshot)
    requires InOrder(c, p)
    ensures Runner(p).Some? ==> Runner(p).value in p.stacks
  {
    hide Sound, Homed, Faithful, EachInPlace, CallOk;
    SeenOutside(p.view);
    if p.call.NoCall? { InPlaceEnters(p.idle, c.pool, p.stacks.Keys, p.view); }
  }

  // Steps

  /** A tick outside any call keeps the order; the history stays faithful unless nobody
      is current and somebody waits. */
  lemma TickKeeps(c: Config, p: Snapshot, q: Snapshot)
    requires InOrder(c, p) && Pushing(p) && p.call.NoCall? && TickMoves(c, p, q)
    ensures q.call.NoCall? && InOrder(c, q)
    ensures Faithful(q.trace) <==> Faithful(p.trace) && (p.view.ready == [] || p.view.current.Some?)
  {
    hide Faithful, StacksApart, EachInPlace, Homed, CameFrom, Pushing, HandoverEvents, Tick;
    InPlaceTick(p.idle, c.pool, p.stacks.Keys, p.view);
    if p.view.ready != [] {
      InPlaceMeans(p.idle, c.pool, p.stacks.Keys, p.view);
      TickMeans(p.view);
      if p.view.current.None? {
        FirstTickBreaks(c, p);
      } else {
        TickSwitches(c, p, q);
      }
    }
  }

  lemma InPlaceMeans(idle: seq<Task>, pool: seq<Task>, created: set<Task>, v: View<Task>)
    requires EachInPlace(idle, pool, created, v) && v.ready != []
    ensures v.ready[0] in created && Some(v.ready[0]) != v.current && Different(v.ready)
    ensures v.current.Some? ==> v.current.value in created
  {
  }

  lemma TickMeans(v: View<Task>)
    requires v.ready != []
    ensures Tick(v).current == Some(v.ready[0]) && Tick(v).running
  {
  }

  lemma FirstTickBreaks(c: Config, p: Snapshot)
    requires Sound(c, p) && Pushing(p) && (Faithful(p.trace) ==> Homed(c, p))
    requires Runner(p).None? && p.view.ready != [] && p.view.ready[0] in p.stacks
    ensures !Faithful(p.trace + [Resume(p.view.ready[0], p.cpu)])
  {
    hide Faithful, StacksApart, PushesOff, Stopped, AllKept, AllPending;
    if Faithful(p.trace) {
      assert p.stacks.Keys - Running(p) == p.stacks.Keys;
      NotResumed(p.trace, p.stacks, Stopped(p.trace, p.stacks), p.cpu, p.view.ready[0]);
    } else {
      AddEvent(p.trace, Resume(p.view.ready[0], p.cpu));
    }
  }

  lemma TickSwitches(c: Config, p: Snapshot, q: Snapshot)
    requires Sound(c, p) && Pushing(p) && (Faithful(p.trace) ==> Homed(c, p)) && p.call.NoCall? && TickMoves(c, p, q)
    requires p.view.ready != [] && p.view.current.Some? && p.view.current != Some(p.view.ready[0])
    requires p.view.ready[0] in p.stacks && p.view.current.value in p.stacks
    ensures Sound(c, q) && (Faithful(q.trace) <==> Faithful(p.trace)) && (Faithful(q.trace) ==> Homed(c, q))
  {
    hide Faithful, StacksApart, CameFrom, Pushing, HandoverEvents, Parked, SavedAt, Stopped, Tick, Homed;
    var prev, next := p.view.current.value, p.view.ready[0];
    SwitchKeepsSound(c, p, prev, q, SavedWord(p, next));
    AddHandover(p.trace, p.stacks, p.cpu, prev, next, q.cpu);
    if Faithful(p.trace) {
      SwitchHomed(c, p, prev, next, q.cpu);
      TickMeans(p.view);
      HomedAfter(c, q, next);
    }
  }

  lemma HomedAfter(c: Config, q: Snapshot, next: Task)
    requires Parked(q.cpu.mem, q.trace, q.stacks, Stopped(q.trace, q.stacks), {next})
    requires SavedAt(q.saved, Stopped(q.trace, q.stacks)) && q.call.NoCall? && q.view.current == Some(next)
    requires next in q.stacks && WORDS_PER_FRAME * q.stacks[next] <= q.cpu.sp <= TopWord(q.stacks[next])
    requires q.cr3 == SpaceFor(c, q, Some(next)) && q.rsp0 == StackEnd(q, next)
    ensures Homed(c, q)
  {
    hide Parked, SavedAt, Stopped;
  }

  /** The switch of stacks ends a call and keeps the order. */
  lemma SwitchKeeps(c: Config, p: Snapshot, q: Snapshot)
    requires InOrder(c, p) && Pushing(p) && AtSwitch(p) && SwitchMoves(p, q)
    ensures q.call.NoCall? && InOrder(c, q) && (Faithful(q.trace) <==> Faithful(p.trace))
  {
    hide Faithful, StacksApart, EachInPlace, Homed, CameFrom, Pushing, HandoverEvents;
    var next := p.call.pos.next;
    assert p.view.current == Some(next) && p.view.running && Different(p.view.ready);
    if p.call.caller.None? {
      SwitchFromBoot(c, p, q, next);
    } else {
      SwitchFromCaller(c, p, q, p.call.caller.value, next);
    }
  }

  lemma SwitchFromBoot(c: Config, p: Snapshot, q: Snapshot, next: Task)
    requires Sound(c, p) && Pushing(p) && (Faithful(p.trace) ==> Homed(c, p)) && SwitchMoves(p, q)
    requires p.call == Inside(None, Spaced(next)) && p.view.current == Some(next) && next in p.stacks
    ensures Sound(c, q) && (Faithful(q.trace) <==> Faithful(p.trace)) && (Faithful(q.trace) ==> Homed(c, q))
  {
    hide Faithful, StacksApart, CameFrom, Pushing, Parked, SavedAt, Stopped;
    SwitchKeepsSound(c, p, next, q, SavedWord(p, next));
    AddEvent(p.trace, Resume(next, q.cpu));
    if Faithful(p.trace) {
      FirstHomed(c, p, next, q.cpu);
      HomedAfter(c, q, next);
    }
  }

  lemma SwitchFromCaller(c: Config, p: Snapshot, q: Snapshot, prev: Task, next: Task)
    requires Sound(c, p) && Pushing(p) && (Faithful(p.trace) ==> Homed(c, p)) && SwitchMoves(p, q)
    requires p.call == Inside(Some(prev), Spaced(next)) && p.view.current == Some(next)
    requires next in p.stacks && prev in p.stacks && prev != next
    ensures Sound(c, q) && (Faithful(q.trace) <==> Faithful(p.trace)) && (Faithful(q.trace) ==> Homed(c, q))
  {
    hide Faithful, StacksApart, CameFrom, Pushing, HandoverEvents, Parked, SavedAt, Stopped;
    SwitchKeepsSound(c, p, prev, q, SavedWord(p, next));
    AddHandover(p.trace, p.stacks, p.cpu, prev, next, q.cpu);
    if Faithful(p.trace) {
      SwitchHomed(c, p, prev, next, q.cpu);
      HomedAfter(c, q, next);
    }
  }

  /** Each statement of a call keeps the order. */
  lemma AdvanceKeeps(c: Config, p: Snapshot, q: Snapshot)
    requires InOrder(c, p) && AdvanceMoves(c, p, q)
    ensures !q.call.Torn? && InOrder(c, q) && q.trace == p.trace
  {
    hide Faithful, StacksApart, EachInPlace, Homed, Seen, CallOk, Tick, NextView;
    NextSeen(p.view, p.call);
    if q != p {
      InPlaceTick(p.idle, c.pool, p.stacks.Keys, Seen(p.view, p.call));
      NextNames(c, p);
      if Faithful(p.trace) { AdvanceKeepsHome(c, p, q); }
    }
  }

  /** The task that a call dispatches is a created one. */
  lemma NextNames(c: Config, p: Snapshot)
    requires Lined(c, p) && p.call.Inside? && CanStep(p.view, p.call)
    ensures var call := NextCall(p.view, p.call); Named(call.pos) ==> call.pos.next in p.stacks
  {
    if p.call.pos.Marked? {
      var line := [p.call.pos.next] + p.view.ready;
      assert Seen(p.view, p.call) == Undone(p.view, p.call.caller, line);
      if CallerQueued(p.call.caller, line) {
        assert |line| > 1;
      }
      assert Seen(p.view, p.call).ready[0] == p.call.pos.next;
    }
  }

  lemma AdvanceKeepsHome(c: Config, p: Snapshot, q: Snapshot)
    requires Homed(c, p) && AdvanceMoves(c, p, q) && p.call.Inside?
    ensures Homed(c, q)
  {
    hide Parked, Stopped, SavedAt, NextView, Seen;
  }

  /** scheduler_start and task_yield are entered in order. */
  lemma EnterKeeps(c: Config, p: Snapshot, q: Snapshot)
    requires InOrder(c, p) && p.call.NoCall?
    requires q == p.(call := StartCall(p.view))
          || (p.view.current.Some? && q == p.(view := YieldView(p.view), call := YieldCall(p.view)))
    ensures !q.call.Torn? && InOrder(c, q)
  {
    hide Faithful, StacksApart, Parked, Stopped, SavedAt, CallOk, Seen, EachInPlace;
    SeenOutside(p.view);
    InPlaceEnters(p.idle, c.pool, p.stacks.Keys, p.view);
    YieldSeen(p.view);
    StartSeen(p.view);
  }

  lemma InPlaceEnters(idle: seq<Task>, pool: seq<Task>, created: set<Task>, v: View<Task>)
    requires EachInPlace(idle, pool, created, v)
    ensures Different(v.ready) && (v.current.None? ==> !v.running)
    ensures v.current.Some? ==> v.current.value in created && v.current.value !in v.ready
  {
  }

  lemma CreateKeeps(c: Config, p: Snapshot, entry: Word, task: Task?, q: Snapshot)
    requires InOrder(c, p) && p.call.NoCall? && Creates(c, p, entry, task, q)
    ensures q.call.NoCall? && InOrder(c, q) && p.trace <= q.trace && (Faithful(q.trace) <==> Faithful(p.trace))
  {
    hide Faithful, StacksApart, EachInPlace, HasRun, SameOutside, Created, FirstUnused, FirstSuspension, NewStack,
      StackFrames, Parked, Stopped, SavedAt;
    SlotAndStackMeans(p.used, q.used, c.pool, p.free, q.free, c.total, p.stacks, q.stacks, task);
    SeenOutside(p.view);
    if task != null {
      InPlaceEnters(p.idle, c.pool, p.stacks.Keys, p.view);
      InPlaceNew(p.idle, c.pool, p.stacks.Keys, p.view, task);
      CreatedSound(c, p, entry, task, q);
      NewThread(c, p, entry, task, q);
    }
  }

  lemma CreatedSound(c: Config, p: Snapshot, entry: Word, task: Task, q: Snapshot)
    requires Sound(c, p) && Creates(c, p, entry, task, q)
    ensures Sound(c, q)
  {
    hide StacksApart, HasRun, SameOutside, Kept, FirstUnused, FirstSuspension, StackFrames, Forged;
    var f := q.stacks[task];
    AnotherStack(p.stacks, p.free, BitmapOf(c), c.total, task, f, q.free);
    assert |q.cpu.mem| == |p.cpu.mem| by { SameSize(p.cpu.mem, q.cpu.mem, BitmapOf(c) + StackFrames(f)); }
  }

  lemma SameSize(m: Memory, m': Memory, frames: set<int>)
    requires SameOutside(m, m', frames)
    ensures |m'| == |m|
  {
  }

  lemma NewThread(c: Config, p: Snapshot, entry: Word, task: Task, q: Snapshot)
    requires Sound(c, p) && Sound(c, q) && (Faithful(p.trace) ==> Homed(c, p)) && Creates(c, p, entry, task, q)
    requires p.call.NoCall? && (p.view.current.Some? ==> p.view.current.value in p.stacks)
    ensures (Faithful(q.trace) <==> Faithful(p.trace)) && (Faithful(q.trace) ==> Homed(c, q))
  {
    hide Faithful, StacksApart, HasRun, SameOutside, Created, FirstUnused, StackFrames, AllKept, AllPending, Stopped,
      Pending, Forged, NewStack;
    var f, stopped := q.stacks[task], Stopped(p.trace, p.stacks);
    AddEvent(p.trace, FirstSuspension(task, q.cpu.mem, f, entry));
    if Faithful(p.trace) {
      CreateParks(p.cpu.mem, q.cpu.mem, p.trace, p.stacks, stopped, Running(p), task, f, entry, q.free, BitmapOf(c),
                  c.total);
      ForgedSp(q.cpu.mem, TopWord(f), entry);
      StoppedIs(q.trace, q.stacks, stopped[task := Forged(q.cpu.mem, TopWord(f), entry)]);
    }
  }

  lemma AdmitKeeps(c: Config, p: Snapshot, i: nat, q: Snapshot)
    requires InOrder(c, p) && MayAdmit(p, i)
    requires q == p.(view := Next(p.view, Admitted(p.idle[i])), idle := p.idle[..i] + p.idle[i + 1..])
    ensures InOrder(c, q)
  {
    hide Faithful, StacksApart, EachInPlace, Parked, Stopped, SavedAt;
    SeenOutside(p.view);
    InPlaceAdmitted(p.idle, c.pool, p.stacks.Keys, p.view, i);
  }

  lemma SetSpaceKeeps(c: Config, p: Snapshot, i: nat, pml4: Word, q: Snapshot)
    requires InOrder(c, p) && MayAdmit(p, i) && q == p.(spaces := p.spaces[p.idle[i] := pml4])
    ensures InOrder(c, q)
  {
    hide Faithful, StacksApart, EachInPlace, Parked, Stopped, SavedAt;
    SeenOutside(p.view);
    InPlaceAdmitted(p.idle, c.pool, p.stacks.Keys, p.view, i);
  }

  lemma LeaveKeeps(c: Config, p: Snapshot, state: TaskState, q: Snapshot)
    requires InOrder(c, p) && MayLeave(p, state) && q == p.(view := Next(p.view, LeftRunning))
    ensures InOrder(c, q)
  {
    hide Faithful, StacksApart, EachInPlace, Parked, Stopped, SavedAt;
    SeenOutside(p.view);
    InPlaceLeft(p.idle, c.pool, p.stacks.Keys, p.view);
  }

  // A tick in between the statements of a call

  lemma WaitingCreated(idle: seq<Task>, pool: seq<Task>, created: set<Task>, v: View<Task>, call: Call<Task>)
    requires call.Inside? && CallOk(v, call) && EachInPlace(idle, pool, created, Seen(v, call))
    requires call.caller.Some? ==> call.caller.value in created
    ensures forall t :: t in v.ready ==> t in created
  {
    var line := if call.pos.Unlinked? || call.pos.Marked? then [call.pos.next] + v.ready else v.ready;
    forall i | 0 <= i < |v.ready|
      ensures v.ready[i] in created
    {
      if call.pos.Demoted? || Named(call.pos) {
        assert Seen(v, call).ready[i] == v.ready[i];
      } else {
        var k := i + |line| - |v.ready|;
        assert line[k] == v.ready[i] && Seen(v, call) == Undone(v, call.caller, line);
        if k < |Seen(v, call).ready| {
          assert Seen(v, call).ready[k] == v.ready[i];
        }
      }
    }
  }

  /** The history after a tick that tears a call: faithful only in a yield whose caller
      is still the current task. */
  lemma TornTrace(c: Config, p: Snapshot, q: Snapshot)
    requires InOrder(c, p) && Pushing(p) && p.call.Inside? && p.view.ready != [] && TickMoves(c, p, q)
    ensures Faithful(q.trace) <==> Faithful(p.trace) && p.view.current.Some? && !Named(p.call.pos)
  {
    hide Faithful, StacksApart, EachInPlace, Homed, CameFrom, Pushing, HandoverEvents, Tick, Seen, Dropped;
    WaitingCreated(p.idle, c.pool, p.stacks.Keys, p.view, p.call);
    if p.view.current.None? {
      FirstTickBreaks(c, p);
    } else {
      var prev, next := p.view.current.value, p.view.ready[0];
      AddHandover(p.trace, p.stacks, p.cpu, prev, next, q.cpu);
      if Faithful(p.trace) {
        if Named(p.call.pos) {
          NamedTwice(c, p, prev, next, q.cpu);
        } else if prev == next {
          SelfHandover(c, p, prev, q.cpu);
        } else {
          SwitchHomed(c, p, prev, next, q.cpu);
        }
      }
    }
  }

  lemma NamedTwice(c: Config, p: Snapshot, prev: Task, next: Task, b: Machine)
    requires Homed(c, p) && Runner(p) != Some(prev) && prev in p.stacks
    ensures !Faithful(p.trace + HandoverEvents(p.stacks, p.cpu, prev, next, b))
  {
    hide AllPending, AllKept, Faithful, HandoverEvents, Stopped;
    SuspendedTwice(p.trace, p.stacks, Stopped(p.trace, p.stacks), p.cpu, prev, next, b);
  }

  // Every step

  /** The order is kept by every step that tears no call, and the history stays faithful
      if and only if no tick finds somebody waiting while the CPU does not run the
      current task. */
  lemma StepKeepsOrder(c: Config, p: Snapshot, op: Op, q: Snapshot)
    requires InOrder(c, p) && Moves(c, p, op, q)
    ensures p.trace <= q.trace
    ensures Faithful(q.trace) <==> Faithful(p.trace) && !EarlyTick(c, p, op)
    ensures q.call.Torn? <==> Tears(c, p, op)
    ensures !q.call.Torn? ==> InOrder(c, q)
  {
    hide Faithful, InOrder, Rules, Creates, StartCall, YieldCall, YieldView;
    NotTorn(c, p);
    match op
    case Create(entry) => if p.call.NoCall? {
        var i := FirstUnused(p.used);
        CreateKeeps(c, p, entry, if i < |c.pool| && HasRun(p.free, KERNEL_STACK_PAGES) then c.pool[i] else null, q);
      }
    case Admit(i) => if q != p { AdmitKeeps(c, p, i, q); }
    case SetSpace(i, pml4) => if q != p { SetSpaceKeeps(c, p, i, pml4, q); }
    case Leave(state) => if q != p { LeaveKeeps(c, p, state, q); }
    case StartAt(at) => if q != p {
        BecomeKeeps(c, p, at);
        EnterKeeps(c, p.(cpu := at), q);
      }
    case YieldAt(at) => if q != p {
        BecomeKeeps(c, p, at);
        EnterKeeps(c, p.(cpu := at), q);
      }
    case Advance => AdvanceKeeps(c, p, q);
    case SwitchAt(at) => if Rules(c, p, at) && AtSwitch(p) {
        BecomeKeeps(c, p, at);
        SwitchKeeps(c, p.(cpu := at), q);
      }
    case TickAt(at) => if Rules(c, p, at) {
        BecomeKeeps(c, p, at);
        TickAnywhere(c, p.(cpu := at), q);
      }
  }

  lemma NotTorn(c: Config, p: Snapshot)
    requires InOrder(c, p)
    ensures !p.call.Torn?
  {
  }

  lemma TickAnywhere(c: Config, p: Snapshot, q: Snapshot)
    requires InOrder(c, p) && Pushing(p) && TickMoves(c, p, q)
    ensures p.trace <= q.trace && (q.call.Torn? <==> p.call.Inside? && p.view.ready != [])
    ensures !q.call.Torn? ==> InOrder(c, q)
    ensures Faithful(q.trace) <==>
              Faithful(p.trace) && (p.view.ready == [] || (p.view.current.Some? && Runner(p) == p.view.current))
  {
    hide Faithful, StacksApart, EachInPlace, Homed, CameFrom, Pushing, HandoverEvents, Tick, Seen, Dropped, Sound;
    if p.call.NoCall? {
      TickKeeps(c, p, q);
    } else if p.view.ready != [] {
      TornTrace(c, p, q);
    }
  }
}
