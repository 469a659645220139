/** Whole runs of the threading subsystem: the order is kept, the history is faithful
    exactly when no tick comes too early, waiting is bounded; and the runs in which a
    tick between the statements of a call does lose a task. */
module ThreadHistory {
  import opened Wrappers
  import opened PageEntry
  import opened Ram
  import opened StackMachine
  import opened ContextSwitch
  import opened Tasks
  import opened Suspension
  import opened Dispatch
  import opened RoundRobin
  import opened ThreadModel
  import opened ThreadSteps

  ghost predicate IsRun(c: Config, states: seq<Snapshot>, ops: seq<Op>)
  {
    |states| == |ops| + 1 && forall i :: 0 <= i < |ops| ==> Moves(c, states[i], ops[i], states[i + 1])
  }

  /** No tick tears a call before the last step. */
  ghost predicate Whole(c: Config, states: seq<Snapshot>, ops: seq<Op>)
    requires |states| == |ops| + 1
  {
    forall i :: 0 <= i < |ops| - 1 ==> !Tears(c, states[i], ops[i])
  }

  ghost predicate NoEarlyTick(c: Config, states: seq<Snapshot>, ops: seq<Op>)
    requires |states| == |ops| + 1
  {
    forall i :: 0 <= i < |ops| ==> !EarlyTick(c, states[i], ops[i])
  }

  /** Up to and including the first tick that tears a call, the history only grows, and
      it stays faithful if and only if no tick finds somebody waiting while the CPU does
      not run the current task.  Up to that tick the order is kept. */
  lemma {:induction false} RunKeepsOrder(c: Config, states: seq<Snapshot>, ops: seq<Op>)
    requires IsRun(c, states, ops) && InOrder(c, states[0]) && Whole(c, states, ops)
    ensures states[0].trace <= states[|ops|].trace
    ensures Faithful(states[|ops|].trace) <==> Faithful(states[0].trace) && NoEarlyTick(c, states, ops)
    ensures states[|ops|].call.Torn? <==> |ops| > 0 && Tears(c, states[|ops| - 1], ops[|ops| - 1])
    ensures !states[|ops|].call.Torn? ==> InOrder(c, states[|ops|])
    decreases |ops|
  {
    hide Moves, EarlyTick, Tears, Faithful, InOrder;
    if ops == [] {
      NotTorn(c, states[0]);
    } else {
      var n := |ops| - 1;
      assert IsRun(c, states[..n + 1], ops[..n]) && Whole(c, states[..n + 1], ops[..n]);
      RunKeepsOrder(c, states[..n + 1], ops[..n]);
      assert n > 0 ==> !Tears(c, states[n - 1], ops[n - 1]);
      StepKeepsOrder(c, states[n], ops[n], states[n + 1]);
      assert NoEarlyTick(c, states[..n + 1], ops[..n]) <==>
             forall i :: 0 <= i < n ==> !EarlyTick(c, states[i], ops[i]) by {
        assert forall i :: 0 <= i < n ==> ops[..n][i] == ops[i] && states[..n + 1][i] == states[i];
      }
    }
  }

  /** While the boot code runs, before scheduler_start has switched to a first stack, no
      tick may find somebody waiting: exactly then does the history stay faithful. */
  lemma BootWindow(c: Config, states: seq<Snapshot>, ops: seq<Op>)
    requires IsRun(c, states, ops) && InOrder(c, states[0]) && Whole(c, states, ops)
    requires forall i :: 0 <= i < |ops| ==> Runner(states[i]) == None && !states[i].call.Torn?
    ensures Faithful(states[|ops|].trace) <==>
              && Faithful(states[0].trace)
              && forall i :: 0 <= i < |ops| ==>
                   !(ops[i].TickAt? && Rules(c, states[i], ops[i].at) && states[i].view.ready != [])
  {
    hide Moves, Faithful, InOrder, Whole, Rules;
    RunKeepsOrder(c, states, ops);
    forall i | 0 <= i < |ops|
      ensures EarlyTick(c, states[i], ops[i]) <==>
                ops[i].TickAt? && Rules(c, states[i], ops[i].at) && states[i].view.ready != []
    {
    }
  }

  // The order of turns

  /** What a step is for the order of tasks: a tick outside any call, and the statement of
      a call that names the new current task, are one turn each. */
  ghost function Happens(c: Config, p: Snapshot, op: Op): seq<Happening<Task>>
  {
    match op
    case Admit(i) => if MayAdmit(p, i) then [Admitted(p.idle[i])] else []
    case Leave(state) => if MayLeave(p, state) then [LeftRunning] else []
    case TickAt(_) => if Turn(c, p, op) then [Ticked] else []
    case Advance => if Turn(c, p, op) then [Ticked] else []
    case _ => []
  }

  ghost predicate Turn(c: Config, p: Snapshot, op: Op)
  {
    || (op.TickAt? && Rules(c, p, op.at) && p.call.NoCall?)
    || (op.Advance? && p.call.Inside? && p.call.pos.Marked?)
  }

  ghost function Order(p: Snapshot): View<Task>
  {
    Seen(p.view, p.call)
  }

  lemma StepIsHappening(c: Config, p: Snapshot, op: Op, q: Snapshot)
    requires InOrder(c, p) && Moves(c, p, op, q) && !Tears(c, p, op)
    ensures Order(q) == After(Order(p), Happens(c, p, op))
  {
    hide Rules, SlotAndStack, Faithful, TickEvents, FirstSuspension, SameOutside, Creates, EachInPlace, Homed,
      CameFrom, Sound;
    assert forall h: Happening<Task> :: [h][1..] == [];
    SeenOutside(p.view);
    match op
    case YieldAt(at) => if p.call.NoCall? {
        InPlaceEnters(p.idle, c.pool, p.stacks.Keys, p.view);
        YieldSeen(p.view);
      }
    case StartAt(at) => if p.call.NoCall? {
        InPlaceEnters(p.idle, c.pool, p.stacks.Keys, p.view);
        StartSeen(p.view);
      }
    case Advance => NextSeen(p.view, p.call);
    case Create(_) => CreateKeepsView(c, p, op, q);
    case _ =>
  }

  lemma CreateKeepsView(c: Config, p: Snapshot, op: Op, q: Snapshot)
    requires Moves(c, p, op, q) && op.Create?
    ensures q.view == p.view && q.call == p.call
  {
    hide SlotAndStack, FirstSuspension, SameOutside, Created;
  }

  ghost function History(c: Config, states: seq<Snapshot>, ops: seq<Op>): seq<Happening<Task>>
    requires |states| == |ops| + 1
    decreases |ops|
  {
    if ops == [] then []
    else History(c, states[..|ops|], ops[..|ops| - 1]) + Happens(c, states[|ops| - 1], ops[|ops| - 1])
  }

  ghost function Turns(c: Config, states: seq<Snapshot>, ops: seq<Op>): nat
    requires |states| == |ops| + 1
    decreases |ops|
  {
    if ops == [] then 0
    else Turns(c, states[..|ops|], ops[..|ops| - 1]) + if Turn(c, states[|ops| - 1], ops[|ops| - 1]) then 1 else 0
  }

  /** The order of tasks after a run is the fold of what happened. */
  lemma {:induction false} RunIsHistory(c: Config, states: seq<Snapshot>, ops: seq<Op>)
    requires IsRun(c, states, ops) && InOrder(c, states[0])
    requires forall i :: 0 <= i < |ops| ==> !Tears(c, states[i], ops[i])
    ensures Order(states[|ops|]) == After(Order(states[0]), History(c, states, ops))
    ensures Ticks(History(c, states, ops)) == Turns(c, states, ops)
    decreases |ops|
  {
    hide Moves, Tears, InOrder, Order, Turn, Happens, Faithful, EarlyTick;
    if ops == [] {
    } else {
      var n := |ops| - 1;
      assert IsRun(c, states[..n + 1], ops[..n]);
      RunIsHistory(c, states[..n + 1], ops[..n]);
      RunKeepsOrder(c, states[..n + 1], ops[..n]);
      HappensTicks(c, states[n], ops[n]);
      StepIsHappening(c, states[n], ops[n], states[n + 1]);
      AfterBoth(Order(states[0]), History(c, states[..n + 1], ops[..n]), Happens(c, states[n], ops[n]));
      TicksBoth(History(c, states[..n + 1], ops[..n]), Happens(c, states[n], ops[n]));
    }
  }

  lemma HappensTicks(c: Config, p: Snapshot, op: Op)
    ensures Ticks(Happens(c, p, op)) == if Turn(c, p, op) then 1 else 0
  {
    hide Rules;
  }

  /** Whoever waits at position k when someone is current becomes current with exactly
      the (k+1)-th turn, and until then moves up one place per turn. */
  lemma RunIsFair(c: Config, states: seq<Snapshot>, ops: seq<Op>, k: nat)
    requires IsRun(c, states, ops) && InOrder(c, states[0])
    requires forall i :: 0 <= i < |ops| ==> !Tears(c, states[i], ops[i])
    requires Order(states[0]).current.Some? && k < |Order(states[0]).ready|
    ensures var n, v := Turns(c, states, ops), Order(states[|ops|]);
      && (n <= k ==> k - n < |v.ready| && v.ready[k - n] == Order(states[0]).ready[k])
      && (n == k + 1 ==> v.current == Some(Order(states[0]).ready[k]))
  {
    hide Moves, Tears, InOrder, Order, Turns, History;
    RunIsHistory(c, states, ops);
    BoundedWaiting(Order(states[0]), History(c, states, ops), k);
  }

  lemma {:induction false} AfterBoth(v: View<Task>, es: seq<Happening<Task>>, fs: seq<Happening<Task>>)
    ensures After(v, es + fs) == After(After(v, es), fs)
    decreases |es|
  {
    if es == [] {
      assert es + fs == fs;
    } else {
      assert (es + fs)[1..] == es[1..] + fs;
      AfterBoth(Next(v, es[0]), es[1..], fs);
    }
  }

  lemma {:induction false} TicksBoth(es: seq<Happening<Task>>, fs: seq<Happening<Task>>)
    ensures Ticks(es + fs) == Ticks(es) + Ticks(fs)
    decreases |es|
  {
    if es == [] {
      assert es + fs == fs;
    } else {
      assert (es + fs)[1..] == es[1..] + fs;
      TicksBoth(es[1..], fs);
    }
  }

  // What a tick between the statements of a call destroys

  /** A tick that tears a call: the history stays faithful only in a yield whose caller
      is still current; and each task keeps its place unless the caller is marked READY
      but not yet queued, or the next task is unlinked but not yet named. */
  lemma TornTick(c: Config, p: Snapshot, op: Op, q: Snapshot)
    requires InOrder(c, p) && Moves(c, p, op, q) && Tears(c, p, op)
    ensures var pos := p.call.pos;
      && q.call == Torn(p.call.caller, pos) && q.view == Tick(p.view)
      && (Faithful(q.trace) <==> Faithful(p.trace) && p.call.caller.Some? && !Named(pos))
      && (EachInPlace(q.idle, c.pool, q.stacks.Keys, q.view) <==> pos.Tested? || pos.Chosen? || Named(pos))
      && (pos.Demoted? ==> Nowhere(p.call.caller.value, q.idle, q.view))
      && (pos.Unlinked? || pos.Marked? ==> Nowhere(pos.next, q.idle, q.view))
  {
    hide Faithful, EachInPlace, Homed, Sound, Rules, CameFrom, HandoverEvents, Tick, Dropped, Seen, Pushing;
    BecomeKeeps(c, p, op.at);
    TornTrace(c, p.(cpu := op.at), q);
    TornOrder(p.idle, c.pool, p.stacks.Keys, p.view, p.call);
    assert p.call.pos.Demoted? ==> Dropped(Seen(p.view, p.call)) == [] by {
      DemotedRuns(p.view, p.call);
    }
    assert p.idle + [] == p.idle;
  }

  lemma DemotedRuns(v: View<Task>, call: Call<Task>)
    ensures call.Inside? && call.pos.Demoted? ==> Dropped(Seen(v, call)) == []
  {
  }

  /** In scheduler_start, between the store that names the first task and the load of
      its stack, a tick for a second task saves the boot code's stack pointer as the
      first task's.  The forged context is lost: its entry point never runs. */
  lemma FirstContextLost(c: Config, p: Snapshot, op: Op, q: Snapshot)
    requires InOrder(c, p) && Moves(c, p, op, q) && Tears(c, p, op)
    requires p.call.caller.None? && Named(p.call.pos)
    ensures var first := p.call.pos.next;
      && p.view.current == Some(first) && first in p.stacks && 6 <= op.at.sp
      && q.saved == p.saved[first := 8 * (op.at.sp - 6)] && !OnStack(p.stacks[first], op.at.sp - 6)
      && !Faithful(q.trace)
  {
    hide Faithful, EachInPlace, Homed, Sound, CameFrom, HandoverEvents, Tick, Dropped, Seen, InBitmap, OnStack;
    TornTick(c, p, op, q);
    assert 6 <= op.at.sp && MayWrite(c, p, op.at.sp - 6);
  }

  /** The run that loses the first task: with two tasks admitted, scheduler_start gets as
      far as naming the first, and the timer ticks. */
  lemma LostStart(c: Config, states: seq<Snapshot>, at: Machine, tick: Machine)
    requires IsRun(c, states, [StartAt(at), Advance, Advance, Advance, Advance, TickAt(tick)]) && InOrder(c, states[0])
    requires states[0].call.NoCall? && states[0].view.current.None? && |states[0].view.ready| >= 2
    requires Rules(c, states[0], at) && Rules(c, states[5], tick)
    ensures var line, p, q := states[0].view.ready, states[5], states[6];
      && q.view == View(Some(line[1]), true, line[2..] + [line[0]])
      && line[0] in p.stacks && 6 <= tick.sp && !OnStack(p.stacks[line[0]], tick.sp - 6)
      && q.saved == p.saved[line[0] := 8 * (tick.sp - 6)] && !Faithful(q.trace)
      && q.call.Torn? && q.stacks == p.stacks
  {
    hide Rules, Moves, InOrder, Faithful;
    var ops := [StartAt(at), Advance, Advance, Advance, Advance, TickAt(tick)];
    var line := states[0].view.ready;
    forall i | 0 <= i < 6
      ensures Moves(c, states[i], ops[i], states[i + 1])
    {
    }
    assert IsRun(c, states[..6], ops[..5]);
    RunKeepsOrder(c, states[..6], ops[..5]);
    Starts(c, states[0], at, states[1]);
    Dispatches(c, states[1], states[2], states[3]);
    Names(c, states[3], states[4], states[5], line[0]);
    assert Tears(c, states[5], ops[5]);
    FirstContextLost(c, states[5], ops[5], states[6]);
    TornTick(c, states[5], ops[5], states[6]);
    TickKeepsStacks(c, states[5], tick, states[6]);
    assert (line[1..] + [line[0]])[1..] == line[2..] + [line[0]];
  }

  lemma Starts(c: Config, p: Snapshot, at: Machine, q: Snapshot)
    requires Moves(c, p, StartAt(at), q) && Rules(c, p, at) && p.call.NoCall? && p.view.current.None?
    requires p.view.ready != []
    ensures q.call == Inside(None, Tested) && q.view == p.view
  {
    hide Rules;
  }

  lemma Dispatches(c: Config, p: Snapshot, p1: Snapshot, p2: Snapshot)
    requires Moves(c, p, Advance, p1) && Moves(c, p1, Advance, p2)
    requires p.call == Inside(None, Tested) && p.view.current.None? && p.view.ready != []
    ensures p2.call == Inside(None, Unlinked(p.view.ready[0])) && p2.view == p.view.(ready := p.view.ready[1..])
  {
  }

  lemma Names(c: Config, p: Snapshot, p1: Snapshot, p2: Snapshot, n: Task)
    requires Moves(c, p, Advance, p1) && Moves(c, p1, Advance, p2) && p.call == Inside(None, Unlinked(n))
    ensures p2.call == Inside(None, Installed(n)) && p2.view == View(Some(n), true, p.view.ready)
  {
  }

  /** The run that loses a task that yields: it is marked READY, and the timer ticks
      before it is queued. */
  lemma LostYield(c: Config, states: seq<Snapshot>, at: Machine, tick: Machine)
    requires IsRun(c, states, [YieldAt(at), TickAt(tick)]) && InOrder(c, states[0])
    requires states[0].call.NoCall? && states[0].view.current.Some? && states[0].view.running
    requires states[0].view.ready != [] && Rules(c, states[0], at) && Rules(c, states[1], tick)
    ensures var a := states[0].view.current.value;
      && states[2].call.Torn? && a in states[2].stacks && Nowhere(a, states[2].idle, states[2].view)
      && (Faithful(states[2].trace) <==> Faithful(states[0].trace))
  {
    hide Rules, InOrder, Faithful, TickMoves, EachInPlace;
    var ops := [YieldAt(at), TickAt(tick)];
    assert Moves(c, states[0], ops[0], states[1]) && Moves(c, states[1], ops[1], states[2]);
    StepKeepsOrder(c, states[0], ops[0], states[1]);
    assert Tears(c, states[1], ops[1]);
    TornTick(c, states[1], ops[1], states[2]);
    CallerCreated(c, states[1]);
    TickKeepsStacks(c, states[1], tick, states[2]);
  }

  lemma CallerCreated(c: Config, p: Snapshot)
    requires InOrder(c, p) && p.call.Inside? && p.call.caller.Some?
    ensures p.call.caller.value in p.stacks
  {
    hide Sound, EachInPlace, Homed, CallOk, Faithful;
  }

  lemma TickKeepsStacks(c: Config, p: Snapshot, at: Machine, q: Snapshot)
    requires Moves(c, p, TickAt(at), q)
    ensures q.stacks == p.stacks && q.spaces == p.spaces && q.used == p.used && q.free == p.free
  {
    hide Rules, CameFrom;
  }

  /** The statements of a call leave the running code where it is. */
  lemma StillReaches(c: Config, p: Snapshot, q: Snapshot, at: Machine)
    requires Rules(c, p, at) && q.cpu == at && q.stacks == p.stacks && q.trace == p.trace && Runner(q) == Runner(p)
    ensures Rules(c, q, at)
  {
    hide InBitmap, OnStack, Faithful;
    forall k | at.sp - 6 <= k < at.sp
      ensures MayWrite(c, q, k)
    {
      assert MayWrite(c, p, k);
    }
  }

  lemma EnterStays(c: Config, p: Snapshot, op: Op, q: Snapshot)
    requires Moves(c, p, op, q) && (op.StartAt? || op.YieldAt?) && Rules(c, p, op.at) && p.call.NoCall?
    requires op.StartAt? ==> p.view.current.None? && p.view.ready != []
    requires op.YieldAt? ==> p.view.current.Some? && p.view.ready != []
    ensures q.cpu == op.at && q.stacks == p.stacks && q.trace == p.trace && Runner(q) == Runner(p) && q.call.Inside?
  {
    hide Rules, Faithful;
  }

  lemma AdvanceStays(c: Config, p: Snapshot, q: Snapshot)
    requires Moves(c, p, Advance, q) && p.call.Inside?
    ensures q.cpu == p.cpu && q.stacks == p.stacks && q.trace == p.trace && Runner(q) == Runner(p) && q.call.Inside?
  {
    hide NextView, Seen, Faithful;
  }

  /** The tick of `LostStart` may come with the running code in the state in which it
      entered scheduler_start. */
  lemma StartReaches(c: Config, states: seq<Snapshot>, at: Machine)
    requires |states| >= 6 && Rules(c, states[0], at) && Moves(c, states[0], StartAt(at), states[1])
    requires forall i :: 1 <= i < 5 ==> Moves(c, states[i], Advance, states[i + 1])
    requires states[0].call.NoCall? && states[0].view.current.None? && states[0].view.ready != []
    ensures Rules(c, states[5], at)
  {
    hide Rules, Moves, Runner;
    EnterStays(c, states[0], StartAt(at), states[1]);
    AdvanceStays(c, states[1], states[2]);
    AdvanceStays(c, states[2], states[3]);
    AdvanceStays(c, states[3], states[4]);
    AdvanceStays(c, states[4], states[5]);
    StillReaches(c, states[0], states[5], at);
  }
}
