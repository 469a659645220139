/** scheduler_start and task_yield statement by statement (kernel_os/src/scheduler.cpp):
    where such a call is, what the ready list looks like there, and what the call as
    a whole does to the order of tasks when no tick comes in between. */
module Dispatch {
  import opened Wrappers
  import opened RoundRobin

  /** What the call has done so far: marked its caller READY; tested that somebody
      waits (and, for a yield, queued its caller); read ready_head; unlinked it; marked
      it RUNNING; stored it in current_task; told the TSS its stack; loaded its space. */
  datatype Pos<+T> =
    | Demoted
    | Tested
    | Chosen(next: T)
    | Unlinked(next: T)
    | Marked(next: T)
    | Installed(next: T)
    | Stacked(next: T)
    | Spaced(next: T)

  /** The call in progress, if any: of scheduler_start by the boot code, or of
      task_yield by a task.  A torn call was interrupted by a tick that switched away
      from it. */
  datatype Call<+T> = NoCall | Inside(caller: Option<T>, pos: Pos<T>) | Torn(caller: Option<T>, pos: Pos<T>)

  /** current_task already names the task that is dispatched. */
  predicate Named<T>(pos: Pos<T>)
  {
    pos.Installed? || pos.Stacked? || pos.Spaced?
  }

  /** The caller of a yield waits at the end of the queue, if it still wanted the CPU. */
  predicate CallerQueued<T(==)>(caller: Option<T>, ready: seq<T>)
  {
    caller.Some? && ready != [] && ready[|ready| - 1] == caller.value
  }

  /** The caller is the current task and no longer marked RUNNING; it waits nowhere
      but at the end of the queue. */
  predicate CallerOk<T(==)>(v: View<T>, caller: Option<T>)
  {
    v.current == caller && !v.running && (caller.Some? && caller.value in v.ready ==> CallerQueued(caller, v.ready))
  }

  predicate Different<T(==)>(line: seq<T>)
  {
    forall i, j :: 0 <= i < j < |line| ==> line[i] != line[j]
  }

  /** How the list stands inside a call. */
  predicate CallOk<T(==)>(v: View<T>, call: Call<T>)
  {
    call.Inside? ==>
      Different(v.ready) &&
      match call.pos
      case Demoted => call.caller.Some? && CallerOk(v, call.caller) && v.ready != [] && call.caller.value !in v.ready
      case Tested => CallerOk(v, call.caller) && v.ready != [] && Some(v.ready[0]) != call.caller
      case Chosen(n) => CallerOk(v, call.caller) && v.ready != [] && Some(v.ready[0]) != call.caller && n == v.ready[0]
      case Unlinked(n) => CallerOk(v, call.caller) && n !in v.ready && Some(n) != call.caller
      case Marked(n) => CallerOk(v, call.caller) && n !in v.ready && Some(n) != call.caller
      case Installed(n) => v.current == Some(n) && v.running && n !in v.ready && Some(n) != call.caller
      case Stacked(n) => v.current == Some(n) && v.running && n !in v.ready && Some(n) != call.caller
      case Spaced(n) => v.current == Some(n) && v.running && n !in v.ready && Some(n) != call.caller
  }

  /** The tests of scheduler_start; it returns at once when they fail. */
  function StartCall<T>(v: View<T>): Call<T>
  {
    if v.current.Some? || v.ready == [] then NoCall else Inside(None, Tested)
  }

  /** The tests of scheduler_tick in a yield, and the store that marks the caller READY. */
  function YieldCall<T>(v: View<T>): Call<T>
  {
    if v.current.None? || v.ready == [] then NoCall else Inside(v.current, if v.running then Demoted else Tested)
  }

  function YieldView<T>(v: View<T>): View<T>
  {
    if YieldCall(v) == NoCall then v else v.(running := false)
  }

  /** The next statement does not read through a null ready_head. */
  predicate CanStep<T>(v: View<T>, call: Call<T>)
  {
    call.Inside? ==>
      && (call.pos.Demoted? ==> call.caller.Some?)
      && (call.pos.Tested? || call.pos.Chosen? ==> v.ready != [])
  }

  /** The next statement, short of the switch of stacks. */
  function NextCall<T>(v: View<T>, call: Call<T>): Call<T>
    requires CanStep(v, call)
  {
    if !call.Inside? then call
    else
      match call.pos
      case Demoted => Inside(call.caller, Tested)
      case Tested => Inside(call.caller, Chosen(v.ready[0]))
      case Chosen(n) => Inside(call.caller, Unlinked(n))
      case Unlinked(n) => Inside(call.caller, Marked(n))
      case Marked(n) => Inside(call.caller, Installed(n))
      case Installed(n) => Inside(call.caller, Stacked(n))
      case Stacked(n) => Inside(call.caller, Spaced(n))
      case Spaced(_) => call
  }

  function NextView<T>(v: View<T>, call: Call<T>): View<T>
    requires CanStep(v, call)
  {
    if !call.Inside? then v
    else
      match call.pos
      case Demoted => v.(ready := v.ready + [call.caller.value])
      case Chosen(_) => v.(ready := v.ready[1..])
      case Marked(n) => View(Some(n), true, v.ready)
      case _ => v
  }

  /** The order of tasks as it was before the call, up to the store that names the new
      current task; from there on as the call leaves it. */
  function Seen<T(==)>(v: View<T>, call: Call<T>): View<T>
  {
    if !call.Inside? then v
    else
      match call.pos
      case Demoted => v.(running := true)
      case Tested => Undone(v, call.caller, v.ready)
      case Chosen(_) => Undone(v, call.caller, v.ready)
      case Unlinked(n) => Undone(v, call.caller, [n] + v.ready)
      case Marked(n) => Undone(v, call.caller, [n] + v.ready)
      case _ => v
  }

  function Undone<T(==)>(v: View<T>, caller: Option<T>, line: seq<T>): View<T>
  {
    if CallerQueued(caller, line) then v.(running := true, ready := line[..|line| - 1]) else v.(ready := line)
  }

  lemma StartSeen<T>(v: View<T>)
    requires Different(v.ready) && (v.current.None? ==> !v.running)
    ensures CallOk(v, StartCall(v)) && Seen(v, StartCall(v)) == v
  {
  }

  lemma YieldSeen<T>(v: View<T>)
    requires Different(v.ready) && (v.current.Some? ==> v.current.value !in v.ready)
    ensures CallOk(YieldView(v), YieldCall(v)) && Seen(YieldView(v), YieldCall(v)) == v
  {
  }

  /** Each statement keeps the list in the shape of its place, and the order of tasks
      changes at one of them only: there it makes exactly one tick. */
  lemma NextSeen<T>(v: View<T>, call: Call<T>)
    requires CallOk(v, call)
    ensures CanStep(v, call) && CallOk(NextView(v, call), NextCall(v, call))
    ensures Seen(NextView(v, call), NextCall(v, call)) ==
            if call.Inside? && call.pos.Marked? then Tick(Seen(v, call)) else Seen(v, call)
  {
    if call.Inside? {
      match call.pos
      case Demoted => QueuedSeen(v, call.caller);
      case Chosen(n) => assert [n] + v.ready[1..] == v.ready;
      case Marked(n) => NamedTicks(v, call.caller, n);
      case _ =>
    }
  }

  lemma QueuedSeen<T>(v: View<T>, caller: Option<T>)
    requires caller.Some? && caller.value !in v.ready && Different(v.ready) && v.ready != []
    ensures var line := v.ready + [caller.value];
            line[..|line| - 1] == v.ready && Different(line) && CallerQueued(caller, line) && line[0] == v.ready[0]
  {
  }

  /** The store to current_task makes one tick of the order before the call. */
  lemma NamedTicks<T>(v: View<T>, caller: Option<T>, n: T)
    requires CallerOk(v, caller) && n !in v.ready && Some(n) != caller
    ensures View(Some(n), true, v.ready) == Tick(Undone(v, caller, [n] + v.ready))
  {
    var line := [n] + v.ready;
    if CallerQueued(caller, line) {
      assert v.ready == v.ready[..|v.ready| - 1] + [caller.value];
      assert line[..|line| - 1] == [n] + v.ready[..|v.ready| - 1];
      assert ([n] + v.ready[..|v.ready| - 1] + [caller.value])[1..] == v.ready;
    }
    assert line[1..] == v.ready;
  }

  function StepsLeft<T>(call: Call<T>): nat
  {
    if !call.Inside? then 0
    else
      match call.pos
      case Demoted => 7
      case Tested => 6
      case Chosen(_) => 5
      case Unlinked(_) => 4
      case Marked(_) => 3
      case Installed(_) => 2
      case Stacked(_) => 1
      case Spaced(_) => 0
  }

  /** What a tick that switches away makes of the call. */
  function TornBy<T>(call: Call<T>): Call<T>
  {
    if call.Inside? then Torn(call.caller, call.pos) else call
  }

  /** The list when the call has reached the switch of stacks without a tick in between. */
  function Completed<T>(v: View<T>, call: Call<T>): View<T>
    requires call.Inside? && CanStep(v, call)
    decreases StepsLeft(call)
  {
    if call.pos.Spaced? then v else Completed(NextView(v, call), NextCall(v, call))
  }

  lemma {:induction false} CompletedSeen<T>(v: View<T>, call: Call<T>)
    requires CallOk(v, call) && call.Inside?
    ensures CanStep(v, call)
    ensures Completed(v, call) == if Named(call.pos) then v else Tick(Seen(v, call))
    decreases StepsLeft(call)
  {
    hide CallOk, NextView, Seen, Tick;
    NextSeen(v, call);
    if call.pos.Spaced? {
      SeenWhenNamed(v, call);
    } else {
      CompletedSeen(NextView(v, call), NextCall(v, call));
      SeenWhenNamed(v, call);
    }
  }

  lemma SeenWhenNamed<T>(v: View<T>, call: Call<T>)
    requires call.Inside? && CanStep(v, call)
    ensures Named(call.pos) ==> Seen(v, call) == v && NextView(v, call) == v
    ensures call.pos.Marked? ==> Seen(NextView(v, call), NextCall(v, call)) == NextView(v, call)
  {
  }

  /** Left alone, scheduler_start and task_yield each do to the order of tasks what one
      scheduler_tick does. */
  lemma WholeCallTicks<T>(v: View<T>)
    requires Different(v.ready) && v.ready != [] && (v.current.None? ==> !v.running)
    requires v.current.Some? ==> v.current.value !in v.ready
    ensures v.current.None? ==>
              StartCall(v).Inside? && CanStep(v, StartCall(v)) && Completed(v, StartCall(v)) == Tick(v)
    ensures v.current.Some? ==>
              && YieldCall(v).Inside? && CanStep(YieldView(v), YieldCall(v))
              && Completed(YieldView(v), YieldCall(v)) == Tick(v)
  {
    hide Completed, Seen, Tick, CallOk;
    StartSeen(v);
    YieldSeen(v);
    if v.current.None? {
      CompletedSeen(v, StartCall(v));
    } else {
      CompletedSeen(YieldView(v), YieldCall(v));
    }
  }

  /** A caller that a tick suspended after it had queued itself, and that goes on when
      it is current again, dispatches another task and is then neither current nor
      queued. */
  lemma StaleCallLosesCaller<T>(v: View<T>, a: T, pos: Pos<T>)
    requires v.current == Some(a) && a !in v.ready && v.ready != []
    requires pos.Tested? || (pos.Chosen? && pos.next != a)
    ensures var v' := Completed(v, Inside(Some(a), pos)); v'.current.Some? && v'.current != Some(a) && a !in v'.ready
  {
    var n := if pos.Tested? then v.ready[0] else pos.next;
    var v1 := v.(ready := v.ready[1..]);
    var v2 := View(Some(n), true, v.ready[1..]);
    assert Completed(v2, Inside(Some(a), Installed(n))) == v2 by {
      assert Completed(v2, Inside(Some(a), Spaced(n))) == v2;
      assert Completed(v2, Inside(Some(a), Stacked(n))) == v2;
    }
    assert Completed(v1, Inside(Some(a), Unlinked(n))) == v2 by {
      assert Completed(v1, Inside(Some(a), Marked(n))) == v2;
    }
    assert Completed(v, Inside(Some(a), Chosen(n))) == v2;
  }
}
