/** Round-robin order, seen from outside: who runs, whether it still wants the
    CPU, and who waits in which order.  scheduler_tick refines `Tick`. */
module RoundRobin {
  import opened Wrappers

  datatype View<+T> = View(current: Option<T>, running: bool, ready: seq<T>)

  function Tick<T>(s: View<T>): View<T>
  {
    if s.ready == [] then s
    else if s.current.None? then View(Some(s.ready[0]), true, s.ready[1..])
    else
      var line := if s.running then s.ready + [s.current.value] else s.ready;
      View(Some(line[0]), true, line[1..])
  }

  /** What can happen while tasks run: a timer tick or a yield, a newly admitted
      task, or the running task leaving RUNNING (blocked or terminated). */
  datatype Happening<T> = Ticked | Admitted(task: T) | LeftRunning

  function Next<T>(s: View<T>, e: Happening<T>): View<T>
  {
    match e
    case Ticked => Tick(s)
    case Admitted(t) => s.(ready := s.ready + [t])
    case LeftRunning => s.(running := false)
  }

  function After<T>(s: View<T>, es: seq<Happening<T>>): View<T>
    decreases |es|
  {
    if es == [] then s else After(Next(s, es[0]), es[1..])
  }

  function Ticks<T(==)>(es: seq<Happening<T>>): nat
    decreases |es|
  {
    if es == [] then 0 else (if es[0] == Ticked then 1 else 0) + Ticks(es[1..])
  }

  /** The task at position k of the queue moves up one place per tick, whatever
      else happens, and runs from the (k+1)-th tick on until the next one. */
  lemma {:induction false} BoundedWaiting<T>(s: View<T>, es: seq<Happening<T>>, k: nat)
    requires s.current.Some? && k < |s.ready|
    ensures var n := Ticks(es);
            var s' := After(s, es);
            && s'.current.Some?
            && (n <= k ==> k - n < |s'.ready| && s'.ready[k - n] == s.ready[k])
            && (n == k + 1 ==> s'.current.value == s.ready[k])
    decreases |es|
  {
    if es == [] {
    } else {
      var s1 := Next(s, es[0]);
      if es[0] != Ticked {
        BoundedWaiting(s1, es[1..], k);
      } else if k > 0 {
        BoundedWaiting(s1, es[1..], k - 1);
      } else {
        CurrentUntilTick(s1, es[1..]);
      }
    }
  }

  /** Only a tick changes who runs. */
  lemma {:induction false} CurrentUntilTick<T>(s: View<T>, es: seq<Happening<T>>)
    ensures s.current.Some? ==> After(s, es).current.Some?
    ensures Ticks(es) == 0 ==> After(s, es).current == s.current
    decreases |es|
  {
    if es == [] {
    } else {
      CurrentUntilTick(Next(s, es[0]), es[1..]);
    }
  }

  function Repeat<T>(n: nat): seq<Happening<T>>
  {
    seq(n, i => Ticked)
  }

  /** With nobody coming or going, j ticks turn the circle of tasks by j places. */
  lemma {:induction false} TurnsBy<T>(s: View<T>, j: nat)
    requires s.current.Some? && s.running && j <= |s.ready|
    ensures var circle := [s.current.value] + s.ready;
            After(s, Repeat(j)) == View(Some(circle[j]), true, circle[j + 1..] + circle[..j])
  {
    if j == 0 {
      assert Repeat<T>(0) == [];
    } else {
      var circle := [s.current.value] + s.ready;
      TurnsBy(s, j - 1);
      AfterAppend(s, Repeat(j - 1), Ticked);
      assert Repeat(j - 1) + [Ticked] == Repeat<T>(j);
      TurnOnce(circle, j);
    }
  }

  lemma TurnOnce<T>(circle: seq<T>, j: nat)
    requires 0 < j < |circle|
    ensures Tick(View(Some(circle[j - 1]), true, circle[j..] + circle[..j - 1]))
         == View(Some(circle[j]), true, circle[j + 1..] + circle[..j])
  {
    var line := circle[j..] + circle[..j - 1] + [circle[j - 1]];
    assert line[1..] == circle[j + 1..] + circle[..j];
  }

  lemma {:induction false} AfterAppend<T>(s: View<T>, es: seq<Happening<T>>, e: Happening<T>)
    ensures After(s, es + [e]) == Next(After(s, es), e)
    decreases |es|
  {
    if es == [] {
      assert [] + [e] == [e];
    } else {
      assert (es + [e])[1..] == es[1..] + [e];
      AfterAppend(Next(s, es[0]), es[1..], e);
    }
  }

  /** With n tasks waiting, nobody coming and nobody leaving, n + 1 ticks bring
      back the same current task and the same queue. */
  lemma FullCircle<T>(s: View<T>)
    requires s.current.Some? && s.running
    ensures After(s, Repeat(|s.ready| + 1)) == s
  {
    var n := |s.ready|;
    var circle := [s.current.value] + s.ready;
    TurnsBy(s, n);
    AfterAppend(s, Repeat(n), Ticked);
    assert Repeat(n) + [Ticked] == Repeat<T>(n + 1);
    if n > 0 {
      assert circle[..n] + [circle[n]] == circle;
      assert circle[n + 1..] + circle[..n] == circle[..n];
    } else {
      assert circle[1..] + circle[..0] == [];
    }
  }
}
