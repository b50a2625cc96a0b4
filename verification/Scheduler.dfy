/** The scheduler as the code runs it: one object whose queues are changed in
    place, each operation proved against the step it takes in `RunQueue`. */
module Schedulers {
  import opened RunQueue

  class Scheduler {
    var tasks: map<Tid, Task>
    var ready: seq<Tid>
    var sleepers: seq<Sleeper>
    var zombies: seq<Tid>
    var current: Tid
    var freed: set<Tid>
    ghost var published: set<Tid>

    ghost function State(): Sched
      reads this
    {
      Sched(tasks, ready, sleepers, zombies, current, published, freed)
    }

    constructor ()
      ensures State() == Boot() && Inv(State())
    {
      tasks := map[IDLE := Task(Running, 0, false)];
      ready, sleepers, zombies, current, freed, published := [], [], [], IDLE, {}, {};
    }

    method MakeTask(t: Tid)
      requires Inv(State()) && t !in tasks
      modifies this
      ensures State() == Next(old(State()), Step.MakeTask(t)) && Inv(State())
    {
      MakeKeepsInv(State(), t);
      tasks := tasks[t := Task(Ready, 0, false)];
    }

    method MakeReady(t: Tid)
      requires Inv(State()) && t in tasks && t !in published && t != IDLE
      modifies this
      ensures State() == Next(old(State()), Step.MakeReady(t)) && Inv(State())
    {
      MakeKeepsInv(State(), t);
      ready := ready + [t];
      published := published + {t};
    }

    method Wake(t: Tid)
      requires Inv(State()) && t in tasks
      modifies this
      ensures State() == Next(old(State()), Step.Wake(t)) && Inv(State())
    {
      WakeKeepsInv(State(), t);
      if tasks[t].state == Blocked {
        tasks := tasks[t := tasks[t].(state := Ready)];
        tasks := tasks[t := tasks[t].(wakeAt := 0)];
        ready := ready + [t];
      }
    }

    /** Takes the next task that has not exited off the queue, the idle task when
        there is none. */
    method PopNext() returns (next: Tid)
      requires IDLE in tasks && forall i :: 0 <= i < |ready| ==> ready[i] in tasks
      modifies this`ready
      ensures next in tasks
      ensures var rest := DropExited(old(ready), tasks);
              && next == (if rest == [] then IDLE else rest[0])
              && ready == (if rest == [] then [] else rest[1..])
    {
      while ready != []
        invariant forall i :: 0 <= i < |ready| ==> ready[i] in tasks
        invariant DropExited(ready, tasks) == DropExited(old(ready), tasks)
        decreases |ready|
      {
        var t := ready[0];
        if !tasks[t].exited {
          ready := ready[1..];
          return t;
        }
        ready := ready[1..];
      }
      next := IDLE;
    }

    /** Frees the stack of every zombie that is not the running task. */
    method ReapZombies()
      modifies this
      ensures State() == ReapNext(old(State()))
    {
      var keep: seq<Tid> := [];
      var i := 0;
      while i < |zombies|
        invariant i <= |zombies|
        invariant zombies == old(zombies) && tasks == old(tasks) && ready == old(ready)
        invariant sleepers == old(sleepers) && current == old(current) && published == old(published)
        invariant keep == if current in zombies[..i] then [current] else []
        invariant freed == old(freed) + set z | z in zombies[..i] && z != current
      {
        var z := zombies[i];
        assert zombies[..i + 1] == zombies[..i] + [z];
        if z == current {
          keep := [z];
        } else {
          freed := freed + {z};
        }
        i := i + 1;
      }
      assert zombies[..i] == zombies;
      zombies := keep;
    }

    /** Called with the current task running, or just blocked or dead. */
    method Schedule()
      requires current in tasks && IDLE in tasks && forall i :: 0 <= i < |ready| ==> ready[i] in tasks
      modifies this
      ensures State() == ScheduleNext(old(State()))
    {
      var prev := current;
      if tasks[prev].state == Running {
        tasks := tasks[prev := tasks[prev].(state := Ready)];
        if prev != IDLE {
          ready := ready + [prev];
        }
      }
      assert State() == Requeued(old(State()));
      ghost var handed := State();
      var next := PopNext();
      tasks := tasks[next := tasks[next].(state := Running)];
      current := next;
      assert State() == Picked(handed);
      if prev != next {
        ReapZombies();
      }
    }

    method YieldNow()
      requires Inv(State())
      modifies this
      ensures State() == Next(old(State()), Step.Yield) && Inv(State())
    {
      ScheduleKeepsInv(State());
      Schedule();
    }

    method BlockCurrent(deadline: Option<nat>)
      requires Inv(State()) && current != IDLE
      modifies this
      ensures State() == Next(old(State()), Step.Block(deadline)) && Inv(State())
    {
      NextKeepsInv(State(), Step.Block(deadline));
      tasks := tasks[current := tasks[current].(state := Blocked)];
      if deadline.Some? {
        tasks := tasks[current := tasks[current].(wakeAt := deadline.value)];
        sleepers := sleepers + [Sleeper(deadline.value, current)];
      }
      assert State() == Parked(old(State()), deadline);
      Schedule();
    }

    method ExitCurrent()
      requires Inv(State()) && current != IDLE
      modifies this
      ensures State() == Next(old(State()), Step.Exit) && Inv(State())
    {
      NextKeepsInv(State(), Step.Exit);
      tasks := tasks[current := tasks[current].(exited := true)];
      tasks := tasks[current := tasks[current].(state := Dead)];
      zombies := zombies + [current];
      assert State() == Died(old(State()));
      Schedule();
    }

    method KillTask(t: Tid)
      requires Inv(State()) && t in tasks && t != current && t != IDLE
      modifies this
      ensures State() == Next(old(State()), Step.Kill(t)) && Inv(State())
      ensures tasks[t].exited && tasks[t].state != Blocked
    {
      MarkedInv(State(), t);
      tasks := tasks[t := tasks[t].(exited := true)];
      RetainOthers(t);
      assert State() == Marked(old(State()), t);
      Wake(t);
    }

    /** Takes `t` out of the ready queue. */
    method RetainOthers(t: Tid)
      modifies this`ready
      ensures ready == WithoutTask(old(ready), t)
    {
      var kept := [];
      var i := |ready|;
      while i > 0
        invariant 0 <= i <= |ready|
        invariant kept == WithoutTask(ready[i..], t)
      {
        i := i - 1;
        assert ready[i..] == [ready[i]] + ready[i + 1..];
        if ready[i] != t {
          kept := [ready[i]] + kept;
        }
      }
      assert ready[0..] == ready;
      ready := kept;
    }

    /** Looks at the sleeper entry at `i`: drops a stale one, fires a due one. */
    method Visit(i: nat, now: nat) returns (next: nat)
      requires i < |sleepers|
      modifies this
      ensures next == i + 1 || (next == i && |sleepers| < |old(sleepers)|)
      ensures |sleepers| <= |old(sleepers)|
      ensures TickFrom(State(), next, now) == TickFrom(old(State()), i, now)
    {
      var s := sleepers[i];
      next := i;
      if !(s.tid in tasks && tasks[s.tid].wakeAt == s.deadline && tasks[s.tid].state == Blocked) {
        sleepers := SwapRemove(sleepers, i);
        assert State() == Unslept(old(State()), i);
      } else if s.deadline <= now {
        sleepers := SwapRemove(sleepers, i);
        tasks := tasks[s.tid := tasks[s.tid].(wakeAt := 0)];
        tasks := tasks[s.tid := tasks[s.tid].(state := Ready)];
        ready := ready + [s.tid];
        assert State() == Unslept(WakeNext(old(State()), s.tid), i);
      } else {
        next := i + 1;
      }
    }

    method TimerTick(now: nat)
      requires Inv(State())
      modifies this
      ensures State() == Next(old(State()), Step.Tick(now)) && Inv(State())
    {
      var i: nat := 0;
      TickKeepsInv(State(), 0, now);
      while i < |sleepers|
        invariant TickFrom(State(), i, now) == TickFrom(old(State()), 0, now)
        decreases |sleepers| - i
      {
        i := Visit(i, now);
      }
    }
  }
}
