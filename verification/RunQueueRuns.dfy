/** Runs of the scheduler: who gets the CPU and when, and what a timer tick does
    to sleepers. */
module RunQueueRuns {
  import opened RunQueue

  // ---------------------------------------------------------------- runs

  predicate Kills(st: Step, t: Tid)
  {
    st.Kill? && st.tid == t
  }

  /** The steps that call `schedule`. */
  predicate Schedules(st: Step)
  {
    st.Yield? || st.Block? || st.Exit?
  }

  function ScheduleCalls(steps: seq<Step>): nat
  {
    if steps == [] then 0 else (if Schedules(steps[0]) then 1 else 0) + ScheduleCalls(steps[1..])
  }

  ghost predicate RunAllowed(q: Sched, steps: seq<Step>)
    requires Inv(q)
    decreases |steps|
  {
    steps == [] ||
    (Allowed(q, steps[0]) && (NextKeepsInv(q, steps[0]); RunAllowed(Next(q, steps[0]), steps[1..])))
  }

  /** Some state of the run, the first included, has `t` on the CPU. */
  ghost predicate Runs(q: Sched, steps: seq<Step>, t: Tid)
    requires Inv(q) && RunAllowed(q, steps)
    decreases |steps|
  {
    q.current == t ||
    (steps != [] && (NextKeepsInv(q, steps[0]); Runs(Next(q, steps[0]), steps[1..], t)))
  }

  ghost function RunFrom(q: Sched, steps: seq<Step>): (r: Sched)
    requires Inv(q) && RunAllowed(q, steps)
    ensures Inv(r)
    decreases |steps|
  {
    if steps == [] then q
    else NextKeepsInv(q, steps[0]); RunFrom(Next(q, steps[0]), steps[1..])
  }

  // ---------------------------------------------------------------- bounded waiting

  /** `t` waits in the queue with at most `k` tasks before it. */
  ghost predicate Waiting(q: Sched, t: Tid, k: int)
  {
    && t in q.tasks && !q.tasks[t].exited
    && exists i :: 0 <= i <= k && i < |q.ready| && q.ready[i] == t
  }

  lemma WithoutPosition(s: seq<Tid>, t: Tid, u: Tid, i: nat) returns (j: nat)
    requires i < |s| && s[i] == t && t != u
    ensures j <= i && j < |WithoutTask(s, u)| && WithoutTask(s, u)[j] == t
  {
    if i == 0 {
      j := 0;
    } else {
      var k := WithoutPosition(s[1..], t, u, i - 1);
      j := if s[0] == u then k else k + 1;
    }
  }

  lemma {:induction false} TickKeepsPlace(q: Sched, i: nat, now: nat, t: Tid)
    requires t in q.tasks
    ensures var r := TickFrom(q, i, now);
            && q.ready <= r.ready && t in r.tasks && r.tasks[t].exited == q.tasks[t].exited
            && r.current == q.current
    decreases |q.sleepers| - i
  {
    if i < |q.sleepers| {
      var s := q.sleepers[i];
      if !Live(q, s) {
        TickKeepsPlace(Unslept(q, i), i, now, t);
      } else if s.deadline <= now {
        TickKeepsPlace(Unslept(WakeNext(q, s.tid), i), i, now, t);
      } else {
        TickKeepsPlace(q, i + 1, now, t);
      }
    }
  }

  /** A call of `schedule` gives the CPU to a waiting task or moves it forward. */
  lemma ScheduleAdvances(q: Sched, t: Tid, k: nat)
    requires q.current in q.tasks && Waiting(q, t, k) && t != q.current
    ensures ScheduleNext(q).current == t || Waiting(ScheduleNext(q), t, k - 1)
  {
    var h := Requeued(q);
    var i :| 0 <= i <= k && i < |q.ready| && q.ready[i] == t;
    assert h.ready[i] == t && h.tasks[t] == q.tasks[t];
    var n := DropExitedIs(h.ready, h.tasks);
    var rest := h.ready[n..];
    assert n <= i;
    assert rest[i - n] == t;
    if i != n {
      assert Picked(h).ready == rest[1..];
      assert Picked(h).ready[i - n - 1] == t;
      assert ScheduleNext(q).ready == Picked(h).ready;
      assert ScheduleNext(q).tasks[t].exited == q.tasks[t].exited;
    }
  }

  lemma StepKeepsPlace(q: Sched, st: Step, t: Tid, k: nat)
    requires Inv(q) && Allowed(q, st) && Waiting(q, t, k) && !Kills(st, t) && !Schedules(st)
    ensures Waiting(Next(q, st), t, k)
  {
    var i :| 0 <= i <= k && i < |q.ready| && q.ready[i] == t;
    match st
    case MakeTask(_) => assert Next(q, st).ready[i] == t;
    case MakeReady(_) => assert Next(q, st).ready[i] == t;
    case Wake(_) => assert Next(q, st).ready[i] == t;
    case Kill(u) =>
      var j := WithoutPosition(q.ready, t, u, i);
      assert Next(q, st).ready[j] == t;
    case Tick(now) =>
      TickKeepsPlace(q, 0, now, t);
      assert Next(q, st).ready[i] == t;
  }

  lemma StepAdvances(q: Sched, st: Step, t: Tid, k: nat)
    requires Inv(q) && Allowed(q, st) && Waiting(q, t, k) && Schedules(st)
    ensures Next(q, st).current == t || Waiting(Next(q, st), t, k - 1)
  {
    assert t != q.current by {
      assert t in q.ready;
    }
    var r := if st.Yield? then q else if st.Block? then Parked(q, st.deadline) else Died(q);
    assert Next(q, st) == ScheduleNext(r);
    ScheduleAdvances(r, t, k);
  }

  /** A live task with at most `k` tasks before it in the ready queue runs by the
      `k + 1`-th call of `schedule`, whatever else happens in between short of
      killing that task. */
  lemma {:induction false} BoundedWaiting(q: Sched, steps: seq<Step>, t: Tid, k: nat)
    requires Inv(q) && RunAllowed(q, steps) && Waiting(q, t, k)
    requires forall i :: 0 <= i < |steps| ==> !Kills(steps[i], t)
    requires ScheduleCalls(steps) >= k + 1
    ensures Runs(q, steps, t)
    decreases |steps|
  {
    var q' := Next(q, steps[0]);
    NextKeepsInv(q, steps[0]);
    if Schedules(steps[0]) {
      StepAdvances(q, steps[0], t, k);
      if q'.current == t {
        assert Runs(q', steps[1..], t);
      } else {
        BoundedWaiting(q', steps[1..], t, k - 1);
      }
    } else {
      StepKeepsPlace(q, steps[0], t, k);
      BoundedWaiting(q', steps[1..], t, k);
    }
  }

  // ---------------------------------------------------------------- exited tasks

  lemma ScheduleKeepsExited(q: Sched, t: Tid)
    requires q.current in q.tasks && t in q.tasks
    ensures t in ScheduleNext(q).tasks && ScheduleNext(q).tasks[t].exited == q.tasks[t].exited
  {
    var h := Requeued(q);
    assert h.tasks[t].exited == q.tasks[t].exited;
    assert Picked(h).tasks[t].exited == h.tasks[t].exited;
  }

  lemma ExitedStays(q: Sched, st: Step, t: Tid)
    requires Inv(q) && Allowed(q, st) && t in q.tasks && q.tasks[t].exited
    ensures t in Next(q, st).tasks && Next(q, st).tasks[t].exited
  {
    if st.Tick? {
      TickKeepsPlace(q, 0, st.now, t);
    } else if Schedules(st) {
      ScheduleKeepsExited(if st.Yield? then q else if st.Block? then Parked(q, st.deadline) else Died(q), t);
    }
  }

  /** Once a task has exited or been killed, no run ever gives it the CPU. */
  lemma {:induction false} ExitedNeverRuns(q: Sched, steps: seq<Step>, t: Tid)
    requires Inv(q) && RunAllowed(q, steps) && t in q.tasks && q.tasks[t].exited
    ensures !Runs(q, steps, t)
    decreases |steps|
  {
    if steps != [] {
      NextKeepsInv(q, steps[0]);
      ExitedStays(q, steps[0], t);
      ExitedNeverRuns(Next(q, steps[0]), steps[1..], t);
    }
  }

  // ---------------------------------------------------------------- timer ticks

  predicate Due(q: Sched, i: nat, now: nat, t: Tid)
    requires i <= |q.sleepers| && t in q.tasks
  {
    && q.tasks[t].state == Blocked && q.tasks[t].wakeAt <= now
    && Sleeper(q.tasks[t].wakeAt, t) in q.sleepers[i..]
  }

  /** The scan wakes exactly the blocked tasks whose entry is due, and touches no
      other task. */
  lemma {:induction false} TickExact(q: Sched, i: nat, now: nat, t: Tid)
    requires t in q.tasks && i <= |q.sleepers|
    ensures t in TickFrom(q, i, now).tasks
    ensures TickFrom(q, i, now).tasks[t] == if Due(q, i, now, t) then Task(Ready, 0, q.tasks[t].exited) else q.tasks[t]
    decreases |q.sleepers| - i
  {
    if i < |q.sleepers| {
      var s := q.sleepers[i];
      SwapRemoveMembers(q.sleepers, i, i);
      if !Live(q, s) {
        TickExact(Unslept(q, i), i, now, t);
      } else if s.deadline <= now {
        assert s in q.sleepers[i..];
        TickExact(Unslept(WakeNext(q, s.tid), i), i, now, t);
      } else {
        assert q.sleepers[i..] == [s] + q.sleepers[i + 1..];
        TickExact(q, i + 1, now, t);
      }
    }
  }

  ghost predicate Pending(q: Sched, s: Sleeper, now: nat)
  {
    Live(q, s) && s.deadline > now
  }

  /** The entries that stay are exactly sleeps still to come. */
  lemma {:induction false} TickSleepers(q: Sched, i: nat, now: nat)
    requires i <= |q.sleepers| && forall j :: 0 <= j < i ==> Pending(q, q.sleepers[j], now)
    ensures forall s :: s in TickFrom(q, i, now).sleepers ==> Pending(TickFrom(q, i, now), s, now)
    decreases |q.sleepers| - i
  {
    if i < |q.sleepers| {
      var s := q.sleepers[i];
      if !Live(q, s) {
        var u := Unslept(q, i);
        assert forall j :: 0 <= j < i ==> u.sleepers[j] == q.sleepers[j] && Live(u, u.sleepers[j]);
        TickSleepers(u, i, now);
      } else if s.deadline <= now {
        var u := Unslept(WakeNext(q, s.tid), i);
        assert forall j :: 0 <= j < i ==>
                 u.sleepers[j] == q.sleepers[j] && Pending(q, q.sleepers[j], now) && Live(u, u.sleepers[j]);
        TickSleepers(u, i, now);
      } else {
        TickSleepers(q, i + 1, now);
      }
    }
  }

  /** No lost sleeper: after a tick nobody is still blocked on a deadline that has
      passed, a task blocked without a due entry sleeps on, and the entry list holds
      nothing stale. */
  lemma TickWakesAll(q: Sched, now: nat, t: Tid)
    requires Inv(q) && t in q.tasks && q.tasks[t].state == Blocked
    ensures var r := Next(q, Tick(now));
            && t in r.tasks
            && (0 < q.tasks[t].wakeAt <= now ==> r.tasks[t].state == Ready)
            && (q.tasks[t].wakeAt > now ==> r.tasks[t] == q.tasks[t])
            && (q.tasks[t].wakeAt == 0 ==> (r.tasks[t].state == Ready <==> Sleeper(0, t) in q.sleepers))
            && (forall s :: s in r.sleepers ==> Pending(r, s, now))
  {
    assert TaskOk(q, t);
    TickExact(q, 0, now, t);
    assert q.sleepers[0..] == q.sleepers;
    TickSleepers(q, 0, now);
  }
}
