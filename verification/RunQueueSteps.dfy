/** What each step of the scheduler does to its task, to the queue and to everybody
    else, in terms of the states before and after alone. */
module RunQueueSteps {
  import opened RunQueue
  import opened RunQueueRuns

  /** Every task but `t` is as it was. */
  ghost predicate OthersSame(q: Sched, r: Sched, t: Tid)
  {
    && (forall u :: u != t ==> (u in r.tasks <==> u in q.tasks))
    && (forall u :: u != t && u in q.tasks && u in r.tasks ==> r.tasks[u] == q.tasks[u])
  }

  /** `u` comes before `v`. */
  ghost predicate Ahead(s: seq<Tid>, u: Tid, v: Tid)
  {
    exists i, j :: 0 <= i < j < |s| && s[i] == u && s[j] == v
  }

  // ---------------------------------------------------------------- new tasks and wakes

  lemma MakeEffect(q: Sched, t: Tid)
    requires Inv(q)
    ensures Allowed(q, MakeTask(t)) ==>
              var r := Next(q, MakeTask(t));
              && t in r.tasks && r.tasks[t].state == Ready && !r.tasks[t].exited && t !in r.ready
              && OthersSame(q, r, t) && r.ready == q.ready && r.current == q.current
    ensures Allowed(q, MakeReady(t)) ==>
              var r := Next(q, MakeReady(t));
              && r.tasks == q.tasks && r.current == q.current
              && r.ready == q.ready + [t] && t !in q.ready
  {
    if t in q.tasks {
      assert TaskOk(q, t);
    }
  }

  /** A wake makes a blocked task ready, last in the queue and with no deadline left, and
      does nothing to any other. */
  lemma WakeEffect(q: Sched, t: Tid)
    requires Inv(q) && t in q.tasks
    ensures var r := Next(q, Wake(t));
            if q.tasks[t].state != Blocked then r == q
            else && t in r.tasks && r.tasks[t].state == Ready && r.tasks[t].wakeAt == 0
                 && r.tasks[t].exited == q.tasks[t].exited
                 && r.ready == q.ready + [t] && t !in q.ready
                 && OthersSame(q, r, t) && r.current == q.current && r.sleepers == q.sleepers
  {
    assert TaskOk(q, t);
  }

  // ---------------------------------------------------------------- kills

  lemma {:induction false} WithoutOrder(s: seq<Tid>, t: Tid, u: Tid, v: Tid)
    requires u != t && v != t
    ensures Ahead(WithoutTask(s, t), u, v) <==> Ahead(s, u, v)
  {
    if s != [] {
      var rest, r := s[1..], WithoutTask(s, t);
      WithoutOrder(rest, t, u, v);
      AheadTail(s, u, v);
      if s[0] == t {
        assert r == WithoutTask(rest, t);
      } else {
        assert r[1..] == WithoutTask(rest, t);
        AheadTail(r, u, v);
      }
    }
  }

  lemma AheadTail(s: seq<Tid>, u: Tid, v: Tid)
    requires s != []
    ensures Ahead(s, u, v) <==> (s[0] == u && v in s[1..]) || Ahead(s[1..], u, v)
  {
    if Ahead(s, u, v) {
      var i, j :| 0 <= i < j < |s| && s[i] == u && s[j] == v;
      assert s[1..][j - 1] == v;
      if i > 0 {
        assert s[1..][i - 1] == u;
      }
    }
    if s[0] == u && v in s[1..] {
      var k :| 0 <= k < |s[1..]| && s[1..][k] == v;
      assert s[k + 1] == v;
    }
    if Ahead(s[1..], u, v) {
      var i, j :| 0 <= i < j < |s[1..]| && s[1..][i] == u && s[1..][j] == v;
      assert s[i + 1] == u && s[j + 1] == v;
    }
  }

  /** A kill marks its target, whatever state that is in, and unblocks it. Every other task
      keeps its state and its mark, and they keep their order in the queue. */
  lemma KillEffect(q: Sched, t: Tid)
    requires Inv(q) && Allowed(q, Kill(t))
    ensures var r := Next(q, Kill(t));
            && t in r.tasks && r.tasks[t].exited && r.tasks[t].state != Blocked
            && OthersSame(q, r, t) && r.current == q.current && r.sleepers == q.sleepers
            && (forall u :: u != t ==> (u in r.ready <==> u in q.ready))
  {
    assert TaskOk(q, t);
  }

  lemma KillKeepsOrder(q: Sched, t: Tid, u: Tid, v: Tid)
    requires Inv(q) && Allowed(q, Kill(t)) && u != t && v != t
    ensures Ahead(Next(q, Kill(t)).ready, u, v) <==> Ahead(q.ready, u, v)
  {
    var kept, r := WithoutTask(q.ready, t), Next(q, Kill(t)).ready;
    WithoutOrder(q.ready, t, u, v);
    assert r == kept || r == kept + [t];
    if Ahead(kept, u, v) {
      var i, j :| 0 <= i < j < |kept| && kept[i] == u && kept[j] == v;
      assert r[i] == u && r[j] == v;
    }
    if Ahead(r, u, v) {
      var i, j :| 0 <= i < j < |r| && r[i] == u && r[j] == v;
      assert kept[i] == u && kept[j] == v;
    }
  }

  /** No run ever gives the CPU to a task that has been killed. */
  lemma KilledNeverRuns(q: Sched, t: Tid, steps: seq<Step>)
    requires Inv(q) && Allowed(q, Kill(t)) && Inv(Next(q, Kill(t))) && RunAllowed(Next(q, Kill(t)), steps)
    ensures !Runs(Next(q, Kill(t)), steps, t)
  {
    KillEffect(q, t);
    ExitedNeverRuns(Next(q, Kill(t)), steps, t);
  }

  // ---------------------------------------------------------------- schedule

  /** `next` is the first of the queue that has not exited, `rest` what follows it; the
      idle task if there is none. */
  ghost predicate First(queue: seq<Tid>, tasks: map<Tid, Task>, next: Tid, rest: seq<Tid>, n: nat)
  {
    && n <= |queue|
    && (forall i :: 0 <= i < n ==> queue[i] in tasks && tasks[queue[i]].exited)
    && (n < |queue| ==> queue[n] in tasks && !tasks[queue[n]].exited && next == queue[n] && rest == queue[n + 1..])
    && (n == |queue| ==> next == IDLE && rest == [])
  }

  /** The queue once a task that is running has gone to its back; the idle task does not. */
  function Back(q: Sched): seq<Tid>
    requires q.current in q.tasks
  {
    q.ready + if q.tasks[q.current].state == Running && q.current != IDLE then [q.current] else []
  }

  /** What a call of `schedule` makes of one task. */
  function Switched(q: Sched, u: Tid, next: Tid): Task
    requires u in q.tasks && q.current in q.tasks
  {
    if u == next then q.tasks[u].(state := Running)
    else if u == q.current && q.tasks[u].state == Running then q.tasks[u].(state := Ready)
    else q.tasks[u]
  }

  /** The first live task of the queue runs, the one before it is ready if it was running,
      and no other task has changed. */
  ghost predicate Switches(q: Sched, r: Sched, n: nat)
    requires q.current in q.tasks
  {
    && First(Back(q), q.tasks, r.current, r.ready, n)
    && r.tasks.Keys == q.tasks.Keys && r.current in q.tasks && r.sleepers == q.sleepers
    && (forall u :: u in q.tasks && u in r.tasks ==> r.tasks[u] == Switched(q, u, r.current))
    && (q.current != r.current ==> forall z :: z in q.zombies && z != r.current ==> z in r.freed)
  }

  lemma PickedFirst(h: Sched, p: Sched) returns (n: nat)
    requires Handed(h) && p == Picked(h)
    ensures First(h.ready, h.tasks, p.current, p.ready, n)
    ensures p.current in h.tasks && p.tasks == h.tasks[p.current := h.tasks[p.current].(state := Running)]
    ensures p.sleepers == h.sleepers && p.zombies == h.zombies
  {
    PickedTasks(h);
    n := DropExitedIs(h.ready, h.tasks);
    if n < |h.ready| {
      assert h.ready[n] in h.ready && h.ready[n..][0] == h.ready[n] && h.ready[n..][1..] == h.ready[n + 1..];
    }
  }

  lemma FirstSame(queue: seq<Tid>, a: map<Tid, Task>, b: map<Tid, Task>, next: Tid, rest: seq<Tid>, n: nat)
    requires First(queue, a, next, rest, n)
    requires forall i :: 0 <= i < |queue| && queue[i] in a ==> queue[i] in b && b[queue[i]].exited == a[queue[i]].exited
    ensures First(queue, b, next, rest, n)
  {
  }

  lemma ScheduleEffect(q: Sched) returns (n: nat)
    requires Core(q)
    ensures Switches(q, ScheduleNext(q), n)
  {
    var h := Requeued(q);
    RequeuedHanded(q);
    var p := Picked(h);
    n := PickedFirst(h, p);
    assert h.ready == Back(q);
    FirstSame(h.ready, h.tasks, q.tasks, p.current, p.ready, n);
    SwitchedAll(q, h, p);
  }

  lemma SwitchedAll(q: Sched, h: Sched, p: Sched)
    requires Core(q) && h == Requeued(q) && p.current in h.tasks
    requires p.tasks == h.tasks[p.current := h.tasks[p.current].(state := Running)]
    ensures p.tasks.Keys == q.tasks.Keys
    ensures forall u :: u in q.tasks && u in p.tasks ==> p.tasks[u] == Switched(q, u, p.current)
  {
  }

  /** A yield leaves the CPU to the first live task of the queue, the running one last. */
  lemma YieldEffect(q: Sched) returns (n: nat)
    requires Inv(q)
    ensures Switches(q, Next(q, Yield), n)
  {
    n := ScheduleEffect(q);
  }

  /** The running task leaves the CPU to the first live task of the queue, which does not
      hold it, and every other task is as it was. */
  ghost predicate Leaves(q: Sched, r: Sched, n: nat)
    requires q.current in q.tasks
  {
    && First(q.ready, q.tasks, r.current, r.ready, n) && r.current != q.current && r.current in q.tasks
    && (forall u :: u in q.tasks && u != q.current && u in r.tasks ==> r.tasks[u] == Switched(q, u, r.current))
    && r.tasks.Keys == q.tasks.Keys
  }

  lemma LeavesAfter(q: Sched, p: Sched, r: Sched, n: nat)
    requires Inv(q) && q.current != IDLE && OthersSame(q, p, q.current) && p.ready == q.ready && p.current == q.current
    requires q.current in p.tasks && p.tasks[q.current].state != Running && Switches(p, r, n)
    ensures Leaves(q, r, n) && q.current in r.tasks && r.tasks[q.current] == p.tasks[q.current]
  {
    forall i | 0 <= i < |q.ready|
      ensures q.ready[i] != q.current && q.ready[i] in q.tasks
    {
      assert q.ready[i] in q.ready;
    }
    assert Back(p) == q.ready;
    FirstSame(q.ready, p.tasks, q.tasks, r.current, r.ready, n);
  }

  /** Blocking parks the running task, with its deadline if there is one. */
  lemma BlockEffect(q: Sched, d: Option<nat>) returns (n: nat)
    requires Inv(q) && Allowed(q, Block(d))
    ensures var r := Next(q, Block(d)); var c := q.current;
            && Leaves(q, r, n) && c in r.tasks
            && r.tasks[c].state == Blocked && r.tasks[c].exited == q.tasks[c].exited
            && match d
               case Some(at) => r.tasks[c].wakeAt == at && r.sleepers == q.sleepers + [Sleeper(at, c)]
               case None => r.tasks[c].wakeAt == 0 && r.sleepers == q.sleepers
  {
    ParkedLeaving(q, d);
    assert TaskOk(q, q.current);
    n := ScheduleEffect(Parked(q, d));
    LeavesAfter(q, Parked(q, d), Next(q, Block(d)), n);
  }

  /** Exiting leaves the running task dead and marked, and its stack is given back by the
      task that runs next. */
  lemma ExitEffect(q: Sched) returns (n: nat)
    requires Inv(q) && Allowed(q, Exit)
    ensures var r := Next(q, Exit); var c := q.current;
            && Leaves(q, r, n) && c in r.tasks
            && r.tasks[c].state == Dead && r.tasks[c].exited && c in r.freed && r.sleepers == q.sleepers
  {
    DiedLeaving(q);
    n := ScheduleEffect(Died(q));
    LeavesAfter(q, Died(q), Next(q, Exit), n);
    assert q.current in Died(q).zombies;
  }

  // ---------------------------------------------------------------- ticks

  /** A tick queues the tasks it wakes behind those that wait already, and no others. */
  lemma {:induction false} TickQueues(q: Sched, i: nat, now: nat, t: Tid)
    requires i <= |q.sleepers| && t in q.tasks && t !in q.ready
    ensures var r := TickFrom(q, i, now);
            q.ready <= r.ready && (t in r.ready <==> Due(q, i, now, t))
    decreases |q.sleepers| - i
  {
    TickKeepsPlace(q, i, now, t);
    if i < |q.sleepers| {
      var s := q.sleepers[i];
      SwapRemoveMembers(q.sleepers, i, i);
      if !Live(q, s) {
        TickQueues(Unslept(q, i), i, now, t);
      } else if s.deadline <= now {
        assert s in q.sleepers[i..];
        var u := Unslept(WakeNext(q, s.tid), i);
        if s.tid == t {
          TickKeepsPlace(u, i, now, t);
          assert t in u.ready;
        } else {
          TickQueues(u, i, now, t);
        }
      } else {
        assert q.sleepers[i..] == [s] + q.sleepers[i + 1..];
        TickQueues(q, i + 1, now, t);
      }
    }
  }
}
