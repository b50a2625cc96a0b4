/** The scheduler's run queue (`sched/mod.rs`): one CPU, kernel code that is not
    preempted, round robin over a ready queue, timed sleeps dropped lazily and
    dead tasks reaped by whoever runs next. */
module RunQueue {

  type Tid = nat

  const IDLE: Tid := 0

  datatype Option<+T> = None | Some(value: T)

  datatype TaskState = Ready | Running | Blocked | Dead

  datatype Task = Task(state: TaskState, wakeAt: nat, exited: bool)

  datatype Sleeper = Sleeper(deadline: nat, tid: Tid)

  /** `published` holds those that `make_ready` (or a spawn) has handed to the
      scheduler, `freed` those whose kernel stack has been given back. */
  datatype Sched = Sched(
    tasks: map<Tid, Task>,
    ready: seq<Tid>,
    sleepers: seq<Sleeper>,
    zombies: seq<Tid>,
    current: Tid,
    published: set<Tid>,
    freed: set<Tid>)

  function Boot(): Sched
  {
    Sched(map[IDLE := Task(Running, 0, false)], [], [], [], IDLE, {}, {})
  }

  // ---------------------------------------------------------------- operations

  function SetState(q: Sched, t: Tid, s: TaskState): Sched
  {
    if t in q.tasks then q.(tasks := q.tasks[t := q.tasks[t].(state := s)]) else q
  }

  /** `wake`: harmless unless it is blocked. */
  function WakeNext(q: Sched, t: Tid): Sched
  {
    if t in q.tasks && q.tasks[t].state == Blocked then
      q.(tasks := q.tasks[t := q.tasks[t].(state := Ready, wakeAt := 0)], ready := q.ready + [t])
    else q
  }

  /** The queue after the exited tasks at its head are discarded. */
  function DropExited(ready: seq<Tid>, tasks: map<Tid, Task>): seq<Tid>
  {
    if ready != [] && ready[0] in tasks && tasks[ready[0]].exited then DropExited(ready[1..], tasks) else ready
  }

  function WithoutTask(s: seq<Tid>, t: Tid): (r: seq<Tid>)
    ensures forall x :: x in r <==> x in s && x != t
    ensures |r| <= |s|
  {
    if s == [] then [] else (if s[0] == t then [] else [s[0]]) + WithoutTask(s[1..], t)
  }

  /** `schedule`, first part: a task that is still running goes to the back of the
      queue (the idle task is never queued). */
  function Requeued(q: Sched): Sched
    requires q.current in q.tasks
  {
    if q.tasks[q.current].state != Running then q
    else if q.current == IDLE then SetState(q, q.current, Ready)
    else SetState(q, q.current, Ready).(ready := q.ready + [q.current])
  }

  /** `schedule`, second part: run the first queued task that has not exited, or
      the idle task. */
  function Picked(q: Sched): Sched
  {
    var rest := DropExited(q.ready, q.tasks);
    var next := if rest == [] then IDLE else rest[0];
    SetState(q, next, Running).(ready := if rest == [] then [] else rest[1..], current := next)
  }

  /** `schedule`: requeue, pick, and after a switch let the new task reap. */
  function ScheduleNext(q: Sched): Sched
    requires q.current in q.tasks
  {
    var p := Picked(Requeued(q));
    if p.current == q.current then p else ReapNext(p)
  }

  /** `reap_zombies`: free the stacks of the dead tasks that are not running. */
  function ReapNext(q: Sched): Sched
  {
    q.(zombies := if q.current in q.zombies then [q.current] else [],
       freed := q.freed + set z | z in q.zombies && z != q.current)
  }

  /** `block_current` before it calls `schedule`. */
  function Parked(q: Sched, deadline: Option<nat>): Sched
    requires q.current in q.tasks
  {
    if deadline.None? then SetState(q, q.current, Blocked)
    else q.(tasks := q.tasks[q.current := q.tasks[q.current].(state := Blocked, wakeAt := deadline.value)],
            sleepers := q.sleepers + [Sleeper(deadline.value, q.current)])
  }

  /** `block_current`. */
  function BlockNext(q: Sched, deadline: Option<nat>): Sched
    requires q.current in q.tasks
  {
    ScheduleNext(Parked(q, deadline))
  }

  /** `exit_current` before it calls `schedule`. */
  function Died(q: Sched): Sched
    requires q.current in q.tasks
  {
    q.(tasks := q.tasks[q.current := q.tasks[q.current].(state := Dead, exited := true)],
       zombies := q.zombies + [q.current])
  }

  /** `exit_current`. */
  function ExitNext(q: Sched): Sched
    requires q.current in q.tasks
  {
    ScheduleNext(Died(q))
  }

  /** `kill_task` before it wakes its target. */
  function Marked(q: Sched, t: Tid): Sched
    requires t in q.tasks
  {
    q.(tasks := q.tasks[t := q.tasks[t].(exited := true)], ready := WithoutTask(q.ready, t))
  }

  /** `kill_task` of another task. */
  function KillNext(q: Sched, t: Tid): Sched
    requires t in q.tasks
  {
    WakeNext(Marked(q, t), t)
  }

  function SwapRemove<T>(s: seq<T>, i: nat): (r: seq<T>)
    requires i < |s|
    ensures |r| == |s| - 1
  {
    if i == |s| - 1 then s[..i] else s[..i] + [s[|s| - 1]] + s[i + 1..|s| - 1]
  }

  predicate Live(q: Sched, s: Sleeper)
  {
    s.tid in q.tasks && q.tasks[s.tid].wakeAt == s.deadline && q.tasks[s.tid].state == Blocked
  }

  /** The scan of `timer_tick` from entry `i` on. */
  function TickFrom(q: Sched, i: nat, now: nat): Sched
    decreases |q.sleepers| - i
  {
    if i >= |q.sleepers| then q
    else
      var s := q.sleepers[i];
      if !Live(q, s) then TickFrom(q.(sleepers := SwapRemove(q.sleepers, i)), i, now)
      else if s.deadline <= now then TickFrom(WakeNext(q, s.tid).(sleepers := SwapRemove(q.sleepers, i)), i, now)
      else TickFrom(q, i + 1, now)
  }

  // ---------------------------------------------------------------- the machine

  datatype Step =
    | MakeTask(tid: Tid)
    | MakeReady(tid: Tid)
    | Wake(tid: Tid)
    | Yield
    | Block(deadline: Option<nat>)
    | Kill(tid: Tid)
    | Exit
    | Tick(now: nat)

  /** What callers respect: new tasks have new ids and are made ready once, nobody
      kills the running or the idle task, and the idle task neither blocks nor
      exits (the last two are asserted by the code). */
  predicate Allowed(q: Sched, st: Step)
  {
    match st
    case MakeTask(t) => t !in q.tasks
    case MakeReady(t) => t in q.tasks && t !in q.published && t != IDLE
    case Kill(t) => t in q.tasks && t != q.current && t != IDLE
    case Block(_) => q.current != IDLE
    case Exit => q.current != IDLE
    case _ => true
  }

  function Next(q: Sched, st: Step): Sched
    requires Inv(q) && Allowed(q, st)
  {
    match st
    case MakeTask(t) => q.(tasks := q.tasks[t := Task(Ready, 0, false)])
    case MakeReady(t) => q.(ready := q.ready + [t], published := q.published + {t})
    case Wake(t) => WakeNext(q, t)
    case Yield => ScheduleNext(q)
    case Block(d) => BlockNext(q, d)
    case Kill(t) => KillNext(q, t)
    case Exit => ExitNext(q)
    case Tick(now) => TickFrom(q, 0, now)
  }

  // ---------------------------------------------------------------- invariant

  predicate NoDup(s: seq<Tid>)
  {
    forall i, j :: 0 <= i < j < |s| ==> s[i] != s[j]
  }

  /** Everything about one task. */
  ghost predicate TaskOk(q: Sched, t: Tid)
    requires t in q.tasks
  {
    var k := q.tasks[t];
    && (k.state == Running ==> t == q.current)
    && (t in q.published && k.state == Ready && !k.exited ==> t in q.ready)
    && (t !in q.published && t != IDLE ==> k.state == Ready)
    && (k.state == Blocked && k.wakeAt != 0 ==> Sleeper(k.wakeAt, t) in q.sleepers)
    && (k.state != Blocked ==> k.wakeAt == 0)
    && (k.state == Dead ==> k.exited && (t in q.zombies || t in q.freed))
  }

  /** What holds even inside a step. */
  ghost predicate Core(q: Sched)
  {
    && IDLE in q.tasks && q.current in q.tasks
    && IDLE !in q.published && !q.tasks[IDLE].exited
    && (q.tasks[IDLE].state == Ready || q.tasks[IDLE].state == Running)
    && (forall t :: t in q.published ==> t in q.tasks)
    && (forall t :: t in q.ready ==> t in q.published && q.tasks[t].state == Ready)
    && NoDup(q.ready)
    && (forall t :: t in q.tasks ==> TaskOk(q, t))
    && (forall z :: z in q.freed ==> z in q.tasks && q.tasks[z].state == Dead)
  }

  /** A state in which `schedule` may be called: the current task is running, or
      has just blocked, or has just died and left itself as the one zombie. */
  ghost predicate Leaving(q: Sched)
  {
    && Core(q)
    && q.zombies == if q.tasks[q.current].state == Dead then [q.current] else []
  }

  ghost predicate Inv(q: Sched)
  {
    && Core(q)
    && q.zombies == []
    && q.tasks[q.current].state == Running
    && !q.tasks[q.current].exited
  }

  lemma BootInv()
    ensures Inv(Boot())
  {
  }

  // ---------------------------------------------------------------- what the invariant says

  lemma {:induction false} NoDupCount(s: seq<Tid>, t: Tid)
    requires NoDup(s)
    ensures multiset(s)[t] == if t in s then 1 else 0
  {
    if s != [] {
      assert s == [s[0]] + s[1..];
      assert forall i, j :: 0 <= i < j < |s[1..]| ==> s[1..][i] == s[i + 1] && s[1..][j] == s[j + 1];
      NoDupCount(s[1..], t);
      assert s[0] !in s[1..];
    }
  }

  /** Exactly one task runs; a live published task that is ready is queued once, a
      blocked, dead or running one never; the stack of a task is gone exactly once it has
      exited by itself. */
  lemma InvMeans(q: Sched, t: Tid)
    requires Inv(q) && t in q.tasks
    ensures q.tasks[t].state == Running <==> t == q.current
    ensures t in q.published && q.tasks[t].state == Ready && !q.tasks[t].exited ==> multiset(q.ready)[t] == 1
    ensures q.tasks[t].state == Blocked || q.tasks[t].state == Dead || t == q.current || t == IDLE ==>
              multiset(q.ready)[t] == 0
    ensures multiset(q.ready)[t] <= 1
    ensures t in q.freed <==> q.tasks[t].state == Dead
  {
    NoDupCount(q.ready, t);
    assert TaskOk(q, t);
  }

  // ---------------------------------------------------------------- every step keeps it

  lemma AppendNoDup(s: seq<Tid>, t: Tid)
    requires NoDup(s) && t !in s
    ensures NoDup(s + [t])
  {
  }

  lemma WakeKeepsInv(q: Sched, t: Tid)
    requires Inv(q)
    ensures Inv(WakeNext(q, t))
  {
    var r := WakeNext(q, t);
    if r != q {
      assert TaskOk(q, t);
      AppendNoDup(q.ready, t);
      forall u | u in r.tasks
        ensures TaskOk(r, u)
      {
        assert TaskOk(q, u);
      }
    }
  }

  lemma {:induction false} WithoutNoDup(s: seq<Tid>, t: Tid)
    requires NoDup(s)
    ensures NoDup(WithoutTask(s, t))
  {
    if s != [] {
      assert forall i, j :: 0 <= i < j < |s[1..]| ==> s[1..][i] == s[i + 1] && s[1..][j] == s[j + 1];
      WithoutNoDup(s[1..], t);
      assert s[0] !in s[1..];
    }
  }

  lemma MarkedInv(q: Sched, t: Tid)
    requires Inv(q) && t in q.tasks && t != q.current && t != IDLE
    ensures Inv(Marked(q, t))
  {
    var r := Marked(q, t);
    WithoutNoDup(q.ready, t);
    forall u | u in r.tasks
      ensures TaskOk(r, u)
    {
      assert TaskOk(q, u);
    }
  }

  lemma KillKeepsInv(q: Sched, t: Tid)
    requires Inv(q) && t in q.tasks && t != q.current && t != IDLE
    ensures Inv(KillNext(q, t))
  {
    MarkedInv(q, t);
    WakeKeepsInv(Marked(q, t), t);
  }

  /** The state handed to the picking loop: nobody is running. */
  ghost predicate Handed(q: Sched)
  {
    && Core(q)
    && q.tasks[q.current].state != Running
    && q.tasks[IDLE].state == Ready
  }

  lemma RequeuedHanded(q: Sched)
    requires Core(q)
    ensures Handed(Requeued(q))
  {
    var r := Requeued(q);
    assert TaskOk(q, q.current);
    assert TaskOk(q, IDLE);
    if q.tasks[q.current].state == Running && q.current != IDLE {
      AppendNoDup(q.ready, q.current);
    }
    forall u | u in r.tasks
      ensures TaskOk(r, u)
    {
      assert TaskOk(q, u);
    }
  }

  /** What is dropped from the head of the queue is a run of exited tasks, `n` of
      them, ending at a live one. */
  lemma {:induction false} DropExitedIs(ready: seq<Tid>, tasks: map<Tid, Task>) returns (n: nat)
    ensures n <= |ready| && DropExited(ready, tasks) == ready[n..]
    ensures n < |ready| && ready[n] in tasks ==> !tasks[ready[n]].exited
    ensures forall j :: 0 <= j < n ==> ready[j] in tasks && tasks[ready[j]].exited
  {
    if ready != [] && ready[0] in tasks && tasks[ready[0]].exited {
      var m := DropExitedIs(ready[1..], tasks);
      n := m + 1;
      assert ready[1..][m..] == ready[n..];
      assert forall j :: 0 < j < n ==> ready[j] == ready[1..][j - 1];
    } else {
      n := 0;
      assert ready[0..] == ready;
    }
  }

  /** Dropping the head of the queue loses no live task. */
  lemma DropExitedKeeps(ready: seq<Tid>, tasks: map<Tid, Task>)
    requires NoDup(ready)
    ensures var rest := DropExited(ready, tasks);
            && NoDup(rest)
            && (rest != [] && rest[0] in tasks ==> !tasks[rest[0]].exited)
            && (forall t :: t in rest ==> t in ready)
            && (forall t :: t in ready && t !in rest ==> t in tasks && tasks[t].exited)
  {
    var n := DropExitedIs(ready, tasks);
    assert ready == ready[..n] + ready[n..];
  }

  lemma TailNoDup(s: seq<Tid>)
    requires NoDup(s) && s != []
    ensures NoDup(s[1..]) && s[0] !in s[1..]
    ensures forall t :: t in s <==> t in s[1..] || t == s[0]
  {
    assert s == [s[0]] + s[1..];
  }

  lemma PickedTasks(q: Sched)
    requires Handed(q)
    ensures var p := Picked(q);
            p.current in p.tasks && !p.tasks[p.current].exited && p.tasks[p.current].state == Running
    ensures var n := Picked(q).current; n in q.tasks && Picked(q).tasks == q.tasks[n := q.tasks[n].(state := Running)]
    ensures Picked(q).current == IDLE || Picked(q).current in q.ready
    ensures NoDup(Picked(q).ready)
    ensures forall t :: t in Picked(q).ready ==> t in q.ready && t != Picked(q).current
    ensures forall t :: t in q.ready && !q.tasks[t].exited && t != Picked(q).current ==> t in Picked(q).ready
  {
    var rest := DropExited(q.ready, q.tasks);
    DropExitedKeeps(q.ready, q.tasks);
    if rest != [] {
      TailNoDup(rest);
      assert rest[0] in rest;
    }
  }

  lemma PickedCore(q: Sched)
    requires Handed(q)
    ensures Core(Picked(q))
  {
    var p := Picked(q);
    PickedTasks(q);
    forall t | t in p.tasks
      ensures TaskOk(p, t)
    {
      assert TaskOk(q, t);
    }
  }

  lemma ReapInv(p: Sched, dead: Tid)
    requires Core(p) && p.tasks[p.current].state == Running && !p.tasks[p.current].exited
    requires p.zombies == [] || (p.zombies == [dead] && dead in p.tasks && p.tasks[dead].state == Dead)
    ensures Inv(ReapNext(p))
  {
    var r := ReapNext(p);
    forall t | t in r.tasks
      ensures TaskOk(r, t)
    {
      assert TaskOk(p, t);
    }
  }

  lemma ScheduleKeepsInv(q: Sched)
    requires Leaving(q)
    ensures Inv(ScheduleNext(q))
  {
    RequeuedHanded(q);
    PickedTasks(Requeued(q));
    PickedCore(Requeued(q));
    var p := Picked(Requeued(q));
    if p.current != q.current {
      ReapInv(p, q.current);
    }
  }

  lemma ParkedLeaving(q: Sched, deadline: Option<nat>)
    requires Inv(q) && q.current != IDLE
    ensures Leaving(Parked(q, deadline))
  {
    var r := Parked(q, deadline);
    forall t | t in r.tasks
      ensures TaskOk(r, t)
    {
      assert TaskOk(q, t);
    }
  }

  lemma DiedLeaving(q: Sched)
    requires Inv(q) && q.current != IDLE
    ensures Leaving(Died(q))
  {
    var r := Died(q);
    forall t | t in r.tasks
      ensures TaskOk(r, t)
    {
      assert TaskOk(q, t);
    }
  }

  lemma SwapRemoveMembers<T>(s: seq<T>, i: nat, from: nat)
    requires from <= i < |s|
    ensures forall x :: x in SwapRemove(s, i)[from..] ==> x in s[from..]
    ensures forall x :: x in s[from..] && x != s[i] ==> x in SwapRemove(s, i)[from..]
  {
    var r := SwapRemove(s, i);
    forall x | x in r[from..]
      ensures x in s[from..]
    {
      var k :| from <= k < |r| && r[k] == x;
      assert x == if k == i then s[|s| - 1] else s[k];
      assert x == s[from..][if k == i then |s| - 1 - from else k - from];
    }
    forall x | x in s[from..] && x != s[i]
      ensures x in r[from..]
    {
      var k :| from <= k < |s| && s[k] == x;
      assert r[if k == |s| - 1 then i else k] == x;
      assert x == r[from..][if k == |s| - 1 then i - from else k - from];
    }
  }

  function Unslept(q: Sched, i: nat): Sched
    requires i < |q.sleepers|
  {
    q.(sleepers := SwapRemove(q.sleepers, i))
  }

  /** Dropping a sleeper entry that no longer stands for a sleep keeps the
      invariant. */
  lemma UnsleptInv(q: Sched, i: nat)
    requires Inv(q) && i < |q.sleepers| && !Live(q, q.sleepers[i])
    ensures Inv(Unslept(q, i))
  {
    var r := Unslept(q, i);
    SwapRemoveMembers(q.sleepers, i, 0);
    assert q.sleepers[0..] == q.sleepers && r.sleepers[0..] == r.sleepers;
    forall t | t in r.tasks
      ensures TaskOk(r, t)
    {
      assert TaskOk(q, t);
    }
  }

  lemma {:induction false} TickKeepsInv(q: Sched, i: nat, now: nat)
    requires Inv(q)
    ensures Inv(TickFrom(q, i, now))
    decreases |q.sleepers| - i
  {
    if i < |q.sleepers| {
      var s := q.sleepers[i];
      if !Live(q, s) {
        UnsleptInv(q, i);
        TickKeepsInv(Unslept(q, i), i, now);
      } else if s.deadline <= now {
        WakeKeepsInv(q, s.tid);
        UnsleptInv(WakeNext(q, s.tid), i);
        TickKeepsInv(Unslept(WakeNext(q, s.tid), i), i, now);
      } else {
        TickKeepsInv(q, i + 1, now);
      }
    }
  }

  lemma MakeKeepsInv(q: Sched, t: Tid)
    requires Inv(q)
    ensures t !in q.tasks ==> Inv(q.(tasks := q.tasks[t := Task(Ready, 0, false)]))
    ensures t in q.tasks && t !in q.published && t != IDLE ==>
              Inv(q.(ready := q.ready + [t], published := q.published + {t}))
  {
    var a := q.(tasks := q.tasks[t := Task(Ready, 0, false)]);
    var b := q.(ready := q.ready + [t], published := q.published + {t});
    forall u | u in q.tasks
      ensures u != t ==> TaskOk(a, u)
      ensures t in q.tasks && t !in q.published && t != IDLE ==> TaskOk(b, u)
    {
      assert TaskOk(q, u);
    }
  }

  /** Every step a caller may take keeps the run queue's invariant. */
  lemma NextKeepsInv(q: Sched, st: Step)
    requires Inv(q) && Allowed(q, st)
    ensures Inv(Next(q, st))
  {
    match st
    case MakeTask(t) => MakeKeepsInv(q, t);
    case MakeReady(t) => MakeKeepsInv(q, t);
    case Wake(t) => WakeKeepsInv(q, t);
    case Yield => ScheduleKeepsInv(q);
    case Block(d) =>
      ParkedLeaving(q, d);
      ScheduleKeepsInv(Parked(q, d));
    case Kill(t) => KillKeepsInv(q, t);
    case Exit =>
      DiedLeaving(q);
      ScheduleKeepsInv(Died(q));
    case Tick(now) => TickKeepsInv(q, 0, now);
  }
}
