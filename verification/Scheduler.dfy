/** The scheduler of kernel/thread/thread.c: task status and the two run lists. */
module Scheduler {
  import opened Chunks
  import opened Lists
  import opened Segment

  const IDLE: Tid := 0

  datatype Status = RUNNING | READY | BLOCKED | SLEEP | WAITING | HANGING | DIED {
    predicate Runnable() { RUNNING? || READY? }
  }

  /** The part of task_struct that scheduling and the process tree use. `linked` says that the
      links of general_tag are set: `remove` of list.c on a node that is in no list is harmless if
      they are not. RunLists has the links themselves. */
  datatype Task = Task(status: Status, linked: bool, pid: nat, ppid: nat, ticks: nat, priority: nat, sleepTicks: nat)

  /** ready_tasks, sleep_tasks, the tasks themselves and the running one. */
  datatype Sched = Sched(tasks: seq<Task>, ready: seq<Tid>, sleep: seq<Tid>, cur: Tid)

  /** Does this task wake up at the next tick? sleep_ticks is unsigned: 0 wraps around. */
  predicate Wakes(task: Task) {
    (task.sleepTicks + TWO32 - 1) % TWO32 == 0
  }

  /** The sleepers that the next tick wakes, in list order, and the others. */
  function Wakers(tasks: seq<Task>, l: seq<Tid>): (r: seq<Tid>) {
    if l == [] then []
    else (if l[0] < |tasks| && Wakes(tasks[l[0]]) then [l[0]] else []) + Wakers(tasks, l[1..])
  }

  function Stay(tasks: seq<Task>, l: seq<Tid>): (r: seq<Tid>) {
    if l == [] then []
    else (if l[0] < |tasks| && Wakes(tasks[l[0]]) then [] else [l[0]]) + Stay(tasks, l[1..])
  }

  function Ticked(task: Task, asleep: bool): (r: Task) {
    if !asleep then task
    else if Wakes(task) then task.(sleepTicks := 0, status := READY)
    else task.(sleepTicks := (task.sleepTicks + TWO32 - 1) % TWO32)
  }

  /** The first half of schedule: sleepers count down, and each one that is done goes to the
      front of ready_tasks. */
  function WakeSleepers(s: Sched): (r: Sched)
    ensures |r.tasks| == |s.tasks| && r.cur == s.cur
  {
    s.(tasks := seq(|s.tasks|, t requires 0 <= t < |s.tasks| => Ticked(s.tasks[t], t in s.sleep)),
       ready := Reversed(Wakers(s.tasks, s.sleep)) + s.ready,
       sleep := Stay(s.tasks, s.sleep))
  }

  /** The second half: keep the running task while it has ticks left, else switch to the first
      ready task; the old one is queued again only if it is still runnable. */
  function Dispatch(s: Sched): (r: Sched)
    ensures |r.tasks| == |s.tasks|
  {
    if s.cur >= |s.tasks| || (s.ready != [] && s.ready[0] >= |s.tasks|) then s else
    var c := s.tasks[s.cur];
    if c.status.RUNNING? && c.ticks > 0 then s.(tasks := s.tasks[s.cur := c.(ticks := c.ticks - 1)])
    else if s.ready == [] then s
    else
      var n := s.ready[0];
      var popped := s.tasks[n := s.tasks[n].(linked := false, ticks := s.tasks[n].priority)];
      if n == s.cur then s.(tasks := popped, ready := s.ready[1..])
      else
        var back := c.status.Runnable();
        var was := if back then c.(status := READY, linked := true) else c;
        Sched(popped[s.cur := was][n := popped[n].(status := RUNNING)],
              if back then s.ready[1..] + [s.cur] else s.ready[1..], s.sleep, n)
  }

  function Schedule(s: Sched): (r: Sched)
    ensures |r.tasks| == |s.tasks|
  {
    Dispatch(WakeSleepers(s))
  }

  /** _set_thread_status without its call of schedule. */
  function SetStatus(s: Sched, t: Tid, status: Status, first: bool): (r: Sched)
    requires t < |s.tasks|
    ensures |r.tasks| == |s.tasks|
  {
    var task := s.tasks[t];
    var push := !task.status.Runnable() && status.READY?;
    var ready := if push then (if first then [t] + s.ready else s.ready + [t])
                 else if !status.READY? then Remove(s.ready, t) else s.ready;
    s.(ready := ready,
       sleep := if status.SLEEP? then s.sleep + [t] else s.sleep,
       tasks := s.tasks[t := task.(status := status, linked := task.linked || push || status.SLEEP?)])
  }

  // ------------------------------------------------------------------ the invariant

  /** A runnable task is running or queued, a sleeping one is in sleep_tasks, and the links are
      set exactly for the tasks in a list. */
  ghost predicate Placed(s: Sched, t: Tid)
    requires t < |s.tasks|
  {
    && (s.tasks[t].status.Runnable() ==> t == s.cur || t in s.ready)
    && (s.tasks[t].status.SLEEP? ==> t in s.sleep)
    && (s.tasks[t].linked <==> t in s.ready || t in s.sleep)
  }

  /** Facts that hold whenever schedule is called. The running task is in no list, unless it has
      just put itself at the end of sleep_tasks. */
  ghost predicate Pre(s: Sched) {
    && s.cur < |s.tasks|
    && NoDup(s.ready) && NoDup(s.sleep)
    && (forall t :: t in s.ready ==> t < |s.tasks| && t != s.cur && s.tasks[t].status.Runnable())
    && (forall t :: t in s.sleep ==> t < |s.tasks| && s.tasks[t].status.SLEEP?)
    && (forall t :: 0 <= t < |s.tasks| ==> Placed(s, t))
    && (s.tasks[s.cur].status.SLEEP? ==> s.sleep != [] && s.sleep[|s.sleep| - 1] == s.cur)
    && IDLE < |s.tasks| && s.tasks[IDLE].status.Runnable()
  }

  /** What holds between two steps: moreover the running task is runnable. */
  ghost predicate Inv(s: Sched) {
    Pre(s) && s.tasks[s.cur].status.Runnable()
  }

  lemma {:induction false} WakersMember(tasks: seq<Task>, l: seq<Tid>, t: Tid)
    requires t < |tasks|
    ensures t in Wakers(tasks, l) <==> t in l && Wakes(tasks[t])
    ensures t in Stay(tasks, l) <==> t in l && !Wakes(tasks[t])
  {
    hide Wakes;
    if l != [] {
      WakersMember(tasks, l[1..], t);
    }
  }

  lemma {:induction false} WakersFrom(tasks: seq<Task>, l: seq<Tid>, t: Tid)
    ensures t in Wakers(tasks, l) ==> t in l && t < |tasks|
    ensures t in Stay(tasks, l) ==> t in l
  {
    hide Wakes;
    if l != [] {
      WakersFrom(tasks, l[1..], t);
    }
  }

  lemma {:induction false} WakersNoDup(tasks: seq<Task>, l: seq<Tid>)
    requires NoDup(l)
    ensures NoDup(Wakers(tasks, l)) && NoDup(Stay(tasks, l))
  {
    hide Wakes;
    if l != [] {
      WakersNoDup(tasks, l[1..]);
      WakersFrom(tasks, l[1..], l[0]);
      assert l[0] !in l[1..];
    }
  }

  /** The last sleeper, if it wakes, is the last one to be woken. */
  lemma {:induction false} WakersLast(tasks: seq<Task>, l: seq<Tid>)
    requires l != [] && l[|l| - 1] < |tasks| && Wakes(tasks[l[|l| - 1]])
    ensures var w := Wakers(tasks, l); w != [] && w[|w| - 1] == l[|l| - 1]
  {
    hide Wakes;
    if |l| > 1 {
      WakersLast(tasks, l[1..]);
    } else {
      assert l[1..] == [];
    }
  }

  /** After the sleepers were woken: the running task may be the first of ready_tasks. */
  ghost predicate Mid(s: Sched) {
    && s.cur < |s.tasks|
    && NoDup(s.ready) && NoDup(s.sleep)
    && (forall t :: t in s.ready ==> t < |s.tasks| && s.tasks[t].status.Runnable())
    && (s.cur in s.ready ==> s.ready[0] == s.cur && s.tasks[s.cur].status.READY?)
    && (forall t :: t in s.sleep ==> t < |s.tasks| && s.tasks[t].status.SLEEP?)
    && (forall t :: 0 <= t < |s.tasks| ==> Placed(s, t))
    && IDLE < |s.tasks| && s.tasks[IDLE].status.Runnable()
  }

  lemma {:induction false} RevMember(s: seq<Tid>, t: Tid)
    ensures t in Reversed(s) <==> t in s
  {
    if t in s {
      var i :| 0 <= i < |s| && s[i] == t;
      assert Reversed(s)[|s| - 1 - i] == t;
    }
  }

  lemma {:induction false} RevNoDup(s: seq<Tid>)
    requires NoDup(s)
    ensures NoDup(Reversed(s))
  {
  }

  lemma {:induction false} WakeMember(s: Sched, t: Tid)
    requires Pre(s)
    ensures var r := WakeSleepers(s);
            && (t in r.ready <==> t in s.ready || (t in s.sleep && Wakes(s.tasks[t])))
            && (t in r.sleep <==> t in s.sleep && !Wakes(s.tasks[t]))
  {
    hide Wakes, Wakers, Stay, NoDup, Reversed;
    RevMember(Wakers(s.tasks, s.sleep), t);
    WakersFrom(s.tasks, s.sleep, t);
    if t < |s.tasks| {
      WakersMember(s.tasks, s.sleep, t);
    }
  }

  lemma {:induction false} WakeNoDup(s: Sched)
    requires Pre(s)
    ensures NoDup(WakeSleepers(s).ready) && NoDup(WakeSleepers(s).sleep)
  {
    hide Wakers, Stay, NoDup, Reversed, Placed;
    var w := Wakers(s.tasks, s.sleep);
    WakersNoDup(s.tasks, s.sleep);
    RevNoDup(w);
    forall t | t in Reversed(w) ensures t !in s.ready {
      RevMember(w, t);
      WakersFrom(s.tasks, s.sleep, t);
    }
    NoDupAppend(Reversed(w), s.ready);
  }

  /** A task that goes to sleep for one tick only is the last sleeper, so it is woken last and
      stands first in ready_tasks. */
  lemma {:induction false} WakeFirst(s: Sched)
    requires Pre(s)
    ensures s.cur in WakeSleepers(s).ready ==> WakeSleepers(s).ready[0] == s.cur
  {
    hide Wakes, Wakers, Stay, NoDup, Placed;
    var r := WakeSleepers(s);
    if s.cur in r.ready {
      WakeMember(s, s.cur);
      WakersLast(s.tasks, s.sleep);
      assert r.ready[0] == Reversed(Wakers(s.tasks, s.sleep))[0];
    }
  }

  lemma {:induction false} WakeSleepersMid(s: Sched)
    requires Pre(s)
    ensures Mid(WakeSleepers(s))
  {
    hide Wakers, Stay, Reversed, NoDup;
    var r := WakeSleepers(s);
    WakeNoDup(s);
    WakeFirst(s);
    forall t: Tid {
      WakeMember(s, t);
    }
    forall t | 0 <= t < |r.tasks| ensures Placed(r, t) {
      assert Placed(s, t);
    }
  }

  lemma {:induction false} DispatchInv(s: Sched)
    requires Mid(s)
    ensures Inv(Dispatch(s))
  {
    hide NoDup, Placed;
    OnlyIdleLeft(s);
    if s.ready != [] {
      assert s.ready[0] in s.ready;
      PopFacts(s.ready);
      PushFacts(s.ready[1..], s.cur);
    }
    var r := Dispatch(s);
    forall t | 0 <= t < |r.tasks| ensures Placed(r, t) {
      DispatchPlaced(s, t);
    }
  }

  /** The idle thread is always runnable: an empty ready list means that it is running. */
  lemma {:induction false} OnlyIdleLeft(s: Sched)
    requires Mid(s)
    ensures s.ready == [] ==> s.cur == IDLE
  {
    assert Placed(s, IDLE);
  }

  lemma {:induction false} DispatchPlaced(s: Sched, t: Tid)
    requires Mid(s) && t < |s.tasks|
    ensures Placed(Dispatch(s), t)
  {
    hide NoDup;
    assert Placed(s, t);
    if s.ready != [] {
      assert s.ready[0] in s.ready;
      PopFacts(s.ready);
      PushFacts(s.ready[1..], s.cur);
    }
  }

  /** Scheduler safety: schedule restores the invariant, whatever made the caller give up the
      processor. */
  lemma {:induction false} ScheduleInv(s: Sched)
    requires Pre(s)
    ensures Inv(Schedule(s))
  {
    hide Pre, Mid, Inv, Dispatch, WakeSleepers;
    WakeSleepersMid(s);
    DispatchInv(WakeSleepers(s));
  }

  /** schedule only moves tasks between RUNNING, READY and SLEEP, and changes no pid. */
  ghost predicate OnlyRunStates(a: Task, b: Task) {
    && a.pid == b.pid && a.ppid == b.ppid
    && (a.status == b.status || (b.status.Runnable() && (a.status.Runnable() || a.status.SLEEP?)))
  }

  lemma {:induction false} ScheduleFrame(s: Sched, t: Tid)
    requires Pre(s) && t < |s.tasks|
    ensures |Schedule(s).tasks| == |s.tasks| && OnlyRunStates(s.tasks[t], Schedule(s).tasks[t])
  {
    hide NoDup, Wakers, Stay, Reversed, Wakes;
    WakeSleepersMid(s);
    var m := WakeSleepers(s);
    assert OnlyRunStates(s.tasks[t], m.tasks[t]);
    DispatchFrame(m, t);
  }

  lemma {:induction false} DispatchFrame(s: Sched, t: Tid)
    requires Mid(s) && t < |s.tasks|
    ensures OnlyRunStates(s.tasks[t], Dispatch(s).tasks[t])
  {
    if s.ready != [] {
      assert s.ready[0] in s.ready;
    }
  }

  // ------------------------------------------------------------------ the callers of schedule

  /** The running task gives up the processor: thread_yield, thread_sleep, thread_block and the
      end of process_exit. `remove` finds it in no list and its links unset. */
  lemma {:induction false} GiveUp(s: Sched, status: Status)
    requires Inv(s) && !status.RUNNING? && (status.READY? || s.cur != IDLE)
    ensures s.cur !in s.ready && !s.tasks[s.cur].linked
    ensures Pre(SetStatus(s, s.cur, status, false))
  {
    assert Placed(s, s.cur);
    RemoveAbsent(s.ready, s.cur);
    PushFacts(s.sleep, s.cur);
    var r := SetStatus(s, s.cur, status, false);
    forall t | 0 <= t < |r.tasks| ensures Placed(r, t) {
      assert Placed(s, t);
    }
  }

  /** thread_ready for a task that is neither runnable nor asleep. */
  lemma {:induction false} MakeReady(s: Sched, w: Tid, first: bool)
    requires Inv(s) && w < |s.tasks| && !s.tasks[w].status.Runnable() && !s.tasks[w].status.SLEEP?
    ensures Inv(SetStatus(s, w, READY, first))
  {
    PushFacts(s.ready, w);
    NoDupAppend([w], s.ready);
    var r := SetStatus(s, w, READY, first);
    forall t | 0 <= t < |r.tasks| ensures Placed(r, t) {
      assert Placed(s, t);
    }
  }

  /** thread_exit of a task that hangs: no list holds it and its links are unset. */
  lemma {:induction false} Bury(s: Sched, h: Tid)
    requires Inv(s) && h < |s.tasks| && s.tasks[h].status.HANGING?
    ensures h !in s.ready && !s.tasks[h].linked
    ensures Inv(SetStatus(s, h, DIED, false))
  {
    assert Placed(s, h);
    RemoveAbsent(s.ready, h);
    var r := SetStatus(s, h, DIED, false);
    forall t | 0 <= t < |r.tasks| ensures Placed(r, t) {
      assert Placed(s, t);
    }
  }

  /** A forked task: a copy of the running one at the end of ready_tasks. */
  function Spawn(s: Sched, pid: nat, ppid: nat): (r: Sched)
    requires s.cur < |s.tasks|
  {
    s.(tasks := s.tasks + [s.tasks[s.cur].(pid := pid, ppid := ppid, linked := true)], ready := s.ready + [|s.tasks|])
  }

  lemma {:induction false} SpawnInv(s: Sched, pid: nat, ppid: nat)
    requires Inv(s)
    ensures Inv(Spawn(s, pid, ppid))
  {
    var n, r := |s.tasks|, Spawn(s, pid, ppid);
    PushFacts(s.ready, n);
    forall t | 0 <= t < |r.tasks| ensures Placed(r, t) {
      if t < n {
        assert Placed(s, t);
      }
    }
  }
}
